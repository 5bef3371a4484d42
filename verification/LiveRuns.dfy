/** Both paths of a new token over the same tables and the same cache, one token at a time, through
    restarts: what is announced again and what is not. */
module LiveRuns {
  import opened Common
  import D = Database
  import C = Duplicates
  import P = SlowPath

  /** The tables survive a restart, the cache does not; `emitted` is everything announced so far. */
  datatype Live = Live(tables: D.Tables, records: seq<C.Record>, emitted: seq<C.Emission>)

  /** `fetched` is None when the metadata could not be fetched; a database that is not up answers the
      fast path with no duplicate. `passed` says that the community checks let the token through. */
  datatype Turn =
    | FastTurn(create: C.Create, fetched: Option<C.Metadata>, up: bool, late: bool)
    | SlowTurn(mint: string, dev: string, token: D.DbToken, passed: bool)
    | HighTurn(pool: string, ath: i64)
    | RestartTurn

  /** The fast path asks the database before it has the metadata: without image and description. */
  ghost predicate KnownToDatabase(l: Live, c: C.Create, up: bool) {
    up && C.TokenAnyExists(l.tables.tokens, C.Query(c, None))
  }

  ghost predicate Announced(l: Live, c: C.Create, fetched: Option<C.Metadata>, up: bool, late: bool) {
    C.Announces(C.Build(l.records), c, fetched, KnownToDatabase(l, c, up), late)
  }

  ghost predicate Stored(l: Live, token: D.DbToken, passed: bool) {
    && !C.Check(C.Build(l.records), C.Raw(token))
    && !C.TokenAnyExists(l.tables.tokens, C.Raw(token))
    && passed
  }

  ghost function After(l: Live, turn: Turn): Live {
    match turn
    case FastTurn(c, fetched, up, late) =>
      if Announced(l, c, fetched, up, late) then
        Live(l.tables, l.records + (if fetched.Some? then [C.Query(c, fetched)] else []),
             l.emitted + [C.Emission(c, fetched)])
      else l
    case SlowTurn(mint, dev, token, passed) =>
      if Stored(l, token, passed) then
        Live(D.Apply(l.tables, D.Add(mint, dev, token)), l.records + [C.Raw(token)], l.emitted)
      else l
    case HighTurn(pool, ath) => l.(tables := D.Apply(l.tables, D.Raise(pool, ath)))
    case RestartTurn => l.(records := [])
  }

  /** From the tables that the first process found. */
  ghost function Run(t: D.Tables, turns: seq<Turn>): Live {
    if turns == [] then Live(t, [], []) else After(Run(t, turns[..|turns| - 1]), turns[|turns| - 1])
  }

  lemma RunSnoc(t: D.Tables, turns: seq<Turn>, turn: Turn)
    ensures Run(t, turns + [turn]) == After(Run(t, turns), turn)
  {
    assert (turns + [turn])[..|turns + [turn]| - 1] == turns;
  }

  // ---------- The same as atomic steps ----------

  ghost function Moves(l: Live, turn: Turn): seq<P.Move> {
    match turn
    case FastTurn(c, fetched, up, late) =>
      if Announced(l, c, fetched, up, late) && fetched.Some? then [P.Remember(C.Query(c, fetched))] else []
    case SlowTurn(mint, dev, token, passed) =>
      if Stored(l, token, passed) then [P.Store(mint, dev, token), P.Put(0)] else []
    case HighTurn(pool, ath) => [P.RaiseHigh(pool, ath)]
    case RestartTurn => [P.Restart]
  }

  ghost function AllMoves(t: D.Tables, turns: seq<Turn>): seq<P.Move> {
    if turns == [] then []
    else AllMoves(t, turns[..|turns| - 1]) + Moves(Run(t, turns[..|turns| - 1]), turns[|turns| - 1])
  }

  function Both(l: Live): P.Both {
    P.Both(l.tables, l.records, [])
  }

  lemma SlowIsMoves(t: D.Tables, moves: seq<P.Move>, l: Live, turn: Turn)
    requires P.RunFrom(t, moves) == Both(l) && turn.SlowTurn?
    ensures P.RunFrom(t, moves + Moves(l, turn)) == Both(After(l, turn))
  {
    if Stored(l, turn.token, turn.passed) {
      P.StoreAndPutRuns(t, moves, turn.mint, turn.dev, turn.token);
    } else {
      assert moves + [] == moves;
    }
  }

  lemma StepIsMoves(t: D.Tables, moves: seq<P.Move>, l: Live, turn: Turn)
    requires P.RunFrom(t, moves) == Both(l)
    ensures P.RunFrom(t, moves + Moves(l, turn)) == Both(After(l, turn))
  {
    match turn {
      case FastTurn(c, fetched, up, late) =>
        if Announced(l, c, fetched, up, late) && fetched.Some? {
          P.RunSnoc(t, moves, P.Remember(C.Query(c, fetched)));
        } else {
          assert moves + [] == moves;
        }
      case SlowTurn(_, _, _, _) => SlowIsMoves(t, moves, l, turn);
      case HighTurn(pool, ath) => P.RunSnoc(t, moves, P.RaiseHigh(pool, ath));
      case RestartTurn => P.RunSnoc(t, moves, P.Restart);
    }
  }

  /** Tables and cache move as some run of atomic steps moves them, so what holds of those holds here. */
  lemma {:induction false} RunIsMoves(t: D.Tables, turns: seq<Turn>)
    ensures P.RunFrom(t, AllMoves(t, turns)) == Both(Run(t, turns))
  {
    if turns != [] {
      var most := turns[..|turns| - 1];
      RunIsMoves(t, most);
      StepIsMoves(t, AllMoves(t, most), Run(t, most), turns[|turns| - 1]);
    }
  }

  // ---------- What is announced ----------

  /** The row has the link of the create, or both its name and its ticker. */
  predicate Repeats(row: D.Row, c: C.Create) {
    row.ipfs == Some(c.uri) || (row.name == Some(c.name) && row.ticker == Some(c.symbol))
  }

  lemma FastQueryIff(tokens: map<string, D.Row>, c: C.Create)
    ensures C.TokenAnyExists(tokens, C.Query(c, None)) <==> exists m :: m in tokens && Repeats(tokens[m], c)
  {
    forall m | m in tokens ensures C.Where(tokens[m], C.Query(c, None)) == C.Yes <==> Repeats(tokens[m], c) {
    }
  }

  /** Nothing cached shares with the create and, if its metadata was fetched, it is in time and no row has
      its link or its name with its ticker. An image, or a description with a ticker, that only a row has
      does not count. */
  ghost predicate Novel(l: Live, c: C.Create, fetched: Option<C.Metadata>, up: bool, late: bool) {
    && (forall r | r in l.records :: !C.Shares(r, C.Query(c, fetched)))
    && (fetched.Some? ==>
          !late && (up ==> forall m | m in l.tables.tokens :: !Repeats(l.tables.tokens[m], c)))
  }

  /** In every state: a novel create is announced, and remembered if it has metadata; any other changes
      nothing. */
  lemma AnnouncedIff(l: Live, c: C.Create, fetched: Option<C.Metadata>, up: bool, late: bool)
    ensures After(l, FastTurn(c, fetched, up, late)).emitted == l.emitted + [C.Emission(c, fetched)]
       <==> Novel(l, c, fetched, up, late)
    ensures After(l, FastTurn(c, fetched, up, late))
         == if !Novel(l, c, fetched, up, late) then l
            else if fetched == None then l.(emitted := l.emitted + [C.Emission(c, fetched)])
            else
              Live(l.tables,
                   l.records + [C.Record(fetched.value.image, Some(c.uri), fetched.value.description,
                                         Some(c.name), Some(c.symbol))],
                   l.emitted + [C.Emission(c, fetched)])
  {
    C.CheckIff(l.records, C.Query(c, fetched));
    FastQueryIff(l.tables.tokens, c);
    assert l.records + [] == l.records;
  }

  // ---------- What is stored ----------

  /** The row has the image or the link of the token, or two of its description, name and ticker, as they
      came. */
  predicate Knows(row: D.Row, token: D.DbToken) {
    || (token.image.Some? && row.image == token.image)
    || (token.ipfs.Some? && row.ipfs == token.ipfs)
    || (token.description.Some? && row.description == token.description
        && (row.name == Some(token.name) || row.ticker == Some(token.ticker)))
    || (row.name == Some(token.name) && row.ticker == Some(token.ticker))
  }

  /** The entry has the image, the link or the name of the token, or its description with its ticker. */
  predicate Holds(r: C.Record, token: D.DbToken) {
    || (token.image.Some? && r.image == token.image)
    || (token.ipfs.Some? && r.ipfs == token.ipfs)
    || r.name == Some(token.name)
    || (token.description.Some? && r.description == token.description && r.ticker == Some(token.ticker))
  }

  lemma SlowQueryIff(tokens: map<string, D.Row>, token: D.DbToken)
    ensures C.TokenAnyExists(tokens, C.Raw(token)) <==> exists m :: m in tokens && Knows(tokens[m], token)
  {
    forall m | m in tokens ensures C.Where(tokens[m], C.Raw(token)) == C.Yes <==> Knows(tokens[m], token) {
    }
  }

  ghost predicate NovelToken(l: Live, token: D.DbToken, passed: bool) {
    && passed
    && (forall r | r in l.records :: !Holds(r, token))
    && (forall m | m in l.tables.tokens :: !Knows(l.tables.tokens[m], token))
  }

  /** In every state: the slow path caches a token exactly when the community checks pass, no entry holds
      it and no row knows it; the table then takes it unless the transaction is rolled back. Any other
      token changes nothing. */
  lemma StoredIff(l: Live, mint: string, dev: string, token: D.DbToken, passed: bool)
    ensures After(l, SlowTurn(mint, dev, token, passed)).records == l.records + [C.Raw(token)]
       <==> NovelToken(l, token, passed)
    ensures var v := After(l, SlowTurn(mint, dev, token, passed));
            var added := D.AddToken(l.tables, mint, dev, token);
            && v.emitted == l.emitted
            && v.tables == (if NovelToken(l, token, passed) && added.Some? then added.value else l.tables)
            && (!NovelToken(l, token, passed) ==> v == l)
  {
    C.CheckIff(l.records, C.Raw(token));
    forall r ensures C.Shares(r, C.Raw(token)) <==> Holds(r, token) {
    }
    SlowQueryIff(l.tables.tokens, token);
  }

  /** Right after a restart only link and name with ticker keep a stored token from being announced again,
      and nothing does if its metadata cannot be fetched. */
  lemma AnnouncedAfterRestartIff(t: D.Tables, turns: seq<Turn>, l: Live, c: C.Create, fetched: Option<C.Metadata>)
    requires l == Run(t, turns + [RestartTurn])
    ensures After(l, FastTurn(c, fetched, true, false)).emitted == l.emitted + [C.Emission(c, fetched)]
       <==> fetched == None || forall m | m in l.tables.tokens :: !Repeats(l.tables.tokens[m], c)
  {
    RunSnoc(t, turns, RestartTurn);
    AnnouncedIff(l, c, fetched, true, false);
  }

  // ---------- A row over runs ----------

  predicate NotStoredAgain(turns: seq<Turn>, mint: string) {
    forall x | x in turns && x.SlowTurn? :: x.mint != mint
  }

  lemma RowStep(l: Live, turn: Turn, mint: string)
    requires mint in l.tables.tokens && (turn.SlowTurn? ==> turn.mint != mint)
    ensures var v := After(l, turn);
            mint in v.tables.tokens && C.RecordOf(v.tables.tokens[mint]) == C.RecordOf(l.tables.tokens[mint])
  {
  }

  lemma {:induction false} RowStays(t: D.Tables, turns: seq<Turn>, more: seq<Turn>, mint: string)
    requires mint in Run(t, turns).tables.tokens && NotStoredAgain(more, mint)
    ensures var l, v := Run(t, turns), Run(t, turns + more);
            mint in v.tables.tokens && C.RecordOf(v.tables.tokens[mint]) == C.RecordOf(l.tables.tokens[mint])
    decreases |more|
  {
    if more == [] {
      assert turns + [] == turns;
    } else {
      var most, x := more[..|more| - 1], more[|more| - 1];
      assert turns + more == (turns + most) + [x];
      assert x in more;
      RowStays(t, turns, most, mint);
      RunSnoc(t, turns + most, x);
      RowStep(Run(t, turns + most), x, mint);
    }
  }

  /** A stored token's link, and its name with its ticker, are never announced again with metadata while
      the database answers: not after any number of restarts, as long as its mint is not stored anew. */
  lemma StoredIsNotRepeated(t: D.Tables, turns: seq<Turn>, more: seq<Turn>, mint: string,
                            c: C.Create, m: C.Metadata, late: bool)
    requires mint in Run(t, turns).tables.tokens && NotStoredAgain(more, mint)
    requires Repeats(Run(t, turns).tables.tokens[mint], c)
    ensures Run(t, turns + more + [FastTurn(c, Some(m), true, late)]) == Run(t, turns + more)
  {
    RowStays(t, turns, more, mint);
    var l := Run(t, turns + more);
    FastQueryIff(l.tables.tokens, c);
    assert Repeats(l.tables.tokens[mint], c) by {
      assert C.RecordOf(l.tables.tokens[mint]) == C.RecordOf(Run(t, turns).tables.tokens[mint]);
    }
    RunSnoc(t, turns + more, FastTurn(c, Some(m), true, late));
  }

  // ---------- A row found at the start stays uncovered ----------

  predicate DatabaseAnswers(turns: seq<Turn>) {
    forall x | x in turns && x.FastTurn? :: x.up
  }

  ghost predicate LinkUnheld(l: Live, link: string) {
    forall r | r in l.records :: r.ipfs != Some(link)
  }

  lemma LinkStep(l: Live, turn: Turn, mint: string, link: string)
    requires mint in l.tables.tokens && l.tables.tokens[mint].ipfs == Some(link) && LinkUnheld(l, link)
    requires turn.FastTurn? ==> turn.up
    ensures LinkUnheld(After(l, turn), link)
  {
    if turn.FastTurn? && turn.create.uri == link {
      FastQueryIff(l.tables.tokens, turn.create);
      assert Repeats(l.tables.tokens[mint], turn.create);
    }
    if turn.SlowTurn? && turn.token.ipfs == Some(link) {
      assert C.Where(l.tables.tokens[mint], C.Raw(turn.token)) == C.Yes;
    }
  }

  lemma {:induction false} LinkStaysUnheld(t: D.Tables, turns: seq<Turn>, mint: string, link: string)
    requires mint in t.tokens && t.tokens[mint].ipfs == Some(link)
    requires NotStoredAgain(turns, mint) && DatabaseAnswers(turns)
    ensures LinkUnheld(Run(t, turns), link)
  {
    if turns != [] {
      var most, x := turns[..|turns| - 1], turns[|turns| - 1];
      assert x in turns;
      LinkStaysUnheld(t, most, mint, link);
      assert [] + most == most;
      RowStays(t, [], most, mint);
      assert C.RecordOf(Run(t, most).tables.tokens[mint]).ipfs == C.RecordOf(t.tokens[mint]).ipfs;
      LinkStep(Run(t, most), x, mint, link);
    }
  }

  /** While the database answers, no record with the link of a row that the process found ever enters the
      cache: the database itself keeps it out. So the row is never covered, and the database check never
      becomes redundant again. */
  lemma FoundRowsStayUncovered(t: D.Tables, turns: seq<Turn>, mint: string, link: string)
    requires mint in t.tokens && t.tokens[mint].ipfs == Some(link)
    requires NotStoredAgain(turns, mint) && DatabaseAnswers(turns)
    ensures var l := Run(t, turns);
            var q := C.Record(None, Some(link), None, None, None);
            && C.TokenAnyExists(l.tables.tokens, q) && !C.Check(C.Build(l.records), q)
            && !P.Redundant(Both(l))
  {
    var l, q := Run(t, turns), C.Record(None, Some(link), None, None, None);
    LinkStaysUnheld(t, turns, mint, link);
    assert [] + turns == turns;
    RowStays(t, [], turns, mint);
    P.LinkAnswers(Both(l), mint, Some(link), q);
  }
}
