/** The slow path of a new token: it is added to the database and then to the cache. The tables outlive
    the process, the cache does not; the theorems say when the cache answers for every row. */
module SlowPath {
  import opened Common
  import opened TextOps
  import opened Database
  import opened Duplicates

  /** `waiting` are the tokens already given to the database and not yet to the cache. */
  datatype Both = Both(tables: Tables, records: seq<Record>, waiting: seq<Record>) {
    ghost predicate Holds(r: Record) {
      r in records || r in waiting
    }
  }

  const NO_TABLES := Tables(map[], map[])

  /** A process starts with the tables it finds and a cache without entries. */
  function Started(t: Tables): Both {
    Both(t, [], [])
  }

  /** The atomic steps. A failing `add_token` is ignored, so its token goes to the cache all the same.
      `Remember` is an insertion by the fast path; checks change nothing. */
  datatype Move =
    | Store(mint: string, dev: string, token: DbToken)
    | Put(index: nat)
    | Remember(record: Record)
    | RaiseHigh(pool: string, ath: i64)
    | Restart

  function After(b: Both, a: Move): Both {
    match a
    case Store(mint, dev, token) =>
      Both(Apply(b.tables, Add(mint, dev, token)), b.records, b.waiting + [Raw(token)])
    case Put(i) =>
      if i < |b.waiting| then
        Both(b.tables, b.records + [b.waiting[i]], b.waiting[..i] + b.waiting[i + 1..])
      else b
    case Remember(r) => b.(records := b.records + [r])
    case RaiseHigh(pool, ath) => b.(tables := Apply(b.tables, Raise(pool, ath)))
    case Restart => Started(b.tables)
  }

  function RunFrom(t: Tables, moves: seq<Move>): Both {
    if moves == [] then Started(t) else After(RunFrom(t, moves[..|moves| - 1]), moves[|moves| - 1])
  }

  lemma RunSnoc(t: Tables, moves: seq<Move>, a: Move)
    ensures RunFrom(t, moves + [a]) == After(RunFrom(t, moves), a)
  {
    assert (moves + [a])[..|moves + [a]| - 1] == moves;
  }

  /** A token stored and put into the cache with nothing in between. */
  function StoreAndPut(b: Both, mint: string, dev: string, token: DbToken): Both {
    Both(Apply(b.tables, Add(mint, dev, token)), b.records + [Raw(token)], b.waiting)
  }

  lemma PutIsNext(b: Both, mint: string, dev: string, token: DbToken)
    requires b.waiting == []
    ensures After(After(b, Store(mint, dev, token)), Put(0)) == StoreAndPut(b, mint, dev, token)
  {
  }

  lemma StoreAndPutRuns(t: Tables, moves: seq<Move>, mint: string, dev: string, token: DbToken)
    requires RunFrom(t, moves).waiting == []
    ensures RunFrom(t, moves + [Store(mint, dev, token), Put(0)])
         == StoreAndPut(RunFrom(t, moves), mint, dev, token)
  {
    var s := Store(mint, dev, token);
    RunSnoc(t, moves, s);
    RunSnoc(t, moves + [s], Put(0));
    assert moves + [s] + [Put(0)] == moves + [s, Put(0)];
    PutIsNext(RunFrom(t, moves), mint, dev, token);
  }

  /** Any run, through any number of restarts, ends as a run without restarts from the tables that the
      last start found. */
  lemma {:induction false} SinceStart(t: Tables, moves: seq<Move>) returns (found: Tables, n: nat)
    ensures n <= |moves| && Restart !in moves[n..]
    ensures found == RunFrom(t, moves[..n]).tables
    ensures RunFrom(t, moves) == RunFrom(found, moves[n..])
  {
    if moves == [] {
      found, n := t, 0;
    } else if moves[|moves| - 1] == Restart {
      found, n := RunFrom(t, moves).tables, |moves|;
      assert moves[..n] == moves;
    } else {
      var most, a := moves[..|moves| - 1], moves[|moves| - 1];
      found, n := SinceStart(t, most);
      assert most[..n] == moves[..n];
      assert moves[n..] == most[n..] + [a];
      RunSnoc(found, most[n..], a);
    }
  }

  // ---------- When a row is covered ----------

  /** Whatever the row answers for, some record held does too. */
  ghost predicate RowCovered(row: Row, b: Both) {
    forall q :: Where(row, q) == Yes ==> exists r :: b.Holds(r) && Shares(r, q)
  }

  ghost predicate ImageHeld(row: Row, b: Both) {
    row.image.Some? ==> exists r :: b.Holds(r) && r.image == row.image
  }

  ghost predicate LinkHeld(row: Row, b: Both) {
    row.ipfs.Some? ==> exists r :: b.Holds(r) && r.ipfs == row.ipfs
  }

  /** A name is asked for with a ticker or a description. */
  ghost predicate NameHeld(row: Row, b: Both) {
    row.name.Some? && (row.ticker.Some? || row.description.Some?) ==>
      exists r :: b.Holds(r) && r.name == row.name
  }

  /** The description and the ticker, together. */
  ghost predicate PairHeld(row: Row, b: Both) {
    row.description.Some? && row.ticker.Some? ==>
      exists r :: b.Holds(r) && r.description == row.description && r.ticker == row.ticker
  }

  lemma CoveredNeeds(row: Row, b: Both)
    requires RowCovered(row, b)
    ensures ImageHeld(row, b) && LinkHeld(row, b) && NameHeld(row, b) && PairHeld(row, b)
  {
    assert row.image.Some? ==> Where(row, Record(row.image, None, None, None, None)) == Yes;
    assert row.ipfs.Some? ==> Where(row, Record(None, row.ipfs, None, None, None)) == Yes;
    CoveredName(row, b);
    assert row.description.Some? && row.ticker.Some? ==>
        Where(row, Record(None, None, row.description, None, row.ticker)) == Yes;
  }

  lemma CoveredName(row: Row, b: Both)
    requires RowCovered(row, b)
    ensures NameHeld(row, b)
  {
    assert row.name.Some? && row.ticker.Some? ==> Where(row, Record(None, None, None, row.name, row.ticker)) == Yes;
    assert row.name.Some? && row.description.Some? ==>
        Where(row, Record(None, None, row.description, row.name, None)) == Yes;
  }

  /** A row is covered exactly when its image, its link and its name are held, and the description
      together with the ticker by one record. */
  lemma RowCoveredIff(row: Row, b: Both)
    ensures RowCovered(row, b)
       <==> ImageHeld(row, b) && LinkHeld(row, b) && NameHeld(row, b) && PairHeld(row, b)
  {
    if RowCovered(row, b) { CoveredNeeds(row, b); }
  }

  // ---------- Runs ----------

  predicate CleanOrNone(s: Option<string>) {
    s.Some? ==> IsClean(s.value)
  }

  predicate CleanToken(token: DbToken) {
    && CleanOrNone(token.image) && CleanOrNone(token.ipfs) && CleanOrNone(token.description)
    && IsClean(token.name) && IsClean(token.ticker)
  }

  predicate CleanMoves(moves: seq<Move>) {
    forall a | a in moves && a.Store? :: CleanToken(a.token)
  }

  /** Stored clean, a token's row says what its cache entry says. */
  lemma CleanIsRaw(token: DbToken, dev: string)
    requires CleanToken(token)
    ensures RecordOf(Proposed(token, dev)) == Raw(token)
  {
    CleanIsIdempotent(TextOf(token.image));
    CleanIsIdempotent(TextOf(token.ipfs));
    CleanIsIdempotent(TextOf(token.description));
    CleanIsIdempotent(token.name);
    CleanIsIdempotent(token.ticker);
  }

  lemma HoldsOn(b: Both, a: Move, r: Record)
    requires b.Holds(r) && a != Restart
    ensures After(b, a).Holds(r)
  {
    if a.Put? && a.index < |b.waiting| && r in b.waiting {
      var i :| 0 <= i < |b.waiting| && b.waiting[i] == r;
      var v := After(b, a);
      if i < a.index { assert v.waiting[i] == r; }
      else if i > a.index { assert v.waiting[i - 1] == r; }
      else { assert v.records[|b.records|] == r; }
    }
  }

  ghost predicate PartsHeld(row: Row, b: Both) {
    row.ticker.Some? && ImageHeld(row, b) && LinkHeld(row, b) && NameHeld(row, b)
  }

  lemma PartsStay(row: Row, b: Both, a: Move)
    requires PartsHeld(row, b) && a != Restart
    ensures PartsHeld(row, After(b, a))
  {
    if row.image.Some? {
      var r :| b.Holds(r) && r.image == row.image;
      HoldsOn(b, a, r);
    }
    if row.ipfs.Some? {
      var r :| b.Holds(r) && r.ipfs == row.ipfs;
      HoldsOn(b, a, r);
    }
    if row.name.Some? {
      var r :| b.Holds(r) && r.name == row.name;
      HoldsOn(b, a, r);
    }
  }

  lemma ProposedParts(token: DbToken, dev: string, b: Both)
    requires CleanToken(token) && b.Holds(Raw(token))
    ensures PartsHeld(Proposed(token, dev), b) && PairHeld(Proposed(token, dev), b)
  {
    CleanIsRaw(token, dev);
    assert RecordOf(Proposed(token, dev)) == Raw(token);
  }

  lemma MergedParts(row: Row, ex: Row, b: Both)
    requires PartsHeld(row, b) && PartsHeld(ex, b)
    ensures PartsHeld(Merge(row, ex), b)
  {
  }

  /** The rows that the process found not there when it started. */
  ghost predicate NewPartsHeld(t: Tables, b: Both) {
    forall m | m in b.tables.tokens && m !in t.tokens :: PartsHeld(b.tables.tokens[m], b)
  }

  lemma StoreKeepsParts(t: Tables, b: Both, mint: string, dev: string, token: DbToken)
    requires NewPartsHeld(t, b) && CleanToken(token)
    ensures NewPartsHeld(t, After(b, Store(mint, dev, token)))
  {
    var a := Store(mint, dev, token);
    var v := After(b, a);
    forall m | m in v.tables.tokens && m !in t.tokens ensures PartsHeld(v.tables.tokens[m], v) {
      if m in b.tables.tokens { PartsStay(b.tables.tokens[m], b, a); }
      if m == mint && v.tables != b.tables {
        assert v.waiting[|b.waiting|] == Raw(token);
        ProposedParts(token, dev, v);
        if mint in b.tables.tokens { MergedParts(b.tables.tokens[mint], Proposed(token, dev), v); }
      }
    }
  }

  lemma OtherKeepsParts(t: Tables, b: Both, a: Move)
    requires NewPartsHeld(t, b) && !a.Store? && a != Restart
    ensures NewPartsHeld(t, After(b, a))
  {
    var v := After(b, a);
    forall m | m in v.tables.tokens && m !in t.tokens ensures PartsHeld(v.tables.tokens[m], v) {
      PartsStay(b.tables.tokens[m], b, a);
    }
  }

  lemma {:induction false} CleanRunsHoldParts(t: Tables, moves: seq<Move>)
    requires CleanMoves(moves) && Restart !in moves
    ensures NewPartsHeld(t, RunFrom(t, moves))
  {
    if moves != [] {
      var most, a := moves[..|moves| - 1], moves[|moves| - 1];
      assert a in moves;
      CleanRunsHoldParts(t, most);
      if a.Store? {
        StoreKeepsParts(t, RunFrom(t, most), a.mint, a.dev, a.token);
      } else {
        OtherKeepsParts(t, RunFrom(t, most), a);
      }
    }
  }

  /** Whatever tables the process found: as long as it stores clean tokens, a row first stored since then
      is covered exactly when some one record held has both its description and its ticker, for a row can
      have got them from different proposals. */
  lemma CleanRunCoveredIff(t: Tables, moves: seq<Move>, mint: string, b: Both)
    requires CleanMoves(moves) && Restart !in moves && b == RunFrom(t, moves)
    requires mint in b.tables.tokens && mint !in t.tokens
    ensures RowCovered(b.tables.tokens[mint], b) <==> PairHeld(b.tables.tokens[mint], b)
  {
    CleanRunsHoldParts(t, moves);
    RowCoveredIff(b.tables.tokens[mint], b);
  }

  lemma MergeKeepsPair(row: Row, token: DbToken, dev: string, merged: Row, b: Both)
    requires CleanToken(token) && b.Holds(Raw(token)) && PairHeld(row, b) && row.ticker.Some?
    requires merged == Merge(row, Proposed(token, dev))
    requires Filled(token.description) == (token.ticker != "") || merged.description == None
    ensures PairHeld(merged, b)
  {
    CleanIsRaw(token, dev);
    assert RecordOf(Proposed(token, dev)) == Raw(token);
  }

  /** A further proposal leaves a covered row covered if it fills both description and ticker or neither,
      or leaves the row without a description. Otherwise everything hangs on one query, for the mixed
      pair: the row answers it, and the row is covered exactly if some record answers it too. */
  lemma MergeKeepsCoverIff(row: Row, token: DbToken, dev: string, merged: Row, b: Both, q: Record)
    requires CleanToken(token) && b.Holds(Raw(token)) && RowCovered(row, b) && row.ticker.Some?
    requires merged == Merge(row, Proposed(token, dev))
    requires q == Record(None, None, merged.description, None, merged.ticker)
    ensures Filled(token.description) == (token.ticker != "") || merged.description == None ==>
              RowCovered(merged, b)
    ensures Filled(token.description) != (token.ticker != "") && merged.description.Some? ==>
              && Where(merged, q) == Yes
              && (RowCovered(merged, b) <==> exists r :: b.Holds(r) && Shares(r, q))
  {
    RowCoveredIff(row, b);
    ProposedParts(token, dev, b);
    MergedParts(row, Proposed(token, dev), b);
    RowCoveredIff(merged, b);
    if Filled(token.description) == (token.ticker != "") || merged.description == None {
      MergeKeepsPair(row, token, dev, merged, b);
    } else {
      MixedPairQuery(merged, b, q);
    }
  }

  lemma MixedPairQuery(row: Row, b: Both, q: Record)
    requires row.description.Some? && row.ticker.Some?
    requires q == Record(None, None, row.description, None, row.ticker)
    ensures Where(row, q) == Yes
    ensures PairHeld(row, b) <==> exists r :: b.Holds(r) && Shares(r, q)
  {
    if PairHeld(row, b) {
      var r :| b.Holds(r) && r.description == row.description && r.ticker == row.ticker;
      assert Shares(r, q);
    }
  }

  // ---------- Each mint stored once ----------

  predicate StoredOnce(moves: seq<Move>) {
    forall i, j | 0 <= i < j < |moves| && moves[i].Store? && moves[j].Store? :: moves[i].mint != moves[j].mint
  }

  ghost predicate StoredIn(moves: seq<Move>, mint: string) {
    exists i :: 0 <= i < |moves| && moves[i].Store? && moves[i].mint == mint
  }

  /** Only stored mints get rows. */
  lemma {:induction false} RowsAreStored(t: Tables, moves: seq<Move>, mint: string)
    requires mint in RunFrom(t, moves).tables.tokens && mint !in t.tokens
    ensures StoredIn(moves, mint)
  {
    if moves != [] {
      var most, a := moves[..|moves| - 1], moves[|moves| - 1];
      if mint in RunFrom(t, most).tables.tokens {
        RowsAreStored(t, most, mint);
        var i :| 0 <= i < |most| && most[i].Store? && most[i].mint == mint;
        assert moves[i] == most[i];
      } else {
        assert a.Store? && a.mint == mint;
      }
    }
  }

  lemma RowPersists(b: Both, a: Move, mint: string)
    requires mint in b.tables.tokens
    ensures mint in After(b, a).tables.tokens
  {
  }

  /** Rows are never deleted. */
  lemma {:induction false} RowsPersist(t: Tables, moves: seq<Move>, mint: string)
    requires mint in t.tokens
    ensures mint in RunFrom(t, moves).tables.tokens
  {
    if moves != [] {
      RowsPersist(t, moves[..|moves| - 1], mint);
      RowPersists(RunFrom(t, moves[..|moves| - 1]), moves[|moves| - 1], mint);
    }
  }

  ghost predicate NewRowsHeld(t: Tables, b: Both) {
    forall m | m in b.tables.tokens && m !in t.tokens :: b.Holds(RecordOf(b.tables.tokens[m]))
  }

  lemma StoreKeepsRows(t: Tables, b: Both, mint: string, dev: string, token: DbToken)
    requires NewRowsHeld(t, b) && CleanToken(token)
    requires mint in b.tables.tokens ==> mint in t.tokens
    ensures NewRowsHeld(t, After(b, Store(mint, dev, token)))
  {
    var v := After(b, Store(mint, dev, token));
    forall m | m in v.tables.tokens && m !in t.tokens ensures v.Holds(RecordOf(v.tables.tokens[m])) {
      if m in b.tables.tokens {
        HoldsOn(b, Store(mint, dev, token), RecordOf(b.tables.tokens[m]));
      } else {
        CleanIsRaw(token, dev);
        assert v.waiting[|b.waiting|] == Raw(token);
      }
    }
  }

  lemma OtherKeepsRows(t: Tables, b: Both, a: Move)
    requires NewRowsHeld(t, b) && !a.Store? && a != Restart
    ensures NewRowsHeld(t, After(b, a))
  {
    var v := After(b, a);
    forall m | m in v.tables.tokens && m !in t.tokens ensures v.Holds(RecordOf(v.tables.tokens[m])) {
      HoldsOn(b, a, RecordOf(b.tables.tokens[m]));
      assert RecordOf(v.tables.tokens[m]) == RecordOf(b.tables.tokens[m]);
    }
  }

  lemma {:induction false} OnceRunsHoldRows(t: Tables, moves: seq<Move>)
    requires CleanMoves(moves) && StoredOnce(moves) && Restart !in moves
    ensures NewRowsHeld(t, RunFrom(t, moves))
  {
    if moves != [] {
      var most, a := moves[..|moves| - 1], moves[|moves| - 1];
      assert a in moves;
      OnceRunsHoldRows(t, most);
      if a.Store? {
        if a.mint in RunFrom(t, most).tables.tokens && a.mint !in t.tokens {
          RowsAreStored(t, most, a.mint);
          assert false;
        }
        StoreKeepsRows(t, RunFrom(t, most), a.mint, a.dev, a.token);
      } else {
        OtherKeepsRows(t, RunFrom(t, most), a);
      }
    }
  }

  /** The database check rejects nothing that the cache check lets through. */
  ghost predicate Redundant(b: Both) {
    forall q :: TokenAnyExists(b.tables.tokens, q) ==> Check(Build(b.records), q)
  }

  lemma AnsweredIsChecked(t: Tables, b: Both, q: Record, m: string)
    requires NewRowsHeld(t, b) && b.waiting == [] && m in b.tables.tokens && Where(b.tables.tokens[m], q) == Yes
    requires m in t.tokens ==> RowCovered(b.tables.tokens[m], b)
    ensures Check(Build(b.records), q)
  {
    CheckIff(b.records, q);
    WhereShares(b.tables.tokens[m], q);
  }

  lemma RedundantCovers(b: Both, m: string)
    requires Redundant(b) && m in b.tables.tokens
    ensures RowCovered(b.tables.tokens[m], b)
  {
    forall q | Where(b.tables.tokens[m], q) == Yes ensures exists r :: b.Holds(r) && Shares(r, q) {
      assert TokenAnyExists(b.tables.tokens, q);
      CheckIff(b.records, q);
      var r :| r in b.records && Shares(r, q);
      assert b.Holds(r);
    }
  }

  /** From whatever tables the process found, if the tokens it stores are clean and each mint among them
      is stored once, and none is on its way to the cache: the database check is redundant exactly when
      every row it found has come to be covered. */
  lemma DatabaseCheckRedundantIff(t: Tables, moves: seq<Move>, b: Both)
    requires CleanMoves(moves) && StoredOnce(moves) && Restart !in moves
    requires b == RunFrom(t, moves) && b.waiting == []
    ensures Redundant(b)
       <==> forall m | m in t.tokens :: m in b.tables.tokens && RowCovered(b.tables.tokens[m], b)
  {
    OnceRunsHoldRows(t, moves);
    if forall m | m in t.tokens :: m in b.tables.tokens && RowCovered(b.tables.tokens[m], b) {
      forall q | TokenAnyExists(b.tables.tokens, q) ensures Check(Build(b.records), q) {
        var m :| m in b.tables.tokens && Where(b.tables.tokens[m], q) == Yes;
        AnsweredIsChecked(t, b, q, m);
      }
    }
    if Redundant(b) {
      forall m | m in t.tokens ensures m in b.tables.tokens && RowCovered(b.tables.tokens[m], b) {
        RowsPersist(t, moves, m);
        RedundantCovers(b, m);
      }
    }
  }

  /** So after the very first start it stays redundant. After any other it is not: every stored row with a
      name and a ticker is uncovered, even one whose pair counts as held for want of a description. */
  lemma RestartUncovers(b: Both, m: string, q: Record)
    requires m in b.tables.tokens && b.tables.tokens[m].name.Some? && b.tables.tokens[m].ticker.Some?
    requires q == Record(None, None, None, b.tables.tokens[m].name, b.tables.tokens[m].ticker)
    ensures var v, row := After(b, Restart), b.tables.tokens[m];
            && v.waiting == [] && v.tables == b.tables
            && TokenAnyExists(v.tables.tokens, q) && !Check(Build(v.records), q)
            && !RowCovered(row, v)
            && (PairHeld(row, v) <==> row.description == None)
  {
    var v := After(b, Restart);
    assert Where(b.tables.tokens[m], q) == Yes;
    CheckIff(v.records, q);
  }

  lemma AfterStoreAndRestart(mint: string, dev: string, token: DbToken, b: Both)
    requires IsClean(dev) && b == RunFrom(NO_TABLES, [Store(mint, dev, token), Put(0), Restart])
    ensures b.waiting == [] && b.records == []
    ensures mint in b.tables.tokens && b.tables.tokens[mint] == Proposed(token, dev)
  {
    var once := [Store(mint, dev, token), Put(0)];
    assert once + [Restart] == [Store(mint, dev, token), Put(0), Restart];
    AfterOneStore(mint, dev, token);
    RunSnoc(NO_TABLES, once, Restart);
  }

  /** The smallest such run: one clean token with a link, stored, put into the cache, then a restart. */
  lemma StoredThenRestarted(mint: string, dev: string, token: DbToken, b: Both, q: Record)
    requires IsClean(dev) && CleanToken(token) && token.ipfs.Some?
    requires b == RunFrom(NO_TABLES, [Store(mint, dev, token), Put(0), Restart])
    requires q == Record(None, token.ipfs, None, None, None)
    ensures b.waiting == [] && TokenAnyExists(b.tables.tokens, q) && !Check(Build(b.records), q)
  {
    AfterStoreAndRestart(mint, dev, token, b);
    CleanIsRaw(token, dev);
    LinkAnswers(b, mint, token.ipfs, q);
  }

  /** A row's link that no record has makes a query that only the database answers. */
  lemma LinkAnswers(b: Both, mint: string, link: Option<string>, q: Record)
    requires mint in b.tables.tokens && RecordOf(b.tables.tokens[mint]).ipfs == link && link.Some?
    requires q == Record(None, link, None, None, None)
    requires forall r | r in b.records :: r.ipfs != link
    ensures TokenAnyExists(b.tables.tokens, q) && !Check(Build(b.records), q)
  {
    assert Where(b.tables.tokens[mint], q) == Yes;
    CheckIff(b.records, q);
  }

  lemma FirstStore(mint: string, dev: string, token: DbToken)
    requires IsClean(dev)
    ensures var v := StoreAndPut(Started(NO_TABLES), mint, dev, token);
            && v.waiting == [] && v.records == [Raw(token)]
            && mint in v.tables.tokens && v.tables.tokens[mint] == Proposed(token, dev)
            && v.tables.devs == map[dev := 1]
  {
    CleanIsIdempotent(dev);
    assert map[][dev := 1] == map[dev := 1];
  }

  lemma AfterOneStore(mint: string, dev: string, token: DbToken)
    requires IsClean(dev)
    ensures var b := RunFrom(NO_TABLES, [Store(mint, dev, token), Put(0)]);
            && b.waiting == [] && b.records == [Raw(token)]
            && mint in b.tables.tokens && b.tables.tokens[mint] == Proposed(token, dev)
            && b.tables.devs == map[dev := 1]
  {
    FirstStore(mint, dev, token);
    StoreAndPutRuns(NO_TABLES, [], mint, dev, token);
    assert [] + [Store(mint, dev, token), Put(0)] == [Store(mint, dev, token), Put(0)];
  }

  lemma SecondStore(b: Both, mint: string, dev: string, token: DbToken)
    requires IsClean(dev) && b.tables.devs == map[dev := 1] && mint in b.tables.tokens && b.waiting == []
    ensures var v := StoreAndPut(b, mint, dev, token);
            && v.waiting == [] && v.records == b.records + [Raw(token)]
            && mint in v.tables.tokens
            && v.tables.tokens[mint] == Merge(b.tables.tokens[mint], Proposed(token, dev))
  {
    CleanIsIdempotent(dev);
  }

  function TwoStores(mint: string, dev: string, first: DbToken, second: DbToken): seq<Move> {
    [Store(mint, dev, first), Put(0), Store(mint, dev, second), Put(0)]
  }

  lemma AfterTwoStores(mint: string, dev: string, first: DbToken, second: DbToken, b: Both)
    requires IsClean(dev) && b == RunFrom(NO_TABLES, TwoStores(mint, dev, first, second))
    ensures b.waiting == [] && b.records == [Raw(first), Raw(second)]
    ensures mint in b.tables.tokens
    ensures b.tables.tokens[mint] == Merge(Proposed(first, dev), Proposed(second, dev))
  {
    var once := [Store(mint, dev, first), Put(0)];
    assert once + [Store(mint, dev, second), Put(0)] == TwoStores(mint, dev, first, second);
    AfterOneStore(mint, dev, first);
    SecondStore(RunFrom(NO_TABLES, once), mint, dev, second);
    StoreAndPutRuns(NO_TABLES, once, mint, dev, second);
  }

  /** Storing each mint once is needed: stored a second time without a description and under another
      ticker, a clean token has a row that the database answers for and the cache does not. */
  lemma MixedRow(mint: string, dev: string, first: DbToken, second: DbToken, b: Both, q: Record)
    requires IsClean(dev) && CleanToken(first) && CleanToken(second)
    requires Filled(first.description) && second.description == None
    requires second.ticker != "" && second.ticker != first.ticker
    requires b == RunFrom(NO_TABLES, TwoStores(mint, dev, first, second))
    requires q == Record(None, None, first.description, None, Some(second.ticker))
    ensures b.waiting == [] && TokenAnyExists(b.tables.tokens, q) && !Check(Build(b.records), q)
  {
    AfterTwoStores(mint, dev, first, second, b);
    CleanIsRaw(first, dev);
    CleanIsRaw(second, dev);
    MixedRowAnswers(b.tables.tokens[mint], first, second, dev, q);
    CheckIff(b.records, q);
  }

  lemma MixedRowAnswers(row: Row, first: DbToken, second: DbToken, dev: string, q: Record)
    requires row == Merge(Proposed(first, dev), Proposed(second, dev))
    requires RecordOf(Proposed(first, dev)) == Raw(first) && RecordOf(Proposed(second, dev)) == Raw(second)
    requires Filled(first.description) && second.description == None
    requires second.ticker != "" && second.ticker != first.ticker
    requires q == Record(None, None, first.description, None, Some(second.ticker))
    ensures Where(row, q) == Yes && !Shares(Raw(first), q) && !Shares(Raw(second), q)
  {
    assert RecordOf(Proposed(second, dev)).ticker == Some(second.ticker);
    assert RecordOf(Proposed(first, dev)).description == first.description;
  }
}
