/** The tables of the backend: developers with a token count, and tokens merged on conflict. */
module Database {
  import opened Common
  import opened TextOps

  const INTEGER_MAX: int := 0x7fff_ffff

  /** A token as handed to `add_token`. */
  datatype DbToken = DbToken(
    ath: i64, name: string, ticker: string, ipfs: Option<string>, image: Option<string>,
    description: Option<string>, communityId: Option<string>, poolAddress: string)

  /** A row of `tokens`; None is SQL's NULL. */
  datatype Row = Row(
    dev: string, ath: i64, name: Option<string>, ticker: Option<string>, ipfs: Option<string>,
    image: Option<string>, description: Option<string>, communityId: Option<string>, pool: Option<string>)

  datatype Tables = Tables(devs: map<string, int>, tokens: map<string, Row>)

  function CleanOpt(s: Option<string>): Option<string> {
    if s.Some? then Some(Clean(s.value)) else None
  }

  /** The row an insert proposes: every text cleaned, the developer's address as given. */
  function Proposed(token: DbToken, dev: string): Row {
    Row(dev, token.ath, Some(Clean(token.name)), Some(Clean(token.ticker)), CleanOpt(token.ipfs),
        CleanOpt(token.image), CleanOpt(token.description), CleanOpt(token.communityId),
        Some(Clean(token.poolAddress)))
  }

  function Coalesce(a: Option<string>, b: Option<string>): Option<string> {
    if a.Some? then a else b
  }

  /** NULLIF(a, ''). */
  function NullIfEmpty(a: Option<string>): Option<string> {
    if a == Some("") then None else a
  }

  /** ON CONFLICT (mint) DO UPDATE. */
  function Merge(row: Row, ex: Row): Row {
    row.(ath := Max(row.ath, ex.ath),
         name := Coalesce(NullIfEmpty(ex.name), row.name),
         ticker := Coalesce(NullIfEmpty(ex.ticker), row.ticker),
         ipfs := Coalesce(ex.ipfs, row.ipfs),
         image := Coalesce(ex.image, row.image),
         description := Coalesce(NullIfEmpty(ex.description), row.description),
         communityId := Coalesce(NullIfEmpty(ex.communityId), row.communityId),
         pool := Coalesce(NullIfEmpty(ex.pool), row.pool))
  }

  /** The transaction of `add_token`; None when it fails and is rolled back: the counter would leave
      INTEGER, the address cannot be stored as text, or a new row names an unknown developer. */
  function AddToken(t: Tables, mint: string, dev: string, token: DbToken): Option<Tables> {
    var d := Clean(dev);
    var count := if d in t.devs then t.devs[d] + 1 else 1;
    var devs := t.devs[d := count];
    if count > INTEGER_MAX || '\0' in dev then None
    else if mint in t.tokens then
      Some(Tables(devs, t.tokens[mint := Merge(t.tokens[mint], Proposed(token, dev))]))
    else if dev !in devs then None
    else Some(Tables(devs, t.tokens[mint := Proposed(token, dev)]))
  }

  function UpdateTokenAth(t: Tables, pool: string, ath: i64): Tables {
    t.(tokens := map m | m in t.tokens ::
         if t.tokens[m].pool == Some(pool) then t.tokens[m].(ath := Max(t.tokens[m].ath, ath)) else t.tokens[m])
  }

  class Store {
    var devs: map<string, int>
    var tokens: map<string, Row>

    constructor ()
      ensures State() == Tables(map[], map[])
    {
      devs, tokens := map[], map[];
    }

    function State(): Tables
      reads this
    {
      Tables(devs, tokens)
    }

    /** Both statements run on the side; only the commit changes the tables. */
    method Add(mint: string, dev: string, token: DbToken) returns (ok: bool)
      modifies this
      ensures ok <==> AddToken(old(State()), mint, dev, token).Some?
      ensures State() == if ok then AddToken(old(State()), mint, dev, token).value else old(State())
    {
      var d := Clean(dev);
      var newDevs, newTokens := devs, tokens;
      if d in newDevs {
        newDevs := newDevs[d := newDevs[d] + 1];
      } else {
        newDevs := newDevs[d := 1];
      }
      if newDevs[d] > INTEGER_MAX || '\0' in dev {
        return false;
      }
      if mint in newTokens {
        newTokens := newTokens[mint := Merge(newTokens[mint], Proposed(token, dev))];
      } else {
        if dev !in newDevs {
          return false;
        }
        newTokens := newTokens[mint := Proposed(token, dev)];
      }
      devs, tokens := newDevs, newTokens;
      return true;
    }

    method RaiseAth(pool: string, ath: i64)
      modifies this
      ensures State() == UpdateTokenAth(old(State()), pool, ath)
    {
      tokens := map m | m in tokens ::
        if tokens[m].pool == Some(pool) then tokens[m].(ath := Max(tokens[m].ath, ath)) else tokens[m];
    }
  }

  // ---------- A new row ----------

  /** A new row has the token's own texts, each cleaned, in its own column. */
  lemma NewRowColumns(t: Tables, mint: string, dev: string, token: DbToken)
    requires mint !in t.tokens && AddToken(t, mint, dev, token).Some?
    ensures var v := AddToken(t, mint, dev, token).value;
            && mint in v.tokens
            && v.tokens == t.tokens[mint := v.tokens[mint]]
            && v.tokens[mint].dev == dev && v.tokens[mint].ath == token.ath
            && v.tokens[mint].name == Some(Clean(token.name)) && v.tokens[mint].ticker == Some(Clean(token.ticker))
            && CleanOf(v.tokens[mint].ipfs, token.ipfs) && CleanOf(v.tokens[mint].image, token.image)
            && CleanOf(v.tokens[mint].description, token.description)
            && CleanOf(v.tokens[mint].communityId, token.communityId)
            && v.tokens[mint].pool == Some(Clean(token.poolAddress))
  {
  }

  /** NULL for nothing, and the cleaned text for a text. */
  predicate CleanOf(column: Option<string>, given: Option<string>) {
    (column.Some? <==> given.Some?) && (given.Some? ==> column == Some(Clean(given.value)))
  }

  /** A high seen under the address that a new token was added with reaches its row, and no row
      with another address. */
  lemma RaiseReachesNewRow(t: Tables, mint: string, dev: string, token: DbToken, ath: i64)
    requires mint !in t.tokens && AddToken(t, mint, dev, token).Some? && IsClean(token.poolAddress)
    ensures var v := UpdateTokenAth(AddToken(t, mint, dev, token).value, token.poolAddress, ath);
            && mint in v.tokens && v.tokens[mint].ath == Max(token.ath, ath)
            && forall m | m in t.tokens && t.tokens[m].pool != Some(token.poolAddress) ::
                 m in v.tokens && v.tokens[m] == t.tokens[m]
  {
    CleanIsIdempotent(token.poolAddress);
  }

  // ---------- The merge ----------

  lemma MergeAssociative(a: Row, b: Row, c: Row)
    ensures Merge(Merge(a, b), c) == Merge(a, Merge(b, c))
  {
  }

  lemma MergeIdempotent(a: Row)
    ensures Merge(a, a) == a
  {
  }

  function Fold(rows: seq<Row>): Row
    requires rows != []
  {
    if |rows| == 1 then rows[0] else Merge(Fold(rows[..|rows| - 1]), rows[|rows| - 1])
  }

  /** Merging a batch at once is the same as merging its rows one by one. */
  lemma {:induction false} FoldInBatches(a: seq<Row>, b: seq<Row>)
    requires a != [] && b != []
    ensures Fold(a + b) == Merge(Fold(a), Fold(b))
    decreases |b|
  {
    var last := b[|b| - 1];
    assert (a + b)[..|a + b| - 1] == a + b[..|b| - 1];
    if |b| == 1 {
      assert a + b[..0] == a;
    } else {
      FoldInBatches(a, b[..|b| - 1]);
      MergeAssociative(Fold(a), Fold(b[..|b| - 1]), last);
    }
  }

  /** Replaying a whole history changes nothing. */
  lemma ReplayIsHarmless(rows: seq<Row>)
    requires rows != []
    ensures Fold(rows + rows) == Fold(rows)
  {
    FoldInBatches(rows, rows);
    MergeIdempotent(Fold(rows));
  }

  /** The high of a merge is the largest of the highs merged. */
  lemma {:induction false} FoldAth(rows: seq<Row>)
    requires rows != []
    ensures forall r | r in rows :: r.ath <= Fold(rows).ath
    ensures exists r :: r in rows && r.ath == Fold(rows).ath
  {
    if |rows| > 1 {
      var most, last := rows[..|rows| - 1], rows[|rows| - 1];
      FoldAth(most);
      assert rows == most + [last];
      assert last in rows;
      var r :| r in most && r.ath == Fold(most).ath;
      assert r in rows;
    } else {
      assert rows[0] in rows;
    }
  }

  datatype Column = Name | Ticker | Ipfs | Image | Description | CommunityId | Pool

  function Get(row: Row, col: Column): Option<string> {
    match col
    case Name => row.name
    case Ticker => row.ticker
    case Ipfs => row.ipfs
    case Image => row.image
    case Description => row.description
    case CommunityId => row.communityId
    case Pool => row.pool
  }

  /** Whether a proposal for this column takes effect: links and images may be blank, others not. */
  predicate Effective(row: Row, col: Column) {
    Get(row, col).Some? && (col == Ipfs || col == Image || Get(row, col) != Some(""))
  }

  /** Each text of a merge is the last effective proposal, or the first row's if there is none; the
      developer is the first row's. */
  lemma {:induction false} FoldIsLastEffective(rows: seq<Row>, col: Column, i: nat)
    requires i < |rows| && (i == 0 || Effective(rows[i], col))
    requires forall j | i < j < |rows| :: !Effective(rows[j], col)
    ensures Get(Fold(rows), col) == Get(rows[i], col)
    ensures Fold(rows).dev == rows[0].dev
    decreases |rows|
  {
    if |rows| > 1 {
      var n := |rows| - 1;
      if i < n {
        FoldIsLastEffective(rows[..n], col, i);
        assert !Effective(rows[n], col);
      } else {
        FoldDev(rows[..n]);
      }
    }
  }

  lemma {:induction false} FoldDev(rows: seq<Row>)
    requires rows != []
    ensures Fold(rows).dev == rows[0].dev
  {
    if |rows| > 1 {
      FoldDev(rows[..|rows| - 1]);
    }
  }

  predicate Filled(s: Option<string>) {
    s.Some? && s.value != ""
  }

  /** Columns that ignore empty proposals; the other two, `ipfs` and `image`, take them. */
  predicate KeepsText(a: Row, b: Row) {
    && (Filled(a.name) ==> Filled(b.name))
    && (Filled(a.ticker) ==> Filled(b.ticker))
    && (Filled(a.description) ==> Filled(b.description))
    && (Filled(a.communityId) ==> Filled(b.communityId))
    && (Filled(a.pool) ==> Filled(b.pool))
    && (a.ipfs.Some? ==> b.ipfs.Some?)
    && (a.image.Some? ==> b.image.Some?)
    && a.dev == b.dev
    && a.ath <= b.ath
  }

  /** A filled link or image is emptied exactly by a proposal that is present but blank. */
  lemma LinkEmptiedIff(row: Row, token: DbToken, dev: string)
    requires Filled(row.ipfs) && Filled(row.image)
    ensures !Filled(Merge(row, Proposed(token, dev)).ipfs) <==> token.ipfs.Some? && Clean(token.ipfs.value) == ""
    ensures !Filled(Merge(row, Proposed(token, dev)).image) <==> token.image.Some? && Clean(token.image.value) == ""
  {
  }

  // ---------- Runs ----------

  datatype Op = Add(mint: string, dev: string, token: DbToken) | Raise(pool: string, ath: i64)

  function Apply(t: Tables, op: Op): Tables {
    match op
    case Add(mint, dev, token) =>
      var r := AddToken(t, mint, dev, token);
      if r.Some? then r.value else t
    case Raise(pool, ath) => UpdateTokenAth(t, pool, ath)
  }

  function Run(t: Tables, ops: seq<Op>): Tables {
    if ops == [] then t else Apply(Run(t, ops[..|ops| - 1]), ops[|ops| - 1])
  }

  function JustAth(ath: i64): Row {
    Row("", ath, None, None, None, None, None, None, None)
  }

  /** What one operation contributes to the row of `mint`: a committed proposal, or a bare new high. */
  function Contribution(t: Tables, op: Op, mint: string): seq<Row> {
    match op
    case Add(m, dev, token) =>
      if m == mint && AddToken(t, m, dev, token).Some? then [Proposed(token, dev)] else []
    case Raise(pool, ath) =>
      if mint in t.tokens && t.tokens[mint].pool == Some(pool) then [JustAth(ath)] else []
  }

  function History(t: Tables, ops: seq<Op>, mint: string): seq<Row> {
    if ops == [] then (if mint in t.tokens then [t.tokens[mint]] else [])
    else
      var most := ops[..|ops| - 1];
      History(t, most, mint) + Contribution(Run(t, most), ops[|ops| - 1], mint)
  }

  lemma MergeJustAth(row: Row, ath: i64)
    ensures Merge(row, JustAth(ath)) == row.(ath := Max(row.ath, ath))
  {
  }

  lemma FoldAppend(rows: seq<Row>, r: Row)
    ensures Fold(rows + [r]) == if rows == [] then r else Merge(Fold(rows), r)
  {
    assert (rows + [r])[..|rows + [r]| - 1] == rows;
  }

  /** The row of `mint` is what `rows` merge into. */
  predicate RowFolds(t: Tables, mint: string, rows: seq<Row>) {
    && (mint in t.tokens <==> rows != [])
    && (mint in t.tokens ==> t.tokens[mint] == Fold(rows))
  }

  lemma AddFolds(t: Tables, op: Op, mint: string, rows: seq<Row>)
    requires op.Add? && RowFolds(t, mint, rows)
    ensures RowFolds(Apply(t, op), mint, rows + Contribution(t, op, mint))
  {
    var p := Proposed(op.token, op.dev);
    if Contribution(t, op, mint) == [] {
      assert rows + [] == rows;
    } else {
      FoldAppend(rows, p);
    }
  }

  lemma RaiseFolds(t: Tables, op: Op, mint: string, rows: seq<Row>)
    requires op.Raise? && RowFolds(t, mint, rows)
    ensures RowFolds(Apply(t, op), mint, rows + Contribution(t, op, mint))
  {
    if Contribution(t, op, mint) == [] {
      assert rows + [] == rows;
    } else {
      FoldAppend(rows, JustAth(op.ath));
      MergeJustAth(t.tokens[mint], op.ath);
    }
  }

  /** After any run a row exists exactly when something was contributed to it, and it is the merge of
      all contributions in order. */
  lemma {:induction false} RowIsFold(t: Tables, ops: seq<Op>, mint: string)
    ensures RowFolds(Run(t, ops), mint, History(t, ops, mint))
  {
    if ops != [] {
      var most, op := ops[..|ops| - 1], ops[|ops| - 1];
      RowIsFold(t, most, mint);
      if op.Add? {
        AddFolds(Run(t, most), op, mint, History(t, most, mint));
      } else {
        RaiseFolds(Run(t, most), op, mint, History(t, most, mint));
      }
    }
  }

  lemma StepKeepsText(t: Tables, op: Op, mint: string)
    requires mint in t.tokens
    ensures mint in Apply(t, op).tokens && KeepsText(t.tokens[mint], Apply(t, op).tokens[mint])
  {
  }

  lemma KeepsTextTransitive(a: Row, b: Row, c: Row)
    requires KeepsText(a, b) && KeepsText(b, c)
    ensures KeepsText(a, c)
  {
  }

  /** Over every run a high never falls, a filled text never empties (links and images at least stay
      present), and a token never changes developer. */
  lemma {:induction false} RunsKeepText(t: Tables, ops: seq<Op>, mint: string)
    requires mint in t.tokens
    ensures mint in Run(t, ops).tokens && KeepsText(t.tokens[mint], Run(t, ops).tokens[mint])
  {
    if ops != [] {
      var before := Run(t, ops[..|ops| - 1]);
      RunsKeepText(t, ops[..|ops| - 1], mint);
      StepKeepsText(before, ops[|ops| - 1], mint);
      KeepsTextTransitive(t.tokens[mint], before.tokens[mint], Run(t, ops).tokens[mint]);
    }
  }

  // ---------- Developers' counts ----------

  function RowsOf(t: Tables, dev: string): set<string> {
    set m | m in t.tokens && t.tokens[m].dev == dev
  }

  /** Known developers have clean addresses, rows name known developers, and no one has more rows
      than the counter says. */
  ghost predicate CountsHold(t: Tables) {
    && (forall d | d in t.devs :: IsClean(d))
    && (forall m | m in t.tokens :: t.tokens[m].dev in t.devs)
    && (forall d | d in t.devs :: |RowsOf(t, d)| <= t.devs[d])
  }

  /** A new row is accepted only for an address that is already clean; otherwise the foreign key
      fails and the transaction leaves nothing behind. */
  lemma CommitIff(t: Tables, mint: string, dev: string, token: DbToken)
    requires CountsHold(t)
    ensures AddToken(t, mint, dev, token).Some?
       <==> && (Clean(dev) in t.devs ==> t.devs[Clean(dev)] < INTEGER_MAX)
            && '\0' !in dev
            && (mint in t.tokens || IsClean(dev))
  {
    CleanIsIdempotent(dev);
  }

  lemma RowsAfterMerge(t: Tables, mint: string, dev: string, token: DbToken, d: string)
    requires mint in t.tokens && AddToken(t, mint, dev, token).Some?
    ensures RowsOf(AddToken(t, mint, dev, token).value, d) == RowsOf(t, d)
  {
  }

  lemma RowsAfterInsert(t: Tables, mint: string, dev: string, token: DbToken, d: string)
    requires mint !in t.tokens && AddToken(t, mint, dev, token).Some?
    ensures RowsOf(AddToken(t, mint, dev, token).value, d)
         == RowsOf(t, d) + (if d == dev then {mint} else {})
  {
  }

  lemma UnknownHasNoRows(t: Tables, d: string)
    requires CountsHold(t) && d !in t.devs
    ensures RowsOf(t, d) == {}
  {
  }

  lemma AddKeepsCounts(t: Tables, mint: string, dev: string, token: DbToken)
    requires CountsHold(t) && AddToken(t, mint, dev, token).Some?
    ensures CountsHold(AddToken(t, mint, dev, token).value)
  {
    var v := AddToken(t, mint, dev, token).value;
    CleanIsIdempotent(dev);
    CommitIff(t, mint, dev, token);
    forall d | d in v.devs ensures |RowsOf(v, d)| <= v.devs[d] {
      if d !in t.devs { UnknownHasNoRows(t, d); }
      if mint in t.tokens {
        RowsAfterMerge(t, mint, dev, token, d);
      } else {
        RowsAfterInsert(t, mint, dev, token, d);
      }
    }
  }

  lemma RaiseKeepsCounts(t: Tables, pool: string, ath: i64)
    requires CountsHold(t)
    ensures CountsHold(UpdateTokenAth(t, pool, ath))
  {
    var v := UpdateTokenAth(t, pool, ath);
    forall d | d in v.devs ensures |RowsOf(v, d)| <= v.devs[d] {
      assert RowsOf(v, d) == RowsOf(t, d);
    }
  }

  /** Over every run no developer has more rows than counted tokens. */
  lemma {:induction false} CountsCoverRows(t: Tables, ops: seq<Op>)
    requires CountsHold(t)
    ensures CountsHold(Run(t, ops))
  {
    if ops != [] {
      var most, op := ops[..|ops| - 1], ops[|ops| - 1];
      CountsCoverRows(t, most);
      match op {
        case Add(mint, dev, token) =>
          if AddToken(Run(t, most), mint, dev, token).Some? {
            AddKeepsCounts(Run(t, most), mint, dev, token);
          }
        case Raise(pool, ath) => RaiseKeepsCounts(Run(t, most), pool, ath);
      }
    }
  }

  function CountOf(t: Tables, d: string): int {
    if d in t.devs then t.devs[d] else 0
  }

  /** Committed insertions of tokens of the developer whose clean address is `d`. */
  function Commits(t: Tables, ops: seq<Op>, d: string): nat {
    if ops == [] then 0
    else
      var most, op := ops[..|ops| - 1], ops[|ops| - 1];
      Commits(t, most, d)
      + if op.Add? && Clean(op.dev) == d && AddToken(Run(t, most), op.mint, op.dev, op.token).Some? then 1 else 0
  }

  /** The counter counts committed calls: a rolled-back call leaves no trace in it. */
  lemma {:induction false} CounterIsCommits(t: Tables, ops: seq<Op>, d: string)
    ensures CountOf(Run(t, ops), d) == CountOf(t, d) + Commits(t, ops, d)
  {
    if ops != [] {
      CounterIsCommits(t, ops[..|ops| - 1], d);
    }
  }
}
