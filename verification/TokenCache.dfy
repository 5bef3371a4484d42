/** The duplicate cache: eight hash indexes over the tokens seen so far, the SQL predicate they stand
    in for, and the decision whether a new token is announced. */
module Duplicates {
  import opened Common
  import opened TextOps
  import Database

  /** What is known of a token, and equally what is asked about one. */
  datatype Record = Record(
    image: Option<string>, ipfs: Option<string>, description: Option<string>,
    name: Option<string>, ticker: Option<string>)

  /** The keys of the eight indexes. */
  datatype Indexes = Indexes(
    images: set<string>, ipfs: set<string>, descriptions: set<string>, names: set<string>,
    tickers: set<string>, nameTicker: set<(string, string)>, descName: set<(string, string)>,
    descTicker: set<(string, string)>)

  const EMPTY := Indexes({}, {}, {}, {}, {}, {}, {}, {})

  function One(a: Option<string>): set<string> {
    if a.Some? then {a.value} else {}
  }

  function Put<K>(m: map<K, ()>, key: Option<K>): (n: map<K, ()>)
    ensures n.Keys == m.Keys + (if key.Some? then {key.value} else {})
  {
    if key.Some? then m[key.value := ()] else m
  }

  function Two(a: Option<string>, b: Option<string>): set<(string, string)> {
    if a.Some? && b.Some? then {(a.value, b.value)} else {}
  }

  function Insert(ix: Indexes, r: Record): Indexes {
    Indexes(ix.images + One(r.image), ix.ipfs + One(r.ipfs), ix.descriptions + One(r.description),
            ix.names + One(r.name), ix.tickers + One(r.ticker), ix.nameTicker + Two(r.name, r.ticker),
            ix.descName + Two(r.description, r.name), ix.descTicker + Two(r.description, r.ticker))
  }

  function Check(ix: Indexes, q: Record): bool {
    || (q.image.Some? && q.image.value in ix.images)
    || (q.ipfs.Some? && q.ipfs.value in ix.ipfs)
    || (q.description.Some? && q.name.Some? && (q.description.value, q.name.value) in ix.descName)
    || (q.description.Some? && q.ticker.Some? && (q.description.value, q.ticker.value) in ix.descTicker)
    || (q.name.Some? && q.ticker.Some? && (q.name.value, q.ticker.value) in ix.nameTicker)
    || (q.name.Some? && q.name.value in ix.names)
  }

  function Build(rs: seq<Record>): Indexes {
    if rs == [] then EMPTY else Insert(Build(rs[..|rs| - 1]), rs[|rs| - 1])
  }

  // ---------- What the indexes mean ----------

  predicate SameText(a: Option<string>, b: Option<string>) {
    a.Some? && a == b
  }

  /** The plain meaning of a duplicate. */
  predicate Shares(r: Record, q: Record) {
    || SameText(r.image, q.image)
    || SameText(r.ipfs, q.ipfs)
    || SameText(r.name, q.name)
    || (SameText(r.description, q.description) && SameText(r.ticker, q.ticker))
  }

  lemma LastOrEarlier(rs: seq<Record>)
    requires rs != []
    ensures forall r :: r in rs <==> r in rs[..|rs| - 1] || r == rs[|rs| - 1]
  {
    assert rs == rs[..|rs| - 1] + [rs[|rs| - 1]];
  }

  /** Every index holds what the inserted records say, and nothing else. */
  lemma {:induction false} SingleIndexes(rs: seq<Record>, a: string)
    ensures a in Build(rs).images <==> exists r :: r in rs && r.image == Some(a)
    ensures a in Build(rs).ipfs <==> exists r :: r in rs && r.ipfs == Some(a)
    ensures a in Build(rs).descriptions <==> exists r :: r in rs && r.description == Some(a)
    ensures a in Build(rs).names <==> exists r :: r in rs && r.name == Some(a)
    ensures a in Build(rs).tickers <==> exists r :: r in rs && r.ticker == Some(a)
  {
    if rs != [] {
      SingleIndexes(rs[..|rs| - 1], a);
      LastOrEarlier(rs);
    }
  }

  lemma {:induction false} PairIndexes(rs: seq<Record>, a: string, b: string)
    ensures (a, b) in Build(rs).nameTicker <==> exists r :: r in rs && r.name == Some(a) && r.ticker == Some(b)
    ensures (a, b) in Build(rs).descName <==> exists r :: r in rs && r.description == Some(a) && r.name == Some(b)
    ensures (a, b) in Build(rs).descTicker <==>
              exists r :: r in rs && r.description == Some(a) && r.ticker == Some(b)
  {
    if rs != [] {
      PairIndexes(rs[..|rs| - 1], a, b);
      LastOrEarlier(rs);
    }
  }

  function TextOf(a: Option<string>): string {
    if a.Some? then a.value else ""
  }

  /** The six lookups, record by record. */
  predicate Hits(r: Record, q: Record) {
    || Shares(r, q)
    || (SameText(r.description, q.description) && SameText(r.name, q.name))
    || (SameText(r.name, q.name) && SameText(r.ticker, q.ticker))
  }

  lemma CheckByRecords(rs: seq<Record>, q: Record)
    ensures Check(Build(rs), q) <==> exists r :: r in rs && Hits(r, q)
  {
    SingleIndexes(rs, TextOf(q.image));
    SingleIndexes(rs, TextOf(q.ipfs));
    SingleIndexes(rs, TextOf(q.name));
    PairIndexes(rs, TextOf(q.name), TextOf(q.ticker));
    PairIndexes(rs, TextOf(q.description), TextOf(q.name));
    PairIndexes(rs, TextOf(q.description), TextOf(q.ticker));
  }

  /** After any sequence of inserts a query is a duplicate exactly when some inserted record shares its
      image, its link, its name, or both description and ticker. */
  lemma CheckIff(rs: seq<Record>, q: Record)
    ensures Check(Build(rs), q) <==> exists r :: r in rs && Shares(r, q)
  {
    CheckByRecords(rs, q);
    if r :| r in rs && Hits(r, q) {
      assert Shares(r, q);
    }
  }

  /** So two of the six lookups never decide anything. */
  lemma PairLookupsRedundant(rs: seq<Record>, q: Record)
    ensures var ix := Build(rs);
            Check(ix, q) == Check(ix.(descName := {}, nameTicker := {}), q)
  {
    PairIndexes(rs, TextOf(q.description), TextOf(q.name));
    PairIndexes(rs, TextOf(q.name), TextOf(q.ticker));
    SingleIndexes(rs, TextOf(q.name));
  }

  /** A verdict never goes back to false. */
  lemma VerdictsPersist(rs: seq<Record>, more: seq<Record>, q: Record)
    requires Check(Build(rs), q)
    ensures Check(Build(rs + more), q)
  {
    CheckIff(rs, q);
    CheckIff(rs + more, q);
    var r :| r in rs && Shares(r, q);
    assert r in rs + more;
  }

  /** The cache itself. `records` is the plain list that the indexes stand for. */
  class TokenCache {
    var images: map<string, ()>
    var ipfs: map<string, ()>
    var descriptions: map<string, ()>
    var names: map<string, ()>
    var tickers: map<string, ()>
    var nameTickerPairs: map<(string, string), ()>
    var descNamePairs: map<(string, string), ()>
    var descTickerPairs: map<(string, string), ()>
    ghost var records: seq<Record>

    constructor ()
      ensures Valid() && records == []
    {
      images, ipfs, descriptions, names, tickers := map[], map[], map[], map[], map[];
      nameTickerPairs, descNamePairs, descTickerPairs := map[], map[], map[];
      records := [];
    }

    ghost function State(): Indexes
      reads this
    {
      Indexes(images.Keys, ipfs.Keys, descriptions.Keys, names.Keys, tickers.Keys, nameTickerPairs.Keys,
              descNamePairs.Keys, descTickerPairs.Keys)
    }

    ghost predicate Valid()
      reads this
    {
      State() == Build(records)
    }

    method CheckDuplicate(q: Record) returns (duplicate: bool)
      requires Valid()
      ensures duplicate <==> exists r :: r in records && Shares(r, q)
    {
      CheckIff(records, q);
      if q.image.Some? && q.image.value in images { return true; }
      if q.ipfs.Some? && q.ipfs.value in ipfs { return true; }
      if q.description.Some? && q.name.Some? && (q.description.value, q.name.value) in descNamePairs {
        return true;
      }
      if q.description.Some? && q.ticker.Some? && (q.description.value, q.ticker.value) in descTickerPairs {
        return true;
      }
      if q.name.Some? && q.ticker.Some? && (q.name.value, q.ticker.value) in nameTickerPairs { return true; }
      if q.name.Some? && q.name.value in names { return true; }
      return false;
    }

    method InsertDescription(desc: string, name: Option<string>, ticker: Option<string>)
      modifies `descriptions, `descNamePairs, `descTickerPairs
      ensures descriptions.Keys == old(descriptions.Keys) + {desc}
      ensures descNamePairs.Keys == old(descNamePairs.Keys) + Two(Some(desc), name)
      ensures descTickerPairs.Keys == old(descTickerPairs.Keys) + Two(Some(desc), ticker)
    {
      descriptions := descriptions[desc := ()];
      if name.Some? { descNamePairs := descNamePairs[(desc, name.value) := ()]; }
      if ticker.Some? { descTickerPairs := descTickerPairs[(desc, ticker.value) := ()]; }
    }

    method InsertName(name: string, ticker: Option<string>)
      modifies `names, `nameTickerPairs
      ensures names.Keys == old(names.Keys) + {name}
      ensures nameTickerPairs.Keys == old(nameTickerPairs.Keys) + Two(Some(name), ticker)
    {
      names := names[name := ()];
      if ticker.Some? { nameTickerPairs := nameTickerPairs[(name, ticker.value) := ()]; }
    }

    method InsertKeys(r: Record)
      modifies `images, `ipfs, `descriptions, `names, `tickers, `nameTickerPairs, `descNamePairs, `descTickerPairs
      ensures images.Keys == old(images.Keys) + One(r.image)
      ensures ipfs.Keys == old(ipfs.Keys) + One(r.ipfs)
      ensures descriptions.Keys == old(descriptions.Keys) + One(r.description)
      ensures names.Keys == old(names.Keys) + One(r.name)
      ensures tickers.Keys == old(tickers.Keys) + One(r.ticker)
      ensures nameTickerPairs.Keys == old(nameTickerPairs.Keys) + Two(r.name, r.ticker)
      ensures descNamePairs.Keys == old(descNamePairs.Keys) + Two(r.description, r.name)
      ensures descTickerPairs.Keys == old(descTickerPairs.Keys) + Two(r.description, r.ticker)
    {
      images := Put(images, r.image);
      ipfs := Put(ipfs, r.ipfs);
      if r.description.Some? { InsertDescription(r.description.value, r.name, r.ticker); }
      if r.name.Some? { InsertName(r.name.value, r.ticker); }
      tickers := Put(tickers, r.ticker);
    }

    method InsertToken(r: Record)
      requires Valid()
      modifies this
      ensures Valid() && records == old(records) + [r]
    {
      InsertKeys(r);
      records := records + [r];
      assert records[..|records| - 1] == old(records);
    }
  }

  // ---------- The SQL predicate ----------

  /** SQL's three truth values. */
  datatype Truth = Yes | No | Unknown {
    function And(other: Truth): Truth {
      if this == No || other == No then No else if this == Yes && other == Yes then Yes else Unknown
    }

    function Or(other: Truth): Truth {
      if this == Yes || other == Yes then Yes else if this == No && other == No then No else Unknown
    }
  }

  function Equals(column: Option<string>, value: Option<string>): Truth {
    if column == None || value == None then Unknown else if column == value then Yes else No
  }

  function Given(value: Option<string>): Truth {
    if value.Some? then Yes else No
  }

  /** The WHERE clause of `token_any_exists`. */
  function Where(row: Database.Row, q: Record): Truth {
    Given(q.image).And(Equals(row.image, q.image))
    .Or(Given(q.ipfs).And(Equals(row.ipfs, q.ipfs)))
    .Or(Given(q.description).And(Given(q.name)).And(Equals(row.description, q.description))
        .And(Equals(row.name, q.name)))
    .Or(Given(q.description).And(Given(q.ticker)).And(Equals(row.description, q.description))
        .And(Equals(row.ticker, q.ticker)))
    .Or(Given(q.name).And(Given(q.ticker)).And(Equals(row.name, q.name)).And(Equals(row.ticker, q.ticker)))
  }

  ghost predicate TokenAnyExists(tokens: map<string, Database.Row>, q: Record) {
    exists m :: m in tokens && Where(tokens[m], q) == Yes
  }

  function RecordOf(row: Database.Row): Record {
    Record(row.image, row.ipfs, row.description, row.name, row.ticker)
  }

  lemma WhereShares(row: Database.Row, q: Record)
    ensures Where(row, q) == Yes ==> Shares(RecordOf(row), q)
    ensures Shares(RecordOf(row), q) ==> Where(row, q) == Yes || SameText(row.name, q.name)
  {
  }

  /** A cache that holds every row is at least as strict as the database. */
  lemma CacheCoversDatabase(tokens: map<string, Database.Row>, rs: seq<Record>, q: Record)
    requires forall m | m in tokens :: RecordOf(tokens[m]) in rs
    requires TokenAnyExists(tokens, q)
    ensures Check(Build(rs), q)
  {
    var m :| m in tokens && Where(tokens[m], q) == Yes;
    WhereShares(tokens[m], q);
    CheckIff(rs, q);
  }

  /** A cache of exactly the rows differs from the database only in that it also rejects a known name
      on its own. */
  lemma CacheVersusDatabase(tokens: map<string, Database.Row>, rs: seq<Record>, q: Record)
    requires forall m | m in tokens :: RecordOf(tokens[m]) in rs
    requires forall r | r in rs :: exists m :: m in tokens && RecordOf(tokens[m]) == r
    ensures Check(Build(rs), q)
       <==> TokenAnyExists(tokens, q) || exists m :: m in tokens && SameText(tokens[m].name, q.name)
  {
    CheckIff(rs, q);
    if Check(Build(rs), q) {
      var r :| r in rs && Shares(r, q);
      var m :| m in tokens && RecordOf(tokens[m]) == r;
      WhereShares(tokens[m], q);
    }
    if TokenAnyExists(tokens, q) {
      CacheCoversDatabase(tokens, rs, q);
    }
    if m :| m in tokens && SameText(tokens[m].name, q.name) {
      assert Shares(RecordOf(tokens[m]), q);
    }
  }

  // ---------- The cache keeps texts as they came, the database cleans them ----------

  /** What the cache remembers of a token that is also stored. */
  function Raw(token: Database.DbToken): Record {
    Record(token.image, token.ipfs, token.description, Some(token.name), Some(token.ticker))
  }

  predicate CleanWhereItMatters(token: Database.DbToken) {
    && (token.image.Some? ==> IsClean(token.image.value))
    && (token.ipfs.Some? ==> IsClean(token.ipfs.value))
    && IsClean(token.name)
    && (token.description.Some? ==> IsClean(token.description.value) && IsClean(token.ticker))
  }

  /** Whatever the stored row answers for, the cache entry of the same token does too. */
  ghost predicate Covered(token: Database.DbToken, dev: string) {
    forall q :: Where(Database.Proposed(token, dev), q) == Yes ==> Shares(Raw(token), q)
  }

  lemma CoveredImage(token: Database.DbToken, dev: string)
    requires Covered(token, dev) && token.image.Some?
    ensures Clean(token.image.value) == token.image.value
  {
    var row := Database.Proposed(token, dev);
    assert Where(row, Record(row.image, None, None, None, None)) == Yes;
  }

  lemma CoveredLink(token: Database.DbToken, dev: string)
    requires Covered(token, dev) && token.ipfs.Some?
    ensures Clean(token.ipfs.value) == token.ipfs.value
  {
    var row := Database.Proposed(token, dev);
    assert Where(row, Record(None, row.ipfs, None, None, None)) == Yes;
  }

  lemma CoveredName(token: Database.DbToken, dev: string)
    requires Covered(token, dev)
    ensures Clean(token.name) == token.name
  {
    var row := Database.Proposed(token, dev);
    assert Where(row, Record(None, None, None, row.name, row.ticker)) == Yes;
  }

  lemma CoveredText(token: Database.DbToken, dev: string)
    requires Covered(token, dev) && token.description.Some?
    ensures Clean(token.description.value) == token.description.value && Clean(token.ticker) == token.ticker
  {
    var row := Database.Proposed(token, dev);
    assert Where(row, Record(None, None, row.description, None, row.ticker)) == Yes;
  }

  lemma CleanIsCovered(token: Database.DbToken, dev: string)
    requires token.image.Some? ==> Clean(token.image.value) == token.image.value
    requires token.ipfs.Some? ==> Clean(token.ipfs.value) == token.ipfs.value
    requires Clean(token.name) == token.name
    requires token.description.Some? ==>
               Clean(token.description.value) == token.description.value && Clean(token.ticker) == token.ticker
    ensures Covered(token, dev)
  {
  }

  /** The entry covers the row, for every query, exactly when the token's image, link and name, and
      with a description also that and the ticker, carry no NULs and no outer white space. */
  lemma CoverageIff(token: Database.DbToken, dev: string)
    ensures Covered(token, dev) <==> CleanWhereItMatters(token)
  {
    CleanIsIdempotent(TextOf(token.image));
    CleanIsIdempotent(TextOf(token.ipfs));
    CleanIsIdempotent(TextOf(token.description));
    CleanIsIdempotent(token.name);
    CleanIsIdempotent(token.ticker);
    if Covered(token, dev) {
      if token.image.Some? { CoveredImage(token, dev); }
      if token.ipfs.Some? { CoveredLink(token, dev); }
      CoveredName(token, dev);
      if token.description.Some? { CoveredText(token, dev); }
    }
    if CleanWhereItMatters(token) {
      CleanIsCovered(token, dev);
    }
  }

  // ---------- Announcing new tokens ----------

  datatype Create = Create(name: string, symbol: string, uri: string)

  datatype Metadata = Metadata(image: Option<string>, description: Option<string>)

  /** What is asked about a new token, and remembered of it if it has metadata. */
  function Query(c: Create, m: Option<Metadata>): Record {
    Record(if m.Some? then m.value.image else None, Some(c.uri),
           if m.Some? then m.value.description else None, Some(c.name), Some(c.symbol))
  }

  /** The decision of `process_fast_create`. Without metadata neither the database nor the clock counts. */
  function Announces(ix: Indexes, c: Create, m: Option<Metadata>, inDatabase: bool, late: bool): bool {
    !Check(ix, Query(c, m)) && (m.Some? ==> !inDatabase && !late)
  }

  /** One create handled on its own; `fetched` is None when the metadata could not be fetched. */
  method ProcessFastCreate(cache: TokenCache, c: Create, fetched: Option<Metadata>, inDatabase: bool, late: bool)
    returns (announced: bool)
    requires cache.Valid()
    modifies cache
    ensures cache.Valid()
    ensures announced == Announces(old(cache.State()), c, fetched, inDatabase, late)
    ensures cache.records == old(cache.records) + if announced && fetched.Some? then [Query(c, fetched)] else []
  {
    CheckIff(cache.records, Query(c, fetched));
    if fetched == None {
      var duplicate := cache.CheckDuplicate(Record(None, Some(c.uri), None, Some(c.name), Some(c.symbol)));
      if duplicate { return false; }
      return true;
    }
    var m := fetched.value;
    var duplicate := cache.CheckDuplicate(Record(m.image, Some(c.uri), m.description, Some(c.name), Some(c.symbol)));
    if duplicate { return false; }
    if inDatabase { return false; }
    if late { return false; }
    cache.InsertToken(Record(m.image, Some(c.uri), m.description, Some(c.name), Some(c.symbol)));
    return true;
  }

  /** A serial run: creates on the fast path, and whatever the slow path adds to the cache between them. */
  datatype Handled =
    | Fast(create: Create, fetched: Option<Metadata>, inDatabase: bool, late: bool)
    | Slow(record: Record)

  datatype Emission = Emission(create: Create, fetched: Option<Metadata>)

  datatype Serial = Serial(records: seq<Record>, emitted: seq<Emission>)

  function Step(s: Serial, h: Handled): Serial {
    match h
    case Fast(c, m, inDatabase, late) =>
      if Announces(Build(s.records), c, m, inDatabase, late) then
        Serial(s.records + (if m.Some? then [Query(c, m)] else []), s.emitted + [Emission(c, m)])
      else s
    case Slow(r) => s.(records := s.records + [r])
  }

  function RunSerial(hs: seq<Handled>): Serial {
    if hs == [] then Serial([], []) else Step(RunSerial(hs[..|hs| - 1]), hs[|hs| - 1])
  }

  function QueryOf(e: Emission): Record {
    Query(e.create, e.fetched)
  }

  ghost predicate Remembered(s: Serial) {
    forall e | e in s.emitted && e.fetched.Some? :: QueryOf(e) in s.records
  }

  ghost predicate Fresh(s: Serial) {
    forall i, j | 0 <= i < j < |s.emitted| && s.emitted[i].fetched.Some? ::
      !Shares(QueryOf(s.emitted[i]), QueryOf(s.emitted[j]))
  }

  lemma {:induction false} RunsStayFresh(hs: seq<Handled>)
    ensures Remembered(RunSerial(hs)) && Fresh(RunSerial(hs))
  {
    if hs != [] {
      var s, h := RunSerial(hs[..|hs| - 1]), hs[|hs| - 1];
      RunsStayFresh(hs[..|hs| - 1]);
      if h.Fast? {
        CheckIff(s.records, Query(h.create, h.fetched));
        forall i | 0 <= i < |s.emitted| && s.emitted[i].fetched.Some?
          ensures QueryOf(s.emitted[i]) in s.records
        {
          assert s.emitted[i] in s.emitted;
        }
      }
    }
  }

  /** In a serial run no announced token shares its link or its name with an earlier one announced with
      metadata, nor, if its own metadata was fetched, an image or both description and ticker. */
  lemma NoRepeats(hs: seq<Handled>, i: nat, j: nat)
    requires i < j < |RunSerial(hs).emitted| && RunSerial(hs).emitted[i].fetched.Some?
    ensures var a, b := RunSerial(hs).emitted[i], RunSerial(hs).emitted[j];
            && a.create.uri != b.create.uri
            && a.create.name != b.create.name
            && (b.fetched.Some? ==>
                  && !SameText(a.fetched.value.image, b.fetched.value.image)
                  && !(SameText(a.fetched.value.description, b.fetched.value.description)
                       && a.create.symbol == b.create.symbol))
  {
    RunsStayFresh(hs);
    assert !Shares(QueryOf(RunSerial(hs).emitted[i]), QueryOf(RunSerial(hs).emitted[j]));
  }

  /** After any run, a token is announced exactly when nothing remembered shares with it and, if its
      metadata was fetched, the database does not know it and it is not late; it is remembered
      exactly when it is announced with metadata. */
  lemma AnnouncedIff(hs: seq<Handled>, c: Create, m: Option<Metadata>, inDatabase: bool, late: bool)
    ensures var s := RunSerial(hs);
            var novel := (forall r | r in s.records :: !Shares(r, Query(c, m))) && (m.Some? ==> !inDatabase && !late);
            RunSerial(hs + [Fast(c, m, inDatabase, late)])
            == Serial(s.records + (if novel && m.Some? then [Query(c, m)] else []),
                      s.emitted + (if novel then [Emission(c, m)] else []))
  {
    var s, more := RunSerial(hs), hs + [Fast(c, m, inDatabase, late)];
    assert more[..|more| - 1] == hs;
    CheckIff(s.records, Query(c, m));
    assert s.records + [] == s.records && s.emitted + [] == s.emitted;
  }

  /** Metadata matters: a token announced without it is not remembered, so it can be announced again. */
  lemma UnfetchedRepeats(c: Create)
    ensures var h := Fast(c, None, true, true);
            RunSerial([h, h]).emitted == [Emission(c, None), Emission(c, None)]
  {
    var h := Fast(c, None, true, true);
    assert [h, h][..1] == [h] && [h][..0] == [];
    CheckIff([], Query(c, None));
    assert RunSerial([h]) == Step(RunSerial([]), h);
    assert RunSerial([h]).records == [];
    assert RunSerial([h, h]) == Step(RunSerial([h]), h);
  }
}
