/** The all-time high of a token, kept twice: in memory by `Token::update`, and in the database by
    `update_token_ath`. */
module Highs {
  import opened Arith
  import opened Common
  import opened Logs
  import Database
  import TextOps

  const FRESH_MARKET_CAP: u64 := 3264
  const FRESH_RESERVES: u64 := 1073000000

  datatype Trade = BuyTrade(fill: Fill) | SellTrade(fill: Fill) {
    function Mcap(): u64 { fill.solBefore }
    function Reserves(): u64 { fill.tokenReserves }
  }

  /** `saturating_mul` on u128. */
  function SaturatingMul(a: nat, b: nat): nat {
    var p := Mul(a, b);
    if p < U128_LIMIT then p else U128_LIMIT - 1
  }

  /** Market cap in dollars; None when the division by the reserves panics. */
  function UsdMcap(mcap: u64, reserves: u64, price: u64): Option<u64> {
    if reserves == 0 then None
    else Some(AsU64(Div(SaturatingMul(mcap, price * 1000000), reserves)))
  }

  /** There is a cap unless the reserves are zero; until the product saturates or the quotient outgrows
      u64, it is the rounded-down quotient. */
  lemma UsdMcapBrackets(mcap: u64, reserves: u64, price: u64)
    ensures UsdMcap(mcap, reserves, price) == None <==> reserves == 0
    ensures mcap * (price * 1000000) < U128_LIMIT && mcap * (price * 1000000) < U64_LIMIT * reserves ==>
              && UsdMcap(mcap, reserves, price).Some?
              && var cap := UsdMcap(mcap, reserves, price).value;
                 cap * reserves <= mcap * (price * 1000000) < (cap + 1) * reserves
  {
    if reserves > 0 && mcap * (price * 1000000) < U128_LIMIT && mcap * (price * 1000000) < U64_LIMIT * reserves {
      CapInParts(mcap, reserves, price * 1000000);
    }
  }

  /** In every case: the product stops at 2^128 - 1, and of the quotient 64 bits are kept. */
  lemma UsdMcapExact(mcap: u64, reserves: u64, price: u64)
    requires reserves > 0
    ensures var product := mcap * (price * 1000000);
            var stopped := if product < U128_LIMIT then product else U128_LIMIT - 1;
            UsdMcap(mcap, reserves, price) == Some(stopped / reserves % 0x1_0000_0000_0000_0000)
  {
    MulIs(mcap, price * 1000000);
    DivIsQuotient(SaturatingMul(mcap, price * 1000000), reserves);
  }

  lemma CapInParts(mcap: nat, reserves: nat, rate: nat)
    requires reserves > 0 && mcap * rate < U128_LIMIT && mcap * rate < U64_LIMIT * reserves
    ensures SaturatingMul(mcap, rate) == Mul(mcap, rate)
    ensures var cap := Div(Mul(mcap, rate), reserves);
            cap < U64_LIMIT && cap * reserves <= mcap * rate < (cap + 1) * reserves
  {
    MulIs(mcap, rate);
    DivFits(Mul(mcap, rate), reserves, U64_LIMIT);
    ProductOver(mcap, rate, reserves);
  }

  /** The fields of a token that trades change. */
  datatype TokenState = TokenState(mcap: u64, reserves: u64, ath: u64)

  const FRESH := TokenState(FRESH_MARKET_CAP, FRESH_RESERVES, FRESH_MARKET_CAP)

  /** The two reserves are overwritten even when the division then panics. */
  function Updated(t: TokenState, event: Trade, price: u64): TokenState {
    var seen := UsdMcap(event.Mcap(), event.Reserves(), price);
    TokenState(event.Mcap(), event.Reserves(),
               if seen.Some? && seen.value > t.ath then seen.value else t.ath)
  }

  class Token {
    var mcap: u64
    var reserves: u64
    var ath: u64

    constructor Fresh()
      ensures State() == FRESH
    {
      mcap := FRESH_MARKET_CAP;
      reserves := FRESH_RESERVES;
      ath := FRESH_MARKET_CAP;
    }

    function State(): TokenState
      reads this
    {
      TokenState(mcap, reserves, ath)
    }

    method Update(event: Trade, price: u64) returns (panicked: bool)
      modifies this
      ensures panicked <==> event.Reserves() == 0
      ensures State() == Updated(old(State()), event, price)
    {
      reserves := event.Reserves();
      mcap := event.Mcap();
      var seen := UsdMcap(mcap, reserves, price);
      if seen == None {
        return true;
      }
      if seen.value > ath {
        ath := seen.value;
      }
      return false;
    }
  }

  /** Market cap and reserves become those of the trade, whether or not its cap panics; the high moves only
      if there is a cap above it. */
  lemma LastTradeShows(t: TokenState, event: Trade, price: u64)
    ensures Updated(t, event, price).mcap == event.fill.solBefore
    ensures Updated(t, event, price).reserves == event.fill.tokenReserves
    ensures Updated(t, event, price).ath
         == var seen := UsdMcap(event.fill.solBefore, event.fill.tokenReserves, price);
            if seen.Some? then Max(t.ath, seen.value) else t.ath
  {
  }

  // ---------- Runs of buys ----------

  /** A buy and the SOL price in force when it was seen. Only buys reach the database. */
  datatype Observation = Observation(trade: Trade, price: u64)

  type Observed = o: Observation | o.trade.BuyTrade?
    witness Observation(BuyTrade(Fill(TOKEN_2022_PROGRAM, 0, 0, TOKEN_2022_PROGRAM, 0, 0, 0, 0)), 0)

  function Cap(o: Observed): Option<u64> {
    UsdMcap(o.trade.Mcap(), o.trade.Reserves(), o.price)
  }

  /** The caps seen; a buy whose cap panics shows none. */
  function Caps(os: seq<Observed>): seq<u64> {
    if os == [] then []
    else Caps(os[..|os| - 1]) + (match Cap(os[|os| - 1]) case Some(cap) => [cap] case None => [])
  }

  /** The token in memory after the run. */
  function Track(os: seq<Observed>): TokenState {
    if os == [] then FRESH
    else Updated(Track(os[..|os| - 1]), os[|os| - 1].trade, os[|os| - 1].price)
  }

  /** After any run market cap and reserves are those of the last buy. */
  lemma TrackShowsLast(os: seq<Observed>)
    requires os != []
    ensures Track(os).mcap == os[|os| - 1].trade.fill.solBefore
    ensures Track(os).reserves == os[|os| - 1].trade.fill.tokenReserves
  {
    LastTradeShows(Track(os[..|os| - 1]), os[|os| - 1].trade, os[|os| - 1].price);
  }

  /** The database calls the same buys lead to: none if the cap panics. */
  function Raises(pool: string, os: seq<Observed>): (ops: seq<Database.Op>) {
    if os == [] then []
    else
      Raises(pool, os[..|os| - 1])
      + (match Cap(os[|os| - 1]) case Some(cap) => [Database.Raise(pool, AsI64(cap))] case None => [])
  }

  /** `high` is the largest of `base` and `xs`. */
  ghost predicate IsHighest(high: int, base: int, xs: seq<int>) {
    && base <= high
    && (forall x | x in xs :: x <= high)
    && (high == base || high in xs)
  }

  function Signed(xs: seq<u64>): (ys: seq<int>)
    ensures |ys| == |xs| && forall i | 0 <= i < |xs| :: ys[i] == AsI64(xs[i])
  {
    seq(|xs|, i requires 0 <= i < |xs| => AsI64(xs[i]))
  }

  lemma HighestExtends(high: int, base: int, xs: seq<int>, x: int)
    requires IsHighest(high, base, xs)
    ensures IsHighest(Max(high, x), base, xs + [x])
  {
    assert x in xs + [x];
    assert forall y | y in xs :: y in xs + [x];
  }

  /** In memory the high is the largest of the fresh cap and everything observed. */
  lemma {:induction false} MemoryIsHighest(os: seq<Observed>)
    ensures IsHighest(Track(os).ath, FRESH_MARKET_CAP, Caps(os))
  {
    if os != [] {
      var most := os[..|os| - 1];
      MemoryIsHighest(most);
      var seen := Cap(os[|os| - 1]);
      if seen.Some? {
        HighestExtends(Track(most).ath, FRESH_MARKET_CAP, Caps(most), seen.value);
      }
    }
  }

  /** The row of `mint` is `row` but for its high, which is the largest of that of `row` and `xs`. */
  ghost predicate RowHas(v: Database.Tables, mint: string, row: Database.Row, xs: seq<int>) {
    && mint in v.tokens
    && v.tokens[mint] == row.(ath := v.tokens[mint].ath)
    && IsHighest(v.tokens[mint].ath, row.ath, xs)
  }

  lemma RaiseStep(v: Database.Tables, mint: string, pool: string, row: Database.Row, xs: seq<int>, ath: i64)
    requires RowHas(v, mint, row, xs) && row.pool == Some(pool)
    ensures RowHas(Database.Apply(v, Database.Raise(pool, ath)), mint, row, xs + [ath])
  {
    HighestExtends(v.tokens[mint].ath, row.ath, xs, ath);
  }

  lemma RunSnoc(t: Database.Tables, ops: seq<Database.Op>, op: Database.Op)
    ensures Database.Run(t, ops + [op]) == Database.Apply(Database.Run(t, ops), op)
  {
    assert (ops + [op])[..|ops + [op]| - 1] == ops;
  }

  /** In the database it is the largest of the row's first value and the observations read as i64;
      nothing else in the row changes. */
  lemma {:induction false} RowIsHighest(t: Database.Tables, mint: string, pool: string, os: seq<Observed>)
    requires mint in t.tokens && t.tokens[mint].pool == Some(pool)
    ensures RowHas(Database.Run(t, Raises(pool, os)), mint, t.tokens[mint], Signed(Caps(os)))
  {
    if os != [] {
      var most, seen := os[..|os| - 1], Cap(os[|os| - 1]);
      RowIsHighest(t, mint, pool, most);
      if seen.Some? {
        var ath := AsI64(seen.value);
        RunSnoc(t, Raises(pool, most), Database.Raise(pool, ath));
        RaiseStep(Database.Run(t, Raises(pool, most)), mint, pool, t.tokens[mint], Signed(Caps(most)), ath);
        assert Signed(Caps(os)) == Signed(Caps(most)) + [ath];
      } else {
        assert Raises(pool, os) == Raises(pool, most) && Caps(os) == Caps(most);
      }
    }
  }

  lemma HighestIsUnique(a: int, b: int, base: int, xs: seq<int>, ys: seq<int>)
    requires IsHighest(a, base, xs) && IsHighest(b, base, ys)
    requires forall x :: x in xs <==> x in ys
    ensures a == b
  {
  }

  lemma SignedHighestIff(a: int, b: int, base: u64, first: i64, xs: seq<u64>)
    requires base < I64_LIMIT && IsHighest(a, base, xs) && IsHighest(b, first, Signed(xs))
    ensures a == b <==> AllBelow(xs, I64_LIMIT) && (first == base || Reaches(xs, Max(first, base)))
  {
    if AllBelow(xs, I64_LIMIT) {
      forall i | 0 <= i < |xs| ensures Signed(xs)[i] == xs[i] {
        assert xs[i] in xs;
      }
      assert Signed(xs) == xs;
      if first == base { HighestIsUnique(a, b, base, xs, Signed(xs)); }
    } else {
      assert b < I64_LIMIT;
    }
  }

  function RowAfter(t: Database.Tables, mint: string, pool: string, os: seq<Observed>): Option<Database.Row> {
    var v := Database.Run(t, Raises(pool, os));
    if mint in v.tokens then Some(v.tokens[mint]) else None
  }

  predicate AllBelow(xs: seq<u64>, limit: int) {
    forall x | x in xs :: x < limit
  }

  predicate Reaches(xs: seq<u64>, level: int) {
    exists x :: x in xs && level <= x
  }

  /** The two highs agree after a run exactly when every observed cap fits a signed 64-bit integer and,
      unless the row started at the fresh cap, some cap reached where both had started. */
  lemma HighsAgreeIff(t: Database.Tables, mint: string, pool: string, os: seq<Observed>)
    requires mint in t.tokens && t.tokens[mint].pool == Some(pool)
    ensures RowAfter(t, mint, pool, os).Some?
    ensures RowAfter(t, mint, pool, os).value.ath == Track(os).ath
       <==> && AllBelow(Caps(os), I64_LIMIT)
            && (t.tokens[mint].ath == FRESH_MARKET_CAP
                || Reaches(Caps(os), Max(t.tokens[mint].ath, FRESH_MARKET_CAP)))
  {
    MemoryIsHighest(os);
    RowIsHighest(t, mint, pool, os);
    SignedHighestIff(Track(os).ath, RowAfter(t, mint, pool, os).value.ath, FRESH_MARKET_CAP,
                     t.tokens[mint].ath, Caps(os));
  }

  /** The usual start: the token is added with the fresh cap. For a new mint the caps must fit; a row
      that was there with a higher high must also be reached again. The trades name the address the
      token was added with; a blank one leaves that of the row. */
  lemma HighsAgreeAfterAddIff(t: Database.Tables, mint: string, dev: string, token: Database.DbToken,
                              pool: string, os: seq<Observed>)
    requires Database.AddToken(t, mint, dev, token).Some? && token.ath == FRESH_MARKET_CAP
    requires if mint in t.tokens && TextOps.Clean(token.poolAddress) == "" then t.tokens[mint].pool == Some(pool)
             else pool == TextOps.Clean(token.poolAddress)
    ensures var row := RowAfter(Database.AddToken(t, mint, dev, token).value, mint, pool, os);
            && row.Some?
            && (row.value.ath == Track(os).ath
                <==> && AllBelow(Caps(os), I64_LIMIT)
                     && (mint !in t.tokens || t.tokens[mint].ath <= FRESH_MARKET_CAP
                         || Reaches(Caps(os), t.tokens[mint].ath)))
  {
    HighsAgreeIff(Database.AddToken(t, mint, dev, token).value, mint, pool, os);
  }

  // ---------- Buys of an AMM pool ----------

  lemma CapWithinRate(mcap: nat, reserves: nat, rate: nat)
    requires mcap <= reserves && reserves > 0
    ensures Div(SaturatingMul(mcap, rate), reserves) <= rate
  {
    MulIs(mcap, rate);
    MulMono(mcap, reserves, rate);
    DivFits(SaturatingMul(mcap, rate), reserves, rate + 1);
    assert (rate + 1) * reserves == reserves * rate + reserves;
  }

  /** The cap seen in an AMM buy is at most a million times the price, whatever the pool holds. */
  lemma AmmCapBounded(e: BuyEventAmm, price: u64)
    ensures var cap := Cap(Observation(BuyTrade(FromAmmBuy(e)), price));
            cap.Some? ==> cap.value <= price * 1000000
  {
    var f := FromAmmBuy(e);
    if f.tokenReserves > 0 {
      CapWithinRate(f.solBefore, f.tokenReserves, price * 1000000);
    }
  }

  ghost predicate FromPool(o: Observed) {
    exists e :: o.trade == BuyTrade(FromAmmBuy(e))
  }

  /** So as long as the price times a million stays below 2^63, AMM buys never part the two highs. */
  lemma AmmBuysKeepHighs(t: Database.Tables, mint: string, pool: string, os: seq<Observed>)
    requires mint in t.tokens && t.tokens[mint].pool == Some(pool) && t.tokens[mint].ath == FRESH_MARKET_CAP
    requires forall o | o in os :: FromPool(o) && o.price * 1000000 < I64_LIMIT
    ensures RowAfter(t, mint, pool, os).Some?
    ensures RowAfter(t, mint, pool, os).value.ath == Track(os).ath
  {
    HighsAgreeIff(t, mint, pool, os);
    forall cap | cap in Caps(os) ensures cap < I64_LIMIT {
      CapsIff(os, cap);
      var o :| o in os && Cap(o) == Some(cap);
      var e :| o.trade == BuyTrade(FromAmmBuy(e));
      AmmCapBounded(e, o.price);
    }
  }

  // ---------- The order of the buys ----------

  lemma {:induction false} CapsIff(os: seq<Observed>, cap: u64)
    ensures cap in Caps(os) <==> exists o :: o in os && Cap(o) == Some(cap)
  {
    if os != [] {
      var most, last := os[..|os| - 1], os[|os| - 1];
      CapsIff(most, cap);
      assert os == most + [last];
      if cap in Caps(most) {
        var o :| o in most && Cap(o) == Some(cap);
        assert o in os;
      }
      if Cap(last) == Some(cap) { assert last in os; }
    }
  }

  lemma CapsReorder(os: seq<Observed>, ps: seq<Observed>, cap: u64)
    requires multiset(os) == multiset(ps) && cap in Caps(os)
    ensures cap in Caps(ps)
  {
    CapsIff(os, cap);
    CapsIff(ps, cap);
    var o :| o in os && Cap(o) == Some(cap);
    assert o in multiset(ps);
  }

  lemma SignedMembers(xs: seq<u64>, ys: seq<u64>)
    requires forall x :: x in xs <==> x in ys
    ensures forall x :: x in Signed(xs) <==> x in Signed(ys)
  {
    forall x ensures x in Signed(xs) <==> x in Signed(ys) {
      if i :| 0 <= i < |xs| && Signed(xs)[i] == x {
        assert xs[i] in ys;
        var j :| 0 <= j < |ys| && ys[j] == xs[i];
        assert Signed(ys)[j] == x;
      }
      if i :| 0 <= i < |ys| && Signed(ys)[i] == x {
        assert ys[i] in xs;
        var j :| 0 <= j < |xs| && xs[j] == ys[i];
        assert Signed(xs)[j] == x;
      }
    }
  }

  /** Neither high depends on the order in which the buys arrive. */
  lemma OrderIsIrrelevant(t: Database.Tables, mint: string, pool: string, os: seq<Observed>, ps: seq<Observed>)
    requires multiset(os) == multiset(ps)
    requires mint in t.tokens && t.tokens[mint].pool == Some(pool)
    ensures Track(os).ath == Track(ps).ath
    ensures RowAfter(t, mint, pool, os).Some? && RowAfter(t, mint, pool, os) == RowAfter(t, mint, pool, ps)
  {
    forall cap ensures cap in Caps(os) <==> cap in Caps(ps) {
      if cap in Caps(os) { CapsReorder(os, ps, cap); }
      if cap in Caps(ps) { CapsReorder(ps, os, cap); }
    }
    MemoryIsHighest(os);
    MemoryIsHighest(ps);
    HighestIsUnique(Track(os).ath, Track(ps).ath, FRESH_MARKET_CAP, Caps(os), Caps(ps));
    RowIsHighest(t, mint, pool, os);
    RowIsHighest(t, mint, pool, ps);
    SignedMembers(Caps(os), Caps(ps));
    HighestIsUnique(RowAfter(t, mint, pool, os).value.ath, RowAfter(t, mint, pool, ps).value.ath,
                    t.tokens[mint].ath, Signed(Caps(os)), Signed(Caps(ps)));
  }
}
