/** Whether a trade split into pieces beats the same trade at once: for purchases the cap decides, for
    sales the fee, which stays on the curve. */
module Splitting {
  import opened Arith
  import opened Common
  import opened BondingCurves

  // ---------- Trades in pieces ----------

  function Sum(xs: seq<u64>): nat {
    if xs == [] then 0 else xs[0] + Sum(xs[1..])
  }

  function Purchases(xs: seq<u64>): (ts: seq<Trade>)
    ensures |ts| == |xs|
  {
    if xs == [] then [] else [BuyWith(xs[0])] + Purchases(xs[1..])
  }

  function Sales(xs: seq<u64>, fee: u64): (ts: seq<Trade>)
    ensures |ts| == |xs|
  {
    if xs == [] then [] else [Sell(xs[0], Some(fee))] + Sales(xs[1..], fee)
  }

  lemma {:induction false} PurchasesPay(c: Curve, xs: seq<u64>)
    requires c.token > 0 && !c.complete && c.sol + Sum(xs) < U64_LIMIT
    ensures Run(c, Purchases(xs)).sol == c.sol + Sum(xs)
    ensures Sum(xs) > 0 ==> SomeBuy(c, Purchases(xs))
    decreases |xs|
  {
    if xs != [] {
      var t := BuyWith(xs[0]);
      assert Purchases(xs)[0] == t && Purchases(xs)[1..] == Purchases(xs[1..]);
      BuyUnderflowsIff(c, xs[0]);
      StepKeepsProduct(c, t);
      PurchasesPay(Step(c, t), xs[1..]);
    }
  }

  lemma {:induction false} SalesReturn(c: Curve, xs: seq<u64>, fee: u64)
    requires !c.complete && c.token + Sum(xs) < U64_LIMIT && fee <= 10000 && c.token > 0
    ensures Run(c, Sales(xs, fee)).token == c.token + Sum(xs)
    decreases |xs|
  {
    if xs != [] {
      var t := Sell(xs[0], Some(fee));
      assert Sales(xs, fee)[0] == t && Sales(xs, fee)[1..] == Sales(xs[1..], fee);
      assert PriceQuote(c, xs[0], Some(fee)).Amount? by {
        PriceUnderflowsIff(c, xs[0], Some(fee));
        if xs[0] > 0 { MulMono(fee, 10000, Gross(c.sol, c.token, xs[0])); }
      }
      StepKeepsProduct(c, t);
      SalesReturn(Step(c, t), xs[1..], fee);
    }
  }

  lemma LeftCovers(sol: nat, token: nat, amount: nat, left: nat)
    requires amount > 0 && sol * token < (sol + amount) * left
    ensures TokensLeft(sol, token, amount) <= left
  {
    BuyIsLargest(sol, token, amount, token - left);
  }

  lemma TakenWithinUncapped(sol: nat, token: nat, amount: nat, raised: nat, left: nat)
    requires amount > 0 && raised == sol + amount && Mul(sol, token) < Mul(raised, left)
    ensures TokensLeft(sol, token, amount) <= left
  {
    MulIs(sol, token);
    MulIs(raised, left);
    LeftCovers(sol, token, amount, left);
  }

  lemma PaidWithinGross(sol: nat, token: nat, amount: nat, rest: nat, raised: nat)
    requires raised > 0 && raised == token + amount && Mul(sol, token) <= Mul(rest, raised)
    ensures sol - rest <= Gross(sol, token, amount)
  {
    MulIs(sol, token);
    MulIs(rest, raised);
    SaleIsLargest(sol, token, amount, sol - rest);
  }

  lemma SplitBuyWithinUncapped(c: Curve, xs: seq<u64>)
    requires c.token > 0 && !c.complete && 0 < Sum(xs) && c.sol + Sum(xs) < U64_LIMIT
    ensures TokensLeft(c.sol, c.token, Sum(xs)) <= Run(c, Purchases(xs)).token
  {
    PurchasesPay(c, xs);
    RunKeepsProduct(c, Purchases(xs));
    var d := Run(c, Purchases(xs));
    TakenWithinUncapped(c.sol, c.token, Sum(xs), d.sol, d.token);
  }

  /** Buying in pieces yields at most the uncapped single purchase; hence at most the single quote
      whenever that quote is not cut off by the real reserves. */
  lemma SplitBuyGainsNothing(c: Curve, xs: seq<u64>)
    requires c.token > 0 && !c.complete && 0 < Sum(xs) && c.sol + Sum(xs) < U64_LIMIT
    ensures c.token - Run(c, Purchases(xs)).token <= c.token - TokensLeft(c.sol, c.token, Sum(xs))
    ensures c.token - TokensLeft(c.sol, c.token, Sum(xs)) <= c.realToken ==>
              && BuyQuote(c, Sum(xs)).Amount?
              && c.token - Run(c, Purchases(xs)).token <= BuyQuote(c, Sum(xs)).value
  {
    SplitBuyWithinUncapped(c, xs);
    BuyInParts(c, Sum(xs));
  }

  /** Selling in pieces, at any fee up to 100%, pays at most one sale of the sum without a fee. */
  lemma SplitSaleGainsNothing(c: Curve, xs: seq<u64>, fee: u64)
    requires c.token > 0 && !c.complete && fee <= 10000 && c.token + Sum(xs) < U64_LIMIT
    ensures PriceQuote(c, Sum(xs), Some(0)).Amount?
    ensures c.sol - Run(c, Sales(xs, fee)).sol <= PriceQuote(c, Sum(xs), Some(0)).value
  {
    SalesReturn(c, xs, fee);
    if Sum(xs) > 0 {
      RunKeepsProduct(c, Sales(xs, fee));
      var d := Run(c, Sales(xs, fee));
      PaidWithinGross(c.sol, c.token, Sum(xs), d.sol, d.token);
      FeelessPrice(c, Sum(xs));
    } else {
      NoRunProfits(c, Sales(xs, fee));
    }
  }

  lemma FeelessPrice(c: Curve, amount: u64)
    requires !c.complete && amount > 0
    ensures PriceQuote(c, amount, Some(0)).Amount?
    ensures PriceQuote(c, amount, Some(0)).value == Gross(c.sol, c.token, amount)
  {
    var gross := Gross(c.sol, c.token, amount);
    GrossWithinReserves(c.sol, c.token, amount);
    MulIs(gross, 0);
    DivIs(Mul(gross, 0), 10000, 0);
    PriceInParts(c, amount, Some(0), gross, 0);
  }

  lemma RunTwo(c: Curve, t: Trade, u: Trade)
    ensures Run(c, [t, u]) == Step(Step(c, t), u)
  {
    assert Run(c, [t, u]) == Run(Step(c, t), [u]);
    assert Run(Step(c, t), [u]) == Run(Step(Step(c, t), u), []);
  }

  // ---------- Splitting a purchase under the cap ----------

  /** Buying in pieces yields at most what one purchase of the sum is quoted. */
  predicate BuySplitSafe(c: Curve, xs: seq<u64>) {
    c.token > 0 && !c.complete && 0 < Sum(xs) && c.sol + Sum(xs) < U64_LIMIT && BuyQuote(c, Sum(xs)).Amount? ==>
      c.token - Run(c, Purchases(xs)).token <= BuyQuote(c, Sum(xs)).value
  }

  /** A first purchase that is quoted something, after which the rest of the money, but for the cap,
      would leave fewer tokens than a single capped purchase does. */
  ghost predicate LeavesRoom(c: Curve, first: u64, all: nat) {
    && 0 < first < all
    && BuyQuote(c, first).Amount?
    && 0 < BuyQuote(c, first).value <= c.token
    && TokensLeft(c.sol + first, c.token - BuyQuote(c, first).value, all - first) < c.token - c.realToken
  }

  lemma {:induction false} RunSnoc(c: Curve, ts: seq<Trade>, t: Trade)
    ensures Run(c, ts + [t]) == Step(Run(c, ts), t)
    decreases |ts|
  {
    if ts == [] {
      assert [] + [t] == [t];
      assert Run(Step(c, t), []) == Step(c, t);
    } else {
      assert (ts + [t])[1..] == ts[1..] + [t];
      RunSnoc(Step(c, ts[0]), ts[1..], t);
    }
  }

  lemma {:induction false} LastPurchase(xs: seq<u64>, x: u64)
    ensures Purchases(xs + [x]) == Purchases(xs) + [BuyWith(x)]
    ensures Sum(xs + [x]) == Sum(xs) + x
  {
    if xs == [] {
      assert [x][1..] == [] && Sum([x]) == x;
      assert [] + [x] == [x];
    } else {
      assert (xs + [x])[1..] == xs[1..] + [x];
      LastPurchase(xs[1..], x);
    }
  }

  lemma {:induction false} NothingForNothing(c: Curve, xs: seq<u64>)
    requires Sum(xs) == 0
    ensures Run(c, Purchases(xs)) == c
    decreases |xs|
  {
    if xs != [] {
      var t := BuyWith(xs[0]);
      assert Purchases(xs)[0] == t && Purchases(xs)[1..] == Purchases(xs[1..]);
      NothingForNothing(c, xs[1..]);
    }
  }

  /** Starting with fewer tokens, the same purchase can leave as few. */
  lemma FewerLeaveFewer(s: nat, tokens: nat, fewer: nat, amount: nat, out: nat)
    requires amount > 0 && fewer <= tokens && out <= tokens && Grows(s, tokens, amount, out)
    ensures TokensLeft(s, fewer, amount) <= tokens - out
  {
    MulMono(fewer, tokens, s);
    BuyIsLargest(s, fewer, amount, fewer - (tokens - out));
  }

  /** What a split bought so far is no more than the quote for the money it took. */
  lemma QuoteForSpent(c: Curve, xs: seq<u64>)
    requires c.token > 0 && !c.complete && c.sol + Sum(xs) < U64_LIMIT
    requires 0 < c.token - Run(c, Purchases(xs)).token <= c.realToken
    ensures 0 < Sum(xs) && BuyQuote(c, Sum(xs)).Amount?
    ensures c.token - Run(c, Purchases(xs)).token <= BuyQuote(c, Sum(xs)).value <= c.token
  {
    if Sum(xs) == 0 { NothingForNothing(c, xs); }
    SplitBuyWithinUncapped(c, xs);
    BuyInParts(c, Sum(xs));
  }

  lemma PurchaseFromFewer(d: Curve, x: u64, fewer: nat)
    requires d.token > 0 && !d.complete && fewer <= d.token
    requires Step(d, BuyWith(x)).token < d.token
    ensures x > 0 && d.token - Step(d, BuyWith(x)).token <= d.realToken
    ensures TokensLeft(d.sol, fewer, x) <= Step(d, BuyWith(x)).token
  {
    BuyUnderflowsIff(d, x);
    BuyLeavesTokens(d, x);
    FewerLeaveFewer(d.sol, d.token, fewer, x, BuyQuote(d, x).value);
  }

  lemma SpentSoFar(c: Curve, xs: seq<u64>, d: Curve)
    requires c.token > 0 && !c.complete && c.sol + Sum(xs) < U64_LIMIT && d == Run(c, Purchases(xs))
    ensures d.token > 0 && d == c.(sol := c.sol + Sum(xs), token := d.token)
  {
    RunKeepsProduct(c, Purchases(xs));
    PurchasesPay(c, xs);
  }

  lemma RoomInParts(c: Curve, first: u64, x: u64, q: u64, sol: nat, left: nat)
    requires BuyQuote(c, first).Amount? && BuyQuote(c, first).value == q
    requires 0 < first && 0 < x && 0 < q <= c.token && sol == c.sol + first
    requires TokensLeft(sol, c.token - q, x) <= left
    requires left < c.token - c.realToken
    ensures LeavesRoom(c, first, first + x)
  {
  }

  lemma CrossingSpent(c: Curve, xs: seq<u64>, x: u64, d: Curve)
    requires c.token > 0 && !c.complete && c.sol + Sum(xs) + x < U64_LIMIT
    requires d == Run(c, Purchases(xs)) && c.token - d.token <= c.realToken
    requires c.realToken < c.token - Step(d, BuyWith(x)).token
    ensures d.token > 0 && !d.complete && d.sol == c.sol + Sum(xs)
    ensures x > 0 && 0 < c.token - d.token
  {
    SpentSoFar(c, xs, d);
    PurchaseFromFewer(d, x, d.token);
  }

  /** The purchase that crosses the cap needs room after the money spent before it. */
  lemma CrossingLeavesRoom(c: Curve, xs: seq<u64>, x: u64, d: Curve)
    requires c.token > 0 && !c.complete && c.sol + Sum(xs) + x < U64_LIMIT
    requires d == Run(c, Purchases(xs)) && c.token - d.token <= c.realToken
    requires c.realToken < c.token - Step(d, BuyWith(x)).token
    ensures Sum(xs) < U64_LIMIT && LeavesRoom(c, Sum(xs), Sum(xs) + x)
  {
    CrossingSpent(c, xs, x, d);
    QuoteForSpent(c, xs);
    var q := BuyQuote(c, Sum(xs)).value;
    PurchaseFromFewer(d, x, c.token - q);
    RoomInParts(c, Sum(xs), x, q, d.sol, Step(d, BuyWith(x)).token);
  }

  lemma RoomForMore(c: Curve, first: u64, less: nat, more: nat)
    requires LeavesRoom(c, first, less) && less <= more && c.token > 0
    ensures LeavesRoom(c, first, more)
  {
    BuyLeavesTokens(c, first);
    UncappedMonotone(c.sol + first, c.token - BuyQuote(c, first).value, less - first, more - first);
  }

  lemma {:induction false} BeyondCapLeavesRoom(c: Curve, xs: seq<u64>) returns (first: u64)
    requires c.token > 0 && !c.complete && c.sol + Sum(xs) < U64_LIMIT
    requires c.realToken < c.token - Run(c, Purchases(xs)).token
    ensures LeavesRoom(c, first, Sum(xs))
    decreases |xs|
  {
    assert xs != [];
    var most, x := xs[..|xs| - 1], xs[|xs| - 1];
    assert xs == most + [x];
    LastPurchase(most, x);
    RunSnoc(c, Purchases(most), BuyWith(x));
    if c.realToken < c.token - Run(c, Purchases(most)).token {
      first := BeyondCapLeavesRoom(c, most);
      RoomForMore(c, first, Sum(most), Sum(xs));
    } else {
      first := Sum(most);
      CrossingLeavesRoom(c, most, x, Run(c, Purchases(most)));
    }
  }

  lemma UnsafeIsBeyondCap(c: Curve, xs: seq<u64>) returns (first: u64)
    requires !BuySplitSafe(c, xs)
    ensures LeavesRoom(c, first, Sum(xs)) && 0 < c.realToken < c.token - 1
  {
    SplitBuyGainsNothing(c, xs);
    BuyInParts(c, Sum(xs));
    first := BeyondCapLeavesRoom(c, xs);
    RoomIsBelowLast(c, first, Sum(xs));
  }

  lemma RoomIsBelowLast(c: Curve, first: u64, all: nat)
    requires LeavesRoom(c, first, all)
    ensures 0 < c.realToken < c.token - 1
  {
    BuyLeavesTokens(c, first);
  }

  lemma TwoPurchases(c: Curve, x: u64, y: u64)
    ensures Run(c, Purchases([x, y])) == Step(Step(c, BuyWith(x)), BuyWith(y))
    ensures Sum([x, y]) == x + y
  {
    assert Purchases([y]) == [BuyWith(y)];
    assert Purchases([x, y]) == [BuyWith(x), BuyWith(y)];
    RunTwo(c, BuyWith(x), BuyWith(y));
    assert Sum([y]) == y;
  }

  lemma RestPassesCap(c: Curve, first: u64, rest: u64)
    requires c.token > 0 && !c.complete && c.sol + first + rest < U64_LIMIT && LeavesRoom(c, first, first + rest)
    ensures c.realToken < c.token - Step(Step(c, BuyWith(first)), BuyWith(rest)).token
  {
    BuyLeavesTokens(c, first);
    BuyInParts(Step(c, BuyWith(first)), rest);
  }

  lemma RoomIsUsed(c: Curve, first: u64, all: u64)
    requires c.token > 0 && !c.complete && c.sol + all < U64_LIMIT && LeavesRoom(c, first, all)
    ensures Sum([first, all - first]) == all
    ensures !BuySplitSafe(c, [first, all - first])
  {
    TwoPurchases(c, first, all - first);
    RestPassesCap(c, first, all - first);
    BuyInParts(c, all);
  }

  /** On an open curve some way of splitting a given amount beats the single quote exactly when some
      first part of it leaves room for the rest to pass the cap; then those two parts already do. */
  lemma SplitBuyGainsIff(c: Curve, all: u64)
    requires c.token > 0 && !c.complete && 0 < all && c.sol + all < U64_LIMIT
    ensures (exists xs :: Sum(xs) == all && !BuySplitSafe(c, xs)) <==> (exists first: u64 :: LeavesRoom(c, first, all))
    ensures forall first: u64 | LeavesRoom(c, first, all) :: !BuySplitSafe(c, [first, all - first])
  {
    if xs: seq<u64> :| Sum(xs) == all && !BuySplitSafe(c, xs) {
      var first := UnsafeIsBeyondCap(c, xs);
    }
    forall first: u64 | LeavesRoom(c, first, all)
      ensures Sum([first, all - first]) == all && !BuySplitSafe(c, [first, all - first])
    {
      RoomIsUsed(c, first, all);
    }
  }

  /** A curve without SOL sells up to its cap for one lamport, and again for the next. */
  lemma EmptyCurveLeavesRoom(token: u64, cap: u64) returns (c: Curve)
    requires 0 < cap < token - 1
    ensures c.token == token && c.realToken == cap
    ensures !BuySplitSafe(c, [1, U64_LIMIT - 2])
  {
    c := Curve(0, token, 0, cap, 0, 0, false);
    BuyQuoteIs(c, 1, 1);
    MulMono(2, U64_LIMIT - 1, token - cap - 1);
    BuyIsLargest(1, token - cap, U64_LIMIT - 2, 1);
    RoomIsUsed(c, 1, U64_LIMIT - 1);
  }

  /** Splitting a purchase never helps, whatever the SOL on the curve and whatever the pieces, exactly
      when nothing can be bought at all or the cap reaches the last token on sale. */
  lemma SplitBuySafeIff(token: u64, cap: u64)
    ensures (forall c: Curve, xs: seq<u64> :: c.token == token && c.realToken == cap ==> BuySplitSafe(c, xs))
       <==> cap == 0 || token <= cap + 1
  {
    if cap == 0 || token <= cap + 1 {
      forall c: Curve, xs: seq<u64> | c.token == token && c.realToken == cap ensures BuySplitSafe(c, xs) {
        if !BuySplitSafe(c, xs) {
          var _ := UnsafeIsBeyondCap(c, xs);
        }
      }
    } else {
      var c := EmptyCurveLeavesRoom(token, cap);
      assert !BuySplitSafe(c, [1, U64_LIMIT - 2]);
    }
  }

  // ---------- Splitting a sale under a fee ----------

  /** A fee of 100% or more leaves the seller nothing. */
  lemma FullFeePaysNothing(c: Curve, amount: u64, fee: u64)
    requires fee >= 10000 && PriceQuote(c, amount, Some(fee)).Amount?
    ensures PriceQuote(c, amount, Some(fee)).value == 0
  {
    if amount > 0 {
      var gross := Gross(c.sol, c.token, amount);
      MulIs(gross, fee);
      MulMono(10000, fee, gross);
      DivFits(Mul(gross, fee), 10000, gross);
    }
  }

  lemma {:induction false} FullFeeSalesPayNothing(c: Curve, xs: seq<u64>, fee: u64)
    requires fee >= 10000
    ensures Run(c, Sales(xs, fee)).sol == c.sol
    decreases |xs|
  {
    if xs != [] {
      var t := Sell(xs[0], Some(fee));
      assert Sales(xs, fee)[0] == t && Sales(xs, fee)[1..] == Sales(xs[1..], fee);
      if PriceQuote(c, xs[0], Some(fee)).Amount? {
        FullFeePaysNothing(c, xs[0], fee);
      }
      FullFeeSalesPayNothing(Step(c, t), xs[1..], fee);
    }
  }

  /** Selling in pieces pays at most what one sale of the sum would pay at the same fee. */
  predicate SaleSplitSafe(c: Curve, xs: seq<u64>, fee: u64) {
    c.token > 0 && !c.complete && c.token + Sum(xs) < U64_LIMIT && PriceQuote(c, Sum(xs), Some(fee)).Amount? ==>
      c.sol - Run(c, Sales(xs, fee)).sol <= PriceQuote(c, Sum(xs), Some(fee)).value
  }

  lemma CeilReaches(n: nat, d: nat)
    requires d > 0
    ensures n <= CeilDiv(n, d) * d < n + d
  {
    var g := CeilDiv(n, d);
    DivFits(n + d - 1, d, g);
    DivFits(n + d - 1, d, g + 1);
    assert (g + 1) * d == g * d + d;
  }

  /** A gross amount whose fee rounds down to nothing, while twice the amount is charged one lamport. */
  function FeeFreeGross(fee: u64): (g: nat)
    requires 0 < fee < 10000
    ensures 0 < g <= 5000 && 5000 <= g * fee < 10000
  {
    if fee >= 5000 then 1
    else
      CeilReaches(5000, fee);
      DivFits(4999 + fee, fee, 5001);
      CeilDiv(5000, fee)
  }

  /** At any fee strictly between nothing and everything there is a curve where two pieces of one token
      beat one sale of two; here the gain is a fee rounded down twice. */
  lemma AnyFeeRewardsSplitting(fee: u64) returns (c: Curve)
    requires 0 < fee < 10000
    ensures !SaleSplitSafe(c, [1, 1], fee)
  {
    var g := FeeFreeGross(fee);
    c := Curve(0, 100000, g * 100003, 0, 0, 0, false);
    var t := Sell(1, Some(fee));
    PriceQuoteIs(c, 2, 2 * g, fee, 1);
    PriceQuoteIs(c, 1, g, fee, 0);
    var c1 := Step(c, t);
    assert c1 == c.(sol := g * 100002, token := 100001);
    PriceQuoteIs(c1, 1, g, fee, 0);
    assert Sales([1], fee) == [t];
    assert Sales([1, 1], fee) == [t, t];
    RunTwo(c, t, t);
    assert Sum([1]) == 1 && Sum([1, 1]) == 2;
  }

  /** At the same fee, splitting a sale never helps, on any curve and for any pieces, exactly when the
      fee is nothing or everything. */
  lemma SplitSaleSafeIff(fee: u64)
    ensures (forall c, xs :: SaleSplitSafe(c, xs, fee)) <==> fee == 0 || fee >= 10000
  {
    if fee == 0 {
      forall c: Curve, xs: seq<u64> ensures SaleSplitSafe(c, xs, fee) {
        if c.token > 0 && !c.complete && c.token + Sum(xs) < U64_LIMIT {
          SplitSaleGainsNothing(c, xs, 0);
        }
      }
    } else if fee >= 10000 {
      forall c: Curve, xs: seq<u64> ensures SaleSplitSafe(c, xs, fee) {
        FullFeeSalesPayNothing(c, xs, fee);
      }
    } else {
      var c := AnyFeeRewardsSplitting(fee);
      assert !SaleSplitSafe(c, [1, 1], fee);
    }
  }

  // ---------- The fee stays in the curve ----------

  /** More SOL raises the gross proceeds of a sale, but by no more than was added. */
  lemma GrossGrowsSlowly(less: nat, more: nat, token: nat, amount: nat)
    requires less <= more && token + amount > 0
    ensures Gross(less, token, amount) <= Gross(more, token, amount) <= Gross(less, token, amount) + (more - less)
  {
    var g, h := Gross(less, token, amount), Gross(more, token, amount);
    SaleIsLargest(less, token, amount, g);
    SaleIsLargest(less, token, amount, h - (more - less));
    SaleIsLargest(more, token, amount, g);
    SaleIsLargest(more, token, amount, h);
    MulMono(less, more, token);
    assert (more - g) * (token + amount) == (less - g) * (token + amount) + (more - less) * (token + amount);
    assert (more - less) * (token + amount) == (more - less) * token + (more - less) * amount;
    assert (more - less) * token == more * token - less * token;
    MulMono(0, more - less, amount);
  }

  /** So does the seller's part; hence a curve with more SOL, or a higher fee, is left with more SOL. */
  lemma KeptGrowsSlowly(g: nat, h: nat, high: nat, low: nat)
    requires g <= h && low <= high <= 10000
    ensures CeilDiv(Mul(h, 10000 - high), 10000) <= CeilDiv(Mul(g, 10000 - low), 10000) + (h - g)
  {
    FeeRest(g, low);
    FeeRest(h, high);
    MulIs(g, low);
    MulIs(h, high);
    MulMono(g, h, low);
    MulMono(low, high, h);
    DivMono(Mul(g, low), Mul(h, high), 10000);
  }

  /** Two curves that differ at most in their SOL. */
  predicate AtLeastAsRich(rich: Curve, poor: Curve) {
    poor.sol <= rich.sol && poor == rich.(sol := poor.sol)
  }

  lemma SaleLeavesMore(rich: Curve, poor: Curve, amount: u64, high: u64, low: u64)
    requires AtLeastAsRich(rich, poor) && low <= high <= 10000
    ensures AtLeastAsRich(Step(rich, Sell(amount, Some(high))), Step(poor, Sell(amount, Some(low))))
  {
    if amount > 0 && !rich.complete {
      PriceIsCeiling(rich, amount, Some(high));
      PriceIsCeiling(poor, amount, Some(low));
      GrossGrowsSlowly(poor.sol, rich.sol, rich.token, amount);
      KeptGrowsSlowly(Gross(poor.sol, poor.token, amount), Gross(rich.sol, rich.token, amount), high, low);
    }
  }

  lemma {:induction false} SalesLeaveMore(rich: Curve, poor: Curve, xs: seq<u64>, high: u64, low: u64)
    requires AtLeastAsRich(rich, poor) && low <= high <= 10000
    ensures AtLeastAsRich(Run(rich, Sales(xs, high)), Run(poor, Sales(xs, low)))
    decreases |xs|
  {
    if xs != [] {
      var t, u := Sell(xs[0], Some(high)), Sell(xs[0], Some(low));
      assert Sales(xs, high)[0] == t && Sales(xs, high)[1..] == Sales(xs[1..], high);
      assert Sales(xs, low)[0] == u && Sales(xs, low)[1..] == Sales(xs[1..], low);
      SaleLeavesMore(rich, poor, xs[0], high, low);
      SalesLeaveMore(Step(rich, t), Step(poor, u), xs[1..], high, low);
    }
  }

  lemma {:induction false} SalesOnlyTake(c: Curve, xs: seq<u64>, fee: u64)
    ensures Run(c, Sales(xs, fee)).sol <= c.sol
    decreases |xs|
  {
    if xs != [] {
      var t := Sell(xs[0], Some(fee));
      assert Sales(xs, fee)[0] == t && Sales(xs, fee)[1..] == Sales(xs[1..], fee);
      SellKeepsProduct(c, xs[0], Some(fee));
      SalesOnlyTake(Step(c, t), xs[1..], fee);
    }
  }

  /** However a sale is split, a higher fee never pays the seller more in all, although what it takes
      stays on the curve and raises the quotes of the later pieces. */
  lemma HigherFeePaysLess(c: Curve, xs: seq<u64>, high: u64, low: u64)
    requires low <= high
    ensures Run(c, Sales(xs, low)).sol <= Run(c, Sales(xs, high)).sol
  {
    if high >= 10000 {
      FullFeeSalesPayNothing(c, xs, high);
      SalesOnlyTake(c, xs, low);
    } else {
      SalesLeaveMore(c, c, xs, high, low);
    }
  }

  lemma DivAdds(m: nat, n: nat, d: nat)
    requires d > 0
    ensures Div(m, d) + Div(n, d) <= Div(m + n, d) <= Div(m, d) + Div(n, d) + 1
  {
    var a, b := Div(m, d), Div(n, d);
    DivFits(m, d, a);
    DivFits(m, d, a + 1);
    DivFits(n, d, b);
    DivFits(n, d, b + 1);
    Distributes(a, b, d);
    Distributes(a, 1, d);
    Distributes(b, 1, d);
    Distributes(a + 1, b + 1, d);
    DivFits(m + n, d, a + b);
    DivFits(m + n, d, a + 1 + (b + 1));
  }

  lemma Distributes(a: int, b: int, d: int)
    ensures (a + b) * d == a * d + b * d
  {
  }

  lemma {:induction false} MulAdds(amount: nat, s: nat, r: nat)
    ensures Mul(amount, s + r) == Mul(amount, s) + Mul(amount, r)
  {
    if amount > 0 { MulAdds(amount - 1, s, r); }
  }

  /** The gross on two amounts of SOL together is that on each, up to one lamport of rounding. */
  lemma GrossAdds(s: nat, r: nat, token: nat, amount: nat)
    requires token + amount > 0
    ensures var both := Gross(s, token, amount) + Gross(r, token, amount);
            both <= Gross(s + r, token, amount) <= both + 1
  {
    MulAdds(amount, s, r);
    DivAdds(Mul(amount, s), Mul(amount, r), token + amount);
  }

  /** The fee of a sale stays behind as reserves, and the next sale is quoted its share of it: before
      its own fee it earns what it would after a sale without fee, and the gross on the fee kept. */
  lemma FeeIsSoldBack(c: Curve, x: u64, y: u64, fee: u64)
    requires !c.complete && fee <= 10000 && 0 < x && 0 < y && c.token + x < U64_LIMIT
    ensures var d, free := Step(c, Sell(x, Some(fee))), Step(c, Sell(x, Some(0)));
            && free.sol <= d.sol && d == free.(sol := d.sol)
            && PriceQuote(c, x, Some(0)).Amount? && PriceQuote(c, x, Some(fee)).Amount?
            && d.sol - free.sol == PriceQuote(c, x, Some(0)).value - PriceQuote(c, x, Some(fee)).value
            && var both := Gross(free.sol, free.token, y) + Gross(d.sol - free.sol, free.token, y);
               both <= Gross(d.sol, d.token, y) <= both + 1
  {
    var d, free := Step(c, Sell(x, Some(fee))), Step(c, Sell(x, Some(0)));
    SaleLeavesMore(c, c, x, fee, 0);
    ModestFeeQuotes(c, x, Some(fee));
    ModestFeeQuotes(c, x, Some(0));
    GrossAdds(free.sol, d.sol - free.sol, free.token, y);
  }

  lemma Squares(a: nat, b: nat, k: nat)
    ensures a * k * (b * k) == a * b * (k * k)
  {
  }

  lemma Scales(a: nat, b: nat, x: nat, y: nat, k: nat)
    requires a * b == x * y
    ensures a * k * (b * k) == x * k * (y * k)
  {
    Squares(a, b, k);
    Squares(x, y, k);
  }

  lemma SaleIs(c: Curve, amount: u64, gross: u64, half: u64)
    requires !c.complete && amount > 0 && gross == 2 * half
    requires gross * (c.token + amount) == amount * c.sol
    ensures PriceQuote(c, amount, Some(5000)) == Amount(half)
  {
    Distributes(gross, 1, c.token + amount);
    PriceQuoteIs(c, amount, gross, 5000, half);
  }

  /** A sale without rounding, at a fee of one half; all numbers are multiples of `k`. */
  lemma ExactSale(c: Curve, k: nat, sol: nat, token: nat, amount: nat, half: nat)
    requires !c.complete && k > 0 && c.sol == sol * k && c.token == token * k
    requires 0 < amount * k < U64_LIMIT && 0 <= 2 * half * k < U64_LIMIT
    requires 2 * half * (token + amount) == amount * sol
    ensures PriceQuote(c, amount * k, Some(5000)) == Amount(half * k)
  {
    Distributes(token, amount, k);
    Distributes(half, half, k);
    Scales(2 * half, token + amount, amount, sol, k);
    SaleIs(c, amount * k, 2 * half * k, half * k);
  }

  /** So a split can gain far more than rounding: at a fee of one half, on a curve of any size, two equal
      pieces get thirteen parts where one sale gets twelve. */
  lemma KeptFeeRewardsSplitting(c: Curve, k: nat)
    requires 0 < 96 * k < U64_LIMIT && c == Curve(0, 48 * k, 48 * k, 0, 0, 0, false)
    ensures PriceQuote(c, 48 * k, Some(5000)) == Amount(12 * k)
    ensures c.sol - Run(c, Sales([24 * k, 24 * k], 5000)).sol == 13 * k
  {
    var t := Sell(24 * k, Some(5000));
    ExactSale(c, k, 48, 48, 48, 12);
    ExactSale(c, k, 48, 48, 24, 8);
    assert Step(c, t) == c.(sol := 40 * k, token := 72 * k);
    ExactSale(Step(c, t), k, 40, 72, 24, 5);
    assert Sales([24 * k], 5000) == [t];
    assert Sales([24 * k, 24 * k], 5000) == [t, t];
    RunTwo(c, t, t);
  }
}
