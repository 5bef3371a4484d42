/** The constant-product curve of the desktop client: quotes for buying and selling, and the
    reserves they leave behind. */
module BondingCurves {
  import opened Arith
  import opened Common

  /** A quote, the "Curve is complete" error, or a u128 subtraction that would go below zero: a panic
      where overflow is checked, a wrapped number where it is not. */
  datatype Quote = Amount(value: u64) | Complete | Underflow

  /** The fields of a curve account. */
  datatype Curve = Curve(
    discriminator: u64,
    token: u64,
    sol: u64,
    realToken: u64,
    realSol: u64,
    supply: u64,
    complete: bool
  )

  const DEFAULT_CURVE := Curve(6966180631402821399, 1073000000000000, 30000000000, 793100000000000, 0,
                               1000000000000000, false)

  const DEFAULT_FEE: u64 := 100

  /** Token reserves left by a purchase before the cap: one more than the rounded-down quotient. */
  function TokensLeft(sol: nat, token: nat, amount: nat): nat
    requires sol + amount > 0
  {
    Div(Mul(sol, token), sol + amount) + 1
  }

  function BuyQuote(c: Curve, amount: u64): Quote {
    if c.complete then Complete
    else if amount == 0 then Amount(0)
    else
      var left := TokensLeft(c.sol, c.token, amount);
      if left > c.token then Underflow
      else
        var out := AsU64(c.token - left);
        Amount(if out < c.realToken then out else c.realToken)
  }

  /** Proceeds of a sale before the fee. */
  function Gross(sol: nat, token: nat, amount: nat): nat
    requires token + amount > 0
  {
    Div(Mul(amount, sol), token + amount)
  }

  function FeeOf(fee: Option<u64>): u64 {
    if fee.Some? then fee.value else DEFAULT_FEE
  }

  function PriceQuote(c: Curve, amount: u64, fee: Option<u64>): Quote {
    if c.complete then Complete
    else if amount == 0 then Amount(0)
    else
      var gross := Gross(c.sol, c.token, amount);
      var taken := Div(Mul(gross, FeeOf(fee)), 10000);
      if taken > gross then Underflow
      else Amount(AsU64(gross - taken))
  }

  /** The account as the client holds it: quotes read it, `SetReserves` overwrites two fields. */
  class BondingCurve {
    var discriminator: u64
    var virtualTokenReserves: u64
    var virtualSolReserves: u64
    var realTokenReserves: u64
    var realSolReserves: u64
    var tokenTotalSupply: u64
    var complete: bool

    constructor Default()
      ensures State() == DEFAULT_CURVE
    {
      discriminator := 6966180631402821399;
      virtualTokenReserves := 1073000000000000;
      virtualSolReserves := 30000000000;
      realTokenReserves := 793100000000000;
      realSolReserves := 0;
      tokenTotalSupply := 1000000000000000;
      complete := false;
    }

    function State(): Curve
      reads this
    {
      Curve(discriminator, virtualTokenReserves, virtualSolReserves, realTokenReserves, realSolReserves,
            tokenTotalSupply, complete)
    }

    method SetReserves(sol: u64, token: u64)
      modifies this
      ensures State() == old(State()).(sol := sol, token := token)
    {
      virtualSolReserves := sol;
      virtualTokenReserves := token;
    }

    /** Buy, sell, or do nothing when the quote fails or the new reserves would leave u64. */
    method Execute(t: Trade)
      modifies this
      ensures State() == Step(old(State()), t)
    {
      match t {
        case BuyWith(lamports) =>
          var quote := BuyQuote(State(), lamports);
          if quote.Amount? && virtualSolReserves + lamports < U64_LIMIT {
            BuyLeavesTokens(State(), lamports);
            SetReserves(virtualSolReserves + lamports, virtualTokenReserves - quote.value);
          }
        case Sell(tokens, fee) =>
          var quote := PriceQuote(State(), tokens, fee);
          if quote.Amount? && virtualTokenReserves + tokens < U64_LIMIT {
            SellKeepsProduct(State(), tokens, fee);
            SetReserves(virtualSolReserves - quote.value, virtualTokenReserves + tokens);
          }
      }
    }
  }

  // ---------- One quote ----------

  /** Taking `out` tokens for `amount` lamports leaves a larger product than before. */
  ghost predicate Grows(sol: nat, token: nat, amount: nat, out: int) {
    (sol + amount) * (token - out) > sol * token
  }

  /** Paying `out` lamports for `amount` tokens does not shrink the product. */
  ghost predicate Holds(sol: nat, token: nat, amount: nat, out: int) {
    (sol - out) * (token + amount) >= sol * token
  }

  /** The uncapped purchase is the largest one under which the product still grows. */
  lemma BuyIsLargest(sol: nat, token: nat, amount: nat, out: int)
    requires amount > 0
    ensures Grows(sol, token, amount, out) <==> out <= token - TokensLeft(sol, token, amount)
  {
    MulIs(sol, token);
    DivFits(Mul(sol, token), sol + amount, token - out);
    Commutes(token - out, sol + amount);
  }

  /** The gross proceeds are the largest payment that does not shrink the product. */
  lemma SaleIsLargest(sol: nat, token: nat, amount: nat, out: int)
    requires token + amount > 0
    ensures Holds(sol, token, amount, out) <==> out <= Gross(sol, token, amount)
  {
    MulIs(amount, sol);
    DivFits(Mul(amount, sol), token + amount, out);
    assert (sol - out) * (token + amount) == sol * token + amount * sol - out * (token + amount);
  }

  lemma GrossWithinReserves(sol: nat, token: nat, amount: nat)
    requires token + amount > 0
    ensures Gross(sol, token, amount) <= sol
  {
    SaleIsLargest(sol, token, amount, sol + 1);
    assert (sol - (sol + 1)) * (token + amount) == -(token + amount);
    MulMono(0, sol, token);
  }

  /** No intermediate value of either quote reaches 2^128, and both casts to u64 lose nothing. */
  lemma QuotesFitTheirWidths(c: Curve, amount: u64, fee: u64)
    requires amount > 0
    ensures c.sol * c.token < U128_LIMIT && c.sol + amount < U128_LIMIT
    ensures TokensLeft(c.sol, c.token, amount) < U128_LIMIT
    ensures amount * c.sol < U128_LIMIT && c.token + amount < U128_LIMIT
    ensures Gross(c.sol, c.token, amount) * fee < U128_LIMIT
    ensures c.token - TokensLeft(c.sol, c.token, amount) < U64_LIMIT
    ensures Gross(c.sol, c.token, amount) < U64_LIMIT
  {
    MulBelow(c.sol, c.token, U64_LIMIT, U64_LIMIT);
    MulBelow(amount, c.sol, U64_LIMIT, U64_LIMIT);
    GrossWithinReserves(c.sol, c.token, amount);
    MulBelow(Gross(c.sol, c.token, amount), fee, U64_LIMIT, U64_LIMIT);
    LeftWithinReserves(c.sol, c.token, amount);
  }

  lemma LeftWithinReserves(sol: nat, token: nat, amount: nat)
    requires amount > 0
    ensures TokensLeft(sol, token, amount) <= token + 1
    ensures token > 0 ==> TokensLeft(sol, token, amount) <= token
  {
    BuyIsLargest(sol, token, amount, -1);
    BuyIsLargest(sol, token, amount, 0);
    assert (sol + amount) * (token + 1) == sol * token + amount * token + sol + amount;
    assert (sol + amount) * token == sol * token + amount * token;
    MulMono(0, amount, token);
    if token > 0 { MulStrict(0, amount, token); }
  }

  /** A buy underflows exactly when the curve has no virtual tokens at all. */
  lemma BuyUnderflowsIff(c: Curve, amount: u64)
    ensures BuyQuote(c, amount) == Underflow <==> !c.complete && amount > 0 && c.token == 0
  {
    if amount > 0 {
      if c.token == 0 {
        LeftIs(c.sol, 0, amount, 1);
      } else {
        LeftWithinReserves(c.sol, c.token, amount);
      }
    }
  }

  /** A sale underflows exactly when the part of the fee above 100% costs at least one lamport. */
  lemma PriceUnderflowsIff(c: Curve, amount: u64, fee: Option<u64>)
    ensures PriceQuote(c, amount, fee) == Underflow
       <==> !c.complete && amount > 0 && Gross(c.sol, c.token, amount) * (FeeOf(fee) - 10000) >= 10000
  {
    if !c.complete && amount > 0 {
      var g: int, f: int := Gross(c.sol, c.token, amount), FeeOf(fee);
      MulIs(g, f);
      DivFits(Mul(g, f), 10000, g + 1);
      assert g * (f - 10000) == g * f - g * 10000;
    }
  }

  lemma BuyFromLeft(c: Curve, amount: u64, left: nat)
    requires !c.complete && amount > 0 && left == TokensLeft(c.sol, c.token, amount) && left <= c.token
    ensures BuyQuote(c, amount) == Amount(Lesser(c.token - left, c.realToken))
  {
  }

  function Lesser(a: nat, b: nat): nat {
    if a < b then a else b
  }

  lemma BuyInParts(c: Curve, amount: u64)
    requires c.token > 0 && !c.complete && amount > 0
    ensures TokensLeft(c.sol, c.token, amount) <= c.token
    ensures BuyQuote(c, amount) == Amount(Lesser(c.token - TokensLeft(c.sol, c.token, amount), c.realToken))
  {
    LeftWithinReserves(c.sol, c.token, amount);
    BuyFromLeft(c, amount, TokensLeft(c.sol, c.token, amount));
  }

  lemma LesserGrows(sol: nat, token: nat, amount: nat, cap: nat, out: nat)
    requires amount > 0 && TokensLeft(sol, token, amount) <= token
    requires out == Lesser(token - TokensLeft(sol, token, amount), cap)
    ensures Grows(sol, token, amount, out)
    ensures out < cap ==> !Grows(sol, token, amount, out + 1)
  {
    BuyIsLargest(sol, token, amount, out);
    BuyIsLargest(sol, token, amount, out + 1);
  }

  /** An open curve with tokens always quotes a buy; at least one token stays behind, the product
      grows strictly, and the quote is the largest growing amount cut off at the real reserves. */
  lemma BuyLeavesTokens(c: Curve, amount: u64)
    ensures var q := BuyQuote(c, amount);
            q.Amount? ==> q.value <= c.token && (c.token > 0 ==> q.value < c.token)
    ensures var q := BuyQuote(c, amount);
            q.Amount? && amount > 0 ==>
              && Grows(c.sol, c.token, amount, q.value)
              && q.value <= c.realToken
              && (q.value < c.realToken ==> !Grows(c.sol, c.token, amount, q.value + 1))
  {
    if !c.complete && amount > 0 {
      BuyUnderflowsIff(c, amount);
      if c.token > 0 {
        BuyInParts(c, amount);
        LesserGrows(c.sol, c.token, amount, c.realToken, BuyQuote(c, amount).value);
      }
    }
  }

  lemma PriceWithinGross(c: Curve, amount: u64, fee: Option<u64>)
    requires amount > 0 && PriceQuote(c, amount, fee).Amount?
    ensures PriceQuote(c, amount, fee).value <= Gross(c.sol, c.token, amount)
  {
  }

  /** Whatever fee is taken, a sale never pays more than the curve holds and never shrinks the product. */
  lemma SellKeepsProduct(c: Curve, amount: u64, fee: Option<u64>)
    ensures var q := PriceQuote(c, amount, fee);
            q.Amount? ==>
              && q.value <= c.sol
              && Holds(c.sol, c.token, amount, q.value)
              && (amount > 0 ==> q.value <= Gross(c.sol, c.token, amount))
  {
    if amount > 0 && PriceQuote(c, amount, fee).Amount? {
      PriceWithinGross(c, amount, fee);
      GrossWithinReserves(c.sol, c.token, amount);
      SaleIsLargest(c.sol, c.token, amount, PriceQuote(c, amount, fee).value);
    }
  }

  lemma UncappedMonotone(sol: nat, token: nat, less: nat, more: nat)
    requires token > 0 && 0 < less <= more
    ensures TokensLeft(sol, token, more) <= TokensLeft(sol, token, less)
  {
    var out := token - TokensLeft(sol, token, less);
    BuyIsLargest(sol, token, less, out);
    MulMono(sol + less, sol + more, token - out);
    BuyIsLargest(sol, token, more, out);
  }

  /** More lamports never buy fewer tokens. */
  lemma BuyMonotone(c: Curve, less: u64, more: u64)
    requires c.token > 0 && less <= more && !c.complete
    ensures BuyQuote(c, less).Amount? && BuyQuote(c, more).Amount?
    ensures BuyQuote(c, less).value <= BuyQuote(c, more).value
  {
    if more > 0 {
      BuyInParts(c, more);
    }
    if less > 0 {
      BuyInParts(c, less);
      UncappedMonotone(c.sol, c.token, less, more);
    }
  }

  function CeilDiv(a: nat, b: nat): nat
    requires b > 0
  {
    Div(a + b - 1, b)
  }

  /** Taking the fee rounded down leaves the rest rounded up. */
  lemma FeeRest(gross: nat, fee: nat)
    requires fee <= 10000
    ensures Div(Mul(gross, fee), 10000) <= gross
    ensures gross - Div(Mul(gross, fee), 10000) == CeilDiv(Mul(gross, 10000 - fee), 10000)
  {
    var taken := Div(Mul(gross, fee), 10000);
    MulIs(gross, fee);
    MulIs(gross, 10000 - fee);
    DivFits(Mul(gross, fee), 10000, taken);
    DivFits(Mul(gross, fee), 10000, taken + 1);
    assert gross * (10000 - fee) == gross * 10000 - gross * fee;
    MulMono(fee, 10000, gross);
    DivFits(Mul(gross, fee), 10000, gross + 1);
    DivIs(Mul(gross, 10000 - fee) + 9999, 10000, gross - taken);
  }

  lemma PriceInParts(c: Curve, amount: u64, fee: Option<u64>, gross: nat, taken: nat)
    requires !c.complete && amount > 0 && gross == Gross(c.sol, c.token, amount)
    requires taken == Div(Mul(gross, FeeOf(fee)), 10000) && taken <= gross < U64_LIMIT
    ensures PriceQuote(c, amount, fee) == Amount(gross - taken)
  {
  }

  /** What the seller keeps is the gross less the fee, rounded up. */
  lemma PriceIsCeiling(c: Curve, amount: u64, fee: Option<u64>)
    requires !c.complete && amount > 0 && FeeOf(fee) <= 10000
    ensures PriceQuote(c, amount, fee).Amount?
    ensures PriceQuote(c, amount, fee).value
         == CeilDiv(Mul(Gross(c.sol, c.token, amount), 10000 - FeeOf(fee)), 10000)
    ensures fee == None ==>
              PriceQuote(c, amount, fee).value == CeilDiv(Mul(Gross(c.sol, c.token, amount), 9900), 10000)
  {
    var gross, f := Gross(c.sol, c.token, amount), FeeOf(fee);
    GrossWithinReserves(c.sol, c.token, amount);
    FeeRest(gross, f);
    PriceInParts(c, amount, fee, gross, Div(Mul(gross, f), 10000));
  }

  lemma DivMono(m: nat, n: nat, d: nat)
    requires m <= n && d > 0
    ensures Div(m, d) <= Div(n, d)
  {
    DivFits(n, d, Div(m, d));
  }

  lemma HoldsForMore(sol: nat, token: nat, less: nat, more: nat, out: nat)
    requires less <= more && out <= sol && Holds(sol, token, less, out)
    ensures Holds(sol, token, more, out)
  {
    MulMono(token + less, token + more, sol - out);
  }

  lemma GrossMonotone(sol: nat, token: nat, less: nat, more: nat)
    requires 0 < less <= more
    ensures Gross(sol, token, less) <= Gross(sol, token, more)
  {
    var g := Gross(sol, token, less);
    GrossWithinReserves(sol, token, less);
    SaleIsLargest(sol, token, less, g);
    HoldsForMore(sol, token, less, more, g);
    SaleIsLargest(sol, token, more, g);
  }

  lemma KeptMonotone(g: nat, h: nat, high: nat, low: nat)
    requires g <= h && low <= high <= 10000
    ensures CeilDiv(Mul(g, 10000 - high), 10000) <= CeilDiv(Mul(h, 10000 - low), 10000)
  {
    MulIs(g, 10000 - high);
    MulIs(h, 10000 - low);
    MulMono(g, h, 10000 - high);
    MulMono(10000 - high, 10000 - low, h);
    DivMono(Mul(g, 10000 - high) + 9999, Mul(h, 10000 - low) + 9999, 10000);
  }

  /** Selling more tokens at a lower fee never pays less. */
  lemma PriceMonotone(c: Curve, less: u64, more: u64, high: u64, low: u64)
    requires !c.complete && less <= more && low <= high <= 10000
    ensures PriceQuote(c, less, Some(high)).Amount? && PriceQuote(c, more, Some(low)).Amount?
    ensures PriceQuote(c, less, Some(high)).value <= PriceQuote(c, more, Some(low)).value
  {
    if more > 0 {
      PriceIsCeiling(c, more, Some(low));
    }
    if less > 0 {
      PriceIsCeiling(c, less, Some(high));
      GrossMonotone(c.sol, c.token, less, more);
      KeptMonotone(Gross(c.sol, c.token, less), Gross(c.sol, c.token, more), high, low);
    }
  }

  // ---------- Builds without overflow checks ----------

  /** A u128 subtraction that wraps. */
  function WrappingSub(a: nat, b: nat): nat {
    (a - b) % U128_LIMIT
  }

  /** The quotes as such a build computes them; None is the "Curve is complete" error. */
  function UncheckedBuy(c: Curve, amount: u64): Option<u64> {
    if c.complete then None
    else if amount == 0 then Some(0)
    else
      var out := AsU64(WrappingSub(c.token, TokensLeft(c.sol, c.token, amount)));
      Some(if out < c.realToken then out else c.realToken)
  }

  function UncheckedPrice(c: Curve, amount: u64, fee: Option<u64>): Option<u64> {
    if c.complete then None
    else if amount == 0 then Some(0)
    else
      var gross := Gross(c.sol, c.token, amount);
      Some(AsU64(WrappingSub(gross, Div(Mul(gross, FeeOf(fee)), 10000))))
  }

  lemma WrapsOnlyBelowZero(a: nat, b: nat)
    requires a < U64_LIMIT && b < U128_LIMIT
    ensures b <= a ==> AsU64(WrappingSub(a, b)) == a - b
    ensures a < b ==> (AsU64(WrappingSub(a, b)) + (b - a)) % U64_LIMIT == 0
  {
    if a < b {
      assert WrappingSub(a, b) == a - b + U128_LIMIT;
      assert (a - b + U128_LIMIT) % U64_LIMIT + (b - a)
          == U128_LIMIT - U64_LIMIT * ((a - b + U128_LIMIT) / U64_LIMIT);
    }
  }

  /** Without overflow checks a buy quotes the same, but for a curve without virtual tokens: there it
      quotes all the real ones. */
  lemma UncheckedBuyIff(c: Curve, amount: u64)
    ensures UncheckedBuy(c, amount)
         == match BuyQuote(c, amount)
            case Amount(n) => Some(n)
            case Complete => None
            case Underflow => Some(c.realToken)
  {
    if !c.complete && amount > 0 {
      LeftWithinReserves(c.sol, c.token, amount);
      WrapsOnlyBelowZero(c.token, TokensLeft(c.sol, c.token, amount));
      if c.token == 0 { LeftIs(c.sol, 0, amount, 1); }
    }
  }

  lemma TakenFits(gross: u64, fee: u64)
    ensures Div(Mul(gross, fee), 10000) < U128_LIMIT
  {
    MulIs(gross, fee);
    MulBelow(gross, fee, U64_LIMIT, U64_LIMIT);
    DivFits(Mul(gross, fee), 10000, U128_LIMIT);
  }

  /** A sale differs exactly when the fee exceeds the gross: it then quotes the excess below 2^64. */
  lemma UncheckedPriceIff(c: Curve, amount: u64, fee: Option<u64>)
    ensures c.complete <==> UncheckedPrice(c, amount, fee) == None
    ensures var q := PriceQuote(c, amount, fee);
            q.Amount? ==> UncheckedPrice(c, amount, fee) == Some(q.value)
    ensures PriceQuote(c, amount, fee) == Underflow ==>
              var gross := Gross(c.sol, c.token, amount);
              var excess := Div(Mul(gross, FeeOf(fee)), 10000) - gross;
              excess > 0 && (UncheckedPrice(c, amount, fee).value + excess) % U64_LIMIT == 0
  {
    if !c.complete && amount > 0 {
      var gross, f := Gross(c.sol, c.token, amount), FeeOf(fee);
      GrossWithinReserves(c.sol, c.token, amount);
      TakenFits(gross, f);
      WrapsOnlyBelowZero(gross, Div(Mul(gross, f), 10000));
    }
  }

  // ---------- Runs of trades ----------

  datatype Trade = BuyWith(lamports: u64) | Sell(tokens: u64, fee: Option<u64>)

  function Step(c: Curve, t: Trade): Curve {
    match t
    case BuyWith(lamports) =>
      (match BuyQuote(c, lamports)
       case Amount(out) =>
         BuyLeavesTokens(c, lamports);
         if c.sol + lamports < U64_LIMIT then c.(sol := c.sol + lamports, token := c.token - out) else c
       case _ => c)
    case Sell(tokens, fee) =>
      (match PriceQuote(c, tokens, fee)
       case Amount(out) =>
         SellKeepsProduct(c, tokens, fee);
         if c.token + tokens < U64_LIMIT then c.(sol := c.sol - out, token := c.token + tokens) else c
       case _ => c)
  }

  function Run(c: Curve, ts: seq<Trade>): Curve
    decreases |ts|
  {
    if ts == [] then c else Run(Step(c, ts[0]), ts[1..])
  }

  function Product(c: Curve): nat {
    Mul(c.sol, c.token)
  }

  /** A purchase that is carried out: money is offered and the new reserves fit. */
  predicate Buys(c: Curve, t: Trade) {
    t.BuyWith? && t.lamports > 0 && !c.complete && c.sol + t.lamports < U64_LIMIT
  }

  predicate SomeBuy(c: Curve, ts: seq<Trade>)
    decreases |ts|
  {
    ts != [] && (Buys(c, ts[0]) || SomeBuy(Step(c, ts[0]), ts[1..]))
  }

  lemma StepKeepsProduct(c: Curve, t: Trade)
    requires c.token > 0
    ensures var d := Step(c, t);
            d.token > 0 && Product(c) <= Product(d) && (Buys(c, t) ==> Product(c) < Product(d))
    ensures Step(c, t) == c.(sol := Step(c, t).sol, token := Step(c, t).token)
  {
    MulIs(c.sol, c.token);
    MulIs(Step(c, t).sol, Step(c, t).token);
    match t {
      case BuyWith(lamports) =>
        BuyLeavesTokens(c, lamports);
        BuyUnderflowsIff(c, lamports);
      case Sell(tokens, fee) =>
        SellKeepsProduct(c, tokens, fee);
    }
  }

  /** Over every run the product never falls, any purchase raises it, and a token always remains. */
  lemma {:induction false} RunKeepsProduct(c: Curve, ts: seq<Trade>)
    requires c.token > 0
    ensures var d := Run(c, ts);
            && d.token > 0
            && Product(c) <= Product(d)
            && (SomeBuy(c, ts) ==> Product(c) < Product(d))
    ensures Run(c, ts) == c.(sol := Run(c, ts).sol, token := Run(c, ts).token)
    decreases |ts|
  {
    if ts != [] {
      StepKeepsProduct(c, ts[0]);
      RunKeepsProduct(Step(c, ts[0]), ts[1..]);
    }
  }

  lemma SmallerFactorNeedsLarger(s: nat, t: nat, s': nat, t': nat)
    requires 0 < t' <= t && Mul(s, t) <= Mul(s', t')
    ensures s <= s'
    ensures Mul(s, t) < Mul(s', t') ==> s < s'
  {
    MulIs(s, t);
    MulIs(s', t');
    MulMono(t', t, s');
    if s' < s { MulStrict(s', s, t); }
  }

  /** Nobody profits from a curve: once all tokens are back, at least all the SOL is there, and
      strictly more if anything was bought on the way. */
  lemma NoRunProfits(c: Curve, ts: seq<Trade>)
    requires c.token > 0
    requires Run(c, ts).token <= c.token
    ensures c.sol <= Run(c, ts).sol
    ensures SomeBuy(c, ts) ==> c.sol < Run(c, ts).sol
  {
    RunKeepsProduct(c, ts);
    SmallerFactorNeedsLarger(c.sol, c.token, Run(c, ts).sol, Run(c, ts).token);
  }

  // ---------- Quotes from their parts ----------

  lemma BuyQuoteIs(c: Curve, amount: u64, left: nat)
    requires !c.complete && amount > 0 && 0 < left <= c.token
    requires (left - 1) * (c.sol + amount) <= c.sol * c.token < left * (c.sol + amount)
    ensures BuyQuote(c, amount) == Amount(Lesser(c.token - left, c.realToken))
  {
    LeftIs(c.sol, c.token, amount, left);
    BuyFromLeft(c, amount, left);
  }

  lemma LeftIs(sol: nat, token: nat, amount: nat, left: nat)
    requires amount > 0 && 0 < left
    requires (left - 1) * (sol + amount) <= sol * token < left * (sol + amount)
    ensures TokensLeft(sol, token, amount) == left
  {
    MulIs(sol, token);
    DivIs(Mul(sol, token), sol + amount, left - 1);
  }

  lemma GrossIs(sol: nat, token: nat, amount: nat, gross: nat)
    requires token + amount > 0
    requires gross * (token + amount) <= amount * sol < (gross + 1) * (token + amount)
    ensures Gross(sol, token, amount) == gross
  {
    MulIs(amount, sol);
    DivIs(Mul(amount, sol), token + amount, gross);
  }

  lemma TakenIs(gross: nat, fee: nat, taken: nat)
    requires taken * 10000 <= gross * fee < (taken + 1) * 10000
    ensures Div(Mul(gross, fee), 10000) == taken
  {
    MulIs(gross, fee);
    DivIs(Mul(gross, fee), 10000, taken);
  }

  lemma PriceQuoteIs(c: Curve, amount: u64, gross: u64, fee: u64, taken: u64)
    requires !c.complete && amount > 0 && taken <= gross
    requires gross * (c.token + amount) <= amount * c.sol < (gross + 1) * (c.token + amount)
    requires taken * 10000 <= gross * fee < (taken + 1) * 10000
    ensures PriceQuote(c, amount, Some(fee)) == Amount(gross - taken)
  {
    GrossIs(c.sol, c.token, amount, gross);
    TakenIs(gross, fee, taken);
    PriceInParts(c, amount, Some(fee), gross, taken);
  }

  // ---------- Buying and selling straight back ----------

  /** What a purchase buys is worth less than was paid, on the curve it leaves behind. */
  lemma WorthLess(sol: nat, token: nat, amount: nat, out: nat)
    requires 0 < out <= token && Grows(sol, token, amount, out)
    ensures Gross(sol + amount, token - out, out) < amount
  {
    var g := Gross(sol + amount, token - out, out);
    SaleIsLargest(sol + amount, token - out, out, g);
    if g >= amount {
      MulMono(sol + amount - g, sol, token);
    }
  }

  lemma ModestFeeQuotes(c: Curve, amount: u64, fee: Option<u64>)
    requires !c.complete && FeeOf(fee) <= 10000
    ensures PriceQuote(c, amount, fee).Amount?
  {
    if amount > 0 { PriceIsCeiling(c, amount, fee); }
  }

  /** Buying and selling everything straight back always returns less than was paid, capped or not. */
  lemma BuyThenSellLoses(c: Curve, amount: u64, fee: Option<u64>)
    requires c.token > 0 && !c.complete && amount > 0 && c.sol + amount < U64_LIMIT
    ensures var bought := BuyQuote(c, amount);
            && bought.Amount?
            && var back := PriceQuote(Step(c, BuyWith(amount)), bought.value, fee);
            && (back.Amount? ==> back.value < amount)
            && (FeeOf(fee) <= 10000 ==> back.Amount?)
  {
    BuyUnderflowsIff(c, amount);
    BuyLeavesTokens(c, amount);
    var out := BuyQuote(c, amount).value;
    var d := Step(c, BuyWith(amount));
    SellKeepsProduct(d, out, fee);
    if FeeOf(fee) <= 10000 { ModestFeeQuotes(d, out, fee); }
    if out > 0 { WorthLess(c.sol, c.token, amount, out); }
  }
}
