/** The records byte by byte, and what the parser makes of them field by field. */
module RecordBytes {
  import opened Common
  import opened Borsh
  import opened Logs
  import opened Fetcher
  import opened ParserTheorems

  function W(n: u64): seq<byte> {
    LittleEndian(n, 8)
  }

  /** Two's complement, in 64 bits. */
  function I(n: i64): seq<byte> {
    LittleEndian(n % U64_LIMIT, 8)
  }

  function T(s: Text): seq<byte> {
    LittleEndian(|s|, 4) + s
  }

  function F(b: bool): seq<byte> {
    [if b then 1 else 0]
  }

  // ---------- Layouts ----------

  function Concat(parts: seq<seq<byte>>): seq<byte> {
    if parts == [] then [] else parts[0] + Concat(parts[1..])
  }

  lemma {:induction false} EncodedIs(vs: seq<Value>, parts: seq<seq<byte>>)
    requires |parts| == |vs| && forall i | 0 <= i < |vs| :: parts[i] == Encode(vs[i])
    ensures EncodeAll(vs) == Concat(parts)
  {
    if vs != [] { EncodedIs(vs[1..], parts[1..]); }
  }

  lemma SignedBytes(n: i64)
    ensures Encode(Signed(n)) == I(n)
  {
  }

  function TradeBytes(e: TradeEvent): seq<byte> {
    Concat([e.mint, W(e.solAmount), W(e.tokenAmount), F(e.isBuy), e.user, I(e.timestamp),
            W(e.virtualSolReserves), W(e.virtualTokenReserves)])
  }

  lemma TradeLayout(e: TradeEvent)
    ensures EncodeTrade(e) == TradeBytes(e)
  {
    SignedBytes(e.timestamp);
    EncodedIs(TradeValues(e), [e.mint, W(e.solAmount), W(e.tokenAmount), F(e.isBuy), e.user, I(e.timestamp),
                               W(e.virtualSolReserves), W(e.virtualTokenReserves)]);
  }

  function BuyAmmParts(e: BuyEventAmm): seq<seq<byte>> {
    [I(e.timestamp), W(e.baseAmountOut), W(e.maxQuoteAmountIn), W(e.userBaseTokenReserves),
     W(e.userQuoteTokenReserves), W(e.poolBaseTokenReserves), W(e.poolQuoteTokenReserves), W(e.quoteAmountIn),
     W(e.lpFeeBasisPoints), W(e.lpFee), W(e.protocolFeeBasisPoints), W(e.protocolFee),
     W(e.quoteAmountInWithLpFee), W(e.userQuoteAmountIn), e.pool, e.user,
     e.userBaseTokenAccount, e.userQuoteTokenAccount, e.protocolFeeRecipient, e.protocolFeeRecipientTokenAccount]
  }

  lemma BuyAmmLayout(e: BuyEventAmm)
    ensures EncodeBuyAmm(e) == Concat(BuyAmmParts(e))
  {
    SignedBytes(e.timestamp);
    EncodedIs(BuyAmmValues(e), BuyAmmParts(e));
  }

  function SellAmmParts(e: SellEventAmm): seq<seq<byte>> {
    [I(e.timestamp), W(e.baseAmountIn), W(e.minQuoteAmountOut), W(e.userBaseTokenReserves),
     W(e.userQuoteTokenReserves), W(e.poolBaseTokenReserves), W(e.poolQuoteTokenReserves), W(e.quoteAmountOut),
     W(e.lpFeeBasisPoints), W(e.lpFee), W(e.protocolFeeBasisPoints), W(e.protocolFee),
     W(e.quoteAmountOutWithoutLpFee), W(e.userQuoteAmountOut), e.pool, e.user,
     e.userBaseTokenAccount, e.userQuoteTokenAccount, e.protocolFeeRecipient, e.protocolFeeRecipientTokenAccount]
  }

  lemma SellAmmLayout(e: SellEventAmm)
    ensures EncodeSellAmm(e) == Concat(SellAmmParts(e))
  {
    SignedBytes(e.timestamp);
    EncodedIs(SellAmmValues(e), SellAmmParts(e));
  }

  function HeaderBytes(h: Header): seq<byte> {
    Concat([T(h.name), T(h.symbol), T(h.uri), h.mint, h.bondingCurve, h.user])
  }

  lemma HeaderLayout(h: Header)
    ensures EncodeHeader(h) == HeaderBytes(h)
  {
    EncodedIs(HeaderValues(h), [T(h.name), T(h.symbol), T(h.uri), h.mint, h.bondingCurve, h.user]);
  }

  function ExtensionBytes(x: Extension): seq<byte> {
    Concat([x.creator, I(x.timestamp), W(x.virtualTokenReserves), W(x.virtualSolReserves),
            W(x.realTokenReserves), W(x.tokenTotalSupply), x.tokenProgram, F(x.isMayhemMode)])
  }

  lemma ExtensionLayout(x: Extension)
    ensures EncodeExtension(x) == ExtensionBytes(x)
  {
    SignedBytes(x.timestamp);
    EncodedIs(ExtensionValues(x),
              [x.creator, I(x.timestamp), W(x.virtualTokenReserves), W(x.virtualSolReserves),
               W(x.realTokenReserves), W(x.tokenTotalSupply), x.tokenProgram, F(x.isMayhemMode)]);
  }

  function ArgsBytes(a: CreateV2Args): seq<byte> {
    Concat([T(a.name), T(a.symbol), T(a.uri), a.creator, F(a.mayhem)])
  }

  lemma ArgsLayout(a: CreateV2Args)
    ensures EncodeArgs(a) == ArgsBytes(a)
  {
    EncodedIs(ArgsValues(a), [T(a.name), T(a.symbol), T(a.uri), a.creator, F(a.mayhem)]);
  }

  // ---------- Events, field by field ----------

  /** Whichever reader wins, the event names what the record names. */
  lemma CreateFields(env: Env, h: Header, tail: seq<byte>)
    ensures var event := Parse(env, CREATE_DISCRIMINATOR + (HeaderBytes(h) + tail));
            && event.Some? && event.value.Create?
            && var c := event.value.create;
               && c.name == h.name && c.symbol == h.symbol && c.uri == h.uri
               && c.mint == h.mint && c.bondingCurve == h.bondingCurve && c.user == h.user
  {
    HeaderLayout(h);
    CreateFallback(env, h, tail);
  }

  /** A record with nothing after its header is dated by the clock. */
  lemma CreateBare(env: Env, h: Header)
    ensures var event := Parse(env, CREATE_DISCRIMINATOR + HeaderBytes(h));
            && event.Some? && event.value.Create?
            && event.value.create.timestamp == env.now && !event.value.create.token2022
  {
    HeaderLayout(h);
    CreateFallback(env, h, []);
    assert HeaderBytes(h) + [] == HeaderBytes(h);
  }

  /** One in the newer format keeps its own date and names its token program. */
  lemma CreateExtended(env: Env, h: Header, x: Extension, tail: seq<byte>)
    ensures var event := Parse(env, CREATE_DISCRIMINATOR + (HeaderBytes(h) + ExtensionBytes(x) + tail));
            && event.Some? && event.value.Create?
            && event.value.create.timestamp == x.timestamp
            && (event.value.create.token2022 <==> x.tokenProgram == TOKEN_2022_PROGRAM)
  {
    HeaderLayout(h);
    ExtensionLayout(x);
    ParseV2(env, CreateEventV2(h, x), tail);
  }

  /** A trade: the flag says which way, and the pool address of the mint stands for the mint. */
  lemma TradeFields(env: Env, e: TradeEvent, tail: seq<byte>)
    ensures var event := Parse(env, TRADE_DISCRIMINATOR + (TradeBytes(e) + tail));
            && event.Some? && !event.value.Create? && (event.value.Buy? <==> e.isBuy)
            && var f := event.value.fill;
               && f.mint == env.poolPda(e.mint) && f.user == e.user && f.timestamp == e.timestamp
               && f.solAmount == e.solAmount && f.tokenAmount == e.tokenAmount
               && f.solBefore == e.virtualSolReserves && f.solAfter == env.solAfter(e)
               && f.tokenReserves == e.virtualTokenReserves
  {
    TradeLayout(e);
    ParseTrade(env, e, tail);
  }

  /** An AMM buy: base is reported as SOL and quote as tokens, the smaller reserve as SOL. */
  lemma BuyAmmFields(env: Env, e: BuyEventAmm, tail: seq<byte>)
    ensures var event := Parse(env, BUY_AMM_DISCRIMINATOR + (Concat(BuyAmmParts(e)) + tail));
            && event.Some? && event.value.Buy?
            && var f := event.value.fill;
               && f.mint == e.pool && f.user == e.user && f.timestamp == e.timestamp
               && f.solAmount == e.baseAmountOut && f.tokenAmount == e.quoteAmountIn
               && f.solBefore == f.solAfter <= f.tokenReserves
               && multiset{f.solBefore, f.tokenReserves}
                  == multiset{e.poolBaseTokenReserves, e.poolQuoteTokenReserves}
  {
    BuyAmmLayout(e);
    ParseBuyAmm(env, e, tail);
  }

  /** An AMM sale: base is SOL and quote is tokens, for the amounts and for the reserves. */
  lemma SellAmmFields(env: Env, e: SellEventAmm, tail: seq<byte>)
    ensures var event := Parse(env, SELL_AMM_DISCRIMINATOR + (Concat(SellAmmParts(e)) + tail));
            && event.Some? && event.value.Sell?
            && var f := event.value.fill;
               && f.mint == e.pool && f.user == e.user && f.timestamp == e.timestamp
               && f.solAmount == e.baseAmountIn && f.tokenAmount == e.quoteAmountOut
               && f.solBefore == e.poolBaseTokenReserves && f.solAfter == e.poolBaseTokenReserves
               && f.tokenReserves == e.poolQuoteTokenReserves
  {
    SellAmmLayout(e);
    ParseSellAmm(env, e, tail);
  }

  /** An instruction names as mint, curve and token program what its accounts 0, 2 and 7 point to, and
      yields nothing if one of these points nowhere. */
  lemma InstructionAccounts(accounts: seq<byte>, lookup: seq<Pubkey>, now: i64, a: CreateV2Args)
    ensures var event := ParseCreateInstruction(CREATE_V2_DISCRIMINATOR + ArgsBytes(a), accounts, lookup, now);
            && (event.Some? <==> |accounts| > 7 && accounts[0] < |lookup| && accounts[2] < |lookup|
                                 && accounts[7] < |lookup|)
            && (event.Some? ==>
                  && event.value.name == a.name && event.value.symbol == a.symbol && event.value.uri == a.uri
                  && event.value.mint == lookup[accounts[0]] && event.value.bondingCurve == lookup[accounts[2]]
                  && event.value.user == a.creator && event.value.timestamp == now
                  && (event.value.token2022 <==> lookup[accounts[7]] == TOKEN_2022_PROGRAM))
  {
    ArgsLayout(a);
    InstructionExact(CREATE_V2_DISCRIMINATOR + EncodeArgs(a), accounts, lookup, now, a);
  }
}
