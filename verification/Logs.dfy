/** The on-chain records of the backend, their field lists, and their conversions into events. */
module Logs {
  import opened Common
  import opened Borsh

  const TOKEN_2022_PROGRAM: Pubkey :=
    [6, 221, 246, 225, 238, 117, 143, 222, 24, 66, 93, 188, 228, 108, 205, 218,
     182, 26, 252, 77, 131, 185, 13, 39, 254, 189, 249, 40, 216, 161, 139, 252]

  // ---------- Events ----------

  datatype CreateEvent = CreateEvent(
    name: Text, symbol: Text, uri: Text,
    mint: Pubkey, bondingCurve: Pubkey, user: Pubkey,
    token2022: bool, timestamp: i64)

  /** The common fields of `BuyEvent` and `SellEvent`. */
  datatype Fill = Fill(
    mint: Pubkey, solAmount: u64, tokenAmount: u64, user: Pubkey, timestamp: i64,
    solBefore: u64, solAfter: u64, tokenReserves: u64)

  datatype Event = Create(create: CreateEvent) | Buy(fill: Fill) | Sell(fill: Fill)

  // ---------- Trade records ----------

  datatype TradeEvent = TradeEvent(
    mint: Pubkey, solAmount: u64, tokenAmount: u64, isBuy: bool, user: Pubkey, timestamp: i64,
    virtualSolReserves: u64, virtualTokenReserves: u64)

  const TRADE_FIELDS := [KeyKind, WordKind, WordKind, FlagKind, KeyKind, SignedKind, WordKind, WordKind]

  function TradeValues(e: TradeEvent): (vs: seq<Value>)
    ensures Typed(TRADE_FIELDS, vs)
  {
    [Key(e.mint), Word(e.solAmount), Word(e.tokenAmount), Flag(e.isBuy), Key(e.user),
     Signed(e.timestamp), Word(e.virtualSolReserves), Word(e.virtualTokenReserves)]
  }

  function TradeOf(vs: seq<Value>): (e: TradeEvent)
    requires Typed(TRADE_FIELDS, vs)
    ensures TradeValues(e) == vs
  {
    TradeEvent(vs[0].key, vs[1].word, vs[2].word, vs[3].flag, vs[4].key, vs[5].signed,
               vs[6].word, vs[7].word)
  }

  // ---------- AMM records ----------

  datatype BuyEventAmm = BuyEventAmm(
    timestamp: i64, baseAmountOut: u64, maxQuoteAmountIn: u64,
    userBaseTokenReserves: u64, userQuoteTokenReserves: u64,
    poolBaseTokenReserves: u64, poolQuoteTokenReserves: u64, quoteAmountIn: u64,
    lpFeeBasisPoints: u64, lpFee: u64, protocolFeeBasisPoints: u64, protocolFee: u64,
    quoteAmountInWithLpFee: u64, userQuoteAmountIn: u64,
    pool: Pubkey, user: Pubkey, userBaseTokenAccount: Pubkey, userQuoteTokenAccount: Pubkey,
    protocolFeeRecipient: Pubkey, protocolFeeRecipientTokenAccount: Pubkey)

  datatype SellEventAmm = SellEventAmm(
    timestamp: i64, baseAmountIn: u64, minQuoteAmountOut: u64,
    userBaseTokenReserves: u64, userQuoteTokenReserves: u64,
    poolBaseTokenReserves: u64, poolQuoteTokenReserves: u64, quoteAmountOut: u64,
    lpFeeBasisPoints: u64, lpFee: u64, protocolFeeBasisPoints: u64, protocolFee: u64,
    quoteAmountOutWithoutLpFee: u64, userQuoteAmountOut: u64,
    pool: Pubkey, user: Pubkey, userBaseTokenAccount: Pubkey, userQuoteTokenAccount: Pubkey,
    protocolFeeRecipient: Pubkey, protocolFeeRecipientTokenAccount: Pubkey)

  const AMM_FIELDS :=
    [SignedKind, WordKind, WordKind, WordKind, WordKind, WordKind, WordKind, WordKind, WordKind, WordKind,
     WordKind, WordKind, WordKind, WordKind, KeyKind, KeyKind, KeyKind, KeyKind, KeyKind, KeyKind]

  function BuyAmmValues(e: BuyEventAmm): (vs: seq<Value>)
    ensures Typed(AMM_FIELDS, vs)
  {
    [Signed(e.timestamp), Word(e.baseAmountOut), Word(e.maxQuoteAmountIn),
     Word(e.userBaseTokenReserves), Word(e.userQuoteTokenReserves),
     Word(e.poolBaseTokenReserves), Word(e.poolQuoteTokenReserves), Word(e.quoteAmountIn),
     Word(e.lpFeeBasisPoints), Word(e.lpFee), Word(e.protocolFeeBasisPoints), Word(e.protocolFee),
     Word(e.quoteAmountInWithLpFee), Word(e.userQuoteAmountIn),
     Key(e.pool), Key(e.user), Key(e.userBaseTokenAccount), Key(e.userQuoteTokenAccount),
     Key(e.protocolFeeRecipient), Key(e.protocolFeeRecipientTokenAccount)]
  }

  function BuyAmmOf(vs: seq<Value>): (e: BuyEventAmm)
    requires Typed(AMM_FIELDS, vs)
    ensures BuyAmmValues(e) == vs
  {
    BuyEventAmm(vs[0].signed, vs[1].word, vs[2].word, vs[3].word, vs[4].word, vs[5].word, vs[6].word,
                vs[7].word, vs[8].word, vs[9].word, vs[10].word, vs[11].word, vs[12].word, vs[13].word,
                vs[14].key, vs[15].key, vs[16].key, vs[17].key, vs[18].key, vs[19].key)
  }

  function SellAmmValues(e: SellEventAmm): (vs: seq<Value>)
    ensures Typed(AMM_FIELDS, vs)
  {
    [Signed(e.timestamp), Word(e.baseAmountIn), Word(e.minQuoteAmountOut),
     Word(e.userBaseTokenReserves), Word(e.userQuoteTokenReserves),
     Word(e.poolBaseTokenReserves), Word(e.poolQuoteTokenReserves), Word(e.quoteAmountOut),
     Word(e.lpFeeBasisPoints), Word(e.lpFee), Word(e.protocolFeeBasisPoints), Word(e.protocolFee),
     Word(e.quoteAmountOutWithoutLpFee), Word(e.userQuoteAmountOut),
     Key(e.pool), Key(e.user), Key(e.userBaseTokenAccount), Key(e.userQuoteTokenAccount),
     Key(e.protocolFeeRecipient), Key(e.protocolFeeRecipientTokenAccount)]
  }

  function SellAmmOf(vs: seq<Value>): (e: SellEventAmm)
    requires Typed(AMM_FIELDS, vs)
    ensures SellAmmValues(e) == vs
  {
    SellEventAmm(vs[0].signed, vs[1].word, vs[2].word, vs[3].word, vs[4].word, vs[5].word, vs[6].word,
                 vs[7].word, vs[8].word, vs[9].word, vs[10].word, vs[11].word, vs[12].word, vs[13].word,
                 vs[14].key, vs[15].key, vs[16].key, vs[17].key, vs[18].key, vs[19].key)
  }

  /** An AMM buy calls the larger reserve the token side. */
  function FromAmmBuy(e: BuyEventAmm): Fill {
    if e.poolBaseTokenReserves > e.poolQuoteTokenReserves then
      Fill(e.pool, e.baseAmountOut, e.quoteAmountIn, e.user, e.timestamp,
           e.poolQuoteTokenReserves, e.poolQuoteTokenReserves, e.poolBaseTokenReserves)
    else
      Fill(e.pool, e.baseAmountOut, e.quoteAmountIn, e.user, e.timestamp,
           e.poolBaseTokenReserves, e.poolBaseTokenReserves, e.poolQuoteTokenReserves)
  }

  /** An AMM sale always calls the quote reserve the token side. */
  function FromAmmSell(e: SellEventAmm): Fill {
    Fill(e.pool, e.baseAmountIn, e.quoteAmountOut, e.user, e.timestamp,
         e.poolBaseTokenReserves, e.poolBaseTokenReserves, e.poolQuoteTokenReserves)
  }

  /** The two records tell the same: one pool, trader, time, pair of amounts and pair of reserves. */
  predicate SameTrade(b: BuyEventAmm, s: SellEventAmm) {
    && b.pool == s.pool && b.user == s.user && b.timestamp == s.timestamp
    && b.baseAmountOut == s.baseAmountIn && b.quoteAmountIn == s.quoteAmountOut
    && b.poolBaseTokenReserves == s.poolBaseTokenReserves
    && b.poolQuoteTokenReserves == s.poolQuoteTokenReserves
  }

  /** A buy and a sale that tell the same are converted to the same trade exactly when the base side is
      not the larger one. A buy never reports more SOL than tokens, and does not notice if the pool's
      sides are exchanged; a sale notices exactly when they differ. */
  lemma AmmSidesAgreeIff(b: BuyEventAmm, s: SellEventAmm)
    requires SameTrade(b, s)
    ensures FromAmmBuy(b) == FromAmmSell(s) <==> b.poolBaseTokenReserves <= b.poolQuoteTokenReserves
    ensures FromAmmBuy(b).solBefore <= FromAmmBuy(b).tokenReserves
    ensures var swapped := b.(poolBaseTokenReserves := b.poolQuoteTokenReserves,
                              poolQuoteTokenReserves := b.poolBaseTokenReserves);
            FromAmmBuy(swapped) == FromAmmBuy(b)
    ensures var swapped := s.(poolBaseTokenReserves := s.poolQuoteTokenReserves,
                              poolQuoteTokenReserves := s.poolBaseTokenReserves);
            FromAmmSell(swapped) == FromAmmSell(s) <==> s.poolBaseTokenReserves == s.poolQuoteTokenReserves
  {
  }

  // ---------- Create records ----------

  /** The six fields that both create formats start with. */
  datatype Header = Header(
    name: Text, symbol: Text, uri: Text, mint: Pubkey, bondingCurve: Pubkey, user: Pubkey)

  const HEADER_FIELDS := [TextKind, TextKind, TextKind, KeyKind, KeyKind, KeyKind]

  function HeaderValues(h: Header): (vs: seq<Value>)
    ensures Typed(HEADER_FIELDS, vs)
  {
    [Str(h.name), Str(h.symbol), Str(h.uri), Key(h.mint), Key(h.bondingCurve), Key(h.user)]
  }

  function HeaderOf(vs: seq<Value>): (h: Header)
    requires Typed(HEADER_FIELDS, vs)
    ensures HeaderValues(h) == vs
  {
    Header(vs[0].text, vs[1].text, vs[2].text, vs[3].key, vs[4].key, vs[5].key)
  }

  /** The fields the newer format adds. */
  datatype Extension = Extension(
    creator: Pubkey, timestamp: i64, virtualTokenReserves: u64, virtualSolReserves: u64,
    realTokenReserves: u64, tokenTotalSupply: u64, tokenProgram: Pubkey, isMayhemMode: bool)

  /** All of them have a fixed width but the last, a flag. */
  const FIXED_FIELDS := [KeyKind, SignedKind, WordKind, WordKind, WordKind, WordKind, KeyKind]
  const EXTENSION_FIELDS := FIXED_FIELDS + [FlagKind]

  function ExtensionValues(x: Extension): (vs: seq<Value>)
    ensures Typed(EXTENSION_FIELDS, vs)
  {
    [Key(x.creator), Signed(x.timestamp), Word(x.virtualTokenReserves), Word(x.virtualSolReserves),
     Word(x.realTokenReserves), Word(x.tokenTotalSupply), Key(x.tokenProgram), Flag(x.isMayhemMode)]
  }

  function ExtensionOf(vs: seq<Value>): (x: Extension)
    requires Typed(EXTENSION_FIELDS, vs)
    ensures ExtensionValues(x) == vs
  {
    Extension(vs[0].key, vs[1].signed, vs[2].word, vs[3].word, vs[4].word, vs[5].word, vs[6].key, vs[7].flag)
  }

  datatype CreateEventV2 = CreateEventV2(header: Header, extension: Extension)

  function CreateFrom(h: Header, token2022: bool, timestamp: i64): CreateEvent {
    CreateEvent(h.name, h.symbol, h.uri, h.mint, h.bondingCurve, h.user, token2022, timestamp)
  }

  function FromV2(v: CreateEventV2): CreateEvent {
    CreateFrom(v.header, v.extension.tokenProgram == TOKEN_2022_PROGRAM, v.extension.timestamp)
  }
}
