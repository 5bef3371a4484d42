/** What the parser accepts, and that it undoes encoding. */
module ParserTheorems {
  import opened Common
  import opened Borsh
  import opened Logs
  import opened Fetcher

  // ---------- Each record reader accepts exactly its encodings ----------

  lemma TradeExact(b: seq<byte>, e: TradeEvent, rest: seq<byte>)
    ensures DecodeTrade(b) == Got(e, rest) <==> b == EncodeTrade(e) + rest
  {
    RecordExact(TRADE_FIELDS, b, TradeValues(e), rest);
    DecodedIsTyped(TRADE_FIELDS, b);
    assert TradeOf(TradeValues(e)) == e;
  }

  lemma BuyAmmExact(b: seq<byte>, e: BuyEventAmm, rest: seq<byte>)
    ensures DecodeBuyAmm(b) == Got(e, rest) <==> b == EncodeBuyAmm(e) + rest
  {
    RecordExact(AMM_FIELDS, b, BuyAmmValues(e), rest);
    DecodedIsTyped(AMM_FIELDS, b);
    assert BuyAmmOf(BuyAmmValues(e)) == e;
  }

  lemma SellAmmExact(b: seq<byte>, e: SellEventAmm, rest: seq<byte>)
    ensures DecodeSellAmm(b) == Got(e, rest) <==> b == EncodeSellAmm(e) + rest
  {
    RecordExact(AMM_FIELDS, b, SellAmmValues(e), rest);
    DecodedIsTyped(AMM_FIELDS, b);
    assert SellAmmOf(SellAmmValues(e)) == e;
  }

  lemma HeaderExact(b: seq<byte>, h: Header, rest: seq<byte>)
    ensures DecodeHeader(b) == Got(h, rest) <==> b == EncodeHeader(h) + rest
  {
    RecordExact(HEADER_FIELDS, b, HeaderValues(h), rest);
    DecodedIsTyped(HEADER_FIELDS, b);
    assert HeaderOf(HeaderValues(h)) == h;
  }

  lemma ExtensionExact(b: seq<byte>, x: Extension, rest: seq<byte>)
    ensures DecodeExtension(b) == Got(x, rest) <==> b == EncodeExtension(x) + rest
  {
    RecordExact(EXTENSION_FIELDS, b, ExtensionValues(x), rest);
    DecodedIsTyped(EXTENSION_FIELDS, b);
    assert ExtensionOf(ExtensionValues(x)) == x;
  }

  lemma V2Exact(b: seq<byte>, v: CreateEventV2, rest: seq<byte>)
    ensures DecodeV2(b) == Got(v, rest) <==> b == EncodeV2(v) + rest
  {
    var tail := EncodeExtension(v.extension) + rest;
    assert EncodeV2(v) + rest == EncodeHeader(v.header) + tail;
    HeaderExact(b, v.header, tail);
    ExtensionExact(tail, v.extension, rest);
    if DecodeV2(b) == Got(v, rest) {
      var r := DecodeHeader(b);
      HeaderExact(b, r.value, r.rest);
      ExtensionExact(r.rest, v.extension, rest);
    }
  }

  // ---------- Decoding undoes encoding, whatever follows ----------

  lemma Framed(b: seq<byte>, discriminator: seq<byte>, body: seq<byte>)
    requires |discriminator| == 8 && b == discriminator + body
    ensures |b| >= 8 && b[..8] == discriminator && b[8..] == body
  {
  }

  /** A trade record is a buy or a sale of its own amounts and reserves, under the mint's pool address. */
  lemma ParseTrade(env: Env, e: TradeEvent, tail: seq<byte>)
    ensures Parse(env, TRADE_DISCRIMINATOR + (EncodeTrade(e) + tail)) == Some(TradeToEvent(env, e))
    ensures TradeToEvent(env, e).Buy? <==> e.isBuy
    ensures TradeToEvent(env, e).Sell? <==> !e.isBuy
    ensures TradeToEvent(env, e).fill
         == Fill(env.poolPda(e.mint), e.solAmount, e.tokenAmount, e.user, e.timestamp,
                 e.virtualSolReserves, env.solAfter(e), e.virtualTokenReserves)
  {
    var body := EncodeTrade(e) + tail;
    Framed(TRADE_DISCRIMINATOR + body, TRADE_DISCRIMINATOR, body);
    TradeExact(body, e, tail);
  }

  lemma ParseBuyAmm(env: Env, e: BuyEventAmm, tail: seq<byte>)
    ensures Parse(env, BUY_AMM_DISCRIMINATOR + (EncodeBuyAmm(e) + tail)) == Some(Buy(FromAmmBuy(e)))
  {
    var body := EncodeBuyAmm(e) + tail;
    Framed(BUY_AMM_DISCRIMINATOR + body, BUY_AMM_DISCRIMINATOR, body);
    BuyAmmExact(body, e, tail);
  }

  lemma ParseSellAmm(env: Env, e: SellEventAmm, tail: seq<byte>)
    ensures Parse(env, SELL_AMM_DISCRIMINATOR + (EncodeSellAmm(e) + tail)) == Some(Sell(FromAmmSell(e)))
  {
    var body := EncodeSellAmm(e) + tail;
    Framed(SELL_AMM_DISCRIMINATOR + body, SELL_AMM_DISCRIMINATOR, body);
    SellAmmExact(body, e, tail);
  }

  lemma ParseV2(env: Env, v: CreateEventV2, tail: seq<byte>)
    ensures Parse(env, CREATE_DISCRIMINATOR + (EncodeV2(v) + tail)) == Some(Create(FromV2(v)))
    ensures FromV2(v).token2022 <==> v.extension.tokenProgram == TOKEN_2022_PROGRAM
    ensures FromV2(v).timestamp == v.extension.timestamp
  {
    var body := EncodeV2(v) + tail;
    Framed(CREATE_DISCRIMINATOR + body, CREATE_DISCRIMINATOR, body);
    V2Exact(body, v, tail);
  }

  // ---------- The two create formats ----------

  function Width(k: Kind): nat {
    match k
    case KeyKind => 32
    case FlagKind => 1
    case _ => 8
  }

  function TotalWidth(ks: seq<Kind>): nat {
    if ks == [] then 0 else Width(ks[0]) + TotalWidth(ks[1..])
  }

  /** Keys and integers can be read from any bytes, as long as there are enough of them. */
  lemma {:induction false} FixedFieldsNeedOnlyLength(ks: seq<Kind>, b: seq<byte>)
    requires TextKind !in ks && FlagKind !in ks
    ensures DecodeAll(ks, b).Got? <==> |b| >= TotalWidth(ks)
    ensures DecodeAll(ks, b).Got? ==> DecodeAll(ks, b).rest == b[TotalWidth(ks)..]
    decreases |ks|
  {
    if ks != [] {
      var w := Width(ks[0]);
      assert ks[0] in ks;
      if |b| >= w {
        assert Decode(ks[0], b).rest == b[w..];
        FixedFieldsNeedOnlyLength(ks[1..], b[w..]);
        if |b| >= TotalWidth(ks) {
          assert b[w..][TotalWidth(ks[1..])..] == b[TotalWidth(ks)..];
        }
      }
    }
  }

  const EXTENSION_WIDTH := 105

  lemma FixedWidth()
    ensures TotalWidth(FIXED_FIELDS) == EXTENSION_WIDTH - 1
  {
    var ks := FIXED_FIELDS;
    assert ks[1..] == [SignedKind, WordKind, WordKind, WordKind, WordKind, KeyKind];
    assert ks[1..][1..] == [WordKind, WordKind, WordKind, WordKind, KeyKind];
    assert ks[1..][1..][1..] == [WordKind, WordKind, WordKind, KeyKind];
    assert ks[1..][1..][1..][1..] == [WordKind, WordKind, KeyKind];
    assert TotalWidth([WordKind, WordKind, KeyKind]) == 48;
  }

  /** The extension can be read exactly when there are 105 bytes and the last of them is a flag. */
  lemma ExtensionReadsIff(b: seq<byte>)
    ensures DecodeExtension(b).Got? <==> |b| >= EXTENSION_WIDTH && b[EXTENSION_WIDTH - 1] <= 1
  {
    FixedWidth();
    DecodeInTwo(FIXED_FIELDS, [FlagKind], b);
    FixedFieldsNeedOnlyLength(FIXED_FIELDS, b);
    DecodedIsTyped(EXTENSION_FIELDS, b);
    if |b| >= EXTENSION_WIDTH - 1 {
      DecodeOne(FlagKind, b[EXTENSION_WIDTH - 1..]);
    }
  }

  /** Fields of fixed width are read where the ones before them end. */
  lemma {:induction false} FieldAt(ks: seq<Kind>, b: seq<byte>, i: nat)
    requires TextKind !in ks && i < |ks| && DecodeAll(ks, b).Got?
    ensures i < |DecodeAll(ks, b).value| && TotalWidth(ks[..i]) <= |b|
    ensures Decode(ks[i], b[TotalWidth(ks[..i])..]).Got?
    ensures DecodeAll(ks, b).value[i] == Decode(ks[i], b[TotalWidth(ks[..i])..]).value
    decreases |ks|
  {
    var first := Decode(ks[0], b);
    assert ks[0] in ks;
    assert first.rest == b[Width(ks[0])..];
    if i == 0 {
      assert ks[..0] == [] && b[0..] == b;
    } else {
      FieldAt(ks[1..], first.rest, i - 1);
      assert ks[..i][1..] == ks[1..][..i - 1];
      assert first.rest[TotalWidth(ks[1..][..i - 1])..] == b[TotalWidth(ks[..i])..];
    }
  }

  lemma FieldOffsets()
    ensures TotalWidth(EXTENSION_FIELDS[..1]) == 32 && TotalWidth(EXTENSION_FIELDS[..6]) == 72
  {
    assert EXTENSION_FIELDS[..1] == [KeyKind];
    var ks := EXTENSION_FIELDS[..6];
    assert ks == [KeyKind, SignedKind, WordKind, WordKind, WordKind, WordKind];
    assert ks[1..] == [SignedKind, WordKind, WordKind, WordKind, WordKind];
    var words := [WordKind, WordKind, WordKind, WordKind];
    assert ks[1..][1..] == words;
    assert words[1..] == [WordKind, WordKind, WordKind] && words[1..][1..] == [WordKind, WordKind];
    assert TotalWidth([WordKind, WordKind]) == 16;
    assert TotalWidth(words) == 32;
  }

  lemma TimestampAt(b: seq<byte>)
    requires DecodeExtension(b).Got? && |b| >= EXTENSION_WIDTH
    ensures DecodeExtension(b).value.timestamp == AsI64(AsU64(FromLittleEndian(b[32..40])))
  {
    DecodedIsTyped(EXTENSION_FIELDS, b);
    FieldOffsets();
    FieldAt(EXTENSION_FIELDS, b, 1);
    assert b[32..][..8] == b[32..40];
    Widths();
  }

  lemma ProgramAt(b: seq<byte>)
    requires DecodeExtension(b).Got? && |b| >= EXTENSION_WIDTH
    ensures DecodeExtension(b).value.tokenProgram == b[72..104]
  {
    DecodedIsTyped(EXTENSION_FIELDS, b);
    FieldOffsets();
    FieldAt(EXTENSION_FIELDS, b, 6);
    assert b[72..][..32] == b[72..104];
  }

  lemma NewerCreate(env: Env, h: Header, tail: seq<byte>, x: Extension)
    requires DecodeExtension(tail).Got? && x == DecodeExtension(tail).value
    ensures Parse(env, CREATE_DISCRIMINATOR + (EncodeHeader(h) + tail)) == Some(Create(FromV2(CreateEventV2(h, x))))
  {
    var body := EncodeHeader(h) + tail;
    Framed(CREATE_DISCRIMINATOR + body, CREATE_DISCRIMINATOR, body);
    HeaderExact(body, h, tail);
  }

  lemma OlderCreate(env: Env, h: Header, tail: seq<byte>)
    requires DecodeExtension(tail).Failed?
    ensures Parse(env, CREATE_DISCRIMINATOR + (EncodeHeader(h) + tail))
         == Some(Create(CreateFrom(h, tail != [] && tail[0] == 1, env.now)))
  {
    var body := EncodeHeader(h) + tail;
    Framed(CREATE_DISCRIMINATOR + body, CREATE_DISCRIMINATOR, body);
    HeaderExact(body, h, tail);
  }

  /** A create header followed by any tail is taken for the newer format exactly when the tail has
      at least 105 bytes and its 105th is 0 or 1; bytes 32 to 39 of the tail are then the timestamp and
      bytes 72 to 103 the token program. In every other case, among them an old record with no flag or one
      flag byte, the old reader recovers the header and the flag. */
  lemma CreateFallback(env: Env, h: Header, tail: seq<byte>)
    ensures var b := CREATE_DISCRIMINATOR + (EncodeHeader(h) + tail);
            var newer := |tail| >= EXTENSION_WIDTH && tail[EXTENSION_WIDTH - 1] <= 1;
            && (DecodeV2(b[8..]).Got? <==> newer)
            && (!newer ==> Parse(env, b) == Some(Create(CreateFrom(h, tail != [] && tail[0] == 1, env.now))))
            && (newer ==>
                  Parse(env, b) == Some(Create(CreateFrom(h, tail[72..104] == TOKEN_2022_PROGRAM,
                                                          AsI64(AsU64(FromLittleEndian(tail[32..40])))))))
  {
    var body := EncodeHeader(h) + tail;
    Framed(CREATE_DISCRIMINATOR + body, CREATE_DISCRIMINATOR, body);
    HeaderExact(body, h, tail);
    ExtensionReadsIff(tail);
    if DecodeExtension(tail).Got? {
      NewerCreate(env, h, tail, DecodeExtension(tail).value);
      TimestampAt(tail);
      ProgramAt(tail);
    } else {
      OlderCreate(env, h, tail);
    }
  }

  /** Wherever the newer reader succeeds the older one does too, with the same six header fields. */
  lemma ReadersAgree(b: seq<byte>, now: i64)
    ensures var r := DecodeV2(b);
            r.Got? ==>
              && DecodeV1(b, now).Got?
              && var e := DecodeV1(b, now).value;
              CreateFrom(r.value.header, e.token2022, e.timestamp) == e
  {
  }

  // ---------- Everything the parser accepts ----------

  ghost predicate HoldsTrade(b: seq<byte>) {
    exists e, tail :: b == TRADE_DISCRIMINATOR + (EncodeTrade(e) + tail)
  }

  ghost predicate HoldsCreate(b: seq<byte>) {
    exists h, tail :: b == CREATE_DISCRIMINATOR + (EncodeHeader(h) + tail)
  }

  ghost predicate HoldsBuyAmm(b: seq<byte>) {
    exists e, tail :: b == BUY_AMM_DISCRIMINATOR + (EncodeBuyAmm(e) + tail)
  }

  ghost predicate HoldsSellAmm(b: seq<byte>) {
    exists e, tail :: b == SELL_AMM_DISCRIMINATOR + (EncodeSellAmm(e) + tail)
  }

  lemma Unframe(b: seq<byte>)
    requires |b| >= 8
    ensures b == b[..8] + b[8..]
  {
  }

  /** On every byte string the parser answers, and it yields an event exactly for a known
      discriminator followed by a complete record. */
  lemma ParserAccepts(env: Env, b: seq<byte>)
    ensures Parse(env, b).Some? <==> HoldsTrade(b) || HoldsCreate(b) || HoldsBuyAmm(b) || HoldsSellAmm(b)
  {
    if Parse(env, b).Some? {
      Unframe(b);
      if b[..8] == TRADE_DISCRIMINATOR {
        var r := DecodeTrade(b[8..]);
        TradeExact(b[8..], r.value, r.rest);
        assert b == TRADE_DISCRIMINATOR + (EncodeTrade(r.value) + r.rest);
      } else if b[..8] == CREATE_DISCRIMINATOR {
        ReadersAgree(b[8..], env.now);
        var r := DecodeHeader(b[8..]);
        HeaderExact(b[8..], r.value, r.rest);
        assert b == CREATE_DISCRIMINATOR + (EncodeHeader(r.value) + r.rest);
      } else if b[..8] == BUY_AMM_DISCRIMINATOR {
        var r := DecodeBuyAmm(b[8..]);
        BuyAmmExact(b[8..], r.value, r.rest);
        assert b == BUY_AMM_DISCRIMINATOR + (EncodeBuyAmm(r.value) + r.rest);
      } else {
        var r := DecodeSellAmm(b[8..]);
        SellAmmExact(b[8..], r.value, r.rest);
        assert b == SELL_AMM_DISCRIMINATOR + (EncodeSellAmm(r.value) + r.rest);
      }
    }
    if HoldsTrade(b) {
      var e, tail :| b == TRADE_DISCRIMINATOR + (EncodeTrade(e) + tail);
      ParseTrade(env, e, tail);
    }
    if HoldsCreate(b) {
      var h, tail :| b == CREATE_DISCRIMINATOR + (EncodeHeader(h) + tail);
      CreateFallback(env, h, tail);
    }
    if HoldsBuyAmm(b) {
      var e, tail :| b == BUY_AMM_DISCRIMINATOR + (EncodeBuyAmm(e) + tail);
      ParseBuyAmm(env, e, tail);
    }
    if HoldsSellAmm(b) {
      var e, tail :| b == SELL_AMM_DISCRIMINATOR + (EncodeSellAmm(e) + tail);
      ParseSellAmm(env, e, tail);
    }
  }

  lemma Regroup(d: seq<byte>, e: seq<byte>, t: seq<byte>, more: seq<byte>)
    ensures (d + (e + t)) + more == d + (e + (t + more))
  {
  }

  /** Bytes after a buy or a sale never change the event. */
  lemma TailIgnored(env: Env, b: seq<byte>, more: seq<byte>)
    requires Parse(env, b).Some? && !Parse(env, b).value.Create?
    ensures Parse(env, b + more) == Parse(env, b)
  {
    ParserAccepts(env, b);
    if HoldsTrade(b) {
      var e, tail :| b == TRADE_DISCRIMINATOR + (EncodeTrade(e) + tail);
      Regroup(TRADE_DISCRIMINATOR, EncodeTrade(e), tail, more);
      ParseTrade(env, e, tail);
      ParseTrade(env, e, tail + more);
    } else if HoldsCreate(b) {
      var h, tail :| b == CREATE_DISCRIMINATOR + (EncodeHeader(h) + tail);
      CreateFallback(env, h, tail);
      assert false;
    } else if HoldsBuyAmm(b) {
      var e, tail :| b == BUY_AMM_DISCRIMINATOR + (EncodeBuyAmm(e) + tail);
      Regroup(BUY_AMM_DISCRIMINATOR, EncodeBuyAmm(e), tail, more);
      ParseBuyAmm(env, e, tail);
      ParseBuyAmm(env, e, tail + more);
    } else {
      var e, tail :| b == SELL_AMM_DISCRIMINATOR + (EncodeSellAmm(e) + tail);
      Regroup(SELL_AMM_DISCRIMINATOR, EncodeSellAmm(e), tail, more);
      ParseSellAmm(env, e, tail);
      ParseSellAmm(env, e, tail + more);
    }
  }

  // ---------- Raw create instructions ----------

  /** An instruction yields an event exactly when its data is the discriminator and the encoded
      arguments with nothing after them, and its accounts 0, 2 and 7 resolve. */
  lemma InstructionExact(data: seq<byte>, accounts: seq<byte>, lookup: seq<Pubkey>, now: i64, a: CreateV2Args)
    ensures data == CREATE_V2_DISCRIMINATOR + EncodeArgs(a) ==>
              var mint, curve, program :=
                GetAccount(0, accounts, lookup), GetAccount(2, accounts, lookup), GetAccount(7, accounts, lookup);
              ParseCreateInstruction(data, accounts, lookup, now) ==
                if mint == None || curve == None || program == None then None
                else Some(CreateEvent(a.name, a.symbol, a.uri, mint.value, curve.value, a.creator,
                                      program.value == TOKEN_2022_PROGRAM, now))
    ensures ParseCreateInstruction(data, accounts, lookup, now).Some? ==>
              exists args :: data == CREATE_V2_DISCRIMINATOR + EncodeArgs(args)
  {
    if data == CREATE_V2_DISCRIMINATOR + EncodeArgs(a) {
      Framed(data, CREATE_V2_DISCRIMINATOR, EncodeArgs(a));
      assert EncodeArgs(a) + [] == EncodeArgs(a);
      RecordExact(ARGS_FIELDS, data[8..], ArgsValues(a), []);
      DecodedIsTyped(ARGS_FIELDS, data[8..]);
      assert ArgsOf(ArgsValues(a)) == a;
    }
    if ParseCreateInstruction(data, accounts, lookup, now).Some? {
      Unframe(data);
      DecodedIsTyped(ARGS_FIELDS, data[8..]);
      var r := DecodeAll(ARGS_FIELDS, data[8..]);
      RecordExact(ARGS_FIELDS, data[8..], r.value, []);
      var args := ArgsOf(r.value);
      assert EncodeArgs(args) + [] == EncodeArgs(args);
      assert data == CREATE_V2_DISCRIMINATOR + EncodeArgs(args);
    }
  }
}
