/** The parser of "Program data" log lines and of raw create instructions. */
module Fetcher {
  import opened Common
  import opened Borsh
  import opened Logs

  const TRADE_DISCRIMINATOR: seq<byte> := [0xbd, 0xdb, 0x7f, 0xd3, 0x4e, 0xe6, 0x61, 0xee]
  const CREATE_DISCRIMINATOR: seq<byte> := [27, 114, 169, 77, 222, 235, 99, 118]
  const BUY_AMM_DISCRIMINATOR: seq<byte> := [62, 47, 55, 10, 165, 3, 220, 42]
  const SELL_AMM_DISCRIMINATOR: seq<byte> := [103, 244, 82, 31, 44, 245, 119, 119]
  const CREATE_V2_DISCRIMINATOR: seq<byte> := [214, 144, 76, 236, 95, 139, 49, 180]
  const BUY_DISCRIMINATOR: seq<byte> := [102, 6, 61, 18, 1, 218, 235, 234]

  /** Foreign code and the clock: Base64, the pool address of a mint, the floating-point price impact. */
  datatype Env = Env(
    base64: string -> Option<seq<byte>>,
    poolPda: Pubkey -> Pubkey,
    solAfter: TradeEvent -> u64,
    now: i64)

  // ---------- Record readers ----------

  function EncodeTrade(e: TradeEvent): seq<byte> { EncodeAll(TradeValues(e)) }
  function EncodeBuyAmm(e: BuyEventAmm): seq<byte> { EncodeAll(BuyAmmValues(e)) }
  function EncodeSellAmm(e: SellEventAmm): seq<byte> { EncodeAll(SellAmmValues(e)) }
  function EncodeHeader(h: Header): seq<byte> { EncodeAll(HeaderValues(h)) }
  function EncodeExtension(x: Extension): seq<byte> { EncodeAll(ExtensionValues(x)) }
  function EncodeV2(v: CreateEventV2): seq<byte> { EncodeHeader(v.header) + EncodeExtension(v.extension) }

  /** A successful read yields values of the kinds asked for. */
  lemma DecodedIsTyped(ks: seq<Kind>, b: seq<byte>)
    ensures var r := DecodeAll(ks, b); r.Got? ==> Typed(ks, r.value)
  {
    var r := DecodeAll(ks, b);
    if r.Got? { RecordExact(ks, b, r.value, r.rest); }
  }

  function DecodeTrade(b: seq<byte>): Read<TradeEvent> {
    DecodedIsTyped(TRADE_FIELDS, b);
    match DecodeAll(TRADE_FIELDS, b) case Failed => Failed case Got(vs, rest) => Got(TradeOf(vs), rest)
  }

  function DecodeBuyAmm(b: seq<byte>): Read<BuyEventAmm> {
    DecodedIsTyped(AMM_FIELDS, b);
    match DecodeAll(AMM_FIELDS, b) case Failed => Failed case Got(vs, rest) => Got(BuyAmmOf(vs), rest)
  }

  function DecodeSellAmm(b: seq<byte>): Read<SellEventAmm> {
    DecodedIsTyped(AMM_FIELDS, b);
    match DecodeAll(AMM_FIELDS, b) case Failed => Failed case Got(vs, rest) => Got(SellAmmOf(vs), rest)
  }

  function DecodeHeader(b: seq<byte>): Read<Header> {
    DecodedIsTyped(HEADER_FIELDS, b);
    match DecodeAll(HEADER_FIELDS, b) case Failed => Failed case Got(vs, rest) => Got(HeaderOf(vs), rest)
  }

  function DecodeExtension(b: seq<byte>): Read<Extension> {
    DecodedIsTyped(EXTENSION_FIELDS, b);
    match DecodeAll(EXTENSION_FIELDS, b) case Failed => Failed case Got(vs, rest) => Got(ExtensionOf(vs), rest)
  }

  /** The derived reader of the newer create format. */
  function DecodeV2(b: seq<byte>): Read<CreateEventV2> {
    match DecodeHeader(b)
    case Failed => Failed
    case Got(h, rest) =>
      match DecodeExtension(rest)
      case Failed => Failed
      case Got(x, rest') => Got(CreateEventV2(h, x), rest')
  }

  /** The hand-written reader of the older format: a missing or invalid flag byte reads as false. */
  function DecodeV1(b: seq<byte>, now: i64): Read<CreateEvent> {
    match DecodeHeader(b)
    case Failed => Failed
    case Got(h, rest) =>
      Got(CreateFrom(h, rest != [] && rest[0] == 1, now), if rest == [] then [] else rest[1..])
  }

  // ---------- The parser ----------

  function TradeToEvent(env: Env, e: TradeEvent): Event {
    var fill := Fill(env.poolPda(e.mint), e.solAmount, e.tokenAmount, e.user, e.timestamp,
                     e.virtualSolReserves, env.solAfter(e), e.virtualTokenReserves);
    if e.isBuy then Buy(fill) else Sell(fill)
  }

  function Parse(env: Env, b: seq<byte>): Option<Event> {
    if |b| < 8 then None
    else if b[..8] == TRADE_DISCRIMINATOR then
      match DecodeTrade(b[8..])
      case Failed => None
      case Got(e, _) => Some(TradeToEvent(env, e))
    else if b[..8] == CREATE_DISCRIMINATOR then
      match DecodeV2(b[8..])
      case Got(v, _) => Some(Create(FromV2(v)))
      case Failed =>
        (match DecodeV1(b[8..], env.now)
         case Failed => None
         case Got(e, _) => Some(Create(e)))
    else if b[..8] == BUY_AMM_DISCRIMINATOR then
      match DecodeBuyAmm(b[8..])
      case Failed => None
      case Got(e, _) => Some(Buy(FromAmmBuy(e)))
    else if b[..8] == SELL_AMM_DISCRIMINATOR then
      match DecodeSellAmm(b[8..])
      case Failed => None
      case Got(e, _) => Some(Sell(FromAmmSell(e)))
    else None
  }

  // ---------- The readers as the program runs them ----------

  /** A byte reader that is consumed field by field. After a failed read its position is not used. */
  class Reader {
    var rest: seq<byte>

    constructor (b: seq<byte>)
      ensures rest == b
    {
      rest := b;
    }

    method ReadText() returns (r: Option<Text>)
      modifies this
      ensures match DecodeText(old(rest))
              case Failed => r == None
              case Got(s, after) => r == Some(s) && rest == after
    {
      if |rest| < 4 { return None; }
      Widths();
      var n := FromLittleEndian(rest[..4]);
      rest := rest[4..];
      if |rest| < n { return None; }
      var s := rest[..n];
      rest := rest[n..];
      assert old(rest)[4..4 + n] == s && old(rest)[4 + n..] == rest;
      if !Utf8.Valid(s) { return None; }
      return Some(s);
    }

    method ReadKey() returns (r: Option<Pubkey>)
      modifies this
      ensures match Decode(KeyKind, old(rest))
              case Failed => r == None
              case Got(v, after) => v.Key? && r == Some(v.key) && rest == after
    {
      if |rest| < 32 { return None; }
      r := Some(rest[..32]);
      rest := rest[32..];
    }

    method ReadFlag() returns (r: Option<bool>)
      modifies this
      ensures r == if old(rest) == [] || old(rest)[0] > 1 then None else Some(old(rest)[0] == 1)
      ensures rest == if old(rest) == [] then [] else old(rest)[1..]
    {
      if rest == [] { return None; }
      var first := rest[0];
      rest := rest[1..];
      if first > 1 { return None; }
      return Some(first == 1);
    }

    /** `CreateEvent::deserialize_reader`. */
    method ReadCreate(now: i64) returns (r: Option<CreateEvent>)
      modifies this
      ensures match DecodeV1(old(rest), now)
              case Failed => r == None
              case Got(e, after) => r == Some(e) && rest == after
    {
      HeaderByHand(rest);
      var name := ReadText();
      if name == None { return None; }
      var symbol := ReadText();
      if symbol == None { return None; }
      var uri := ReadText();
      if uri == None { return None; }
      var mint := ReadKey();
      if mint == None { return None; }
      var bondingCurve := ReadKey();
      if bondingCurve == None { return None; }
      var user := ReadKey();
      if user == None { return None; }
      var flag := ReadFlag();
      var token2022 := match flag case Some(v) => v case None => false;
      r := Some(CreateEvent(name.value, symbol.value, uri.value, mint.value, bondingCurve.value,
                            user.value, token2022, now));
    }
  }

  function ReadTexts(b: seq<byte>): Read<(Text, Text, Text)> {
    match DecodeText(b) case Failed => Failed case Got(name, b1) =>
    match DecodeText(b1) case Failed => Failed case Got(symbol, b2) =>
    match DecodeText(b2) case Failed => Failed case Got(uri, b3) =>
    Got((name, symbol, uri), b3)
  }

  function ReadKeys(b: seq<byte>): Read<(Pubkey, Pubkey, Pubkey)> {
    match Decode(KeyKind, b) case Failed => Failed case Got(mint, b1) =>
    match Decode(KeyKind, b1) case Failed => Failed case Got(curve, b2) =>
    match Decode(KeyKind, b2) case Failed => Failed case Got(user, b3) =>
    Got((mint.key, curve.key, user.key), b3)
  }

  /** Six reads in a row. */
  function ReadSix(b: seq<byte>): Read<Header> {
    match ReadTexts(b) case Failed => Failed case Got(texts, b1) =>
    match ReadKeys(b1) case Failed => Failed case Got(keys, b2) =>
    Got(Header(texts.0, texts.1, texts.2, keys.0, keys.1, keys.2), b2)
  }

  lemma DecodeOne(k: Kind, b: seq<byte>)
    ensures Decode(k, b).Failed? ==> DecodeAll([k], b) == Failed
    ensures Decode(k, b).Got? ==> DecodeAll([k], b) == Got([Decode(k, b).value], Decode(k, b).rest)
  {
    if Decode(k, b).Got? {
      DecodeCons(k, [], b);
      assert [k] + [] == [k] && [Decode(k, b).value] + [] == [Decode(k, b).value];
    }
  }

  lemma DecodeCons(k: Kind, ks: seq<Kind>, b: seq<byte>)
    ensures Decode(k, b).Failed? ==> DecodeAll([k] + ks, b) == Failed
    ensures Decode(k, b).Got? ==>
              DecodeAll([k] + ks, b) == Prepend(Decode(k, b).value, DecodeAll(ks, Decode(k, b).rest))
  {
    assert ([k] + ks)[1..] == ks;
  }

  /** Three fields of one kind. */
  lemma DecodeThree(k: Kind, b: seq<byte>)
    ensures DecodeAll([k, k, k], b)
         == var r1 := Decode(k, b);
            if r1.Failed? then Failed else
            var r2 := Decode(k, r1.rest);
            if r2.Failed? then Failed else
            var r3 := Decode(k, r2.rest);
            if r3.Failed? then Failed else Got([r1.value, r2.value, r3.value], r3.rest)
  {
    assert [k, k, k] == [k] + [k, k] && [k, k] == [k] + [k];
    DecodeCons(k, [k, k], b);
    var r1 := Decode(k, b);
    if r1.Got? {
      DecodeCons(k, [k], r1.rest);
      var r2 := Decode(k, r1.rest);
      if r2.Got? {
        DecodeOne(k, r2.rest);
        var r3 := Decode(k, r2.rest);
        if r3.Got? {
          assert [r1.value] + ([r2.value] + [r3.value]) == [r1.value, r2.value, r3.value];
        }
      }
    }
  }

  /** Reading the header by hand is reading its field list. */
  lemma HeaderByHand(b: seq<byte>)
    ensures DecodeHeader(b) == ReadSix(b)
  {
    DecodedIsTyped(HEADER_FIELDS, b);
    var texts, keys := [TextKind, TextKind, TextKind], [KeyKind, KeyKind, KeyKind];
    assert HEADER_FIELDS == texts + keys;
    DecodeInTwo(texts, keys, b);
    DecodeThree(TextKind, b);
    var r := DecodeAll(texts, b);
    if r.Got? {
      DecodeThree(KeyKind, r.rest);
    }
  }

  /** The stream client: its decode buffer is cleared and refilled for every line. */
  class Client {
    var decodeBuf: seq<byte>

    /** The outcome depends on the line alone, never on what the buffer held before. */
    method ParseOptimized(env: Env, data: string) returns (event: Option<Event>)
      modifies this
      ensures event == match env.base64(data) case None => None case Some(bytes) => Parse(env, bytes)
      ensures env.base64(data).Some? ==> decodeBuf == env.base64(data).value
    {
      decodeBuf := [];
      var decoded := env.base64(data);
      if decoded == None { return None; }
      decodeBuf := decodeBuf + decoded.value;
      assert decodeBuf == decoded.value;
      if |decodeBuf| < 8 { return None; }
      var discriminator, buffer := decodeBuf[0..8], decodeBuf[8..];
      if discriminator == TRADE_DISCRIMINATOR {
        var r := DecodeTrade(buffer);
        if r.Failed? { return None; }
        return Some(TradeToEvent(env, r.value));
      } else if discriminator == CREATE_DISCRIMINATOR {
        var r := DecodeV2(buffer);
        if r.Got? { return Some(Create(FromV2(r.value))); }
        var reader := new Reader(decodeBuf[8..]);
        var create := reader.ReadCreate(env.now);
        if create == None { return None; }
        return Some(Create(create.value));
      } else if discriminator == BUY_AMM_DISCRIMINATOR {
        var r := DecodeBuyAmm(buffer);
        if r.Failed? { return None; }
        return Some(Buy(FromAmmBuy(r.value)));
      } else if discriminator == SELL_AMM_DISCRIMINATOR {
        var r := DecodeSellAmm(buffer);
        if r.Failed? { return None; }
        return Some(Sell(FromAmmSell(r.value)));
      } else {
        return None;
      }
    }
  }

  // ---------- Raw create instructions ----------

  datatype CreateV2Args = CreateV2Args(name: Text, symbol: Text, uri: Text, creator: Pubkey, mayhem: bool)

  const ARGS_FIELDS := [TextKind, TextKind, TextKind, KeyKind, FlagKind]

  function ArgsValues(a: CreateV2Args): (vs: seq<Value>)
    ensures Typed(ARGS_FIELDS, vs)
  {
    [Str(a.name), Str(a.symbol), Str(a.uri), Key(a.creator), Flag(a.mayhem)]
  }

  function ArgsOf(vs: seq<Value>): (a: CreateV2Args)
    requires Typed(ARGS_FIELDS, vs)
    ensures ArgsValues(a) == vs
  {
    CreateV2Args(vs[0].text, vs[1].text, vs[2].text, vs[3].key, vs[4].flag)
  }

  function EncodeArgs(a: CreateV2Args): seq<byte> { EncodeAll(ArgsValues(a)) }

  /** An account of the instruction, looked up twice; either index may be out of range. */
  function GetAccount(index: byte, accounts: seq<byte>, lookup: seq<Pubkey>): Option<Pubkey> {
    if index >= |accounts| then None
    else if accounts[index] >= |lookup| then None
    else Some(lookup[accounts[index]])
  }

  /** `try_from_slice` also rejects bytes left over after the arguments. */
  function ParseCreateInstruction(data: seq<byte>, accounts: seq<byte>, lookup: seq<Pubkey>, now: i64)
    : Option<CreateEvent>
  {
    if |data| < 8 || data[..8] != CREATE_V2_DISCRIMINATOR then None
    else
      DecodedIsTyped(ARGS_FIELDS, data[8..]);
      var args := DecodeAll(ARGS_FIELDS, data[8..]);
      var mint := GetAccount(0, accounts, lookup);
      var curve := GetAccount(2, accounts, lookup);
      var program := GetAccount(7, accounts, lookup);
      if args.Failed? || args.rest != [] || mint == None || curve == None || program == None then None
      else
        var a := ArgsOf(args.value);
        Some(CreateEvent(a.name, a.symbol, a.uri, mint.value, curve.value, a.creator,
                         program.value == TOKEN_2022_PROGRAM, now))
  }
}
