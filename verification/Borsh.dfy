/** The Borsh encoding of the field types that the event records use: little-endian integers,
    one-byte booleans, 32-byte keys and length-prefixed UTF-8 text. A derived reader is the list of
    its fields' kinds, read in declaration order. */
module Borsh {
  import Arith
  import opened Common
  import Utf8

  // ---------- Little-endian integers ----------

  function Pow256(width: nat): (p: nat)
    ensures p > 0
  {
    if width == 0 then 1 else 256 * Pow256(width - 1)
  }

  function LittleEndian(n: nat, width: nat): (b: seq<byte>)
    ensures |b| == width
  {
    if width == 0 then [] else [n % 256] + LittleEndian(n / 256, width - 1)
  }

  function FromLittleEndian(b: seq<byte>): (n: nat)
    ensures n < Pow256(|b|)
  {
    if b == [] then 0 else b[0] + 256 * FromLittleEndian(b[1..])
  }

  lemma {:induction false} ReadWritten(n: nat, width: nat)
    requires n < Pow256(width)
    ensures FromLittleEndian(LittleEndian(n, width)) == n
  {
    if width > 0 {
      var b := LittleEndian(n, width);
      ReadWritten(n / 256, width - 1);
      assert b[1..] == LittleEndian(n / 256, width - 1);
    }
  }

  lemma {:induction false} WriteRead(b: seq<byte>)
    ensures LittleEndian(FromLittleEndian(b), |b|) == b
  {
    if b != [] {
      WriteRead(b[1..]);
      assert b == [b[0]] + b[1..];
    }
  }

  lemma QuotientOfQuotient(n: nat, p: nat)
    requires p > 0
    ensures n / 256 / p == n / (256 * p)
  {
    var q := n / 256 / p;
    assert q * p <= n / 256 < (q + 1) * p;
    assert q * (256 * p) <= n < (q + 1) * (256 * p);
    Arith.DivIs(n, 256 * p, q);
    Arith.DivIsQuotient(n, 256 * p);
  }

  /** The byte at index `i` is the base-256 digit of weight 256^i. */
  lemma {:induction false} DigitAt(n: nat, width: nat, i: nat)
    requires i < width
    ensures LittleEndian(n, width)[i] == n / Pow256(i) % 256
  {
    if i > 0 {
      DigitAt(n / 256, width - 1, i - 1);
      QuotientOfQuotient(n, Pow256(i - 1));
    }
  }

  lemma Widths()
    ensures Pow256(4) == U32_LIMIT && Pow256(8) == U64_LIMIT
  {
    assert Pow256(4) == 256 * (256 * (256 * (256 * Pow256(0))));
    assert Pow256(8) == 256 * (256 * (256 * (256 * Pow256(4))));
  }

  // ---------- Fields ----------

  type Pubkey = k: seq<byte> | |k| == 32 witness seq(32, _ => 0)

  /** A string a Borsh length prefix can describe, as its UTF-8 bytes. */
  type Text = s: seq<byte> | Utf8.Valid(s) && |s| < U32_LIMIT

  datatype Kind = WordKind | SignedKind | FlagKind | KeyKind | TextKind

  datatype Value =
    | Word(word: u64)
    | Signed(signed: i64)
    | Flag(flag: bool)
    | Key(key: Pubkey)
    | Str(text: Text)

  function KindOf(v: Value): Kind {
    match v
    case Word(_) => WordKind
    case Signed(_) => SignedKind
    case Flag(_) => FlagKind
    case Key(_) => KeyKind
    case Str(_) => TextKind
  }

  function FromI64(x: i64): u64 {
    if x < 0 then x + U64_LIMIT else x
  }

  function Encode(v: Value): seq<byte> {
    match v
    case Word(n) => LittleEndian(n, 8)
    case Signed(n) => LittleEndian(FromI64(n), 8)
    case Flag(b) => [if b then 1 else 0]
    case Key(k) => k
    case Str(s) => LittleEndian(|s|, 4) + s
  }

  datatype Read<+T> = Failed | Got(value: T, rest: seq<byte>)

  function DecodeWord(b: seq<byte>): Read<u64> {
    if |b| < 8 then Failed
    else
      Widths();
      Got(FromLittleEndian(b[..8]), b[8..])
  }

  function DecodeText(b: seq<byte>): Read<Text> {
    if |b| < 4 then Failed
    else
      Widths();
      var n := FromLittleEndian(b[..4]);
      if |b| - 4 < n || !Utf8.Valid(b[4..4 + n]) then Failed
      else Got(b[4..4 + n], b[4 + n..])
  }

  /** Reads one field from the front of `b`. */
  function Decode(k: Kind, b: seq<byte>): Read<Value> {
    match k
    case WordKind =>
      (match DecodeWord(b) case Failed => Failed case Got(n, rest) => Got(Word(n), rest))
    case SignedKind =>
      (match DecodeWord(b) case Failed => Failed case Got(n, rest) => Got(Signed(AsI64(n)), rest))
    case FlagKind =>
      if |b| < 1 || b[0] > 1 then Failed else Got(Flag(b[0] == 1), b[1..])
    case KeyKind =>
      if |b| < 32 then Failed else Got(Key(b[..32]), b[32..])
    case TextKind =>
      (match DecodeText(b) case Failed => Failed case Got(s, rest) => Got(Str(s), rest))
  }

  lemma WordExact(b: seq<byte>, n: u64, rest: seq<byte>)
    ensures DecodeWord(b) == Got(n, rest) <==> b == LittleEndian(n, 8) + rest
  {
    Widths();
    if b == LittleEndian(n, 8) + rest {
      assert b[..8] == LittleEndian(n, 8) && b[8..] == rest;
      ReadWritten(n, 8);
    }
    if DecodeWord(b) == Got(n, rest) {
      WriteRead(b[..8]);
      assert b == b[..8] + b[8..];
    }
  }

  lemma TextExact(b: seq<byte>, s: Text, rest: seq<byte>)
    ensures DecodeText(b) == Got(s, rest) <==> b == LittleEndian(|s|, 4) + s + rest
  {
    Widths();
    if b == LittleEndian(|s|, 4) + s + rest {
      assert b[..4] == LittleEndian(|s|, 4);
      ReadWritten(|s|, 4);
      assert b[4..4 + |s|] == s && b[4 + |s|..] == rest;
    }
    if DecodeText(b) == Got(s, rest) {
      WriteRead(b[..4]);
      assert b == b[..4] + b[4..4 + |s|] + b[4 + |s|..];
    }
  }

  /** A reader accepts exactly the encodings of its kind, and leaves what follows them. */
  lemma FieldExact(k: Kind, b: seq<byte>, v: Value, rest: seq<byte>)
    ensures Decode(k, b) == Got(v, rest) <==> KindOf(v) == k && b == Encode(v) + rest
  {
    match k {
      case WordKind => if v.Word? { WordExact(b, v.word, rest); }
      case SignedKind => if v.Signed? { WordExact(b, FromI64(v.signed), rest); }
      case FlagKind =>
        if |b| > 0 { assert b == [b[0]] + b[1..]; }
      case KeyKind =>
        if |b| >= 32 { assert b == b[..32] + b[32..]; }
      case TextKind =>
        if v.Str? { TextExact(b, v.text, rest); }
    }
  }

  // ---------- Records ----------

  predicate Typed(ks: seq<Kind>, vs: seq<Value>) {
    |vs| == |ks| && forall i | 0 <= i < |ks| :: KindOf(vs[i]) == ks[i]
  }

  function EncodeAll(vs: seq<Value>): seq<byte> {
    if vs == [] then [] else Encode(vs[0]) + EncodeAll(vs[1..])
  }

  function Prepend(v: Value, r: Read<seq<Value>>): Read<seq<Value>> {
    if r.Failed? then Failed else Got([v] + r.value, r.rest)
  }

  function DecodeAll(ks: seq<Kind>, b: seq<byte>): Read<seq<Value>> {
    if ks == [] then Got([], b)
    else
      match Decode(ks[0], b)
      case Failed => Failed
      case Got(v, rest) => Prepend(v, DecodeAll(ks[1..], rest))
  }

  /** A derived reader accepts exactly the concatenated encodings of its fields; every other byte
      string fails, and bytes after the record are left alone. */
  lemma {:induction false} RecordExact(ks: seq<Kind>, b: seq<byte>, vs: seq<Value>, rest: seq<byte>)
    ensures DecodeAll(ks, b) == Got(vs, rest) <==> Typed(ks, vs) && b == EncodeAll(vs) + rest
    decreases |ks|
  {
    if ks != [] && vs != [] {
      var v, tail := vs[0], EncodeAll(vs[1..]) + rest;
      assert vs == [v] + vs[1..];
      assert EncodeAll(vs) + rest == Encode(v) + tail;
      FieldExact(ks[0], b, v, tail);
      RecordExact(ks[1..], tail, vs[1..], rest);
      assert Typed(ks, vs) <==> KindOf(v) == ks[0] && Typed(ks[1..], vs[1..]) by {
        if KindOf(v) == ks[0] && Typed(ks[1..], vs[1..]) {
          forall i | 0 <= i < |ks| ensures KindOf(vs[i]) == ks[i] {
            if i > 0 { assert vs[i] == vs[1..][i - 1] && ks[i] == ks[1..][i - 1]; }
          }
        }
      }
      if DecodeAll(ks, b) == Got(vs, rest) {
        var first := Decode(ks[0], b);
        var others := DecodeAll(ks[1..], first.rest);
        assert [first.value] + others.value == vs;
        assert others.value == vs[1..];
        FieldExact(ks[0], b, v, first.rest);
        RecordExact(ks[1..], first.rest, vs[1..], rest);
      }
    }
  }

  /** Reading one record after another is reading the joined record. */
  lemma {:induction false} DecodeInTwo(ks: seq<Kind>, ls: seq<Kind>, b: seq<byte>)
    ensures DecodeAll(ks + ls, b)
         == match DecodeAll(ks, b)
            case Failed => Failed
            case Got(vs, rest) =>
              (match DecodeAll(ls, rest) case Failed => Failed case Got(ws, rest') => Got(vs + ws, rest'))
    decreases |ks|
  {
    if ks == [] {
      assert ks + ls == ls;
      match DecodeAll(ls, b) {
        case Failed =>
        case Got(ws, _) => assert [] + ws == ws;
      }
    } else {
      assert (ks + ls)[1..] == ks[1..] + ls;
      match Decode(ks[0], b) {
        case Failed =>
        case Got(v, rest) =>
          DecodeInTwo(ks[1..], ls, rest);
          match DecodeAll(ks[1..], rest) {
            case Failed =>
            case Got(vs, rest') =>
              match DecodeAll(ls, rest') {
                case Failed =>
                case Got(ws, _) => assert [v] + (vs + ws) == ([v] + vs) + ws;
              }
          }
      }
    }
  }
}
