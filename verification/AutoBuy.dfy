/** The numbers and bytes of a buy transaction. */
module AutoBuy {
  import opened Arith
  import opened Common
  import opened Borsh
  import opened BondingCurves
  import Fetcher

  const COMPUTE_LIMIT: int := 120000
  const MICRO: int := 1000000

  /** The compute-unit price, in millionths of a lamport: a u128 quotient cast to u64. */
  function MicroPrice(priorityFee: u64): u64 {
    AsU64(priorityFee * MICRO / COMPUTE_LIMIT)
  }

  /** What the network charges for the whole limit at that price, rounded up to a lamport. */
  function Charged(microPrice: u64): nat {
    (microPrice * COMPUTE_LIMIT + MICRO - 1) / MICRO
  }

  /** The charge is exactly the configured fee whenever the price fits u64, and less than it otherwise. */
  lemma ChargedIsFeeIff(priorityFee: u64)
    ensures Charged(MicroPrice(priorityFee)) <= priorityFee
    ensures Charged(MicroPrice(priorityFee)) == priorityFee <==> priorityFee * MICRO / COMPUTE_LIMIT < U64_LIMIT
  {
    var price := priorityFee * MICRO / COMPUTE_LIMIT;
    assert 0 <= priorityFee * MICRO - price * COMPUTE_LIMIT < COMPUTE_LIMIT;
  }

  // ---------- The instruction ----------

  /** The `Buy` instruction of the client; the fetcher's `BuyArgs` has the same layout. */
  datatype Buy = Buy(tokenAmount: u64, slippage: u64)

  const DISCRIMINATOR: seq<byte> := [0x66, 0x06, 0x3d, 0x12, 0x01, 0xda, 0xeb, 0xea]
  const ARGS := [WordKind, WordKind]

  method Data(b: Buy) returns (data: seq<byte>)
    ensures data == DISCRIMINATOR + EncodeAll([Word(b.tokenAmount), Word(b.slippage)])
  {
    data := [];
    data := data + DISCRIMINATOR;
    data := data + LittleEndian(b.tokenAmount, 8);
    data := data + LittleEndian(b.slippage, 8);
    Joined(DISCRIMINATOR, LittleEndian(b.tokenAmount, 8), LittleEndian(b.slippage, 8));
    EncodePair(b);
  }

  lemma Joined(d: seq<byte>, v: seq<byte>, w: seq<byte>)
    ensures [] + d + v + w == d + (v + w)
  {
  }

  lemma EncodePair(b: Buy)
    ensures EncodeAll([Word(b.tokenAmount), Word(b.slippage)])
         == LittleEndian(b.tokenAmount, 8) + LittleEndian(b.slippage, 8)
  {
    assert [Word(b.tokenAmount), Word(b.slippage)][1..] == [Word(b.slippage)];
    assert [Word(b.slippage)][1..] == [];
    assert EncodeAll([Word(b.slippage)]) == Encode(Word(b.slippage)) + [];
    assert Encode(Word(b.slippage)) + [] == LittleEndian(b.slippage, 8);
  }

  /** Reads instruction data the way the backend's layout and discriminator describe it. */
  function ReadBuy(data: seq<byte>): Option<Buy> {
    if |data| < 8 || data[..8] != Fetcher.BUY_DISCRIMINATOR then None
    else
      var r := DecodeAll(ARGS, data[8..]);
      if r.Failed? || r.rest != [] || |r.value| != 2 || !r.value[0].Word? || !r.value[1].Word? then None
      else Some(Buy(r.value[0].word, r.value[1].word))
  }

  /** The client's bytes are 24 long, and they are the only ones the backend reads as that instruction. */
  lemma DataIsRead(b: Buy, data: seq<byte>)
    ensures ReadBuy(data) == Some(b) <==> data == DISCRIMINATOR + EncodeAll([Word(b.tokenAmount), Word(b.slippage)])
    ensures ReadBuy(data) == Some(b) ==> |data| == 24
  {
    var vs := [Word(b.tokenAmount), Word(b.slippage)];
    EncodePair(b);
    if |data| >= 8 && data[..8] == DISCRIMINATOR {
      assert data == data[..8] + data[8..];
      BodyIsRead(b, data[8..]);
      if ReadBuy(data) == Some(b) { assert DecodeAll(ARGS, data[8..]).value == vs; }
    }
    if data == DISCRIMINATOR + EncodeAll(vs) {
      assert data[..8] == DISCRIMINATOR && data[8..] == EncodeAll(vs);
    }
  }

  lemma BodyIsRead(b: Buy, body: seq<byte>)
    ensures DecodeAll(ARGS, body) == Got([Word(b.tokenAmount), Word(b.slippage)], [])
       <==> body == EncodeAll([Word(b.tokenAmount), Word(b.slippage)])
  {
    var vs := [Word(b.tokenAmount), Word(b.slippage)];
    assert EncodeAll(vs) + [] == EncodeAll(vs);
    RecordExact(ARGS, body, vs, []);
  }

  /** The tokens asked for, where overflow is checked and where it is not; None is a panic, of the
      subtraction or of the `unwrap` of a finished curve's error. */
  function TokensAsked(c: Curve, lamports: u64, checked: bool): Option<u64> {
    if checked then
      match BuyQuote(c, lamports)
      case Amount(n) => Some(n)
      case _ => None
    else UncheckedBuy(c, lamports)
  }

  /** Every build panics on a finished curve, and one that checks overflow also on a curve without
      tokens; where the others go on they ask for all the real tokens instead. */
  lemma AskPanicsIff(c: Curve, lamports: u64, checked: bool)
    ensures TokensAsked(c, lamports, checked) == None
       <==> c.complete || (checked && lamports > 0 && c.token == 0)
    ensures TokensAsked(c, lamports, true).Some? ==>
              TokensAsked(c, lamports, false) == TokensAsked(c, lamports, true)
    ensures !c.complete && lamports > 0 && c.token == 0 ==> TokensAsked(c, lamports, false) == Some(c.realToken)
  {
    BuyUnderflowsIff(c, lamports);
    UncheckedBuyIff(c, lamports);
  }
}
