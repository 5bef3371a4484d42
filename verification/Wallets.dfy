/** The wallet file: the master key and its puppets, one a line. */
module Wallets {
  import opened Common
  import opened TextOps

  type Seed = s: seq<byte> | |s| == 32 witness seq(32, _ => 0)

  /** A key pair is determined by its 32-byte seed. */
  datatype Keypair = Keypair(seed: Seed)

  datatype PuppetMaster = PuppetMaster(master: Keypair, puppets: seq<Keypair>)

  datatype Decoded = Decoded(value: PuppetMaster) | Failed(reason: string)

  /** Foreign code: Base58, and the public half that follows the seed in a key pair's bytes. */
  datatype Codec = Codec(
    base58: seq<byte> -> string, unbase58: string -> Option<seq<byte>>, public: Seed -> seq<byte>)

  function Bytes(c: Codec, k: Keypair): seq<byte> {
    k.seed + c.public(k.seed)
  }

  /** What Base58 promises: decoding undoes encoding, and the text of a key pair is one line. */
  ghost predicate Lawful(c: Codec) {
    forall k: Keypair :: c.unbase58(c.base58(Bytes(c, k))) == Some(Bytes(c, k)) && OneLine(c.base58(Bytes(c, k)))
  }

  function Text(c: Codec, k: Keypair): string {
    c.base58(Bytes(c, k))
  }

  function Texts(c: Codec, ks: seq<Keypair>): (ls: seq<string>)
    ensures |ls| == |ks| && forall i | 0 <= i < |ks| :: ls[i] == Text(c, ks[i])
  {
    seq(|ks|, i requires 0 <= i < |ks| => Text(c, ks[i]))
  }

  /** `keypair_from_str`: at least 32 bytes are needed, and only the first 32 matter. */
  function KeypairFromStr(c: Codec, s: string): Option<Keypair> {
    var bytes := c.unbase58(s);
    if bytes == None || |bytes.value| < 32 then None else Some(Keypair(bytes.value[..32]))
  }

  lemma UnlinesAppend(ls: seq<string>, l: string)
    ensures Unlines(ls + [l]) == Unlines(ls) + l + "\n"
  {
    if ls == [] {
      assert [l][1..] == [];
      assert Unlines([l]) == l + "\n" + "";
      assert l + "\n" + "" == l + "\n";
      assert [] + [l] == [l];
      assert "" + l + "\n" == l + "\n";
    } else {
      UnlinesAppend(ls[1..], l);
      assert (ls + [l])[1..] == ls[1..] + [l];
      assert ls[0] + "\n" + (Unlines(ls[1..]) + l + "\n") == ls[0] + "\n" + Unlines(ls[1..]) + l + "\n";
    }
  }

  method Encode(c: Codec, pm: PuppetMaster) returns (buffer: string)
    ensures buffer == Unlines(Texts(c, [pm.master] + pm.puppets))
  {
    buffer := "";
    var keys := [pm.master] + pm.puppets;
    UnlinesAppend([], Text(c, pm.master));
    buffer := buffer + Text(c, pm.master) + "\n";
    assert Texts(c, keys[..1]) == [] + [Text(c, pm.master)];
    for i := 0 to |pm.puppets|
      invariant buffer == Unlines(Texts(c, keys[..i + 1]))
    {
      assert keys[i + 1] == pm.puppets[i];
      assert Texts(c, keys[..i + 2]) == Texts(c, keys[..i + 1]) + [Text(c, pm.puppets[i])];
      UnlinesAppend(Texts(c, keys[..i + 1]), Text(c, pm.puppets[i]));
      buffer := buffer + Text(c, pm.puppets[i]) + "\n";
    }
    assert keys[..|pm.puppets| + 1] == keys;
  }

  ghost predicate AllParse(c: Codec, lines: seq<string>, keys: seq<Keypair>) {
    |lines| == |keys| && forall i | 0 <= i < |keys| :: KeypairFromStr(c, lines[i]) == Some(keys[i])
  }

  /** The first thing that is wrong with a file that does not decode. */
  function Complaint(c: Codec, data: Option<string>): string {
    if data == None then "Not found config"
    else if Lines(data.value) == [] then "Not found master wallet"
    else if KeypairFromStr(c, Lines(data.value)[0]) == None then "Not valid master keypair"
    else "Not valid keypair"
  }

  /** `data` is the file's content, None if it cannot be read. */
  method Decode(c: Codec, data: Option<string>) returns (r: Decoded)
    ensures r.Decoded? <==>
              && data.Some?
              && Lines(data.value) != []
              && forall l | l in Lines(data.value) :: KeypairFromStr(c, l).Some?
    ensures r.Failed? ==> r.reason == Complaint(c, data)
    ensures r.Decoded? ==> AllParse(c, Lines(data.value), [r.value.master] + r.value.puppets)
  {
    if data == None { return Failed("Not found config"); }
    var lines := Lines(data.value);
    if lines == [] { return Failed("Not found master wallet"); }
    var master := KeypairFromStr(c, lines[0]);
    if master == None {
      assert lines[0] in lines;
      return Failed("Not valid master keypair");
    }
    var puppets := [];
    for i := 1 to |lines|
      invariant AllParse(c, lines[..i], [master.value] + puppets)
    {
      var keypair := KeypairFromStr(c, lines[i]);
      if keypair == None {
        assert lines[i] in lines;
        return Failed("Not valid keypair");
      }
      puppets := puppets + [keypair.value];
      assert [master.value] + puppets == ([master.value] + puppets[..i - 1]) + [keypair.value];
    }
    assert lines[..|lines|] == lines;
    r := Decoded(PuppetMaster(master.value, puppets));
  }

  /** Reading the saved file returns the master and every puppet, in order, however many there are. */
  method SaveAndLoad(c: Codec, pm: PuppetMaster) returns (r: Decoded)
    requires Lawful(c)
    ensures r == Decoded(pm)
  {
    var buffer := Encode(c, pm);
    var keys := [pm.master] + pm.puppets;
    SavedLines(c, keys);
    r := Decode(c, Some(buffer));
    SameKeys(c, Lines(buffer), keys, [r.value.master] + r.value.puppets);
    assert r.value.puppets == ([r.value.master] + r.value.puppets)[1..];
    assert pm.puppets == keys[1..];
  }

  lemma SavedLines(c: Codec, keys: seq<Keypair>)
    requires Lawful(c)
    ensures Lines(Unlines(Texts(c, keys))) == Texts(c, keys)
    ensures AllParse(c, Texts(c, keys), keys)
  {
    LinesOfUnlines(Texts(c, keys));
    forall i | 0 <= i < |keys| ensures KeypairFromStr(c, Texts(c, keys)[i]) == Some(keys[i]) {
      assert Bytes(c, keys[i])[..32] == keys[i].seed;
    }
  }

  lemma SameKeys(c: Codec, lines: seq<string>, a: seq<Keypair>, b: seq<Keypair>)
    requires AllParse(c, lines, a) && AllParse(c, lines, b)
    ensures a == b
  {
    forall i | 0 <= i < |a| ensures a[i] == b[i] {
      assert KeypairFromStr(c, lines[i]) == Some(a[i]);
    }
  }
}
