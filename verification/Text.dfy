/** The string operations the program relies on: white space, trimming, NUL removal and lines. */
module TextOps {
  /** The Unicode White_Space property. */
  predicate IsWhite(c: char) {
    var n := c as int;
    || 0x09 <= n <= 0x0D || n == 0x20 || n == 0x85 || n == 0xA0 || n == 0x1680
    || 0x2000 <= n <= 0x200A || n == 0x2028 || n == 0x2029 || n == 0x202F || n == 0x205F || n == 0x3000
  }

  function TrimStart(s: string): string {
    if s != "" && IsWhite(s[0]) then TrimStart(s[1..]) else s
  }

  function TrimEnd(s: string): string {
    if s != "" && IsWhite(s[|s| - 1]) then TrimEnd(s[..|s| - 1]) else s
  }

  function Trim(s: string): string {
    TrimEnd(TrimStart(s))
  }

  predicate Trimmed(s: string) {
    s != "" ==> !IsWhite(s[0]) && !IsWhite(s[|s| - 1])
  }

  lemma {:induction false} TrimStartShape(s: string)
    ensures |TrimStart(s)| <= |s| && TrimStart(s) == s[|s| - |TrimStart(s)|..]
    ensures AllWhite(s[..|s| - |TrimStart(s)|])
    ensures TrimStart(s) != "" ==> !IsWhite(TrimStart(s)[0])
  {
    if s != "" && IsWhite(s[0]) {
      TrimStartShape(s[1..]);
      var n := |s| - |TrimStart(s)|;
      assert s[..n] == [s[0]] + s[1..][..n - 1];
    }
  }

  lemma {:induction false} TrimEndShape(s: string)
    ensures TrimEnd(s) <= s
    ensures AllWhite(s[|TrimEnd(s)|..])
    ensures TrimEnd(s) != "" ==> !IsWhite(TrimEnd(s)[|TrimEnd(s)| - 1])
  {
    if s != "" && IsWhite(s[|s| - 1]) {
      TrimEndShape(s[..|s| - 1]);
      var n := |TrimEnd(s)|;
      assert s[n..] == s[..|s| - 1][n..] + [s[|s| - 1]];
    }
  }

  predicate AllWhite(s: string) {
    forall c | c in s :: IsWhite(c)
  }

  /** Trimming removes white space from both ends and nothing else. */
  lemma TrimIsCore(s: string) returns (a: string, b: string)
    ensures AllWhite(a) && AllWhite(b) && s == a + Trim(s) + b
  {
    var rest := TrimStart(s);
    TrimStartShape(s);
    TrimEndShape(rest);
    var core := TrimEnd(rest);
    a, b := s[..|s| - |rest|], rest[|core|..];
    assert rest == core + b;
    assert s == a + rest;
    assert a + (core + b) == a + core + b;
  }

  /** What is left is trimmed, so all of it went, and a trimmed string is left alone. */
  lemma TrimCharacterized(s: string)
    ensures Trimmed(Trim(s))
    ensures forall c | c in Trim(s) :: c in s
    ensures Trim(s) == s <==> Trimmed(s)
  {
    TrimStartShape(s);
    TrimEndShape(TrimStart(s));
    if Trimmed(s) {
      assert TrimStart(s) == s;
    }
  }

  function DropNul(s: string): string {
    if s == "" then "" else (if s[0] == '\0' then "" else [s[0]]) + DropNul(s[1..])
  }

  lemma {:induction false} DropNulCharacterized(s: string)
    ensures '\0' !in DropNul(s)
    ensures |DropNul(s)| <= |s|
    ensures '\0' in s ==> |DropNul(s)| < |s|
    ensures DropNul(s) == s <==> '\0' !in s
  {
    if s != "" {
      DropNulCharacterized(s[1..]);
      assert s == [s[0]] + s[1..];
    }
  }

  /** Exactly the NULs go, and what stays keeps its order. */
  lemma {:induction false} DropNulJoins(a: string, b: string)
    ensures DropNul(a + b) == DropNul(a) + DropNul(b)
  {
    if a == "" {
      assert a + b == b;
    } else {
      DropNulJoins(a[1..], b);
      var first := if a[0] == '\0' then "" else [a[0]];
      assert (a + b)[1..] == a[1..] + b && (a + b)[0] == a[0];
      assert DropNul(a + b) == first + (DropNul(a[1..]) + DropNul(b));
      assert first + (DropNul(a[1..]) + DropNul(b)) == (first + DropNul(a[1..])) + DropNul(b);
    }
  }

  /** What every text goes through on its way into the database. */
  function Clean(s: string): string {
    Trim(DropNul(s))
  }

  predicate IsClean(s: string) {
    '\0' !in s && Trimmed(s)
  }

  /** Cleaning is idempotent, and its fixed points are the strings without NULs and outer white space. */
  lemma CleanIsIdempotent(s: string)
    ensures IsClean(Clean(s))
    ensures Clean(Clean(s)) == Clean(s)
    ensures Clean(s) == s <==> IsClean(s)
  {
    FixedPoints(s);
    FixedPoints(Clean(s));
  }

  /** Cleaning never lengthens, and shortens whatever it changes. */
  lemma CleanShortens(s: string)
    ensures |Clean(s)| <= |s|
    ensures |Clean(s)| == |s| <==> IsClean(s)
  {
    DropNulCharacterized(s);
    var a, b := TrimIsCore(DropNul(s));
    FixedPoints(s);
    if |Clean(s)| == |s| {
      assert a == "" && b == "";
      assert DropNul(s) == Clean(s);
    }
  }

  lemma FixedPoints(s: string)
    ensures IsClean(Clean(s))
    ensures Clean(s) == s <==> IsClean(s)
  {
    DropNulCharacterized(s);
    TrimCharacterized(DropNul(s));
    if Clean(s) == s {
      assert '\0' !in Clean(s);
    }
  }

  // ---------- Lines ----------

  /** The position of the first newline, or the length. */
  function LineEnd(s: string): (n: nat)
    ensures n <= |s| && '\n' !in s[..n] && (n < |s| ==> s[n] == '\n')
  {
    if s == "" || s[0] == '\n' then 0
    else
      var n := LineEnd(s[1..]) + 1;
      assert s[..n] == [s[0]] + s[1..][..n - 1];
      n
  }

  function DropReturn(s: string): string {
    if s != "" && s[|s| - 1] == '\r' then s[..|s| - 1] else s
  }

  /** Lines end at a newline, which may follow a carriage return; a last line may lack both. */
  function Lines(s: string): seq<string>
    decreases |s|
  {
    if s == "" then []
    else
      var n := LineEnd(s);
      if n == |s| then [s] else [DropReturn(s[..n])] + Lines(s[n + 1..])
  }

  predicate OneLine(s: string) {
    s != "" && '\n' !in s && s[|s| - 1] != '\r'
  }

  /** Each line followed by a newline. */
  function Unlines(ls: seq<string>): string {
    if ls == [] then "" else ls[0] + "\n" + Unlines(ls[1..])
  }

  /** The lines with newlines between them. */
  function Join(ls: seq<string>): string {
    if ls == [] then "" else if |ls| == 1 then ls[0] else ls[0] + "\n" + Join(ls[1..])
  }

  lemma {:induction false} LineEndIs(s: string, n: nat)
    requires n <= |s| && '\n' !in s[..n] && (n < |s| ==> s[n] == '\n')
    ensures LineEnd(s) == n
  {
    if n > 0 {
      assert s[0] == s[..n][0];
      assert s[1..][..n - 1] == s[..n][1..];
      LineEndIs(s[1..], n - 1);
    }
  }

  lemma LinesCons(l: string, rest: string)
    requires OneLine(l)
    ensures Lines(l + "\n" + rest) == [l] + Lines(rest)
  {
    var s := l + "\n" + rest;
    assert s[..|l|] == l && s[|l| + 1..] == rest;
    LineEndIs(s, |l|);
  }

  /** A newline ends a line, empty or not; a carriage return before it goes with it. */
  lemma LinesAt(l: string, rest: string)
    requires '\n' !in l
    ensures Lines(l + "\n" + rest)
         == [if l != "" && l[|l| - 1] == '\r' then l[..|l| - 1] else l] + Lines(rest)
  {
    var s := l + "\n" + rest;
    assert s[..|l|] == l && s[|l| + 1..] == rest;
    LineEndIs(s, |l|);
  }

  /** What follows the last newline is a line unless it is empty, and keeps a carriage return. */
  lemma LastLine(l: string)
    requires '\n' !in l
    ensures Lines(l) == if l == "" then [] else [l]
  {
    assert l[..|l|] == l;
    LineEndIs(l, |l|);
  }

  /** A carriage return before the newline belongs to the line end. */
  lemma LinesAfterReturn(l: string, rest: string)
    requires '\n' !in l
    ensures Lines(l + "\r\n" + rest) == [l] + Lines(rest)
  {
    var s := l + "\r\n" + rest;
    assert s[..|l| + 1] == l + "\r" && s[|l| + 2..] == rest;
    LineEndIs(s, |l| + 1);
    assert DropReturn(l + "\r") == l;
  }

  lemma {:induction false} LinesOfUnlines(ls: seq<string>)
    requires forall l | l in ls :: OneLine(l)
    ensures Lines(Unlines(ls)) == ls
  {
    if ls != [] {
      LinesOfUnlines(ls[1..]);
      LinesCons(ls[0], Unlines(ls[1..]));
    }
  }

  lemma {:induction false} LinesOfJoin(ls: seq<string>)
    requires forall l | l in ls :: OneLine(l)
    ensures Lines(Join(ls)) == ls
  {
    if |ls| == 1 {
      assert ls[0] in ls;
      assert ls[0][..|ls[0]|] == ls[0];
      LineEndIs(ls[0], |ls[0]|);
    } else if |ls| > 1 {
      LinesOfJoin(ls[1..]);
      LinesCons(ls[0], Join(ls[1..]));
    }
  }

  /** No line contains a newline. */
  lemma {:induction false} LinesAreSingle(s: string)
    ensures forall l | l in Lines(s) :: '\n' !in l
    decreases |s|
  {
    if s != "" {
      var n := LineEnd(s);
      if n == |s| {
        assert s[..n] == s;
      } else {
        LinesAreSingle(s[n + 1..]);
        forall l | l in Lines(s) ensures '\n' !in l {
          if l == DropReturn(s[..n]) {
            assert l <= s[..n];
          }
        }
      }
    }
  }
}
