/** Truncation on a rune boundary, against the definition of well-formed UTF-8 (section 4 of RFC 3629). */
module Utf8 {

  type Byte = b: int | 0 <= b < 256

  predicate Continuation(b: Byte) { 0x80 <= b <= 0xBF }

  /** utf8.RuneStart: any byte but a continuation byte. */
  predicate RuneStart(b: Byte) { !Continuation(b) }

  /** The length of the well-formed character at the front of s, or 0 if there is none. */
  function FirstLen(s: seq<Byte>): (n: nat)
    ensures n <= |s| && n <= 4
    ensures n > 0 ==> RuneStart(s[0]) && forall i :: 1 <= i < n ==> Continuation(s[i])
  {
    if s == [] then 0
    else if s[0] <= 0x7F then 1
    else if |s| >= 2 && 0xC2 <= s[0] <= 0xDF && Continuation(s[1]) then 2
    else if |s| >= 3 && Continuation(s[1]) && Continuation(s[2]) && (
      || (s[0] == 0xE0 && s[1] >= 0xA0)
      || 0xE1 <= s[0] <= 0xEC
      || (s[0] == 0xED && s[1] <= 0x9F)
      || 0xEE <= s[0] <= 0xEF) then 3
    else if |s| >= 4 && Continuation(s[1]) && Continuation(s[2]) && Continuation(s[3]) && (
      || (s[0] == 0xF0 && s[1] >= 0x90)
      || 0xF1 <= s[0] <= 0xF3
      || (s[0] == 0xF4 && s[1] <= 0x8F)) then 4
    else 0
  }

  predicate Valid(s: seq<Byte>) {
    s == [] || (FirstLen(s) > 0 && Valid(s[FirstLen(s)..]))
  }

  // ------------------------------------------- against the encoding itself

  /** A Unicode scalar value: any code point but the surrogates. */
  type Scalar = c: int | 0 <= c <= 0x10FFFF && !(0xD800 <= c <= 0xDFFF)

  /** The bytes of one character (the table in section 3 of RFC 3629). */
  function Encoded(c: Scalar): (s: seq<Byte>)
    ensures 1 <= |s| <= 4
  {
    if c < 0x80 then [c]
    else if c < 0x800 then [0xC0 + c / 64, 0x80 + c % 64]
    else if c < 0x10000 then [0xE0 + c / 4096, 0x80 + c / 64 % 64, 0x80 + c % 64]
    else [0xF0 + c / 262144, 0x80 + c / 4096 % 64, 0x80 + c / 64 % 64, 0x80 + c % 64]
  }

  function EncodedAll(cs: seq<Scalar>): seq<Byte> {
    if cs == [] then [] else Encoded(cs[0]) + EncodedAll(cs[1..])
  }

  lemma EncodedIsFirst(c: Scalar, rest: seq<Byte>)
    ensures FirstLen(Encoded(c) + rest) == |Encoded(c)|
  {
    var s := Encoded(c) + rest;
    if 0x80 <= c < 0x800 {
      FirstOfTwo(c, s);
    } else if 0x800 <= c < 0x10000 {
      FirstOfThree(c, s);
    } else if 0x10000 <= c {
      FirstOfFour(c, s);
    }
  }

  lemma FirstOfTwo(c: Scalar, s: seq<Byte>)
    requires 0x80 <= c < 0x800 && |s| >= 2 && s[0] == 0xC0 + c / 64 && s[1] == 0x80 + c % 64
    ensures FirstLen(s) == 2
  {
  }

  lemma FirstOfThree(c: Scalar, s: seq<Byte>)
    requires 0x800 <= c < 0x10000 && |s| >= 3
    requires s[0] == 0xE0 + c / 4096 && s[1] == 0x80 + c / 64 % 64 && s[2] == 0x80 + c % 64
    ensures FirstLen(s) == 3
  {
  }

  lemma FirstOfFour(c: Scalar, s: seq<Byte>)
    requires 0x10000 <= c && |s| >= 4
    requires s[0] == 0xF0 + c / 262144 && s[1] == 0x80 + c / 4096 % 64
    requires s[2] == 0x80 + c / 64 % 64 && s[3] == 0x80 + c % 64
    ensures FirstLen(s) == 4
  {
  }

  lemma Sixes(x: int, y: int, z: int, w: int)
    requires 0 <= y < 64 && 0 <= z < 64 && 0 <= w < 64
    ensures (x * 64 + y) / 64 == x && (x * 64 + y) % 64 == y
    ensures (x * 4096 + y * 64 + z) / 4096 == x && (x * 4096 + y * 64 + z) / 64 == x * 64 + y
    ensures (x * 262144 + y * 4096 + z * 64 + w) / 262144 == x
    ensures (x * 262144 + y * 4096 + z * 64 + w) / 4096 == x * 64 + y
    ensures (x * 262144 + y * 4096 + z * 64 + w) / 64 == x * 4096 + y * 64 + z
  {
  }

  lemma FirstIsEncoded(s: seq<Byte>) returns (c: Scalar)
    requires FirstLen(s) > 0
    ensures s[..FirstLen(s)] == Encoded(c)
  {
    var n := FirstLen(s);
    var x: int := s[0];
    if n == 1 {
      c := x;
    } else if n == 2 {
      c := OfTwo(s);
    } else if n == 3 {
      c := OfThree(s);
    } else {
      c := OfFour(s);
    }
  }

  lemma OfTwo(s: seq<Byte>) returns (c: Scalar)
    requires FirstLen(s) == 2
    ensures s[..2] == Encoded(c)
  {
    var x: int, y: int := s[0], s[1];
    x, y := x - 0xC0, y - 0x80;
    Sixes(x, y, 0, 0);
    c := x * 64 + y;
  }

  lemma OfThree(s: seq<Byte>) returns (c: Scalar)
    requires FirstLen(s) == 3
    ensures s[..3] == Encoded(c)
  {
    var x: int, y: int, z: int := s[0], s[1], s[2];
    x, y, z := x - 0xE0, y - 0x80, z - 0x80;
    Sixes(x, y, z, 0);
    Sixes(x, y, 0, 0);
    Sixes(x * 64 + y, z, 0, 0);
    c := x * 4096 + y * 64 + z;
  }

  lemma OfFour(s: seq<Byte>) returns (c: Scalar)
    requires FirstLen(s) == 4
    ensures s[..4] == Encoded(c)
  {
    var x: int, y: int, z: int, w: int := s[0], s[1], s[2], s[3];
    x, y, z, w := x - 0xF0, y - 0x80, z - 0x80, w - 0x80;
    Sixes(x, y, z, w);
    Sixes(x * 64 + y, z, 0, 0);
    Sixes(x * 4096 + y * 64 + z, w, 0, 0);
    c := x * 262144 + y * 4096 + z * 64 + w;
  }

  /** Well-formed text is the encoding of some characters, and nothing else is well-formed. */
  lemma {:induction false} ValidIsEncoding(s: seq<Byte>) returns (cs: seq<Scalar>)
    requires Valid(s)
    ensures s == EncodedAll(cs)
  {
    if s == [] {
      cs := [];
    } else {
      var n := FirstLen(s);
      var c := FirstIsEncoded(s);
      var rest := ValidIsEncoding(s[n..]);
      cs := [c] + rest;
      assert s == s[..n] + s[n..];
    }
  }

  lemma {:induction false} EncodingIsValid(cs: seq<Scalar>)
    ensures Valid(EncodedAll(cs))
  {
    if cs != [] {
      var rest := EncodedAll(cs[1..]);
      EncodingIsValid(cs[1..]);
      EncodedIsFirst(cs[0], rest);
      assert (Encoded(cs[0]) + rest)[|Encoded(cs[0])|..] == rest;
    }
  }

  /** What the front character is does not depend on the bytes after it, nor survive losing its own. */
  lemma FirstLenPrefix(s: seq<Byte>, m: nat)
    requires m <= |s| && FirstLen(s) > 0
    ensures m >= FirstLen(s) ==> FirstLen(s[..m]) == FirstLen(s)
    ensures m < FirstLen(s) ==> FirstLen(s[..m]) == 0
  {
  }

  /** In well-formed text, the valid prefixes end exactly where a rune starts. */
  lemma {:induction false} PrefixValidIff(s: seq<Byte>, m: nat)
    requires Valid(s) && m < |s|
    ensures Valid(s[..m]) <==> RuneStart(s[m])
  {
    var n := FirstLen(s);
    FirstLenPrefix(s, m);
    if n < m {
      PrefixValidIff(s[n..], m - n);
      assert s[..m][n..] == s[n..][..m - n];
    } else if n == m {
      assert s[..m][n..] == [];
      assert FirstLen(s[n..]) > 0;
      assert s[n..][0] == s[m];
    }
  }

  /** The cut of any byte string: the last rune start at or before n, or 0. */
  ghost predicate CutAt(s: seq<Byte>, n: nat, m: nat)
    requires n < |s|
  {
    && m <= n
    && (m == 0 || RuneStart(s[m]))
    && (forall i :: m < i <= n ==> Continuation(s[i]))
  }

  /** truncateUTF8. */
  method TruncateUTF8(s: seq<Byte>, n: nat) returns (r: seq<Byte>)
    ensures |s| <= n ==> r == s
    ensures |s| > n ==> exists m: nat :: CutAt(s, n, m) && r == s[..m]
    ensures r == Truncated(s, n)
  {
    if |s| <= n {
      return s;
    }
    var m := n;
    while m > 0 && !RuneStart(s[m])
      invariant 0 <= m <= n
      invariant forall i :: m < i <= n ==> Continuation(s[i])
      invariant Truncated(s, n) == Truncated(s, m)
    {
      m := m - 1;
    }
    r := s[..m];
    assert CutAt(s, n, m);
  }

  /** The cut as a function, for use in specifications. */
  function Truncated(s: seq<Byte>, n: nat): (r: seq<Byte>)
    ensures r <= s && |r| <= n
  {
    if |s| <= n then s
    else if n > 0 && !RuneStart(s[n]) then Truncated(s, n - 1)
    else s[..n]
  }

  /** On well-formed text the cut is the longest well-formed prefix of at most n bytes. */
  lemma TruncatedIsLongestValid(s: seq<Byte>, n: nat, q: nat)
    requires Valid(s) && q <= |s|
    ensures Valid(Truncated(s, n))
    ensures q <= n && Valid(s[..q]) ==> q <= |Truncated(s, n)|
  {
    if |s| > n {
      TruncatedCut(s, n);
      var m := |Truncated(s, n)|;
      PrefixValidIff(s, m);
      assert s[..0] == [];
      if m < q <= n {
        PrefixValidIff(s, q);
      }
    }
  }

  lemma {:induction false} TruncatedCut(s: seq<Byte>, n: nat)
    requires n < |s|
    ensures CutAt(s, n, |Truncated(s, n)|) && Truncated(s, n) == s[..|Truncated(s, n)|]
  {
    if n > 0 && !RuneStart(s[n]) {
      TruncatedCut(s, n - 1);
    }
  }

  /** A well-formed text has a rune start among any four consecutive bytes. */
  lemma {:induction false} RuneStartNearby(s: seq<Byte>, m: nat)
    requires Valid(s) && m < |s|
    ensures exists i: nat :: m - 3 <= i <= m && RuneStart(s[i])
  {
    var n := FirstLen(s);
    if n <= m {
      RuneStartNearby(s[n..], m - n);
      var i: nat :| m - n - 3 <= i <= m - n && RuneStart(s[n..][i]);
      assert RuneStart(s[i + n]);
    } else {
      assert RuneStart(s[0]);
    }
  }

  /** Cutting well-formed text gives up at most three bytes. */
  lemma TruncatedLosesLittle(s: seq<Byte>, n: nat)
    requires Valid(s) && n < |s|
    ensures |Truncated(s, n)| >= n - 3
  {
    TruncatedCut(s, n);
    RuneStartNearby(s, n);
  }
}
