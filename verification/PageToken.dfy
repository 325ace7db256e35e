/**
  The opaque page token: base64 (section 4 of RFC 4648) of a timestamp (section 5.6
  of RFC 3339, fraction trimmed), a bar and a UUID (section 4 of RFC 9562).  Text is
  a sequence of ASCII codes.
 */
module PageToken {
  import opened Prelude
  import opened Utf8

  const PAD: Byte := 61
  const BAR: Byte := 124
  const DASH: Byte := 45
  const COLON: Byte := 58
  const DOT: Byte := 46
  const LETTER_T: Byte := 84
  const LETTER_Z: Byte := 90
  const ZERO: Byte := 48

  type Text = seq<Byte>

  datatype Error = BadBase64 | BadFormat | BadTimestamp | BadUuid

  /** Every code of the text is at most the bound. */
  predicate AtMost(s: Text, bound: int) { forall i :: 0 <= i < |s| ==> s[i] <= bound }

  // ---------------------------------------------------------------- base64

  type Sextet = v: int | 0 <= v < 64

  function Char64(v: Sextet): (c: Byte)
    ensures c != PAD && c != 10 && c != 13
  {
    (if v < 26 then 65 + v
     else if v < 52 then 97 + (v - 26)
     else if v < 62 then 48 + (v - 52)
     else if v == 62 then 43 else 47)
  }

  function Value64(c: Byte): Option<Sextet> {
    var x := c;
    if 65 <= x <= 90 then Some(x - 65)
    else if 97 <= x <= 122 then Some(x - 97 + 26)
    else if 48 <= x <= 57 then Some(x - 48 + 52)
    else if x == 43 then Some(62)
    else if x == 47 then Some(63)
    else None
  }

  function EncodeBase64(s: Text): Text {
    if |s| == 0 then []
    else if |s| == 1 then
      var a := s[0];
      [Char64(a / 4), Char64(a % 4 * 16), PAD, PAD]
    else if |s| == 2 then
      var a, b := s[0], s[1];
      [Char64(a / 4), Char64(a % 4 * 16 + b / 16), Char64(b % 16 * 4), PAD]
    else
      Quantum(s[0], s[1], s[2]) + EncodeBase64(s[3..])
  }

  /** Three bytes as four characters. */
  function Quantum(a: Byte, b: Byte, c: Byte): Text {
    [Char64(a / 4), Char64(a % 4 * 16 + b / 16), Char64(b % 16 * 4 + c / 64), Char64(c % 64)]
  }

  /** The decoder skips line breaks wherever they are. */
  function WithoutBreaks(t: Text): Text {
    if t == [] then [] else (if t[0] == 10 || t[0] == 13 then [] else [t[0]]) + WithoutBreaks(t[1..])
  }

  function DecodeBase64(t: Text): Result<Text, Error> { DecodeQuanta(WithoutBreaks(t)) }

  /** The three bytes in four sextets. */
  function First(p: Sextet, q: Sextet): Byte { p * 4 + q / 16 }

  function Second(q: Sextet, u: Sextet): Byte { q % 16 * 16 + u / 4 }

  function Third(u: Sextet, v: Sextet): Byte { u % 4 * 64 + v }

  /** Four characters to three bytes; padding only at the very end. */
  function DecodeQuanta(t: Text): Result<Text, Error> {
    if t == [] then Ok([])
    else if |t| < 4 then Err(BadBase64)
    else
      var p, q, u, v := Value64(t[0]), Value64(t[1]), Value64(t[2]), Value64(t[3]);
      if p.None? || q.None? then Err(BadBase64)
      else
        var a := First(p.value, q.value);
        if |t| == 4 && t[2] == PAD && t[3] == PAD then Ok([a])
        else if u.None? then Err(BadBase64)
        else
          var b := Second(q.value, u.value);
          if |t| == 4 && t[3] == PAD then Ok([a, b])
          else if v.None? then Err(BadBase64)
          else
            var c := Third(u.value, v.value);
            match DecodeQuanta(t[4..])
            case Ok(rest) => Ok([a, b, c] + rest)
            case Err(e) => Err(e)
  }

  lemma Value64OfChar64(v: Sextet)
    ensures Value64(Char64(v)) == Some(v)
  {
  }

  lemma {:induction false} NothingToSkip(t: Text)
    requires forall i :: 0 <= i < |t| ==> t[i] != 10 && t[i] != 13
    ensures WithoutBreaks(t) == t
  {
    if t != [] {
      NothingToSkip(t[1..]);
    }
  }

  lemma {:induction false} NoBreaks(s: Text, i: nat)
    requires i < |EncodeBase64(s)|
    ensures EncodeBase64(s)[i] != 10 && EncodeBase64(s)[i] != 13
  {
    if |s| > 2 && i >= 4 {
      NoBreaks(s[3..], i - 4);
    }
  }

  /** The alphabet of table 1 in section 4 of RFC 4648: A to Z, a to z, 0 to 9, plus, slash. */
  lemma StandardAlphabet(v: nat)
    requires v < 63
    ensures Char64(0) == 'A' as int && Char64(25) == 'Z' as int && Char64(26) == 'a' as int && Char64(51) == 'z' as int
    ensures Char64(52) == '0' as int && Char64(61) == '9' as int && Char64(62) == '+' as int && Char64(63) == '/' as int
    ensures v != 25 && v != 51 && v != 61 && v != 62 ==> Char64(v + 1) == Char64(v) + 1
  {
  }

  /** Four characters for every three bytes begun. */
  lemma {:induction false} EncodedLength(s: Text)
    ensures |EncodeBase64(s)| == (|s| + 2) / 3 * 4
  {
    if |s| > 2 {
      EncodedLength(s[3..]);
    }
  }

  /** Read as one number in base 64, the characters of a quantum are its bytes read in base 256. */
  lemma QuantumIsNumber(a: Byte, b: Byte, c: Byte)
    ensures var t := Quantum(a, b, c);
      && Value64(t[0]).Some? && Value64(t[1]).Some? && Value64(t[2]).Some? && Value64(t[3]).Some?
      && ((Value64(t[0]).value * 64 + Value64(t[1]).value) * 64 + Value64(t[2]).value) * 64 + Value64(t[3]).value
           == (a * 256 + b) * 256 + c
  {
    Value64OfChar64(a / 4);
    Value64OfChar64(a % 4 * 16 + b / 16);
    Value64OfChar64(b % 16 * 4 + c / 64);
    Value64OfChar64(c % 64);
  }

  /** Base64 decoding undoes encoding, for every byte string. */
  lemma Base64RoundTrip(s: Text)
    ensures DecodeBase64(EncodeBase64(s)) == Ok(s)
  {
    forall i | 0 <= i < |EncodeBase64(s)| {
      NoBreaks(s, i);
    }
    NothingToSkip(EncodeBase64(s));
    QuantaRoundTrip(s);
  }

  lemma Sextets(a: Byte, b: Byte, c: Byte)
    ensures First(a / 4, a % 4 * 16 + b / 16) == a
    ensures Second(a % 4 * 16 + b / 16, b % 16 * 4 + c / 64) == b
    ensures Third(b % 16 * 4 + c / 64, c % 64) == c
  {
  }

  lemma {:induction false} QuantaRoundTrip(s: Text)
    ensures DecodeQuanta(EncodeBase64(s)) == Ok(s)
  {
    var t := EncodeBase64(s);
    if |s| == 1 {
      OneByte(s, t);
    } else if |s| == 2 {
      TwoBytes(s, t);
    } else if |s| > 2 {
      QuantaRoundTrip(s[3..]);
      MoreBytes(s, t, s[3..]);
    }
  }

  lemma MoreBytes(s: Text, t: Text, rest: Text)
    requires |s| > 2 && rest == s[3..] && DecodeQuanta(EncodeBase64(rest)) == Ok(rest) && t == EncodeBase64(s)
    ensures DecodeQuanta(t) == Ok(s)
  {
    FullQuantum(s[0], s[1], s[2], EncodeBase64(rest), rest, t);
    assert s == [s[0], s[1], s[2]] + rest;
  }

  lemma OneByte(s: Text, t: Text)
    requires |s| == 1 && t == EncodeBase64(s)
    ensures DecodeQuanta(t) == Ok(s)
  {
    var a := s[0];
    Sextets(a, 0, 0);
    Value64OfChar64(a / 4);
    Value64OfChar64(a % 4 * 16);
    DecodeTwo(t, a / 4, a % 4 * 16);
    assert s == [a];
  }

  lemma TwoBytes(s: Text, t: Text)
    requires |s| == 2 && t == EncodeBase64(s)
    ensures DecodeQuanta(t) == Ok(s)
  {
    var a, b := s[0], s[1];
    Sextets(a, b, 0);
    Value64OfChar64(a / 4);
    Value64OfChar64(a % 4 * 16 + b / 16);
    Value64OfChar64(b % 16 * 4);
    DecodeThree(t, a / 4, a % 4 * 16 + b / 16, b % 16 * 4);
    assert s == [a, b];
  }

  lemma DecodeTwo(t: Text, p: Sextet, q: Sextet)
    requires |t| == 4 && Value64(t[0]) == Some(p) && Value64(t[1]) == Some(q) && t[2] == PAD && t[3] == PAD
    ensures DecodeQuanta(t) == Ok([First(p, q)])
  {
  }

  lemma DecodeThree(t: Text, p: Sextet, q: Sextet, u: Sextet)
    requires |t| == 4 && Value64(t[0]) == Some(p) && Value64(t[1]) == Some(q)
    requires Value64(t[2]) == Some(u) && t[3] == PAD
    ensures DecodeQuanta(t) == Ok([First(p, q), Second(q, u)])
  {
  }

  lemma FullQuantum(a: Byte, b: Byte, c: Byte, tail: Text, rest: Text, t: Text)
    requires DecodeQuanta(tail) == Ok(rest) && t == Quantum(a, b, c) + tail
    ensures DecodeQuanta(t) == Ok([a, b, c] + rest)
  {
    Sextets(a, b, c);
    Value64OfChar64(a / 4);
    Value64OfChar64(a % 4 * 16 + b / 16);
    Value64OfChar64(b % 16 * 4 + c / 64);
    Value64OfChar64(c % 64);
    assert t[4..] == tail;
    DecodeFour(t, a / 4, a % 4 * 16 + b / 16, b % 16 * 4 + c / 64, c % 64, rest);
  }

  lemma DecodeFour(t: Text, p: Sextet, q: Sextet, u: Sextet, v: Sextet, rest: Text)
    requires |t| >= 4 && DecodeQuanta(t[4..]) == Ok(rest)
    requires Value64(t[0]) == Some(p) && Value64(t[1]) == Some(q)
    requires Value64(t[2]) == Some(u) && Value64(t[3]) == Some(v)
    ensures DecodeQuanta(t) == Ok([First(p, q), Second(q, u), Third(u, v)] + rest)
  {
  }

  // ----------------------------------------------------------------- split

  /** strings.Split on the bar. */
  function Split(s: Text): (parts: seq<Text>)
    ensures |parts| >= 1
  {
    if s == [] then [[]]
    else
      var rest := Split(s[1..]);
      if s[0] == BAR then [[]] + rest else [[s[0]] + rest[0]] + rest[1..]
  }

  lemma {:induction false} SplitNone(s: Text)
    requires BAR !in s
    ensures Split(s) == [s]
  {
    if s != [] {
      SplitNone(s[1..]);
      assert [s[0]] + s[1..] == s;
    }
  }

  /** Two texts without a bar, joined by one, split into just those two. */
  lemma {:induction false} SplitJoined(a: Text, b: Text)
    requires BAR !in a && BAR !in b
    ensures Split(a + [BAR] + b) == [a, b]
  {
    var s := a + [BAR] + b;
    if a == [] {
      assert s[1..] == b;
      SplitNone(b);
    } else {
      assert s[1..] == a[1..] + [BAR] + b;
      SplitJoined(a[1..], b);
      assert [a[0]] + a[1..] == a;
    }
  }

  // --------------------------------------------------------------- numbers

  function Pow10(n: nat): (p: nat)
    ensures p >= 1
  {
    if n == 0 then 1 else 10 * Pow10(n - 1)
  }

  /** The last width decimal digits of v. */
  function Digits(v: nat, width: nat): (s: Text)
    ensures |s| == width && forall i :: 0 <= i < width ==> 48 <= s[i] <= 57
    decreases width
  {
    if width == 0 then [] else Digits(v / 10, width - 1) + [(48 + v % 10)]
  }

  function Two(v: nat): Text { [48 + v / 10 % 10, 48 + v % 10] }

  function Four(v: nat): Text { Two(v / 100) + Two(v % 100) }

  function Number(s: Text): Option<nat> { NumberUpTo(s, |s|) }

  /** The number the first n characters write, if they are all digits. */
  function NumberUpTo(s: Text, n: nat): Option<nat>
    requires n <= |s|
  {
    if n == 0 then Some(0)
    else
      var high, d := NumberUpTo(s, n - 1), s[n - 1];
      if high.None? || d < 48 || d > 57 then None else Some(high.value * 10 + (d - 48))
  }

  lemma {:induction false} NumberOfPrefix(s: Text, t: Text, n: nat)
    requires n <= |s| && s <= t
    ensures NumberUpTo(t, n) == NumberUpTo(s, n)
  {
    if n > 0 {
      NumberOfPrefix(s, t, n - 1);
    }
  }

  lemma {:induction false} ShorterNumber(s: Text, n: nat, m: nat)
    requires n <= m <= |s| && NumberUpTo(s, m).Some?
    ensures NumberUpTo(s, n).Some?
  {
    if n < m {
      ShorterNumber(s, n, m - 1);
    }
  }

  lemma {:induction false} NumberOfDigits(v: nat, width: nat)
    requires v < Pow10(width)
    ensures Number(Digits(v, width)) == Some(v)
    decreases width
  {
    if width > 0 {
      Tenth(v, Pow10(width - 1));
      NumberOfDigits(v / 10, width - 1);
      NumberSnoc(Digits(v / 10, width - 1), v % 10);
    }
  }

  lemma Tenth(v: nat, p: nat)
    requires v < 10 * p
    ensures v / 10 < p && v / 10 * 10 + v % 10 == v
  {
  }

  lemma NumberSnoc(s: Text, d: nat)
    requires d < 10 && Number(s).Some?
    ensures Number(s + [48 + d]) == Some(Number(s).value * 10 + d)
  {
    NumberOfPrefix(s, s + [48 + d], |s|);
  }

  lemma NumberOfTwo(v: nat)
    requires v < 100
    ensures Number(Two(v)) == Some(v)
  {
    assert Number([]) == Some(0);
    NumberSnoc([], v / 10);
    assert [] + [48 + v / 10] == [48 + v / 10];
    NumberSnoc([48 + v / 10], v % 10);
    assert [48 + v / 10] + [48 + v % 10] == Two(v);
  }

  lemma NumberOfFour(v: nat)
    requires v < 10_000
    ensures Number(Four(v)) == Some(v)
  {
    var high, low := v / 100, v % 100;
    NumberOfTwo(high);
    NumberSnoc(Two(high), low / 10);
    NumberSnoc(Two(high) + [48 + low / 10], low % 10);
    assert Two(high) + [48 + low / 10] + [48 + low % 10] == Four(v);
  }

  function TrimZeros(s: Text): (t: Text)
    ensures t <= s
  {
    if s == [] || s[|s| - 1] != ZERO then s else TrimZeros(s[..|s| - 1])
  }

  /** Nine digits of a fraction: zeros added, or the excess cut off. */
  function ToNine(s: Text): (t: Text)
    ensures |t| == 9
    decreases 9 - |s|
  {
    if |s| >= 9 then s[..9] else ToNine(s + [ZERO])
  }

  lemma {:induction false} TrimmedToNine(s: Text)
    requires |s| <= 9
    ensures ToNine(TrimZeros(s)) == ToNine(s)
  {
    if s != [] && s[|s| - 1] == ZERO {
      var t := s[..|s| - 1];
      TrimmedToNine(t);
      assert t + [ZERO] == s;
    }
  }

  lemma {:induction false} TrimmedAway(s: Text, i: nat)
    requires TrimZeros(s) == [] && i < |s|
    ensures s[i] == ZERO
  {
    if i < |s| - 1 {
      TrimmedAway(s[..|s| - 1], i);
    }
  }

  lemma {:induction false} NumberOfZeros(s: Text, n: nat)
    requires n <= |s| && TrimZeros(s) == []
    ensures NumberUpTo(s, n) == Some(0)
  {
    if n > 0 {
      NumberOfZeros(s, n - 1);
      TrimmedAway(s, n - 1);
    }
  }

  // ------------------------------------------------------------- timestamp

  /** A UTC instant by its calendar fields. */
  datatype Instant = Instant(year: nat, month: nat, day: nat, hour: nat, minute: nat, second: nat, nanos: nat)

  function DaysIn(year: nat, month: nat): nat {
    if month == 2 then (if year % 4 == 0 && (year % 100 != 0 || year % 400 == 0) then 29 else 28)
    else if month == 4 || month == 6 || month == 9 || month == 11 then 30
    else 31
  }

  predicate InRange(t: Instant) {
    && t.year <= 9999 && 1 <= t.month <= 12 && 1 <= t.day <= DaysIn(t.year, t.month)
    && t.hour <= 23 && t.minute <= 59 && t.second <= 59 && t.nanos < 1_000_000_000
  }

  /** No fraction at all for a whole second, else a dot and the digits up to the last nonzero. */
  function Fraction(nanos: nat): (s: Text)
    ensures AtMost(s, 57)
  {
    if nanos == 0 then [] else [DOT] + TrimZeros(Digits(nanos, 9))
  }

  function Stem(t: Instant): (s: Text)
    ensures |s| == 19 && AtMost(s, 84)
  {
    Four(t.year) + [DASH] + Two(t.month) + [DASH] + Two(t.day) + [LETTER_T]
    + Two(t.hour) + [COLON] + Two(t.minute) + [COLON] + Two(t.second)
  }

  /** Format(RFC3339Nano) of a UTC time. */
  function FormatTime(t: Instant): (s: Text)
    ensures AtMost(s, 90)
  {
    Stem(t) + Fraction(t.nanos) + [LETTER_Z]
  }

  function ParseFraction(s: Text): Option<nat> {
    if s == [] then Some(0)
    else if s[0] != DOT || |s| == 1 || Number(s[1..]).None? then None
    else Number(ToNine(s[1..]))
  }

  function ParseTime(s: Text): (r: Result<Instant, Error>)
    ensures r.Ok? ==> InRange(r.value)
  {
    if |s| < 20 || s[|s| - 1] != LETTER_Z then Err(BadTimestamp)
    else if s[4] != DASH || s[7] != DASH || s[10] != LETTER_T || s[13] != COLON || s[16] != COLON then Err(BadTimestamp)
    else
      var year, month, day := Number(s[0..4]), Number(s[5..7]), Number(s[8..10]);
      var hour, minute, second := Number(s[11..13]), Number(s[14..16]), Number(s[17..19]);
      var nanos := ParseFraction(s[19..|s| - 1]);
      if year.None? || month.None? || day.None? || hour.None? || minute.None? || second.None? || nanos.None? then
        Err(BadTimestamp)
      else
        var t := Instant(year.value, month.value, day.value, hour.value, minute.value, second.value, nanos.value);
        if InRange(t) then Ok(t) else Err(BadTimestamp)
  }

  /** The decimal value of the digits from i to j. */
  predicate Reads(s: Text, i: nat, j: nat, v: nat)
    requires i <= j <= |s|
  {
    Number(s[i..j]) == Some(v)
  }

  /** Each field stands at its place, the fraction only if there is one, and Z at the end. */
  lemma TimeLayout(t: Instant)
    requires InRange(t)
    ensures var s := FormatTime(t);
      && |s| >= 20 && s[|s| - 1] == 'Z' as int && (|s| == 20 <==> t.nanos == 0)
      && Reads(s, 0, 4, t.year) && s[4] == '-' as int && Reads(s, 5, 7, t.month) && s[7] == '-' as int
      && Reads(s, 8, 10, t.day) && s[10] == 'T' as int && Reads(s, 11, 13, t.hour) && s[13] == ':' as int
      && Reads(s, 14, 16, t.minute) && s[16] == ':' as int && Reads(s, 17, 19, t.second)
      && (t.nanos > 0 ==> s[19] == '.' as int)
  {
    var s, tail := FormatTime(t), Fraction(t.nanos) + [LETTER_Z];
    assert s == Stem(t) + tail;
    StemFields(t, tail);
    NumberOfFour(t.year);
    NumberOfTwo(t.month);
    NumberOfTwo(t.day);
    NumberOfTwo(t.hour);
    NumberOfTwo(t.minute);
    NumberOfTwo(t.second);
    assert s[19..][0] == s[19];
  }

  /** A year is leap if divisible by 4, except centuries not divisible by 400. */
  lemma LeapDays(year: nat)
    ensures year % 400 == 0 ==> DaysIn(year, 2) == 29
    ensures year % 100 == 0 && year % 400 != 0 ==> DaysIn(year, 2) == 28
    ensures year % 100 != 0 ==> DaysIn(year, 2) == if year % 4 == 0 then 29 else 28
    ensures DaysIn(year, 1) + DaysIn(year, 3) + DaysIn(year, 4) + DaysIn(year, 5) + DaysIn(year, 6) + DaysIn(year, 7)
      + DaysIn(year, 8) + DaysIn(year, 9) + DaysIn(year, 10) + DaysIn(year, 11) + DaysIn(year, 12) == 337
  {
  }

  lemma FractionRoundTrip(nanos: nat)
    requires nanos < 1_000_000_000
    ensures ParseFraction(Fraction(nanos)) == Some(nanos)
  {
    if nanos != 0 {
      var d := Digits(nanos, 9);
      var t := TrimZeros(d);
      if t == [] {
        NumberOfZeros(d, 9);
      }
      NumberOfDigits(nanos, 9);
      TrimmedToNine(d);
      ShorterNumber(d, |t|, 9);
      NumberOfPrefix(t, d, |t|);
      assert d[..9] == d;
      assert Fraction(nanos)[1..] == t;
    }
  }

  /** The stem has each field at its fixed place. */
  lemma StemFields(t: Instant, tail: Text)
    ensures var s := Stem(t) + tail;
      && s[0..4] == Four(t.year) && s[5..7] == Two(t.month) && s[8..10] == Two(t.day)
      && s[11..13] == Two(t.hour) && s[14..16] == Two(t.minute) && s[17..19] == Two(t.second)
      && s[4] == DASH && s[7] == DASH && s[10] == LETTER_T && s[13] == COLON && s[16] == COLON
      && s[19..] == tail
  {
  }

  /** What parses to the instant: its fields' digits at their places. */
  lemma ParsesTo(s: Text, t: Instant)
    requires InRange(t) && |s| >= 20 && s[|s| - 1] == LETTER_Z
    requires s[4] == DASH && s[7] == DASH && s[10] == LETTER_T && s[13] == COLON && s[16] == COLON
    requires Reads(s, 0, 4, t.year) && Reads(s, 5, 7, t.month) && Reads(s, 8, 10, t.day)
    requires Reads(s, 11, 13, t.hour) && Reads(s, 14, 16, t.minute) && Reads(s, 17, 19, t.second)
    requires ParseFraction(s[19..|s| - 1]) == Some(t.nanos)
    ensures ParseTime(s) == Ok(t)
  {
  }

  lemma TimeRoundTrip(t: Instant)
    requires t.year <= 9999 && 1 <= t.month <= 12 && 1 <= t.day <= DaysIn(t.year, t.month)
    requires t.hour < 24 && t.minute < 60 && t.second < 60 && t.nanos < 1_000_000_000
    ensures ParseTime(FormatTime(t)) == Ok(t)
  {
    var s := FormatTime(t);
    TimeLayout(t);
    FractionRoundTrip(t.nanos);
    assert s[19..|s| - 1] == Fraction(t.nanos);
    ParsesTo(s, t);
  }

  // ------------------------------------------------------------------ uuid

  function HexDigit(v: int): (c: Byte)
    requires 0 <= v < 16
    ensures c != DASH && c <= 102
  {
    (if v < 10 then 48 + v else 87 + v)
  }

  function HexValue(c: Byte): (v: Option<int>)
    ensures v.Some? ==> 0 <= v.value < 16
  {
    var x := c;
    if 48 <= x <= 57 then Some(x - 48)
    else if 97 <= x <= 102 then Some(x - 87)
    else if 65 <= x <= 70 then Some(x - 55)
    else None
  }

  function Hex(s: seq<Byte>): (t: Text)
    ensures |t| == 2 * |s| && AtMost(t, 102)
  {
    if s == [] then [] else [HexDigit(s[0] / 16), HexDigit(s[0] % 16)] + Hex(s[1..])
  }

  function FromHex(t: Text): (r: Option<seq<Byte>>)
    ensures r.Some? ==> 2 * |r.value| == |t|
  {
    if t == [] then Some([])
    else if |t| == 1 then None
    else
      var high, low, rest := HexValue(t[0]), HexValue(t[1]), FromHex(t[2..]);
      if high.None? || low.None? || rest.None? then None
      else Some([(high.value * 16 + low.value)] + rest.value)
  }

  const HEX_DIGITS := "0123456789abcdef"

  /** Lower-case digits, the high half of the byte first. */
  lemma {:induction false} HexAt(s: seq<Byte>, i: nat)
    requires i < |s|
    ensures Hex(s)[2 * i] == HEX_DIGITS[s[i] / 16] as int && Hex(s)[2 * i + 1] == HEX_DIGITS[s[i] % 16] as int
  {
    if i > 0 {
      HexAt(s[1..], i - 1);
    }
  }

  /** Either case of a digit is read. */
  lemma HexOfEitherCase(v: nat)
    requires v < 16
    ensures HexValue(HEX_DIGITS[v] as int) == Some(v) && HexValue("0123456789ABCDEF"[v] as int) == Some(v)
  {
  }

  lemma {:induction false} HexRoundTrip(s: seq<Byte>)
    ensures FromHex(Hex(s)) == Some(s)
  {
    if s != [] {
      HexRoundTrip(s[1..]);
      assert Hex(s)[2..] == Hex(s[1..]);
      assert [s[0]] + s[1..] == s;
    }
  }

  type Uuid = u: seq<Byte> | |u| == 16 witness [0, 0, 0, 0, 0, 0, 0, 0, 0, 0, 0, 0, 0, 0, 0, 0]

  /** The 36-character form, 8-4-4-4-12. */
  function FormatUuid(u: Uuid): (s: Text)
    ensures |s| == 36 && AtMost(s, 102)
  {
    Hex(u[0..4]) + [DASH] + Hex(u[4..6]) + [DASH] + Hex(u[6..8]) + [DASH] + Hex(u[8..10]) + [DASH] + Hex(u[10..16])
  }

  function ParseUuid(s: Text): Result<Uuid, Error> {
    if |s| != 36 || s[8] != DASH || s[13] != DASH || s[18] != DASH || s[23] != DASH then Err(BadUuid)
    else
      var a, b, c := FromHex(s[0..8]), FromHex(s[9..13]), FromHex(s[14..18]);
      var d, e := FromHex(s[19..23]), FromHex(s[24..36]);
      if a.None? || b.None? || c.None? || d.None? || e.None? then Err(BadUuid)
      else Ok(a.value + b.value + c.value + d.value + e.value)
  }

  /** Each group sits at its fixed place between the dashes. */
  lemma Groups(a: Text, b: Text, c: Text, d: Text, e: Text)
    requires |a| == 8 && |b| == |c| == |d| == 4 && |e| == 12
    ensures var s := a + [DASH] + b + [DASH] + c + [DASH] + d + [DASH] + e;
      && s[0..8] == a && s[9..13] == b && s[14..18] == c && s[19..23] == d && s[24..36] == e
      && s[8] == DASH && s[13] == DASH && s[18] == DASH && s[23] == DASH
  {
  }

  /** Five groups of hexadecimal digits, for bytes 0 to 3, 4 and 5, 6 and 7, 8 and 9, and 10 to 15. */
  predicate Grouped(s: Text, u: Uuid) {
    && |s| == 36 && s[8] == DASH && s[13] == DASH && s[18] == DASH && s[23] == DASH
    && s[0..8] == Hex(u[0..4]) && s[9..13] == Hex(u[4..6]) && s[14..18] == Hex(u[6..8])
    && s[19..23] == Hex(u[8..10]) && s[24..36] == Hex(u[10..16])
  }

  lemma UuidGroups(u: Uuid)
    ensures Grouped(FormatUuid(u), u)
  {
    Groups(Hex(u[0..4]), Hex(u[4..6]), Hex(u[6..8]), Hex(u[8..10]), Hex(u[10..16]));
  }

  /** Where the digits of a byte stand. */
  function PlaceOf(i: nat): nat {
    2 * i + if i < 4 then 0 else if i < 6 then 1 else if i < 8 then 2 else if i < 10 then 3 else 4
  }

  lemma DigitsInGroups(s: Text, u: Uuid, i: nat)
    requires Grouped(s, u) && i < 16
    ensures s[PlaceOf(i)] == HEX_DIGITS[u[i] / 16] as int && s[PlaceOf(i) + 1] == HEX_DIGITS[u[i] % 16] as int
  {
    if i < 4 {
      GroupAt(s, 0, u[0..4], i);
    } else if i < 6 {
      GroupAt(s, 9, u[4..6], i - 4);
    } else if i < 8 {
      GroupAt(s, 14, u[6..8], i - 6);
    } else if i < 10 {
      GroupAt(s, 19, u[8..10], i - 8);
    } else {
      GroupAt(s, 24, u[10..16], i - 10);
    }
  }

  /** Two digits for each byte, a dash before the 9th, 13th, 17th and 21st digit. */
  lemma UuidLayout(u: Uuid, i: nat)
    requires i < 16
    ensures var s := FormatUuid(u);
      && s[8] == s[13] == s[18] == s[23] == '-' as int
      && s[PlaceOf(i)] == HEX_DIGITS[u[i] / 16] as int && s[PlaceOf(i) + 1] == HEX_DIGITS[u[i] % 16] as int
  {
    UuidGroups(u);
    DigitsInGroups(FormatUuid(u), u, i);
  }

  lemma GroupAt(s: Text, start: nat, bytes: seq<Byte>, k: nat)
    requires start + 2 * |bytes| <= |s| && s[start..start + 2 * |bytes|] == Hex(bytes) && k < |bytes|
    ensures s[start + 2 * k] == HEX_DIGITS[bytes[k] / 16] as int
    ensures s[start + 2 * k + 1] == HEX_DIGITS[bytes[k] % 16] as int
  {
    HexAt(bytes, k);
    assert s[start + 2 * k] == Hex(bytes)[2 * k] && s[start + 2 * k + 1] == Hex(bytes)[2 * k + 1];
  }

  lemma UuidRoundTrip(u: Uuid)
    ensures ParseUuid(FormatUuid(u)) == Ok(u)
  {
    Groups(Hex(u[0..4]), Hex(u[4..6]), Hex(u[6..8]), Hex(u[8..10]), Hex(u[10..16]));
    HexRoundTrip(u[0..4]);
    HexRoundTrip(u[4..6]);
    HexRoundTrip(u[6..8]);
    HexRoundTrip(u[8..10]);
    HexRoundTrip(u[10..16]);
    assert u[0..4] + u[4..6] + u[6..8] + u[8..10] + u[10..16] == u;
  }

  // ----------------------------------------------------------------- token

  datatype PageTokenData = PageTokenData(sortValue: Instant, id: Uuid)

  function EncodePageToken(sortValue: Instant, id: Uuid): Text {
    EncodeBase64(FormatTime(sortValue) + [BAR] + FormatUuid(id))
  }

  function DecodePageToken(token: Text): (r: Result<PageTokenData, Error>)
    ensures r.Ok? ==> InRange(r.value.sortValue)
  {
    match DecodeBase64(token)
    case Err(e) => Err(e)
    case Ok(decoded) =>
      var parts := Split(decoded);
      if |parts| != 2 then Err(BadFormat)
      else
        match ParseTime(parts[0])
        case Err(e) => Err(e)
        case Ok(sortValue) =>
          match ParseUuid(parts[1])
          case Err(e) => Err(e)
          case Ok(id) => Ok(PageTokenData(sortValue, id))
  }

  lemma NoBar(s: Text)
    requires AtMost(s, 102)
    ensures BAR !in s
  {
  }

  /** Decoding a token gives back the instant and the id it was made from. */
  lemma TokenRoundTrip(sortValue: Instant, id: Uuid)
    requires InRange(sortValue)
    ensures DecodePageToken(EncodePageToken(sortValue, id)) == Ok(PageTokenData(sortValue, id))
  {
    var time, uuid := FormatTime(sortValue), FormatUuid(id);
    Base64RoundTrip(time + [BAR] + uuid);
    NoBar(time);
    NoBar(uuid);
    SplitJoined(time, uuid);
    TimeRoundTrip(sortValue);
    UuidRoundTrip(id);
  }

  /** Under the base64 a token is the timestamp, a bar and the identifier. */
  lemma TokenLayout(sortValue: Instant, id: Uuid)
    ensures DecodeBase64(EncodePageToken(sortValue, id)) == Ok(FormatTime(sortValue) + ['|' as int] + FormatUuid(id))
  {
    Base64RoundTrip(FormatTime(sortValue) + [BAR] + FormatUuid(id));
  }
}
