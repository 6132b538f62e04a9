/** The escapes of a JSON string that name a character by its code, read against
    UTF-16 (section 7 of RFC 8259) and UTF-8 (section 3 of RFC 3629). */
module JsonUnicode {
  import opened Json
  import opened JsonParsing
  import opened JsonRoundTrip

  // ----- UTF-8

  datatype Scalar = Scalar(code: nat) | Malformed

  predicate IsTail(c: char) {
    0x80 <= c as int < 0xc0
  }

  /** A code point that is not half of a surrogate pair. */
  predicate IsScalar(code: int) {
    0 <= code < 0x110000 && !(0xd800 <= code < 0xe000)
  }

  /** The code a well-formed UTF-8 sequence stands for: the shortest form only, and
      no surrogates. */
  function FromUtf8(b: string): Scalar {
    if |b| == 1 && b[0] as int < 0x80 then Scalar(b[0] as int)
    else if |b| == 2 && 0xc2 <= b[0] as int < 0xe0 && IsTail(b[1]) then
      Scalar((b[0] as int - 0xc0) * 0x40 + (b[1] as int - 0x80))
    else if |b| == 3 && 0xe0 <= b[0] as int < 0xf0 && IsTail(b[1]) && IsTail(b[2]) then
      var code := (b[0] as int - 0xe0) * 0x1000 + (b[1] as int - 0x80) * 0x40 + (b[2] as int - 0x80);
      if code >= 0x800 && IsScalar(code) then Scalar(code) else Malformed
    else if |b| == 4 && 0xf0 <= b[0] as int < 0xf5 && IsTail(b[1]) && IsTail(b[2]) && IsTail(b[3]) then
      var code := (b[0] as int - 0xf0) * 0x40000 + (b[1] as int - 0x80) * 0x1000
                  + (b[2] as int - 0x80) * 0x40 + (b[3] as int - 0x80);
      if code >= 0x10000 && IsScalar(code) then Scalar(code) else Malformed
    else Malformed
  }

  /** The six-bit groups of a code put it together again. */
  lemma SixBits(n: nat)
    requires n < 0x110000
    ensures n == n / 64 * 0x40 + n % 64
    ensures n == n / 4096 * 0x1000 + n / 64 % 64 * 0x40 + n % 64
    ensures n == n / 262144 * 0x40000 + n / 4096 % 64 * 0x1000 + n / 64 % 64 * 0x40 + n % 64
    ensures n < 0x10000 ==> n / 4096 < 16
    ensures n / 262144 < 5
  {
    assert n / 4096 == n / 64 / 64 && n / 262144 == n / 64 / 64 / 64;
  }

  lemma TwoBytes(a: nat, b: nat)
    requires 2 <= a < 32 && b < 64
    ensures FromUtf8([(0xc0 + a) as char, (0x80 + b) as char]) == Scalar(a * 0x40 + b)
  {
  }

  lemma ThreeBytes(a: nat, b: nat, c: nat)
    requires a < 16 && b < 64 && c < 64
    ensures var code := a * 0x1000 + b * 0x40 + c;
            FromUtf8([(0xe0 + a) as char, (0x80 + b) as char, (0x80 + c) as char]) ==
            if code >= 0x800 && IsScalar(code) then Scalar(code) else Malformed
  {
  }

  lemma FourBytes(a: nat, b: nat, c: nat, d: nat)
    requires a < 5 && b < 64 && c < 64 && d < 64
    ensures var code := a * 0x40000 + b * 0x1000 + c * 0x40 + d;
            FromUtf8([(0xf0 + a) as char, (0x80 + b) as char, (0x80 + c) as char, (0x80 + d) as char]) ==
            if code >= 0x10000 && IsScalar(code) then Scalar(code) else Malformed
  {
  }

  /** The bytes appended for a code are well-formed UTF-8 for it, unless the code is
      half of a surrogate pair: then they are no UTF-8 at all. */
  lemma Utf8Iff(code: nat)
    requires code < 0x110000
    ensures FromUtf8(Utf8(code)) == if IsScalar(code) then Scalar(code) else Malformed
  {
    SixBits(code);
    if code <= 0x7f {
    } else if code <= 0x7ff {
      TwoBytes(code / 64, code % 64);
      hide FromUtf8;
    } else if code <= 0xffff {
      ThreeBytes(code / 4096, code / 64 % 64, code % 64);
      hide FromUtf8;
    } else {
      FourBytes(code / 262144, code / 4096 % 64, code / 64 % 64, code % 64);
      hide FromUtf8;
    }
  }

  // ----- UTF-16

  function Hex4(n: nat): string
    requires n < 0x10000
  {
    [HexDigit(n / 4096), HexDigit(n / 256 % 16), HexDigit(n / 16 % 16), HexDigit(n % 16)]
  }

  lemma ReadsHex4(n: nat, t: string)
    requires n < 0x10000
    ensures ParseHex4(Hex4(n) + t) == Ok(n, t)
  {
    var a, b, c, d := n / 4096, n / 256 % 16, n / 16 % 16, n % 16;
    HexDigitValue(a);
    HexDigitValue(b);
    HexDigitValue(c);
    HexDigitValue(d);
    FourGroups(n);
    var s := Hex4(n) + t;
    assert s[0] == HexDigit(a) && s[1] == HexDigit(b) && s[2] == HexDigit(c) && s[3] == HexDigit(d) && s[4..] == t;
    hide *;
    FourDigits(s, a, b, c, d, t);
  }

  lemma FourGroups(n: nat)
    requires n < 0x10000
    ensures n / 4096 < 16 && n == ((n / 4096 * 16 + n / 256 % 16) * 16 + n / 16 % 16) * 16 + n % 16
  {
    assert n / 256 == n / 16 / 16 && n / 4096 == n / 16 / 16 / 16;
  }

  lemma FourDigits(s: string, a: nat, b: nat, c: nat, d: nat, t: string)
    requires a < 16 && b < 16 && c < 16 && d < 16 && |s| >= 4 && s[4..] == t
    requires HexValue(s[0]) == a && HexValue(s[1]) == b && HexValue(s[2]) == c && HexValue(s[3]) == d
    ensures ParseHex4(s) == Ok(((a * 16 + b) * 16 + c) * 16 + d, t)
  {
    hide HexValue;
    var s1, s2, s3 := s[1..], s[2..], s[3..];
    assert s1[1..] == s2 && s2[1..] == s3 && s3[1..] == t;
    assert ParseHex(s3, 1, (a * 16 + b) * 16 + c) == Ok(((a * 16 + b) * 16 + c) * 16 + d, t);
    assert ParseHex(s2, 2, a * 16 + b) == ParseHex(s3, 1, (a * 16 + b) * 16 + c);
    assert ParseHex(s1, 3, a) == ParseHex(s2, 2, a * 16 + b);
  }

  /** A character's code as escapes: one unit, or a surrogate pair. */
  function Escaped(code: nat): string
    requires IsScalar(code)
  {
    if code < 0x10000 then "\\u" + Hex4(code)
    else "\\u" + (Hex4(0xd800 + (code - 0x10000) / 0x400) + ("\\u" + Hex4(0xdc00 + (code - 0x10000) % 0x400)))
  }

  lemma UnitReads(code: nat, t: string)
    requires IsScalar(code) && code < 0x10000
    ensures ParseUnicode(Hex4(code) + t) == Ok(Utf8(code), t)
  {
    hide Utf8, Hex4, ParseHex4;
    ReadsHex4(code, t);
  }

  lemma ReadsPair(s: string, hi: nat, u: string, lo: nat, rest: string)
    requires ParseHex4(s) == Ok(hi, u) && 0xd800 <= hi < 0xdc00
    requires |u| >= 2 && u[0] == '\\' && u[1] == 'u' && ParseHex4(u[2..]) == Ok(lo, rest) && 0xdc00 <= lo < 0xe000
    ensures ParseUnicode(s) == Ok(Utf8(0x10000 + (hi - 0xd800) * 1024 + (lo - 0xdc00)), rest)
  {
    hide Utf8, ParseHex4;
  }

  lemma PairReads(code: nat, hi: nat, lo: nat, t: string)
    requires IsScalar(code) && code >= 0x10000
    requires hi == 0xd800 + (code - 0x10000) / 0x400 && lo == 0xdc00 + (code - 0x10000) % 0x400
    ensures hi < 0x10000 && lo < 0x10000 && ParseUnicode(Hex4(hi) + ("\\u" + (Hex4(lo) + t))) == Ok(Utf8(code), t)
  {
    assert 0x10000 + (hi - 0xd800) * 1024 + (lo - 0xdc00) == code;
    assert 0xd800 <= hi < 0xdc00 && 0xdc00 <= lo < 0xe000;
    hide *;
    var u := "\\u" + (Hex4(lo) + t);
    ReadsHex4(hi, u);
    assert u[0] == '\\' && u[1] == 'u' && u[2..] == Hex4(lo) + t;
    ReadsHex4(lo, t);
    ReadsPair(Hex4(hi) + u, hi, u, lo, t);
  }

  lemma Regroup(h: string, l: string, t: string)
    ensures ("\\u" + (h + ("\\u" + l))) + t == "\\u" + (h + ("\\u" + (l + t)))
  {
    Assoc("\\u", h + ("\\u" + l), t);
    Assoc(h, "\\u" + l, t);
    Assoc("\\u", l, t);
  }

  lemma AfterBackslash(u: string)
    ensures ("\\u" + u)[1..] == "u" + u && ParseEscape("u" + u) == ParseUnicode(u)
  {
    hide ParseUnicode;
    assert ("u" + u)[1..] == u;
  }

  lemma EscapedUnit(code: nat, t: string)
    requires IsScalar(code) && code < 0x10000
    ensures ParseEscape((Escaped(code) + t)[1..]) == Ok(Utf8(code), t)
  {
    assert Escaped(code) == "\\u" + Hex4(code);
    hide *;
    UnitReads(code, t);
    AfterBackslash(Hex4(code) + t);
    Assoc("\\u", Hex4(code), t);
  }

  lemma EscapedIs(code: nat, hi: nat, lo: nat)
    requires IsScalar(code) && code >= 0x10000
    requires hi == 0xd800 + (code - 0x10000) / 0x400 && lo == 0xdc00 + (code - 0x10000) % 0x400
    ensures hi < 0x10000 && lo < 0x10000 && Escaped(code) == "\\u" + (Hex4(hi) + ("\\u" + Hex4(lo)))
  {
    hide Hex4;
  }

  lemma EscapedPair(code: nat, hi: nat, lo: nat, t: string)
    requires IsScalar(code) && code >= 0x10000
    requires hi == 0xd800 + (code - 0x10000) / 0x400 && lo == 0xdc00 + (code - 0x10000) % 0x400
    ensures ParseEscape((Escaped(code) + t)[1..]) == Ok(Utf8(code), t)
  {
    hide *;
    PairReads(code, hi, lo, t);
    EscapedIs(code, hi, lo);
    AfterBackslash(Hex4(hi) + ("\\u" + (Hex4(lo) + t)));
    Regroup(Hex4(hi), Hex4(lo), t);
  }

  /** Every character written by its code, as one unit or as a pair, reads back as its
      UTF-8. */
  lemma EscapedReads(code: nat, t: string)
    requires IsScalar(code)
    ensures ParseEscape((Escaped(code) + t)[1..]) == Ok(Utf8(code), t)
    ensures FromUtf8(Utf8(code)) == Scalar(code)
  {
    Utf8Iff(code);
    if code < 0x10000 {
      EscapedUnit(code, t);
    } else {
      EscapedPair(code, 0xd800 + (code - 0x10000) / 0x400, 0xdc00 + (code - 0x10000) % 0x400, t);
    }
    hide *;
  }

  /** The code takes a low surrogate that stands alone, and what it appends is not
      UTF-8. */
  lemma LoneLowSurrogate(lo: nat, t: string)
    requires 0xdc00 <= lo < 0xe000
    ensures ParseUnicode(Hex4(lo) + t) == Ok(Utf8(lo), t) && FromUtf8(Utf8(lo)) == Malformed
  {
    Utf8Iff(lo);
    hide Utf8, FromUtf8, Hex4, ParseHex4;
    ReadsHex4(lo, t);
  }

  /** Exactly when an escape that is read, in digits of either case, appends
      well-formed UTF-8: when its first unit is no low surrogate. */
  lemma UnicodeIff(s: string)
    requires ParseUnicode(s).Ok?
    ensures FromUtf8(ParseUnicode(s).value) != Malformed <==> !(0xdc00 <= ParseHex4(s).value < 0xe000)
  {
    hide Utf8, FromUtf8, ParseHex4;
    var hi := ParseHex4(s);
    if 0xd800 <= hi.value < 0xdc00 {
      var lo := ParseHex4(hi.rest[2..]);
      Utf8Iff(0x10000 + (hi.value - 0xd800) * 1024 + (lo.value - 0xdc00));
    } else {
      Utf8Iff(hi.value);
    }
  }

  /** A high surrogate is taken only with an escape after it. */
  lemma LoneHighSurrogate(hi: nat, t: string)
    requires 0xd800 <= hi < 0xdc00 && (|t| < 2 || t[0] != '\\' || t[1] != 'u')
    ensures ParseUnicode(Hex4(hi) + t).Fail?
  {
    hide Utf8, Hex4, ParseHex4;
    ReadsHex4(hi, t);
  }
}
