/** What the JSON parser makes of a text, as functions from the text still to be
    read to a result and the text left over. */
module JsonParsing {
  import opened Json

  datatype Parsed<T> = Ok(value: T, rest: string) | Fail(message: string, rest: string)

  predicate IsSpace(c: char) {
    c == ' ' || c == '\t' || c == '\n' || c == '\r'
  }

  function SkipSpace(s: string): (t: string)
    ensures |t| <= |s| && (t != "" ==> !IsSpace(t[0]))
  {
    if s != "" && IsSpace(s[0]) then SkipSpace(s[1..]) else s
  }

  // ----- literals and numbers

  function ParseLiteral<T>(s: string, word: string, value: T): Parsed<T> {
    if word <= s then Ok(value, s[|word|..]) else Fail("invalid literal", s)
  }

  predicate IsDigit(c: char) {
    '0' <= c <= '9'
  }

  predicate IsNumberChar(c: char) {
    IsDigit(c) || c == '.' || c == 'e' || c == 'E' || c == '+' || c == '-'
  }

  /** Length of the longest prefix of number characters. */
  function NumberSpan(s: string): (n: nat)
    ensures n <= |s| && (forall i :: 0 <= i < n ==> IsNumberChar(s[i])) && (n < |s| ==> !IsNumberChar(s[n]))
  {
    if s != "" && IsNumberChar(s[0]) then 1 + NumberSpan(s[1..]) else 0
  }

  function DigitSpan(s: string): (n: nat)
    ensures n <= |s| && (forall i :: 0 <= i < n ==> IsDigit(s[i])) && (n < |s| ==> !IsDigit(s[n]))
  {
    if s != "" && IsDigit(s[0]) then 1 + DigitSpan(s[1..]) else 0
  }

  function DigitValue(c: char): nat {
    if IsDigit(c) then c as int - '0' as int else 0
  }

  /** The number a string of digits writes. */
  function NatOf(s: string): nat {
    if s == "" then 0 else NatOf(s[..|s| - 1]) * 10 + DigitValue(s[|s| - 1])
  }

  datatype Stod = NotANumber | OutOfRange | Double(num: Num, consumed: nat)

  function Signed(s: string): nat {
    if s != "" && (s[0] == '+' || s[0] == '-') then 1 else 0
  }

  /** A point and the digits after it. */
  function FractionSpan(s: string): (n: nat)
    ensures n <= |s|
  {
    if s != "" && s[0] == '.' then 1 + DigitSpan(s[1..]) else 0
  }

  /** An exponent, with the digits it needs. */
  function ExponentSpan(s: string): (n: nat)
    ensures n <= |s|
  {
    if s != "" && (s[0] == 'e' || s[0] == 'E') then
      var e := 1 + Signed(s[1..]);
      var n := DigitSpan(s[e..]);
      if n > 0 then e + n else 0
    else 0
  }

  function Power(base: nat, n: nat): nat {
    if n == 0 then 1 else base * Power(base, n - 1)
  }

  /** The least magnitude that does not round to a double: half a unit in the last place
      beyond the greatest one. */
  function DoubleLimit(): int {
    Power(2, 1024) - Power(2, 970)
  }

  /** Digits times a power of ten, compared exactly. */
  predicate TooLarge(digits: nat, exponent: int) {
    if exponent >= 0 then digits * Power(10, exponent) >= DoubleLimit()
    else digits >= DoubleLimit() * Power(10, -exponent)
  }

  /** Between zero and the least normal double. */
  predicate TooSmall(digits: nat, exponent: int) {
    digits > 0 && exponent < 0 && digits * Power(2, 1022) < Power(10, -exponent)
  }

  /** Which magnitudes below the least normal double, digits times a power of ten, the C
      library reports as out of range: the C standard leaves that to it. */
  type Library = (nat, int) -> bool

  /** The value of an exponent, its letter and sign included; zero for none. */
  function ExponentOf(s: string): int {
    if s == "" then 0
    else
      var e := 1 + Signed(s[1..]);
      var n: int := NatOf(s[e..]);
      if e == 2 && s[1] == '-' then -n else n
  }

  /** The number its parts spell: digits, a point with digits after it, an exponent. A
      magnitude past the greatest double is out of range, and one too small for a normal
      double if the library says so. */
  function NumberOf(tiny: Library, whole: string, point: string, exponent: string, minus: bool, text: string): (r: Stod)
    ensures r.Double? ==> r.consumed == |text|
  {
    var fraction := if point == "" then "" else point[1..];
    if point == "" && exponent == "" && NatOf(whole) < INTEGRAL_LIMIT then
      var n: int := NatOf(whole);
      Double(Integral(if minus then -n else n), |text|)
    else
      var digits, power := NatOf(whole + fraction), ExponentOf(exponent) - |fraction|;
      if TooLarge(digits, power) || (TooSmall(digits, power) && tiny(digits, power)) then OutOfRange
      else Double(Token(text), |text|)
  }

  /** `std::stod` on a token of number characters: an optional sign, digits with
      an optional point, an optional exponent; how much of it was consumed. */
  function ReadDouble(tiny: Library, s: string): (r: Stod)
    ensures r.Double? ==> 0 < r.consumed <= |s|
  {
    var sign := Signed(s);
    var whole := DigitSpan(s[sign..]);
    var i := sign + whole;
    var point := FractionSpan(s[i..]);
    if whole == 0 && point <= 1 then NotANumber
    else
      var j := i + point;
      var exponent := ExponentSpan(s[j..]);
      NumberOf(tiny, s[sign..i], s[i..j], s[j..j + exponent], sign == 1 && s[0] == '-', s[..j + exponent])
  }

  function ParseNumber(tiny: Library, s: string): (r: Parsed<Value>)
    ensures |r.rest| <= |s| && (r.Ok? ==> |r.rest| < |s|)
  {
    var n := NumberSpan(s);
    if n == 0 then Fail("expected a value", s)
    else
      var d := ReadDouble(tiny, s[..n]);
      if d.Double? && d.consumed == n then Ok(Number(d.num), s[n..]) else Fail("malformed number", s[n..])
  }

  // ----- strings

  function HexValue(c: char): (h: int)
    ensures h < 16
  {
    if '0' <= c <= '9' then c as int - '0' as int
    else if 'a' <= c <= 'f' then c as int - 'a' as int + 10
    else if 'A' <= c <= 'F' then c as int - 'A' as int + 10
    else -1
  }

  /** 16 to the power n, up to the four digits of an escape. */
  function HexRange(n: nat): nat
    requires n <= 4
  {
    if n == 0 then 1 else if n == 1 then 0x10 else if n == 2 then 0x100 else if n == 3 then 0x1000 else 0x10000
  }

  /** Reads n more hexadecimal digits onto acc. */
  function ParseHex(s: string, n: nat, acc: nat): (r: Parsed<nat>)
    requires n <= |s| && n <= 4 && acc < HexRange(4 - n)
    ensures |r.rest| <= |s| && (r.Ok? ==> |r.rest| == |s| - n && r.value < 0x10000)
    decreases n
  {
    if n == 0 then Ok(acc, s)
    else if HexValue(s[0]) < 0 then Fail("invalid \\u escape", s[1..])
    else ParseHex(s[1..], n - 1, acc * 16 + HexValue(s[0]))
  }

  function ParseHex4(s: string): (r: Parsed<nat>)
    ensures |r.rest| <= |s| && (r.Ok? ==> |r.rest| == |s| - 4 && r.value < 0x10000)
  {
    if |s| < 4 then Fail("truncated \\u escape", s) else ParseHex(s, 4, 0)
  }

  function Utf8(code: nat): string
    requires code < 0x110000
  {
    if code <= 0x7f then [code as char]
    else if code <= 0x7ff then [(0xc0 + code / 64) as char, (0x80 + code % 64) as char]
    else if code <= 0xffff then
      [(0xe0 + code / 4096) as char, (0x80 + code / 64 % 64) as char, (0x80 + code % 64) as char]
    else
      [(0xf0 + code / 262144) as char, (0x80 + code / 4096 % 64) as char,
       (0x80 + code / 64 % 64) as char, (0x80 + code % 64) as char]
  }

  /** The rest of a `\u` escape, with the low half of a surrogate pair. */
  function ParseUnicode(s: string): (r: Parsed<string>)
    ensures |r.rest| <= |s| && (r.Ok? ==> |r.rest| < |s|)
  {
    var hi := ParseHex4(s);
    if hi.Fail? then Fail(hi.message, hi.rest)
    else if 0xd800 <= hi.value <= 0xdbff then
      var t := hi.rest;
      if |t| < 2 || t[0] != '\\' || t[1] != 'u' then Fail("unpaired surrogate", t)
      else
        var lo := ParseHex4(t[2..]);
        if lo.Fail? then Fail(lo.message, lo.rest)
        else if lo.value < 0xdc00 || lo.value > 0xdfff then Fail("invalid low surrogate", lo.rest)
        else Ok(Utf8(0x10000 + (hi.value - 0xd800) * 1024 + (lo.value - 0xdc00)), lo.rest)
    else Ok(Utf8(hi.value), hi.rest)
  }

  /** A one-letter escape, if the letter names one. */
  function SimpleEscape(c: char): string {
    if c == '"' then "\"" else if c == '\\' then "\\" else if c == '/' then "/"
    else if c == 'b' then [8 as char] else if c == 'f' then [12 as char]
    else if c == 'n' then "\n" else if c == 'r' then "\r" else if c == 't' then "\t" else ""
  }

  /** What follows a backslash. */
  function ParseEscape(s: string): (r: Parsed<string>)
    ensures |r.rest| <= |s| && (r.Ok? ==> |r.rest| < |s|)
  {
    if s == "" then Fail("unterminated escape", s)
    else if s[0] == 'u' then ParseUnicode(s[1..])
    else if SimpleEscape(s[0]) != "" then Ok(SimpleEscape(s[0]), s[1..])
    else Fail("invalid escape", s[1..])
  }

  /** The rest of a string after its opening quote, appended to acc. */
  function ParseChars(s: string, acc: string): (r: Parsed<string>)
    ensures |r.rest| <= |s| && (r.Ok? ==> |r.rest| < |s|)
    decreases |s|
  {
    if s == "" then Fail("unterminated string", s)
    else if s[0] == '"' then Ok(acc, s[1..])
    else if s[0] == '\\' then
      var e := ParseEscape(s[1..]);
      if e.Fail? then e else ParseChars(e.rest, acc + e.value)
    else ParseChars(s[1..], acc + [s[0]])
  }

  function ParseString(s: string): (r: Parsed<string>)
    requires s != ""
    ensures |r.rest| <= |s| && (r.Ok? ==> |r.rest| < |s|)
  {
    if s[0] != '"' then Fail("expected a string", s) else ParseChars(s[1..], "")
  }

  // ----- values

  function ParseValue(tiny: Library, s0: string): (r: Parsed<Value>)
    ensures |r.rest| <= |s0| && (r.Ok? ==> |r.rest| < |s0|)
    decreases |s0|, 2
  {
    var s := SkipSpace(s0);
    if s == "" then Fail("unexpected end of input", s)
    else if s[0] == '{' then ParseObject(tiny, s)
    else if s[0] == '[' then ParseArray(tiny, s)
    else if s[0] == '"' then
      var r := ParseString(s);
      if r.Ok? then Ok(Text(r.value), r.rest) else Fail(r.message, r.rest)
    else if s[0] == 't' then ParseLiteral(s, "true", Boolean(true))
    else if s[0] == 'f' then ParseLiteral(s, "false", Boolean(false))
    else if s[0] == 'n' then ParseLiteral(s, "null", Null)
    else ParseNumber(tiny, s)
  }

  function ParseArray(tiny: Library, s: string): (r: Parsed<Value>)
    requires s != ""
    ensures |r.rest| <= |s| && (r.Ok? ==> |r.rest| < |s|)
    decreases |s|, 1
  {
    var t := SkipSpace(s[1..]);
    if t != "" && t[0] == ']' then Ok(Array([]), t[1..]) else ParseElements(tiny, t, [])
  }

  /** The elements still to come, up to the closing bracket. */
  function ParseElements(tiny: Library, s: string, acc: seq<Value>): (r: Parsed<Value>)
    ensures |r.rest| <= |s| && (r.Ok? ==> |r.rest| < |s|)
    decreases |s|, 3
  {
    var e := ParseValue(tiny, s);
    if e.Fail? then e
    else
      var t := SkipSpace(e.rest);
      if t == "" then Fail("unterminated array", t)
      else if t[0] == ']' then Ok(Array(acc + [e.value]), t[1..])
      else if t[0] != ',' then Fail("expected ',' or ']'", t[1..])
      else ParseElements(tiny, t[1..], acc + [e.value])
  }

  function ParseObject(tiny: Library, s: string): (r: Parsed<Value>)
    requires s != ""
    ensures |r.rest| <= |s| && (r.Ok? ==> |r.rest| < |s|)
    decreases |s|, 1
  {
    var t := SkipSpace(s[1..]);
    if t != "" && t[0] == '}' then Ok(Object([]), t[1..]) else ParseMembers(tiny, t, [])
  }

  /** One member: its name, a colon, its value. */
  function ParseMember(tiny: Library, s: string): (r: Parsed<Member>)
    ensures |r.rest| <= |s| && (r.Ok? ==> |r.rest| < |s|)
    decreases |s|, 3
  {
    var t := SkipSpace(s);
    if t == "" || t[0] != '"' then Fail("expected a member name", t)
    else
      var key := ParseString(t);
      if key.Fail? then Fail(key.message, key.rest)
      else
        var u := SkipSpace(key.rest);
        if u == "" then Fail("expected ':'", u)
        else if u[0] != ':' then Fail("expected ':'", u[1..])
        else
          var v := ParseValue(tiny, u[1..]);
          if v.Fail? then Fail(v.message, v.rest) else Ok(Member(key.value, v.value), v.rest)
  }

  function ParseMembers(tiny: Library, s: string, acc: seq<Member>): (r: Parsed<Value>)
    ensures |r.rest| <= |s| && (r.Ok? ==> |r.rest| < |s|)
    decreases |s|, 4
  {
    var m := ParseMember(tiny, s);
    if m.Fail? then Fail(m.message, m.rest)
    else
      var t := SkipSpace(m.rest);
      if t == "" then Fail("unterminated object", t)
      else if t[0] == '}' then Ok(Object(acc + [m.value]), t[1..])
      else if t[0] != ',' then Fail("expected ',' or '}'", t[1..])
      else ParseMembers(tiny, t[1..], acc + [m.value])
  }

  /** A whole document: one value and nothing but space after it. */
  function ParseDocument(tiny: Library, s: string): Parsed<Value> {
    var r := ParseValue(tiny, SkipSpace(s));
    if r.Fail? then r
    else
      var t := SkipSpace(r.rest);
      if t == "" then Ok(r.value, t) else Fail("trailing data after JSON document", t)
  }
}
