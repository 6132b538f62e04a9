/** Reading back what was written gives the value that was written. */
module JsonRoundTrip {
  import opened Json
  import opened JsonParsing

  predicate AllSpace(w: string) {
    forall i :: 0 <= i < |w| ==> IsSpace(w[i])
  }

  lemma {:induction false} SkipsSpace(w: string, s: string)
    requires AllSpace(w) && (s == "" || !IsSpace(s[0]))
    ensures SkipSpace(w + s) == s
    decreases |w|
  {
    if w == "" {
      assert w + s == s;
    } else {
      assert (w + s)[1..] == w[1..] + s;
      SkipsSpace(w[1..], s);
    }
  }

  // ----- numbers

  predicate AllDigits(s: string) {
    forall i :: 0 <= i < |s| ==> IsDigit(s[i])
  }

  lemma {:induction false} DecimalNatReads(n: nat)
    ensures AllDigits(DecimalNat(n)) && NatOf(DecimalNat(n)) == n
    decreases n
  {
    var s := DecimalNat(n);
    if n < 10 {
      assert s[..|s| - 1] == "";
    } else {
      DecimalNatReads(n / 10);
      assert s[..|s| - 1] == DecimalNat(n / 10);
    }
  }

  lemma {:induction false} DigitSpanAll(s: string)
    requires AllDigits(s)
    ensures DigitSpan(s) == |s|
    decreases |s|
  {
    if s != "" {
      DigitSpanAll(s[1..]);
    }
  }

  /** Where a number must stop: at the end, or before any other character. */
  predicate Boundary(rest: string) {
    rest == "" || !IsNumberChar(rest[0])
  }

  lemma {:induction false} NumberSpanIs(s: string, rest: string)
    requires (forall i :: 0 <= i < |s| ==> IsNumberChar(s[i])) && Boundary(rest)
    ensures NumberSpan(s + rest) == |s|
    decreases |s|
  {
    if s == "" {
      assert s + rest == rest;
    } else {
      assert (s + rest)[1..] == s[1..] + rest;
      NumberSpanIs(s[1..], rest);
    }
  }

  /** A token that is a sign, or none, and digits. */
  lemma ReadsInteger(tiny: Library, s: string, d: string, sign: nat)
    requires s == (if sign == 1 then "-" else "") + d && sign <= 1
    requires AllDigits(d) && d != "" && NatOf(d) < INTEGRAL_LIMIT
    ensures var m: int := NatOf(d); ReadDouble(tiny, s) == Double(Integral(if sign == 1 then -m else m), |s|)
  {
    hide NatOf, DigitSpan;
    assert s[sign..] == d && s[sign..|s|] == d;
    assert IsDigit(d[0]) && (sign == 0 ==> s[0] == d[0]);
    DigitSpanAll(d);
    assert Signed(s) == sign;
  }

  lemma {:induction false} PowerOfTen(n: nat)
    ensures Power(10, n) >= Power(2, 3 * n)
  {
    if n > 0 {
      PowerOfTen(n - 1);
      assert Power(2, 3 * n) == 2 * Power(2, 3 * n - 1) == 4 * Power(2, 3 * n - 2) == 8 * Power(2, 3 * n - 3);
    }
  }

  lemma {:induction false} PowerGrows(base: nat, m: nat, n: nat)
    requires base >= 1 && m <= n
    ensures 0 < Power(base, m) <= Power(base, n)
    decreases n
  {
    if m < n {
      PowerGrows(base, m, n - 1);
    } else if n > 0 {
      PowerGrows(base, n - 1, n - 1);
    }
  }

  /** Any digit but zero with an exponent of 342 or more is past the greatest double. */
  lemma HugeExponent(digits: nat, exponent: nat)
    requires digits >= 1 && exponent >= 342
    ensures TooLarge(digits, exponent)
  {
    hide Power;
    PowerOfTen(exponent);
    PowerGrows(2, 1024, 3 * exponent);
    PowerGrows(2, 970, 970);
    assert digits * Power(10, exponent) >= Power(10, exponent);
  }

  /** Such a number is refused. */
  lemma HugeRefused(tiny: Library)
    ensures ParseNumber(tiny, "1e999") == Fail("malformed number", "")
  {
    hide ReadDouble, NumberSpan;
    HugeSpans();
    HugeReads(tiny);
    assert "1e999"[..5] == "1e999" && "1e999"[5..] == "";
  }

  lemma HugeReads(tiny: Library)
    ensures ReadDouble(tiny, "1e999") == OutOfRange
  {
    hide *;
    HugeSpans();
    HugeNumber(tiny);
    assert "1e999"[..1] == "1" && "1e999"[1..] == "e999";
    ReadsScaled(tiny, "1e999", 1);
  }

  /** A token that is digits and an exponent. */
  lemma ReadsScaled(tiny: Library, s: string, n: nat)
    requires 0 < n == DigitSpan(s) < |s| && ExponentSpan(s[n..]) == |s| - n
    ensures ReadDouble(tiny, s) == NumberOf(tiny, s[..n], "", s[n..], false, s)
  {
    hide *;
    ExponentStarts(s[n..]);
    DigitStarts(s);
    Slices(s, n);
    ReadsParts(tiny, s, n);
  }

  lemma ReadsParts(tiny: Library, s: string, n: nat)
    requires Signed(s) == 0 && s[0..] == s && 0 < n == DigitSpan(s) < |s| && FractionSpan(s[n..]) == 0
    requires ExponentSpan(s[n..]) == |s| - n
    ensures ReadDouble(tiny, s) == NumberOf(tiny, s[0..n], s[n..n], s[n..|s|], false, s[..|s|])
  {
    hide NumberOf, DigitSpan, ExponentSpan, FractionSpan, Signed;
  }

  lemma Slices(s: string, n: nat)
    requires n <= |s|
    ensures s[0..] == s && s[0..n] == s[..n] && s[n..n] == "" && s[n..|s|] == s[n..] && s[..|s|] == s
  {
  }

  lemma DigitStarts(s: string)
    ensures DigitSpan(s) > 0 ==> Signed(s) == 0
  {
    hide DigitSpan;
    assert DigitSpan(s) > 0 ==> IsDigit(s[0]);
  }

  lemma ExponentStarts(s: string)
    ensures ExponentSpan(s) > 0 ==> s != "" && FractionSpan(s) == 0
  {
    hide DigitSpan;
  }

  lemma HugeNumber(tiny: Library)
    ensures NumberOf(tiny, "1", "", "e999", false, "1e999") == OutOfRange
  {
    hide TooLarge, NatOf, ExponentOf;
    HugeExponent(1, 999);
    HugeValues();
    assert "1" + "" == "1";
  }

  lemma HugeValues()
    ensures NatOf("1") == 1 && ExponentOf("e999") == 999
  {
    assert "1"[..0] == "" && "9"[..0] == "" && "99"[..1] == "9" && "999"[..2] == "99";
    assert NatOf("") == 0 && NatOf("9") == 9 && NatOf("99") == 99;
    assert "e999"[1..] == "999";
  }

  lemma HugeSpans()
    ensures NumberSpan("1e999") == 5 && DigitSpan("1e999") == 1 && ExponentSpan("e999") == 4
    ensures NumberSpan("999") == 3 && DigitSpan("999") == 3
  {
    assert "1e999"[1..] == "e999" && "e999"[1..] == "999" && "999"[1..] == "99" && "99"[1..] == "9" && "9"[1..] == "";
    assert NumberSpan("") == 0 && DigitSpan("") == 0 && DigitSpan("e999") == 0;
    assert NumberSpan("9") == 1 && NumberSpan("99") == 2 && NumberSpan("999") == 3 && NumberSpan("e999") == 4;
    assert DigitSpan("9") == 1 && DigitSpan("99") == 2 && DigitSpan("999") == 3;
  }

  /** A number too small for a normal double is refused if the library says so. */
  lemma TinyAsked(tiny: Library)
    ensures ParseNumber(tiny, "1e-999") == if tiny(1, -999) then Fail("malformed number", "") else Ok(Number(Token("1e-999")), "")
  {
    hide ReadDouble, NumberSpan;
    TinySpans();
    TinyReads(tiny);
    assert "1e-999"[..6] == "1e-999" && "1e-999"[6..] == "";
  }

  lemma TinyReads(tiny: Library)
    ensures ReadDouble(tiny, "1e-999") == if tiny(1, -999) then OutOfRange else Double(Token("1e-999"), 6)
  {
    hide *;
    TinySpans();
    TinyNumber(tiny);
    assert "1e-999"[..1] == "1" && "1e-999"[1..] == "e-999";
    ReadsScaled(tiny, "1e-999", 1);
  }

  lemma TinyNumber(tiny: Library)
    ensures NumberOf(tiny, "1", "", "e-999", false, "1e-999") == if tiny(1, -999) then OutOfRange else Double(Token("1e-999"), 6)
  {
    hide TooLarge, TooSmall, NatOf, ExponentOf;
    TinyIsSmall();
    TinyValues();
    assert "1" + "" == "1";
  }

  lemma TinyIsSmall()
    ensures TooSmall(1, -999) && !TooLarge(1, -999)
  {
    hide Power;
    PowerOfTen(999);
    PowerGrows(2, 1023, 2997);
    PowerGrows(2, 970, 1023);
    PowerTwice(1022);
    PowerTwice(1023);
  }

  lemma PowerTwice(n: nat)
    ensures Power(2, n + 1) == 2 * Power(2, n)
  {
  }

  lemma TinyValues()
    ensures NatOf("1") == 1 && ExponentOf("e-999") == -999
  {
    assert "1"[..0] == "" && "9"[..0] == "" && "99"[..1] == "9" && "999"[..2] == "99";
    assert NatOf("") == 0 && NatOf("9") == 9 && NatOf("99") == 99;
    assert "e-999"[1..] == "-999" && "e-999"[2..] == "999";
  }

  lemma TinySpans()
    ensures NumberSpan("1e-999") == 6 && DigitSpan("1e-999") == 1 && ExponentSpan("e-999") == 5
  {
    HugeSpans();
    assert "1e-999"[1..] == "e-999" && "e-999"[1..] == "-999" && "e-999"[2..] == "999" && "-999"[1..] == "999";
    assert "1e999"[1..] == "e999" && "e999"[1..] == "999" && NumberSpan("e999") == 4 && NumberSpan("999") == 3;
    assert NumberSpan("-999") == 4 && NumberSpan("e-999") == 5 && DigitSpan("e-999") == 0;
  }

  lemma ReadsDecimal(tiny: Library, n: int)
    requires -INTEGRAL_LIMIT < n < INTEGRAL_LIMIT
    ensures ReadDouble(tiny, Decimal(n)) == Double(Integral(n), |Decimal(n)|)
  {
    hide ReadDouble, DecimalNat, NatOf;
    var m: nat := if n < 0 then -n else n;
    DecimalNatReads(m);
    ReadsInteger(tiny, Decimal(n), DecimalNat(m), if n < 0 then 1 else 0);
  }

  lemma NumberRoundTrip(tiny: Library, n: int, rest: string)
    requires -INTEGRAL_LIMIT < n < INTEGRAL_LIMIT && Boundary(rest)
    ensures ParseNumber(tiny, Decimal(n) + rest) == Ok(Number(Integral(n)), rest)
    ensures Decimal(n)[0] == '-' || IsDigit(Decimal(n)[0])
  {
    var m: nat := if n < 0 then -n else n;
    var s := Decimal(n);
    DecimalNatReads(m);
    assert IsDigit(DecimalNat(m)[0]);
    assert forall i :: 0 <= i < |s| ==> IsNumberChar(s[i]);
    NumberSpanIs(s, rest);
    ReadsDecimal(tiny, n);
    assert (s + rest)[..|s|] == s && (s + rest)[|s|..] == rest;
  }

  // ----- strings

  lemma HexDigitValue(d: nat)
    requires d < 16
    ensures HexValue(HexDigit(d)) == d
  {
  }

  /** A control character's four digits read back as its code. */
  lemma ReadsControl(c: char, t: string)
    requires c as int < 0x20
    ensures ParseHex4("00" + [HexDigit(c as int / 16), HexDigit(c as int % 16)] + t) == Ok(c as int, t)
  {
    var h1, h2 := HexDigit(c as int / 16), HexDigit(c as int % 16);
    HexDigitValue(c as int / 16);
    HexDigitValue(c as int % 16);
    var s := "00" + [h1, h2] + t;
    assert s[0] == '0' && s[1] == '0' && s[2] == h1 && s[3] == h2;
    assert s[1..][1..][1..][1..] == t;
    assert ParseHex(s[1..][1..][1..][1..], 0, c as int) == Ok(c as int, t);
    assert ParseHex(s[1..][1..][1..], 1, c as int / 16) == Ok(c as int, t);
    assert ParseHex(s[1..][1..], 2, 0) == Ok(c as int, t);
    assert ParseHex(s[1..], 3, 0) == Ok(c as int, t);
  }

  /** Reading one written byte. */
  lemma ReadsEscape(c: char, t: string, acc: string)
    ensures ParseChars(Escape(c) + t, acc) == ParseChars(t, acc + [c])
  {
    hide *;
    var e := Escape(c);
    EscapeForms(c);
    if |e| == 1 {
      NextPlain(c, t, acc);
    } else if |e| == 2 {
      assert (e + t)[1..] == [e[1]] + t;
      EscapedPair(e[1], t);
      NextEscaped(e + t, [c], t, acc);
    } else {
      ReadsControl(c, t);
      assert (e + t)[1..] == "u" + ("00" + [HexDigit(c as int / 16), HexDigit(c as int % 16)] + t);
      EscapedUnit("00" + [HexDigit(c as int / 16), HexDigit(c as int % 16)] + t, c, t);
      NextEscaped(e + t, [c], t, acc);
    }
  }

  /** A character is written as itself, as a backslash and a letter, or as its
      number. */
  lemma EscapeForms(c: char)
    ensures var e := Escape(c);
            match |e|
            case 1 => e == [c] && c != '"' && c != '\\'
            case 2 => e[0] == '\\' && e[1] != 'u' && SimpleEscape(e[1]) == [c]
            case _ => c as int < 0x20 && e == "\\u00" + [HexDigit(c as int / 16), HexDigit(c as int % 16)]
  {
    hide HexDigit;
  }

  lemma NextPlain(c: char, t: string, acc: string)
    requires c != '"' && c != '\\'
    ensures ParseChars([c] + t, acc) == ParseChars(t, acc + [c])
  {
    assert ([c] + t)[1..] == t;
  }

  lemma NextEscaped(s: string, value: string, t: string, acc: string)
    requires s != "" && s[0] == '\\' && ParseEscape(s[1..]) == Ok(value, t)
    ensures ParseChars(s, acc) == ParseChars(t, acc + value)
  {
    hide ParseEscape;
  }

  lemma EscapedPair(e: char, t: string)
    requires e != 'u' && SimpleEscape(e) != ""
    ensures ParseEscape([e] + t) == Ok(SimpleEscape(e), t)
  {
    hide SimpleEscape;
    assert ([e] + t)[1..] == t;
  }

  lemma EscapedUnit(u: string, c: char, t: string)
    requires c as int < 0x20 && ParseHex4(u) == Ok(c as int, t)
    ensures ParseEscape("u" + u) == Ok([c], t)
  {
    hide ParseHex4;
    assert ("u" + u)[1..] == u;
  }

  lemma {:induction false} CharsRoundTrip(s: string, rest: string, acc: string)
    ensures ParseChars(EscapeAll(s) + "\"" + rest, acc) == Ok(acc + s, rest)
    decreases |s|
  {
    hide *;
    if s == "" {
      ClosingQuote(rest, acc);
      assert acc + s == acc;
    } else {
      EscapeFirst(s, rest);
      ReadsEscape(s[0], EscapeAll(s[1..]) + "\"" + rest, acc);
      CharsRoundTrip(s[1..], rest, acc + [s[0]]);
      MoveFirst(acc, s);
    }
  }

  lemma ClosingQuote(rest: string, acc: string)
    ensures ParseChars(EscapeAll("") + "\"" + rest, acc) == Ok(acc, rest)
  {
    assert EscapeAll("") + "\"" + rest == "\"" + rest;
    assert ("\"" + rest)[1..] == rest;
  }

  lemma EscapeFirst(s: string, rest: string)
    requires s != ""
    ensures EscapeAll(s) + "\"" + rest == Escape(s[0]) + (EscapeAll(s[1..]) + "\"" + rest)
  {
    hide Escape;
  }

  lemma MoveFirst<T>(acc: seq<T>, s: seq<T>)
    requires s != []
    ensures acc + [s[0]] + s[1..] == acc + s
  {
  }

  lemma DropFirst<T>(c: T, rest: seq<T>)
    ensures ([c] + rest)[1..] == rest
  {
  }

  lemma StringRoundTrip(s: string, rest: string)
    ensures ParseString(Quoted(s) + rest) == Ok(s, rest)
  {
    assert (Quoted(s) + rest)[1..] == EscapeAll(s) + "\"" + rest;
    CharsRoundTrip(s, rest, "");
    assert "" + s == s;
  }

  // ----- values

  /** A value's text starts with a character that opens a value. */
  lemma OpensValue(tiny: Library, v: Value, pretty: bool, depth: nat)
    requires AllIntegral(v)
    ensures var t := ValueText(v, pretty, depth); t != "" && !IsSpace(t[0]) && t[0] != ']' && t[0] != '}' && t[0] != ','
  {
    if v.Number? {
      NumberRoundTrip(tiny, v.num.n, "");
    }
  }

  lemma SkipTwice(tiny: Library, s: string, acc: seq<Value>, ms: seq<Member>)
    ensures ParseValue(tiny, SkipSpace(s)) == ParseValue(tiny, s)
    ensures ParseElements(tiny, SkipSpace(s), acc) == ParseElements(tiny, s, acc)
    ensures ParseMembers(tiny, SkipSpace(s), ms) == ParseMembers(tiny, s, ms)
  {
    hide *;
    SkipsSpace("", SkipSpace(s));
    NoSpace();
    assert "" + SkipSpace(s) == SkipSpace(s);
    ValueSkips(tiny, s, SkipSpace(s));
    ElementsSkip(tiny, s, SkipSpace(s), acc);
    MembersSkip(tiny, s, SkipSpace(s), ms);
  }

  lemma NoSpace()
    ensures AllSpace("")
  {
  }

  lemma ValueSkips(tiny: Library, s: string, t: string)
    requires SkipSpace(s) == SkipSpace(t)
    ensures ParseValue(tiny, s) == ParseValue(tiny, t)
  {
    hide SkipSpace, ParseObject, ParseArray, ParseString, ParseNumber, ParseLiteral;
  }

  lemma ElementsSkip(tiny: Library, s: string, t: string, acc: seq<Value>)
    requires ParseValue(tiny, s) == ParseValue(tiny, t)
    ensures ParseElements(tiny, s, acc) == ParseElements(tiny, t, acc)
  {
    hide ParseValue, SkipSpace;
  }

  lemma MembersSkip(tiny: Library, s: string, t: string, acc: seq<Member>)
    requires SkipSpace(s) == SkipSpace(t)
    ensures ParseMembers(tiny, s, acc) == ParseMembers(tiny, t, acc)
  {
    hide ParseValue, SkipSpace, ParseString;
    assert ParseMember(tiny, s) == ParseMember(tiny, t);
  }

  lemma IndentIsSpace(pretty: bool, depth: nat)
    ensures AllSpace(Indent(pretty, depth)) && AllSpace(Newline(pretty))
  {
  }

  /** A value that is not a literal: what remains is the parser its first
      character selects. */
  lemma SkipTo(w: string, t: string, rest: string)
    requires AllSpace(w) && t != "" && !IsSpace(t[0])
    ensures SkipSpace(w + (t + rest)) == t + rest
  {
    SkipsSpace(w, t + rest);
  }

  /** A literal reads back. */
  lemma LiteralRoundTrip(tiny: Library, word: string, rest: string, v: Value)
    requires word in {"true", "false", "null"}
    requires v == if word == "true" then Boolean(true) else if word == "false" then Boolean(false) else Null
    ensures ParseValue(tiny, word + rest) == Ok(v, rest)
  {
    SkipTo("", word, rest);
    assert "" + (word + rest) == word + rest;
    assert (word + rest)[..|word|] == word && (word + rest)[|word|..] == rest;
  }

  lemma Assoc(a: string, b: string, c: string)
    ensures (a + b) + c == a + (b + c)
  {
  }

  /** A value written anywhere, after any space and before anything that does not
      continue a number, reads back, and what follows is left. */
  lemma {:induction false} ValueRoundTrip(tiny: Library, v: Value, pretty: bool, depth: nat, w: string, rest: string)
    requires AllIntegral(v) && AllSpace(w) && Boundary(rest)
    ensures ParseValue(tiny, w + (ValueText(v, pretty, depth) + rest)) == Ok(v, rest)
    decreases v, 1
  {
    hide EscapeAll, ParseChars, NumberSpan, ReadDouble, DecimalNat;
    var t := ValueText(v, pretty, depth);
    OpensValue(tiny, v, pretty, depth);
    SkipTo(w, t, rest);
    SkipTwice(tiny, w + (t + rest), [], []);
    match v
    case Null => LiteralRoundTrip(tiny, "null", rest, v);
    case Boolean(b) => LiteralRoundTrip(tiny, if b then "true" else "false", rest, v);
    case Number(num) => NumberRoundTrip(tiny, num.n, rest);
    case Text(s) => StringRoundTrip(s, rest);
    case Array(elements) => ArrayRoundTrip(tiny, elements, pretty, depth, rest);
    case Object(members) => ObjectRoundTrip(tiny, members, pretty, depth, rest);
  }

  // ----- arrays

  /** What follows the first element. */
  function AfterElement(es: seq<Value>, pretty: bool, depth: nat, rest: string): string
    requires es != []
  {
    Comma(|es| > 1) + (Newline(pretty) + (ElementsText(es[1..], pretty, depth) + (Indent(pretty, depth) + ("]" + rest))))
  }

  lemma ElementsLayout(es: seq<Value>, pretty: bool, depth: nat, w: string, rest: string)
    requires es != []
    ensures w + (ElementsText(es, pretty, depth) + (Indent(pretty, depth) + ("]" + rest))) ==
            (w + Indent(pretty, depth + 1)) + (ValueText(es[0], pretty, depth + 1) + AfterElement(es, pretty, depth, rest))
  {
    var i, v, c, n := Indent(pretty, depth + 1), ValueText(es[0], pretty, depth + 1), Comma(|es| > 1), Newline(pretty);
    var e, z := ElementsText(es[1..], pretty, depth), Indent(pretty, depth) + ("]" + rest);
    assert ElementsText(es, pretty, depth) == i + (v + (c + (n + e)));
    hide *;
    Assoc(i, v + (c + (n + e)), z);
    Assoc(v, c + (n + e), z);
    Assoc(c, n + e, z);
    Assoc(n, e, z);
    Assoc(w, i, v + (c + (n + (e + z))));
  }

  lemma ArrayLayout(es: seq<Value>, pretty: bool, depth: nat, rest: string)
    requires es != []
    ensures ValueText(Array(es), pretty, depth) + rest ==
            "[" + (Newline(pretty) + (ElementsText(es, pretty, depth) + (Indent(pretty, depth) + ("]" + rest))))
  {
    var n, e, i := Newline(pretty), ElementsText(es, pretty, depth), Indent(pretty, depth);
    assert ValueText(Array(es), pretty, depth) == "[" + (n + (e + (i + "]")));
    hide *;
    Assoc("[", n + (e + (i + "]")), rest);
    Assoc(n, e + (i + "]"), rest);
    Assoc(e, i + "]", rest);
    Assoc(i, "]", rest);
  }

  /** The first thing in a non-empty array is not its closing bracket. */
  lemma FirstElement(tiny: Library, es: seq<Value>, pretty: bool, depth: nat, rest: string)
    requires es != [] && AllIntegral(es[0])
    ensures var t := SkipSpace(Newline(pretty) + (ElementsText(es, pretty, depth) + (Indent(pretty, depth) + ("]" + rest))));
            t != "" && t[0] != ']'
  {
    hide ValueText, ElementsText;
    OpensValue(tiny, es[0], pretty, depth + 1);
    IndentIsSpace(pretty, depth + 1);
    ElementsLayout(es, pretty, depth, Newline(pretty), rest);
    SkipTo(Newline(pretty) + Indent(pretty, depth + 1), ValueText(es[0], pretty, depth + 1), AfterElement(es, pretty, depth, rest));
  }

  lemma {:induction false} ArrayRoundTrip(tiny: Library, es: seq<Value>, pretty: bool, depth: nat, rest: string)
    requires AllIntegral(Array(es)) && Boundary(rest)
    ensures ParseArray(tiny, ValueText(Array(es), pretty, depth) + rest) == Ok(Array(es), rest)
    decreases es, 1
  {
    hide ElementsText, ParseElements;
    if es == [] {
      assert ("[]" + rest)[1..] == "]" + rest;
      SkipTo("", "]", rest);
      assert "" + ("]" + rest) == "]" + rest;
      assert ("]" + rest)[1..] == rest;
    } else {
      var inner := Newline(pretty) + (ElementsText(es, pretty, depth) + (Indent(pretty, depth) + ("]" + rest)));
      ArrayLayout(es, pretty, depth, rest);
      assert ("[" + inner)[1..] == inner;
      FirstElement(tiny, es, pretty, depth, rest);
      IndentIsSpace(pretty, depth);
      SkipTwice(tiny, inner, [], []);
      ElementsRoundTrip(tiny, es, pretty, depth, Newline(pretty), rest, []);
      assert [] + es == es;
    }
  }

  /** The text after an element continues no number, and leads to the next element
      or to the closing bracket. */
  lemma AfterElementReads(es: seq<Value>, pretty: bool, depth: nat, rest: string)
    requires es != []
    ensures var r := AfterElement(es, pretty, depth, rest);
            && Boundary(r)
            && SkipSpace(r) == if |es| == 1 then "]" + rest
                               else "," + (Newline(pretty) + (ElementsText(es[1..], pretty, depth) + (Indent(pretty, depth) + ("]" + rest))))
  {
    var r := AfterElement(es, pretty, depth, rest);
    var i, n := Indent(pretty, depth), Newline(pretty);
    IndentIsSpace(pretty, depth);
    if |es| == 1 {
      assert r == n + (i + ("]" + rest)) by {
        assert "" + (n + ("" + (i + ("]" + rest)))) == n + (i + ("]" + rest));
      }
      Assoc(n, i, "]" + rest);
      SkipTo(n + i, "]", rest);
    } else {
      var t := n + (ElementsText(es[1..], pretty, depth) + (i + ("]" + rest)));
      assert r == "," + t;
      SkipTo("", ",", t);
      assert "" + r == r;
    }
  }

  /** Reading one element and what separates it from the next. */
  lemma NextElement(tiny: Library, text: string, v: Value, r: string, acc: seq<Value>)
    requires ParseValue(tiny, text) == Ok(v, r) && SkipSpace(r) != ""
    ensures SkipSpace(r)[0] == ']' ==> ParseElements(tiny, text, acc) == Ok(Array(acc + [v]), SkipSpace(r)[1..])
    ensures SkipSpace(r)[0] == ',' ==> ParseElements(tiny, text, acc) == ParseElements(tiny, SkipSpace(r)[1..], acc + [v])
  {
    hide ParseValue, SkipSpace;
  }

  lemma SpacesAppend(a: string, b: string)
    requires AllSpace(a) && AllSpace(b)
    ensures AllSpace(a + b)
  {
  }

  lemma {:induction false} ElementsRoundTrip(tiny: Library, es: seq<Value>, pretty: bool, depth: nat, w: string, rest: string, acc: seq<Value>)
    requires es != [] && AllSpace(w) && (forall i :: 0 <= i < |es| ==> AllIntegral(es[i]))
    ensures ParseElements(tiny, w + (ElementsText(es, pretty, depth) + (Indent(pretty, depth) + ("]" + rest))), acc) == Ok(Array(acc + es), rest)
    decreases es, 0
  {
    hide *;
    var r, i := AfterElement(es, pretty, depth, rest), Indent(pretty, depth + 1);
    IndentIsSpace(pretty, depth + 1);
    SpacesAppend(w, i);
    ElementsLayout(es, pretty, depth, w, rest);
    AfterElementReads(es, pretty, depth, rest);
    ValueRoundTrip(tiny, es[0], pretty, depth + 1, w + i, r);
    NextElement(tiny, (w + i) + (ValueText(es[0], pretty, depth + 1) + r), es[0], r, acc);
    MoveFirst(acc, es);
    if |es| == 1 {
      DropFirst(']', rest);
      assert acc + [es[0]] + [] == acc + [es[0]];
    } else {
      ElementsRoundTrip(tiny, es[1..], pretty, depth, Newline(pretty), rest, acc + [es[0]]);
    }
  }

  // ----- objects

  /** What follows the first member. */
  function AfterMember(ms: seq<Member>, pretty: bool, depth: nat, rest: string): string
    requires ms != []
  {
    Comma(|ms| > 1) + (Newline(pretty) + (MembersText(ms[1..], pretty, depth) + (Indent(pretty, depth) + ("}" + rest))))
  }

  /** What follows a member's name. */
  function AfterName(m: Member, pretty: bool, depth: nat, after: string): string {
    ":" + (Gap(pretty) + (ValueText(m.value, pretty, depth) + after))
  }

  lemma MembersLayout(ms: seq<Member>, pretty: bool, depth: nat, w: string, rest: string)
    requires ms != []
    ensures w + (MembersText(ms, pretty, depth) + (Indent(pretty, depth) + ("}" + rest))) ==
            (w + Indent(pretty, depth + 1))
            + (Quoted(ms[0].key) + AfterName(ms[0], pretty, depth + 1, AfterMember(ms, pretty, depth, rest)))
  {
    var i, k, g, v, c, n := Indent(pretty, depth + 1), Quoted(ms[0].key), Gap(pretty),
                            ValueText(ms[0].value, pretty, depth + 1), Comma(|ms| > 1), Newline(pretty);
    var e, z := MembersText(ms[1..], pretty, depth), Indent(pretty, depth) + ("}" + rest);
    assert MembersText(ms, pretty, depth) == i + (k + (":" + (g + (v + (c + (n + e))))));
    hide *;
    Assoc(i, k + (":" + (g + (v + (c + (n + e))))), z);
    Assoc(k, ":" + (g + (v + (c + (n + e)))), z);
    Assoc(":", g + (v + (c + (n + e))), z);
    Assoc(g, v + (c + (n + e)), z);
    Assoc(v, c + (n + e), z);
    Assoc(c, n + e, z);
    Assoc(n, e, z);
    Assoc(w, i, k + (":" + (g + (v + (c + (n + (e + z)))))));
  }

  lemma ObjectLayout(ms: seq<Member>, pretty: bool, depth: nat, rest: string)
    requires ms != []
    ensures ValueText(Object(ms), pretty, depth) + rest ==
            "{" + (Newline(pretty) + (MembersText(ms, pretty, depth) + (Indent(pretty, depth) + ("}" + rest))))
  {
    var n, e, i := Newline(pretty), MembersText(ms, pretty, depth), Indent(pretty, depth);
    assert ValueText(Object(ms), pretty, depth) == "{" + (n + (e + (i + "}")));
    hide *;
    Assoc("{", n + (e + (i + "}")), rest);
    Assoc(n, e + (i + "}"), rest);
    Assoc(e, i + "}", rest);
    Assoc(i, "}", rest);
  }

  lemma FirstMember(ms: seq<Member>, pretty: bool, depth: nat, rest: string)
    requires ms != []
    ensures var t := SkipSpace(Newline(pretty) + (MembersText(ms, pretty, depth) + (Indent(pretty, depth) + ("}" + rest))));
            t != "" && t[0] != '}'
  {
    hide MembersText, AfterName, AfterMember;
    IndentIsSpace(pretty, depth + 1);
    MembersLayout(ms, pretty, depth, Newline(pretty), rest);
    SkipTo(Newline(pretty) + Indent(pretty, depth + 1), Quoted(ms[0].key),
           AfterName(ms[0], pretty, depth + 1, AfterMember(ms, pretty, depth, rest)));
  }

  lemma {:induction false} ObjectRoundTrip(tiny: Library, ms: seq<Member>, pretty: bool, depth: nat, rest: string)
    requires AllIntegral(Object(ms)) && Boundary(rest)
    ensures ParseObject(tiny, ValueText(Object(ms), pretty, depth) + rest) == Ok(Object(ms), rest)
    decreases ms, 1
  {
    hide MembersText, ParseMembers;
    if ms == [] {
      assert ("{}" + rest)[1..] == "}" + rest;
      SkipTo("", "}", rest);
      assert "" + ("}" + rest) == "}" + rest;
      assert ("}" + rest)[1..] == rest;
    } else {
      var inner := Newline(pretty) + (MembersText(ms, pretty, depth) + (Indent(pretty, depth) + ("}" + rest)));
      ObjectLayout(ms, pretty, depth, rest);
      assert ("{" + inner)[1..] == inner;
      FirstMember(ms, pretty, depth, rest);
      IndentIsSpace(pretty, depth);
      SkipTwice(tiny, inner, [], []);
      MembersRoundTrip(tiny, ms, pretty, depth, Newline(pretty), rest, []);
      assert [] + ms == ms;
    }
  }

  lemma AfterMemberReads(ms: seq<Member>, pretty: bool, depth: nat, rest: string)
    requires ms != []
    ensures var r := AfterMember(ms, pretty, depth, rest);
            && Boundary(r)
            && SkipSpace(r) == if |ms| == 1 then "}" + rest
                               else "," + (Newline(pretty) + (MembersText(ms[1..], pretty, depth) + (Indent(pretty, depth) + ("}" + rest))))
  {
    var r := AfterMember(ms, pretty, depth, rest);
    var i, n := Indent(pretty, depth), Newline(pretty);
    IndentIsSpace(pretty, depth);
    if |ms| == 1 {
      assert r == n + (i + ("}" + rest)) by {
        assert "" + (n + ("" + (i + ("}" + rest)))) == n + (i + ("}" + rest));
      }
      Assoc(n, i, "}" + rest);
      SkipTo(n + i, "}", rest);
    } else {
      var t := n + (MembersText(ms[1..], pretty, depth) + (i + ("}" + rest)));
      assert r == "," + t;
      SkipTo("", ",", t);
      assert "" + r == r;
    }
  }

  /** One member reads back. */
  lemma {:induction false} MemberRoundTrip(tiny: Library, m: Member, pretty: bool, depth: nat, w: string, rest: string)
    requires AllSpace(w) && AllIntegral(m.value) && Boundary(rest)
    ensures ParseMember(tiny, w + (Quoted(m.key) + AfterName(m, pretty, depth, rest))) == Ok(m, rest)
    decreases m, 2
  {
    hide EscapeAll, ParseChars, ValueText, ParseValue;
    var u := AfterName(m, pretty, depth, rest);
    var t := Gap(pretty) + (ValueText(m.value, pretty, depth) + rest);
    SkipTo(w, Quoted(m.key), u);
    StringRoundTrip(m.key, u);
    SkipTo("", ":", t);
    assert "" + u == u && u[1..] == t;
    ValueRoundTrip(tiny, m.value, pretty, depth, Gap(pretty), rest);
  }

  lemma {:induction false} MembersRoundTrip(tiny: Library, ms: seq<Member>, pretty: bool, depth: nat, w: string, rest: string, acc: seq<Member>)
    requires ms != [] && AllSpace(w) && (forall i :: 0 <= i < |ms| ==> AllIntegral(ms[i].value))
    ensures ParseMembers(tiny, w + (MembersText(ms, pretty, depth) + (Indent(pretty, depth) + ("}" + rest))), acc) == Ok(Object(acc + ms), rest)
    decreases ms, 0
  {
    hide *;
    var r := AfterMember(ms, pretty, depth, rest);
    IndentIsSpace(pretty, depth + 1);
    SpacesAppend(w, Indent(pretty, depth + 1));
    MembersLayout(ms, pretty, depth, w, rest);
    AfterMemberReads(ms, pretty, depth, rest);
    MemberRoundTrip(tiny, ms[0], pretty, depth + 1, w + Indent(pretty, depth + 1), r);
    NextMember(tiny, (w + Indent(pretty, depth + 1)) + (Quoted(ms[0].key) + AfterName(ms[0], pretty, depth + 1, r)), ms[0], r, acc);
    MoveFirst(acc, ms);
    if |ms| == 1 {
      DropFirst('}', rest);
      assert acc + [ms[0]] + [] == acc + [ms[0]];
    } else {
      MembersRoundTrip(tiny, ms[1..], pretty, depth, Newline(pretty), rest, acc + [ms[0]]);
    }
  }

  lemma NextMember(tiny: Library, text: string, m: Member, r: string, acc: seq<Member>)
    requires ParseMember(tiny, text) == Ok(m, r) && SkipSpace(r) != ""
    ensures SkipSpace(r)[0] == '}' ==> ParseMembers(tiny, text, acc) == Ok(Object(acc + [m]), SkipSpace(r)[1..])
    ensures SkipSpace(r)[0] == ',' ==> ParseMembers(tiny, text, acc) == ParseMembers(tiny, SkipSpace(r)[1..], acc + [m])
  {
    hide ParseMember, SkipSpace;
  }

  /** `parse(serialize(v, pretty)) == v`, to the last byte of the text. */
  lemma DocumentRoundTrip(tiny: Library, v: Value, pretty: bool)
    requires AllIntegral(v)
    ensures ParseDocument(tiny, Serialize(v, pretty)) == Ok(v, "")
  {
    hide ValueText, ParseValue;
    var s := Serialize(v, pretty);
    SkipTwice(tiny, s, [], []);
    IndentIsSpace(pretty, 0);
    ValueRoundTrip(tiny, v, pretty, 0, "", Newline(pretty));
    assert "" + s == s;
    SkipsSpace(Newline(pretty), "");
    assert Newline(pretty) + "" == Newline(pretty);
  }
}
