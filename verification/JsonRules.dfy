/** The parts of the JSON grammar that printing never uses: either case of a hex digit,
    every escape with a letter, and what may follow a document. */
module JsonRules {
  import opened Json
  import opened JsonParsing
  import opened JsonRoundTrip

  // ----- digits and letters (section 7 of RFC 8259)

  const LOWER := "0123456789abcdef"
  const UPPER := "0123456789ABCDEF"

  /** A character is the hex digit n if and only if it is n's digit of either case. */
  lemma HexIff(c: char, n: int)
    requires 0 <= n < 16
    ensures HexValue(c) == n <==> c == LOWER[n] || c == UPPER[n]
  {
  }

  /** And none if and only if it is no digit's. */
  lemma NoHexIff(c: char)
    ensures HexValue(c) < 0 <==> c !in LOWER && c !in UPPER
  {
    var n := HexValue(c);
    if n >= 0 {
      HexIff(c, n);
    }
    if i :| 0 <= i < 16 && (LOWER[i] == c || UPPER[i] == c) {
      HexIff(c, i);
    }
  }

  const LETTERS := "\"\\/bfnrt"
  const CODES := [0x22, 0x5c, 0x2f, 0x8, 0xc, 0xa, 0xd, 0x9]

  /** A backslash and a letter stand for the letter's character; no others are taken
      but for `u`. */
  lemma EscapesIff(c: char, t: string, acc: string, i: nat)
    requires i < 8
    ensures ParseChars("\\" + ([LETTERS[i]] + t), acc) == ParseChars(t, acc + [CODES[i] as char])
    ensures c !in LETTERS && c != 'u' ==> ParseChars("\\" + ([c] + t), acc) == Fail("invalid escape", t)
  {
    hide *;
    LetterIs(i);
    Escaped(LETTERS[i], t, acc);
    if c !in LETTERS && c != 'u' {
      Escaped(c, t, acc);
      NoLetter(c);
    }
  }

  lemma LetterIs(i: nat)
    requires i < 8
    ensures |LETTERS| == 8 == |CODES| && LETTERS[i] != 'u' && 0 <= CODES[i] < 128 && SimpleEscape(LETTERS[i]) == [CODES[i] as char]
  {
  }

  lemma NoLetter(c: char)
    requires c !in LETTERS
    ensures SimpleEscape(c) == ""
  {
    assert LETTERS[0] == '"' && LETTERS[1] == '\\' && LETTERS[2] == '/' && LETTERS[3] == 'b';
    assert LETTERS[4] == 'f' && LETTERS[5] == 'n' && LETTERS[6] == 'r' && LETTERS[7] == 't';
  }

  lemma Escaped(c: char, t: string, acc: string)
    requires c != 'u'
    ensures ParseChars("\\" + ([c] + t), acc) ==
            if SimpleEscape(c) != "" then ParseChars(t, acc + SimpleEscape(c)) else Fail("invalid escape", t)
  {
    hide SimpleEscape;
    assert ("\\" + ([c] + t))[1..] == [c] + t && ([c] + t)[1..] == t;
  }

  // ----- after the document

  lemma {:induction false} SkipsAllIff(s: string)
    ensures SkipSpace(s) == "" <==> AllSpace(s)
    decreases |s|
  {
    if s != "" && IsSpace(s[0]) {
      SkipsAllIff(s[1..]);
      assert AllSpace(s) <==> AllSpace(s[1..]) by {
        assert s == [s[0]] + s[1..];
      }
    }
  }

  /** A printed value, whatever space stands before it, is a document if and only if
      nothing but space follows; anything else is refused where it begins. */
  lemma TrailingIff(tiny: Library, v: Value, pretty: bool, w: string, rest: string)
    requires AllIntegral(v) && AllSpace(w) && Boundary(rest)
    ensures ParseDocument(tiny, w + (ValueText(v, pretty, 0) + rest)) ==
            if AllSpace(rest) then Ok(v, "") else Fail("trailing data after JSON document", SkipSpace(rest))
  {
    hide *;
    var s := w + (ValueText(v, pretty, 0) + rest);
    SkipTwice(tiny, s, [], []);
    ValueRoundTrip(tiny, v, pretty, 0, w, rest);
    SkipsAllIff(rest);
    DocumentStep(tiny, s);
  }

  lemma DocumentStep(tiny: Library, s: string)
    ensures var r := ParseValue(tiny, SkipSpace(s));
            r.Ok? ==> ParseDocument(tiny, s) ==
                      if SkipSpace(r.rest) == "" then Ok(r.value, "")
                      else Fail("trailing data after JSON document", SkipSpace(r.rest))
  {
    hide ParseValue, SkipSpace;
  }

  // ----- what is printed

  /** A string is printed without control characters, and what ends it is not escaped. */
  lemma {:induction false} PrintedClean(s: string)
    ensures forall c <- EscapeAll(s) :: c >= ' '
    decreases |s|
  {
    hide Escape;
    if s != "" {
      EscapeClean(s[0]);
      PrintedClean(s[1..]);
    }
  }

  lemma EscapeClean(c: char)
    ensures forall e <- Escape(c) :: e >= ' '
  {
    if c as int < 0x20 {
      HexClean(c as int / 16);
      HexClean(c as int % 16);
    }
    hide HexDigit;
  }

  lemma HexClean(d: nat)
    requires d < 16
    ensures HexDigit(d) == LOWER[d] && HexDigit(d) >= ' '
  {
  }
}
