/** The JSON parser and printer as the program runs them: a cursor over the text,
    buffers that grow, and one error remembered. Each operation is proved to do
    what the functions of JsonParsing and Json say. */
module JsonParser {
  import opened Json
  import opened JsonParsing
  import opened JsonRoundTrip

  datatype ParseResult = ParseResult(ok: bool, value: Value, error: string, position: nat)

  class Parser {
    const text: string
    const tiny: Library
    var pos: nat
    var error: string
    var errorPos: nat

    constructor (text: string, tiny: Library)
      ensures this.text == text && this.tiny == tiny && pos == 0 && error == ""
    {
      this.text, this.tiny := text, tiny;
      pos, error, errorPos := 0, "", 0;
    }

    /** The cursor is in the text and nothing has gone wrong. */
    ghost predicate Ready()
      reads this
    {
      pos <= |text| && error == ""
    }

    /** The parser's state is where result r says: at what is left of the text, or
        with r's message at the place it was found. */
    ghost predicate Reached<T>(r: Parsed<T>)
      reads this
    {
      match r
      case Ok(_, rest) => Ready() && text[pos..] == rest
      case Fail(message, rest) => errorPos <= |text| && error == message && error != "" && text[errorPos..] == rest
    }

    method SetError(message: string) returns (no: bool)
      requires pos <= |text| && message != ""
      modifies `error, `errorPos
      ensures !no && (old(error) == "" ==> error == message && errorPos == pos)
      ensures old(error) != "" ==> error == old(error) && errorPos == old(errorPos)
    {
      if error == "" {
        error := message;
        errorPos := pos;
      }
      return false;
    }

    method SkipWhitespace()
      requires Ready()
      modifies `pos
      ensures Ready() && text[pos..] == SkipSpace(text[old(pos)..])
    {
      while pos < |text|
        invariant Ready() && old(pos) <= pos && SkipSpace(text[pos..]) == SkipSpace(text[old(pos)..])
        decreases |text| - pos
      {
        var c := text[pos];
        assert text[pos..][1..] == text[pos + 1..];
        if c == ' ' || c == '\t' || c == '\n' || c == '\r' {
          pos := pos + 1;
        } else {
          break;
        }
      }
    }

    method ReadLiteral(word: string, ghost value: Value) returns (ok: bool)
      requires Ready()
      modifies `pos, `error, `errorPos
      ensures var r := ParseLiteral(text[old(pos)..], word, value); ok == r.Ok? && Reached(r)
    {
      ghost var s := text[pos..];
      if pos + |word| > |text| || text[pos..pos + |word|] != word {
        assert word <= s ==> s[..|word|] == word;
        ok := SetError("invalid literal");
      } else {
        assert s[..|word|] == word;
        pos := pos + |word|;
        ok := true;
      }
    }

    method ReadBool() returns (ok: bool, out: Value)
      requires Ready() && pos < |text| && (text[pos] == 't' || text[pos] == 'f')
      modifies `pos, `error, `errorPos
      ensures var s := text[old(pos)..];
              var r := if s[0] == 't' then ParseLiteral(s, "true", Boolean(true)) else ParseLiteral(s, "false", Boolean(false));
              ok == r.Ok? && Reached(r) && (ok ==> out == r.value)
    {
      out := Null;
      if text[pos] == 't' {
        ok := ReadLiteral("true", Boolean(true));
        if ok {
          out := Boolean(true);
        }
      } else {
        ok := ReadLiteral("false", Boolean(false));
        if ok {
          out := Boolean(false);
        }
      }
    }

    method ReadNull() returns (ok: bool, out: Value)
      requires Ready()
      modifies `pos, `error, `errorPos
      ensures var r := ParseLiteral(text[old(pos)..], "null", Null); ok == r.Ok? && Reached(r) && (ok ==> out == r.value)
    {
      out := Null;
      ok := ReadLiteral("null", Null);
    }

    /** The characters a number may be made of. */
    method NumberToken() returns (token: string)
      requires Ready()
      modifies `pos
      ensures Ready() && old(pos) <= pos && token == text[old(pos)..pos]
      ensures NumberSpan(text[old(pos)..]) == pos - old(pos)
    {
      hide NumberSpan;
      var start := pos;
      if pos < |text| && text[pos] == '-' {
        pos := pos + 1;
      }
      while pos < |text| && IsNumberChar(text[pos])
        invariant start <= pos <= |text| && (forall i :: start <= i < pos ==> IsNumberChar(text[i]))
      {
        pos := pos + 1;
      }
      SpanIs(text[start..], pos - start);
      return text[start..pos];
    }

    method ReadNumber() returns (ok: bool, out: Value)
      requires Ready()
      modifies `pos, `error, `errorPos
      ensures var r := ParseNumber(tiny, text[old(pos)..]); ok == r.Ok? && Reached(r) && (ok ==> out == r.value)
    {
      hide ReadDouble, NumberSpan, ParseNumber;
      out := Null;
      ghost var s := text[pos..];
      var token := NumberToken();
      NumberIs(tiny, s, |token|);
      assert token == s[..|token|] && text[pos..] == s[|token|..];
      if token == "" {
        ok := SetError("expected a value");
        return;
      }
      var number := ReadDouble(tiny, token);
      if !number.Double? || number.consumed != |token| {
        ok := SetError("malformed number");
        return;
      }
      ok, out := true, Number(number.num);
    }

    method ReadHex4() returns (ok: bool, out: nat)
      requires Ready()
      modifies `pos, `error, `errorPos
      ensures var r := ParseHex4(text[old(pos)..]); ok == r.Ok? && Reached(r) && (ok ==> out == r.value)
    {
      hide HexValue, ParseHex, HexRange;
      HexRanges();
      out := 0;
      if pos + 4 > |text| {
        ok := SetError("truncated \\u escape");
        return;
      }
      ghost var from := text[pos..];
      for i := 0 to 4
        invariant Ready() && pos == old(pos) + i && pos + (4 - i) <= |text| && out < HexRange(i)
        invariant ParseHex4(from) == ParseHex(text[pos..], 4 - i, out)
      {
        var c := text[pos];
        assert text[pos..][1..] == text[pos + 1..];
        HexStep(text[pos..], 4 - i, out);
        pos := pos + 1;
        if HexValue(c) < 0 {
          ok := SetError("invalid \\u escape");
          return;
        }
        out := out * 16 + HexValue(c);
      }
      HexDone(text[pos..], out);
      ok := true;
    }

    /** The rest of a `\u` escape, its bytes appended to the buffer. */
    method ReadUnicodeEscape(out: string) returns (ok: bool, out': string)
      requires Ready()
      modifies `pos, `error, `errorPos
      ensures var r := ParseUnicode(text[old(pos)..]); ok == r.Ok? && Reached(r) && (ok ==> out' == out + r.value)
    {
      hide ParseHex4, Utf8;
      out' := out;
      var code;
      ok, code := ReadHex4();
      if !ok {
        return;
      }
      if 0xd800 <= code <= 0xdbff {
        // a high surrogate: a low one must follow
        if pos + 2 > |text| || text[pos] != '\\' || text[pos + 1] != 'u' {
          ok := SetError("unpaired surrogate");
          return;
        }
        assert text[pos..][2..] == text[pos + 2..];
        pos := pos + 2;
        var low;
        ok, low := ReadHex4();
        if !ok {
          return;
        }
        if low < 0xdc00 || low > 0xdfff {
          ok := SetError("invalid low surrogate");
          return;
        }
        code := 0x10000 + (code - 0xd800) * 1024 + (low - 0xdc00);
      }
      out' := out' + Utf8(code);
    }

    /** What follows a backslash, appended to the buffer. */
    method ReadEscape(out: string) returns (ok: bool, out': string)
      requires Ready()
      modifies `pos, `error, `errorPos
      ensures var r := ParseEscape(text[old(pos)..]); ok == r.Ok? && Reached(r) && (ok ==> out' == out + r.value)
    {
      hide ParseUnicode;
      out' := out;
      if pos >= |text| {
        ok := SetError("unterminated escape");
        return;
      }
      var escape := text[pos];
      assert text[pos..][1..] == text[pos + 1..];
      pos := pos + 1;
      if escape == 'u' {
        ok, out' := ReadUnicodeEscape(out);
      } else if SimpleEscape(escape) != "" {
        ok, out' := true, out + SimpleEscape(escape);
      } else {
        ok := SetError("invalid escape");
      }
    }

    method ReadString() returns (ok: bool, out: string)
      requires Ready() && pos < |text|
      modifies `pos, `error, `errorPos
      ensures var r := ParseString(text[old(pos)..]); ok == r.Ok? && Reached(r) && (ok ==> out == r.value)
    {
      hide ParseEscape;
      out := "";
      if text[pos] != '"' {
        ok := SetError("expected a string");
        return;
      }
      ghost var from := text[pos + 1..];
      assert text[pos..][1..] == from;
      pos := pos + 1;
      while pos < |text|
        invariant Ready() && ParseChars(from, "") == ParseChars(text[pos..], out)
        decreases |text| - pos
      {
        var c := text[pos];
        assert text[pos..][1..] == text[pos + 1..];
        pos := pos + 1;
        if c == '"' {
          ok := true;
          return;
        }
        if c == '\\' {
          ok, out := ReadEscape(out);
          if !ok {
            return;
          }
        } else {
          out := out + [c];
        }
      }
      ok := SetError("unterminated string");
    }

    // ----- values

    method ReadValue() returns (ok: bool, out: Value)
      requires Ready()
      modifies `pos, `error, `errorPos
      ensures var r := ParseValue(tiny, text[old(pos)..]); ok == r.Ok? && Reached(r) && (ok ==> out == r.value)
      decreases |text| - pos, 2
    {
      hide ParseNumber, ParseString, ParseArray, ParseObject, ParseLiteral, SkipSpace;
      SkipWhitespace();
      out := Null;
      if pos >= |text| {
        ok := SetError("unexpected end of input");
        return;
      }
      match text[pos]
      case '{' => ok, out := ReadObject();
      case '[' => ok, out := ReadArray();
      case '"' =>
        var s;
        ok, s := ReadString();
        out := Text(s);
      case 't' => ok, out := ReadBool();
      case 'f' => ok, out := ReadBool();
      case 'n' => ok, out := ReadNull();
      case _ => ok, out := ReadNumber();
    }

    method ReadArray() returns (ok: bool, out: Value)
      requires Ready() && pos < |text|
      modifies `pos, `error, `errorPos
      ensures var r := ParseArray(tiny, text[old(pos)..]); ok == r.Ok? && Reached(r) && (ok ==> out == r.value)
      decreases |text| - pos, 1
    {
      hide ParseValue, SkipSpace;
      out := Null;
      assert text[pos..][1..] == text[pos + 1..];
      pos := pos + 1; // past the bracket
      var elements: seq<Value> := [];
      SkipWhitespace();
      ghost var t := text[pos..];
      if pos < |text| && text[pos] == ']' {
        assert t[1..] == text[pos + 1..];
        pos := pos + 1;
        return true, Array([]);
      }
      while true
        invariant Ready() && old(pos) < pos
        invariant ParseElements(tiny, t, []) == ParseElements(tiny, text[pos..], elements)
        decreases |text| - pos
      {
        var element;
        ok, element := ReadValue();
        if !ok {
          return;
        }
        elements := elements + [element];
        SkipWhitespace();
        if pos >= |text| {
          ok := SetError("unterminated array");
          return;
        }
        var c := text[pos];
        assert text[pos..][1..] == text[pos + 1..];
        pos := pos + 1;
        if c == ']' {
          break;
        }
        if c != ',' {
          ok := SetError("expected ',' or ']'");
          return;
        }
      }
      ok, out := true, Array(elements);
    }

    method ReadMember() returns (ok: bool, m: Member)
      requires Ready()
      modifies `pos, `error, `errorPos
      ensures var r := ParseMember(tiny, text[old(pos)..]); ok == r.Ok? && Reached(r) && (ok ==> m == r.value)
      decreases |text| - pos, 3
    {
      hide ParseValue, ParseString, SkipSpace;
      m := Member("", Null);
      SkipWhitespace();
      if pos >= |text| || text[pos] != '"' {
        ok := SetError("expected a member name");
        return;
      }
      var key;
      ok, key := ReadString();
      if !ok {
        return;
      }
      SkipWhitespace();
      if pos >= |text| {
        ok := SetError("expected ':'");
        return;
      }
      var c := text[pos];
      assert text[pos..][1..] == text[pos + 1..];
      pos := pos + 1;
      if c != ':' {
        ok := SetError("expected ':'");
        return;
      }
      var value;
      ok, value := ReadValue();
      m := Member(key, value);
    }

    method ReadObject() returns (ok: bool, out: Value)
      requires Ready() && pos < |text|
      modifies `pos, `error, `errorPos
      ensures var r := ParseObject(tiny, text[old(pos)..]); ok == r.Ok? && Reached(r) && (ok ==> out == r.value)
      decreases |text| - pos, 1
    {
      hide ParseMember, SkipSpace;
      out := Null;
      assert text[pos..][1..] == text[pos + 1..];
      pos := pos + 1; // past the brace
      var members: seq<Member> := [];
      SkipWhitespace();
      ghost var t := text[pos..];
      if pos < |text| && text[pos] == '}' {
        assert t[1..] == text[pos + 1..];
        pos := pos + 1;
        return true, Object([]);
      }
      while true
        invariant Ready() && old(pos) < pos
        invariant ParseMembers(tiny, t, []) == ParseMembers(tiny, text[pos..], members)
        decreases |text| - pos
      {
        var member;
        ok, member := ReadMember();
        if !ok {
          return;
        }
        members := members + [member];
        SkipWhitespace();
        if pos >= |text| {
          ok := SetError("unterminated object");
          return;
        }
        var c := text[pos];
        assert text[pos..][1..] == text[pos + 1..];
        pos := pos + 1;
        if c == '}' {
          break;
        }
        if c != ',' {
          ok := SetError("expected ',' or '}'");
          return;
        }
      }
      ok, out := true, Object(members);
    }

    /** The whole document. On success the whole text was consumed; on failure the
        message and the position it was found at. */
    method Run() returns (result: ParseResult)
      requires Ready() && pos == 0
      modifies this
      ensures var r := ParseDocument(tiny, text);
              if r.Ok? then result == ParseResult(true, r.value, "", |text|)
              else !result.ok && result.error == r.message && result.position <= |text| && text[result.position..] == r.rest
    {
      hide ParseValue, SkipSpace;
      assert text[0..] == text;
      SkipWhitespace();
      var ok, value := ReadValue();
      if !ok {
        return ParseResult(false, Null, if error == "" then "invalid JSON" else error, errorPos);
      }
      SkipWhitespace();
      if pos != |text| {
        ok := SetError("trailing data after JSON document");
        return ParseResult(false, Null, if error == "" then "invalid JSON" else error, errorPos);
      }
      return ParseResult(true, value, "", pos);
    }
  }

  /** A number that takes the first n characters. */
  lemma NumberIs(tiny: Library, s: string, n: nat)
    requires NumberSpan(s) == n
    ensures n <= |s|
    ensures ParseNumber(tiny, s) ==
            if n == 0 then Fail("expected a value", s)
            else
              var d := ReadDouble(tiny, s[..n]);
              if d.Double? && d.consumed == n then Ok(Number(d.num), s[n..]) else Fail("malformed number", s[n..])
  {
    hide ReadDouble;
  }

  lemma HexRanges()
    ensures HexRange(0) == 1 && HexRange(4) == 0x10000
  {
  }

  /** One more digit of an escape. */
  lemma HexStep(s: string, n: nat, acc: nat)
    requires 0 < n <= |s| && n <= 4 && acc < HexRange(4 - n)
    ensures HexValue(s[0]) < 0 ==> ParseHex(s, n, acc) == Fail("invalid \\u escape", s[1..])
    ensures HexValue(s[0]) >= 0 ==> acc * 16 + HexValue(s[0]) < HexRange(5 - n)
                                    && ParseHex(s, n, acc) == ParseHex(s[1..], n - 1, acc * 16 + HexValue(s[0]))
  {
    hide HexValue;
  }

  lemma HexDone(s: string, acc: nat)
    requires acc < HexRange(4)
    ensures ParseHex(s, 0, acc) == Ok(acc, s)
  {
  }

  /** `parse`. */
  method Parse(tiny: Library, text: string) returns (result: ParseResult)
    ensures var r := ParseDocument(tiny, text);
            if r.Ok? then result == ParseResult(true, r.value, "", |text|)
            else !result.ok && result.error == r.message && result.position <= |text| && text[result.position..] == r.rest
  {
    var parser := new Parser(text, tiny);
    result := parser.Run();
  }

  // ----- the printer

  lemma EscapeStep(s: string, i: nat)
    requires i < |s|
    ensures EscapeAll(s[i..]) == Escape(s[i]) + EscapeAll(s[i + 1..])
  {
    assert s[i..][1..] == s[i + 1..];
  }

  lemma QuotedIs(s: string)
    ensures Quoted(s) == "\"" + EscapeAll(s) + "\"" && EscapeAll("") == ""
  {
  }

  method AppendEscaped(out: string, s: string) returns (out': string)
    ensures out' == out + Quoted(s)
  {
    hide *;
    out' := out + "\"";
    assert s[0..] == s;
    for i := 0 to |s|
      invariant out' + EscapeAll(s[i..]) == out + "\"" + EscapeAll(s)
    {
      EscapeStep(s, i);
      assert out' + (Escape(s[i]) + EscapeAll(s[i + 1..])) == (out' + Escape(s[i])) + EscapeAll(s[i + 1..]);
      out' := out' + Escape(s[i]);
    }
    QuotedIs(s);
    assert s[|s|..] == "" && out' + "" == out';
    out' := out' + "\"";
    assert out' == out + ("\"" + EscapeAll(s) + "\"");
  }

  /** `serialize_into`: the value's text goes at the end of the shared buffer. */
  method SerializeInto(v: Value, out: string, pretty: bool, depth: nat) returns (out': string)
    ensures out' == out + ValueText(v, pretty, depth)
    decreases v, 1
  {
    match v
    case Null => out' := out + "null";
    case Boolean(b) => out' := out + if b then "true" else "false";
    case Number(num) => out' := out + NumText(num);
    case Text(s) => out' := AppendEscaped(out, s);
    case Array(elements) =>
      if |elements| == 0 {
        return out + "[]";
      }
      out' := out + "[" + Newline(pretty);
      out' := SerializeElements(elements, out', pretty, depth);
      out' := out' + Indent(pretty, depth) + "]";
      Layout(out, "[", Newline(pretty), ElementsText(elements, pretty, depth), Indent(pretty, depth), "]");
    case Object(members) =>
      if |members| == 0 {
        return out + "{}";
      }
      out' := out + "{" + Newline(pretty);
      out' := SerializeMembers(members, out', pretty, depth);
      out' := out' + Indent(pretty, depth) + "}";
      Layout(out, "{", Newline(pretty), MembersText(members, pretty, depth), Indent(pretty, depth), "}");
  }

  lemma Layout(out: string, open: string, n: string, body: string, i: string, close: string)
    ensures out + open + n + body + i + close == out + (open + (n + (body + (i + close))))
  {
    Assoc(out, open, n + (body + (i + close)));
    Assoc(out + open, n, body + (i + close));
    Assoc(out + open + n, body, i + close);
    Assoc(out + open + n + body, i, close);
  }

  method SerializeElements(es: seq<Value>, out: string, pretty: bool, depth: nat) returns (out': string)
    ensures out' == out + ElementsText(es, pretty, depth)
    decreases es, 0
  {
    out' := out;
    for k := 0 to |es|
      invariant out' + ElementsText(es[k..], pretty, depth) == out + ElementsText(es, pretty, depth)
    {
      ghost var was := out';
      out' := out' + Indent(pretty, depth + 1);
      out' := SerializeInto(es[k], out', pretty, depth + 1);
      if k + 1 < |es| {
        out' := out' + ",";
      }
      out' := out' + Newline(pretty);
      assert es[k..][0] == es[k] && es[k..][1..] == es[k + 1..];
      assert out' == was + Indent(pretty, depth + 1) + ValueText(es[k], pretty, depth + 1) + Comma(|es[k..]| > 1) + Newline(pretty);
      Layout(was, Indent(pretty, depth + 1), ValueText(es[k], pretty, depth + 1), Comma(|es[k..]| > 1), Newline(pretty),
             ElementsText(es[k + 1..], pretty, depth));
    }
    assert es[|es|..] == [];
  }

  method SerializeMembers(ms: seq<Member>, out: string, pretty: bool, depth: nat) returns (out': string)
    ensures out' == out + MembersText(ms, pretty, depth)
    decreases ms, 0
  {
    hide *;
    out' := out;
    MembersEnd(pretty, depth);
    assert ms[0..] == ms;
    for k := 0 to |ms|
      invariant out' + MembersText(ms[k..], pretty, depth) == out + MembersText(ms, pretty, depth)
    {
      ghost var was := out';
      out' := out' + Indent(pretty, depth + 1);
      out' := AppendEscaped(out', ms[k].key);
      out' := out' + ":" + Gap(pretty);
      out' := SerializeInto(ms[k].value, out', pretty, depth + 1);
      CommaIs(out', k + 1 < |ms|);
      if k + 1 < |ms| {
        out' := out' + ",";
      }
      out' := out' + Newline(pretty);
      MemberLayout(ms[k..], pretty, depth, was);
      assert ms[k..][0] == ms[k] && ms[k..][1..] == ms[k + 1..];
    }
    assert ms[|ms|..] == [] && out' + "" == out';
  }

  lemma MembersEnd(pretty: bool, depth: nat)
    ensures MembersText([], pretty, depth) == ""
  {
  }

  lemma CommaIs(out: string, more: bool)
    ensures out + Comma(more) == if more then out + "," else out
  {
  }

  lemma MemberLayout(ms: seq<Member>, pretty: bool, depth: nat, was: string)
    requires ms != []
    ensures was + Indent(pretty, depth + 1) + Quoted(ms[0].key) + ":" + Gap(pretty) + ValueText(ms[0].value, pretty, depth + 1)
            + Comma(|ms| > 1) + Newline(pretty) + MembersText(ms[1..], pretty, depth) == was + MembersText(ms, pretty, depth)
  {
    var i, k, g, v := Indent(pretty, depth + 1), Quoted(ms[0].key), Gap(pretty), ValueText(ms[0].value, pretty, depth + 1);
    var c, n, e := Comma(|ms| > 1), Newline(pretty), MembersText(ms[1..], pretty, depth);
    assert MembersText(ms, pretty, depth) == i + (k + (":" + (g + (v + (c + (n + e))))));
    hide *;
    Assoc(was, i, k + (":" + (g + (v + (c + (n + e))))));
    Assoc(was + i, k, ":" + (g + (v + (c + (n + e)))));
    Assoc(was + i + k, ":", g + (v + (c + (n + e))));
    Layout(was + i + k + ":", g, v, c, n, e);
  }

  /** `serialize`. */
  method SerializeText(v: Value, pretty: bool) returns (out: string)
    ensures out == Serialize(v, pretty)
  {
    out := SerializeInto(v, "", pretty, 0);
    assert "" + ValueText(v, pretty, 0) == ValueText(v, pretty, 0);
    if pretty {
      out := out + "\n";
    }
  }

  /** What is printed parses back as the value that was printed, the whole text
      consumed. */
  method PrintAndParse(tiny: Library, v: Value, pretty: bool) returns (text: string, result: ParseResult)
    ensures AllIntegral(v) ==> result == ParseResult(true, v, "", |text|)
  {
    text := SerializeText(v, pretty);
    result := Parse(tiny, text);
    if AllIntegral(v) {
      DocumentRoundTrip(tiny, v, pretty);
    }
  }

  lemma {:induction false} SpanIs(s: string, n: nat)
    requires n <= |s| && (forall i :: 0 <= i < n ==> IsNumberChar(s[i])) && (n < |s| ==> !IsNumberChar(s[n]))
    ensures NumberSpan(s) == n
    decreases |s|
  {
    if n > 0 {
      SpanIs(s[1..], n - 1);
    }
  }
}
