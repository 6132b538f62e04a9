/** JSON values, their text, and reading it back. A string is a sequence of bytes
    written as characters; a number is an integer where the text is one. */
module Json {

  datatype Num = Integral(n: int) | Token(text: string)

  datatype Member = Member(key: string, value: Value)

  datatype Value =
    | Null
    | Boolean(b: bool)
    | Number(num: Num)
    | Text(s: string)
    | Array(elements: seq<Value>)
    | Object(members: seq<Member>)

  const INTEGRAL_LIMIT := 1_000_000_000_000_000

  /** Every number in the value is one that is written as an integer. */
  predicate AllIntegral(v: Value) {
    match v
    case Number(num) => num.Integral? && -INTEGRAL_LIMIT < num.n < INTEGRAL_LIMIT
    case Array(elements) => forall i :: 0 <= i < |elements| ==> AllIntegral(elements[i])
    case Object(members) => forall i :: 0 <= i < |members| ==> AllIntegral(members[i].value)
    case _ => true
  }

  // ----- the text of a value

  function Digit(d: nat): char
    requires d < 10
  {
    ('0' as int + d) as char
  }

  function DecimalNat(n: nat): (s: string)
    ensures |s| >= 1
  {
    if n < 10 then [Digit(n)] else DecimalNat(n / 10) + [Digit(n % 10)]
  }

  /** `%lld`. */
  function Decimal(n: int): string {
    if n < 0 then "-" + DecimalNat(-n) else DecimalNat(n)
  }

  function HexDigit(d: nat): char
    requires d < 16
  {
    if d < 10 then ('0' as int + d) as char else ('a' as int + d - 10) as char
  }

  /** One byte of a string literal. */
  function Escape(c: char): string {
    if c == '"' then "\\\""
    else if c == '\\' then "\\\\"
    else if c as int == 8 then "\\b"
    else if c as int == 12 then "\\f"
    else if c == '\n' then "\\n"
    else if c == '\r' then "\\r"
    else if c == '\t' then "\\t"
    else if c as int < 0x20 then "\\u00" + [HexDigit(c as int / 16), HexDigit(c as int % 16)]
    else [c]
  }

  function EscapeAll(s: string): string {
    if s == "" then "" else Escape(s[0]) + EscapeAll(s[1..])
  }

  function Quoted(s: string): string {
    "\"" + EscapeAll(s) + "\""
  }

  function Spaces(n: nat): string {
    seq(n, _ => ' ')
  }

  function Indent(pretty: bool, depth: nat): string {
    if pretty then Spaces(2 * depth) else ""
  }

  function Newline(pretty: bool): string {
    if pretty then "\n" else ""
  }

  function NumText(num: Num): string {
    match num
    case Integral(n) => Decimal(n)
    case Token(text) => text
  }

  /** The text `serialize_into` appends for a value. */
  function ValueText(v: Value, pretty: bool, depth: nat): string
    decreases v, 1
  {
    match v
    case Null => "null"
    case Boolean(b) => if b then "true" else "false"
    case Number(num) => NumText(num)
    case Text(s) => Quoted(s)
    case Array(elements) =>
      if elements == [] then "[]"
      else "[" + (Newline(pretty) + (ElementsText(elements, pretty, depth) + (Indent(pretty, depth) + "]")))
    case Object(members) =>
      if members == [] then "{}"
      else "{" + (Newline(pretty) + (MembersText(members, pretty, depth) + (Indent(pretty, depth) + "}")))
  }

  function Comma(more: bool): string {
    if more then "," else ""
  }

  function Gap(pretty: bool): string {
    if pretty then " " else ""
  }

  /** Each element on its own line, the last without a comma. */
  function ElementsText(es: seq<Value>, pretty: bool, depth: nat): string
    decreases es, 0
  {
    if es == [] then ""
    else Indent(pretty, depth + 1)
         + (ValueText(es[0], pretty, depth + 1)
            + (Comma(|es| > 1) + (Newline(pretty) + ElementsText(es[1..], pretty, depth))))
  }

  function MembersText(ms: seq<Member>, pretty: bool, depth: nat): string
    decreases ms, 0
  {
    if ms == [] then ""
    else Indent(pretty, depth + 1)
         + (Quoted(ms[0].key)
            + (":" + (Gap(pretty)
                      + (ValueText(ms[0].value, pretty, depth + 1)
                         + (Comma(|ms| > 1) + (Newline(pretty) + MembersText(ms[1..], pretty, depth)))))))
  }

  /** `serialize`. */
  function Serialize(v: Value, pretty: bool): string {
    ValueText(v, pretty, 0) + Newline(pretty)
  }
}
