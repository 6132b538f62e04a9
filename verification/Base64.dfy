/** Base64 (section 4 of RFC 4648), and the decoder's bit buffer. */
module Base64 {

  type Byte = b: int | 0 <= b < 256

  predicate IsBreak(c: char) {
    c == '\n' || c == '\r'
  }

  /** The value of a letter of the alphabet, -1 for any other character. */
  function ValueOf(c: char): (v: int)
    ensures -1 <= v < 64
  {
    if 'A' <= c <= 'Z' then c as int - 'A' as int
    else if 'a' <= c <= 'z' then c as int - 'a' as int + 26
    else if '0' <= c <= '9' then c as int - '0' as int + 52
    else if c == '+' then 62 else if c == '/' then 63 else -1
  }

  function Letter(v: nat): (c: char)
    requires v < 64
    ensures ValueOf(c) == v && c != '=' && !IsBreak(c)
  {
    if v < 26 then ('A' as int + v) as char
    else if v < 52 then ('a' as int + v - 26) as char
    else if v < 62 then ('0' as int + v - 52) as char
    else if v == 62 then '+' else '/'
  }

  /** Three bytes are four letters; one or two left over are padded with '='. */
  function Encode(b: seq<Byte>): string {
    if b == [] then ""
    else if |b| == 1 then [Letter(b[0] / 4), Letter(b[0] % 4 * 16), '=', '=']
    else if |b| == 2 then [Letter(b[0] / 4), Letter(b[0] % 4 * 16 + b[1] / 16), Letter(b[1] % 16 * 4), '=']
    else FourLetters(b[0], b[1], b[2]) + Encode(b[3..])
  }

  /** The letters of three bytes. */
  function FourLetters(x: Byte, y: Byte, z: Byte): string {
    [Letter(x / 4), Letter(x % 4 * 16 + y / 16), Letter(y % 16 * 4 + z / 64), Letter(z % 64)]
  }

  /** A text without its line breaks. */
  function Strip(text: string): string {
    if text == "" then "" else Strip(text[..|text| - 1]) + (if IsBreak(text[|text| - 1]) then "" else [text[|text| - 1]])
  }

  // ----- the decoder, one character at a time

  /** Bytes so far, the bits of the last letters not yet in a byte, and counts. */
  datatype State = State(out: seq<Byte>, pending: nat, bits: nat, padding: nat, symbols: nat) | Rejected

  const START := State([], 0, 0, 0, 0)

  predicate Sound(st: State) {
    st.State? ==> (st.bits == 0 && st.pending == 0) || (st.bits == 2 && st.pending < 4)
                  || (st.bits == 4 && st.pending < 16) || (st.bits == 6 && st.pending < 64)
  }

  function AddLetter(st: State, v: nat, limit: nat): (r: State)
    requires st.State? && Sound(st) && v < 64
    ensures Sound(r)
  {
    var p := st.pending * 64 + v;
    if st.bits == 0 then st.(pending := v, bits := 6, symbols := st.symbols + 1)
    else if |st.out| >= limit then Rejected
    else if st.bits == 6 then State(st.out + [p / 16], p % 16, 4, st.padding, st.symbols + 1)
    else if st.bits == 4 then State(st.out + [p / 4], p % 4, 2, st.padding, st.symbols + 1)
    else State(st.out + [p], 0, 0, st.padding, st.symbols + 1)
  }

  function Step(st: State, c: char, limit: nat): (r: State)
    requires Sound(st)
    ensures Sound(r)
  {
    if st.Rejected? || IsBreak(c) then st
    else if c == '=' then st.(padding := st.padding + 1, symbols := st.symbols + 1)
    else if st.padding != 0 || ValueOf(c) < 0 then Rejected
    else AddLetter(st, ValueOf(c), limit)
  }

  function Run(st: State, text: string, limit: nat): (r: State)
    requires Sound(st)
    ensures Sound(r)
  {
    if text == "" then st else Step(Run(st, text[..|text| - 1], limit), text[|text| - 1], limit)
  }

  predicate Accepts(st: State) {
    st.State? && st.symbols % 4 == 0 && st.padding <= 2
  }

  lemma RunPush(st: State, text: string, c: char, limit: nat)
    requires Sound(st)
    ensures Run(st, text + [c], limit) == Step(Run(st, text, limit), c, limit)
  {
    assert (text + [c])[..|text|] == text;
  }

  lemma {:induction false} RunAppend(st: State, a: string, b: string, limit: nat)
    requires Sound(st)
    ensures Run(st, a + b, limit) == Run(Run(st, a, limit), b, limit)
    decreases |b|
  {
    if b == "" {
      assert a + b == a;
    } else {
      var b', c := b[..|b| - 1], b[|b| - 1];
      assert a + b == (a + b') + [c];
      RunPush(st, a + b', c, limit);
      RunAppend(st, a, b', limit);
    }
  }

  /** Line breaks change nothing, wherever they stand. */
  lemma {:induction false} RunStrip(text: string, limit: nat)
    ensures Run(START, text, limit) == Run(START, Strip(text), limit)
    decreases |text|
  {
    if text != "" {
      var t, c := text[..|text| - 1], text[|text| - 1];
      RunStrip(t, limit);
      if IsBreak(c) {
        assert Strip(text) == Strip(t);
      } else {
        RunPush(START, Strip(t), c, limit);
      }
    }
  }

  lemma RunFour(st: State, a: char, b: char, c: char, d: char, limit: nat)
    requires Sound(st)
    ensures Run(st, [a, b, c, d], limit) == Step(Step(Step(Step(st, a, limit), b, limit), c, limit), d, limit)
  {
    RunPush(st, [], a, limit);
    RunPush(st, [a], b, limit);
    RunPush(st, [a, b], c, limit);
    RunPush(st, [a, b, c], d, limit);
    assert [] + [a] == [a] && [a] + [b] == [a, b] && [a, b] + [c] == [a, b, c] && [a, b, c] + [d] == [a, b, c, d];
  }

  /** Feeding a letter of the alphabet. */
  lemma StepLetter(st: State, v: nat, limit: nat)
    requires Sound(st) && v < 64 && (st.State? ==> st.padding == 0)
    ensures Step(st, Letter(v), limit) == if st.Rejected? then st else AddLetter(st, v, limit)
  {
  }

  /** Two letters give the first byte and start the second. */
  lemma FirstByte(st: State, x: Byte, w: nat, limit: nat)
    requires st.State? && st.bits == 0 && st.pending == 0 && st.padding == 0 && w < 16
    ensures Step(Step(st, Letter(x / 4), limit), Letter(x % 4 * 16 + w), limit) ==
            if |st.out| >= limit then Rejected else State(st.out + [x], w, 4, 0, st.symbols + 2)
  {
    StepLetter(st, x / 4, limit);
    StepLetter(AddLetter(st, x / 4, limit), x % 4 * 16 + w, limit);
  }

  lemma SecondByte(st: State, y: Byte, w: nat, limit: nat)
    requires st.State? && st.bits == 4 && st.pending == y / 16 && st.padding == 0 && w < 4
    ensures Step(st, Letter(y % 16 * 4 + w), limit) ==
            if |st.out| >= limit then Rejected else State(st.out + [y], w, 2, 0, st.symbols + 1)
  {
    StepLetter(st, y % 16 * 4 + w, limit);
  }

  lemma ThirdByte(st: State, z: Byte, limit: nat)
    requires st.State? && st.bits == 2 && st.pending == z / 64 && st.padding == 0
    ensures Step(st, Letter(z % 64), limit) ==
            if |st.out| >= limit then Rejected else State(st.out + [z], 0, 0, 0, st.symbols + 1)
  {
    StepLetter(st, z % 64, limit);
  }

  /** Four letters of a whole group give its three bytes. */
  lemma EncodeThree(x: Byte, y: Byte, z: Byte)
    ensures Encode([x, y, z]) == FourLetters(x, y, z)
  {
    hide Letter;
    assert [x, y, z][3..] == [];
    assert FourLetters(x, y, z) + "" == FourLetters(x, y, z);
  }

  lemma StepRejected(c: char, limit: nat)
    ensures Step(Rejected, c, limit) == Rejected
  {
  }

  lemma GroupOfThree(st: State, x: Byte, y: Byte, z: Byte, limit: nat)
    requires st.State? && st.bits == 0 && st.pending == 0 && st.padding == 0
    ensures var r := Run(st, Encode([x, y, z]), limit);
            r == if |st.out| + 3 <= limit then State(st.out + [x, y, z], 0, 0, 0, st.symbols + 4) else Rejected
  {
    hide AddLetter, Letter, Encode, Run, Step;
    EncodeThree(x, y, z);
    RunFour(st, Letter(x / 4), Letter(x % 4 * 16 + y / 16), Letter(y % 16 * 4 + z / 64), Letter(z % 64), limit);
    FourSteps(st, x, y, z, limit);
  }

  lemma FourSteps(st: State, x: Byte, y: Byte, z: Byte, limit: nat)
    requires st.State? && st.bits == 0 && st.pending == 0 && st.padding == 0
    ensures Step(Step(Step(Step(st, Letter(x / 4), limit), Letter(x % 4 * 16 + y / 16), limit),
                      Letter(y % 16 * 4 + z / 64), limit), Letter(z % 64), limit)
            == if |st.out| + 3 <= limit then State(st.out + [x, y, z], 0, 0, 0, st.symbols + 4) else Rejected
  {
    hide AddLetter, Letter, Step;
    FirstByte(st, x, y / 16, limit);
    forall c ensures Step(Rejected, c, limit) == Rejected {
      StepRejected(c, limit);
    }
    if |st.out| < limit {
      var s2 := State(st.out + [x], y / 16, 4, 0, st.symbols + 2);
      SecondByte(s2, y, z / 64, limit);
      if |st.out| + 1 < limit {
        ThirdByte(State(s2.out + [y], z / 64, 2, 0, st.symbols + 3), z, limit);
        assert st.out + [x] + [y] + [z] == st.out + [x, y, z];
      }
    }
  }

  /** The padded last group gives its one or two bytes. */
  lemma LastGroup(st: State, b: seq<Byte>, limit: nat)
    requires st.State? && st.bits == 0 && st.pending == 0 && st.padding == 0 && st.symbols % 4 == 0 && 1 <= |b| <= 2
    ensures var r := Run(st, Encode(b), limit);
            if |st.out| + |b| <= limit then Accepts(r) && r.out == st.out + b else r.Rejected?
  {
    if |b| == 1 {
      LastOne(st, b[0], limit);
      assert b == [b[0]];
    } else {
      LastTwo(st, b[0], b[1], limit);
      assert b == [b[0], b[1]];
    }
  }

  lemma LastOne(st: State, x: Byte, limit: nat)
    requires st.State? && st.bits == 0 && st.pending == 0 && st.padding == 0
    ensures Run(st, Encode([x]), limit) == if |st.out| < limit then State(st.out + [x], 0, 4, 2, st.symbols + 4) else Rejected
  {
    RunFour(st, Letter(x / 4), Letter(x % 4 * 16), '=', '=', limit);
    hide AddLetter, Letter, Run;
    FirstByte(st, x, 0, limit);
  }

  lemma LastTwo(st: State, x: Byte, y: Byte, limit: nat)
    requires st.State? && st.bits == 0 && st.pending == 0 && st.padding == 0
    ensures Run(st, Encode([x, y]), limit) ==
            if |st.out| + 2 <= limit then State(st.out + [x, y], 0, 2, 1, st.symbols + 4) else Rejected
  {
    RunFour(st, Letter(x / 4), Letter(x % 4 * 16 + y / 16), Letter(y % 16 * 4), '=', limit);
    hide AddLetter, Letter, Run;
    FirstByte(st, x, y / 16, limit);
    if |st.out| < limit {
      SecondByte(State(st.out + [x], y / 16, 4, 0, st.symbols + 2), y, 0, limit);
      assert st.out + [x] + [y] == st.out + [x, y];
    }
  }

  lemma {:induction false} StaysRejected(text: string, limit: nat)
    ensures Run(Rejected, text, limit) == Rejected
    decreases |text|
  {
    if text != "" {
      StaysRejected(text[..|text| - 1], limit);
    }
  }

  /** Reading an encoding appends its bytes exactly when they fit the limit. */
  lemma {:induction false} EncodeReads(st: State, b: seq<Byte>, limit: nat)
    requires st.State? && Sound(st) && st.bits == 0 && st.pending == 0 && st.padding == 0 && st.symbols % 4 == 0
    ensures var r := Run(st, Encode(b), limit);
            if |st.out| + |b| <= limit || b == [] then Accepts(r) && r.out == st.out + b else r.Rejected?
    decreases |b|
  {
    hide *;
    if b == [] {
      NothingRead(st, limit);
    } else if |b| <= 2 {
      LastGroup(st, b, limit);
    } else {
      assert b[..3] == [b[0], b[1], b[2]];
      EncodeGroup(b);
      GroupOfThree(st, b[0], b[1], b[2], limit);
      RunAppend(st, Encode(b[..3]), Encode(b[3..]), limit);
      if |st.out| + 3 <= limit {
        EncodeReads(State(st.out + [b[0], b[1], b[2]], 0, 0, 0, st.symbols + 4), b[3..], limit);
        assert st.out + [b[0], b[1], b[2]] + b[3..] == st.out + b;
      } else {
        StaysRejected(Encode(b[3..]), limit);
      }
    }
  }

  lemma NothingRead(st: State, limit: nat)
    requires st.State? && Sound(st) && st.padding == 0 && st.symbols % 4 == 0
    ensures Run(st, Encode([]), limit) == st && Accepts(st) && st.out + [] == st.out
  {
  }

  lemma EncodeGroup(b: seq<Byte>)
    requires |b| >= 3
    ensures Encode(b) == Encode(b[..3]) + Encode(b[3..])
  {
    hide *;
    var h := b[..3];
    assert h[3..] == [];
    EncodeStep(b);
    EncodeStep(h);
    EncodeNothing();
    assert FourLetters(h[0], h[1], h[2]) + "" == FourLetters(b[0], b[1], b[2]);
  }

  lemma EncodeStep(b: seq<Byte>)
    requires |b| >= 3
    ensures Encode(b) == FourLetters(b[0], b[1], b[2]) + Encode(b[3..])
  {
    hide Letter;
  }

  lemma EncodeNothing()
    ensures Encode([]) == ""
  {
  }

  /** Decoding, as a result. */
  datatype Decoded = Bytes(bytes: seq<Byte>) | Invalid

  function Decode(text: string, limit: nat): Decoded {
    var st := Run(START, text, limit);
    if Accepts(st) then Bytes(st.out) else Invalid
  }

  /** Base64 wrapped anywhere decodes to the bytes it encodes exactly when they fit
      the limit. */
  lemma DecodeRoundTrip(text: string, b: seq<Byte>, limit: nat)
    requires Strip(text) == Encode(b)
    ensures Decode(text, limit) == if |b| <= limit then Bytes(b) else Invalid
  {
    RunStrip(text, limit);
    EncodeReads(START, b, limit);
    assert START.out + b == b;
  }

  // ----- which texts are accepted

  /** How many letters of the alphabet a text begins with. */
  function Lead(t: string): (n: nat)
    ensures n <= |t| && (forall i :: 0 <= i < n ==> ValueOf(t[i]) >= 0) && (n < |t| ==> ValueOf(t[n]) < 0)
  {
    if t == "" then 0
    else
      var n := Lead(t[..|t| - 1]);
      if n == |t| - 1 && ValueOf(t[n]) >= 0 then n + 1 else n
  }

  /** After its letters a text has nothing but '='. */
  predicate OnlyPadded(t: string) {
    forall i :: Lead(t) <= i < |t| ==> t[i] == '='
  }

  /** Letters, at most two '=' after them, and whole groups of four. */
  predicate IsBase64(t: string) {
    OnlyPadded(t) && |t| - Lead(t) <= 2 && |t| % 4 == 0
  }

  /** Six bits a letter, eight a byte; bits left over are dropped. */
  function DecodedSize(t: string): nat {
    Lead(t) * 6 / 8
  }

  /** One more character after a text. */
  lemma LeadStep(t: string)
    requires t != ""
    ensures var t', c := t[..|t| - 1], t[|t| - 1];
            if Lead(t') == |t'| && ValueOf(c) >= 0 then Lead(t) == |t| && OnlyPadded(t) && OnlyPadded(t')
            else Lead(t) == Lead(t') && (OnlyPadded(t) <==> OnlyPadded(t') && c == '=')
  {
    var t', c := t[..|t| - 1], t[|t| - 1];
    if !(Lead(t') == |t'| && ValueOf(c) >= 0) && OnlyPadded(t) {
      forall i | Lead(t') <= i < |t'| ensures t'[i] == '=' {
        assert t[i] == '=';
      }
    }
  }

  /** One more letter: a byte more, unless it is the first of its group. */
  lemma LetterSize(st: State, v: nat, n: nat, limit: nat)
    requires st.State? && Sound(st) && v < 64 && |st.out| == n * 6 / 8 <= limit && st.bits == n * 6 % 8
    ensures var r := AddLetter(st, v, limit);
            if (n + 1) * 6 / 8 <= limit
            then r.State? && |r.out| == (n + 1) * 6 / 8 && r.bits == (n + 1) * 6 % 8 && r.symbols == st.symbols + 1 && r.padding == st.padding
            else r.Rejected?
  {
  }

  /** What is read of a text without line breaks. */
  lemma {:induction false} RunShape(t: string, limit: nat)
    requires forall i :: 0 <= i < |t| ==> !IsBreak(t[i])
    ensures var r := Run(START, t, limit);
            if OnlyPadded(t) && DecodedSize(t) <= limit
            then r.State? && |r.out| == DecodedSize(t) && r.bits == Lead(t) * 6 % 8 && r.symbols == |t| && r.padding == |t| - Lead(t)
            else r.Rejected?
    decreases |t|
  {
    if t != "" {
      hide OnlyPadded, Lead, AddLetter, Sound, IsBreak;
      var t', c := t[..|t| - 1], t[|t| - 1];
      RunShape(t', limit);
      LeadStep(t);
      var st := Run(START, t', limit);
      if st.State? && ValueOf(c) >= 0 && st.padding == 0 {
        LetterSize(st, ValueOf(c), Lead(t'), limit);
      }
    }
  }

  lemma {:induction false} StripBreaks(text: string)
    ensures forall i :: 0 <= i < |Strip(text)| ==> !IsBreak(Strip(text)[i])
    decreases |text|
  {
    if text != "" {
      StripBreaks(text[..|text| - 1]);
    }
  }

  /** Exactly which texts are accepted: line breaks aside, whole groups of letters,
      the last padded by at most two '=', of no more bytes than the limit. That the
      bits left over are zero is not asked for. */
  lemma DecodesIff(text: string, limit: nat)
    ensures Decode(text, limit).Bytes? <==> IsBase64(Strip(text)) && DecodedSize(Strip(text)) <= limit
    ensures Decode(text, limit).Bytes? ==> |Decode(text, limit).bytes| == DecodedSize(Strip(text))
  {
    hide Strip, Run, OnlyPadded, Lead;
    RunStrip(text, limit);
    StripBreaks(text);
    RunShape(Strip(text), limit);
  }

  // ----- the code

  const WORD := 0x1_0000_0000

  /** The lowest bits of the buffer: the letters' bits not yet in a byte. */
  function Low(buffer: nat, bits: nat): nat {
    if bits == 0 then 0 else if bits == 2 then buffer % 4 else if bits == 4 then buffer % 16 else buffer % 64
  }

  /** `(buffer >> bits) & 0xff`. */
  function Top(buffer: nat, bits: nat): Byte {
    if bits == 0 then buffer % 256 else if bits == 2 then buffer / 4 % 256 else buffer / 16 % 256
  }

  /** `(buffer << 6) | v`, in 32 bits. */
  function Shift(buffer: nat, v: nat): nat {
    buffer * 64 % WORD + v
  }

  /** The shifted buffer is the letter and, above it, what the 32 bits keep. */
  lemma ShiftLow(buffer: nat, v: nat)
    requires v < 64
    ensures Shift(buffer, v) == 64 * (buffer % 0x400_0000) + v < WORD
  {
  }

  lemma ShiftTop6(b: nat, h: nat, v: nat)
    requires b == 64 * h + v && v < 64
    ensures Top(b, 4) == (h % 64 * 64 + v) / 16 && Low(b, 4) == (h % 64 * 64 + v) % 16 && Low(b, 6) == v
  {
    var p := h % 64 * 64 + v;
    assert b == 4096 * (h / 64) + p;
    Split16(b, h / 64, p);
    LowSix(b, h, v);
    assert Top(b, 4) == b / 16 % 256 && Low(b, 4) == b % 16;
  }

  lemma LowSix(b: nat, h: nat, v: nat)
    requires b == 64 * h + v && v < 64
    ensures Low(b, 6) == v
  {
  }

  lemma Split16(b: nat, g: nat, p: nat)
    requires b == 4096 * g + p && p < 4096
    ensures b / 16 % 256 == p / 16 && b % 16 == p % 16
  {
    assert b / 16 == 256 * g + p / 16;
  }

  lemma ShiftTop4(b: nat, h: nat, v: nat)
    requires b == 64 * h + v && v < 64
    ensures Top(b, 2) == (h % 16 * 64 + v) / 4 && Low(b, 2) == (h % 16 * 64 + v) % 4
  {
    var g, m := h / 16, h % 16;
    assert b == 1024 * g + (64 * m + v);
    assert b / 4 == 256 * g + (64 * m + v) / 4;
  }

  lemma ShiftTop2(b: nat, h: nat, v: nat)
    requires b == 64 * h + v && v < 64
    ensures Top(b, 0) == h % 4 * 64 + v
  {
    assert b == 256 * (h / 4) + (h % 4 * 64 + v);
  }

  lemma LowKept(buffer: nat)
    ensures var h := buffer % 0x400_0000; h % 64 == buffer % 64 && h % 16 == buffer % 16 && h % 4 == buffer % 4
  {
    var q, h := buffer / 0x400_0000, buffer % 0x400_0000;
    SameRemainder(buffer, h, 0x10_0000 * q, 64);
    SameRemainder(buffer, h, 0x40_0000 * q, 16);
    SameRemainder(buffer, h, 0x100_0000 * q, 4);
  }

  lemma SameRemainder(a: nat, b: nat, k: nat, m: nat)
    requires m in {4, 16, 64} && a == k * m + b
    ensures a % m == b % m
  {
  }

  /** The bits pushed out of the 32 are never ones that still matter. */
  lemma ShiftKeeps(buffer: nat, bits: nat, v: nat)
    requires v < 64 && (bits == 0 || bits == 2 || bits == 4 || bits == 6)
    ensures var b := Shift(buffer, v);
            var p := Low(buffer, bits) * 64 + v;
            && b < WORD
            && (bits == 0 ==> Low(b, 6) == v)
            && (bits == 2 ==> Top(b, 0) == p)
            && (bits == 4 ==> Top(b, 2) == p / 4 && Low(b, 2) == p % 4)
            && (bits == 6 ==> Top(b, 4) == p / 16 && Low(b, 4) == p % 16)
  {
    var b, h := Shift(buffer, v), buffer % 0x400_0000;
    ShiftLow(buffer, v);
    LowKept(buffer);
    hide Shift, Top;
    ShiftTop6(b, h, v);
    ShiftTop4(b, h, v);
    ShiftTop2(b, h, v);
  }

  /** A text whose beginning is rejected is rejected. */
  lemma Stuck(text: string, i: nat, limit: nat)
    requires i <= |text| && Run(START, text[..i], limit) == Rejected
    ensures Decode(text, limit) == Invalid
  {
    assert text == text[..i] + text[i..];
    RunAppend(START, text[..i], text[i..], limit);
    StaysRejected(text[i..], limit);
  }

  /** `decode_base64`: the buffer keeps 32 bits, of which only the lowest few
      still matter. */
  method DecodeBase64(text: string, limit: nat) returns (ok: bool, out: seq<Byte>)
    ensures ok ==> Decode(text, limit) == Bytes(out)
    ensures !ok ==> Decode(text, limit) == Invalid
  {
    out := [];
    var buffer, bits, padding, symbols := 0, 0, 0, 0;
    for i := 0 to |text|
      invariant 0 <= buffer < WORD && 0 <= padding && 0 <= symbols
      invariant bits == 0 || bits == 2 || bits == 4 || bits == 6
      invariant Run(START, text[..i], limit) == State(out, Low(buffer, bits), bits, padding, symbols)
    {
      var ch := text[i];
      RunPush(START, text[..i], ch, limit);
      assert text[..i + 1] == text[..i] + [ch];
      if IsBreak(ch) {
        continue;
      }
      if ch == '=' {
        padding := padding + 1;
        symbols := symbols + 1;
        continue;
      }
      var v := ValueOf(ch);
      if padding != 0 || v < 0 {
        Stuck(text, i + 1, limit);
        return false, out;
      }
      symbols := symbols + 1;
      ShiftKeeps(buffer, bits, v);
      buffer := Shift(buffer, v);
      bits := bits + 6;
      if bits >= 8 {
        bits := bits - 8;
        if |out| >= limit {
          Stuck(text, i + 1, limit);
          return false, out;
        }
        out := out + [Top(buffer, bits)];
      }
    }
    assert text[..|text|] == text;
    ok := symbols % 4 == 0 && padding <= 2;
  }

  lemma TestLetters()
    ensures FourLetters(0x66, 0x6f, 0x6f) == "Zm9v" && FourLetters(0x62, 0x61, 0x72) == "YmFy"
    ensures FourLetters(0xd3, 0x5d, 0xb7) == "0123"
  {
  }

  lemma TestTails()
    ensures Encode([0x62]) == "Yg==" && Encode([0x66, 0x6f]) == "Zm8=" && Encode([0xfb, 0xff]) == "+/8="
  {
  }

  /** Letters, digits and both other signs, as in sections 4 and 10 of RFC 4648. */
  lemma TestVectors()
    ensures Encode([0x66, 0x6f, 0x6f, 0x62, 0x61, 0x72]) == "Zm9vYmFy"
    ensures Encode([0x66, 0x6f, 0x6f, 0x62]) == "Zm9vYg==" && Encode([0x66, 0x6f]) == "Zm8="
    ensures Encode([0xd3, 0x5d, 0xb7]) == "0123" && Encode([0xfb, 0xff]) == "+/8="
  {
    hide *;
    TestLetters();
    TestTails();
    EncodeNothing();
    TestGroup(0x66, 0x6f, 0x6f, [0x62, 0x61, 0x72]);
    TestGroup(0x66, 0x6f, 0x6f, [0x62]);
    TestGroup(0x62, 0x61, 0x72, []);
    TestGroup(0xd3, 0x5d, 0xb7, []);
    assert [0x66, 0x6f, 0x6f] + [0x62, 0x61, 0x72] == [0x66, 0x6f, 0x6f, 0x62, 0x61, 0x72];
    assert [0x66, 0x6f, 0x6f] + [0x62] == [0x66, 0x6f, 0x6f, 0x62] && [0x62, 0x61, 0x72] + [] == [0x62, 0x61, 0x72];
    assert [0xd3, 0x5d, 0xb7] + [] == [0xd3, 0x5d, 0xb7];
    assert "Zm9v" + "YmFy" == "Zm9vYmFy" && "Zm9v" + "Yg==" == "Zm9vYg==" && "YmFy" + "" == "YmFy" && "0123" + "" == "0123";
  }

  lemma TestGroup(x: Byte, y: Byte, z: Byte, rest: seq<Byte>)
    ensures Encode([x, y, z] + rest) == FourLetters(x, y, z) + Encode(rest)
  {
    hide FourLetters;
    assert ([x, y, z] + rest)[3..] == rest;
  }
}
