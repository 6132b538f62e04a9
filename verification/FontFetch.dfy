/** The stream of frames the font fetch command prints, and reading it back. */
module FontFetch {
  import opened Base64
  import opened Strings

  datatype GuestFontFile = GuestFontFile(path: string, bytes: seq<Byte>)

  datatype Limits = Limits(maxFileBytes: nat, maxTotalBytes: nat, maxFiles: nat)

  datatype Problem =
    | UnexpectedOutput(line: string)
    | NotOnGuest(path: string)
    | GuestTooLarge(path: string)
    | UnexpectedHeader(header: string)
    | MalformedHeader(line: string)
    | EndedInside(path: string)
    | OverCount(path: string)
    | OverFileCap(path: string)
    | OverTotal(path: string)
    | NotBase64(path: string)
    | WrongSize(path: string, arrived: nat, announced: nat)

  /** What a reader keeps of a stream. */
  datatype Fetched = Fetched(recognised: bool, files: seq<GuestFontFile>, problems: seq<Problem>)

  // ----- pieces of text

  /** Position of the first occurrence of p, or the length of s plus one. */
  function FindText(s: string, p: string): (n: nat)
    ensures n <= |s| + 1
    ensures n <= |s| ==> p <= s[n..]
  {
    if p <= s then 0 else if s == "" then 1 else 1 + FindText(s[1..], p)
  }

  /** `next_line`: the line without its end, and what follows. */
  function NextLine(s: string): (r: (string, string))
    ensures s != "" ==> |r.1| < |s|
  {
    var n := Find(s, '\n');
    (DropReturn(s[..n]), if n < |s| then s[n + 1..] else "")
  }

  predicate IsDigit(c: char) {
    '0' <= c <= '9'
  }

  function Value(text: string): nat {
    if text == "" then 0
    else Value(text[..|text| - 1]) * 10 + if IsDigit(text[|text| - 1]) then text[|text| - 1] as int - '0' as int else 0
  }

  datatype Size = Bytes(n: nat) | NoSize

  /** `parse_size`. */
  function ParseSize(text: string): Size {
    if text == "" || |text| > 19 || exists i :: 0 <= i < |text| && !IsDigit(text[i]) then NoSize
    else Size.Bytes(Value(text))
  }

  function Prefix(s: string, n: nat): string {
    if n <= |s| then s[..n] else s
  }

  /** A 64-bit sum. */
  function Add64(a: nat, b: nat): nat {
    (a + b) % 0x1_0000_0000_0000_0000
  }

  // ----- reading one frame

  /** What one line of the stream turns out to be. */
  datatype Line = Blank | Noise(problem: Problem) | Frame(problem: Problem) | File(size: nat, path: string) | Broken(problem: Problem)

  function Classify(line: string): Line {
    if line == "" then Blank
    else if Prefix(line, 3) != "@@ " then Noise(UnexpectedOutput(Prefix(line, 80)))
    else
      var header := line[3..];
      if Prefix(header, 8) == "missing " then Frame(NotOnGuest(header[8..]))
      else if Prefix(header, 10) == "too-large " then
        var what := header[10..];
        var space := Find(what, ' ');
        Frame(GuestTooLarge(if space < |what| then what[space + 1..] else what))
      else if Prefix(header, 3) != "ok " then Frame(UnexpectedHeader(Prefix(header, 80)))
      else
        var rest := header[3..];
        var space := Find(rest, ' ');
        if space == |rest| || ParseSize(rest[..space]).NoSize? then Broken(MalformedHeader(Prefix(line, 80)))
        else File(ParseSize(rest[..space]).n, rest[space + 1..])
  }

  /** What becomes of an announced file: kept, or the problem with it. */
  datatype Verdict = Keep(file: GuestFontFile) | Refuse(problem: Problem)

  function Judge(size: nat, path: string, body: string, kept: nat, total: nat, limits: Limits): Verdict {
    if kept >= limits.maxFiles then Refuse(OverCount(path))
    else if size > limits.maxFileBytes then Refuse(OverFileCap(path))
    else if Add64(total, size) > limits.maxTotalBytes then Refuse(OverTotal(path))
    else
      match Decode(body, limits.maxFileBytes)
      case Invalid => Refuse(NotBase64(path))
      case Bytes(bytes) => if |bytes| != size then Refuse(WrongSize(path, |bytes|, size)) else Keep(GuestFontFile(path, bytes))
  }

  const END_MARK := "@@ end"

  /** `parse_font_fetch_stream`, from a state on. */
  function Read(rest: string, recognised: bool, files: seq<GuestFontFile>, problems: seq<Problem>, total: nat, limits: Limits): Fetched
    decreases |rest|
  {
    if rest == "" then Fetched(recognised, files, problems)
    else
      var (line, after) := NextLine(rest);
      match Classify(line)
      case Blank => Read(after, recognised, files, problems, total, limits)
      case Noise(p) => Read(after, recognised, files, problems + [p], total, limits)
      case Frame(p) => Read(after, true, files, problems + [p], total, limits)
      case Broken(p) => Fetched(false, files, problems + [p])
      case File(size, path) =>
        var end := FindText(after, END_MARK);
        if end > |after| then Fetched(true, files, problems + [EndedInside(path)])
        else
          var next := NextLine(after[end..]).1;
          EndShrinks(after, end);
          match Judge(size, path, after[..end], |files|, total, limits)
          case Refuse(p) => Read(next, true, files, problems + [p], total, limits)
          case Keep(f) => Read(next, true, files + [f], problems, total + size, limits)
  }

  lemma EndShrinks(after: string, end: nat)
    requires end <= |after| && END_MARK <= after[end..]
    ensures |NextLine(after[end..]).1| <= |after|
  {
  }

  function ReadStream(stream: string, limits: Limits): Fetched {
    Read(stream, stream == "", [], [], 0, limits)
  }

  // ----- the caps hold on any input

  function TotalBytes(files: seq<GuestFontFile>): nat {
    if files == [] then 0 else TotalBytes(files[..|files| - 1]) + |files[|files| - 1].bytes|
  }

  predicate WithinCaps(files: seq<GuestFontFile>, limits: Limits) {
    && |files| <= limits.maxFiles && TotalBytes(files) <= limits.maxTotalBytes
    && forall i :: 0 <= i < |files| ==> |files[i].bytes| <= limits.maxFileBytes
  }

  /** The caps fit the 64-bit sum that checks them. */
  predicate LimitsFit(limits: Limits) {
    limits.maxTotalBytes + limits.maxFileBytes < 0x1_0000_0000_0000_0000
  }

  lemma LineShrinks(s: string)
    ensures s != "" ==> |NextLine(s).1| < |s|
  {
  }

  predicate NoNewline(s: string) {
    forall i :: 0 <= i < |s| ==> s[i] != '\n'
  }

  /** Files that can have come out of a stream: within the caps, each path from one
      line. */
  predicate Kept(files: seq<GuestFontFile>, limits: Limits) {
    WithinCaps(files, limits) && forall i :: 0 <= i < |files| ==> NoNewline(files[i].path)
  }

  lemma LinePath(rest: string)
    ensures var line := Classify(NextLine(rest).0); line.File? ==> NoNewline(line.path)
  {
    hide *;
    LinePlain(rest);
    FilePlain(NextLine(rest).0);
  }

  lemma LinePlain(rest: string)
    ensures NoNewline(NextLine(rest).0)
  {
    hide Find;
  }

  lemma FilePlain(line: string)
    requires NoNewline(line)
    ensures Classify(line).File? ==> NoNewline(Classify(line).path)
  {
    hide Find, ParseSize, NoNewline;
    if Classify(line).File? {
      PlainFrom(line, 3);
      PlainFrom(line[3..], 3);
      PlainFrom(line[3..][3..], Find(line[3..][3..], ' ') + 1);
    }
  }

  lemma PlainFrom(s: string, i: nat)
    requires NoNewline(s)
    ensures i <= |s| ==> NoNewline(s[i..])
  {
  }

  /** A file that is kept fits under every cap. */
  lemma KeepsCaps(size: nat, path: string, body: string, files: seq<GuestFontFile>, total: nat, limits: Limits)
    requires LimitsFit(limits) && Kept(files, limits) && total == TotalBytes(files) && NoNewline(path)
    ensures var v := Judge(size, path, body, |files|, total, limits);
            v.Keep? ==> Kept(files + [v.file], limits) && total + size == TotalBytes(files + [v.file])
  {
    hide Decode, NoNewline, TotalBytes;
    var v := Judge(size, path, body, |files|, total, limits);
    if v.Keep? {
      TotalPush(files, v.file);
      var more := files + [v.file];
      assert forall i :: 0 <= i < |more| ==> more[i] == if i < |files| then files[i] else v.file;
    }
  }

  lemma {:induction false} KeptHold(rest: string, recognised: bool, files: seq<GuestFontFile>, problems: seq<Problem>, total: nat, limits: Limits)
    requires LimitsFit(limits) && Kept(files, limits) && total == TotalBytes(files)
    ensures Kept(Read(rest, recognised, files, problems, total, limits).files, limits)
    decreases |rest|
  {
    hide FindText, Classify, NextLine, Kept, Judge;
    if rest != "" {
      var (line, after) := NextLine(rest);
      LineShrinks(rest);
      match Classify(line)
      case Blank => KeptHold(after, recognised, files, problems, total, limits);
      case Noise(p) => KeptHold(after, recognised, files, problems + [p], total, limits);
      case Frame(p) => KeptHold(after, true, files, problems + [p], total, limits);
      case Broken(p) =>
      case File(size, path) =>
        var end := FindText(after, END_MARK);
        if end <= |after| {
          EndShrinks(after, end);
          LinePath(rest);
          var next := NextLine(after[end..]).1;
          KeepsCaps(size, path, after[..end], files, total, limits);
          match Judge(size, path, after[..end], |files|, total, limits)
          case Refuse(p) => KeptHold(next, true, files, problems + [p], total, limits);
          case Keep(f) => KeptHold(next, true, files + [f], problems, total + size, limits);
        }
    }
  }

  /** Whatever the guest sends, the files kept respect the count, per-file and total
      caps. */
  lemma StreamWithinCaps(stream: string, limits: Limits)
    requires LimitsFit(limits)
    ensures Kept(ReadStream(stream, limits).files, limits)
  {
    KeptHold(stream, stream == "", [], [], 0, limits);
  }

  // ----- the frames the command prints

  function Digits(n: nat): (s: string)
    ensures |s| >= 1
  {
    if n < 10 then [('0' as int + n) as char] else Digits(n / 10) + [('0' as int + n % 10) as char]
  }

  /** What the guest prints for a file: the announcement, its base64, the end. */
  function FrameOf(f: GuestFontFile, body: string): string {
    "@@ ok " + (Digits(|f.bytes|) + (" " + (f.path + ("\n" + (body + "@@ end\n")))))
  }

  /** What the guest answers for one path of the command: the file, that there is
      none, or that it is too large. */
  datatype Reply = Sent(file: GuestFontFile, body: string) | Absent(path: string) | Oversize(size: nat, path: string)

  function ReplyText(r: Reply): string {
    match r
    case Sent(f, body) => FrameOf(f, body)
    case Absent(path) => "@@ missing " + (path + "\n")
    case Oversize(size, path) => "@@ too-large " + (Digits(size) + (" " + (path + "\n")))
  }

  function StreamOf(replies: seq<Reply>): string {
    if replies == [] then "" else ReplyText(replies[0]) + StreamOf(replies[1..])
  }

  /** A path the frame's one line carries whole. */
  predicate OneLine(path: string) {
    (forall i :: 0 <= i < |path| ==> path[i] != '\n') && (path != "" ==> path[|path| - 1] != '\r')
  }

  const SIZE_LIMIT := 10_000_000_000_000_000_000

  lemma {:induction false} DigitsRead(n: nat)
    ensures forall i :: 0 <= i < |Digits(n)| ==> IsDigit(Digits(n)[i])
    ensures Value(Digits(n)) == n
    decreases n
  {
    var s := Digits(n);
    if n < 10 {
      assert s[..|s| - 1] == "";
    } else {
      DigitsRead(n / 10);
      assert s[..|s| - 1] == Digits(n / 10);
    }
  }

  lemma {:induction false} DigitsLength(n: nat, k: nat, bound: nat)
    requires n < bound && bound == Power10(k) && k >= 1
    ensures |Digits(n)| <= k
    decreases k
  {
    if n >= 10 {
      DigitsLength(n / 10, k - 1, Power10(k - 1));
    }
  }

  function Power10(k: nat): nat {
    if k == 0 then 1 else 10 * Power10(k - 1)
  }

  lemma Power19()
    ensures Power10(19) == SIZE_LIMIT
  {
    assert Power10(4) == 10_000;
    assert Power10(8) == 100_000_000;
    assert Power10(12) == 1_000_000_000_000;
    assert Power10(16) == 10_000_000_000_000_000;
  }

  lemma SizeRead(n: nat)
    requires n < SIZE_LIMIT
    ensures ParseSize(Digits(n)) == Size.Bytes(n)
  {
    Power19();
    DigitsLength(n, 19, SIZE_LIMIT);
    DigitsRead(n);
  }

  /** A line of text up to its newline, whatever follows. */
  lemma LineRead(line: string, rest: string)
    requires forall i :: 0 <= i < |line| ==> line[i] != '\n'
    ensures NextLine(line + ("\n" + rest)) == (DropReturn(line), rest)
  {
    var s := line + ("\n" + rest);
    FindIs(s, '\n', |line|);
    assert s[..|line|] == line && s[|line| + 1..] == rest;
  }

  function Announcement(size: nat, path: string): string {
    "@@ ok " + (Digits(size) + (" " + path))
  }

  /** An announcement says what was announced. */
  lemma AnnouncementRead(size: nat, path: string)
    requires size < SIZE_LIMIT
    ensures Classify(Announcement(size, path)) == File(size, path)
  {
    var d := Digits(size);
    SizeRead(size);
    DigitsRead(size);
    assert forall i :: 0 <= i < |d| ==> d[i] != ' ';
    OkRead(d, path, size);
  }

  lemma OkRead(d: string, path: string, size: nat)
    requires ParseSize(d) == Size.Bytes(size) && forall i :: 0 <= i < |d| ==> d[i] != ' '
    ensures Classify("@@ ok " + (d + (" " + path))) == File(size, path)
  {
    hide ParseSize;
    var rest := d + (" " + path);
    var line := "@@ ok " + rest;
    FindIs(rest, ' ', |d|);
    assert rest[..|d|] == d && rest[|d| + 1..] == path;
    assert line[3..][3..] == rest;
    Prefixes(line, rest);
  }

  lemma Prefixes(line: string, rest: string)
    requires line == "@@ ok " + rest
    ensures Prefix(line, 3) == "@@ " && Prefix(line[3..], 3) == "ok "
    ensures Prefix(line[3..], 8) != "missing " && Prefix(line[3..], 10) != "too-large "
  {
    var header := line[3..];
    assert line[..3] == "@@ " && header[..3] == "ok " && header[0] == 'o';
    assert "missing "[0] == 'm' && "too-large "[0] == 't';
    assert |header| >= 8 ==> header[..8][0] == 'o';
    assert |header| >= 10 ==> header[..10][0] == 'o';
  }

  /** The end mark is found where the body ends: no base64 text contains an '@'. */
  lemma {:induction false} EndFound(body: string, rest: string)
    requires forall i :: 0 <= i < |body| ==> body[i] != '@'
    ensures FindText(body + (END_MARK + rest), END_MARK) == |body|
    decreases |body|
  {
    var s := body + (END_MARK + rest);
    if body == "" {
      assert s == END_MARK + rest;
    } else {
      assert s[1..] == body[1..] + (END_MARK + rest);
      assert END_MARK[0] == '@' && s[0] != '@';
      EndFound(body[1..], rest);
    }
  }

  lemma {:induction false} EncodeHasNoMark(b: seq<Byte>)
    ensures forall i :: 0 <= i < |Encode(b)| ==> Encode(b)[i] != '@'
    decreases |b|
  {
    if |b| > 2 {
      EncodeHasNoMark(b[3..]);
    }
  }

  lemma {:induction false} StripKeeps(text: string, i: nat)
    requires i < |text| && !IsBreak(text[i])
    ensures text[i] in Strip(text)
    decreases |text|
  {
    if i < |text| - 1 {
      StripKeeps(text[..|text| - 1], i);
    }
  }

  lemma BodyHasNoMark(body: string, b: seq<Byte>)
    requires Strip(body) == Encode(b)
    ensures forall i :: 0 <= i < |body| ==> body[i] != '@'
  {
    EncodeHasNoMark(b);
    forall i | 0 <= i < |body| ensures body[i] != '@' {
      if body[i] == '@' {
        StripKeeps(body, i);
      }
    }
  }

  // ----- the round trip

  /** The parts a frame is read in. */
  lemma FrameParts(f: GuestFontFile, body: string, rest: string)
    ensures FrameOf(f, body) + rest == Announcement(|f.bytes|, f.path) + ("\n" + (body + (END_MARK + ("\n" + rest))))
  {
    hide Digits;
    var d, p := Digits(|f.bytes|), f.path;
    Join(d, p, body, rest);
  }

  lemma Join(d: string, p: string, body: string, rest: string)
    ensures "@@ ok " + (d + (" " + (p + ("\n" + (body + "@@ end\n"))))) + rest ==
            "@@ ok " + (d + (" " + p)) + ("\n" + (body + (END_MARK + ("\n" + rest))))
  {
    var tail := "\n" + (body + (END_MARK + ("\n" + rest)));
    assert body + "@@ end\n" + rest == body + (END_MARK + ("\n" + rest));
    assert p + ("\n" + (body + "@@ end\n")) + rest == p + tail;
    assert d + (" " + (p + ("\n" + (body + "@@ end\n")))) + rest == d + (" " + p) + tail;
  }

  /** The path a reader sees: up to the first newline, less one return. */
  function PathSeen(path: string): string {
    DropReturn(path[..Find(path, '\n')])
  }

  lemma PathSeenWhole(path: string)
    ensures PathSeen(path) == path <==> OneLine(path)
  {
    var n := Find(path, '\n');
    if n == |path| {
      assert path[..n] == path;
    } else {
      assert |PathSeen(path)| < |path|;
    }
  }

  /** An announcement whose path has no newline is one line, and reads as the
      announcement of the path less a final return. */
  lemma AnnouncementLine(size: nat, path: string)
    requires NoNewline(path)
    ensures NoNewline(Announcement(size, path))
    ensures PathSeen(path) == DropReturn(path)
    ensures DropReturn(Announcement(size, path)) == Announcement(size, PathSeen(path))
  {
    DigitsRead(size);
    FindIs(path, '\n', |path|);
    assert path[..|path|] == path;
    var line := Announcement(size, path);
    if path != "" && path[|path| - 1] == '\r' {
      assert line[..|line| - 1] == Announcement(size, path[..|path| - 1]);
    }
  }

  /** The file fits under every cap beside those already kept. */
  predicate Admits(f: GuestFontFile, files: seq<GuestFontFile>, limits: Limits) {
    && |files| < limits.maxFiles && |f.bytes| <= limits.maxFileBytes
    && TotalBytes(files) + |f.bytes| <= limits.maxTotalBytes
  }

  /** The first cap a refused file is over. */
  function OverCap(f: GuestFontFile, files: seq<GuestFontFile>, limits: Limits): Problem {
    if |files| >= limits.maxFiles then OverCount(f.path)
    else if |f.bytes| > limits.maxFileBytes then OverFileCap(f.path)
    else OverTotal(f.path)
  }

  /** A file that was sent whole is kept exactly when the caps admit it. */
  lemma JudgeSent(f: GuestFontFile, body: string, files: seq<GuestFontFile>, limits: Limits)
    requires Strip(body) == Encode(f.bytes) && LimitsFit(limits) && TotalBytes(files) <= limits.maxTotalBytes
    ensures Judge(|f.bytes|, f.path, body, |files|, TotalBytes(files), limits) ==
            if Admits(f, files, limits) then Keep(f) else Refuse(OverCap(f, files, limits))
  {
    hide Decode, Strip, Encode, TotalBytes;
    DecodeRoundTrip(body, f.bytes, limits.maxFileBytes);
  }

  /** Reading one frame keeps its file, under the path seen, exactly when the caps
      allow, and goes on after it. */
  lemma FrameRead(f: GuestFontFile, body: string, rest: string, recognised: bool, files: seq<GuestFontFile>,
                  problems: seq<Problem>, limits: Limits)
    requires NoNewline(f.path) && Strip(body) == Encode(f.bytes) && LimitsFit(limits) && |f.bytes| < SIZE_LIMIT
    requires TotalBytes(files) <= limits.maxTotalBytes
    ensures var g := f.(path := PathSeen(f.path));
            Read(FrameOf(f, body) + rest, recognised, files, problems, TotalBytes(files), limits) ==
            if Admits(g, files, limits) then Read(rest, true, files + [g], problems, TotalBytes(files) + |f.bytes|, limits)
            else Read(rest, true, files, problems + [OverCap(g, files, limits)], TotalBytes(files), limits)
  {
    hide *;
    var size, total := |f.bytes|, TotalBytes(files);
    var g := f.(path := PathSeen(f.path));
    var after := body + (END_MARK + ("\n" + rest));
    FrameParts(f, body, rest);
    AnnouncementLine(size, f.path);
    LineOf(size, f.path, after);
    AnnouncementRead(size, g.path);
    BodyHasNoMark(body, f.bytes);
    EndFound(body, "\n" + rest);
    assert after[..|body|] == body && after[|body|..] == END_MARK + ("\n" + rest);
    EndLine(rest);
    JudgeSent(g, body, files, limits);
    ReadFile(Announcement(size, f.path) + ("\n" + after), after, g, body, rest, recognised, files, problems, total, limits);
  }

  lemma LineOf(size: nat, path: string, after: string)
    requires NoNewline(path)
    ensures NextLine(Announcement(size, path) + ("\n" + after)) == (Announcement(size, PathSeen(path)), after)
  {
    hide Announcement, Find, PathSeen;
    AnnouncementLine(size, path);
    LineRead(Announcement(size, path), after);
  }

  lemma EndLine(rest: string)
    ensures NextLine(END_MARK + ("\n" + rest)).1 == rest
  {
    assert NoNewline(END_MARK);
    hide NextLine, Find, DropReturn;
    LineRead(END_MARK, rest);
  }

  lemma ReadFile(s: string, after: string, f: GuestFontFile, body: string, rest: string, recognised: bool,
                 files: seq<GuestFontFile>, problems: seq<Problem>, total: nat, limits: Limits)
    requires s != "" && NextLine(s).1 == after && Classify(NextLine(s).0) == File(|f.bytes|, f.path)
    requires FindText(after, END_MARK) == |body| <= |after| && after[..|body|] == body
    requires NextLine(after[|body|..]).1 == rest
    ensures Read(s, recognised, files, problems, total, limits) ==
            match Judge(|f.bytes|, f.path, body, |files|, total, limits)
            case Keep(g) => Read(rest, true, files + [g], problems, total + |f.bytes|, limits)
            case Refuse(p) => Read(rest, true, files, problems + [p], total, limits)
  {
    hide Classify, FindText, NextLine, Judge;
  }

  /** A one-line frame that reports a problem. */
  lemma ReadReport(line: string, rest: string, p: Problem, recognised: bool, files: seq<GuestFontFile>,
                   problems: seq<Problem>, total: nat, limits: Limits)
    requires OneLine(line) && Classify(line) == Frame(p)
    ensures Read(line + ("\n" + rest), recognised, files, problems, total, limits) ==
            Read(rest, true, files, problems + [p], total, limits)
  {
    hide Classify, FindText, Judge;
    LineRead(line, rest);
  }

  lemma OneLineAppend(a: string, b: string)
    requires NoNewline(a) && OneLine(b) && (b == "" && a != "" ==> a[|a| - 1] != '\r')
    ensures OneLine(a + b)
  {
  }

  lemma MissingPrefixes(path: string)
    ensures var line := "@@ missing " + path;
            && line != "" && Prefix(line, 3) == "@@ " && Prefix(line[3..], 8) == "missing " && line[3..][8..] == path
  {
    var line := "@@ missing " + path;
    assert line[..3] == "@@ " && line[3..] == "missing " + path;
    assert line[3..][..8] == "missing ";
  }

  lemma AbsentReport(path: string)
    requires OneLine(path)
    ensures OneLine("@@ missing " + path) && Classify("@@ missing " + path) == Frame(NotOnGuest(path))
  {
    OneLineAppend("@@ missing ", path);
    MissingPrefixes(path);
    hide Prefix, OneLine, Find, ParseSize;
  }

  lemma TooLargePrefixes(line: string, what: string)
    requires line == "@@ too-large " + what
    ensures line != "" && Prefix(line, 3) == "@@ " && |line| >= 13 && line[3..][10..] == what
    ensures Prefix(line[3..], 8) != "missing " && Prefix(line[3..], 10) == "too-large "
  {
    assert line[..3] == "@@ " && line[3..] == "too-large " + what;
    assert line[3..][0] == 't' && "missing "[0] == 'm';
    assert |line[3..]| >= 8 ==> line[3..][..8][0] == 't';
    assert line[3..][..10] == "too-large " && line[3..][10..] == what;
  }

  lemma TooLargeRead(line: string, what: string)
    requires line == "@@ too-large " + what
    ensures Classify(line) ==
            Frame(GuestTooLarge(if Find(what, ' ') < |what| then what[Find(what, ' ') + 1..] else what))
  {
    TooLargePrefixes(line, what);
    hide *;
    ClassifyTooLarge(line, what);
  }

  lemma ClassifyTooLarge(line: string, what: string)
    requires line != "" && Prefix(line, 3) == "@@ " && |line| >= 13 && line[3..][10..] == what
    requires Prefix(line[3..], 8) != "missing " && Prefix(line[3..], 10) == "too-large "
    ensures Classify(line) ==
            Frame(GuestTooLarge(if Find(what, ' ') < |what| then what[Find(what, ' ') + 1..] else what))
  {
    hide Prefix, Find, ParseSize;
  }

  lemma DigitsPlain(n: nat)
    ensures NoNewline(Digits(n)) && (forall i :: 0 <= i < |Digits(n)| ==> Digits(n)[i] != ' ')
  {
    DigitsRead(n);
  }

  lemma AfterSpace(d: string, path: string)
    requires forall i :: 0 <= i < |d| ==> d[i] != ' '
    ensures var what := d + (" " + path); Find(what, ' ') == |d| < |what| && what[|d| + 1..] == path
  {
    hide Find;
    var what := d + (" " + path);
    FindIs(what, ' ', |d|);
    assert what[|d| + 1..] == path;
  }

  lemma PlainWords()
    ensures NoNewline(" ") && NoNewline("@@ too-large ")
  {
  }

  lemma OversizeReport(size: nat, path: string)
    requires OneLine(path)
    ensures var line := "@@ too-large " + (Digits(size) + (" " + path));
            OneLine(line) && Classify(line) == Frame(GuestTooLarge(path))
  {
    hide *;
    PlainWords();
    var d := Digits(size);
    DigitsPlain(size);
    AfterSpace(d, path);
    SpacedLine("@@ too-large ", d, path);
    TooLargeRead("@@ too-large " + (d + (" " + path)), d + (" " + path));
  }

  lemma SpacedLine(word: string, d: string, path: string)
    requires NoNewline(word) && NoNewline(d) && OneLine(path)
    ensures OneLine(word + (d + (" " + path)))
  {
    hide *;
    PlainWords();
    OneLineAppend(" ", path);
    OneLineAppend(d, " " + path);
    OneLineAppend(word, d + (" " + path));
  }

  /** What one reply adds to the files kept and the problems noted. */
  function Received(r: Reply, files: seq<GuestFontFile>, problems: seq<Problem>, limits: Limits)
    : (seq<GuestFontFile>, seq<Problem>)
  {
    match r
    case Absent(path) => (files, problems + [NotOnGuest(path)])
    case Oversize(_, path) => (files, problems + [GuestTooLarge(path)])
    case Sent(f, _) =>
      if Admits(f, files, limits) then (files + [f], problems) else (files, problems + [OverCap(f, files, limits)])
  }

  function ReceivedAll(replies: seq<Reply>, files: seq<GuestFontFile>, problems: seq<Problem>, limits: Limits)
    : (seq<GuestFontFile>, seq<Problem>)
  {
    if replies == [] then (files, problems)
    else
      var (fs, ps) := Received(replies[0], files, problems, limits);
      ReceivedAll(replies[1..], fs, ps, limits)
  }

  /** A reply as the command prints it: one line a path, a body that is the file's
      base64, wrapped anywhere. */
  predicate Printed(r: Reply) {
    match r
    case Sent(f, body) => OneLine(f.path) && Strip(body) == Encode(f.bytes) && |f.bytes| < SIZE_LIMIT
    case Absent(path) => OneLine(path)
    case Oversize(_, path) => OneLine(path)
  }

  lemma ReplyRead(r: Reply, rest: string, recognised: bool, files: seq<GuestFontFile>, problems: seq<Problem>, limits: Limits)
    requires Printed(r) && LimitsFit(limits) && TotalBytes(files) <= limits.maxTotalBytes
    ensures var (fs, ps) := Received(r, files, problems, limits);
            && TotalBytes(fs) <= limits.maxTotalBytes
            && Read(ReplyText(r) + rest, recognised, files, problems, TotalBytes(files), limits) ==
               Read(rest, true, fs, ps, TotalBytes(fs), limits)
  {
    hide Read, ReplyText, Strip, Encode, Classify, PathSeen, Admits, OverCap, OneLine, LimitsFit, TotalBytes;
    match r
    case Sent(f, body) => SentRead(f, body, rest, recognised, files, problems, limits);
    case Absent(path) => AbsentRead(path, rest, recognised, files, problems, TotalBytes(files), limits);
    case Oversize(size, path) => OversizeRead(size, path, rest, recognised, files, problems, TotalBytes(files), limits);
  }

  lemma SentRead(f: GuestFontFile, body: string, rest: string, recognised: bool, files: seq<GuestFontFile>,
                 problems: seq<Problem>, limits: Limits)
    requires Printed(Sent(f, body)) && LimitsFit(limits) && TotalBytes(files) <= limits.maxTotalBytes
    ensures Read(ReplyText(Sent(f, body)) + rest, recognised, files, problems, TotalBytes(files), limits) ==
            if Admits(f, files, limits) then Read(rest, true, files + [f], problems, TotalBytes(files + [f]), limits)
            else Read(rest, true, files, problems + [OverCap(f, files, limits)], TotalBytes(files), limits)
    ensures Admits(f, files, limits) ==> TotalBytes(files + [f]) <= limits.maxTotalBytes
  {
    hide Read, FrameOf, Strip, Encode, PathSeen, TotalBytes, OverCap;
    PathSeenWhole(f.path);
    TotalPush(files, f);
    FrameRead(f, body, rest, recognised, files, problems, limits);
  }

  lemma AbsentRead(path: string, rest: string, recognised: bool, files: seq<GuestFontFile>, problems: seq<Problem>,
                   total: nat, limits: Limits)
    requires OneLine(path)
    ensures Read(ReplyText(Absent(path)) + rest, recognised, files, problems, total, limits) ==
            Read(rest, true, files, problems + [NotOnGuest(path)], total, limits)
  {
    hide Read, Classify, OneLine;
    var line := "@@ missing " + path;
    AbsentReport(path);
    assert ReplyText(Absent(path)) + rest == line + ("\n" + rest);
    ReadReport(line, rest, NotOnGuest(path), recognised, files, problems, total, limits);
  }

  lemma OversizeRead(size: nat, path: string, rest: string, recognised: bool, files: seq<GuestFontFile>, problems: seq<Problem>,
                     total: nat, limits: Limits)
    requires OneLine(path)
    ensures Read(ReplyText(Oversize(size, path)) + rest, recognised, files, problems, total, limits) ==
            Read(rest, true, files, problems + [GuestTooLarge(path)], total, limits)
  {
    hide Read, Classify, OneLine, Digits;
    var line := "@@ too-large " + (Digits(size) + (" " + path));
    OversizeReport(size, path);
    assert ReplyText(Oversize(size, path)) + rest == line + ("\n" + rest);
    ReadReport(line, rest, GuestTooLarge(path), recognised, files, problems, total, limits);
  }

  lemma {:induction false} RepliesRead(replies: seq<Reply>, recognised: bool, files: seq<GuestFontFile>, problems: seq<Problem>,
                                       limits: Limits)
    requires LimitsFit(limits) && TotalBytes(files) <= limits.maxTotalBytes
    requires forall i :: 0 <= i < |replies| ==> Printed(replies[i])
    ensures var (fs, ps) := ReceivedAll(replies, files, problems, limits);
            Read(StreamOf(replies), recognised, files, problems, TotalBytes(files), limits) ==
            Fetched(recognised || replies != [], fs, ps)
    decreases |replies|
  {
    hide Read, Printed, Received, ReplyText, TotalBytes;
    if replies == [] {
      ReadsNothing(recognised, files, problems, TotalBytes(files), limits);
    } else {
      ReplyRead(replies[0], StreamOf(replies[1..]), recognised, files, problems, limits);
      var (fs, ps) := Received(replies[0], files, problems, limits);
      RepliesRead(replies[1..], true, fs, ps, limits);
    }
  }

  lemma ReadsNothing(recognised: bool, files: seq<GuestFontFile>, problems: seq<Problem>, total: nat, limits: Limits)
    ensures Read("", recognised, files, problems, total, limits) == Fetched(recognised, files, problems)
  {
  }

  lemma TotalPush(files: seq<GuestFontFile>, f: GuestFontFile)
    ensures TotalBytes(files + [f]) == TotalBytes(files) + |f.bytes|
  {
    assert (files + [f])[..|files|] == files;
  }

  /** What the command prints is what is read: each file that was sent is kept, in
      order, exactly while the caps admit it, and every other reply is noted. */
  lemma StreamRead(replies: seq<Reply>, limits: Limits)
    requires LimitsFit(limits) && forall i :: 0 <= i < |replies| ==> Printed(replies[i])
    ensures var (fs, ps) := ReceivedAll(replies, [], [], limits);
            ReadStream(StreamOf(replies), limits) == Fetched(true, fs, ps)
  {
    hide Read, Printed, ReplyText, ReceivedAll;
    RepliesRead(replies, StreamOf(replies) == "", [], [], limits);
  }

  lemma {:induction false} CapsOfPrefix(a: seq<GuestFontFile>, b: seq<GuestFontFile>, limits: Limits)
    requires WithinCaps(a + b, limits)
    ensures WithinCaps(a, limits)
    decreases |b|
  {
    if b == [] {
      assert a + b == a;
    } else {
      var b' := b[..|b| - 1];
      assert (a + b)[..|a + b| - 1] == a + b';
      assert forall i :: 0 <= i < |a + b'| ==> (a + b')[i] == (a + b)[i];
      CapsOfPrefix(a, b', limits);
    }
  }

  function SendAll(files: seq<GuestFontFile>, bodies: seq<string>): (r: seq<Reply>)
    requires |files| == |bodies|
    ensures |r| == |files| && forall i :: 0 <= i < |r| ==> r[i] == Sent(files[i], bodies[i])
  {
    seq(|files|, i requires 0 <= i < |files| => Sent(files[i], bodies[i]))
  }

  /** Files that are within the caps together are each admitted in turn. */
  lemma {:induction false} AllReceived(replies: seq<Reply>, before: seq<GuestFontFile>, files: seq<GuestFontFile>, limits: Limits)
    requires |replies| == |files| && forall i :: 0 <= i < |replies| ==> replies[i].Sent? && replies[i].file == files[i]
    requires WithinCaps(before + files, limits)
    ensures ReceivedAll(replies, before, [], limits) == (before + files, [])
    decreases |files|
  {
    if files == [] {
      assert before + files == before;
    } else {
      var f := files[0];
      assert before + files == (before + [f]) + files[1..];
      CapsOfPrefix(before + [f], files[1..], limits);
      TotalPush(before, f);
      assert (before + [f])[|before|] == f;
      hide WithinCaps, TotalBytes;
      assert Admits(f, before, limits) by { AdmittedNext(f, before, limits); }
      AllReceived(replies[1..], before + [f], files[1..], limits);
    }
  }

  lemma AdmittedNext(f: GuestFontFile, before: seq<GuestFontFile>, limits: Limits)
    requires WithinCaps(before + [f], limits)
    ensures Admits(f, before, limits)
  {
    TotalPush(before, f);
    assert (before + [f])[|before|] == f;
    hide TotalBytes;
  }

  /** Every file, in order, whatever lines its base64 is wrapped into. */
  lemma StreamRoundTrip(files: seq<GuestFontFile>, bodies: seq<string>, limits: Limits)
    requires |files| == |bodies| && LimitsFit(limits) && limits.maxFileBytes < SIZE_LIMIT
    requires forall i :: 0 <= i < |files| ==> OneLine(files[i].path) && Strip(bodies[i]) == Encode(files[i].bytes)
    requires WithinCaps(files, limits)
    ensures ReadStream(StreamOf(SendAll(files, bodies)), limits) == Fetched(true, files, [])
  {
    hide ReadStream, StreamOf, ReceivedAll, Strip, Encode, OneLine, TotalBytes;
    StreamRead(SendAll(files, bodies), limits);
    assert [] + files == files;
    AllReceived(SendAll(files, bodies), [], files, limits);
  }

  /** Exactly when a file comes back as it was sent: its path holds no newline and
      does not end in a carriage return, which the line reader would take off. */
  lemma PathRoundTrip(f: GuestFontFile, body: string, limits: Limits)
    requires Strip(body) == Encode(f.bytes) && LimitsFit(limits) && limits.maxFileBytes < SIZE_LIMIT
    requires WithinCaps([f], limits)
    ensures ReadStream(FrameOf(f, body), limits).files == [f] <==> OneLine(f.path)
  {
    hide Read, FrameOf, Strip, Encode, Kept;
    var s := FrameOf(f, body);
    PathSeenWhole(f.path);
    if NoNewline(f.path) {
      assert [] + [f] == [f] && TotalBytes([]) == 0;
      assert s + "" == s;
      AdmittedNext(f, [], limits);
      FrameRead(f, body, "", s == "", [], [], limits);
      ReadsNothing(true, [] + [f.(path := PathSeen(f.path))], [], 0 + |f.bytes|, limits);
    } else {
      StreamWithinCaps(s, limits);
      KeptPaths(ReadStream(s, limits).files, limits);
    }
  }

  lemma KeptPaths(files: seq<GuestFontFile>, limits: Limits)
    requires Kept(files, limits)
    ensures forall i :: 0 <= i < |files| ==> NoNewline(files[i].path)
  {
  }

  // ----- the code

  /** `next_line`. */
  method TakeLine(rest: string) returns (line: string, after: string)
    ensures (line, after) == NextLine(rest)
  {
    var end := Find(rest, '\n');
    line := rest[..end];
    after := if end == |rest| then "" else rest[end + 1..];
    if |line| > 0 && line[|line| - 1] == '\r' {
      line := line[..|line| - 1];
    }
  }

  /** `parse_size`. */
  method ReadSize(text: string) returns (ok: bool, out: nat)
    ensures if ok then ParseSize(text) == Size.Bytes(out) else ParseSize(text) == NoSize
  {
    out := 0;
    if |text| == 0 || |text| > 19 {
      return false, 0;
    }
    for i := 0 to |text|
      invariant (forall j :: 0 <= j < i ==> IsDigit(text[j])) && out == Value(text[..i])
    {
      var c := text[i];
      if !IsDigit(c) {
        return false, out;
      }
      assert text[..i + 1][..i] == text[..i];
      out := out * 10 + (c as int - '0' as int);
    }
    assert text[..|text|] == text;
    ok := true;
  }

  /** What a header line announces, with the line's own tests in their order. */
  method ReadHeader(line: string) returns (r: Line)
    requires line != ""
    ensures r == Classify(line)
  {
    hide ParseSize;
    if Prefix(line, 3) != "@@ " {
      return Noise(UnexpectedOutput(Prefix(line, 80)));
    }
    var header := line[3..];
    if Prefix(header, 8) == "missing " {
      return Frame(NotOnGuest(header[8..]));
    }
    if Prefix(header, 10) == "too-large " {
      var what := header[10..];
      var space := Find(what, ' ');
      if space < |what| {
        what := what[space + 1..];
      }
      return Frame(GuestTooLarge(what));
    }
    if Prefix(header, 3) != "ok " {
      return Frame(UnexpectedHeader(Prefix(header, 80)));
    }
    header := header[3..];
    var space := Find(header, ' ');
    if space == |header| {
      return Broken(MalformedHeader(Prefix(line, 80)));
    }
    var ok, size := ReadSize(header[..space]);
    if !ok {
      return Broken(MalformedHeader(Prefix(line, 80)));
    }
    return File(size, header[space + 1..]);
  }

  /** The checks on an announced file, in the order the caps are applied. */
  method CheckFile(size: nat, path: string, body: string, kept: nat, total: nat, limits: Limits) returns (v: Verdict)
    ensures v == Judge(size, path, body, kept, total, limits)
  {
    hide Decode;
    if kept >= limits.maxFiles {
      return Refuse(OverCount(path));
    }
    if size > limits.maxFileBytes {
      return Refuse(OverFileCap(path));
    }
    if Add64(total, size) > limits.maxTotalBytes {
      return Refuse(OverTotal(path));
    }
    var ok, bytes := DecodeBase64(body, limits.maxFileBytes);
    if !ok {
      return Refuse(NotBase64(path));
    }
    if |bytes| != size {
      return Refuse(WrongSize(path, |bytes|, size));
    }
    return Keep(GuestFontFile(path, bytes));
  }

  /** `parse_font_fetch_stream`. */
  method ParseFontFetchStream(stream: string, limits: Limits) returns (r: Fetched)
    ensures r == ReadStream(stream, limits)
  {
    hide Classify, FindText, Judge, NextLine;
    var total, recognised, rest := 0, stream == "", stream;
    var files: seq<GuestFontFile>, problems: seq<Problem> := [], [];
    while rest != ""
      invariant Read(rest, recognised, files, problems, total, limits) == ReadStream(stream, limits)
      decreases |rest|
    {
      LineShrinks(rest);
      var line, after := TakeLine(rest);
      rest := after;
      if line == "" {
        BlankLine();
        continue;
      }
      var header := ReadHeader(line);
      NotBlank(line);
      match header
      case Noise(p) => problems := problems + [p];
      case Frame(p) =>
        recognised := true;
        problems := problems + [p];
      case Broken(p) =>
        return Fetched(false, files, problems + [p]);
      case File(size, path) =>
        recognised := true;
        var end := FindText(rest, END_MARK);
        if end > |rest| {
          return Fetched(recognised, files, problems + [EndedInside(path)]);
        }
        var body := rest[..end];
        EndShrinks(rest, end);
        var _, next := TakeLine(rest[end..]);
        rest := next;
        var v := CheckFile(size, path, body, |files|, total, limits);
        match v {
          case Refuse(p) => problems := problems + [p];
          case Keep(f) =>
            total := total + size;
            files := files + [f];
        }
    }
    ReadsNothing(recognised, files, problems, total, limits);
    r := Fetched(recognised, files, problems);
  }

  lemma BlankLine()
    ensures Classify("") == Blank
  {
  }

  lemma NotBlank(line: string)
    requires line != ""
    ensures !Classify(line).Blank?
  {
  }
}
