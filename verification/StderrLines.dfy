/** ssh's stderr: bytes arriving in arbitrary chunks, split into lines, scanned
    for the forward's readiness, and kept in a bounded transcript. */
module StderrLines {
  import opened Strings

  // ----- splitting a text into lines

  /** The finished lines of a text, each without its end. */
  function Lines(s: string): seq<string> {
    var n := Find(s, '\n');
    if n == |s| then [] else [DropReturn(s[..n])] + Lines(s[n + 1..])
  }

  /** What follows the last newline. */
  function Remainder(s: string): string {
    var n := Find(s, '\n');
    if n == |s| then s else Remainder(s[n + 1..])
  }

  lemma FindInPrefix(a: string, b: string)
    ensures Find(a, '\n') < |a| ==> Find(a + b, '\n') == Find(a, '\n')
  {
    if Find(a, '\n') < |a| {
      FindIs(a + b, '\n', Find(a, '\n'));
    }
  }

  lemma LinesStep(s: string)
    requires Find(s, '\n') < |s|
    ensures Lines(s) == [DropReturn(s[..Find(s, '\n')])] + Lines(s[Find(s, '\n') + 1..])
    ensures Remainder(s) == Remainder(s[Find(s, '\n') + 1..])
  {
  }

  lemma OpenLine(s: string)
    requires Find(s, '\n') == |s|
    ensures Lines(s) == [] && Remainder(s) == s
  {
  }

  /** Splitting a text is splitting its beginning, then what that left together
      with the rest. */
  lemma {:induction false} LinesAppend(a: string, b: string)
    ensures Lines(a + b) == Lines(a) + Lines(Remainder(a) + b)
    ensures Remainder(a + b) == Remainder(Remainder(a) + b)
    decreases |a|
  {
    hide *;
    var n := Find(a, '\n');
    FindInPrefix(a, b);
    if n < |a| {
      var line, rest := [DropReturn(a[..n])], a[n + 1..];
      assert (a + b)[..n] == a[..n] && (a + b)[n + 1..] == rest + b;
      LinesStep(a);
      LinesStep(a + b);
      LinesAppend(rest, b);
      assert line + (Lines(rest) + Lines(Remainder(a) + b)) == line + Lines(rest) + Lines(Remainder(a) + b);
    } else {
      OpenLine(a);
    }
  }

  function Join(chunks: seq<string>): string {
    if chunks == [] then "" else Join(chunks[..|chunks| - 1]) + chunks[|chunks| - 1]
  }

  lemma JoinPush(chunks: seq<string>, c: string)
    ensures Join(chunks + [c]) == Join(chunks) + c
  {
    assert (chunks + [c])[..|chunks|] == chunks;
  }

  /** One line taken from position start of a buffer. */
  lemma TakeAt(s: string, start: nat)
    requires start <= |s|
    ensures var nl := Find(s[start..], '\n');
            if nl == |s| - start then Lines(s[start..]) == [] && Remainder(s[start..]) == s[start..]
            else && Lines(s[start..]) == [DropReturn(s[start..start + nl])] + Lines(s[start + nl + 1..])
                 && Remainder(s[start..]) == Remainder(s[start + nl + 1..])
  {
    hide *;
    var t := s[start..];
    if Find(t, '\n') < |t| {
      SliceFrom(s, start, Find(t, '\n'));
      LinesStep(t);
    } else {
      OpenLine(t);
    }
  }

  lemma SliceFrom(s: string, start: nat, n: nat)
    requires start + n < |s|
    ensures s[start..][..n] == s[start..start + n] && s[start..][n + 1..] == s[start + n + 1..]
  {
  }

  /** `feed_lines` and `flush_lines`: a reader that carries an unfinished line. */
  class LineFeeder {
    var partial: string
    var sink: seq<string>

    constructor ()
      ensures partial == "" && sink == []
    {
      partial, sink := "", [];
    }

    method FeedLines(bytes: string)
      modifies this
      ensures sink == old(sink) + Lines(old(partial) + bytes)
      ensures partial == Remainder(old(partial) + bytes)
    {
      hide Lines, Remainder;
      partial := partial + bytes;
      ghost var all := partial;
      var start := 0;
      assert all[0..] == all;
      while true
        invariant start <= |partial| && partial == all
        invariant sink + Lines(partial[start..]) == old(sink) + Lines(all)
        invariant Remainder(partial[start..]) == Remainder(all)
        decreases |partial| - start
      {
        TakeAt(partial, start);
        var nl := Find(partial[start..], '\n');
        if nl == |partial| - start {
          break;
        }
        var line := partial[start..start + nl];
        if |line| > 0 && line[|line| - 1] == '\r' {
          line := line[..|line| - 1];
        }
        sink := sink + [line];
        start := start + nl + 1;
      }
      partial := partial[start..];
    }

    /** An unfinished last line goes out as it is, a final return included. */
    method FlushLines()
      modifies this
      ensures sink == (if old(partial) == "" then old(sink) else old(sink) + [old(partial)]) && partial == ""
    {
      if partial != "" {
        sink := sink + [partial];
      }
      partial := "";
    }
  }

  /** A text's lines as a feeder that is flushed delivers them. */
  function Flushed(text: string): seq<string> {
    Lines(text) + if Remainder(text) == "" then [] else [Remainder(text)]
  }

  /** A text's lines as a reader whose stream has ended delivers them. */
  function Finished(text: string): seq<string> {
    Lines(text) + if Remainder(text) == "" then [] else [DropReturn(Remainder(text))]
  }

  /** A text ends with what follows its last newline. */
  lemma {:induction false} RemainderEnds(s: string)
    ensures |Remainder(s)| <= |s| && Remainder(s) == s[|s| - |Remainder(s)|..]
    ensures Remainder(s) == "" && s != "" ==> s[|s| - 1] == '\n'
    decreases |s|
  {
    hide Find;
    var n := Find(s, '\n');
    if n < |s| {
      var t := s[n + 1..];
      RemainderEnds(t);
      assert t[|t| - |Remainder(t)|..] == s[|s| - |Remainder(t)|..];
    }
  }

  /** The two deliver different lines exactly when the text ends in a return, which
      the one keeps and the other drops. */
  lemma FlushedIffFinished(text: string)
    ensures Flushed(text) == Finished(text) <==> text == "" || text[|text| - 1] != '\r'
  {
    RemainderEnds(text);
    hide Lines, Remainder, Find;
    var r := Remainder(text);
    if r != "" {
      assert r[|r| - 1] == text[|text| - 1];
      assert Flushed(text)[|Lines(text)|] == r && Finished(text)[|Lines(text)|] == DropReturn(r);
    }
  }

  /** However a stream is cut into chunks, the same lines come out. */
  method FeedChunks(chunks: seq<string>) returns (lines: seq<string>)
    ensures lines == Flushed(Join(chunks))
  {
    var feeder := new LineFeeder();
    for i := 0 to |chunks|
      invariant feeder.sink == Lines(Join(chunks[..i])) && feeder.partial == Remainder(Join(chunks[..i]))
    {
      assert chunks[..i + 1] == chunks[..i] + [chunks[i]];
      JoinPush(chunks[..i], chunks[i]);
      LinesAppend(Join(chunks[..i]), chunks[i]);
      feeder.FeedLines(chunks[i]);
    }
    assert chunks[..|chunks|] == chunks;
    feeder.FlushLines();
    lines := feeder.sink;
  }

  // ----- the readiness scanner

  datatype Readiness = Pending | Ready | Failed

  /** The text the scanner looks for, which names the local port. */
  datatype Needles = Needles(listening: string, bindFailed: string)

  const REQUEST_FAILED := "Could not request local forwarding"
  const SESSION_ENTERED := "Entering interactive session."

  predicate IsNeedles(n: Needles) {
    n.listening != "" && n.bindFailed != ""
  }

  predicate Has(line: string, needle: string) {
    exists i :: 0 <= i <= |line| && needle <= line[i..]
  }

  predicate SaysFailed(n: Needles, line: string) {
    Has(line, n.bindFailed) || Has(line, REQUEST_FAILED)
  }

  /** The scanner's memory. */
  datatype Scan = Scan(state: Readiness, listeningSeen: bool, why: string)

  const START := Scan(Pending, false, "")

  function ScanLine(n: Needles, s: Scan, line: string): Scan {
    if s.state != Pending then s
    else if SaysFailed(n, line) then Scan(Failed, s.listeningSeen, line)
    else if Has(line, n.listening) then s.(listeningSeen := true)
    else if s.listeningSeen && Has(line, SESSION_ENTERED) then s.(state := Ready)
    else s
  }

  function ScanAll(n: Needles, s: Scan, lines: seq<string>): Scan {
    if lines == [] then s else ScanLine(n, ScanAll(n, s, lines[..|lines| - 1]), lines[|lines| - 1])
  }

  lemma ScanPush(n: Needles, s: Scan, lines: seq<string>, line: string)
    ensures ScanAll(n, s, lines + [line]) == ScanLine(n, ScanAll(n, s, lines), line)
  {
    assert (lines + [line])[..|lines|] == lines;
  }

  lemma EmptyLineSilent(n: Needles, s: Scan)
    requires IsNeedles(n)
    ensures ScanLine(n, s, "") == s
  {
  }

  /** Line j ends a successful wait: the session was entered after the listening
      line, and neither is the other's line. */
  predicate EntersAt(n: Needles, lines: seq<string>, j: nat)
    requires j < |lines|
  {
    && Has(lines[j], SESSION_ENTERED) && !Has(lines[j], n.listening)
    && exists i :: 0 <= i < j && Has(lines[i], n.listening)
  }

  /** No line up to j reports a failure. */
  predicate NoFailureUpTo(n: Needles, lines: seq<string>, j: nat)
    requires j < |lines|
  {
    forall i :: 0 <= i <= j ==> !SaysFailed(n, lines[i])
  }

  predicate BecomesReady(n: Needles, lines: seq<string>) {
    exists j :: 0 <= j < |lines| && EntersAt(n, lines, j) && NoFailureUpTo(n, lines, j)
  }

  predicate SomeFailure(n: Needles, lines: seq<string>) {
    exists i :: 0 <= i < |lines| && SaysFailed(n, lines[i])
  }

  predicate SomeListening(n: Needles, lines: seq<string>) {
    exists i :: 0 <= i < |lines| && Has(lines[i], n.listening)
  }

  lemma BecomesReadyPush(n: Needles, lines: seq<string>, line: string)
    ensures BecomesReady(n, lines + [line]) <==>
            BecomesReady(n, lines)
            || (Has(line, SESSION_ENTERED) && !Has(line, n.listening) && SomeListening(n, lines)
                && !SomeFailure(n, lines) && !SaysFailed(n, line))
    ensures SomeFailure(n, lines + [line]) <==> SomeFailure(n, lines) || SaysFailed(n, line)
    ensures SomeListening(n, lines + [line]) <==> SomeListening(n, lines) || Has(line, n.listening)
  {
    hide Has, SaysFailed;
    var all := lines + [line];
    assert all[|lines|] == line;
    assert forall i :: 0 <= i < |lines| ==> all[i] == lines[i];
    forall j | 0 <= j < |lines|
      ensures EntersAt(n, all, j) <==> EntersAt(n, lines, j)
      ensures NoFailureUpTo(n, all, j) <==> NoFailureUpTo(n, lines, j)
    {
    }
    assert EntersAt(n, all, |lines|) <==> Has(line, SESSION_ENTERED) && !Has(line, n.listening) && SomeListening(n, lines);
    assert NoFailureUpTo(n, all, |lines|) <==> !SomeFailure(n, lines) && !SaysFailed(n, line);
  }

  /** What the scanner's state means: ready exactly when the session was entered
      after a listening line with no failure reported by then; failed exactly when
      a failure was reported and it was not ready before. */
  lemma {:induction false} ScanMeaning(n: Needles, lines: seq<string>)
    ensures var s := ScanAll(n, START, lines);
            && (s.state == Ready <==> BecomesReady(n, lines))
            && (s.state == Failed <==> SomeFailure(n, lines) && !BecomesReady(n, lines))
            && (s.state == Pending ==> (s.listeningSeen <==> SomeListening(n, lines)))
    decreases |lines|
  {
    hide Has, SaysFailed, BecomesReady, SomeFailure, SomeListening;
    if lines == [] {
      NothingYet(n);
    } else {
      var ls, l := lines[..|lines| - 1], lines[|lines| - 1];
      assert lines == ls + [l];
      ScanMeaning(n, ls);
      BecomesReadyPush(n, ls, l);
      ScanPush(n, START, ls, l);
    }
  }

  lemma NothingYet(n: Needles)
    ensures !BecomesReady(n, []) && !SomeFailure(n, []) && !SomeListening(n, [])
  {
  }

  /** `ForwardReadinessScanner`. */
  class ForwardReadinessScanner {
    const needles: Needles
    var state: Readiness
    var listeningSeen: bool
    var why: string

    constructor (needles: Needles)
      ensures this.needles == needles && Memory() == START
    {
      this.needles := needles;
      state, listeningSeen, why := Pending, false, "";
    }

    ghost function Memory(): Scan
      reads this
    {
      Scan(state, listeningSeen, why)
    }

    lemma Remembers()
      ensures Memory().state == state && Memory().why == why
    {
    }

    method Feed(line: string) returns (now: Readiness)
      modifies this
      ensures Memory() == ScanLine(needles, old(Memory()), line) && now == state
    {
      hide Has;
      if state != Pending {
        return state;
      }
      if Has(line, needles.bindFailed) || Has(line, REQUEST_FAILED) {
        state := Failed;
        why := line;
      } else if Has(line, needles.listening) {
        // ssh announces this before it binds the port; the session line tells
        listeningSeen := true;
      } else if listeningSeen && Has(line, SESSION_ENTERED) {
        state := Ready;
      }
      return state;
    }
  }

  /** Every line of a finished text: the last one too, without its newline. */
  function WholeLines(s: string): seq<string> {
    Lines(s) + [DropReturn(Remainder(s))]
  }

  /** The lines still to be fed once the text is read to start. */
  function LinesFrom(text: string, start: nat): seq<string> {
    if start <= |text| then WholeLines(text[start..]) else []
  }

  /** `forward_readiness`: one pass over the whole text. */
  method ForwardReadiness(needles: Needles, text: string) returns (state: Readiness, why: string)
    ensures var s := ScanAll(needles, START, WholeLines(text)); state == s.state && why == s.why
  {
    hide *;
    var scanner := new ForwardReadinessScanner(needles);
    var start := 0;
    ghost var fed: seq<string> := [];
    NothingFed(needles);
    NoLinesFed(text);
    while start <= |text|
      invariant scanner.needles == needles && scanner.Memory() == ScanAll(needles, START, fed) && fresh(scanner)
      invariant start <= |text| + 1
      invariant fed + LinesFrom(text, start) == WholeLines(text)
      decreases |text| + 1 - start
    {
      WholeStep(text, start, fed);
      var line, end := NextLine(text, start);
      var _ := scanner.Feed(line);
      ScanPush(needles, START, fed, line);
      fed := fed + [line];
      start := end + 1;
    }
    AllLinesFed(text, start, fed);
    state, why := scanner.state, scanner.why;
    scanner.Remembers();
  }

  lemma NoLinesFed(text: string)
    ensures [] + LinesFrom(text, 0) == WholeLines(text)
  {
    hide WholeLines;
    assert text[0..] == text;
  }

  lemma AllLinesFed(text: string, start: nat, fed: seq<string>)
    requires start > |text|
    ensures fed + LinesFrom(text, start) == fed
  {
  }

  method NextLine(text: string, start: nat) returns (line: string, end: nat)
    requires start <= |text|
    ensures end == start + Find(text[start..], '\n') && line == DropReturn(text[start..end])
  {
    hide Find, DropReturn;
    end := start + Find(text[start..], '\n');
    line := text[start..end];
    if |line| > 0 && line[|line| - 1] == '\r' {
      line := line[..|line| - 1];
    }
    DropReturnIs(text[start..end]);
  }

  lemma DropReturnIs(line: string)
    ensures DropReturn(line) == if |line| > 0 && line[|line| - 1] == '\r' then line[..|line| - 1] else line
  {
  }

  lemma NothingFed(n: Needles)
    ensures ScanAll(n, START, []) == START
  {
  }

  /** One line of the one pass. */
  lemma WholeStep(text: string, start: nat, fed: seq<string>)
    requires start <= |text|
    ensures var nl := Find(text[start..], '\n');
            var line := DropReturn(text[start..start + nl]);
            fed + LinesFrom(text, start) == fed + [line] + LinesFrom(text, start + nl + 1)
  {
    hide *;
    TakeAt(text, start);
    var nl := Find(text[start..], '\n');
    FromIs(text, start);
    FromIs(text, start + nl + 1);
    WholeIs(text[start..]);
    if nl == |text| - start {
      assert text[start..start + nl] == text[start..];
    } else {
      WholeIs(text[start + nl + 1..]);
      Regroup(fed, DropReturn(text[start..start + nl]), Lines(text[start + nl + 1..]), DropReturn(Remainder(text[start..])));
    }
  }

  lemma FromIs(text: string, start: nat)
    ensures LinesFrom(text, start) == if start <= |text| then WholeLines(text[start..]) else []
  {
    hide WholeLines;
  }

  lemma WholeIs(s: string)
    ensures WholeLines(s) == Lines(s) + [DropReturn(Remainder(s))]
    ensures Lines(s) == [] ==> WholeLines(s) == [DropReturn(Remainder(s))]
  {
    hide Lines, Remainder, DropReturn;
  }

  lemma Regroup(fed: seq<string>, line: string, l: seq<string>, r: string)
    ensures fed + (([line] + l) + [r]) == fed + [line] + (l + [r])
  {
  }

  predicate IsDebugLine(line: string) {
    |line| >= 7 && line[..5] == "debug" && '1' <= line[5] <= '3' && line[6] == ':'
  }

  /** The lines with ssh's debugging output taken out. */
  function Ordinary(lines: seq<string>): seq<string> {
    if lines == [] then []
    else
      var l := lines[|lines| - 1];
      Ordinary(lines[..|lines| - 1]) + if IsDebugLine(l) then [] else [l]
  }

  lemma OrdinaryPush(lines: seq<string>, l: string)
    ensures Ordinary(lines + [l]) == Ordinary(lines) + if IsDebugLine(l) then [] else [l]
  {
    assert (lines + [l])[..|lines|] == lines;
  }

  /** The part of `SshTunnel` that reads ssh's stderr. */
  class TunnelReader {
    const scanner: ForwardReadinessScanner
    var partial: string
    var sink: seq<string>
    ghost var delivered: seq<string>

    /** Scanner and sink are what the lines delivered so far make them. */
    ghost predicate Valid()
      reads this, scanner
    {
      scanner.Memory() == ScanAll(scanner.needles, START, delivered) && sink == Ordinary(delivered)
    }

    constructor (needles: Needles)
      ensures Valid() && fresh(scanner) && scanner.needles == needles && partial == "" && delivered == []
    {
      scanner := new ForwardReadinessScanner(needles);
      partial, sink, delivered := "", [], [];
    }

    method Deliver(lineIn: string)
      requires Valid()
      modifies scanner, `sink, `delivered
      ensures Valid() && delivered == old(delivered) + [DropReturn(lineIn)]
    {
      var line := lineIn;
      if |line| > 0 && line[|line| - 1] == '\r' {
        line := line[..|line| - 1];
      }
      assert line == DropReturn(lineIn);
      hide ScanLine, ScanAll, Ordinary, DropReturn, IsDebugLine;
      ScanPush(scanner.needles, START, delivered, line);
      OrdinaryPush(delivered, line);
      delivered := delivered + [line];
      var _ := scanner.Feed(line);
      if IsDebugLine(line) {
        return;
      }
      sink := sink + [line];
    }

    /** `SshTunnel::feed`; open says whether more of the stream can come. */
    method Feed(chunk: string, open: bool)
      requires Valid()
      modifies this, scanner
      ensures Valid()
      ensures var text := old(partial) + chunk;
              if open || Remainder(text) == "" then
                delivered == old(delivered) + Lines(text) && partial == Remainder(text)
              else delivered == old(delivered) + WholeLines(text) && partial == ""
    {
      hide Lines, Remainder, Find, DropReturn, ScanAll, Ordinary;
      partial := partial + chunk;
      ghost var all := partial;
      var start := 0;
      assert all[0..] == all;
      while true
        invariant Valid() && start <= |partial| && partial == all
        invariant delivered + Lines(partial[start..]) == old(delivered) + Lines(all)
        invariant Remainder(partial[start..]) == Remainder(all)
        decreases |partial| - start
      {
        TakeAt(partial, start);
        var nl := Find(partial[start..], '\n');
        if nl == |partial| - start {
          break;
        }
        Deliver(partial[start..start + nl]);
        start := start + nl + 1;
      }
      partial := partial[start..];
      if !open && partial != "" {
        // no newline can follow any more
        assert old(delivered) + Lines(all) + [DropReturn(partial)] == old(delivered) + WholeLines(all);
        Deliver(partial);
        partial := "";
      }
    }
  }

  /** However ssh's stderr is cut into chunks, the last of them read as the stream
      closes, the tunnel's reader delivers the same lines, and its scanner ends where
      one pass over the whole text does. */
  method FeedTunnel(needles: Needles, chunks: seq<string>) returns (sink: seq<string>, state: Readiness, why: string)
    requires IsNeedles(needles) && chunks != []
    ensures sink == Ordinary(Finished(Join(chunks)))
    ensures var s := ScanAll(needles, START, WholeLines(Join(chunks))); state == s.state && why == s.why
  {
    hide Lines, Remainder, ScanLine, Ordinary, ScanAll, DropReturn;
    var reader := new TunnelReader(needles);
    EmptyText();
    for i := 0 to |chunks| - 1
      invariant reader.Valid() && reader.scanner.needles == needles && fresh(reader) && fresh(reader.scanner)
      invariant reader.delivered == Lines(Join(chunks[..i])) && reader.partial == Remainder(Join(chunks[..i]))
    {
      assert chunks[..i + 1] == chunks[..i] + [chunks[i]];
      JoinPush(chunks[..i], chunks[i]);
      LinesAppend(Join(chunks[..i]), chunks[i]);
      reader.Feed(chunks[i], true);
    }
    ghost var front, last := Join(chunks[..|chunks| - 1]), chunks[|chunks| - 1];
    LinesAppend(front, last);
    reader.Feed(chunks[|chunks| - 1], false);
    FinishedIs(Lines(front), reader.delivered, Join(chunks), Remainder(front) + last);
    FinishedScans(needles, Join(chunks));
    sink, state, why := reader.sink, reader.scanner.state, reader.scanner.why;
  }

  /** The last chunk, after the lines of the chunks before it. */
  lemma FinishedIs(before: seq<string>, delivered: seq<string>, text: string, rest: string)
    requires Lines(text) == before + Lines(rest) && Remainder(text) == Remainder(rest)
    requires delivered == before + if Remainder(rest) == "" then Lines(rest) else WholeLines(rest)
    ensures delivered == Finished(text)
  {
    hide Lines, Remainder, DropReturn;
  }

  /** Scanning the delivered lines is scanning the whole text: an empty last line
      says nothing. */
  lemma FinishedScans(needles: Needles, text: string)
    requires IsNeedles(needles)
    ensures ScanAll(needles, START, Finished(text)) == ScanAll(needles, START, WholeLines(text))
  {
    hide Lines, Remainder, ScanLine;
    if Remainder(text) == "" {
      ScanPush(needles, START, Lines(text), "");
      EmptyLineSilent(needles, ScanAll(needles, START, Lines(text)));
      assert Lines(text) + [] == Lines(text);
    }
  }

  lemma EmptyText()
    ensures Lines("") == [] && Remainder("") == "" && Join([]) == ""
  {
  }

  // ----- the bounded transcript

  /** `StderrCapture::bounded_append`: the most recent capacity bytes, and how many
      went before them. */
  class BoundedTranscript {
    const capacity: nat
    var into: string
    var dropped: nat
    ghost var all: string

    ghost predicate Valid()
      reads this
    {
      |into| <= capacity && dropped == |all| - |into| && into == all[dropped..]
      && (dropped > 0 ==> |into| == capacity)
    }

    constructor (capacity: nat)
      ensures Valid() && this.capacity == capacity && all == ""
    {
      this.capacity := capacity;
      into, dropped, all := "", 0, "";
    }

    /** Always the longest end of everything appended that fits. */
    method Append(data: string)
      requires Valid()
      modifies this
      ensures Valid() && all == old(all) + data
    {
      ghost var before := all;
      all := all + data;
      assert all[dropped..] == before[dropped..] + data;
      into := into + data;
      if |into| > capacity {
        var excess := |into| - capacity;
        into := into[excess..];
        dropped := dropped + excess;
      }
    }
  }
}
