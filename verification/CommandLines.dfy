/** Quoting an argument list into one Windows command line, and the documented
    rules by which the program started takes it apart again. */
module CommandLines {

  predicate IsBlank(c: char) {
    c == ' ' || c == '\t'
  }

  const VERTICAL_TAB := 11 as char

  predicate NeedsQuotes(arg: string) {
    arg == "" || exists i :: 0 <= i < |arg| && (IsBlank(arg[i]) || arg[i] == '\n' || arg[i] == VERTICAL_TAB || arg[i] == '"')
  }

  function Backslashes(n: nat): string {
    seq(n, _ => '\\')
  }

  /** The inside of a quoted argument, k backslashes being held back. */
  function Body(s: string, k: nat): string {
    if s == "" then Backslashes(2 * k)
    else if s[0] == '\\' then Body(s[1..], k + 1)
    else if s[0] == '"' then Backslashes(2 * k + 1) + ("\"" + Body(s[1..], 0))
    else Backslashes(k) + ([s[0]] + Body(s[1..], 0))
  }

  function QuoteArg(arg: string): string {
    if NeedsQuotes(arg) then "\"" + (Body(arg, 0) + "\"") else arg
  }

  function CommandLine(argv: seq<string>): string {
    if argv == [] then ""
    else if |argv| == 1 then QuoteArg(argv[0])
    else QuoteArg(argv[0]) + (" " + CommandLine(argv[1..]))
  }

  // ----- taking a command line apart

  /** What two quotes in a row mean inside quotes; runtimes differ. */
  datatype PairRule = PairToggles | PairIsQuote | PairIsQuoteAndEnds

  /** One argument and what follows it: k backslashes have been read but not yet
      decided, inQuotes says whether blanks are ordinary. */
  function ReadArg(rule: PairRule, s: string, inQuotes: bool, k: nat, acc: string): (string, string)
    decreases |s|
  {
    if s == "" then (acc + Backslashes(k), s)
    else if s[0] == '\\' then ReadArg(rule, s[1..], inQuotes, k + 1, acc)
    else if s[0] == '"' then
      var acc' := acc + Backslashes(k / 2);
      if k % 2 == 1 then ReadArg(rule, s[1..], inQuotes, 0, acc' + "\"")
      else if inQuotes && !rule.PairToggles? && |s| > 1 && s[1] == '"' then
        ReadArg(rule, s[2..], rule.PairIsQuote?, 0, acc' + "\"")
      else ReadArg(rule, s[1..], !inQuotes, 0, acc')
    else if IsBlank(s[0]) && !inQuotes then (acc + Backslashes(k), s)
    else ReadArg(rule, s[1..], inQuotes, 0, acc + Backslashes(k) + [s[0]])
  }

  function SkipBlanks(s: string): (t: string)
    ensures |t| <= |s| && (t != "" ==> !IsBlank(t[0]))
  {
    if s != "" && IsBlank(s[0]) then SkipBlanks(s[1..]) else s
  }

  lemma {:induction false} ReadArgShrinks(rule: PairRule, s: string, inQuotes: bool, k: nat, acc: string)
    ensures |ReadArg(rule, s, inQuotes, k, acc).1| <= |s|
    ensures s != "" && !IsBlank(s[0]) ==> |ReadArg(rule, s, inQuotes, k, acc).1| < |s|
    decreases |s|
  {
    if s == "" {
    } else if s[0] == '\\' {
      ReadArgShrinks(rule, s[1..], inQuotes, k + 1, acc);
    } else if s[0] == '"' {
      ReadArgShrinks(rule, s[1..], inQuotes, 0, acc + Backslashes(k / 2) + "\"");
      ReadArgShrinks(rule, s[1..], !inQuotes, 0, acc + Backslashes(k / 2));
      if |s| > 1 {
        ReadArgShrinks(rule, s[2..], rule.PairIsQuote?, 0, acc + Backslashes(k / 2) + "\"");
      }
    } else {
      ReadArgShrinks(rule, s[1..], inQuotes, 0, acc + Backslashes(k) + [s[0]]);
    }
  }

  /** All the arguments after the program name. */
  function ReadArgs(rule: PairRule, s: string): seq<string>
    decreases |s|
  {
    var t := SkipBlanks(s);
    if t == "" then []
    else
      var (arg, rest) := ReadArg(rule, t, false, 0, "");
      ReadArgShrinks(rule, t, false, 0, "");
      [arg] + ReadArgs(rule, rest)
  }

  /** The program name: quotes are dropped and protect blanks, nothing escapes. */
  function ReadProgram(s: string, inQuotes: bool, acc: string): (string, string)
    decreases |s|
  {
    if s == "" then (acc, s)
    else if s[0] == '"' then ReadProgram(s[1..], !inQuotes, acc)
    else if IsBlank(s[0]) && !inQuotes then (acc, s)
    else ReadProgram(s[1..], inQuotes, acc + [s[0]])
  }

  function SplitCommandLine(rule: PairRule, s: string): seq<string> {
    var (program, rest) := ReadProgram(s, false, "");
    [program] + ReadArgs(rule, rest)
  }

  // ----- the round trip of one argument

  lemma {:induction false} ReadRun(rule: PairRule, n: nat, t: string, inQuotes: bool, k: nat, acc: string)
    ensures ReadArg(rule, Backslashes(n) + t, inQuotes, k, acc) == ReadArg(rule, t, inQuotes, k + n, acc)
    decreases n
  {
    if n == 0 {
      assert Backslashes(n) + t == t;
    } else {
      assert (Backslashes(n) + t)[1..] == Backslashes(n - 1) + t;
      ReadRun(rule, n - 1, t, inQuotes, k + 1, acc);
    }
  }

  /** What can follow an argument: nothing, or a blank. */
  predicate Ends(tail: string) {
    tail == "" || IsBlank(tail[0])
  }

  lemma BackslashAppend(j: nat, s: string, acc: string)
    requires s != "" && s[0] == '\\'
    ensures acc + Backslashes(j + 1) + s[1..] == acc + Backslashes(j) + s
  {
    assert Backslashes(j + 1) == Backslashes(j) + ["\\"[0]];
    assert s == [s[0]] + s[1..];
  }

  /** The closing quote: the doubled backslashes before it come back single. */
  lemma CloseStep(rule: PairRule, j: nat, tail: string, acc: string)
    requires Ends(tail)
    ensures ReadArg(rule, Backslashes(2 * j) + ("\"" + tail), true, 0, acc) == (acc + Backslashes(j), tail)
  {
    var t := "\"" + tail;
    ReadRun(rule, 2 * j, t, true, 0, acc);
    assert t[1..] == tail;
    assert acc + Backslashes(j) + Backslashes(0) == acc + Backslashes(j);
  }

  /** An embedded quote: 2 j + 1 backslashes and the quote give j and the quote. */
  lemma QuoteStep(rule: PairRule, j: nat, t: string, acc: string)
    ensures ReadArg(rule, Backslashes(2 * j + 1) + ("\"" + t), true, 0, acc) == ReadArg(rule, t, true, 0, acc + Backslashes(j) + "\"")
  {
    ReadRun(rule, 2 * j + 1, "\"" + t, true, 0, acc);
    assert ("\"" + t)[1..] == t;
  }

  /** Any other character: the backslashes before it stand for themselves. */
  lemma CharStep(rule: PairRule, j: nat, c: char, t: string, acc: string)
    requires c != '\\' && c != '"'
    ensures ReadArg(rule, Backslashes(j) + ([c] + t), true, 0, acc) == ReadArg(rule, t, true, 0, acc + Backslashes(j) + [c])
  {
    ReadRun(rule, j, [c] + t, true, 0, acc);
    assert ([c] + t)[1..] == t;
  }

  /** Inside the quotes, the argument's characters come back one by one. */
  lemma {:induction false} BodyReads(rule: PairRule, s: string, j: nat, tail: string, acc: string)
    requires Ends(tail)
    ensures ReadArg(rule, Body(s, j) + ("\"" + tail), true, 0, acc) == (acc + Backslashes(j) + s, tail)
    decreases |s|
  {
    hide ReadArg, Ends;
    var t := "\"" + tail;
    if s == "" {
      CloseStep(rule, j, tail, acc);
      assert acc + Backslashes(j) + s == acc + Backslashes(j);
    } else if s[0] == '\\' {
      BodyReads(rule, s[1..], j + 1, tail, acc);
      BackslashAppend(j, s, acc);
    } else if s[0] == '"' {
      var u := Body(s[1..], 0) + t;
      assert Body(s, j) + t == Backslashes(2 * j + 1) + ("\"" + u);
      QuoteStep(rule, j, u, acc);
      BodyReads(rule, s[1..], 0, tail, acc + Backslashes(j) + "\"");
      assert acc + Backslashes(j) + "\"" + Backslashes(0) + s[1..] == acc + Backslashes(j) + s;
    } else {
      var u := Body(s[1..], 0) + t;
      assert Body(s, j) + t == Backslashes(j) + ([s[0]] + u);
      CharStep(rule, j, s[0], u, acc);
      BodyReads(rule, s[1..], 0, tail, acc + Backslashes(j) + [s[0]]);
      assert acc + Backslashes(j) + [s[0]] + Backslashes(0) + s[1..] == acc + Backslashes(j) + s;
    }
  }

  /** An argument that needs no quotes is taken as it stands. */
  lemma {:induction false} PlainReads(rule: PairRule, s: string, j: nat, tail: string, acc: string)
    requires Ends(tail) && forall i :: 0 <= i < |s| ==> !IsBlank(s[i]) && s[i] != '"'
    ensures ReadArg(rule, s + tail, false, j, acc) == (acc + Backslashes(j) + s, tail)
    decreases |s|
  {
    if s == "" {
      assert s + tail == tail;
      assert acc + Backslashes(j) + s == acc + Backslashes(j);
    } else {
      assert (s + tail)[1..] == s[1..] + tail;
      if s[0] == '\\' {
        PlainReads(rule, s[1..], j + 1, tail, acc);
        BackslashAppend(j, s, acc);
      } else {
        PlainReads(rule, s[1..], 0, tail, acc + Backslashes(j) + [s[0]]);
        assert acc + Backslashes(j) + [s[0]] + Backslashes(0) + s[1..] == acc + Backslashes(j) + s;
      }
    }
  }

  lemma ArgReads(rule: PairRule, arg: string, tail: string)
    requires Ends(tail)
    ensures ReadArg(rule, QuoteArg(arg) + tail, false, 0, "") == (arg, tail)
    ensures QuoteArg(arg) != "" && !IsBlank(QuoteArg(arg)[0])
  {
    assert "" + Backslashes(0) + arg == arg;
    if NeedsQuotes(arg) {
      var t := Body(arg, 0) + ("\"" + tail);
      assert QuoteArg(arg) + tail == "\"" + t;
      assert ("\"" + t)[1..] == t;
      assert "" + Backslashes(0 / 2) == "";
      OpeningQuote(rule, t);
      BodyReads(rule, arg, 0, tail, "");
    } else {
      PlainReads(rule, arg, 0, tail, "");
    }
  }

  lemma OpeningQuote(rule: PairRule, t: string)
    ensures ReadArg(rule, "\"" + t, false, 0, "") == ReadArg(rule, t, true, 0, "")
  {
    assert ("\"" + t)[1..] == t;
    assert "" + Backslashes(0) == "";
  }

  /** A list of quoted arguments, each after a space. */
  function Tail(args: seq<string>): string {
    if args == [] then "" else " " + CommandLine(args)
  }

  lemma {:induction false} ArgsRead(rule: PairRule, args: seq<string>)
    ensures ReadArgs(rule, Tail(args)) == args && Ends(Tail(args))
    decreases |args|
  {
    if args != [] {
      ArgReads(rule, args[0], Tail(args[1..]));
      ArgsRead(rule, args[1..]);
      var t := QuoteArg(args[0]) + Tail(args[1..]);
      assert QuoteArg(args[0]) + "" == QuoteArg(args[0]);
      assert CommandLine(args) == t;
      assert (" " + t)[1..] == t;
      assert SkipBlanks(" " + t) == t;
      assert args == [args[0]] + args[1..];
    }
  }

  // ----- the program name

  predicate HasQuote(s: string) {
    exists i :: 0 <= i < |s| && s[i] == '"'
  }

  /** How many backslashes end Backslashes(j) + s. */
  function Trailing(s: string, j: nat): nat {
    if s == "" then j else Trailing(s[1..], if s[0] == '\\' then j + 1 else 0)
  }

  /** Without quotes in it, an argument's body is itself and its trailing
      backslashes once more. */
  lemma {:induction false} BodyWithoutQuotes(s: string, j: nat)
    requires !HasQuote(s)
    ensures Body(s, j) == Backslashes(j) + (s + Backslashes(Trailing(s, j)))
    decreases |s|
  {
    if s == "" {
      assert Backslashes(2 * j) == Backslashes(j) + ("" + Backslashes(j));
    } else {
      assert !HasQuote(s[1..]) by {
        assert forall i :: 0 <= i < |s[1..]| ==> s[1..][i] == s[i + 1];
      }
      if s[0] == '\\' {
        BodyWithoutQuotes(s[1..], j + 1);
        BackslashAppend(j, s, "");
        var z := Backslashes(Trailing(s, j));
        assert Backslashes(j + 1) + (s[1..] + z) == ("" + Backslashes(j + 1) + s[1..]) + z;
        assert Backslashes(j) + (s + z) == ("" + Backslashes(j) + s) + z;
      } else {
        BodyWithoutQuotes(s[1..], 0);
        var z := Backslashes(Trailing(s, j));
        assert Backslashes(0) + (s[1..] + z) == s[1..] + z;
        assert s + z == [s[0]] + (s[1..] + z);
      }
    }
  }

  lemma {:induction false} TrailingIs(s: string, j: nat)
    ensures Trailing(s, j) > 0 <==> if s == "" then j > 0 else s[|s| - 1] == '\\'
    decreases |s|
  {
    if s != "" {
      TrailingIs(s[1..], if s[0] == '\\' then j + 1 else 0);
    }
  }

  /** Ordinary characters of a program name. */
  lemma {:induction false} ProgramReads(x: string, t: string, inQuotes: bool, acc: string)
    requires forall i :: 0 <= i < |x| ==> x[i] != '"' && (inQuotes || !IsBlank(x[i]))
    ensures ReadProgram(x + t, inQuotes, acc) == ReadProgram(t, inQuotes, acc + x)
    decreases |x|
  {
    if x == "" {
      assert x + t == t && acc + x == acc;
    } else {
      assert (x + t)[1..] == x[1..] + t;
      ProgramReads(x[1..], t, inQuotes, acc + [x[0]]);
      assert acc + [x[0]] + x[1..] == acc + x;
    }
  }

  /** A program name never contains a quote. */
  lemma {:induction false} ProgramHasNoQuote(s: string, inQuotes: bool, acc: string)
    requires !HasQuote(acc)
    ensures !HasQuote(ReadProgram(s, inQuotes, acc).0)
    decreases |s|
  {
    if s != "" {
      if s[0] == '"' {
        ProgramHasNoQuote(s[1..], !inQuotes, acc);
      } else if !(IsBlank(s[0]) && !inQuotes) {
        assert !HasQuote(acc + [s[0]]);
        ProgramHasNoQuote(s[1..], inQuotes, acc + [s[0]]);
      }
    }
  }

  /** What the started program sees as its name. */
  function ProgramSeen(arg: string): string {
    if NeedsQuotes(arg) then arg + Backslashes(Trailing(arg, 0)) else arg
  }

  lemma ProgramRoundTrip(arg: string, tail: string)
    requires !HasQuote(arg) && Ends(tail)
    ensures ReadProgram(QuoteArg(arg) + tail, false, "") == (ProgramSeen(arg), tail)
  {
    var seen := ProgramSeen(arg);
    assert "" + seen == seen;
    if NeedsQuotes(arg) {
      BodyWithoutQuotes(arg, 0);
      assert Backslashes(0) + seen == seen;
      assert forall i :: 0 <= i < |seen| ==> seen[i] != '"';
      QuotedProgram(seen, tail);
      Regroup(seen, tail);
    } else {
      ProgramReads(arg, tail, false, "");
    }
  }

  lemma Regroup(seen: string, tail: string)
    ensures "\"" + (seen + "\"") + tail == "\"" + (seen + ("\"" + tail))
  {
  }

  /** A quoted name is what stands between its quotes. */
  lemma QuotedProgram(seen: string, tail: string)
    requires Ends(tail) && forall i :: 0 <= i < |seen| ==> seen[i] != '"'
    ensures ReadProgram("\"" + (seen + ("\"" + tail)), false, "") == (seen, tail)
  {
    var t := "\"" + tail;
    assert ("\"" + (seen + t))[1..] == seen + t;
    ProgramReads(seen, t, true, "");
    assert "" + seen == seen && t[1..] == tail;
  }

  /** Whatever quotes and backslashes the arguments hold, all those after a
      program name without quotes come back. */
  lemma ArgumentsRoundTrip(rule: PairRule, argv: seq<string>)
    requires argv != [] && !HasQuote(argv[0])
    ensures SplitCommandLine(rule, CommandLine(argv)) == [ProgramSeen(argv[0])] + argv[1..]
  {
    ArgsRead(rule, argv[1..]);
    ProgramRoundTrip(argv[0], Tail(argv[1..]));
    assert QuoteArg(argv[0]) + "" == QuoteArg(argv[0]);
    assert CommandLine(argv) == QuoteArg(argv[0]) + Tail(argv[1..]);
  }

  /** Exactly when the whole list comes back, program name included: the name has
      no quote in it, and does not both need quoting and end in a backslash. */
  lemma CommandLineRoundTrip(rule: PairRule, argv: seq<string>)
    requires argv != []
    ensures SplitCommandLine(rule, CommandLine(argv)) == argv
            <==> !HasQuote(argv[0]) && !(NeedsQuotes(argv[0]) && argv[0] != "" && argv[0][|argv[0]| - 1] == '\\')
  {
    hide *;
    if HasQuote(argv[0]) {
      SplitHasNoQuote(rule, CommandLine(argv));
    } else {
      ArgumentsRoundTrip(rule, argv);
      ProgramSeenIs(argv[0]);
      assert argv == [argv[0]] + argv[1..];
    }
  }

  /** No program name comes out of a command line with a quote in it. */
  lemma SplitHasNoQuote(rule: PairRule, s: string)
    ensures SplitCommandLine(rule, s) != [] && !HasQuote(SplitCommandLine(rule, s)[0])
  {
    hide ReadProgram, ReadArgs, HasQuote;
    NoQuote();
    ProgramHasNoQuote(s, false, "");
  }

  lemma NoQuote()
    ensures !HasQuote("")
  {
  }

  /** Quoting doubles the backslashes at a program name's end. */
  lemma ProgramSeenIs(program: string)
    ensures ProgramSeen(program) == program
            <==> !(NeedsQuotes(program) && program != "" && program[|program| - 1] == '\\')
  {
    hide NeedsQuotes, Trailing;
    TrailingIs(program, 0);
    assert |ProgramSeen(program)| == |program| + if NeedsQuotes(program) then Trailing(program, 0) else 0;
    assert program + Backslashes(0) == program;
  }

  // ----- the code

  /** `quote_windows_arg`. */
  method QuoteWindowsArg(arg: string) returns (out: string)
    ensures out == QuoteArg(arg)
  {
    hide NeedsQuotes, Backslashes;
    if !NeedsQuotes(arg) {
      return arg;
    }
    out := "\"";
    var i := 0;
    while true
      invariant 0 <= i <= |arg| && out + Body(arg[i..], 0) == "\"" + Body(arg, 0)
      decreases |arg| - i
    {
      var from, backslashes := i, 0;
      while i < |arg| && arg[i] == '\\'
        invariant from <= i <= |arg| && backslashes == i - from
        invariant Body(arg[i..], backslashes) == Body(arg[from..], 0)
      {
        assert arg[i..][1..] == arg[i + 1..];
        i := i + 1;
        backslashes := backslashes + 1;
      }
      if i == |arg| {
        // doubled, so that the closing quote stays a quote
        out := out + Backslashes(backslashes * 2);
        break;
      }
      assert arg[i..][1..] == arg[i + 1..];
      ghost var was, rest := out, Body(arg[i + 1..], 0);
      if arg[i] == '"' {
        out := out + Backslashes(backslashes * 2 + 1) + "\"";
        assert was + (Backslashes(backslashes * 2 + 1) + ("\"" + rest)) == out + rest;
      } else {
        out := out + Backslashes(backslashes) + [arg[i]];
        assert was + (Backslashes(backslashes) + ([arg[i]] + rest)) == out + rest;
      }
      i := i + 1;
    }
    assert "\"" + (Body(arg, 0) + "\"") == ("\"" + Body(arg, 0)) + "\"";
    out := out + "\"";
  }

  /** `build_command_line`. */
  method BuildCommandLine(argv: seq<string>) returns (line: string)
    ensures line == CommandLine(argv)
  {
    hide CommandLine, Tail, QuoteArg;
    line := "";
    FirstAndLast(argv);
    for i := 0 to |argv|
      invariant if i == 0 then line == "" else line + Tail(argv[i..]) == CommandLine(argv)
    {
      ghost var was := line;
      if i != 0 {
        line := line + " ";
        TailStep(argv, i, was);
      }
      var arg := QuoteWindowsArg(argv[i]);
      line := line + arg;
      assert i == 0 ==> line == arg;
    }
    assert line + "" == line;
  }

  lemma FirstAndLast(argv: seq<string>)
    ensures Tail(argv[|argv|..]) == "" && (argv == [] ==> CommandLine(argv) == "")
    ensures argv != [] ==> CommandLine(argv) == QuoteArg(argv[0]) + Tail(argv[1..])
  {
    if argv != [] {
      LineStep(argv);
    }
  }

  lemma TailStep(argv: seq<string>, i: nat, line: string)
    requires i < |argv|
    ensures line + Tail(argv[i..]) == line + " " + QuoteArg(argv[i]) + Tail(argv[i + 1..])
  {
    LineStep(argv[i..]);
    assert argv[i..][1..] == argv[i + 1..];
    Concat4(line, " ", QuoteArg(argv[i]), Tail(argv[i + 1..]));
  }

  lemma Concat4(a: string, b: string, c: string, d: string)
    ensures a + (b + (c + d)) == a + b + c + d
  {
  }

  lemma LineStep(argv: seq<string>)
    requires argv != []
    ensures CommandLine(argv) == QuoteArg(argv[0]) + Tail(argv[1..])
  {
    assert QuoteArg(argv[0]) + "" == QuoteArg(argv[0]);
  }
}
