/** Windows command-line quoting (quote_windows_argument and the join loop of start_locked,
    src/runtime/persistent_process_runner.cpp) against the rules of Microsoft's "Parsing C command-line arguments". */
module ArgumentQuoting {
  // ---- quoting --------------------------------------------------------------------------------------------

  predicate IsBlank(c: char) { c == ' ' || c == '\t' }

  predicate NeedsQuotes(value: string)
  {
    value == "" || exists i :: 0 <= i < |value| && (IsBlank(value[i]) || value[i] == '"')
  }

  function Backslashes(n: nat): (s: string)
    ensures |s| == n && forall i :: 0 <= i < n ==> s[i] == '\\'
  {
    seq(n, _ => '\\')
  }

  /** The rest of a quoted argument, `pending` backslashes after its last other character. */
  function Body(value: string, pending: nat): string
  {
    if value == "" then Backslashes(pending * 2)
    else if value[0] == '\\' then Body(value[1..], pending + 1)
    else if value[0] == '"' then Backslashes(pending * 2 + 1) + "\"" + Body(value[1..], 0)
    else Backslashes(pending) + [value[0]] + Body(value[1..], 0)
  }

  function Quote(value: string): (q: string)
    ensures q != ""
  {
    if NeedsQuotes(value) then "\"" + Body(value, 0) + "\"" else value
  }

  /** quote_windows_argument: the loop with its backslash counter. */
  method QuoteWindowsArgument(value: string) returns (result: string)
    ensures result == Quote(value)
  {
    var plain := IsPlain(value);
    if |value| > 0 && plain {
      return value;
    }
    result := "\"";
    var backslashes := 0;
    for i := 0 to |value|
      invariant result + Body(value[i..], backslashes) == "\"" + Body(value, 0)
    {
      ghost var rest := value[i..];
      assert rest[1..] == value[i + 1..];
      if value[i] == '\\' {
        backslashes := backslashes + 1;
      } else if value[i] == '"' {
        result := result + Backslashes(backslashes * 2 + 1);
        result := result + "\"";
        backslashes := 0;
      } else {
        result := result + Backslashes(backslashes);
        result := result + [value[i]];
        backslashes := 0;
      }
    }
    result := result + Backslashes(backslashes * 2);
    result := result + "\"";
  }

  /** find_first_of finds no blank and no quote. */
  method IsPlain(value: string) returns (plain: bool)
    ensures plain <==> forall i :: 0 <= i < |value| ==> !IsBlank(value[i]) && value[i] != '"'
  {
    for i := 0 to |value|
      invariant forall k :: 0 <= k < i ==> !IsBlank(value[k]) && value[k] != '"'
    {
      if IsBlank(value[i]) || value[i] == '"' {
        return false;
      }
    }
    return true;
  }

  /** The arguments after the program name: each quoted, each after one space. */
  function Tail(arguments: seq<string>): string
  {
    if arguments == [] then "" else " " + Quote(arguments[0]) + Tail(arguments[1..])
  }

  function CommandLine(program: string, arguments: seq<string>): string
  {
    Quote(program) + Tail(arguments)
  }

  /** The join loop: a space goes in front of every argument but the first, told by the line being empty. */
  method JoinArguments(command: seq<string>) returns (line: string)
    ensures command == [] ==> line == ""
    ensures command != [] ==> line == CommandLine(command[0], command[1..])
  {
    hide Quote;
    line := "";
    for i := 0 to |command|
      invariant i == 0 ==> line == ""
      invariant i > 0 ==> line != "" && line + Tail(command[i..]) == CommandLine(command[0], command[1..])
    {
      assert i > 0 ==> command[i..][0] == command[i] && command[i..][1..] == command[i + 1..];
      if line != "" {
        line := line + " ";
      }
      var quoted := QuoteWindowsArgument(command[i]);
      line := line + quoted;
    }
    assert command != [] ==> Tail(command[|command|..]) == "";
  }

  // ---- the documented parsing rules -----------------------------------------------------------------------

  function LeadingBackslashes(s: string): (n: nat)
    ensures n <= |s| && (forall i :: 0 <= i < n ==> s[i] == '\\') && (n < |s| ==> s[n] != '\\')
  {
    if s == "" || s[0] != '\\' then 0 else 1 + LeadingBackslashes(s[1..])
  }

  datatype Scanned = Scanned(argument: string, rest: string)

  /** One argument: backslashes before a quote come in pairs, an odd one makes the quote literal; a doubled quote
      inside quotes is a literal quote; a blank ends the argument outside quotes only. */
  function Scan(s: string, quoted: bool, read: string): (r: Scanned)
    ensures |r.rest| <= |s|
    decreases |s|
  {
    var n := LeadingBackslashes(s);
    if s == "" then Scanned(read, "")
    else if n > 0 then
      if n == |s| || s[n] != '"' then Scan(s[n..], quoted, read + Backslashes(n))
      else if n % 2 == 1 then Scan(s[n + 1..], quoted, read + Backslashes(n / 2) + "\"")
      else Scan(s[n..], quoted, read + Backslashes(n / 2))
    else if s[0] == '"' then
      if quoted && |s| > 1 && s[1] == '"' then Scan(s[2..], true, read + "\"") else Scan(s[1..], !quoted, read)
    else if IsBlank(s[0]) && !quoted then Scanned(read, s)
    else Scan(s[1..], quoted, read + [s[0]])
  }

  /** All arguments of what follows the program name. */
  function ParseArguments(s: string): seq<string>
    decreases |s|
  {
    if s == "" then []
    else if IsBlank(s[0]) then ParseArguments(s[1..])
    else
      var r := Scan(s, false, "");
      if |r.rest| < |s| then [r.argument] + ParseArguments(r.rest) else [r.argument]
  }

  /** The program name: quotes only switch blanks off, and backslashes are never special. */
  function ScanProgram(s: string, quoted: bool, read: string): Scanned
  {
    if s == "" then Scanned(read, "")
    else if s[0] == '"' then ScanProgram(s[1..], !quoted, read)
    else if IsBlank(s[0]) && !quoted then Scanned(read, s)
    else ScanProgram(s[1..], quoted, read + [s[0]])
  }

  // ---- round trip -----------------------------------------------------------------------------------------

  // What may follow a complete argument.
  predicate Ends(rest: string)
  {
    rest == "" || IsBlank(rest[0])
  }

  lemma {:induction false} CountsRun(n: nat, t: string)
    requires t == "" || t[0] != '\\'
    ensures LeadingBackslashes(Backslashes(n) + t) == n
  {
    var s := Backslashes(n) + t;
    assert t != "" ==> s[n] == t[0];
    assert forall i :: 0 <= i < n ==> s[i] == '\\';
  }

  /** A run of backslashes before something that is not a quote is literal. */
  lemma LiteralRun(n: nat, t: string, quoted: bool, read: string)
    requires t == "" || (t[0] != '\\' && t[0] != '"')
    ensures Scan(Backslashes(n) + t, quoted, read) == Scan(t, quoted, read + Backslashes(n))
  {
    var s := Backslashes(n) + t;
    CountsRun(n, t);
    assert s[n..] == t;
    if n == 0 {
      assert s == t && read + Backslashes(0) == read;
    }
  }

  lemma ScanRun(s: string, quoted: bool, read: string)
    ensures var n := LeadingBackslashes(s);
      0 < n < |s| && s[n] == '"' ==>
        Scan(s, quoted, read) ==
          if n % 2 == 1 then Scan(s[n + 1..], quoted, read + Backslashes(n / 2) + "\"")
          else Scan(s[n..], quoted, read + Backslashes(n / 2))
  {
  }

  /** Backslashes before a quote are halved; an odd run makes the quote literal. */
  lemma OddRun(n: nat, t: string, quoted: bool, read: string)
    ensures Scan(Backslashes(2 * n + 1) + "\"" + t, quoted, read) == Scan(t, quoted, read + Backslashes(n) + "\"")
  {
    hide Scan, LeadingBackslashes, Backslashes;
    var s := Backslashes(2 * n + 1) + "\"" + t;
    ScanRun(s, quoted, read);
    assert s == Backslashes(2 * n + 1) + ("\"" + t);
    CountsRun(2 * n + 1, "\"" + t);
    assert s[2 * n + 1 + 1..] == t;
  }

  lemma EvenRun(n: nat, t: string, quoted: bool, read: string)
    ensures Scan(Backslashes(2 * n) + "\"" + t, quoted, read) == Scan("\"" + t, quoted, read + Backslashes(n))
  {
    hide Scan, LeadingBackslashes, Backslashes;
    var q := "\"" + t;
    var s := Backslashes(2 * n) + "\"" + t;
    ScanRun(s, quoted, read);
    assert s == Backslashes(2 * n) + q;
    if n == 0 {
      assert s == q && read + Backslashes(0) == read;
    } else {
      CountsRun(2 * n, q);
      assert s[2 * n..] == q;
    }
  }

  lemma ClosingQuote(rest: string, read: string)
    requires Ends(rest)
    ensures Scan("\"" + rest, true, read) == Scanned(read, rest)
  {
    var s := "\"" + rest;
    assert s[1..] == rest;
    assert Scan(s, true, read) == Scan(rest, false, read);
  }

  /** The quoted form, scanned inside its quotes, gives the value back. */
  lemma {:induction false} BodyRoundTrip(value: string, pending: nat, rest: string, read: string)
    requires Ends(rest)
    ensures Scan(Body(value, pending) + "\"" + rest, true, read) == Scanned(read + Backslashes(pending) + value, rest)
    decreases |value|
  {
    hide Scan, LeadingBackslashes, Ends;
    if value == "" {
      EvenRun(pending, rest, true, read);
      ClosingQuote(rest, read + Backslashes(pending));
      assert read + Backslashes(pending) + "" == read + Backslashes(pending);
    } else {
      var c, v := value[0], value[1..];
      assert value == [c] + v;
      var after := Body(v, 0) + "\"" + rest;
      if c == '\\' {
        BodyRoundTrip(v, pending + 1, rest, read);
        assert Backslashes(pending + 1) + v == Backslashes(pending) + value;
        assert read + Backslashes(pending + 1) + v == read + Backslashes(pending) + value;
      } else if c == '"' {
        assert Body(value, pending) + "\"" + rest == Backslashes(2 * pending + 1) + "\"" + after;
        OddRun(pending, after, true, read);
        BodyRoundTrip(v, 0, rest, read + Backslashes(pending) + "\"");
        assert read + Backslashes(pending) + "\"" + Backslashes(0) + v == read + Backslashes(pending) + value;
      } else {
        assert Body(value, pending) + "\"" + rest == Backslashes(pending) + ([c] + after);
        LiteralRun(pending, [c] + after, true, read);
        OrdinaryCharacter(c, after, read + Backslashes(pending));
        BodyRoundTrip(v, 0, rest, read + Backslashes(pending) + [c]);
        assert read + Backslashes(pending) + [c] + Backslashes(0) + v == read + Backslashes(pending) + value;
      }
    }
  }

  lemma OrdinaryCharacter(c: char, t: string, read: string)
    requires c != '\\' && c != '"'
    ensures Scan([c] + t, true, read) == Scan(t, true, read + [c])
  {
    assert ([c] + t)[1..] == t;
  }

  lemma PlainCharacter(c: char, t: string, read: string)
    requires c != '\\' && c != '"' && !IsBlank(c)
    ensures Scan([c] + t, false, read) == Scan(t, false, read + [c])
  {
    assert ([c] + t)[1..] == t;
  }

  /** An argument without blanks and quotes stands for itself. */
  lemma {:induction false} PlainRoundTrip(value: string, rest: string, read: string)
    requires Ends(rest) && forall i :: 0 <= i < |value| ==> !IsBlank(value[i]) && value[i] != '"'
    ensures Scan(value + rest, false, read) == Scanned(read + value, rest)
    decreases |value|
  {
    if value == "" {
      assert value + rest == rest && read + value == read;
    } else {
      var n := LeadingBackslashes(value);
      hide Scan, LeadingBackslashes;
      if n == 0 {
        assert value + rest == [value[0]] + (value[1..] + rest);
        PlainCharacter(value[0], value[1..] + rest, read);
        PlainRoundTrip(value[1..], rest, read + [value[0]]);
        assert read + [value[0]] + value[1..] == read + value;
      } else {
        var t := value[n..];
        assert value == Backslashes(n) + t;
        assert value + rest == Backslashes(n) + (t + rest);
        LiteralRun(n, t + rest, false, read);
        PlainRoundTrip(t, rest, read + Backslashes(n));
        assert read + Backslashes(n) + t == read + value;
      }
    }
  }

  lemma QuoteRoundTrip(value: string, rest: string)
    requires Ends(rest)
    ensures Scan(Quote(value) + rest, false, "") == Scanned(value, rest)
    ensures !IsBlank(Quote(value)[0])
  {
    if NeedsQuotes(value) {
      hide LeadingBackslashes, Body;
      var inner := Body(value, 0) + "\"" + rest;
      assert Quote(value) + rest == "\"" + inner;
      OpeningQuote(inner);
      BodyRoundTrip(value, 0, rest, "");
      assert "" + Backslashes(0) + value == value;
    } else {
      PlainRoundTrip(value, rest, "");
      assert "" + value == value;
    }
  }

  lemma OpeningQuote(t: string)
    ensures Scan("\"" + t, false, "") == Scan(t, true, "")
  {
    assert ("\"" + t)[1..] == t;
  }

  /** Every list of arguments, joined and quoted, parses back unchanged: empty ones, blanks, quotes and any run of
      backslashes included. */
  lemma {:induction false} ArgumentsRoundTrip(arguments: seq<string>)
    ensures ParseArguments(Tail(arguments)) == arguments
  {
    hide Quote, Scan, IsBlank;
    if arguments != [] {
      var a, more := arguments[0], arguments[1..];
      TailEnds(more);
      QuoteRoundTrip(a, Tail(more));
      var s := Quote(a) + Tail(more);
      assert Tail(arguments) == " " + s;
      assert Tail(arguments)[1..] == s;
      assert IsBlank(' ') by { SpaceIsBlank(); }
      ArgumentsRoundTrip(more);
      assert |Tail(more)| < |s|;
      assert arguments == [a] + more;
    }
  }

  lemma SpaceIsBlank()
    ensures IsBlank(' ')
  {
  }

  lemma TailEnds(arguments: seq<string>)
    ensures Ends(Tail(arguments))
  {
  }

  // ---- the program name -----------------------------------------------------------------------------------

  lemma {:induction false} ProgramBody(value: string, pending: nat, rest: string, read: string)
    requires '"' !in value && Ends(rest)
    ensures ScanProgram(Body(value, pending) + "\"" + rest, true, read) ==
      Scanned(read + Backslashes(pending) + value + Trailing(value, pending), rest)
    decreases |value|
  {
    if value == "" {
      ProgramRun(2 * pending, "\"" + rest, true, read);
      assert Body(value, pending) + "\"" + rest == Backslashes(2 * pending) + ("\"" + rest);
      assert ("\"" + rest)[1..] == rest;
      assert read + Backslashes(2 * pending) == read + Backslashes(pending) + value + Trailing(value, pending);
    } else {
      var c, v := value[0], value[1..];
      assert value == [c] + v;
      var after := Body(v, 0) + "\"" + rest;
      if c == '\\' {
        ProgramBody(v, pending + 1, rest, read);
        assert Backslashes(pending + 1) + v == Backslashes(pending) + value;
        assert read + Backslashes(pending + 1) + v == read + Backslashes(pending) + value;
      } else {
        assert Body(value, pending) + "\"" + rest == Backslashes(pending) + ([c] + after);
        ProgramRun(pending, [c] + after, true, read);
        assert ([c] + after)[1..] == after;
        ProgramBody(v, 0, rest, read + Backslashes(pending) + [c]);
        assert read + Backslashes(pending) + [c] + Backslashes(0) + v == read + Backslashes(pending) + value;
      }
    }
  }

  // The backslashes at the end of a value, doubled by quoting, that the program-name rule does not take back.
  function Trailing(value: string, pending: nat): string
  {
    if value == "" then Backslashes(pending)
    else if value[0] == '\\' then Trailing(value[1..], pending + 1)
    else Trailing(value[1..], 0)
  }

  lemma {:induction false} ProgramRun(n: nat, t: string, quoted: bool, read: string)
    ensures ScanProgram(Backslashes(n) + t, quoted, read) == ScanProgram(t, quoted, read + Backslashes(n))
  {
    if n == 0 {
      assert Backslashes(0) + t == t && read + Backslashes(0) == read;
    } else {
      assert (Backslashes(n) + t)[1..] == Backslashes(n - 1) + t;
      ProgramRun(n - 1, t, quoted, read + "\\");
      assert read + "\\" + Backslashes(n - 1) == read + Backslashes(n);
    }
  }

  lemma {:induction false} ProgramPlain(value: string, rest: string, read: string)
    requires Ends(rest) && forall i :: 0 <= i < |value| ==> !IsBlank(value[i]) && value[i] != '"'
    ensures ScanProgram(value + rest, false, read) == Scanned(read + value, rest)
  {
    if value == "" {
      assert value + rest == rest && read + value == read;
    } else {
      assert (value + rest)[1..] == value[1..] + rest;
      ProgramPlain(value[1..], rest, read + [value[0]]);
      assert read + [value[0]] + value[1..] == read + value;
    }
  }

  lemma {:induction false} TrailingExactly(value: string, pending: nat)
    ensures Trailing(value, pending) == "" <==> if value == "" then pending == 0 else value[|value| - 1] != '\\'
  {
    if value != "" {
      TrailingExactly(value[1..], if value[0] == '\\' then pending + 1 else 0);
    }
  }

  lemma {:induction false} NameHasNoQuote(s: string, quoted: bool, read: string)
    requires '"' !in read
    ensures '"' !in ScanProgram(s, quoted, read).argument
  {
    if s != "" {
      NameHasNoQuote(s[1..], if s[0] == '"' then !quoted else quoted, if s[0] == '"' then read else read + [s[0]]);
    }
  }

  lemma {:induction false} RestIgnoresRead(s: string, quoted: bool, read: string, other: string)
    ensures ScanProgram(s, quoted, read).rest == ScanProgram(s, quoted, other).rest
  {
    if s != "" && s[0] == '"' {
      RestIgnoresRead(s[1..], !quoted, read, other);
    } else if s != "" && !(IsBlank(s[0]) && !quoted) {
      RestIgnoresRead(s[1..], quoted, read + [s[0]], other + [s[0]]);
    }
  }

  // What the program-name rule makes of a name: a blank outside quotes splits it, or it ends in or out of quotes.
  datatype Walk = Splits | EndsWith(quoted: bool)

  function WalkOf(name: string, quoted: bool): Walk
  {
    if name == "" then EndsWith(quoted)
    else if name[0] == '"' then WalkOf(name[1..], !quoted)
    else if IsBlank(name[0]) && !quoted then Splits
    else WalkOf(name[1..], quoted)
  }

  /** Between the quotes that are put around it, the name has an even number of quotes and no blank after an odd
      one. A name without quotes always does. */
  predicate KeepsTogether(program: string)
  {
    WalkOf(program, true) == EndsWith(true)
  }

  /** The quoted name is walked as the name itself: backslashes do not count for the program-name rule. */
  lemma {:induction false} BodyWalk(value: string, pending: nat, quoted: bool, rest: string, read: string)
    ensures var r := ScanProgram(Body(value, pending) + "\"" + rest, quoted, read).rest;
      match WalkOf(value, quoted)
      case EndsWith(q) => r == ScanProgram("\"" + rest, q, "").rest
      case Splits => |r| > |rest| && r[|r| - |rest| - 1..] == "\"" + rest
    decreases |value|
  {
    hide IsBlank;
    if value == "" {
      assert Body(value, pending) + "\"" + rest == Backslashes(2 * pending) + ("\"" + rest);
      ProgramRun(2 * pending, "\"" + rest, quoted, read);
      RestIgnoresRead("\"" + rest, quoted, read + Backslashes(2 * pending), "");
    } else if value[0] == '\\' {
      assert !IsBlank('\\') by { BackslashIsNotBlank(); }
      BodyWalk(value[1..], pending + 1, quoted, rest, read);
    } else {
      StepOfBody(value, pending, quoted, rest, read);
    }
  }

  lemma BackslashIsNotBlank()
    ensures !IsBlank('\\') && !IsBlank('"')
  {
  }

  lemma {:induction false} StepOfBody(value: string, pending: nat, quoted: bool, rest: string, read: string)
    requires value != "" && value[0] != '\\'
    ensures var r := ScanProgram(Body(value, pending) + "\"" + rest, quoted, read).rest;
      match WalkOf(value, quoted)
      case EndsWith(q) => r == ScanProgram("\"" + rest, q, "").rest
      case Splits => |r| > |rest| && r[|r| - |rest| - 1..] == "\"" + rest
    decreases |value|, 0
  {
    hide IsBlank, WalkOf;
    var c, v := value[0], value[1..];
    var after := Body(v, 0) + "\"" + rest;
    var n := if c == '"' then 2 * pending + 1 else pending;
    assert Body(value, pending) + "\"" + rest == Backslashes(n) + ([c] + after);
    ProgramRun(n, [c] + after, quoted, read);
    assert ([c] + after)[1..] == after;
    WalkStep(value, quoted);
    if c == '"' {
      BodyWalk(v, 0, !quoted, rest, read + Backslashes(n));
    } else if IsBlank(c) && !quoted {
      var r := [c] + after;
      assert r[|r| - |rest| - 1..] == "\"" + rest;
    } else {
      BodyWalk(v, 0, quoted, rest, read + Backslashes(n) + [c]);
    }
  }

  lemma WalkStep(value: string, quoted: bool)
    requires value != ""
    ensures WalkOf(value, quoted) ==
      if value[0] == '"' then WalkOf(value[1..], !quoted)
      else if IsBlank(value[0]) && !quoted then Splits else WalkOf(value[1..], quoted)
  {
  }

  lemma {:induction false} QuotelessKeepsTogether(name: string)
    requires '"' !in name
    ensures WalkOf(name, true) == EndsWith(true)
  {
    if name != "" {
      QuotelessKeepsTogether(name[1..]);
    }
  }

  lemma {:induction false} SomethingIsParsed(s: string, i: nat)
    requires i < |s| && !IsBlank(s[i])
    ensures ParseArguments(s) != []
  {
    hide Scan;
    if IsBlank(s[0]) {
      SomethingIsParsed(s[1..], i - 1);
    }
  }

  function ArgumentsOf(line: string): seq<string>
  {
    ParseArguments(ScanProgram(line, false, "").rest)
  }

  lemma QuotedProgramLine(program: string, arguments: seq<string>)
    requires NeedsQuotes(program)
    ensures ScanProgram(CommandLine(program, arguments), false, "") ==
      ScanProgram(Body(program, 0) + "\"" + Tail(arguments), true, "")
  {
    hide Tail, Body;
    var inner := Body(program, 0) + "\"" + Tail(arguments);
    assert CommandLine(program, arguments) == "\"" + inner;
    assert ("\"" + inner)[1..] == inner;
  }

  lemma ClosedName(t: string)
    requires Ends(t)
    ensures ScanProgram("\"" + t, true, "").rest == t
  {
    assert ("\"" + t)[1..] == t;
  }

  /** The program name comes back if and only if it holds no quote and needed no quotes, is empty, or does not end
      in a backslash: the rule for the program name drops every quote and takes doubled backslashes as they are. */
  lemma ProgramNameRoundTrip(program: string, arguments: seq<string>)
    ensures ScanProgram(CommandLine(program, arguments), false, "").argument == program <==>
      '"' !in program && (!NeedsQuotes(program) || program == "" || program[|program| - 1] != '\\')
  {
    hide Tail, Body, Trailing, ScanProgram, Quote;
    if '"' in program {
      NameHasNoQuote(CommandLine(program, arguments), false, "");
    } else {
      QuotelessName(program, arguments);
    }
  }

  lemma QuotelessName(program: string, arguments: seq<string>)
    requires '"' !in program
    ensures ScanProgram(CommandLine(program, arguments), false, "").argument == program <==>
      !NeedsQuotes(program) || program == "" || program[|program| - 1] != '\\'
  {
    hide Tail, Body, Trailing;
    TailEnds(arguments);
    if NeedsQuotes(program) {
      QuotedProgramLine(program, arguments);
      ProgramBody(program, 0, Tail(arguments), "");
      assert "" + Backslashes(0) + program == program;
      TrailingExactly(program, 0);
    } else {
      ProgramPlain(program, Tail(arguments), "");
      assert "" + program == program;
    }
  }

  lemma KeptProgramReturnsArguments(program: string, arguments: seq<string>)
    requires KeepsTogether(program)
    ensures ArgumentsOf(CommandLine(program, arguments)) == arguments
  {
    hide Tail, Body, ParseArguments, WalkOf;
    var t := Tail(arguments);
    TailEnds(arguments);
    ArgumentsRoundTrip(arguments);
    if NeedsQuotes(program) {
      QuotedProgramLine(program, arguments);
      BodyWalk(program, 0, true, t, "");
      ClosedName(t);
    } else {
      ProgramPlain(program, t, "");
    }
  }

  /** A name that does not keep together loses some argument list: the empty one when a blank splits it, one
      argument when it ends inside quotes. */
  lemma BrokenProgramLosesArguments(program: string)
    requires !KeepsTogether(program)
    ensures exists arguments :: ArgumentsOf(CommandLine(program, arguments)) != arguments
  {
    hide Body, ParseArguments;
    assert '"' in program by {
      if '"' !in program { QuotelessKeepsTogether(program); }
    }
    if WalkOf(program, true).Splits? {
      assert Tail([]) == "";
      QuotedProgramLine(program, []);
      BodyWalk(program, 0, true, "", "");
      var r := ScanProgram(CommandLine(program, []), false, "").rest;
      assert r[|r| - 1] == '"';
      SomethingIsParsed(r, |r| - 1);
      assert ArgumentsOf(CommandLine(program, [])) != [];
    } else {
      assert ["x"][1..] == [] && Quote("x") == "x" && Tail(["x"]) == " x";
      QuotedProgramLine(program, ["x"]);
      BodyWalk(program, 0, true, " x", "");
      assert ("\"" + " x")[1..] == " x";
      QuotedProgramRunsOn(" x", "");
      assert ParseArguments("") == [] by { NothingParsed(); }
      assert ArgumentsOf(CommandLine(program, ["x"])) != ["x"];
    }
  }

  lemma NothingParsed()
    ensures ParseArguments("") == []
  {
  }

  lemma {:induction false} QuotedProgramRunsOn(t: string, read: string)
    requires '"' !in t
    ensures ScanProgram(t, true, read).rest == ""
  {
    if t != "" {
      QuotedProgramRunsOn(t[1..], read + [t[0]]);
    }
  }

  /** The whole line: every argument list comes back if and only if the program name keeps together. A name
      without quotes always does; one with quotes does when their number is even and no blank follows an odd one. */
  lemma CommandLineRoundTrip(program: string)
    ensures (forall arguments :: ArgumentsOf(CommandLine(program, arguments)) == arguments) <==> KeepsTogether(program)
    ensures '"' !in program ==> KeepsTogether(program)
  {
    hide CommandLine, ArgumentsOf, WalkOf;
    if KeepsTogether(program) {
      forall arguments ensures ArgumentsOf(CommandLine(program, arguments)) == arguments {
        KeptProgramReturnsArguments(program, arguments);
      }
    } else {
      BrokenProgramLosesArguments(program);
    }
    if '"' !in program {
      QuotelessKeepsTogether(program);
    }
  }

  /** A single quote as program name: its argument is read as part of the name. */
  lemma QuoteInProgramSwallowsArguments()
    ensures ArgumentsOf(CommandLine("\"", ["x"])) == []
  {
    assert "\""[1..] == "" && WalkOf("\"", true) == EndsWith(false);
    assert ["x"][1..] == [] && Quote("x") == "x" && Tail(["x"]) == " x";
    hide Body, ParseArguments;
    QuotedProgramLine("\"", ["x"]);
    BodyWalk("\"", 0, true, " x", "");
    assert ("\"" + " x")[1..] == " x";
    QuotedProgramRunsOn(" x", "");
    NothingParsed();
  }
}
