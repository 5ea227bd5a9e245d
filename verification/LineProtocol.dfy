/** The request/response line protocol with the bridge process (src/runtime/persistent_process_runner.cpp), against
    an abstract child that answers one line for each line it receives. What the pipe, the clock and the process
    table do during a call is a script, so every theorem holds for every split of the bytes and every failure. */
module LineProtocol {
  import opened Wrappers
  import Json

  type Bytes = seq<Byte>

  const NEWLINE: Byte := 10

  // The answer to the last of the lines received so far; an answer may depend on all of them.
  type Responder = seq<Bytes> -> Bytes

  ghost predicate AnswersInLines(respond: Responder)
  {
    forall lines: seq<Bytes> :: NEWLINE !in respond(lines)
  }

  function FindNewline(b: Bytes): (k: Option<nat>)
    ensures k.Some? ==> k.value < |b| && b[k.value] == NEWLINE && forall i :: 0 <= i < k.value ==> b[i] != NEWLINE
    ensures k.None? ==> NEWLINE !in b
  {
    if b == [] then None
    else if b[0] == NEWLINE then Some(0)
    else
      match FindNewline(b[1..])
      case None => None
      case Some(k) =>
        Some(k + 1)
  }

  /** The complete lines of a byte string, as the child reads them. */
  function Lines(b: Bytes): seq<Bytes>
    decreases |b|
  {
    match FindNewline(b)
    case None => []
    case Some(k) => [b[..k]] + Lines(b[k + 1..])
  }

  /** The bytes sent: a newline is added unless the request ends in one. */
  function Wire(line: Bytes): (w: Bytes)
    ensures w != [] && w[|w| - 1] == NEWLINE
  {
    if line == [] || line[|line| - 1] != NEWLINE then line + [NEWLINE] else line
  }

  /** The request without its final newline, if it has one. */
  function Stripped(line: Bytes): Bytes
  {
    Wire(line)[..|Wire(line)| - 1]
  }

  /** No newline but, possibly, a final one. */
  predicate OneLine(line: Bytes)
  {
    NEWLINE !in Stripped(line)
  }

  // ---- state ----------------------------------------------------------------------------------------------

  // The running child: the lines it has received, and how many bytes of its output have been read.
  datatype Child = Child(lines: seq<Bytes>, delivered: nat)

  datatype Runner = Runner(started: bool, command: seq<Bytes>, buffer: Bytes, child: Child)

  const STOPPED := Runner(false, [], [], Child([], 0))

  // One round of read_line_locked's poll: bytes arrive, a signal interrupts, time is up, or the pipe fails.
  datatype ReadEvent = Arrives(count: nat) | Interrupted | TimedOut | Closed

  // What the system does during one call.
  datatype Script = Script(spawns: bool, running: bool, writes: bool, pipe: seq<ReadEvent>)

  datatype Request = Request(command: seq<Bytes>, line: Bytes)

  /** The output owed for the lines from number `from` on. */
  function OutputFrom(respond: Responder, lines: seq<Bytes>, from: nat): Bytes
    requires from <= |lines|
    decreases |lines| - from
  {
    if from == |lines| then [] else respond(lines[..from + 1]) + [NEWLINE] + OutputFrom(respond, lines, from + 1)
  }

  function Available(respond: Responder, c: Child): Bytes
  {
    var out := OutputFrom(respond, c.lines, 0);
    if c.delivered <= |out| then out[c.delivered..] else []
  }

  function Min(a: nat, b: nat): nat { if a < b then a else b }

  /** read(): some bytes of what is available, at most one buffer of 4096. */
  function Receive(respond: Responder, r: Runner, count: nat): Runner
  {
    var available := Available(respond, r.child);
    var taken := Min(Min(count, 4096), |available|);
    r.(buffer := r.buffer + available[..taken], child := r.child.(delivered := r.child.delivered + taken))
  }

  datatype Reply = Reply(runner: Runner, line: Option<Bytes>)

  /** read_line_locked */
  function ReadLine(respond: Responder, limit: nat, r: Runner, pipe: seq<ReadEvent>): Reply
    decreases |pipe|
  {
    match FindNewline(r.buffer)
    case Some(k) => Reply(r.(buffer := r.buffer[k + 1..]), Some(r.buffer[..k]))
    case None =>
      if |r.buffer| > limit || pipe == [] then Reply(r, None)
      else
        match pipe[0]
        case Arrives(n) => ReadLine(respond, limit, Receive(respond, r, n), pipe[1..])
        case Interrupted => ReadLine(respond, limit, r, pipe[1..])
        case _ => Reply(r, None)
  }

  /** transact_locked: any failure stops the child and forgets its output. */
  function Transact(respond: Responder, limit: nat, r: Runner, line: Bytes, s: Script): Reply
  {
    if !s.running || !s.writes then Reply(STOPPED, None)
    else
      var sent := r.(child := r.child.(lines := r.child.lines + Lines(Wire(line))));
      var reply := ReadLine(respond, limit, sent, s.pipe);
      if reply.line.None? then Reply(STOPPED, None) else reply
  }

  function Run(respond: Responder, limit: nat, r: Runner, q: Request, s: Script): Reply
  {
    if q.command == [] || q.command[0] == [] then Reply(r, None)
    else if !r.started then
      if !s.spawns then Reply(r, None)
      else Transact(respond, limit, Runner(true, q.command, [], Child([], 0)), q.line, s)
    else if r.command != q.command then Reply(r, None)
    else Transact(respond, limit, r, q.line, s)
  }

  // ---- the invariant --------------------------------------------------------------------------------------

  /** `answered` lines of the running child have been answered to callers: what is buffered followed by what is
      still in the pipe is exactly the output owed for the other lines. */
  predicate Accounted(respond: Responder, r: Runner, answered: nat)
  {
    answered <= |r.child.lines| &&
    r.child.delivered <= |OutputFrom(respond, r.child.lines, 0)| &&
    r.buffer + Available(respond, r.child) == OutputFrom(respond, r.child.lines, answered) &&
    (!r.started ==> r == STOPPED && answered == 0)
  }

  lemma {:induction false} OutputAppends(respond: Responder, lines: seq<Bytes>, more: seq<Bytes>, from: nat)
    requires from <= |lines|
    ensures OutputFrom(respond, lines + more, from) ==
      OutputFrom(respond, lines, from) + OutputFrom(respond, lines + more, |lines|)
    decreases |lines| - from
  {
    if from < |lines| {
      OutputAppends(respond, lines, more, from + 1);
      assert (lines + more)[..from + 1] == lines[..from + 1];
    }
  }

  /** Sending lines adds their answers to what is owed. */
  lemma SendKeepsAccount(respond: Responder, r: Runner, answered: nat, more: seq<Bytes>)
    requires Accounted(respond, r, answered) && r.started
    ensures Accounted(respond, r.(child := r.child.(lines := r.child.lines + more)), answered)
  {
    var lines, d := r.child.lines, r.child.delivered;
    OutputAppends(respond, lines, more, 0);
    OutputAppends(respond, lines, more, answered);
    var out, tail := OutputFrom(respond, lines, 0), OutputFrom(respond, lines + more, |lines|);
    assert (out + tail)[d..] == out[d..] + tail;
    assert r.buffer + (out[d..] + tail) == (r.buffer + out[d..]) + tail;
  }

  lemma ReceiveKeepsAccount(respond: Responder, r: Runner, answered: nat, count: nat)
    requires Accounted(respond, r, answered) && r.started
    ensures Accounted(respond, Receive(respond, r, count), answered)
  {
    hide OutputFrom;
    var available := Available(respond, r.child);
    var taken := Min(Min(count, 4096), |available|);
    var out, d := OutputFrom(respond, r.child.lines, 0), r.child.delivered;
    assert out[d + taken..] == available[taken..];
    assert r.buffer + available == (r.buffer + available[..taken]) + available[taken..];
  }

  /** A newline in the buffer ends exactly the answer to the first unanswered line. */
  lemma FirstLineIsNextAnswer(respond: Responder, r: Runner, answered: nat)
    requires AnswersInLines(respond) && Accounted(respond, r, answered) && r.started
    requires FindNewline(r.buffer).Some?
    ensures var k := FindNewline(r.buffer).value;
      answered < |r.child.lines| && r.buffer[..k] == respond(r.child.lines[..answered + 1]) &&
      Accounted(respond, r.(buffer := r.buffer[k + 1..]), answered + 1)
  {
    var k, lines := FindNewline(r.buffer).value, r.child.lines;
    var all := r.buffer + Available(respond, r.child);
    assert all == OutputFrom(respond, lines, answered) && all[k] == NEWLINE;
    assert answered < |lines|;
    hide OutputFrom, Available, FindNewline;
    var answer, rest := respond(lines[..answered + 1]), OutputFrom(respond, lines, answered + 1);
    assert all == answer + [NEWLINE] + rest by { OutputUnfolds(respond, lines, answered); }
    assert all[..k] == r.buffer[..k];
    FirstNewlineUnique(answer, rest, all, k);
    assert r.buffer[k + 1..] + Available(respond, r.child) == all[k + 1..];
  }

  lemma OutputUnfolds(respond: Responder, lines: seq<Bytes>, from: nat)
    requires from < |lines|
    ensures var later := OutputFrom(respond, lines, from + 1);
      OutputFrom(respond, lines, from) == respond(lines[..from + 1]) + [NEWLINE] + later
  {
  }

  lemma FirstNewlineUnique(a: Bytes, b: Bytes, all: Bytes, k: nat)
    requires all == a + [NEWLINE] + b && NEWLINE !in a
    requires k < |all| && all[k] == NEWLINE && forall i :: 0 <= i < k ==> all[i] != NEWLINE
    ensures k == |a| && all[..k] == a && all[k + 1..] == b
  {
    assert all[|a|] == NEWLINE;
    assert forall i :: 0 <= i < |a| ==> all[i] == a[i];
  }

  /** Whatever the pipe does, a line that is read is the answer to the first unanswered line. */
  lemma {:induction false} ReadLineIsNextAnswer(
    respond: Responder, limit: nat, r: Runner, pipe: seq<ReadEvent>, answered: nat)
    requires AnswersInLines(respond) && Accounted(respond, r, answered) && r.started
    ensures var reply := ReadLine(respond, limit, r, pipe);
      reply.line.Some? ==>
        answered < |r.child.lines| && reply.runner.child.lines == r.child.lines && reply.runner.started &&
        reply.runner.command == r.command && Accounted(respond, reply.runner, answered + 1) &&
        reply.line.value == respond(r.child.lines[..answered + 1])
    decreases |pipe|
  {
    hide Accounted, Receive, FindNewline, AnswersInLines;
    if FindNewline(r.buffer).Some? {
      FirstLineIsNextAnswer(respond, r, answered);
    } else if |r.buffer| <= limit && pipe != [] {
      match pipe[0]
      case Arrives(n) =>
        ReceiveKeepsAccount(respond, r, answered, n);
        ReceiveKeepsChild(respond, r, n);
        ReadLineIsNextAnswer(respond, limit, Receive(respond, r, n), pipe[1..], answered);
      case Interrupted => ReadLineIsNextAnswer(respond, limit, r, pipe[1..], answered);
      case _ =>
    }
  }

  lemma ReceiveKeepsChild(respond: Responder, r: Runner, count: nat)
    ensures var s := Receive(respond, r, count);
      s.child.lines == r.child.lines && s.started == r.started && s.command == r.command
  {
  }

  // ---- lines sent -----------------------------------------------------------------------------------------

  lemma {:induction false} LinesOfOne(b: Bytes)
    requires NEWLINE !in b
    ensures Lines(b + [NEWLINE]) == [b]
  {
    var w := b + [NEWLINE];
    assert w[|b|] == NEWLINE;
    var k := FindNewline(w).value;
    FirstNewlineUnique(b, [], w, k);
    assert Lines(w[k + 1..]) == [];
  }

  /** A terminated string has one line exactly when it has no other newline; it always has at least one. */
  lemma {:induction false} LineCount(b: Bytes)
    ensures |Lines(b + [NEWLINE])| >= 1
    ensures |Lines(b + [NEWLINE])| == 1 <==> NEWLINE !in b
    decreases |b|
  {
    var w := b + [NEWLINE];
    if NEWLINE !in b {
      LinesOfOne(b);
    } else {
      assert w[|b|] == NEWLINE;
      var k := FindNewline(w).value;
      var i :| 0 <= i < |b| && b[i] == NEWLINE;
      assert w[i] == NEWLINE;
      assert w[k + 1..] == b[k + 1..] + [NEWLINE];
      LineCount(b[k + 1..]);
    }
  }

  lemma WireLines(line: Bytes)
    ensures |Lines(Wire(line))| >= 1
    ensures |Lines(Wire(line))| == 1 <==> OneLine(line)
    ensures OneLine(line) ==> Lines(Wire(line)) == [Stripped(line)]
  {
    var b := Stripped(line);
    assert Wire(line) == b + [NEWLINE];
    LineCount(b);
    if OneLine(line) {
      LinesOfOne(b);
    }
  }

  // ---- calls ----------------------------------------------------------------------------------------------

  // The runner with the number of answers its child's callers have had: the count only records the past.
  datatype System = System(runner: Runner, answered: nat)

  datatype Call = Ask(request: Request, script: Script) | Stop

  function AnsweredBefore(s: System): nat
  {
    if s.runner.started then s.answered else 0
  }

  function Step(respond: Responder, limit: nat, s: System, c: Call): (System, Option<Bytes>)
  {
    match c
    case Stop => (System(STOPPED, 0), None)
    case Ask(q, script) =>
      var reply := Run(respond, limit, s.runner, q, script);
      (System(reply.runner,
              if !reply.runner.started then 0 else if reply.line.Some? then AnsweredBefore(s) + 1 else s.answered),
       reply.line)
  }

  predicate Inv(respond: Responder, s: System)
  {
    Accounted(respond, s.runner, s.answered)
  }

  /** Lines the child was sent before this call, and those of them nobody has had an answer for. */
  function LinesBefore(s: System): seq<Bytes> { if s.runner.started then s.runner.child.lines else [] }

  function Backlog(s: System): int { |LinesBefore(s)| - AnsweredBefore(s) }

  lemma FreshIsAccounted(respond: Responder, command: seq<Bytes>)
    ensures Accounted(respond, Runner(true, command, [], Child([], 0)), 0)
    ensures Accounted(respond, STOPPED, 0)
  {
  }

  lemma TransactAnswersNext(respond: Responder, limit: nat, r: Runner, line: Bytes, s: Script, answered: nat)
    requires AnswersInLines(respond) && Accounted(respond, r, answered) && r.started
    ensures var reply := Transact(respond, limit, r, line, s);
      (reply.line.None? ==> reply.runner == STOPPED) &&
      (reply.line.Some? ==>
        var lines := r.child.lines + Lines(Wire(line));
        reply.runner.started && reply.runner.child.lines == lines && answered < |lines| &&
        Accounted(respond, reply.runner, answered + 1) && reply.line.value == respond(lines[..answered + 1]))
  {
    hide Accounted, ReadLine, Lines, Wire, AnswersInLines;
    SendKeepsAccount(respond, r, answered, Lines(Wire(line)));
    var sent := r.(child := r.child.(lines := r.child.lines + Lines(Wire(line))));
    ReadLineIsNextAnswer(respond, limit, sent, s.pipe, answered);
  }

  /** One call, in full: the i-th answer handed out by a child is its answer to the i-th line it was sent; a call
      that fails after the child was involved leaves no child and no buffered byte behind. */
  lemma CallKeepsInv(respond: Responder, limit: nat, s: System, c: Call)
    requires AnswersInLines(respond) && Inv(respond, s)
    ensures var (t, reply) := Step(respond, limit, s, c);
      Inv(respond, t) &&
      (reply.None? ==> t == s || t == System(STOPPED, 0)) &&
      (reply.Some? ==>
        c.Ask? && t.runner.started && t.answered == AnsweredBefore(s) + 1 <= |t.runner.child.lines| &&
        t.runner.child.lines == LinesBefore(s) + Lines(Wire(c.request.line)) &&
        reply.value == respond(t.runner.child.lines[..t.answered]))
  {
    hide Transact, Accounted, Lines, Wire, AnswersInLines;
    FreshIsAccounted(respond, []);
    if c.Ask? {
      var q := c.request;
      FreshIsAccounted(respond, q.command);
      var spawned := Runner(true, q.command, [], Child([], 0));
      TransactAnswersNext(respond, limit, spawned, q.line, c.script, 0);
      if s.runner.started {
        TransactAnswersNext(respond, limit, s.runner, q.line, c.script, s.answered);
      } else {
        StoppedHasNoCount(respond, s);
      }
    }
  }

  lemma StoppedHasNoCount(respond: Responder, s: System)
    requires Inv(respond, s) && !s.runner.started
    ensures s == System(STOPPED, 0)
  {
  }

  /** A success answers the first line without an answer, and adds the request's extra lines to the backlog; nothing
      but a stop removes any. */
  lemma BacklogGrowsByExtraLines(respond: Responder, limit: nat, s: System, q: Request, script: Script)
    requires AnswersInLines(respond) && Inv(respond, s)
    requires Step(respond, limit, s, Ask(q, script)).1.Some?
    ensures var (t, reply) := Step(respond, limit, s, Ask(q, script));
      reply.value == respond((LinesBefore(s) + Lines(Wire(q.line)))[..AnsweredBefore(s) + 1]) &&
      Backlog(t) == Backlog(s) + |Lines(Wire(q.line))| - 1 >= Backlog(s) >= 0 &&
      (Backlog(t) == Backlog(s) <==> OneLine(q.line))
  {
    hide Step, Lines, Wire, AnswersInLines, OutputFrom, Available;
    CallKeepsInv(respond, limit, s, Ask(q, script));
    WireLines(q.line);
  }

  /** Without backlog, a one-line request gets the child's answer to exactly that request, after exactly the lines
      already sent; and no backlog is left. */
  lemma OneLineRequestGetsItsAnswer(respond: Responder, limit: nat, s: System, q: Request, script: Script)
    requires AnswersInLines(respond) && Inv(respond, s) && Backlog(s) == 0 && OneLine(q.line)
    requires Step(respond, limit, s, Ask(q, script)).1.Some?
    ensures var (t, reply) := Step(respond, limit, s, Ask(q, script));
      Backlog(t) == 0 && reply.value == respond(LinesBefore(s) + [Stripped(q.line)]) &&
      t.runner.child.lines == LinesBefore(s) + [Stripped(q.line)]
  {
    hide Step, Lines, Wire, Stripped, AnswersInLines, OutputFrom, Available;
    CallKeepsInv(respond, limit, s, Ask(q, script));
    WireLines(q.line);
    var t := Step(respond, limit, s, Ask(q, script)).0;
    assert t.runner.child.lines[..t.answered] == t.runner.child.lines;
  }

  /** Why embedded newlines matter: once such a request has succeeded, the next answer handed out was given by the
      child before it saw the request it is handed out for. */
  lemma EmbeddedNewlineMisaligns(
    respond: Responder, limit: nat, s: System, q: Request, script: Script, next: Request, later: Script)
    requires AnswersInLines(respond) && Inv(respond, s) && !OneLine(q.line)
    requires Step(respond, limit, s, Ask(q, script)).1.Some?
    requires Step(respond, limit, Step(respond, limit, s, Ask(q, script)).0, Ask(next, later)).1.Some?
    ensures var t := Step(respond, limit, s, Ask(q, script)).0;
      exists k :: 0 < k <= |LinesBefore(t)| &&
        Step(respond, limit, t, Ask(next, later)).1.value == respond(LinesBefore(t)[..k])
  {
    hide Step, Lines, Wire, OneLine, AnswersInLines, OutputFrom, Available;
    var t := Step(respond, limit, s, Ask(q, script)).0;
    BacklogGrowsByExtraLines(respond, limit, s, q, script);
    CallKeepsInv(respond, limit, s, Ask(q, script));
    CallKeepsInv(respond, limit, t, Ask(next, later));
    var u := Step(respond, limit, t, Ask(next, later)).0;
    assert u.runner.child.lines[..u.answered] == LinesBefore(t)[..u.answered];
  }

  // ---- runs -----------------------------------------------------------------------------------------------

  function After(respond: Responder, limit: nat, calls: seq<Call>): System
  {
    if calls == [] then System(STOPPED, 0)
    else Step(respond, limit, After(respond, limit, calls[..|calls| - 1]), calls[|calls| - 1]).0
  }

  ghost predicate AllOneLine(calls: seq<Call>)
  {
    forall c :: c in calls && c.Ask? ==> OneLine(c.request.line)
  }

  lemma {:induction false} EveryRunIsAccounted(respond: Responder, limit: nat, calls: seq<Call>)
    requires AnswersInLines(respond)
    ensures Inv(respond, After(respond, limit, calls))
    ensures AllOneLine(calls) ==> Backlog(After(respond, limit, calls)) == 0
  {
    hide Step, OutputFrom, Available, AnswersInLines, OneLine, Accounted;
    if calls == [] {
      FreshIsAccounted(respond, []);
    } else {
      var front, c := calls[..|calls| - 1], calls[|calls| - 1];
      EveryRunIsAccounted(respond, limit, front);
      var s := After(respond, limit, front);
      CallKeepsInv(respond, limit, s, c);
      if AllOneLine(calls) && Step(respond, limit, s, c).1.Some? {
        assert c in calls;
        OneLineRequestGetsItsAnswer(respond, limit, s, c.request, c.script);
      }
    }
  }

  /** Over every run of calls, stops, timeouts, failures and restarts with one-line requests: an answer that is
      returned is the current child's answer to that very request. */
  lemma EveryAnswerIsToItsOwnRequest(respond: Responder, limit: nat, calls: seq<Call>, q: Request, script: Script)
    requires AnswersInLines(respond) && AllOneLine(calls) && OneLine(q.line)
    ensures var s := After(respond, limit, calls);
      var reply := Step(respond, limit, s, Ask(q, script)).1;
      reply.Some? ==> reply.value == respond(LinesBefore(s) + [Stripped(q.line)])
  {
    hide Step, OneLine, Stripped, AnswersInLines, Inv;
    EveryRunIsAccounted(respond, limit, calls);
    var s := After(respond, limit, calls);
    if Step(respond, limit, s, Ask(q, script)).1.Some? {
      OneLineRequestGetsItsAnswer(respond, limit, s, q, script);
    }
  }

  /** A request that fails once a child is involved leaves nothing behind: the next answer handed out is a fresh
      child's answer to the first line of its own request, so no late answer can reach it. Any other failure
      changes nothing at all. */
  lemma NoLateAnswers(respond: Responder, limit: nat, s: System, failed: Call, q: Request, script: Script)
    requires AnswersInLines(respond) && Inv(respond, s) && Step(respond, limit, s, failed).1.None?
    ensures var t := Step(respond, limit, s, failed).0;
      var reply := Step(respond, limit, t, Ask(q, script)).1;
      t == s || (reply.Some? ==> reply.value == respond([FirstLine(q.line)]))
  {
    hide Step, Lines, Wire, AnswersInLines, OutputFrom, Available;
    CallKeepsInv(respond, limit, s, failed);
    var t := Step(respond, limit, s, failed).0;
    if t != s && Step(respond, limit, t, Ask(q, script)).1.Some? {
      CallKeepsInv(respond, limit, t, Ask(q, script));
      WireLines(q.line);
      assert ([] + Lines(Wire(q.line)))[..1] == [FirstLine(q.line)];
    }
  }

  /** The first line a request puts on the wire; for a one-line request, the request itself. */
  function FirstLine(line: Bytes): Bytes
  {
    WireLines(line);
    Lines(Wire(line))[0]
  }

  // ---- alignment, in the caller's terms -------------------------------------------------------------------

  /** The requests the current child has answered. */
  function Answered(respond: Responder, limit: nat, calls: seq<Call>): seq<Bytes>
  {
    if calls == [] then []
    else
      var front, c := calls[..|calls| - 1], calls[|calls| - 1];
      var s := After(respond, limit, front);
      var (t, reply) := Step(respond, limit, s, c);
      if !t.runner.started then []
      else if reply.Some? && c.Ask? then
        (if s.runner.started then Answered(respond, limit, front) else []) + [c.request.line]
      else Answered(respond, limit, front)
  }

  function AllLines(requests: seq<Bytes>): seq<Bytes>
  {
    if requests == [] then []
    else AllLines(requests[..|requests| - 1]) + Lines(Wire(requests[|requests| - 1]))
  }

  lemma {:induction false} AnsweredIsTheHistory(respond: Responder, limit: nat, calls: seq<Call>)
    requires AnswersInLines(respond)
    ensures var s := After(respond, limit, calls);
      Inv(respond, s) && s.answered == |Answered(respond, limit, calls)| &&
      s.runner.child.lines == AllLines(Answered(respond, limit, calls)) &&
      (!s.runner.started ==> Answered(respond, limit, calls) == [])
  {
    hide Step, OutputFrom, Available, AnswersInLines, Lines, Wire;
    if calls == [] {
      FreshIsAccounted(respond, []);
    } else {
      var front, c := calls[..|calls| - 1], calls[|calls| - 1];
      AnsweredIsTheHistory(respond, limit, front);
      var s := After(respond, limit, front);
      CallKeepsInv(respond, limit, s, c);
      var (t, reply) := Step(respond, limit, s, c);
      if reply.Some? {
        var before := if s.runner.started then Answered(respond, limit, front) else [];
        assert (before + [c.request.line])[..|before|] == before;
      } else if !t.runner.started {
        StoppedHasNoCount(respond, t);
      }
    }
  }

  ghost predicate AllAreOneLine(requests: seq<Bytes>)
  {
    forall r :: r in requests ==> OneLine(r)
  }

  lemma {:induction false} LinesExceedRequests(requests: seq<Bytes>)
    ensures |AllLines(requests)| >= |requests|
    ensures |AllLines(requests)| == |requests| <==> AllAreOneLine(requests)
  {
    hide OneLine, Lines, Wire;
    if requests != [] {
      var front, last := requests[..|requests| - 1], requests[|requests| - 1];
      assert requests == front + [last];
      LinesExceedRequests(front);
      WireLines(last);
    }
  }

  /** A child whose answers tell histories of different length apart. */
  ghost predicate Counts(respond: Responder)
  {
    forall a, b :: respond(a) == respond(b) ==> |a| == |b|
  }

  /** The exact condition, over every run: the next answer is the child's answer to the first line of its own
      request if every request answered by this child was one line, and, for any child that counts its lines,
      only if. */
  lemma AlignedExactlyAfterOneLineRequests(
    respond: Responder, limit: nat, calls: seq<Call>, q: Request, script: Script)
    requires AnswersInLines(respond)
    requires Step(respond, limit, After(respond, limit, calls), Ask(q, script)).1.Some?
    ensures var answered := Answered(respond, limit, calls);
      var reply := Step(respond, limit, After(respond, limit, calls), Ask(q, script)).1.value;
      (AllAreOneLine(answered) ==> reply == respond(AllLines(answered) + [FirstLine(q.line)])) &&
      (Counts(respond) && reply == respond(AllLines(answered) + [FirstLine(q.line)]) ==> AllAreOneLine(answered))
    ensures Backlog(After(respond, limit, calls)) == 0 <==> AllAreOneLine(Answered(respond, limit, calls))
  {
    hide Step, OutputFrom, Available, AnswersInLines, Lines, Wire, After, Answered, AllLines, OneLine, Counts;
    AnsweredIsTheHistory(respond, limit, calls);
    var s, answered := After(respond, limit, calls), Answered(respond, limit, calls);
    LinesExceedRequests(answered);
    BacklogGrowsByExtraLines(respond, limit, s, q, script);
    WireLines(q.line);
    var all, more := AllLines(answered), Lines(Wire(q.line));
    HistoryBefore(respond, limit, s);
    NextHistory(respond, all, more, |answered|);
  }

  lemma HistoryBefore(respond: Responder, limit: nat, s: System)
    requires Inv(respond, s)
    ensures LinesBefore(s) == s.runner.child.lines && AnsweredBefore(s) == s.answered
  {
  }

  lemma NextHistory(respond: Responder, all: seq<Bytes>, more: seq<Bytes>, answered: nat)
    requires answered <= |all| && |more| >= 1
    ensures answered == |all| ==> (all + more)[..answered + 1] == all + [more[0]]
    ensures Counts(respond) && respond((all + more)[..answered + 1]) == respond(all + [more[0]]) ==> answered == |all|
  {
  }

  // A child that answers with the number of lines it has seen, as far as three.
  const COUNTING: Responder := (lines: seq<Bytes>) => if |lines| <= 1 then [49] else if |lines| == 2 then [50] else [51]

  const TWO_LINES := Ask(Request([[112]], [97, NEWLINE, 98]), Script(true, true, true, [Arrives(4)]))

  const LEFT_OVER := Runner(true, [[112]], [50, NEWLINE], Child([[97], [98]], 4))

  /** It really happens: the first request holds a newline, and the second is handed the answer to the first
      request's second line. */
  lemma MisalignedRun()
    ensures AnswersInLines(COUNTING)
    ensures var (t, first) := Step(COUNTING, 4096, System(STOPPED, 0), TWO_LINES);
      var next := Step(COUNTING, 4096, t, Ask(Request([[112]], [99]), Script(true, true, true, []))).1;
      first == Some(COUNTING([[97]])) && next == Some(COUNTING([[97], [98]])) != Some(COUNTING([[97], [98], [99]]))
  {
    FirstReply();
    SecondReply();
  }

  lemma FirstReply()
    ensures Step(COUNTING, 4096, System(STOPPED, 0), TWO_LINES) == (System(LEFT_OVER, 1), Some([49]))
  {
    hide Lines, Wire, ReadLine, FindNewline;
    TwoLinesOnTheWire();
    ReadsFirstAnswer();
    assert [] + [[97], [98]] == [[97], [98]];
  }

  lemma SecondReply()
    ensures var ask := Ask(Request([[112]], [99]), Script(true, true, true, []));
      Step(COUNTING, 4096, System(LEFT_OVER, 1), ask).1 == Some([50])
  {
    hide Lines, Wire;
    OneLineOnTheWire();
    NewlineSecond([50, NEWLINE]);
    assert [50, NEWLINE][..1] == [50];
  }

  lemma NewlineSecond(b: Bytes)
    requires |b| >= 2 && b[0] != NEWLINE && b[1] == NEWLINE
    ensures FindNewline(b) == Some(1)
  {
  }

  lemma ReadsFirstAnswer()
    ensures ReadLine(COUNTING, 4096, Runner(true, [[112]], [], Child([[97], [98]], 0)), [Arrives(4)]) ==
      Reply(LEFT_OVER, Some([49]))
  {
    hide FindNewline;
    var r := Runner(true, [[112]], [], Child([[97], [98]], 0));
    TwoAnswers();
    var b: Bytes := [49, NEWLINE, 50, NEWLINE];
    var got := Receive(COUNTING, r, 4);
    assert got == Runner(true, [[112]], b, Child([[97], [98]], 4));
    NewlineSecond(b);
    assert b[2..] == [50, NEWLINE] && b[..1] == [49];
    assert ReadLine(COUNTING, 4096, got, []) == Reply(LEFT_OVER, Some([49]));
    assert [Arrives(4)][1..] == [];
    assert FindNewline([]) == None;
  }

  lemma TwoLinesOnTheWire()
    ensures Lines(Wire([97, NEWLINE, 98])) == [[97], [98]]
  {
    var w: Bytes := [97, NEWLINE, 98, NEWLINE];
    assert Wire([97, NEWLINE, 98]) == w;
    assert w[1..] == [NEWLINE, 98, NEWLINE];
    assert FindNewline(w) == Some(1);
    assert w[2..] == [98] + [NEWLINE] && w[..1] == [97];
    LinesOfOne([98]);
  }

  lemma OneLineOnTheWire()
    ensures Lines(Wire([99])) == [[99]]
  {
    LinesOfOne([99]);
  }

  lemma TwoAnswers()
    ensures OutputFrom(COUNTING, [[97], [98]], 0) == [49, NEWLINE, 50, NEWLINE]
  {
    var lines: seq<Bytes> := [[97], [98]];
    assert OutputFrom(COUNTING, lines, 2) == [];
    assert OutputFrom(COUNTING, lines, 1) == [50, NEWLINE];
    assert OutputFrom(COUNTING, lines, 0) == [49] + [NEWLINE] + OutputFrom(COUNTING, lines, 1);
  }

  lemma ControlFreeIsOneLine(line: Bytes)
    requires Json.NoControl(line)
    ensures OneLine(line) && Stripped(line) == line
  {
  }

  /** Both requests the runtime sends are one line, if numbers print without control bytes. */
  lemma RuntimeRequestsAreOneLine(modelPath: Bytes, language: Bytes, rate: Bytes, samples: seq<Bytes>)
    requires Json.NoControl(rate) && forall s :: s in samples ==> Json.NoControl(s)
    ensures OneLine(Json.InitializeRequest(modelPath, language))
    ensures OneLine(Json.TranscribeRequest(rate, samples))
  {
    hide OneLine, Json.InitializeRequest, Json.TranscribeRequest;
    Json.InitializeRequestIsOneLine(modelPath, language);
    Json.TranscribeRequestIsOneLine(rate, samples);
    ControlFreeIsOneLine(Json.InitializeRequest(modelPath, language));
    ControlFreeIsOneLine(Json.TranscribeRequest(rate, samples));
  }

  /** The initialize request is one line whatever path and language it carries, so it gets its own answer. */
  lemma InitializeGetsItsAnswer(
    respond: Responder, limit: nat, calls: seq<Call>, command: seq<Bytes>, modelPath: Bytes, language: Bytes,
    script: Script)
    requires AnswersInLines(respond) && AllOneLine(calls)
    ensures OneLine(Json.InitializeRequest(modelPath, language))
    ensures var s, line := After(respond, limit, calls), Json.InitializeRequest(modelPath, language);
      var reply := Step(respond, limit, s, Ask(Request(command, line), script)).1;
      reply.Some? ==> reply.value == respond(LinesBefore(s) + [line])
  {
    hide Step, AnswersInLines, After, Json.InitializeRequest;
    var line := Json.InitializeRequest(modelPath, language);
    Json.InitializeRequestIsOneLine(modelPath, language);
    ControlFreeIsOneLine(line);
    EveryAnswerIsToItsOwnRequest(respond, limit, calls, Request(command, line), script);
  }

  // ---- the object -----------------------------------------------------------------------------------------

  class PersistentProcessRunner {
    const respond: Responder
    const maxResponseBytes: nat
    var started: bool
    var command: seq<Bytes>
    var stdoutBuffer: Bytes
    var child: Child

    ghost function State(): Runner
      reads this
    {
      Runner(started, command, stdoutBuffer, child)
    }

    constructor (respond: Responder, maxResponseBytes: nat)
      ensures State() == STOPPED && this.respond == respond
      ensures this.maxResponseBytes == if maxResponseBytes == 0 then 4194304 else maxResponseBytes
    {
      this.respond := respond;
      this.maxResponseBytes := if maxResponseBytes == 0 then 4194304 else maxResponseBytes;
      started, command, stdoutBuffer, child := false, [], [], Child([], 0);
    }

    method StopLocked()
      modifies this
      ensures State() == STOPPED
    {
      started, command, stdoutBuffer, child := false, [], [], Child([], 0);
    }

    method ReadLineLocked(pipe: seq<ReadEvent>) returns (line: Option<Bytes>)
      modifies this
      ensures Reply(State(), line) == ReadLine(respond, maxResponseBytes, old(State()), pipe)
    {
      hide Available;
      var i := 0;
      while true
        invariant 0 <= i <= |pipe|
        invariant ReadLine(respond, maxResponseBytes, State(), pipe[i..]) ==
          ReadLine(respond, maxResponseBytes, old(State()), pipe)
        decreases |pipe| - i
      {
        var newline := FindNewline(stdoutBuffer);
        if newline.Some? {
          line := Some(stdoutBuffer[..newline.value]);
          stdoutBuffer := stdoutBuffer[newline.value + 1..];
          return;
        }
        if |stdoutBuffer| > maxResponseBytes || i == |pipe| {
          return None;
        }
        assert pipe[i..][1..] == pipe[i + 1..];
        match pipe[i] {
          case Arrives(n) =>
            var available := Available(respond, child);
            var taken := Min(Min(n, 4096), |available|);
            stdoutBuffer := stdoutBuffer + available[..taken];
            child := child.(delivered := child.delivered + taken);
          case Interrupted =>
          case _ =>
            return None;
        }
        i := i + 1;
      }
    }

    method TransactLocked(line: Bytes, s: Script) returns (response: Option<Bytes>)
      modifies this
      ensures Reply(State(), response) == Transact(respond, maxResponseBytes, old(State()), line, s)
    {
      hide ReadLine, Lines;
      if !s.running || !s.writes {
        StopLocked();
        return None;
      }
      var wire := line;
      if line == [] || line[|line| - 1] != NEWLINE {
        wire := wire + [NEWLINE];
      }
      child := child.(lines := child.lines + Lines(wire));
      response := ReadLineLocked(s.pipe);
      if response.None? {
        StopLocked();
      }
    }

    method RunRequest(q: Request, s: Script) returns (response: Option<Bytes>)
      modifies this
      ensures Reply(State(), response) == Run(respond, maxResponseBytes, old(State()), q, s)
    {
      hide Transact;
      if |q.command| == 0 || q.command[0] == [] {
        return None;
      }
      if !started {
        if !s.spawns {
          return None;
        }
        command, started, stdoutBuffer, child := q.command, true, [], Child([], 0);
      } else if command != q.command {
        return None;
      }
      response := TransactLocked(q.line, s);
    }
  }
}
