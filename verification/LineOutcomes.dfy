/** When an exchange with the bridge process succeeds (src/runtime/persistent_process_runner.cpp:74-184, 597-639), told
    from the bytes and events of the pipe. */
module LineOutcomes {
  import opened Wrappers
  import opened LineProtocol

  /** The bytes that the first n rounds bring at most: 4096 each. */
  function Brought(pipe: seq<ReadEvent>): nat
  {
    if pipe == [] then 0
    else
      Brought(pipe[..|pipe| - 1]) +
      match pipe[|pipe| - 1]
      case Arrives(count) => if count < 4096 then count else 4096
      case _ => 0
  }

  /** What is in the buffer after n rounds: the bytes that were there, and the next ones of the output owed. */
  function Buffered(respond: Responder, r: Runner, pipe: seq<ReadEvent>, n: nat): Bytes
    requires n <= |pipe|
  {
    var owed := Available(respond, r.child);
    r.buffer + if Brought(pipe[..n]) < |owed| then owed[..Brought(pipe[..n])] else owed
  }

  predicate GoesOn(e: ReadEvent)
  {
    e.Arrives? || e.Interrupted?
  }

  /** A newline is in the buffer after n rounds, none of which ended the reading, and not before; until then the buffer
      never outgrew the limit. */
  ghost predicate AnswersAfter(respond: Responder, limit: nat, r: Runner, pipe: seq<ReadEvent>, n: nat)
    requires n <= |pipe|
  {
    NEWLINE in Buffered(respond, r, pipe, n) && (forall i :: 0 <= i < n ==> GoesOn(pipe[i])) &&
    forall m :: 0 <= m < n ==>
      NEWLINE !in Buffered(respond, r, pipe, m) && |Buffered(respond, r, pipe, m)| <= limit
  }

  ghost predicate AnswersInTime(respond: Responder, limit: nat, r: Runner, pipe: seq<ReadEvent>)
  {
    exists n :: 0 <= n <= |pipe| && AnswersAfter(respond, limit, r, pipe, n)
  }

  lemma {:induction false} BroughtFromFront(pipe: seq<ReadEvent>)
    requires pipe != []
    ensures Brought(pipe) == Brought([pipe[0]]) + Brought(pipe[1..])
  {
    if |pipe| == 1 {
      assert pipe == [pipe[0]] && pipe[1..] == [];
    } else {
      var init := pipe[..|pipe| - 1];
      BroughtFromFront(init);
      assert init[1..] == pipe[1..][..|pipe[1..]| - 1] && init[0] == pipe[0];
    }
  }

  /** The runner after one round that goes on. */
  function AfterRound(respond: Responder, r: Runner, e: ReadEvent): Runner
  {
    if e.Arrives? then Receive(respond, r, e.count) else r
  }

  lemma NothingBroughtYet(respond: Responder, r: Runner, pipe: seq<ReadEvent>)
    ensures Buffered(respond, r, pipe, 0) == r.buffer
  {
    assert pipe[..0] == [];
    assert Available(respond, r.child)[..0] == [];
    if |Available(respond, r.child)| == 0 {
      assert Available(respond, r.child) == [];
    }
  }

  lemma RoundMovesBytes(respond: Responder, r: Runner, pipe: seq<ReadEvent>, n: nat)
    requires pipe != [] && n <= |pipe| - 1 && GoesOn(pipe[0])
    requires r.child.delivered <= |OutputFrom(respond, r.child.lines, 0)|
    ensures var v := AfterRound(respond, r, pipe[0]);
      v.child.delivered <= |OutputFrom(respond, v.child.lines, 0)| &&
      Buffered(respond, v, pipe[1..], n) == Buffered(respond, r, pipe, n + 1)
  {
    hide OutputFrom;
    var v, owed := AfterRound(respond, r, pipe[0]), Available(respond, r.child);
    assert pipe[..n + 1][1..] == pipe[1..][..n] && pipe[..n + 1][0] == pipe[0];
    BroughtFromFront(pipe[..n + 1]);
    var first, more := Brought([pipe[0]]), Brought(pipe[1..][..n]);
    OneRound(respond, r, pipe[0]);
    hide Brought, Available, AfterRound;
    Prefixes(r.buffer, owed, first, more);
  }

  lemma OneRound(respond: Responder, r: Runner, e: ReadEvent)
    requires GoesOn(e) && r.child.delivered <= |OutputFrom(respond, r.child.lines, 0)|
    ensures var v, owed := AfterRound(respond, r, e), Available(respond, r.child);
      var taken := Min(Brought([e]), |owed|);
      v.child.delivered <= |OutputFrom(respond, v.child.lines, 0)| &&
      v.buffer == r.buffer + owed[..taken] && Available(respond, v.child) == owed[taken..]
  {
    hide OutputFrom;
    assert [e][..0] == [];
    var out, owed := OutputFrom(respond, r.child.lines, 0), Available(respond, r.child);
    var taken := Min(Brought([e]), |owed|);
    assert out[r.child.delivered + taken..] == owed[taken..];
    assert owed[..0] == [] && owed[0..] == owed && r.buffer + [] == r.buffer;
  }

  lemma Prefixes(buffer: Bytes, owed: Bytes, first: nat, more: nat)
    ensures var taken := Min(first, |owed|);
      var rest := owed[taken..];
      (buffer + owed[..taken]) + (if more < |rest| then rest[..more] else rest) ==
        buffer + if first + more < |owed| then owed[..first + more] else owed
  {
    var taken := Min(first, |owed|);
    assert owed[..taken] + owed[taken..] == owed;
    if first + more < |owed| {
      assert owed[..taken] + owed[taken..][..more] == owed[..first + more];
    }
  }

  /** read_line_locked returns a line if and only if one is complete before the reading ends. */
  lemma {:induction false} ReadSucceedsExactly(
    respond: Responder, limit: nat, r: Runner, pipe: seq<ReadEvent>)
    requires r.child.delivered <= |OutputFrom(respond, r.child.lines, 0)|
    ensures ReadLine(respond, limit, r, pipe).line.Some? <==> AnswersInTime(respond, limit, r, pipe)
    decreases |pipe|
  {
    hide OutputFrom, Receive, Brought, FindNewline;
    NothingBroughtYet(respond, r, pipe);
    hide Buffered;
    HasNewline(r.buffer);
    if NEWLINE in r.buffer {
      assert AnswersAfter(respond, limit, r, pipe, 0);
    } else if |r.buffer| <= limit && pipe != [] && GoesOn(pipe[0]) {
      var v := AfterRound(respond, r, pipe[0]);
      RoundMovesBytes(respond, r, pipe, 0);
      ReadSucceedsExactly(respond, limit, v, pipe[1..]);
      RoundShiftsAnswer(respond, limit, r, pipe);
    } else {
      forall n | 0 <= n <= |pipe| ensures !AnswersAfter(respond, limit, r, pipe, n) {
        if n > 0 {
          assert Buffered(respond, r, pipe, 0) == r.buffer && (pipe == [] || pipe[0] == pipe[0]);
        }
      }
    }
  }

  lemma HasNewline(b: Bytes)
    ensures FindNewline(b).Some? <==> NEWLINE in b
  {
  }

  lemma RoundShiftsAnswer(respond: Responder, limit: nat, r: Runner, pipe: seq<ReadEvent>)
    requires pipe != [] && GoesOn(pipe[0]) && NEWLINE !in r.buffer && |r.buffer| <= limit
    requires r.child.delivered <= |OutputFrom(respond, r.child.lines, 0)|
    ensures var v := AfterRound(respond, r, pipe[0]);
      AnswersInTime(respond, limit, r, pipe) <==> AnswersInTime(respond, limit, v, pipe[1..])
  {
    hide OutputFrom;
    var v := AfterRound(respond, r, pipe[0]);
    NothingBroughtYet(respond, r, pipe);
    forall n | 0 <= n < |pipe|
      ensures Buffered(respond, v, pipe[1..], n) == Buffered(respond, r, pipe, n + 1)
    {
      RoundMovesBytes(respond, r, pipe, n);
    }
    hide Buffered, AfterRound;
    if n :| 0 <= n <= |pipe| && AnswersAfter(respond, limit, r, pipe, n) {
      ShiftsDown(respond, limit, r, v, pipe, n);
    }
    if n :| 0 <= n <= |pipe[1..]| && AnswersAfter(respond, limit, v, pipe[1..], n) {
      ShiftsUp(respond, limit, r, v, pipe, n);
    }
  }

  lemma ShiftsDown(respond: Responder, limit: nat, r: Runner, v: Runner, pipe: seq<ReadEvent>, n: nat)
    requires pipe != [] && n <= |pipe| && AnswersAfter(respond, limit, r, pipe, n)
    requires Buffered(respond, r, pipe, 0) == r.buffer && NEWLINE !in r.buffer
    requires forall k :: 0 <= k < |pipe| ==> Buffered(respond, v, pipe[1..], k) == Buffered(respond, r, pipe, k + 1)
    ensures n > 0 && AnswersAfter(respond, limit, v, pipe[1..], n - 1)
  {
    hide Buffered;
    assert n > 0;
    forall i | 0 <= i < n - 1 ensures GoesOn(pipe[1..][i]) {
      assert pipe[1..][i] == pipe[i + 1];
    }
    forall m | 0 <= m < n - 1
      ensures NEWLINE !in Buffered(respond, v, pipe[1..], m) && |Buffered(respond, v, pipe[1..], m)| <= limit
    {
      assert NEWLINE !in Buffered(respond, r, pipe, m + 1) && |Buffered(respond, r, pipe, m + 1)| <= limit;
    }
  }

  lemma ShiftsUp(respond: Responder, limit: nat, r: Runner, v: Runner, pipe: seq<ReadEvent>, n: nat)
    requires pipe != [] && n <= |pipe[1..]| && AnswersAfter(respond, limit, v, pipe[1..], n) && GoesOn(pipe[0])
    requires Buffered(respond, r, pipe, 0) == r.buffer && NEWLINE !in r.buffer && |r.buffer| <= limit
    requires forall k :: 0 <= k < |pipe| ==> Buffered(respond, v, pipe[1..], k) == Buffered(respond, r, pipe, k + 1)
    ensures AnswersAfter(respond, limit, r, pipe, n + 1)
  {
    hide Buffered;
    forall i | 0 <= i < n + 1 ensures GoesOn(pipe[i]) {
      if i > 0 {
        assert pipe[1..][i - 1] == pipe[i];
      }
    }
    forall m | 0 <= m < n + 1
      ensures NEWLINE !in Buffered(respond, r, pipe, m) && |Buffered(respond, r, pipe, m)| <= limit
    {
      if m > 0 {
        assert Buffered(respond, v, pipe[1..], m - 1) == Buffered(respond, r, pipe, m);
      }
    }
  }

  /** The runner to which the request goes: the running one, or a fresh child. */
  function Served(r: Runner, q: Request): Runner
  {
    if r.started then r else Runner(true, q.command, [], Child([], 0))
  }

  /** A request succeeds if and only if it names a command, a child for that very command runs or can be started, the
      child is alive and takes the line, and its answer is complete in time and within the limit. Whatever else happens
      after the line was to be sent leaves no child; before that, nothing changes. */
  lemma RunSucceedsExactly(respond: Responder, limit: nat, r: Runner, q: Request, s: Script)
    requires r.child.delivered <= |OutputFrom(respond, r.child.lines, 0)|
    ensures var served, reply := Served(r, q), Run(respond, limit, r, q, s);
      var admitted := q.command != [] && q.command[0] != [] && if r.started then r.command == q.command else s.spawns;
      var sent := served.(child := served.child.(lines := served.child.lines + Lines(Wire(q.line))));
      (reply.line.Some? <==> admitted && s.running && s.writes && AnswersInTime(respond, limit, sent, s.pipe)) &&
      (!admitted ==> reply.runner == r) && (admitted && reply.line.None? ==> reply.runner == STOPPED)
  {
    hide OutputFrom, ReadLine, AnswersInTime, Lines, Wire;
    var served := Served(r, q);
    var sent := served.(child := served.child.(lines := served.child.lines + Lines(Wire(q.line))));
    MoreIsOwed(respond, served.child.lines, Lines(Wire(q.line)));
    assert served.child.delivered <= |OutputFrom(respond, served.child.lines, 0)|;
    ReadSucceedsExactly(respond, limit, sent, s.pipe);
    var admitted := q.command != [] && q.command[0] != [] && if r.started then r.command == q.command else s.spawns;
    if admitted {
      assert Run(respond, limit, r, q, s) == Transact(respond, limit, served, q.line, s);
    }
  }

  lemma MoreIsOwed(respond: Responder, lines: seq<Bytes>, more: seq<Bytes>)
    ensures |OutputFrom(respond, lines, 0)| <= |OutputFrom(respond, lines + more, 0)|
  {
    OutputAppends(respond, lines, more, 0);
  }
}
