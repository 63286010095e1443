/**
  `SudoProxy.run`: the serve loop of the elevated copy. It reads method
  names and raw argument strings from the pipe, runs allowed methods on the
  target and writes one pickled `(success, payload)` reply per call.
 */
module Dispatcher {
  import opened Wrappers
  import opened Values
  import opened Pipe
  import opened Classes
  import opened Allowlist
  import opened Mro

  /** The greeting and the acknowledgement of "close", as the loop writes them. */
  const ReadyReply: Reply := Line(ReadyText)
  const ClosingReply: Reply := Line(ClosingText)

  /** The method name read is the shutdown request. */
  predicate IsCloseRequest(name: string) {
    name == CloseRequest
  }

  /**
    Why the loop ended abnormally. Rejecting a method formats its message
    with the name `attr`, which is not defined inside `run`, so Python
    raises NameError for `attr` instead of the intended AttributeError. A
    coercion runs outside the inner `try`, so an argument type that raises
    ends the loop too.
   */
  datatype Abort = UndefinedName(name: string) | CoercionError(error: Value)

  /** How `run` ended. */
  datatype ServeEnd =
    | ShutDown          // the peer asked to close
    | PeerGone          // a read raised EOFError
    | Aborted(why: Abort)
    | Waiting           // blocked in a read that never returns

  /** What `run` writes after its last reply, depending on how it ended. */
  function Farewell(end: ServeEnd): seq<PipeEvent<Reply>> {
    match end
    case ShutDown => [Wrote(ClosingReply), Closed]
    case Waiting => []
    case _ => [Closed]
  }

  /** The outcome of `[t(pipe.read()) for t in argtypes]`. */
  datatype ArgsRead =
    | Coerced(vals: seq<Value>)
    | ArgsEof
    | ArgsStarved
    | CoercionFailed(error: Value, at: nat)   // `at`: position of the raw string that failed

  /** Every argument type in `ats` accepts its raw string, read from position `pos` on. */
  ghost predicate AllCoerce(ats: seq<ArgType>, f: Feed<string>, pos: nat, n: nat) {
    && n <= |ats|
    && pos + n <= |f.msgs|
    && forall i :: 0 <= i < n ==> ats[i].coerce(f.msgs[pos + i]).Success?
  }

  /**
    Reads one raw string per argument type, coercing each before the next
    read, as the list comprehension does.
   */
  function ReadArgs(ats: seq<ArgType>, f: Feed<string>, pos: nat): (r: ArgsRead)
    requires pos <= |f.msgs|
    ensures r.Coerced? <==> AllCoerce(ats, f, pos, |ats|)
    ensures r.Coerced? ==> CoercedFrom(ats, f, pos, r.vals)
    ensures r.CoercionFailed? ==> pos <= r.at < pos + |ats| && r.at < |f.msgs|
                                  && ats[r.at - pos].coerce(f.msgs[r.at]) == Failure(r.error)
                                  && AllCoerce(ats, f, pos, r.at - pos)
    ensures r.ArgsEof? ==> f.eof && |f.msgs| < pos + |ats|
    ensures r.ArgsStarved? ==> !f.eof && |f.msgs| < pos + |ats|
    // input runs out only after every string that was there coerced
    ensures r.ArgsEof? || r.ArgsStarved? ==> AllCoerce(ats, f, pos, |f.msgs| - pos)
    decreases |ats|
  {
    if |ats| == 0 then Coerced([])
    else
      match ReadAt(f, pos)
      case Eof => ArgsEof
      case Starved => ArgsStarved
      case Got(raw) =>
        match ats[0].coerce(raw)
        case Failure(e) => CoercionFailed(e, pos)
        case Success(v) =>
          var rest := ReadArgs(ats[1..], f, pos + 1);
          assert forall i :: 1 <= i < |ats| ==> ats[i] == ats[1..][i - 1];
          match rest
          case Coerced(vs) =>
            assert forall i :: 0 <= i < |ats| ==> ats[i].coerce(f.msgs[pos + i]) == Success(([v] + vs)[i]) by {
              forall i | 0 <= i < |ats| ensures ats[i].coerce(f.msgs[pos + i]) == Success(([v] + vs)[i]) {
                if i > 0 { assert f.msgs[pos + i] == f.msgs[(pos + 1) + (i - 1)]; }
              }
            }
            Coerced([v] + vs)
          case _ =>
            rest
  }

  /** `vals` are what the argument types `ats` make of the raw strings from position `pos` on. */
  ghost predicate CoercedFrom(ats: seq<ArgType>, f: Feed<string>, pos: nat, vals: seq<Value>) {
    && |vals| == |ats|
    && pos + |ats| <= |f.msgs|
    && forall i :: 0 <= i < |ats| ==> ats[i].coerce(f.msgs[pos + i]) == Success(vals[i])
  }

  /** One pass through the body of the `while True` loop. */
  datatype Step =
    | Dispatched(call: Invocation, reply: Reply, next: nat)
    | Stopped(tail: seq<PipeEvent<Reply>>, consumed: nat, end: ServeEnd)

  /**
    The loop body when `pos` messages have been consumed and `hist` calls
    served. `mro` is the target's ancestor sequence, which every lookup of
    `_get_sudo_argtypes` recomputes to the same value.
   */
  function StepAt(t: Target, mro: seq<ClassId>, f: Feed<string>, pos: nat, hist: seq<Invocation>): (r: Step)
    requires pos <= |f.msgs|
    // an allowed call consumes exactly its name and one string per argument type, and gets one reply
    ensures r.Dispatched? ==>
              && pos < |f.msgs|
              && !IsCloseRequest(f.msgs[pos])
              && FindArgTypes(t.h, mro, f.msgs[pos]).Some?
              && r.next == pos + 1 + |FindArgTypes(t.h, mro, f.msgs[pos]).value| <= |f.msgs|
              && r.call.name == f.msgs[pos]
              && CoercedFrom(FindArgTypes(t.h, mro, f.msgs[pos]).value, f, pos + 1, r.call.args)
              && r.reply == Pickle(t.behave(hist, r.call))
    ensures r.Dispatched? ==> pos < r.next <= |f.msgs|
    ensures r.Stopped? ==> pos <= r.consumed <= |f.msgs| && r.tail == Farewell(r.end)
    ensures r.Stopped? && r.end == PeerGone ==> f.eof && r.consumed == |f.msgs|
    ensures r.Stopped? && r.end == Waiting ==> !f.eof && r.consumed == |f.msgs|
  {
    match ReadAt(f, pos)
    case Eof => Stopped(Farewell(PeerGone), pos, PeerGone)
    case Starved => Stopped(Farewell(Waiting), pos, Waiting)
    case Got(name) =>
      if IsCloseRequest(name) then
        Stopped(Farewell(ShutDown), pos + 1, ShutDown)
      else
        match FindArgTypes(t.h, mro, name)
        case None => Stopped(Farewell(Aborted(UndefinedName("attr"))), pos + 1, Aborted(UndefinedName("attr")))
        case Some(ats) =>
          match ReadArgs(ats, f, pos + 1)
          case ArgsEof => Stopped(Farewell(PeerGone), |f.msgs|, PeerGone)
          case ArgsStarved => Stopped(Farewell(Waiting), |f.msgs|, Waiting)
          case CoercionFailed(e, at) => Stopped(Farewell(Aborted(CoercionError(e))), at + 1, Aborted(CoercionError(e)))
          case Coerced(vals) =>
            var call := Invocation(name, vals);
            Dispatched(call, Pickle(t.behave(hist, call)), pos + 1 + |ats|)
  }

  /** At the end of input the first read ends the loop: EOF means the peer is gone, no input means waiting. */
  lemma StepAtEndOfInput(t: Target, mro: seq<ClassId>, f: Feed<string>, pos: nat, hist: seq<Invocation>)
    requires pos == |f.msgs|
    ensures StepAt(t, mro, f, pos, hist)
            == Stopped(Farewell(if f.eof then PeerGone else Waiting), pos, if f.eof then PeerGone else Waiting)
  {
  }

  /** "close" is acknowledged and nothing more is read; nothing else shuts the loop down. */
  lemma StepAtShutsDownOnClose(t: Target, mro: seq<ClassId>, f: Feed<string>, pos: nat, hist: seq<Invocation>)
    requires pos <= |f.msgs|
    ensures (pos < |f.msgs| && IsCloseRequest(f.msgs[pos])) <==> StepAt(t, mro, f, pos, hist).Stopped? && StepAt(t, mro, f, pos, hist).end == ShutDown
    ensures pos < |f.msgs| && IsCloseRequest(f.msgs[pos]) ==> StepAt(t, mro, f, pos, hist).consumed == pos + 1
  {
  }

  /**
    A name without an allowlist entry ends the loop with a NameError for
    `attr` instead of a reply, and only such a name does.
   */
  lemma StepAtRejectsUnlisted(t: Target, mro: seq<ClassId>, f: Feed<string>, pos: nat, hist: seq<Invocation>)
    requires pos <= |f.msgs|
    ensures var r := StepAt(t, mro, f, pos, hist);
            (pos < |f.msgs| && !IsCloseRequest(f.msgs[pos]) && FindArgTypes(t.h, mro, f.msgs[pos]).None?)
            <==> r.Stopped? && r.end.Aborted? && r.end.why.UndefinedName?
    ensures var r := StepAt(t, mro, f, pos, hist);
            r.Stopped? && r.end.Aborted? && r.end.why.UndefinedName? ==> r.end.why.name == "attr" && r.consumed == pos + 1
  {
  }

  /**
    After an allowed name, the first raw argument that its type rejects
    ends the loop with that type's exception, once everything up to it is
    read; running out of input while reading arguments ends it as a read of
    the name would.
   */
  lemma StepAtOnBadArguments(t: Target, mro: seq<ClassId>, f: Feed<string>, pos: nat, hist: seq<Invocation>)
    requires pos < |f.msgs| && !IsCloseRequest(f.msgs[pos]) && FindArgTypes(t.h, mro, f.msgs[pos]).Some?
    ensures var a := ReadArgs(FindArgTypes(t.h, mro, f.msgs[pos]).value, f, pos + 1);
            var r := StepAt(t, mro, f, pos, hist);
            && (a.CoercionFailed? ==> r == Stopped(Farewell(Aborted(CoercionError(a.error))), a.at + 1, Aborted(CoercionError(a.error))))
            && (a.ArgsEof? ==> r == Stopped(Farewell(PeerGone), |f.msgs|, PeerGone))
            && (a.ArgsStarved? ==> r == Stopped(Farewell(Waiting), |f.msgs|, Waiting))
  {
  }

  /** An allowed name whose raw arguments all coerce is run and answered. */
  lemma StepAtDispatchesAllowed(t: Target, mro: seq<ClassId>, f: Feed<string>, pos: nat, hist: seq<Invocation>)
    requires pos < |f.msgs| && !IsCloseRequest(f.msgs[pos]) && FindArgTypes(t.h, mro, f.msgs[pos]).Some?
    requires AllCoerce(FindArgTypes(t.h, mro, f.msgs[pos]).value, f, pos + 1, |FindArgTypes(t.h, mro, f.msgs[pos]).value|)
    ensures StepAt(t, mro, f, pos, hist).Dispatched?
  {
  }

  /** The replies written for `calls`, each served after `hist` and the calls before it. */
  function Replies(t: Target, hist: seq<Invocation>, calls: seq<Invocation>): seq<PipeEvent<Reply>>
    decreases |calls|
  {
    if |calls| == 0 then []
    else [Wrote(Pickle(t.behave(hist, calls[0])))] + Replies(t, hist + [calls[0]], calls[1..])
  }

  /** The first call's reply comes first, and the rest are served after it. */
  lemma RepliesCons(t: Target, hist: seq<Invocation>, c: Invocation, calls: seq<Invocation>)
    ensures Replies(t, hist, [c] + calls) == [Wrote(Pickle(t.behave(hist, c)))] + Replies(t, hist + [c], calls)
  {
    assert ([c] + calls)[0] == c && ([c] + calls)[1..] == calls;
  }

  /** One reply per call, and none of them closes the pipe. */
  lemma {:induction false} RepliesCount(t: Target, hist: seq<Invocation>, calls: seq<Invocation>)
    ensures |Replies(t, hist, calls)| == |calls|
    ensures CloseCount(Replies(t, hist, calls)) == 0
    decreases |calls|
  {
    if |calls| > 0 {
      RepliesCount(t, hist + [calls[0]], calls[1..]);
      WrittenAppend([Wrote(Pickle(t.behave(hist, calls[0])))], Replies(t, hist + [calls[0]], calls[1..]));
    }
  }

  /**
    The replies come in call order: the i-th is the pickled outcome of the
    i-th call, run after all the calls before it.
   */
  lemma {:induction false} RepliesInCallOrder(t: Target, hist: seq<Invocation>, calls: seq<Invocation>, i: nat)
    requires i < |calls|
    ensures |Replies(t, hist, calls)| == |calls|
    ensures Replies(t, hist, calls)[i] == Wrote(Pickle(t.behave(hist + calls[..i], calls[i])))
    decreases i
  {
    RepliesCount(t, hist, calls);
    if i == 0 {
      assert hist + calls[..0] == hist;
    } else {
      RepliesInCallOrder(t, hist + [calls[0]], calls[1..], i - 1);
      assert calls[1..][i - 1] == calls[i];
      assert (hist + [calls[0]]) + calls[1..][..i - 1] == hist + calls[..i];
    }
  }

  /** The messages carried by the replies: the i-th is the pickled outcome of the i-th call. */
  lemma {:induction false} RepliesWritten(t: Target, hist: seq<Invocation>, calls: seq<Invocation>)
    ensures |Written(Replies(t, hist, calls))| == |calls|
    ensures forall i :: 0 <= i < |calls| ==> Written(Replies(t, hist, calls))[i] == Pickle(t.behave(hist + calls[..i], calls[i]))
    decreases |calls|
  {
    if |calls| > 0 {
      var tail := Replies(t, hist + [calls[0]], calls[1..]);
      RepliesWritten(t, hist + [calls[0]], calls[1..]);
      WrittenAppend([Wrote(Pickle(t.behave(hist, calls[0])))], tail);
      assert Written(Replies(t, hist, calls)) == [Pickle(t.behave(hist, calls[0]))] + Written(tail);
      forall i | 0 <= i < |calls|
        ensures Written(Replies(t, hist, calls))[i] == Pickle(t.behave(hist + calls[..i], calls[i]))
      {
        if i == 0 {
          assert hist + calls[..0] == hist;
        } else {
          assert calls[1..][i - 1] == calls[i];
          assert (hist + [calls[0]]) + calls[1..][..i - 1] == hist + calls[..i];
        }
      }
    }
  }

  /** The result of the serve loop. */
  datatype Served = Served(log: seq<PipeEvent<Reply>>, consumed: nat, calls: seq<Invocation>, end: ServeEnd)

  /**
    The `while True` loop from position `pos`, with `hist` already served.
    What it writes, which calls it runs and how it ends are stated by the
    lemmas below.
   */
  function Loop(t: Target, mro: seq<ClassId>, f: Feed<string>, pos: nat, hist: seq<Invocation>): (r: Served)
    requires pos <= |f.msgs|
    ensures pos <= r.consumed <= |f.msgs|
    decreases |f.msgs| - pos
  {
    var step := StepAt(t, mro, f, pos, hist);
    if step.Stopped? then
      Served(step.tail, step.consumed, [], step.end)
    else
      var rest := Loop(t, mro, f, step.next, hist + [step.call]);
      Served([Wrote(step.reply)] + rest.log, rest.consumed, [step.call] + rest.calls, rest.end)
  }

  /**
    The loop from `pos`, after `hist`, reads `calls` off the feed in order:
    each call's name is the next message, is not "close" and has an
    allowlist entry, and its arguments are what the declared types make of
    the strings after it. The step after the last call stops, having
    consumed `consumed` messages, and ends as `end`.
   */
  ghost predicate ReadAsCalls(t: Target, mro: seq<ClassId>, f: Feed<string>, pos: nat, hist: seq<Invocation>,
                              calls: seq<Invocation>, consumed: nat, end: ServeEnd)
    decreases |calls|
  {
    && pos <= |f.msgs|
    && if |calls| == 0 then
         StepAt(t, mro, f, pos, hist) == Stopped(Farewell(end), consumed, end)
       else
         && pos < |f.msgs|
         && f.msgs[pos] == calls[0].name
         && !IsCloseRequest(calls[0].name)
         && FindArgTypes(t.h, mro, calls[0].name).Some?
         && CoercedFrom(FindArgTypes(t.h, mro, calls[0].name).value, f, pos + 1, calls[0].args)
         && ReadAsCalls(t, mro, f, pos + 1 + |FindArgTypes(t.h, mro, calls[0].name).value|, hist + [calls[0]],
                        calls[1..], consumed, end)
  }

  /** The calls the loop runs are exactly the requests it reads from the feed, and it stops on the step after them. */
  lemma {:induction false} LoopReadsFeed(t: Target, mro: seq<ClassId>, f: Feed<string>, pos: nat, hist: seq<Invocation>)
    requires pos <= |f.msgs|
    ensures var r := Loop(t, mro, f, pos, hist);
            ReadAsCalls(t, mro, f, pos, hist, r.calls, r.consumed, r.end)
    decreases |f.msgs| - pos
  {
    match StepAt(t, mro, f, pos, hist)
    case Stopped(_, _, _) =>
    case Dispatched(call, _, next) =>
      LoopReadsFeed(t, mro, f, next, hist + [call]);
      var rest := Loop(t, mro, f, next, hist + [call]);
      assert ([call] + rest.calls)[0] == call && ([call] + rest.calls)[1..] == rest.calls;
  }

  /** Reading "close" ends the loop at once: it acknowledges, closes and has consumed just that request. */
  lemma LoopOnClose(t: Target, mro: seq<ClassId>, f: Feed<string>, pos: nat, hist: seq<Invocation>)
    requires pos < |f.msgs| && IsCloseRequest(f.msgs[pos])
    ensures Loop(t, mro, f, pos, hist) == Served(Farewell(ShutDown), pos + 1, [], ShutDown)
  {
    StepAtShutsDownOnClose(t, mro, f, pos, hist);
  }

  /** After a dispatched call the loop writes its reply and goes on from the next request, with that call added to the history. */
  lemma LoopAfterDispatch(t: Target, mro: seq<ClassId>, f: Feed<string>, pos: nat, hist: seq<Invocation>,
                          call: Invocation, reply: Reply, next: nat)
    requires pos <= |f.msgs| && StepAt(t, mro, f, pos, hist) == Dispatched(call, reply, next)
    ensures next <= |f.msgs|
    ensures var rest := Loop(t, mro, f, next, hist + [call]);
            Loop(t, mro, f, pos, hist) == Served([Wrote(reply)] + rest.log, rest.consumed, [call] + rest.calls, rest.end)
  {
  }

  /** The loop writes one reply per served call, in order, then the farewell of how it ended. */
  lemma {:induction false} LoopTranscript(t: Target, mro: seq<ClassId>, f: Feed<string>, pos: nat, hist: seq<Invocation>)
    requires pos <= |f.msgs|
    ensures var r := Loop(t, mro, f, pos, hist);
            r.log == Replies(t, hist, r.calls) + Farewell(r.end)
    decreases |f.msgs| - pos
  {
    match StepAt(t, mro, f, pos, hist)
    case Stopped(_, _, _) =>
    case Dispatched(call, _, next) =>
      LoopTranscript(t, mro, f, next, hist + [call]);
      RepliesCons(t, hist, call, Loop(t, mro, f, next, hist + [call]).calls);
  }

  /** The loop runs only methods the target's classes allow, and never one named "close". */
  lemma {:induction false} LoopRunsOnlyAllowed(t: Target, mro: seq<ClassId>, f: Feed<string>, pos: nat, hist: seq<Invocation>)
    requires pos <= |f.msgs|
    ensures forall c <- Loop(t, mro, f, pos, hist).calls :: !IsCloseRequest(c.name) && FindArgTypes(t.h, mro, c.name).Some?
    decreases |f.msgs| - pos
  {
    match StepAt(t, mro, f, pos, hist)
    case Stopped(_, _, _) =>
    case Dispatched(call, _, next) =>
      LoopRunsOnlyAllowed(t, mro, f, next, hist + [call]);
      assert Loop(t, mro, f, pos, hist).calls == [call] + Loop(t, mro, f, next, hist + [call]).calls;
  }

  /** A loop that shut down did so on reading "close", and read nothing after it. */
  lemma {:induction false} ShutDownFollowsClose(t: Target, mro: seq<ClassId>, f: Feed<string>, pos: nat, hist: seq<Invocation>)
    requires pos <= |f.msgs|
    ensures var r := Loop(t, mro, f, pos, hist);
            r.end == ShutDown ==> r.consumed > pos && IsCloseRequest(f.msgs[r.consumed - 1])
    decreases |f.msgs| - pos
  {
    match StepAt(t, mro, f, pos, hist)
    case Stopped(_, _, _) =>
      StepAtShutsDownOnClose(t, mro, f, pos, hist);
    case Dispatched(call, _, next) =>
      ShutDownFollowsClose(t, mro, f, next, hist + [call]);
  }

  /**
    The raw string just before position `consumed` is an argument of the
    allowed call whose name was read at `q`: the arguments before it
    coerced, and its own declared type rejects it with `e`.
   */
  ghost predicate RejectedArgument(h: Hierarchy, mro: seq<ClassId>, f: Feed<string>, q: nat, consumed: nat, e: Value) {
    && q + 1 < consumed <= |f.msgs|
    && !IsCloseRequest(f.msgs[q])
    && FindArgTypes(h, mro, f.msgs[q]).Some?
    && consumed - 1 - (q + 1) < |FindArgTypes(h, mro, f.msgs[q]).value|
    && AllCoerce(FindArgTypes(h, mro, f.msgs[q]).value, f, q + 1, consumed - 1 - (q + 1))
    && FindArgTypes(h, mro, f.msgs[q]).value[consumed - 1 - (q + 1)].coerce(f.msgs[consumed - 1]) == Failure(e)
  }

  /** How a step that aborts read its last message: an unlisted name, or an argument its type rejects. */
  ghost predicate AbortedOnLastRead(h: Hierarchy, mro: seq<ClassId>, f: Feed<string>, pos: nat, consumed: nat, why: Abort) {
    && pos < consumed <= |f.msgs|
    && (why.UndefinedName? ==>
          why.name == "attr" && !IsCloseRequest(f.msgs[consumed - 1]) && FindArgTypes(h, mro, f.msgs[consumed - 1]).None?)
    && (why.CoercionError? ==>
          exists q {:trigger RejectedArgument(h, mro, f, q, consumed, why.error)} ::
            pos <= q && RejectedArgument(h, mro, f, q, consumed, why.error))
  }

  /** A step aborts only on an unlisted name or on an argument its declared type rejects. */
  lemma StepAtAbortsOnRejection(t: Target, mro: seq<ClassId>, f: Feed<string>, pos: nat, hist: seq<Invocation>)
    requires pos <= |f.msgs|
    ensures var r := StepAt(t, mro, f, pos, hist);
            r.Stopped? && r.end.Aborted? ==> AbortedOnLastRead(t.h, mro, f, pos, r.consumed, r.end.why)
  {
    var r := StepAt(t, mro, f, pos, hist);
    StepAtRejectsUnlisted(t, mro, f, pos, hist);
    if r.Stopped? && r.end.Aborted? && r.end.why.CoercionError? {
      StepAtOnBadArguments(t, mro, f, pos, hist);
      assert RejectedArgument(t.h, mro, f, pos, r.consumed, r.end.why.error);
    }
  }

  /** A loop that aborted did so on the last message it read, as a single step does. */
  lemma {:induction false} AbortFollowsRejection(t: Target, mro: seq<ClassId>, f: Feed<string>, pos: nat, hist: seq<Invocation>)
    requires pos <= |f.msgs|
    ensures var r := Loop(t, mro, f, pos, hist);
            r.end.Aborted? ==> AbortedOnLastRead(t.h, mro, f, pos, r.consumed, r.end.why)
    decreases |f.msgs| - pos
  {
    match StepAt(t, mro, f, pos, hist)
    case Stopped(_, _, _) =>
      StepAtAbortsOnRejection(t, mro, f, pos, hist);
    case Dispatched(call, _, next) =>
      AbortFollowsRejection(t, mro, f, next, hist + [call]);
      var r := Loop(t, mro, f, next, hist + [call]);
      if r.end.Aborted? && r.end.why.CoercionError? {
        var q :| next <= q && RejectedArgument(t.h, mro, f, q, r.consumed, r.end.why.error);
        assert pos <= q;
      }
  }

  /**
    A loop that lost its peer or is still waiting has consumed all input;
    which of the two it is depends only on whether the input was closed.
   */
  lemma {:induction false} StarvedLoopReadEverything(t: Target, mro: seq<ClassId>, f: Feed<string>, pos: nat, hist: seq<Invocation>)
    requires pos <= |f.msgs|
    ensures var r := Loop(t, mro, f, pos, hist);
            && (r.end == PeerGone ==> f.eof && r.consumed == |f.msgs|)
            && (r.end == Waiting ==> !f.eof && r.consumed == |f.msgs|)
    decreases |f.msgs| - pos
  {
    match StepAt(t, mro, f, pos, hist)
    case Stopped(_, _, _) =>
    case Dispatched(call, _, next) =>
      StarvedLoopReadEverything(t, mro, f, next, hist + [call]);
  }

  /** What the loop lemmas say about the loop `run` starts, gathered for `Run`. */
  lemma LoopFromStart(t: Target, mro: seq<ClassId>, f: Feed<string>)
    ensures var s := Loop(t, mro, f, 0, []);
            && s.log == Replies(t, [], s.calls) + Farewell(s.end)
            && (forall c <- s.calls :: !IsCloseRequest(c.name) && FindArgTypes(t.h, mro, c.name).Some?)
            && (s.end == ShutDown ==> s.consumed > 0 && IsCloseRequest(f.msgs[s.consumed - 1]))
            && (s.end == PeerGone ==> f.eof && s.consumed == |f.msgs|)
            && (s.end == Waiting ==> !f.eof && s.consumed == |f.msgs|)
            && (s.end.Aborted? ==> AbortedOnLastRead(t.h, mro, f, 0, s.consumed, s.end.why))
            && ReadAsCalls(t, mro, f, 0, [], s.calls, s.consumed, s.end)
  {
    LoopTranscript(t, mro, f, 0, []);
    LoopRunsOnlyAllowed(t, mro, f, 0, []);
    ShutDownFollowsClose(t, mro, f, 0, []);
    StarvedLoopReadEverything(t, mro, f, 0, []);
    AbortFollowsRejection(t, mro, f, 0, []);
    LoopReadsFeed(t, mro, f, 0, []);
  }

  /** The result of `run`: the target as left by it and everything the loop did. */
  datatype RunResult = RunResult(target: Target, log: seq<PipeEvent<Reply>>, consumed: nat, calls: seq<Invocation>, end: ServeEnd)

  /**
    `SudoProxy.run(pipe)`: clears the target's `sudo_proxy`, writes "READY"
    before reading anything, then serves calls until the loop ends.
   */
  function Run(t: Target, f: Feed<string>): (r: RunResult)
    ensures r.target == t.(hasProxy := false)
    ensures r.consumed <= |f.msgs|
    ensures r.log == [Wrote(ReadyReply)] + Replies(r.target, [], r.calls) + Farewell(r.end)
    ensures forall c <- r.calls :: !IsCloseRequest(c.name) && ArgTypesOf(r.target, c.name).Some?
    ensures r.end == ShutDown ==> r.consumed > 0 && IsCloseRequest(f.msgs[r.consumed - 1])
    ensures r.end == PeerGone ==> f.eof && r.consumed == |f.msgs|
    ensures r.end == Waiting ==> !f.eof && r.consumed == |f.msgs|
    // it aborts only on the last message it read: a name with no allowlist entry, or a rejected argument
    ensures r.end.Aborted? ==> AbortedOnLastRead(t.h, GetMro(t.h, t.cls), f, 0, r.consumed, r.end.why)
    // the calls it runs are the requests in the feed, read in order, and the step after them stops it
    ensures ReadAsCalls(r.target, GetMro(t.h, t.cls), f, 0, [], r.calls, r.consumed, r.end)
  {
    var elevated := t.(hasProxy := false);
    var mro := GetMro(t.h, t.cls);
    var s := Loop(elevated, mro, f, 0, []);
    LoopFromStart(elevated, mro, f);
    RunResult(elevated, [Wrote(ReadyReply)] + s.log, s.consumed, s.calls, s.end)
  }

  /** A "close" read as the first method name shuts `run` down before any call: it writes "READY", "CLOSING" and closes. */
  lemma RunShutsDownOnLeadingClose(t: Target, f: Feed<string>)
    requires 0 < |f.msgs| && IsCloseRequest(f.msgs[0])
    ensures var r := Run(t, f);
            r.calls == [] && r.consumed == 1 && r.end == ShutDown
            && r.log == [Wrote(ReadyReply), Wrote(ClosingReply), Closed]
  {
    var r := Run(t, f);
    StepAtShutsDownOnClose(r.target, GetMro(t.h, t.cls), f, 0, []);
  }

  /**
    Every exit of `run` closes the pipe exactly once; only a read that never
    returns leaves it open.
   */
  lemma RunClosesOnce(t: Target, f: Feed<string>)
    ensures var r := Run(t, f);
            CloseCount(r.log) == (if r.end == Waiting then 0 else 1)
  {
    var r := Run(t, f);
    var replies := Replies(r.target, [], r.calls);
    RepliesCount(r.target, [], r.calls);
    WrittenAppend([Wrote(ReadyReply)], replies);
    WrittenAppend([Wrote(ReadyReply)] + replies, Farewell(r.end));
    var fw := Farewell(r.end);
    if r.end == ShutDown {
      assert fw[1..][1..] == [];
    } else if r.end != Waiting {
      assert fw[1..] == [];
    }
  }

  /** Closing the pipe is the last thing `run` does, whenever it returns. */
  lemma RunClosesLast(t: Target, f: Feed<string>)
    ensures var r := Run(t, f);
            r.end != Waiting <==> r.log[|r.log| - 1] == Closed
  {
    var r := Run(t, f);
    var replies := Replies(r.target, [], r.calls);
    if r.end == Waiting {
      assert r.log == [Wrote(ReadyReply)] + replies;
      if |r.calls| > 0 {
        RepliesInCallOrder(r.target, [], r.calls, |r.calls| - 1);
        assert r.log[|r.log| - 1] == replies[|replies| - 1];
      }
    }
  }

  /**
    What `run` writes: "READY", one reply per served call and, after a
    "close" request, "CLOSING".
   */
  lemma RunWrites(t: Target, f: Feed<string>)
    ensures var r := Run(t, f);
            Written(r.log) == [ReadyReply] + Written(Replies(r.target, [], r.calls))
                              + (if r.end == ShutDown then [ClosingReply] else [])
  {
    var r := Run(t, f);
    var replies := Replies(r.target, [], r.calls);
    WrittenAppend([Wrote(ReadyReply)], replies);
    WrittenAppend([Wrote(ReadyReply)] + replies, Farewell(r.end));
    var fw := Farewell(r.end);
    if r.end == ShutDown {
      assert fw[1..][1..] == [];
    } else if r.end != Waiting {
      assert fw[1..] == [];
    }
  }
}
