/**
  Both ends together: the unprivileged side's checks and requests against
  the serve loop of the elevated copy. The requests one side writes are
  the feed the other side reads, and the replies the elevated side writes
  are what the unprivileged side reads back.
 */
module Session {
  import opened Wrappers
  import opened Values
  import opened Pipe
  import opened Classes
  import opened Mro
  import opened Allowlist
  import opened Dispatcher
  import opened Proxy
  import opened Decorator

  /** The elevated copy `run` serves: the same object and class graph, without a proxy. */
  function Elevated(t: Target): (e: Target)
    ensures !e.hasProxy && e.h == t.h && e.cls == t.cls && e.behave == t.behave
  {
    t.(hasProxy := false)
  }

  /** Both sides look a name up in the same class graph, so they find the same argument types. */
  lemma SameAllowlistOnBothSides(t: Target, name: string)
    ensures ArgTypesOf(Elevated(t), name) == ArgTypesOf(t, name)
    ensures forall f: Feed<string> :: Run(t, f).target == Elevated(t)
  {
  }

  /** `run` rejected the message it read at this step as a method with no allowlist entry. */
  predicate RejectedByServer(s: Step) {
    s.Stopped? && s.end.Aborted? && s.end.why.UndefinedName?
  }

  /**
    For a name that is neither private nor "close", the unprivileged side
    hands out a wrapper exactly when the elevated side would not reject the
    name: the two checks agree.
   */
  lemma ClientAndServerChecksAgree(t: Target, name: string, f: Feed<string>, pos: nat, hist: seq<Invocation>)
    requires pos < |f.msgs| && f.msgs[pos] == name
    requires !IsPrivateName(name) && !IsCloseRequest(name)
    ensures GetAttr(t, name).Ok? <==> !RejectedByServer(StepAt(Elevated(t), GetMro(t.h, t.cls), f, pos, hist))
  {
    SameAllowlistOnBothSides(t, name);
    StepAtRejectsUnlisted(Elevated(t), GetMro(t.h, t.cls), f, pos, hist);
  }

  /**
    The checks are not symmetric: a private name with an allowlist entry is
    refused by `__getattr__` but would be served by `run`.
   */
  lemma PrivateNamesOnlyRefusedByClient(t: Target, name: string, f: Feed<string>, pos: nat, hist: seq<Invocation>)
    requires pos < |f.msgs| && f.msgs[pos] == name
    requires IsPrivateName(name) && ArgTypesOf(t, name).Some?
    ensures GetAttr(t, name) == Raise(AttributeError(name))
    ensures !RejectedByServer(StepAt(Elevated(t), GetMro(t.h, t.cls), f, pos, hist))
  {
    SameAllowlistOnBothSides(t, name);
    StepAtRejectsUnlisted(Elevated(t), GetMro(t.h, t.cls), f, pos, hist);
    assert !IsCloseRequest(name) by {
      assert name[0] == '_';
      assert CloseRequest[0] == 'c';
    }
  }

  /**
    A decorated method whose function is named "close", called with a
    proxy and no arguments, finds `SudoProxy.close` rather than a wrapper:
    the method itself never runs. The caller writes "close", reads the
    reply without unpickling it, closes the pipe and gets None; `run`,
    reading that "close", shuts down.
   */
  lemma DecoratedCloseShutsDownServer(t: Target, name: string, hist: seq<Invocation>, replies: Feed<Reply>, pos: nat,
                                      rest: seq<string>, eof: bool)
    requires IsDecorated(t, name) && t.hasProxy && FuncName(t, name) == CloseRequest
    requires pos < |replies.msgs|
    ensures var client := Invoke(t, name, [], hist, replies, pos);
            && client == Exchange([Wrote(CloseRequest), Closed], pos + 1, Ok(NoneValue))
            && StepAt(Elevated(t), GetMro(t.h, t.cls), Feed(Written(client.log) + rest, eof), 0, hist)
               == Stopped(Farewell(ShutDown), 1, ShutDown)
  {
    var client := Invoke(t, name, [], hist, replies, pos);
    var f := Feed(Written(client.log) + rest, eof);
    var tail: seq<PipeEvent<string>> := [Closed];
    assert tail[1..] == [];
    assert Written(tail) == [];
    assert client.log[1..] == tail;
    assert Written(client.log) == [CloseRequest];
    assert f.msgs[0] == CloseRequest;
    StepAtShutsDownOnClose(Elevated(t), GetMro(t.h, t.cls), f, 0, hist);
  }

  /** Every argument type turns the `str` of its argument back into the argument. */
  ghost predicate Transparent(ats: seq<ArgType>, args: seq<Value>) {
    && |ats| == |args|
    && forall i :: 0 <= i < |args| ==> ats[i].coerce(PyStr(args[i])) == Success(args[i])
  }

  /** `str` arguments with `str` argument types cross the pipe unchanged. */
  lemma StrArgumentsAreTransparent(ats: seq<ArgType>, args: seq<Value>)
    requires |ats| == |args|
    requires forall i :: 0 <= i < |ats| ==> ats[i] == StrArg && args[i].Str?
    ensures Transparent(ats, args)
  {
    forall i | 0 <= i < |args| ensures ats[i].coerce(PyStr(args[i])) == Success(args[i]) {
      assert PyStr(args[i]) == args[i].s;
    }
  }

  /** A call the elevated side serves as sent: an allowed name other than "close", with arguments that survive the trip. */
  ghost predicate ServedAsSent(t: Target, mro: seq<ClassId>, c: Invocation) {
    && !IsCloseRequest(c.name)
    && FindArgTypes(t.h, mro, c.name).Some?
    && Transparent(FindArgTypes(t.h, mro, c.name).value, c.args)
  }

  /**
    A call the caller can also make through a wrapper that sends the call's
    own name: the name is neither private nor an attribute of the proxy
    itself, and the attribute found is a function of that name.
   */
  ghost predicate Forwardable(t: Target, mro: seq<ClassId>, c: Invocation) {
    && !IsPrivateName(c.name)
    && !IsProxyAttribute(c.name)
    && ResolveAttr(t.h, mro, c.name).Some?
    && ResolveAttr(t.h, mro, c.name).value.funcName == c.name
    && ServedAsSent(t, mro, c)
  }

  /** The feed holds the request for `c` from position `pos` on. */
  ghost predicate Carries(f: Feed<string>, pos: nat, c: Invocation) {
    && pos + 1 + |c.args| <= |f.msgs|
    && f.msgs[pos] == c.name
    && forall i :: 0 <= i < |c.args| ==> f.msgs[pos + 1 + i] == PyStr(c.args[i])
  }

  /** Coercion is a function of the raw string, so two coercions of the same strings agree. */
  lemma CoercedArgsAreTheArgs(ats: seq<ArgType>, f: Feed<string>, pos: nat, c: Invocation, vals: seq<Value>)
    requires Carries(f, pos, c) && Transparent(ats, c.args) && CoercedFrom(ats, f, pos + 1, vals)
    ensures vals == c.args
  {
    forall i | 0 <= i < |vals| ensures vals[i] == c.args[i] {
      assert ats[i].coerce(f.msgs[pos + 1 + i]) == Success(vals[i]);
    }
  }

  /**
    The round trip of one call: the elevated side reads exactly the request
    the wrapper wrote, runs the very invocation the caller made, and writes
    the pickled outcome.
   */
  lemma ServerRunsTheForwardedCall(t: Target, mro: seq<ClassId>, f: Feed<string>, pos: nat, hist: seq<Invocation>, c: Invocation)
    requires Carries(f, pos, c) && ServedAsSent(t, mro, c)
    ensures StepAt(t, mro, f, pos, hist) == Dispatched(c, Pickle(t.behave(hist, c)), pos + 1 + |c.args|)
  {
    var ats := FindArgTypes(t.h, mro, c.name).value;
    assert AllCoerce(ats, f, pos + 1, |ats|) by {
      forall i | 0 <= i < |ats| ensures ats[i].coerce(f.msgs[pos + 1 + i]).Success? {
        assert f.msgs[pos + 1 + i] == PyStr(c.args[i]);
      }
    }
    StepAtDispatchesAllowed(t, mro, f, pos, hist);
    var step := StepAt(t, mro, f, pos, hist);
    CoercedArgsAreTheArgs(ats, f, pos, c, step.call.args);
  }

  /** A forwardable call has a wrapper: `__getattr__` on its name hands out one that sends that name. */
  lemma ForwardableCallHasWrapper(t: Target, c: Invocation)
    requires Forwardable(t, GetMro(t.h, t.cls), c)
    ensures GetAttr(t, c.name) == Ok(Forwarder(c.name))
  {
  }

  /** What the caller gets back from a pickled outcome is what running the method here would give. */
  lemma UnpickleInvertsPickle(o: CallOutcome)
    ensures Unpickle(Got(Pickle(o))) == Local(o)
  {
  }

  /**
    One forwarded call from end to end: `run`, fed the request the wrapper
    writes, runs exactly the invocation the caller made, after `hist`; and
    when the caller reads that reply back it gets the outcome the method
    has when run locally after `hist`.
   */
  lemma ForwardedCallBehavesLikeLocalCall(t: Target, name: string, args: seq<Value>, hist: seq<Invocation>,
                                          replies: Feed<Reply>, pos: nat, rest: seq<string>, eof: bool)
    requires t.hasProxy && IsDecorated(t, name)
    requires Forwardable(t, GetMro(t.h, t.cls), Invocation(name, args))
    ensures var client := Invoke(t, name, args, hist, replies, pos);
            var step := StepAt(Elevated(t), GetMro(t.h, t.cls), Feed(Written(client.log) + rest, eof), 0, hist);
            && step == Dispatched(Invocation(name, args), Pickle(t.behave(hist, Invocation(name, args))), |Written(client.log)|)
            && (ReadAt(replies, pos) == Got(step.reply) ==> client.outcome == Local(t.behave(hist, Invocation(name, args))))
  {
    var c := Invocation(name, args);
    var client := Invoke(t, name, args, hist, replies, pos);
    ProxiedCallIsForwarded(t, name, args, hist, replies, pos);
    var f := Feed(Written(client.log) + rest, eof);
    assert Carries(f, 0, c) by {
      forall i | 0 <= i < |args| ensures f.msgs[1 + i] == PyStr(args[i]) {
        assert f.msgs[1 + i] == Request(Forwarder(name), args)[1 + i];
      }
    }
    ServerRunsTheForwardedCall(Elevated(t), GetMro(t.h, t.cls), f, 0, hist, c);
    UnpickleInvertsPickle(t.behave(hist, c));
  }

  /** Everything a caller writes for `calls`, one request after another. */
  function Wire(calls: seq<Invocation>): seq<string>
    decreases |calls|
  {
    if |calls| == 0 then []
    else Request(Forwarder(calls[0].name), calls[0].args) + Wire(calls[1..])
  }

  /** From position `pos` on, the feed holds the requests for `calls`, one after another, then "close". */
  ghost predicate CarriesSession(f: Feed<string>, pos: nat, calls: seq<Invocation>)
    decreases |calls|
  {
    if |calls| == 0 then pos < |f.msgs| && IsCloseRequest(f.msgs[pos])
    else Carries(f, pos, calls[0]) && CarriesSession(f, pos + 1 + |calls[0].args|, calls[1..])
  }

  /** A request placed after `pre` is carried from position `|pre|` on. */
  lemma RequestIsCarried(pre: seq<string>, c: Invocation, tail: seq<string>, eof: bool)
    ensures Carries(Feed(pre + Request(Forwarder(c.name), c.args) + tail, eof), |pre|, c)
  {
    var req := Request(Forwarder(c.name), c.args);
    var msgs := pre + req + tail;
    forall i | 0 <= i < |c.args| ensures msgs[|pre| + 1 + i] == PyStr(c.args[i]) {
      assert msgs[|pre| + 1 + i] == req[1 + i];
    }
  }

  /** Everything a caller writes in a session: the requests for `calls`, then "close". */
  function SessionWire(calls: seq<Invocation>): seq<string>
    decreases |calls|
  {
    if |calls| == 0 then [CloseRequest]
    else Request(Forwarder(calls[0].name), calls[0].args) + SessionWire(calls[1..])
  }

  lemma Regroup<T>(a: seq<T>, b: seq<T>, c: seq<T>, d: seq<T>)
    ensures a + (b + c) + d == (a + b) + c + d
  {
  }

  /** A session's messages are the requests for its calls followed by "close". */
  lemma {:induction false} SessionWireIsWire(calls: seq<Invocation>)
    ensures SessionWire(calls) == Wire(calls) + [CloseRequest]
    decreases |calls|
  {
    if |calls| > 0 {
      SessionWireIsWire(calls[1..]);
      Regroup([], Request(Forwarder(calls[0].name), calls[0].args), Wire(calls[1..]), [CloseRequest]);
    }
  }

  /** The caller's requests for `calls`, then "close", are a session in the feed, wherever they start. */
  lemma {:induction false} WireCarriesSession(pre: seq<string>, calls: seq<Invocation>, rest: seq<string>, eof: bool)
    ensures CarriesSession(Feed(pre + SessionWire(calls) + rest, eof), |pre|, calls)
    decreases |calls|
  {
    var f := Feed(pre + SessionWire(calls) + rest, eof);
    if |calls| == 0 {
      assert f.msgs[|pre|] == CloseRequest;
    } else {
      var c := calls[0];
      var req := Request(Forwarder(c.name), c.args);
      Regroup(pre, req, SessionWire(calls[1..]), rest);
      RequestIsCarried(pre, c, SessionWire(calls[1..]) + rest, eof);
      assert pre + req + (SessionWire(calls[1..]) + rest) == f.msgs;
      WireCarriesSession(pre + req, calls[1..], rest, eof);
    }
  }

  /** The number of messages the requests for `calls` take. */
  function WireLength(calls: seq<Invocation>): nat
    decreases |calls|
  {
    if |calls| == 0 then 0 else 1 + |calls[0].args| + WireLength(calls[1..])
  }

  lemma {:induction false} WireLengthIsLength(calls: seq<Invocation>)
    ensures |Wire(calls)| == WireLength(calls)
    decreases |calls|
  {
    if |calls| > 0 {
      WireLengthIsLength(calls[1..]);
    }
  }

  /**
    Fed a session, the loop serves every one of its calls, in order, then
    shuts down right after "close".
   */
  lemma {:induction false} LoopServesSession(t: Target, mro: seq<ClassId>, f: Feed<string>, pos: nat,
                                             calls: seq<Invocation>, hist: seq<Invocation>)
    requires pos <= |f.msgs|
    requires CarriesSession(f, pos, calls) && forall c <- calls :: ServedAsSent(t, mro, c)
    ensures Loop(t, mro, f, pos, hist).calls == calls
    ensures Loop(t, mro, f, pos, hist).end == ShutDown
    ensures Loop(t, mro, f, pos, hist).consumed == pos + WireLength(calls) + 1
    decreases |calls|
  {
    if |calls| == 0 {
      LoopOnClose(t, mro, f, pos, hist);
    } else {
      var c := calls[0];
      var next := pos + 1 + |c.args|;
      ServerRunsTheForwardedCall(t, mro, f, pos, hist, c);
      LoopAfterDispatch(t, mro, f, pos, hist, c, Pickle(t.behave(hist, c)), next);
      LoopServesSession(t, mro, f, next, calls[1..], hist + [c]);
      assert [c] + calls[1..] == calls;
    }
  }

  /**
    `run` fed a session: it greets, writes one reply per call, in order,
    each the outcome of running that call after the calls before it, then
    acknowledges "close" and closes.
   */
  lemma RunServesSession(t: Target, f: Feed<string>, calls: seq<Invocation>)
    requires CarriesSession(f, 0, calls)
    requires forall c <- calls :: ServedAsSent(t, GetMro(t.h, t.cls), c)
    ensures Run(t, f).end == ShutDown
    ensures Run(t, f).calls == calls
    ensures Run(t, f).consumed == WireLength(calls) + 1
    ensures Run(t, f).log == [Wrote(ReadyReply)] + Replies(Elevated(t), [], calls) + [Wrote(ClosingReply), Closed]
  {
    var mro := GetMro(t.h, t.cls);
    assert forall c <- calls :: ServedAsSent(Elevated(t), mro, c) by {
      forall c <- calls ensures ServedAsSent(Elevated(t), mro, c) {
        assert ServedAsSent(t, mro, c);
      }
    }
    LoopServesSession(Elevated(t), mro, f, 0, calls, []);
  }

  /**
    The replies `run` writes for a session of `calls`: "READY", then the
    pickled outcome of each call run after the calls before it, then
    "CLOSING".
   */
  ghost predicate SessionReplies(t: Target, calls: seq<Invocation>, w: seq<Reply>) {
    && |w| == |calls| + 2
    && w[0] == ReadyReply
    && w[|calls| + 1] == ClosingReply
    && forall i :: 0 <= i < |calls| ==> w[1 + i] == Pickle(t.behave(calls[..i], calls[i]))
  }

  /** What `run` writes when fed a whole session, and that it shuts down on the "close". */
  lemma ServerWritesSession(t: Target, calls: seq<Invocation>)
    requires forall c <- calls :: ServedAsSent(t, GetMro(t.h, t.cls), c)
    ensures Run(t, Feed(SessionWire(calls), true)).end == ShutDown
    ensures SessionReplies(t, calls, Written(Run(t, Feed(SessionWire(calls), true)).log))
  {
    var f := Feed(SessionWire(calls), true);
    WireCarriesSession([], calls, [], true);
    assert [] + SessionWire(calls) + [] == f.msgs;
    RunServesSession(t, f, calls);
    ShutDownRunWritesSessionReplies(t, f, calls);
  }

  /** A `run` that served `calls` and shut down wrote the replies of a session of `calls`. */
  lemma ShutDownRunWritesSessionReplies(t: Target, f: Feed<string>, calls: seq<Invocation>)
    requires Run(t, f).end == ShutDown && Run(t, f).calls == calls
    ensures SessionReplies(t, calls, Written(Run(t, f).log))
  {
    RunWrites(t, f);
    var answers := Written(Replies(Elevated(t), [], calls));
    RepliesWritten(Elevated(t), [], calls);
    var w := Written(Run(t, f).log);
    assert w == [ReadyReply] + answers + [ClosingReply];
    forall i | 0 <= i < |calls| ensures w[1 + i] == Pickle(t.behave(calls[..i], calls[i])) {
      assert w[1 + i] == answers[i];
      assert [] + calls[..i] == calls[..i];
    }
  }

  /** The caller's side of a session: the calls made one after another through their wrappers. */
  datatype Calls = Calls(log: seq<PipeEvent<string>>, consumed: nat, outcomes: seq<Outcome<Value>>)

  /** Calling the wrappers for `calls` in turn, reading replies from position `pos` on. */
  function CallAll(calls: seq<Invocation>, replies: Feed<Reply>, pos: nat): (r: Calls)
    ensures |r.outcomes| == |calls|
    decreases |calls|
  {
    if |calls| == 0 then Calls([], pos, [])
    else
      var first := Call(Forwarder(calls[0].name), calls[0].args, replies, pos);
      var rest := CallAll(calls[1..], replies, first.consumed);
      Calls(first.log + rest.log, rest.consumed, [first.outcome] + rest.outcomes)
  }

  /**
    The caller writes exactly the requests for its calls and never closes
    the pipe; with enough replies it reads one per call, and each outcome
    is the unpickled reply read for that call.
   */
  lemma {:induction false} CallAllExchangesOneReplyPerCall(calls: seq<Invocation>, replies: Feed<Reply>, pos: nat)
    ensures Written(CallAll(calls, replies, pos).log) == Wire(calls)
    ensures CloseCount(CallAll(calls, replies, pos).log) == 0
    ensures pos + |calls| <= |replies.msgs| ==>
              && CallAll(calls, replies, pos).consumed == pos + |calls|
              && forall i :: 0 <= i < |calls| ==> CallAll(calls, replies, pos).outcomes[i] == Unpickle(Got(replies.msgs[pos + i]))
    decreases |calls|
  {
    if |calls| > 0 {
      var first := Call(Forwarder(calls[0].name), calls[0].args, replies, pos);
      var rest := CallAll(calls[1..], replies, first.consumed);
      CallAllExchangesOneReplyPerCall(calls[1..], replies, first.consumed);
      WriteAllWrites(Request(Forwarder(calls[0].name), calls[0].args));
      WrittenAppend(first.log, rest.log);
      if pos + |calls| <= |replies.msgs| {
        var r := CallAll(calls, replies, pos);
        forall i | 0 <= i < |calls| ensures r.outcomes[i] == Unpickle(Got(replies.msgs[pos + i])) {
          if i > 0 {
            assert r.outcomes[i] == rest.outcomes[i - 1];
            assert replies.msgs[pos + i] == replies.msgs[first.consumed + (i - 1)];
          }
        }
      }
    }
  }

  /**
    What the caller sees of a session of `calls` when `replies` come back:
    `start` sees "READY" and reads nothing more, the caller writes the
    session's requests, the i-th call yields what running it locally after
    the first i calls yields, and `close` gets its acknowledgement and
    closes the pipe.
   */
  ghost predicate ClientSeesLocalRun(t: Target, calls: seq<Invocation>, replies: Feed<Reply>) {
    var client := CallAll(calls, replies, 1);
    && Start(Spawned(replies)) == Exchange([], 1, Ok(()))
    && Written(client.log) + [CloseRequest] == SessionWire(calls)
    && (forall i :: 0 <= i < |calls| ==> client.outcomes[i] == Local(t.behave(calls[..i], calls[i])))
    && client.consumed == |calls| + 1
    && Close(replies, client.consumed) == Exchange([Wrote(CloseRequest), Closed], client.consumed + 1, Ok(()))
  }

  /** The caller's side of a session, given the replies `run` writes for it. */
  lemma ClientReadsSession(t: Target, calls: seq<Invocation>, replies: Feed<Reply>)
    requires SessionReplies(t, calls, replies.msgs)
    ensures ClientSeesLocalRun(t, calls, replies)
  {
    CallAllExchangesOneReplyPerCall(calls, replies, 1);
    SessionWireIsWire(calls);
    var client := CallAll(calls, replies, 1);
    forall i | 0 <= i < |calls| ensures client.outcomes[i] == Local(t.behave(calls[..i], calls[i])) {
      UnpickleInvertsPickle(t.behave(calls[..i], calls[i]));
    }
  }

  /**
    A whole session, from end to end. The caller starts the helper, makes
    `calls` through their wrappers and closes; `run` reads exactly what the
    caller writes, and the caller reads back what `run` writes. Then `run`
    shuts down on the "close" and the caller sees what running the calls
    locally, one after another, yields.
   */
  lemma SessionMatchesLocalRun(t: Target, calls: seq<Invocation>)
    requires forall c <- calls :: Forwardable(t, GetMro(t.h, t.cls), c)
    ensures Run(t, Feed(SessionWire(calls), true)).end == ShutDown
    ensures ClientSeesLocalRun(t, calls, Feed(Written(Run(t, Feed(SessionWire(calls), true)).log), true))
  {
    assert forall c <- calls :: ServedAsSent(t, GetMro(t.h, t.cls), c) by {
      forall c <- calls ensures ServedAsSent(t, GetMro(t.h, t.cls), c) {
        assert Forwardable(t, GetMro(t.h, t.cls), c);
      }
    }
    ServerWritesSession(t, calls);
    ClientReadsSession(t, calls, Feed(Written(Run(t, Feed(SessionWire(calls), true)).log), true));
  }
}
