/**
  The unprivileged side of `SudoProxy`: `start` and `close` manage the pipe
  to the elevated copy, `__getattr__` checks a name against the allowlist
  and hands out a forwarding wrapper, and the wrapper sends one request and
  reads one reply.
 */
module Proxy {
  import opened Wrappers
  import opened Values
  import opened Pipe
  import opened Classes
  import opened Allowlist

  /** The exceptions the unprivileged side raises. */
  datatype Failure =
    | AttributeError(message: string)
    | RuntimeError(message: string)
    | EOFError
    | Unpickling                // `pickle.loads` of a plain line such as "CLOSING"
    | Thrown(exception: Value)  // an exception raised elsewhere and passed on unchanged
    | TypeError                 // a method called with the wrong number of arguments

  /** How an operation on the unprivileged side ends. */
  datatype Outcome<+T> =
    | Ok(value: T)
    | Raise(failure: Failure)
    | Blocked   // waiting in a read that never returns

  /** What an operation writes to its pipe end, how many replies it reads, and how it ends. */
  datatype Exchange<+T> = Exchange(log: seq<PipeEvent<string>>, consumed: nat, outcome: Outcome<T>)

  /** The message of the RuntimeError `start` raises. */
  const SpawnFailedMessage: string := "failed to spawn helper app"

  /** The text of the AttributeError for a name without an allowlist entry. */
  function NotAllowedMessage(attr: string): string {
    "attribute '" + attr + "' not allowed from sudo"
  }

  /** Names that `__getattr__` refuses outright. */
  predicate IsPrivateName(attr: string) {
    |attr| > 0 && attr[0] == '_'
  }

  /**
    Names that ordinary attribute lookup finds on a `SudoProxy`, so that
    `__getattr__` never sees them: the fields `__init__` sets, the methods
    the class defines, and what every new-style object inherits.
   */
  const ProxyFields: set<string> := {"name", "target", "pipe"}
  const ProxyMethods: set<string> := {"__init__", "start", "close", "run", "__getattr__"}
  const ObjectAttributes: set<string> :=
    {"__class__", "__delattr__", "__dict__", "__doc__", "__format__", "__getattribute__", "__hash__",
     "__module__", "__new__", "__reduce__", "__reduce_ex__", "__repr__", "__setattr__", "__sizeof__",
     "__str__", "__subclasshook__", "__weakref__"}

  predicate IsProxyAttribute(attr: string) {
    attr in ProxyFields || attr in ProxyMethods || attr in ObjectAttributes
  }

  /** The `wrapper` closure: it sends `wireName`, the `func_name` of the method it was made for. */
  datatype Forwarder = Forwarder(wireName: string)

  /**
    `SudoProxy.__getattr__(attr)` for a proxy of `t`. Refusing a name writes
    nothing; an allowed name yields a wrapper for the function `getattr`
    finds on the target, which is always there.
   */
  function GetAttr(t: Target, attr: string): (r: Outcome<Forwarder>)
    ensures IsPrivateName(attr) ==> r == Raise(AttributeError(attr))
    ensures !IsPrivateName(attr) && ArgTypesOf(t, attr).None? ==> r == Raise(AttributeError(NotAllowedMessage(attr)))
    ensures r.Ok? <==> !IsPrivateName(attr) && ArgTypesOf(t, attr).Some?
    ensures r.Ok? ==> ResolveOn(t, attr).Some? && r.value.wireName == ResolveOn(t, attr).value.funcName
    ensures !r.Blocked?
  {
    if IsPrivateName(attr) then Raise(AttributeError(attr))
    else if ArgTypesOf(t, attr).None? then Raise(AttributeError(NotAllowedMessage(attr)))
    else
      AllowedMethodResolves(t, attr);
      Ok(Forwarder(ResolveOn(t, attr).value.funcName))
  }

  /** The messages the wrapper sends: the method name, then `str(arg)` for each argument. */
  function Request(fwd: Forwarder, args: seq<Value>): (r: seq<string>)
    ensures |r| == 1 + |args|
    ensures r[0] == fwd.wireName
    ensures forall i :: 0 <= i < |args| ==> r[1 + i] == PyStr(args[i])
  {
    [fwd.wireName] + ArgStrings(args)
  }

  /** `str(arg)` for each argument, in order. */
  function ArgStrings(args: seq<Value>): (r: seq<string>)
    ensures |r| == |args|
    ensures forall i :: 0 <= i < |args| ==> r[i] == PyStr(args[i])
  {
    if |args| == 0 then [] else [PyStr(args[0])] + ArgStrings(args[1..])
  }

  /** Writing each message of `msgs` in turn. */
  function WriteAll(msgs: seq<string>): (r: seq<PipeEvent<string>>)
    ensures |r| == |msgs|
    ensures forall i :: 0 <= i < |msgs| ==> r[i] == Wrote(msgs[i])
  {
    if |msgs| == 0 then [] else [Wrote(msgs[0])] + WriteAll(msgs[1..])
  }

  /** The events of `WriteAll` carry exactly the messages written, and no close. */
  lemma {:induction false} WriteAllWrites(msgs: seq<string>)
    ensures Written(WriteAll(msgs)) == msgs
    ensures CloseCount(WriteAll(msgs)) == 0
    decreases |msgs|
  {
    if |msgs| > 0 {
      WrittenAppend([Wrote(msgs[0])], WriteAll(msgs[1..]));
      WriteAllWrites(msgs[1..]);
      assert [msgs[0]] + msgs[1..] == msgs;
    }
  }

  /** Reading one reply and unpickling it as the wrapper does. */
  function Unpickle(r: Read<Reply>): (o: Outcome<Value>)
    ensures r.Got? && r.msg.Pickled? && r.msg.success ==> o == Ok(r.msg.payload)
    ensures r.Got? && r.msg.Pickled? && !r.msg.success ==> o == Raise(Thrown(r.msg.payload))
    ensures r.Got? && r.msg.Line? ==> o == Raise(Unpickling)
    ensures r.Eof? ==> o == Raise(EOFError)
    ensures o.Blocked? <==> r.Starved?
  {
    match r
    case Got(Pickled(success, payload)) => if success then Ok(payload) else Raise(Thrown(payload))
    case Got(Line(_)) => Raise(Unpickling)
    case Eof => Raise(EOFError)
    case Starved => Blocked
  }

  /**
    Calling the wrapper with `args` when `pos` replies have been read: it
    writes its whole request before reading, reads exactly one reply, and
    never closes the pipe.
   */
  function Call(fwd: Forwarder, args: seq<Value>, replies: Feed<Reply>, pos: nat): (r: Exchange<Value>)
    ensures Written(r.log) == Request(fwd, args)
    ensures CloseCount(r.log) == 0
    ensures pos <= r.consumed <= pos + 1
    ensures r.consumed == pos + 1 <==> pos < |replies.msgs|
    // the outcome, by the kind of reply read
    ensures pos < |replies.msgs| && replies.msgs[pos].Pickled? ==>
              r.outcome == (if replies.msgs[pos].success then Ok(replies.msgs[pos].payload)
                            else Raise(Thrown(replies.msgs[pos].payload)))
    ensures pos < |replies.msgs| && replies.msgs[pos].Line? ==> r.outcome == Raise(Unpickling)
    ensures pos >= |replies.msgs| ==> r.outcome == (if replies.eof then Raise(EOFError) else Blocked)
  {
    WriteAllWrites(Request(fwd, args));
    Exchange(WriteAll(Request(fwd, args)), if pos < |replies.msgs| then pos + 1 else pos, Unpickle(ReadAt(replies, pos)))
  }

  /**
    `SudoProxy.close()`: writes "close", waits for one reply and closes the
    pipe. An EOFError from the read propagates and the pipe stays open.
   */
  function Close(replies: Feed<Reply>, pos: nat): (r: Exchange<()>)
    ensures |r.log| >= 1 && r.log[0] == Wrote(CloseRequest)
    ensures r.outcome.Ok? <==> pos < |replies.msgs|
    ensures r.outcome.Ok? ==> r.log == [Wrote(CloseRequest), Closed] && r.consumed == pos + 1
    ensures r.outcome.Raise? <==> pos >= |replies.msgs| && replies.eof
    ensures r.outcome.Raise? ==> r.outcome.failure == EOFError
    ensures !r.outcome.Ok? ==> r.log == [Wrote(CloseRequest)] && r.consumed == pos
  {
    match ReadAt(replies, pos)
    case Got(_) => Exchange([Wrote(CloseRequest), Closed], pos + 1, Ok(()))
    case Eof => Exchange([Wrote(CloseRequest)], pos, Raise(EOFError))
    case Starved => Exchange([Wrote(CloseRequest)], pos, Blocked)
  }

  /** What `spawn_sudo` gave `start`: a pipe whose replies are `replies`, or an exception. */
  datatype Spawn = Spawned(replies: Feed<Reply>) | SpawnRaised(error: Value)

  /**
    `SudoProxy.start()`: spawns the helper and reads its first message. Any
    message but "READY" makes it close the pipe and then raise RuntimeError;
    an EOFError on either read propagates.
   */
  function Start(spawn: Spawn): (r: Exchange<()>)
    ensures spawn.SpawnRaised? ==> r == Exchange([], 0, Raise(Thrown(spawn.error)))
    ensures spawn.Spawned? && ReadAt(spawn.replies, 0) == Got(Line(ReadyText)) ==> r == Exchange([], 1, Ok(()))
    ensures spawn.Spawned? && ReadAt(spawn.replies, 0).Eof? ==> r == Exchange([], 0, Raise(EOFError))
    ensures spawn.Spawned? && ReadAt(spawn.replies, 0).Starved? ==> r == Exchange([], 0, Blocked)
    // a wrong greeting: close the pipe, then report that the helper failed
    ensures spawn.Spawned? && ReadAt(spawn.replies, 0).Got? && ReadAt(spawn.replies, 0).msg != Line(ReadyText) ==>
              && r.log == Close(spawn.replies, 1).log
              && r.consumed == Close(spawn.replies, 1).consumed
              && r.outcome == (if Close(spawn.replies, 1).outcome.Ok? then Raise(RuntimeError(SpawnFailedMessage))
                               else Close(spawn.replies, 1).outcome)
    ensures r.outcome.Ok? ==> r.log == []
  {
    match spawn
    case SpawnRaised(e) => Exchange([], 0, Raise(Thrown(e)))
    case Spawned(replies) =>
      match ReadAt(replies, 0)
      case Eof => Exchange([], 0, Raise(EOFError))
      case Starved => Exchange([], 0, Blocked)
      case Got(greeting) =>
        if greeting == Line(ReadyText) then Exchange([], 1, Ok(()))
        else
          var c := Close(replies, 1);
          match c.outcome
          case Ok(_) => Exchange(c.log, c.consumed, Raise(RuntimeError(SpawnFailedMessage)))
          case Raise(f) => Exchange(c.log, c.consumed, Raise(f))
          case Blocked => Exchange(c.log, c.consumed, Blocked)
  }
}
