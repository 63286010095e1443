/**
  `allow_from_sudo(*argtypes)`: tags a method with the argument types the
  elevated copy coerces its raw strings with, and makes the method forward
  itself through `sudo_proxy` whenever the object has one.
 */
module Decorator {
  import opened Wrappers
  import opened Values
  import opened Pipe
  import opened Classes
  import opened Allowlist
  import opened Mro
  import opened Proxy

  /** The class-dictionary entry `allow_from_sudo(*argtypes)` makes of a function named `funcName`. */
  function Decorate(funcName: string, argtypes: seq<ArgType>): (a: Attr)
    ensures a.funcName == funcName
    ensures a.argtypes == Some(argtypes)
  {
    Attr(funcName, Some(argtypes))
  }

  /** A class that stores a decorated function under `name` declares `name` allowed with exactly those argument types. */
  lemma DecoratedEntryIsTagged(h: Hierarchy, c: ClassId, name: string, funcName: string, argtypes: seq<ArgType>)
    requires c in h && name in h[c].dict && h[c].dict[name] == Decorate(funcName, argtypes)
    ensures Tags(h, c, name)
    ensures DeclaredArgTypes(h, c, name) == argtypes
  {
  }

  /** A method run in this process, seen as the caller sees it. */
  function Local(o: CallOutcome): (r: Outcome<Value>)
    ensures o.Returned? <==> r.Ok?
    ensures o.Returned? ==> r.value == o.value
    ensures o.Raised? ==> r == Raise(Thrown(o.exception))
  {
    match o
    case Returned(v) => Ok(v)
    case Raised(e) => Raise(Thrown(e))
  }

  /** `name` on `t` is a function wrapped by `allow_from_sudo`. */
  predicate IsDecorated(t: Target, name: string) {
    ResolveOn(t, name).Some? && ResolveOn(t, name).value.argtypes.Some?
  }

  /** The name the decorated wrapper looks up on the proxy: the decorated function's `func_name`. */
  function FuncName(t: Target, name: string): string
    requires IsDecorated(t, name)
  {
    ResolveOn(t, name).value.funcName
  }

  /**
    The lookups on the proxy that the model covers: every name ordinary
    lookup does not find, which `__getattr__` answers, and the proxy's own
    `close`.
   */
  predicate ModelledOnProxy(attr: string) {
    !IsProxyAttribute(attr) || attr == CloseRequest
  }

  /**
    Calling `t.name(*args)` where `name` is a decorated method, after the
    calls `hist` on the same object. Without a proxy the function runs
    here. With one, the wrapper looks its own `func_name` up on the proxy
    and calls what it gets, over the pipe whose replies are `replies`:
    `SudoProxy.close` itself when that name is "close", and otherwise what
    `__getattr__` hands out.
   */
  function Invoke(t: Target, name: string, args: seq<Value>, hist: seq<Invocation>, replies: Feed<Reply>, pos: nat): (r: Exchange<Value>)
    requires IsDecorated(t, name)
    requires t.hasProxy ==> ModelledOnProxy(FuncName(t, name))
    // without a proxy the function runs here and the pipe is untouched
    ensures !t.hasProxy ==> r.log == [] && r.consumed == pos && r.outcome == Local(t.behave(hist, Invocation(name, args)))
    // the proxy's own `close` takes no arguments; it shuts the helper down and returns None
    ensures t.hasProxy && FuncName(t, name) == CloseRequest ==>
              && (|args| > 0 ==> r == Exchange([], pos, Raise(TypeError)))
              && (|args| == 0 && pos < |replies.msgs| ==> r == Exchange([Wrote(CloseRequest), Closed], pos + 1, Ok(NoneValue)))
              && (|args| == 0 && pos >= |replies.msgs| ==>
                    r == Exchange([Wrote(CloseRequest)], pos, if replies.eof then Raise(EOFError) else Blocked))
    // any other name reaches `__getattr__`, which refuses it before anything is written ...
    ensures t.hasProxy && FuncName(t, name) != CloseRequest && (IsPrivateName(FuncName(t, name)) || ArgTypesOf(t, FuncName(t, name)).None?) ==>
              r.log == [] && r.consumed == pos && r.outcome.Raise? && r.outcome.failure.AttributeError?
    // ... or hands out a wrapper that writes one request, reads at most one reply and closes nothing
    ensures t.hasProxy && FuncName(t, name) != CloseRequest && !IsPrivateName(FuncName(t, name)) && ArgTypesOf(t, FuncName(t, name)).Some? ==>
              && ResolveOn(t, FuncName(t, name)).Some?
              && Written(r.log) == Request(Forwarder(ResolveOn(t, FuncName(t, name)).value.funcName), args)
              && CloseCount(r.log) == 0
              && pos <= r.consumed <= pos + 1
              && r.outcome == Unpickle(ReadAt(replies, pos))
  {
    if !t.hasProxy then
      Exchange([], pos, Local(t.behave(hist, Invocation(name, args))))
    else if FuncName(t, name) == CloseRequest then
      if |args| > 0 then Exchange([], pos, Raise(TypeError))
      else
        var c := Close(replies, pos);
        match c.outcome
        case Ok(_) => Exchange(c.log, c.consumed, Ok(NoneValue))
        case Raise(f) => Exchange(c.log, c.consumed, Raise(f))
        case Blocked => Exchange(c.log, c.consumed, Blocked)
    else
      match GetAttr(t, FuncName(t, name))
      case Ok(fwd) => Call(fwd, args, replies, pos)
      case Raise(f) => Exchange([], pos, Raise(f))
      case Blocked => Exchange([], pos, Blocked)
  }

  /**
    The copy `run` serves has no proxy, so every decorated method it calls
    runs in the elevated process and never touches a pipe.
   */
  lemma ElevatedCallsRunLocally(t: Target, name: string, args: seq<Value>, hist: seq<Invocation>, replies: Feed<Reply>, pos: nat)
    requires IsDecorated(t, name)
    ensures var e := t.(hasProxy := false);
            && IsDecorated(e, name)
            && Invoke(e, name, args, hist, replies, pos).log == []
            && Invoke(e, name, args, hist, replies, pos).consumed == pos
            && Invoke(e, name, args, hist, replies, pos).outcome == Local(t.behave(hist, Invocation(name, args)))
  {
    var e := t.(hasProxy := false);
    assert ResolveOn(e, name) == ResolveOn(t, name);
  }

  /**
    With a proxy, a decorated method whose function is named as the
    attribute (no aliasing), is not private and is not an attribute of the
    proxy itself is forwarded: the request is its name and `str` of each
    argument, nothing is closed, and the outcome is the reply unpickled.
   */
  lemma ProxiedCallIsForwarded(t: Target, name: string, args: seq<Value>, hist: seq<Invocation>, replies: Feed<Reply>, pos: nat)
    requires IsDecorated(t, name) && t.hasProxy
    requires FuncName(t, name) == name && !IsPrivateName(name) && !IsProxyAttribute(name)
    ensures Written(Invoke(t, name, args, hist, replies, pos).log) == Request(Forwarder(name), args)
    ensures CloseCount(Invoke(t, name, args, hist, replies, pos).log) == 0
    ensures Invoke(t, name, args, hist, replies, pos).outcome == Unpickle(ReadAt(replies, pos))
  {
    ResolvedDeclarationIsTheAllowlistEntry(t.h, GetMro(t.h, t.cls), name);
  }

  /**
    With a proxy, a decorated method with a private function name that the
    proxy does not have itself fails in `__getattr__`, before anything is
    written.
   */
  lemma PrivateProxiedCallFails(t: Target, name: string, args: seq<Value>, hist: seq<Invocation>, replies: Feed<Reply>, pos: nat)
    requires IsDecorated(t, name) && t.hasProxy
    requires IsPrivateName(FuncName(t, name)) && !IsProxyAttribute(FuncName(t, name))
    ensures Invoke(t, name, args, hist, replies, pos) == Exchange([], pos, Raise(AttributeError(FuncName(t, name))))
  {
  }
}
