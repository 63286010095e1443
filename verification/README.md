# esky.sudo call forwarding, modelled in Dafny

`esky.sudo` lets an unprivileged application run a few of its methods in an
elevated copy of itself. `SudoProxy` is the mechanism:

- the unprivileged side calls `start`, which spawns the helper and waits for
  its "READY";
- `__getattr__` hands out a wrapper for each allowed method name, and the
  wrapper writes the method's name plus `str` of each argument, then reads
  one pickled `(success, payload)` reply;
- `close` sends "close" and shuts the pipe;
- the elevated side runs `run`: it greets with "READY", reads method names
  and raw argument strings, checks each name against the allowlist, coerces
  the arguments with the declared argument types, runs the method and writes
  the pickled outcome;
- `allow_from_sudo(*argtypes)` tags a method with its argument types and
  makes it forward itself through `sudo_proxy` when the object has one;
- `_get_sudo_argtypes` finds the tag by searching the class's `__mro__`, or
  for old-style classes the depth-first `__bases__` walk of
  `_get_oldstyle_mro`.

The model is functional. A pipe end is a `Feed`: the messages it will read,
and whether end-of-file follows them or the read blocks. What an operation
does to the pipe is a log of `Wrote(msg)` and `Closed` events. A target
object is its class graph plus a behaviour function. The behaviour gets
every earlier call on the object, so stateful targets can be expressed.

Modules, one per file:

- `Wrappers`: `Option` and `Result`.
- `Values`: Python values, invocations and argument types.
- `Pipe`: feeds, reads, replies and logs.
- `Classes`: class dictionaries, `__bases__`, `__mro__` and the target.
- `Mro`: `_get_mro` and `_get_oldstyle_mro`.
- `Allowlist`: `_get_sudo_argtypes` and attribute lookup.
- `Dispatcher`: `SudoProxy.run`.
- `Proxy`: `start`, `close`, `__getattr__` and the wrapper.
- `Decorator`: `allow_from_sudo`.
- `Session`: both ends connected, with the properties that connect them.

The model follows the code where it departs from its documented intent:

- **Unlisted name on the elevated side.** When `run` rejects a name, it
  builds its message with `attr`, a name not defined in `run`. Python
  therefore raises NameError rather than the intended AttributeError.
  NameError is not caught by the `except EOFError`, so the loop ends after
  closing the pipe and writes no reply. `Dispatcher.StepAt` models this as
  `Aborted(UndefinedName("attr"))`.
- **Argument that fails to coerce.** Coercion runs outside the inner
  `try`, so a failing coercion also ends the loop. It does not produce an
  error reply.
- **Name on the wire.** The wrapper writes `method.im_func.func_name`, not
  the attribute name it was asked for.
- **Names the proxy already has.** The decorator looks the function's
  name up with `getattr` on the proxy, and `__getattr__` only runs when
  ordinary lookup fails. A decorated method whose function is named
  "close" therefore finds `SudoProxy.close`: the helper is shut down, None
  comes back, and the method itself never runs. The same holds for
  `start`, `run`, the fields `name`, `target` and `pipe`, and the
  attributes every object has.
- **Private names.** Only the unprivileged side refuses names that begin
  with `_`. The elevated side serves them if they are tagged, so the two
  allowlist checks agree only for names that are neither private nor
  "close".
- **One class graph on both sides.** The elevated copy is a separate
  process that rebuilds its target. The model assumes it rebuilds the same
  class graph, so both sides consult the same allowlist by construction.
- **EOF in `start` and `close`.** An EOFError in `start` or `close`
  propagates, and the pipe is not closed.

## Model

Several functions define the model without stating anything themselves:
- `Mro.Walk` and `Mro.WalkBases` model `_get_oldstyle_mro` (esky/sudo/__init__.py lines 163-169).
- `Mro.GetMro` models `_get_mro` (lines 157-161).
- `Allowlist.FindArgTypes` and `Allowlist.ArgTypesOf` model `_get_sudo_argtypes` (lines 140-154).
- `Allowlist.ResolveAttr` and `Allowlist.ResolveOn` model `getattr(target, attr)` over class dictionaries (line 101).
- `Dispatcher.Loop` models the `while True` loop of `run` (lines 70-90).

The lemma rows below state their properties.

| member | source | states |
|---|---|---|
| Mro.OldStyleMro | esky/sudo/__init__.py:163-169 | the old-style walk from an empty `seen` set starts with the class itself and yields no class twice |
| Mro.WalkVisitsEachOnce | esky/sudo/__init__.py:163-169 | one walk never yields a class twice or a class already seen, and afterwards `seen` is the old set plus exactly the classes yielded |
| Mro.WalkBasesVisitsEachOnce | esky/sudo/__init__.py:166-169 | the same for the loop over `__bases__`, which shares one `seen` set across all bases |
| Mro.WalkYieldsAncestors | esky/sudo/__init__.py:163-169 | everything the walk yields is the class or one of its ancestors through `__bases__` |
| Mro.WalkBasesYieldAncestors | esky/sudo/__init__.py:166-169 | everything the base loop yields is reachable from one of the bases |
| Mro.WalkCloses | esky/sudo/__init__.py:163-169 | every class the walk marks seen has all of its bases marked seen too |
| Mro.WalkBasesCloses | esky/sudo/__init__.py:166-169 | the same for the base loop, and every base ends up seen |
| Mro.OldStyleMroIsAncestors | esky/sudo/__init__.py:161-169 | a class is yielded by the old-style walk if and only if it is the class or an ancestor through `__bases__` |
| Allowlist.FindArgTypesIsFirstTagging | esky/sudo/__init__.py:147-154 | the lookup returns None exactly when no class in the sequence tags the name; otherwise it returns the argument types of the first class that does |
| Allowlist.ResolveAttrIsFirstEntry | esky/sudo/__init__.py:101 | `getattr` fails exactly when no class has the name in its own dictionary; otherwise it finds the first such entry |
| Allowlist.AllowedMethodResolves | esky/sudo/__init__.py:98-101 | a name the allowlist accepts is always found by `getattr` |
| Allowlist.OldStyleAllowedIffDeclaredByAncestor | esky/sudo/__init__.py:140-169 | for an old-style class, a name is allowed if and only if the class or some ancestor through `__bases__` tags it |
| Allowlist.OwnDeclarationWins | esky/sudo/__init__.py:147-153 | a tag on the target's own old-style class decides the argument types, whatever the ancestors declare |
| Allowlist.ResolvedDeclarationIsTheAllowlistEntry | esky/sudo/__init__.py:101-105 | when `getattr` lands on a tagged entry, that entry's argument types are the ones the allowlist lookup returns |
| Dispatcher.ReadArgs | esky/sudo/__init__.py:82 | all arguments are coerced exactly when every argument type accepts its raw string. The first rejected string ends the read with that type's exception, once every string before it coerced. Running out of input ends it with EOF or blocks, and only after every string that was there coerced |
| Dispatcher.StepAt | esky/sudo/__init__.py:71-90 | a dispatched step consumes the allowed name and one string per argument type, runs the coerced invocation and replies with its pickled outcome; a stopped step writes the farewell of how it ended |
| Dispatcher.StepAtEndOfInput | esky/sudo/__init__.py:72-90 | with nothing left to read, the loop stops: on EOF because the peer is gone, otherwise because it waits |
| Dispatcher.StepAtShutsDownOnClose | esky/sudo/__init__.py:73-75 | the loop shuts down exactly when the name read is "close", and then it has read only that message |
| Dispatcher.StepAtRejectsUnlisted | esky/sudo/__init__.py:77-80 | a name with no allowlist entry, and only such a name, ends the loop with NameError for `attr` after reading just the name |
| Dispatcher.StepAtOnBadArguments | esky/sudo/__init__.py:82 | after an allowed name, a rejected argument string aborts the loop with that exception, and running out of input while reading arguments ends it as EOF or waiting |
| Dispatcher.StepAtDispatchesAllowed | esky/sudo/__init__.py:77-88 | an allowed name whose argument strings all coerce is run and answered |
| Dispatcher.RepliesCount | esky/sudo/__init__.py:83-88 | the loop writes one reply per call, and no reply closes the pipe |
| Dispatcher.RepliesInCallOrder | esky/sudo/__init__.py:70-88 | the i-th reply is the pickled outcome of the i-th call, run after all the calls before it |
| Dispatcher.RepliesWritten | esky/sudo/__init__.py:83-88 | the messages of the replies, in order, are the pickled outcomes of the calls |
| Dispatcher.LoopOnClose | esky/sudo/__init__.py:73-75 | reading "close" ends the loop at once; it writes "CLOSING" and closes, and no calls are run |
| Dispatcher.LoopAfterDispatch | esky/sudo/__init__.py:70-88 | after a dispatched call, the loop writes that call's reply and continues from the next request with the call added to the history |
| Dispatcher.LoopTranscript | esky/sudo/__init__.py:70-92 | the loop writes exactly one reply per call it runs, in order, followed by the farewell of how it ended |
| Dispatcher.LoopRunsOnlyAllowed | esky/sudo/__init__.py:73-81 | every call the loop runs has an allowlist entry and is not named "close" |
| Dispatcher.ShutDownFollowsClose | esky/sudo/__init__.py:73-75 | a loop that shut down did so on reading "close", and read nothing after it |
| Dispatcher.StarvedLoopReadEverything | esky/sudo/__init__.py:72-90 | a loop that lost its peer, or that is waiting, has read all of its input; which of the two depends only on end-of-file |
| Dispatcher.Run | esky/sudo/__init__.py:66-92 | `run` clears `sudo_proxy` and leaves the target otherwise as it was. It writes "READY" before anything else. It runs only allowed calls, and its log is one reply per call in order, each the pickled outcome of the target's own method, then the farewell. A shutdown happened on "close"; EOF and waiting happen only at the end of input. An abort happened on the last message read: a name other than "close" with no allowlist entry (NameError for `attr`, lines 78-80), or an argument string its declared type rejects (line 82). The calls it runs are exactly the requests in the feed, read in order: each name is the next message, is not "close" and is allowed, and its arguments are what the declared types make of the strings after it. The step after the last call is the one that stopped it, with the consumed count and ending `run` reports |
| Dispatcher.LoopReadsFeed | esky/sudo/__init__.py:70-90 | the calls the loop runs are the requests it reads off the feed, in order, and the step after them is the one that ends it |
| Dispatcher.RunShutsDownOnLeadingClose | esky/sudo/__init__.py:66-92 | a "close" as the first name makes `run` write "READY" and "CLOSING" and close the pipe, with no call run |
| Dispatcher.StepAtAbortsOnRejection | esky/sudo/__init__.py:76-82 | a step aborts only on an unlisted name, with NameError for `attr`, or on an argument string its declared type rejects after the earlier arguments coerced |
| Dispatcher.AbortFollowsRejection | esky/sudo/__init__.py:70-90 | a loop that aborted did so on the last message it read, for one of those two reasons |
| Dispatcher.RunClosesOnce | esky/sudo/__init__.py:69-92 | every way out of `run` closes the pipe exactly once; only a read that never returns leaves it open |
| Dispatcher.RunClosesLast | esky/sudo/__init__.py:91-92 | the last event of `run` is closing the pipe exactly when it did not end waiting for input |
| Dispatcher.RunWrites | esky/sudo/__init__.py:68-88 | what `run` writes is "READY", the replies in call order, then "CLOSING" if and only if it shut down |
| Proxy.GetAttr | esky/sudo/__init__.py:94-113 | private names fail with AttributeError(name), and names with no allowlist entry fail with the "not allowed from sudo" message. Only the remaining names yield a wrapper, which sends the resolved function's `func_name` |
| Proxy.Request | esky/sudo/__init__.py:105-107 | the wrapper sends the function name, then `str` of each argument in order |
| Proxy.WriteAllWrites | esky/sudo/__init__.py:105-107 | writing the request puts exactly its messages on the pipe, and does not close it |
| Proxy.Unpickle | esky/sudo/__init__.py:108-111 | a success reply returns its payload and a failure reply raises it. A plain line such as "CLOSING" fails to unpickle, EOF raises EOFError, and only missing input blocks |
| Proxy.Call | esky/sudo/__init__.py:104-111 | a call writes exactly its request and closes nothing. It reads one reply exactly when one is there. A success reply returns its payload, a failure reply raises it, a plain line fails to unpickle, EOF raises EOFError, and missing input blocks |
| Proxy.Close | esky/sudo/__init__.py:61-64 | `close` first writes "close". With a reply available, it reads it and closes the pipe. On EOF it raises EOFError and leaves the pipe open, and with no input it blocks |
| Proxy.Start | esky/sudo/__init__.py:55-59 | a spawn error propagates. "READY" succeeds after one read with nothing written. Any other greeting makes `start` run `close` and then raise RuntimeError, unless that `close` itself fails. EOF propagates |
| Decorator.DecoratedEntryIsTagged | esky/sudo/__init__.py:135 | a class storing a decorated function declares that name allowed, with those argument types |
| Decorator.Local | esky/sudo/__init__.py:134 | a method run in this process returns what it returns and raises what it raises |
| Decorator.Invoke | esky/sudo/__init__.py:131-134 | without a proxy, the function runs locally and the pipe is untouched. With a proxy, a function named "close" reaches `SudoProxy.close` (lines 61-64): with arguments it raises TypeError, and otherwise it writes "close", reads one reply, closes and returns None. Any other name goes to `__getattr__`. A private or unlisted name raises AttributeError with nothing written. An allowed name writes exactly the request for the resolved function's name, closes nothing, reads at most one reply, and returns that reply unpickled |
| Decorator.ElevatedCallsRunLocally | esky/sudo/__init__.py:132-134 | once `run` has cleared (line 67) `sudo_proxy`, a decorated method runs locally and never touches the pipe |
| Decorator.ProxiedCallIsForwarded | esky/sudo/__init__.py:132-133 | with a proxy, a decorated method writes exactly its request, closes nothing, and returns the unpickled reply, when its name is public, is not an attribute of `SudoProxy`, and is its function's name |
| Decorator.PrivateProxiedCallFails | esky/sudo/__init__.py:132-133 | with a proxy, a decorated function with a private name that `SudoProxy` lacks fails with AttributeError from `__getattr__` (lines 95-96) before anything is written |
| Session.SameAllowlistOnBothSides | esky/sudo/__init__.py:67-98 | `run` (line 77) and `__getattr__` (line 98) find the same argument types for every name, and `run` always serves the target itself with only its proxy cleared (line 67). The first holds by construction, because the model assumes the elevated copy rebuilds the same class graph |
| Session.ClientAndServerChecksAgree | esky/sudo/__init__.py:77-100 | for a name that is neither private nor "close", `__getattr__` hands out a wrapper if and only if `run` would not reject the name |
| Session.PrivateNamesOnlyRefusedByClient | esky/sudo/__init__.py:77-96 | a private name with an allowlist entry is refused by `__getattr__` but would be served by `run` |
| Session.DecoratedCloseShutsDownServer | esky/sudo/__init__.py:132-133 | a decorated function named "close", called through a proxy with no arguments, runs `SudoProxy.close` (lines 61-64) and returns None after closing the pipe. `run`, reading the "close" it writes, shuts down (lines 73-75) without running the method |
| Session.StrArgumentsAreTransparent | esky/sudo/__init__.py:82 | `str` arguments survive the trip: coercing their `str` gives them back |
| Session.CoercedArgsAreTheArgs | esky/sudo/__init__.py:82 | when every argument type turns `str(arg)` back into `arg`, the server's arguments are exactly the caller's |
| Session.ServerRunsTheForwardedCall | esky/sudo/__init__.py:77-88 | `run`, fed the request the wrapper writes, runs exactly the invocation the caller made and replies with its pickled outcome |
| Session.ForwardableCallHasWrapper | esky/sudo/__init__.py:94-113 | a public name that `SudoProxy` lacks, that has an allowlist entry and that is its function's name, gets a wrapper from `__getattr__` that sends that very name |
| Session.UnpickleInvertsPickle | esky/sudo/__init__.py:108-111 | unpickling the reply for an outcome gives the caller what running the method locally gives |
| Session.ForwardedCallBehavesLikeLocalCall | esky/sudo/__init__.py:104-111 | one forwarded call from end to end, for a public name that `SudoProxy` lacks and whose arguments survive `str`: the server runs the caller's invocation, and the caller gets the local outcome back |
| Session.RequestIsCarried | esky/sudo/__init__.py:105-107 | a request written into the pipe is found, name first and then argument strings, at the position it was written |
| Session.SessionWireIsWire | esky/sudo/__init__.py:105-107 | the messages of a session are the requests of its calls followed by "close" |
| Session.WireCarriesSession | esky/sudo/__init__.py:105-107 | the requests of a session, written anywhere in the pipe, are read back call by call and then "close" |
| Session.WireLengthIsLength | esky/sudo/__init__.py:105-107 | each request takes one message for the name and one per argument |
| Session.LoopServesSession | esky/sudo/__init__.py:70-88 | fed a session, the loop runs every call in order and shuts down right after reading "close" |
| Session.RunServesSession | esky/sudo/__init__.py:66-92 | `run` fed a session runs its calls, greets, replies once per call in order, then writes "CLOSING" and closes |
| Session.ShutDownRunWritesSessionReplies | esky/sudo/__init__.py:66-92 | when `run` shuts down after running a given list of calls, it has written "READY", the pickled outcome of each call run after the ones before it, then "CLOSING" |
| Session.ServerWritesSession | esky/sudo/__init__.py:66-92 | what `run` writes for a whole session: "READY", the pickled outcome of each call after the ones before it, then "CLOSING" |
| Session.CallAllExchangesOneReplyPerCall | esky/sudo/__init__.py:104-111 | calling the wrappers in turn writes exactly their requests and never closes; with enough replies, each call reads one and yields it unpickled |
| Session.ClientReadsSession | esky/sudo/__init__.py:55-111 | given the replies `run` writes, `start` succeeds and each call yields its local outcome. `close` then gets its acknowledgement and closes the pipe |
| Session.SessionMatchesLocalRun | esky/sudo/__init__.py:55-113 | a whole session end to end: `run` shuts down on the "close", and the caller sees exactly what running the calls locally, one after another, yields |

## Left out

- The pickle format: a reply is a `Reply` value, not bytes. Which exception a failed `pickle.loads` raises is also not modelled; it is the single failure `Unpickling`.
- Python's exception hierarchy: `except Exception` on line 85 is taken to catch every failure of the method, so a failing method always yields a failure reply.
- Keyword arguments (line 131): forwarded calls take positional arguments only.
- `setattr(self, attr, wrapper)` (line 112): the model does not cache wrappers, so every lookup goes through `__getattr__`. This is a simplification. A cached wrapper keeps the pipe it captured at its first lookup (line 102). It can therefore write to None before `start`, or to the old pipe after a restart. The model always uses the current pipe.
- Instance attributes of the target: lookup on the target covers class dictionaries only. The proxy's own attributes are the fixed set `Proxy.IsProxyAttribute`. Of these, only `close` is modelled when the decorator reaches it (see the Decorator.Invoke lines below).
- Which class's function body runs: the behaviour of a method is keyed by the name it is invoked under.
- `spawn_sudo`, `has_root`, `can_get_root` and `run_startup_hooks` are platform helpers. `Start` takes the spawn's result as a parameter; the unix and win32 helpers are not part of this model.
- Processes, blocking and timeouts: a read with no input is `Starved`, an outcome that never returns.
- Values: only strings, booleans, None and exceptions are distinguished.
- Proxy.Start: an exception raised by `spawn_sudo` is passed on as `Thrown` without modelling its class.
- Proxy.Start: the greeting is compared with "READY" as a reply value. The code compares the raw read result, and a pickled payload can never equal "READY", so the model keeps the same branches.
- `SudoProxy.__init__` only stores fields. Its `name` is not used by the modelled code. The `target` field is the `Target` record passed to each operation, and the `pipe` field is the `Feed` each operation reads from, so there is no proxy record.
- Decorator.Invoke: a decorated function named `start`, `run`, `name`, `target`, `pipe`, or named after an attribute every object has, is excluded by its precondition. Ordinary lookup finds the proxy's own attribute for those names, which re-spawns the helper, runs the serve loop in this process, or calls something that is not a method. Only `close` among them is modelled.
- Decorator.Invoke: the text of the TypeError for `close` called with arguments is not modelled.
- The end-to-end lemmas in `Session` (ForwardedCallBehavesLikeLocalCall, SessionMatchesLocalRun and those they use) cover calls whose name is public, is not an attribute of `SudoProxy`, and is the name of the function it resolves to. Aliased and private names are covered by Decorator.Invoke and Session.PrivateNamesOnlyRefusedByClient only.
