/**
  The pipe between the unprivileged application and its elevated copy,
  seen from one end. What the end will read is a Feed: a finite sequence of
  messages that either ends in end-of-file or simply has no further input
  (a read there blocks forever). What the end does is a log of events.
 */
module Pipe {
  import opened Values

  /** A message travelling from the elevated copy back to the caller. */
  datatype Reply =
    | Line(text: string)                       // a plain sentinel such as "READY"
    | Pickled(success: bool, payload: Value)   // a pickled `(success, payload)` pair

  /** The protocol's fixed messages: the greeting, the shutdown request and its acknowledgement. */
  const ReadyText: string := "READY"
  const CloseRequest: string := "close"
  const ClosingText: string := "CLOSING"

  /** One observable action on a pipe end. */
  datatype PipeEvent<M> = Wrote(msg: M) | Closed

  /** The input available to a pipe end. */
  datatype Feed<M> = Feed(msgs: seq<M>, eof: bool)

  /** The result of one `pipe.read()`. */
  datatype Read<M> =
    | Got(msg: M)
    | Eof       // `pipe.read()` raises EOFError
    | Starved   // no further input: the read never returns

  /** `pipe.read()` when `pos` messages have already been consumed. */
  function ReadAt<M>(f: Feed<M>, pos: nat): (r: Read<M>)
    ensures r.Got? <==> pos < |f.msgs|
    ensures r.Got? ==> r.msg == f.msgs[pos]
    ensures r.Eof? <==> pos >= |f.msgs| && f.eof
  {
    if pos < |f.msgs| then Got(f.msgs[pos])
    else if f.eof then Eof
    else Starved
  }

  /** The response message the elevated copy writes for a method's outcome. */
  function Pickle(o: CallOutcome): Reply {
    match o
    case Returned(v) => Pickled(true, v)
    case Raised(e) => Pickled(false, e)
  }

  /** The messages written in a log, in order, with the close events dropped. */
  function Written<M>(log: seq<PipeEvent<M>>): seq<M> {
    if |log| == 0 then []
    else if log[0].Wrote? then [log[0].msg] + Written(log[1..])
    else Written(log[1..])
  }

  /** Number of close events in a log. */
  function CloseCount<M>(log: seq<PipeEvent<M>>): nat {
    if |log| == 0 then 0
    else (if log[0].Closed? then 1 else 0) + CloseCount(log[1..])
  }

  lemma {:induction false} WrittenAppend<M>(a: seq<PipeEvent<M>>, b: seq<PipeEvent<M>>)
    ensures Written(a + b) == Written(a) + Written(b)
    ensures CloseCount(a + b) == CloseCount(a) + CloseCount(b)
    decreases |a|
  {
    if |a| == 0 {
      assert a + b == b;
    } else {
      assert (a + b)[1..] == a[1..] + b;
      WrittenAppend(a[1..], b);
    }
  }
}
