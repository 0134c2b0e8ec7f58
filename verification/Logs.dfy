/** Sequences of steps that two threads have made. */
module Logs {

  /** The steps of a log that the I/O thread made, or those that the other thread made. */
  function Steps<A>(log: seq<A>, byThread: A -> bool, thread: bool): seq<A> {
    if |log| == 0 then []
    else
      var k := |log| - 1;
      Steps(log[..k], byThread, thread) + (if byThread(log[k]) == thread then [log[k]] else [])
  }

  lemma StepsSnoc<A>(log: seq<A>, byThread: A -> bool, thread: bool, a: A)
    ensures Steps(log + [a], byThread, thread)
         == Steps(log, byThread, thread) + (if byThread(a) == thread then [a] else [])
  {
    assert (log + [a])[..|log|] == log;
  }

  /** A log made longer by steps of one side only. */
  predicate Extends<A(==)>(before: seq<A>, after: seq<A>, byThread: A -> bool, thread: bool) {
    && before <= after
    && forall i :: |before| <= i < |after| ==> byThread(after[i]) == thread
  }
}
