/** The pool of overlapped accept operations a hosting server keeps posted
    against its listening socket (src/windows/server.c, issue_accept and the
    two replenish loops). */
module AcceptPool {

  /** ideal_pending_accept_count: the number of accepts the server tries to
      keep outstanding. */
  const IdealPendingAcceptCount: int := 16

  /** The number of successful posts in a trace of issue_accept results. */
  function Successes(trace: seq<bool>): (n: nat)
    ensures n <= |trace|
    ensures n == |trace| <==> forall i :: 0 <= i < |trace| ==> trace[i]
  {
    if trace == [] then 0
    else Successes(trace[..|trace| - 1]) + (if trace[|trace| - 1] then 1 else 0)
  }

  /** The traces that the replenish loop of lines 235-237 and 342-344,
      which posts accepts until the count reaches the target or a post
      fails, can produce when it starts with accepts_posted == start: it makes
      no attempt at or above the target, every attempt but the last one
      succeeded, and it ends at the target or right after a failed post. */
  predicate IsReplenishTrace(start: int, trace: seq<bool>)
  {
    if trace == [] then
      start >= IdealPendingAcceptCount
    else
      && start + |trace| <= IdealPendingAcceptCount
      && (forall i :: 0 <= i < |trace| - 1 ==> trace[i])
      && (trace[|trace| - 1] ==> start + |trace| == IdealPendingAcceptCount)
  }

  /** A replenish loop that starts inside the pool's range keeps the count
      inside it, only ever adds to it, and stops either with the pool full or
      at its first failed post, having added one per attempt before it. */
  lemma {:induction false} ReplenishStaysInPool(start: int, trace: seq<bool>)
    requires 0 <= start <= IdealPendingAcceptCount
    requires IsReplenishTrace(start, trace)
    ensures start <= start + Successes(trace) <= IdealPendingAcceptCount
    ensures start + Successes(trace) == IdealPendingAcceptCount
            || (trace != [] && !trace[|trace| - 1] && Successes(trace) == |trace| - 1)
  {
    if trace != [] {
      var init := trace[..|trace| - 1];
      assert forall i :: 0 <= i < |init| ==> init[i] by {
        forall i | 0 <= i < |init| ensures init[i] { assert init[i] == trace[i]; }
      }
      assert Successes(init) == |init|;
    }
  }

  /** A replenish loop that stopped because the pool was full, every post
      having succeeded: a replenish trace with one success per post. */
  lemma AllPostedTrace(start: int, trace: seq<bool>)
    requires forall i :: 0 <= i < |trace| ==> trace[i]
    requires start + |trace| >= IdealPendingAcceptCount
    requires trace != [] ==> start + |trace| <= IdealPendingAcceptCount
    ensures IsReplenishTrace(start, trace) && Successes(trace) == |trace|
  {
  }

  /** A replenish loop that stopped at its first failed post, below the
      target: a replenish trace whose successes are the posts before it. */
  lemma {:induction false} FailedPostTrace(start: int, posted: seq<bool>)
    requires forall i :: 0 <= i < |posted| ==> posted[i]
    requires start + |posted| < IdealPendingAcceptCount
    ensures IsReplenishTrace(start, posted + [false])
    ensures Successes(posted + [false]) == |posted|
  {
    var t := posted + [false];
    assert t[..|t| - 1] == posted;
    assert forall i :: 0 <= i < |t| - 1 ==> t[i] == posted[i];
  }

  /** A pool that is already full makes a replenish loop post nothing. */
  lemma FullPoolPostsNothing(start: int, trace: seq<bool>)
    requires start >= IdealPendingAcceptCount
    requires IsReplenishTrace(start, trace)
    ensures trace == [] && Successes(trace) == 0
  {
  }
}
