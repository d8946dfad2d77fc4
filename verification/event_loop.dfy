/** The main loop and its stop flag (src/main.c).  An environment is the list of what its polls
    deliver: poll `n` is one `pjsip_endpt_handle_events` call. */
module EventLoop {
  class Loop {
    var stop: bool

    constructor ()
      ensures !stop
    {
      stop := false;
    }

    method Cancel()
      modifies this
      ensures stop
    {
      stop := true;
    }
  }

  predicate IsChallenge(code: nat) {
    code == 401 || code == 407
  }

  /** All that some polls deliver. */
  function Flatten<E>(polls: seq<seq<E>>): seq<E> {
    if polls == [] then [] else Flatten(polls[..|polls| - 1]) + polls[|polls| - 1]
  }

  lemma FlattenNext<E>(polls: seq<seq<E>>, k: nat)
    requires k < |polls|
    ensures Flatten(polls[..k + 1]) == Flatten(polls[..k]) + polls[k]
  {
    assert polls[..k + 1][..k] == polls[..k];
  }

  /** The loop leaves after `n` polls, if `stops` tells from what was delivered so far whether
      the flag is set: it handles whole polls, and looks at the flag between two of them. */
  ghost predicate LeavesAfter<E>(polls: seq<seq<E>>, n: nat, stops: seq<E> -> bool) {
    && n <= |polls| && (n < |polls| ==> stops(Flatten(polls[..n])))
    && forall k | 0 <= k < n :: !stops(Flatten(polls[..k]))
  }

  /** The flag is never cleared. */
  ghost predicate Lasting<E>(polls: seq<seq<E>>, stops: seq<E> -> bool) {
    forall k | 0 <= k < |polls| && stops(Flatten(polls[..k])) :: stops(Flatten(polls[..k + 1]))
  }

  lemma {:induction false} StaysSet<E>(polls: seq<seq<E>>, stops: seq<E> -> bool, m: nat, n: nat)
    requires Lasting(polls, stops) && m <= n <= |polls| && stops(Flatten(polls[..m]))
    ensures stops(Flatten(polls[..n]))
  {
    if m < n {
      StaysSet(polls, stops, m, n - 1);
    }
  }

  /** A poll is handled exactly when nothing delivered before it stops the loop. */
  lemma PollHandled<E>(polls: seq<seq<E>>, n: nat, stops: seq<E> -> bool, m: nat)
    requires LeavesAfter(polls, n, stops) && Lasting(polls, stops) && m < |polls|
    ensures m < n <==> !stops(Flatten(polls[..m]))
  {
    if n <= m {
      StaysSet(polls, stops, n, m);
    }
  }
}
