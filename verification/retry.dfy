/** One retry with credentials, then give up: the callback pair of src/mod/ping.c, which
    notify.c, message.c and refer.c repeat. */
module Retry {
  import opened EventLoop

  /** How preparing the authenticated request goes: `pjsip_auth_clt_init` or
      `pjsip_auth_clt_reinit_req` may fail. */
  datatype Auth = InitFails | ReinitFails | Ready

  /** A response reaching the module, and a transaction reporting its final status. */
  datatype Event = Received(code: nat) | Completed(code: nat, auth: Auth)

  datatype Request = Plain | WithCredentials

  datatype State = State(authTries: nat, stop: bool, sent: seq<Request>)

  /** The state once the command has sent its request. */
  const STARTED := State(0, false, [Plain])

  function Step(s: State, e: Event): State {
    match e
    case Received(code) => if IsChallenge(code) then s else s.(stop := true)
    case Completed(code, auth) =>
      if !IsChallenge(code) then s
      else if s.authTries >= 1 then s.(authTries := s.authTries + 1, stop := true)
      else s.(authTries := 1, sent := if auth.Ready? then s.sent + [WithCredentials] else s.sent)
  }

  function Run(s: State, es: seq<Event>): State {
    if es == [] then s else Step(Run(s, es[..|es| - 1]), es[|es| - 1])
  }

  class Client {
    var authTries: nat
    var sent: seq<Request>
    const loop: Loop

    ghost function Now(): State
      reads this, loop
    {
      State(authTries, loop.stop, sent)
    }

    /** The command: it sends the first request. */
    constructor (loop: Loop)
      requires !loop.stop
      ensures Now() == STARTED && this.loop == loop
    {
      this.loop := loop;
      authTries := 0;
      sent := [Plain];
    }

    method OnRxResponse(code: nat)
      modifies this, loop
      ensures Now() == Step(old(Now()), Received(code))
    {
      if code == 401 || code == 407 {
        return;
      }
      loop.Cancel();
    }

    method SendCb(code: nat, auth: Auth)
      modifies this, loop
      ensures Now() == Step(old(Now()), Completed(code, auth))
    {
      if code == 401 || code == 407 {
        authTries := authTries + 1;
        if authTries > 1 {
          loop.Cancel();
          return;
        }
        if auth == InitFails {
          return;
        }
        if auth == ReinitFails {
          return;
        }
        sent := sent + [WithCredentials];
      }
    }

    /** One `pjsip_endpt_handle_events` call that delivers `events`. */
    method HandleEvents(events: seq<Event>)
      modifies this, loop
      ensures Now() == Run(old(Now()), events)
    {
      for i := 0 to |events|
        invariant Now() == Run(old(Now()), events[..i])
      {
        assert events[..i + 1][..i] == events[..i];
        match events[i]
        case Received(code) => OnRxResponse(code);
        case Completed(code, auth) => SendCb(code, auth);
      }
      assert events[..|events|] == events;
    }

    /** The main loop against an environment: it handles whole polls, and leaves at the first
        point between two of them where the flag is set. */
    method MainLoop(polls: seq<seq<Event>>) returns (n: nat)
      modifies this, loop
      ensures n <= |polls| && (n < |polls| ==> loop.stop)
      ensures Now() == Run(old(Now()), Flatten(polls[..n]))
      ensures forall k | 0 <= k < n :: !Run(old(Now()), Flatten(polls[..k])).stop
      ensures old(Now()) == STARTED ==> LeavesAfter(polls, n, Stopped)
    {
      n := 0;
      while !loop.stop && n < |polls|
        invariant n <= |polls|
        invariant Now() == Run(old(Now()), Flatten(polls[..n]))
        invariant forall k | 0 <= k < n :: !Run(old(Now()), Flatten(polls[..k])).stop
        decreases |polls| - n
      {
        assert polls[..n + 1][..n] == polls[..n];
        RunConcat(old(Now()), Flatten(polls[..n]), polls[n]);
        HandleEvents(polls[n]);
        n := n + 1;
      }
    }
  }

  /** The command, once it has seen `es`, has stopped the loop. */
  predicate Stopped(es: seq<Event>) {
    Run(STARTED, es).stop
  }

  lemma {:induction false} RunConcat(s: State, a: seq<Event>, b: seq<Event>)
    ensures Run(s, a + b) == Run(Run(s, a), b)
  {
    if b == [] {
      assert a + b == a;
    } else {
      assert (a + b)[..|a + b| - 1] == a + b[..|b| - 1];
      RunConcat(s, a, b[..|b| - 1]);
    }
  }

  predicate Rejected(e: Event) {
    e.Completed? && e.code in {401, 407}
  }

  predicate Ended(e: Event) {
    e.Completed?
  }

  function Count(es: seq<Event>, p: Event -> bool): nat {
    if es == [] then 0 else Count(es[..|es| - 1], p) + if p(es[|es| - 1]) then 1 else 0
  }

  /** How many transactions ended in a challenge. */
  function Rejections(es: seq<Event>): nat {
    Count(es, Rejected)
  }

  ghost predicate Answered(es: seq<Event>) {
    exists i | 0 <= i < |es| :: es[i].Received? && es[i].code !in {401, 407}
  }

  /** The first transaction that ended in a challenge could be repeated with credentials. */
  ghost predicate FirstRejectionReady(es: seq<Event>) {
    exists i | 0 <= i < |es| :: Rejected(es[i]) && Rejections(es[..i]) == 0 && es[i].auth.Ready?
  }

  lemma {:induction false} CountPrefix(es: seq<Event>, p: Event -> bool, i: nat)
    requires i <= |es|
    ensures Count(es[..i], p) <= Count(es, p)
    ensures i < |es| && p(es[i]) ==> Count(es[..i], p) < Count(es, p)
  {
    if i == |es| {
      assert es[..i] == es;
    } else {
      var init := es[..|es| - 1];
      assert init[..i] == es[..i];
      CountPrefix(init, p, i);
    }
  }

  /** What any trace of events leaves behind: the loop is stopped exactly when some response
      was not a challenge or two transactions were rejected, and at most one more request was
      sent, with credentials, exactly when the first rejection could be answered. */
  lemma {:induction false} RunMeaning(es: seq<Event>)
    ensures var s := Run(STARTED, es);
            && s.authTries == Rejections(es)
            && (s.stop <==> Answered(es) || Rejections(es) >= 2)
            && s.sent == if FirstRejectionReady(es) then [Plain, WithCredentials] else [Plain]
  {
    if es != [] {
      var (init, e) := (es[..|es| - 1], es[|es| - 1]);
      RunMeaning(init);
      assert Answered(es) <==> Answered(init) || (e.Received? && e.code !in {401, 407}) by {
        if Answered(init) {
          var i :| 0 <= i < |init| && init[i].Received? && init[i].code !in {401, 407};
          assert es[i] == init[i];
        }
      }
      assert FirstRejectionReady(es) <==>
             FirstRejectionReady(init) || (Rejected(e) && Rejections(init) == 0 && e.auth.Ready?) by {
        assert forall i | 0 <= i < |init| :: init[..i] == es[..i] && init[i] == es[i];
      }
      if FirstRejectionReady(init) {
        var i :| 0 <= i < |init| && Rejected(init[i]) && Rejections(init[..i]) == 0 && init[i].auth.Ready?;
        CountPrefix(init, Rejected, i);
      }
    }
  }

  /** A request goes out only as the first rejection is handled. */
  lemma ResentOnce(es: seq<Event>, e: Event)
    ensures var (s, s') := (Run(STARTED, es), Run(STARTED, es + [e]));
            s'.sent != s.sent ==>
              Rejected(e) && Rejections(es) == 0 && s.sent == [Plain] && s'.sent == [Plain, WithCredentials]
  {
    RunMeaning(es);
    RunConcat(STARTED, es, [e]);
    assert [e][..0] == [];
    if FirstRejectionReady(es) {
      var i :| 0 <= i < |es| && Rejected(es[i]) && Rejections(es[..i]) == 0 && es[i].auth.Ready?;
      CountPrefix(es, Rejected, i);
    }
  }

  /** Once stopped, always stopped. */
  lemma {:induction false} StopStays(s: State, es: seq<Event>)
    requires s.stop
    ensures Run(s, es).stop
  {
    if es != [] {
      StopStays(s, es[..|es| - 1]);
    }
  }

  /** Every request that was sent has been completed. */
  ghost predicate Complete(es: seq<Event>) {
    Count(es, Ended) == |Run(STARTED, es).sent|
  }

  /** Some transaction ended in another status than a challenge. */
  ghost predicate EndedOtherwise(es: seq<Event>) {
    exists i | 0 <= i < |es| :: Ended(es[i]) && !Rejected(es[i])
  }

  lemma {:induction false} EndedOrRejected(es: seq<Event>)
    ensures Rejections(es) <= Count(es, Ended)
    ensures Rejections(es) < Count(es, Ended) <==> EndedOtherwise(es)
  {
    if es != [] {
      var (init, e) := (es[..|es| - 1], es[|es| - 1]);
      EndedOrRejected(init);
      if EndedOtherwise(init) {
        var i :| 0 <= i < |init| && Ended(init[i]) && !Rejected(init[i]);
        assert es[i] == init[i];
      }
      assert forall i | 0 <= i < |init| :: init[i] == es[i];
    }
  }

  /** When the program never ends: with nothing outstanding, the flag is still unset exactly
      when no response but challenges was received, and either a transaction ended by itself,
      in a timeout, or the only request was challenged and credentials could not be prepared. */
  lemma LeftRunning(es: seq<Event>)
    requires Complete(es)
    ensures !Run(STARTED, es).stop <==>
            !Answered(es) && (EndedOtherwise(es) || (Rejections(es) == 1 && !FirstRejectionReady(es)))
  {
    RunMeaning(es);
    EndedOrRejected(es);
    if FirstRejectionReady(es) {
      var i :| 0 <= i < |es| && Rejected(es[i]) && Rejections(es[..i]) == 0 && es[i].auth.Ready?;
      CountPrefix(es, Rejected, i);
    }
  }

  // ----- the retry and the main loop -----

  /** Poll `m` delivers the first challenged completion, credentials can be prepared for it, and
      no poll before delivered a response other than a challenge. */
  ghost predicate RetriesIn(polls: seq<seq<Event>>, m: nat)
    requires m < |polls|
  {
    && Rejections(Flatten(polls[..m])) == 0 && !Answered(Flatten(polls[..m]))
    && FirstRejectionReady(Flatten(polls[..m + 1]))
  }

  /** A ready first rejection stays one, and is new only where there was no rejection. */
  lemma ReadyConcat(a: seq<Event>, b: seq<Event>)
    ensures FirstRejectionReady(a) ==> FirstRejectionReady(a + b)
    ensures FirstRejectionReady(a + b) && !FirstRejectionReady(a) ==> Rejections(a) == 0
  {
    assert forall i | 0 <= i < |a| :: (a + b)[i] == a[i] && (a + b)[..i] == a[..i];
    if FirstRejectionReady(a + b) && !FirstRejectionReady(a) {
      var i :| 0 <= i < |a + b| && Rejected((a + b)[i]) && Rejections((a + b)[..i]) == 0 && (a + b)[i].auth.Ready?;
      if i >= |a| {
        assert (a + b)[..i][..|a|] == a;
        CountPrefix((a + b)[..i], Rejected, |a|);
      }
    }
  }

  lemma {:induction false} ReadyStays(polls: seq<seq<Event>>, m: nat, n: nat)
    requires m <= n <= |polls| && FirstRejectionReady(Flatten(polls[..m]))
    ensures FirstRejectionReady(Flatten(polls[..n]))
  {
    if m < n {
      ReadyStays(polls, m, n - 1);
      FlattenNext(polls, n - 1);
      ReadyConcat(Flatten(polls[..n - 1]), polls[n - 1]);
    }
  }

  lemma StopLasts(polls: seq<seq<Event>>)
    ensures Lasting(polls, Stopped)
  {
    forall k | 0 <= k < |polls| && Stopped(Flatten(polls[..k])) ensures Stopped(Flatten(polls[..k + 1])) {
      FlattenNext(polls, k);
      RunConcat(STARTED, Flatten(polls[..k]), polls[k]);
      StopStays(Run(STARTED, Flatten(polls[..k])), polls[k]);
    }
  }

  lemma {:induction false} FirstReadyPoll(polls: seq<seq<Event>>, n: nat) returns (m: nat)
    requires n <= |polls| && FirstRejectionReady(Flatten(polls[..n]))
    ensures m < n && FirstRejectionReady(Flatten(polls[..m + 1])) && Rejections(Flatten(polls[..m])) == 0
  {
    if n == 0 {
      assert false;
    }
    FlattenNext(polls, n - 1);
    ReadyConcat(Flatten(polls[..n - 1]), polls[n - 1]);
    if FirstRejectionReady(Flatten(polls[..n - 1])) {
      m := FirstReadyPoll(polls, n - 1);
    } else {
      m := n - 1;
    }
  }

  /** The second request is sent before the loop is left exactly when some poll retries.  A
      provisional response in an earlier poll therefore ends the command without a retry. */
  lemma RetryBeforeLeaving(polls: seq<seq<Event>>, n: nat)
    requires LeavesAfter(polls, n, Stopped)
    ensures Run(STARTED, Flatten(polls[..n])).sent ==
            if exists m | 0 <= m < |polls| :: RetriesIn(polls, m) then [Plain, WithCredentials] else [Plain]
  {
    RunMeaning(Flatten(polls[..n]));
    if FirstRejectionReady(Flatten(polls[..n])) {
      var m := FirstReadyPoll(polls, n);
      RunMeaning(Flatten(polls[..m]));
      assert RetriesIn(polls, m);
    } else if m: nat :| m < |polls| && RetriesIn(polls, m) {
      RunMeaning(Flatten(polls[..m]));
      StopLasts(polls);
      PollHandled(polls, n, Stopped, m);
      ReadyStays(polls, m + 1, n);
    }
  }

  /** Two polls, a provisional response and then a challenge: the loop is left after the first
      and the challenge is never handled. */
  lemma ProvisionalEndsPing(auth: Auth)
    ensures var polls := [[Received(100)], [Received(401), Completed(401, auth)]];
            LeavesAfter(polls, 1, Stopped) && Run(STARTED, Flatten(polls[..1])).sent == [Plain]
  {
    var polls := [[Received(100)], [Received(401), Completed(401, auth)]];
    FlattenNext(polls, 0);
    assert polls[..0] == [] && Flatten(polls[..1]) == [] + [Received(100)] == [Received(100)];
    assert [Received(100)][..0] == [];
  }
}
