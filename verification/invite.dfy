/** The INVITE session driver (src/mod/invite.c): how it reacts to session states and to
    487 responses, and what that does to a call. */
module Invite {
  import opened EventLoop

  /** The states of an invite session. */
  datatype InvState = Null | Calling | Incoming | Early | Connecting | Confirmed | Disconnected

  /** A session state entered, or a SIP message seen.  `made` says that the library produced
      the message it was asked for. */
  datatype Event =
    | Entered(state: InvState, made: bool)
    | Request(made: bool)
    | Response(code: nat, made: bool)

  /** Calls into the library: ending the session with a cause, in a state; making an ACK;
      sending the message just made. */
  datatype Action = End(cause: nat, at: InvState) | MakeAck | Send

  const OK := 200
  const REQUEST_TERMINATED := 487

  function React(cancel: bool, e: Event): seq<Action> {
    match e
    case Entered(Early, made) =>
      if cancel then [End(REQUEST_TERMINATED, Early)] + Sending(made) else []
    case Entered(Confirmed, made) => [End(OK, Confirmed)] + Sending(made)
    case Response(code, made) => if code == REQUEST_TERMINATED then [MakeAck] + Sending(made) else []
    case _ => []
  }

  function Sending(made: bool): seq<Action> {
    if made then [Send] else []
  }

  predicate Stops(e: Event) {
    (e.Entered? && e.state == Disconnected) || (e.Response? && e.code == REQUEST_TERMINATED)
  }

  function Reactions(cancel: bool, es: seq<Event>): seq<Action> {
    if es == [] then [] else Reactions(cancel, es[..|es| - 1]) + React(cancel, es[|es| - 1])
  }

  lemma {:induction false} ReactionsConcat(cancel: bool, a: seq<Event>, b: seq<Event>)
    ensures Reactions(cancel, a + b) == Reactions(cancel, a) + Reactions(cancel, b)
  {
    hide React;
    if b == [] {
      assert a + b == a;
    } else {
      var init := b[..|b| - 1];
      assert (a + b)[..|a + b| - 1] == a + init && (a + b)[|a + b| - 1] == b[|b| - 1];
      ReactionsConcat(cancel, a, init);
    }
  }

  lemma StoppedConcat(a: seq<Event>, b: seq<Event>)
    ensures Stopped(a + b) <==> Stopped(a) || Stopped(b)
  {
    hide Stops;
    assert forall i | 0 <= i < |a| :: (a + b)[i] == a[i];
    assert forall i | 0 <= i < |b| :: (a + b)[|a| + i] == b[i];
    if Stopped(a + b) {
      var i :| 0 <= i < |a + b| && Stops((a + b)[i]);
      assert i >= |a| ==> (a + b)[i] == b[i - |a|];
    }
  }

  lemma NothingYet(cancel: bool)
    ensures !Stopped([]) && Reactions(cancel, []) == []
  {
  }

  /** The driver, once it has seen `es`, has stopped the loop. */
  predicate Stopped(es: seq<Event>) {
    exists i | 0 <= i < |es| :: Stops(es[i])
  }

  class Driver {
    const earlyCancel: bool
    const loop: Loop
    var log: seq<Action>

    constructor (cancel: bool, loop: Loop)
      ensures earlyCancel == cancel && this.loop == loop && log == []
    {
      earlyCancel := cancel;
      this.loop := loop;
      log := [];
    }

    method OnRxResponse(msg: Event)
      requires !msg.Entered?
      modifies this, loop
      ensures log == old(log) + React(earlyCancel, msg)
      ensures loop.stop <==> old(loop.stop) || (msg.Response? && msg.code == 487)
    {
      if msg.Request? {
        return;
      }
      if msg.code == 487 {
        log := log + [MakeAck];
        if msg.made {
          log := log + [Send];
        }
        loop.Cancel();
      }
    }

    method CallOnStateChanged(state: InvState, made: bool)
      modifies this, loop
      ensures log == old(log) + React(earlyCancel, Entered(state, made))
      ensures loop.stop <==> old(loop.stop) || state == Disconnected
    {
      if state == Disconnected {
        loop.Cancel();
      } else if state == Early {
        if earlyCancel {
          log := log + [End(REQUEST_TERMINATED, state)];
          if made {
            log := log + [Send];
          }
        }
      } else if state == Confirmed {
        log := log + [End(OK, state)];
        if made {
          log := log + [Send];
        }
      }
    }

    /** A whole run of the session: the loop is stopped exactly when the session was
        disconnected or a 487 was seen. */
    method HandleEvents(es: seq<Event>)
      modifies this, loop
      ensures log == old(log) + Reactions(earlyCancel, es)
      ensures loop.stop <==> old(loop.stop) || Stopped(es)
    {
      hide React;
      for i := 0 to |es|
        invariant log == old(log) + Reactions(earlyCancel, es[..i])
        invariant loop.stop <==> old(loop.stop) || exists k | 0 <= k < i :: Stops(es[k])
      {
        assert es[..i + 1][..i] == es[..i];
        if es[i].Entered? {
          CallOnStateChanged(es[i].state, es[i].made);
        } else {
          OnRxResponse(es[i]);
        }
      }
      assert es[..|es|] == es;
    }

    /** INVITE under the main loop. */
    method MainLoop(polls: seq<seq<Event>>) returns (n: nat)
      requires !loop.stop
      modifies this, loop
      ensures LeavesAfter(polls, n, Stopped)
      ensures log == old(log) + Reactions(earlyCancel, Flatten(polls[..n]))
    {
      hide Stopped, Reactions;
      NothingYet(earlyCancel);
      n := 0;
      while !loop.stop && n < |polls|
        invariant n <= |polls|
        invariant log == old(log) + Reactions(earlyCancel, Flatten(polls[..n]))
        invariant loop.stop == Stopped(Flatten(polls[..n]))
        invariant forall k | 0 <= k < n :: !Stopped(Flatten(polls[..k]))
        decreases |polls| - n
      {
        FlattenNext(polls, n);
        StoppedConcat(Flatten(polls[..n]), polls[n]);
        ghost var (before, now) := (Reactions(earlyCancel, Flatten(polls[..n])), Reactions(earlyCancel, polls[n]));
        ReactionsConcat(earlyCancel, Flatten(polls[..n]), polls[n]);
        assert (old(log) + before) + now == old(log) + (before + now);
        HandleEvents(polls[n]);
        n := n + 1;
      }
    }
  }

  /** The causes of the end requests among `actions`, in order. */
  function Causes(actions: seq<Action>): seq<nat> {
    if actions == [] then []
    else (if actions[0].End? then [actions[0].cause] else []) + Causes(actions[1..])
  }

  /** All that is assumed of a session: once it is confirmed, it can only be disconnected. */
  ghost predicate AfterConfirmed(es: seq<Event>) {
    forall i, j | 0 <= i < j < |es| && es[i].Entered? && es[j].Entered? && es[i].state == Confirmed ::
      es[j].state == Disconnected
  }

  function Entries(es: seq<Event>, s: InvState): nat {
    if es == [] then 0
    else Entries(es[..|es| - 1], s) +
         var e := es[|es| - 1]; if e.Entered? && e.state == s then 1 else 0
  }

  function Repeat(cause: nat, n: nat): seq<nat> {
    if n == 0 then [] else Repeat(cause, n - 1) + [cause]
  }

  lemma {:induction false} CausesConcat(a: seq<Action>, b: seq<Action>)
    ensures Causes(a + b) == Causes(a) + Causes(b)
  {
    if a == [] {
      assert a + b == b;
    } else {
      assert (a + b)[0] == a[0] && (a + b)[1..] == a[1..] + b;
      CausesConcat(a[1..], b);
      var head := if a[0].End? then [a[0].cause] else [];
      assert head + (Causes(a[1..]) + Causes(b)) == (head + Causes(a[1..])) + Causes(b);
    }
  }

  lemma {:induction false} Entered1(es: seq<Event>, s: InvState)
    ensures Entries(es, s) > 0 <==> exists i | 0 <= i < |es| :: es[i].Entered? && es[i].state == s
  {
    if es != [] {
      var init := es[..|es| - 1];
      Entered1(init, s);
      assert forall i | 0 <= i < |init| :: init[i] == es[i];
    }
  }

  lemma CausesOfReaction(cancel: bool, e: Event)
    ensures Causes(React(cancel, e)) ==
            if e.Entered? && e.state == Early && cancel then [REQUEST_TERMINATED]
            else if e.Entered? && e.state == Confirmed then [OK]
            else []
  {
    var made := Sending(e.made);
    assert Causes([Send]) == [] by { assert [Send][1..] == []; }
    assert Causes(made) == [];
    forall a: Action ensures ([a] + made)[1..] == made {}
    forall a: Action ensures Causes([a] + made) == if a.End? then [a.cause] else [] {
      assert ([a] + made)[1..] == made;
    }
  }

  function Count(actions: seq<Action>, a: Action): nat {
    if actions == [] then 0 else Count(actions[..|actions| - 1], a) + if actions[|actions| - 1] == a then 1 else 0
  }

  lemma {:induction false} CountConcat(a: seq<Action>, b: seq<Action>, x: Action)
    ensures Count(a + b, x) == Count(a, x) + Count(b, x)
  {
    if b == [] {
      assert a + b == a;
    } else {
      assert (a + b)[..|a + b| - 1] == a + b[..|b| - 1];
      CountConcat(a, b[..|b| - 1], x);
    }
  }

  lemma CountOne(a: Action, x: Action)
    ensures Count([a], x) == if a == x then 1 else 0
  {
    assert [a][..0] == [];
  }

  lemma CountReaction(cancel: bool, e: Event, cause: nat, at: InvState)
    ensures Count(React(cancel, e), End(cause, at)) ==
            if e.Entered? && ((e.state == Early && cancel && (cause, at) == (REQUEST_TERMINATED, Early)) ||
                              (e.state == Confirmed && (cause, at) == (OK, Confirmed)))
            then 1 else 0
  {
    var r := React(cancel, e);
    if r != [] {
      CountOne(r[0], End(cause, at));
      CountOne(Send, End(cause, at));
      CountConcat([r[0]], Sending(e.made), End(cause, at));
      assert r == [r[0]] + Sending(e.made);
    }
  }

  /** In any run whatever: a BYE is asked for at every entry into the confirmed state, and a
      CANCEL at every entry into the early state with --cancel; as often, and not once more. */
  lemma {:induction false} OneRequestPerEntry(cancel: bool, es: seq<Event>)
    ensures Count(Reactions(cancel, es), End(200, Confirmed)) == Entries(es, Confirmed)
    ensures Count(Reactions(cancel, es), End(487, Early)) == if cancel then Entries(es, Early) else 0
  {
    hide React;
    if es != [] {
      var (init, e) := (es[..|es| - 1], es[|es| - 1]);
      OneRequestPerEntry(cancel, init);
      CountConcat(Reactions(cancel, init), React(cancel, e), End(OK, Confirmed));
      CountConcat(Reactions(cancel, init), React(cancel, e), End(REQUEST_TERMINATED, Early));
      CountReaction(cancel, e, OK, Confirmed);
      CountReaction(cancel, e, REQUEST_TERMINATED, Early);
    }
  }

  /** What a session is asked over its whole life, challenged and restarted or not: one CANCEL
      for each time it is early, and only with --cancel; then, if the call is ever confirmed,
      exactly one BYE, even when a 200 OK has crossed a CANCEL.  Nothing else and in no other
      order. */
  lemma {:induction false} EndRequests(cancel: bool, es: seq<Event>)
    requires AfterConfirmed(es)
    ensures Causes(Reactions(cancel, es)) ==
            Repeat(487, if cancel then Entries(es, Early) else 0)
            + if Entries(es, Confirmed) > 0 then [200] else []
    ensures Entries(es, Confirmed) <= 1
  {
    hide React;
    if es != [] {
      var (init, e) := (es[..|es| - 1], es[|es| - 1]);
      assert forall i | 0 <= i < |init| :: init[i] == es[i];
      EndRequests(cancel, init);
      CausesConcat(Reactions(cancel, init), React(cancel, e));
      CausesOfReaction(cancel, e);
      if e.Entered? && e.state in {Early, Confirmed} {
        Entered1(init, Confirmed);
      }
    }
  }

  /** In any run whatever: CANCEL is asked for only with --cancel and only in the early state,
      after a provisional response as section 9.1 of RFC 3261 wants it; BYE only once the
      call is confirmed. */
  lemma {:induction false} EndsInState(cancel: bool, es: seq<Event>, cause: nat, at: InvState)
    requires End(cause, at) in Reactions(cancel, es)
    ensures (cause == 487 && at == Early && cancel) || (cause == 200 && at == Confirmed)
    ensures Entries(es, at) > 0
  {
    var (init, e) := (es[..|es| - 1], es[|es| - 1]);
    if End(cause, at) in Reactions(cancel, init) {
      EndsInState(cancel, init, cause, at);
    }
  }

  function Refusals(es: seq<Event>): nat {
    if es == [] then 0
    else Refusals(es[..|es| - 1]) +
         var e := es[|es| - 1]; if e.Response? && e.code == 487 then 1 else 0
  }

  /** The event calls for a message, a CANCEL, a BYE or an ACK, and the library makes it. */
  predicate MessageMade(cancel: bool, e: Event) {
    e.made &&
    match e
    case Entered(state, _) => state == Confirmed || (state == Early && cancel)
    case Request(_) => false
    case Response(code, _) => code == 487
  }

  function MadeCount(cancel: bool, es: seq<Event>): nat {
    if es == [] then 0
    else MadeCount(cancel, es[..|es| - 1]) + if MessageMade(cancel, es[|es| - 1]) then 1 else 0
  }

  /** For every 487 an ACK is asked for once; exactly the messages that were made are sent; and
      each message sent directly follows the request for it. */
  lemma {:induction false} AcksAndSends(cancel: bool, es: seq<Event>)
    ensures Count(Reactions(cancel, es), MakeAck) == Refusals(es)
    ensures Count(Reactions(cancel, es), Send) == MadeCount(cancel, es)
    ensures var log := Reactions(cancel, es);
            forall i | 0 <= i < |log| && log[i] == Send :: i > 0 && log[i - 1] != Send
  {
    if es != [] {
      var (init, e) := (es[..|es| - 1], es[|es| - 1]);
      var (log, react) := (Reactions(cancel, init), React(cancel, e));
      AcksAndSends(cancel, init);
      CountConcat(log, react, MakeAck);
      CountConcat(log, react, Send);
      OneReaction(cancel, e);
      forall i | 0 <= i < |log + react| && (log + react)[i] == Send
        ensures i > 0 && (log + react)[i - 1] != Send
      {
        if i >= |log| {
          assert react[i - |log|] == Send;
        }
      }
    }
  }

  lemma OneReaction(cancel: bool, e: Event)
    ensures var r := React(cancel, e);
            && |r| <= 2 && (|r| > 0 ==> r[0] != Send) && (|r| == 2 ==> r[1] == Send)
            && Count(r, MakeAck) == (if e.Response? && e.code == 487 then 1 else 0)
            && Count(r, Send) == if MessageMade(cancel, e) then 1 else 0
  {
    var r := React(cancel, e);
    if r != [] {
      CountOne(r[0], MakeAck);
      CountOne(Send, MakeAck);
      CountOne(r[0], Send);
      CountOne(Send, Send);
      CountConcat([r[0]], Sending(e.made), MakeAck);
      CountConcat([r[0]], Sending(e.made), Send);
      assert r == [r[0]] + Sending(e.made);
    }
  }

  /** Every message that is made is sent at once: in the log its request and the sending stand
      next to each other, directly after all that the events before called for. */
  lemma {:induction false} SentAtOnce(cancel: bool, es: seq<Event>, i: nat)
    requires i < |es| && MessageMade(cancel, es[i])
    ensures var (log, p) := (Reactions(cancel, es), |Reactions(cancel, es[..i])|);
            && p + 1 < |log| && log[p + 1] == Send
            && log[p] == match es[i]
                         case Entered(state, _) => (if state == Early then End(487, Early) else End(200, Confirmed))
                         case _ => MakeAck
  {
    var init := es[..|es| - 1];
    if i < |init| {
      assert init[..i] == es[..i];
      SentAtOnce(cancel, init, i);
    } else {
      assert init == es[..i];
    }
  }

  /** In any run whatever, a BYE has been asked for by the end of the event that confirms the
      session, hence before anything that follows, its disconnection included. */
  lemma ByeAsked(cancel: bool, es: seq<Event>, i: nat)
    requires i < |es| && es[i].Entered? && es[i].state == Confirmed
    ensures forall j | i < j <= |es| :: End(200, Confirmed) in Reactions(cancel, es[..j])
  {
    forall j | i < j <= |es| ensures End(OK, Confirmed) in Reactions(cancel, es[..j]) {
      ReactionsMonotone(cancel, es[..j], i);
      assert es[..j][i] == es[i];
      assert React(cancel, es[i])[0] == End(OK, Confirmed);
    }
  }

  lemma {:induction false} EntriesConcat(a: seq<Event>, b: seq<Event>, s: InvState)
    ensures Entries(a + b, s) == Entries(a, s) + Entries(b, s)
  {
    if b == [] {
      assert a + b == a;
    } else {
      assert (a + b)[..|a + b| - 1] == a + b[..|b| - 1];
      EntriesConcat(a, b[..|b| - 1], s);
    }
  }

  lemma {:induction false} EntryPoll(polls: seq<seq<Event>>, n: nat, s: InvState) returns (m: nat)
    requires n <= |polls| && Entries(Flatten(polls[..n]), s) > 0
    ensures m < n && Entries(polls[m], s) > 0
  {
    if n == 0 {
      assert false;
    }
    FlattenNext(polls, n - 1);
    EntriesConcat(Flatten(polls[..n - 1]), polls[n - 1], s);
    if Entries(polls[n - 1], s) > 0 {
      m := n - 1;
    } else {
      m := EntryPoll(polls, n - 1, s);
    }
  }

  lemma {:induction false} EntryStays(polls: seq<seq<Event>>, m: nat, n: nat, s: InvState)
    requires m < n <= |polls| && Entries(polls[m], s) > 0
    ensures Entries(Flatten(polls[..n]), s) > 0
  {
    FlattenNext(polls, n - 1);
    EntriesConcat(Flatten(polls[..n - 1]), polls[n - 1], s);
    if m < n - 1 {
      EntryStays(polls, m, n - 1, s);
    }
  }

  /** Poll `m` enters the state, and no poll before delivered a disconnection or a 487. */
  predicate EntersIn(polls: seq<seq<Event>>, m: nat, s: InvState)
    requires m < |polls|
  {
    Entries(polls[m], s) > 0 && !Stopped(Flatten(polls[..m]))
  }

  lemma StopLasts(polls: seq<seq<Event>>)
    ensures Lasting(polls, Stopped)
  {
    forall k | 0 <= k < |polls| && Stopped(Flatten(polls[..k])) ensures Stopped(Flatten(polls[..k + 1])) {
      FlattenNext(polls, k);
      StoppedConcat(Flatten(polls[..k]), polls[k]);
    }
  }

  lemma {:induction false} CountIn(actions: seq<Action>, a: Action)
    ensures Count(actions, a) > 0 <==> a in actions
  {
    if actions != [] {
      var init := actions[..|actions| - 1];
      CountIn(init, a);
      assert actions == init + [actions[|actions| - 1]];
    }
  }

  /** Under the main loop: a BYE is asked for before the loop is left exactly when some poll
      confirms the session and no earlier poll stopped the loop. */
  lemma ByeBeforeLeaving(cancel: bool, polls: seq<seq<Event>>, n: nat)
    requires LeavesAfter(polls, n, Stopped)
    ensures End(200, Confirmed) in Reactions(cancel, Flatten(polls[..n])) <==>
            exists m | 0 <= m < |polls| :: EntersIn(polls, m, Confirmed)
  {
    hide Stopped, Entries, Reactions;
    var es := Flatten(polls[..n]);
    OneRequestPerEntry(cancel, es);
    CountIn(Reactions(cancel, es), End(OK, Confirmed));
    StopLasts(polls);
    if Entries(es, Confirmed) > 0 {
      var m := EntryPoll(polls, n, Confirmed);
      PollHandled(polls, n, Stopped, m);
      assert EntersIn(polls, m, Confirmed);
    } else if m: nat :| m < |polls| && EntersIn(polls, m, Confirmed) {
      PollHandled(polls, n, Stopped, m);
      EntryStays(polls, m, n, Confirmed);
    }
  }

  /** INVITE has stopped the loop exactly when it has seen a disconnection or a 487; so the main
      loop handles a poll exactly when neither came in an earlier one. */
  lemma InvitePollHandled(polls: seq<seq<Event>>, n: nat, m: nat)
    requires LeavesAfter(polls, n, Stopped) && m < |polls|
    ensures m < n <==> forall e | e in Flatten(polls[..m]) ::
                         !(e.Entered? && e.state == Disconnected) && !(e.Response? && e.code == 487)
  {
    StopLasts(polls);
    PollHandled(polls, n, Stopped, m);
    var es := Flatten(polls[..m]);
    assert forall i | 0 <= i < |es| :: es[i] in es;
  }

  /** A run on which no BYE is asked for: a 487 in one poll, the confirmation in the next. */
  lemma ConfirmedTooLate(cancel: bool, made: bool)
    ensures var polls := [[Response(487, made)], [Entered(Confirmed, made)]];
            LeavesAfter(polls, 1, Stopped) && End(200, Confirmed) !in Reactions(cancel, Flatten(polls[..1]))
  {
    hide Reactions;
    var polls := [[Response(REQUEST_TERMINATED, made)], [Entered(Confirmed, made)]];
    var es := Flatten(polls[..1]);
    FlattenNext(polls, 0);
    assert polls[..0] == [] && es == [] + polls[0] == [Response(REQUEST_TERMINATED, made)];
    NothingYet(cancel);
    assert Stops(es[0]);
    assert es[..0] == [] && Entries(es, Confirmed) == 0;
    OneRequestPerEntry(cancel, es);
    CountIn(Reactions(cancel, es), End(OK, Confirmed));
  }

  lemma {:induction false} ReactionsMonotone(cancel: bool, es: seq<Event>, i: nat)
    requires i < |es|
    ensures forall a | a in React(cancel, es[i]) :: a in Reactions(cancel, es)
  {
    if i < |es| - 1 {
      ReactionsMonotone(cancel, es[..|es| - 1], i);
    }
  }
}
