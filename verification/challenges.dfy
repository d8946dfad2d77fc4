/** Giving up on repeated challenges in a module below the transaction layer: PUBLISH counts
    every response (src/mod/publish.c), SUBSCRIBE counts challenges (src/mod/subscribe.c).
    A challenge that is swallowed does not reach the library, which would answer it. */
module Challenges {
  import opened PjLib
  import opened EventLoop

  datatype Message = Request | Response(code: nat)

  predicate IsChallengeMsg(m: Message) {
    m.Response? && IsChallenge(m.code)
  }

  /** The `auth_tries` counter one later: an `unsigned short` wraps. */
  function Next(tries: uint16): uint16 {
    ToUint16(tries + 1)
  }

  /** Which messages PUBLISH swallows, from a counter value on. */
  function PublishVerdicts(tries: uint16, ms: seq<Message>): (v: seq<bool>)
    ensures |v| == |ms|
    decreases ms
  {
    if ms == [] then []
    else [IsChallengeMsg(ms[0]) && Next(tries) > 1] + PublishVerdicts(Next(tries), ms[1..])
  }

  /** Which responses SUBSCRIBE swallows, from a counter value on. */
  function SubscribeVerdicts(tries: uint16, ms: seq<Message>): (v: seq<bool>)
    ensures |v| == |ms|
    decreases ms
  {
    if ms == [] then []
    else
      var tries' := if IsChallengeMsg(ms[0]) then Next(tries) else tries;
      [IsChallengeMsg(ms[0]) && tries' > 1] + SubscribeVerdicts(tries', ms[1..])
  }

  /** What PUBLISH runs on: messages, and the callback of the library. */
  datatype PublishEvent = Arrived(msg: Message) | CalledBack

  function Arrivals(es: seq<PublishEvent>): seq<Message> {
    if es == [] then []
    else (if es[0].Arrived? then [es[0].msg] else []) + Arrivals(es[1..])
  }

  /** A challenge is swallowed, or the callback runs. */
  predicate PublishEnds(tries: uint16, es: seq<PublishEvent>) {
    true in PublishVerdicts(tries, Arrivals(es)) || CalledBack in es
  }

  /** The counter after a run. */
  function PublishCount(tries: uint16, es: seq<PublishEvent>): uint16
    decreases es
  {
    if es == [] then tries
    else PublishCount(if es[0].Arrived? then Next(tries) else tries, es[1..])
  }

  /** PUBLISH, once it has seen `es`, has stopped the loop. */
  predicate PublishStopped(es: seq<PublishEvent>) {
    PublishEnds(0, es)
  }

  lemma {:induction false} PublishConcat(tries: uint16, a: seq<PublishEvent>, b: seq<PublishEvent>)
    ensures PublishEnds(tries, a + b) <==> PublishEnds(tries, a) || PublishEnds(PublishCount(tries, a), b)
    ensures PublishCount(tries, a + b) == PublishCount(PublishCount(tries, a), b)
    decreases a
  {
    hide PublishEnds, Next;
    if a == [] {
      assert a + b == b;
      NoPublishEnd(tries);
    } else {
      assert (a + b)[0] == a[0] && (a + b)[1..] == a[1..] + b;
      PublishTail(tries, a);
      PublishTail(tries, a + b);
      PublishConcat(if a[0].Arrived? then Next(tries) else tries, a[1..], b);
    }
  }

  lemma NoPublishEnd(tries: uint16)
    ensures !PublishEnds(tries, []) && PublishCount(tries, []) == tries
  {
  }

  lemma PublishTail(tries: uint16, es: seq<PublishEvent>)
    requires es != []
    ensures PublishEnds(tries, es) <==>
            match es[0]
            case Arrived(msg) => (IsChallengeMsg(msg) && Next(tries) > 1) || PublishEnds(Next(tries), es[1..])
            case CalledBack => true
  {
    var (e, rest) := (es[0], es[1..]);
    assert es == [e] + rest;
    if e.Arrived? {
      assert Arrivals(es)[0] == e.msg && Arrivals(es)[1..] == Arrivals(rest);
    }
  }

  class Publisher {
    var authTries: uint16
    const loop: Loop

    constructor (loop: Loop)
      ensures authTries == 0 && this.loop == loop
    {
      this.loop := loop;
      authTries := 0;
    }

    method OnRxResponse(msg: Message) returns (swallow: bool)
      modifies this, loop
      ensures authTries == Next(old(authTries))
      ensures swallow <==> msg.Response? && msg.code in {401, 407} && authTries > 1
      ensures loop.stop <==> old(loop.stop) || swallow
    {
      authTries := ToUint16(authTries + 1);
      if msg.Request? {
        return false;
      }
      if msg.code == 407 || msg.code == 401 {
        if authTries > 1 {
          loop.Cancel();
          return true;
        }
      }
      return false;
    }

    /** `publish_cb`: the library is done with the request. */
    method PublishCb()
      modifies loop
      ensures loop.stop
    {
      loop.Cancel();
    }

    /** A whole run of PUBLISH: the loop is stopped exactly when a challenge was swallowed or
        the callback ran. */
    method HandleEvents(es: seq<PublishEvent>)
      modifies this, loop
      ensures loop.stop <==> old(loop.stop) || PublishEnds(old(authTries), es)
      ensures authTries == PublishCount(old(authTries), es)
    {
      for i := 0 to |es|
        invariant PublishCount(authTries, es[i..]) == PublishCount(old(authTries), es)
        invariant (loop.stop || PublishEnds(authTries, es[i..])) <==>
                  (old(loop.stop) || PublishEnds(old(authTries), es))
      {
        PublishTail(authTries, es[i..]);
        assert es[i..][1..] == es[i + 1..];
        match es[i]
        case Arrived(msg) => var _ := OnRxResponse(msg);
        case CalledBack => PublishCb();
      }
    }

    /** PUBLISH under the main loop. */
    method MainLoop(polls: seq<seq<PublishEvent>>) returns (n: nat)
      requires authTries == 0 && !loop.stop
      modifies this, loop
      ensures LeavesAfter(polls, n, PublishStopped)
    {
      hide PublishEnds, PublishCount;
      NoPublishEnd(0);
      n := 0;
      while !loop.stop && n < |polls|
        invariant n <= |polls|
        invariant authTries == PublishCount(0, Flatten(polls[..n]))
        invariant loop.stop == PublishStopped(Flatten(polls[..n]))
        invariant forall k | 0 <= k < n :: !PublishStopped(Flatten(polls[..k]))
        decreases |polls| - n
      {
        FlattenNext(polls, n);
        PublishConcat(0, Flatten(polls[..n]), polls[n]);
        HandleEvents(polls[n]);
        n := n + 1;
      }
    }

    method Receive(ms: seq<Message>) returns (verdicts: seq<bool>)
      modifies this, loop
      ensures verdicts == PublishVerdicts(old(authTries), ms)
      ensures loop.stop <==> old(loop.stop) || true in verdicts
    {
      ghost var all := PublishVerdicts(authTries, ms);
      verdicts := [];
      for i := 0 to |ms|
        invariant verdicts == all[..i] && PublishVerdicts(authTries, ms[i..]) == all[i..]
        invariant loop.stop <==> old(loop.stop) || true in verdicts
      {
        assert ms[i..][1..] == ms[i + 1..] && all[i..][1..] == all[i + 1..];
        var swallow := OnRxResponse(ms[i]);
        assert swallow == all[i..][0];
        assert all[..i + 1] == verdicts + [swallow];
        verdicts := verdicts + [swallow];
      }
    }
  }

  datatype SubState = Active | Terminated | Other

  /** What SUBSCRIBE runs on: responses, subscription states and transaction statuses. */
  datatype SubscribeEvent = Answered(code: nat) | Entered(state: SubState) | Reported(code: nat)

  function Answers(es: seq<SubscribeEvent>): seq<Message> {
    if es == [] then []
    else (if es[0].Answered? then [Response(es[0].code)] else []) + Answers(es[1..])
  }

  /** The event ends the command by itself. */
  predicate Ends(e: SubscribeEvent) {
    (e.Entered? && e.state != Other) || (e.Reported? && e.code == 408)
  }

  /** A challenge is swallowed, or some event ends the command. */
  predicate SubscribeEnds(tries: uint16, es: seq<SubscribeEvent>) {
    true in SubscribeVerdicts(tries, Answers(es)) || exists e | e in es :: Ends(e)
  }

  /** The counter after a run. */
  function SubscribeCount(tries: uint16, es: seq<SubscribeEvent>): uint16
    decreases es
  {
    if es == [] then tries
    else SubscribeCount(if es[0].Answered? && IsChallenge(es[0].code) then Next(tries) else tries, es[1..])
  }

  /** SUBSCRIBE, once it has seen `es`, has stopped the loop. */
  predicate SubscribeStopped(es: seq<SubscribeEvent>) {
    SubscribeEnds(0, es)
  }

  lemma {:induction false} SubscribeConcat(tries: uint16, a: seq<SubscribeEvent>, b: seq<SubscribeEvent>)
    ensures SubscribeEnds(tries, a + b) <==> SubscribeEnds(tries, a) || SubscribeEnds(SubscribeCount(tries, a), b)
    ensures SubscribeCount(tries, a + b) == SubscribeCount(SubscribeCount(tries, a), b)
    decreases a
  {
    hide SubscribeEnds, Next, Ends;
    if a == [] {
      assert a + b == b;
      NoSubscribeEnd(tries);
    } else {
      assert (a + b)[0] == a[0] && (a + b)[1..] == a[1..] + b;
      SubscribeTail(tries, a);
      SubscribeTail(tries, a + b);
      SubscribeConcat(if a[0].Answered? && IsChallenge(a[0].code) then Next(tries) else tries, a[1..], b);
    }
  }

  lemma NoSubscribeEnd(tries: uint16)
    ensures !SubscribeEnds(tries, []) && SubscribeCount(tries, []) == tries
  {
  }

  lemma SubscribeTail(tries: uint16, es: seq<SubscribeEvent>)
    requires es != []
    ensures SubscribeEnds(tries, es) <==>
            match es[0]
            case Answered(code) =>
              var next := if IsChallenge(code) then Next(tries) else tries;
              (IsChallenge(code) && next > 1) || SubscribeEnds(next, es[1..])
            case e => Ends(e) || SubscribeEnds(tries, es[1..])
  {
    var (e, rest) := (es[0], es[1..]);
    assert es == [e] + rest;
    if e.Answered? {
      assert Answers(es)[0] == Response(e.code) && Answers(es)[1..] == Answers(rest);
    } else {
      assert Answers(es) == Answers(rest);
    }
  }

  class Subscriber {
    var authTries: uint16
    const loop: Loop

    constructor (loop: Loop)
      ensures authTries == 0 && this.loop == loop
    {
      this.loop := loop;
      authTries := 0;
    }

    method OnRxResponse(code: nat) returns (swallow: bool)
      modifies this, loop
      ensures authTries == if code in {401, 407} then Next(old(authTries)) else old(authTries)
      ensures swallow <==> code in {401, 407} && authTries > 1
      ensures loop.stop <==> old(loop.stop) || swallow
    {
      if code == 407 || code == 401 {
        authTries := ToUint16(authTries + 1);
        if authTries > 1 {
          loop.Cancel();
          return true;
        }
        return false;
      }
      return false;
    }

    method OnEvsubState(state: SubState)
      modifies loop
      ensures loop.stop <==> old(loop.stop) || state != Other
    {
      if state == Active {
        loop.Cancel();
      } else if state == Terminated {
        loop.Cancel();
      }
    }

    method OnTsxState(code: nat)
      modifies loop
      ensures loop.stop <==> old(loop.stop) || code == 408
    {
      if code == 408 {
        loop.Cancel();
      }
    }

    /** A whole run of SUBSCRIBE: the loop is stopped exactly when a challenge was swallowed,
        the subscription became active or terminated, or a transaction timed out. */
    method HandleEvents(es: seq<SubscribeEvent>)
      modifies this, loop
      ensures loop.stop <==> old(loop.stop) || SubscribeEnds(old(authTries), es)
      ensures authTries == SubscribeCount(old(authTries), es)
    {
      for i := 0 to |es|
        invariant SubscribeCount(authTries, es[i..]) == SubscribeCount(old(authTries), es)
        invariant (loop.stop || SubscribeEnds(authTries, es[i..])) <==>
                  (old(loop.stop) || SubscribeEnds(old(authTries), es))
      {
        SubscribeTail(authTries, es[i..]);
        assert es[i..][1..] == es[i + 1..];
        match es[i]
        case Answered(code) => var _ := OnRxResponse(code);
        case Entered(state) => OnEvsubState(state);
        case Reported(code) => OnTsxState(code);
      }
    }

    /** SUBSCRIBE under the main loop. */
    method MainLoop(polls: seq<seq<SubscribeEvent>>) returns (n: nat)
      requires authTries == 0 && !loop.stop
      modifies this, loop
      ensures LeavesAfter(polls, n, SubscribeStopped)
    {
      hide SubscribeEnds, SubscribeCount;
      NoSubscribeEnd(0);
      n := 0;
      while !loop.stop && n < |polls|
        invariant n <= |polls|
        invariant authTries == SubscribeCount(0, Flatten(polls[..n]))
        invariant loop.stop == SubscribeStopped(Flatten(polls[..n]))
        invariant forall k | 0 <= k < n :: !SubscribeStopped(Flatten(polls[..k]))
        decreases |polls| - n
      {
        FlattenNext(polls, n);
        SubscribeConcat(0, Flatten(polls[..n]), polls[n]);
        HandleEvents(polls[n]);
        n := n + 1;
      }
    }

    method Receive(ms: seq<Message>) returns (verdicts: seq<bool>)
      requires forall m | m in ms :: m.Response?
      modifies this, loop
      ensures verdicts == SubscribeVerdicts(old(authTries), ms)
      ensures loop.stop <==> old(loop.stop) || true in verdicts
    {
      ghost var all := SubscribeVerdicts(authTries, ms);
      verdicts := [];
      for i := 0 to |ms|
        invariant verdicts == all[..i] && SubscribeVerdicts(authTries, ms[i..]) == all[i..]
        invariant loop.stop <==> old(loop.stop) || true in verdicts
      {
        assert ms[i..][1..] == ms[i + 1..] && all[i..][1..] == all[i + 1..];
        assert ms[i] in ms;
        var swallow := OnRxResponse(ms[i].code);
        assert swallow == all[i..][0];
        assert all[..i + 1] == verdicts + [swallow];
        verdicts := verdicts + [swallow];
      }
    }
  }

  function ChallengeCount(ms: seq<Message>): nat {
    if ms == [] then 0
    else (if ms[0].Response? && ms[0].code in {401, 407} then 1 else 0) + ChallengeCount(ms[1..])
  }

  lemma WrapAdd(a: nat, b: nat)
    ensures ToUint16(ToUint16(a) + b) == ToUint16(a + b)
  {
  }

  lemma NoWrap(n: nat)
    requires n <= 65535
    ensures ToUint16(n) == n
  {
  }

  /** Closed form: PUBLISH swallows the k-th message exactly when it is a challenge and k, as
      the counter holds it, exceeds 1. */
  lemma {:induction false} PublishClosedForm(tries: uint16, ms: seq<Message>, k: nat)
    requires k < |ms|
    ensures PublishVerdicts(tries, ms)[k] <==>
            ms[k].Response? && ms[k].code in {401, 407} && ToUint16(tries + k + 1) > 1
    decreases ms
  {
    if k > 0 {
      PublishClosedForm(Next(tries), ms[1..], k - 1);
      WrapAdd(tries + 1, k);
    }
  }

  /** SUBSCRIBE swallows a challenge exactly when the number of challenges up to it, as the
      counter holds it, exceeds 1. */
  lemma {:induction false} SubscribeClosedForm(tries: uint16, ms: seq<Message>, k: nat)
    requires k < |ms|
    ensures SubscribeVerdicts(tries, ms)[k] <==>
            ms[k].Response? && ms[k].code in {401, 407} && ToUint16(tries + ChallengeCount(ms[..k + 1])) > 1
    decreases ms
  {
    var tries' := if IsChallengeMsg(ms[0]) then Next(tries) else tries;
    assert ms[..k + 1][1..] == ms[1..][..k];
    if k > 0 {
      SubscribeClosedForm(tries', ms[1..], k - 1);
      var c := ChallengeCount(ms[1..][..k]);
      WrapAdd(tries + 1, c);
    }
  }

  // ----- whole runs -----

  function MessagesIn(es: seq<PublishEvent>): nat {
    if es == [] then 0 else (if es[0].Arrived? then 1 else 0) + MessagesIn(es[1..])
  }

  /** A challenge arrives as another message than the first of its round of 65536, or the last
      of the round before, when the counter starts at `tries`. */
  ghost predicate LateChallenge(tries: uint16, es: seq<PublishEvent>) {
    exists k | 0 <= k < |es| :: LateAt(tries, es, k)
  }

  predicate LateAt(tries: uint16, es: seq<PublishEvent>, k: nat)
    requires k < |es|
  {
    && es[k].Arrived? && es[k].msg.Response? && es[k].msg.code in {401, 407}
    && ToUint16(tries + MessagesIn(es[..k + 1])) > 1
  }

  function ChallengesIn(es: seq<SubscribeEvent>): nat {
    if es == [] then 0 else (if es[0].Answered? && es[0].code in {401, 407} then 1 else 0) + ChallengesIn(es[1..])
  }

  /** A challenge arrives that is another than the first, as the counter counts them from
      `tries` on. */
  ghost predicate SecondChallenge(tries: uint16, es: seq<SubscribeEvent>) {
    exists k | 0 <= k < |es| :: SecondAt(tries, es, k)
  }

  predicate SecondAt(tries: uint16, es: seq<SubscribeEvent>, k: nat)
    requires k < |es|
  {
    es[k].Answered? && es[k].code in {401, 407} && ToUint16(tries + ChallengesIn(es[..k + 1])) > 1
  }

  lemma LateTail(tries: uint16, es: seq<PublishEvent>)
    requires es != []
    ensures LateChallenge(tries, es) <==>
            match es[0]
            case Arrived(msg) => (IsChallengeMsg(msg) && Next(tries) > 1) || LateChallenge(Next(tries), es[1..])
            case CalledBack => LateChallenge(tries, es[1..])
  {
    var (rest, tries') := (es[1..], if es[0].Arrived? then Next(tries) else tries);
    assert es[..1] == [es[0]] && MessagesIn([es[0]][1..]) == 0;
    assert LateAt(tries, es, 0) <==> es[0].Arrived? && IsChallengeMsg(es[0].msg) && Next(tries) > 1;
    forall k | 0 <= k < |rest| ensures LateAt(tries', rest, k) <==> LateAt(tries, es, k + 1) {
      assert es[..k + 2][1..] == rest[..k + 1];
      WrapAdd(tries + 1, MessagesIn(rest[..k + 1]));
    }
    hide LateAt;
    if k :| 0 <= k < |es| && LateAt(tries, es, k) {
      assert k > 0 ==> LateAt(tries', rest, k - 1);
    }
  }

  lemma NoneLate(tries: uint16)
    ensures !LateChallenge(tries, []) && !SecondChallenge(tries, [])
  {
  }

  /** A run of PUBLISH, from any counter value, stops the loop exactly when the callback runs or
      a late challenge arrives. */
  lemma {:induction false} PublishRunEnds(tries: uint16, es: seq<PublishEvent>)
    ensures PublishEnds(tries, es) <==> CalledBack in es || LateChallenge(tries, es)
    decreases es
  {
    hide PublishEnds, LateChallenge, Next;
    if es == [] {
      NoPublishEnd(tries);
      NoneLate(tries);
    } else {
      PublishTail(tries, es);
      LateTail(tries, es);
      PublishRunEnds(if es[0].Arrived? then Next(tries) else tries, es[1..]);
      assert es == [es[0]] + es[1..];
    }
  }

  lemma SecondTail(tries: uint16, es: seq<SubscribeEvent>)
    requires es != []
    ensures var counted := es[0].Answered? && IsChallenge(es[0].code);
            SecondChallenge(tries, es) <==>
            if counted then Next(tries) > 1 || SecondChallenge(Next(tries), es[1..])
            else SecondChallenge(tries, es[1..])
  {
    var (rest, tries') := (es[1..], if es[0].Answered? && IsChallenge(es[0].code) then Next(tries) else tries);
    assert es[..1] == [es[0]] && ChallengesIn([es[0]][1..]) == 0;
    assert SecondAt(tries, es, 0) <==> es[0].Answered? && IsChallenge(es[0].code) && Next(tries) > 1;
    forall k | 0 <= k < |rest| ensures SecondAt(tries', rest, k) <==> SecondAt(tries, es, k + 1) {
      assert es[..k + 2][1..] == rest[..k + 1];
      WrapAdd(tries + 1, ChallengesIn(rest[..k + 1]));
    }
    hide SecondAt;
    if k :| 0 <= k < |es| && SecondAt(tries, es, k) {
      assert k > 0 ==> SecondAt(tries', rest, k - 1);
    }
  }

  /** A state or a status ends SUBSCRIBE by itself. */
  ghost predicate Ended(es: seq<SubscribeEvent>) {
    exists e | e in es :: (e.Entered? && e.state in {Active, Terminated}) || (e.Reported? && e.code == 408)
  }

  /** A run of SUBSCRIBE, from any counter value, stops the loop exactly when the subscription
      becomes active or terminated, a transaction times out, or a second challenge arrives. */
  lemma {:induction false} SubscribeRunEnds(tries: uint16, es: seq<SubscribeEvent>)
    ensures SubscribeEnds(tries, es) <==> Ended(es) || SecondChallenge(tries, es)
    decreases es
  {
    hide SubscribeEnds, SecondChallenge, Next;
    if es == [] {
      NoSubscribeEnd(tries);
      NoneLate(tries);
    } else {
      SubscribeTail(tries, es);
      SecondTail(tries, es);
      SubscribeRunEnds(if es[0].Answered? && IsChallenge(es[0].code) then Next(tries) else tries, es[1..]);
      assert es == [es[0]] + es[1..];
    }
  }

  /** In which polls PUBLISH goes on: the main loop handles a poll exactly when neither the
      callback nor a late challenge came in an earlier one. */
  lemma PublishPollHandled(polls: seq<seq<PublishEvent>>, n: nat, m: nat)
    requires LeavesAfter(polls, n, PublishStopped) && m < |polls|
    ensures var es := Flatten(polls[..m]);
            m < n <==> CalledBack !in es && !LateChallenge(0, es)
  {
    hide LateChallenge, PublishEnds;
    forall k | 0 <= k < |polls| && PublishStopped(Flatten(polls[..k])) ensures PublishStopped(Flatten(polls[..k + 1])) {
      FlattenNext(polls, k);
      PublishConcat(0, Flatten(polls[..k]), polls[k]);
    }
    PollHandled(polls, n, PublishStopped, m);
    PublishRunEnds(0, Flatten(polls[..m]));
  }

  /** In which polls SUBSCRIBE goes on. */
  lemma SubscribePollHandled(polls: seq<seq<SubscribeEvent>>, n: nat, m: nat)
    requires LeavesAfter(polls, n, SubscribeStopped) && m < |polls|
    ensures var es := Flatten(polls[..m]);
            m < n <==> !Ended(es) && !SecondChallenge(0, es)
  {
    hide SecondChallenge, Ended, SubscribeEnds;
    forall k | 0 <= k < |polls| && SubscribeStopped(Flatten(polls[..k]))
      ensures SubscribeStopped(Flatten(polls[..k + 1]))
    {
      FlattenNext(polls, k);
      SubscribeConcat(0, Flatten(polls[..k]), polls[k]);
    }
    PollHandled(polls, n, SubscribeStopped, m);
    SubscribeRunEnds(0, Flatten(polls[..m]));
  }

  /** The k-th message is a challenge that PUBLISH passes on to the library. */
  predicate Passed(ms: seq<Message>, k: nat)
    requires k < |ms|
  {
    IsChallengeMsg(ms[k]) && !PublishVerdicts(0, ms)[k]
  }

  /** PUBLISH passes a challenge on only as the first of each 65536 messages, or as the last.
      Within the first 65535 messages it passes at most one, the very first. */
  lemma PassedOnlyFirst(ms: seq<Message>, k: nat)
    requires k < |ms|
    ensures Passed(ms, k) <==> IsChallengeMsg(ms[k]) && k % 0x1_0000 in {0, 65535}
    ensures Passed(ms, k) && k < 65535 ==> k == 0
  {
    PublishClosedForm(0, ms, k);
  }

  /** The bound is tight: the counter wraps, and the 65536th challenge in a row is passed on. */
  lemma WrapPassesSecond(ms: seq<Message>)
    requires |ms| == 65536 && forall m | m in ms :: IsChallengeMsg(m)
    ensures Passed(ms, 0) && Passed(ms, 65535)
  {
    PassedOnlyFirst(ms, 0);
    PassedOnlyFirst(ms, 65535);
  }

  lemma {:induction false} CountBound(ms: seq<Message>)
    ensures ChallengeCount(ms) <= |ms|
    ensures (exists k | 0 <= k < |ms| :: IsChallengeMsg(ms[k])) ==> ChallengeCount(ms) >= 1
  {
    if ms != [] {
      CountBound(ms[1..]);
      assert forall k | 1 <= k < |ms| :: ms[k] == ms[1..][k - 1];
    }
  }

  /** Among the first 65535 messages PUBLISH swallows every challenge SUBSCRIBE swallows. */
  lemma PublishStricter(ms: seq<Message>, k: nat)
    requires k < |ms| && k < 65535
    ensures SubscribeVerdicts(0, ms)[k] ==> PublishVerdicts(0, ms)[k]
  {
    hide PublishVerdicts, SubscribeVerdicts, ChallengeCount, ToUint16;
    PublishClosedForm(0, ms, k);
    SubscribeClosedForm(0, ms, k);
    CountBound(ms[..k + 1]);
    NoWrap(k + 1);
    NoWrap(ChallengeCount(ms[..k + 1]));
  }

  /** Not so for the 65536th: after any other first response, SUBSCRIBE swallows it and
      PUBLISH, whose counter has wrapped, does not. */
  lemma StricterBoundTight(ms: seq<Message>)
    requires |ms| == 65536 && !IsChallengeMsg(ms[0])
    requires forall k | 1 <= k < |ms| :: IsChallengeMsg(ms[k])
    ensures SubscribeVerdicts(0, ms)[65535] && !PublishVerdicts(0, ms)[65535]
  {
    PublishClosedForm(0, ms, 65535);
    SubscribeClosedForm(0, ms, 65535);
    assert ms[..65536] == ms;
    AllChallenges(ms[1..]);
  }

  lemma {:induction false} AllChallenges(ms: seq<Message>)
    requires forall m | m in ms :: IsChallengeMsg(m)
    ensures ChallengeCount(ms) == |ms|
  {
    if ms != [] {
      assert IsChallengeMsg(ms[0]);
      AllChallenges(ms[1..]);
    }
  }

  lemma ShortTrace(ms: seq<Message>, k: nat)
    requires k < |ms| <= 65535
    ensures PublishVerdicts(0, ms)[k] <==> IsChallengeMsg(ms[k]) && k >= 1
    ensures SubscribeVerdicts(0, ms)[k] <==> IsChallengeMsg(ms[k]) && ChallengeCount(ms[..k + 1]) > 1
  {
    hide PublishVerdicts, SubscribeVerdicts, ChallengeCount, ToUint16;
    PublishClosedForm(0, ms, k);
    SubscribeClosedForm(0, ms, k);
    CountBound(ms[..k + 1]);
    NoWrap(k + 1);
    NoWrap(ChallengeCount(ms[..k + 1]));
  }

  lemma LaterChallenge(ms: seq<Message>, k: nat)
    requires 1 <= k < |ms| && IsChallengeMsg(ms[0]) && IsChallengeMsg(ms[k])
    ensures ChallengeCount(ms[..k + 1]) > 1
  {
    assert ms[..k + 1][1..][k - 1] == ms[k];
    CountBound(ms[..k + 1][1..]);
  }

  /** Up to 65535 messages the two agree exactly when the first message is a challenge or none
      is.  In particular a provisional response before the challenge makes PUBLISH give up
      without ever trying the credentials. */
  lemma AgreeIff(ms: seq<Message>)
    requires |ms| <= 65535
    ensures PublishVerdicts(0, ms) == SubscribeVerdicts(0, ms) <==>
            (ms != [] && IsChallengeMsg(ms[0])) || forall m | m in ms :: !IsChallengeMsg(m)
  {
    hide PublishVerdicts, SubscribeVerdicts, ChallengeCount;
    var (p, q) := (PublishVerdicts(0, ms), SubscribeVerdicts(0, ms));
    forall k | 0 <= k < |ms|
      ensures p[k] <==> IsChallengeMsg(ms[k]) && k >= 1
      ensures q[k] <==> IsChallengeMsg(ms[k]) && ChallengeCount(ms[..k + 1]) > 1
    {
      ShortTrace(ms, k);
    }
    if ms != [] && IsChallengeMsg(ms[0]) {
      forall k | 0 <= k < |ms| ensures p[k] == q[k] {
        if k == 0 {
          assert ms[..1] == [ms[0]];
          OneChallenge(ms[0]);
        } else if IsChallengeMsg(ms[k]) {
          LaterChallenge(ms, k);
        }
      }
      assert p == q;
    } else if exists k :: 0 <= k < |ms| && IsChallengeMsg(ms[k]) {
      var k := FirstChallenge(ms);
      assert p[k] && !q[k];
    } else {
      assert forall k | 0 <= k < |ms| :: ms[k] in ms && p[k] == q[k];
      assert p == q;
    }
  }

  /** The shortest run on which they differ: a provisional response, then the challenge. */
  lemma ProvisionalFirst()
    ensures PublishVerdicts(0, [Response(100), Response(401)]) == [false, true]
    ensures SubscribeVerdicts(0, [Response(100), Response(401)]) == [false, false]
  {
    assert [Response(100), Response(401)][1..] == [Response(401)] && [Response(401)][1..] == [];
    assert PublishVerdicts(1, [Response(401)]) == [true];
    assert SubscribeVerdicts(0, [Response(401)]) == [false];
  }

  lemma OneChallenge(m: Message)
    ensures ChallengeCount([m]) <= 1
  {
    assert ChallengeCount([m][1..]) == 0;
  }

  lemma {:induction false} FirstChallenge(ms: seq<Message>) returns (k: nat)
    requires exists k :: 0 <= k < |ms| && IsChallengeMsg(ms[k])
    ensures k < |ms| && IsChallengeMsg(ms[k]) && ChallengeCount(ms[..k + 1]) == 1
  {
    if IsChallengeMsg(ms[0]) {
      k := 0;
      assert ms[..1][1..] == [];
    } else {
      assert exists j :: 0 <= j < |ms[1..]| && IsChallengeMsg(ms[1..][j]) by {
        var i :| 0 <= i < |ms| && IsChallengeMsg(ms[i]);
        assert ms[1..][i - 1] == ms[i];
      }
      var j := FirstChallenge(ms[1..]);
      k := j + 1;
      assert ms[..k + 1][1..] == ms[1..][..j + 1];
    }
  }
}
