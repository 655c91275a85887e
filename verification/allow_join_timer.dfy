/** `AllowJoinTimerService`: switches permit-join off again after the configured number of
    minutes. The service is idle or holds exactly one running timer; a new timer is started only
    from idle. The delay itself and its cancellation token are left to the environment: a timer
    is an id, and its expiry is an event. */
module AllowJoinTimer {
  import opened Wrappers

  /** `subscribed`: attached to the snapshot's change event. `running`: the id of the timer held
      by the serial disposable, if any. `next`: the next timer id. */
  datatype Timer = Timer(subscribed: bool, running: Option<nat>, next: nat)

  const Initial: Timer := Timer(false, None, 0)

  /** What the service does to the outside world. */
  datatype Effect =
    | TimerStarted(id: nat)
    | TimerCancelled(id: nat)
    | PermitJoinOff                  // `AllowJoin(false)` sent through the bridge operations

  /** The inputs the service reacts to. */
  datatype Event =
    | Started(timeoutMinutes: int)   // `StartAsync`, with the configured timeout
    | Changed(permitJoin: bool)      // the snapshot changed; its permit-join flag
    | Elapsed(id: nat)               // the delay of timer `id` ran out
    | Stopped                        // `StopAsync`

  /** `StartAsync`: subscribes only for a positive timeout. */
  function Start(m: Timer, timeoutMinutes: int): (r: Timer)
    ensures r.subscribed <==> m.subscribed || timeoutMinutes > 0
    ensures r.running == m.running && r.next == m.next
  {
    if timeoutMinutes > 0 then m.(subscribed := true) else m
  }

  /** `OnStateChanged`: permit-join on while idle starts a timer; off while running cancels it. */
  function OnStateChanged(m: Timer, permitJoin: bool): (r: (Timer, seq<Effect>))
    ensures r.0.subscribed == m.subscribed
    ensures permitJoin && m.running.None? ==>
      r.0.running == Some(m.next) && r.0.next == m.next + 1 && r.1 == [TimerStarted(m.next)]
    ensures permitJoin && m.running.Some? ==> r == (m, [])
    ensures !permitJoin && m.running.Some? ==>
      r.0 == m.(running := None) && r.1 == [TimerCancelled(m.running.value)]
    ensures !permitJoin && m.running.None? ==> r == (m, [])
  {
    if permitJoin && m.running.None? then (m.(running := Some(m.next), next := m.next + 1), [TimerStarted(m.next)])
    else if !permitJoin && m.running.Some? then (m.(running := None), [TimerCancelled(m.running.value)])
    else (m, [])
  }

  /** `StartTimer` after its delay: back to idle, then permit-join is switched off. Events are
      taken one at a time, so the expiry of a timer that was cancelled or replaced in the
      meantime finds another id running and does nothing. */
  function Expire(m: Timer, id: nat): (r: (Timer, seq<Effect>))
    ensures m.running == Some(id) ==> r.0 == m.(running := None) && r.1 == [PermitJoinOff]
    ensures m.running != Some(id) ==> r == (m, [])
  {
    if m.running == Some(id) then (m.(running := None), [PermitJoinOff]) else (m, [])
  }

  /** `StopAsync`: unsubscribes and cancels the running timer. */
  function Stop(m: Timer): (r: (Timer, seq<Effect>))
    ensures !r.0.subscribed && r.0.running.None? && r.0.next == m.next
    ensures r.1 == if m.running.Some? then [TimerCancelled(m.running.value)] else []
  {
    (Timer(false, None, m.next), if m.running.Some? then [TimerCancelled(m.running.value)] else [])
  }

  /** One event; snapshot changes reach the service only while it is subscribed. */
  function Step(m: Timer, e: Event): (Timer, seq<Effect>) {
    match e
    case Started(timeout) => (Start(m, timeout), [])
    case Changed(permitJoin) => if m.subscribed then OnStateChanged(m, permitJoin) else (m, [])
    case Elapsed(id) => Expire(m, id)
    case Stopped => Stop(m)
  }

  /** A sequence of events, with the effects in the order they happen. */
  function Run(m: Timer, es: seq<Event>): (r: (Timer, seq<Effect>))
    decreases |es|
  {
    if |es| == 0 then (m, [])
    else
      var first := Step(m, es[0]);
      var rest := Run(first.0, es[1..]);
      (rest.0, first.1 + rest.1)
  }

  /** The timers an effect trace leaves running: started and neither cancelled nor expired. An
      expiry is recorded as `PermitJoinOff`, which ends the timer that was running. */
  function Live(trace: seq<Effect>, from: Option<nat>): Option<nat>
    decreases |trace|
  {
    if |trace| == 0 then from
    else
      var now := match trace[0]
        case TimerStarted(id) => Some(id)
        case TimerCancelled(_) => None
        case PermitJoinOff => None;
      Live(trace[1..], now)
  }

  /** Timer ids are handed out below `next`. */
  predicate Valid(m: Timer) {
    m.running.Some? ==> m.running.value < m.next
  }

  lemma {:induction false} LiveAppend(a: seq<Effect>, b: seq<Effect>, from: Option<nat>)
    ensures Live(a + b, from) == Live(b, Live(a, from))
  {
    if |a| > 0 {
      assert (a + b)[0] == a[0];
      assert (a + b)[1..] == a[1..] + b;
      var now := match a[0]
        case TimerStarted(id) => Some(id)
        case TimerCancelled(_) => None
        case PermitJoinOff => None;
      LiveAppend(a[1..], b, now);
    } else {
      assert a + b == b;
    }
  }

  /** One step keeps the trace and the machine in agreement: the timer the machine holds is
      exactly the one its effects leave running, and only an idle machine starts one. */
  lemma StepAgrees(m: Timer, e: Event)
    requires Valid(m)
    ensures Valid(Step(m, e).0) && Step(m, e).0.next >= m.next
    ensures Live(Step(m, e).1, m.running) == Step(m, e).0.running
    ensures forall k :: 0 <= k < |Step(m, e).1| && Step(m, e).1[k].TimerStarted? ==> m.running.None?
  {
  }

  /** Over any run, the machine's timer is exactly the one its effects leave running, so at
      most one timer runs at any time; a timer is started only while none runs. */
  lemma {:induction false} RunAgrees(m: Timer, es: seq<Event>)
    requires Valid(m)
    ensures Valid(Run(m, es).0)
    ensures Live(Run(m, es).1, m.running) == Run(m, es).0.running
    decreases |es|
  {
    if |es| > 0 {
      var first := Step(m, es[0]);
      StepAgrees(m, es[0]);
      RunAgrees(first.0, es[1..]);
      LiveAppend(first.1, Run(first.0, es[1..]).1, m.running);
    }
  }

  /** A run of one event is that event's step. */
  lemma RunOne(m: Timer, e: Event)
    ensures Run(m, [e]) == Step(m, e)
  {
    assert [e][1..] == [];
    assert Step(m, e).1 + [] == Step(m, e).1;
  }

  /** A run is its first step followed by the run of the rest. */
  lemma RunCons(m: Timer, e: Event, rest: seq<Event>)
    ensures Run(m, [e] + rest) == (Run(Step(m, e).0, rest).0, Step(m, e).1 + Run(Step(m, e).0, rest).1)
  {
    assert ([e] + rest)[0] == e;
    assert ([e] + rest)[1..] == rest;
  }

  /** No event carries a positive timeout. */
  predicate NeverEnabled(es: seq<Event>) {
    forall k :: 0 <= k < |es| && es[k].Started? ==> es[k].timeoutMinutes <= 0
  }

  /** An unsubscribed, idle service stays so through events that never enable it, and does
      nothing at all. */
  lemma {:induction false} QuietRun(m: Timer, es: seq<Event>)
    requires !m.subscribed && m.running.None? && NeverEnabled(es)
    ensures Run(m, es).1 == [] && !Run(m, es).0.subscribed && Run(m, es).0.running.None?
    decreases |es|
  {
    if |es| > 0 {
      var first := Step(m, es[0]);
      assert es[0].Started? ==> es[0].timeoutMinutes <= 0;
      assert first.1 == [] && !first.0.subscribed && first.0.running.None?;
      assert NeverEnabled(es[1..]) by {
        forall k | 0 <= k < |es[1..]| && es[1..][k].Started?
          ensures es[1..][k].timeoutMinutes <= 0
        {
          assert es[1..][k] == es[k + 1];
        }
      }
      QuietRun(first.0, es[1..]);
    }
  }

  /** A service started with no positive timeout never starts a timer nor switches permit-join
      off, whatever follows, as long as no later start enables it. */
  lemma DisabledNeverStarts(timeoutMinutes: int, es: seq<Event>)
    requires timeoutMinutes <= 0 && NeverEnabled(es)
    ensures Run(Initial, [Started(timeoutMinutes)] + es).1 == []
  {
    RunCons(Initial, Started(timeoutMinutes), es);
    QuietRun(Initial, es);
    var none: seq<Effect> := [];
    assert none + none == none;
  }

  /** Permit-join switched on, left alone: the timer runs out and switches it off. */
  lemma TimeoutSwitchesOff(timeoutMinutes: int)
    requires timeoutMinutes > 0
    ensures Run(Initial, [Started(timeoutMinutes), Changed(true), Elapsed(0)])
         == (Timer(true, None, 1), [TimerStarted(0), PermitJoinOff])
  {
    var on := Timer(true, None, 0);
    var running := Timer(true, Some(0), 1);
    RunCons(Initial, Started(timeoutMinutes), [Changed(true), Elapsed(0)]);
    assert [Started(timeoutMinutes)] + [Changed(true), Elapsed(0)] == [Started(timeoutMinutes), Changed(true), Elapsed(0)];
    RunCons(on, Changed(true), [Elapsed(0)]);
    assert [Changed(true)] + [Elapsed(0)] == [Changed(true), Elapsed(0)];
    RunOne(running, Elapsed(0));
    assert [] + ([TimerStarted(0)] + [PermitJoinOff]) == [TimerStarted(0), PermitJoinOff];
  }

  /** Every snapshot change while permit-join is still on, after the timer fired but before the
      bridge reported the switch-off, starts a fresh timer. */
  lemma ChangeAfterExpiryRestarts(m: Timer)
    requires m.subscribed && m.running.Some?
    ensures var expired := Expire(m, m.running.value).0;
      && expired.running.None?
      && Step(expired, Changed(true)).1 == [TimerStarted(m.next)]
  {
  }
}
