/**
 The clock: if the 16-bit timer has not gone round since the oldest event a key still has
 to dispatch, every scan of the waiting buffer stops at the right release.
 */
module TappingTimes {
  import opened Words
  import opened KeyEvents
  import opened Actions
  import opened TappingSpec
  import opened TappingFifo
  import opened TappingAgreement

  /** The key's events the engine still has, oldest first. */
  function InFlight(k: KeyPos, s: Engine): seq<Event> {
    (if Pending(s) && s.tk.event.key == k then [s.tk.event] else []) + WaitingOf(k, s)
  }

  /** 16-bit times in circular order: the clock has not gone round since the first of them. */
  ghost predicate Circular(es: seq<Event>) {
    forall i, j, l :: 0 <= i < j < l < |es| ==>
      TimerDiff16(es[j].time, es[i].time) <= TimerDiff16(es[l].time, es[i].time)
  }

  /** Every key's events in flight are in circular order. */
  ghost predicate InTime(s: Engine) {
    forall k | k != TICK_KEY :: Circular(InFlight(k, s))
  }

  lemma {:induction false} DispatchesGrow(k: KeyPos, a: seq<Dispatched>, b: seq<Dispatched>)
    requires a <= b
    ensures |Dispatches(k, a)| <= |Dispatches(k, b)|
    decreases |b|
  {
    if |a| < |b| {
      DispatchesGrow(k, a, b[..|b| - 1]);
    } else {
      assert a == b;
    }
  }

  /** What is in flight is the end of what is accounted for. */
  lemma InFlightIsTail(k: KeyPos, s: Engine)
    requires k != TICK_KEY
    ensures |Dispatches(k, s.log)| <= |Accounted(k, s)|
    ensures InFlight(k, s) == Accounted(k, s)[|Dispatches(k, s.log)|..]
  {
    var ds := Dispatches(k, s.log);
    assert Accounted(k, s) == ds + InFlight(k, s);
  }

  /** Dispatching more of the same events keeps the rest in circular order. */
  lemma StaysCircular(k: KeyPos, s: Engine, s': Engine, all: seq<Event>)
    requires k != TICK_KEY && s.log <= s'.log
    requires Accounted(k, s') == all && |Dispatches(k, s.log)| <= |all|
    requires Circular(all[|Dispatches(k, s.log)|..])
    ensures Circular(InFlight(k, s'))
  {
    DispatchesGrow(k, s.log, s'.log);
    InFlightIsTail(k, s');
    var d, d' := |Dispatches(k, s.log)|, |Dispatches(k, s'.log)|;
    CircularTail(all[d..], d' - d);
    assert all[d..][d' - d..] == all[d'..];
  }

  lemma CircularTail(es: seq<Event>, c: nat)
    requires c <= |es| && Circular(es)
    ensures Circular(es[c..])
  {
    var t := es[c..];
    forall i, j, l | 0 <= i < j < l < |t|
      ensures TimerDiff16(t[j].time, t[i].time) <= TimerDiff16(t[l].time, t[i].time)
    {
      assert es[i + c] == t[i] && es[j + c] == t[j] && es[l + c] == t[l];
    }
  }

  // ------------------------------------------------------------- the drain loop

  /** The next of these events is a release, and the nearest to `start` in 16-bit time. */
  ghost predicate NextIsRelease(es: seq<Event>, start: Word16) {
    es != [] ==>
      !es[0].pressed && forall x :: x in es ==> TimerDiff16(es[0].time, start) <= TimerDiff16(x.time, start)
  }

  lemma NextBehindPress(h: Event, rest: seq<Event>, a: seq<Event>, n: nat)
    requires h.pressed && Circular([h] + rest)
    requires Alternates(a) && n < |a| && a[n..] == [h] + rest
    ensures NextIsRelease(rest, h.time)
  {
    if rest != [] {
      assert a[n..][0] == a[n] && a[n..][1] == a[n + 1] == rest[0];
      forall x | x in rest ensures TimerDiff16(rest[0].time, h.time) <= TimerDiff16(x.time, h.time) {
        var l :| 0 <= l < |rest| && rest[l] == x;
        assert ([h] + rest)[0] == h && ([h] + rest)[1] == rest[0] && ([h] + rest)[l + 1] == x;
      }
    }
  }

  /** The nearest event in time is the first to settle a press. */
  lemma NearestSettles(cfg: Config, start: Word16, waiting: seq<Event>)
    requires NextIsRelease(waiting, start)
    ensures NextSettles(cfg, start, waiting)
  {
  }

  /** In circular order, the scan behind the ring's oldest entry hits. */
  lemma InTimeHits(cfg: Config, s: Engine)
    requires Sound(s) && InTime(s) && s.ring != []
    ensures ScanHits(cfg, s, s.ring[0], 1)
  {
    var h := s.ring[0];
    if h.event.pressed {
      var k, rest := h.event.key, EventsOf(h.event.key, s.ring[1..]);
      assert SoundKey(k, s);
      HeadPressTurn(s);
      assert InFlight(k, s) == WaitingOf(k, s) == [h.event] + rest;
      NextBehindPress(h.event, rest, Accounted(k, s), |Taken(k, s)|);
      NearestSettles(cfg, h.event.time, rest);
    }
  }

  /** So every scan of the drain loop hits, and what remains is in circular order. */
  lemma {:induction false} InTimeDrains(cfg: Config, s: Engine)
    requires Sound(s) && InTime(s)
    ensures DrainHits(cfg, s) && InTime(Drain(cfg, s))
    decreases |s.ring|
  {
    if s.ring != [] {
      var s' := DrainStep(cfg, s).s;
      InTimeHits(cfg, s);
      DrainStepSoundExactly(cfg, s);
      ProcessTappingLogs(cfg, s, s.ring[0]);
      forall k | k != TICK_KEY ensures Circular(InFlight(k, s')) {
        DrainStepConserves(cfg, s, k);
        SameCircular(s, s', k);
      }
      if DrainStep(cfg, s).done {
        InTimeDrains(cfg, s');
      }
    }
  }

  // -------------------------------------------------------------------- arrival

  /** What of its key is still to be dispatched when `e` has come, oldest first. */
  function StillInFlight(cfg: Config, s: Engine, e: Event): seq<Event> {
    (if Pending(s) && s.tk.event.key == e.key && Within(cfg, s, e) then [s.tk.event] else [])
    + WaitingOf(e.key, s) + [e]
  }

  /**
   An event in turn that comes before the clock has gone round since the oldest event its
   key still has to dispatch. All of it can be tested before the call.
   */
  ghost predicate Timely(cfg: Config, s: Engine, e: Event) {
    NoEvent(e) || (InTurn(cfg, s, e) && Circular(StillInFlight(cfg, s, e)))
  }

  lemma SameCircular(s: Engine, s': Engine, k: KeyPos)
    requires k != TICK_KEY && s.log <= s'.log && Circular(InFlight(k, s)) && Accounted(k, s') == Accounted(k, s)
    ensures Circular(InFlight(k, s'))
  {
    InFlightIsTail(k, s);
    StaysCircular(k, s, s', Accounted(k, s));
  }

  lemma TimeoutDispatches(cfg: Config, s: Engine, e: Event)
    requires Pending(s) && !Within(cfg, s, e)
    ensures var s' := Arrive(cfg, s, Record(e, NO_TAP));
      Dispatches(s.tk.event.key, s'.log) == Dispatches(s.tk.event.key, s.log) + [s.tk.event]
  {
    ProcessRecordTakes(cfg, s, s.tk, s.tk.event.key);
    ArriveLog(cfg, s, Record(e, NO_TAP));
  }

  /** What an arriving event no longer finds in flight. */
  function Gone(cfg: Config, s: Engine, e: Event): seq<Event> {
    Dispatches(e.key, s.log)
    + if Pending(s) && s.tk.event.key == e.key && !Within(cfg, s, e) then [s.tk.event] else []
  }

  lemma GoneOrInFlight(cfg: Config, s: Engine, e: Event)
    requires e.key != TICK_KEY
    ensures Accounted(e.key, s) + [e] == Gone(cfg, s, e) + StillInFlight(cfg, s, e)
  {
  }

  lemma GoneIsDispatched(cfg: Config, s: Engine, e: Event)
    requires s.log <= Arrive(cfg, s, Record(e, NO_TAP)).log
    ensures |Gone(cfg, s, e)| <= |Dispatches(e.key, Arrive(cfg, s, Record(e, NO_TAP)).log)|
  {
    DispatchesGrow(e.key, s.log, Arrive(cfg, s, Record(e, NO_TAP)).log);
    if Pending(s) && s.tk.event.key == e.key && !Within(cfg, s, e) {
      TimeoutDispatches(cfg, s, e);
    }
  }

  lemma TailOfTail(before: seq<Event>, still: seq<Event>, n: nat)
    requires |before| <= n <= |before| + |still| && Circular(still)
    ensures Circular((before + still)[n..])
  {
    CircularTail(still, n - |before|);
    assert (before + still)[n..] == still[n - |before|..];
  }

  /** What is in flight after an arrival is the end of what the event found still in flight. */
  lemma ArrivalCircular(cfg: Config, s: Engine, e: Event)
    requires !NoEvent(e) && e.key != TICK_KEY && Circular(StillInFlight(cfg, s, e))
    requires var s' := Arrive(cfg, s, Record(e, NO_TAP));
      Accounted(e.key, s') == Accounted(e.key, s) + [e] && s.log <= s'.log
    ensures Circular(InFlight(e.key, Arrive(cfg, s, Record(e, NO_TAP))))
  {
    var k, s' := e.key, Arrive(cfg, s, Record(e, NO_TAP));
    InFlightIsTail(k, s');
    GoneOrInFlight(cfg, s, e);
    GoneIsDispatched(cfg, s, e);
    TailOfTail(Gone(cfg, s, e), StillInFlight(cfg, s, e), |Dispatches(k, s'.log)|);
  }

  /** A timely event is orderly, and leaves every key's events in circular order. */
  lemma TimelyIsOrderly(cfg: Config, s: Engine, e: Event)
    requires Sound(s) && InTime(s) && WellFormed(e) && Timely(cfg, s, e)
    requires !NoEvent(e) ==> Alternates(Accounted(e.key, s) + [e])
    requires ActionExec(cfg, s, e).overflows == s.overflows
    ensures Orderly(cfg, s, e) && InTime(ActionExec(cfg, s, e))
  {
    var s0, r := ClearWeak(s, e), Record(e, NO_TAP);
    var s1 := Arrive(cfg, s0, r);
    WeakSound(s, e);
    ArriveRingOk(cfg, s0, e);
    DrainConserves(cfg, s1, e.key);
    ArriveSound(cfg, s0, e);
    ProcessTappingLogs(cfg, s0, r);
    ArriveLog(cfg, s0, r);
    forall k | k != TICK_KEY ensures Circular(InFlight(k, s1)) {
      assert InFlight(k, s0) == InFlight(k, s);
      ArriveAccounts(cfg, s0, e, k);
      if NoEvent(e) || k != e.key {
        SameCircular(s0, s1, k);
      } else {
        assert StillInFlight(cfg, s0, e) == StillInFlight(cfg, s, e);
        ArrivalCircular(cfg, s0, e);
      }
    }
    InTimeDrains(cfg, s1);
  }

  ghost predicate AllTimely(cfg: Config, es: seq<Event>) {
    es != [] ==>
      AllTimely(cfg, es[..|es| - 1]) && Timely(cfg, Run(cfg, es[..|es| - 1]), es[|es| - 1])
  }

  /** A run of timely events is orderly. */
  lemma {:induction false} TimelyRunIsOrderly(cfg: Config, es: seq<Event>)
    requires Lawful(es) && AllTimely(cfg, es) && Run(cfg, es).overflows == 0
    ensures AllOrderly(cfg, es) && InTime(Run(cfg, es))
  {
    if es != [] {
      var p, e := es[..|es| - 1], es[|es| - 1];
      LawfulPrefix(es);
      RunRingOk(cfg, es);
      RunRingOk(cfg, p);
      TimelyRunIsOrderly(cfg, p);
      RunAgrees(cfg, p);
      assert Accounted(e.key, Run(cfg, p)) == Inputs(e.key, p);
      assert Alternates(Inputs(e.key, es));
      TimelyIsOrderly(cfg, Run(cfg, p), e);
    }
  }

  /** A run stays timely when ticks follow, at whatever times. */
  lemma {:induction false} TicksStayTimely(cfg: Config, es: seq<Event>, ticks: seq<Event>)
    requires AllTimely(cfg, es) && forall i :: 0 <= i < |ticks| ==> NoEvent(ticks[i])
    ensures AllTimely(cfg, es + ticks)
  {
    if ticks == [] {
      assert es + ticks == es;
    } else {
      var n := |ticks| - 1;
      TicksStayTimely(cfg, es, ticks[..n]);
      assert (es + ticks)[..|es + ticks| - 1] == es + ticks[..n];
    }
  }
}
