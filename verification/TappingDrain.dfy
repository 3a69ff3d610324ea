/** The waiting buffer always empties: ticks strictly use up a measure of the waiting work. */
module TappingDrain {
  import opened KeyEvents
  import opened Actions
  import opened TappingSpec
  import opened TappingFifo

  /**
   Waiting work: three units for each ring entry, two for a pending press and one
   for a released tap that still waits for its term to end.
   */
  function Work(s: Engine): nat {
    3 * |s.ring| + if Pending(s) then 2 else if TapReleased(s) then 1 else 0
  }

  const MAX_WORK: nat := 3 * RING_CAPACITY + 2

  /** A tick that must make progress: nothing is pending, or the pending press has timed out. */
  predicate Due(cfg: Config, s: Engine, tick: Event) {
    Pending(s) ==> !Within(cfg, s, tick)
  }

  lemma {:induction false} DrainWorks(cfg: Config, s: Engine)
    ensures Work(Drain(cfg, s)) <= Work(s)
    ensures s.ring != [] && !Pending(s) ==> Work(Drain(cfg, s)) < Work(s)
    decreases |s.ring|
  {
    if s.ring != [] {
      var o := DrainStep(cfg, s);
      if o.done {
        DrainWorks(cfg, o.s);
      }
    }
  }

  /** A due tick makes progress whenever anything is pending or waiting. */
  lemma TickProgress(cfg: Config, s: Engine, tick: Event)
    requires IsTick(tick)
    ensures Work(ActionExec(cfg, s, tick)) <= Work(s)
    ensures Due(cfg, s, tick) && !Idle(s) ==> Work(ActionExec(cfg, s, tick)) < Work(s)
    ensures Idle(s) ==> Idle(ActionExec(cfg, s, tick))
  {
    DrainWorks(cfg, Arrive(cfg, s, Record(tick, NO_TAP)));
  }

  /** Nothing but ticks, as the scan sends them while no key changes. */
  ghost predicate OnlyTicks(ticks: seq<Event>) {
    forall i :: 0 <= i < |ticks| ==> IsTick(ticks[i]) && WellFormed(ticks[i])
  }

  /** How many of the ticks were due when they arrived. */
  function DueCount(cfg: Config, s: Engine, ticks: seq<Event>): nat
    decreases |ticks|
  {
    if ticks == [] then 0
    else (if Due(cfg, s, ticks[0]) then 1 else 0) + DueCount(cfg, ActionExec(cfg, s, ticks[0]), ticks[1..])
  }

  /**
   Bounded drain: from any state at all, a stream of ticks that holds as many due ones
   as there is work leaves nothing waiting, however many early ones lie between them.
   */
  lemma {:induction false} TicksDrain(cfg: Config, s: Engine, ticks: seq<Event>)
    requires OnlyTicks(ticks) && DueCount(cfg, s, ticks) >= Work(s)
    ensures Idle(Feed(cfg, s, ticks))
    decreases |ticks|
  {
    if Idle(s) {
      TicksKeepIdle(cfg, s, ticks);
    } else if ticks != [] {
      FeedFirst(cfg, s, ticks);
      TickProgress(cfg, s, ticks[0]);
      TicksDrain(cfg, ActionExec(cfg, s, ticks[0]), ticks[1..]);
    }
  }

  lemma {:induction false} TicksKeepIdle(cfg: Config, s: Engine, ticks: seq<Event>)
    requires OnlyTicks(ticks) && Idle(s)
    ensures Idle(Feed(cfg, s, ticks))
    decreases |ticks|
  {
    if ticks != [] {
      FeedFirst(cfg, s, ticks);
      TickProgress(cfg, s, ticks[0]);
      TicksKeepIdle(cfg, ActionExec(cfg, s, ticks[0]), ticks[1..]);
    }
  }

  /** Ticks lose nothing, due or not. */
  lemma {:induction false} TicksConserve(cfg: Config, s: Engine, ticks: seq<Event>, k: KeyPos)
    requires RingOk(s) && OnlyTicks(ticks)
    ensures var s' := Feed(cfg, s, ticks);
      RingOk(s') && Accounted(k, s') == Accounted(k, s) && s'.overflows == s.overflows
    decreases |ticks|
  {
    if ticks != [] {
      var r := Record(ticks[0], NO_TAP);
      FeedFirst(cfg, s, ticks);
      ProcessTappingTakes(cfg, s, r, k);
      DrainConserves(cfg, Arrive(cfg, s, r), k);
      ActionExecAccounts(cfg, s, ticks[0], k);
      TicksConserve(cfg, ActionExec(cfg, s, ticks[0]), ticks[1..], k);
    }
  }

  /** Once an admissible run is idle, every submitted event of every key has been dispatched, once and in order. */
  lemma IdleIsDelivered(cfg: Config, es: seq<Event>, ticks: seq<Event>)
    requires Lawful(es) && AllAdmissible(cfg, es) && Run(cfg, es).overflows == 0
    requires OnlyTicks(ticks) && Idle(Feed(cfg, Run(cfg, es), ticks))
    ensures forall k :: Dispatches(k, Feed(cfg, Run(cfg, es), ticks).log) == Inputs(k, es)
  {
    var s0 := Run(cfg, es);
    var s := Feed(cfg, s0, ticks);
    RunKeepsOrder(cfg, es);
    forall k ensures Dispatches(k, s.log) == Inputs(k, es) {
      TicksConserve(cfg, s0, ticks, k);
      assert Accounted(k, s0) == Inputs(k, es);
      assert Taken(k, s) + [] == Taken(k, s);
    }
  }

  /**
   Delivery: after an admissible run, any stream of ticks with 3 * 7 + 2 due ones among
   them dispatches every submitted event of every key, once and in order.
   */
  lemma EverythingIsDelivered(cfg: Config, es: seq<Event>, ticks: seq<Event>)
    requires Lawful(es) && AllAdmissible(cfg, es) && Run(cfg, es).overflows == 0
    requires OnlyTicks(ticks) && DueCount(cfg, Run(cfg, es), ticks) >= MAX_WORK
    ensures var s := Feed(cfg, Run(cfg, es), ticks);
      Idle(s) && forall k :: Dispatches(k, s.log) == Inputs(k, es)
  {
    WorkBounded(cfg, es);
    TicksDrain(cfg, Run(cfg, es), ticks);
    IdleIsDelivered(cfg, es, ticks);
  }

  /** No run ever leaves more work than a full ring behind a pending press. */
  lemma WorkBounded(cfg: Config, es: seq<Event>)
    ensures Work(Run(cfg, es)) <= MAX_WORK
  {
    RingBounded(cfg, es);
  }

  lemma {:induction false} DrainShortens(cfg: Config, s: Engine)
    ensures |Drain(cfg, s).ring| <= |s.ring|
    decreases |s.ring|
  {
    if s.ring != [] && DrainStep(cfg, s).done {
      DrainShortens(cfg, DrainStep(cfg, s).s);
    }
  }

  /** The ring never holds more than its seven usable slots. */
  lemma {:induction false} RingBounded(cfg: Config, es: seq<Event>)
    ensures |Run(cfg, es).ring| <= RING_CAPACITY
  {
    if es != [] {
      var p, e := es[..|es| - 1], es[|es| - 1];
      RingBounded(cfg, p);
      DrainShortens(cfg, Arrive(cfg, ClearWeak(Run(cfg, p), e), Record(e, NO_TAP)));
    }
  }
}
