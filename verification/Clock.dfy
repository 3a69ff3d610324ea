/**
 Ticks by the clock: the scan sends one whenever no key changes, so how long released
 keys take to fall silent can be told in milliseconds.
 */
module Clock {
  import opened KeyEvents
  import opened Actions
  import opened ScanSource
  import opened TappingSpec
  import opened TappingFifo
  import opened TappingAgreement
  import opened TappingTimes
  import opened TappingDrain
  import opened TappingEndToEnd

  /** The 16-bit timer goes round after this many milliseconds. */
  const ROUND: nat := 0x1_0000

  /** The ticks that scans at these true times send. */
  function TicksAt(times: seq<nat>): (ticks: seq<Event>)
    ensures |ticks| == |times|
  {
    if times == [] then [] else [Tick(times[0] % 0x1_0000)] + TicksAt(times[1..])
  }

  /** The true time that a tick's odd time stamp stands for. */
  function Stamp(t: nat): nat { if t % 2 == 0 then t + 1 else t }

  /** Scans in order of time, and never further apart than `gap`. */
  ghost predicate Paced(times: seq<nat>, gap: nat) {
    forall i :: 0 <= i < |times| - 1 ==> times[i] <= times[i + 1] <= times[i] + gap
  }

  lemma StampIsOdd(t: nat)
    ensures Tick(t % 0x1_0000).time == Stamp(t) % 0x1_0000 && WellFormed(Tick(t % 0x1_0000))
  {
  }

  lemma {:induction false} TicksAtAreTicks(times: seq<nat>)
    ensures OnlyTicks(TicksAt(times))
  {
    if times != [] {
      TicksAtAreTicks(times[1..]);
      StampIsOdd(times[0]);
    }
  }

  /** How long the pending press has been down when the next tick comes, modulo the timer's round. */
  function Age(s: Engine, t: nat): nat {
    if Pending(s) then TimerDiff16((Stamp(t) % 0x1_0000), s.tk.event.time) else 0
  }

  /** An early tick either makes progress or leaves the same press pending. */
  lemma EarlyTick(cfg: Config, s: Engine, tick: Event)
    requires IsTick(tick) && !Due(cfg, s, tick)
    ensures var s' := ActionExec(cfg, s, tick);
      Work(s') < Work(s) || (Work(s') == Work(s) && Pending(s') && s'.tk.event == s.tk.event)
  {
    var s1 := Arrive(cfg, s, Record(tick, NO_TAP));
    TickProgress(cfg, s, tick);
    assert s1 == s;
    if s.ring != [] {
      var o := DrainStep(cfg, s);
      if o.done {
        DrainWorks(cfg, o.s);
      }
    }
  }

  lemma AgeGrows(s: Engine, s': Engine, t: nat, t': nat, term: nat, gap: nat)
    requires Pending(s) && Pending(s') && s'.tk.event == s.tk.event
    requires Stamp(t) <= Stamp(t') <= Stamp(t) + gap && Age(s, t) < term && term + gap <= ROUND
    ensures Age(s', t') == Age(s, t) + Stamp(t') - Stamp(t)
  {
  }

  /** What one unit of work may cost in time, early ticks included. */
  function Cost(cfg: Config, gap: nat): nat { cfg.term + 2 * gap }

  /** Time already spent waiting for the pending press counts too. */
  function Credit(cfg: Config, s: Engine, t: nat, gap: nat): nat {
    if Age(s, t) < cfg.term + gap then Age(s, t) else cfg.term + gap
  }

  /** Enough time between the first and the last tick uses up all work. */
  lemma {:induction false} TimeDrains(cfg: Config, s: Engine, times: seq<nat>, gap: nat)
    requires times != [] && StampsPaced(times, gap) && gap > 0 && cfg.term + gap <= ROUND
    requires Stamp(times[|times| - 1]) - Stamp(times[0]) + Credit(cfg, s, times[0], gap) >= Work(s) * Cost(cfg, gap)
    ensures Idle(Feed(cfg, s, TicksAt(times)))
    decreases |times|
  {
    TicksAtAreTicks(times);
    if Idle(s) {
      TicksKeepIdle(cfg, s, TicksAt(times));
    } else {
      var t, tick, rest := times[0], Tick(times[0] % 0x1_0000), times[1..];
      var s' := ActionExec(cfg, s, tick);
      FeedFirst(cfg, s, TicksAt(times));
      TickProgress(cfg, s, tick);
      StampIsOdd(t);
      CostsMore(Work(s), Cost(cfg, gap));
      assert rest != [];
      if Work(s') < Work(s) {
        CostsLess(Work(s'), Work(s), Cost(cfg, gap));
      } else {
        EarlyTick(cfg, s, tick);
        AgeGrows(s, s', t, rest[0], cfg.term, gap);
      }
      TimeDrains(cfg, s', rest, gap);
    }
  }

  lemma CostsMore(work: nat, cost: nat)
    requires work > 0
    ensures work * cost >= cost
  {
  }

  lemma CostsLess(less: nat, work: nat, cost: nat)
    requires less < work
    ensures less * cost + cost <= work * cost
  {
    CostsMore(work - less, cost);
    assert work * cost == less * cost + (work - less) * cost;
  }

  /** Time stamps in order, and never further apart than `gap`. */
  ghost predicate StampsPaced(times: seq<nat>, gap: nat) {
    forall i :: 0 <= i < |times| - 1 ==> Stamp(times[i]) <= Stamp(times[i + 1]) <= Stamp(times[i]) + gap
  }

  lemma EnoughTime(cfg: Config, work: nat, first: nat, last: nat, gap: nat)
    requires work <= MAX_WORK && last - first > MAX_WORK * (cfg.term + 2 * gap + 2)
    ensures Stamp(last) - Stamp(first) >= work * Cost(cfg, gap + 1)
  {
    if work < MAX_WORK {
      CostsLess(work, MAX_WORK, Cost(cfg, gap + 1));
    }
  }

  /**
   The promise in milliseconds: if the scan comes round at least every `gap` and that
   leaves room in the timer's round for the term, released keys are silent once scans
   without a change have gone on for 23 * (term + 2 * gap + 2) + 1.
   */
  lemma SilentInTime(cfg: Config, es: seq<Event>, times: seq<nat>, gap: nat)
    requires Lawful(es) && AllTimely(cfg, es) && Run(cfg, es).overflows == 0 && AllReleased(es)
    requires times != [] && Paced(times, gap) && cfg.term + gap < ROUND
    requires times[|times| - 1] - times[0] > MAX_WORK * (cfg.term + 2 * gap + 2)
    ensures Silent(Run(cfg, es + TicksAt(times)), es)
  {
    WorkBounded(cfg, es);
    TicksAtAreTicks(times);
    EnoughTime(cfg, Work(Run(cfg, es)), times[0], times[|times| - 1], gap);
    TimeDrains(cfg, Run(cfg, es), times, gap + 1);
    TicksStayOrderly(cfg, es, TicksAt(times));
    IdleIsSilent(cfg, es, TicksAt(times));
  }

  // ------------------------------------------------------------- true times of events

  /** Every event carries the 16-bit reading of a clock that does not run backwards. */
  ghost predicate Clocked(es: seq<Event>, times: seq<nat>) {
    && |times| == |es|
    && (forall i :: 0 <= i < |es| ==> es[i].time == times[i] % 0x1_0000)
    && (forall i, j :: 0 <= i < j < |times| ==> times[i] <= times[j])
  }

  /** Less than one round of the timer keeps 16-bit times in circular order. */
  lemma OneRoundIsCircular(es: seq<Event>, times: seq<nat>)
    requires Clocked(es, times) && (es != [] ==> times[|times| - 1] - times[0] < ROUND)
    ensures Circular(es)
  {
    forall i, j, l | 0 <= i < j < l < |es|
      ensures TimerDiff16(es[j].time, es[i].time) <= TimerDiff16(es[l].time, es[i].time)
    {
      ReadingsApart(times[i], times[j]);
      ReadingsApart(times[i], times[l]);
    }
  }

  lemma ReadingsApart(a: nat, b: nat)
    requires a <= b < a + ROUND
    ensures TimerDiff16(b % 0x1_0000, a % 0x1_0000) == b - a
  {
  }
}
