/**
 Latency: while the scan keeps its pace, the engine dispatches every event within a
 bounded time of its arrival, however much typing goes on meanwhile.
 */
module Latency {
  import opened Words
  import opened KeyEvents
  import opened Actions
  import opened TappingSpec
  import opened TappingFifo
  import opened TappingAgreement
  import opened TappingTimes
  import opened TappingDrain
  import opened TappingEndToEnd
  import opened Clock

  // --------------------------------------------------- where the events in flight came from

  /** The waiting events are those submitted at the positions `pos`, in order, among the first `n`. */
  ghost predicate Placed(es: seq<Event>, s: Engine, pos: seq<nat>, n: nat) {
    && n <= |es| && |pos| == |s.ring|
    && (forall i :: 0 <= i < |pos| ==> pos[i] < n && s.ring[i].event == es[pos[i]])
    && (forall i, j :: 0 <= i < j < |pos| ==> pos[i] < pos[j])
  }

  /** The pending press was submitted at `tk`. */
  ghost predicate Held(es: seq<Event>, s: Engine, tk: nat, n: nat) {
    n <= |es| && (Pending(s) ==> tk < n && s.tk.event == es[tk])
  }

  /** The pending press does not wait any more, and is no younger than what waits behind it. */
  ghost predicate HeldFirst(times: seq<nat>, s: Engine, pos: seq<nat>, tk: nat) {
    && (Pending(s) ==> tk !in pos)
    && (Pending(s) && pos != [] ==> tk < |times| && pos[0] < |times| && times[tk] <= times[pos[0]])
  }

  /** A press is pending after a call only if it was before, or if it is the record just taken. */
  lemma StepHolds(cfg: Config, s: Engine, keyp: Record)
    requires RingOk(s) && Offered(keyp)
    ensures var o := ProcessTapping(cfg, s, keyp);
      Pending(o.s) ==>
        if Pending(s) then o.s.tk.event == s.tk.event else o.done && o.s.tk.event == keyp.event
  {
  }

  lemma DrainStepPlaced(cfg: Config, es: seq<Event>, s: Engine, pos: seq<nat>, tk: nat, n: nat)
    requires RingOk(s) && s.ring != [] && Placed(es, s, pos, n) && Held(es, s, tk, n)
    requires forall i :: 0 <= i < |es| ==> WellFormed(es[i])
    ensures var o := DrainStep(cfg, s);
      && RingOk(o.s) && Placed(es, o.s, if o.done then pos[1..] else pos, n)
      && (Pending(o.s) && Pending(s) ==> o.s.tk.event == s.tk.event)
      && (Pending(o.s) && !Pending(s) ==> o.done && o.s.tk.event == es[pos[0]])
  {
    ProcessTappingTakes(cfg, s, s.ring[0], s.ring[0].event.key);
    StepHolds(cfg, s, s.ring[0]);
  }

  /** The drain loop takes waiting events from the front; a press it leaves pending was so before or was among them. */
  lemma {:induction false} DrainPlaced(
    cfg: Config, es: seq<Event>, times: seq<nat>, s: Engine, pos: seq<nat>, tk: nat, n: nat)
    returns (pos': seq<nat>, tk': nat)
    requires RingOk(s) && Placed(es, s, pos, n) && Held(es, s, tk, n) && HeldFirst(times, s, pos, tk)
    requires Clocked(es, times) && forall i :: 0 <= i < |es| ==> WellFormed(es[i])
    ensures var s' := Drain(cfg, s); Placed(es, s', pos', n) && Held(es, s', tk', n) && HeldFirst(times, s', pos', tk')
    ensures |pos'| <= |pos| && pos' == pos[|pos| - |pos'|..]
    ensures Pending(Drain(cfg, s)) ==> (Pending(s) && tk' == tk) || tk' in pos[..|pos| - |pos'|]
    decreases |s.ring|
  {
    pos', tk' := pos, tk;
    if s.ring != [] {
      var o := DrainStep(cfg, s);
      DrainStepPlaced(cfg, es, s, pos, tk, n);
      if o.done {
        var next := if Pending(s) then tk else pos[0];
        pos', tk' := DrainPlaced(cfg, es, times, o.s, pos[1..], next, n);
      }
    }
  }

  /** The positions of what waits once the event at `n` has arrived. */
  function Joined(pos: seq<nat>, n: nat, s1: Engine): seq<nat>
    requires |s1.ring| <= |pos| + 1
  {
    (pos + [n])[..|s1.ring|]
  }

  lemma ArrivePlaced(cfg: Config, es: seq<Event>, s: Engine, pos: seq<nat>, tk: nat, n: nat)
    requires RingOk(s) && n < |es| && WellFormed(es[n]) && Placed(es, s, pos, n) && Held(es, s, tk, n)
    requires Arrive(cfg, s, Record(es[n], NO_TAP)).overflows == s.overflows
    ensures var s1 := Arrive(cfg, s, Record(es[n], NO_TAP));
      && |pos| <= |s1.ring| <= |pos| + 1 && Placed(es, s1, Joined(pos, n, s1), n + 1)
      && Held(es, s1, if Pending(s) then tk else n, n + 1)
      && (Pending(s1) && !Pending(s) ==> |s1.ring| == |pos|)
  {
    var r := Record(es[n], NO_TAP);
    ProcessTappingTakes(cfg, s, r, es[n].key);
    StepHolds(cfg, s, r);
  }

  /** Seen from a younger press, an older waiting event is beyond the term: the press is settled as a hold at once. */
  lemma YoungPressSettled(cfg: Config, es: seq<Event>, times: seq<nat>, s1: Engine, pos: seq<nat>, n: nat)
    requires Clocked(es, times) && Placed(es, s1, pos, n + 1) && n < |es| && pos != [] && pos[0] < n
    requires Pending(s1) && s1.tk.event == es[n] && times[pos[0]] < times[n]
    requires times[n] - times[pos[0]] + cfg.term <= ROUND
    ensures var s' := Drain(cfg, s1); !Pending(s') && |s'.ring| == |s1.ring|
    ensures RingOk(s1) && WellFormed(es[pos[0]]) ==> Placed(es, Drain(cfg, s1), pos, n + 1)
  {
    assert s1.ring[0].event == es[pos[0]];
    assert TimerDiff16(es[pos[0]].time, es[n].time) == ROUND - (times[n] - times[pos[0]]);
    assert !Within(cfg, s1, s1.ring[0].event);
    assert Drain(cfg, s1) == DrainStep(cfg, s1).s;
    if RingOk(s1) && WellFormed(es[pos[0]]) {
      ProcessTappingTakes(cfg, s1, s1.ring[0], es[n].key);
    }
  }

  /**
   Between `s` and `s'` the event at `n` arrived, which made it `s1`, and the drain loop
   took from the front of the ring; a press now pending is that event, or the one that was
   pending all along, or one that the drain loop took.
   */
  ghost predicate Moved(s: Engine, s1: Engine, s': Engine, pos: seq<nat>, tk: nat, pos': seq<nat>, tk': nat, n: nat) {
    && |s'.ring| == |pos'| <= |s1.ring| <= |pos| + 1
    && var joined := Joined(pos, n, s1);
      && pos' == joined[|joined| - |pos'|..]
      && (Pending(s') ==>
            tk' == n || (Pending(s1) && Pending(s) && tk' == tk) || tk' in joined[..|joined| - |pos'|])
  }

  /** One whole call. */
  lemma CallPlaced(cfg: Config, es: seq<Event>, times: seq<nat>, s: Engine, pos: seq<nat>, tk: nat, n: nat)
    returns (pos': seq<nat>, tk': nat)
    requires Clocked(es, times) && (forall i :: 0 <= i < |es| ==> WellFormed(es[i])) && n < |es|
    requires RingOk(s) && Placed(es, s, pos, n) && Held(es, s, tk, n) && HeldFirst(times, s, pos, tk)
    requires pos != [] ==> times[n] - times[pos[0]] + cfg.term <= ROUND
    requires Arrive(cfg, ClearWeak(s, es[n]), Record(es[n], NO_TAP)).overflows == s.overflows
    ensures var s1, s' := Arrive(cfg, ClearWeak(s, es[n]), Record(es[n], NO_TAP)), ActionExec(cfg, s, es[n]);
      && Placed(es, s', pos', n + 1) && Held(es, s', tk', n + 1) && HeldFirst(times, s', pos', tk')
      && Moved(s, s1, s', pos, tk, pos', tk', n)
  {
    var s0 := ClearWeak(s, es[n]);
    var s1 := Arrive(cfg, s0, Record(es[n], NO_TAP));
    ArrivePlaced(cfg, es, s0, pos, tk, n);
    ArriveRingOk(cfg, s0, es[n]);
    pos', tk' := DrainCall(cfg, es, times, s, s1, pos, tk, n);
  }

  /** Unless the event became pending while older ones wait, the pending press is still the oldest. */
  lemma ArrivalHeldFirst(es: seq<Event>, times: seq<nat>, s: Engine, s1: Engine, pos: seq<nat>, tk: nat, n: nat)
    requires Clocked(es, times) && n < |es| && Placed(es, s, pos, n) && Held(es, s, tk, n) && HeldFirst(times, s, pos, tk)
    requires |pos| <= |s1.ring| <= |pos| + 1 && (Pending(s1) && !Pending(s) ==> |s1.ring| == |pos|)
    requires Pending(s1) && !Pending(s) && pos != [] ==> times[pos[0]] >= times[n]
    ensures HeldFirst(times, s1, Joined(pos, n, s1), if Pending(s) then tk else n)
  {
    assert pos != [] ==> Joined(pos, n, s1)[0] == pos[0];
  }

  lemma DrainCall(cfg: Config, es: seq<Event>, times: seq<nat>, s: Engine, s1: Engine, pos: seq<nat>, tk: nat, n: nat)
    returns (pos': seq<nat>, tk': nat)
    requires Clocked(es, times) && (forall i :: 0 <= i < |es| ==> WellFormed(es[i])) && n < |es|
    requires Placed(es, s, pos, n) && Held(es, s, tk, n) && HeldFirst(times, s, pos, tk)
    requires pos != [] ==> times[n] - times[pos[0]] + cfg.term <= ROUND
    requires RingOk(s1) && |pos| <= |s1.ring| <= |pos| + 1 && Placed(es, s1, Joined(pos, n, s1), n + 1)
    requires Held(es, s1, if Pending(s) then tk else n, n + 1) && (Pending(s1) && !Pending(s) ==> |s1.ring| == |pos|)
    ensures var s' := Drain(cfg, s1);
      && Placed(es, s', pos', n + 1) && Held(es, s', tk', n + 1) && HeldFirst(times, s', pos', tk')
      && Moved(s, s1, s', pos, tk, pos', tk', n)
  {
    var tk1 := if Pending(s) then tk else n;
    var joined := Joined(pos, n, s1);
    if Pending(s1) && !Pending(s) && pos != [] && times[pos[0]] < times[n] {
      assert joined == pos;
      YoungPressSettled(cfg, es, times, s1, pos, n);
      pos', tk' := pos, n;
    } else {
      ArrivalHeldFirst(es, times, s, s1, pos, tk, n);
      pos', tk' := DrainPlaced(cfg, es, times, s1, joined, tk1, n + 1);
    }
  }

  // ------------------------------------------------------------------ every call advances

  /** How many calls the front of the ring may still take to get its turn, unless a young press is pending. */
  function Phase(s: Engine): nat { if Tapped(s) then 3 else if TapReleased(s) then 2 else 1 }

  lemma DrainAdvances(cfg: Config, s: Engine)
    requires s.ring != [] && !Pending(s)
    ensures |Drain(cfg, s).ring| < |s.ring| || (TapReleased(s) && Phase(Drain(cfg, s)) == 1)
  {
    if DrainStep(cfg, s).done {
      DrainShortens(cfg, DrainStep(cfg, s).s);
    }
  }

  /** A press that arrives while others wait and no press is pending. */
  predicate Hurried(s: Engine, e: Event) { e.pressed && !Settled(s) }

  /** Unless the pending press is young or the event is hurried, each call takes from the ring or comes closer to it. */
  lemma CallAdvances(cfg: Config, s: Engine, e: Event)
    requires WellFormed(e) && RingOk(s) && s.ring != [] && !Hurried(s, e) && (Pending(s) ==> !Within(cfg, s, e))
    ensures var s1, s' := Arrive(cfg, ClearWeak(s, e), Record(e, NO_TAP)), ActionExec(cfg, s, e);
      s1.overflows == s.overflows ==> |s'.ring| < |s1.ring| || Phase(s') < Phase(s)
  {
    var s0 := ClearWeak(s, e);
    var s1 := Arrive(cfg, s0, Record(e, NO_TAP));
    if s1.overflows == s.overflows {
      assert s1.ring != [] && !Pending(s1);
      assert TapReleased(s1) ==> TapReleased(s) || Tapped(s);
      DrainAdvances(cfg, s1);
    }
  }

  // --------------------------------------------------------------------- a budget of calls

  /** Which events of the run were hurried. */
  function HurriedFlags(cfg: Config, es: seq<Event>): (h: seq<bool>)
    ensures |h| == |es|
  {
    seq(|es|, i requires 0 <= i < |es| => Hurried(Run(cfg, es[..i]), es[i]))
  }

  function CountTo(h: seq<bool>, n: nat): nat
    requires n <= |h|
  {
    if n == 0 then 0 else CountTo(h, n - 1) + if h[n - 1] then 1 else 0
  }

  lemma {:induction false} CountGrows(h: seq<bool>, a: nat, n: nat)
    requires a <= n <= |h|
    ensures CountTo(h, a) <= CountTo(h, n)
  {
    if a < n {
      CountGrows(h, a, n - 1);
    }
  }

  /** The term of the event at `a` is over by call `m`. */
  predicate Over(term: nat, times: seq<nat>, a: nat, m: nat)
    requires a < |times| && m < |times|
  {
    times[m] >= times[a] + term
  }

  const CALLS: nat := 3 * RING_CAPACITY + 1

  /**
   After `n` calls, with up to `left` more to go: since the term of the event at `a` was
   over there have been at most 22 calls in all, and three more for each hurried press.
   */
  ghost predicate InBudget(term: nat, times: seq<nat>, h: seq<bool>, a: nat, n: nat, left: nat)
    requires |times| == |h| && a < n <= |h|
  {
    forall m :: a < m < n && Over(term, times, a, m) ==> n - m + left <= CALLS + 3 * (CountTo(h, n) - CountTo(h, a))
  }

  lemma BudgetStep(term: nat, times: seq<nat>, h: seq<bool>, a: nat, n: nat, left: nat, left': nat)
    requires |times| == |h| && a < n < |h| && InBudget(term, times, h, a, n, left) && left' + 1 <= CALLS
    requires forall i, j :: 0 <= i < j < |times| ==> times[i] <= times[j]
    requires Over(term, times, a, n) ==> left' + 1 <= left + if h[n] then 3 else 0
    ensures InBudget(term, times, h, a, n + 1, left')
  {
    CountGrows(h, a, n);
    forall m | a < m < n + 1 && Over(term, times, a, m)
      ensures n + 1 - m + left' <= CALLS + 3 * (CountTo(h, n + 1) - CountTo(h, a))
    {
      if m < n {
        assert Over(term, times, a, n);
      }
    }
  }

  /** Every event in flight is within its budget. */
  ghost predicate AllInBudget(term: nat, times: seq<nat>, h: seq<bool>, s: Engine, pos: seq<nat>, tk: nat, n: nat)
    requires |times| == |h| && n <= |h| && (forall i :: 0 <= i < |pos| ==> pos[i] < n) && (Pending(s) ==> tk < n)
  {
    && (forall i :: 0 <= i < |pos| ==> InBudget(term, times, h, pos[i], n, 3 * i + Phase(s)))
    && (Pending(s) ==> InBudget(term, times, h, tk, n, 0))
  }

  /** What holds between calls: where the events in flight came from, and their budgets. */
  ghost predicate Tracked(
    cfg: Config, es: seq<Event>, times: seq<nat>, h: seq<bool>, s: Engine, pos: seq<nat>, tk: nat, n: nat)
  {
    && |h| == |es| && Clocked(es, times)
    && RingOk(s) && Placed(es, s, pos, n) && Held(es, s, tk, n) && HeldFirst(times, s, pos, tk)
    && AllInBudget(cfg.term, times, h, s, pos, tk, n)
  }

  /** A call from `s` by way of `s1` to `s'` came closer to the ring's front, and kept no press pending beyond its term. */
  ghost predicate Advanced(cfg: Config, s: Engine, s1: Engine, s': Engine, e: Event) {
    && (s.ring != [] && !Hurried(s, e) && (Pending(s) ==> !Within(cfg, s, e)) ==>
          |s'.ring| < |s1.ring| || Phase(s') < Phase(s))
    && (Pending(s) && Pending(s1) ==> Within(cfg, s, e))
  }

  lemma CallAdvanced(cfg: Config, s: Engine, e: Event)
    requires WellFormed(e) && RingOk(s)
    requires Arrive(cfg, ClearWeak(s, e), Record(e, NO_TAP)).overflows == s.overflows
    ensures Advanced(cfg, s, Arrive(cfg, ClearWeak(s, e), Record(e, NO_TAP)), ActionExec(cfg, s, e), e)
  {
    if s.ring != [] && !Hurried(s, e) && (Pending(s) ==> !Within(cfg, s, e)) {
      CallAdvances(cfg, s, e);
    }
  }

  /** Once the term of a waiting event is over, so is that of the press before it. */
  lemma OldPressOver(cfg: Config, es: seq<Event>, times: seq<nat>, s: Engine, pos: seq<nat>, tk: nat, n: nat, i: nat)
    requires Clocked(es, times) && n < |es| && Placed(es, s, pos, n) && Held(es, s, tk, n) && HeldFirst(times, s, pos, tk)
    requires i < |pos| && Over(cfg.term, times, pos[i], n) && (Pending(s) ==> times[n] - times[tk] < ROUND)
    ensures Pending(s) ==> !Within(cfg, s, es[n])
  {
    if Pending(s) {
      assert times[tk] <= times[pos[0]] <= times[pos[i]];
      ReadingsApart(times[tk], times[n]);
    }
  }

  /** What waited and still waits is within its budget. */
  lemma EntryInBudget(
    cfg: Config, es: seq<Event>, times: seq<nat>, h: seq<bool>, s: Engine, s1: Engine, s': Engine,
    pos: seq<nat>, tk: nat, n: nat, i: nat, i': nat)
    requires Tracked(cfg, es, times, h, s, pos, tk, n) && n < |es|
    requires (Pending(s) ==> times[n] - times[tk] < ROUND) && h[n] == Hurried(s, es[n])
    requires i < |pos| && i' < RING_CAPACITY
    requires Advanced(cfg, s, s1, s', es[n]) && i - i' == |s1.ring| - |s'.ring| >= 0
    ensures InBudget(cfg.term, times, h, pos[i], n + 1, 3 * i' + Phase(s'))
  {
    if Over(cfg.term, times, pos[i], n) {
      OldPressOver(cfg, es, times, s, pos, tk, n, i);
    }
    BudgetStep(cfg.term, times, h, pos[i], n, 3 * i + Phase(s), 3 * i' + Phase(s'));
  }

  /** What waited or was pending and is pending now is within its budget. */
  lemma PendingInBudget(
    cfg: Config, es: seq<Event>, times: seq<nat>, h: seq<bool>, s: Engine, s1: Engine, s': Engine,
    pos: seq<nat>, tk: nat, tk': nat, n: nat, i: nat)
    requires Tracked(cfg, es, times, h, s, pos, tk, n) && n < |es| && Advanced(cfg, s, s1, s', es[n])
    requires Pending(s) ==> times[n] - times[tk] < ROUND
    requires (Pending(s1) && Pending(s) && tk' == tk) || (i < |pos| && tk' == pos[i])
    ensures InBudget(cfg.term, times, h, tk', n + 1, 0)
  {
    if i < |pos| && tk' == pos[i] {
      BudgetStep(cfg.term, times, h, tk', n, 3 * i + Phase(s), 0);
    } else {
      ReadingsApart(times[tk], times[n]);
      BudgetStep(cfg.term, times, h, tk', n, 0, 0);
    }
  }

  /** The event at `a` was in flight, or has just come. */
  predicate InFlightAt(s: Engine, pos: seq<nat>, tk: nat, n: nat, a: nat) {
    a == n || a in pos || (Pending(s) && a == tk)
  }

  /** Nothing gets in flight but what was or has just come. */
  lemma MovedFrom(s: Engine, s1: Engine, s': Engine, pos: seq<nat>, tk: nat, pos': seq<nat>, tk': nat, n: nat)
    requires Moved(s, s1, s', pos, tk, pos', tk', n)
    ensures forall i :: 0 <= i < |pos'| ==> InFlightAt(s, pos, tk, n, pos'[i])
    ensures Pending(s') ==> InFlightAt(s, pos, tk, n, tk')
  {
    var joined := Joined(pos, n, s1);
    forall a | a in joined ensures InFlightAt(s, pos, tk, n, a) {
      assert a in pos + [n];
    }
  }

  /** What waits now waited before, as many places further back as the call has taken, or has just come. */
  lemma MovedUp(s: Engine, s1: Engine, s': Engine, pos: seq<nat>, tk: nat, pos': seq<nat>, tk': nat, n: nat, i: nat)
    requires Moved(s, s1, s', pos, tk, pos', tk', n) && i < |pos'|
    ensures var c := |s1.ring| - |s'.ring|;
      pos'[i] == n || (i + c < |pos| && pos'[i] == pos[i + c])
  {
    assert pos'[i] == Joined(pos, n, s1)[i + |s1.ring| - |s'.ring|];
  }

  /** A call keeps every budget. */
  lemma BudgetsKept(
    cfg: Config, es: seq<Event>, times: seq<nat>, h: seq<bool>, s: Engine, s1: Engine, s': Engine,
    pos: seq<nat>, tk: nat, pos': seq<nat>, tk': nat, n: nat)
    requires Tracked(cfg, es, times, h, s, pos, tk, n) && n < |es|
    requires (Pending(s) ==> times[n] - times[tk] < ROUND) && h[n] == Hurried(s, es[n])
    requires Advanced(cfg, s, s1, s', es[n]) && Moved(s, s1, s', pos, tk, pos', tk', n) && |s'.ring| <= RING_CAPACITY
    requires (forall i :: 0 <= i < |pos'| ==> pos'[i] < n + 1) && (Pending(s') ==> tk' < n + 1)
    ensures AllInBudget(cfg.term, times, h, s', pos', tk', n + 1)
  {
    forall i | 0 <= i < |pos'| ensures InBudget(cfg.term, times, h, pos'[i], n + 1, 3 * i + Phase(s')) {
      MovedUp(s, s1, s', pos, tk, pos', tk', n, i);
      if pos'[i] < n {
        EntryInBudget(cfg, es, times, h, s, s1, s', pos, tk, n, i + |s1.ring| - |s'.ring|, i);
      }
    }
    if Pending(s') && tk' < n {
      PressKept(s, s1, s', pos, tk, pos', tk', n);
      var i := if tk' in pos then var j :| 0 <= j < |pos| && pos[j] == tk'; j else |pos|;
      PendingInBudget(cfg, es, times, h, s, s1, s', pos, tk, tk', n, i);
    }
  }

  lemma PressKept(s: Engine, s1: Engine, s': Engine, pos: seq<nat>, tk: nat, pos': seq<nat>, tk': nat, n: nat)
    requires Moved(s, s1, s', pos, tk, pos', tk', n) && Pending(s') && tk' < n
    ensures (Pending(s1) && Pending(s) && tk' == tk) || tk' in pos
  {
    var joined := Joined(pos, n, s1);
    if tk' in joined[..|joined| - |pos'|] {
      assert tk' in pos + [n];
    }
  }

  /** One call keeps everything in flight tracked. */
  lemma CallTracked(cfg: Config, es: seq<Event>, times: seq<nat>, h: seq<bool>, s: Engine, pos: seq<nat>, tk: nat, n: nat)
    returns (pos': seq<nat>, tk': nat)
    requires Tracked(cfg, es, times, h, s, pos, tk, n) && n < |es| && forall i :: 0 <= i < |es| ==> WellFormed(es[i])
    requires (Pending(s) ==> times[n] - times[tk] < ROUND) && h[n] == Hurried(s, es[n])
    requires pos != [] ==> times[n] - times[pos[0]] + cfg.term <= ROUND
    requires ActionExec(cfg, s, es[n]).overflows == s.overflows && |ActionExec(cfg, s, es[n]).ring| <= RING_CAPACITY
    ensures Tracked(cfg, es, times, h, ActionExec(cfg, s, es[n]), pos', tk', n + 1)
    ensures forall i :: 0 <= i < |pos'| ==> InFlightAt(s, pos, tk, n, pos'[i])
    ensures Pending(ActionExec(cfg, s, es[n])) ==> InFlightAt(s, pos, tk, n, tk')
  {
    var s0, s' := ClearWeak(s, es[n]), ActionExec(cfg, s, es[n]);
    var s1 := Arrive(cfg, s0, Record(es[n], NO_TAP));
    ArriveRingOk(cfg, s0, es[n]);
    DrainConserves(cfg, s1, es[n].key);
    pos', tk' := CallPlaced(cfg, es, times, s, pos, tk, n);
    CallAdvanced(cfg, s, es[n]);
    BudgetsKept(cfg, es, times, h, s, s1, s', pos, tk, pos', tk', n);
    MovedFrom(s, s1, s', pos, tk, pos', tk', n);
  }

  // --------------------------------------------------------------------- true time

  /** The latency of scans at least every `gap`, with at most `most` hurried presses in one round of the timer. */
  function MaxAge(term: nat, gap: nat, most: nat): nat { term + (CALLS + 3 * most) * gap }

  /** At most `most` hurried presses in any one round of the timer. */
  ghost predicate Unhurried(times: seq<nat>, h: seq<bool>, most: nat)
    requires |times| == |h|
  {
    forall a, n :: 0 <= a < n <= |h| && times[n - 1] - times[a] < ROUND ==> CountTo(h, n) - CountTo(h, a) <= most
  }

  lemma {:induction false} PacedSpan(times: seq<nat>, gap: nat, a: nat, b: nat)
    requires Paced(times, gap) && a <= b < |times|
    ensures times[b] - times[a] <= (b - a) * gap
  {
    if a < b {
      PacedSpan(times, gap, a, b - 1);
      assert (b - a) * gap == (b - 1 - a) * gap + gap;
    }
  }

  lemma MoreCalls(less: nat, more: nat, gap: nat)
    requires less <= more
    ensures less * gap <= more * gap
  {
  }

  /** The first call at which the term of the event at `a` is over. */
  lemma {:induction false} FirstOver(term: nat, times: seq<nat>, a: nat, n: nat) returns (m: nat)
    requires a < n < |times| && Over(term, times, a, n)
    ensures a < m <= n && Over(term, times, a, m) && times[m - 1] <= times[a] + term
  {
    m := n;
    if a < n - 1 && Over(term, times, a, n - 1) {
      m := FirstOver(term, times, a, n - 1);
    }
  }

  /** A budget of calls is a bound on age. */
  lemma BudgetIsAge(term: nat, times: seq<nat>, h: seq<bool>, a: nat, n: nat, gap: nat, most: nat)
    requires |times| == |h| && a < n <= |h| && InBudget(term, times, h, a, n, 0) && Paced(times, gap)
    requires CountTo(h, n) - CountTo(h, a) <= most
    ensures times[n - 1] - times[a] <= MaxAge(term, gap, most)
  {
    if a < n - 1 && Over(term, times, a, n - 1) {
      var m := FirstOver(term, times, a, n - 1);
      PacedSpan(times, gap, m - 1, n - 1);
      MoreCalls(n - m, CALLS + 3 * most, gap);
    }
  }

  /**
   A run by the clock: events carry the 16-bit readings of a clock, the scan comes round at
   least every `gap`, few presses are hurried, and the timer's round has room for two terms
   and the calls that an event can be made to wait.
   */
  ghost predicate PacedRun(cfg: Config, es: seq<Event>, times: seq<nat>, gap: nat, most: nat) {
    && (forall i :: 0 <= i < |es| ==> WellFormed(es[i]))
    && Clocked(es, times) && Paced(times, gap) && Unhurried(times, HurriedFlags(cfg, es), most)
    && MaxAge(cfg.term, gap, most) + gap + cfg.term < ROUND
  }

  /** Everything in flight after `n` calls is tracked, and was submitted at most MaxAge before the last call. */
  ghost predicate Young(
    cfg: Config, es: seq<Event>, times: seq<nat>, gap: nat, most: nat, s: Engine, pos: seq<nat>, tk: nat, n: nat)
  {
    && Tracked(cfg, es, times, HurriedFlags(cfg, es), s, pos, tk, n)
    && (forall i :: 0 <= i < |pos| ==> times[pos[i]] + MaxAge(cfg.term, gap, most) >= times[n - 1])
    && (Pending(s) ==> times[tk] + MaxAge(cfg.term, gap, most) >= times[n - 1])
  }

  lemma AgeStep(term: nat, times: seq<nat>, h: seq<bool>, gap: nat, most: nat, a: nat, n: nat)
    requires |times| == |h| && a <= n < |h| && InBudget(term, times, h, a, n + 1, 0)
    requires Paced(times, gap) && Unhurried(times, h, most) && MaxAge(term, gap, most) + gap < ROUND
    requires a < n ==> times[a] + MaxAge(term, gap, most) >= times[n - 1]
    ensures times[a] + MaxAge(term, gap, most) >= times[n]
  {
    if a < n {
      assert times[n] <= times[n - 1] + gap;
    }
    assert CountTo(h, n + 1) - CountTo(h, a) <= most;
    BudgetIsAge(term, times, h, a, n + 1, gap, most);
  }

  lemma InFlightStaysYoung(
    cfg: Config, es: seq<Event>, times: seq<nat>, gap: nat, most: nat, s: Engine, pos: seq<nat>, tk: nat,
    n: nat, a: nat)
    requires PacedRun(cfg, es, times, gap, most) && n < |es| && Young(cfg, es, times, gap, most, s, pos, tk, n)
    requires a <= n && InFlightAt(s, pos, tk, n, a) && InBudget(cfg.term, times, HurriedFlags(cfg, es), a, n + 1, 0)
    ensures times[a] + MaxAge(cfg.term, gap, most) >= times[n]
  {
    AgeStep(cfg.term, times, HurriedFlags(cfg, es), gap, most, a, n);
  }

  lemma StaysYoung(
    cfg: Config, es: seq<Event>, times: seq<nat>, gap: nat, most: nat, s: Engine, s': Engine, pos: seq<nat>,
    tk: nat, pos': seq<nat>, tk': nat, n: nat)
    requires PacedRun(cfg, es, times, gap, most) && n < |es| && Young(cfg, es, times, gap, most, s, pos, tk, n)
    requires Tracked(cfg, es, times, HurriedFlags(cfg, es), s', pos', tk', n + 1)
    requires forall i :: 0 <= i < |pos'| ==> InFlightAt(s, pos, tk, n, pos'[i])
    requires Pending(s') ==> InFlightAt(s, pos, tk, n, tk')
    ensures Young(cfg, es, times, gap, most, s', pos', tk', n + 1)
  {
    forall i | 0 <= i < |pos'| ensures times[pos'[i]] + MaxAge(cfg.term, gap, most) >= times[n] {
      assert InBudget(cfg.term, times, HurriedFlags(cfg, es), pos'[i], n + 1, 3 * i + Phase(s'));
      InFlightStaysYoung(cfg, es, times, gap, most, s, pos, tk, n, pos'[i]);
    }
    if Pending(s') {
      InFlightStaysYoung(cfg, es, times, gap, most, s, pos, tk, n, tk');
    }
  }

  lemma PrefixStep(cfg: Config, es: seq<Event>, n: nat)
    requires n < |es| && (forall i :: 0 <= i < |es| ==> WellFormed(es[i])) && Run(cfg, es[..n + 1]).overflows == 0
    ensures var s, s' := Run(cfg, es[..n]), Run(cfg, es[..n + 1]);
      s' == ActionExec(cfg, s, es[n]) && s.overflows == 0 && RingOk(s) && |s'.ring| <= RING_CAPACITY
  {
    assert es[..n + 1][..n] == es[..n];
    RunRingOk(cfg, es[..n + 1]);
    RunRingOk(cfg, es[..n]);
    RingBounded(cfg, es[..n + 1]);
  }

  /** Latency: whatever is still pending or waiting was submitted at most MaxAge before the last call. */
  lemma {:induction false} InFlightIsYoung(cfg: Config, es: seq<Event>, times: seq<nat>, gap: nat, most: nat, n: nat)
    returns (pos: seq<nat>, tk: nat)
    requires PacedRun(cfg, es, times, gap, most) && n <= |es| && Run(cfg, es[..n]).overflows == 0
    ensures Young(cfg, es, times, gap, most, Run(cfg, es[..n]), pos, tk, n)
  {
    pos, tk := [], 0;
    if n > 0 {
      PrefixStep(cfg, es, n - 1);
      var pos0, tk0 := InFlightIsYoung(cfg, es, times, gap, most, n - 1);
      pos, tk := YoungCall(cfg, es, times, gap, most, Run(cfg, es[..n - 1]), pos0, tk0, n - 1);
    }
  }

  lemma YoungCall(
    cfg: Config, es: seq<Event>, times: seq<nat>, gap: nat, most: nat, s: Engine, pos: seq<nat>, tk: nat,
    n: nat)
    returns (pos': seq<nat>, tk': nat)
    requires PacedRun(cfg, es, times, gap, most) && n < |es| && Young(cfg, es, times, gap, most, s, pos, tk, n)
    requires HurriedFlags(cfg, es)[n] == Hurried(s, es[n])
    requires ActionExec(cfg, s, es[n]).overflows == s.overflows && |ActionExec(cfg, s, es[n]).ring| <= RING_CAPACITY
    ensures Young(cfg, es, times, gap, most, ActionExec(cfg, s, es[n]), pos', tk', n + 1)
  {
    pos', tk' := CallTracked(cfg, es, times, HurriedFlags(cfg, es), s, pos, tk, n);
    StaysYoung(cfg, es, times, gap, most, s, ActionExec(cfg, s, es[n]), pos, tk, pos', tk', n);
  }

  // --------------------------------------------------------- delivery while typing goes on

  lemma {:induction false} InputsGrow(k: KeyPos, es: seq<Event>, a: nat, b: nat)
    requires a <= b <= |es|
    ensures Inputs(k, es[..a]) <= Inputs(k, es[..b])
  {
    if a < b {
      assert es[..b][..b - 1] == es[..b - 1];
      InputsGrow(k, es, a, b - 1);
    }
  }

  lemma InputsPass(k: KeyPos, es: seq<Event>, a: nat, q: nat, b: nat)
    requires a <= q < b <= |es| && es[q].key == k && !NoEvent(es[q])
    ensures |Inputs(k, es[..a])| + 1 <= |Inputs(k, es[..b])|
  {
    InputsGrow(k, es, a, q);
    assert es[..q + 1][..q] == es[..q];
    InputsGrow(k, es, q + 1, b);
  }

  /** Position `tk` counts, if it is that of a pending press of the key and lies below `b`. */
  function PressBelow(k: KeyPos, s: Engine, tk: nat, b: nat): nat {
    if Pending(s) && s.tk.event.key == k && tk < b then 1 else 0
  }

  lemma PressPasses(k: KeyPos, es: seq<Event>, s: Engine, tk: nat, n: nat, a: nat, b: nat)
    requires Held(es, s, tk, n) && a <= b <= n
    ensures |Inputs(k, es[..a])| + PressBelow(k, s, tk, b) <= |Inputs(k, es[..b])| + PressBelow(k, s, tk, a)
  {
    if PressBelow(k, s, tk, b) > PressBelow(k, s, tk, a) {
      InputsPass(k, es, a, tk, b);
    } else {
      InputsGrow(k, es, a, b);
    }
  }

  /** The position behind the first `i` waiting events. */
  function Bound(pos: seq<nat>, j: nat, i: nat): nat
    requires i <= |pos|
  {
    if i == 0 then j else pos[i - 1] + 1
  }

  /** Events in flight that were submitted at `j` or later are inputs from `j` on. */
  lemma {:induction false} InFlightCounted(
    k: KeyPos, es: seq<Event>, times: seq<nat>, s: Engine, pos: seq<nat>, tk: nat, n: nat, j: nat, i: nat)
    requires RingOk(s) && Placed(es, s, pos, n) && Held(es, s, tk, n) && HeldFirst(times, s, pos, tk)
    requires i <= |pos| && j <= n
    requires (forall i :: 0 <= i < |pos| ==> j <= pos[i]) && (Pending(s) ==> j <= tk)
    ensures |EventsOf(k, s.ring[..i])| + PressBelow(k, s, tk, Bound(pos, j, i)) + |Inputs(k, es[..j])|
         <= |Inputs(k, es[..Bound(pos, j, i)])|
  {
    if i > 0 {
      var r, q := s.ring[i - 1], pos[i - 1];
      InFlightCounted(k, es, times, s, pos, tk, n, j, i - 1);
      PressPasses(k, es, s, tk, n, Bound(pos, j, i - 1), q);
      OneMoreWaits(k, s.ring, i);
      assert r.event == es[q] && (Pending(s) ==> tk != q);
      if es[q].key == k {
        InputsPass(k, es, q, q, q + 1);
      } else {
        InputsGrow(k, es, q, q + 1);
      }
    }
  }

  lemma OneMoreWaits(k: KeyPos, rs: seq<Record>, i: nat)
    requires 0 < i <= |rs|
    ensures |EventsOf(k, rs[..i])| == |EventsOf(k, rs[..i - 1])| + if rs[i - 1].event.key == k then 1 else 0
  {
    assert rs[..i] == rs[..i - 1] + [rs[i - 1]];
    EventsOfConcat(k, rs[..i - 1], [rs[i - 1]]);
    assert [rs[i - 1]][1..] == [];
  }

  /** What was submitted before anything now in flight has been dispatched. */
  lemma OlderIsDispatched(k: KeyPos, es: seq<Event>, times: seq<nat>, s: Engine, pos: seq<nat>, tk: nat, j: nat)
    requires RingOk(s) && Placed(es, s, pos, |es|) && Held(es, s, tk, |es|) && HeldFirst(times, s, pos, tk) && j <= |es|
    requires (forall i :: 0 <= i < |pos| ==> j <= pos[i]) && (Pending(s) ==> j <= tk)
    requires Accounted(k, s) == Inputs(k, es)
    ensures Inputs(k, es[..j]) <= Dispatches(k, s.log)
  {
    var m := |pos|;
    InFlightCounted(k, es, times, s, pos, tk, |es|, j, m);
    assert s.ring[..m] == s.ring && es[..|es|] == es;
    PressPasses(k, es, s, tk, |es|, Bound(pos, j, m), |es|);
    InputsGrow(k, es, j, |es|);
    assert Dispatches(k, s.log) <= Accounted(k, s);
  }

  lemma YoungIsLater(
    cfg: Config, es: seq<Event>, times: seq<nat>, gap: nat, most: nat, s: Engine, pos: seq<nat>, tk: nat,
    j: nat)
    requires Young(cfg, es, times, gap, most, s, pos, tk, |es|)
    requires 0 < j <= |es| && times[|es| - 1] - times[j - 1] > MaxAge(cfg.term, gap, most)
    ensures (forall i :: 0 <= i < |pos| ==> j <= pos[i]) && (Pending(s) ==> j <= tk)
  {
    forall a | 0 <= a < |es| && times[a] + MaxAge(cfg.term, gap, most) >= times[|es| - 1] ensures j <= a {
    }
  }

  lemma OldIsDispatched(
    cfg: Config, es: seq<Event>, times: seq<nat>, gap: nat, most: nat, s: Engine, pos: seq<nat>, tk: nat,
    j: nat)
    requires Young(cfg, es, times, gap, most, s, pos, tk, |es|) && KeepsOrder(s, es)
    requires 0 < j <= |es| && times[|es| - 1] - times[j - 1] > MaxAge(cfg.term, gap, most)
    ensures forall k :: Inputs(k, es[..j]) <= Dispatches(k, s.log)
  {
    YoungIsLater(cfg, es, times, gap, most, s, pos, tk, j);
    forall k ensures Inputs(k, es[..j]) <= Dispatches(k, s.log) {
      assert Accounted(k, s) == Inputs(k, es);
      OlderIsDispatched(k, es, times, s, pos, tk, j);
    }
  }

  /**
   Delivery while typing goes on: in an admissible, paced run without overflow everything
   submitted more than MaxAge before the last call has been dispatched, in order.
   */
  lemma DeliveredInTime(cfg: Config, es: seq<Event>, times: seq<nat>, gap: nat, most: nat, j: nat)
    requires Lawful(es) && AllAdmissible(cfg, es) && Run(cfg, es).overflows == 0
    requires PacedRun(cfg, es, times, gap, most)
    requires 0 < j <= |es| && times[|es| - 1] - times[j - 1] > MaxAge(cfg.term, gap, most)
    ensures forall k :: Inputs(k, es[..j]) <= Dispatches(k, Run(cfg, es).log)
  {
    assert es[..|es|] == es;
    RunKeepsOrder(cfg, es);
    var pos, tk := InFlightIsYoung(cfg, es, times, gap, most, |es|);
    OldIsDispatched(cfg, es, times, gap, most, Run(cfg, es), pos, tk, j);
  }

  // ------------------------------------------------------------ agreement by the pace alone

  /** The true times of a key's waiting events. */
  function TimesAt(k: KeyPos, rs: seq<Record>, pos: seq<nat>, times: seq<nat>): seq<nat>
    requires |pos| == |rs| && forall i :: 0 <= i < |pos| ==> pos[i] < |times|
  {
    if rs == [] then []
    else (if rs[0].event.key == k then [times[pos[0]]] else []) + TimesAt(k, rs[1..], pos[1..], times)
  }

  lemma ClockedConcat(a: seq<Event>, ta: seq<nat>, b: seq<Event>, tb: seq<nat>)
    requires Clocked(a, ta) && Clocked(b, tb) && forall x, y :: x in ta && y in tb ==> x <= y
    ensures Clocked(a + b, ta + tb)
  {
    forall i, j | 0 <= i < j < |ta + tb| ensures (ta + tb)[i] <= (ta + tb)[j] {
      if i < |ta| <= j {
        assert ta[i] in ta && tb[j - |ta|] in tb;
      }
    }
  }

  lemma {:induction false} WaitingIsClocked(k: KeyPos, rs: seq<Record>, pos: seq<nat>, es: seq<Event>, times: seq<nat>)
    requires Clocked(es, times) && |pos| == |rs|
    requires forall i :: 0 <= i < |pos| ==> pos[i] < |es| && rs[i].event == es[pos[i]]
    requires forall i, j :: 0 <= i < j < |pos| ==> pos[i] < pos[j]
    ensures Clocked(EventsOf(k, rs), TimesAt(k, rs, pos, times))
    ensures forall t :: t in TimesAt(k, rs, pos, times) ==> exists i :: 0 <= i < |pos| && t == times[pos[i]]
  {
    if rs != [] {
      var rest := TimesAt(k, rs[1..], pos[1..], times);
      WaitingIsClocked(k, rs[1..], pos[1..], es, times);
      forall t | t in rest ensures times[pos[0]] <= t && exists i :: 0 <= i < |pos| && t == times[pos[i]] {
        var i :| 0 <= i < |pos[1..]| && t == times[pos[1..][i]];
        assert pos[i + 1] == pos[1..][i];
      }
      if rs[0].event.key == k {
        ClockedConcat([rs[0].event], [times[pos[0]]], EventsOf(k, rs[1..]), rest);
      }
    }
  }

  /** Everything a key still has to dispatch was submitted within one round of the timer. */
  lemma YoungIsCircular(cfg: Config, es: seq<Event>, times: seq<nat>, s: Engine, pos: seq<nat>, tk: nat, n: nat)
    requires Clocked(es, times) && n < |es|
    requires Placed(es, s, pos, n) && Held(es, s, tk, n) && HeldFirst(times, s, pos, tk)
    requires forall i :: 0 <= i < |pos| ==> times[n] < times[pos[i]] + ROUND
    requires Pending(s) ==> times[n] < times[tk] + ROUND
    ensures Circular(StillInFlight(cfg, s, es[n]))
  {
    var k := es[n].key;
    var here := Pending(s) && s.tk.event.key == k && Within(cfg, s, es[n]);
    var first, firstTimes := if here then [s.tk.event] else [], if here then [times[tk]] else [];
    WaitingIsYoung(k, es, times, s, pos, tk, n);
    OneRoundWith(first, firstTimes, WaitingOf(k, s), TimesAt(k, s.ring, pos, times), es[n], times[n]);
  }

  lemma WaitingIsYoung(k: KeyPos, es: seq<Event>, times: seq<nat>, s: Engine, pos: seq<nat>, tk: nat, n: nat)
    requires Clocked(es, times) && n < |es| && Placed(es, s, pos, n) && Held(es, s, tk, n) && HeldFirst(times, s, pos, tk)
    requires forall i :: 0 <= i < |pos| ==> times[n] < times[pos[i]] + ROUND
    ensures Clocked(WaitingOf(k, s), TimesAt(k, s.ring, pos, times))
    ensures forall t :: t in TimesAt(k, s.ring, pos, times) ==> t <= times[n] < t + ROUND && (Pending(s) ==> times[tk] <= t)
  {
    WaitingIsClocked(k, s.ring, pos, es, times);
    forall t | t in TimesAt(k, s.ring, pos, times) ensures t <= times[n] < t + ROUND && (Pending(s) ==> times[tk] <= t) {
      var i :| 0 <= i < |pos| && t == times[pos[i]];
      assert times[pos[0]] <= times[pos[i]] <= times[n];
    }
  }

  lemma OneRoundWith(a: seq<Event>, ta: seq<nat>, b: seq<Event>, tb: seq<nat>, e: Event, last: nat)
    requires Clocked(a, ta) && Clocked(b, tb) && e.time == last % 0x1_0000 && forall x, y :: x in ta && y in tb ==> x <= y
    requires forall t :: t in ta || t in tb ==> t <= last < t + ROUND
    ensures Circular(a + b + [e])
  {
    ClockedConcat(a, ta, b, tb);
    ClockedConcat(a + b, ta + tb, [e], [last]);
    var all := ta + tb + [last];
    assert all[0] == last || all[0] in ta + tb;
    OneRoundIsCircular(a + b + [e], all);
  }

  ghost predicate AllInTurn(cfg: Config, es: seq<Event>) {
    es != [] ==>
      AllInTurn(cfg, es[..|es| - 1]) && InTurn(cfg, Run(cfg, es[..|es| - 1]), es[|es| - 1])
  }

  lemma {:induction false} PacedPrefixIsTimely(cfg: Config, es: seq<Event>, times: seq<nat>, gap: nat, most: nat, n: nat)
    requires PacedRun(cfg, es, times, gap, most) && n <= |es|
    requires AllInTurn(cfg, es[..n]) && Run(cfg, es[..n]).overflows == 0
    ensures AllTimely(cfg, es[..n])
  {
    if n > 0 {
      var p := es[..n - 1];
      assert es[..n][..n - 1] == p;
      PrefixStep(cfg, es, n - 1);
      PacedPrefixIsTimely(cfg, es, times, gap, most, n - 1);
      var pos, tk := InFlightIsYoung(cfg, es, times, gap, most, n - 1);
      YoungIsCircular(cfg, es, times, Run(cfg, p), pos, tk, n - 1);
    }
  }

  /** Tap/hold agreement by the pace of the scan: nothing is asked of the timer in any single state. */
  lemma PacedRunsAgree(cfg: Config, es: seq<Event>, times: seq<nat>, gap: nat, most: nat)
    requires Lawful(es) && AllInTurn(cfg, es) && Run(cfg, es).overflows == 0
    requires PacedRun(cfg, es, times, gap, most)
    ensures AllTimely(cfg, es) && AllOrderly(cfg, es) && TapAgrees(Run(cfg, es).log)
  {
    assert es[..|es|] == es;
    PacedPrefixIsTimely(cfg, es, times, gap, most, |es|);
    TimelyRunIsOrderly(cfg, es);
    RunAgrees(cfg, es);
  }

  /**
   From the pace of the scan to silence: released keys of a paced run are silent once scans
   without a change have gone on for 23 * (term + 2 * gap + 2) + 1 ms.
   */
  lemma PacedKeysFallSilent(cfg: Config, es: seq<Event>, times: seq<nat>, gap: nat, most: nat, idle: seq<nat>)
    requires Lawful(es) && AllInTurn(cfg, es) && Run(cfg, es).overflows == 0 && AllReleased(es)
    requires PacedRun(cfg, es, times, gap, most)
    requires idle != [] && Paced(idle, gap) && idle[|idle| - 1] - idle[0] > MAX_WORK * (cfg.term + 2 * gap + 2)
    ensures Silent(Run(cfg, es + TicksAt(idle)), es)
  {
    PacedRunsAgree(cfg, es, times, gap, most);
    SilentInTime(cfg, es, idle, gap);
  }
}
