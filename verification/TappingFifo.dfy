/**
 Per-key conservation and order in the tap/hold engine: what was dispatched, then
 the pending press, then what waits in the ring, is exactly what was submitted.
 */
module TappingFifo {
  import opened KeyEvents
  import opened Actions
  import opened TappingSpec

  /** `es` followed by `e`, if `e` is a real event of key `k`. */
  function Plus(k: KeyPos, es: seq<Event>, e: Event): seq<Event> {
    if !NoEvent(e) && e.key == k then es + [e] else es
  }

  /** The real events of key `k` given to process_record, oldest first. */
  function Dispatches(k: KeyPos, log: seq<Dispatched>): seq<Event> {
    if log == [] then []
    else
      var d := log[|log| - 1];
      var before := Dispatches(k, log[..|log| - 1]);
      if d.synthetic then before else Plus(k, before, d.rec.event)
  }

  /** Events of `k` that left the input side: dispatched, or held as the pending press. */
  function Taken(k: KeyPos, s: Engine): seq<Event> {
    var ds := Dispatches(k, s.log);
    if Pending(s) then Plus(k, ds, s.tk.event) else ds
  }

  function WaitingOf(k: KeyPos, s: Engine): seq<Event> { EventsOf(k, s.ring) }

  /** All the engine knows of key `k`: dispatched, pending, waiting. */
  function Accounted(k: KeyPos, s: Engine): seq<Event> { Taken(k, s) + WaitingOf(k, s) }

  /** Ring entries are real events, and their presses carry no tap data yet. */
  ghost predicate RingOk(s: Engine) {
    forall i :: 0 <= i < |s.ring| ==>
      !NoEvent(s.ring[i].event) && (s.ring[i].event.pressed ==> s.ring[i].tap.count == 0)
  }

  ghost predicate SameEvents(a: seq<Record>, b: seq<Record>) {
    |a| == |b| && forall i :: 0 <= i < |a| ==> a[i].event == b[i].event
  }

  // -------------------------------------------------------- one process_tapping

  lemma ProcessRecordTakes(cfg: Config, s: Engine, r: Record, k: KeyPos)
    ensures Dispatches(k, ProcessRecord(cfg, s, r, false).log) == Plus(k, Dispatches(k, s.log), r.event)
    ensures Dispatches(k, ProcessRecord(cfg, s, r, true).log) == Dispatches(k, s.log)
  {
    if !NoEvent(r.event) {
      var a := ResolvedAction(cfg, s.host, r.event);
      assert (s.log + [Dispatched(r, false, a)])[..|s.log|] == s.log;
      assert (s.log + [Dispatched(r, true, a)])[..|s.log|] == s.log;
    }
  }

  /** Settling a fresh press against the ring neither loses nor invents anything. */
  lemma ScanTapTakes(cfg: Config, s: Engine, k: KeyPos)
    requires RingOk(s) && Pending(s)
    ensures var s' := ScanTap(cfg, s);
      && Taken(k, s') == Taken(k, s)
      && SameEvents(s'.ring, s.ring) && RingOk(s') && s'.overflows == s.overflows
      && s'.tk.event == s.tk.event
  {
    var i := FindRelease(cfg, s, 0);
    FindReleaseIsRelease(cfg, s, 0);
    if i < |s.ring| {
      var tk := s.tk.(tap := s.tk.tap.(count := 1));
      var marked := s.ring[i].(tap := s.ring[i].tap.(count := 1));
      ProcessRecordTakes(cfg, s.(tk := tk, ring := s.ring[i := marked]), tk, k);
    }
  }

  lemma {:induction false} FindReleaseIsRelease(cfg: Config, s: Engine, i: nat)
    requires i <= |s.ring|
    ensures var r := FindRelease(cfg, s, i);
      && (r < |s.ring| ==>
            IsTappingKey(s, s.ring[r].event.key) && !s.ring[r].event.pressed && Within(cfg, s, s.ring[r].event))
      && forall j :: i <= j < r ==>
            !(IsTappingKey(s, s.ring[j].event.key) && !s.ring[j].event.pressed && Within(cfg, s, s.ring[j].event))
    decreases |s.ring| - i
  {
    if i < |s.ring| && !(IsTappingKey(s, s.ring[i].event.key) && !s.ring[i].event.pressed && Within(cfg, s, s.ring[i].event)) {
      FindReleaseIsRelease(cfg, s, i + 1);
    }
  }

  /** What process_tapping may be given: presses carry no tap data, and ticks are no presses. */
  predicate Offered(keyp: Record) {
    WellFormed(keyp.event) && (keyp.event.pressed ==> keyp.tap.count == 0)
  }

  /** The record was taken exactly when `done` says so, and the ring's events did not move. */
  ghost predicate Took(k: KeyPos, s: Engine, keyp: Record, o: Outcome) {
    && Taken(k, o.s) == (if o.done then Plus(k, Taken(k, s), keyp.event) else Taken(k, s))
    && SameEvents(o.s.ring, s.ring) && RingOk(o.s) && o.s.overflows == s.overflows
    && o.keyp.event == keyp.event && (!o.done && keyp.event.pressed ==> o.keyp == keyp)
  }

  /**
   One call of process_tapping takes exactly the record it was given when it says
   so, and nothing otherwise, whatever the state, the times and the keymap.
   */
  lemma ProcessTappingTakes(cfg: Config, s: Engine, keyp: Record, k: KeyPos)
    requires RingOk(s) && Offered(keyp)
    ensures Took(k, s, keyp, ProcessTapping(cfg, s, keyp))
  {
    var within := Within(cfg, s, keyp.event);
    if Pending(s) {
      if within {
        PendingWithinTakes(cfg, s, keyp, k);
      } else {
        ProcessRecordTakes(cfg, s, s.tk, k);
      }
    } else if Tapped(s) {
      TappedCaseTakes(cfg, s, keyp, within, k);
    } else if TapReleased(s) {
      if within {
        ReleasedWithinTakes(cfg, s, keyp, k);
      }
    } else {
      ProcessRecordTakes(cfg, s, keyp, k);
      if keyp.event.pressed && IsTapRecord(cfg, s, keyp) {
        ScanTapTakes(cfg, s.(tk := keyp), k);
      }
    }
  }

  lemma PendingWithinTakes(cfg: Config, s: Engine, keyp: Record, k: KeyPos)
    requires RingOk(s) && Offered(keyp) && Pending(s)
    ensures Took(k, s, keyp, PendingWithin(cfg, s, keyp))
  {
    if IsTappingKey(s, keyp.event.key) && !keyp.event.pressed {
      var tk := s.tk.(tap := s.tk.tap.(count := 1));
      ProcessRecordTakes(cfg, s.(tk := tk), tk, k);
    } else {
      ProcessRecordTakes(cfg, s, keyp, k);
    }
  }

  lemma TappedCaseTakes(cfg: Config, s: Engine, keyp: Record, within: bool, k: KeyPos)
    requires RingOk(s) && Offered(keyp) && Tapped(s)
    ensures Took(k, s, keyp, TappedCase(cfg, s, keyp, within))
  {
    ProcessRecordTakes(cfg, s, keyp, k);
    ProcessRecordTakes(cfg, s, keyp.(tap := s.tk.tap), k);
    if IsTapRecord(cfg, s, keyp) && keyp.event.pressed {
      var release := SyntheticRelease(s, keyp.event.time);
      ProcessRecordTakes(cfg, s, release, k);
      ScanTapTakes(cfg, (if s.tk.tap.count > 1 then ProcessRecord(cfg, s, release, true) else s).(tk := keyp), k);
    }
  }

  lemma ReleasedWithinTakes(cfg: Config, s: Engine, keyp: Record, k: KeyPos)
    requires RingOk(s) && Offered(keyp) && TapReleased(s)
    ensures Took(k, s, keyp, ReleasedWithin(cfg, s, keyp))
  {
    ProcessRecordTakes(cfg, s, keyp, k);
    if keyp.event.pressed {
      if IsTappingKey(s, keyp.event.key) {
        var tap := s.tk.tap;
        var r := keyp.(tap := if tap.count < 15 then tap.(count := tap.count + 1) else tap);
        ProcessRecordTakes(cfg, s, r, k);
      } else if IsTapRecord(cfg, s, keyp) {
        ScanTapTakes(cfg, s.(tk := keyp), k);
      } else {
        var s1 := s.(tk := s.tk.(tap := s.tk.tap.(interrupted := true)));
        ProcessRecordTakes(cfg, s1, keyp, k);
      }
    }
  }

  // ------------------------------------------------------------- the drain loop

  /** What the drain loop makes of one outcome. */
  function Popped(o: Outcome): Engine
    requires o.s.ring != []
  {
    o.s.(ring := if o.done then o.s.ring[1..] else o.s.ring[0 := o.keyp])
  }

  lemma PopAccounts(s: Engine, o: Outcome, k: KeyPos)
    requires RingOk(s) && s.ring != [] && Took(k, s, s.ring[0], o)
    ensures Accounted(k, Popped(o)) == Accounted(k, s)
  {
    var h := s.ring[0];
    assert Taken(k, Popped(o)) == Taken(k, o.s);
    if o.done {
      EventsOfSame(k, s.ring[1..], o.s.ring[1..]);
      assert WaitingOf(k, s) == (if h.event.key == k then [h.event] else []) + EventsOf(k, s.ring[1..]);
    } else {
      EventsOfSame(k, s.ring, o.s.ring[0 := o.keyp]);
    }
  }

  /** One pass of the drain loop moves its event from the front of the ring to the taken side, or nothing. */
  lemma DrainStepConserves(cfg: Config, s: Engine, k: KeyPos)
    requires RingOk(s) && s.ring != []
    ensures var s' := DrainStep(cfg, s).s;
      Accounted(k, s') == Accounted(k, s) && RingOk(s') && s'.overflows == s.overflows
  {
    ProcessTappingTakes(cfg, s, s.ring[0], k);
    PopAccounts(s, ProcessTapping(cfg, s, s.ring[0]), k);
  }

  lemma {:induction false} DrainConserves(cfg: Config, s: Engine, k: KeyPos)
    requires RingOk(s)
    ensures var s' := Drain(cfg, s);
      Accounted(k, s') == Accounted(k, s) && RingOk(s') && s'.overflows == s.overflows
    decreases |s.ring|
  {
    if s.ring != [] {
      DrainStepConserves(cfg, s, k);
      if DrainStep(cfg, s).done {
        DrainConserves(cfg, DrainStep(cfg, s).s, k);
      }
    }
  }

  // -------------------------------------------------------------------- arrival

  /**
   No event of `e`'s key can be overtaken by `e`: the engine is holding a press
   back, or nothing of that key waits, or `e` itself ends the last tap's term.
   A caller can test this before the call.
   */
  predicate Admissible(cfg: Config, s: Engine, e: Event) {
    || NoEvent(e)
    || Pending(s)
    || WaitingOf(e.key, s) == []
    || (TapReleased(s) && !Within(cfg, s, e))
  }

  /** In a settled state every event is admissible. */
  lemma SettledIsAdmissible(cfg: Config, s: Engine, e: Event)
    requires Settled(s)
    ensures Admissible(cfg, s, e)
  {
  }

  /** A release whose key has no press in the ring finds nothing of that key in the ring. */
  lemma UntypedReleaseAlone(s: Engine, e: Event, k: KeyPos)
    requires !e.pressed && e.key == k && !Typed(s, e) && Alternates(Accounted(k, s) + [e])
    ensures WaitingOf(k, s) == []
  {
    var w := WaitingOf(k, s);
    if w != [] {
      var all := Accounted(k, s) + [e];
      assert all[|all| - 1] == e && all[|all| - 2] == w[|w| - 1];
      EventsOfMember(k, s.ring, |w| - 1);
    }
  }

  lemma {:induction false} EventsOfMember(k: KeyPos, rs: seq<Record>, i: nat)
    requires i < |EventsOf(k, rs)|
    ensures exists j :: 0 <= j < |rs| && rs[j].event.key == k && rs[j].event == EventsOf(k, rs)[i]
  {
    if rs[0].event.key == k && i == 0 {
    } else {
      var i' := if rs[0].event.key == k then i - 1 else i;
      EventsOfMember(k, rs[1..], i');
      var j :| 0 <= j < |rs[1..]| && rs[1..][j].event.key == k && rs[1..][j].event == EventsOf(k, rs[1..])[i'];
      assert rs[j + 1] == rs[1..][j];
    }
  }

  /** When a real event is taken at once, either nothing of its key waited or it was not admissible. */
  lemma TakenAtOnce(cfg: Config, s: Engine, e: Event)
    requires RingOk(s) && !NoEvent(e)
    requires Alternates(Accounted(e.key, s) + [e])
    requires ProcessTapping(cfg, s, Record(e, NO_TAP)).done
    ensures WaitingOf(e.key, s) == [] <==> Admissible(cfg, s, e)
  {
    if Pending(s) {
      assert PendingWithin(cfg, s, Record(e, NO_TAP)).done;
      UntypedReleaseAlone(s, e, e.key);
    }
  }

  /** A tick or real event arriving: accounted for in order exactly when it is admissible. */
  lemma ArriveAccounts(cfg: Config, s: Engine, e: Event, k: KeyPos)
    requires RingOk(s) && WellFormed(e)
    requires !NoEvent(e) ==> Alternates(Accounted(e.key, s) + [e])
    requires Arrive(cfg, s, Record(e, NO_TAP)).overflows == s.overflows
    ensures var s' := Arrive(cfg, s, Record(e, NO_TAP));
      && RingOk(s')
      && (NoEvent(e) || e.key != k ==> Accounted(k, s') == Accounted(k, s))
      && (!NoEvent(e) && e.key == k ==>
            (Accounted(k, s') == Accounted(k, s) + [e] <==> Admissible(cfg, s, e)))
  {
    var r := Record(e, NO_TAP);
    var o := ProcessTapping(cfg, s, r);
    ProcessTappingTakes(cfg, s, r, k);
    EventsOfSame(k, s.ring, o.s.ring);
    if o.done {
      if !NoEvent(e) && e.key == k {
        TakenAtOnce(cfg, s, e);
        var t, w := Taken(k, s), WaitingOf(k, s);
        assert Accounted(k, o.s) == t + [e] + w;
        if w == [] {
          assert t + [e] + w == t + w + [e];
        } else {
          OvertakingShows(t, w, e);
        }
      }
    } else if !NoEvent(e) {
      EventsOfConcat(k, o.s.ring, [o.keyp]);
      assert Arrive(cfg, s, r).ring == o.s.ring + [o.keyp];
      assert EventsOf(k, [o.keyp]) == if e.key == k then [e] else [] by {
        assert [o.keyp][1..] == [];
      }
      assert Taken(k, Arrive(cfg, s, r)) == Taken(k, o.s);
      if e.key == k {
        assert Accounted(k, Arrive(cfg, s, r)) == Accounted(k, s) + [e];
        assert Admissible(cfg, s, e);
      }
    }
  }

  /** Alternating events make overtaking visible: putting `e` before the waiting ones is a different order. */
  lemma OvertakingShows(t: seq<Event>, w: seq<Event>, e: Event)
    requires w != [] && Alternates(t + w + [e])
    ensures t + [e] + w != t + w + [e]
  {
    var all := t + w + [e];
    var n := |all|;
    assert all[n - 2] == w[|w| - 1] && all[n - 1] == e;
    assert (t + [e] + w)[n - 1] == w[|w| - 1];
  }

  /** One whole call of action_exec. */
  lemma ActionExecAccounts(cfg: Config, s: Engine, e: Event, k: KeyPos)
    requires RingOk(s) && WellFormed(e)
    requires !NoEvent(e) ==> Alternates(Accounted(e.key, s) + [e])
    requires ActionExec(cfg, s, e).overflows == s.overflows
    ensures var s' := ActionExec(cfg, s, e);
      && RingOk(s')
      && (NoEvent(e) || e.key != k ==> Accounted(k, s') == Accounted(k, s))
      && (!NoEvent(e) && e.key == k ==>
            (Accounted(k, s') == Accounted(k, s) + [e] <==> Admissible(cfg, s, e)))
  {
    var s0 := ClearWeak(s, e);
    var s1 := Arrive(cfg, s0, Record(e, NO_TAP));
    ArriveRingOk(cfg, s0, e);
    DrainConserves(cfg, s1, k);
    ArriveAccounts(cfg, s0, e, k);
    assert Admissible(cfg, s0, e) == Admissible(cfg, s, e);
  }

  lemma ArriveRingOk(cfg: Config, s: Engine, e: Event)
    requires RingOk(s) && WellFormed(e)
    ensures RingOk(Arrive(cfg, s, Record(e, NO_TAP)))
  {
    ProcessTappingTakes(cfg, s, Record(e, NO_TAP), e.key);
  }

  // ----------------------------------------------------------------- whole runs

  /** The caller's side of a run: well-formed events, and each key's events take turns. */
  ghost predicate Lawful(es: seq<Event>) {
    && (forall i :: 0 <= i < |es| ==> WellFormed(es[i]))
    && (forall k :: Alternates(Inputs(k, es)))
  }

  /** Every event of the run was admissible when it arrived. */
  ghost predicate AllAdmissible(cfg: Config, es: seq<Event>) {
    es != [] ==>
      AllAdmissible(cfg, es[..|es| - 1]) && Admissible(cfg, Run(cfg, es[..|es| - 1]), es[|es| - 1])
  }

  /** The engine accounts for every submitted event, in order. */
  ghost predicate KeepsOrder(s: Engine, es: seq<Event>) {
    forall k :: Accounted(k, s) == Inputs(k, es)
  }

  /** Order is kept after every event of the run. */
  ghost predicate AlwaysKeepsOrder(cfg: Config, es: seq<Event>) {
    KeepsOrder(Run(cfg, es), es) && (es != [] ==> AlwaysKeepsOrder(cfg, es[..|es| - 1]))
  }

  lemma LawfulPrefix(es: seq<Event>)
    requires es != [] && Lawful(es)
    ensures Lawful(es[..|es| - 1])
  {
    var p := es[..|es| - 1];
    forall k ensures Alternates(Inputs(k, p)) {
      assert Alternates(Inputs(k, es));
      forall i | 0 <= i < |Inputs(k, p)| ensures Inputs(k, p)[i].pressed <==> i % 2 == 0 {
        assert Inputs(k, p)[i] == Inputs(k, es)[i];
      }
    }
  }

  /** One more event: order survives exactly when the event was admissible. */
  lemma RunStep(cfg: Config, es: seq<Event>)
    requires es != [] && Lawful(es) && Run(cfg, es).overflows == Run(cfg, es[..|es| - 1]).overflows
    requires var s := Run(cfg, es[..|es| - 1]); RingOk(s) && KeepsOrder(s, es[..|es| - 1])
    ensures RingOk(Run(cfg, es))
    ensures KeepsOrder(Run(cfg, es), es) <==> Admissible(cfg, Run(cfg, es[..|es| - 1]), es[|es| - 1])
  {
    var p, e := es[..|es| - 1], es[|es| - 1];
    var s := Run(cfg, p);
    assert Accounted(e.key, s) == Inputs(e.key, p);
    if !NoEvent(e) {
      assert Alternates(Inputs(e.key, es));
      assert Inputs(e.key, es) == Accounted(e.key, s) + [e];
    }
    ActionExecAccounts(cfg, s, e, e.key);
    if Admissible(cfg, s, e) {
      forall k ensures Accounted(k, Run(cfg, es)) == Inputs(k, es) {
        ActionExecAccounts(cfg, s, e, k);
        assert Accounted(k, s) == Inputs(k, p);
      }
    } else {
      assert Accounted(e.key, Run(cfg, es)) != Inputs(e.key, es);
    }
  }

  lemma OverflowsGrow(cfg: Config, s: Engine, e: Event)
    requires RingOk(s) && WellFormed(e)
    ensures ActionExec(cfg, s, e).overflows >= s.overflows && RingOk(ActionExec(cfg, s, e))
  {
    var s0 := ClearWeak(s, e);
    ProcessTappingTakes(cfg, s0, Record(e, NO_TAP), e.key);
    ArriveRingOk(cfg, s0, e);
    DrainConserves(cfg, Arrive(cfg, s0, Record(e, NO_TAP)), e.key);
  }

  lemma {:induction false} RunRingOk(cfg: Config, es: seq<Event>)
    requires forall i :: 0 <= i < |es| ==> WellFormed(es[i])
    ensures RingOk(Run(cfg, es))
    ensures es != [] ==> Run(cfg, es).overflows >= Run(cfg, es[..|es| - 1]).overflows
  {
    if es != [] {
      RunRingOk(cfg, es[..|es| - 1]);
      OverflowsGrow(cfg, Run(cfg, es[..|es| - 1]), es[|es| - 1]);
    }
  }

  /**
   Conservation and per-key order over whole runs. In every lawful run without
   overflow whose real events were admissible, for each key the dispatched events,
   then its pending press, then its waiting events, are the submitted ones.
   */
  lemma {:induction false} RunKeepsOrder(cfg: Config, es: seq<Event>)
    requires Lawful(es) && AllAdmissible(cfg, es) && Run(cfg, es).overflows == 0
    ensures RingOk(Run(cfg, es)) && KeepsOrder(Run(cfg, es), es)
  {
    if es != [] {
      LawfulPrefix(es);
      RunRingOk(cfg, es);
      RunKeepsOrder(cfg, es[..|es| - 1]);
      RunStep(cfg, es);
    }
  }

  /** The condition is exact: order is kept all along a run if and only if every event was admissible. */
  lemma {:induction false} OrderKeptExactly(cfg: Config, es: seq<Event>)
    requires Lawful(es) && Run(cfg, es).overflows == 0
    ensures AlwaysKeepsOrder(cfg, es) <==> AllAdmissible(cfg, es)
  {
    if es != [] {
      var p := es[..|es| - 1];
      LawfulPrefix(es);
      RunRingOk(cfg, es);
      RunRingOk(cfg, p);
      OrderKeptExactly(cfg, p);
      if KeepsOrder(Run(cfg, p), p) {
        RunStep(cfg, es);
      }
    }
  }
}
