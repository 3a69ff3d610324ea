/**
 What becomes of an event when it comes: dispatched at once and with which tap data, held
 back as a possible tap, or made to wait; and what a tap count greater than 1 stands for.
 */
module TappingTaps {
  import opened KeyEvents
  import opened Actions
  import opened TappingSpec
  import opened TappingFifo
  import opened TappingAgreement
  import opened TappingDecisions

  /** Exactly one record has been dispatched. */
  ghost predicate Goes(s: Engine, s': Engine, r: Record, synthetic: bool) {
    |s'.log| == |s.log| + 1 && s.log <= s'.log && s'.log[|s.log|].rec == r && s'.log[|s.log|].synthetic == synthetic
  }

  // ---------------------------------------------------------------- nothing waits or is pending

  /** The press goes on with a burst of taps: its key's last tap has just been released and nothing was pressed since. */
  predicate GoesOn(cfg: Config, s: Engine, e: Event) {
    && TapReleased(s) && Within(cfg, s, e) && s.tk.event.key == e.key
    && s.tk.tap.count > 0 && !s.tk.tap.interrupted
  }

  /** The press may become a tap: it is that of a layer-tap key, or that of an interrupted burst again. */
  predicate MayTap(cfg: Config, s: Engine, e: Event) {
    && !GoesOn(cfg, s, e)
    && (LayerSwitchGetAction(cfg, s.host, e.key).LayerTap?
        || (TapReleased(s) && Within(cfg, s, e) && s.tk.event.key == e.key))
  }

  /** Releases are dispatched at once; that of the tapping key carries the tap data of its press. */
  lemma FreeRelease(cfg: Config, s: Engine, e: Event)
    requires s.ring == [] && !Pending(s) && !NoEvent(e) && !e.pressed
    ensures var s' := ActionExec(cfg, s, e);
      var own := Tapped(s) && s.tk.event.key == e.key;
      && s'.ring == [] && Goes(s, s', Record(e, if own then s.tk.tap else NO_TAP), false)
      && (if own then s'.tk == (if Within(cfg, s, e) then Record(e, s.tk.tap) else EMPTY_RECORD)
          else if TapReleased(s) && !Within(cfg, s, e) then s'.tk == EMPTY_RECORD
          else s'.tk == s.tk)
  {
    var s1 := Arrive(cfg, s, Record(e, NO_TAP));
    if s1.ring != [] {
      assert DrainStep(cfg, s1).s.ring == [];
      assert Drain(cfg, s1) == DrainStep(cfg, s1).s;
    }
  }

  /** A press that goes on with a burst is dispatched at once with the next count, which stops at 15. */
  lemma FreeBurst(cfg: Config, s: Engine, e: Event)
    requires s.ring == [] && !NoEvent(e) && e.pressed && GoesOn(cfg, s, e)
    ensures var s', c := ActionExec(cfg, s, e), s.tk.tap.count;
      s'.ring == [] && s'.tk == Record(e, Tap(false, if c < 15 then c + 1 else c)) && Goes(s, s', s'.tk, false)
  {
  }

  /** Any other press that cannot become a tap is dispatched at once, and interrupts a burst that has not ended. */
  lemma FreePress(cfg: Config, s: Engine, e: Event)
    requires s.ring == [] && !Pending(s) && !NoEvent(e) && e.pressed && !GoesOn(cfg, s, e) && !MayTap(cfg, s, e)
    ensures var s' := ActionExec(cfg, s, e);
      && s'.ring == [] && Goes(s, s', Record(e, NO_TAP), false)
      && (if TapReleased(s) && Within(cfg, s, e) then s'.tk == s.tk.(tap := s.tk.tap.(interrupted := true))
          else if TapReleased(s) then s'.tk == EMPTY_RECORD
          else s'.tk == s.tk)
  {
    var s0 := ClearWeak(s, e);
    var s1 := Arrive(cfg, s0, Record(e, NO_TAP));
    assert LayerSwitchGetAction(cfg, s0.host, e.key) == LayerSwitchGetAction(cfg, s.host, e.key);
    if s1.ring != [] {
      assert DrainStep(cfg, s1).s.ring == [];
      assert Drain(cfg, s1) == DrainStep(cfg, s1).s;
    }
  }

  /** A press that may become a tap is held back; a second or later tap that is still down is released first. */
  lemma FreeTap(cfg: Config, s: Engine, e: Event)
    requires s.ring == [] && !Pending(s) && !NoEvent(e) && e.pressed && MayTap(cfg, s, e)
    ensures var s' := ActionExec(cfg, s, e);
      && s'.ring == [] && s'.tk == Record(e, NO_TAP)
      && (if Tapped(s) && s.tk.tap.count > 1
          then Goes(s, s', Record(Event(s.tk.event.key, false, e.time), s.tk.tap), true)
          else s'.log == s.log)
  {
    var s0 := ClearWeak(s, e);
    var s1 := Arrive(cfg, s0, Record(e, NO_TAP));
    assert LayerSwitchGetAction(cfg, s0.host, e.key) == LayerSwitchGetAction(cfg, s.host, e.key);
    if s1.ring != [] {
      assert s1.ring[1..] == [];
      assert Drain(cfg, s1) == DrainStep(cfg, s1).s;
    }
  }

  /** A tick dispatches nothing, and ends a burst whose term is over. */
  lemma FreeTick(cfg: Config, s: Engine, e: Event)
    requires s.ring == [] && !Pending(s) && IsTick(e)
    ensures var s' := ActionExec(cfg, s, e);
      s'.ring == [] && s'.log == s.log && s'.host == s.host
      && s'.tk == (if TapReleased(s) && !Within(cfg, s, e) then EMPTY_RECORD else s.tk)
  {
  }

  // --------------------------------------------------------------------- a press is pending

  /** The release of a modifier: its key stands for codes 0xE0 to 0xE7, or for modifiers without a code. */
  predicate ReleasesModifier(a: Action) {
    a.Key? && (0xE0 <= a.code <= 0xE7 || (a.code == 0 && a.mods != {}))
  }

  /**
   While a press is pending within its term, any other key's event has to wait, but for
   the release of a key, no modifier, whose press is not waiting: that is dispatched at
   once. A press that comes or is next in turn interrupts the pending one.
   */
  lemma PendingArrival(cfg: Config, s: Engine, e: Event)
    requires Pending(s) && Resting(cfg, s) && WellFormed(e) && !NoEvent(e) && Within(cfg, s, e) && !FirstTap(cfg, s, e)
    requires Arrive(cfg, ClearWeak(s, e), Record(e, NO_TAP)).overflows == s.overflows
    ensures var s' := ActionExec(cfg, s, e);
      if !e.pressed && !Typed(s, e) && !ReleasesModifier(LayerSwitchGetAction(cfg, s.host, e.key))
      then NextDispatched(s, s', Record(e, NO_TAP))
      else s'.ring == s.ring + [Record(e, NO_TAP)] && s'.log == s.log && s'.tk.event == s.tk.event
           && s'.tk.tap == s.tk.tap.(interrupted := s.tk.tap.interrupted || e.pressed || s'.ring[0].event.pressed)
  {
    var s1 := Arrive(cfg, ClearWeak(s, e), Record(e, NO_TAP));
    if !e.pressed && !Typed(s, e) && !ReleasesModifier(LayerSwitchGetAction(cfg, s.host, e.key)) {
      DrainExtends(cfg, s1);
    } else {
      ArrivalWaits(cfg, s, e);
      HeadStays(cfg, s, s1, e);
    }
  }

  lemma ArrivalWaits(cfg: Config, s: Engine, e: Event)
    requires Pending(s) && WellFormed(e) && !NoEvent(e) && Within(cfg, s, e) && !FirstTap(cfg, s, e)
    requires Arrive(cfg, ClearWeak(s, e), Record(e, NO_TAP)).overflows == s.overflows
    requires e.pressed || Typed(s, e) || ReleasesModifier(LayerSwitchGetAction(cfg, s.host, e.key))
    ensures Arrive(cfg, ClearWeak(s, e), Record(e, NO_TAP)) == ClearWeak(s, e).(
      ring := s.ring + [Record(e, NO_TAP)],
      tk := s.tk.(tap := s.tk.tap.(interrupted := s.tk.tap.interrupted || e.pressed)))
  {
  }

  /** The drain loop does nothing while the front of the ring can neither settle the press nor go. */
  lemma HeadStays(cfg: Config, s: Engine, s1: Engine, e: Event)
    requires Pending(s) && Resting(cfg, s) && !NoEvent(e) && Within(cfg, s, e) && !FirstTap(cfg, s, e)
    requires e.pressed || Typed(s, e) || ReleasesModifier(LayerSwitchGetAction(cfg, s.host, e.key))
    requires s1.ring == s.ring + [Record(e, NO_TAP)] && s1.tk.event == s.tk.event && s1.tk.tap.count == 0
    requires s1.tk.tap.interrupted == (s.tk.tap.interrupted || e.pressed) && s1.host.layers == s.host.layers
    ensures var s' := Drain(cfg, s1); s'.ring == s1.ring && s'.log == s1.log && s'.tk.event == s1.tk.event
    ensures Drain(cfg, s1).tk.tap == s1.tk.tap.(interrupted := s1.tk.tap.interrupted || s1.ring[0].event.pressed)
  {
    var h := s1.ring[0].event;
    assert LayerSwitchGetAction(cfg, s1.host, h.key) == LayerSwitchGetAction(cfg, s.host, h.key);
    if s.ring != [] {
      assert s1.ring[0] == s.ring[0];
      if Typed(s, h) {
        var i :| 0 <= i < |s.ring| && s.ring[i].event.key == h.key && s.ring[i].event.pressed != h.pressed;
        assert s1.ring[i] == s.ring[i];
      }
    }
    assert s1.ring[0 := s1.ring[0]] == s1.ring;
  }

  // --------------------------------------------------------------------- bursts of taps

  predicate RealAt(log: seq<Dispatched>, i: nat, r: Record) {
    i < |log| && log[i].rec == r && !log[i].synthetic
  }

  /** A tap: the press at `p`, and at `j` its release within the term, with the same tap data. */
  predicate TapAt(cfg: Config, log: seq<Dispatched>, p: nat, j: nat) {
    && p < j < |log| && !log[p].synthetic && !log[j].synthetic
    && var press, release := log[p].rec, log[j].rec;
      && press.event.pressed && !release.event.pressed && press.event.key == release.event.key
      && press.tap == release.tap && press.tap.count > 0
      && TimerDiff16(release.event.time, press.event.time) < cfg.term
  }

  predicate NoPress(log: seq<Dispatched>, from: nat, to: nat)
    requires to <= |log|
  {
    forall m :: from <= m < to ==> !log[m].rec.event.pressed
  }

  /** The press at `i` comes within the term after a tap of its key with one count less, with no other press between. */
  ghost predicate GoesOnAt(cfg: Config, log: seq<Dispatched>, i: nat, p: nat, j: nat) {
    && TapAt(cfg, log, p, j) && j < i < |log| && NoPress(log, j + 1, i)
    && var release, press := log[j].rec, log[i].rec;
      && release.event.key == press.event.key && !release.tap.interrupted && !press.tap.interrupted
      && press.tap.count == (if release.tap.count < 15 then release.tap.count + 1 else release.tap.count)
      && TimerDiff16(press.event.time, release.event.time) < cfg.term
  }

  ghost predicate FollowsTap(cfg: Config, log: seq<Dispatched>, i: nat) {
    exists p, j :: GoesOnAt(cfg, log, i, p, j)
  }

  /** Every press with a count greater than 1 goes on with a burst. */
  ghost predicate CountsAreBursts(cfg: Config, log: seq<Dispatched>) {
    forall i :: 0 <= i < |log| && !log[i].synthetic && log[i].rec.event.pressed && log[i].rec.tap.count > 1 ==>
      FollowsTap(cfg, log, i)
  }

  /** The tapping key is what the log says about it. */
  ghost predicate TapLogged(cfg: Config, tk: Record, log: seq<Dispatched>) {
    !NoEvent(tk.event) && tk.tap.count > 0 ==>
      if tk.event.pressed then exists p :: RealAt(log, p, tk)
      else !tk.tap.interrupted ==> exists p, j :: ReleaseLogged(cfg, tk, log, p, j)
  }

  ghost predicate ReleaseLogged(cfg: Config, tk: Record, log: seq<Dispatched>, p: nat, j: nat) {
    TapAt(cfg, log, p, j) && log[j].rec == tk && NoPress(log, j + 1, |log|)
  }

  ghost predicate Bursts(cfg: Config, s: Engine) {
    CountsAreBursts(cfg, s.log) && TapLogged(cfg, s.tk, s.log)
  }

  lemma BurstsGrow(cfg: Config, log: seq<Dispatched>, d: Dispatched)
    requires CountsAreBursts(cfg, log)
    requires !d.synthetic && d.rec.event.pressed && d.rec.tap.count > 1 ==> FollowsTap(cfg, log + [d], |log|)
    ensures CountsAreBursts(cfg, log + [d])
  {
    var all := log + [d];
    forall i | 0 <= i < |log| && !log[i].synthetic && log[i].rec.event.pressed && log[i].rec.tap.count > 1
      ensures FollowsTap(cfg, all, i)
    {
      var p, j :| GoesOnAt(cfg, log, i, p, j);
      assert GoesOnAt(cfg, all, i, p, j);
    }
  }

  /** Dispatching anything but a press with a count greater than 1. */
  lemma DispatchBursts(cfg: Config, s: Engine, r: Record, synthetic: bool)
    requires CountsAreBursts(cfg, s.log) && (r.event.pressed && !synthetic ==> r.tap.count <= 1)
    ensures CountsAreBursts(cfg, ProcessRecord(cfg, s, r, synthetic).log)
  {
    if !NoEvent(r.event) {
      BurstsGrow(cfg, s.log, Dispatched(r, synthetic, ResolvedAction(cfg, s.host, r.event)));
    }
  }

  /** While the tapping key stays down as a tap, its press stays in the log. */
  lemma TapStays(cfg: Config, s: Engine, s': Engine)
    requires Bursts(cfg, s) && Tapped(s) && s'.tk == s.tk && s.log <= s'.log && CountsAreBursts(cfg, s'.log)
    ensures Bursts(cfg, s')
  {
    var p :| RealAt(s.log, p, s.tk);
    assert RealAt(s'.log, p, s'.tk);
  }

  /** A released tap stays the last press, if only releases are dispatched. */
  lemma ReleaseStays(cfg: Config, s: Engine, r: Record)
    requires Bursts(cfg, s) && TapReleased(s) && !r.event.pressed
    ensures Bursts(cfg, ProcessRecord(cfg, s, r, false))
  {
    DispatchBursts(cfg, s, r, false);
    if !NoEvent(r.event) && s.tk.tap.count > 0 && !s.tk.tap.interrupted {
      var s' := ProcessRecord(cfg, s, r, false);
      var p, j :| ReleaseLogged(cfg, s.tk, s.log, p, j);
      assert ReleaseLogged(cfg, s'.tk, s'.log, p, j);
    }
  }

  lemma ScanBursts(cfg: Config, s: Engine)
    requires CountsAreBursts(cfg, s.log) && Pending(s)
    ensures Bursts(cfg, ScanTap(cfg, s))
  {
    var i := FindRelease(cfg, s, 0);
    if i < |s.ring| {
      var tk := s.tk.(tap := s.tk.tap.(count := 1));
      var marked := s.ring[i].(tap := s.ring[i].tap.(count := 1));
      DispatchBursts(cfg, s.(tk := tk, ring := s.ring[i := marked]), tk, false);
      assert RealAt(ScanTap(cfg, s).log, |s.log|, ScanTap(cfg, s).tk);
    }
  }

  lemma TapReleaseBursts(cfg: Config, s: Engine, keyp: Record)
    requires Bursts(cfg, s) && Tapped(s) && !NoEvent(keyp.event) && !keyp.event.pressed && keyp.event.key == s.tk.event.key
    ensures Bursts(cfg, TappedCase(cfg, s, keyp, Within(cfg, s, keyp.event)).s)
  {
    var r := keyp.(tap := s.tk.tap);
    var s1 := ProcessRecord(cfg, s, r, false);
    DispatchBursts(cfg, s, r, false);
    var p :| RealAt(s.log, p, s.tk);
    if Within(cfg, s, keyp.event) {
      assert ReleaseLogged(cfg, r, s1.log, p, |s.log|);
    }
  }

  lemma TappedBursts(cfg: Config, s: Engine, keyp: Record)
    requires Bursts(cfg, s) && Tapped(s) && Offered(keyp)
    ensures Bursts(cfg, TappedCase(cfg, s, keyp, Within(cfg, s, keyp.event)).s)
  {
    var e := keyp.event;
    if IsTappingKey(s, e.key) && !e.pressed {
      TapReleaseBursts(cfg, s, keyp);
    } else if IsTapRecord(cfg, s, keyp) && e.pressed {
      var release := SyntheticRelease(s, e.time);
      DispatchBursts(cfg, s, release, true);
      var s1 := if s.tk.tap.count > 1 then ProcessRecord(cfg, s, release, true) else s;
      ScanBursts(cfg, s1.(tk := keyp));
    } else {
      DispatchBursts(cfg, s, keyp, false);
      TapStays(cfg, s, ProcessRecord(cfg, s, keyp, false));
    }
  }

  lemma NextTapBursts(cfg: Config, s: Engine, keyp: Record)
    requires Bursts(cfg, s) && GoesOn(cfg, s, keyp.event) && keyp.event.pressed && !NoEvent(keyp.event)
    ensures Bursts(cfg, ReleasedWithin(cfg, s, keyp).s)
  {
    var tap := s.tk.tap;
    var r := keyp.(tap := if tap.count < 15 then tap.(count := tap.count + 1) else tap);
    var d := Dispatched(r, false, ResolvedAction(cfg, s.host, r.event));
    var p, j :| ReleaseLogged(cfg, s.tk, s.log, p, j);
    assert GoesOnAt(cfg, s.log + [d], |s.log|, p, j);
    BurstsGrow(cfg, s.log, d);
    assert RealAt(s.log + [d], |s.log|, r);
  }

  lemma ReleasedBursts(cfg: Config, s: Engine, keyp: Record)
    requires Bursts(cfg, s) && TapReleased(s) && Offered(keyp) && Within(cfg, s, keyp.event)
    ensures Bursts(cfg, ReleasedWithin(cfg, s, keyp).s)
  {
    if !keyp.event.pressed {
      ReleaseStays(cfg, s, keyp);
    } else if GoesOn(cfg, s, keyp.event) {
      NextTapBursts(cfg, s, keyp);
    } else if !IsTappingKey(s, keyp.event.key) && IsTapRecord(cfg, s, keyp) {
      ScanBursts(cfg, s.(tk := keyp));
    } else if !IsTappingKey(s, keyp.event.key) {
      DispatchBursts(cfg, s.(tk := s.tk.(tap := s.tk.tap.(interrupted := true))), keyp, false);
    }
  }

  lemma PendingBursts(cfg: Config, s: Engine, keyp: Record)
    requires Bursts(cfg, s) && Pending(s) && Offered(keyp)
    ensures Bursts(cfg, ProcessTapping(cfg, s, keyp).s)
  {
    var tk := s.tk.(tap := s.tk.tap.(count := 1));
    DispatchBursts(cfg, s.(tk := tk), tk, false);
    DispatchBursts(cfg, s, keyp, false);
    DispatchBursts(cfg, s, s.tk, false);
    if FirstTap(cfg, s, keyp.event) {
      assert RealAt(ProcessTapping(cfg, s, keyp).s.log, |s.log|, tk);
    }
  }

  lemma StepBursts(cfg: Config, s: Engine, keyp: Record)
    requires Bursts(cfg, s) && Offered(keyp)
    ensures Bursts(cfg, ProcessTapping(cfg, s, keyp).s)
  {
    if Pending(s) {
      PendingBursts(cfg, s, keyp);
    } else if Tapped(s) {
      TappedBursts(cfg, s, keyp);
    } else if TapReleased(s) {
      if Within(cfg, s, keyp.event) {
        ReleasedBursts(cfg, s, keyp);
      }
    } else if keyp.event.pressed && IsTapRecord(cfg, s, keyp) {
      ScanBursts(cfg, s.(tk := keyp));
    } else {
      DispatchBursts(cfg, s, keyp, false);
    }
  }

  lemma {:induction false} DrainBursts(cfg: Config, s: Engine)
    requires Bursts(cfg, s) && RingOk(s)
    ensures Bursts(cfg, Drain(cfg, s))
    decreases |s.ring|
  {
    if s.ring != [] {
      StepBursts(cfg, s, s.ring[0]);
      DrainStepConserves(cfg, s, s.ring[0].event.key);
      if DrainStep(cfg, s).done {
        DrainBursts(cfg, DrainStep(cfg, s).s);
      }
    }
  }

  lemma CallBursts(cfg: Config, s: Engine, e: Event)
    requires Bursts(cfg, s) && RingOk(s) && WellFormed(e)
    ensures Bursts(cfg, ActionExec(cfg, s, e))
  {
    var s0 := ClearWeak(s, e);
    assert Bursts(cfg, s0);
    StepBursts(cfg, s0, Record(e, NO_TAP));
    ArriveRingOk(cfg, s0, e);
    DrainBursts(cfg, Arrive(cfg, s0, Record(e, NO_TAP)));
  }

  /**
   The other half of the law of counts: in every run of well-formed events, a press is
   dispatched with a count n > 1 only within the term after a tap of the same key with
   count n - 1 (or 15), itself released within its term, and nothing else pressed since.
   */
  lemma {:induction false} RunCountsBursts(cfg: Config, es: seq<Event>)
    requires forall i :: 0 <= i < |es| ==> WellFormed(es[i])
    ensures Bursts(cfg, Run(cfg, es))
  {
    if es != [] {
      RunRingOk(cfg, es[..|es| - 1]);
      RunCountsBursts(cfg, es[..|es| - 1]);
      CallBursts(cfg, Run(cfg, es[..|es| - 1]), es[|es| - 1]);
    }
  }
}
