/**
 What every dispatch keeps, a whole call of action_exec keeps, whatever the engine decides:
 the induction that the theorems about host and log share.
 */
module TappingDispatches {
  import opened KeyEvents
  import opened Actions
  import opened TappingSpec

  /** Every record given to process_record keeps `P`, real or a synthetic release. */
  ghost predicate EachKeeps(cfg: Config, P: (Host, seq<Dispatched>) -> bool) {
    forall s: Engine, r: Record, synthetic: bool :: P(s.host, s.log) && (synthetic ==> !r.event.pressed) ==>
      P(ProcessRecord(cfg, s, r, synthetic).host, ProcessRecord(cfg, s, r, synthetic).log)
  }

  lemma ScanKeeps(cfg: Config, P: (Host, seq<Dispatched>) -> bool, s: Engine)
    requires EachKeeps(cfg, P) && P(s.host, s.log)
    ensures P(ScanTap(cfg, s).host, ScanTap(cfg, s).log)
  {
    var i := FindRelease(cfg, s, 0);
    if i < |s.ring| {
      var tk := s.tk.(tap := s.tk.tap.(count := 1));
      var marked := s.ring[i].(tap := s.ring[i].tap.(count := 1));
      var s1 := s.(tk := tk, ring := s.ring[i := marked]);
      assert P(ProcessRecord(cfg, s1, tk, false).host, ProcessRecord(cfg, s1, tk, false).log);
    }
  }

  lemma PendingKeeps(cfg: Config, P: (Host, seq<Dispatched>) -> bool, s: Engine, keyp: Record)
    requires EachKeeps(cfg, P) && P(s.host, s.log)
    ensures P(PendingWithin(cfg, s, keyp).s.host, PendingWithin(cfg, s, keyp).s.log)
  {
    var tk := s.tk.(tap := s.tk.tap.(count := 1));
    var s1 := s.(tk := tk);
    assert P(ProcessRecord(cfg, s1, tk, false).host, ProcessRecord(cfg, s1, tk, false).log);
    assert P(ProcessRecord(cfg, s, keyp, false).host, ProcessRecord(cfg, s, keyp, false).log);
  }

  lemma TappedKeeps(cfg: Config, P: (Host, seq<Dispatched>) -> bool, s: Engine, keyp: Record, within: bool)
    requires EachKeeps(cfg, P) && P(s.host, s.log)
    ensures P(TappedCase(cfg, s, keyp, within).s.host, TappedCase(cfg, s, keyp, within).s.log)
  {
    var e := keyp.event;
    if IsTappingKey(s, e.key) && !e.pressed {
      var r := keyp.(tap := s.tk.tap);
      assert P(ProcessRecord(cfg, s, r, false).host, ProcessRecord(cfg, s, r, false).log);
    } else if IsTapRecord(cfg, s, keyp) && e.pressed {
      var release := SyntheticRelease(s, e.time);
      var s1 := if s.tk.tap.count > 1 then ProcessRecord(cfg, s, release, true) else s;
      assert P(s1.host, s1.log);
      ScanKeeps(cfg, P, s1.(tk := keyp));
    } else {
      assert P(ProcessRecord(cfg, s, keyp, false).host, ProcessRecord(cfg, s, keyp, false).log);
    }
  }

  lemma ReleasedKeeps(cfg: Config, P: (Host, seq<Dispatched>) -> bool, s: Engine, keyp: Record)
    requires EachKeeps(cfg, P) && P(s.host, s.log)
    ensures P(ReleasedWithin(cfg, s, keyp).s.host, ReleasedWithin(cfg, s, keyp).s.log)
  {
    ScanKeeps(cfg, P, s.(tk := keyp));
    var tap := s.tk.tap;
    var r := keyp.(tap := if tap.count < 15 then tap.(count := tap.count + 1) else tap);
    var s1 := s.(tk := s.tk.(tap := s.tk.tap.(interrupted := true)));
    assert P(ProcessRecord(cfg, s, keyp, false).host, ProcessRecord(cfg, s, keyp, false).log);
    assert P(ProcessRecord(cfg, s, r, false).host, ProcessRecord(cfg, s, r, false).log);
    assert P(ProcessRecord(cfg, s1, keyp, false).host, ProcessRecord(cfg, s1, keyp, false).log);
  }

  lemma StepKeeps(cfg: Config, P: (Host, seq<Dispatched>) -> bool, s: Engine, keyp: Record)
    requires EachKeeps(cfg, P) && P(s.host, s.log)
    ensures P(ProcessTapping(cfg, s, keyp).s.host, ProcessTapping(cfg, s, keyp).s.log)
  {
    if Pending(s) {
      PendingKeeps(cfg, P, s, keyp);
      assert P(ProcessRecord(cfg, s, s.tk, false).host, ProcessRecord(cfg, s, s.tk, false).log);
    } else if Tapped(s) {
      TappedKeeps(cfg, P, s, keyp, Within(cfg, s, keyp.event));
    } else if TapReleased(s) {
      ReleasedKeeps(cfg, P, s, keyp);
    } else {
      ScanKeeps(cfg, P, s.(tk := keyp));
      assert P(ProcessRecord(cfg, s, keyp, false).host, ProcessRecord(cfg, s, keyp, false).log);
    }
  }

  lemma {:induction false} DrainKeeps(cfg: Config, P: (Host, seq<Dispatched>) -> bool, s: Engine)
    requires EachKeeps(cfg, P) && P(s.host, s.log)
    ensures P(Drain(cfg, s).host, Drain(cfg, s).log)
    decreases |s.ring|
  {
    if s.ring != [] {
      StepKeeps(cfg, P, s, s.ring[0]);
      if DrainStep(cfg, s).done {
        DrainKeeps(cfg, P, DrainStep(cfg, s).s);
      }
    }
  }

  /** A real event arrives that is not taken while seven records wait: the engine drops everything. */
  predicate Overflows(cfg: Config, s: Engine, e: Event) {
    !NoEvent(e) && |s.ring| >= 7 && !ProcessTapping(cfg, s, Record(e, NO_TAP)).done
  }

  /** A call without overflow keeps what every dispatch keeps, if clearing the weak modifiers does. */
  lemma CallKeeps(cfg: Config, P: (Host, seq<Dispatched>) -> bool, s: Engine, e: Event)
    requires EachKeeps(cfg, P) && P(ClearWeak(s, e).host, s.log) && !Overflows(cfg, s, e)
    ensures P(ActionExec(cfg, s, e).host, ActionExec(cfg, s, e).log)
  {
    var s0 := ClearWeak(s, e);
    StepKeeps(cfg, P, s0, Record(e, NO_TAP));
    DrainKeeps(cfg, P, Arrive(cfg, s0, Record(e, NO_TAP)));
  }

  /** A call that overflows keeps it up to the point where all codes and modifiers are turned off. */
  lemma OverflowKeeps(cfg: Config, P: (Host, seq<Dispatched>) -> bool, s: Engine, e: Event) returns (h: Host)
    requires EachKeeps(cfg, P) && P(ClearWeak(s, e).host, s.log) && Overflows(cfg, s, e)
    ensures var s' := ActionExec(cfg, s, e);
      P(h, s'.log) && s'.host == h.(keys := {}, mods := {}, weakMods := {})
  {
    var s0 := ClearWeak(s, e);
    StepKeeps(cfg, P, s0, Record(e, NO_TAP));
    h := ProcessTapping(cfg, s0, Record(e, NO_TAP)).s.host;
  }

  lemma {:induction false} DrainOverflowsNot(cfg: Config, s: Engine)
    ensures Drain(cfg, s).overflows == s.overflows
    decreases |s.ring|
  {
    if s.ring != [] {
      StepOverflowsNot(cfg, s, s.ring[0]);
      if DrainStep(cfg, s).done {
        DrainOverflowsNot(cfg, DrainStep(cfg, s).s);
      }
    }
  }

  lemma StepOverflowsNot(cfg: Config, s: Engine, keyp: Record)
    ensures ProcessTapping(cfg, s, keyp).s.overflows == s.overflows
  {
  }

  /**
   Overflow is exact: it happens in just that case, and then nothing is pending or waiting
   any more and no code or modifier is left on; the layers stay, and so does the log, as
   offering the event has left them.
   */
  lemma OverflowsExactly(cfg: Config, s: Engine, e: Event)
    ensures var s', offered := ActionExec(cfg, s, e), ProcessTapping(cfg, s, Record(e, NO_TAP)).s;
      && s'.overflows == s.overflows + (if Overflows(cfg, s, e) then 1 else 0)
      && (Overflows(cfg, s, e) ==>
            && s'.ring == [] && !IsTapping(s') && s'.log == offered.log
            && forall x :: Active(s'.host, x) <==> x.OnLayer? && Active(offered.host, x))
  {
    var s0, r := ClearWeak(s, e), Record(e, NO_TAP);
    StepOverflowsNot(cfg, s0, r);
    DrainOverflowsNot(cfg, Arrive(cfg, s0, r));
  }
}
