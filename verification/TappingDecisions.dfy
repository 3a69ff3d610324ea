/** What the engine decides: tap or hold for a pending press, and the counts of a burst of taps. */
module TappingDecisions {
  import opened KeyEvents
  import opened Actions
  import opened TappingSpec
  import opened TappingAgreement

  lemma {:induction false} DrainExtends(cfg: Config, s: Engine)
    ensures s.log <= Drain(cfg, s).log
    decreases |s.ring|
  {
    if s.ring != [] {
      ProcessTappingLogs(cfg, s, s.ring[0]);
      if DrainStep(cfg, s).done {
        DrainExtends(cfg, DrainStep(cfg, s).s);
      }
    }
  }

  /** The log goes on with record `r`. */
  ghost predicate NextDispatched(s: Engine, s': Engine, r: Record) {
    |s.log| < |s'.log| && s.log <= s'.log && s'.log[|s.log|].rec == r && !s'.log[|s.log|].synthetic
  }

  // ------------------------------------------------------- the fate of a pending press

  /** The release of a key pressed before the pending one, which is not made to wait. */
  predicate LetGo(cfg: Config, s: Engine, e: Event) {
    && !NoEvent(e) && !e.pressed && !Typed(s, e)
    && !RetainedModifier(LayerSwitchGetAction(cfg, s.host, e.key))
  }

  /** The ring's oldest entry can neither settle the pending press nor leave the ring. */
  predicate Resting(cfg: Config, s: Engine) {
    s.ring == [] ||
    (Within(cfg, s, s.ring[0].event) && !FirstTap(cfg, s, s.ring[0].event) && !LetGo(cfg, s, s.ring[0].event))
  }

  /** The drain loop settles nothing: each entry it reaches is let go, until none is left or one has to wait. */
  predicate Steady(cfg: Config, s: Engine)
    decreases |s.ring|
  {
    s.ring == [] ||
    (var h := s.ring[0].event;
     && Within(cfg, s, h) && !FirstTap(cfg, s, h)
     && (LetGo(cfg, s, h) ==> DrainStep(cfg, s).done && Steady(cfg, DrainStep(cfg, s).s)))
  }

  /** The press is still pending, and nothing but releases has been dispatched meanwhile. */
  ghost predicate Undecided(s: Engine, s': Engine) {
    && Pending(s') && s'.tk.event == s.tk.event && s.log <= s'.log
    && forall i :: |s.log| <= i < |s'.log| ==> !s'.log[i].rec.event.pressed
  }

  /** The pending press has been dispatched, as a tap or as a hold. */
  ghost predicate Decided(s: Engine, s': Engine) {
    s.log <= s'.log && exists i :: |s.log| <= i < |s'.log| && s'.log[i].rec.event == s.tk.event
  }

  lemma DecidedEither(s: Engine, s': Engine)
    requires Pending(s)
    ensures !(Undecided(s, s') && Decided(s, s'))
  {
  }

  /** What the drain loop does to a pending press, exactly. */
  lemma {:induction false} DrainVerdict(cfg: Config, s: Engine)
    requires Pending(s)
    ensures Undecided(s, Drain(cfg, s)) <==> Steady(cfg, s)
    ensures Decided(s, Drain(cfg, s)) <==> !Steady(cfg, s)
    decreases |s.ring|
  {
    DecidedEither(s, Drain(cfg, s));
    if s.ring != [] {
      var h := s.ring[0].event;
      var m := DrainStep(cfg, s).s;
      if !Within(cfg, s, h) || FirstTap(cfg, s, h) {
        assert NextDispatched(s, m, s.tk) || NextDispatched(s, m, s.tk.(tap := s.tk.tap.(count := 1)));
      } else if LetGo(cfg, s, h) {
        DrainVerdict(cfg, m);
        DrainExtends(cfg, m);
      }
    }
  }

  /** After a call, a press that is pending rests. */
  lemma {:induction false} DrainRests(cfg: Config, s: Engine)
    ensures Pending(Drain(cfg, s)) ==> Resting(cfg, Drain(cfg, s))
    decreases |s.ring|
  {
    if s.ring != [] {
      var o := DrainStep(cfg, s);
      if o.done {
        DrainRests(cfg, o.s);
      } else {
        RefusedRests(cfg, s);
      }
    }
  }

  lemma RefusedRests(cfg: Config, s: Engine)
    requires s.ring != [] && !DrainStep(cfg, s).done
    ensures Pending(DrainStep(cfg, s).s) ==> Resting(cfg, DrainStep(cfg, s).s)
  {
    var h, s' := s.ring[0], DrainStep(cfg, s).s;
    if Pending(s') {
      assert s'.ring == s.ring;
    }
  }

  /**
   The verdict on a pending press, for a whole call that does not overflow the ring. Its
   own release within the term makes it a tap at once; the first event or tick at or
   after the term makes it a hold; any other event leaves it pending exactly if the
   drain loop behind it is steady, and else settles it.
   */
  lemma PendingVerdict(cfg: Config, s: Engine, e: Event)
    requires Pending(s) && WellFormed(e)
    requires var s1 := Arrive(cfg, ClearWeak(s, e), Record(e, NO_TAP)); s1.overflows == s.overflows
    ensures var s' := ActionExec(cfg, s, e);
      && (FirstTap(cfg, s, e) ==> NextDispatched(s, s', s.tk.(tap := s.tk.tap.(count := 1))))
      && (!Within(cfg, s, e) ==> NextDispatched(s, s', s.tk))
    ensures var s1, s' := Arrive(cfg, ClearWeak(s, e), Record(e, NO_TAP)), ActionExec(cfg, s, e);
      Within(cfg, s, e) && !FirstTap(cfg, s, e) ==>
        && (Undecided(s, s') <==> Steady(cfg, s1))
        && (Decided(s, s') <==> !Steady(cfg, s1))
  {
    var s1 := Arrive(cfg, ClearWeak(s, e), Record(e, NO_TAP));
    DrainExtends(cfg, s1);
    DecidedEither(s, ActionExec(cfg, s, e));
    if Within(cfg, s, e) && !FirstTap(cfg, s, e) {
      ArrivalUndecided(cfg, s, e);
      DrainVerdict(cfg, s1);
    }
  }

  /** Before the drain loop, such an event leaves the press pending and dispatches no other. */
  lemma ArrivalUndecided(cfg: Config, s: Engine, e: Event)
    requires Pending(s) && WellFormed(e) && Within(cfg, s, e) && !FirstTap(cfg, s, e)
    requires Arrive(cfg, ClearWeak(s, e), Record(e, NO_TAP)).overflows == s.overflows
    ensures var s1 := Arrive(cfg, ClearWeak(s, e), Record(e, NO_TAP));
      && Undecided(s, s1)
      && (!LetGo(cfg, s, e) ==>
            s1.ring == (if NoEvent(e) then s.ring else s.ring + [Record(e, NO_TAP)]) && s1.host.layers == s.host.layers)
      && (LetGo(cfg, s, e) ==> s1.ring == s.ring)
  {
  }

  /**
   In every state that a run reaches, a pending press rests. Then only one kind of event
   can settle it besides those two: a release that is let go, and so may change the
   layers, while others wait.
   */
  lemma RestingVerdict(cfg: Config, s: Engine, e: Event)
    requires Pending(s) && WellFormed(e) && Resting(cfg, s)
    requires Arrive(cfg, ClearWeak(s, e), Record(e, NO_TAP)).overflows == s.overflows
    requires Within(cfg, s, e) && !FirstTap(cfg, s, e) && (LetGo(cfg, s, e) ==> s.ring == [])
    ensures Undecided(s, ActionExec(cfg, s, e))
  {
    var s1 := Arrive(cfg, ClearWeak(s, e), Record(e, NO_TAP));
    ArrivalUndecided(cfg, s, e);
    if s1.ring != [] {
      var h := s1.ring[0].event;
      assert LayerSwitchGetAction(cfg, s1.host, h.key) == LayerSwitchGetAction(cfg, s.host, h.key);
      if s.ring != [] {
        assert s1.ring[0] == s.ring[0];
        if Typed(s, h) {
          var i :| 0 <= i < |s.ring| && s.ring[i].event.key == h.key && s.ring[i].event.pressed != h.pressed;
          assert s1.ring[i] == s.ring[i];
        }
      }
    }
    PendingVerdict(cfg, s, e);
  }

  lemma RunRests(cfg: Config, es: seq<Event>)
    ensures Pending(Run(cfg, es)) ==> Resting(cfg, Run(cfg, es))
  {
    if es != [] {
      var s, e := Run(cfg, es[..|es| - 1]), es[|es| - 1];
      DrainRests(cfg, Arrive(cfg, ClearWeak(s, e), Record(e, NO_TAP)));
    }
  }

  // ---------------------------------------------------------------- quick taps

  /** The key's events of a run, and ticks, each within the term of the key event before it. */
  ghost predicate QuickBurst(cfg: Config, k: KeyPos, es: seq<Event>) {
    es != [] ==>
      var p, e := es[..|es| - 1], es[|es| - 1];
      var keys := Inputs(k, p);
      && QuickBurst(cfg, k, p) && WellFormed(e) && (IsTick(e) || (e.key == k && !NoEvent(e)))
      && (keys != [] ==> TimerDiff16(e.time, keys[|keys| - 1].time) < cfg.term)
  }

  function TapCount(n: nat): nat { if n < 15 then n else 15 }

  /** How many of `n` key events have been dispatched: only the very first press waits. */
  function Played(n: nat): nat { if n == 1 then 0 else n }

  /** What the events `keys` of one key make of an engine that was free in state `s`. */
  ghost predicate AfterBurst(s: Engine, s': Engine, keys: seq<Event>) {
    var n := |keys|;
    && s'.ring == []
    && (n == 0 ==> s' == s)
    && (n > 0 ==> s'.tk == Record(keys[n - 1], Tap(false, if n == 1 then 0 else TapCount((n + 1) / 2))))
    && |s'.log| == |s.log| + Played(n) && s.log <= s'.log
    && forall i :: 0 <= i < Played(n) ==> s'.log[|s.log| + i].rec == Record(keys[i], Tap(false, TapCount(i / 2 + 1)))
  }

  /** A tick within the term, or in a free engine, does nothing at all if nothing waits. */
  lemma IdleTick(cfg: Config, s: Engine, tick: Event)
    requires IsTick(tick) && s.ring == [] && (IsTapping(s) ==> Within(cfg, s, tick))
    ensures ActionExec(cfg, s, tick) == s
  {
  }

  lemma FirstPress(cfg: Config, s: Engine, e: Event)
    requires !IsTapping(s) && s.ring == [] && IsTapAction(LayerSwitchGetAction(cfg, s.host, e.key))
    requires e.pressed && !NoEvent(e)
    ensures AfterBurst(s, ActionExec(cfg, s, e), [e])
  {
    var s0 := ClearWeak(s, e);
    assert LayerSwitchGetAction(cfg, s0.host, e.key) == LayerSwitchGetAction(cfg, s.host, e.key);
    assert ScanTap(cfg, s0.(tk := Record(e, NO_TAP))) == s0.(tk := Record(e, NO_TAP));
  }

  lemma FirstRelease(cfg: Config, s: Engine, e: Event)
    requires s.ring == [] && Pending(s) && s.tk.tap == NO_TAP && s.tk.event.key == e.key
    requires !e.pressed && !NoEvent(e) && Within(cfg, s, e)
    ensures var s' := ActionExec(cfg, s, e);
      && s'.ring == [] && s'.tk == Record(e, Tap(false, 1)) && |s'.log| == |s.log| + 2 && s.log <= s'.log
      && s'.log[|s.log|].rec == Record(s.tk.event, Tap(false, 1)) && s'.log[|s.log| + 1].rec == Record(e, Tap(false, 1))
  {
    var s2 := Arrive(cfg, s, Record(e, NO_TAP));
    assert s2.tk == Record(s.tk.event, Tap(false, 1)) && s2.ring == [Record(e, Tap(false, 1))];
    var s3 := DrainStep(cfg, s2).s;
    assert s3.ring == [];
    assert Drain(cfg, s2) == s3;
  }

  /** From the second press on, each event is dispatched at once: presses with the next count, releases with the press's. */
  lemma NextOfBurst(cfg: Config, s: Engine, e: Event)
    requires s.ring == [] && IsTapping(s) && s.tk.tap.count > 0 && !s.tk.tap.interrupted && s.tk.event.key == e.key
    requires !NoEvent(e) && Within(cfg, s, e) && e.pressed != s.tk.event.pressed
    ensures var s', c := ActionExec(cfg, s, e), s.tk.tap.count;
      && s'.ring == [] && s'.tk == Record(e, Tap(false, if e.pressed && c < 15 then c + 1 else c))
      && |s'.log| == |s.log| + 1 && s.log <= s'.log && s'.log[|s.log|].rec == s'.tk
  {
  }

  /**
   A burst of quick taps of any length, with any number of ticks in between: the n-th
   press and its release are dispatched with tap count min(n, 15), the first press as
   soon as its release arrives and everything else at once.
   */
  lemma {:induction false} BurstCounts(cfg: Config, s: Engine, k: KeyPos, es: seq<Event>)
    requires !IsTapping(s) && s.ring == [] && IsTapAction(LayerSwitchGetAction(cfg, s.host, k))
    requires QuickBurst(cfg, k, es) && Alternates(Inputs(k, es))
    ensures AfterBurst(s, Feed(cfg, s, es), Inputs(k, es))
  {
    if es != [] {
      var p, e := es[..|es| - 1], es[|es| - 1];
      var m, keys := Feed(cfg, s, p), Inputs(k, p);
      assert Alternates(keys) by {
        assert forall i :: 0 <= i < |keys| ==> Inputs(k, es)[i] == keys[i];
      }
      BurstCounts(cfg, s, k, p);
      InputsAreOf(k, p);
      if NoEvent(e) {
        IdleTick(cfg, m, e);
      } else {
        assert Inputs(k, es) == keys + [e];
        BurstStep(cfg, s, m, keys, e);
      }
    }
  }

  lemma {:induction false} InputsAreOf(k: KeyPos, es: seq<Event>)
    ensures forall i :: 0 <= i < |Inputs(k, es)| ==> Inputs(k, es)[i].key == k && !NoEvent(Inputs(k, es)[i])
  {
    if es != [] {
      InputsAreOf(k, es[..|es| - 1]);
    }
  }

  lemma BurstStep(cfg: Config, s: Engine, m: Engine, keys: seq<Event>, e: Event)
    requires !IsTapping(s) && s.ring == [] && IsTapAction(LayerSwitchGetAction(cfg, s.host, e.key))
    requires AfterBurst(s, m, keys) && Alternates(keys + [e]) && !NoEvent(e)
    requires forall i :: 0 <= i < |keys| ==> keys[i].key == e.key && !NoEvent(keys[i])
    requires keys != [] ==> TimerDiff16(e.time, keys[|keys| - 1].time) < cfg.term
    ensures AfterBurst(s, ActionExec(cfg, m, e), keys + [e])
  {
    var all, n := keys + [e], |keys|;
    assert all[n] == e && (n > 0 ==> all[n - 1] == keys[n - 1]);
    if n == 0 {
      FirstPress(cfg, s, e);
    } else if n == 1 {
      FirstRelease(cfg, m, e);
    } else {
      NextOfBurst(cfg, m, e);
    }
    BurstLogged(s, m, ActionExec(cfg, m, e), keys, e);
  }

  lemma BurstLogged(s: Engine, m: Engine, s': Engine, keys: seq<Event>, e: Event)
    requires AfterBurst(s, m, keys) && m.log <= s'.log && |s'.log| == |s.log| + Played(|keys| + 1)
    requires |keys| == 1 ==> s'.log[|s.log|].rec == Record(keys[0], Tap(false, 1))
    requires |keys| > 0 ==> s'.log[|s.log| + |keys|].rec == Record(e, Tap(false, TapCount(|keys| / 2 + 1)))
    ensures s.log <= s'.log
    ensures forall i :: 0 <= i < Played(|keys| + 1) ==>
      s'.log[|s.log| + i].rec == Record((keys + [e])[i], Tap(false, TapCount(i / 2 + 1)))
  {
    forall i | 0 <= i < Played(|keys| + 1)
      ensures s'.log[|s.log| + i].rec == Record((keys + [e])[i], Tap(false, TapCount(i / 2 + 1)))
    {
      if i < Played(|keys|) { assert s'.log[|s.log| + i] == m.log[|s.log| + i]; }
    }
  }
}
