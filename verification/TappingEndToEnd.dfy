/**
 From key events to host state: the layers and codes that are on always belong to
 keys that are down, so nothing stays on once all keys are up.
 */
module TappingEndToEnd {
  import opened KeyEvents
  import opened Actions
  import opened TappingSpec
  import opened TappingFifo
  import opened TappingAgreement
  import opened TappingTimes
  import opened TappingDrain
  import opened TappingDispatches

  /** The host state that the logged records produce by themselves. */
  function Replay(cfg: Config, log: seq<Dispatched>): Host {
    if log == [] then HOST_INIT
    else
      var d := log[|log| - 1];
      var h := Replay(cfg, log[..|log| - 1]);
      ProcessAction(StoreSourceLayer(cfg, h, d.rec.event), d.rec, d.action)
  }

  /** Every logged action is the one its record resolves to, and only releases are synthetic. */
  ghost predicate LogResolves(cfg: Config, log: seq<Dispatched>) {
    log != [] ==>
      var d := log[|log| - 1];
      && LogResolves(cfg, log[..|log| - 1])
      && d.action == ResolvedAction(cfg, Replay(cfg, log[..|log| - 1]), d.rec.event)
      && (d.synthetic ==> !d.rec.event.pressed)
  }

  ghost predicate SameButWeak(h: Host, r: Host) {
    && h.layers == r.layers && h.cache == r.cache && h.keys == r.keys && h.mods == r.mods
    && h.weakMods <= r.weakMods
  }

  /** The engine's host is the replayed one, except that presses may have cleared weak modifiers. */
  ghost predicate Tracks(cfg: Config, h: Host, log: seq<Dispatched>) {
    SameButWeak(h, Replay(cfg, log)) && LogResolves(cfg, log)
  }

  lemma ActionTracks(h: Host, r: Host, rec: Record, a: Action)
    requires SameButWeak(h, r)
    ensures SameButWeak(ProcessAction(h, rec, a), ProcessAction(r, rec, a))
  {
  }

  lemma ProcessRecordTracks(cfg: Config, s: Engine, r: Record, synthetic: bool)
    requires Tracks(cfg, s.host, s.log) && (synthetic ==> !r.event.pressed)
    ensures var s' := ProcessRecord(cfg, s, r, synthetic); Tracks(cfg, s'.host, s'.log)
  {
    if !NoEvent(r.event) {
      var a := ResolvedAction(cfg, s.host, r.event);
      var log := s.log + [Dispatched(r, synthetic, a)];
      assert log[..|log| - 1] == s.log;
      var h := Replay(cfg, s.log);
      assert LayerSwitchGetLayer(cfg, h, r.event.key) == LayerSwitchGetLayer(cfg, s.host, r.event.key);
      var h1, h2 := StoreSourceLayer(cfg, s.host, r.event), StoreSourceLayer(cfg, h, r.event);
      assert SameButWeak(h1, h2);
      ActionTracks(h1, h2, r, a);
    }
  }

  /** Without overflow, the host is the replay of the log, over whole runs. */
  lemma {:induction false} RunTracks(cfg: Config, es: seq<Event>)
    requires (forall i :: 0 <= i < |es| ==> WellFormed(es[i])) && Run(cfg, es).overflows == 0
    ensures Tracks(cfg, Run(cfg, es).host, Run(cfg, es).log)
  {
    if es != [] {
      var p, e := es[..|es| - 1], es[|es| - 1];
      RunRingOk(cfg, es);
      RunRingOk(cfg, p);
      RunTracks(cfg, p);
      ActionExecTracks(cfg, Run(cfg, p), e);
    }
  }

  lemma ActionExecTracks(cfg: Config, s: Engine, e: Event)
    requires Tracks(cfg, s.host, s.log) && ActionExec(cfg, s, e).overflows == s.overflows
    ensures var s' := ActionExec(cfg, s, e); Tracks(cfg, s'.host, s'.log)
  {
    var P := (h: Host, log: seq<Dispatched>) => Tracks(cfg, h, log);
    forall s: Engine, r: Record, synthetic: bool | P(s.host, s.log) && (synthetic ==> !r.event.pressed)
      ensures P(ProcessRecord(cfg, s, r, synthetic).host, ProcessRecord(cfg, s, r, synthetic).log)
    {
      ProcessRecordTracks(cfg, s, r, synthetic);
    }
    OverflowsExactly(cfg, s, e);
    CallKeeps(cfg, P, s, e);
  }

  // --------------------------------------------------------- what the log implies

  /** Effect `x` belongs to a key that is down. */
  ghost predicate HeldBy(log: seq<Dispatched>, x: Effect) {
    exists k :: Holds(k, log, x)
  }

  ghost predicate Holds(k: KeyPos, log: seq<Dispatched>, x: Effect) {
    var m := ModeOf(k, log);
    m.Down? && Effects(m.action, m.tapped, x)
  }

  /** The cache still resolves every key that is down to the action of its press. */
  ghost predicate CacheHolds(cfg: Config, h: Host, log: seq<Dispatched>) {
    forall k :: ModeOf(k, log).Down? ==> cfg.keymap(CachedLayer(h, k), k) == ModeOf(k, log).action
  }

  /** Every release is resolved to the action of the press it belongs to, however layers changed in between. */
  ghost predicate ReleasesResolveAsPressed(log: seq<Dispatched>) {
    log != [] ==>
      var d, before := log[|log| - 1], log[..|log| - 1];
      && ReleasesResolveAsPressed(before)
      && (!d.rec.event.pressed && ModeOf(d.rec.event.key, before).Down? ==>
            d.action == ModeOf(d.rec.event.key, before).action)
  }

  lemma AlternatesBefore(k: KeyPos, log: seq<Dispatched>)
    requires log != [] && Alternates(Dispatches(k, log))
    ensures Alternates(Dispatches(k, log[..|log| - 1]))
  {
    var ds, before := Dispatches(k, log), Dispatches(k, log[..|log| - 1]);
    forall i | 0 <= i < |before| ensures before[i].pressed <==> i % 2 == 0 {
      assert before[i] == ds[i];
    }
  }

  /** A dispatched press finds its key up. */
  lemma {:induction false} PressFindsUp(log: seq<Dispatched>)
    requires log != [] && (forall i :: 0 <= i < |log| ==> !NoEvent(log[i].rec.event))
    requires var d := log[|log| - 1]; d.rec.event.pressed && !d.synthetic && Alternates(Dispatches(d.rec.event.key, log))
    ensures ModeOf(log[|log| - 1].rec.event.key, log[..|log| - 1]).Up?
  {
    var d, before := log[|log| - 1], log[..|log| - 1];
    var k := d.rec.event.key;
    var ds := Dispatches(k, log);
    var earlier := Dispatches(k, before);
    assert ds == earlier + [d.rec.event];
    assert ds[|ds| - 1] == d.rec.event;
    if earlier != [] {
      assert ds[|ds| - 2] == earlier[|earlier| - 1];
    }
    if ModeOf(k, before).Down? {
      DownWasPressed(k, before);
    }
  }

  /**
   In a log whose events take turns and whose releases agree, every effect that is on
   belongs to a key that is down, and the cache holds that key's action.
   */
  lemma {:induction false} OnlyHeldEffects(cfg: Config, log: seq<Dispatched>)
    requires LogResolves(cfg, log) && TapAgrees(log)
    requires forall i :: 0 <= i < |log| ==> !NoEvent(log[i].rec.event)
    requires forall k :: Alternates(Dispatches(k, log))
    ensures forall x :: Active(Replay(cfg, log), x) ==> HeldBy(log, x)
    ensures CacheHolds(cfg, Replay(cfg, log), log)
    ensures ReleasesResolveAsPressed(log)
  {
    if log != [] {
      var d, before := log[|log| - 1], log[..|log| - 1];
      var k := d.rec.event.key;
      forall k' ensures Alternates(Dispatches(k', before)) {
        AlternatesBefore(k', log);
      }
      OnlyHeldEffects(cfg, before);
      forall x | Active(Replay(cfg, log), x) ensures HeldBy(log, x) {
        EffectStep(cfg, log, x);
      }
    }
  }

  lemma EffectStep(cfg: Config, log: seq<Dispatched>, x: Effect)
    requires log != [] && LogResolves(cfg, log) && TapAgrees(log)
    requires forall i :: 0 <= i < |log| ==> !NoEvent(log[i].rec.event)
    requires Alternates(Dispatches(log[|log| - 1].rec.event.key, log))
    requires CacheHolds(cfg, Replay(cfg, log[..|log| - 1]), log[..|log| - 1])
    requires Active(Replay(cfg, log[..|log| - 1]), x) ==> HeldBy(log[..|log| - 1], x)
    requires Active(Replay(cfg, log), x)
    ensures HeldBy(log, x)
  {
    var d, before := log[|log| - 1], log[..|log| - 1];
    var k := d.rec.event.key;
    var h := StoreSourceLayer(cfg, Replay(cfg, before), d.rec.event);
    if d.rec.event.pressed {
      PressFindsUp(log);
      PressEffects(h, d.rec, d.action, x);
      if Active(h, x) {
        var k' :| Holds(k', before, x);
        assert Holds(k', log, x);
      } else {
        assert Holds(k, log, x);
      }
    } else {
      ReleaseEffects(h, d.rec, d.action, x);
      var k' :| Holds(k', before, x);
      assert k' != k;
      assert Holds(k', log, x);
    }
  }

  // ------------------------------------------------------------------- theorems

  /** In a sound state, dispatched events take turns key by key. */
  lemma SoundDispatches(s: Engine, k: KeyPos)
    requires Sound(s)
    ensures Alternates(Dispatches(k, s.log))
  {
    if k == TICK_KEY {
      NoTickDispatched(s.log);
    } else {
      assert SoundKey(k, s);
      var ds, a := Dispatches(k, s.log), Accounted(k, s);
      forall i | 0 <= i < |ds| ensures ds[i].pressed <==> i % 2 == 0 {
        assert ds[i] == a[i];
      }
    }
  }

  lemma {:induction false} NoTickDispatched(log: seq<Dispatched>)
    ensures Dispatches(TICK_KEY, log) == []
  {
    if log != [] {
      NoTickDispatched(log[..|log| - 1]);
    }
  }

  /**
   At every moment of a lawful, orderly run without overflow, whatever is on at the
   host is held by a key that is down, and every release undid its own press's action.
   */
  lemma RunHoldsOnlyPressed(cfg: Config, es: seq<Event>)
    requires Lawful(es) && AllOrderly(cfg, es) && Run(cfg, es).overflows == 0
    ensures var s := Run(cfg, es);
      && (forall x :: Active(s.host, x) ==> HeldBy(s.log, x))
      && ReleasesResolveAsPressed(s.log)
  {
    var s := Run(cfg, es);
    RunAgrees(cfg, es);
    RunTracks(cfg, es);
    forall k ensures Alternates(Dispatches(k, s.log)) {
      SoundDispatches(s, k);
    }
    OnlyHeldEffects(cfg, s.log);
    forall x | Active(s.host, x) ensures HeldBy(s.log, x) {
      assert Active(Replay(cfg, s.log), x);
    }
  }

  /** All keys are up again: every press submitted was followed by its release. */
  ghost predicate AllReleased(es: seq<Event>) {
    forall k :: |Inputs(k, es)| % 2 == 0
  }

  /**
   Nothing sticks: once all keys are up and nothing is pending or waiting, no layer
   and no code or modifier is left on, whatever the keymap and however layers changed.
   */
  lemma NothingSticks(cfg: Config, es: seq<Event>)
    requires Lawful(es) && AllOrderly(cfg, es) && Run(cfg, es).overflows == 0
    requires AllReleased(es) && Idle(Run(cfg, es))
    ensures Quiet(Run(cfg, es).host)
  {
    var s := Run(cfg, es);
    RunHoldsOnlyPressed(cfg, es);
    forall k ensures ModeOf(k, s.log).Up? {
      ReleasedIsUp(cfg, es, k);
    }
    NothingHeldIsQuiet(s);
  }

  /** No layer, code or modifier is on. */
  predicate Quiet(h: Host) {
    h.layers == {} && h.keys == {} && h.mods == {} && h.weakMods == {}
  }

  lemma ReleasedIsUp(cfg: Config, es: seq<Event>, k: KeyPos)
    requires Lawful(es) && AllOrderly(cfg, es) && Run(cfg, es).overflows == 0
    requires AllReleased(es) && Idle(Run(cfg, es))
    ensures ModeOf(k, Run(cfg, es).log).Up?
  {
    var s := Run(cfg, es);
    RunAgrees(cfg, es);
    assert Accounted(k, s) == Inputs(k, es);
    assert |Inputs(k, es)| % 2 == 0;
    EvenIsUp(s, k);
  }

  lemma EvenIsUp(s: Engine, k: KeyPos)
    requires Sound(s) && |Dispatches(k, s.log)| % 2 == 0
    ensures ModeOf(k, s.log).Up?
  {
    SoundDispatches(s, k);
    if ModeOf(k, s.log).Down? {
      DownWasPressed(k, s.log);
    }
  }

  lemma NothingHeldIsQuiet(s: Engine)
    requires forall x :: Active(s.host, x) ==> HeldBy(s.log, x)
    requires forall k :: ModeOf(k, s.log).Up?
    ensures Quiet(s.host)
  {
    forall x ensures !Active(s.host, x) {
      assert forall k :: !Holds(k, s.log, x);
    }
    assert forall l :: l in s.host.layers ==> Active(s.host, OnLayer(l));
    assert forall c :: c in s.host.keys ==> Active(s.host, OnKey(c));
    assert forall b :: b in s.host.mods ==> Active(s.host, OnMod(b));
    assert forall b :: b in s.host.weakMods ==> Active(s.host, OnWeak(b));
  }

  /** Ticks at the end of a run change no key's inputs. */
  lemma AppendTicks(cfg: Config, es: seq<Event>, ticks: seq<Event>)
    requires Lawful(es) && OnlyTicks(ticks)
    ensures Lawful(es + ticks) && Run(cfg, es + ticks) == Feed(cfg, Run(cfg, es), ticks)
    ensures forall k :: Inputs(k, es + ticks) == Inputs(k, es)
  {
    FeedConcat(cfg, INITIAL, es, ticks);
    forall k ensures Inputs(k, es + ticks) == Inputs(k, es) && Alternates(Inputs(k, es + ticks)) {
      TicksAreNoInputs(k, es, ticks);
      assert Alternates(Inputs(k, es));
    }
  }

  lemma {:induction false} TicksAreNoInputs(k: KeyPos, es: seq<Event>, ticks: seq<Event>)
    requires OnlyTicks(ticks)
    ensures Inputs(k, es + ticks) == Inputs(k, es)
  {
    if ticks == [] {
      assert es + ticks == es;
    } else {
      var n := |ticks| - 1;
      assert (es + ticks)[..|es + ticks| - 1] == es + ticks[..n];
      TicksAreNoInputs(k, es, ticks[..n]);
    }
  }

  /** Everything that was submitted has been dispatched in order, agrees, and left nothing on. */
  ghost predicate Silent(s: Engine, es: seq<Event>) {
    && Idle(s) && Quiet(s.host) && TapAgrees(s.log) && ReleasesResolveAsPressed(s.log)
    && forall k :: Dispatches(k, s.log) == Inputs(k, es)
  }

  /** Released keys fall silent as soon as ticks have left the engine idle. */
  lemma IdleIsSilent(cfg: Config, es: seq<Event>, ticks: seq<Event>)
    requires Lawful(es) && AllOrderly(cfg, es + ticks) && Run(cfg, es).overflows == 0 && AllReleased(es)
    requires OnlyTicks(ticks) && Idle(Feed(cfg, Run(cfg, es), ticks))
    ensures Silent(Run(cfg, es + ticks), es)
  {
    OrderlyPrefix(cfg, es, ticks);
    OrderlyIsAdmissible(cfg, es);
    IdleIsDelivered(cfg, es, ticks);
    AppendTicks(cfg, es, ticks);
    RunKeepsOrder(cfg, es);
    TicksConserve(cfg, Run(cfg, es), ticks, TICK_KEY);
    assert AllReleased(es + ticks) by {
      forall k ensures |Inputs(k, es + ticks)| % 2 == 0 {
        assert Inputs(k, es + ticks) == Inputs(k, es);
      }
    }
    RunAgrees(cfg, es + ticks);
    RunHoldsOnlyPressed(cfg, es + ticks);
    NothingSticks(cfg, es + ticks);
  }

  /**
   The whole promise: release every key, and once the ticks that follow hold 23 due ones,
   everything submitted has been dispatched, in order, and nothing is left on.
   */
  lemma ReleasedKeysFallSilent(cfg: Config, es: seq<Event>, ticks: seq<Event>)
    requires Lawful(es) && AllOrderly(cfg, es + ticks) && Run(cfg, es).overflows == 0 && AllReleased(es)
    requires OnlyTicks(ticks) && DueCount(cfg, Run(cfg, es), ticks) >= MAX_WORK
    ensures Silent(Run(cfg, es + ticks), es)
  {
    WorkBounded(cfg, es);
    TicksDrain(cfg, Run(cfg, es), ticks);
    IdleIsSilent(cfg, es, ticks);
  }

  /** A run of timely events stays orderly when ticks follow, at whatever times. */
  lemma TicksStayOrderly(cfg: Config, es: seq<Event>, ticks: seq<Event>)
    requires Lawful(es) && AllTimely(cfg, es) && Run(cfg, es).overflows == 0 && OnlyTicks(ticks)
    ensures AllOrderly(cfg, es + ticks)
  {
    AppendTicks(cfg, es, ticks);
    RunRingOk(cfg, es);
    TicksConserve(cfg, Run(cfg, es), ticks, TICK_KEY);
    TicksStayTimely(cfg, es, ticks);
    TimelyRunIsOrderly(cfg, es + ticks);
  }

  /** The same promise by the clock: if every event of the run was timely, nothing is asked of the ticks. */
  lemma TimelyKeysFallSilent(cfg: Config, es: seq<Event>, ticks: seq<Event>)
    requires Lawful(es) && AllTimely(cfg, es) && Run(cfg, es).overflows == 0 && AllReleased(es)
    requires OnlyTicks(ticks) && DueCount(cfg, Run(cfg, es), ticks) >= MAX_WORK
    ensures Silent(Run(cfg, es + ticks), es)
  {
    TicksStayOrderly(cfg, es, ticks);
    ReleasedKeysFallSilent(cfg, es, ticks);
  }

  lemma {:induction false} OrderlyPrefix(cfg: Config, es: seq<Event>, more: seq<Event>)
    requires AllOrderly(cfg, es + more)
    ensures AllOrderly(cfg, es)
  {
    if more == [] {
      assert es + more == es;
    } else {
      assert (es + more)[..|es + more| - 1] == es + more[..|more| - 1];
      OrderlyPrefix(cfg, es, more[..|more| - 1]);
    }
  }

  lemma {:induction false} OrderlyIsAdmissible(cfg: Config, es: seq<Event>)
    requires AllOrderly(cfg, es)
    ensures AllAdmissible(cfg, es)
  {
    if es != [] {
      OrderlyIsAdmissible(cfg, es[..|es| - 1]);
    }
  }
}
