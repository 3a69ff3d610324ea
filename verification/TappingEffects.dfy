/**
 What is on at the host, exactly, at every moment of every run: which presses turned it on,
 and what may have turned it off since.
 */
module TappingEffects {
  import opened KeyEvents
  import opened Actions
  import opened TappingSpec
  import opened TappingDispatches

  // --------------------------------------------------------------- layers, codes, modifiers

  /** The logged press turned the effect on, or the logged release turned it off. */
  ghost predicate Does(d: Dispatched, pressed: bool, x: Effect) {
    d.rec.event.pressed == pressed && Effects(d.action, d.rec.tap.count > 0, x)
  }

  /** The logged record turned a layer on or off. */
  predicate ChangesLayer(d: Dispatched) {
    d.action.Momentary? || (d.action.LayerTap? && d.rec.tap.count == 0)
  }

  /** A release with the same effect turns it off; and every change of layers turns off the weak modifiers. */
  ghost predicate TurnsOff(d: Dispatched, x: Effect) {
    Does(d, false, x) || (x.OnWeak? && ChangesLayer(d))
  }

  /** The press at `i` turned the effect on, and nothing has turned it off since. */
  ghost predicate LeftOnBy(log: seq<Dispatched>, x: Effect, i: nat) {
    i < |log| && Does(log[i], true, x) && forall j :: i < j < |log| ==> !TurnsOff(log[j], x)
  }

  /** So did a press at `start` or later. */
  ghost predicate LeftOn(log: seq<Dispatched>, start: nat, x: Effect) {
    exists i :: start <= i && LeftOnBy(log, x, i)
  }

  lemma LeftOnByStep(before: seq<Dispatched>, d: Dispatched, x: Effect, i: nat)
    requires i < |before|
    ensures LeftOnBy(before + [d], x, i) <==> LeftOnBy(before, x, i) && !TurnsOff(d, x)
  {
    var log := before + [d];
    assert forall j :: 0 <= j < |before| ==> log[j] == before[j];
    assert log[|before|] == d;
  }

  lemma LeftOnStep(before: seq<Dispatched>, d: Dispatched, start: nat, x: Effect)
    requires start <= |before|
    ensures LeftOn(before + [d], start, x) <==> Does(d, true, x) || (LeftOn(before, start, x) && !TurnsOff(d, x))
  {
    var log := before + [d];
    assert LeftOnBy(log, x, |before|) <==> Does(d, true, x);
    forall i: nat | i < |before| ensures LeftOnBy(log, x, i) <==> LeftOnBy(before, x, i) && !TurnsOff(d, x) {
      LeftOnByStep(before, d, x, i);
    }
  }

  /** One action, exactly. */
  lemma EffectChanges(h: Host, d: Dispatched, x: Effect)
    ensures Active(ProcessAction(h, d.rec, d.action), x) <==> Does(d, true, x) || (Active(h, x) && !TurnsOff(d, x))
  {
  }

  /** What is on is what has been left on since the log's `start`. */
  ghost predicate OnSince(start: nat, x: Effect, h: Host, log: seq<Dispatched>) {
    start <= |log| && (Active(h, x) <==> LeftOn(log, start, x))
  }

  lemma DispatchOnSince(cfg: Config, start: nat, x: Effect, s: Engine, r: Record, synthetic: bool)
    requires OnSince(start, x, s.host, s.log)
    ensures var s' := ProcessRecord(cfg, s, r, synthetic); OnSince(start, x, s'.host, s'.log)
  {
    if !NoEvent(r.event) {
      var d := Dispatched(r, synthetic, ResolvedAction(cfg, s.host, r.event));
      EffectChanges(StoreSourceLayer(cfg, s.host, r.event), d, x);
      LeftOnStep(s.log, d, start, x);
    }
  }

  lemma EachKeepsOnSince(cfg: Config, start: nat, x: Effect)
    ensures EachKeeps(cfg, (h: Host, log: seq<Dispatched>) => OnSince(start, x, h, log))
  {
    forall s: Engine, r: Record, synthetic: bool | OnSince(start, x, s.host, s.log)
      ensures OnSince(start, x, ProcessRecord(cfg, s, r, synthetic).host, ProcessRecord(cfg, s, r, synthetic).log)
    {
      DispatchOnSince(cfg, start, x, s, r, synthetic);
    }
  }

  /** Where counting starts again after this call, if it started at `start` before. */
  function Restart(cfg: Config, s: Engine, e: Event, x: Effect, start: nat): nat {
    if Overflows(cfg, s, e) && !x.OnLayer? then |ActionExec(cfg, s, e).log|
    else if e.pressed && x.OnWeak? then |s.log|
    else start
  }

  lemma CallOnSince(cfg: Config, s: Engine, e: Event, x: Effect, start: nat)
    requires OnSince(start, x, s.host, s.log)
    ensures var s' := ActionExec(cfg, s, e); OnSince(Restart(cfg, s, e, x, start), x, s'.host, s'.log)
  {
    var from := if e.pressed && x.OnWeak? then |s.log| else start;
    var P := (h: Host, log: seq<Dispatched>) => OnSince(from, x, h, log);
    EachKeepsOnSince(cfg, from, x);
    assert P(ClearWeak(s, e).host, s.log);
    if Overflows(cfg, s, e) {
      var h := OverflowKeeps(cfg, P, s, e);
    } else {
      CallKeeps(cfg, P, s, e);
    }
  }

  /**
   From where on the log counts: an overflow turns all codes and modifiers off, and a press
   turns all weak modifiers off when it comes, before it or anything that waits is dispatched.
   */
  function Since(cfg: Config, es: seq<Event>, x: Effect): nat {
    if es == [] then 0
    else
      var p, e := es[..|es| - 1], es[|es| - 1];
      Restart(cfg, Run(cfg, p), e, x, Since(cfg, p, x))
  }

  /**
   At every moment of every run at all: a layer, code or modifier is on at the host if and
   only if a press dispatched since then turned it on and nothing has turned it off since:
   no release of an action with the same effect and, if it is a weak modifier, no change
   of layers.
   */
  lemma {:induction false} RunLeavesOn(cfg: Config, es: seq<Event>, x: Effect)
    ensures Active(Run(cfg, es).host, x) <==> LeftOn(Run(cfg, es).log, Since(cfg, es, x), x)
    ensures Since(cfg, es, x) <= |Run(cfg, es).log|
  {
    if es != [] {
      var p, e := es[..|es| - 1], es[|es| - 1];
      RunLeavesOn(cfg, p, x);
      CallOnSince(cfg, Run(cfg, p), e, x, Since(cfg, p, x));
    }
  }

  /** A press forgets the weak modifiers left by earlier keys: those on after its call were turned on during it. */
  lemma PressForgetsWeak(cfg: Config, s: Engine, e: Event, b: nat)
    requires e.pressed
    ensures var s' := ActionExec(cfg, s, e);
      Active(s'.host, OnWeak(b)) <==> !Overflows(cfg, s, e) && LeftOn(s'.log, |s.log|, OnWeak(b))
  {
    var x, P := OnWeak(b), (h: Host, log: seq<Dispatched>) => OnSince(|s.log|, OnWeak(b), h, log);
    EachKeepsOnSince(cfg, |s.log|, x);
    assert P(ClearWeak(s, e).host, s.log);
    OverflowsExactly(cfg, s, e);
    if !Overflows(cfg, s, e) {
      CallKeeps(cfg, P, s, e);
    }
  }

  // ----------------------------------------------------------------- resolution of keys

  /** `l` is the topmost layer on at the keymap, or by default, that is not transparent at `k`; 0 if none is. */
  ghost predicate IsTopmost(cfg: Config, log: seq<Dispatched>, k: KeyPos, l: Layer) {
    && (forall j: Layer :: l < j && IsOn(cfg, log, j) ==> cfg.keymap(j, k) == Key({}, 0x01))
    && (l != 0 ==> IsOn(cfg, log, l) && cfg.keymap(l, k) != Key({}, 0x01))
  }

  /** As the log tells: the layer is a default one, or has been left on. */
  ghost predicate IsOn(cfg: Config, log: seq<Dispatched>, j: Layer) {
    j in cfg.defaultLayers || LeftOn(log, 0, OnLayer(j))
  }

  /** The action of the key's last press, however long ago; that of layer 0 if it was never pressed. */
  function LastPress(cfg: Config, log: seq<Dispatched>, k: KeyPos): Action {
    if log == [] then cfg.keymap(0, k)
    else
      var d := log[|log| - 1];
      if d.rec.event.key == k && d.rec.event.pressed then d.action else LastPress(cfg, log[..|log| - 1], k)
  }

  /** A press does what its key stands for on the topmost layer, a release what the key's last press did. */
  ghost predicate ResolvesRight(cfg: Config, before: seq<Dispatched>, d: Dispatched) {
    var k := d.rec.event.key;
    if d.rec.event.pressed then exists l: Layer :: IsTopmost(cfg, before, k, l) && d.action == cfg.keymap(l, k)
    else d.action == LastPress(cfg, before, k)
  }

  ghost predicate AllResolveRight(cfg: Config, log: seq<Dispatched>) {
    log != [] ==> AllResolveRight(cfg, log[..|log| - 1]) && ResolvesRight(cfg, log[..|log| - 1], log[|log| - 1])
  }

  /** The layers and the cache of the host are what the log tells. */
  ghost predicate LayersTold(cfg: Config, h: Host, log: seq<Dispatched>) {
    && (forall j :: j in h.layers <==> LeftOn(log, 0, OnLayer(j)))
    && (forall k :: cfg.keymap(CachedLayer(h, k), k) == LastPress(cfg, log, k))
    && AllResolveRight(cfg, log)
  }

  lemma LayersOneMore(cfg: Config, h: Host, d: Dispatched, log: seq<Dispatched>)
    requires forall j :: j in h.layers <==> LeftOn(log, 0, OnLayer(j))
    ensures forall j :: j in ProcessAction(h, d.rec, d.action).layers <==> LeftOn(log + [d], 0, OnLayer(j))
  {
    var h' := ProcessAction(h, d.rec, d.action);
    forall j ensures j in h'.layers <==> LeftOn(log + [d], 0, OnLayer(j)) {
      EffectChanges(h, d, OnLayer(j));
      LeftOnStep(log, d, 0, OnLayer(j));
      assert Active(h', OnLayer(j)) <==> j in h'.layers;
      assert Active(h, OnLayer(j)) <==> j in h.layers;
    }
  }

  lemma TopmostFound(cfg: Config, h: Host, log: seq<Dispatched>, k: KeyPos)
    requires forall j :: j in h.layers <==> LeftOn(log, 0, OnLayer(j))
    ensures IsTopmost(cfg, log, k, LayerSwitchGetLayer(cfg, h, k))
  {
    TopLayerIsTop(cfg, h.layers + cfg.defaultLayers, k, MAX_LAYER);
  }

  lemma DispatchTold(cfg: Config, s: Engine, r: Record, synthetic: bool)
    requires LayersTold(cfg, s.host, s.log)
    ensures var s' := ProcessRecord(cfg, s, r, synthetic); LayersTold(cfg, s'.host, s'.log)
  {
    if !NoEvent(r.event) {
      var h := StoreSourceLayer(cfg, s.host, r.event);
      var d := Dispatched(r, synthetic, ResolvedAction(cfg, s.host, r.event));
      var log := s.log + [d];
      assert log[..|log| - 1] == s.log;
      LayersOneMore(cfg, h, d, s.log);
      TopmostFound(cfg, s.host, s.log, r.event.key);
      CacheStays(h, r, d.action);
      assert ResolvesRight(cfg, s.log, d);
    }
  }

  lemma CacheStays(h: Host, r: Record, a: Action)
    ensures ProcessAction(h, r, a).cache == h.cache
  {
  }

  lemma EachKeepsTold(cfg: Config)
    ensures EachKeeps(cfg, (h: Host, log: seq<Dispatched>) => LayersTold(cfg, h, log))
  {
    forall s: Engine, r: Record, synthetic: bool | LayersTold(cfg, s.host, s.log)
      ensures LayersTold(cfg, ProcessRecord(cfg, s, r, synthetic).host, ProcessRecord(cfg, s, r, synthetic).log)
    {
      DispatchTold(cfg, s, r, synthetic);
    }
  }

  lemma CallTold(cfg: Config, s: Engine, e: Event)
    requires LayersTold(cfg, s.host, s.log)
    ensures var s' := ActionExec(cfg, s, e); LayersTold(cfg, s'.host, s'.log)
  {
    var P := (h: Host, log: seq<Dispatched>) => LayersTold(cfg, h, log);
    EachKeepsTold(cfg);
    assert P(ClearWeak(s, e).host, s.log);
    if Overflows(cfg, s, e) {
      var h := OverflowKeeps(cfg, P, s, e);
      TellsNoCodes(cfg, h, ActionExec(cfg, s, e).host, ActionExec(cfg, s, e).log);
    } else {
      CallKeeps(cfg, P, s, e);
    }
  }

  lemma TellsNoCodes(cfg: Config, h: Host, h': Host, log: seq<Dispatched>)
    requires LayersTold(cfg, h, log) && h'.layers == h.layers && h'.cache == h.cache
    ensures LayersTold(cfg, h', log)
  {
  }

  /**
   In every run at all, each dispatched press does what its key stands for on the topmost
   layer that the presses and releases before it have left on, and each dispatched release
   does what the last press of its key did, however layers changed in between.
   */
  lemma {:induction false} RunResolvesRight(cfg: Config, es: seq<Event>)
    ensures LayersTold(cfg, Run(cfg, es).host, Run(cfg, es).log)
  {
    if es != [] {
      RunResolvesRight(cfg, es[..|es| - 1]);
      CallTold(cfg, Run(cfg, es[..|es| - 1]), es[|es| - 1]);
    }
  }
}
