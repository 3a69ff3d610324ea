/**
 Layers, the source-layer cache and the actions of plain, layer-tap and
 momentary-layer keys (quantum/action_layer.c, quantum/action.c).

 Bit masks are modelled by the set of the positions of their 1 bits: `layers`
 is layer_state, `mods` and `weakMods` the real and weak modifier bytes, `keys`
 the NKRO key bitmap of the report.
 */
module Actions {
  import opened Words
  import opened KeyEvents

  const MAX_LAYER: nat := 32
  const KC_NO: Byte := 0x00
  const KC_TRANSPARENT: Byte := 0x01
  const KC_A: Byte := 0x04
  const KC_EXSEL: Byte := 0xA4
  const KC_LEFT_CTRL: Byte := 0xE0
  const KC_RIGHT_GUI: Byte := 0xE7

  type Layer = l: nat | l < MAX_LAYER
  type TapCode = c: Byte | c <= KC_RIGHT_GUI

  /** `Key` is ACT_LMODS/ACT_RMODS with its modifiers already shifted to their side. */
  datatype Action =
    | Key(mods: set<nat>, code: Byte)
    | LayerTap(layer: Layer, tapCode: TapCode)
    | Momentary(held: Layer)

  const TRANSPARENT := Key({}, KC_TRANSPARENT)

  datatype Config = Config(term: nat, keymap: (Layer, KeyPos) -> Action, defaultLayers: set<nat>)

  datatype Host = Host(
    layers: set<nat>,
    cache: map<KeyPos, Layer>,
    keys: set<Byte>,
    mods: set<nat>,
    weakMods: set<nat>)

  const HOST_INIT := Host({}, map[], {}, {}, {})

  predicate IsKey(code: Byte) { KC_A <= code <= KC_EXSEL }

  predicate IsMod(code: Byte) { KC_LEFT_CTRL <= code <= KC_RIGHT_GUI }

  predicate IsTapAction(a: Action) { a.LayerTap? }

  /** The highest active layer below `n` that is not transparent at `key`, or 0. */
  function TopLayer(cfg: Config, active: set<nat>, key: KeyPos, n: nat): Layer
    requires n <= MAX_LAYER
  {
    if n == 0 then 0
    else if n - 1 in active && cfg.keymap(n - 1, key) != TRANSPARENT then n - 1
    else TopLayer(cfg, active, key, n - 1)
  }

  function LayerSwitchGetLayer(cfg: Config, h: Host, key: KeyPos): Layer {
    TopLayer(cfg, h.layers + cfg.defaultLayers, key, MAX_LAYER)
  }

  function LayerSwitchGetAction(cfg: Config, h: Host, key: KeyPos): Action {
    cfg.keymap(LayerSwitchGetLayer(cfg, h, key), key)
  }

  /** The cache starts zeroed, so a key never pressed reads layer 0. */
  function CachedLayer(h: Host, key: KeyPos): Layer {
    if key in h.cache then h.cache[key] else 0
  }

  function StoreSourceLayer(cfg: Config, h: Host, e: Event): Host {
    if e.pressed then h.(cache := h.cache[e.key := LayerSwitchGetLayer(cfg, h, e.key)]) else h
  }

  function ResolvedAction(cfg: Config, h: Host, e: Event): Action {
    cfg.keymap(CachedLayer(StoreSourceLayer(cfg, h, e), e.key), e.key)
  }

  function RegisterCode(h: Host, code: Byte): Host {
    if IsKey(code) then h.(keys := h.keys + {code})
    else if IsMod(code) then h.(mods := h.mods + {code - KC_LEFT_CTRL})
    else h
  }

  function UnregisterCode(h: Host, code: Byte): Host {
    if IsKey(code) then h.(keys := h.keys - {code})
    else if IsMod(code) then h.(mods := h.mods - {code - KC_LEFT_CTRL})
    else h
  }

  /** Every layer change also clears the weak modifiers. */
  function LayerStateSet(h: Host, layers: set<nat>): Host {
    h.(layers := layers, weakMods := {})
  }

  function ProcessAction(h: Host, r: Record, a: Action): Host {
    match a
    case Key(mods, code) =>
      var strong := IsMod(code) || code == KC_NO;
      if r.event.pressed then
        var h1 := if mods == {} then h
                  else if strong then h.(mods := h.mods + mods)
                  else h.(weakMods := h.weakMods + mods);
        RegisterCode(h1, code)
      else
        var h1 := UnregisterCode(h, code);
        if mods == {} then h1
        else if strong then h1.(mods := h1.mods - mods)
        else h1.(weakMods := h1.weakMods - mods)
    case LayerTap(layer, code) =>
      if r.event.pressed then
        if r.tap.count > 0 then RegisterCode(h, code) else LayerStateSet(h, h.layers + {layer})
      else
        if r.tap.count > 0 then UnregisterCode(h, code) else LayerStateSet(h, h.layers - {layer})
    case Momentary(layer) =>
      if r.event.pressed then LayerStateSet(h, h.layers + {layer})
      else LayerStateSet(h, h.layers - {layer})
  }

  function ClearKeyboard(h: Host): Host {
    h.(keys := {}, mods := {}, weakMods := {})
  }

  // ------------------------------------------------------------------ effects

  /** What a key turns on in the host while it is down. */
  datatype Effect = OnLayer(layer: nat) | OnKey(code: Byte) | OnMod(bit: nat) | OnWeak(weak: nat)

  ghost predicate Active(h: Host, x: Effect) {
    match x
    case OnLayer(l) => l in h.layers
    case OnKey(c) => c in h.keys
    case OnMod(b) => b in h.mods
    case OnWeak(b) => b in h.weakMods
  }

  /** Codes 0x04 to 0xA4 are keys of the report, codes 0xE0 to 0xE7 its eight modifier bits; others have no effect. */
  ghost predicate CodeEffect(code: Byte, x: Effect) {
    || (0x04 <= code <= 0xA4 && x == OnKey(code))
    || (0xE0 <= code <= 0xE7 && x == OnMod(code - 0xE0))
  }

  /**
   The effects that a press with action `a` turns on; `tapped` tells tap from hold. The
   modifiers that come with a modifier code, or with no code, are real ones; those that
   come with any other code are weak.
   */
  ghost predicate Effects(a: Action, tapped: bool, x: Effect) {
    match a
    case Key(mods, code) =>
      || CodeEffect(code, x)
      || (x.OnMod? && x.bit in mods && (code == 0 || 0xE0 <= code <= 0xE7))
      || (x.OnWeak? && x.weak in mods && !(code == 0 || 0xE0 <= code <= 0xE7))
    case LayerTap(layer, code) => if tapped then CodeEffect(code, x) else x == OnLayer(layer)
    case Momentary(layer) => x == OnLayer(layer)
  }

  /** A press turns on nothing but its effects. */
  lemma PressEffects(h: Host, r: Record, a: Action, x: Effect)
    requires r.event.pressed && Active(ProcessAction(h, r, a), x)
    ensures Active(h, x) || Effects(a, r.tap.count > 0, x)
  {
  }

  /** A release turns on nothing, and turns off all the effects of the matching press. */
  lemma ReleaseEffects(h: Host, r: Record, a: Action, x: Effect)
    requires !r.event.pressed && Active(ProcessAction(h, r, a), x)
    ensures Active(h, x) && !Effects(a, r.tap.count > 0, x)
  {
  }

  /** A press turns on all of its effects and keeps every other, weak modifiers aside. */
  lemma PressTurnsOn(h: Host, r: Record, a: Action, x: Effect)
    requires r.event.pressed && (Effects(a, r.tap.count > 0, x) || (Active(h, x) && !x.OnWeak?))
    ensures Active(ProcessAction(h, r, a), x)
  {
  }

  /** A release turns off nothing but its own effects and weak modifiers. */
  lemma ReleaseKeeps(h: Host, r: Record, a: Action, x: Effect)
    requires !r.event.pressed && Active(h, x) && !x.OnWeak? && !Effects(a, r.tap.count > 0, x)
    ensures Active(ProcessAction(h, r, a), x)
  {
  }

  /** The layer found is the topmost active one that is not transparent; 0 if there is none. */
  lemma {:induction false} TopLayerIsTop(cfg: Config, active: set<nat>, key: KeyPos, n: nat)
    requires n <= MAX_LAYER
    ensures var l := TopLayer(cfg, active, key, n);
      && (forall j: Layer :: l < j < n && j in active ==> cfg.keymap(j, key) == TRANSPARENT)
      && (l != 0 ==> l < n && l in active && cfg.keymap(l, key) != TRANSPARENT)
  {
    if n > 0 && !(n - 1 in active && cfg.keymap(n - 1, key) != TRANSPARENT) {
      TopLayerIsTop(cfg, active, key, n - 1);
    }
  }
}
