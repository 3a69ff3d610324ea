/** The mutable layer, cache and report state behind process_record (quantum/action_layer.c, quantum/action.c). */
module ActionHosts {
  import opened Words
  import opened KeyEvents
  import opened Actions
  import opened SourceLayers

  const MAX_LAYER_BITS: nat := 5

  class ActionHost {
    const cfg: Config
    const cache: SourceLayerCache
    var layers: set<nat>
    var keys: set<Byte>
    var mods: set<nat>
    var weakMods: set<nat>

    ghost predicate Valid()
      reads this, cache, cache.cells
    {
      && cache.Valid() && cache.bits == MAX_LAYER_BITS
      && forall k :: k in cache.contents ==> cache.contents[k] < MAX_LAYER
    }

    ghost function View(): Host
      requires Valid()
      reads this, cache, cache.cells
    {
      Host(layers, map k | k in cache.contents :: cache.contents[k], keys, mods, weakMods)
    }

    predicate InMatrix(key: KeyPos) { cache.InMatrix(key) }

    constructor (cfg: Config, rows: nat, cols: nat)
      requires rows * cols <= 256
      ensures Valid() && View() == HOST_INIT && fresh(cache) && fresh(cache.cells)
      ensures this.cfg == cfg && cache.rows == rows && cache.cols == cols
    {
      this.cfg := cfg;
      cache := new SourceLayerCache(rows, cols, MAX_LAYER_BITS);
      layers, keys, mods, weakMods := {}, {}, {}, {};
    }

    /** layer_switch_get_layer: top layer first. */
    method LayerSwitchGetLayer(key: KeyPos) returns (layer: Layer)
      requires Valid()
      ensures layer == Actions.LayerSwitchGetLayer(cfg, View(), key)
    {
      var active := layers + cfg.defaultLayers;
      var i: nat := MAX_LAYER;
      while i > 0
        invariant i <= MAX_LAYER
        invariant TopLayer(cfg, active, key, i) == TopLayer(cfg, active, key, MAX_LAYER)
      {
        i := i - 1;
        if i in active && cfg.keymap(i, key) != TRANSPARENT {
          return i;
        }
      }
      return 0;
    }

    method LayerSwitchGetAction(key: KeyPos) returns (a: Action)
      requires Valid()
      ensures a == Actions.LayerSwitchGetAction(cfg, View(), key)
    {
      var layer := LayerSwitchGetLayer(key);
      a := cfg.keymap(layer, key);
    }

    /** store_or_get_action: a press stores its source layer, a release reads it back. */
    method StoreOrGetAction(e: Event) returns (a: Action)
      requires Valid() && InMatrix(e.key)
      modifies cache, cache.cells
      ensures Valid() && a == ResolvedAction(cfg, old(View()), e)
      ensures View() == StoreSourceLayer(cfg, old(View()), e)
    {
      if e.pressed {
        var layer := LayerSwitchGetLayer(e.key);
        assert Pow2(MAX_LAYER_BITS) == MAX_LAYER;
        cache.Update(e.key, layer);
        a := cfg.keymap(layer, e.key);
        assert View().cache == old(View()).cache[e.key := layer];
      } else {
        var layer := cache.Read(e.key);
        a := cfg.keymap(layer, e.key);
      }
    }

    method RegisterCode(code: Byte)
      requires Valid()
      modifies this
      ensures Valid() && View() == Actions.RegisterCode(old(View()), code)
    {
      if IsKey(code) {
        keys := keys - {code};
        keys := keys + {code};
      } else if IsMod(code) {
        mods := mods + {code - KC_LEFT_CTRL};
      }
    }

    method UnregisterCode(code: Byte)
      requires Valid()
      modifies this
      ensures Valid() && View() == Actions.UnregisterCode(old(View()), code)
    {
      if IsKey(code) {
        keys := keys - {code};
      } else if IsMod(code) {
        mods := mods - {code - KC_LEFT_CTRL};
      }
    }

    method LayerStateSet(state: set<nat>)
      requires Valid()
      modifies this
      ensures Valid() && View() == Actions.LayerStateSet(old(View()), state)
    {
      layers := state;
      weakMods := {};
    }

    /** process_action, for plain, layer-tap and momentary-layer actions. */
    method ProcessAction(r: Record, a: Action)
      requires Valid()
      modifies this
      ensures Valid() && View() == Actions.ProcessAction(old(View()), r, a)
    {
      match a {
        case Key(bits, code) =>
          if r.event.pressed {
            if bits != {} {
              if IsMod(code) || code == KC_NO {
                mods := mods + bits;
              } else {
                weakMods := weakMods + bits;
              }
            }
            RegisterCode(code);
          } else {
            UnregisterCode(code);
            if bits != {} {
              if IsMod(code) || code == KC_NO {
                mods := mods - bits;
              } else {
                weakMods := weakMods - bits;
              }
            }
          }
        case LayerTap(layer, code) =>
          if r.event.pressed {
            if r.tap.count > 0 { RegisterCode(code); } else { LayerStateSet(layers + {layer}); }
          } else {
            if r.tap.count > 0 { UnregisterCode(code); } else { LayerStateSet(layers - {layer}); }
          }
        case Momentary(layer) =>
          if r.event.pressed { LayerStateSet(layers + {layer}); } else { LayerStateSet(layers - {layer}); }
      }
    }

    /** process_record_handler, for a record that is a real event. */
    method ProcessRecord(r: Record) returns (a: Action)
      requires Valid() && InMatrix(r.event.key)
      modifies this, cache, cache.cells
      ensures Valid() && a == ResolvedAction(cfg, old(View()), r.event)
      ensures View() == Actions.ProcessAction(StoreSourceLayer(cfg, old(View()), r.event), r, a)
    {
      a := StoreOrGetAction(r.event);
      ProcessAction(r, a);
    }

    method ClearKeyboard()
      requires Valid()
      modifies this
      ensures Valid() && View() == Actions.ClearKeyboard(old(View()))
    {
      keys, mods, weakMods := {}, {}, {};
    }

    method ClearWeakMods()
      requires Valid()
      modifies this
      ensures Valid() && View() == old(View()).(weakMods := {})
    {
      weakMods := {};
    }
  }
}
