/**
 The tap/hold engine of quantum/action_tapping.c in its default configuration,
 as functions on values. `Tapping.dfy` proves the imperative engine against them.

 `tk` is tapping_key, `ring` the waiting buffer from tail to head. `log` records
 what process_record was given, with the action each record was resolved to, and
 `overflows` counts the times a full ring made the engine drop everything.
 */
module TappingSpec {
  import opened Words
  import opened KeyEvents
  import opened Actions

  const WAITING_BUFFER_SIZE: nat := 8
  const RING_CAPACITY: nat := WAITING_BUFFER_SIZE - 1

  datatype Dispatched = Dispatched(rec: Record, synthetic: bool, action: Action)

  datatype Engine = Engine(
    tk: Record,
    ring: seq<Record>,
    host: Host,
    log: seq<Dispatched>,
    overflows: nat)

  /** What process_tapping leaves behind: the engine, the record it was given, and its verdict. */
  datatype Outcome = Outcome(s: Engine, keyp: Record, done: bool)

  const INITIAL := Engine(EMPTY_RECORD, [], HOST_INIT, [], 0)

  predicate IsTapping(s: Engine) { !NoEvent(s.tk.event) }

  predicate IsTappingKey(s: Engine, k: KeyPos) { IsTapping(s) && s.tk.event.key == k }

  /** A press that is not yet known to be a tap or a hold. */
  predicate Pending(s: Engine) { IsTapping(s) && s.tk.event.pressed && s.tk.tap.count == 0 }

  /** A press already dispatched as a tap, whose key is still down as far as the engine knows. */
  predicate Tapped(s: Engine) { IsTapping(s) && s.tk.event.pressed && s.tk.tap.count > 0 }

  predicate TapReleased(s: Engine) { IsTapping(s) && !s.tk.event.pressed }

  predicate Within(cfg: Config, s: Engine, e: Event) {
    TimerDiff16(e.time, s.tk.event.time) < cfg.term
  }

  predicate IsTapRecord(cfg: Config, s: Engine, r: Record) {
    IsTapAction(LayerSwitchGetAction(cfg, s.host, r.event.key))
  }

  /** waiting_buffer_typed: the ring holds the opposite event of the same key. */
  predicate Typed(s: Engine, e: Event) {
    exists i :: 0 <= i < |s.ring| && s.ring[i].event.key == e.key && s.ring[i].event.pressed != e.pressed
  }

  /** The release of a modifier is kept back until the tapping key is settled. */
  predicate RetainedModifier(a: Action) {
    a.Key? && ((a.mods != {} && a.code == KC_NO) || IsMod(a.code))
  }

  function ProcessRecord(cfg: Config, s: Engine, r: Record, synthetic: bool): Engine {
    if NoEvent(r.event) then s
    else
      var a := ResolvedAction(cfg, s.host, r.event);
      s.(host := ProcessAction(StoreSourceLayer(cfg, s.host, r.event), r, a),
         log := s.log + [Dispatched(r, synthetic, a)])
  }

  /** The first waiting release of the tapping key within the tapping term, from position `i` on. */
  function FindRelease(cfg: Config, s: Engine, i: nat): (r: nat)
    requires i <= |s.ring|
    ensures i <= r <= |s.ring|
    decreases |s.ring| - i
  {
    if i == |s.ring| then i
    else if IsTappingKey(s, s.ring[i].event.key) && !s.ring[i].event.pressed && Within(cfg, s, s.ring[i].event) then i
    else FindRelease(cfg, s, i + 1)
  }

  function ScanTap(cfg: Config, s: Engine): (s': Engine)
    ensures |s'.ring| == |s.ring|
  {
    if s.tk.tap.count > 0 || !s.tk.event.pressed then s
    else
      var i := FindRelease(cfg, s, 0);
      if i == |s.ring| then s
      else
        var tk := s.tk.(tap := s.tk.tap.(count := 1));
        var marked := s.ring[i].(tap := s.ring[i].tap.(count := 1));
        ProcessRecord(cfg, s.(tk := tk, ring := s.ring[i := marked]), tk, false)
  }

  /** tapping_key pressed, tap.count == 0, event within the term. */
  function PendingWithin(cfg: Config, s: Engine, keyp: Record): (o: Outcome)
    ensures |o.s.ring| == |s.ring|
  {
    var e := keyp.event;
    if IsTappingKey(s, e.key) && !e.pressed then
      var tk := s.tk.(tap := s.tk.tap.(count := 1));
      Outcome(ProcessRecord(cfg, s.(tk := tk), tk, false), keyp.(tap := tk.tap), false)
    else if !NoEvent(e) && !e.pressed && !Typed(s, e) then
      if RetainedModifier(LayerSwitchGetAction(cfg, s.host, e.key)) then Outcome(s, keyp, false)
      else Outcome(ProcessRecord(cfg, s, keyp, false), keyp, true)
    else if e.pressed then
      Outcome(s.(tk := s.tk.(tap := s.tk.tap.(interrupted := true))), keyp, false)
    else
      Outcome(s, keyp, false)
  }

  /** The release that stands in for the last tap when a new tap key starts. */
  function SyntheticRelease(s: Engine, time: Word16): Record {
    Record(Event(s.tk.event.key, false, time), s.tk.tap)
  }

  /** tapping_key pressed, tap.count > 0; `within` only decides what a release leaves behind. */
  function TappedCase(cfg: Config, s: Engine, keyp: Record, within: bool): (o: Outcome)
    ensures |o.s.ring| == |s.ring|
  {
    var e := keyp.event;
    if IsTappingKey(s, e.key) && !e.pressed then
      var r := keyp.(tap := s.tk.tap);
      var s1 := ProcessRecord(cfg, s, r, false);
      Outcome(s1.(tk := if within then r else EMPTY_RECORD), r, true)
    else if IsTapRecord(cfg, s, keyp) && e.pressed then
      var s1 := if s.tk.tap.count > 1 then ProcessRecord(cfg, s, SyntheticRelease(s, e.time), true) else s;
      Outcome(ScanTap(cfg, s1.(tk := keyp)), keyp, true)
    else
      Outcome(ProcessRecord(cfg, s, keyp, false), keyp, true)
  }

  /** tapping_key released, event within the term. */
  function ReleasedWithin(cfg: Config, s: Engine, keyp: Record): (o: Outcome)
    ensures |o.s.ring| == |s.ring|
  {
    if !keyp.event.pressed then Outcome(ProcessRecord(cfg, s, keyp, false), keyp, true)
    else if IsTappingKey(s, keyp.event.key) then
      if !s.tk.tap.interrupted && s.tk.tap.count > 0 then
        var tap := s.tk.tap;
        var r := keyp.(tap := if tap.count < 15 then tap.(count := tap.count + 1) else tap);
        Outcome(ProcessRecord(cfg, s, r, false).(tk := r), r, true)
      else
        Outcome(s.(tk := keyp), keyp, true)
    else if IsTapRecord(cfg, s, keyp) then
      Outcome(ScanTap(cfg, s.(tk := keyp)), keyp, true)
    else
      var s1 := s.(tk := s.tk.(tap := s.tk.tap.(interrupted := true)));
      Outcome(ProcessRecord(cfg, s1, keyp, false), keyp, true)
  }

  function NotTapping(cfg: Config, s: Engine, keyp: Record): (o: Outcome)
    ensures |o.s.ring| == |s.ring|
  {
    if keyp.event.pressed && IsTapRecord(cfg, s, keyp) then
      Outcome(ScanTap(cfg, s.(tk := keyp)), keyp, true)
    else
      Outcome(ProcessRecord(cfg, s, keyp, false), keyp, true)
  }

  function ProcessTapping(cfg: Config, s: Engine, keyp: Record): (o: Outcome)
    ensures |o.s.ring| == |s.ring|
  {
    var within := Within(cfg, s, keyp.event);
    if Pending(s) then
      if within then PendingWithin(cfg, s, keyp)
      else Outcome(ProcessRecord(cfg, s, s.tk, false).(tk := EMPTY_RECORD), keyp, false)
    else if Tapped(s) then TappedCase(cfg, s, keyp, within)
    else if TapReleased(s) then
      if within then ReleasedWithin(cfg, s, keyp)
      else Outcome(s.(tk := EMPTY_RECORD), keyp, false)
    else NotTapping(cfg, s, keyp)
  }

  /** waiting_buffer_enq; a full ring clears every state instead. */
  function Enqueue(s: Engine, r: Record): Engine {
    if NoEvent(r.event) then s
    else if |s.ring| >= RING_CAPACITY then
      s.(tk := EMPTY_RECORD, ring := [], host := ClearKeyboard(s.host), overflows := s.overflows + 1)
    else s.(ring := s.ring + [r])
  }

  /** One pass of process_tapping over the ring's oldest entry. */
  function DrainStep(cfg: Config, s: Engine): (o: Outcome)
    requires s.ring != []
    ensures o.done ==> |o.s.ring| == |s.ring| - 1
    ensures !o.done ==> |o.s.ring| == |s.ring|
  {
    var o := ProcessTapping(cfg, s, s.ring[0]);
    if o.done then o.(s := o.s.(ring := o.s.ring[1..]))
    else o.(s := o.s.(ring := o.s.ring[0 := o.keyp]))
  }

  function Drain(cfg: Config, s: Engine): Engine
    decreases |s.ring|
  {
    if s.ring == [] then s
    else
      var o := DrainStep(cfg, s);
      if o.done then Drain(cfg, o.s) else o.s
  }

  /** Everything action_tapping_process does before the drain loop. */
  function Arrive(cfg: Config, s: Engine, r: Record): Engine {
    var o := ProcessTapping(cfg, s, r);
    if o.done then o.s else Enqueue(o.s, o.keyp)
  }

  function ActionTappingProcess(cfg: Config, s: Engine, r: Record): Engine {
    Drain(cfg, Arrive(cfg, s, r))
  }

  /** action_exec: a press first clears the weak modifiers. */
  function ClearWeak(s: Engine, e: Event): Engine {
    if e.pressed then s.(host := s.host.(weakMods := {})) else s
  }

  function ActionExec(cfg: Config, s: Engine, e: Event): Engine {
    ActionTappingProcess(cfg, ClearWeak(s, e), Record(e, NO_TAP))
  }

  /** What a sequence of events and ticks makes of state `s`. */
  function Feed(cfg: Config, s: Engine, es: seq<Event>): Engine {
    if es == [] then s else ActionExec(cfg, Feed(cfg, s, es[..|es| - 1]), es[|es| - 1])
  }

  /** The engine after a whole run of events and ticks from power-up. */
  function Run(cfg: Config, es: seq<Event>): Engine { Feed(cfg, INITIAL, es) }

  lemma {:induction false} FeedConcat(cfg: Config, s: Engine, a: seq<Event>, b: seq<Event>)
    ensures Feed(cfg, s, a + b) == Feed(cfg, Feed(cfg, s, a), b)
  {
    if b == [] {
      assert a + b == a;
    } else {
      assert (a + b)[..|a + b| - 1] == a + b[..|b| - 1];
      FeedConcat(cfg, s, a, b[..|b| - 1]);
    }
  }

  lemma FeedFirst(cfg: Config, s: Engine, es: seq<Event>)
    requires es != []
    ensures Feed(cfg, s, es) == Feed(cfg, ActionExec(cfg, s, es[0]), es[1..])
  {
    FeedConcat(cfg, s, [es[0]], es[1..]);
    assert [es[0]] + es[1..] == es;
    assert [es[0]][..0] == [];
  }

  /** Nothing can overtake: the ring is empty or a press is pending. */
  predicate Settled(s: Engine) { s.ring == [] || Pending(s) }

  /** Nothing is waiting at all. */
  predicate Idle(s: Engine) { s.ring == [] && !Pending(s) }
}
