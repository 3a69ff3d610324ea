/** The imperative tap/hold engine, proved against the functions of TappingSpec. */
module Tapping {
  import opened KeyEvents
  import opened Actions
  import opened ActionHosts
  import Spec = TappingSpec

  const SIZE: nat := Spec.WAITING_BUFFER_SIZE

  class TappingEngine {
    const host: ActionHost
    const buffer: array<Record>
    var tappingKey: Record
    var head: nat
    var tail: nat
    /** The waiting records from tail to head, and what process_record was given. */
    ghost var ring: seq<Record>
    ghost var log: seq<Spec.Dispatched>
    ghost var overflows: nat

    ghost predicate Valid()
      reads this, buffer, host, host.cache, host.cache.cells
    {
      host.Valid() && Known(tappingKey) && RingValid()
    }

    ghost predicate RingValid()
      reads this, buffer
    {
      && buffer.Length == SIZE && head < SIZE && tail < SIZE && |ring| == Used(tail, head)
      && forall i :: 0 <= i < |ring| ==> ring[i] == buffer[Slot(tail, i)] && Known(ring[i])
    }

    /** Real events come from keys of the matrix. */
    predicate Known(r: Record) { NoEvent(r.event) || host.InMatrix(r.event.key) }

    ghost function View(): Spec.Engine
      requires Valid()
      reads this, buffer, host, host.cache, host.cache.cells
    {
      Spec.Engine(tappingKey, ring, host.View(), log, overflows)
    }

    constructor (cfg: Config, rows: nat, cols: nat)
      requires rows * cols <= 256
      ensures Valid() && View() == Spec.INITIAL
      ensures host.cfg == cfg && host.cache.rows == rows && host.cache.cols == cols
      ensures fresh(buffer) && fresh(host) && fresh(host.cache) && fresh(host.cache.cells)
    {
      host := new ActionHost(cfg, rows, cols);
      buffer := new Record[SIZE](i => EMPTY_RECORD);
      tappingKey := EMPTY_RECORD;
      head, tail := 0, 0;
      ring, log, overflows := [], [], 0;
    }

    /** process_record: ticks are dropped, everything else reaches the host. */
    method ProcessRecord(r: Record, ghost synthetic: bool)
      requires Valid() && Known(r)
      modifies this`log, host, host.cache, host.cache.cells
      ensures Valid() && View() == Spec.ProcessRecord(host.cfg, old(View()), r, synthetic)
    {
      if NoEvent(r.event) {
        return;
      }
      var a := host.ProcessRecord(r);
      log := log + [Spec.Dispatched(r, synthetic, a)];
    }

    method IsTapRecord(r: Record) returns (b: bool)
      requires Valid()
      ensures b == Spec.IsTapRecord(host.cfg, View(), r)
    {
      var a := host.LayerSwitchGetAction(r.event.key);
      b := IsTapAction(a);
    }

    predicate Within(e: Event)
      reads this
    {
      TimerDiff16(e.time, tappingKey.event.time) < host.cfg.term
    }

    predicate IsTappingKey(key: KeyPos)
      reads this
    {
      !NoEvent(tappingKey.event) && tappingKey.event.key == key
    }

    method WaitingBufferEnq(r: Record) returns (ok: bool)
      requires Valid() && Known(r)
      modifies this`head, this`ring, buffer
      ensures Valid() && ok == (NoEvent(r.event) || |old(ring)| < Spec.RING_CAPACITY)
      ensures View() == old(View()).(ring := if ok && !NoEvent(r.event) then old(ring) + [r] else old(ring))
    {
      if NoEvent(r.event) {
        return true;
      }
      if (head + 1) % SIZE == tail {
        return false;
      }
      buffer[head] := r;
      head := (head + 1) % SIZE;
      ring := ring + [r];
      return true;
    }

    method WaitingBufferClear()
      requires Valid()
      modifies this`head, this`tail, this`ring
      ensures Valid() && View() == old(View()).(ring := [])
    {
      head := 0;
      tail := 0;
      ring := [];
    }

    method WaitingBufferTyped(e: Event) returns (typed: bool)
      requires RingValid()
      ensures typed == exists i :: 0 <= i < |ring| && ring[i].event.key == e.key && ring[i].event.pressed != e.pressed
    {
      var i := tail;
      ghost var n := 0;
      while i != head
        invariant 0 <= n <= |ring| && i == Slot(tail, n)
        invariant forall j :: 0 <= j < n ==> !(ring[j].event.key == e.key && ring[j].event.pressed != e.pressed)
        decreases |ring| - n
      {
        InRing(tail, head, n);
        if e.key == buffer[i].event.key && e.pressed != buffer[i].event.pressed {
          assert ring[n] == buffer[i];
          return true;
        }
        i := (i + 1) % SIZE;
        n := n + 1;
      }
      InRing(tail, head, n);
      return false;
    }

    method WaitingBufferScanTap()
      requires Valid()
      modifies this`log, this`ring, this`tappingKey, buffer, host, host.cache, host.cache.cells
      ensures Valid() && View() == Spec.ScanTap(host.cfg, old(View()))
    {
      if tappingKey.tap.count > 0 || !tappingKey.event.pressed {
        return;
      }
      var i := tail;
      ghost var n := 0;
      ghost var before := View();
      while i != head
        invariant 0 <= n <= |ring| && i == Slot(tail, n)
        invariant Valid() && View() == before
        invariant Spec.FindRelease(host.cfg, before, 0) == Spec.FindRelease(host.cfg, before, n)
        decreases |ring| - n
      {
        InRing(tail, head, n);
        var r := buffer[i];
        if IsTappingKey(r.event.key) && !r.event.pressed && Within(r.event) {
          tappingKey := tappingKey.(tap := tappingKey.tap.(count := 1));
          MarkSlot(i, n, r.(tap := r.tap.(count := 1)));
          ProcessRecord(tappingKey, false);
          return;
        }
        i := (i + 1) % SIZE;
        n := n + 1;
      }
      InRing(tail, head, n);
    }

    /** Writing through a pointer into the ring. */
    method MarkSlot(i: nat, ghost n: nat, r: Record)
      requires Valid() && n < |ring| && i == Slot(tail, n) && Known(r)
      modifies this`ring, buffer
      ensures Valid() && View() == old(View()).(ring := old(ring)[n := r])
    {
      buffer[i] := r;
      ring := ring[n := r];
    }

    // ----------------------------------------------------------- process_tapping
    // The record that process_tapping is pointed at comes in as `keyp` and goes out
    // as `r`; the caller writes `r` back where the pointer pointed.

    method ProcessPending(keyp: Record) returns (done: bool, r: Record)
      requires Valid() && Known(keyp)
      modifies this`log, this`tappingKey, host, host.cache, host.cache.cells
      ensures Valid() && Known(r) && Spec.Outcome(View(), r, done) == Spec.PendingWithin(host.cfg, old(View()), keyp)
    {
      var event := keyp.event;
      r := keyp;
      if IsTappingKey(event.key) && !event.pressed {
        // first tap
        tappingKey := tappingKey.(tap := tappingKey.tap.(count := 1));
        ProcessRecord(tappingKey, false);
        r := keyp.(tap := tappingKey.tap);
        return false, r;
      }
      var typed := WaitingBufferTyped(event);
      if !NoEvent(event) && !event.pressed && !typed {
        // release of a key pressed before tapping started; modifiers are kept back
        var a := host.LayerSwitchGetAction(event.key);
        if Spec.RetainedModifier(a) {
          return false, r;
        }
        ProcessRecord(keyp, false);
        return true, r;
      }
      if event.pressed {
        tappingKey := tappingKey.(tap := tappingKey.tap.(interrupted := true));
      }
      return false, r;
    }

    method ProcessTapped(keyp: Record, within: bool) returns (done: bool, r: Record)
      requires Valid() && Known(keyp) && Spec.Tapped(View())
      modifies this`log, this`tappingKey, this`ring, buffer, host, host.cache, host.cache.cells
      ensures Valid() && Known(r) && Spec.Outcome(View(), r, done) == Spec.TappedCase(host.cfg, old(View()), keyp, within)
    {
      var event := keyp.event;
      r := keyp;
      if IsTappingKey(event.key) && !event.pressed {
        r := keyp.(tap := tappingKey.tap);
        ProcessRecord(r, false);
        tappingKey := if within then r else EMPTY_RECORD;
        return true, r;
      }
      var isTap := IsTapRecord(keyp);
      if isTap && event.pressed {
        if tappingKey.tap.count > 1 {
          // unregister the last tap
          ProcessRecord(Record(Event(tappingKey.event.key, false, event.time), tappingKey.tap), true);
        }
        tappingKey := keyp;
        WaitingBufferScanTap();
        return true, r;
      }
      ProcessRecord(keyp, false);
      return true, r;
    }

    method ProcessReleased(keyp: Record) returns (done: bool, r: Record)
      requires Valid() && Known(keyp) && Spec.TapReleased(View())
      modifies this`log, this`tappingKey, this`ring, buffer, host, host.cache, host.cache.cells
      ensures Valid() && Known(r) && Spec.Outcome(View(), r, done) == Spec.ReleasedWithin(host.cfg, old(View()), keyp)
    {
      r := keyp;
      if !keyp.event.pressed {
        ProcessRecord(keyp, false);
        return true, r;
      }
      if IsTappingKey(keyp.event.key) {
        if !tappingKey.tap.interrupted && tappingKey.tap.count > 0 {
          // sequential tap
          r := keyp.(tap := tappingKey.tap);
          if r.tap.count < 15 {
            r := r.(tap := r.tap.(count := r.tap.count + 1));
          }
          ProcessRecord(r, false);
          tappingKey := r;
          return true, r;
        }
        // start a new tap, without looking at the waiting buffer
        tappingKey := keyp;
        return true, r;
      }
      var isTap := IsTapRecord(keyp);
      if isTap {
        tappingKey := keyp;
        WaitingBufferScanTap();
        return true, r;
      }
      tappingKey := tappingKey.(tap := tappingKey.tap.(interrupted := true));
      ProcessRecord(keyp, false);
      return true, r;
    }

    method ProcessTapping(keyp: Record) returns (done: bool, r: Record)
      requires Valid() && Known(keyp)
      modifies this`log, this`tappingKey, this`ring, buffer, host, host.cache, host.cache.cells
      ensures Valid() && Known(r) && Spec.Outcome(View(), r, done) == Spec.ProcessTapping(host.cfg, old(View()), keyp)
    {
      var tapping := !NoEvent(tappingKey.event);
      var within := Within(keyp.event);
      if tapping && tappingKey.event.pressed && tappingKey.tap.count == 0 {
        if within {
          done, r := ProcessPending(keyp);
          return;
        }
        ProcessRecord(tappingKey, false);
        tappingKey := EMPTY_RECORD;
        return false, keyp;
      }
      if tapping && tappingKey.event.pressed {
        done, r := ProcessTapped(keyp, within);
        return;
      }
      if tapping {
        if within {
          done, r := ProcessReleased(keyp);
          return;
        }
        tappingKey := EMPTY_RECORD;
        return false, keyp;
      }
      var isTap := IsTapRecord(keyp);
      if keyp.event.pressed && isTap {
        tappingKey := keyp;
        WaitingBufferScanTap();
        return true, keyp;
      }
      ProcessRecord(keyp, false);
      return true, keyp;
    }

    // ----------------------------------------------------- action_tapping_process

    /** What action_tapping_process does before its drain loop. */
    method Arrive(record: Record)
      requires Valid() && Known(record)
      modifies this, buffer, host, host.cache, host.cache.cells
      ensures Valid() && View() == Spec.Arrive(host.cfg, old(View()), record)
    {
      var done, r := ProcessTapping(record);
      if !done {
        ghost var before := View();
        var ok := WaitingBufferEnq(r);
        if !ok {
          ClearAll();
        }
        assert View() == Spec.Enqueue(before, r);
      }
    }

    /** What an overflow leaves behind. */
    method ClearAll()
      requires Valid()
      modifies this, buffer, host
      ensures Valid() && overflows == old(overflows) + 1
      ensures View() == old(View()).(
        tk := EMPTY_RECORD, ring := [], host := ClearKeyboard(old(host.View())), overflows := overflows)
    {
      host.ClearKeyboard();
      WaitingBufferClear();
      tappingKey := EMPTY_RECORD;
      overflows := overflows + 1;
    }

    method AdvanceTail()
      requires Valid() && ring != []
      modifies this`tail, this`ring
      ensures Valid() && View() == old(View()).(ring := old(ring)[1..])
    {
      ring := ring[1..];
      tail := (tail + 1) % SIZE;
    }

    /** One iteration of the drain loop: its body and, if it goes on, its step. */
    method DrainOnce() returns (done: bool)
      requires Valid() && ring != []
      modifies this, buffer, host, host.cache, host.cache.cells
      ensures Valid() && View() == Spec.DrainStep(host.cfg, old(View())).s
      ensures done == Spec.DrainStep(host.cfg, old(View())).done
    {
      InRing(tail, head, 0);
      assert Slot(tail, 0) == tail;
      var r;
      done, r := ProcessTapping(buffer[tail]);
      MarkSlot(tail, 0, r);
      if done {
        AdvanceTail();
      }
    }

    method ActionTappingProcess(record: Record)
      requires Valid() && Known(record)
      modifies this, buffer, host, host.cache, host.cache.cells
      ensures Valid() && View() == Spec.ActionTappingProcess(host.cfg, old(View()), record)
    {
      Arrive(record);
      ghost var goal := Spec.Drain(host.cfg, View());
      while tail != head
        invariant Valid() && Spec.Drain(host.cfg, View()) == goal
        decreases |ring|
      {
        InRing(tail, head, 0);
        var done := DrainOnce();
        if !done {
          return;
        }
      }
      InRing(tail, head, 0);
    }

    /** action_exec, from the clearing of weak modifiers on. */
    method ActionExec(event: Event)
      requires Valid() && Known(Record(event, NO_TAP))
      modifies this, buffer, host, host.cache, host.cache.cells
      ensures Valid() && View() == Spec.ActionExec(host.cfg, old(View()), event)
    {
      if event.pressed {
        host.ClearWeakMods();
      }
      ActionTappingProcess(Record(event, NO_TAP));
    }
  }

  // ------------------------------------------------------------ ring arithmetic

  /** The buffer index of the n-th waiting record. */
  function Slot(tail: nat, n: nat): nat {
    if tail + n < SIZE then tail + n else tail + n - SIZE
  }

  function Used(tail: nat, head: nat): nat
    requires head < SIZE && tail < SIZE
  {
    if tail <= head then head - tail else SIZE - tail + head
  }

  /** Walking n steps from the tail meets the head exactly at the end of the ring. */
  lemma InRing(tail: nat, head: nat, n: nat)
    requires head < SIZE && tail < SIZE && n <= Used(tail, head)
    ensures Slot(tail, n) == head <==> n == Used(tail, head)
    ensures Slot(tail, n + 1) == (Slot(tail, n) + 1) % SIZE
  {
  }

}
