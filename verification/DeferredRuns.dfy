/**
 What callers of the deferred executor can rely on over whole runs: what each operation does
 to the table, who asked for each call, and which registrations are gone for good.
 */
module DeferredRuns {
  import opened Words
  import opened DeferredExec

  // ------------------------------------------------------------------ single operations

  /** Slot `i` is live under `token`. */
  predicate Under(t: Table, i: nat, token: Byte) { i < |t.slots| && token != 0 && t.slots[i].token == token }

  /** Nothing but slot `i` has changed, and nothing has been called. */
  predicate OnlySlot(t: Table, t': Table, i: nat) {
    |t'.slots| == |t.slots| && t'.log == t.log && forall j :: 0 <= j < |t.slots| && j != i ==> t'.slots[j] == t.slots[j]
  }

  /** Cancelling frees the entry that is live under the token, and no other. */
  lemma CancelFrees(t: Table, token: Byte, i: nat)
    requires Exact(t) && Under(t, i, token)
    ensures var (t', found) := CancelF(t, token); found && OnlySlot(t, t', i) && !Live(t'.slots[i])
  {
  }

  /** Extending lets that entry start over, due the delay from now under the same token and callback. */
  lemma ExtendRestarts(t: Table, now: nat, token: Byte, delay: Word32, i: nat)
    requires Exact(t) && Under(t, i, token) && delay != 0
    ensures var (t', found) := ExtendF(t, now, token, delay);
      && found && OnlySlot(t, t', i)
      && var slot := t'.slots[i];
        && slot.due == slot.born == now + delay && slot.id == t.next && t'.next > t.next
        && slot.token == token && slot.callback == t.slots[i].callback
  {
  }

  /** Both fail, and change nothing, if no entry is live under the token; extending also if the delay is 0. */
  lemma NothingFound(t: Table, now: nat, token: Byte, delay: Word32)
    ensures (forall i :: !Under(t, i, token)) ==>
      CancelF(t, token) == (t, false) && ExtendF(t, now, token, delay) == (t, false)
    ensures delay == 0 ==> ExtendF(t, now, token, delay) == (t, false)
  {
    var i := FindToken(t.slots, token, 0);
    assert token != 0 && i < |t.slots| ==> Under(t, i, token);
  }

  /** The first free slot. */
  predicate FirstFree(t: Table, i: nat) {
    i < |t.slots| && !Live(t.slots[i]) && forall j :: 0 <= j < i ==> Live(t.slots[j])
  }

  /** Registering fills the first free slot, due the delay from now, and returns a token that no entry had. */
  lemma RegisterFills(t: Table, now: nat, delay: Word32, callback: nat, i: nat)
    requires Exact(t) && FirstFree(t, i) && delay != 0 && callback != 0
    ensures var (t', token) := DeferF(t, now, delay, callback);
      && OnlySlot(t, t', i) && Under(t', i, token) && (forall j :: !Under(t, j, token))
      && var slot := t'.slots[i];
        && slot.due == slot.born == now + delay && slot.callback == callback && slot.id == t.next
        && t'.next > t.next && t'.current == token
  {
    AllocationSucceeds(t.slots, t.current);
    assert i == FindToken(t.slots, INVALID_TOKEN, 0);
  }

  /** It fails, and changes nothing, if the delay is 0, there is no callback or no slot is free. */
  lemma NothingRegistered(t: Table, now: nat, delay: Word32, callback: nat)
    requires delay == 0 || callback == 0 || forall i :: 0 <= i < |t.slots| ==> Live(t.slots[i])
    ensures DeferF(t, now, delay, callback) == (t, 0)
  {
  }

  // ------------------------------------------------------------------- gone for good

  /** The registration has been made, and no live entry is it any more. */
  ghost predicate Gone(t: Table, id: nat) {
    id < t.next && forall i :: 0 <= i < |t.slots| && Live(t.slots[i]) ==> t.slots[i].id != id
  }

  /** Since the first `n` calls none was made for the registration. */
  ghost predicate NotCalledSince(t: Table, n: nat, id: nat) {
    n <= |t.log| && forall i :: n <= i < |t.log| ==> t.log[i].slot.id != id
  }

  lemma SlotStaysGone(t: Table, now: nat, i: nat, delay: Word32, n: nat, id: nat)
    requires i < |t.slots| && Gone(t, id) && NotCalledSince(t, n, id)
    ensures Gone(RunSlot(t, now, i, delay), id) && NotCalledSince(RunSlot(t, now, i, delay), n, id)
  {
  }

  lemma DoStaysGone(t: Table, step: Step, n: nat, id: nat)
    requires Allowed(step.op, |t.slots|) && Gone(t, id) && NotCalledSince(t, n, id)
    ensures Gone(Do(t, step), id) && NotCalledSince(Do(t, step), n, id)
  {
    if step.op.Task? {
      PassStaysGone(t.(lastCheck := Reading(step.at)), step.at, step.op.delays, n, id);
    }
  }

  lemma PassStaysGone(t: Table, now: nat, delays: seq<Word32>, n: nat, id: nat)
    requires |delays| == |t.slots| && Gone(t, id) && NotCalledSince(t, n, id)
    ensures var t' := RunSlots(t, now, delays, |delays|); Gone(t', id) && NotCalledSince(t', n, id)
  {
    forall u: Table, i | |u.slots| == |delays| && 0 <= i < |delays| && Gone(u, id) && NotCalledSince(u, n, id)
      ensures Gone(RunSlot(u, now, i, delays[i]), id) && NotCalledSince(RunSlot(u, now, i, delays[i]), n, id)
    {
      SlotStaysGone(u, now, i, delays[i], n, id);
    }
    PassKeeps((u: Table) => Gone(u, id) && NotCalledSince(u, n, id), t, now, delays, |delays|);
  }

  /** A registration that is gone after the first `n` steps of a run is never called again, and never comes back. */
  lemma {:induction false} GoneForGood(slots: nat, steps: seq<Step>, n: nat, id: nat)
    requires IsRun(slots, steps) && n <= |steps| && Gone(After(slots, steps[..n]), id)
    ensures Gone(After(slots, steps), id)
    ensures NotCalledSince(After(slots, steps), |After(slots, steps[..n]).log|, id)
  {
    if n == |steps| {
      assert steps[..n] == steps;
    } else {
      var p := steps[..|steps| - 1];
      assert p[..n] == steps[..n];
      GoneForGood(slots, p, n, id);
      DoStaysGone(After(slots, p), steps[|steps| - 1], |After(slots, steps[..n]).log|, id);
    }
  }

  /** So a cancelled entry is never called, and an extended one only under its new registration. */
  lemma ReplacedIsNeverCalled(slots: nat, steps: seq<Step>, n: nat, i: nat, token: Byte)
    requires IsRun(slots, steps) && slots <= 0x100 - 2 && n < |steps| && Under(After(slots, steps[..n]), i, token)
    requires var op := steps[n].op;
      op == Cancel(token) || (op.Extend? && op.token == token && op.delay != 0)
    ensures var t := After(slots, steps[..n]); NotCalledSince(After(slots, steps), |t.log|, t.slots[i].id)
  {
    var t := After(slots, steps[..n]);
    assert steps[..n + 1][..n] == steps[..n];
    RunIsExact(slots, steps[..n]);
    ReplacedIsGone(t, steps[n], i, token);
    GoneForGood(slots, steps, n + 1, t.slots[i].id);
  }

  lemma ReplacedIsGone(t: Table, step: Step, i: nat, token: Byte)
    requires Exact(t) && Under(t, i, token)
    requires step.op == Cancel(token) || (step.op.Extend? && step.op.token == token && step.op.delay != 0)
    ensures Gone(Do(t, step), t.slots[i].id) && Do(t, step).log == t.log
  {
    if step.op.Extend? {
      ExtendRestarts(t, step.at, token, step.op.delay, i);
    } else {
      CancelFrees(t, token, i);
    }
    assert OnlySlot(t, Do(t, step), i);
  }

  // ---------------------------------------------------------------- repeated calls

  /** A registration whose callback once returned 0 is gone, and was not called after that. */
  ghost predicate Spent(t: Table, i: nat)
    requires i < |t.log|
  {
    && (forall k :: 0 <= k < |t.slots| && Live(t.slots[k]) ==> t.slots[k].id != t.log[i].slot.id)
    && (forall j :: i < j < |t.log| ==> t.log[j].slot.id != t.log[i].slot.id)
  }

  ghost predicate ZeroEnds(t: Table) {
    forall i :: 0 <= i < |t.log| && t.log[i].delay == 0 ==> Spent(t, i)
  }

  lemma SlotZeroEnds(t: Table, now: nat, i: nat, delay: Word32)
    requires i < |t.slots| && Exact(t) && ZeroEnds(t)
    ensures ZeroEnds(RunSlot(t, now, i, delay))
  {
    var t' := RunSlot(t, now, i, delay);
    if Fires(t.slots[i], now) {
      forall k | 0 <= k < |t'.log| && t'.log[k].delay == 0 ensures Spent(t', k) {
        if k < |t.log| {
          assert Spent(t, k) && t'.log[k] == t.log[k];
        }
      }
    }
  }

  lemma PassZeroEnds(t: Table, now: nat, delays: seq<Word32>)
    requires |delays| == |t.slots| && Exact(t) && ZeroEnds(t)
    ensures ZeroEnds(RunSlots(t, now, delays, |delays|))
  {
    forall u: Table, i | |u.slots| == |delays| && 0 <= i < |delays| && Exact(u) && ZeroEnds(u)
      ensures Exact(RunSlot(u, now, i, delays[i])) && ZeroEnds(RunSlot(u, now, i, delays[i]))
    {
      RunSlotExact(u, now, i, delays[i]);
      SlotZeroEnds(u, now, i, delays[i]);
    }
    PassKeeps((u: Table) => Exact(u) && ZeroEnds(u), t, now, delays, |delays|);
  }

  lemma DoZeroEnds(t: Table, step: Step)
    requires Allowed(step.op, |t.slots|) && Exact(t) && ZeroEnds(t)
    ensures ZeroEnds(Do(t, step))
  {
    if step.op.Task? {
      CheckedZeroEnds(t, Reading(step.at));
      PassZeroEnds(t.(lastCheck := Reading(step.at)), step.at, step.op.delays);
    } else {
      NewIsNotSpent(t, step);
    }
  }

  lemma CheckedZeroEnds(t: Table, reading: Word32)
    requires Exact(t) && ZeroEnds(t)
    ensures Exact(t.(lastCheck := reading)) && ZeroEnds(t.(lastCheck := reading))
  {
    var t' := t.(lastCheck := reading);
    forall i | 0 <= i < |t.log| && t.log[i].delay == 0 ensures Spent(t', i) {
      assert Spent(t, i);
    }
  }

  /** A new registration is none that has been called. */
  lemma NewIsNotSpent(t: Table, step: Step)
    requires Allowed(step.op, |t.slots|) && Exact(t) && ZeroEnds(t) && !step.op.Task?
    ensures ZeroEnds(Do(t, step))
  {
    var t' := Do(t, step);
    assert t'.log == t.log;
    forall i | 0 <= i < |t.log| && t.log[i].delay == 0 ensures Spent(t', i) {
      assert Spent(t, i) && t.log[i].slot.id < t.next;
    }
  }

  /**
   Over every run: a registration is called again only after a call that asked for it, and
   one whose last call returned 0 is live no more.
   */
  lemma {:induction false} RepeatsOnlyIfAsked(slots: nat, steps: seq<Step>)
    requires IsRun(slots, steps) && slots <= 0x100 - 2
    ensures var t := After(slots, steps);
      && (forall i, j :: 0 <= i < j < |t.log| && t.log[i].slot.id == t.log[j].slot.id ==> t.log[i].delay > 0)
      && (forall i, k :: 0 <= i < |t.log| && 0 <= k < |t.slots| && t.log[i].delay == 0 && Live(t.slots[k]) ==>
            t.slots[k].id != t.log[i].slot.id)
      && ZeroEnds(t)
  {
    if steps != [] {
      var p := steps[..|steps| - 1];
      RepeatsOnlyIfAsked(slots, p);
      RunIsExact(slots, p);
      DoZeroEnds(After(slots, p), steps[|steps| - 1]);
    }
    SpentMeans(After(slots, steps));
  }

  lemma SpentMeans(t: Table)
    requires ZeroEnds(t)
    ensures forall i, j :: 0 <= i < j < |t.log| && t.log[i].slot.id == t.log[j].slot.id ==> t.log[i].delay > 0
    ensures forall i, k :: 0 <= i < |t.log| && 0 <= k < |t.slots| && t.log[i].delay == 0 && Live(t.slots[k]) ==>
      t.slots[k].id != t.log[i].slot.id
  {
  }

  // --------------------------------------------------------------- who asked for a call

  /** Step `k` registered the entry or extended it, to be first called at `slot.born`. */
  predicate AskedBy(steps: seq<Step>, slot: Slot, k: nat) {
    k < |steps| &&
    match steps[k].op
    case Defer(delay, callback) => slot.born == steps[k].at + delay && slot.callback == callback
    case Extend(token, delay) => slot.born == steps[k].at + delay && slot.token == token
    case _ => false
  }

  ghost predicate AskedFor(steps: seq<Step>, slot: Slot) { exists k :: AskedBy(steps, slot, k) }

  /** Everything live, and everything called, was asked for. */
  ghost predicate AllAskedFor(steps: seq<Step>, t: Table) {
    && (forall i :: 0 <= i < |t.slots| && Live(t.slots[i]) ==> AskedFor(steps, t.slots[i]))
    && (forall i :: 0 <= i < |t.log| ==> AskedFor(steps, t.log[i].slot))
  }

  lemma LaterStepsAsk(steps: seq<Step>, step: Step, slot: Slot)
    requires AskedFor(steps, slot)
    ensures AskedFor(steps + [step], slot)
  {
    var k :| AskedBy(steps, slot, k);
    assert AskedBy(steps + [step], slot, k);
  }

  lemma SlotAskedFor(steps: seq<Step>, t: Table, now: nat, i: nat, delay: Word32)
    requires i < |t.slots| && AllAskedFor(steps, t)
    ensures AllAskedFor(steps, RunSlot(t, now, i, delay))
  {
    var t' := RunSlot(t, now, i, delay);
    if Fires(t.slots[i], now) && delay > 0 {
      var k :| AskedBy(steps, t.slots[i], k);
      assert AskedBy(steps, t'.slots[i], k);
    }
  }

  lemma PassAskedFor(steps: seq<Step>, t: Table, now: nat, delays: seq<Word32>)
    requires |delays| == |t.slots| && AllAskedFor(steps, t)
    ensures AllAskedFor(steps, RunSlots(t, now, delays, |delays|))
  {
    forall u: Table, i | |u.slots| == |delays| && 0 <= i < |delays| && AllAskedFor(steps, u)
      ensures AllAskedFor(steps, RunSlot(u, now, i, delays[i]))
    {
      SlotAskedFor(steps, u, now, i, delays[i]);
    }
    PassKeeps((u: Table) => AllAskedFor(steps, u), t, now, delays, |delays|);
  }

  lemma StillAskedFor(steps: seq<Step>, t: Table, step: Step)
    requires AllAskedFor(steps, t)
    ensures AllAskedFor(steps + [step], t)
  {
    forall slot | AskedFor(steps, slot) ensures AskedFor(steps + [step], slot) {
      LaterStepsAsk(steps, step, slot);
    }
  }

  lemma DoAskedFor(steps: seq<Step>, t: Table, step: Step)
    requires Allowed(step.op, |t.slots|) && AllAskedFor(steps, t)
    ensures AllAskedFor(steps + [step], Do(t, step))
  {
    StillAskedFor(steps, t, step);
    match step.op {
      case Task(delays) => PassAskedFor(steps + [step], t.(lastCheck := Reading(step.at)), step.at, delays);
      case Cancel(token) =>
      case Defer(delay, callback) => ChangedIsAskedFor(steps, t, step, FindToken(t.slots, INVALID_TOKEN, 0));
      case Extend(token, delay) => ChangedIsAskedFor(steps, t, step, FindToken(t.slots, token, 0));
    }
  }

  lemma ChangedIsAskedFor(steps: seq<Step>, t: Table, step: Step, i: nat)
    requires AllAskedFor(steps + [step], t) && (step.op.Defer? || step.op.Extend?)
    requires i == FindToken(t.slots, if step.op.Defer? then INVALID_TOKEN else step.op.token, 0)
    ensures AllAskedFor(steps + [step], Do(t, step))
  {
    NewAskedFor(steps, t, step, i);
    var t' := Do(t, step);
    assert i < |t.slots| && t'.slots[i] != t.slots[i] ==> AskedFor(steps + [step], t'.slots[i]);
  }

  lemma NewAskedFor(steps: seq<Step>, t: Table, step: Step, i: nat)
    requires step.op.Defer? || step.op.Extend?
    requires i == FindToken(t.slots, if step.op.Defer? then INVALID_TOKEN else step.op.token, 0)
    ensures var t' := Do(t, step);
      && t'.log == t.log && (forall j :: 0 <= j < |t.slots| && j != i ==> t'.slots[j] == t.slots[j])
      && (i < |t.slots| && t'.slots[i] != t.slots[i] ==> AskedBy(steps + [step], t'.slots[i], |steps|))
  {
    assert (steps + [step])[|steps|] == step;
  }

  /**
   Over every run, each call was asked for: some step registered that callback, or extended
   that entry, with the delay that leads to the entry's first trigger time; and the call
   was made for that time plus the delays its callback had asked for before.
   */
  lemma {:induction false} EveryCallWasAskedFor(slots: nat, steps: seq<Step>)
    requires IsRun(slots, steps)
    ensures AllAskedFor(steps, After(slots, steps))
  {
    if steps != [] {
      var p := steps[..|steps| - 1];
      EveryCallWasAskedFor(slots, p);
      DoAskedFor(p, After(slots, p), steps[|steps| - 1]);
      assert p + [steps[|steps| - 1]] == steps;
    }
  }
}
