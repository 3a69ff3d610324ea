/** Deferred execution (quantum/deferred_exec.c): wrapping tokens and wrapping time. */
module DeferredExec {
  import opened Words

  const INVALID_TOKEN: Byte := 0
  const HALF: nat := 0x8000_0000
  const FULL: nat := 0x1_0000_0000

  /**
   A table entry. The C fields are token, trigger time and callback (a number, 0 being
   NULL; the callback argument goes with it). The rest only serves the proofs: the
   registration `id`, the true time `born` at which it was first due, and the true
   time `due` at which it is due next.
   */
  datatype Slot = Slot(token: Byte, trigger: Word32, callback: nat, id: nat, born: nat, due: nat)

  const FREE := Slot(INVALID_TOKEN, 0, 0, 0, 0, 0)

  /** One call of a callback: the entry it was made for, when, and the delay it asked for. */
  datatype Call = Call(slot: Slot, at: nat, delay: Word32)

  /** The statics of deferred_exec.c, all calls made so far, and the next registration number. */
  datatype Table = Table(slots: seq<Slot>, current: Byte, lastCheck: Word32, log: seq<Call>, next: nat)

  /** The reading of a 32-bit timer at true time t. */
  function Reading(t: nat): Word32 { t % FULL }

  /** `(int32_t)TIMER_DIFF_32(a, b)` */
  function SignedDiff(a: Word32, b: Word32): int {
    var d := (a - b) % FULL;
    if d < HALF then d else d - FULL
  }

  // --------------------------------------------------------------------- tokens

  predicate Usable(es: seq<Slot>, token: Byte) {
    token != INVALID_TOKEN && forall i :: 0 <= i < |es| ==> es[i].token != token
  }

  /** Live tokens are pairwise distinct. */
  ghost predicate DistinctTokens(es: seq<Slot>) {
    forall i, j :: 0 <= i < j < |es| && es[i].token != INVALID_TOKEN ==> es[i].token != es[j].token
  }

  /** The token `n` increments after `current`, in 8 bits. */
  function Later(current: Byte, n: nat): Byte { (current + n) % 0x100 }

  function Tokens(es: seq<Slot>): set<Byte> {
    if es == [] then {} else Tokens(es[1..]) + {es[0].token}
  }

  lemma {:induction false} TokensBounded(es: seq<Slot>)
    ensures |Tokens(es)| <= |es|
    ensures forall t :: t in Tokens(es) <==> exists i :: 0 <= i < |es| && es[i].token == t
  {
    if es != [] {
      TokensBounded(es[1..]);
      forall t ensures t in Tokens(es) <==> exists i :: 0 <= i < |es| && es[i].token == t {
        if t in Tokens(es[1..]) {
          var i :| 0 <= i < |es[1..]| && es[1..][i].token == t;
          assert es[i + 1].token == t;
        }
        if i :| 0 <= i < |es| && es[i].token == t {
          if i > 0 { assert es[1..][i - 1].token == t; }
        }
      }
    }
  }

  /** n different tokens in a row. */
  function Row(current: Byte, n: nat): (ts: set<Byte>)
    requires n <= 0x100
  {
    set i | 1 <= i <= n :: Later(current, i)
  }

  lemma Distinct(current: Byte, i: nat, n: nat)
    requires i < n < i + 0x100
    ensures Later(current, i) != Later(current, n)
  {
  }

  lemma {:induction false} RowSize(current: Byte, n: nat)
    requires n <= 0x100
    ensures |Row(current, n)| == n
  {
    if n > 0 {
      RowSize(current, n - 1);
      assert Later(current, n) !in Row(current, n - 1) by {
        forall i | 1 <= i < n ensures Later(current, i) != Later(current, n) {
          Distinct(current, i, n);
        }
      }
      assert Row(current, n) == Row(current, n - 1) + {Later(current, n)};
    }
  }

  /** Pigeonhole: among |es| + 2 tokens in a row at least one is usable. */
  lemma SomeTokenUsable(es: seq<Slot>, current: Byte)
    requires |es| + 2 <= 0x100
    ensures exists n :: 1 <= n <= |es| + 2 && Usable(es, Later(current, n))
  {
    if forall n :: 1 <= n <= |es| + 2 ==> !Usable(es, Later(current, n)) {
      var row := Row(current, |es| + 2);
      RowSize(current, |es| + 2);
      TokensBounded(es);
      var taken := Tokens(es) + {INVALID_TOKEN};
      assert row <= taken;
      SubsetSize(row, taken);
    }
  }

  lemma SubsetSize(a: set<Byte>, b: set<Byte>)
    requires a <= b
    ensures |a| <= |b|
  {
    assert b == a + (b - a);
  }

  /** How many increments lead to the first usable token, from the n-th on; 0 if none does. */
  function FirstUsable(es: seq<Slot>, current: Byte, n: nat): nat
    requires 1 <= n <= 0x101
    decreases 0x101 - n
  {
    if n == 0x101 then 0
    else if Usable(es, Later(current, n)) then n
    else FirstUsable(es, current, n + 1)
  }

  lemma {:induction false} FirstUsableFound(es: seq<Slot>, current: Byte, n: nat)
    requires 1 <= n && |es| + 2 <= 0x100
    requires exists m :: n <= m <= |es| + 2 && Usable(es, Later(current, m))
    ensures var r := FirstUsable(es, current, n);
      n <= r <= |es| + 2 && Usable(es, Later(current, r)) && forall m :: n <= m < r ==> !Usable(es, Later(current, m))
    decreases 0x101 - n
  {
    if !Usable(es, Later(current, n)) {
      FirstUsableFound(es, current, n + 1);
    }
  }

  /** The wrapping search always ends at the first usable token, before it has gone round. */
  lemma AllocationSucceeds(es: seq<Slot>, current: Byte)
    requires |es| + 2 <= 0x100
    ensures var n := FirstUsable(es, current, 1);
      1 <= n <= |es| + 2 && Usable(es, Later(current, n)) && forall m :: 1 <= m < n ==> !Usable(es, Later(current, m))
  {
    SomeTokenUsable(es, current);
    FirstUsableFound(es, current, 1);
  }

  /** Past an unusable token the search goes on, and has not come round yet. */
  lemma SkipUnusable(es: seq<Slot>, current: Byte, n: nat)
    requires 1 <= n < 0x100 && !Usable(es, Later(current, n))
    ensures FirstUsable(es, current, n) == FirstUsable(es, current, n + 1)
    ensures FirstUsable(es, current, n) > 0 ==> n < FirstUsable(es, current, n)
  {
    FirstUsableFrom(es, current, n + 1);
  }

  lemma StepsApart(current: Byte, n: nat)
    requires 1 <= n < 0x100
    ensures Later(current, n + 1) != Later(current, 1) && Later(current, n + 1) == (Later(current, n) + 1) % 0x100
  {
  }

  lemma {:induction false} FirstUsableFrom(es: seq<Slot>, current: Byte, n: nat)
    requires 1 <= n <= 0x101
    ensures FirstUsable(es, current, n) > 0 ==> FirstUsable(es, current, n) >= n
    decreases 0x101 - n
  {
    if n <= 0x100 {
      FirstUsableFrom(es, current, n + 1);
    }
  }

  lemma SearchStep(es: seq<Slot>, current: Byte, n: nat, goal: nat)
    requires 1 <= n <= goal < 0x101 && goal == FirstUsable(es, current, n) && !Usable(es, Later(current, n))
    requires Usable(es, Later(current, goal))
    ensures n < goal && goal == FirstUsable(es, current, n + 1)
    ensures Later(current, n + 1) == (Later(current, n) + 1) % 0x100 && Later(current, n + 1) != Later(current, 1)
  {
    if n < 0x100 {
      SkipUnusable(es, current, n);
      StepsApart(current, n);
    }
  }

  // ----------------------------------------------------------------- operations

  function FindToken(es: seq<Slot>, token: Byte, i: nat): (r: nat)
    requires i <= |es|
    ensures i <= r <= |es|
    ensures forall j :: i <= j < r ==> es[j].token != token
    ensures r < |es| ==> es[r].token == token
    decreases |es| - i
  {
    if i == |es| || es[i].token == token then i else FindToken(es, token, i + 1)
  }

  /** The table with a new entry in slot i. */
  function Registered(t: Table, now: nat, delay: Word32, callback: nat, i: nat, token: Byte): Table
    requires i < |t.slots|
  {
    var slot := Slot(token, (Reading(now) + delay) % FULL, callback, t.next, now + delay, now + delay);
    t.(slots := t.slots[i := slot], current := token, next := t.next + 1)
  }

  /** defer_exec at true time `now`. */
  function DeferF(t: Table, now: nat, delay: Word32, callback: nat): (Table, Byte) {
    var i := FindToken(t.slots, INVALID_TOKEN, 0);
    if delay == 0 || callback == 0 || i == |t.slots| then (t, INVALID_TOKEN)
    else
      var n := FirstUsable(t.slots, t.current, 1);
      var token := Later(t.current, if n == 0 then 0x101 else n);
      if n == 0 then (t.(current := token), INVALID_TOKEN)
      else (Registered(t, now, delay, callback, i, token), token)
  }

  lemma Registers(t: Table, now: nat, delay: Word32, callback: nat, token: Byte)
    requires delay != 0 && callback != 0 && FindToken(t.slots, INVALID_TOKEN, 0) < |t.slots|
    requires FirstUsable(t.slots, t.current, 1) > 0 && token == Later(t.current, FirstUsable(t.slots, t.current, 1))
    ensures DeferF(t, now, delay, callback)
      == (Registered(t, now, delay, callback, FindToken(t.slots, INVALID_TOKEN, 0), token), token)
  {
  }

  /** extend_deferred_exec: the entry starts over as a new registration. */
  function ExtendF(t: Table, now: nat, token: Byte, delay: Word32): (Table, bool) {
    var i := FindToken(t.slots, token, 0);
    if delay == 0 || token == INVALID_TOKEN || i == |t.slots| then (t, false)
    else
      var slot := t.slots[i].(trigger := (Reading(now) + delay) % FULL, id := t.next, born := now + delay, due := now + delay);
      (t.(slots := t.slots[i := slot], next := t.next + 1), true)
  }

  /** cancel_deferred_exec */
  function CancelF(t: Table, token: Byte): (Table, bool) {
    var i := FindToken(t.slots, token, 0);
    if token == INVALID_TOKEN || i == |t.slots| then (t, false)
    else (t.(slots := t.slots[i := FREE]), true)
  }

  predicate Fires(slot: Slot, now: nat) {
    slot.token != INVALID_TOKEN && SignedDiff(slot.trigger, Reading(now)) <= 0
  }

  /** One entry's turn in deferred_exec_task; `delay` is what its callback returns if called. */
  function RunSlot(t: Table, now: nat, i: nat, delay: Word32): Table
    requires i < |t.slots|
  {
    var slot := t.slots[i];
    if !Fires(slot, now) then t
    else
      var slot' := if delay > 0 then slot.(trigger := (slot.trigger + delay) % FULL, due := slot.due + delay) else FREE;
      t.(slots := t.slots[i := slot'], log := t.log + [Call(slot, now, delay)])
  }

  /** The turns of the first n entries. */
  function RunSlots(t: Table, now: nat, delays: seq<Word32>, n: nat): (t': Table)
    requires n <= |t.slots| == |delays|
    ensures |t'.slots| == |t.slots| && t'.current == t.current && t'.next == t.next && t'.lastCheck == t.lastCheck
  {
    if n == 0 then t else RunSlot(RunSlots(t, now, delays, n - 1), now, n - 1, delays[n - 1])
  }

  /** deferred_exec_task, throttled to one pass per timer tick. */
  function TaskF(t: Table, now: nat, delays: seq<Word32>): Table
    requires |delays| == |t.slots|
  {
    if SignedDiff(Reading(now), t.lastCheck) > 0 then
      RunSlots(t.(lastCheck := Reading(now)), now, delays, |t.slots|)
    else t
  }

  // -------------------------------------------------------------- the imperative form

  /** An entry as the C table holds it. */
  datatype Executor = Executor(token: Byte, trigger: Word32, callback: nat)

  function Raw(slot: Slot): Executor { Executor(slot.token, slot.trigger, slot.callback) }

  class Scheduler {
    const executors: array<Executor>
    var currentToken: Byte
    var lastCheck: Word32
    /** The same table with the true times, and the calls made. */
    ghost var table: Table

    ghost predicate Valid()
      reads this, executors
    {
      SlotsMatch() && table.current == currentToken && table.lastCheck == lastCheck
    }

    ghost predicate SlotsMatch()
      reads this`table, executors
    {
      && executors.Length <= 0x100 - 2 && |table.slots| == executors.Length
      && forall i :: 0 <= i < executors.Length ==> executors[i] == Raw(table.slots[i])
    }

    constructor (maxExecutors: nat)
      requires maxExecutors <= 0x100 - 2
      ensures Valid() && fresh(executors)
      ensures table == Table(seq(maxExecutors, i => FREE), 0, 0, [], 0)
    {
      executors := new Executor[maxExecutors](i => Raw(FREE));
      currentToken, lastCheck := 0, 0;
      table := Table(seq(maxExecutors, i => FREE), 0, 0, [], 0);
    }

    method TokenCanBeUsed(token: Byte) returns (ok: bool)
      requires SlotsMatch()
      ensures ok == Usable(table.slots, token)
    {
      if token == INVALID_TOKEN {
        return false;
      }
      for i := 0 to executors.Length
        invariant forall j :: 0 <= j < i ==> table.slots[j].token != token
      {
        if executors[i].token == token {
          return false;
        }
      }
      return true;
    }

    /** The wrapping search for the next free token; with fewer than 255 entries it never fails. */
    method AllocateToken() returns (token: Byte)
      requires SlotsMatch()
      modifies this`currentToken
      ensures token == currentToken
      ensures var n := FirstUsable(table.slots, old(currentToken), 1);
        n > 0 && token == Later(old(currentToken), n) && Usable(table.slots, token)
    {
      ghost var es, start, n := table.slots, currentToken, 1;
      ghost var goal := FirstUsable(es, start, 1);
      AllocationSucceeds(es, start);
      currentToken := (currentToken + 1) % 0x100;
      var first := currentToken;
      var usable := TokenCanBeUsed(currentToken);
      while !usable
        invariant 1 <= n <= goal && currentToken == Later(start, n)
        invariant usable == Usable(es, currentToken)
        invariant goal == FirstUsable(es, start, n)
        decreases goal - n
      {
        SearchStep(es, start, n, goal);
        currentToken := (currentToken + 1) % 0x100;
        n := n + 1;
        if currentToken == first {
          return INVALID_TOKEN;
        }
        usable := TokenCanBeUsed(currentToken);
      }
      return currentToken;
    }

    /** defer_exec, called at true time `now`. */
    method DeferExec(delay: Word32, callback: nat, ghost now: nat, reading: Word32) returns (token: Byte)
      requires Valid() && reading == Reading(now)
      modifies this`currentToken, this`table, executors
      ensures Valid() && (table, token) == DeferF(old(table), now, delay, callback)
    {
      if delay == 0 || callback == 0 {
        return INVALID_TOKEN;
      }
      var i := FindEntry(INVALID_TOKEN);
      if i == executors.Length {
        return INVALID_TOKEN;
      }
      ghost var t := table;
      token := AllocateToken();
      if token == INVALID_TOKEN {
        return INVALID_TOKEN;
      }
      WriteEntry(i, delay, callback, now, reading);
      Registers(t, now, delay, callback, currentToken);
      return currentToken;
    }

    /** Sets up the table entry under the current token. */
    method WriteEntry(i: nat, delay: Word32, callback: nat, ghost now: nat, reading: Word32)
      requires SlotsMatch() && i < executors.Length && reading == Reading(now)
      modifies this`table, executors
      ensures SlotsMatch() && table == Registered(old(table), now, delay, callback, i, currentToken)
    {
      executors[i] := Executor(currentToken, (reading + delay) % FULL, callback);
      table := Registered(table, now, delay, callback, i, currentToken);
    }

    /** The search loop that all table operations share. */
    method FindEntry(token: Byte) returns (i: nat)
      requires Valid()
      ensures i == FindToken(table.slots, token, 0)
    {
      i := 0;
      while i < executors.Length && executors[i].token != token
        invariant i <= executors.Length
        invariant FindToken(table.slots, token, i) == FindToken(table.slots, token, 0)
      {
        i := i + 1;
      }
    }

    method ExtendDeferredExec(token: Byte, delay: Word32, ghost now: nat, reading: Word32) returns (found: bool)
      requires Valid() && reading == Reading(now)
      modifies this`table, executors
      ensures Valid() && (table, found) == ExtendF(old(table), now, token, delay)
    {
      if delay == 0 || token == INVALID_TOKEN {
        return false;
      }
      var i := FindEntry(token);
      if i == executors.Length {
        return false;
      }
      executors[i] := executors[i].(trigger := (reading + delay) % FULL);
      table := ExtendF(table, now, token, delay).0;
      return true;
    }

    method CancelDeferredExec(token: Byte) returns (found: bool)
      requires Valid()
      modifies this`table, executors
      ensures Valid() && (table, found) == CancelF(old(table), token)
    {
      if token == INVALID_TOKEN {
        return false;
      }
      var i := FindEntry(token);
      if i == executors.Length {
        return false;
      }
      executors[i] := Executor(INVALID_TOKEN, 0, 0);
      table := CancelF(table, token).0;
      return true;
    }

    /** deferred_exec_task; `delays[i]` is what the callback of entry i returns if it is called. */
    method DeferredExecTask(delays: seq<Word32>, ghost now: nat, reading: Word32)
      requires Valid() && reading == Reading(now) && |delays| == executors.Length
      modifies this, executors
      ensures Valid() && table == TaskF(old(table), now, delays)
    {
      if SignedDiff(reading, lastCheck) > 0 {
        lastCheck := reading;
        table := table.(lastCheck := reading);
        ghost var t := table;
        for i := 0 to executors.Length
          invariant Valid() && table == RunSlots(t, now, delays, i)
        {
          var entry := executors[i];
          ghost var slot := table.slots[i];
          if entry.token != INVALID_TOKEN && SignedDiff(entry.trigger, reading) <= 0 {
            var delay := delays[i];
            if delay > 0 {
              executors[i] := entry.(trigger := (entry.trigger + delay) % FULL);
            } else {
              executors[i] := Executor(INVALID_TOKEN, 0, 0);
            }
          }
          table := RunSlot(table, now, i, delays[i]);
        }
      }
    }
  }

  // ---------------------------------------------------------- no drift, whatever delays

  /** The sum of the delays that registration `id` has asked for so far. */
  function Asked(log: seq<Call>, id: nat): nat {
    if log == [] then 0
    else
      var last := log[|log| - 1];
      Asked(log[..|log| - 1], id) + if last.slot.id == id then last.delay else 0
  }

  predicate Live(slot: Slot) { slot.token != INVALID_TOKEN }

  /** A live entry's own timing: its first trigger plus all it has asked for since. */
  ghost predicate NoDrift(slot: Slot, log: seq<Call>, next: nat) {
    && slot.trigger == Reading(slot.due) && slot.due == slot.born + Asked(log, slot.id)
    && slot.id < next && slot.callback != 0
  }

  /** A call that was made, with the first trigger plus all delays asked for before. */
  ghost predicate MadeWithoutDrift(log: seq<Call>, i: nat)
    requires i < |log|
  {
    var c := log[i];
    && c.slot.due == c.slot.born + Asked(log[..i], c.slot.id)
    && c.slot.trigger == Reading(c.slot.born + Asked(log[..i], c.slot.id))
  }

  /** Live registrations are pairwise distinct. */
  ghost predicate DistinctIds(es: seq<Slot>) {
    forall i, j :: 0 <= i < j < |es| && Live(es[i]) && Live(es[j]) ==> es[i].id != es[j].id
  }

  /** Live tokens and registrations are distinct, and nothing has drifted. */
  ghost predicate Exact(t: Table) {
    && |t.slots| <= 0x100 - 2
    && DistinctTokens(t.slots)
    && (forall i :: 0 <= i < |t.slots| && Live(t.slots[i]) ==> NoDrift(t.slots[i], t.log, t.next))
    && DistinctIds(t.slots)
    && (forall i :: 0 <= i < |t.log| ==> MadeWithoutDrift(t.log, i) && t.log[i].slot.id < t.next)
  }

  lemma {:induction false} UnknownAskedNothing(log: seq<Call>, id: nat)
    requires forall i :: 0 <= i < |log| ==> log[i].slot.id < id
    ensures Asked(log, id) == 0
  {
    if log != [] {
      UnknownAskedNothing(log[..|log| - 1], id);
    }
  }

  lemma ReadingPlus(now: nat, delay: Word32)
    ensures (Reading(now) + delay) % FULL == Reading(now + delay)
  {
  }

  lemma ReadingDiff(a: nat, b: nat)
    ensures (Reading(a) - Reading(b)) % FULL == (a - b) % FULL
  {
  }

  /** A new registration in slot i, under a token no other slot has. */
  lemma RegisterExact(t: Table, i: nat, slot: Slot, current: Byte)
    requires Exact(t) && i < |t.slots| && slot.id == t.next && slot.born == slot.due
    requires slot.trigger == Reading(slot.due) && slot.callback != 0
    requires forall j :: 0 <= j < |t.slots| && j != i ==> t.slots[j].token != slot.token
    ensures Exact(t.(slots := t.slots[i := slot], current := current, next := t.next + 1))
  {
    UnknownAskedNothing(t.log, t.next);
  }

  lemma DeferExact(t: Table, now: nat, delay: Word32, callback: nat)
    requires Exact(t)
    ensures Exact(DeferF(t, now, delay, callback).0)
  {
    var i := FindToken(t.slots, INVALID_TOKEN, 0);
    if delay != 0 && callback != 0 && i < |t.slots| {
      AllocationSucceeds(t.slots, t.current);
      ReadingPlus(now, delay);
      var token := Later(t.current, FirstUsable(t.slots, t.current, 1));
      RegisterExact(t, i, Slot(token, Reading(now + delay), callback, t.next, now + delay, now + delay), token);
    }
  }

  lemma ExtendExact(t: Table, now: nat, token: Byte, delay: Word32)
    requires Exact(t)
    ensures Exact(ExtendF(t, now, token, delay).0)
  {
    var i := FindToken(t.slots, token, 0);
    if delay != 0 && token != INVALID_TOKEN && i < |t.slots| {
      ReadingPlus(now, delay);
      var slot := t.slots[i].(trigger := Reading(now + delay), id := t.next, born := now + delay, due := now + delay);
      RegisterExact(t, i, slot, t.current);
    }
  }

  lemma CancelExact(t: Table, token: Byte)
    requires Exact(t)
    ensures Exact(CancelF(t, token).0)
  {
  }

  /** What a turn leaves of the entry it called. */
  function Called(slot: Slot, delay: Word32): Slot {
    if delay > 0 then slot.(trigger := (slot.trigger + delay) % FULL, due := slot.due + delay) else FREE
  }

  lemma StaysDistinct(es: seq<Slot>, i: nat, slot: Slot)
    requires DistinctTokens(es) && DistinctIds(es) && i < |es| && Live(es[i])
    requires slot == FREE || (slot.token == es[i].token && slot.id == es[i].id)
    ensures DistinctTokens(es[i := slot]) && DistinctIds(es[i := slot])
  {
  }

  lemma CalledNoDrift(slot: Slot, log: seq<Call>, next: nat, now: nat, delay: Word32)
    requires NoDrift(slot, log, next)
    ensures Live(Called(slot, delay)) ==> NoDrift(Called(slot, delay), log + [Call(slot, now, delay)], next)
  {
    ReadingPlus(slot.due, delay);
    AskedOneMore(log, Call(slot, now, delay), slot.id);
  }

  lemma OtherNoDrift(slot: Slot, log: seq<Call>, next: nat, c: Call)
    requires NoDrift(slot, log, next) && c.slot.id != slot.id
    ensures NoDrift(slot, log + [c], next)
  {
    AskedOneMore(log, c, slot.id);
  }

  lemma TurnExact(t: Table, now: nat, i: nat, delay: Word32)
    requires Exact(t) && i < |t.slots| && Live(t.slots[i])
    ensures Exact(t.(slots := t.slots[i := Called(t.slots[i], delay)], log := t.log + [Call(t.slots[i], now, delay)]))
  {
    var slot := t.slots[i];
    var c, slots := Call(slot, now, delay), t.slots[i := Called(slot, delay)];
    LogOneMore(t.log, c);
    StaysDistinct(t.slots, i, Called(slot, delay));
    forall j | 0 <= j < |slots| && Live(slots[j])
      ensures NoDrift(slots[j], t.log + [c], t.next)
    {
      if j == i {
        CalledNoDrift(slot, t.log, t.next, now, delay);
      } else {
        OtherNoDrift(t.slots[j], t.log, t.next, c);
      }
    }
  }

  lemma RunSlotExact(t: Table, now: nat, i: nat, delay: Word32)
    requires Exact(t) && i < |t.slots|
    ensures Exact(RunSlot(t, now, i, delay))
  {
    if Fires(t.slots[i], now) {
      TurnExact(t, now, i, delay);
    }
  }

  lemma AskedOneMore(log: seq<Call>, c: Call, id: nat)
    ensures Asked(log + [c], id) == Asked(log, id) + if c.slot.id == id then c.delay else 0
  {
    assert (log + [c])[..|log|] == log;
  }

  lemma LogOneMore(log: seq<Call>, c: Call)
    requires forall i :: 0 <= i < |log| ==> MadeWithoutDrift(log, i)
    requires c.slot.due == c.slot.born + Asked(log, c.slot.id) && c.slot.trigger == Reading(c.slot.due)
    ensures forall i :: 0 <= i < |log + [c]| ==> MadeWithoutDrift(log + [c], i)
  {
    var all := log + [c];
    forall i | 0 <= i < |all| ensures MadeWithoutDrift(all, i) {
      if i < |log| {
        assert MadeWithoutDrift(log, i);
        assert all[..i] == log[..i];
      } else {
        assert all[..i] == log;
      }
    }
  }

  /** What every turn keeps, a whole pass keeps. */
  lemma {:induction false} PassKeeps(keeps: Table -> bool, t: Table, now: nat, delays: seq<Word32>, n: nat)
    requires n <= |t.slots| == |delays| && keeps(t)
    requires forall u: Table, i :: |u.slots| == |delays| && 0 <= i < |delays| && keeps(u) ==> keeps(RunSlot(u, now, i, delays[i]))
    ensures keeps(RunSlots(t, now, delays, n))
  {
    if n > 0 {
      PassKeeps(keeps, t, now, delays, n - 1);
    }
  }

  lemma PassExact(t: Table, now: nat, delays: seq<Word32>)
    requires Exact(t) && |delays| == |t.slots|
    ensures Exact(RunSlots(t, now, delays, |t.slots|))
  {
    forall u: Table, i | |u.slots| == |delays| && 0 <= i < |delays| && Exact(u)
      ensures Exact(RunSlot(u, now, i, delays[i]))
    {
      RunSlotExact(u, now, i, delays[i]);
    }
    PassKeeps((u: Table) => Exact(u), t, now, delays, |t.slots|);
  }

  // ------------------------------------------------------------------------ runs

  datatype Op =
    | Defer(delay: Word32, callback: nat)
    | Extend(token: Byte, delay: Word32)
    | Cancel(token: Byte)
    | Task(delays: seq<Word32>)

  /** An operation and the true time at which it happens. */
  datatype Step = Step(at: nat, op: Op)

  predicate Allowed(op: Op, slots: nat) { op.Task? ==> |op.delays| == slots }

  function Do(t: Table, step: Step): (t': Table)
    requires Allowed(step.op, |t.slots|)
    ensures |t'.slots| == |t.slots|
  {
    match step.op
    case Defer(delay, callback) => DeferF(t, step.at, delay, callback).0
    case Extend(token, delay) => ExtendF(t, step.at, token, delay).0
    case Cancel(token) => CancelF(t, token).0
    case Task(delays) => TaskF(t, step.at, delays)
  }

  /** Operations on a table of `slots` entries, by a clock that does not run backwards. */
  predicate IsRun(slots: nat, steps: seq<Step>) {
    && (forall i :: 0 <= i < |steps| ==> Allowed(steps[i].op, slots))
    && (forall i, j :: 0 <= i < j < |steps| ==> steps[i].at <= steps[j].at)
  }

  function After(slots: nat, steps: seq<Step>): (t: Table)
    requires IsRun(slots, steps)
    ensures |t.slots| == slots
  {
    if steps == [] then Table(seq(slots, i => FREE), 0, 0, [], 0)
    else Do(After(slots, steps[..|steps| - 1]), steps[|steps| - 1])
  }

  /**
   Over every run, whatever the delays: live tokens are non-zero and distinct, and every
   callback was called with its first trigger time plus the sum of the delays it had
   asked for before, however late the task ran.
   */
  lemma {:induction false} RunIsExact(slots: nat, steps: seq<Step>)
    requires IsRun(slots, steps) && slots <= 0x100 - 2
    ensures Exact(After(slots, steps))
  {
    if steps != [] {
      var p, last := steps[..|steps| - 1], steps[|steps| - 1];
      var t := After(slots, p);
      RunIsExact(slots, p);
      match last.op {
        case Defer(delay, callback) => DeferExact(t, last.at, delay, callback);
        case Extend(token, delay) => ExtendExact(t, last.at, token, delay);
        case Cancel(token) => CancelExact(t, token);
        case Task(delays) =>
          var t1 := t.(lastCheck := Reading(last.at));
          assert Exact(t1);
          PassExact(t1, last.at, delays);
      }
    }
  }

  // ----------------------------------------------------------- who is called, exactly

  /** The 32-bit comparison in true times: it holds too early from 2^31 ahead on, and fails past 2^31 behind. */
  predicate Ready(slot: Slot, now: nat) {
    Live(slot) &&
    if slot.due <= now then (now - slot.due) % 0x1_0000_0000 <= 0x8000_0000
    else (slot.due - now) % 0x1_0000_0000 == 0 || (slot.due - now) % 0x1_0000_0000 >= 0x8000_0000
  }

  lemma Negated(x: nat)
    ensures (0 - x as int) % FULL == if x % FULL == 0 then 0 else FULL - x % FULL
  {
  }

  /** An entry is called if and only if it is ready, wherever its due time lies. */
  lemma FiresExactly(slot: Slot, now: nat)
    requires slot.trigger == Reading(slot.due)
    ensures Fires(slot, now) <==> Ready(slot, now)
  {
    ReadingDiff(slot.due, now);
    if slot.due <= now {
      Negated(now - slot.due);
    }
  }

  /** The entries below n for which `called` holds at true time `now`, called once each, in table order. */
  function Calls(slots: seq<Slot>, called: Slot -> bool, now: nat, delays: seq<Word32>, n: nat): seq<Call>
    requires n <= |slots| == |delays|
  {
    if n == 0 then []
    else
      Calls(slots, called, now, delays, n - 1)
      + if called(slots[n - 1]) then [Call(slots[n - 1], now, delays[n - 1])] else []
  }

  /** The live entries whose time has truly come. */
  predicate IsDue(slot: Slot, now: nat) { Live(slot) && slot.due <= now }

  /** Entries whose turn has not come are as they were. */
  lemma {:induction false} LaterEntriesStay(t: Table, now: nat, delays: seq<Word32>, n: nat)
    requires n <= |t.slots| == |delays|
    ensures forall i :: n <= i < |t.slots| ==> RunSlots(t, now, delays, n).slots[i] == t.slots[i]
  {
    if n > 0 {
      LaterEntriesStay(t, now, delays, n - 1);
    }
  }

  lemma {:induction false} PassCalls(t: Table, now: nat, delays: seq<Word32>, n: nat)
    requires n <= |t.slots| == |delays| && forall i :: 0 <= i < |t.slots| && Live(t.slots[i]) ==> t.slots[i].trigger == Reading(t.slots[i].due)
    ensures RunSlots(t, now, delays, n).log == t.log + Calls(t.slots, (slot: Slot) => Ready(slot, now), now, delays, n)
  {
    if n > 0 {
      PassCalls(t, now, delays, n - 1);
      var u := RunSlots(t, now, delays, n - 1);
      LaterEntriesStay(t, now, delays, n - 1);
      assert u.slots[n - 1] == t.slots[n - 1];
      if Live(t.slots[n - 1]) {
        FiresExactly(t.slots[n - 1], now);
      }
    }
  }

  predicate Throttled(t: Table, now: nat) { SignedDiff(Reading(now), t.lastCheck) <= 0 }

  /** A task call calls nothing if it is throttled, and else exactly the entries that are ready, each once. */
  lemma TaskCallsTheReady(t: Table, now: nat, delays: seq<Word32>)
    requires Exact(t) && |delays| == |t.slots|
    ensures TaskF(t, now, delays).log == t.log +
      if Throttled(t, now) then [] else Calls(t.slots, (slot: Slot) => Ready(slot, now), now, delays, |t.slots|)
  {
    if !Throttled(t, now) {
      PassCalls(t.(lastCheck := Reading(now)), now, delays, |t.slots|);
    }
  }

  /** Of two conditions, one stronger, both make the same calls only if they agree on every entry. */
  lemma {:induction false} SameCalls(slots: seq<Slot>, a: Slot -> bool, b: Slot -> bool, now: nat, delays: seq<Word32>, n: nat)
    requires n <= |slots| == |delays| && forall i :: 0 <= i < n && a(slots[i]) ==> b(slots[i])
    ensures |Calls(slots, a, now, delays, n)| <= |Calls(slots, b, now, delays, n)|
    ensures Calls(slots, a, now, delays, n) == Calls(slots, b, now, delays, n)
      <==> forall i :: 0 <= i < n ==> (a(slots[i]) <==> b(slots[i]))
  {
    if n > 0 {
      SameCalls(slots, a, b, now, delays, n - 1);
      var x, y := Calls(slots, a, now, delays, n - 1), Calls(slots, b, now, delays, n - 1);
      var c := Call(slots[n - 1], now, delays[n - 1]);
      assert x + [c] == y + [c] ==> x == y by {
        assert (x + [c])[..|x + [c]| - 1] == x && (y + [c])[..|y + [c]| - 1] == y;
      }
      assert x + [] == x && y + [] == y;
    }
  }

  // ------------------------------------------------------------------- short delays

  /** No live entry is due 2^31 or more ahead, and no call was early. */
  ghost predicate Timely(t: Table, now: nat) {
    && (forall i :: 0 <= i < |t.slots| && Live(t.slots[i]) ==> t.slots[i].due < now + HALF)
    && (forall i :: 0 <= i < |t.log| ==> t.log[i].slot.due <= t.log[i].at)
  }

  /** The operation asks for no delay of 2^31 or more. */
  predicate Short(op: Op) {
    match op
    case Defer(delay, _) => delay < HALF
    case Extend(_, delay) => delay < HALF
    case Cancel(_) => true
    case Task(delays) => forall i :: 0 <= i < |delays| ==> delays[i] < HALF
  }

  lemma RunSlotTimely(t: Table, now: nat, i: nat, delay: Word32)
    requires Timely(t, now) && i < |t.slots| && delay < HALF
    requires Live(t.slots[i]) ==> t.slots[i].trigger == Reading(t.slots[i].due)
    ensures Timely(RunSlot(t, now, i, delay), now)
  {
    if Fires(t.slots[i], now) {
      FiresExactly(t.slots[i], now);
      assert t.slots[i].due <= now;
    }
  }

  lemma PassTimely(t: Table, now: nat, delays: seq<Word32>)
    requires Exact(t) && Timely(t, now) && |delays| == |t.slots| && Short(Task(delays))
    ensures Timely(RunSlots(t, now, delays, |t.slots|), now)
  {
    forall u: Table, i | |u.slots| == |delays| && 0 <= i < |delays| && Exact(u) && Timely(u, now)
      ensures Exact(RunSlot(u, now, i, delays[i])) && Timely(RunSlot(u, now, i, delays[i]), now)
    {
      RunSlotExact(u, now, i, delays[i]);
      RunSlotTimely(u, now, i, delays[i]);
    }
    PassKeeps((u: Table) => Exact(u) && Timely(u, now), t, now, delays, |t.slots|);
  }

  lemma DoTimely(t: Table, step: Step)
    requires Exact(t) && Timely(t, step.at) && Allowed(step.op, |t.slots|) && Short(step.op)
    ensures Timely(Do(t, step), step.at)
  {
    if step.op.Task? {
      var t1 := t.(lastCheck := Reading(step.at));
      assert Exact(t1) && Timely(t1, step.at);
      PassTimely(t1, step.at, step.op.delays);
    }
  }

  /** Over every run with delays below 2^31 no callback is called early. */
  lemma {:induction false} RunIsTimely(slots: nat, steps: seq<Step>)
    requires IsRun(slots, steps) && slots <= 0x100 - 2
    requires forall i :: 0 <= i < |steps| ==> Short(steps[i].op)
    ensures Timely(After(slots, steps), if steps == [] then 0 else steps[|steps| - 1].at)
  {
    if steps != [] {
      var p, last := steps[..|steps| - 1], steps[|steps| - 1];
      RunIsTimely(slots, p);
      RunIsExact(slots, p);
      DoTimely(After(slots, p), last);
    }
  }

  lemma ReadyIsDue(t: Table, now: nat, i: nat)
    requires Timely(t, now) && i < |t.slots|
    ensures Ready(t.slots[i], now) <==> IsDue(t.slots[i], now) && (now - t.slots[i].due) % FULL <= HALF
  {
  }

  /**
   With delays below 2^31, a task call that is not throttled calls exactly the entries
   that are due, if and only if none of these is more than 2^31 behind, modulo the round
   of the timer; it skips the ones that are.
   */
  lemma TaskCallsTheDue(t: Table, now: nat, delays: seq<Word32>)
    requires Exact(t) && Timely(t, now) && |delays| == |t.slots| && !Throttled(t, now)
    ensures TaskF(t, now, delays).log == t.log + Calls(t.slots, (slot: Slot) => IsDue(slot, now), now, delays, |t.slots|)
      <==> forall i :: 0 <= i < |t.slots| && IsDue(t.slots[i], now) ==> (now - t.slots[i].due) % FULL <= HALF
  {
    var ready, due := (slot: Slot) => Ready(slot, now), (slot: Slot) => IsDue(slot, now);
    forall i | 0 <= i < |t.slots|
      ensures ready(t.slots[i]) <==> due(t.slots[i]) && (now - t.slots[i].due) % FULL <= HALF
    {
      ReadyIsDue(t, now, i);
    }
    TaskCallsTheReady(t, now, delays);
    SameCalls(t.slots, ready, due, now, delays, |t.slots|);
    LogsDiffer(t.log, Calls(t.slots, ready, now, delays, |t.slots|), Calls(t.slots, due, now, delays, |t.slots|));
  }

  lemma LogsDiffer(log: seq<Call>, a: seq<Call>, b: seq<Call>)
    ensures log + a == log + b <==> a == b
  {
    if log + a == log + b {
      assert (log + a)[|log|..] == a && (log + b)[|log|..] == b;
    }
  }

  // --------------------------------------------------------------------- early calls

  ghost predicate NoneEarly(log: seq<Call>) {
    forall i :: 0 <= i < |log| ==> log[i].slot.due <= log[i].at
  }

  /** If the entry is still to come, it is nearer than half a round of the timer, modulo that round. */
  predicate NotFarAhead(slot: Slot, now: nat) {
    Live(slot) ==> slot.due <= now || 0 < (slot.due - now) % FULL < HALF
  }

  /** No pass of the run found a live entry that far ahead. */
  ghost predicate NeverFarAhead(slots: nat, steps: seq<Step>)
    requires IsRun(slots, steps)
  {
    steps != [] ==>
      var p, last := steps[..|steps| - 1], steps[|steps| - 1];
      && NeverFarAhead(slots, p)
      && (last.op.Task? && !Throttled(After(slots, p), last.at) ==>
            forall i :: 0 <= i < slots ==> NotFarAhead(After(slots, p).slots[i], last.at))
  }

  lemma {:induction false} CallsEarly(slots: seq<Slot>, now: nat, delays: seq<Word32>, n: nat)
    requires n <= |slots| == |delays|
    ensures NoneEarly(Calls(slots, (slot: Slot) => Ready(slot, now), now, delays, n))
      <==> forall i :: 0 <= i < n ==> NotFarAhead(slots[i], now)
  {
    if n > 0 {
      CallsEarly(slots, now, delays, n - 1);
      var before := Calls(slots, (slot: Slot) => Ready(slot, now), now, delays, n - 1);
      var last := Call(slots[n - 1], now, delays[n - 1]);
      NoneEarlyConcat(before, [last]);
      assert NotFarAhead(slots[n - 1], now) <==> (Ready(slots[n - 1], now) ==> slots[n - 1].due <= now);
      assert NoneEarly([last]) <==> last.slot.due <= now by {
        assert [last][0] == last;
      }
      assert NoneEarly([]) && before + [] == before;
    }
  }

  lemma NoneEarlyConcat(a: seq<Call>, b: seq<Call>)
    ensures NoneEarly(a + b) <==> NoneEarly(a) && NoneEarly(b)
  {
    if NoneEarly(a + b) {
      assert forall i :: 0 <= i < |a| ==> (a + b)[i] == a[i];
      assert forall i :: 0 <= i < |b| ==> (a + b)[|a| + i] == b[i];
    }
  }

  lemma OnlyTasksCall(t: Table, step: Step)
    requires Allowed(step.op, |t.slots|) && !step.op.Task?
    ensures Do(t, step).log == t.log
  {
  }

  /** A run makes no early call if and only if no pass ever finds an entry that far ahead. */
  lemma {:induction false} NeverEarlyExactly(slots: nat, steps: seq<Step>)
    requires IsRun(slots, steps) && slots <= 0x100 - 2
    ensures NoneEarly(After(slots, steps).log) <==> NeverFarAhead(slots, steps)
  {
    if steps != [] {
      var p, last := steps[..|steps| - 1], steps[|steps| - 1];
      var t := After(slots, p);
      NeverEarlyExactly(slots, p);
      if last.op.Task? {
        RunIsExact(slots, p);
        TaskCallsTheReady(t, last.at, last.op.delays);
        CallsEarly(t.slots, last.at, last.op.delays, slots);
        NoneEarlyConcat(t.log, Calls(t.slots, (slot: Slot) => Ready(slot, last.at), last.at, last.op.delays, slots));
        assert t.log + [] == t.log;
      } else {
        OnlyTasksCall(t, last);
      }
    }
  }

  // ------------------------------------------------------------------------ examples

  /** The table after one registration at time 1. */
  function OneEntry(delay: Word32): Table {
    Table([Slot(1, Reading(1 + delay), 7, 0, 1 + delay, 1 + delay)], 1, 0, [], 1)
  }

  lemma FirstEntry(delay: Word32)
    requires delay > 0
    ensures After(1, [Step(1, Defer(delay, 7))]) == OneEntry(delay)
  {
    var steps := [Step(1, Defer(delay, 7))];
    var start := After(1, []);
    assert steps[..0] == [] && start == Table([FREE], 0, 0, [], 0);
    assert Usable([FREE], Later(0, 1));
    ReadingPlus(1, delay);
    assert After(1, steps) == Registered(start, 1, delay, 7, 0, 1);
  }

  /** One pass over a table with one entry. */
  lemma OnePass(t: Table, now: nat, delay: Word32)
    requires |t.slots| == 1 && !Throttled(t, now)
    ensures TaskF(t, now, [delay]) == RunSlot(t.(lastCheck := Reading(now)), now, 0, delay)
  {
    var t1 := t.(lastCheck := Reading(now));
    assert RunSlots(t1, now, [delay], 0) == t1;
  }

  lemma AfterOneMore(steps: seq<Step>, step: Step)
    requires IsRun(1, steps + [step])
    ensures IsRun(1, steps) && After(1, steps + [step]) == Do(After(1, steps), step)
  {
    var all := steps + [step];
    assert all[..|all| - 1] == steps;
    forall i | 0 <= i < |steps| ensures steps[i] == all[i] {
    }
  }

  const EARLY := [Step(1, Defer(HALF, 7))] + [Step(1, Task([0]))]

  /** A delay of exactly 2^31, asked for by defer_exec, is called at once, all of it too early. */
  lemma EarlyCallHappens()
    ensures IsRun(1, EARLY)
    ensures var log := After(1, EARLY).log; |log| == 1 && log[0].at == 1 && log[0].slot.due == 1 + HALF && !NoneEarly(log)
  {
    var t := OneEntry(HALF);
    FirstEntry(HALF);
    AfterOneMore([Step(1, Defer(HALF, 7))], Step(1, Task([0])));
    OnePass(t, 1, 0);
    FiresExactly(t.slots[0], 1);
  }

  const ASKED_BACK := [Step(1, Defer(1, 7))] + [Step(2, Task([FULL - 1]))] + [Step(3, Task([0]))]

  /** So is a delay that a callback asks for, one millisecond after it asked. */
  lemma EarlyAgainHappens()
    ensures IsRun(1, ASKED_BACK)
    ensures var log := After(1, ASKED_BACK).log; |log| == 2 && log[1].at == 3 && log[1].slot.due == FULL + 1 && !NoneEarly(log)
  {
    var p, t1 := [Step(1, Defer(1, 7))], OneEntry(1);
    FirstEntry(1);
    AfterOneMore(p + [Step(2, Task([FULL - 1]))], Step(3, Task([0])));
    AfterOneMore(p, Step(2, Task([FULL - 1])));
    OnePass(t1, 2, FULL - 1);
    FiresExactly(t1.slots[0], 2);
    var t2 := TaskF(t1, 2, [FULL - 1]);
    OnePass(t2, 3, 0);
    ReadingPlus(2, FULL - 1);
    FiresExactly(t2.slots[0], 3);
  }

  const QUARTER: nat := 0x4000_0000
  const BACKLOG := [Step(1, Defer(1, 7))] + [Step(QUARTER, Task([1]))] + [Step(2 * QUARTER, Task([1]))]
  const SKIPPED := BACKLOG + [Step(3 * QUARTER, Task([1]))]

  lemma BacklogGrows()
    ensures IsRun(1, BACKLOG)
    ensures var t := After(1, BACKLOG);
      |t.log| == 2 && t.lastCheck == 2 * QUARTER && Live(t.slots[0]) && t.slots[0].due == 4
  {
    var p, t1 := [Step(1, Defer(1, 7))], OneEntry(1);
    FirstEntry(1);
    AfterOneMore(p + [Step(QUARTER, Task([1]))], Step(2 * QUARTER, Task([1])));
    AfterOneMore(p, Step(QUARTER, Task([1])));
    OnePass(t1, QUARTER, 1);
    FiresExactly(t1.slots[0], QUARTER);
    var t2 := TaskF(t1, QUARTER, [1]);
    OnePass(t2, 2 * QUARTER, 1);
    FiresExactly(t2.slots[0], 2 * QUARTER);
  }

  /** A task that runs too seldom falls more than 2^31 behind, and then a due entry is skipped. */
  lemma DueEntrySkipped()
    ensures IsRun(1, SKIPPED)
    ensures var t, now := After(1, BACKLOG), 3 * QUARTER;
      && IsDue(t.slots[0], now) && !Throttled(t, now) && After(1, SKIPPED).log == t.log
  {
    var t, now := After(1, BACKLOG), 3 * QUARTER;
    BacklogGrows();
    AfterOneMore(BACKLOG, Step(now, Task([1])));
    RunIsExact(1, BACKLOG);
    OnePass(t, now, 1);
    FiresExactly(t.slots[0], now);
  }
}
