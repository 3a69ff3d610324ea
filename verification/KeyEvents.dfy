/** Key events and records (quantum/keyboard.h, quantum/action.h). */
module KeyEvents {
  import opened Words

  datatype KeyPos = KeyPos(row: Byte, col: Byte)

  datatype Event = Event(key: KeyPos, pressed: bool, time: Word16)

  /** `reserved` bits of tap_t carry nothing and are dropped; `count` is a 4-bit field. */
  datatype Tap = Tap(interrupted: bool, count: nat)

  datatype Record = Record(event: Event, tap: Tap)

  const NO_TAP := Tap(false, 0)
  const TICK_KEY := KeyPos(255, 255)
  const EMPTY_RECORD := Record(Event(KeyPos(0, 0), false, 0), NO_TAP)

  predicate NoEvent(e: Event) {
    e.time == 0 || e.key == TICK_KEY
  }

  /** TICK: the event of no key, never a press. */
  predicate IsTick(e: Event) {
    e.key == TICK_KEY && !e.pressed
  }

  /** What keyboard_task sends: times are made odd, so never 0, and the only pseudo events are ticks. */
  predicate WellFormed(e: Event) {
    e.time != 0 && (e.key == TICK_KEY ==> !e.pressed)
  }

  /** 16-bit difference of two timer readings. */
  function TimerDiff16(a: Word16, b: Word16): Word16 {
    (a - b) % 0x1_0000
  }

  /** The events of one key, in order. */
  function EventsOf(k: KeyPos, rs: seq<Record>): seq<Event> {
    if rs == [] then []
    else (if rs[0].event.key == k then [rs[0].event] else []) + EventsOf(k, rs[1..])
  }

  /** The real (non-tick) input events of one key, in order. */
  function Inputs(k: KeyPos, es: seq<Event>): seq<Event> {
    if es == [] then []
    else
      var e := es[|es| - 1];
      Inputs(k, es[..|es| - 1]) + (if !NoEvent(e) && e.key == k then [e] else [])
  }

  /** Presses and releases take turns, starting with a press. */
  predicate Alternates(es: seq<Event>) {
    forall i :: 0 <= i < |es| ==> (es[i].pressed <==> i % 2 == 0)
  }

  lemma {:induction false} EventsOfConcat(k: KeyPos, a: seq<Record>, b: seq<Record>)
    ensures EventsOf(k, a + b) == EventsOf(k, a) + EventsOf(k, b)
  {
    if a == [] {
      assert a + b == b;
    } else {
      assert (a + b)[1..] == a[1..] + b;
      EventsOfConcat(k, a[1..], b);
    }
  }

  /** Changing only tap data leaves a key's events unchanged. */
  lemma {:induction false} EventsOfSame(k: KeyPos, a: seq<Record>, b: seq<Record>)
    requires |a| == |b| && forall i :: 0 <= i < |a| ==> a[i].event == b[i].event
    ensures EventsOf(k, a) == EventsOf(k, b)
  {
    if a != [] {
      EventsOfSame(k, a[1..], b[1..]);
    }
  }
}
