/**
 The two-ended macro recorder of quantum/dynamic_macro.h: macro 1 grows from the start
 of one buffer, macro 2 from its end.
 */
module DynamicMacro {
  import opened KeyEvents

  datatype Keycode = RecStart1 | RecStart2 | RecStop | Play1 | Play2 | Other

  datatype Recording = Off | On1(cur1: seq<Record>) | On2(cur2: seq<Record>)

  /** The recorder seen from outside: two event lists and what is being recorded. */
  datatype Recorder = Recorder(size: nat, m1: seq<Record>, m2: seq<Record>, rec: Recording)

  /** What a key event does: the recorder after it, what it plays, and whether it is passed on. */
  datatype Effect = Effect(next: Recorder, played: seq<Record>, passOn: bool)

  /** Recording of one event with `cap` free places. */
  function Keep(cur: seq<Record>, cap: nat, r: Record): seq<Record> {
    if (!r.event.pressed && cur == []) || |cur| >= cap then cur else cur + [r]
  }

  /** Drops the presses at the end: the keys still held when recording stops. */
  function TrimPresses(rs: seq<Record>): seq<Record> {
    if rs == [] || !rs[|rs| - 1].event.pressed then rs else TrimPresses(rs[..|rs| - 1])
  }

  function Free(size: nat, other: seq<Record>): nat { if |other| <= size then size - |other| else 0 }

  /** With no recording in progress, releases start and play. */
  function ProcessOff(d: Recorder, keycode: Keycode, r: Record): Effect {
    if r.event.pressed then Effect(d, [], true)
    else match keycode
      case RecStart1 => Effect(d.(m1 := [], rec := On1([])), [], false)
      case RecStart2 => Effect(d.(m2 := [], rec := On2([])), [], false)
      case Play1 => Effect(d, d.m1, false)
      case Play2 => Effect(d, d.m2, false)
      case _ => Effect(d, [], true)
  }

  function ProcessOn1(d: Recorder, cur: seq<Record>, keycode: Keycode, r: Record): Effect {
    match keycode
    case RecStop => Effect(if r.event.pressed then d.(m1 := TrimPresses(cur), rec := Off) else d, [], false)
    case Play1 => Effect(d, [], false)
    case Play2 => Effect(d, [], false)
    case _ => Effect(d.(rec := On1(Keep(cur, Free(d.size, d.m2), r))), [], true)
  }

  function ProcessOn2(d: Recorder, cur: seq<Record>, keycode: Keycode, r: Record): Effect {
    match keycode
    case RecStop => Effect(if r.event.pressed then d.(m2 := TrimPresses(cur), rec := Off) else d, [], false)
    case Play1 => Effect(d, [], false)
    case Play2 => Effect(d, [], false)
    case _ => Effect(d.(rec := On2(Keep(cur, Free(d.size, d.m1), r))), [], true)
  }

  /** process_record_dynamic_macro */
  function Process(d: Recorder, keycode: Keycode, r: Record): Effect {
    match d.rec
    case Off => ProcessOff(d, keycode, r)
    case On1(cur) => ProcessOn1(d, cur, keycode, r)
    case On2(cur) => ProcessOn2(d, cur, keycode, r)
  }

  class DynamicMacroRecorder {
    const buffer: array<Record>
    const rMacroBuffer: int
    /** Index after macro 1, and index before macro 2. */
    var macroEnd: int
    var rMacroEnd: int
    var macroPointer: int
    var macroId: nat

    ghost predicate Valid()
      reads this
    {
      && buffer.Length > 0 && rMacroBuffer == buffer.Length - 1
      && 0 <= macroEnd <= rMacroEnd + 1 <= buffer.Length && macroId <= 2
      && (macroId == 1 ==> 0 <= macroPointer <= rMacroEnd + 1)
      && (macroId == 2 ==> macroEnd - 1 <= macroPointer <= rMacroBuffer)
    }

    /** The records from index `begin` to before `end`, walking by +1 or by -1. */
    ghost function Walk(begin: int, end: int, direction: int): (rs: seq<Record>)
      requires if direction == 1 then 0 <= begin <= end <= buffer.Length else -1 <= end <= begin < buffer.Length
      reads buffer
    {
      if direction == 1 then buffer[begin..end]
      else seq(begin - end, i requires 0 <= i < begin - end reads buffer => buffer[begin - i])
    }

    ghost function View(): Recorder
      requires Valid()
      reads this, buffer
    {
      Recorder(
        buffer.Length,
        if macroId == 1 then [] else Walk(0, macroEnd, 1),
        if macroId == 2 then [] else Walk(rMacroBuffer, rMacroEnd, -1),
        if macroId == 0 then Off
        else if macroId == 1 then On1(Walk(0, macroPointer, 1))
        else On2(Walk(rMacroBuffer, macroPointer, -1)))
    }

    constructor (size: nat)
      requires size > 0
      ensures Valid() && fresh(buffer) && View() == Recorder(size, [], [], Off)
    {
      buffer := new Record[size](i => EMPTY_RECORD);
      rMacroBuffer := size - 1;
      macroEnd, rMacroEnd, macroPointer, macroId := 0, size - 1, 0, 0;
    }

    /** dynamic_macro_play: what process_record is given. */
    method Play(begin: int, end: int, direction: int) returns (played: seq<Record>)
      requires direction == 1 || direction == -1
      requires if direction == 1 then 0 <= begin <= end <= buffer.Length else -1 <= end <= begin < buffer.Length
      ensures played == Walk(begin, end, direction)
    {
      played := [];
      var p := begin;
      while p != end
        invariant if direction == 1 then begin <= p <= end else end <= p <= begin
        invariant played == Walk(begin, p, direction)
        decreases if direction == 1 then end - p else p - end
      {
        played := played + [buffer[p]];
        p := p + direction;
      }
    }

    /** dynamic_macro_record_key: `macro2End` is the last place before the other macro. */
    method RecordKey(begin: int, macro2End: int, direction: int, r: Record)
      requires direction == 1 || direction == -1
      requires if direction == 1 then 0 <= begin <= macroPointer <= macro2End + 1 <= buffer.Length
               else 0 <= macro2End <= macroPointer + 1 <= begin + 1 <= buffer.Length
      modifies this`macroPointer, buffer
      ensures if direction == 1 then begin <= macroPointer <= macro2End + 1 else macro2End - 1 <= macroPointer <= begin
      ensures Walk(begin, macroPointer, direction)
        == Keep(old(Walk(begin, macroPointer, direction)), (macro2End - begin) * direction + 1, r)
      ensures forall j :: 0 <= j < buffer.Length && (if direction == 1 then j > macro2End else j < macro2End) ==>
        buffer[j] == old(buffer[j])
    {
      if !r.event.pressed && macroPointer == begin {
        return;
      }
      if macroPointer - direction != macro2End {
        buffer[macroPointer] := r;
        macroPointer := macroPointer + direction;
      }
    }

    /** dynamic_macro_record_end: the pointer moves back over trailing presses. */
    method RecordEnd(begin: int, direction: int) returns (end: int)
      requires direction == 1 || direction == -1
      requires if direction == 1 then 0 <= begin <= macroPointer <= buffer.Length
               else -1 <= macroPointer <= begin < buffer.Length
      ensures if direction == 1 then begin <= end <= macroPointer else macroPointer <= end <= begin
      ensures Walk(begin, end, direction) == TrimPresses(Walk(begin, macroPointer, direction))
    {
      end := macroPointer;
      while end != begin && buffer[end - direction].event.pressed
        invariant if direction == 1 then begin <= end <= macroPointer else macroPointer <= end <= begin
        invariant TrimPresses(Walk(begin, end, direction)) == TrimPresses(Walk(begin, macroPointer, direction))
        decreases if direction == 1 then end - begin else begin - end
      {
        ghost var rs := Walk(begin, end, direction);
        assert rs[|rs| - 1] == buffer[end - direction];
        assert rs[..|rs| - 1] == Walk(begin, end - direction, direction);
        end := end - direction;
      }
      assert end != begin ==> Walk(begin, end, direction)[|Walk(begin, end, direction)| - 1] == buffer[end - direction];
    }

    method ProcessIdle(keycode: Keycode, r: Record) returns (played: seq<Record>, passOn: bool)
      requires Valid() && macroId == 0
      modifies this`macroPointer, this`macroId
      ensures Valid() && Effect(View(), played, passOn) == ProcessOff(old(View()), keycode, r)
    {
      played := [];
      if !r.event.pressed {
        match keycode {
          case RecStart1 =>
            macroPointer := 0;
            macroId := 1;
            return played, false;
          case RecStart2 =>
            macroPointer := rMacroBuffer;
            macroId := 2;
            assert Walk(rMacroBuffer, macroPointer, -1) == [];
            return played, false;
          case Play1 =>
            played := Play(0, macroEnd, 1);
            return played, false;
          case Play2 =>
            played := Play(rMacroBuffer, rMacroEnd, -1);
            return played, false;
          case _ =>
        }
      }
      return played, true;
    }

    method StopRecording()
      requires Valid() && macroId != 0
      modifies this`macroEnd, this`rMacroEnd, this`macroId
      ensures Valid() && View() == match old(View()).rec
        case Off => old(View())
        case On1(cur) => old(View()).(m1 := TrimPresses(cur), rec := Off)
        case On2(cur) => old(View()).(m2 := TrimPresses(cur), rec := Off)
    {
      if macroId == 1 {
        macroEnd := RecordEnd(0, 1);
      } else {
        rMacroEnd := RecordEnd(rMacroBuffer, -1);
      }
      macroId := 0;
    }

    method StoreKey(r: Record)
      requires Valid() && macroId != 0
      modifies this`macroPointer, buffer
      ensures Valid() && View() == match old(View()).rec
        case Off => old(View())
        case On1(cur) => old(View()).(rec := On1(Keep(cur, Free(old(View()).size, old(View()).m2), r)))
        case On2(cur) => old(View()).(rec := On2(Keep(cur, Free(old(View()).size, old(View()).m1), r)))
    {
      if macroId == 1 {
        RecordKey(0, rMacroEnd, 1, r);
        assert Walk(rMacroBuffer, rMacroEnd, -1) == old(Walk(rMacroBuffer, rMacroEnd, -1));
      } else {
        RecordKey(rMacroBuffer, macroEnd, -1, r);
        assert Walk(0, macroEnd, 1) == old(Walk(0, macroEnd, 1));
      }
    }

    /** process_record_dynamic_macro */
    method ProcessRecord(keycode: Keycode, r: Record) returns (played: seq<Record>, passOn: bool)
      requires Valid()
      modifies this, buffer
      ensures Valid() && Effect(View(), played, passOn) == Process(old(View()), keycode, r)
    {
      if macroId == 0 {
        played, passOn := ProcessIdle(keycode, r);
        return;
      }
      match keycode {
        case RecStop =>
          if r.event.pressed {
            StopRecording();
          }
          return [], false;
        case Play1 => return [], false;
        case Play2 => return [], false;
        case _ =>
          StoreKey(r);
          return [], true;
      }
    }
  }

  // ------------------------------------------------------------------- recording

  /** What is left after any number of leading releases. */
  function DropReleases(rs: seq<Record>): seq<Record> {
    if rs == [] || rs[0].event.pressed then rs else DropReleases(rs[1..])
  }

  function Take(rs: seq<Record>, n: nat): seq<Record> { if |rs| <= n then rs else rs[..n] }

  function KeepAll(cap: nat, rs: seq<Record>): seq<Record> {
    if rs == [] then [] else Keep(KeepAll(cap, rs[..|rs| - 1]), cap, rs[|rs| - 1])
  }

  lemma {:induction false} DropReleasesSnoc(rs: seq<Record>, r: Record)
    ensures DropReleases(rs + [r]) ==
      if DropReleases(rs) == [] && !r.event.pressed then [] else DropReleases(rs) + [r]
  {
    if rs == [] {
      assert rs + [r] == [r] && [r][1..] == [];
    } else {
      assert (rs + [r])[1..] == rs[1..] + [r];
      if !rs[0].event.pressed {
        DropReleasesSnoc(rs[1..], r);
      }
    }
  }

  lemma KeepOne(cap: nat, rs: seq<Record>, r: Record)
    ensures Keep(Take(rs, cap), cap, r) == Take(if rs == [] && !r.event.pressed then [] else rs + [r], cap)
  {
  }

  /** Recording keeps the events in order, minus leading releases, as far as they fit. */
  lemma {:induction false} KeepsWhatFits(cap: nat, rs: seq<Record>)
    ensures KeepAll(cap, rs) == Take(DropReleases(rs), cap)
  {
    if rs != [] {
      var p, r := rs[..|rs| - 1], rs[|rs| - 1];
      KeepsWhatFits(cap, p);
      assert rs == p + [r];
      DropReleasesSnoc(p, r);
      KeepOne(cap, DropReleases(p), r);
    }
  }

  /** Trimming takes off exactly the trailing run of presses. */
  lemma {:induction false} TrimmedExactly(rs: seq<Record>)
    ensures var t := TrimPresses(rs);
      && t <= rs && (t == [] || !t[|t| - 1].event.pressed)
      && forall i :: |t| <= i < |rs| ==> rs[i].event.pressed
  {
    if rs != [] && rs[|rs| - 1].event.pressed {
      TrimmedExactly(rs[..|rs| - 1]);
    }
  }

  // ------------------------------------------------------------------------ runs

  datatype Input = Input(keycode: Keycode, r: Record)

  function After(d: Recorder, ins: seq<Input>): Recorder {
    if ins == [] then d
    else
      var last := ins[|ins| - 1];
      Process(After(d, ins[..|ins| - 1]), last.keycode, last.r).next
  }

  /** The two macros never need more than the buffer, and neither does the one being recorded. */
  predicate Fits(d: Recorder) {
    && |d.m1| + |d.m2| <= d.size
    && match d.rec
       case Off => true
       case On1(cur) => d.m1 == [] && |cur| + |d.m2| <= d.size
       case On2(cur) => d.m2 == [] && |d.m1| + |cur| <= d.size
  }

  lemma StaysFitting(d: Recorder, keycode: Keycode, r: Record)
    requires Fits(d)
    ensures Fits(Process(d, keycode, r).next) && Process(d, keycode, r).next.size == d.size
  {
    match d.rec {
      case Off =>
      case On1(cur) => TrimmedExactly(cur);
      case On2(cur) => TrimmedExactly(cur);
    }
  }

  lemma {:induction false} AlwaysFits(d: Recorder, ins: seq<Input>)
    requires Fits(d)
    ensures Fits(After(d, ins)) && After(d, ins).size == d.size
  {
    if ins != [] {
      var p, last := ins[..|ins| - 1], ins[|ins| - 1];
      AlwaysFits(d, p);
      StaysFitting(After(d, p), last.keycode, last.r);
    }
  }

  /** The keys that control the recorder when no recording is in progress, and while one is. */
  predicate Controls(d: Recorder, keycode: Keycode, r: Record) {
    if d.rec == Off then !r.event.pressed && keycode in {RecStart1, RecStart2, Play1, Play2}
    else keycode in {RecStop, Play1, Play2}
  }

  /**
   In every state, an event is passed on, and so typed, if and only if it does not control
   the recorder. It plays a macro only if none is being recorded and it releases that
   macro's play key; it starts a recording only by releasing a start key, and only the
   press of the stop key ends one.
   */
  lemma EventFate(d: Recorder, keycode: Keycode, r: Record)
    ensures var f := Process(d, keycode, r);
      && (f.passOn <==> !Controls(d, keycode, r))
      && f.played == (if d.rec != Off || r.event.pressed then []
                      else if keycode == Play1 then d.m1 else if keycode == Play2 then d.m2 else [])
      && (d.rec == Off ==>
            (f.next.rec == On1([]) <==> keycode == RecStart1 && !r.event.pressed)
            && (f.next.rec == On2([]) <==> keycode == RecStart2 && !r.event.pressed)
            && (f.next == d <==> f.next.rec == Off))
      && (d.rec != Off ==> (f.next.rec == Off <==> keycode == RecStop && r.event.pressed))
      && (d.rec != Off && keycode in {RecStop, Play1, Play2} && f.next.rec != Off ==> f.next == d)
  {
  }

  /** Events that recording stores: anything but the play keys and the stop key. */
  predicate Stored(ins: seq<Input>) {
    forall i :: 0 <= i < |ins| ==> ins[i].keycode !in {RecStop, Play1, Play2}
  }

  function Records(ins: seq<Input>): seq<Record> {
    seq(|ins|, i requires 0 <= i < |ins| => ins[i].r)
  }

  lemma {:induction false} WhileRecording(d: Recorder, start: Keycode, up: Record, ins: seq<Input>)
    requires d.rec == Off && Fits(d) && !up.event.pressed && Stored(ins)
    requires start == RecStart1 || start == RecStart2
    ensures After(Process(d, start, up).next, ins) ==
      if start == RecStart1 then d.(m1 := [], rec := On1(KeepAll(d.size - |d.m2|, Records(ins))))
      else d.(m2 := [], rec := On2(KeepAll(d.size - |d.m1|, Records(ins))))
  {
    if ins != [] {
      var p := ins[..|ins| - 1];
      WhileRecording(d, start, up, p);
      assert Records(ins)[..|ins| - 1] == Records(p);
    }
  }

  /** What a recorded session comes to. */
  function Recorded(rs: seq<Record>, cap: nat): seq<Record> { TrimPresses(Take(DropReleases(rs), cap)) }

  /** The event is passed on and plays nothing. */
  predicate JustTyped(d: Recorder, i: Input) {
    Process(d, i.keycode, i.r).passOn && Process(d, i.keycode, i.r).played == []
  }

  lemma SessionIsTyped(d: Recorder, start: Keycode, up: Record, ins: seq<Input>)
    requires d.rec == Off && Fits(d) && !up.event.pressed && Stored(ins)
    requires start == RecStart1 || start == RecStart2
    ensures forall i :: 0 <= i < |ins| ==> JustTyped(After(Process(d, start, up).next, ins[..i]), ins[i])
  {
    forall i | 0 <= i < |ins| ensures JustTyped(After(Process(d, start, up).next, ins[..i]), ins[i]) {
      var mid := After(Process(d, start, up).next, ins[..i]);
      WhileRecording(d, start, up, ins[..i]);
      assert mid.rec != Off;
      EventFate(mid, ins[i].keycode, ins[i].r);
    }
  }

  lemma SessionStores(d: Recorder, start: Keycode, up: Record, ins: seq<Input>, stop: Record)
    requires d.rec == Off && Fits(d) && !up.event.pressed && Stored(ins) && stop.event.pressed
    requires start == RecStart1 || start == RecStart2
    ensures Process(After(Process(d, start, up).next, ins), RecStop, stop).next ==
      if start == RecStart1 then d.(m1 := Recorded(Records(ins), d.size - |d.m2|))
      else d.(m2 := Recorded(Records(ins), d.size - |d.m1|))
  {
    var mid := After(Process(d, start, up).next, ins);
    var rs := Records(ins);
    WhileRecording(d, start, up, ins);
    if start == RecStart1 {
      KeepsWhatFits(d.size - |d.m2|, rs);
      assert mid.rec == On1(Take(DropReleases(rs), d.size - |d.m2|));
    } else {
      KeepsWhatFits(d.size - |d.m1|, rs);
      assert mid.rec == On2(Take(DropReleases(rs), d.size - |d.m1|));
    }
  }

  /**
   A whole session: start, any events, stop. Every event is typed all the same. The macro
   then holds those events in order, minus leading releases, minus what does not fit beside
   the other macro, minus the trailing presses; the other macro is untouched; and playing
   gives exactly that.
   */
  lemma SessionRecords(d: Recorder, start: Keycode, up: Record, ins: seq<Input>, stop: Record, play: Record)
    requires d.rec == Off && Fits(d) && !up.event.pressed && Stored(ins) && stop.event.pressed && !play.event.pressed
    requires start == RecStart1 || start == RecStart2
    ensures var d' := Process(After(Process(d, start, up).next, ins), RecStop, stop).next;
      && d' == (if start == RecStart1 then d.(m1 := Recorded(Records(ins), d.size - |d.m2|))
                else d.(m2 := Recorded(Records(ins), d.size - |d.m1|)))
      && Process(d', Play1, play) == Effect(d', d'.m1, false)
      && Process(d', Play2, play) == Effect(d', d'.m2, false)
    ensures forall i :: 0 <= i < |ins| ==> JustTyped(After(Process(d, start, up).next, ins[..i]), ins[i])
  {
    SessionStores(d, start, up, ins, stop);
    SessionIsTyped(d, start, up, ins);
  }
}
