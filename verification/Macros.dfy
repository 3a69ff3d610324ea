/**
 The null-separated macro language of the dynamic keymap (quantum/dynamic_keymap.c),
 played through send_string (quantum/send_string.c).
 */
module Macros {
  import opened Words
  import opened Wrappers

  const MACRO_COUNT: Byte := 16
  const SS_QMK_PREFIX: Byte := 1
  const SS_TAP_CODE: Byte := 1
  const SS_DOWN_CODE: Byte := 2
  const SS_UP_CODE: Byte := 3
  const SS_DELAY_CODE: Byte := 4

  /** What send_string makes the keyboard do; `Wait` is a pause in milliseconds. */
  datatype Act = Tap(key: Byte) | Press(key: Byte) | Release(key: Byte) | Type(letter: Byte) | Wait(ms: nat)

  predicate IsMagic(b: Byte) { b == SS_TAP_CODE || b == SS_DOWN_CODE || b == SS_UP_CODE }

  function KeyAct(code: Byte, key: Byte): Act
    requires IsMagic(code)
  {
    if code == SS_TAP_CODE then Tap(key) else if code == SS_DOWN_CODE then Press(key) else Release(key)
  }

  // ----------------------------------------------------------------- send_string

  predicate IsDigit(b: Byte) { 0x30 <= b <= 0x39 }

  /** How many digits a string begins with. */
  function Digits(str: seq<Byte>): (n: nat)
    ensures n <= |str|
  {
    if str != [] && IsDigit(str[0]) then 1 + Digits(str[1..]) else 0
  }

  /** The number that decimal digits spell. */
  function Amount(digits: seq<Byte>): nat
    requires forall i :: 0 <= i < |digits| ==> IsDigit(digits[i])
  {
    if digits == [] then 0
    else
      assert IsDigit(digits[|digits| - 1]);
      Amount(digits[..|digits| - 1]) * 10 + (digits[|digits| - 1] as int - 0x30)
  }

  lemma {:induction false} DigitsAreDigits(str: seq<Byte>)
    ensures forall i :: 0 <= i < Digits(str) ==> IsDigit(str[i])
  {
    if str != [] && IsDigit(str[0]) {
      DigitsAreDigits(str[1..]);
      assert forall i :: 1 <= i < Digits(str) ==> str[i] == str[1..][i - 1];
    }
  }

  /** How long the sequence is that a string begins with, and what it does. */
  datatype Chunk = Chunk(length: nat, acts: seq<Act>)

  /** A prefix starts a key sequence, or a delay up to the first character that is no digit; None if it is cut off. */
  function FirstChunk(str: seq<Byte>): (c: Option<Chunk>)
    requires str != []
    ensures c.Some? ==> 0 < c.value.length <= |str|
  {
    if str[0] != SS_QMK_PREFIX then Some(Chunk(1, [Type(str[0])]))
    else if |str| < 2 then None
    else if IsMagic(str[1]) then
      if |str| < 3 then None else Some(Chunk(3, [KeyAct(str[1], str[2])]))
    else if str[1] == SS_DELAY_CODE then
      var n := Digits(str[2..]);
      DigitsAreDigits(str[2..]);
      if |str| < n + 3 then None else Some(Chunk(n + 3, [Wait(Amount(str[2..][..n]))]))
    else Some(Chunk(2, []))
  }

  /** A C string: a null ends it, and no sequence before that null is cut off. */
  predicate WellFormed(str: seq<Byte>) {
    str != [] && (str[0] == 0 || (FirstChunk(str).Some? && WellFormed(str[FirstChunk(str).value.length..])))
  }

  /** The pause after each character or sequence. */
  function Pause(interval: Byte): seq<Act> { if interval > 0 then [Wait(interval)] else [] }

  function Interpret(str: seq<Byte>, interval: Byte): seq<Act>
    requires WellFormed(str)
  {
    if str[0] == 0 then []
    else
      var chunk := FirstChunk(str).value;
      chunk.acts + Pause(interval) + Interpret(str[chunk.length..], interval)
  }

  lemma {:induction false} InterpretNext(str: seq<Byte>, i: nat, next: nat, acts: seq<Act>, interval: Byte, sent: seq<Act>)
    requires i < next <= |str| && str[i] != 0 && WellFormed(str[i..])
    requires FirstChunk(str[i..]) == Some(Chunk(next - i, acts))
    ensures next < |str| && WellFormed(str[next..])
    ensures sent + Interpret(str[i..], interval) == sent + acts + Pause(interval) + Interpret(str[next..], interval)
  {
    assert str[i..][next - i..] == str[next..];
  }

  /** send_string_with_delay */
  method SendString(str: seq<Byte>, interval: Byte) returns (acts: seq<Act>)
    requires WellFormed(str)
    ensures acts == Interpret(str, interval)
  {
    acts := [];
    var i := 0;
    assert str[0..] == str;
    while true
      invariant i < |str| && WellFormed(str[i..])
      invariant acts + Interpret(str[i..], interval) == Interpret(str, interval)
      decreases |str| - i
    {
      if str[i] == 0 {
        assert Interpret(str[i..], interval) == [];
        break;
      }
      var more, next := SendNext(str, i);
      InterpretNext(str, i, next, more, interval, acts);
      acts := Waited(acts + more, interval);
      i := next;
    }
  }

  /** The pause loop at the end of each turn. */
  method Waited(acts: seq<Act>, interval: Byte) returns (waited: seq<Act>)
    ensures waited == acts + Pause(interval)
  {
    waited := acts;
    if interval > 0 {
      waited := waited + [Wait(interval)];
    }
  }

  /** The body of that loop. */
  method SendNext(str: seq<Byte>, i: nat) returns (acts: seq<Act>, next: nat)
    requires i < |str| && FirstChunk(str[i..]).Some?
    ensures i < next <= |str| && Some(Chunk(next - i, acts)) == FirstChunk(str[i..])
  {
    ghost var rest := str[i..];
    var asciiCode := str[i];
    next := i;
    acts := [];
    if asciiCode == SS_QMK_PREFIX {
      next := next + 1;
      asciiCode := str[next];
      if asciiCode == SS_TAP_CODE {
        next := next + 1;
        acts := [Tap(str[next])];
      } else if asciiCode == SS_DOWN_CODE {
        next := next + 1;
        acts := [Press(str[next])];
      } else if asciiCode == SS_UP_CODE {
        next := next + 1;
        acts := [Release(str[next])];
      } else if asciiCode == SS_DELAY_CODE {
        assert rest[2..] == str[i + 2..];
        var ms;
        ms, next := ReadDelay(str, next + 1);
        acts := [Wait(ms)];
      }
    } else {
      acts := [Type(asciiCode)];
    }
    next := next + 1;
  }

  /** The digits of a delay, from position `start` to the first character that is none. */
  method ReadDelay(str: seq<Byte>, start: nat) returns (ms: nat, next: nat)
    requires start <= |str| && start + Digits(str[start..]) < |str|
    ensures next == start + Digits(str[start..])
    ensures forall j :: 0 <= j < next - start ==> IsDigit(str[start..][j])
    ensures ms == Amount(str[start..][..next - start])
  {
    ms, next := 0, start;
    while IsDigit(str[next])
      invariant start <= next <= |str| && next + Digits(str[next..]) == start + Digits(str[start..])
      invariant forall j :: 0 <= j < next - start ==> IsDigit(str[start..][j])
      invariant ms == Amount(str[start..][..next - start])
      decreases |str| - next
    {
      assert str[next..][1..] == str[next + 1..];
      assert str[start..][..next + 1 - start][..next - start] == str[start..][..next - start];
      ms := ms * 10;
      ms := ms + (str[next] as int - 0x30);
      next := next + 1;
    }
  }

  // ------------------------------------------------------------ spelling strings

  /** A number as C's stringizing operator writes it. */
  function Decimal(n: nat): (digits: seq<Byte>)
    ensures digits != []
  {
    if n < 10 then [0x30 + n] else Decimal(n / 10) + [0x30 + n % 10]
  }

  lemma {:induction false} DecimalIsAmount(n: nat)
    ensures forall i :: 0 <= i < |Decimal(n)| ==> IsDigit(Decimal(n)[i])
    ensures Amount(Decimal(n)) == n
  {
    if n >= 10 {
      DecimalIsAmount(n / 10);
      assert Decimal(n)[..|Decimal(n)| - 1] == Decimal(n / 10);
    } else {
      assert Decimal(n)[..0] == [];
    }
  }

  lemma {:induction false} DigitsEnd(digits: seq<Byte>, rest: seq<Byte>)
    requires (forall i :: 0 <= i < |digits| ==> IsDigit(digits[i])) && rest != [] && !IsDigit(rest[0])
    ensures Digits(digits + rest) == |digits|
  {
    if digits == [] {
      assert digits + rest == rest;
    } else {
      assert (digits + rest)[1..] == digits[1..] + rest;
      DigitsEnd(digits[1..], rest);
    }
  }

  /** How the macros SS_TAP, SS_DOWN, SS_UP and SS_DELAY spell an action; a letter stands for itself. */
  function Spelled(a: Act): (str: seq<Byte>)
    ensures str != []
  {
    match a
    case Tap(k) => [1, 1, k]
    case Press(k) => [1, 2, k]
    case Release(k) => [1, 3, k]
    case Type(c) => [c]
    case Wait(ms) => [1, 4] + Decimal(ms) + [0x7C]
  }

  function Spell(acts: seq<Act>): seq<Byte> {
    if acts == [] then [] else Spelled(acts[0]) + Spell(acts[1..])
  }

  /** The actions with a pause after each. */
  function Paused(acts: seq<Act>, interval: Byte): seq<Act> {
    if acts == [] then []
    else [acts[0]] + (if interval == 0 then [] else [Wait(interval)]) + Paused(acts[1..], interval)
  }

  lemma SpelledChunk(a: Act, rest: seq<Byte>)
    requires rest != [] && (a.Type? ==> a.letter != 0 && a.letter != 1)
    ensures FirstChunk(Spelled(a) + rest) == Some(Chunk(|Spelled(a)|, [a])) && Spelled(a)[0] != 0
  {
    var str := Spelled(a) + rest;
    if a.Wait? {
      var digits, tail := Decimal(a.ms), [0x7C as Byte] + rest;
      DecimalIsAmount(a.ms);
      DigitsEnd(digits, tail);
      assert str[2..] == digits + tail;
      assert (digits + tail)[..|digits|] == digits;
    }
  }

  /** What is spelled is what send_string does, pauses between included, whatever follows the null. */
  lemma {:induction false} SpellRoundTrip(acts: seq<Act>, rest: seq<Byte>, interval: Byte)
    requires forall i :: 0 <= i < |acts| ==> acts[i].Type? ==> acts[i].letter != 0 && acts[i].letter != 1
    ensures var str := Spell(acts) + [0] + rest;
      WellFormed(str) && Interpret(str, interval) == Paused(acts, interval)
  {
    var str := Spell(acts) + [0] + rest;
    if acts == [] {
      assert str[0] == 0;
    } else {
      var tail := Spell(acts[1..]) + [0] + rest;
      assert str == Spelled(acts[0]) + tail;
      SpelledChunk(acts[0], tail);
      assert str[|Spelled(acts[0])|..] == tail;
      SpellRoundTrip(acts[1..], rest, interval);
    }
  }

  /** A prefix before any other code does nothing, and both are skipped. */
  lemma UnknownIsSkipped(code: Byte, rest: seq<Byte>, interval: Byte)
    requires code == 0 || code > 4
    requires WellFormed(rest)
    ensures WellFormed([1, code] + rest)
    ensures Interpret([1, code] + rest, interval) ==
      (if interval == 0 then [] else [Wait(interval)]) + Interpret(rest, interval)
  {
    assert ([1, code] + rest)[2..] == rest;
  }

  // -------------------------------------------------------------- macro segments

  function Nulls(buf: seq<Byte>): nat {
    if buf == [] then 0 else (if buf[0] == 0 then 1 else 0) + Nulls(buf[1..])
  }

  /** The segments between nulls, the last one being what follows the last null. */
  function Split(buf: seq<Byte>): (segments: seq<seq<Byte>>)
    ensures |segments| == Nulls(buf) + 1
  {
    if buf == [] then [[]]
    else
      var rest := Split(buf[1..]);
      if buf[0] == 0 then [[]] + rest else [[buf[0]] + rest[0]] + rest[1..]
  }

  /** The actions that a segment stands for; a key code without its key stands for nothing. */
  function Actions(segment: seq<Byte>): seq<Act> {
    if segment == [] then []
    else if IsMagic(segment[0]) then
      if |segment| == 1 then [] else [KeyAct(segment[0], segment[1])] + Actions(segment[2..])
    else [Type(segment[0])] + Actions(segment[1..])
  }

  /**
   dynamic_keymap_macro_send on the macro buffer. `overrun` tells that it read past
   the end of the buffer, where what happens next is no longer determined by it.
   */
  method MacroSend(buf: seq<Byte>, id: Byte) returns (acts: seq<Act>, overrun: bool)
    requires buf != []
    ensures overrun <==> id < 16 && buf[|buf| - 1] == 0 && Nulls(buf) == id
    ensures acts ==
      if id < 16 && buf[|buf| - 1] == 0 && Nulls(buf) > id then Actions(Split(buf)[id]) else []
  {
    acts, overrun := [], false;
    if id >= MACRO_COUNT {
      return;
    }
    // a buffer that is being written does not end in a null
    if buf[|buf| - 1] != 0 {
      return;
    }
    var p, found := SkipMacros(buf, id);
    if !found {
      return;
    }
    if p == |buf| {
      overrun := true;
      return;
    }
    LastIsNull(buf, p);
    acts := PlayMacro(buf, p);
  }

  /** Skips `id` nulls, unless the buffer holds fewer. */
  method SkipMacros(buf: seq<Byte>, id: Byte) returns (p: nat, found: bool)
    ensures p <= |buf| && found == (id <= Nulls(buf))
    ensures found ==> Nulls(buf[p..]) == Nulls(buf) - id && Split(buf[p..])[0] == Split(buf)[id]
  {
    var left: nat := id;
    p := 0;
    assert buf[0..] == buf;
    while left > 0
      invariant p <= |buf| && left <= id
      invariant Nulls(buf) + left == Nulls(buf[p..]) + id
      invariant left <= Nulls(buf[p..]) ==> id <= Nulls(buf) && Split(buf[p..])[left] == Split(buf)[id]
      decreases |buf| - p
    {
      if p == |buf| {
        return p, false;
      }
      assert buf[p..][1..] == buf[p + 1..];
      if buf[p] == 0 {
        left := left - 1;
      }
      p := p + 1;
    }
    return p, true;
  }

  /** The actions of a segment are those of its first chunk and those of the rest. */
  lemma SegmentActs(buf: seq<Byte>, p: nat)
    requires p + 1 < |buf| && buf[p] != 0
    ensures IsMagic(buf[p]) && buf[p + 1] == 0 ==> Actions(Split(buf[p..])[0]) == []
    ensures IsMagic(buf[p]) && buf[p + 1] != 0 ==>
      Actions(Split(buf[p..])[0]) == [KeyAct(buf[p], buf[p + 1])] + Actions(Split(buf[p + 2..])[0])
    ensures !IsMagic(buf[p]) ==> Actions(Split(buf[p..])[0]) == [Type(buf[p])] + Actions(Split(buf[p + 1..])[0])
  {
    var segment, rest := Split(buf[p..])[0], Split(buf[p + 1..])[0];
    assert segment[1..] == rest;
    if buf[p + 1] != 0 {
      assert segment[2..] == rest[1..] == Split(buf[p + 2..])[0];
    }
  }

  /** The actions of the macro that starts at `p`. */
  ghost function MacroAt(buf: seq<Byte>, p: nat): seq<Act>
    requires p <= |buf|
  {
    Actions(Split(buf[p..])[0])
  }

  /** What is left of that macro once its first chunk has been sent. */
  lemma ChunkThenRest(buf: seq<Byte>, p: nat, c: Byte, data: seq<Byte>, sent: seq<Act>)
    requires p + 1 < |buf| && c == buf[p] != 0 && (IsMagic(c) ==> buf[p + 1] != 0)
    requires data == if IsMagic(c) then [SS_QMK_PREFIX, c, buf[p + 1], 0] else [c, 0, 0, 0]
    ensures WellFormed(data)
    ensures
      sent + MacroAt(buf, p) == sent + Interpret(data, 0) + MacroAt(buf, if IsMagic(c) then p + 2 else p + 1)
  {
    SegmentActs(buf, p);
  }

  lemma MacroEnds(buf: seq<Byte>, p: nat)
    requires p < |buf|
    ensures buf[p] == 0 ==> MacroAt(buf, p) == []
    ensures p + 1 < |buf| && IsMagic(buf[p]) && buf[p + 1] == 0 ==> MacroAt(buf, p) == []
  {
    if p + 1 < |buf| && buf[p] != 0 {
      SegmentActs(buf, p);
    }
  }

  /** Sends the macro that starts at `start`, up to its null. */
  method PlayMacro(buf: seq<Byte>, start: nat) returns (acts: seq<Act>)
    requires start < |buf| && buf[|buf| - 1] == 0
    ensures acts == MacroAt(buf, start)
  {
    acts := [];
    var p := start;
    while true
      invariant p < |buf|
      invariant acts + MacroAt(buf, p) == MacroAt(buf, start)
      decreases |buf| - p
    {
      var c := buf[p];
      MacroEnds(buf, p);
      ghost var at := p;
      p := p + 1;
      if c == 0 {
        break;
      }
      var data := [c, 0, 0, 0];
      if IsMagic(c) {
        var key := buf[p];
        p := p + 1;
        if key == 0 {
          break;
        }
        data := [SS_QMK_PREFIX, c, key, 0];
      }
      ChunkThenRest(buf, at, c, data, acts);
      var more := SendString(data, 0);
      acts := acts + more;
    }
  }

  lemma {:induction false} LastIsNull(buf: seq<Byte>, p: nat)
    requires p < |buf| && buf[|buf| - 1] == 0
    ensures Nulls(buf[p..]) > 0
    decreases |buf| - p
  {
    if p < |buf| - 1 {
      assert buf[p..][1..] == buf[p + 1..];
      LastIsNull(buf, p + 1);
    }
  }

  // -------------------------------------------------------------------- encoding

  /** What a macro editor may store: real keys, and characters that are not codes. */
  predicate Storable(m: seq<Act>) {
    forall i :: 0 <= i < |m| ==>
      !m[i].Wait? && if m[i].Type? then m[i].letter > 3 else m[i].key != 0
  }

  function EncodeAct(a: Act): seq<Byte>
    requires !a.Wait?
  {
    match a
    case Tap(k) => [1, k]
    case Press(k) => [2, k]
    case Release(k) => [3, k]
    case Type(c) => [c]
  }

  function Encode(m: seq<Act>): seq<Byte>
    requires Storable(m)
  {
    if m == [] then [] else EncodeAct(m[0]) + Encode(m[1..])
  }

  function EncodeAll(ms: seq<seq<Act>>): seq<Byte>
    requires forall i :: 0 <= i < |ms| ==> Storable(ms[i])
  {
    if ms == [] then [] else Encode(ms[0]) + [0] + EncodeAll(ms[1..])
  }

  lemma {:induction false} EncodeRoundTrip(m: seq<Act>)
    requires Storable(m)
    ensures Actions(Encode(m)) == m
    ensures forall i :: 0 <= i < |Encode(m)| ==> Encode(m)[i] != 0
  {
    if m != [] {
      EncodeRoundTrip(m[1..]);
      var e := Encode(m);
      assert e[|EncodeAct(m[0])|..] == Encode(m[1..]);
    }
  }

  /** A key code at the end of a macro, without its key, does nothing. */
  lemma {:induction false} DanglingCode(m: seq<Act>, code: Byte)
    requires Storable(m) && 1 <= code <= 3
    ensures Actions(Encode(m) + [code]) == m
  {
    if m == [] {
      assert Encode(m) + [code] == [code];
    } else {
      var all, n := Encode(m) + [code], |EncodeAct(m[0])|;
      DanglingCode(m[1..], code);
      assert all[n..] == Encode(m[1..]) + [code];
      assert all[..n] == EncodeAct(m[0]);
    }
  }

  lemma {:induction false} SplitPrefix(a: seq<Byte>, b: seq<Byte>)
    requires forall i :: 0 <= i < |a| ==> a[i] != 0
    ensures Nulls(a + [0] + b) == 1 + Nulls(b)
    ensures Split(a + [0] + b) == [a] + Split(b)
  {
    var all := a + [0] + b;
    if a == [] {
      assert all[1..] == b;
    } else {
      assert all[1..] == a[1..] + [0] + b;
      SplitPrefix(a[1..], b);
      assert [a[0]] + a[1..] == a;
    }
  }

  lemma {:induction false} SplitEncoded(ms: seq<seq<Act>>, rest: seq<Byte>, id: nat)
    requires id < |ms| && forall i :: 0 <= i < |ms| ==> Storable(ms[i])
    ensures id < Nulls(EncodeAll(ms) + rest)
    ensures Split(EncodeAll(ms) + rest)[id] == Encode(ms[id])
  {
    var tail := EncodeAll(ms[1..]) + rest;
    EncodeRoundTrip(ms[0]);
    assert EncodeAll(ms) + rest == Encode(ms[0]) + [0] + tail;
    SplitPrefix(Encode(ms[0]), tail);
    if id > 0 {
      SplitEncoded(ms[1..], rest, id - 1);
    }
  }

  /**
   What is stored is there to be sent: any list of storable macros encoded into the
   buffer and padded with nulls ends in a null and splits into the macros' encodings.
   */
  lemma StoredSegments(ms: seq<seq<Act>>, padding: nat, id: Byte)
    requires id < |ms| && forall i :: 0 <= i < |ms| ==> Storable(ms[i])
    ensures var buf := EncodeAll(ms) + seq(padding, i => 0);
      buf != [] && buf[|buf| - 1] == 0 && Nulls(buf) > id && Actions(Split(buf)[id]) == ms[id]
  {
    SplitEncoded(ms, seq(padding, i => 0), id);
    EncodeRoundTrip(ms[id]);
    EndsInNull(ms);
  }

  /** Sending plays what was stored, and reads only inside the buffer. */
  method StoreAndSend(ms: seq<seq<Act>>, padding: nat, id: Byte) returns (acts: seq<Act>, overrun: bool)
    requires id < |ms| && id < 16 && forall i :: 0 <= i < |ms| ==> Storable(ms[i])
    ensures acts == ms[id] && !overrun
  {
    var buf := EncodeAll(ms) + seq(padding, i => 0);
    StoredSegments(ms, padding, id);
    acts, overrun := MacroSend(buf, id);
  }

  /** A buffer that ends in its only null: macro 1 is read past its end. */
  method SendPastTheEnd() returns (acts: seq<Act>, overrun: bool)
    ensures overrun
  {
    var buf: seq<Byte> := [0x61, 0];
    assert buf[1..] == [0] && buf[1..][1..] == [];
    assert Nulls(buf[1..]) == 1;
    acts, overrun := MacroSend(buf, 1);
  }

  lemma {:induction false} EndsInNull(ms: seq<seq<Act>>)
    requires ms != [] && forall i :: 0 <= i < |ms| ==> Storable(ms[i])
    ensures var e := EncodeAll(ms); e != [] && e[|e| - 1] == 0
  {
    if |ms| > 1 {
      EndsInNull(ms[1..]);
    }
  }
}
