/** The matrix scan of keyboard_task (quantum/keyboard.c): one key event, or a tick, per call. */
module ScanSource {
  import opened Words
  import opened KeyEvents
  import opened TappingFifo

  /** timer_read() | 1 */
  function OddTime(now: Word16): (t: Word16)
    ensures t % 2 == 1
  {
    if now % 2 == 0 then now + 1 else now
  }

  function Tick(now: Word16): Event { Event(TICK_KEY, false, OddTime(now)) }

  /** The keys whose state differs. */
  function Changed(prev: set<KeyPos>, cur: set<KeyPos>): set<KeyPos> { (prev - cur) + (cur - prev) }

  function Toggle(prev: set<KeyPos>, k: KeyPos): set<KeyPos> { if k in prev then prev - {k} else prev + {k} }

  /** What one call may send and leave in matrix_prev: the first change, row by row and then column by column, or a tick. */
  ghost predicate Scanned(prev: set<KeyPos>, cur: set<KeyPos>, now: Word16, e: Event, prev': set<KeyPos>) {
    if Changed(prev, cur) == {} then
      e == Tick(now) && prev' == prev
    else
      && e.key in Changed(prev, cur)
      && (forall k :: k in Changed(prev, cur) && k != e.key ==>
            e.key.row < k.row || (e.key.row == k.row && e.key.col < k.col))
      && e == Event(e.key, e.key in cur, OddTime(now))
      && prev' == Toggle(prev, e.key)
  }

  class MatrixScanner {
    const rows: nat
    const cols: nat
    /** matrix_prev, one flag per key bit. */
    const matrixPrev: array2<bool>

    ghost predicate Valid() {
      rows <= 255 && cols <= 256 && Fits(matrixPrev)
    }

    predicate Fits(m: array2<bool>) { m.Length0 == rows && m.Length1 == cols }

    /** The keys that a matrix shows as pressed. */
    ghost function Pressed(m: array2<bool>): set<KeyPos>
      requires Valid() && Fits(m)
      reads m
    {
      set r: Byte, c: Byte | r < rows && c < cols && m[r, c] :: KeyPos(r, c)
    }

    constructor (rows: nat, cols: nat)
      requires rows <= 255 && cols <= 256
      ensures Valid() && Pressed(matrixPrev) == {} && fresh(matrixPrev)
      ensures this.rows == rows && this.cols == cols
    {
      this.rows, this.cols := rows, cols;
      matrixPrev := new bool[rows, cols]((i, j) => false);
    }

    /** The scan loop, with `current` as the rows that matrix_get_row returns. */
    method KeyboardTask(current: array2<bool>, now: Word16) returns (e: Event)
      requires Valid() && Fits(current) && current != matrixPrev
      modifies matrixPrev
      ensures Valid() && Scanned(old(Pressed(matrixPrev)), Pressed(current), now, e, Pressed(matrixPrev))
    {
      ghost var prev, cur := Pressed(matrixPrev), Pressed(current);
      for r := 0 to rows
        invariant Pressed(matrixPrev) == prev && Pressed(current) == cur
        invariant forall k :: k in Changed(prev, cur) ==> r <= k.row
      {
        for c := 0 to cols
          invariant Pressed(matrixPrev) == prev && Pressed(current) == cur
          invariant forall k :: k in Changed(prev, cur) ==> r < k.row || (r == k.row && c <= k.col)
        {
          var key := KeyPos(r, c);
          assert key in prev <==> matrixPrev[r, c];
          assert key in cur <==> current[r, c];
          if current[r, c] != matrixPrev[r, c] {
            e := Event(key, current[r, c], OddTime(now));
            matrixPrev[r, c] := !matrixPrev[r, c];
            assert forall k :: k in Pressed(matrixPrev) <==> k in Toggle(prev, key);
            return;
          }
        }
      }
      e := Tick(now);
    }
  }

  // ----------------------------------------------------------------------- runs

  /** A run of calls: the matrices seen, the times, and what was sent and remembered. */
  datatype Scan = Scan(cur: set<KeyPos>, now: Word16, sent: Event, prev: set<KeyPos>)

  /** matrix_prev after the calls, if it was `start` before them. */
  function Remembered(start: set<KeyPos>, scans: seq<Scan>): set<KeyPos> {
    if scans == [] then start else scans[|scans| - 1].prev
  }

  /** Each call scanned against what the call before it left. */
  ghost predicate IsRun(start: set<KeyPos>, scans: seq<Scan>) {
    scans != [] ==>
      var before, last := scans[..|scans| - 1], scans[|scans| - 1];
      IsRun(start, before) && Scanned(Remembered(start, before), last.cur, last.now, last.sent, last.prev)
  }

  function Sent(scans: seq<Scan>): seq<Event> {
    if scans == [] then [] else Sent(scans[..|scans| - 1]) + [scans[|scans| - 1].sent]
  }

  /** Matrices never show a key at the position reserved for ticks. */
  ghost predicate RealKeys(scans: seq<Scan>) {
    forall i :: 0 <= i < |scans| ==> TICK_KEY !in scans[i].cur
  }

  /** One call reduces the number of differences by exactly one, or finds none and sends a tick. */
  lemma OneFewer(prev: set<KeyPos>, cur: set<KeyPos>, now: Word16, e: Event, prev': set<KeyPos>)
    requires Scanned(prev, cur, now, e, prev')
    ensures prev != cur ==> |Changed(prev', cur)| == |Changed(prev, cur)| - 1
    ensures prev != cur && TICK_KEY !in prev && TICK_KEY !in cur ==> !NoEvent(e)
    ensures prev == cur ==> prev' == cur && e == Tick(now)
  {
    NoneChanged(prev, cur);
    if Changed(prev, cur) != {} {
      ToggleRemoves(prev, cur, e.key);
    }
  }

  lemma ToggleRemoves(prev: set<KeyPos>, cur: set<KeyPos>, k: KeyPos)
    requires k in Changed(prev, cur)
    ensures |Changed(Toggle(prev, k), cur)| == |Changed(prev, cur)| - 1
  {
    assert Changed(Toggle(prev, k), cur) == Changed(prev, cur) - {k};
  }

  lemma NoneChanged(prev: set<KeyPos>, cur: set<KeyPos>)
    ensures Changed(prev, cur) == {} <==> prev == cur
  {
    if Changed(prev, cur) == {} {
      assert forall k :: k in prev && k !in cur ==> k in Changed(prev, cur);
      assert forall k :: k in cur && k !in prev ==> k in Changed(prev, cur);
    }
  }

  /** A key's events so far take turns, and it is remembered as pressed exactly after an odd number of them. */
  ghost predicate InStep(k: KeyPos, es: seq<Event>, prev: set<KeyPos>) {
    Alternates(Inputs(k, es)) && (k in prev <==> |Inputs(k, es)| % 2 == 1)
  }

  lemma {:induction false} NoTickInputs(es: seq<Event>)
    ensures Inputs(TICK_KEY, es) == []
  {
    if es != [] {
      NoTickInputs(es[..|es| - 1]);
    }
  }

  /** Presses and releases of each key take turns, and matrix_prev holds exactly the keys left pressed. */
  lemma {:induction false} SentAlternates(scans: seq<Scan>, k: KeyPos)
    requires IsRun({}, scans) && RealKeys(scans) && k != TICK_KEY
    ensures InStep(k, Sent(scans), Remembered({}, scans))
    ensures TICK_KEY !in Remembered({}, scans)
    ensures forall i :: 0 <= i < |Sent(scans)| ==> WellFormed(Sent(scans)[i])
  {
    if scans != [] {
      var before := scans[..|scans| - 1];
      SentAlternates(before, k);
    }
  }

  /** So whatever the matrices do, the tapping engine is fed a lawful run. */
  lemma SentIsLawful(scans: seq<Scan>)
    requires IsRun({}, scans) && RealKeys(scans)
    ensures Lawful(Sent(scans))
  {
    SentAlternates(scans, KeyPos(0, 0));
    forall k ensures Alternates(Inputs(k, Sent(scans))) {
      if k == TICK_KEY {
        NoTickInputs(Sent(scans));
      } else {
        SentAlternates(scans, k);
      }
    }
  }

  /** Each call sends one event, stamped with its own time made odd, that tells its key's state in the matrix. */
  lemma {:induction false} SentIsStamped(start: set<KeyPos>, scans: seq<Scan>, i: nat)
    requires IsRun(start, scans) && i < |scans|
    ensures |Sent(scans)| == |scans|
    ensures var e, scan := Sent(scans)[i], scans[i];
      && e.time == scan.now - scan.now % 2 + 1
      && (e.key == TICK_KEY || (e.pressed <==> e.key in scan.cur))
  {
    var p := scans[..|scans| - 1];
    if i < |p| {
      SentIsStamped(start, p, i);
    } else if p != [] {
      SentIsStamped(start, p, 0);
    }
  }

  /**
   While the matrix stays the same, each call reports one of the differences, whatever
   was remembered before; once they are used up, matrix_prev is the matrix and only
   ticks are sent.
   */
  lemma {:induction false} ConstantMatrixSettles(start: set<KeyPos>, scans: seq<Scan>, cur: set<KeyPos>)
    requires IsRun(start, scans) && forall i :: 0 <= i < |scans| ==> scans[i].cur == cur
    ensures var d, n := |Changed(start, cur)|, |scans|;
      && |Changed(Remembered(start, scans), cur)| == (if n < d then d - n else 0)
      && (n >= d ==> Remembered(start, scans) == cur)
      && (n > d ==> scans[n - 1].sent == Tick(scans[n - 1].now))
  {
    NoneChanged(Remembered(start, scans), cur);
    if scans != [] {
      var before, last := scans[..|scans| - 1], scans[|scans| - 1];
      ConstantMatrixSettles(start, before, cur);
      OneFewer(Remembered(start, before), cur, last.now, last.sent, last.prev);
    }
  }
}
