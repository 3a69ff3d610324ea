/**
 Tap/hold agreement: every dispatched release is marked as a tap exactly when the
 press it belongs to was, unless a synthetic release came between them.
 */
module TappingAgreement {
  import opened Words
  import opened KeyEvents
  import opened Actions
  import opened TappingSpec
  import opened TappingFifo

  /** A key as the log shows it: up, or down since a press with these tap data and action. */
  datatype Mode = Up | Down(tapped: bool, action: Action)

  function ModeOf(k: KeyPos, log: seq<Dispatched>): Mode {
    if log == [] then Up
    else
      var d := log[|log| - 1];
      if d.rec.event.key != k then ModeOf(k, log[..|log| - 1])
      else if d.rec.event.pressed && !d.synthetic then Down(d.rec.tap.count > 0, d.action)
      else Up
  }

  predicate DownTap(k: KeyPos, log: seq<Dispatched>) { ModeOf(k, log).Down? && ModeOf(k, log).tapped }

  /** A release agrees with what the key is doing if it is a tap's release exactly for a tap. */
  predicate Agrees(before: seq<Dispatched>, r: Record) {
    !r.event.pressed && ModeOf(r.event.key, before).Down? ==>
      (r.tap.count > 0 <==> ModeOf(r.event.key, before).tapped)
  }

  predicate TapAgrees(log: seq<Dispatched>) {
    log != [] ==> TapAgrees(log[..|log| - 1]) && Agrees(log[..|log| - 1], log[|log| - 1].rec)
  }

  /** Which of the key's waiting events carry tap data. */
  function Marks(k: KeyPos, rs: seq<Record>): seq<bool> {
    if rs == [] then []
    else (if rs[0].event.key == k then [rs[0].tap.count > 0] else []) + Marks(k, rs[1..])
  }

  predicate HoldsTap(k: KeyPos, s: Engine) { Tapped(s) && s.tk.event.key == k }

  /**
   The state invariant for one key whose waiting events have marks `m`: only the
   oldest may be marked, and it is marked exactly when the key is down as a tap
   whose release the engine is not itself going to mark.
   */
  ghost predicate MarksFit(k: KeyPos, s: Engine, m: seq<bool>) {
    && (forall i :: 1 <= i < |m| ==> !m[i])
    && (m != [] && m[0] <==> DownTap(k, s.log) && !(HoldsTap(k, s) && s.tk.tap.count > 1))
    && (HoldsTap(k, s) ==> DownTap(k, s.log))
  }

  // ------------------------------------------------------------------ log facts

  lemma ProcessRecordModes(cfg: Config, s: Engine, r: Record, synthetic: bool, k: KeyPos)
    ensures var s' := ProcessRecord(cfg, s, r, synthetic);
      && (NoEvent(r.event) || r.event.key != k ==> ModeOf(k, s'.log) == ModeOf(k, s.log))
      && (!NoEvent(r.event) && r.event.key == k ==>
            (ModeOf(k, s'.log).Down? <==> r.event.pressed && !synthetic)
            && (DownTap(k, s'.log) <==> r.event.pressed && !synthetic && r.tap.count > 0))
      && (TapAgrees(s.log) && Agrees(s.log, r) ==> TapAgrees(s'.log))
  {
    if !NoEvent(r.event) {
      var a := ResolvedAction(cfg, s.host, r.event);
      assert (s.log + [Dispatched(r, synthetic, a)])[..|s.log|] == s.log;
    }
  }

  /** A key that is down was last dispatched as a press. */
  lemma {:induction false} DownWasPressed(k: KeyPos, log: seq<Dispatched>)
    requires ModeOf(k, log).Down? && forall i :: 0 <= i < |log| ==> !NoEvent(log[i].rec.event)
    ensures var ds := Dispatches(k, log); ds != [] && ds[|ds| - 1].pressed
  {
    if log[|log| - 1].rec.event.key != k {
      DownWasPressed(k, log[..|log| - 1]);
    }
  }

  ghost predicate LogReal(s: Engine) {
    forall i :: 0 <= i < |s.log| ==> !NoEvent(s.log[i].rec.event)
  }

  /** If a key's events take turns, it is up when its next event is a press or its press is pending. */
  lemma UpBeforePress(s: Engine, k: KeyPos)
    requires LogReal(s) && Alternates(Taken(k, s))
    requires |Taken(k, s)| % 2 == 0 || (Pending(s) && s.tk.event.key == k)
    ensures ModeOf(k, s.log).Up?
    ensures |Taken(k, s)| % 2 == 0 ==> !(Pending(s) && s.tk.event.key == k)
  {
    var t, ds := Taken(k, s), Dispatches(k, s.log);
    assert t[..|ds|] == ds;
    if Pending(s) && s.tk.event.key == k {
      assert t[|t| - 1] == s.tk.event;
    }
    if ds != [] {
      assert ds[|ds| - 1] == t[|ds| - 1];
    }
    if ModeOf(k, s.log).Down? {
      DownWasPressed(k, s.log);
    }
  }

  lemma {:induction false} MarksSame(k: KeyPos, a: seq<Record>, b: seq<Record>)
    requires |a| == |b|
    requires forall i :: 0 <= i < |a| ==>
      a[i].event.key == b[i].event.key && (a[i].event.key == k ==> (a[i].tap.count > 0 <==> b[i].tap.count > 0))
    ensures Marks(k, a) == Marks(k, b)
  {
    if a != [] {
      MarksSame(k, a[1..], b[1..]);
    }
  }

  lemma {:induction false} MarksConcat(k: KeyPos, a: seq<Record>, b: seq<Record>)
    ensures Marks(k, a + b) == Marks(k, a) + Marks(k, b)
  {
    if a == [] {
      assert a + b == b;
    } else {
      assert (a + b)[1..] == a[1..] + b;
      MarksConcat(k, a[1..], b);
    }
  }

  lemma {:induction false} MarksLength(k: KeyPos, rs: seq<Record>)
    ensures |Marks(k, rs)| == |EventsOf(k, rs)|
  {
    if rs != [] {
      MarksLength(k, rs[1..]);
    }
  }

  // ------------------------------------------------------------------- the scan

  /** Marking the key's first entry marks the first of its marks; no other key notices. */
  lemma {:induction false} MarkFirst(k: KeyPos, rs: seq<Record>, i: nat, r: Record)
    requires i < |rs| && rs[i].event.key == k && r.event.key == k && r.tap.count > 0
    requires forall j :: 0 <= j < i ==> rs[j].event.key != k
    ensures var m := Marks(k, rs); m != [] && Marks(k, rs[i := r]) == [true] + m[1..]
  {
    if i > 0 {
      MarkFirst(k, rs[1..], i - 1, r);
      assert rs[i := r][1..] == rs[1..][i - 1 := r];
    } else {
      assert rs[i := r][1..] == rs[1..];
    }
  }

  lemma {:induction false} EventsOfHas(k: KeyPos, rs: seq<Record>, i: nat)
    requires i < |rs| && rs[i].event.key == k
    ensures rs[i].event in EventsOf(k, rs)
  {
    if i > 0 {
      EventsOfHas(k, rs[1..], i - 1);
    }
  }

  /** Event `e` of a key pressed at time `start` settles that press as a tap. */
  predicate Settles(cfg: Config, start: Word16, e: Event) {
    !e.pressed && TimerDiff16(e.time, start) < cfg.term
  }

  /** If any of the key's waiting events would settle its press, the first of them does. */
  ghost predicate NextSettles(cfg: Config, start: Word16, waiting: seq<Event>) {
    (exists e :: e in waiting && Settles(cfg, start, e)) ==> Settles(cfg, start, waiting[0])
  }

  /** Entry `i` is the first of its key. */
  ghost predicate IsFirstOf(k: KeyPos, rs: seq<Record>, i: nat) {
    i < |rs| && rs[i].event.key == k && forall j :: 0 <= j < i ==> rs[j].event.key != k
  }

  lemma {:induction false} EventsOfFirst(k: KeyPos, rs: seq<Record>)
    requires EventsOf(k, rs) != []
    ensures exists i :: 0 <= i < |rs| && rs[i].event == EventsOf(k, rs)[0] && IsFirstOf(k, rs, i)
  {
    if rs[0].event.key != k {
      EventsOfFirst(k, rs[1..]);
      var i :| 0 <= i < |rs[1..]| && rs[1..][i].event == EventsOf(k, rs[1..])[0] && IsFirstOf(k, rs[1..], i);
      assert rs[i + 1] == rs[1..][i];
      assert IsFirstOf(k, rs, i + 1) by {
        assert forall j :: 0 < j < i + 1 ==> rs[j] == rs[1..][j - 1];
      }
    } else {
      assert IsFirstOf(k, rs, 0);
    }
  }

  /** `i` is where the scan of `rs` stops. */
  ghost predicate ScanStops(cfg: Config, k: KeyPos, start: Word16, rs: seq<Record>, i: nat) {
    && i < |rs| && rs[i].event.key == k && Settles(cfg, start, rs[i].event)
    && forall j :: 0 <= j < i ==> !(rs[j].event.key == k && Settles(cfg, start, rs[j].event))
  }

  /** The release the scan stops at is the key's next event exactly when that event would settle the press. */
  lemma ScanHitsNext(cfg: Config, k: KeyPos, rs: seq<Record>, i: nat, start: Word16)
    requires ScanStops(cfg, k, start, rs, i)
    ensures NextSettles(cfg, start, EventsOf(k, rs)) <==> IsFirstOf(k, rs, i)
  {
    EventsOfHas(k, rs, i);
    EventsOfFirst(k, rs);
  }

  /** If the scan stops nowhere, no waiting event settles the press. */
  lemma ScanStopsNowhere(cfg: Config, k: KeyPos, rs: seq<Record>, start: Word16)
    requires forall j :: 0 <= j < |rs| ==> !(rs[j].event.key == k && Settles(cfg, start, rs[j].event))
    ensures forall e :: e in EventsOf(k, rs) ==> !Settles(cfg, start, e)
  {
    forall e | e in EventsOf(k, rs) ensures !Settles(cfg, start, e) {
      var m :| 0 <= m < |EventsOf(k, rs)| && EventsOf(k, rs)[m] == e;
      EventsOfMember(k, rs, m);
    }
  }

  /** Marking an entry that is not the key's first leaves a mark behind the first. */
  lemma MarkLater(k: KeyPos, rs: seq<Record>, f: nat, i: nat, r: Record)
    requires f < i < |rs| && rs[f].event.key == k && r.event.key == k && r.tap.count > 0
    ensures var m := Marks(k, rs[i := r]); exists n :: 1 <= n < |m| && m[n]
  {
    assert rs[i := r] == rs[..i] + [r] + rs[i + 1..];
    MarksConcat(k, rs[..i], [r]);
    MarksConcat(k, rs[..i] + [r], rs[i + 1..]);
    assert [r][1..] == [];
    MarksLength(k, rs[..i]);
    EventsOfHas(k, rs[..i], f);
    assert Marks(k, rs[i := r])[|Marks(k, rs[..i])|];
  }

  /** MarksFit for a key the engine is not holding as a tap. */
  ghost predicate Fits(k: KeyPos, log: seq<Dispatched>, m: seq<bool>) {
    && (forall i :: 1 <= i < |m| ==> !m[i])
    && (m != [] && m[0] <==> DownTap(k, log))
  }

  /** The scan marks nothing of other keys. */
  lemma ScanOthers(cfg: Config, s: Engine, k: KeyPos)
    requires k != s.tk.event.key
    ensures var s' := ScanTap(cfg, s);
      Marks(k, s'.ring) == Marks(k, s.ring) && ModeOf(k, s'.log) == ModeOf(k, s.log)
  {
    var s' := ScanTap(cfg, s);
    FindReleaseIsRelease(cfg, s, 0);
    MarksSame(k, s.ring, s'.ring);
    var i := FindRelease(cfg, s, 0);
    if i < |s.ring| {
      var tk := s.tk.(tap := s.tk.tap.(count := 1));
      var marked := s.ring[i].(tap := s.ring[i].tap.(count := 1));
      ProcessRecordModes(cfg, s.(tk := tk, ring := s.ring[i := marked]), tk, false, k);
    }
  }

  /** A first tap whose own release has been marked. */
  lemma FirstMarked(k: KeyPos, s: Engine, m: seq<bool>)
    requires m != [] && forall i :: 1 <= i < |m| ==> !m[i]
    requires Tapped(s) && s.tk.tap.count == 1 && DownTap(k, s.log)
    ensures MarksFit(k, s, [true] + m[1..])
  {
  }

  /**
   The scan keeps the marks if and only if the key's next event settles its press whenever
   any of its waiting events does.
   */
  lemma ScanExactly(cfg: Config, s: Engine, j: nat)
    requires Pending(s) && j <= |s.ring| && forall i :: 0 <= i < j ==> s.ring[i].event.pressed
    requires Fits(s.tk.event.key, s.log, Marks(s.tk.event.key, s.ring[j..]))
    requires ModeOf(s.tk.event.key, s.log).Up?
    ensures var k, s' := s.tk.event.key, ScanTap(cfg, s);
      MarksFit(k, s', Marks(k, s'.ring[j..])) <==> NextSettles(cfg, s.tk.event.time, EventsOf(k, s.ring[j..]))
  {
    var k, start, rs := s.tk.event.key, s.tk.event.time, s.ring[j..];
    var i := FindRelease(cfg, s, 0);
    FindReleaseIsRelease(cfg, s, 0);
    if i < |s.ring| {
      assert ScanStops(cfg, k, start, rs, i - j);
      ScanHitsNext(cfg, k, rs, i - j, start);
      if IsFirstOf(k, rs, i - j) {
        ScanFits(cfg, s, j, i);
      } else {
        ScanMisses(cfg, s, j, i);
      }
    } else {
      ScanStopsNowhere(cfg, k, rs, start);
    }
  }

  lemma ScanMisses(cfg: Config, s: Engine, j: nat, i: nat)
    requires Pending(s) && i == FindRelease(cfg, s, 0) && j <= i < |s.ring|
    requires s.ring[i].event.key == s.tk.event.key && !IsFirstOf(s.tk.event.key, s.ring[j..], i - j)
    ensures var k, s' := s.tk.event.key, ScanTap(cfg, s); !MarksFit(k, s', Marks(k, s'.ring[j..]))
  {
    var k, rs := s.tk.event.key, s.ring[j..];
    var marked := s.ring[i].(tap := s.ring[i].tap.(count := 1));
    var f :| 0 <= f < i - j && rs[f].event.key == k;
    MarkLater(k, rs, f, i - j, marked);
    assert s.ring[i := marked][j..] == rs[i - j := marked];
  }

  lemma ScanFits(cfg: Config, s: Engine, j: nat, i: nat)
    requires Pending(s) && i == FindRelease(cfg, s, 0) && j <= i < |s.ring|
    requires IsFirstOf(s.tk.event.key, s.ring[j..], i - j)
    requires Fits(s.tk.event.key, s.log, Marks(s.tk.event.key, s.ring[j..]))
    ensures var k, s' := s.tk.event.key, ScanTap(cfg, s); MarksFit(k, s', Marks(k, s'.ring[j..]))
  {
    var k, rs := s.tk.event.key, s.ring[j..];
    var tk := s.tk.(tap := s.tk.tap.(count := 1));
    var marked := s.ring[i].(tap := s.ring[i].tap.(count := 1));
    ProcessRecordModes(cfg, s.(tk := tk, ring := s.ring[i := marked]), tk, false, k);
    MarkFirst(k, rs, i - j, marked);
    assert s.ring[i := marked][j..] == rs[i - j := marked];
    FirstMarked(k, ScanTap(cfg, s), Marks(k, rs));
  }

  // ------------------------------------------------- one call of process_tapping

  predicate FirstTap(cfg: Config, s: Engine, e: Event) {
    Pending(s) && Within(cfg, s, e) && IsTappingKey(s, e.key) && !e.pressed
  }

  /** A pending press belongs to a key that is up. */
  ghost predicate PendingUp(s: Engine) {
    Pending(s) ==> ModeOf(s.tk.event.key, s.log).Up?
  }

  /** The other keys, and a key whose event was not taken: their marks still fit. */
  lemma OthersFit(cfg: Config, s: Engine, keyp: Record, k: KeyPos)
    requires WellFormed(keyp.event) && PendingUp(s) && MarksFit(k, s, Marks(k, s.ring))
    requires var o := ProcessTapping(cfg, s, keyp);
      k != keyp.event.key || (!o.done && !FirstTap(cfg, s, keyp.event))
    ensures var o := ProcessTapping(cfg, s, keyp);
      MarksFit(k, o.s, Marks(k, o.s.ring))
  {
    ProcessRecordModes(cfg, s, keyp, false, k);
    var within := Within(cfg, s, keyp.event);
    if Pending(s) {
      OthersFitPending(cfg, s, keyp, k);
    } else if Tapped(s) {
      OthersFitTapped(cfg, s, keyp, within, k);
    } else if TapReleased(s) {
      if within {
        OthersFitReleased(cfg, s, keyp, k);
      }
    } else if keyp.event.pressed && IsTapRecord(cfg, s, keyp) {
      ScanOthers(cfg, s.(tk := keyp), k);
    }
  }

  lemma OthersFitPending(cfg: Config, s: Engine, keyp: Record, k: KeyPos)
    requires WellFormed(keyp.event) && Pending(s) && PendingUp(s) && MarksFit(k, s, Marks(k, s.ring))
    requires var o := ProcessTapping(cfg, s, keyp);
      k != keyp.event.key || (!o.done && !FirstTap(cfg, s, keyp.event))
    ensures var o := ProcessTapping(cfg, s, keyp);
      MarksFit(k, o.s, Marks(k, o.s.ring))
  {
    if FirstTap(cfg, s, keyp.event) {
      OthersFitFirstTap(cfg, s, keyp, k);
    } else if Within(cfg, s, keyp.event) {
      OthersFitWithin(cfg, s, keyp, k);
    } else {
      ProcessRecordModes(cfg, s, s.tk, false, k);
    }
  }

  lemma OthersFitWithin(cfg: Config, s: Engine, keyp: Record, k: KeyPos)
    requires Pending(s) && Within(cfg, s, keyp.event) && !FirstTap(cfg, s, keyp.event) && MarksFit(k, s, Marks(k, s.ring))
    requires k != keyp.event.key || !PendingWithin(cfg, s, keyp).done
    ensures var o := PendingWithin(cfg, s, keyp);
      MarksFit(k, o.s, Marks(k, o.s.ring))
  {
    ProcessRecordModes(cfg, s, keyp, false, k);
  }

  lemma OthersFitFirstTap(cfg: Config, s: Engine, keyp: Record, k: KeyPos)
    requires FirstTap(cfg, s, keyp.event) && MarksFit(k, s, Marks(k, s.ring)) && k != keyp.event.key
    ensures var o := PendingWithin(cfg, s, keyp);
      MarksFit(k, o.s, Marks(k, o.s.ring))
  {
    var tk := s.tk.(tap := s.tk.tap.(count := 1));
    ProcessRecordModes(cfg, s.(tk := tk), tk, false, k);
  }

  lemma OthersFitTapped(cfg: Config, s: Engine, keyp: Record, within: bool, k: KeyPos)
    requires WellFormed(keyp.event) && Tapped(s) && MarksFit(k, s, Marks(k, s.ring)) && k != keyp.event.key
    ensures var o := TappedCase(cfg, s, keyp, within);
      MarksFit(k, o.s, Marks(k, o.s.ring))
  {
    var release := SyntheticRelease(s, keyp.event.time);
    ProcessRecordModes(cfg, s, keyp, false, k);
    ProcessRecordModes(cfg, s, keyp.(tap := s.tk.tap), false, k);
    ProcessRecordModes(cfg, s, release, true, k);
    if IsTapRecord(cfg, s, keyp) && keyp.event.pressed {
      var s1 := if s.tk.tap.count > 1 then ProcessRecord(cfg, s, release, true) else s;
      ScanOthers(cfg, s1.(tk := keyp), k);
    }
  }

  lemma OthersFitReleased(cfg: Config, s: Engine, keyp: Record, k: KeyPos)
    requires WellFormed(keyp.event) && TapReleased(s) && MarksFit(k, s, Marks(k, s.ring)) && k != keyp.event.key
    ensures var o := ReleasedWithin(cfg, s, keyp);
      MarksFit(k, o.s, Marks(k, o.s.ring))
  {
    if !keyp.event.pressed {
      ProcessRecordModes(cfg, s, keyp, false, k);
    } else if IsTappingKey(s, keyp.event.key) {
      var tap := s.tk.tap;
      var r := keyp.(tap := if tap.count < 15 then tap.(count := tap.count + 1) else tap);
      ProcessRecordModes(cfg, s, r, false, k);
    } else if IsTapRecord(cfg, s, keyp) {
      ScanOthers(cfg, s.(tk := keyp), k);
    } else {
      ProcessRecordModes(cfg, s.(tk := s.tk.(tap := s.tk.tap.(interrupted := true))), keyp, false, k);
    }
  }

  /** `after` is what waits behind `keyp`: the ring, or the ring without its oldest entry if that is `keyp`. */
  predicate Behind(s: Engine, keyp: Record, j: nat) {
    j == 0 || (j == 1 && s.ring != [] && s.ring[0] == keyp)
  }

  /** `keyp` is its key's next event, and its mark and those behind it fit. */
  ghost predicate OwnTurn(s: Engine, keyp: Record, j: nat)
    requires Behind(s, keyp, j)
  {
    var k := keyp.event.key;
    && WellFormed(keyp.event) && !NoEvent(keyp.event) && (keyp.event.pressed ==> keyp.tap.count == 0)
    && MarksFit(k, s, [keyp.tap.count > 0] + Marks(k, s.ring[j..]))
    && (keyp.event.pressed ==> ModeOf(k, s.log).Up? && !(Pending(s) && s.tk.event.key == k))
  }

  /** Taking `keyp` starts a tap of its own, which is settled by a scan of the ring. */
  predicate Scans(cfg: Config, s: Engine, keyp: Record) {
    && keyp.event.pressed && IsTapRecord(cfg, s, keyp)
    && (!IsTapping(s) || Tapped(s) || (TapReleased(s) && Within(cfg, s, keyp.event) && !IsTappingKey(s, keyp.event.key)))
  }

  /** If it scans, its key's next event settles it whenever any of those behind `keyp` does. */
  ghost predicate ScanHits(cfg: Config, s: Engine, keyp: Record, j: nat)
    requires j <= |s.ring|
  {
    Scans(cfg, s, keyp) ==> NextSettles(cfg, keyp.event.time, EventsOf(keyp.event.key, s.ring[j..]))
  }

  lemma TailUnmarked(k: KeyPos, s: Engine, b: bool, m: seq<bool>)
    requires MarksFit(k, s, [b] + m)
    ensures forall i :: 0 <= i < |m| ==> !m[i]
  {
    forall i | 0 <= i < |m| ensures !m[i] {
      assert ([b] + m)[i + 1] == m[i];
    }
  }

  /** A fresh press of a tap key, once any earlier tap has been closed. */
  lemma OwnStart(cfg: Config, s: Engine, keyp: Record, j: nat)
    requires Behind(s, keyp, j) && OwnTurn(s, keyp, j) && keyp.event.pressed
    ensures var k, s' := keyp.event.key, ScanTap(cfg, s.(tk := keyp));
      MarksFit(k, s', Marks(k, s'.ring[j..])) <==> NextSettles(cfg, keyp.event.time, EventsOf(k, s.ring[j..]))
  {
    TailUnmarked(keyp.event.key, s, keyp.tap.count > 0, Marks(keyp.event.key, s.ring[j..]));
    ScanExactly(cfg, s.(tk := keyp), j);
  }

  /** When the record is taken, what waits behind it fits exactly if its scan hits. */
  lemma OwnFits(cfg: Config, s: Engine, keyp: Record, j: nat)
    requires Behind(s, keyp, j) && OwnTurn(s, keyp, j)
    requires ProcessTapping(cfg, s, keyp).done
    ensures var o := ProcessTapping(cfg, s, keyp);
      MarksFit(keyp.event.key, o.s, Marks(keyp.event.key, o.s.ring[j..])) <==> ScanHits(cfg, s, keyp, j)
  {
    TailUnmarked(keyp.event.key, s, keyp.tap.count > 0, Marks(keyp.event.key, s.ring[j..]));
    ProcessRecordModes(cfg, s, keyp, false, keyp.event.key);
    var within := Within(cfg, s, keyp.event);
    if Pending(s) {
    } else if Tapped(s) {
      OwnFitsTapped(cfg, s, keyp, within, j);
    } else if TapReleased(s) {
      OwnFitsReleased(cfg, s, keyp, j);
    } else if keyp.event.pressed && IsTapRecord(cfg, s, keyp) {
      OwnStart(cfg, s, keyp, j);
    }
  }

  lemma OwnFitsTapped(cfg: Config, s: Engine, keyp: Record, within: bool, j: nat)
    requires Behind(s, keyp, j) && OwnTurn(s, keyp, j) && Tapped(s)
    ensures var o := TappedCase(cfg, s, keyp, within);
      MarksFit(keyp.event.key, o.s, Marks(keyp.event.key, o.s.ring[j..])) <==> ScanHits(cfg, s, keyp, j)
  {
    var k := keyp.event.key;
    TailUnmarked(k, s, keyp.tap.count > 0, Marks(k, s.ring[j..]));
    if IsTappingKey(s, k) && !keyp.event.pressed {
      ProcessRecordModes(cfg, s, keyp.(tap := s.tk.tap), false, k);
    } else if IsTapRecord(cfg, s, keyp) && keyp.event.pressed {
      OwnFitsNext(cfg, s, keyp, j);
    } else {
      ProcessRecordModes(cfg, s, keyp, false, k);
    }
  }

  /** A tap key's press closes the tap before it and starts its own. */
  lemma OwnFitsNext(cfg: Config, s: Engine, keyp: Record, j: nat)
    requires Behind(s, keyp, j) && OwnTurn(s, keyp, j) && Tapped(s) && keyp.event.pressed
    ensures var s1 := if s.tk.tap.count > 1 then ProcessRecord(cfg, s, SyntheticRelease(s, keyp.event.time), true) else s;
      var k, s' := keyp.event.key, ScanTap(cfg, s1.(tk := keyp));
      MarksFit(k, s', Marks(k, s'.ring[j..])) <==> NextSettles(cfg, keyp.event.time, EventsOf(k, s.ring[j..]))
  {
    var release := SyntheticRelease(s, keyp.event.time);
    ProcessRecordModes(cfg, s, release, true, keyp.event.key);
    OwnStart(cfg, if s.tk.tap.count > 1 then ProcessRecord(cfg, s, release, true) else s, keyp, j);
  }

  lemma OwnFitsReleased(cfg: Config, s: Engine, keyp: Record, j: nat)
    requires Behind(s, keyp, j) && OwnTurn(s, keyp, j) && TapReleased(s) && Within(cfg, s, keyp.event)
    ensures var o := ReleasedWithin(cfg, s, keyp);
      MarksFit(keyp.event.key, o.s, Marks(keyp.event.key, o.s.ring[j..])) <==> ScanHits(cfg, s, keyp, j)
  {
    var k := keyp.event.key;
    TailUnmarked(k, s, keyp.tap.count > 0, Marks(k, s.ring[j..]));
    if !keyp.event.pressed {
      ProcessRecordModes(cfg, s, keyp, false, k);
    } else if IsTappingKey(s, k) {
      var tap := s.tk.tap;
      var r := keyp.(tap := if tap.count < 15 then tap.(count := tap.count + 1) else tap);
      ProcessRecordModes(cfg, s, r, false, k);
    } else if IsTapRecord(cfg, s, keyp) {
      OwnStart(cfg, s, keyp, j);
    } else {
      ProcessRecordModes(cfg, s.(tk := s.tk.(tap := s.tk.tap.(interrupted := true))), keyp, false, k);
    }
  }

  /** The tap that settles the pending press also marks the release that settled it. */
  lemma FirstTapFits(cfg: Config, s: Engine, keyp: Record, j: nat)
    requires Behind(s, keyp, j) && FirstTap(cfg, s, keyp.event)
    requires MarksFit(keyp.event.key, s, [keyp.tap.count > 0] + Marks(keyp.event.key, s.ring[j..]))
    ensures var o := ProcessTapping(cfg, s, keyp);
      MarksFit(keyp.event.key, o.s, [o.keyp.tap.count > 0] + Marks(keyp.event.key, o.s.ring[j..]))
  {
    var k := keyp.event.key;
    TailUnmarked(k, s, keyp.tap.count > 0, Marks(k, s.ring[j..]));
    var tk := s.tk.(tap := s.tk.tap.(count := 1));
    ProcessRecordModes(cfg, s.(tk := tk), tk, false, k);
  }

  // ------------------------------------------------------- agreement of the log

  lemma ScanAgrees(cfg: Config, s: Engine)
    requires TapAgrees(s.log)
    ensures TapAgrees(ScanTap(cfg, s).log)
  {
    var i := FindRelease(cfg, s, 0);
    if s.tk.event.pressed && i < |s.ring| {
      var tk := s.tk.(tap := s.tk.tap.(count := 1));
      var marked := s.ring[i].(tap := s.ring[i].tap.(count := 1));
      ProcessRecordModes(cfg, s.(tk := tk, ring := s.ring[i := marked]), tk, false, tk.event.key);
    }
  }

  /** One call keeps the log in agreement, if a release it may dispatch unchanged agrees already. */
  lemma StepAgrees(cfg: Config, s: Engine, keyp: Record)
    requires TapAgrees(s.log) && (Tapped(s) ==> DownTap(s.tk.event.key, s.log))
    requires ProcessTapping(cfg, s, keyp).done && !HoldsTap(keyp.event.key, s) ==> Agrees(s.log, keyp)
    ensures TapAgrees(ProcessTapping(cfg, s, keyp).s.log)
  {
    if Pending(s) {
      ProcessRecordModes(cfg, s, s.tk, false, s.tk.event.key);
      if Within(cfg, s, keyp.event) {
        StepAgreesPending(cfg, s, keyp);
      }
    } else if Tapped(s) {
      StepAgreesTapped(cfg, s, keyp, Within(cfg, s, keyp.event));
    } else if !keyp.event.pressed {
      ProcessRecordModes(cfg, s, keyp, false, keyp.event.key);
    } else {
      StepAgreesPress(cfg, s, keyp);
    }
  }

  lemma StepAgreesPending(cfg: Config, s: Engine, keyp: Record)
    requires TapAgrees(s.log) && Pending(s)
    requires PendingWithin(cfg, s, keyp).done ==> Agrees(s.log, keyp)
    ensures TapAgrees(PendingWithin(cfg, s, keyp).s.log)
  {
    var tk := s.tk.(tap := s.tk.tap.(count := 1));
    ProcessRecordModes(cfg, s.(tk := tk), tk, false, tk.event.key);
    ProcessRecordModes(cfg, s, keyp, false, keyp.event.key);
  }

  lemma StepAgreesPress(cfg: Config, s: Engine, keyp: Record)
    requires TapAgrees(s.log) && !Pending(s) && !Tapped(s) && keyp.event.pressed
    ensures TapAgrees(ProcessTapping(cfg, s, keyp).s.log)
  {
    var k := keyp.event.key;
    ScanAgrees(cfg, s.(tk := keyp));
    ProcessRecordModes(cfg, s, keyp, false, k);
    ProcessRecordModes(cfg, s.(tk := s.tk.(tap := s.tk.tap.(interrupted := true))), keyp, false, k);
    var tap := s.tk.tap;
    var r := keyp.(tap := if tap.count < 15 then tap.(count := tap.count + 1) else tap);
    ProcessRecordModes(cfg, s, r, false, k);
  }

  lemma StepAgreesTapped(cfg: Config, s: Engine, keyp: Record, within: bool)
    requires TapAgrees(s.log) && Tapped(s) && DownTap(s.tk.event.key, s.log)
    requires !HoldsTap(keyp.event.key, s) ==> Agrees(s.log, keyp)
    ensures TapAgrees(TappedCase(cfg, s, keyp, within).s.log)
  {
    var k := keyp.event.key;
    var release := SyntheticRelease(s, keyp.event.time);
    ProcessRecordModes(cfg, s, release, true, k);
    ProcessRecordModes(cfg, s, keyp, false, k);
    ProcessRecordModes(cfg, s, keyp.(tap := s.tk.tap), false, k);
    if keyp.event.pressed {
      ScanAgrees(cfg, s.(tk := keyp));
      ScanAgrees(cfg, ProcessRecord(cfg, s, release, true).(tk := keyp));
    }
  }

  // ------------------------------------------------------------- the invariant

  ghost predicate SoundKey(k: KeyPos, s: Engine) {
    Alternates(Accounted(k, s)) && MarksFit(k, s, Marks(k, s.ring))
  }

  ghost predicate Sound(s: Engine) {
    && RingOk(s) && LogReal(s) && TapAgrees(s.log)
    && forall k | k != TICK_KEY :: SoundKey(k, s)
  }

  /** One call only adds to the log, and only real events. */
  lemma ProcessTappingLogs(cfg: Config, s: Engine, keyp: Record)
    ensures var o := ProcessTapping(cfg, s, keyp); s.log <= o.s.log && (LogReal(s) ==> LogReal(o.s))
  {
    if Tapped(s) {
      TappedLogs(cfg, s, keyp, Within(cfg, s, keyp.event));
    } else if !Pending(s) && keyp.event.pressed {
      ScanLogs(cfg, s.(tk := keyp));
    }
  }

  lemma TappedLogs(cfg: Config, s: Engine, keyp: Record, within: bool)
    ensures var o := TappedCase(cfg, s, keyp, within); s.log <= o.s.log && (LogReal(s) ==> LogReal(o.s))
  {
    if keyp.event.pressed {
      ScanLogs(cfg, s.(tk := keyp));
      ScanLogs(cfg, ProcessRecord(cfg, s, SyntheticRelease(s, keyp.event.time), true).(tk := keyp));
    }
  }

  lemma ScanLogs(cfg: Config, s: Engine)
    ensures var s' := ScanTap(cfg, s); s.log <= s'.log && (LogReal(s) ==> LogReal(s'))
  {
  }

  lemma SoundPendingUp(s: Engine)
    requires Sound(s)
    ensures PendingUp(s)
  {
    if Pending(s) {
      var k := s.tk.event.key;
      assert SoundKey(k, s);
      TakenAlternates(k, s);
      UpBeforePress(s, k);
    }
  }

  lemma TakenAlternates(k: KeyPos, s: Engine)
    requires Alternates(Accounted(k, s))
    ensures Alternates(Taken(k, s))
  {
    var t, a := Taken(k, s), Accounted(k, s);
    forall i | 0 <= i < |t| ensures t[i].pressed <==> i % 2 == 0 {
      assert t[i] == a[i];
    }
  }

  /** In a sound state the ring's oldest entry is its key's next event. */
  lemma HeadOwnTurn(s: Engine)
    requires Sound(s) && s.ring != []
    ensures OwnTurn(s, s.ring[0], 1)
  {
    var h := s.ring[0];
    var k := h.event.key;
    assert SoundKey(k, s);
    assert Marks(k, s.ring) == [h.tap.count > 0] + Marks(k, s.ring[1..]);
    if h.event.pressed {
      HeadPressTurn(s);
    }
  }

  lemma HeadPressTurn(s: Engine)
    requires Sound(s) && s.ring != [] && s.ring[0].event.pressed
    ensures var h := s.ring[0];
      ModeOf(h.event.key, s.log).Up? && !(Pending(s) && s.tk.event.key == h.event.key)
  {
    var h := s.ring[0];
    var k := h.event.key;
    assert SoundKey(k, s);
    TakenAlternates(k, s);
    assert WaitingOf(k, s)[0] == h.event;
    assert Accounted(k, s)[|Taken(k, s)|] == h.event;
    UpBeforePress(s, k);
  }

  /** The oldest entry's own key: its marks fit after the pass exactly if its scan hits. */
  lemma DrainStepOwnMarks(cfg: Config, s: Engine)
    requires Sound(s) && s.ring != []
    ensures var k, s' := s.ring[0].event.key, DrainStep(cfg, s).s;
      MarksFit(k, s', Marks(k, s'.ring)) <==> ScanHits(cfg, s, s.ring[0], 1)
  {
    if DrainStep(cfg, s).done {
      TakenMarks(cfg, s);
    } else if FirstTap(cfg, s, s.ring[0].event) {
      SettlerMarks(cfg, s);
    } else {
      RefusedMarks(cfg, s);
    }
  }

  lemma TakenMarks(cfg: Config, s: Engine)
    requires Sound(s) && s.ring != [] && DrainStep(cfg, s).done
    ensures var k, s' := s.ring[0].event.key, DrainStep(cfg, s).s;
      MarksFit(k, s', Marks(k, s'.ring)) <==> ScanHits(cfg, s, s.ring[0], 1)
  {
    HeadOwnTurn(s);
    OwnFits(cfg, s, s.ring[0], 1);
    assert DrainStep(cfg, s).s.ring == ProcessTapping(cfg, s, s.ring[0]).s.ring[1..];
  }

  lemma SettlerMarks(cfg: Config, s: Engine)
    requires Sound(s) && s.ring != [] && FirstTap(cfg, s, s.ring[0].event)
    ensures var k, s' := s.ring[0].event.key, DrainStep(cfg, s).s; MarksFit(k, s', Marks(k, s'.ring))
  {
    HeadOwnTurn(s);
    FirstTapFits(cfg, s, s.ring[0], 1);
    assert DrainStep(cfg, s).s.ring[1..] == ProcessTapping(cfg, s, s.ring[0]).s.ring[1..];
  }

  lemma RefusedMarks(cfg: Config, s: Engine)
    requires Sound(s) && s.ring != [] && !DrainStep(cfg, s).done && !FirstTap(cfg, s, s.ring[0].event)
    ensures var k, s' := s.ring[0].event.key, DrainStep(cfg, s).s; MarksFit(k, s', Marks(k, s'.ring))
  {
    var h := s.ring[0];
    HeadOwnTurn(s);
    SoundPendingUp(s);
    assert SoundKey(h.event.key, s);
    OthersFit(cfg, s, h, h.event.key);
    ProcessTappingTakes(cfg, s, h, h.event.key);
    assert ProcessTapping(cfg, s, h).s.ring[0].event == h.event;
    DrainStepKeepsRing(cfg, s, h.event.key);
  }

  lemma DrainStepOtherMarks(cfg: Config, s: Engine, k: KeyPos)
    requires Sound(s) && s.ring != [] && k != TICK_KEY && k != s.ring[0].event.key
    ensures var s' := DrainStep(cfg, s).s; MarksFit(k, s', Marks(k, s'.ring))
  {
    var h := s.ring[0];
    assert SoundKey(k, s);
    SoundPendingUp(s);
    HeadOwnTurn(s);
    OthersFit(cfg, s, h, k);
    ProcessTappingTakes(cfg, s, h, k);
    assert ProcessTapping(cfg, s, h).s.ring[0].event == h.event;
    DrainStepKeepsRing(cfg, s, k);
  }

  lemma DrainStepKeepsRing(cfg: Config, s: Engine, k: KeyPos)
    requires s.ring != []
    requires var o := ProcessTapping(cfg, s, s.ring[0]);
      && o.s.ring[0].event == s.ring[0].event == o.keyp.event
      && (k != s.ring[0].event.key || (!o.done && !FirstTap(cfg, s, s.ring[0].event)))
    ensures Marks(k, DrainStep(cfg, s).s.ring) == Marks(k, ProcessTapping(cfg, s, s.ring[0]).s.ring)
  {
    var o := ProcessTapping(cfg, s, s.ring[0]);
    if !o.done {
      MarksSame(k, o.s.ring, o.s.ring[0 := o.keyp]);
    }
  }

  /** One pass of the drain loop keeps the invariant if and only if its scan, if any, hits. */
  lemma DrainStepSoundExactly(cfg: Config, s: Engine)
    requires Sound(s) && s.ring != []
    ensures Sound(DrainStep(cfg, s).s) <==> ScanHits(cfg, s, s.ring[0], 1)
  {
    var h, s' := s.ring[0], DrainStep(cfg, s).s;
    ProcessTappingLogs(cfg, s, h);
    HeadAgrees(cfg, s);
    DrainStepConserves(cfg, s, h.event.key);
    DrainStepOwnMarks(cfg, s);
    if ScanHits(cfg, s, h, 1) {
      forall k | k != TICK_KEY ensures SoundKey(k, s') {
        assert SoundKey(k, s);
        DrainStepConserves(cfg, s, k);
        if k != h.event.key {
          DrainStepOtherMarks(cfg, s, k);
        }
      }
    } else {
      assert !SoundKey(h.event.key, s');
    }
  }

  lemma HeadAgrees(cfg: Config, s: Engine)
    requires Sound(s) && s.ring != []
    ensures TapAgrees(ProcessTapping(cfg, s, s.ring[0]).s.log)
  {
    var h := s.ring[0];
    HeadOwnTurn(s);
    if IsTapping(s) {
      assert SoundKey(s.tk.event.key, s);
    }
    StepAgrees(cfg, s, h);
  }

  /** Every scan of the drain loop hits. */
  ghost predicate DrainHits(cfg: Config, s: Engine)
    decreases |s.ring|
  {
    s.ring != [] ==>
      && ScanHits(cfg, s, s.ring[0], 1)
      && (DrainStep(cfg, s).done ==> DrainHits(cfg, DrainStep(cfg, s).s))
  }

  /** The invariant holds before the drain loop and after every pass of it. */
  ghost predicate SoundDrain(cfg: Config, s: Engine)
    decreases |s.ring|
  {
    && Sound(s)
    && (s.ring != [] ==>
          var o := DrainStep(cfg, s);
          if o.done then SoundDrain(cfg, o.s) else Sound(o.s))
  }

  /** The drain loop keeps the invariant all along if and only if every scan of it hits. */
  lemma {:induction false} DrainSoundExactly(cfg: Config, s: Engine)
    requires Sound(s)
    ensures SoundDrain(cfg, s) <==> DrainHits(cfg, s)
    ensures DrainHits(cfg, s) ==> Sound(Drain(cfg, s))
    decreases |s.ring|
  {
    if s.ring != [] {
      DrainStepSoundExactly(cfg, s);
      if DrainStep(cfg, s).done && ScanHits(cfg, s, s.ring[0], 1) {
        DrainSoundExactly(cfg, DrainStep(cfg, s).s);
      }
    }
  }

  // -------------------------------------------------------------------- arrival

  /**
   What a real event must meet when it arrives: it overtakes nothing, and if it settles
   the pending press as a tap, it is that key's next event.
   */
  predicate InTurn(cfg: Config, s: Engine, e: Event) {
    NoEvent(e) || (Admissible(cfg, s, e) && (FirstTap(cfg, s, e) ==> WaitingOf(e.key, s) == []))
  }

  /** An event or tick in turn, behind which every scan of the drain loop hits. */
  ghost predicate Orderly(cfg: Config, s: Engine, e: Event) {
    InTurn(cfg, s, e) && DrainHits(cfg, Arrive(cfg, ClearWeak(s, e), Record(e, NO_TAP)))
  }

  /** An arriving event of a key with nothing waiting is that key's next event. */
  lemma ArrivalOwnTurn(s: Engine, e: Event)
    requires Sound(s) && !NoEvent(e) && WaitingOf(e.key, s) == [] && Alternates(Accounted(e.key, s) + [e])
    ensures WellFormed(e) ==> OwnTurn(s, Record(e, NO_TAP), 0)
    ensures !HoldsTap(e.key, s) ==> Agrees(s.log, Record(e, NO_TAP))
  {
    var k := e.key;
    assert SoundKey(k, s);
    MarksLength(k, s.ring);
    assert s.ring[0..] == s.ring;
    assert Accounted(k, s) == Taken(k, s);
    assert (Accounted(k, s) + [e])[|Taken(k, s)|] == e;
    if e.pressed {
      UpBeforePress(s, k);
    }
  }

  lemma OfferMarks(cfg: Config, s: Engine, e: Event, k: KeyPos)
    requires Sound(s) && WellFormed(e) && InTurn(cfg, s, e) && k != TICK_KEY
    requires !NoEvent(e) ==> Alternates(Accounted(e.key, s) + [e])
    ensures var o := ProcessTapping(cfg, s, Record(e, NO_TAP));
      && (o.done || k != e.key ==> MarksFit(k, o.s, Marks(k, o.s.ring)))
      && (!o.done && k == e.key ==> MarksFit(k, o.s, Marks(k, o.s.ring) + [o.keyp.tap.count > 0]))
  {
    var r := Record(e, NO_TAP);
    var o := ProcessTapping(cfg, s, r);
    assert SoundKey(k, s);
    SoundPendingUp(s);
    assert s.ring[0..] == s.ring && o.s.ring[0..] == o.s.ring;
    if k != e.key || (!o.done && !FirstTap(cfg, s, e)) {
      OthersFit(cfg, s, r, k);
      OfferKeepsTap(cfg, s, r);
    } else if o.done {
      TakenAtOnce(cfg, s, e);
      ArrivalOwnTurn(s, e);
      OwnFits(cfg, s, r, 0);
    } else {
      ArrivalOwnTurn(s, e);
      FirstTapFits(cfg, s, r, 0);
      MarksLength(k, s.ring);
      assert Marks(k, o.s.ring) == [];
    }
  }

  /** Only the release that settles a pending press is given tap data without being taken. */
  lemma OfferKeepsTap(cfg: Config, s: Engine, r: Record)
    ensures var o := ProcessTapping(cfg, s, r);
      !o.done && !FirstTap(cfg, s, r.event) ==> o.keyp == r
  {
  }

  lemma EnqueueMarks(s: Engine, r: Record, k: KeyPos)
    requires k != TICK_KEY && Enqueue(s, r).overflows == s.overflows
    requires k != r.event.key ==> MarksFit(k, s, Marks(k, s.ring))
    requires k == r.event.key ==> !NoEvent(r.event) && MarksFit(k, s, Marks(k, s.ring) + [r.tap.count > 0])
    ensures var s' := Enqueue(s, r); MarksFit(k, s', Marks(k, s'.ring))
  {
    MarksConcat(k, s.ring, [r]);
    assert [r][1..] == [];
    assert Marks(k, [r]) == if r.event.key == k then [r.tap.count > 0] else [];
  }

  lemma ArriveMarks(cfg: Config, s: Engine, e: Event, k: KeyPos)
    requires Sound(s) && WellFormed(e) && InTurn(cfg, s, e) && k != TICK_KEY
    requires !NoEvent(e) ==> Alternates(Accounted(e.key, s) + [e])
    requires Arrive(cfg, s, Record(e, NO_TAP)).overflows == s.overflows
    ensures var s' := Arrive(cfg, s, Record(e, NO_TAP)); MarksFit(k, s', Marks(k, s'.ring))
  {
    var o := ProcessTapping(cfg, s, Record(e, NO_TAP));
    OfferMarks(cfg, s, e, k);
    ProcessTappingTakes(cfg, s, Record(e, NO_TAP), k);
    if !o.done {
      EnqueueMarks(o.s, o.keyp, k);
    }
  }

  lemma ArriveAgrees(cfg: Config, s: Engine, e: Event)
    requires Sound(s) && WellFormed(e) && InTurn(cfg, s, e)
    requires !NoEvent(e) ==> Alternates(Accounted(e.key, s) + [e])
    ensures TapAgrees(ProcessTapping(cfg, s, Record(e, NO_TAP)).s.log)
  {
    var r := Record(e, NO_TAP);
    if IsTapping(s) {
      assert SoundKey(s.tk.event.key, s);
    }
    if NoEvent(e) {
      TickKeyUp(s.log);
    } else if ProcessTapping(cfg, s, r).done {
      TakenAtOnce(cfg, s, e);
      ArrivalOwnTurn(s, e);
    }
    StepAgrees(cfg, s, r);
  }

  lemma {:induction false} TickKeyUp(log: seq<Dispatched>)
    requires forall i :: 0 <= i < |log| ==> !NoEvent(log[i].rec.event)
    ensures ModeOf(TICK_KEY, log).Up?
  {
    if log != [] {
      TickKeyUp(log[..|log| - 1]);
    }
  }

  lemma WeakSound(s: Engine, e: Event)
    requires Sound(s)
    ensures Sound(ClearWeak(s, e))
  {
    forall k | k != TICK_KEY ensures SoundKey(k, ClearWeak(s, e)) {
      assert SoundKey(k, s);
    }
  }

  /** One whole call of action_exec keeps the invariant. */
  lemma ActionExecSound(cfg: Config, s: Engine, e: Event)
    requires Sound(s) && WellFormed(e) && Orderly(cfg, s, e)
    requires !NoEvent(e) ==> Alternates(Accounted(e.key, s) + [e])
    requires ActionExec(cfg, s, e).overflows == s.overflows
    ensures Sound(ActionExec(cfg, s, e))
  {
    var s0 := ClearWeak(s, e);
    WeakSound(s, e);
    var s1 := Arrive(cfg, s0, Record(e, NO_TAP));
    ArriveRingOk(cfg, s0, e);
    DrainConserves(cfg, s1, e.key);
    ArriveSound(cfg, s0, e);
    DrainSoundExactly(cfg, s1);
  }

  lemma ArriveSound(cfg: Config, s: Engine, e: Event)
    requires Sound(s) && WellFormed(e) && InTurn(cfg, s, e)
    requires !NoEvent(e) ==> Alternates(Accounted(e.key, s) + [e])
    requires Arrive(cfg, s, Record(e, NO_TAP)).overflows == s.overflows
    ensures Sound(Arrive(cfg, s, Record(e, NO_TAP)))
  {
    var r := Record(e, NO_TAP);
    var s' := Arrive(cfg, s, r);
    ProcessTappingLogs(cfg, s, r);
    ArriveAgrees(cfg, s, e);
    ArriveRingOk(cfg, s, e);
    ArriveLog(cfg, s, r);
    forall k | k != TICK_KEY ensures SoundKey(k, s') {
      assert SoundKey(k, s);
      ArriveMarks(cfg, s, e, k);
      ArriveAccounts(cfg, s, e, k);
    }
  }

  lemma ArriveLog(cfg: Config, s: Engine, r: Record)
    ensures Arrive(cfg, s, r).log == ProcessTapping(cfg, s, r).s.log
  {
  }

  // ---------------------------------------------------------- the condition is exact

  /** Overtaking breaks the turns of presses and releases. */
  lemma OvertakingBreaksTurns(t: seq<Event>, w: seq<Event>, e: Event)
    requires w != [] && Alternates(t + w + [e])
    ensures !Alternates(t + [e] + w)
  {
    var n, last := |t| + |w| + 1, w[|w| - 1];
    assert (t + w + [e])[n - 2] == last && (t + [e] + w)[n - 1] == last;
  }

  lemma SoundIsAdmissible(cfg: Config, s: Engine, e: Event)
    requires Sound(s) && WellFormed(e) && !NoEvent(e) && Alternates(Accounted(e.key, s) + [e])
    requires Sound(Arrive(cfg, s, Record(e, NO_TAP)))
    ensures Admissible(cfg, s, e)
  {
    var k, r := e.key, Record(e, NO_TAP);
    if !Admissible(cfg, s, e) {
      var o := ProcessTapping(cfg, s, r);
      assert o.done;
      ProcessTappingTakes(cfg, s, r, k);
      EventsOfSame(k, s.ring, o.s.ring);
      assert Accounted(k, o.s) == Taken(k, s) + [e] + WaitingOf(k, s);
      assert SoundKey(k, o.s);
      OvertakingBreaksTurns(Taken(k, s), WaitingOf(k, s), e);
    }
  }

  /** A release that settles the pending press while others of its key wait marks the wrong event. */
  lemma SoundTapIsNext(cfg: Config, s: Engine, e: Event)
    requires Sound(s) && WellFormed(e) && FirstTap(cfg, s, e) && !NoEvent(e)
    requires Arrive(cfg, s, Record(e, NO_TAP)).overflows == s.overflows
    requires Sound(Arrive(cfg, s, Record(e, NO_TAP)))
    ensures WaitingOf(e.key, s) == []
  {
    var k, r := e.key, Record(e, NO_TAP);
    var o, s' := ProcessTapping(cfg, s, r), Arrive(cfg, s, r);
    assert s'.ring == s.ring + [o.keyp] && o.keyp.tap.count > 0 && o.keyp.event == e;
    assert SoundKey(k, s');
    MarksConcat(k, s.ring, [o.keyp]);
    assert Marks(k, [o.keyp]) == [true] by {
      assert [o.keyp][1..] == [];
    }
    MarksLength(k, s.ring);
    var m := Marks(k, s'.ring);
    assert m[|m| - 1];
  }

  /** An arrival keeps the invariant if and only if the event is in turn. */
  lemma ArriveSoundExactly(cfg: Config, s: Engine, e: Event)
    requires Sound(s) && WellFormed(e)
    requires !NoEvent(e) ==> Alternates(Accounted(e.key, s) + [e])
    requires Arrive(cfg, s, Record(e, NO_TAP)).overflows == s.overflows
    ensures Sound(Arrive(cfg, s, Record(e, NO_TAP))) <==> InTurn(cfg, s, e)
  {
    if InTurn(cfg, s, e) {
      ArriveSound(cfg, s, e);
    } else if Sound(Arrive(cfg, s, Record(e, NO_TAP))) {
      SoundIsAdmissible(cfg, s, e);
      if FirstTap(cfg, s, e) {
        SoundTapIsNext(cfg, s, e);
      }
    }
  }

  // ----------------------------------------------------------------- whole runs

  ghost predicate AllOrderly(cfg: Config, es: seq<Event>) {
    es != [] ==>
      AllOrderly(cfg, es[..|es| - 1]) && Orderly(cfg, Run(cfg, es[..|es| - 1]), es[|es| - 1])
  }

  /**
   Tap/hold agreement over whole runs: in every lawful, orderly run without overflow,
   each release dispatched for a key that is down, real or synthetic, carries a tap
   count exactly when that key's press did.
   */
  lemma {:induction false} RunAgrees(cfg: Config, es: seq<Event>)
    requires Lawful(es) && AllOrderly(cfg, es) && Run(cfg, es).overflows == 0
    ensures Sound(Run(cfg, es)) && KeepsOrder(Run(cfg, es), es)
    ensures TapAgrees(Run(cfg, es).log)
  {
    if es != [] {
      var p, e := es[..|es| - 1], es[|es| - 1];
      LawfulPrefix(es);
      RunRingOk(cfg, es);
      RunRingOk(cfg, p);
      RunAgrees(cfg, p);
      RunStep(cfg, es);
      assert Accounted(e.key, Run(cfg, p)) == Inputs(e.key, p);
      assert Alternates(Inputs(e.key, es));
      ActionExecSound(cfg, Run(cfg, p), e);
    }
  }

  /** The invariant held after every arrival and after every pass of every drain loop. */
  ghost predicate AlwaysSound(cfg: Config, es: seq<Event>) {
    es != [] ==>
      var p, e := es[..|es| - 1], es[|es| - 1];
      AlwaysSound(cfg, p) && SoundDrain(cfg, Arrive(cfg, ClearWeak(Run(cfg, p), e), Record(e, NO_TAP)))
  }

  /**
   The conditions are exact: the tap marks in the ring fit what has been dispatched, at
   every step of a lawful run without overflow, if and only if every event was in turn
   and every scan of the ring stopped at the right release.
   */
  lemma {:induction false} SoundExactly(cfg: Config, es: seq<Event>)
    requires Lawful(es) && Run(cfg, es).overflows == 0
    ensures AlwaysSound(cfg, es) <==> AllOrderly(cfg, es)
  {
    if es != [] {
      var p := es[..|es| - 1];
      LawfulPrefix(es);
      RunRingOk(cfg, es);
      RunRingOk(cfg, p);
      SoundExactly(cfg, p);
      if AllOrderly(cfg, p) {
        RunAgrees(cfg, p);
        SoundStep(cfg, es);
      }
    }
  }

  lemma SoundStep(cfg: Config, es: seq<Event>)
    requires es != [] && Lawful(es) && Run(cfg, es).overflows == Run(cfg, es[..|es| - 1]).overflows
    requires var s := Run(cfg, es[..|es| - 1]); Sound(s) && KeepsOrder(s, es[..|es| - 1])
    ensures var s, e := Run(cfg, es[..|es| - 1]), es[|es| - 1];
      SoundDrain(cfg, Arrive(cfg, ClearWeak(s, e), Record(e, NO_TAP))) <==> Orderly(cfg, s, e)
  {
    var p, e := es[..|es| - 1], es[|es| - 1];
    var s := Run(cfg, p);
    var s0 := ClearWeak(s, e);
    var s1 := Arrive(cfg, s0, Record(e, NO_TAP));
    assert Accounted(e.key, s) == Inputs(e.key, p);
    assert Alternates(Inputs(e.key, es));
    WeakSound(s, e);
    ArriveRingOk(cfg, s0, e);
    DrainConserves(cfg, s1, e.key);
    ArriveSoundExactly(cfg, s0, e);
    assert InTurn(cfg, s0, e) == InTurn(cfg, s, e);
    if Sound(s1) {
      DrainSoundExactly(cfg, s1);
    }
  }
}
