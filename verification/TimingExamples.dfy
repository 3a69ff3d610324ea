/**
 More runs that show why conditions are there: a clock that goes round while events wait,
 a pending press that is settled by the release of an unrelated layer key, and a release
 that waits as long as new tap keys are pressed.
 */
module TimingExamples {
  import opened KeyEvents
  import opened Actions
  import opened TappingSpec
  import opened TappingFifo
  import opened TappingAgreement
  import opened TappingTimes
  import opened TappingDecisions
  import opened Clock
  import opened Latency
  import opened TappingExamples

  // ------------------------------------------------------- the clock has gone round

  /** 65 seconds after the two presses, K is released, pressed and released again. */
  const XD131 := Bare(Press(X, 131))
  const KU51 := Bare(Lift(K, 51))
  const KD61 := Bare(Press(K, 61))
  const KU111 := Bare(Lift(K, 111))
  const MARKED := Record(Lift(K, 111), Tap(false, 1))
  const TICK_203 := Event(TICK_KEY, false, 203)

  const W3 := PROLOGUE + [Press(X, 131)]
  const W4 := W3 + [Lift(K, 51)]
  const W5 := W4 + [Press(K, 61)]
  const W6 := W5 + [Lift(K, 111)]
  const W7 := W6 + [TICK_203]
  const WRAPPED := W7 + [LATE_TICK]

  lemma WrappedCounts()
    ensures |Inputs(X, PROLOGUE)| == 0 && |Inputs(K, W3)| == 1 && |Inputs(K, W4)| == 2 && |Inputs(K, W5)| == 3
  {
    assert PROLOGUE == [] + [Press(J, 1)] + [Press(K, 101)];
    forall k ensures |Inputs(k, PROLOGUE)| == if k == J || k == K then 1 else 0 {
      InputsSnoc(k, [], Press(J, 1));
      InputsSnoc(k, [] + [Press(J, 1)], Press(K, 101));
    }
    InputsSnoc(K, PROLOGUE, Press(X, 131));
    InputsSnoc(K, W3, Lift(K, 51));
    InputsSnoc(K, W4, Press(K, 61));
  }

  lemma WrappedStart()
    ensures Fine(W4) && Shape(Run(BOARD, W4), Press(J, 1), Tap(true, 0), [KD101, XD131, KU51])
  {
    AfterPrologue();
    FineM2();
    WrappedCounts();
    QueueNext(PROLOGUE, [KD101], Press(X, 131));
    QueueNext(W3, [KD101] + [XD131], Lift(K, 51));
    assert [KD101] + [XD131] + [KU51] == [KD101, XD131, KU51];
  }

  lemma WrappedQueue()
    ensures Fine(W5) && Shape(Run(BOARD, W5), Press(J, 1), Tap(true, 0), [KD101, XD131, KU51, KD61])
    ensures Fine(W6) && Shape(Run(BOARD, W6), Press(J, 1), Tap(true, 0), [KD101, XD131, KU51, KD61, KU111])
  {
    WrappedStart();
    WrappedCounts();
    QueueNext(W4, [KD101, XD131, KU51], Press(K, 61));
    assert [KD101, XD131, KU51] + [KD61] == [KD101, XD131, KU51, KD61];
    QueueNext(W5, [KD101, XD131, KU51, KD61], Lift(K, 111));
    assert [KD101, XD131, KU51, KD61] + [KU111] == [KD101, XD131, KU51, KD61, KU111];
  }

  /** J times out; the scan takes K's second release for the end of its first press. */
  lemma WrongScan(s: Engine)
    requires Shape(s, Press(J, 1), Tap(true, 0), [KD101, XD131, KU51, KD61, KU111])
    ensures var s1 := Arrive(BOARD, s, Bare(TICK_203));
      && s1.ring != [] && DrainStep(BOARD, s1).done
      && Shape(DrainStep(BOARD, s1).s, Press(K, 101), Tap(false, 1), [XD131, KU51, KD61, MARKED])
      && DownTap(K, DrainStep(BOARD, s1).s.log)
  {
    var s1 := Arrive(BOARD, s, Bare(TICK_203));
    assert ShapeNone(s1, [KD101, XD131, KU51, KD61, KU111]);
    var t := s1.(tk := KD101);
    FindReleaseIsRelease(BOARD, t, 0);
    assert IsTappingKey(t, K) && Within(BOARD, t, t.ring[4].event) && !Within(BOARD, t, t.ring[2].event);
    assert FindRelease(BOARD, t, 0) == 4;
    var tk := Record(Press(K, 101), Tap(false, 1));
    ProcessRecordModes(BOARD, t.(tk := tk, ring := t.ring[4 := MARKED]), tk, false, K);
  }

  /** K's next event is its first release, but only the second seems to come within the term. */
  lemma MissedScan(s: Engine)
    requires Shape(s, Press(J, 1), Tap(true, 0), [KD101, XD131, KU51, KD61, KU111])
    ensures !DrainHits(BOARD, Arrive(BOARD, s, Bare(TICK_203)))
  {
    var s1 := Arrive(BOARD, s, Bare(TICK_203));
    assert ShapeNone(s1, [KD101, XD131, KU51, KD61, KU111]);
    TapKeys(s1, KD101);
    assert [KU111][1..] == [] && EventsOf(K, [KU111]) == [Lift(K, 111)];
    assert [KD61, KU111][1..] == [KU111] && EventsOf(K, [KD61, KU111]) == [Press(K, 61), Lift(K, 111)];
    assert [KU51, KD61, KU111][1..] == [KD61, KU111];
    assert EventsOf(K, [KU51, KD61, KU111]) == [Lift(K, 51), Press(K, 61), Lift(K, 111)];
    assert [XD131, KU51, KD61, KU111][1..] == [KU51, KD61, KU111] && s1.ring[1..] == [XD131, KU51, KD61, KU111];
    assert EventsOf(K, s1.ring[1..]) == [Lift(K, 51), Press(K, 61), Lift(K, 111)];
    assert Settles(BOARD, 101, Lift(K, 111)) && Lift(K, 111) in EventsOf(K, s1.ring[1..]);
  }

  /** X starts and, seen from the wrapped time of K's first release, times out at once. */
  lemma ScanEnd(s2: Engine)
    requires Shape(s2, Press(K, 101), Tap(false, 1), [XD131, KU51, KD61, MARKED]) && DownTap(K, s2.log)
    ensures ShapeNone(Drain(BOARD, s2), [KU51, KD61, MARKED]) && DownTap(K, Drain(BOARD, s2).log)
  {
    TapKeys(s2, XD131);
    FindReleaseIsRelease(BOARD, s2.(tk := XD131), 0);
    var s3 := DrainStep(BOARD, s2).s;
    assert Shape(s3, Press(X, 131), NO_TAP, [KU51, KD61, MARKED]) && s3.log == s2.log;
    ProcessRecordModes(BOARD, s3, s3.tk, false, K);
    var s4 := DrainStep(BOARD, s3).s;
    assert ShapeNone(s4, [KU51, KD61, MARKED]);
    assert Drain(BOARD, s2) == Drain(BOARD, s3) == s4;
  }

  lemma WrappedScan()
    ensures Fine(W7) && ShapeNone(Run(BOARD, W7), [KU51, KD61, MARKED]) && DownTap(K, Run(BOARD, W7).log)
  {
    WrappedQueue();
    Extend(W6, TICK_203);
    WrongScan(Run(BOARD, W6));
    ScanEnd(DrainStep(BOARD, Arrive(BOARD, Run(BOARD, W6), Bare(TICK_203))).s);
  }

  /** The marked release is not K's next, so that one goes out as the end of a hold. */
  lemma ReleasedMismatch(s: Engine)
    requires ShapeNone(s, [KU51, KD61, MARKED]) && DownTap(K, s.log)
    ensures !TapAgrees(ActionExec(BOARD, s, LATE_TICK).log) && ActionExec(BOARD, s, LATE_TICK).overflows == 0
  {
    var s2 := DrainStep(BOARD, s).s;
    var d := Dispatched(KU51, false, ResolvedAction(BOARD, s.host, KU51.event));
    assert Arrive(BOARD, s, Bare(LATE_TICK)) == s;
    assert s2.log == s.log + [d] && s2.log[..|s2.log| - 1] == s.log;
    assert !TapAgrees(s2.log);
    DrainExtends(BOARD, s2);
    if TapAgrees(Drain(BOARD, s2).log) {
      AgreesPrefix(s2.log, Drain(BOARD, s2).log);
    }
    DrainConserves(BOARD, s, K);
  }

  lemma NotCircular(s: Engine)
    requires Shape(s, Press(J, 1), Tap(true, 0), [KD101, XD131, KU51, KD61])
    ensures !Circular(StillInFlight(BOARD, s, Lift(K, 111)))
  {
    var still := StillInFlight(BOARD, s, Lift(K, 111));
    assert [KD61][1..] == [] && EventsOf(K, [KD61]) == [Press(K, 61)];
    assert [KU51, KD61][1..] == [KD61] && EventsOf(K, [KU51, KD61]) == [Lift(K, 51), Press(K, 61)];
    assert [XD131, KU51, KD61][1..] == [KU51, KD61] && s.ring[1..] == [XD131, KU51, KD61];
    assert EventsOf(K, [XD131, KU51, KD61]) == [Lift(K, 51), Press(K, 61)];
    assert WaitingOf(K, s) == [Press(K, 101)] + [Lift(K, 51), Press(K, 61)];
    assert still == [Press(K, 101), Lift(K, 51), Press(K, 61), Lift(K, 111)];
    assert TimerDiff16(still[1].time, still[0].time) > TimerDiff16(still[3].time, still[0].time);
  }

  /**
   A lawful, admissible run without overflow in which no release settles a pending press
   out of turn. Only its sixth event is out of circular order; behind the tick that follows,
   a scan marks the wrong release, and K's tap ends with the release of a hold.
   */
  lemma ClockGoesRound()
    ensures Lawful(WRAPPED) && AllAdmissible(BOARD, WRAPPED)
    ensures Run(BOARD, WRAPPED).overflows == 0 && !TapAgrees(Run(BOARD, WRAPPED).log)
    ensures !FirstTap(BOARD, Run(BOARD, W5), Lift(K, 111)) && !Circular(StillInFlight(BOARD, Run(BOARD, W5), Lift(K, 111)))
    ensures !DrainHits(BOARD, Arrive(BOARD, Run(BOARD, W6), Bare(TICK_203)))
  {
    WrappedQueue();
    NotCircular(Run(BOARD, W5));
    MissedScan(Run(BOARD, W6));
    WrappedScan();
    Extend(W7, LATE_TICK);
    ReleasedMismatch(Run(BOARD, W7));
  }

  // ------------------------------------------------------ settled by a stranger's release

  const H := KeyPos(0, 4)
  const M := KeyPos(0, 5)

  /** H holds layer 2; M is Control on layer 2 and a plain key elsewhere. */
  const LAYERED := Config(
    200,
    (l: Layer, k: KeyPos) =>
      if k == H then Momentary(2)
      else if k == M then (if l == 2 then Key({}, KC_LEFT_CTRL) else Key({}, 6))
      else if k == Y then Key({}, 4)
      else LayerTap(1, 5),
    {0})

  ghost predicate Form(s: Engine, tk: Record, ring: seq<Record>, layers: set<nat>) {
    s.tk == tk && s.ring == ring && s.host.layers == layers && s.overflows == 0
  }

  const MU151 := Bare(Lift(M, 151))
  const JD5 := Record(Press(J, 5), Tap(true, 0))
  const TICK_207 := Event(TICK_KEY, false, 207)

  lemma {:induction false} TopLayerAt(active: set<nat>, key: KeyPos, n: nat, l: nat)
    requires l < n <= MAX_LAYER && l in active && forall j :: l < j < n ==> j !in active
    ensures TopLayer(LAYERED, active, key, n) == l
  {
    if l < n - 1 {
      TopLayerAt(active, key, n - 1, l);
    }
  }

  /** What a key does while `top` is the highest layer. */
  lemma ActionOn(s: Engine, key: KeyPos, top: Layer)
    requires top in s.host.layers && forall j :: top < j < MAX_LAYER ==> j !in s.host.layers
    ensures LayerSwitchGetAction(LAYERED, s.host, key) == LAYERED.keymap(top, key)
  {
    TopLayerAt(s.host.layers + LAYERED.defaultLayers, key, MAX_LAYER, top);
  }

  lemma PressesControl(s: Engine)
    requires Form(s, EMPTY_RECORD, [], {2})
    ensures Form(ActionExec(LAYERED, s, Press(M, 3)), EMPTY_RECORD, [], {2})
  {
  }

  lemma StartsJ(s: Engine)
    requires Form(s, EMPTY_RECORD, [], {2})
    ensures Form(ActionExec(LAYERED, s, Press(J, 5)), Bare(Press(J, 5)), [], {2})
  {
  }

  lemma QueuesK(s: Engine)
    requires Form(s, Bare(Press(J, 5)), [], {2})
    ensures Form(ActionExec(LAYERED, s, Press(K, 101)), JD5, [KD101], {2})
  {
    var s1 := Arrive(LAYERED, ClearWeak(s, Press(K, 101)), KD101);
    assert s1.ring == [KD101];
    assert DrainStep(LAYERED, s1).s.ring == [KD101];
  }

  /** While J is pending, presses wait, releases of waiting presses wait, and so does Control on layer 2. */
  lemma Waits(s: Engine, rs: seq<Record>, e: Event)
    requires Form(s, JD5, rs, {2}) && 0 < |rs| < RING_CAPACITY && rs[0] == KD101
    requires e.key != J && !NoEvent(e) && 5 <= e.time < 205 && (e.pressed || Typed(s, e) || e.key == M)
    ensures Form(ActionExec(LAYERED, s, e), JD5, rs + [Bare(e)], {2})
  {
    var s0 := ClearWeak(s, e);
    ActionOn(s0, e.key, 2);
    var s1 := Arrive(LAYERED, s0, Bare(e));
    assert Form(s1, JD5, rs + [Bare(e)], {2});
    assert s1.ring[0] == KD101;
    var s2 := DrainStep(LAYERED, s1).s;
    assert s2.ring == s1.ring;
  }

  const HELD := [KD101, KU121, YD131, KD141, MU151, KU161]

  lemma WaitsAll(s: Engine)
    requires Form(s, JD5, [KD101], {2})
    ensures var s1 := ActionExec(LAYERED, s, Lift(K, 121));
      var s2 := ActionExec(LAYERED, s1, Press(Y, 131));
      Form(ActionExec(LAYERED, s2, Press(K, 141)), JD5, [KD101, KU121, YD131, KD141], {2})
  {
    Waits(s, [KD101], Lift(K, 121));
    var s1 := ActionExec(LAYERED, s, Lift(K, 121));
    Waits(s1, [KD101] + [KU121], Press(Y, 131));
    Waits(ActionExec(LAYERED, s1, Press(Y, 131)), [KD101] + [KU121] + [YD131], Press(K, 141));
    assert [KD101] + [KU121] + [YD131] + [KD141] == [KD101, KU121, YD131, KD141];
  }

  lemma WaitsMore(s: Engine)
    requires Form(s, JD5, [KD101, KU121, YD131, KD141], {2})
    ensures Form(ActionExec(LAYERED, ActionExec(LAYERED, s, Lift(M, 151)), Lift(K, 161)), JD5, HELD, {2})
  {
    var s1 := ActionExec(LAYERED, s, Lift(M, 151));
    Waits(s, [KD101, KU121, YD131, KD141], Lift(M, 151));
    assert s1.ring[3] == KD141;
    Waits(s1, [KD101, KU121, YD131, KD141] + [MU151], Lift(K, 161));
    assert [KD101, KU121, YD131, KD141] + [MU151] + [KU161] == HELD;
  }

  /** J becomes a hold, which turns layer 1 on, and K's first tap is found in the ring. */
  lemma JHolds(s: Engine)
    requires Form(s, JD5, HELD, {2})
    ensures var s1 := Arrive(LAYERED, s, Bare(TICK_207));
      && s1.ring != [] && DrainStep(LAYERED, s1).done
      && Form(DrainStep(LAYERED, s1).s, Record(Press(K, 101), Tap(false, 1)),
              [Record(Lift(K, 121), Tap(false, 1)), YD131, KD141, MU151, KU161], {1, 2})
  {
    var s1 := Arrive(LAYERED, s, Bare(TICK_207));
    assert Form(s1, EMPTY_RECORD, HELD, {1, 2});
    FindReleaseIsRelease(LAYERED, s1.(tk := KD101), 0);
    assert FindRelease(LAYERED, s1.(tk := KD101), 0) == 1;
  }

  /** K's first tap plays, Y interrupts it, K's second press is pending, and Control's release has to wait. */
  lemma KPends(s2: Engine)
    requires Form(s2, Record(Press(K, 101), Tap(false, 1)),
                  [Record(Lift(K, 121), Tap(false, 1)), YD131, KD141, MU151, KU161], {1, 2})
    ensures Form(Drain(LAYERED, s2), Bare(Press(K, 141)), [MU151, KU161], {1, 2})
  {
    var s3 := DrainStep(LAYERED, s2).s;
    assert Form(s3, Record(Lift(K, 121), Tap(false, 1)), [YD131, KD141, MU151, KU161], {1, 2});
    var s4 := DrainStep(LAYERED, s3).s;
    assert Form(s4, Record(Lift(K, 121), Tap(true, 1)), [KD141, MU151, KU161], {1, 2});
    var s5 := DrainStep(LAYERED, s4).s;
    assert Form(s5, Bare(Press(K, 141)), [MU151, KU161], {1, 2});
    ActionOn(s5, M, 2);
    var s6 := DrainStep(LAYERED, s5).s;
    assert s6.ring == s5.ring;
    assert Drain(LAYERED, s4) == Drain(LAYERED, s5) == s6;
    assert Drain(LAYERED, s2) == Drain(LAYERED, s3) == Drain(LAYERED, s4);
  }

  /** H's release takes layer 2 away, so Control's release may go, and K's own release comes to the front. */
  lemma StrangerSettles(s: Engine)
    requires Form(s, Bare(Press(K, 141)), [MU151, KU161], {1, 2})
    ensures var e, s1 := Lift(H, 211), Arrive(LAYERED, s, Bare(Lift(H, 211)));
      && Within(LAYERED, s, e) && !FirstTap(LAYERED, s, e) && LetGo(LAYERED, s, e)
      && Form(s1, Bare(Press(K, 141)), [MU151, KU161], {1}) && !Steady(LAYERED, s1)
  {
    var e, s1 := Lift(H, 211), Arrive(LAYERED, s, Bare(Lift(H, 211)));
    ActionOn(s, H, 2);
    assert Form(s1, Bare(Press(K, 141)), [MU151, KU161], {1});
    ActionOn(s1, M, 1);
    var s2 := DrainStep(LAYERED, s1).s;
    assert LetGo(LAYERED, s1, Lift(M, 151));
    assert s2.ring == [KU161];
    assert FirstTap(LAYERED, s2, Lift(K, 161));
  }

  const BEFORE := [Press(H, 1)] + [Press(M, 3)] + [Press(J, 5)] + [Press(K, 101)]
  const HELD_BACK := BEFORE + [Lift(K, 121)] + [Press(Y, 131)] + [Press(K, 141)] + [Lift(M, 151)] + [Lift(K, 161)] + [TICK_207]

  lemma AfterBefore()
    ensures Form(Run(LAYERED, BEFORE), JD5, [KD101], {2})
  {
    var p1, p2 := [Press(H, 1)], [Press(H, 1)] + [Press(M, 3)];
    assert [] + p1 == p1;
    RunOne(LAYERED, [], Press(H, 1));
    RunOne(LAYERED, p1, Press(M, 3));
    PressesControl(Run(LAYERED, p1));
    RunOne(LAYERED, p2, Press(J, 5));
    StartsJ(Run(LAYERED, p2));
    RunOne(LAYERED, p2 + [Press(J, 5)], Press(K, 101));
    QueuesK(Run(LAYERED, p2 + [Press(J, 5)]));
  }

  lemma AfterWaiting()
    ensures Form(Run(LAYERED, BEFORE + [Lift(K, 121)] + [Press(Y, 131)] + [Press(K, 141)]), JD5,
                 [KD101, KU121, YD131, KD141], {2})
  {
    AfterBefore();
    WaitsAll(Run(LAYERED, BEFORE));
    RunOne(LAYERED, BEFORE, Lift(K, 121));
    RunOne(LAYERED, BEFORE + [Lift(K, 121)], Press(Y, 131));
    RunOne(LAYERED, BEFORE + [Lift(K, 121)] + [Press(Y, 131)], Press(K, 141));
  }

  lemma AfterHeldBack()
    ensures Form(Run(LAYERED, HELD_BACK), Bare(Press(K, 141)), [MU151, KU161], {1, 2})
  {
    var p := BEFORE + [Lift(K, 121)] + [Press(Y, 131)] + [Press(K, 141)];
    AfterWaiting();
    WaitsMore(Run(LAYERED, p));
    RunOne(LAYERED, p, Lift(M, 151));
    RunOne(LAYERED, p + [Lift(M, 151)], Lift(K, 161));
    RunOne(LAYERED, p + [Lift(M, 151)] + [Lift(K, 161)], TICK_207);
    var s := Run(LAYERED, p + [Lift(M, 151)] + [Lift(K, 161)]);
    JHolds(s);
    KPends(DrainStep(LAYERED, Arrive(LAYERED, s, Bare(TICK_207))).s);
  }

  lemma OneMore(es: seq<Event>, e: Event)
    requires Lawful(es) && WellFormed(e) && (!NoEvent(e) ==> (e.pressed <==> |Inputs(e.key, es)| % 2 == 0))
    ensures Lawful(es + [e])
    ensures forall k :: |Inputs(k, es + [e])| == |Inputs(k, es)| + if !NoEvent(e) && e.key == k then 1 else 0
  {
    LawfulSnoc(es, e);
    forall k ensures |Inputs(k, es + [e])| == |Inputs(k, es)| + if !NoEvent(e) && e.key == k then 1 else 0 {
      InputsSnoc(k, es, e);
    }
  }

  lemma BeforeIsLawful()
    ensures Lawful(BEFORE)
    ensures forall k :: |Inputs(k, BEFORE)| == if k == H || k == M || k == J || k == K then 1 else 0
  {
    var p := [Press(H, 1)];
    assert [] + p == p;
    OneMore([], Press(H, 1));
    OneMore(p, Press(M, 3));
    OneMore(p + [Press(M, 3)], Press(J, 5));
    OneMore(p + [Press(M, 3)] + [Press(J, 5)], Press(K, 101));
  }

  lemma HeldBackIsLawful()
    ensures Lawful(HELD_BACK)
  {
    BeforeIsLawful();
    OneMore(BEFORE, Lift(K, 121));
    var q := BEFORE + [Lift(K, 121)];
    OneMore(q, Press(Y, 131));
    OneMore(q + [Press(Y, 131)], Press(K, 141));
    var r := q + [Press(Y, 131)] + [Press(K, 141)];
    OneMore(r, Lift(M, 151));
    OneMore(r + [Lift(M, 151)], Lift(K, 161));
    OneMore(r + [Lift(M, 151)] + [Lift(K, 161)], TICK_207);
  }

  /**
   A lawful run after which the release of an unrelated key, within the term, settles
   the pending press: the drain loop behind it is not steady.
   */
  lemma SettledByAStranger()
    ensures Lawful(HELD_BACK)
    ensures var s, e := Run(LAYERED, HELD_BACK), Lift(H, 211);
      && Pending(s) && Within(LAYERED, s, e) && !FirstTap(LAYERED, s, e) && e.key != s.tk.event.key
      && Decided(s, ActionExec(LAYERED, s, e)) && !Undecided(s, ActionExec(LAYERED, s, e))
  {
    var s := Run(LAYERED, HELD_BACK);
    HeldBackIsLawful();
    AfterHeldBack();
    StrangerSettles(s);
    PendingVerdict(LAYERED, s, Lift(H, 211));
  }

  // -------------------------------------------------------------- a release that starves

  const MOST_STARVED: nat := 30000

  function NthKey(n: nat): KeyPos
    requires n <= MOST_STARVED
  {
    KeyPos(1 + n / 256, n % 256)
  }

  function NewPress(n: nat): Event
    requires n <= MOST_STARVED
  {
    Press(NthKey(n), 401 + 2 * n)
  }

  /** The run goes on with presses of ever new tap keys, one at each scan. */
  function Starved(es: seq<Event>, n: nat): (r: seq<Event>)
    requires n <= MOST_STARVED
    ensures |r| == |es| + n
  {
    es + seq(n, i requires 0 <= i < n => NewPress(i + 1))
  }

  function StarvedTimes(times: seq<nat>, n: nat): seq<nat> {
    times + seq(n, i requires 0 <= i => 403 + 2 * i)
  }

  /** A new press is dispatched as a hold at once, since the waiting release seems to lie beyond its term. */
  lemma NewPressGoes(s: Engine, n: nat)
    requires 0 < n <= MOST_STARVED && ShapeNone(s, [Bare(Lift(K, 401))])
    ensures ShapeNone(ActionExec(BOARD, s, NewPress(n)), [Bare(Lift(K, 401))])
    ensures Admissible(BOARD, s, NewPress(n))
  {
    var e := NewPress(n);
    var s0 := ClearWeak(s, e);
    TapKeys(s0, Bare(e));
    FindReleaseIsRelease(BOARD, s0.(tk := Bare(e)), 0);
    var s1 := Arrive(BOARD, s0, Bare(e));
    assert Shape(s1, e, NO_TAP, [Bare(Lift(K, 401))]);
    assert !Within(BOARD, s1, Lift(K, 401));
    assert Drain(BOARD, s1) == DrainStep(BOARD, s1).s;
    assert NthKey(n).row > 0 && s.ring[1..] == [] && EventsOf(NthKey(n), []) == [];
  }

  /** None of the keys has been used before. */
  ghost predicate NewKeys(es: seq<Event>, n: nat) {
    forall m :: n < m <= MOST_STARVED ==> Inputs(NthKey(m), es) == []
  }

  /** A lawful, admissible run after which K's release waits; what is to be pressed next has not been used. */
  ghost predicate Starving(es: seq<Event>, n: nat) {
    Fine(es) && NewKeys(es, n) && ShapeNone(Run(BOARD, es), [Bare(Lift(K, 401))])
  }

  lemma NewPressGoesOn(es: seq<Event>, n: nat)
    requires 0 < n <= MOST_STARVED && Starving(es, n - 1)
    ensures Starving(es + [NewPress(n)], n)
  {
    NewPressGoes(Run(BOARD, es), n);
    assert Inputs(NthKey(n), es) == [];
    Extend(es, NewPress(n));
    forall m | n < m <= MOST_STARVED ensures Inputs(NthKey(m), es + [NewPress(n)]) == [] {
      InputsSnoc(NthKey(m), es, NewPress(n));
    }
  }

  /** What every new press keeps holds after all of them. */
  lemma {:induction false} EachPressKeeps(P: (seq<Event>, nat) -> bool, es: seq<Event>, n: nat)
    requires n <= MOST_STARVED && P(es, 0)
    requires forall run, i :: 0 < i <= MOST_STARVED && P(run, i - 1) ==> P(run + [NewPress(i)], i)
    ensures P(Starved(es, n), n)
  {
    if n == 0 {
      assert Starved(es, 0) == es;
    } else {
      EachPressKeeps(P, es, n - 1);
      assert Starved(es, n) == Starved(es, n - 1) + [NewPress(n)];
    }
  }

  lemma StaysStarving(es: seq<Event>, n: nat)
    requires n <= MOST_STARVED && Starving(es, 0)
    ensures Starving(Starved(es, n), n)
  {
    forall run, i | 0 < i <= MOST_STARVED && Starving(run, i - 1) ensures Starving(run + [NewPress(i)], i) {
      NewPressGoesOn(run, i);
    }
    EachPressKeeps(Starving, es, n);
  }

  lemma StarvedIsClocked(es: seq<Event>, times: seq<nat>, n: nat)
    requires n <= MOST_STARVED && Clocked(es, times) && Paced(times, 300) && times != [] && times[|times| - 1] == 401
    ensures var ts := StarvedTimes(times, n);
      Clocked(Starved(es, n), ts) && Paced(ts, 300) && ts != [] && ts[|ts| - 1] == 401 + 2 * n
  {
    var more := seq(n, i requires 0 <= i < n => NewPress(i + 1));
    var later := seq(n, i requires 0 <= i => 403 + 2 * i);
    assert forall t :: t in times ==> t <= times[|times| - 1];
    ClockedConcat(es, times, more, later);
  }

  lemma OvertakenIsOld()
    ensures NewKeys(OVERTAKEN, 0)
  {
    assert PROLOGUE + [Lift(K, 401)] == OVERTAKEN && [] + [Press(J, 1)] + [Press(K, 101)] == PROLOGUE;
    forall m | 0 < m <= MOST_STARVED ensures Inputs(NthKey(m), OVERTAKEN) == [] {
      InputsSnoc(NthKey(m), [], Press(J, 1));
      InputsSnoc(NthKey(m), [] + [Press(J, 1)], Press(K, 101));
      InputsSnoc(NthKey(m), PROLOGUE, Lift(K, 401));
    }
  }

  lemma WaitsStarving(es: seq<Event>)
    requires Fine(es) && NewKeys(es, 0) && ShapeNone(Run(BOARD, es), [Bare(Lift(K, 401))])
    ensures Starving(es, 0)
  {
  }

  lemma OvertakenIsClocked()
    ensures Clocked(OVERTAKEN, [1, 101, 401]) && Paced([1, 101, 401], 300)
  {
  }

  /** Such a run, three events long and with scans at least every 300 ms. */
  lemma StarvingStarts()
    ensures Starving(OVERTAKEN, 0)
  {
    AfterOvertaken();
    OvertakenIsOld();
    WaitsStarving(OVERTAKEN);
  }

  /** The next press is hurried: it comes while the release waits and no press is pending. */
  lemma StarvingIsHurried(es: seq<Event>, n: nat)
    requires n < MOST_STARVED && Starving(es, n)
    ensures Hurried(Run(BOARD, es), NewPress(n + 1))
  {
  }

  /**
   No bound on latency holds for all runs: go on from such a run with `n` presses, one every
   2 ms, and K's release, which came at 401, is still waiting at 401 + 2 * n, for n up to
   30000. Nothing overflows, and every event is admissible.
   */
  lemma Starves(es: seq<Event>, times: seq<nat>, n: nat)
    requires Starving(es, 0) && Clocked(es, times) && Paced(times, 300) && times != [] && times[|times| - 1] == 401
    requires n <= MOST_STARVED
    ensures Starving(Starved(es, n), n)
    ensures var ts := StarvedTimes(times, n);
      Clocked(Starved(es, n), ts) && Paced(ts, 300) && ts != [] && ts[|ts| - 1] == 401 + 2 * n
  {
    StaysStarving(es, n);
    StarvedIsClocked(es, times, n);
  }
}
