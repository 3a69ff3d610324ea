/**
 Two runs that show why the conditions of the theorems are there: an event that
 overtakes another, and a tap whose release is dispatched as the end of a hold.
 TimingExamples.dfy has more.
 */
module TappingExamples {
  import opened Words
  import opened KeyEvents
  import opened Actions
  import opened TappingSpec
  import opened TappingFifo
  import opened TappingAgreement
  import opened TappingDecisions

  const J := KeyPos(0, 0)
  const K := KeyPos(0, 1)
  const X := KeyPos(0, 2)
  const Y := KeyPos(0, 3)

  /** J, K and X are layer-tap keys, every other key types one code, on all layers. */
  const BOARD := Config(200, (l: Layer, k: KeyPos) => if k == Y then Key({}, 4) else LayerTap(1, 5), {0})

  function Press(k: KeyPos, t: Word16): Event { Event(k, true, t) }

  function Lift(k: KeyPos, t: Word16): Event { Event(k, false, t) }

  function Bare(e: Event): Record { Record(e, NO_TAP) }

  /** A state that matters only through its tapping key and its ring. */
  ghost predicate Shape(s: Engine, tk: Event, tap: Tap, ring: seq<Record>) {
    s.tk == Record(tk, tap) && s.ring == ring && s.overflows == 0
  }

  ghost predicate ShapeNone(s: Engine, ring: seq<Record>) {
    s.tk == EMPTY_RECORD && s.ring == ring && s.overflows == 0
  }

  lemma RunOne(cfg: Config, es: seq<Event>, e: Event)
    ensures Run(cfg, es + [e]) == ActionExec(cfg, Run(cfg, es), e)
  {
    assert (es + [e])[..|es|] == es;
  }

  lemma TapKeys(s: Engine, r: Record)
    ensures IsTapRecord(BOARD, s, r) <==> r.event.key != Y
  {
  }

  // ----------------------------------------------------------------- overtaking

  const PROLOGUE := [Press(J, 1), Press(K, 101)]
  const OVERTAKEN := [Press(J, 1), Press(K, 101), Lift(K, 401)]

  lemma AfterPrologue()
    ensures var s := Run(BOARD, PROLOGUE);
      Shape(s, Press(J, 1), Tap(true, 0), [Bare(Press(K, 101))]) && s.log == []
  {
    RunOne(BOARD, [], Press(J, 1));
    RunOne(BOARD, [Press(J, 1)], Press(K, 101));
    assert [] + [Press(J, 1)] == [Press(J, 1)];
    assert [Press(J, 1)] + [Press(K, 101)] == PROLOGUE;
    var s := Run(BOARD, [Press(J, 1)]);
    assert s.tk == Bare(Press(J, 1)) && s.ring == [] && s.overflows == 0;
  }

  /** The timeout of J, then the timeout of K inside the drain loop. */
  lemma TimeoutTwice(s: Engine)
    requires Shape(s, Press(J, 1), Tap(true, 0), [Bare(Press(K, 101))])
    ensures ShapeNone(ActionExec(BOARD, s, Lift(K, 401)), [Bare(Lift(K, 401))])
  {
    var s1 := Arrive(BOARD, s, Bare(Lift(K, 401)));
    assert ShapeNone(s1, [Bare(Press(K, 101)), Bare(Lift(K, 401))]);
    TapKeys(s1, s1.ring[0]);
    FindReleaseIsRelease(BOARD, s1.(tk := s1.ring[0]), 0);
    var s2 := DrainStep(BOARD, s1).s;
    assert Shape(s2, Press(K, 101), NO_TAP, [Bare(Lift(K, 401))]);
    var s3 := DrainStep(BOARD, s2).s;
    assert ShapeNone(s3, [Bare(Lift(K, 401))]);
    assert Drain(BOARD, s1) == Drain(BOARD, s2) == s3;
  }

  lemma OnePressWaits(s: Engine)
    requires Shape(s, Press(J, 1), Tap(true, 0), [Bare(Press(K, 101))]) && s.log == []
    ensures Accounted(K, s) == [Press(K, 101)] && RingOk(s)
  {
    assert s.ring[1..] == [];
    assert EventsOf(K, s.ring) == [Press(K, 101)];
  }

  lemma LiftAccounts(s: Engine)
    requires Shape(s, Press(J, 1), Tap(true, 0), [Bare(Press(K, 101))]) && s.log == []
    ensures var s' := ActionExec(BOARD, s, Lift(K, 401));
      RingOk(s') && Accounted(K, s') == [Press(K, 101), Lift(K, 401)]
  {
    TimeoutTwice(s);
    OnePressWaits(s);
    assert [Press(K, 101)] + [Lift(K, 401)] == [Press(K, 101), Lift(K, 401)];
    ActionExecAccounts(BOARD, s, Lift(K, 401), K);
  }

  lemma PressOvertakes(s: Engine)
    requires ShapeNone(s, [Bare(Lift(K, 401))]) && RingOk(s)
    requires Accounted(K, s) == [Press(K, 101), Lift(K, 401)]
    ensures !Settled(s) && !Admissible(BOARD, s, Press(K, 403))
    ensures Accounted(K, ActionExec(BOARD, s, Press(K, 403))) != Accounted(K, s) + [Press(K, 403)]
  {
    PressAgain(s);
    ActionExecAccounts(BOARD, s, Press(K, 403), K);
  }

  /**
   A timeout inside the drain loop leaves K's release in the ring with no key
   pending; if K is pressed again before the next tick, that press overtakes it.
   */
  lemma OvertakingHappens()
    ensures Lawful(OVERTAKEN + [Press(K, 403)]) && Run(BOARD, OVERTAKEN + [Press(K, 403)]).overflows == 0
    ensures var s, e := Run(BOARD, OVERTAKEN), Press(K, 403);
      && !Settled(s) && !Admissible(BOARD, s, e)
      && Accounted(K, s) == [Press(K, 101), Lift(K, 401)]
      && Accounted(K, Run(BOARD, OVERTAKEN + [e])) != Accounted(K, s) + [e]
  {
    AfterOvertaken();
    AfterPrologue();
    LiftAccounts(Run(BOARD, PROLOGUE));
    PressOvertakes(Run(BOARD, OVERTAKEN));
    PressAgain(Run(BOARD, OVERTAKEN));
    RunOne(BOARD, OVERTAKEN, Press(K, 403));
    LawfulSnoc(OVERTAKEN, Press(K, 403));
  }

  lemma AfterOvertaken()
    ensures Fine(OVERTAKEN) && |Inputs(K, OVERTAKEN)| == 2
    ensures ShapeNone(Run(BOARD, OVERTAKEN), [Bare(Lift(K, 401))])
    ensures Run(BOARD, OVERTAKEN) == ActionExec(BOARD, Run(BOARD, PROLOGUE), Lift(K, 401))
  {
    assert PROLOGUE + [Lift(K, 401)] == OVERTAKEN;
    AfterPrologue();
    FineM2();
    Counts();
    Extend(PROLOGUE, Lift(K, 401));
    InputsSnoc(K, PROLOGUE, Lift(K, 401));
    TimeoutTwice(Run(BOARD, PROLOGUE));
  }

  lemma PressAgain(s: Engine)
    requires ShapeNone(s, [Bare(Lift(K, 401))])
    ensures ActionExec(BOARD, s, Press(K, 403)).overflows == 0 && WaitingOf(K, s) != []
  {
    TapKeys(s, Bare(Press(K, 403)));
    ProcessTappingTakes(BOARD, ClearWeak(s, Press(K, 403)), Bare(Press(K, 403)), K);
    ArriveRingOk(BOARD, ClearWeak(s, Press(K, 403)), Press(K, 403));
    DrainConserves(BOARD, Arrive(BOARD, ClearWeak(s, Press(K, 403)), Bare(Press(K, 403))), K);
  }

  // ------------------------------------------------------- a tap released as a hold

  const KD101 := Bare(Press(K, 101))
  const KU121 := Bare(Lift(K, 121))
  const YD131 := Bare(Press(Y, 131))
  const KD141 := Bare(Press(K, 141))
  const XD151 := Bare(Press(X, 151))
  const KU161 := Bare(Lift(K, 161))
  const KD203 := Bare(Press(K, 203))
  const KU205 := Record(Lift(K, 205), Tap(true, 1))
  const LATE_TICK := Event(TICK_KEY, false, 353)

  const QUEUED := [KD101, KU121, YD131, KD141, XD151, KU161]

  /** While J is pending, another key's event waits, if it is a press or has its press in the ring. */
  lemma Queue(s: Engine, rs: seq<Record>, e: Event)
    requires Shape(s, Press(J, 1), Tap(true, 0), rs) && 0 < |rs| < RING_CAPACITY && rs[0] == KD101
    requires e.key != J && !NoEvent(e) && 1 <= e.time < 201 && (e.pressed || Typed(s, e))
    ensures var s' := ActionExec(BOARD, s, e);
      Shape(s', Press(J, 1), Tap(true, 0), rs + [Bare(e)]) && s'.log == s.log
  {
    var s1 := Arrive(BOARD, ClearWeak(s, e), Bare(e));
    assert Shape(s1, Press(J, 1), Tap(true, 0), rs + [Bare(e)]);
    var s2 := DrainStep(BOARD, s1).s;
    assert s1.ring[0] == KD101;
    assert s2.ring == s1.ring;
  }

  /** J times out and K's first tap is found in the ring. */
  lemma BurstStart(s: Engine)
    requires Shape(s, Press(J, 1), Tap(true, 0), QUEUED)
    ensures var s1 := Arrive(BOARD, ClearWeak(s, Press(K, 203)), KD203);
      && s1.ring != [] && DrainStep(BOARD, s1).done
      && Shape(DrainStep(BOARD, s1).s, Press(K, 101), Tap(false, 1),
               [Record(Lift(K, 121), Tap(false, 1)), YD131, KD141, XD151, KU161, KD203])
  {
    var s1 := Arrive(BOARD, ClearWeak(s, Press(K, 203)), KD203);
    assert ShapeNone(s1, [KD101, KU121, YD131, KD141, XD151, KU161, KD203]);
    FindReleaseIsRelease(BOARD, s1.(tk := KD101), 0);
    assert FindRelease(BOARD, s1.(tk := KD101), 0) == 1;
  }

  /** The first K tap plays, Y interrupts it, and K's second press is left pending without a scan. */
  lemma BurstEnd(s2: Engine)
    requires Shape(s2, Press(K, 101), Tap(false, 1),
                   [Record(Lift(K, 121), Tap(false, 1)), YD131, KD141, XD151, KU161, KD203])
    ensures Shape(Drain(BOARD, s2), Press(K, 141), Tap(true, 0), [XD151, KU161, KD203])
  {
    var s3 := DrainStep(BOARD, s2).s;
    assert Shape(s3, Lift(K, 121), Tap(false, 1), [YD131, KD141, XD151, KU161, KD203]);
    var s4 := DrainStep(BOARD, s3).s;
    assert Shape(s4, Lift(K, 121), Tap(true, 1), [KD141, XD151, KU161, KD203]);
    var s5 := DrainStep(BOARD, s4).s;
    assert Shape(s5, Press(K, 141), NO_TAP, [XD151, KU161, KD203]);
    var s6 := DrainStep(BOARD, s5).s;
    assert Shape(s6, Press(K, 141), Tap(true, 0), [XD151, KU161, KD203]);
    assert Drain(BOARD, s4) == Drain(BOARD, s5) == s6;
    assert Drain(BOARD, s2) == Drain(BOARD, s3) == Drain(BOARD, s4);
  }

  lemma Burst(s: Engine)
    requires Shape(s, Press(J, 1), Tap(true, 0), QUEUED)
    ensures Shape(ActionExec(BOARD, s, Press(K, 203)), Press(K, 141), Tap(true, 0), [XD151, KU161, KD203])
  {
    BurstStart(s);
    var s1 := Arrive(BOARD, ClearWeak(s, Press(K, 203)), KD203);
    BurstEnd(DrainStep(BOARD, s1).s);
  }

  /** K's third release settles its second press as a tap, although its second release still waits. */
  lemma WrongRelease(s: Engine)
    requires Shape(s, Press(K, 141), Tap(true, 0), [XD151, KU161, KD203])
    ensures var s' := ActionExec(BOARD, s, Lift(K, 205));
      Shape(s', Press(X, 151), NO_TAP, [KU161, KD203, KU205]) && DownTap(K, s'.log)
  {
    var s1 := Arrive(BOARD, s, Bare(Lift(K, 205)));
    assert Shape(s1, Press(K, 141), Tap(true, 1), [XD151, KU161, KD203, KU205]);
    var tk := Record(Press(K, 141), Tap(true, 1));
    ProcessRecordModes(BOARD, s.(tk := tk), tk, false, K);
    var s2 := DrainStep(BOARD, s1).s;
    assert Shape(s2, Press(X, 151), NO_TAP, [KU161, KD203, KU205]) && s2.log == s1.log by {
      TapKeys(s1, XD151);
      FindReleaseIsRelease(BOARD, s1.(tk := XD151), 0);
    }
    assert Typed(s2, Lift(K, 161)) by { assert s2.ring[1] == KD203; }
    var s3 := DrainStep(BOARD, s2).s;
    assert s3.ring == s2.ring;
    assert Drain(BOARD, s1) == Drain(BOARD, s2) == s3;
  }

  /** When X times out, K's second release goes out as the end of a hold. */
  lemma Mismatch(s: Engine)
    requires Shape(s, Press(X, 151), NO_TAP, [KU161, KD203, KU205]) && DownTap(K, s.log)
    ensures !TapAgrees(ActionExec(BOARD, s, LATE_TICK).log) && ActionExec(BOARD, s, LATE_TICK).overflows == 0
  {
    var s1 := Arrive(BOARD, s, Bare(LATE_TICK));
    ProcessRecordModes(BOARD, s, s.tk, false, K);
    assert ShapeNone(s1, [KU161, KD203, KU205]) && DownTap(K, s1.log);
    var s2 := DrainStep(BOARD, s1).s;
    var d := Dispatched(KU161, false, ResolvedAction(BOARD, s1.host, KU161.event));
    assert s2.log == s1.log + [d] && s2.log[..|s2.log| - 1] == s1.log;
    assert !TapAgrees(s2.log);
    DrainExtends(BOARD, s2);
    if TapAgrees(Drain(BOARD, s2).log) {
      AgreesPrefix(s2.log, Drain(BOARD, s2).log);
    }
    DrainConserves(BOARD, s1, K);
  }

  lemma {:induction false} AgreesPrefix(a: seq<Dispatched>, b: seq<Dispatched>)
    requires a <= b && TapAgrees(b)
    ensures TapAgrees(a)
    decreases |b|
  {
    if |a| < |b| {
      AgreesPrefix(a, b[..|b| - 1]);
    } else {
      assert a == b;
    }
  }

  const M2 := PROLOGUE
  const M3 := M2 + [Lift(K, 121)]
  const M4 := M3 + [Press(Y, 131)]
  const M5 := M4 + [Press(K, 141)]
  const M6 := M5 + [Press(X, 151)]
  const M7 := M6 + [Lift(K, 161)]
  const M8 := M7 + [Press(K, 203)]
  const M9 := M8 + [Lift(K, 205)]
  const MISTAPPED := M9 + [LATE_TICK]

  ghost predicate Fine(es: seq<Event>) { Lawful(es) && AllAdmissible(BOARD, es) }

  lemma InputsSnoc(k: KeyPos, es: seq<Event>, e: Event)
    ensures Inputs(k, es + [e]) == Inputs(k, es) + if !NoEvent(e) && e.key == k then [e] else []
  {
    assert (es + [e])[..|es|] == es;
  }

  lemma LawfulSnoc(es: seq<Event>, e: Event)
    requires Lawful(es) && WellFormed(e)
    requires !NoEvent(e) ==> (e.pressed <==> |Inputs(e.key, es)| % 2 == 0)
    ensures Lawful(es + [e])
  {
    forall c ensures Alternates(Inputs(c, es + [e])) {
      assert Alternates(Inputs(c, es));
      InputsSnoc(c, es, e);
    }
  }

  lemma Extend(es: seq<Event>, e: Event)
    requires Fine(es) && WellFormed(e) && Admissible(BOARD, Run(BOARD, es), e)
    requires !NoEvent(e) ==> (e.pressed <==> |Inputs(e.key, es)| % 2 == 0)
    ensures Fine(es + [e]) && Run(BOARD, es + [e]) == ActionExec(BOARD, Run(BOARD, es), e)
  {
    LawfulSnoc(es, e);
    assert (es + [e])[..|es + [e]| - 1] == es;
    RunOne(BOARD, es, e);
  }

  lemma Counts()
    ensures |Inputs(K, M2)| == 1 && |Inputs(K, M4)| == 2 && |Inputs(K, M6)| == 3
    ensures |Inputs(K, M7)| == 4 && |Inputs(K, M8)| == 5 && |Inputs(Y, M3)| == 0 && |Inputs(X, M5)| == 0
  {
    assert PROLOGUE == [] + [Press(J, 1)] + [Press(K, 101)];
    forall k ensures |Inputs(k, M2)| == if k == J || k == K then 1 else 0 {
      InputsSnoc(k, [], Press(J, 1));
      InputsSnoc(k, [] + [Press(J, 1)], Press(K, 101));
    }
    forall k ensures Inputs(k, M4) == Inputs(k, M3) + if k == Y then [Press(Y, 131)] else [] {
      InputsSnoc(k, M3, Press(Y, 131));
    }
    InputsSnoc(K, M2, Lift(K, 121));
    InputsSnoc(Y, M2, Lift(K, 121));
    InputsSnoc(X, M2, Lift(K, 121));
    InputsSnoc(X, M4, Press(K, 141));
    InputsSnoc(K, M4, Press(K, 141));
    InputsSnoc(K, M5, Press(X, 151));
    InputsSnoc(K, M6, Lift(K, 161));
    InputsSnoc(K, M7, Press(K, 203));
  }

  lemma FineM2()
    ensures Fine(M2)
  {
    assert [] + [Press(J, 1)] == [Press(J, 1)] && [Press(J, 1)] + [Press(K, 101)] == PROLOGUE;
    InputsSnoc(K, [], Press(J, 1));
    Extend([], Press(J, 1));
    assert Run(BOARD, [Press(J, 1)]).ring == [];
    Extend([Press(J, 1)], Press(K, 101));
  }

  lemma QueueNext(es: seq<Event>, rs: seq<Record>, e: Event)
    requires Fine(es) && Shape(Run(BOARD, es), Press(J, 1), Tap(true, 0), rs)
    requires 0 < |rs| < RING_CAPACITY && rs[0] == KD101
    requires WellFormed(e) && !NoEvent(e) && e.key != J && 1 <= e.time < 201 && (e.pressed || e.key == K)
    requires e.pressed <==> |Inputs(e.key, es)| % 2 == 0
    ensures Fine(es + [e]) && Shape(Run(BOARD, es + [e]), Press(J, 1), Tap(true, 0), rs + [Bare(e)])
  {
    Extend(es, e);
    Queue(Run(BOARD, es), rs, e);
  }

  lemma MistappedStart()
    ensures Fine(M4) && Shape(Run(BOARD, M4), Press(J, 1), Tap(true, 0), [KD101, KU121, YD131])
  {
    AfterPrologue();
    FineM2();
    Counts();
    QueueNext(M2, [KD101], Lift(K, 121));
    QueueNext(M3, [KD101] + [KU121], Press(Y, 131));
    assert [KD101] + [KU121] + [YD131] == [KD101, KU121, YD131];
  }

  lemma MistappedMiddle()
    ensures Fine(M6) && Shape(Run(BOARD, M6), Press(J, 1), Tap(true, 0), [KD101, KU121, YD131, KD141, XD151])
  {
    MistappedStart();
    Counts();
    InputsSnoc(Y, M4, Press(K, 141));
    QueueNext(M4, [KD101, KU121, YD131], Press(K, 141));
    QueueNext(M5, [KD101, KU121, YD131] + [KD141], Press(X, 151));
    assert [KD101, KU121, YD131] + [KD141] + [XD151] == [KD101, KU121, YD131, KD141, XD151];
  }

  lemma MistappedQueue()
    ensures Fine(M7) && Shape(Run(BOARD, M7), Press(J, 1), Tap(true, 0), QUEUED)
  {
    MistappedMiddle();
    Counts();
    QueueNext(M6, [KD101, KU121, YD131, KD141, XD151], Lift(K, 161));
    assert [KD101, KU121, YD131, KD141, XD151] + [KU161] == QUEUED;
  }

  lemma MistappedPending()
    ensures Fine(M8) && Shape(Run(BOARD, M8), Press(K, 141), Tap(true, 0), [XD151, KU161, KD203])
  {
    MistappedQueue();
    Counts();
    Extend(M7, Press(K, 203));
    Burst(Run(BOARD, M7));
  }

  lemma MistappedRelease()
    ensures Fine(M9)
    ensures var s := Run(BOARD, M9); Shape(s, Press(X, 151), NO_TAP, [KU161, KD203, KU205]) && DownTap(K, s.log)
  {
    MistappedPending();
    Counts();
    Extend(M8, Lift(K, 205));
    WrongRelease(Run(BOARD, M8));
  }

  lemma EarlierReleaseWaits()
    ensures FirstTap(BOARD, Run(BOARD, M8), Lift(K, 205)) && WaitingOf(K, Run(BOARD, M8)) != []
  {
    MistappedPending();
    EventsOfHas(K, Run(BOARD, M8).ring, 1);
  }

  /**
   A lawful run in which every event is admissible and nothing overflows, yet K's
   press is dispatched as a tap and its release as the end of a hold: the ninth
   event settles the pending press although an earlier release of K still waits.
   */
  lemma TapReleasedAsHold()
    ensures Lawful(MISTAPPED) && AllAdmissible(BOARD, MISTAPPED)
    ensures Run(BOARD, MISTAPPED).overflows == 0 && !TapAgrees(Run(BOARD, MISTAPPED).log)
    ensures FirstTap(BOARD, Run(BOARD, M8), Lift(K, 205)) && WaitingOf(K, Run(BOARD, M8)) != []
  {
    EarlierReleaseWaits();
    MistappedRelease();
    Extend(M9, LATE_TICK);
    Mismatch(Run(BOARD, M9));
  }
}
