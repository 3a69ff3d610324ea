/** The scan and the tap/hold engine together: from pressed switches to host state. */
module Keyboard {
  import opened KeyEvents
  import opened Actions
  import opened ScanSource
  import opened TappingSpec
  import opened TappingFifo
  import opened TappingAgreement
  import opened TappingTimes
  import opened TappingDrain
  import opened TappingEndToEnd
  import opened Clock

  /** Once the scan remembers no key as pressed, every press it sent was followed by its release. */
  lemma ScansRelease(scans: seq<Scan>)
    requires IsRun({}, scans) && RealKeys(scans) && Remembered({}, scans) == {}
    ensures Lawful(Sent(scans)) && AllReleased(Sent(scans))
  {
    SentIsLawful(scans);
    forall k ensures |Inputs(k, Sent(scans))| % 2 == 0 {
      if k == TICK_KEY {
        NoTickInputs(Sent(scans));
      } else {
        SentAlternates(scans, k);
      }
    }
  }

  /**
   Once the scan remembers no key as pressed and the engine is idle, nothing is left on
   at the host and everything sent has been dispatched in order, if every event of the
   run was orderly and none overflowed the ring.
   */
  lemma EmptyMatrixIsQuiet(cfg: Config, scans: seq<Scan>)
    requires IsRun({}, scans) && RealKeys(scans) && Remembered({}, scans) == {}
    requires AllOrderly(cfg, Sent(scans))
    requires Run(cfg, Sent(scans)).overflows == 0 && Idle(Run(cfg, Sent(scans)))
    ensures Silent(Run(cfg, Sent(scans)), Sent(scans))
  {
    ScansRelease(scans);
    assert Sent(scans) + [] == Sent(scans);
    assert Feed(cfg, Run(cfg, Sent(scans)), []) == Run(cfg, Sent(scans));
    IdleIsSilent(cfg, Sent(scans), []);
  }

  /** Scans of a matrix without pressed keys, at these true times. */
  ghost predicate EmptyScans(idle: seq<Scan>, times: seq<nat>) {
    && IsRun({}, idle) && |idle| == |times|
    && forall i :: 0 <= i < |idle| ==> idle[i].cur == {} && idle[i].now == times[i] % 0x1_0000
  }

  lemma {:induction false} TicksAtSnoc(times: seq<nat>, t: nat)
    ensures TicksAt(times + [t]) == TicksAt(times) + [Tick(t % 0x1_0000)]
  {
    if times == [] {
      assert [] + [t] == [t] && [t][1..] == [];
    } else {
      assert (times + [t])[1..] == times[1..] + [t];
      TicksAtSnoc(times[1..], t);
    }
  }

  lemma {:induction false} EmptyScansTick(idle: seq<Scan>, times: seq<nat>)
    requires EmptyScans(idle, times)
    ensures Sent(idle) == TicksAt(times) && Remembered({}, idle) == {}
  {
    if idle != [] {
      var n := |idle| - 1;
      EmptyScansTick(idle[..n], times[..n]);
      OneFewer({}, {}, idle[n].now, idle[n].sent, idle[n].prev);
      TicksAtSnoc(times[..n], times[n]);
      assert times[..n] + [times[n]] == times;
    }
  }

  /**
   From switches to silence: let go of all keys, and after 23 * (term + 2 * gap + 2) ms of
   scans that find none pressed everything has been dispatched and nothing is on.
   */
  lemma EmptyMatrixFallsSilent(cfg: Config, scans: seq<Scan>, idle: seq<Scan>, times: seq<nat>, gap: nat)
    requires IsRun({}, scans) && RealKeys(scans) && Remembered({}, scans) == {}
    requires AllTimely(cfg, Sent(scans)) && Run(cfg, Sent(scans)).overflows == 0
    requires EmptyScans(idle, times) && times != [] && Paced(times, gap) && cfg.term + gap < ROUND
    requires times[|times| - 1] - times[0] > MAX_WORK * (cfg.term + 2 * gap + 2)
    ensures Silent(Run(cfg, Sent(scans) + Sent(idle)), Sent(scans))
  {
    ScansRelease(scans);
    EmptyScansTick(idle, times);
    SilentInTime(cfg, Sent(scans), times, gap);
  }
}
