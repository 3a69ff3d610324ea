/**
 The SPI byte automaton between the keyboard and its Bluetooth module
 (Наработки/bluetooth.c): one byte in, one byte out, synchronised by 0xA2.
 */
module Bluetooth {
  import opened Words
  import opened Wrappers

  const FRAME_LEN: nat := 39
  const RX_FRAME_LEN: nat := 64
  const CMD_TXPOLL: Byte := 0xA2
  const CMD_STATUS: Byte := 0xA7
  const CMD_LOOPBACK: Byte := 0x20
  const CMD_KEYBOARD_6KEY: Byte := 0xA1
  const CMD_BT_CONTROL: Byte := 0xA5
  const CMD_BT_HOST_SWITCH: Byte := 0xA6

  /** The automaton's statics; `rx` is k530_rx_buf up to k530_rx_len. */
  datatype State = State(cmd: Byte, txIdx: Byte, rx: seq<Byte>, rxSum: Word16, rxActive: bool)

  const POWER_UP := State(0, 0, [], 0, false)

  /** One byte's outcome: the byte shifted out, and the captured status frame if it completes one. */
  datatype Reply = Reply(resp: Byte, frame: Option<seq<Byte>>)

  function Receive(s: State, rx: Byte): (State, Option<seq<Byte>>) {
    var s1 := if rx == CMD_STATUS && !s.rxActive then
                s.(rxActive := true, rx := [], rxSum := 0, cmd := if s.cmd != CMD_TXPOLL then CMD_STATUS else s.cmd)
              else s;
    if !s1.rxActive then (s1, None)
    else
      var buf := if |s1.rx| < RX_FRAME_LEN then s1.rx + [rx] else s1.rx;
      if |buf| >= 2 && rx == s1.rxSum % 0x100 then (s1.(rx := buf, rxActive := false), Some(buf))
      else (s1.(rx := buf, rxSum := (s1.rxSum + rx) % 0x1_0000), None)
  }

  /** k530_rx_tx_step on values. */
  function StepF(s: State, rx: Byte, tx: seq<Byte>): (State, Reply)
    requires |tx| == FRAME_LEN
  {
    if rx == CMD_TXPOLL then
      (s.(cmd := CMD_TXPOLL, txIdx := 1, rxActive := false), Reply(tx[0], None))
    else
      var (s1, frame) := Receive(s, rx);
      if s1.cmd == CMD_TXPOLL then
        (s1.(txIdx := (s1.txIdx + 1) % 0x100), Reply(if s1.txIdx < FRAME_LEN then tx[s1.txIdx] else 0, frame))
      else if s1.cmd == CMD_LOOPBACK then (s1, Reply(rx, frame))
      else (s1, Reply(0, frame))
  }

  class Automaton {
    var cmd: Byte
    var txIdx: Byte
    const rxBuf: array<Byte>
    var rxLen: Byte
    var rxSum: Word16
    var rxActive: bool

    ghost predicate Valid()
      reads this
    {
      rxBuf.Length == RX_FRAME_LEN && rxLen <= RX_FRAME_LEN
    }

    ghost function View(): State
      requires Valid()
      reads this, rxBuf
    {
      State(cmd, txIdx, rxBuf[..rxLen], rxSum, rxActive)
    }

    constructor ()
      ensures Valid() && View() == POWER_UP && fresh(rxBuf)
    {
      rxBuf := new Byte[RX_FRAME_LEN](i => 0);
      cmd, txIdx, rxLen, rxSum, rxActive := 0, 0, 0, 0, false;
    }

    /** Keeps the byte if there is room for it. */
    method StoreByte(rx: Byte)
      requires Valid()
      modifies this`rxLen, rxBuf
      ensures Valid() && rxLen > 0
      ensures View() == old(View()).(rx := if |old(View()).rx| < RX_FRAME_LEN then old(View()).rx + [rx] else old(View()).rx)
    {
      if rxLen < RX_FRAME_LEN {
        rxBuf[rxLen] := rx;
        rxLen := rxLen + 1;
      }
    }

    /** The status-frame parser of k530_rx_tx_step; `outFrame` is written only when a frame completes. */
    method ReceiveByte(rx: Byte, outFrame: array<Byte>) returns (complete: bool, outLen: Byte)
      requires Valid() && outFrame.Length == RX_FRAME_LEN && outFrame != rxBuf
      modifies this, rxBuf, outFrame
      ensures Valid()
      ensures var (s, frame) := Receive(old(View()), rx);
        && View() == s && complete == frame.Some?
        && (complete ==> outLen <= RX_FRAME_LEN && outFrame[..outLen] == frame.value)
        && (!complete ==> outFrame[..] == old(outFrame[..]))
    {
      complete, outLen := false, 0;
      if rx == CMD_STATUS && !rxActive {
        rxActive := true;
        rxLen := 0;
        rxSum := 0;
        if cmd != CMD_TXPOLL { cmd := CMD_STATUS; }
      }
      if rxActive {
        StoreByte(rx);
        if rxLen >= 2 && rx == rxSum % 0x100 {
          rxActive := false;
          forall i | 0 <= i < rxLen { outFrame[i] := rxBuf[i]; }
          outLen := rxLen;
          complete := true;
        } else {
          rxSum := (rxSum + rx) % 0x1_0000;
        }
      }
    }

    /** k530_rx_tx_step */
    method Step(rx: Byte, tx: array<Byte>, outFrame: array<Byte>) returns (resp: Byte, complete: bool, outLen: Byte)
      requires Valid() && tx.Length == FRAME_LEN && outFrame.Length == RX_FRAME_LEN
      requires outFrame != rxBuf && outFrame != tx && rxBuf != tx
      modifies this, rxBuf, outFrame
      ensures Valid()
      ensures var (s, r) := StepF(old(View()), rx, old(tx[..]));
        && View() == s && resp == r.resp && complete == r.frame.Some?
        && (complete ==> outLen <= RX_FRAME_LEN && outFrame[..outLen] == r.frame.value)
        && (!complete ==> outFrame[..] == old(outFrame[..]))
    {
      if rx == CMD_TXPOLL {
        complete, outLen := false, 0;
        cmd := CMD_TXPOLL;
        txIdx := 0;
        rxActive := false;
        resp := tx[txIdx];
        txIdx := txIdx + 1;
        return;
      }
      complete, outLen := ReceiveByte(rx, outFrame);
      if cmd == CMD_TXPOLL {
        resp := if txIdx < FRAME_LEN then tx[txIdx] else 0;
        txIdx := (txIdx + 1) % 0x100;
      } else if cmd == CMD_LOOPBACK {
        resp := rx;
      } else {
        resp := 0;
      }
    }
  }

  // ----------------------------------------------------------------------- runs

  type Frame = f: seq<Byte> | |f| == FRAME_LEN witness seq(FRAME_LEN, i => 0)

  /** A byte on the bus, and the frame loaded for sending at that moment. */
  datatype Input = Input(rx: Byte, tx: Frame)

  function After(s: State, ins: seq<Input>): State {
    if ins == [] then s
    else
      var last := ins[|ins| - 1];
      StepF(After(s, ins[..|ins| - 1]), last.rx, last.tx).0
  }

  /** The reply to the n-th byte. */
  function ReplyAt(s: State, ins: seq<Input>, n: nat): Reply
    requires n < |ins|
  {
    StepF(After(s, ins[..n]), ins[n].rx, ins[n].tx).1
  }

  // ------------------------------------------------------------ synchronisation

  /** States that no future byte can tell apart. */
  predicate InSync(a: State, b: State) {
    && a.cmd == b.cmd && a.txIdx == b.txIdx && a.rxActive == b.rxActive
    && (a.rxActive ==> a.rx == b.rx && a.rxSum == b.rxSum)
  }

  lemma StepKeepsSync(a: State, b: State, rx: Byte, tx: Frame)
    requires InSync(a, b) || rx == CMD_TXPOLL
    ensures InSync(StepF(a, rx, tx).0, StepF(b, rx, tx).0) && StepF(a, rx, tx).1 == StepF(b, rx, tx).1
  {
  }

  lemma {:induction false} PollSynchronises(a: State, b: State, ins: seq<Input>)
    requires ins != [] && ins[0].rx == CMD_TXPOLL
    ensures InSync(After(a, ins), After(b, ins))
    decreases |ins|
  {
    var last := ins[|ins| - 1];
    if |ins| > 1 {
      PollSynchronises(a, b, ins[..|ins| - 1]);
    }
    StepKeepsSync(After(a, ins[..|ins| - 1]), After(b, ins[..|ins| - 1]), last.rx, last.tx);
  }

  /**
   Self-synchronisation: whatever two automata went through before, from the first
   0xA2 on they answer every byte alike and capture the same frames, for ever.
   */
  lemma SelfSynchronising(a: State, b: State, ins: seq<Input>, n: nat)
    requires n < |ins| && ins[0].rx == CMD_TXPOLL
    ensures ReplyAt(a, ins, n) == ReplyAt(b, ins, n)
  {
    if n > 0 {
      PollSynchronises(a, b, ins[..n]);
    }
    StepKeepsSync(After(a, ins[..n]), After(b, ins[..n]), ins[n].rx, ins[n].tx);
  }

  /** The loopback command is never entered: no run from power-up echoes a byte by it. */
  lemma {:induction false} NeverLoopback(ins: seq<Input>)
    ensures After(POWER_UP, ins).cmd in {0, CMD_TXPOLL, CMD_STATUS}
    ensures |After(POWER_UP, ins).rx| <= RX_FRAME_LEN
  {
    if ins != [] {
      NeverLoopback(ins[..|ins| - 1]);
    }
  }

  // ----------------------------------------------------------- frames from the bus

  function Sum(bs: seq<Byte>): nat {
    if bs == [] then 0 else Sum(bs[..|bs| - 1]) + bs[|bs| - 1]
  }

  function Bytes(ins: seq<Input>): seq<Byte> {
    seq(|ins|, i requires 0 <= i < |ins| => ins[i].rx)
  }

  /** Byte n ends the frame: it equals the low 8 bits of the sum of all bytes before it. */
  predicate EndsAt(bs: seq<Byte>, n: nat)
    requires n < |bs|
  {
    n >= 1 && bs[n] == Sum(bs[..n]) % 0x100
  }

  ghost predicate EndsBefore(bs: seq<Byte>, n: nat)
    requires n <= |bs|
  {
    exists i :: 0 <= i < n && EndsAt(bs, i)
  }

  function Capped(bs: seq<Byte>): seq<Byte> { if |bs| <= 64 then bs else bs[..64] }

  /** A status frame that starts while the parser is idle, with no poll inside. */
  ghost predicate StatusStream(s: State, ins: seq<Input>) {
    && !s.rxActive && ins != [] && ins[0].rx == CMD_STATUS
    && forall i :: 0 <= i < |ins| ==> ins[i].rx != CMD_TXPOLL
  }

  /** The parser holds the frame bytes `bs`, as far as they fit, and their sum. */
  ghost predicate Collects(t: State, bs: seq<Byte>) {
    t.rxActive && t.rx == Capped(bs) && t.rxSum % 0x100 == Sum(bs) % 0x100
  }

  lemma LowByteOfSum(a: Word16, b: nat, x: Byte)
    requires a % 0x100 == b % 0x100
    ensures ((a + x) % 0x1_0000) % 0x100 == (b + x) % 0x100
  {
  }

  lemma CollectStep(t: State, bs: seq<Byte>, rx: Byte, tx: Frame)
    requires Collects(t, bs) && bs != [] && rx != CMD_TXPOLL
    ensures var (t', r) := StepF(t, rx, tx);
      if rx == Sum(bs) % 0x100 then r.frame == Some(Capped(bs + [rx])) && !t'.rxActive
      else Collects(t', bs + [rx]) && r.frame == None
  {
    assert (bs + [rx])[..|bs|] == bs;
    LowByteOfSum(t.rxSum, Sum(bs), rx);
    assert Capped(bs + [rx]) == if |Capped(bs)| < RX_FRAME_LEN then Capped(bs) + [rx] else Capped(bs);
  }

  lemma CollectStart(s: State, tx: Frame)
    requires !s.rxActive
    ensures var (t, r) := StepF(s, CMD_STATUS, tx); Collects(t, [CMD_STATUS]) && r.frame == None
  {
    assert [CMD_STATUS][..0] == [];
    LowByteOfSum(0, 0, CMD_STATUS);
  }

  /** As long as no byte has ended it, the frame is being collected. */
  lemma {:induction false} Collecting(s: State, ins: seq<Input>)
    requires StatusStream(s, ins) && !EndsBefore(Bytes(ins), |ins|)
    ensures Collects(After(s, ins), Bytes(ins))
    decreases |ins|
  {
    var p, last := ins[..|ins| - 1], ins[|ins| - 1];
    var bs := Bytes(ins);
    assert bs == Bytes(p) + [last.rx];
    if p == [] {
      CollectStart(s, last.tx);
    } else {
      EndsBeforePrefix(bs, |p|);
      assert bs[..|p|] == Bytes(p);
      Collecting(s, p);
      assert !EndsAt(bs, |p|);
      CollectStep(After(s, p), Bytes(p), last.rx, last.tx);
    }
  }

  lemma EndsBeforePrefix(bs: seq<Byte>, n: nat)
    requires n <= |bs|
    ensures EndsBefore(bs, n) <==> EndsBefore(bs[..n], n)
  {
    assert forall i :: 0 <= i < n ==> bs[..n][..i] == bs[..i];
    assert forall i :: 0 <= i < n ==> EndsAt(bs[..n], i) == EndsAt(bs, i);
  }

  /**
   Framing is exact: a status frame completes at a byte if and only if that is the
   first one equal to the running sum, and then it captures exactly the bytes from
   0xA7 to that one, cut off at 64.
   */
  lemma CompletesExactly(s: State, ins: seq<Input>, n: nat)
    requires StatusStream(s, ins) && n < |ins| && !EndsBefore(Bytes(ins), n)
    ensures ReplyAt(s, ins, n).frame == if EndsAt(Bytes(ins), n) then Some(Capped(Bytes(ins)[..n + 1])) else None
  {
    var bs, p := Bytes(ins), ins[..n];
    if n == 0 {
      CollectStart(s, ins[0].tx);
    } else {
      EndsBeforePrefix(bs, n);
      assert bs[..n] == Bytes(p);
      Collecting(s, p);
      CollectStep(After(s, p), Bytes(p), ins[n].rx, ins[n].tx);
      assert bs[..n + 1] == Bytes(p) + [ins[n].rx];
    }
  }

  /**
   A frame that the module seals with its checksum arrives whole exactly when none
   of its earlier bytes happens to equal the running sum.
   */
  lemma DeliveredWhole(s: State, ins: seq<Input>)
    requires StatusStream(s, ins) && 2 <= |ins| <= RX_FRAME_LEN && EndsAt(Bytes(ins), |ins| - 1)
    ensures (forall n :: 0 <= n < |ins| ==>
              ReplyAt(s, ins, n).frame == if n == |ins| - 1 then Some(Bytes(ins)) else None)
      <==> !EndsBefore(Bytes(ins), |ins| - 1)
  {
    var bs := Bytes(ins);
    assert bs[..|ins|] == bs;
    if EndsBefore(bs, |ins| - 1) {
      var i := FirstEnd(bs, |ins| - 1);
      CompletesExactly(s, ins, i);
      assert ReplyAt(s, ins, i).frame.Some?;
    } else {
      forall n | 0 <= n < |ins|
        ensures ReplyAt(s, ins, n).frame == if n == |ins| - 1 then Some(bs) else None
      {
        assert !EndsBefore(bs, n);
        CompletesExactly(s, ins, n);
        assert n < |ins| - 1 ==> !EndsAt(bs, n);
      }
    }
  }

  lemma {:induction false} FirstEnd(bs: seq<Byte>, n: nat) returns (i: nat)
    requires n <= |bs| && EndsBefore(bs, n)
    ensures i < n && EndsAt(bs, i) && !EndsBefore(bs, i)
  {
    i :| 0 <= i < n && EndsAt(bs, i);
    if EndsBefore(bs, i) {
      i := FirstEnd(bs, i);
    }
  }

  /** The four bytes A7 A7 00 4E, whose last one is the sum of the others. */
  function Doubled(tx: Frame): seq<Input> {
    [Input(CMD_STATUS, tx), Input(CMD_STATUS, tx), Input(0x00, tx), Input(0x4E, tx)]
  }

  lemma DoubledSums(tx: Frame)
    ensures var bs := Bytes(Doubled(tx));
      && bs == [CMD_STATUS, CMD_STATUS, 0x00, 0x4E] && bs[..2] == [CMD_STATUS, CMD_STATUS]
      && EndsAt(bs, 1) && EndsAt(bs, 3)
  {
    var bs := Bytes(Doubled(tx));
    assert bs == [CMD_STATUS, CMD_STATUS, 0x00, 0x4E];
    assert bs[..3][..2] == bs[..2] && bs[..2][..1] == bs[..1] && bs[..1][..0] == [];
  }

  /** A sealed frame that is not delivered: its second byte equals its first, and ends it there. */
  lemma FrameCutShort(s: State, tx: Frame)
    requires !s.rxActive
    ensures StatusStream(s, Doubled(tx)) && EndsAt(Bytes(Doubled(tx)), 3)
    ensures ReplyAt(s, Doubled(tx), 1).frame == Some([CMD_STATUS, CMD_STATUS])
    ensures exists n :: 0 <= n < 4 && ReplyAt(s, Doubled(tx), n).frame != if n == 3 then Some(Bytes(Doubled(tx))) else None
  {
    DoubledSums(tx);
    assert !EndsBefore(Bytes(Doubled(tx)), 1);
    CompletesExactly(s, Doubled(tx), 1);
    var cut := ReplyAt(s, Doubled(tx), 1).frame;
    assert cut == Some(Bytes(Doubled(tx))[..2]) && cut != None;
  }

  // ------------------------------------------------------------ any stream, from power-up

  /**
   Where the status frame that is open before byte n began: 0xA2 closes any frame, 0xA7
   opens one if none is open, and a byte equal to the sum of the frame so far ends it.
   */
  function OpenSince(bs: seq<Byte>, n: nat): (start: Option<nat>)
    requires n <= |bs|
    ensures start.Some? ==> start.value < n
  {
    if n == 0 then None
    else
      var open, b := OpenSince(bs, n - 1), bs[n - 1];
      if b == 0xA2 then None
      else if open.None? then (if b == 0xA7 then Some(n - 1) else None)
      else if b == Sum(bs[open.value..n - 1]) % 0x100 then None
      else open
  }

  ghost predicate Parsed(t: State, bs: seq<Byte>, n: nat)
    requires n <= |bs|
  {
    match OpenSince(bs, n)
    case None => !t.rxActive
    case Some(a) => Collects(t, bs[a..n])
  }

  lemma {:induction false} StreamParsed(ins: seq<Input>, n: nat)
    requires n <= |ins|
    ensures Parsed(After(POWER_UP, ins[..n]), Bytes(ins), n)
  {
    if n > 0 {
      var bs := Bytes(ins);
      StreamParsed(ins, n - 1);
      assert ins[..n][..n - 1] == ins[..n - 1];
      ByteParsed(After(POWER_UP, ins[..n - 1]), bs, n - 1, ins[n - 1].tx);
    }
  }

  lemma ByteParsed(t: State, bs: seq<Byte>, n: nat, tx: Frame)
    requires n < |bs| && Parsed(t, bs, n)
    ensures Parsed(StepF(t, bs[n], tx).0, bs, n + 1)
    ensures StepF(t, bs[n], tx).1.frame == FrameAt(bs, n)
  {
    var open := OpenSince(bs, n);
    if open.Some? {
      assert bs[open.value..n + 1] == bs[open.value..n] + [bs[n]];
      if bs[n] != 0xA2 {
        CollectStep(t, bs[open.value..n], bs[n], tx);
      }
    } else if bs[n] == 0xA7 {
      CollectStart(t, tx);
      assert bs[n..n + 1] == [bs[n]];
    }
  }

  /** The frame that byte n completes, if it does: one is open, the byte is no poll, and it equals the sum so far. */
  function FrameAt(bs: seq<Byte>, n: nat): Option<seq<Byte>>
    requires n < |bs|
  {
    var open := OpenSince(bs, n);
    if open.Some? && bs[n] != 0xA2 && bs[n] == Sum(bs[open.value..n]) % 0x100 then Some(Capped(bs[open.value..n + 1]))
    else None
  }

  /**
   On any stream of bytes at all from power-up, a byte completes a frame if and only if one
   is open there, the byte is no poll and it equals the sum of the frame so far; what is
   delivered is the frame from its 0xA7 to this byte, as far as 64 bytes.
   */
  lemma FramesExactly(ins: seq<Input>, n: nat)
    requires n < |ins|
    ensures ReplyAt(POWER_UP, ins, n).frame == FrameAt(Bytes(ins), n)
  {
    StreamParsed(ins, n);
    ByteParsed(After(POWER_UP, ins[..n]), Bytes(ins), n, ins[n].tx);
  }

  /** The last poll among the first n bytes. */
  function LastPoll(bs: seq<Byte>, n: nat): (p: Option<nat>)
    requires n <= |bs|
    ensures p.Some? ==> p.value < n
  {
    if n == 0 then None else if bs[n - 1] == 0xA2 then Some(n - 1) else LastPoll(bs, n - 1)
  }

  /** Byte k of a poll is byte k mod 256 of the frame then loaded, or 0 past its end. */
  function Polled(tx: Frame, k: nat): Byte { if k % 0x100 < 39 then tx[k % 0x100] else 0 }

  ghost predicate PolledSince(t: State, last: Option<nat>, n: nat)
    requires last.Some? ==> last.value < n
  {
    if last.None? then t.cmd != CMD_TXPOLL && t.cmd != CMD_LOOPBACK
    else t.cmd == CMD_TXPOLL && t.txIdx == (n - last.value) % 0x100
  }

  lemma BytePolled(t: State, bs: seq<Byte>, n: nat, tx: Frame)
    requires n < |bs| && PolledSince(t, LastPoll(bs, n), n)
    ensures PolledSince(StepF(t, bs[n], tx).0, LastPoll(bs, n + 1), n + 1)
    ensures StepF(t, bs[n], tx).1.resp ==
      var last := LastPoll(bs, n + 1); if last.Some? then Polled(tx, n - last.value) else 0
  {
    var last := LastPoll(bs, n);
    if last.Some? {
      NextIndex(n - last.value);
    }
  }

  lemma {:induction false} StreamPolled(ins: seq<Input>, n: nat)
    requires n <= |ins|
    ensures PolledSince(After(POWER_UP, ins[..n]), LastPoll(Bytes(ins), n), n)
  {
    if n > 0 {
      StreamPolled(ins, n - 1);
      assert ins[..n][..n - 1] == ins[..n - 1];
      BytePolled(After(POWER_UP, ins[..n - 1]), Bytes(ins), n - 1, ins[n - 1].tx);
    }
  }

  /** And the reply is 0 before the first poll, and from then on the byte that is due since the last one. */
  lemma RepliesExactly(ins: seq<Input>, n: nat)
    requires n < |ins|
    ensures ReplyAt(POWER_UP, ins, n).resp ==
      var last := LastPoll(Bytes(ins), n + 1); if last.Some? then Polled(ins[n].tx, n - last.value) else 0
  {
    StreamPolled(ins, n);
    BytePolled(After(POWER_UP, ins[..n]), Bytes(ins), n, ins[n].tx);
  }

  // ----------------------------------------------------------- frames to the bus

  /** A poll: 0xA2 first and not again, and the loaded frame stays the same. */
  ghost predicate Poll(ins: seq<Input>, tx: Frame) {
    && ins != [] && ins[0].rx == CMD_TXPOLL
    && forall i :: 0 <= i < |ins| ==> ins[i].tx == tx && (i > 0 ==> ins[i].rx != CMD_TXPOLL)
  }

  lemma {:induction false} PollIndex(s: State, ins: seq<Input>, tx: Frame)
    requires Poll(ins, tx)
    ensures After(s, ins).cmd == CMD_TXPOLL && After(s, ins).txIdx == |ins| % 0x100
    decreases |ins|
  {
    if |ins| > 1 {
      var p := ins[..|ins| - 1];
      PollIndex(s, p, tx);
      NextIndex(|p|);
    }
  }

  lemma NextIndex(n: nat)
    ensures (n % 0x100 + 1) % 0x100 == (n + 1) % 0x100
  {
  }

  /**
   TX delivery: whatever the state before and whatever bytes follow, the reply to the
   n-th byte of a poll is byte n mod 256 of the loaded frame, and 0 past its end.
   */
  lemma PollReplies(s: State, ins: seq<Input>, tx: Frame, n: nat)
    requires Poll(ins, tx) && n < |ins|
    ensures ReplyAt(s, ins, n).resp == if n % 0x100 < FRAME_LEN then tx[n % 0x100] else 0
  {
    if n > 0 {
      PollIndex(s, ins[..n], tx);
    }
  }

  /** The last byte is the 8-bit sum of all the others. */
  predicate Sealed(f: Frame) { f[38] == Sum(f[..38]) % 0x100 }

  /** What makes Sum the sum: one byte is its own, and parts add up. */
  lemma {:induction false} SumAdds(a: seq<Byte>, b: seq<Byte>)
    ensures Sum([]) == 0 && Sum(a + b) == Sum(a) + Sum(b)
    ensures forall x: Byte :: Sum([x]) == x
  {
    forall x: Byte ensures Sum([x]) == x {
      assert [x][..0] == [];
    }
    if b == [] {
      assert a + b == a;
    } else {
      assert (a + b)[..|a + b| - 1] == a + b[..|b| - 1];
      SumAdds(a, b[..|b| - 1]);
    }
  }

  /** k530_checksum */
  method Checksum(frame: array<Byte>, lenWithoutChecksum: Byte) returns (sum: Byte)
    requires lenWithoutChecksum <= frame.Length
    ensures sum == Sum(frame[..lenWithoutChecksum]) % 0x100
  {
    sum := 0;
    var i := 0;
    while i < lenWithoutChecksum
      invariant i <= lenWithoutChecksum && sum == Sum(frame[..i]) % 0x100
    {
      assert frame[..i + 1][..i] == frame[..i];
      sum := (sum + frame[i]) % 0x100;
      i := i + 1;
    }
  }

  function Zeros(n: nat): seq<Byte> { seq(n, i => 0) }

  /** The position of the host selector, 1 to 3, counted from 0; an unknown position counts as the first. */
  function HostIndex(slot: Byte): Byte { if 1 <= slot <= 3 then slot - 1 else 0 }

  /** k530_build_keyboard_frame: the 6-key report in a sealed frame. */
  method BuildKeyboardFrame(mods: Byte, keys: seq<Byte>, btEnabled: bool, out: array<Byte>)
    requires |keys| == 6 && out.Length == FRAME_LEN
    modifies out
    ensures out[..38] == [0xA1, if btEnabled then 0x02 else 0x01, 8, mods, 0x00] + keys + Zeros(27)
    ensures Sealed(out[..])
  {
    forall i | 0 <= i < FRAME_LEN { out[i] := 0; }
    out[0] := CMD_KEYBOARD_6KEY;
    out[1] := if btEnabled then 0x02 else 0x01;
    out[2] := 8;
    out[3] := mods;
    out[4] := 0x00;
    for i := 0 to 6
      invariant out[0] == CMD_KEYBOARD_6KEY && out[1] == (if btEnabled then 0x02 else 0x01)
      invariant out[2] == 8 && out[3] == mods && out[4] == 0
      invariant forall j :: 5 <= j < FRAME_LEN ==> out[j] == if j < 5 + i then keys[j - 5] else 0
    {
      out[5 + i] := keys[i];
    }
    Seal(out);
  }

  /** `out[38] = k530_checksum(out, 38)` */
  method Seal(out: array<Byte>)
    requires out.Length == FRAME_LEN
    modifies out
    ensures out[..FRAME_LEN - 1] == old(out[..FRAME_LEN - 1]) && Sealed(out[..])
  {
    var sum := Checksum(out, FRAME_LEN - 1);
    out[FRAME_LEN - 1] := sum;
    assert out[..][..FRAME_LEN - 1] == out[..FRAME_LEN - 1] == old(out[..FRAME_LEN - 1]);
  }

  /** k530_build_control_frame: advertise (0x02) or stop (0x01) for the selected host. */
  method BuildControlFrame(enabled: bool, slot: Byte, out: array<Byte>)
    requires out.Length == FRAME_LEN
    modifies out
    ensures out[..38] == [0xA5, 0x02, 0x05, out[3], 0x0A, 0x19, 0x00, if enabled then 0x02 else 0x01] + Zeros(30)
    ensures if slot in {1, 2, 3} then out[3] == slot - 1 else out[3] == 0
    ensures Sealed(out[..])
  {
    forall i | 0 <= i < FRAME_LEN { out[i] := 0; }
    out[0] := CMD_BT_CONTROL;
    out[1] := 0x02;
    out[2] := 0x05;
    out[3] := HostIndex(slot);
    out[4] := 0x0A;
    out[5] := 0x19;
    out[6] := 0x00;
    out[7] := if enabled then 0x02 else 0x01;
    assert out[..FRAME_LEN - 1] ==
      [CMD_BT_CONTROL, 0x02, 0x05, HostIndex(slot), 0x0A, 0x19, 0x00, if enabled then 0x02 else 0x01] + Zeros(30);
    Seal(out);
  }

  /** k530_build_host_switch_frame */
  method BuildHostSwitchFrame(slot: Byte, out: array<Byte>)
    requires out.Length == FRAME_LEN
    modifies out
    ensures out[..38] == [0xA6, 0x02, 0x05, 0x02, out[4]] + Zeros(33)
    ensures if slot in {1, 2, 3} then out[4] == slot - 1 else out[4] == 0
    ensures Sealed(out[..])
  {
    forall i | 0 <= i < FRAME_LEN { out[i] := 0; }
    out[0] := CMD_BT_HOST_SWITCH;
    out[1] := 0x02;
    out[2] := 0x05;
    out[3] := 0x02;
    out[4] := HostIndex(slot);
    Seal(out);
  }

  /** k530_spi0_load_tx_buffer: a longer frame is cut, a shorter one leaves the rest. */
  method LoadTxBuffer(tx: array<Byte>, frame: array<Byte>, len: Byte)
    requires tx.Length == FRAME_LEN && frame != tx && (len <= frame.Length || FRAME_LEN <= frame.Length)
    modifies tx
    ensures var n := if len > FRAME_LEN then FRAME_LEN else len;
      tx[..] == frame[..n] + old(tx[n..])
  {
    var n := if len > FRAME_LEN then FRAME_LEN else len;
    forall i | 0 <= i < n { tx[i] := frame[i]; }
  }

  /** What a 39-byte poll reads back is the loaded frame itself, seal included. */
  lemma PollReadsFrame(s: State, ins: seq<Input>, tx: Frame)
    requires Poll(ins, tx) && |ins| == FRAME_LEN && Sealed(tx)
    ensures var got := seq(FRAME_LEN, n requires 0 <= n < FRAME_LEN => ReplyAt(s, ins, n).resp);
      got == tx && Sealed(got)
  {
    var got := seq(FRAME_LEN, n requires 0 <= n < FRAME_LEN => ReplyAt(s, ins, n).resp);
    forall n | 0 <= n < FRAME_LEN ensures got[n] == tx[n] {
      PollReplies(s, ins, tx, n);
    }
    assert got == tx;
  }
}
