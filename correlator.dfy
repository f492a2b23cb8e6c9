/**
 * The request/response correlator of the two kernel drivers (h80i.c and clink.c): the
 * message counter, the pending id and opcode, the command state IDLE/SEND/AWAIT/DONE,
 * the interrupt handler that hands a matching reply over in new_dat, and sendwait.
 *
 * The USB stack is outside the model: what happens during one sendwait (whether the URBs
 * could be submitted, what the control transfer returned, which completions arrived
 * before the wait ended) is an `Exchange` value, and each completion is an explicit event
 * handled in arrival order.
 */
module Correlator {
  import opened Basics
  import opened Wire
  import opened FanInfo
  import Capability

  datatype Driver = H80i | Clink

  /** The interface generation each driver speaks. */
  function VariantOf(d: Driver): Variant
  {
    match d
    case H80i => V2
    case Clink => V1
  }

  /** The device table each driver looks identities up in. */
  function DeviceTable(d: Driver): seq<Capability.DeviceSpec>
  {
    match d
    case H80i => Capability.H80iDevices
    case Clink => Capability.ClinkDevices
  }

  /** irqcmd_state */
  datatype CmdState = Idle | Send | Await | Done

  /** One completion of the interrupt-in URB: its status and the bytes the device sent. */
  datatype Urb = Urb(status: int, data: seq<byte>)

  /**
   * What the USB stack does during one sendwait.
   * H80i: whether the interrupt URB could be submitted, what the control transfer that
   * carries the request returned, the completions that arrived while that transfer was in
   * flight, and those that arrived before the wait timed out.
   * Clink: whether the interrupt-in and the interrupt-out URB could be submitted (the
   * interrupt-out submission is what sends the request), the completions that arrived
   * before the wait ended, and whether a signal, not the timeout, ended a wait that
   * accepted nothing (the clink's wait is interruptible, the h80i's is not).
   */
  datatype Exchange =
    | H80iExchange(submitOk: bool, sendResult: int, duringSend: seq<Urb>, afterSend: seq<Urb>)
    | ClinkExchange(inOk: bool, outOk: bool, arrivals: seq<Urb>, interrupted: bool)

  predicate Fits(d: Driver, ex: Exchange)
  {
    match d
    case H80i => ex.H80iExchange?
    case Clink => ex.ClinkExchange?
  }

  /** The length of irq_buf and new_dat. */
  function BufLen(d: Driver): nat
  {
    match d
    case H80i => 16
    case Clink => 64
  }

  /** How many bytes of a reply the handler copies into new_dat. */
  const CopyLen := 16

  /**
   * Where sendwait finds the request's first id and opcode in the buffer it is given:
   * the h80i gets the buffer with its length byte, the clink callers pass `&buf[1]`.
   */
  function PendOffset(d: Driver): nat
  {
    match d
    case H80i => 1
    case Clink => 0
  }

  /** pend_cmdID and pend_cmd: what a reply must echo to be taken for the awaited one. */
  datatype Pending = Pending(id: byte, cmd: byte)

  function PendingOf(d: Driver, buf: seq<byte>): Pending
    requires |buf| >= PendOffset(d) + 2
  {
    Pending(buf[PendOffset(d)], buf[PendOffset(d) + 1])
  }

  /**
   * The reply test of the interrupt handlers. As written it accepts a reply that echoes
   * the pending id OR the pending opcode; corrected, it wants both.
   */
  predicate Matches(build: Build, reply: seq<byte>, p: Pending)
    requires |reply| >= 2
  {
    match build
    case AsWritten => reply[0] == p.id || reply[1] == p.cmd
    case Corrected => reply[0] == p.id && reply[1] == p.cmd
  }

  /** Completion statuses whose bytes the handlers look at: success, and overflow (the buffer was shorter than the transfer). */
  predicate Delivered(status: int)
  {
    status == 0 || status == -EOVERFLOW
  }

  /**
   * Whether a handler resubmits the URB after a completion carrying no usable bytes: not
   * after an unlink or a shutdown; after -ENOENT only the h80i handler does; after any
   * other error both do.
   */
  predicate ResubmitsOnError(d: Driver, status: int)
  {
    !(status == -ECONNRESET || status == -ESHUTDOWN || (status == -ENOENT && d == Clink))
  }

  /** The correlator's part of the driver state; `armed` says the interrupt-in URB is submitted. */
  datatype Snapshot = Snapshot(state: CmdState, irqBuf: seq<byte>, newDat: seq<byte>, armed: bool)

  predicate Sized(d: Driver, s: Snapshot)
  {
    |s.irqBuf| == BufLen(d) && |s.newDat| == BufLen(d)
  }

  /** The device's bytes as they land in irq_buf: at most the buffer's length, the rest as it was. */
  function Received(irqBuf: seq<byte>, data: seq<byte>): (r: seq<byte>)
    ensures |r| == |irqBuf|
  {
    Overlay(irqBuf, data[..Min(|data|, |irqBuf|)])
  }

  /**
   * The effect of one completion (h80i_irq, clink_irq_in). A delivered reply that matches
   * while a request is in play (SEND or AWAIT) is copied to new_dat, the state becomes DONE
   * and the URB is not resubmitted; any other delivered reply is dropped and the URB
   * resubmitted.
   */
  function Step(d: Driver, build: Build, p: Pending, s: Snapshot, urb: Urb): (r: Snapshot)
    requires Sized(d, s)
    ensures Sized(d, r)
  {
    if !Delivered(urb.status) then s.(armed := ResubmitsOnError(d, urb.status))
    else
      var buf := Received(s.irqBuf, urb.data);
      if Matches(build, buf, p) && (s.state == Send || s.state == Await) then
        Snapshot(Done, buf, Overlay(s.newDat, buf[..CopyLen]), false)
      else
        Snapshot(s.state, buf, s.newDat, true)
  }

  /** The wait: completions are handled in arrival order while the URB is submitted and no reply has been accepted. */
  function Wait(d: Driver, build: Build, p: Pending, s: Snapshot, urbs: seq<Urb>): (r: Snapshot)
    requires Sized(d, s)
    ensures Sized(d, r)
    decreases |urbs|
  {
    if urbs == [] || !s.armed || s.state == Done then s
    else Wait(d, build, p, Step(d, build, p, s, urbs[0]), urbs[1..])
  }

  /** What sendwait returns, and the correlator state it leaves. */
  datatype Outcome = Outcome(retval: int, final: Snapshot)

  /** The exit path of sendwait: the URB is killed and the state set to IDLE. */
  function Disarmed(s: Snapshot): Snapshot
  {
    s.(state := Idle, armed := false)
  }

  /** The state sendwait starts from: idle, nothing submitted, both buffers zeroed. */
  function Cleared(d: Driver): (s: Snapshot)
    ensures Sized(d, s)
  {
    Snapshot(Idle, Zeros(BufLen(d)), Zeros(BufLen(d)), false)
  }

  /**
   * The h80i's state when its control transfer has returned: SEND is set and the interrupt
   * URB armed, the completions that arrive meanwhile are handled, and then AWAIT is set.
   * As written AWAIT overwrites a DONE the handler set meanwhile; corrected, DONE is kept.
   */
  function H80iAfterSend(build: Build, p: Pending, ex: Exchange): (s: Snapshot)
    requires ex.H80iExchange?
    ensures Sized(H80i, s)
  {
    var early := Wait(H80i, build, p, Cleared(H80i).(state := Send, armed := true), ex.duringSend);
    early.(state := if build == Corrected && early.state == Done then Done else Await)
  }

  /**
   * h80i_sendwait after the buffers are cleared and the pending fields set. As written, a
   * wait that times out sets -EIO and then overwrites it with `size`. Corrected, the
   * timeout is reported.
   */
  function H80iSendWait(build: Build, p: Pending, size: nat, ex: Exchange): (o: Outcome)
    requires ex.H80iExchange?
    ensures Sized(H80i, o.final)
  {
    var s := Cleared(H80i);
    if !ex.submitOk then Outcome(-EIO, s)
    else
      var s2 := H80iAfterSend(build, p, ex);
      if ex.sendResult < 0 || ex.sendResult != size then Outcome(-EIO, Disarmed(s2))
      else
        var late := Wait(H80i, build, p, s2, ex.afterSend);
        Outcome(if build == Corrected && late.state != Done then -EIO else size, Disarmed(late))
  }

  /**
   * clink_sendwait after the buffers are cleared, the pending fields set and the request
   * copied to irqout_buf. A wait that accepted nothing returns -ETIMEDOUT when time ran
   * out; as written, a wait a signal ended (a non-zero, negative result) falls through to
   * `size`. Corrected, the interruption is reported as -ERESTARTSYS.
   */
  function ClinkSendWait(build: Build, p: Pending, size: nat, ex: Exchange): (o: Outcome)
    requires ex.ClinkExchange?
    ensures Sized(Clink, o.final)
  {
    var s := Cleared(Clink).(state := Send);
    if !ex.inOk || !ex.outOk then Outcome(-EIO, s.(state := Idle))
    else
      var w := Wait(Clink, build, p, s.(armed := true), ex.arrivals);
      var retval :=
        if w.state == Done then size
        else if !ex.interrupted then -ETIMEDOUT
        else if build == AsWritten then size
        else -ERESTARTSYS;
      Outcome(retval, Disarmed(w))
  }

  function SendWaitSpec(d: Driver, build: Build, buf: seq<byte>, size: nat, ex: Exchange): (o: Outcome)
    requires Fits(d, ex) && |buf| >= PendOffset(d) + 2
    ensures Sized(d, o.final)
  {
    match d
    case H80i => H80iSendWait(build, PendingOf(d, buf), size, ex)
    case Clink => ClinkSendWait(build, PendingOf(d, buf), size, ex)
  }

  /**
   * A wait only ever hands over a reply that passes the match test, and only while a
   * request was in play; a wait that accepts nothing leaves new_dat and the state alone.
   */
  lemma {:induction false} WaitAcceptsOnlyMatches(d: Driver, build: Build, p: Pending, s: Snapshot, urbs: seq<Urb>)
    requires Sized(d, s) && s.state != Done
    ensures var r := Wait(d, build, p, s, urbs);
      && (r.state == Done ==>
            && Matches(build, r.newDat, p)
            && r.newDat[CopyLen..] == s.newDat[CopyLen..]
            && (s.state == Send || s.state == Await))
      && (r.state != Done ==> r.newDat == s.newDat && r.state == s.state)
    decreases |urbs|
  {
    if urbs != [] && s.armed {
      var s1 := Step(d, build, p, s, urbs[0]);
      if s1.state == Done {
        var buf := Received(s.irqBuf, urbs[0].data);
        assert s1.newDat[..CopyLen] == buf[..CopyLen];
        assert Wait(d, build, p, s, urbs) == s1;
      } else {
        WaitAcceptsOnlyMatches(d, build, p, s1, urbs[1..]);
      }
    }
  }

  /**
   * Every exit of sendwait leaves the state IDLE and the URB killed; new_dat holds either
   * nothing (zeros) or the first bytes of a reply that passed the match test; and the
   * result is `size` or a negative error: -EIO, or on the clink -ETIMEDOUT, and once an
   * interrupted wait is reported (the corrected build) -ERESTARTSYS.
   */
  lemma SendWaitExits(d: Driver, build: Build, buf: seq<byte>, size: nat, ex: Exchange)
    requires Fits(d, ex) && |buf| >= PendOffset(d) + 2
    ensures var o := SendWaitSpec(d, build, buf, size, ex);
      && o.final.state == Idle && !o.final.armed
      && (o.final.newDat == Zeros(BufLen(d))
          || (Matches(build, o.final.newDat, PendingOf(d, buf)) && o.final.newDat[CopyLen..] == Zeros(BufLen(d))[CopyLen..]))
      && (o.retval == size || o.retval == -EIO
          || (d == Clink && (o.retval == -ETIMEDOUT || (build == Corrected && o.retval == -ERESTARTSYS))))
  {
    var p := PendingOf(d, buf);
    var s := Cleared(d);
    match d
    case H80i =>
      if ex.submitOk {
        WaitAcceptsOnlyMatches(H80i, build, p, s.(state := Send, armed := true), ex.duringSend);
        var s2 := H80iAfterSend(build, p, ex);
        if s2.state != Done {
          WaitAcceptsOnlyMatches(H80i, build, p, s2, ex.afterSend);
        }
      }
    case Clink =>
      if ex.inOk && ex.outOk {
        WaitAcceptsOnlyMatches(Clink, build, p, s.(state := Send, armed := true), ex.arrivals);
      }
  }

  /**
   * When sendwait reports success, a reply passing the match test was handed over. This
   * holds once the h80i's timeout and the clink's interrupted wait are reported (the
   * corrected build); as written, either driver can report success with new_dat all zeros
   * (H80iSilentDevice, ClinkInterruptedWait).
   */
  lemma SuccessMeansReply(d: Driver, build: Build, buf: seq<byte>, size: nat, ex: Exchange)
    requires Fits(d, ex) && |buf| >= PendOffset(d) + 2
    requires build == Corrected
    ensures var o := SendWaitSpec(d, build, buf, size, ex);
      o.retval == size ==> Matches(build, o.final.newDat, PendingOf(d, buf))
  {
    var p := PendingOf(d, buf);
    var s := Cleared(d);
    match d
    case H80i =>
      if ex.submitOk {
        WaitAcceptsOnlyMatches(H80i, build, p, s.(state := Send, armed := true), ex.duringSend);
        var s2 := H80iAfterSend(build, p, ex);
        if s2.state != Done {
          WaitAcceptsOnlyMatches(H80i, build, p, s2, ex.afterSend);
        } else {
          assert Wait(H80i, build, p, s2, ex.afterSend) == s2;
        }
      }
    case Clink =>
      if ex.inOk && ex.outOk {
        WaitAcceptsOnlyMatches(Clink, build, p, s.(state := Send, armed := true), ex.arrivals);
      }
  }

  /**
   * As written, h80i_sendwait reports success for a device that never answers: the
   * control transfer goes out, no completion arrives, and the caller gets `size` with
   * new_dat all zeros. Corrected, the same exchange yields -EIO.
   */
  lemma H80iSilentDevice(p: Pending, size: nat)
    ensures var ex := H80iExchange(true, size, [], []);
      && H80iSendWait(AsWritten, p, size, ex) == Outcome(size, Cleared(H80i))
      && H80iSendWait(Corrected, p, size, ex).retval == -EIO
  {
  }

  /**
   * As written, a signal that ends the clink's wait before any reply is accepted falls
   * through to `size`: the caller gets success with new_dat all zeros. Corrected, the
   * interruption is reported.
   */
  lemma ClinkInterruptedWait(p: Pending, size: nat)
    ensures var ex := ClinkExchange(true, true, [], true);
      && ClinkSendWait(AsWritten, p, size, ex) == Outcome(size, Cleared(Clink))
      && ClinkSendWait(Corrected, p, size, ex).retval == -ERESTARTSYS
  {
  }

  /**
   * As written, a matching reply that arrives while the h80i's control transfer is still in
   * flight is delayed: the handler sets DONE and stops resubmitting, then AWAIT overwrites
   * DONE, so no later completion can end the wait, which runs to its timeout; the reply is
   * still in new_dat, and `retval = size` reports success. Corrected, DONE is kept and
   * sendwait returns `size` with the reply in new_dat at once.
   */
  lemma H80iEarlyReplyOverwritten(p: Pending, size: nat, reply: seq<byte>, later: seq<Urb>)
    requires |reply| >= 2 && reply[0] == p.id && reply[1] == p.cmd
    ensures var ex := H80iExchange(true, size, [Urb(0, reply)], later);
      var s := H80iAfterSend(AsWritten, p, ex);
      && s.state == Await && !s.armed
      && Wait(H80i, AsWritten, p, s, later) == s
      && H80iSendWait(AsWritten, p, size, ex).retval == size
      && H80iSendWait(AsWritten, p, size, ex).final.newDat[..2] == reply[..2]
      && H80iAfterSend(Corrected, p, ex).state == Done
      && H80iSendWait(Corrected, p, size, ex).retval == size
      && H80iSendWait(Corrected, p, size, ex).final.newDat[..2] == reply[..2]
  {
    var ex := H80iExchange(true, size, [Urb(0, reply)], later);
    var s0 := Cleared(H80i).(state := Send, armed := true);
    var buf := Received(s0.irqBuf, reply);
    assert buf[0] == reply[0] && buf[1] == reply[1];
    forall build | true
      ensures Wait(H80i, build, p, s0, ex.duringSend) == Snapshot(Done, buf, Overlay(s0.newDat, buf[..CopyLen]), false)
    {
      var s1 := Step(H80i, build, p, s0, Urb(0, reply));
      assert s1 == Snapshot(Done, buf, Overlay(s0.newDat, buf[..CopyLen]), false);
      assert Wait(H80i, build, p, s1, []) == s1;
    }
    var early := Snapshot(Done, buf, Overlay(s0.newDat, buf[..CopyLen]), false);
    var written := H80iAfterSend(AsWritten, p, ex);
    assert written == early.(state := Await);
    assert Wait(H80i, AsWritten, p, written, later) == written;
    assert H80iSendWait(AsWritten, p, size, ex).final == Disarmed(written);
    var corrected := H80iAfterSend(Corrected, p, ex);
    assert corrected.state == Done;
    assert Wait(H80i, Corrected, p, corrected, later) == corrected;
  }

  /**
   * As written, a stale reply that echoes only the pending opcode is taken for the awaited
   * one. Every V2 request starts with a WriteOneByte select, so the reply to any earlier V2
   * request (here, one with id 0x83) passes the test of a request with id 0x85. Corrected,
   * it is dropped and the URB resubmitted.
   */
  lemma StaleReplyAccepted()
    ensures var p := Pending(0x85, WriteOneByte);
      var s := Cleared(H80i).(state := Await, armed := true);
      var stale := Urb(0, [0x83, WriteOneByte, 0x84, ReadTwoBytes, 0x10, 0x02]);
      && Step(H80i, AsWritten, p, s, stale).state == Done
      && Step(H80i, AsWritten, p, s, stale).newDat[0] == 0x83
      && Step(H80i, Corrected, p, s, stale).state == Await
      && Step(H80i, Corrected, p, s, stale).armed
  {
    var s := Cleared(H80i).(state := Await, armed := true);
    var buf := Received(s.irqBuf, [0x83, WriteOneByte, 0x84, ReadTwoBytes, 0x10, 0x02]);
    assert buf[0] == 0x83 && buf[1] == WriteOneByte;
  }

  /** Corrected, a completion is accepted exactly when it echoes both the pending id and opcode while a request is in play. */
  lemma CorrectedStepAcceptsExactly(d: Driver, p: Pending, s: Snapshot, urb: Urb)
    requires Sized(d, s) && s.armed
    ensures var r := Step(d, Corrected, p, s, urb);
      var buf := Received(s.irqBuf, urb.data);
      (r.state == Done && s.state != Done) <==>
        (Delivered(urb.status) && buf[0] == p.id && buf[1] == p.cmd && (s.state == Send || s.state == Await))
  {
  }

  // ---------------------------------------------------------------------------------
  // Message ids. Each request takes one id per command (CommandId++), and sendwait resets
  // a counter that reached 0xff to 0x81 before the request goes out.

  function ResetAtSend(c: int): int
  {
    if c == 0xff then 0x81 else c
  }

  /** CommandId once a request of `n` commands has been built from `c` and sent. */
  function AfterRequest(c: int, n: nat): int
  {
    ResetAtSend(c + n)
  }

  /** The id bytes `k` successive requests of `n` commands each put on the wire, starting from counter `c`. */
  function IdsSent(c: int, n: nat, k: nat): (ids: seq<byte>)
    ensures |ids| == n * k
    decreases k
  {
    if k == 0 then [] else seq<byte>(n, i => IdByte(c + i)) + IdsSent(AfterRequest(c, n), n, k - 1)
  }

  predicate InIdRange(ids: seq<byte>)
  {
    forall i :: 0 <= i < |ids| ==> 0x81 <= ids[i] <= 0xfe
  }

  /** One-command requests (all clink requests, and the h80i's identification): ids stay in 0x81..0xfe, never 0. */
  lemma {:induction false} OneCommandIdsInRange(c: int, k: nat)
    requires 0x81 <= c <= 0xfe
    ensures InIdRange(IdsSent(c, 1, k))
    decreases k
  {
    if k > 0 {
      var rest := IdsSent(AfterRequest(c, 1), 1, k - 1);
      OneCommandIdsInRange(AfterRequest(c, 1), k - 1);
      var ids := IdsSent(c, 1, k);
      assert ids == [IdByte(c)] + rest;
      forall i | 0 <= i < |ids| ensures 0x81 <= ids[i] <= 0xfe {
        if i > 0 {
          assert ids[i] == rest[i - 1];
        }
      }
    }
  }

  /** Two-command V2 requests from an odd counter: ids stay in 0x81..0xfe, because the counter meets 0xff exactly. */
  lemma {:induction false} OddCounterIdsInRange(c: int, k: nat)
    requires 0x81 <= c <= 0xfd && c % 2 == 1
    ensures InIdRange(IdsSent(c, 2, k))
    decreases k
  {
    if k > 0 {
      var next := AfterRequest(c, 2);
      assert 0x81 <= next <= 0xfd && next % 2 == 1;
      OddCounterIdsInRange(next, k - 1);
      var rest := IdsSent(next, 2, k - 1);
      var ids := IdsSent(c, 2, k);
      assert ids == [IdByte(c), IdByte(c + 1)] + rest;
      forall i | 0 <= i < |ids| ensures 0x81 <= ids[i] <= 0xfe {
        if i > 1 {
          assert ids[i] == rest[i - 2];
        }
      }
    }
  }

  /**
   * Two-command requests from an even counter step over 0xff, so the reset never fires
   * and the counter reaches 0x100, whose id byte is 0.
   */
  lemma {:induction false} EvenCounterSendsZero(c: int)
    requires 0x82 <= c <= 0x100 && c % 2 == 0
    ensures var ids := IdsSent(c, 2, (0x100 - c) / 2 + 1);
      |ids| > 0x100 - c && ids[0x100 - c] == 0
    decreases 0x100 - c
  {
    if c < 0x100 {
      EvenCounterSendsZero(c + 2);
      var k := (0x100 - c) / 2 + 1;
      assert AfterRequest(c, 2) == c + 2;
      assert IdsSent(c, 2, k) == seq<byte>(2, i => IdByte(c + i)) + IdsSent(c + 2, 2, k - 1);
    }
  }

  /** The h80i starts at 0x81 and identifies the device with two one-command requests, so its V2 requests start from an odd counter. */
  lemma H80iCounterOddAfterIdentify()
    ensures AfterRequest(AfterRequest(0x81, 1), 1) == 0x83
    ensures forall k: nat :: InIdRange(IdsSent(0x83, 2, k))
  {
    forall k: nat ensures InIdRange(IdsSent(0x83, 2, k)) {
      OddCounterIdsInRange(0x83, k);
    }
  }

  // ---------------------------------------------------------------------------------

  /** A temperature sensor as the drivers record it: whole degrees and 1/256ths. */
  datatype TempInfo = TempInfo(name: string, wholeDeg: byte, partDeg: byte)

  /** The per-device state of either driver (struct CorsairLink in h80i.c and clink.c). */
  class DriverLink {
    const driver: Driver
    const build: Build
    var commandId: int
    var pendCmdId: byte
    var pendCmd: byte
    var state: CmdState
    var irqBuf: seq<byte>
    var irqoutBuf: seq<byte>
    var newDat: seq<byte>
    var armed: bool
    /** Index of the device's entry in DeviceTable(driver); None is the NULL pointer. */
    var devid: Option<nat>
    var firmwareId: u16
    const fans: array<FanInfo>
    const temps: array<TempInfo>
    /** The fans and sensors whose hwmon attribute files the probe created. */
    var fanFiles: set<nat>
    var tempFiles: set<nat>

    function Snap(): Snapshot
      reads this
    {
      Snapshot(state, irqBuf, newDat, armed)
    }

    function Pend(): Pending
      reads this
    {
      Pending(pendCmdId, pendCmd)
    }

    /** The fields neither sendwait nor the interrupt handler writes. */
    function Record(): (Option<nat>, u16, set<nat>, set<nat>)
      reads this
    {
      (devid, firmwareId, fanFiles, tempFiles)
    }

    ghost predicate Shaped()
      reads this
    {
      && Sized(driver, Snap())
      && |irqoutBuf| == 64
      && fans.Length == Capability.NumFans
      && temps.Length == Capability.NumTemps
      && (devid.Some? ==> devid.value < |DeviceTable(driver)|)
    }

    /** Between requests: no command in play and no URB submitted. */
    ghost predicate Valid()
      reads this
    {
      Shaped() && state == Idle && !armed
    }

    /** The state the probe starts from: zero-filled, with the message counter at 0x81. */
    constructor (driver: Driver, build: Build)
      ensures Valid() && fresh(fans) && fresh(temps)
      ensures this.driver == driver && this.build == build
      ensures commandId == 0x81 && devid == None && newDat == Zeros(BufLen(driver))
      ensures fanFiles == {} && tempFiles == {}
      ensures forall i :: 0 <= i < fans.Length ==> fans[i] == FanInfo("", 0, 0, 0)
      ensures forall i :: 0 <= i < temps.Length ==> temps[i] == TempInfo("", 0, 0)
    {
      this.driver := driver;
      this.build := build;
      commandId := 0x81;
      pendCmdId := 0;
      pendCmd := 0;
      state := Idle;
      irqBuf := Zeros(BufLen(driver));
      irqoutBuf := Zeros(64);
      newDat := Zeros(BufLen(driver));
      armed := false;
      devid := None;
      firmwareId := 0;
      fans := new FanInfo[Capability.NumFans](_ => FanInfo("", 0, 0, 0));
      temps := new TempInfo[Capability.NumTemps](_ => TempInfo("", 0, 0));
      fanFiles := {};
      tempFiles := {};
    }

    /** The interrupt handler (h80i_irq, clink_irq_in): one completion of the submitted URB. */
    method Irq(urb: Urb)
      requires Shaped() && armed
      modifies this
      ensures Shaped()
      ensures Snap() == Step(driver, build, Pend(), old(Snap()), urb)
      ensures Pend() == old(Pend()) && commandId == old(commandId) && irqoutBuf == old(irqoutBuf)
      ensures Record() == old(Record())
    {
      if urb.status == 0 || urb.status == -EOVERFLOW {
        Receive(urb.data);
      } else if urb.status == -ECONNRESET || urb.status == -ESHUTDOWN {
        armed := false;
      } else if urb.status == -ENOENT && driver == Clink {
        armed := false;
      } else {
        armed := true;
      }
    }

    /** The handlers on a completion that carries bytes: the reply test, and the copy to new_dat when it passes. */
    method Receive(data: seq<byte>)
      requires Shaped() && armed
      modifies this
      ensures Shaped()
      ensures Snap() == Step(driver, build, Pend(), old(Snap()), Urb(0, data))
      ensures Pend() == old(Pend()) && commandId == old(commandId) && irqoutBuf == old(irqoutBuf)
      ensures Record() == old(Record())
    {
      irqBuf := Received(irqBuf, data);
      var hit := match build
        case AsWritten => irqBuf[0] == pendCmdId || irqBuf[1] == pendCmd
        case Corrected => irqBuf[0] == pendCmdId && irqBuf[1] == pendCmd;
      if hit && (state == Send || state == Await) {
        newDat := Overlay(newDat, irqBuf[..CopyLen]);
        state := Done;
        armed := false;
        return;
      }
      armed := true;
    }

    /** The wait of sendwait: completions are handled until one is accepted, the URB is no longer submitted, or time runs out. */
    method Deliver(urbs: seq<Urb>)
      requires Shaped()
      modifies this
      ensures Shaped()
      ensures Snap() == Wait(driver, build, Pend(), old(Snap()), urbs)
      ensures Pend() == old(Pend()) && commandId == old(commandId) && irqoutBuf == old(irqoutBuf)
      ensures Record() == old(Record())
    {
      var k := 0;
      while k < |urbs| && armed && state != Done
        invariant 0 <= k <= |urbs| && Shaped()
        invariant Pend() == old(Pend()) && commandId == old(commandId) && irqoutBuf == old(irqoutBuf)
        invariant Record() == old(Record())
        invariant Wait(driver, build, Pend(), Snap(), urbs[k..]) == Wait(driver, build, Pend(), old(Snap()), urbs)
      {
        assert urbs[k..][0] == urbs[k] && urbs[k..][1..] == urbs[k + 1..];
        Irq(urbs[k]);
        k := k + 1;
      }
      assert k == |urbs| ==> urbs[k..] == [];
    }

    /**
     * h80i_sendwait / clink_sendwait: sends the request in `buf` (`size` bytes) and waits
     * for the matching reply, which it leaves in new_dat.
     */
    method SendWait(buf: seq<byte>, size: nat, ex: Exchange) returns (retval: int)
      requires Valid() && Fits(driver, ex)
      requires |buf| >= PendOffset(driver) + 2 && size <= |buf|
      requires driver == Clink ==> size <= 64
      modifies this
      ensures Valid() && Record() == old(Record())
      ensures commandId == ResetAtSend(old(commandId))
      ensures Pend() == PendingOf(driver, buf)
      ensures irqoutBuf == (if driver == Clink then Overlay(Zeros(64), buf[..size]) else old(irqoutBuf))
      ensures var o := SendWaitSpec(driver, build, buf, size, ex);
        retval == o.retval && Snap() == o.final
    {
      Prepare(buf);
      if driver == H80i {
        retval := RunH80i(size, ex);
      } else {
        irqoutBuf := Overlay(Zeros(64), buf[..size]);
        retval := RunClink(size, ex);
      }
    }

    /** The start of both sendwaits: buffers cleared, the id counter wrapped, the pending id and opcode taken from `buf`. */
    method Prepare(buf: seq<byte>)
      requires Valid() && |buf| >= PendOffset(driver) + 2
      modifies this
      ensures Shaped() && Snap() == Cleared(driver)
      ensures Record() == old(Record()) && irqoutBuf == old(irqoutBuf)
      ensures commandId == ResetAtSend(old(commandId)) && Pend() == PendingOf(driver, buf)
    {
      irqBuf := Zeros(BufLen(driver));
      newDat := Zeros(BufLen(driver));
      if commandId == 0xff {
        commandId := 0x81;
      }
      pendCmdId := buf[PendOffset(driver)];
      pendCmd := buf[PendOffset(driver) + 1];
    }

    /** h80i_sendwait from the point where the pending fields are set. */
    method RunH80i(size: nat, ex: Exchange) returns (retval: int)
      requires Shaped() && driver == H80i && ex.H80iExchange? && Snap() == Cleared(H80i)
      modifies this
      ensures Shaped()
      ensures Pend() == old(Pend()) && commandId == old(commandId) && irqoutBuf == old(irqoutBuf)
      ensures Record() == old(Record()) && state == Idle && !armed
      ensures H80iSendWait(build, Pend(), size, ex) == Outcome(retval, Snap())
    {
      if !ex.submitOk {
        return -EIO;
      }
      state := Send;
      armed := true;
      Deliver(ex.duringSend);
      if build == AsWritten || state != Done {
        state := Await;
      }
      if ex.sendResult < 0 || ex.sendResult != size {
        retval := -EIO;
      } else {
        Deliver(ex.afterSend);
        if state != Done && build == Corrected {
          retval := -EIO;
        } else {
          retval := size;
        }
      }
      armed := false;
      state := Idle;
    }

    /** clink_sendwait from the point where the request is copied to irqout_buf. */
    method RunClink(size: nat, ex: Exchange) returns (retval: int)
      requires Shaped() && driver == Clink && ex.ClinkExchange? && Snap() == Cleared(Clink)
      modifies this
      ensures Shaped()
      ensures Pend() == old(Pend()) && commandId == old(commandId) && irqoutBuf == old(irqoutBuf)
      ensures Record() == old(Record()) && state == Idle && !armed
      ensures ClinkSendWait(build, Pend(), size, ex) == Outcome(retval, Snap())
    {
      state := Send;
      if !ex.inOk || !ex.outOk {
        state := Idle;
        return -EIO;
      }
      armed := true;
      Deliver(ex.arrivals);
      if state == Done {
        retval := size;
      } else if !ex.interrupted {
        retval := -ETIMEDOUT;
      } else if build == AsWritten {
        retval := size;
      } else {
        retval := -ERESTARTSYS;
      }
      armed := false;
      state := Idle;
    }
  }
}
