/**
 * The OpenCorsairLink userland library (CorsairLink.c): it opens the cooler through HID,
 * writes request buffers with hid_write and polls hid_read for the answer. The device is
 * an oracle: every request is answered by a `Reply` that says what hid_write returns and
 * what each call of hid_read sees.
 */
module Link {
  import opened Basics
  import opened Wire
  import opened FanInfo
  import Capability

  // Interface numbers, as the command line and the library use them.
  const H80I := 1
  const CLINK := 2

  /** Fans the library reads and keeps: the port tables have five entries. */
  const NUMFANS := 5

  /** Every request is built in a local buffer of 256 bytes. */
  const BufSize := 256

  /**
   * hid_read_wrapper asks hid_read for `sizeof(buf)` bytes where `buf` is a pointer
   * parameter, so a read returns at most the size of a pointer: 8 bytes on a 64-bit build.
   */
  const ReadLimit := 8

  /** The wrapper sleeps this many milliseconds after every poll ... */
  const PollStep := 100
  /** ... until it has slept this long, as CorsairLink_init sets max_ms_read_wait. */
  const DefaultReadWait := 5000

  function VariantOf(interface: int): Variant
  {
    if interface == CLINK then V1 else V2
  }

  /** What one call of hid_read finds: nothing yet, a report, or an error. */
  datatype Poll = NoData | Data(bytes: seq<byte>) | ReadError

  /** How the device answers one request: what hid_write returns and what each later hid_read sees. */
  datatype Reply = Reply(writeResult: int, polls: seq<Poll>)

  /** A device that takes the request and never answers. */
  const Silent := Reply(0, [])

  /** The poll the `k`-th hid_read sees; past the end of `polls` nothing more arrives. */
  function PollAt(polls: seq<Poll>, k: nat): Poll
  {
    if k < |polls| then polls[k] else NoData
  }

  /** The reply to the `k`-th request of a run; requests past the end of `rs` go unanswered. */
  function ReplyAt(rs: seq<Reply>, k: nat): Reply
  {
    if k < |rs| then rs[k] else Silent
  }

  /** What a read returns and the buffer it leaves. */
  datatype ReadResult = ReadResult(res: int, buf: seq<byte>)

  /** One hid_read into `buf`: a report overwrites at most ReadLimit leading bytes and the rest of `buf` stays. */
  function HidRead(buf: seq<byte>, p: Poll): (r: ReadResult)
    requires |buf| >= ReadLimit
    ensures |r.buf| == |buf| && r.res <= ReadLimit
    ensures r.res <= 0 ==> r.buf == buf
    ensures r.res > 0 ==> p.Data? && r.res <= |p.bytes| && r.buf[..r.res] == p.bytes[..r.res] && r.buf[r.res..] == buf[r.res..]
    ensures p.Data? ==> r.res == Min(|p.bytes|, ReadLimit)
    ensures p.ReadError? <==> r.res < 0
  {
    match p
    case NoData => ReadResult(0, buf)
    case ReadError => ReadResult(-1, buf)
    case Data(bytes) =>
      var n := Min(|bytes|, ReadLimit);
      ReadResult(n, Overlay(buf, bytes[..n]))
  }

  /** Where the wrapper's polling loop ends: the last value of `res`, the buffer, and the time slept. */
  datatype PollEnd = PollEnd(res: int, buf: seq<byte>, slept: int)

  /**
   * The polling loop of hid_read_wrapper from the `k`-th poll, `slept` milliseconds into
   * the wait: it reads until a read returns nonzero (data or an error) or the time slept
   * reaches `maxWait`, sleeping PollStep after every read.
   */
  function Polling(buf: seq<byte>, polls: seq<Poll>, k: nat, slept: int, maxWait: int): (e: PollEnd)
    requires |buf| >= ReadLimit
    ensures |e.buf| == |buf|
    decreases maxWait - slept
  {
    if slept >= maxWait then PollEnd(0, buf, slept)
    else
      var r := HidRead(buf, PollAt(polls, k));
      if r.res != 0 then PollEnd(r.res, r.buf, slept + PollStep)
      else Polling(r.buf, polls, k + 1, slept + PollStep, maxWait)
  }

  /**
   * hid_read_wrapper: the loop's `res`, cleared when the time slept equals the limit, is
   * what the wrapper evidently means to return; as written it returns 1 whatever happened.
   */
  function ReadWrapperSpec(build: Build, maxWait: int, buf: seq<byte>, polls: seq<Poll>): (r: ReadResult)
    requires |buf| >= ReadLimit
    ensures |r.buf| == |buf|
  {
    var e := Polling(buf, polls, 0, 0, maxWait);
    var res := if e.slept == maxWait then 0 else e.res;
    ReadResult(if build == AsWritten then 1 else res, e.buf)
  }

  /** Polling reads only the polls it has time for: with `n` polls' worth of wait left, polls past the `n`-th do not matter. */
  lemma {:induction false} PollingSeesPrefix(buf: seq<byte>, polls: seq<Poll>, other: seq<Poll>, k: nat, n: nat, maxWait: int)
    requires |buf| >= ReadLimit && maxWait <= PollStep * n
    requires forall j :: k <= j < n ==> PollAt(polls, j) == PollAt(other, j)
    ensures Polling(buf, polls, k, PollStep * k, maxWait) == Polling(buf, other, k, PollStep * k, maxWait)
    decreases maxWait - PollStep * k
  {
    if PollStep * k < maxWait {
      var r := HidRead(buf, PollAt(polls, k));
      if r.res == 0 {
        PollingSeesPrefix(r.buf, polls, other, k + 1, n, maxWait);
      }
    }
  }

  /** With the default wait of 5000 ms the wrapper makes at most 50 reads: only the first 50 polls decide its result. */
  lemma WrapperReadsAtMostFifty(build: Build, buf: seq<byte>, polls: seq<Poll>, other: seq<Poll>)
    requires |buf| >= ReadLimit
    requires forall j :: 0 <= j < 50 ==> PollAt(polls, j) == PollAt(other, j)
    ensures ReadWrapperSpec(build, DefaultReadWait, buf, polls) == ReadWrapperSpec(build, DefaultReadWait, buf, other)
  {
    PollingSeesPrefix(buf, polls, other, 0, 50, DefaultReadWait);
  }

  lemma {:induction false} SilentPolling(buf: seq<byte>, k: nat, slept: int, maxWait: int)
    requires |buf| >= ReadLimit && slept <= maxWait && (maxWait - slept) % PollStep == 0
    ensures Polling(buf, [], k, slept, maxWait) == PollEnd(0, buf, maxWait)
    decreases maxWait - slept
  {
    if slept < maxWait {
      SilentPolling(buf, k + 1, slept + PollStep, maxWait);
    }
  }

  /**
   * A device that never answers: the wrapper waits the whole 5000 ms and leaves the buffer
   * as it was, so the caller decodes whatever the buffer held before the read. The loop's
   * result is 0; as written the wrapper still returns 1.
   */
  lemma SilentRead(build: Build, buf: seq<byte>)
    requires |buf| >= ReadLimit
    ensures ReadWrapperSpec(build, DefaultReadWait, buf, []) == ReadResult(if build == AsWritten then 1 else 0, buf)
  {
    SilentPolling(buf, 0, 0, DefaultReadWait);
  }

  /**
   * A read error on the first poll ends the wait at once and leaves the buffer as it was;
   * as written the wrapper returns 1, so no caller's `res < 0` test ever sees the error.
   */
  lemma ReadErrorHidden(build: Build, buf: seq<byte>, polls: seq<Poll>)
    requires |buf| >= ReadLimit && |polls| > 0 && polls[0] == ReadError
    ensures ReadWrapperSpec(build, DefaultReadWait, buf, polls) == ReadResult(if build == AsWritten then 1 else -1, buf)
  {
  }

  /** A report on the first poll is taken: its first bytes, at most ReadLimit of them, replace the head of the buffer. */
  lemma FirstReportTaken(build: Build, buf: seq<byte>, polls: seq<Poll>)
    requires |buf| >= ReadLimit && |polls| > 0 && polls[0].Data? && polls[0].bytes != []
    ensures var n := Min(|polls[0].bytes|, ReadLimit);
      ReadWrapperSpec(build, DefaultReadWait, buf, polls)
        == ReadResult(if build == AsWritten then 1 else n, Overlay(buf, polls[0].bytes[..n]))
  {
  }

  /** The request buffers: `prefix`, then zeros up to BufSize. */
  function Buffer(prefix: seq<byte>): (buf: seq<byte>)
    requires |prefix| <= BufSize
    ensures |buf| == BufSize
  {
    Filled(prefix, BufSize)
  }

  /**
   * The bytes handed to hid_write: `n` bytes from the start of the buffer on the H80i, or
   * from its second byte on the Cooling Node, which does not take the length byte.
   */
  function Written(v: Variant, buf: seq<byte>, n: nat): seq<byte>
    requires |buf| == BufSize && n < BufSize
  {
    if v == V1 then buf[1..1 + n] else buf[..n]
  }

  /** What a read request asks for. */
  datatype Quantity = ModeQ | RpmQ | MaxRpmQ | TempQ

  /** The number of slots of each quantity the V1 port tables give. */
  function Ports(q: Quantity): nat
  {
    if q == TempQ then |TempIndxToPort| else |FanRPMIndxToPort|
  }

  /** The V1 register of slot `i`, from the port tables. */
  function Port(q: Quantity, i: nat): byte
    requires i < Ports(q)
  {
    match q
    case ModeQ => FanModeIndxToPort[i]
    case RpmQ => FanRPMIndxToPort[i]
    case MaxRpmQ => FanMaxRPMIndxToPort[i]
    case TempQ => TempIndxToPort[i]
  }

  /**
   * The buffer of a read request with first id `c`. V1 reads the slot's own register with
   * ReadTwoBytes; V2 selects the fan or sensor and then reads the shared register (the mode
   * with ReadOneByte, the words with ReadTwoBytes).
   */
  function ReadRequest(v: Variant, c: int, q: Quantity, i: nat): (buf: seq<byte>)
    requires v == V1 ==> i < Ports(q)
    ensures |buf| == BufSize
  {
    if v == V1 then Buffer([3, IdByte(c), ReadTwoBytes, Port(q, i)])
    else
      var sel := if q == TempQ then TEMP_SelectActiveSensor else FAN_Select;
      var op := if q == ModeQ then ReadOneByte else ReadTwoBytes;
      var reg := match q
        case ModeQ => FAN_Mode
        case RpmQ => FAN_ReadRPM
        case MaxRpmQ => FAN_MaxRecordedRPM
        case TempQ => TEMP_Read;
      Buffer([7, IdByte(c), WriteOneByte, sel, Truncate(i), IdByte(c + 1), op, reg])
  }

  /** How many bytes a read request hands to hid_write: 11 on V2; 3 on V1, except 32 for the maximum RPM. */
  function ReadLength(v: Variant, q: Quantity): nat
  {
    if v == V2 then 11 else if q == MaxRpmQ then 32 else 3
  }

  /** Where the value read sits in the reply: after the id and opcode echoed for every command of the request. */
  function ValueAt(v: Variant): nat
  {
    ValueOffset(CommandsPerRequest(v))
  }

  /**
   * The frames the tool writes are the protocol's commands: V1 sends one command and uses
   * one id; V2 sends a select command and a read command, ids `c` and `c + 1`, behind a
   * length byte of 7 that covers exactly those two commands.
   */
  lemma ReadRequestShape(v: Variant, c: int, q: Quantity, i: nat)
    requires v == V1 ==> i < Ports(q)
    ensures var buf := ReadRequest(v, c, q, i);
      v == V1 ==> Written(v, buf, 3) == Encode([Command(IdByte(c), ReadTwoBytes, Port(q, i), [])])
    ensures var buf := ReadRequest(v, c, q, i);
      v == V2 ==>
        Unpack(Written(v, buf, ReadLength(v, q))) == Some([
          Command(IdByte(c), WriteOneByte, if q == TempQ then TEMP_SelectActiveSensor else FAN_Select, [Truncate(i)]),
          Command(IdByte(c + 1), if q == ModeQ then ReadOneByte else ReadTwoBytes, buf[7], [])])
  {
    var buf := ReadRequest(v, c, q, i);
    if v == V1 {
      assert buf[..4] == [3, IdByte(c), ReadTwoBytes, Port(q, i)];
      assert Written(v, buf, 3) == buf[1..4];
    } else {
      var sel := if q == TempQ then TEMP_SelectActiveSensor else FAN_Select;
      var op := if q == ModeQ then ReadOneByte else ReadTwoBytes;
      var cmds := [Command(IdByte(c), WriteOneByte, sel, [Truncate(i)]), Command(IdByte(c + 1), op, buf[7], [])];
      assert buf[..8] == [7, IdByte(c), WriteOneByte, sel, Truncate(i), IdByte(c + 1), op, buf[7]];
      assert Encode(cmds) == buf[1..8] by {
        assert Encode(cmds[1..]) == [IdByte(c + 1), op, buf[7]];
      }
      assert Written(v, buf, 11) == Packet(7, cmds) + buf[8..11];
      UnpackPacket(cmds, buf[8..11]);
    }
  }

  /** The mode byte of a reply: the first byte after the echoed commands. */
  function ModeIn(v: Variant, buf: seq<byte>): byte
    requires |buf| == BufSize
  {
    buf[ValueAt(v)]
  }

  /** The little-endian word of a reply, after the echoed commands. */
  function WordIn(v: Variant, buf: seq<byte>): u16
    requires |buf| == BufSize
  {
    ReplyWord(CommandsPerRequest(v), buf)
  }

  /**
   * A device that answers at once with a report carrying `w` where the variant puts the
   * value, whatever the buffer held before: the tool decodes `w` (both builds).
   */
  lemma ReportDecodes(build: Build, v: Variant, before: seq<byte>, polls: seq<Poll>, w: u16)
    requires |before| == BufSize && |polls| > 0 && polls[0].Data?
    requires |polls[0].bytes| >= ValueAt(v) + 2
    requires polls[0].bytes[ValueAt(v)] == LowByte(w) && polls[0].bytes[ValueAt(v) + 1] == HighByte(w)
    ensures WordIn(v, ReadWrapperSpec(build, DefaultReadWait, before, polls).buf) == w
    ensures ModeIn(v, ReadWrapperSpec(build, DefaultReadWait, before, polls).buf) == LowByte(w)
  {
    FirstReportTaken(build, before, polls);
    ReplyWordRoundTrip(CommandsPerRequest(v), ReadWrapperSpec(build, DefaultReadWait, before, polls).buf, w);
  }

  /** What the userland tool takes for the id of a device: the Cooling Node is 0x38; the H80i 0x3b and the H100i 0x3c. */
  predicate IdentityAccepted(interface: int, id: byte)
  {
    if interface == CLINK then id == 0x38 else id == 0x3b || id == 0x3c
  }

  /** The tool accepts exactly the devices the matching kernel driver attaches. */
  lemma IdentityAgreesWithDrivers(id: byte)
    ensures Capability.Terminated(Capability.ClinkDevices) && Capability.Terminated(Capability.H80iDevices)
    ensures IdentityAccepted(CLINK, id) <==> Capability.Attaches(Capability.ClinkDevices, id)
    ensures IdentityAccepted(H80I, id) <==> Capability.Attaches(Capability.H80iDevices, id)
  {
    Capability.ClinkAttachesExactly(id);
    Capability.H80iAttachesExactly(id);
  }

  const CorsairVendor := 0x1b1c

  /** The USB product id opened for an interface: the Cooling Node or the H80i/H100i. */
  function ProductId(interface: int): int
  {
    if interface == CLINK then 0x0c02 else 0x0c04
  }

  /** The identification request: read the DeviceID register (with ReadTwoBytes). */
  function IdentifyRequest(c: int): seq<byte>
  {
    Buffer([3, IdByte(c), ReadTwoBytes, DeviceID])
  }

  /** How many bytes a short request hands to hid_write: 3 to the Cooling Node, 11 to the H80i. */
  function ShortLength(v: Variant): nat
  {
    if v == V1 then 3 else 11
  }

  /** The id byte `Initialize` reads from a cleared buffer after identification. */
  function IdSeen(build: Build, maxWait: int, reply: Reply): byte
  {
    ReadWrapperSpec(build, maxWait, Zeros(BufSize), reply.polls).buf[2]
  }

  /** The reply of the sensor-count request: the count byte follows one echoed command. */
  function CountRequest(c: int): seq<byte>
  {
    Buffer([3, IdByte(c), ReadOneByte, TEMP_CountSensors])
  }

  /** The userland state of a link (CorsairLink_t) and the frames the tool has handed to hid_write. */
  class CorsairLink {
    const build: Build
    /** The product id of the open device, or None for a NULL handle. */
    var handle: Option<int>
    var commandId: int
    var maxMsReadWait: int
    const fans: array<FanInfo>
    /** Every buffer passed to hid_write so far, oldest first. */
    var written: seq<seq<byte>>

    predicate Valid()
      reads this
    {
      fans.Length == NUMFANS
    }

    /** The link as a zero-initialised static object: no handle, id 0, no wait, blank fans. */
    constructor(build: Build)
      ensures Valid() && this.build == build && fresh(fans)
      ensures handle == None && commandId == 0 && maxMsReadWait == 0 && written == []
      ensures forall i :: 0 <= i < NUMFANS ==> fans[i] == FanInfo("", 0, 0, 0)
    {
      this.build := build;
      handle := None;
      commandId := 0;
      maxMsReadWait := 0;
      fans := new FanInfo[NUMFANS](_ => FanInfo("", 0, 0, 0));
      written := [];
    }
  }

  /** hid_read_wrapper: polls hid_read into `buf` as ReadWrapperSpec describes; the link does not change. */
  method ReadWrapper(cl: CorsairLink, buf: seq<byte>, polls: seq<Poll>) returns (res: int, out: seq<byte>)
    requires |buf| == BufSize
    ensures ReadResult(res, out) == ReadWrapperSpec(cl.build, cl.maxMsReadWait, buf, polls)
  {
    var maxWait := cl.maxMsReadWait;
    res := 0;
    out := buf;
    var sleepTotal := 0;
    var k := 0;
    while res == 0 && sleepTotal < maxWait
      invariant |out| == BufSize && sleepTotal == PollStep * k
      invariant res == 0 ==> Polling(out, polls, k, sleepTotal, maxWait) == Polling(buf, polls, 0, 0, maxWait)
      invariant res != 0 ==> PollEnd(res, out, sleepTotal) == Polling(buf, polls, 0, 0, maxWait)
      decreases maxWait - sleepTotal
    {
      var r := HidRead(out, PollAt(polls, k));
      res, out := r.res, r.buf;
      sleepTotal := sleepTotal + PollStep;
      k := k + 1;
    }
    if sleepTotal == maxWait {
      res := 0;
    }
    if cl.build == AsWritten {
      res := 1;
    }
  }

  /**
   * Initialize: refuses a second open; otherwise opens the device of the interface, sends
   * the identification request and keeps the handle only when the id read back is one the
   * tool accepts (a mismatch closes it again). Returns 1 exactly when the link is open.
   */
  method Initialize(cl: CorsairLink, interface: int, initOk: bool, openOk: bool, reply: Reply) returns (r: int)
    modifies cl
    ensures cl.maxMsReadWait == old(cl.maxMsReadWait)
    ensures old(cl.handle).Some? || !initOk || !openOk ==>
      && r == 0 && cl.handle == old(cl.handle) && cl.commandId == old(cl.commandId) && cl.written == old(cl.written)
    ensures old(cl.handle).None? && initOk && openOk ==>
      var accepted := IdentityAccepted(interface, IdSeen(cl.build, cl.maxMsReadWait, reply));
      && (r == 1 <==> accepted) && (r == 0 || r == 1)
      && cl.handle == (if accepted then Some(ProductId(interface)) else None)
      && cl.commandId == old(cl.commandId) + 1
      && cl.written == old(cl.written) + [Written(VariantOf(interface), IdentifyRequest(old(cl.commandId)), ShortLength(VariantOf(interface)))]
  {
    if cl.handle.Some? {
      return 0;
    }
    if !initOk {
      return 0;
    }
    if !openOk {
      return 0;
    }
    cl.handle := Some(ProductId(interface));
    var v := VariantOf(interface);
    var buf := IdentifyRequest(cl.commandId);
    cl.commandId := cl.commandId + 1;
    cl.written := cl.written + [Written(v, buf, ShortLength(v))];
    var res;
    res, buf := ReadWrapper(cl, Zeros(BufSize), reply.polls);
    var deviceId := buf[2];
    if !IdentityAccepted(interface, deviceId) {
      Close(cl);
      return 0;
    }
    r := 1;
  }

  /** CorsairLink_init: resets the link (no handle, first id 0x81, 5000 ms read wait) and initializes it. */
  method CorsairLinkInit(cl: CorsairLink, interface: int, initOk: bool, openOk: bool, reply: Reply) returns (r: int)
    modifies cl
    ensures cl.maxMsReadWait == DefaultReadWait
    ensures r == 1 <==> initOk && openOk && IdentityAccepted(interface, IdSeen(cl.build, DefaultReadWait, reply))
    ensures cl.handle.Some? <==> r == 1
    ensures cl.handle.Some? ==> cl.handle.value == ProductId(interface) && cl.commandId == 0x82
    ensures cl.written == old(cl.written) + (if initOk && openOk then [Written(VariantOf(interface), IdentifyRequest(0x81), ShortLength(VariantOf(interface)))] else [])
  {
    cl.handle := None;
    cl.commandId := 0x81;
    cl.maxMsReadWait := DefaultReadWait;
    r := Initialize(cl, interface, initOk, openOk, reply);
  }

  /** Close: drops the handle, if there is one; nothing else changes. */
  method Close(cl: CorsairLink)
    modifies cl
    ensures cl.handle == None
    ensures cl.commandId == old(cl.commandId) && cl.written == old(cl.written) && cl.maxMsReadWait == old(cl.maxMsReadWait)
  {
    if cl.handle.Some? {
      cl.handle := None;
    }
  }

  /**
   * ConnectedTemps: the Cooling Node always has 4 sensors; the H80i is asked for its count,
   * read from byte 2 of the buffer after the read. The buffer is not cleared before that
   * read, so when no answer comes the request's own byte 2 is taken for the count.
   */
  method ConnectedTemps(cl: CorsairLink, interface: int, reply: Reply) returns (sensors: int)
    requires cl.handle.Some?
    modifies cl
    ensures cl.handle == old(cl.handle) && cl.maxMsReadWait == old(cl.maxMsReadWait)
    ensures interface == CLINK ==> sensors == 4 && cl.commandId == old(cl.commandId) && cl.written == old(cl.written)
    ensures interface != CLINK ==>
      && sensors == ReadWrapperSpec(cl.build, cl.maxMsReadWait, CountRequest(old(cl.commandId)), reply.polls).buf[2]
      && cl.commandId == old(cl.commandId) + 1
      && cl.written == old(cl.written) + [CountRequest(old(cl.commandId))[..11]]
  {
    if interface == CLINK {
      return 4;
    }
    var buf := CountRequest(cl.commandId);
    cl.commandId := cl.commandId + 1;
    cl.written := cl.written + [buf[..11]];
    var res;
    res, buf := ReadWrapper(cl, buf, reply.polls);
    sensors := buf[2];
  }

  /**
   * The H80i's sensor count: a device answering `[id, opcode, n]` reports `n` sensors; a
   * device that never answers reports 7, the ReadOneByte opcode left in the request buffer.
   */
  lemma SensorCount(build: Build, c: int, n: byte, id: byte, op: byte)
    ensures ReadWrapperSpec(build, DefaultReadWait, CountRequest(c), [Data([id, op, n])]).buf[2] == n
    ensures ReadWrapperSpec(build, DefaultReadWait, CountRequest(c), []).buf[2] == ReadOneByte
  {
    FirstReportTaken(build, CountRequest(c), [Data([id, op, n])]);
    SilentRead(build, CountRequest(c));
    assert CountRequest(c)[..4] == [3, IdByte(c), ReadOneByte, TEMP_CountSensors];
  }

  /**
   * ReadTempInfo: reads sensor `indx` into a cleared buffer and returns the little-endian
   * word after the echoed commands (high byte: whole degrees, low byte: 1/256ths).
   */
  method ReadTempInfo(cl: CorsairLink, interface: int, indx: nat, reply: Reply) returns (temp: u16)
    requires cl.handle.Some? && (interface == CLINK ==> indx < |TempIndxToPort|)
    modifies cl
    ensures cl.handle == old(cl.handle) && cl.maxMsReadWait == old(cl.maxMsReadWait)
    ensures var v := VariantOf(interface);
      && temp == WordIn(v, ReadWrapperSpec(cl.build, cl.maxMsReadWait, Zeros(BufSize), reply.polls).buf)
      && cl.commandId == old(cl.commandId) + CommandsPerRequest(v)
      && cl.written == old(cl.written) + [Written(v, ReadRequest(v, old(cl.commandId), TempQ, indx), ReadLength(v, TempQ))]
  {
    var v := VariantOf(interface);
    var buf := ReadRequest(v, cl.commandId, TempQ, indx);
    cl.commandId := cl.commandId + CommandsPerRequest(v);
    cl.written := cl.written + [Written(v, buf, ReadLength(v, TempQ))];
    var res;
    res, buf := ReadWrapper(cl, Zeros(BufSize), reply.polls);
    temp := Le16(buf[ValueAt(v)], buf[ValueAt(v) + 1]);
  }

  /** A sensor that is not answered reads as 0 degrees: its read goes into a cleared buffer. */
  lemma SilentTemperatureIsZero(build: Build, v: Variant)
    ensures WordIn(v, ReadWrapperSpec(build, DefaultReadWait, Zeros(BufSize), []).buf) == 0
  {
    SilentRead(build, Zeros(BufSize));
  }

  /** The mode byte ConnectedFans takes for fan `i`: byte 4 of the buffer after the read, which was not cleared. */
  function ModeSeen(build: Build, maxWait: int, c: int, i: nat, reply: Reply): byte
  {
    ReadWrapperSpec(build, maxWait, ReadRequest(V2, c + 2 * i, ModeQ, i), reply.polls).buf[4]
  }

  /** How many of the first `n` fans ConnectedFans counts: those whose mode byte is not 0x03. */
  function FansCounted(build: Build, maxWait: int, c: int, replies: seq<Reply>, n: nat): (k: nat)
    ensures k <= n
  {
    if n == 0 then 0
    else FansCounted(build, maxWait, c, replies, n - 1)
         + (if ModeSeen(build, maxWait, c, n - 1, ReplyAt(replies, n - 1)) != Unset then 1 else 0)
  }

  /** The frames ConnectedFans writes for the first `n` fans: a V2 mode read per fan, two ids each. */
  function ModeFrames(c: int, n: nat): seq<seq<byte>>
  {
    if n == 0 then [] else ModeFrames(c, n - 1) + [ReadRequest(V2, c + 2 * (n - 1), ModeQ, n - 1)[..11]]
  }

  /**
   * ConnectedFans: 5 on the Cooling Node; on the H80i, the number of fans among the
   * NUMFANS whose mode register does not read 0x03.
   */
  method ConnectedFans(cl: CorsairLink, interface: int, replies: seq<Reply>) returns (fans: int)
    requires cl.handle.Some?
    modifies cl
    ensures cl.handle == old(cl.handle) && cl.maxMsReadWait == old(cl.maxMsReadWait)
    ensures interface == CLINK ==> fans == 5 && cl.commandId == old(cl.commandId) && cl.written == old(cl.written)
    ensures interface != CLINK ==>
      && fans == FansCounted(cl.build, cl.maxMsReadWait, old(cl.commandId), replies, NUMFANS)
      && cl.commandId == old(cl.commandId) + 2 * NUMFANS
      && cl.written == old(cl.written) + ModeFrames(old(cl.commandId), NUMFANS)
  {
    if interface == CLINK {
      return 5;
    }
    ghost var c := cl.commandId;
    fans := 0;
    var i := 0;
    while i < NUMFANS
      invariant 0 <= i <= NUMFANS && cl.handle == old(cl.handle) && cl.maxMsReadWait == old(cl.maxMsReadWait)
      invariant cl.commandId == c + 2 * i
      invariant fans == FansCounted(cl.build, cl.maxMsReadWait, c, replies, i)
      invariant cl.written == old(cl.written) + ModeFrames(c, i)
    {
      var mode := ReadMode(cl, c, i, ReplyAt(replies, i));
      AppendAssoc(old(cl.written), ModeFrames(c, i), [ReadRequest(V2, c + 2 * i, ModeQ, i)[..11]]);
      if mode != Unset {
        fans := fans + 1;
      }
      i := i + 1;
    }
  }

  /** ConnectedFans' read of fan `i`'s mode register, the byte after the echoed select command. */
  method ReadMode(cl: CorsairLink, ghost c: int, i: nat, reply: Reply) returns (mode: byte)
    requires cl.handle.Some? && i < NUMFANS && cl.commandId == c + 2 * i
    modifies cl
    ensures cl.handle == old(cl.handle) && cl.maxMsReadWait == old(cl.maxMsReadWait)
    ensures mode == ModeSeen(cl.build, cl.maxMsReadWait, c, i, reply)
    ensures cl.commandId == c + 2 * (i + 1)
    ensures cl.written == old(cl.written) + [ReadRequest(V2, c + 2 * i, ModeQ, i)[..11]]
  {
    var buf := ReadRequest(V2, cl.commandId, ModeQ, i);
    cl.commandId := cl.commandId + 2;
    cl.written := cl.written + [buf[..11]];
    var res;
    res, buf := ReadWrapper(cl, buf, reply.polls);
    mode := buf[4];
  }

  lemma SilentModeSeen(build: Build, c: int, i: nat)
    requires i < 256
    ensures ModeSeen(build, DefaultReadWait, c, i, Silent) == i
  {
    SilentRead(build, ReadRequest(V2, c + 2 * i, ModeQ, i));
  }

  /**
   * An H80i that never answers is counted as having 4 fans: each mode read leaves the
   * request in the buffer, whose byte 4 is the fan's own index, and only index 3 equals 0x03.
   */
  lemma SilentDeviceHasFourFans(build: Build, c: int)
    ensures FansCounted(build, DefaultReadWait, c, [], NUMFANS) == 4
  {
    SilentModeSeen(build, c, 0);
    SilentModeSeen(build, c, 1);
    SilentModeSeen(build, c, 2);
    SilentModeSeen(build, c, 3);
    SilentModeSeen(build, c, 4);
    assert FansCounted(build, DefaultReadWait, c, [], 1) == 1;
    assert FansCounted(build, DefaultReadWait, c, [], 2) == 2;
    assert FansCounted(build, DefaultReadWait, c, [], 3) == 3;
    assert FansCounted(build, DefaultReadWait, c, [], 4) == 3;
  }

  /** The fan names ReadFansInfo gives: "Fan 1" to "Fan 5", except that the H80i's fifth is "Pump". */
  function FanName(v: Variant, i: nat): string
    requires i < 9
  {
    if v == V2 && i >= 4 then "Pump" else "Fan " + [Digit(i + 1)]
  }

  /** The buffer after one of ReadFansInfo's reads: the request, overwritten by what the read brought. */
  function FanReply(build: Build, maxWait: int, v: Variant, c: int, q: Quantity, i: nat, reply: Reply): (buf: seq<byte>)
    requires i < NUMFANS && q != TempQ
    ensures |buf| == BufSize
  {
    ReadWrapperSpec(build, maxWait, ReadRequest(v, c, q, i), reply.polls).buf
  }

  /** The record ReadFansInfo stores for fan `i`, from its mode, RPM and maximum-RPM reads (first ids c, c + n, c + 2n). */
  function FanRecord(build: Build, maxWait: int, v: Variant, c: int, i: nat, rm: Reply, rr: Reply, rx: Reply): FanInfo
    requires i < NUMFANS
  {
    var n := CommandsPerRequest(v);
    FanInfo(FanName(v, i),
            WordIn(v, FanReply(build, maxWait, v, c + n, RpmQ, i, rr)),
            WordIn(v, FanReply(build, maxWait, v, c + 2 * n, MaxRpmQ, i, rx)),
            ModeIn(v, FanReply(build, maxWait, v, c, ModeQ, i, rm)))
  }

  /** The three frames written for fan `i`. */
  function FanFrames(v: Variant, c: int, i: nat): seq<seq<byte>>
    requires i < NUMFANS
  {
    var n := CommandsPerRequest(v);
    [Written(v, ReadRequest(v, c, ModeQ, i), ReadLength(v, ModeQ)),
     Written(v, ReadRequest(v, c + n, RpmQ, i), ReadLength(v, RpmQ)),
     Written(v, ReadRequest(v, c + 2 * n, MaxRpmQ, i), ReadLength(v, MaxRpmQ))]
  }

  /** The first id of fan `i`'s reads in ReadFansInfo: each fan uses three requests' ids. */
  function FanBase(v: Variant, c: int, i: nat): int
  {
    if i == 0 then c else FanBase(v, c, i - 1) + 3 * CommandsPerRequest(v)
  }

  function AllFanFrames(v: Variant, c: int, n: nat): seq<seq<byte>>
    requires n <= NUMFANS
  {
    if n == 0 then [] else AllFanFrames(v, c, n - 1) + FanFrames(v, FanBase(v, c, n - 1), n - 1)
  }

  /** One of ReadFansInfo's reads: writes the request and reads into the same buffer, uncleared. */
  method FanRead(cl: CorsairLink, v: Variant, q: Quantity, i: nat, reply: Reply) returns (buf: seq<byte>)
    requires cl.handle.Some? && i < NUMFANS && q != TempQ
    modifies cl
    ensures cl.handle == old(cl.handle) && cl.maxMsReadWait == old(cl.maxMsReadWait)
    ensures buf == FanReply(cl.build, cl.maxMsReadWait, v, old(cl.commandId), q, i, reply)
    ensures cl.commandId == old(cl.commandId) + CommandsPerRequest(v)
    ensures cl.written == old(cl.written) + [Written(v, ReadRequest(v, old(cl.commandId), q, i), ReadLength(v, q))]
  {
    buf := ReadRequest(v, cl.commandId, q, i);
    cl.commandId := cl.commandId + CommandsPerRequest(v);
    cl.written := cl.written + [Written(v, buf, ReadLength(v, q))];
    var res;
    res, buf := ReadWrapper(cl, buf, reply.polls);
  }

  /** The record ReadFansInfo stores for fan `i`: read from replies 3i, 3i + 1 and 3i + 2, with ids from FanBase(i) on. */
  function StoredFan(build: Build, maxWait: int, v: Variant, c: int, replies: seq<Reply>, i: nat): FanInfo
    requires i < NUMFANS
  {
    FanRecord(build, maxWait, v, FanBase(v, c, i), i, ReplyAt(replies, 3 * i), ReplyAt(replies, 3 * i + 1), ReplyAt(replies, 3 * i + 2))
  }

  /** The record built from the three reply buffers of fan `i` is the one FanRecord describes. */
  lemma RecordOfReplies(build: Build, maxWait: int, v: Variant, c: int, i: nat, rm: Reply, rr: Reply, rx: Reply,
                        bm: seq<byte>, br: seq<byte>, bx: seq<byte>)
    requires i < NUMFANS
    requires bm == FanReply(build, maxWait, v, c, ModeQ, i, rm)
    requires br == FanReply(build, maxWait, v, c + CommandsPerRequest(v), RpmQ, i, rr)
    requires bx == FanReply(build, maxWait, v, c + CommandsPerRequest(v) + CommandsPerRequest(v), MaxRpmQ, i, rx)
    ensures FanInfo(FanName(v, i), Le16(br[ValueAt(v)], br[ValueAt(v) + 1]), Le16(bx[ValueAt(v)], bx[ValueAt(v) + 1]), bm[ValueAt(v)])
      == FanRecord(build, maxWait, v, c, i, rm, rr, rx)
  {
  }

  /** ReadFansInfo's three reads for fan `i`: its mode, RPM and maximum RPM, ids from the current counter on. */
  method FanReads(cl: CorsairLink, v: Variant, i: nat, rm: Reply, rr: Reply, rx: Reply) returns (bm: seq<byte>, br: seq<byte>, bx: seq<byte>)
    requires cl.handle.Some? && i < NUMFANS
    modifies cl
    ensures cl.handle == old(cl.handle) && cl.maxMsReadWait == old(cl.maxMsReadWait)
    ensures bm == FanReply(cl.build, cl.maxMsReadWait, v, old(cl.commandId), ModeQ, i, rm)
    ensures br == FanReply(cl.build, cl.maxMsReadWait, v, old(cl.commandId) + CommandsPerRequest(v), RpmQ, i, rr)
    ensures bx == FanReply(cl.build, cl.maxMsReadWait, v, old(cl.commandId) + CommandsPerRequest(v) + CommandsPerRequest(v), MaxRpmQ, i, rx)
    ensures cl.commandId == old(cl.commandId) + 3 * CommandsPerRequest(v)
    ensures cl.written == old(cl.written) + FanFrames(v, old(cl.commandId), i)
  {
    bm := FanRead(cl, v, ModeQ, i, rm);
    br := FanRead(cl, v, RpmQ, i, rr);
    bx := FanRead(cl, v, MaxRpmQ, i, rx);
  }

  /** One iteration of ReadFansInfo: names fan `i` and reads its mode, RPM and maximum RPM into fans[i]. */
  method ReadFan(cl: CorsairLink, v: Variant, i: nat, rm: Reply, rr: Reply, rx: Reply)
    requires cl.Valid() && cl.handle.Some? && i < NUMFANS
    modifies cl, cl.fans
    ensures cl.handle == old(cl.handle) && cl.maxMsReadWait == old(cl.maxMsReadWait)
    ensures cl.fans[i] == FanRecord(cl.build, cl.maxMsReadWait, v, old(cl.commandId), i, rm, rr, rx)
    ensures forall j :: 0 <= j < NUMFANS && j != i ==> cl.fans[j] == old(cl.fans[j])
    ensures cl.commandId == old(cl.commandId) + 3 * CommandsPerRequest(v)
    ensures cl.written == old(cl.written) + FanFrames(v, old(cl.commandId), i)
  {
    ghost var c := cl.commandId;
    cl.fans[i] := cl.fans[i].(name := FanName(v, i));
    var bm, br, bx := FanReads(cl, v, i, rm, rr, rx);
    var fanMode := bm[ValueAt(v)];
    var rpm := Le16(br[ValueAt(v)], br[ValueAt(v) + 1]);
    var maxrpm := Le16(bx[ValueAt(v)], bx[ValueAt(v) + 1]);
    cl.fans[i] := cl.fans[i].(mode := fanMode, rpm := rpm, maxRpm := maxrpm);
    RecordOfReplies(cl.build, cl.maxMsReadWait, v, c, i, rm, rr, rx, bm, br, bx);
  }

  /** ReadFansInfo: reads every one of the NUMFANS fans, each from three replies in turn. */
  method ReadFansInfo(cl: CorsairLink, interface: int, replies: seq<Reply>)
    requires cl.Valid() && cl.handle.Some?
    modifies cl, cl.fans
    ensures cl.handle == old(cl.handle) && cl.maxMsReadWait == old(cl.maxMsReadWait)
    ensures forall i :: 0 <= i < NUMFANS ==> cl.fans[i] == StoredFan(cl.build, cl.maxMsReadWait, VariantOf(interface), old(cl.commandId), replies, i)
    ensures cl.commandId == FanBase(VariantOf(interface), old(cl.commandId), NUMFANS)
    ensures cl.written == old(cl.written) + AllFanFrames(VariantOf(interface), old(cl.commandId), NUMFANS)
  {
    var v := VariantOf(interface);
    ghost var c := cl.commandId;
    var i := 0;
    while i < NUMFANS
      invariant 0 <= i <= NUMFANS && cl.handle == old(cl.handle) && cl.maxMsReadWait == old(cl.maxMsReadWait)
      invariant cl.commandId == FanBase(v, c, i)
      invariant cl.written == old(cl.written) + AllFanFrames(v, c, i)
      invariant forall j :: 0 <= j < i ==> cl.fans[j] == StoredFan(cl.build, cl.maxMsReadWait, v, c, replies, j)
    {
      ReadNextFan(cl, v, c, replies, i);
      AppendAssoc(old(cl.written), AllFanFrames(v, c, i), FanFrames(v, FanBase(v, c, i), i));
      i := i + 1;
    }
  }

  /** ReadFansInfo's loop body for fan `i`, its ids and replies placed by FanBase and StoredFan. */
  method ReadNextFan(cl: CorsairLink, v: Variant, ghost c: int, replies: seq<Reply>, i: nat)
    requires cl.Valid() && cl.handle.Some? && i < NUMFANS && cl.commandId == FanBase(v, c, i)
    modifies cl, cl.fans
    ensures cl.handle == old(cl.handle) && cl.maxMsReadWait == old(cl.maxMsReadWait)
    ensures cl.fans[i] == StoredFan(cl.build, cl.maxMsReadWait, v, c, replies, i)
    ensures forall j :: 0 <= j < NUMFANS && j != i ==> cl.fans[j] == old(cl.fans[j])
    ensures cl.commandId == FanBase(v, c, i + 1)
    ensures cl.written == old(cl.written) + FanFrames(v, FanBase(v, c, i), i)
  {
    ReadFan(cl, v, i, ReplyAt(replies, 3 * i), ReplyAt(replies, 3 * i + 1), ReplyAt(replies, 3 * i + 2));
  }

  lemma AppendAssoc<T>(a: seq<T>, b: seq<T>, c: seq<T>)
    ensures a + b + c == a + (b + c)
  {
  }

  /**
   * A device that answers each of the three reads of fan `i` at once, with the mode `m`,
   * the RPM `r` and the maximum `x` where the variant puts the value, gives the record
   * named for the slot and holding exactly those values.
   */
  lemma FanRecordDecodes(build: Build, v: Variant, c: int, i: nat, m: byte, r: u16, x: u16, pm: seq<byte>, pr: seq<byte>, px: seq<byte>)
    requires i < NUMFANS
    requires |pm| >= ValueAt(v) + 2 && |pr| >= ValueAt(v) + 2 && |px| >= ValueAt(v) + 2
    requires pm[ValueAt(v)] == m && pm[ValueAt(v) + 1] == 0
    requires pr[ValueAt(v)] == LowByte(r) && pr[ValueAt(v) + 1] == HighByte(r)
    requires px[ValueAt(v)] == LowByte(x) && px[ValueAt(v) + 1] == HighByte(x)
    ensures FanRecord(build, DefaultReadWait, v, c, i, Reply(0, [Data(pm)]), Reply(0, [Data(pr)]), Reply(0, [Data(px)]))
      == FanInfo(FanName(v, i), r, x, m)
  {
    var n := CommandsPerRequest(v);
    assert LowByte(m) == m && HighByte(m) == 0;
    FanReplyDecodes(build, v, c, ModeQ, i, pm, m);
    FanReplyDecodes(build, v, c + n, RpmQ, i, pr, r);
    FanReplyDecodes(build, v, c + 2 * n, MaxRpmQ, i, px, x);
  }

  /** ReportDecodes for one of ReadFansInfo's reads. */
  lemma FanReplyDecodes(build: Build, v: Variant, c: int, q: Quantity, i: nat, p: seq<byte>, w: u16)
    requires i < NUMFANS && q != TempQ
    requires |p| >= ValueAt(v) + 2 && p[ValueAt(v)] == LowByte(w) && p[ValueAt(v) + 1] == HighByte(w)
    ensures WordIn(v, FanReply(build, DefaultReadWait, v, c, q, i, Reply(0, [Data(p)]))) == w
    ensures ModeIn(v, FanReply(build, DefaultReadWait, v, c, q, i, Reply(0, [Data(p)]))) == LowByte(w)
  {
    ReportDecodes(build, v, ReadRequest(v, c, q, i), [Data(p)], w);
  }

  /**
   * A fan whose reads go unanswered gets its request bytes for readings: on the Cooling
   * Node the mode reads as the ReadTwoBytes opcode, on the H80i as the fan's own index.
   */
  lemma SilentFanRecord(build: Build, v: Variant, c: int, i: nat)
    requires i < NUMFANS
    ensures FanRecord(build, DefaultReadWait, v, c, i, Silent, Silent, Silent).mode == if v == V1 then ReadTwoBytes else i
    ensures v == V1 ==> FanRecord(build, DefaultReadWait, v, c, i, Silent, Silent, Silent).rpm == Le16(ReadTwoBytes, Port(RpmQ, i))
  {
    var n := CommandsPerRequest(v);
    FanReplySilent(build, v, c, ModeQ, i);
    FanReplySilent(build, v, c + n, RpmQ, i);
    var pm := ReadRequest(v, c, ModeQ, i);
    assert pm[ValueAt(v)] == if v == V1 then ReadTwoBytes else i;
    if v == V1 {
      var pr := ReadRequest(v, c + n, RpmQ, i);
      assert pr[2] == ReadTwoBytes && pr[3] == Port(RpmQ, i);
    }
  }

  /** SilentRead for one of ReadFansInfo's reads: the buffer keeps the request bytes. */
  lemma FanReplySilent(build: Build, v: Variant, c: int, q: Quantity, i: nat)
    requires i < NUMFANS && q != TempQ
    ensures FanReply(build, DefaultReadWait, v, c, q, i, Silent) == ReadRequest(v, c, q, i)
  {
    SilentRead(build, ReadRequest(v, c, q, i));
  }

  /**
   * The buffer of SetFansInfo's mode request with first id `c`. The Cooling Node takes one
   * write of the fan's mode register; the H80i selects the fan, writes the shared mode
   * register and reads it back, three commands behind a length byte of 11.
   */
  function ModeSetRequest(v: Variant, c: int, fanIndex: int, mode: int): (buf: seq<byte>)
    requires v == V1 ==> 0 <= fanIndex < |FanModeIndxToPort|
    ensures |buf| == BufSize
  {
    if v == V1 then Buffer([4, IdByte(c), WriteOneByte, FanModeIndxToPort[fanIndex], Truncate(mode)])
    else Buffer([0x0b, IdByte(c), WriteOneByte, FAN_Select, Truncate(fanIndex),
                 IdByte(c + 1), WriteOneByte, FAN_Mode, Truncate(mode),
                 IdByte(c + 2), ReadOneByte, FAN_Mode])
  }

  /**
   * The buffer of SetFansInfo's fixed-RPM request with first id `c`: the word goes low byte
   * first. As written, the Cooling Node's frame carries the WriteOneByte opcode and the
   * H80i's frame a length byte of 11; corrected, WriteTwoBytes and 12.
   */
  function RpmSetRequest(build: Build, v: Variant, c: int, fanIndex: int, rpm: int): (buf: seq<byte>)
    requires v == V1 ==> 0 <= fanIndex < |FanFixRPMIndxToPort|
    ensures |buf| == BufSize
  {
    if v == V1 then
      Buffer([5, IdByte(c), if build == AsWritten then WriteOneByte else WriteTwoBytes,
              FanFixRPMIndxToPort[fanIndex], Truncate(rpm), Truncate(rpm / 256)])
    else
      Buffer([if build == AsWritten then 0x0b else 0x0c, IdByte(c), WriteOneByte, FAN_Select, Truncate(fanIndex),
              IdByte(c + 1), WriteTwoBytes, FAN_FixedRPM, Truncate(rpm), Truncate(rpm / 256),
              IdByte(c + 2), ReadTwoBytes, FAN_ReadRPM])
  }

  /** Bytes handed to hid_write for the mode request (4 on the Cooling Node, 17 on the H80i) and for the RPM request (5 or 18). */
  function ModeSetLength(v: Variant): nat { if v == V1 then 4 else 17 }
  function RpmSetLength(v: Variant): nat { if v == V1 then 5 else 18 }

  /** Ids one SetFansInfo request uses: one command on the Cooling Node, three on the H80i. */
  function SetIds(v: Variant): nat { if v == V1 then 1 else 3 }

  /** Where SetFansInfo finds the value read back: after the echoes of the request's three commands. */
  const ReadBackAt := ValueOffset(3)

  /** What SetFansInfo returns, the frames it hands to hid_write and how many ids it uses. */
  datatype SetOutcome = SetOutcome(rc: int, frames: seq<seq<byte>>, ids: nat)

  /**
   * SetFansInfo for the fan at `fanIndex`, answered by `mr` (mode request) and `rr` (RPM
   * request). It refuses a mode that is none of the seven; it fails when a write or a read
   * reports an error, when the H80i reads back another mode, or, on any interface but the
   * Cooling Node, another RPM. A zero RPM sends the mode request alone.
   */
  function SetSpec(build: Build, maxWait: int, interface: int, fanIndex: int, fan: FanInfo, c: int, mr: Reply, rr: Reply): SetOutcome
    requires interface == CLINK ==> 0 <= fanIndex < NUMFANS
  {
    var v := VariantOf(interface);
    if !IsFanMode(fan.mode) then SetOutcome(1, [], 0)
    else
      var mb := ModeSetRequest(v, c, fanIndex, fan.mode);
      var f := [Written(v, mb, ModeSetLength(v))];
      var r := ReadWrapperSpec(build, maxWait, mb, mr.polls);
      if mr.writeResult < 0 || r.res < 0 || (interface == H80I && fan.mode != r.buf[ReadBackAt]) then SetOutcome(1, f, SetIds(v))
      else if fan.rpm == 0 then SetOutcome(0, f, SetIds(v))
      else
        var rb := RpmSetRequest(build, v, c + SetIds(v), fanIndex, fan.rpm);
        var f' := f + [Written(v, rb, RpmSetLength(v))];
        var r' := ReadWrapperSpec(build, maxWait, rb, rr.polls);
        var ok := rr.writeResult >= 0 && r'.res >= 0
                  && (interface == CLINK || fan.rpm == Le16(r'.buf[ReadBackAt], r'.buf[ReadBackAt + 1]));
        SetOutcome(if ok then 0 else 1, f', SetIds(v) + SetIds(v))
  }

  /** The mode half of SetFansInfo: writes the mode request and reads the answer into the same buffer. */
  method SetMode(cl: CorsairLink, interface: int, fanIndex: int, mode: int, mr: Reply) returns (failed: bool)
    requires cl.handle.Some? && (interface == CLINK ==> 0 <= fanIndex < NUMFANS)
    modifies cl
    ensures cl.handle == old(cl.handle) && cl.maxMsReadWait == old(cl.maxMsReadWait)
    ensures var v := VariantOf(interface);
      var mb := ModeSetRequest(v, old(cl.commandId), fanIndex, mode);
      var r := ReadWrapperSpec(cl.build, cl.maxMsReadWait, mb, mr.polls);
      && failed == (mr.writeResult < 0 || r.res < 0 || (interface == H80I && mode != r.buf[ReadBackAt]))
      && cl.written == old(cl.written) + [Written(v, mb, ModeSetLength(v))]
      && cl.commandId == old(cl.commandId) + SetIds(v)
  {
    var v := VariantOf(interface);
    var buf := ModeSetRequest(v, cl.commandId, fanIndex, mode);
    cl.commandId := cl.commandId + SetIds(v);
    cl.written := cl.written + [Written(v, buf, ModeSetLength(v))];
    if mr.writeResult < 0 {
      return true;
    }
    var res;
    res, buf := ReadWrapper(cl, buf, mr.polls);
    if res < 0 {
      return true;
    }
    failed := interface == H80I && mode != buf[ReadBackAt];
  }

  /** The RPM half of SetFansInfo: writes the fixed-RPM request into a cleared buffer and reads the answer. */
  method SetRpm(cl: CorsairLink, interface: int, fanIndex: int, rpm: int, rr: Reply) returns (failed: bool)
    requires cl.handle.Some? && (interface == CLINK ==> 0 <= fanIndex < NUMFANS)
    modifies cl
    ensures cl.handle == old(cl.handle) && cl.maxMsReadWait == old(cl.maxMsReadWait)
    ensures var v := VariantOf(interface);
      var rb := RpmSetRequest(cl.build, v, old(cl.commandId), fanIndex, rpm);
      var r := ReadWrapperSpec(cl.build, cl.maxMsReadWait, rb, rr.polls);
      && failed == !(rr.writeResult >= 0 && r.res >= 0
                     && (interface == CLINK || rpm == Le16(r.buf[ReadBackAt], r.buf[ReadBackAt + 1])))
      && cl.written == old(cl.written) + [Written(v, rb, RpmSetLength(v))]
      && cl.commandId == old(cl.commandId) + SetIds(v)
  {
    var v := VariantOf(interface);
    var buf := RpmSetRequest(cl.build, v, cl.commandId, fanIndex, rpm);
    cl.commandId := cl.commandId + SetIds(v);
    cl.written := cl.written + [Written(v, buf, RpmSetLength(v))];
    if rr.writeResult < 0 {
      return true;
    }
    var res;
    res, buf := ReadWrapper(cl, buf, rr.polls);
    if res < 0 {
      return true;
    }
    if interface != CLINK {
      var readBack := Le16(buf[ReadBackAt], buf[ReadBackAt + 1]);
      failed := rpm != readBack;
    } else {
      failed := false;
    }
  }

  /** SetFansInfo: sets the mode of fan `fanIndex` and, when `fan.rpm` is not zero, its fixed RPM; 0 on success, 1 on failure. */
  method SetFansInfo(cl: CorsairLink, interface: int, fanIndex: int, fan: FanInfo, mr: Reply, rr: Reply) returns (rc: int)
    requires cl.handle.Some? && (interface == CLINK ==> 0 <= fanIndex < NUMFANS)
    modifies cl
    ensures cl.handle == old(cl.handle) && cl.maxMsReadWait == old(cl.maxMsReadWait)
    ensures var o := SetSpec(cl.build, cl.maxMsReadWait, interface, fanIndex, fan, old(cl.commandId), mr, rr);
      rc == o.rc && cl.written == old(cl.written) + o.frames && cl.commandId == old(cl.commandId) + o.ids
  {
    if !IsFanMode(fan.mode) {
      return 1;
    }
    var failed := SetMode(cl, interface, fanIndex, fan.mode, mr);
    if failed {
      return 1;
    }
    if fan.rpm != 0 {
      failed := SetRpm(cl, interface, fanIndex, fan.rpm, rr);
      if failed {
        return 1;
      }
    }
    return 0;
  }

  /** A refused mode sends nothing; otherwise every request sent uses SetIds ids, and the RPM request goes out only for a nonzero RPM. */
  lemma SetSpecFrames(build: Build, maxWait: int, interface: int, fanIndex: int, fan: FanInfo, c: int, mr: Reply, rr: Reply)
    requires interface == CLINK ==> 0 <= fanIndex < NUMFANS
    ensures var o := SetSpec(build, maxWait, interface, fanIndex, fan, c, mr, rr);
      && (o.frames == [] <==> !IsFanMode(fan.mode))
      && (!IsFanMode(fan.mode) ==> o.rc == 1)
      && o.ids == |o.frames| * SetIds(VariantOf(interface))
      && |o.frames| <= 2
      && (|o.frames| == 2 ==> fan.rpm != 0)
      && (o.frames != [] ==> o.frames[0] == Written(VariantOf(interface), ModeSetRequest(VariantOf(interface), c, fanIndex, fan.mode), ModeSetLength(VariantOf(interface))))
  {
  }

  /**
   * The mode request is what the protocol means: on the Cooling Node one WriteOneByte of the
   * fan's mode register; on the H80i the select, the write of the mode register and its
   * read-back, exactly the bytes the length byte announces.
   */
  lemma ModeSetCommands(c: int, fanIndex: int, mode: int)
    ensures 0 <= fanIndex < NUMFANS ==>
      Parse(Written(V1, ModeSetRequest(V1, c, fanIndex, mode), ModeSetLength(V1)))
        == Some([Command(IdByte(c), WriteOneByte, FanModeIndxToPort[fanIndex], [Truncate(mode)])])
    ensures Unpack(Written(V2, ModeSetRequest(V2, c, fanIndex, mode), ModeSetLength(V2)))
      == Some([Command(IdByte(c), WriteOneByte, FAN_Select, [Truncate(fanIndex)]),
               Command(IdByte(c + 1), WriteOneByte, FAN_Mode, [Truncate(mode)]),
               Command(IdByte(c + 2), ReadOneByte, FAN_Mode, [])])
  {
    if 0 <= fanIndex < NUMFANS {
      ModeSetCommandsV1(c, fanIndex, mode);
    }
    ModeSetCommandsV2(c, fanIndex, mode);
  }

  lemma ModeSetCommandsV1(c: int, fanIndex: int, mode: int)
    requires 0 <= fanIndex < NUMFANS
    ensures Parse(Written(V1, ModeSetRequest(V1, c, fanIndex, mode), ModeSetLength(V1)))
      == Some([Command(IdByte(c), WriteOneByte, FanModeIndxToPort[fanIndex], [Truncate(mode)])])
  {
    var cmds := [Command(IdByte(c), WriteOneByte, FanModeIndxToPort[fanIndex], [Truncate(mode)])];
    var w := Written(V1, ModeSetRequest(V1, c, fanIndex, mode), ModeSetLength(V1));
    assert w == Encode(cmds);
    ParseEncode(cmds);
  }

  lemma ModeSetCommandsV2(c: int, fanIndex: int, mode: int)
    ensures Unpack(Written(V2, ModeSetRequest(V2, c, fanIndex, mode), ModeSetLength(V2)))
      == Some([Command(IdByte(c), WriteOneByte, FAN_Select, [Truncate(fanIndex)]),
               Command(IdByte(c + 1), WriteOneByte, FAN_Mode, [Truncate(mode)]),
               Command(IdByte(c + 2), ReadOneByte, FAN_Mode, [])])
  {
    var cmds := [Command(IdByte(c), WriteOneByte, FAN_Select, [Truncate(fanIndex)]),
                 Command(IdByte(c + 1), WriteOneByte, FAN_Mode, [Truncate(mode)]),
                 Command(IdByte(c + 2), ReadOneByte, FAN_Mode, [])];
    assert Encode(cmds[2..]) == [IdByte(c + 2), ReadOneByte, FAN_Mode];
    assert Encode(cmds[1..]) == [IdByte(c + 1), WriteOneByte, FAN_Mode, Truncate(mode)] + Encode(cmds[2..]);
    var w := Written(V2, ModeSetRequest(V2, c, fanIndex, mode), ModeSetLength(V2));
    assert w == Packet(|Encode(cmds)|, cmds) + Zeros(5);
    UnpackPacket(cmds, Zeros(5));
  }

  /**
   * With the corrections, the fixed-RPM request is the protocol's: on the Cooling Node one
   * WriteTwoBytes of the fan's fixed-RPM register with the word low byte first; on the H80i
   * the select, the two-byte write of the shared fixed-RPM register and the read of the RPM.
   */
  lemma RpmSetCommands(c: int, fanIndex: int, rpm: int)
    ensures 0 <= fanIndex < NUMFANS ==>
      Parse(Written(V1, RpmSetRequest(Corrected, V1, c, fanIndex, rpm), RpmSetLength(V1)))
        == Some([Command(IdByte(c), WriteTwoBytes, FanFixRPMIndxToPort[fanIndex], [Truncate(rpm), Truncate(rpm / 256)])])
    ensures Unpack(Written(V2, RpmSetRequest(Corrected, V2, c, fanIndex, rpm), RpmSetLength(V2)))
      == Some([Command(IdByte(c), WriteOneByte, FAN_Select, [Truncate(fanIndex)]),
               Command(IdByte(c + 1), WriteTwoBytes, FAN_FixedRPM, [Truncate(rpm), Truncate(rpm / 256)]),
               Command(IdByte(c + 2), ReadTwoBytes, FAN_ReadRPM, [])])
  {
    if 0 <= fanIndex < NUMFANS {
      RpmSetCommandsV1(c, fanIndex, rpm);
    }
    RpmSetCommandsV2(c, fanIndex, rpm);
  }

  lemma RpmSetCommandsV1(c: int, fanIndex: int, rpm: int)
    requires 0 <= fanIndex < NUMFANS
    ensures Parse(Written(V1, RpmSetRequest(Corrected, V1, c, fanIndex, rpm), RpmSetLength(V1)))
      == Some([Command(IdByte(c), WriteTwoBytes, FanFixRPMIndxToPort[fanIndex], [Truncate(rpm), Truncate(rpm / 256)])])
  {
    var cmds := [Command(IdByte(c), WriteTwoBytes, FanFixRPMIndxToPort[fanIndex], [Truncate(rpm), Truncate(rpm / 256)])];
    var w := Written(V1, RpmSetRequest(Corrected, V1, c, fanIndex, rpm), RpmSetLength(V1));
    assert w == Encode(cmds);
    ParseEncode(cmds);
  }

  lemma RpmSetCommandsV2(c: int, fanIndex: int, rpm: int)
    ensures Unpack(Written(V2, RpmSetRequest(Corrected, V2, c, fanIndex, rpm), RpmSetLength(V2)))
      == Some([Command(IdByte(c), WriteOneByte, FAN_Select, [Truncate(fanIndex)]),
               Command(IdByte(c + 1), WriteTwoBytes, FAN_FixedRPM, [Truncate(rpm), Truncate(rpm / 256)]),
               Command(IdByte(c + 2), ReadTwoBytes, FAN_ReadRPM, [])])
  {
    var cmds := [Command(IdByte(c), WriteOneByte, FAN_Select, [Truncate(fanIndex)]),
                 Command(IdByte(c + 1), WriteTwoBytes, FAN_FixedRPM, [Truncate(rpm), Truncate(rpm / 256)]),
                 Command(IdByte(c + 2), ReadTwoBytes, FAN_ReadRPM, [])];
    assert Encode(cmds[2..]) == [IdByte(c + 2), ReadTwoBytes, FAN_ReadRPM];
    assert Encode(cmds[1..]) == [IdByte(c + 1), WriteTwoBytes, FAN_FixedRPM, Truncate(rpm), Truncate(rpm / 256)] + Encode(cmds[2..]);
    var w := Written(V2, RpmSetRequest(Corrected, V2, c, fanIndex, rpm), RpmSetLength(V2));
    assert w == Packet(|Encode(cmds)|, cmds) + Zeros(5);
    UnpackPacket(cmds, Zeros(5));
  }

  /**
   * As written, neither fixed-RPM request is one the device can take whole: the Cooling Node's
   * WriteOneByte command takes only the low byte and leaves the high byte as a truncated
   * command; the H80i's length byte of 11 cuts its read command short.
   */
  lemma RpmSetAsWritten(c: int, fanIndex: int, rpm: int)
    ensures 0 <= fanIndex < NUMFANS ==>
      var w := Written(V1, RpmSetRequest(AsWritten, V1, c, fanIndex, rpm), RpmSetLength(V1));
      && Parse(w) == None
      && Parse(w[..4]) == Some([Command(IdByte(c), WriteOneByte, FanFixRPMIndxToPort[fanIndex], [Truncate(rpm)])])
    ensures Unpack(Written(V2, RpmSetRequest(AsWritten, V2, c, fanIndex, rpm), RpmSetLength(V2))) == None
  {
    if 0 <= fanIndex < NUMFANS {
      RpmSetV1Cut(c, fanIndex, rpm);
    }
    RpmSetV2Cut(c, fanIndex, rpm);
  }

  lemma RpmSetV1Cut(c: int, fanIndex: int, rpm: int)
    requires 0 <= fanIndex < NUMFANS
    ensures var w := Written(V1, RpmSetRequest(AsWritten, V1, c, fanIndex, rpm), RpmSetLength(V1));
      && Parse(w) == None
      && Parse(w[..4]) == Some([Command(IdByte(c), WriteOneByte, FanFixRPMIndxToPort[fanIndex], [Truncate(rpm)])])
  {
    var w := Written(V1, RpmSetRequest(AsWritten, V1, c, fanIndex, rpm), RpmSetLength(V1));
    assert w == [IdByte(c), WriteOneByte, FanFixRPMIndxToPort[fanIndex], Truncate(rpm), Truncate(rpm / 256)];
    assert w[4..] == [Truncate(rpm / 256)];
    var head := w[..4];
    assert head == [IdByte(c), WriteOneByte, FanFixRPMIndxToPort[fanIndex], Truncate(rpm)];
    assert head[4..] == [];
    assert head[3..4] == [Truncate(rpm)];
    assert Parse(head[4..]) == Some([]);
    assert DataLen(head[1]) == Some(1);
    assert Parse(head) == Some([Command(head[0], head[1], head[2], head[3..4])] + []);
    assert [Command(head[0], head[1], head[2], head[3..4])] + [] == [Command(IdByte(c), WriteOneByte, FanFixRPMIndxToPort[fanIndex], [Truncate(rpm)])];
  }

  lemma RpmSetV2Cut(c: int, fanIndex: int, rpm: int)
    ensures Unpack(Written(V2, RpmSetRequest(AsWritten, V2, c, fanIndex, rpm), RpmSetLength(V2))) == None
  {
    var prefix := [0x0b, IdByte(c), WriteOneByte, FAN_Select, Truncate(fanIndex),
                   IdByte(c + 1), WriteTwoBytes, FAN_FixedRPM, Truncate(rpm), Truncate(rpm / 256),
                   IdByte(c + 2), ReadTwoBytes, FAN_ReadRPM];
    var buf := RpmSetRequest(AsWritten, V2, c, fanIndex, rpm);
    assert buf[..13] == prefix;
    var w := Written(V2, buf, RpmSetLength(V2));
    assert w[..13] == prefix;
    assert w[1..1 + w[0]] == prefix[1..12];
    CutRead(prefix[1..12]);
  }

  /** Eleven bytes holding a one-byte write and a two-byte write leave two bytes of a third command: they do not parse. */
  lemma CutRead(body: seq<byte>)
    requires |body| == 11 && body[1] == WriteOneByte && body[5] == WriteTwoBytes
    ensures Parse(body) == None
  {
    assert body[4..][5..] == body[9..];
    assert Parse(body[9..]) == None;
    assert Parse(body[4..]) == None;
  }

  /**
   * On the H80i a report that carries a mode at ReadBackAt confirms exactly that mode: with
   * no RPM to set, SetFansInfo succeeds if and only if the mode read back is the mode sent.
   */
  lemma ModeReadBack(build: Build, c: int, fanIndex: int, fan: FanInfo, pm: seq<byte>, rr: Reply)
    requires IsFanMode(fan.mode) && fan.rpm == 0 && |pm| > ReadBackAt
    ensures SetSpec(build, DefaultReadWait, H80I, fanIndex, fan, c, Reply(0, [Data(pm)]), rr).rc == 0
      <==> pm[ReadBackAt] == fan.mode
  {
    FirstReportTaken(build, ModeSetRequest(V2, c, fanIndex, fan.mode), [Data(pm)]);
  }

  /**
   * Once the mode is confirmed, an RPM report decides the H80i's result: SetFansInfo
   * succeeds if and only if the little-endian word at ReadBackAt is the RPM sent.
   */
  lemma RpmReadBack(build: Build, c: int, fanIndex: int, fan: FanInfo, pm: seq<byte>, pr: seq<byte>)
    requires IsFanMode(fan.mode) && fan.rpm != 0
    requires |pm| > ReadBackAt && pm[ReadBackAt] == fan.mode && |pr| > ReadBackAt + 1
    ensures SetSpec(build, DefaultReadWait, H80I, fanIndex, fan, c, Reply(0, [Data(pm)]), Reply(0, [Data(pr)])).rc == 0
      <==> Le16(pr[ReadBackAt], pr[ReadBackAt + 1]) == fan.rpm
  {
    FirstReportTaken(build, ModeSetRequest(V2, c, fanIndex, fan.mode), [Data(pm)]);
    FirstReportTaken(build, RpmSetRequest(build, V2, c + SetIds(V2), fanIndex, fan.rpm), [Data(pr)]);
  }

  /**
   * The Cooling Node's settings are never read back: a device that takes both requests and
   * never answers still gets a success, whatever the mode and the RPM.
   */
  lemma ClinkUnconfirmed(build: Build, c: int, fanIndex: int, fan: FanInfo)
    requires 0 <= fanIndex < NUMFANS && IsFanMode(fan.mode)
    ensures SetSpec(build, DefaultReadWait, CLINK, fanIndex, fan, c, Silent, Silent).rc == 0
  {
    SilentRead(build, ModeSetRequest(V1, c, fanIndex, fan.mode));
    SilentRead(build, RpmSetRequest(build, V1, c + SetIds(V1), fanIndex, fan.rpm));
  }

  /**
   * A read error after the H80i's mode request is taken for a confirmation when the mode is
   * Default: as written the wrapper returns 1, and the byte at ReadBackAt is still the
   * request's WriteOneByte opcode, 0x06, the code of Default. Corrected, the error fails the call.
   */
  lemma ReadErrorTakenForConfirmation(build: Build, c: int, fanIndex: int, fan: FanInfo)
    requires fan.mode == Default.Code() && fan.rpm == 0
    ensures SetSpec(build, DefaultReadWait, H80I, fanIndex, fan, c, Reply(0, [ReadError]), Silent).rc
      == if build == AsWritten then 0 else 1
  {
    var mb := ModeSetRequest(V2, c, fanIndex, fan.mode);
    ReadErrorHidden(build, mb, [ReadError]);
    assert mb[..12][ReadBackAt] == WriteOneByte;
  }
}
