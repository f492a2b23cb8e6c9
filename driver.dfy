/**
 * The device-facing operations of the two kernel drivers built on the correlator: the
 * request buffers, devid_in, the hwmon readers fan_in / fan_max / temp_in, and the probe's
 * fan and sensor scan with its presence tests and names.
 */
module Driver {
  import opened Basics
  import opened Wire
  import opened FanInfo
  import Temperature
  import Capability
  import opened Correlator

  /**
   * What one request reads. On the V2 interface: select `item` through register `sel`,
   * then apply `op` to `reg`. On the V1 interface only `op` and `reg` are sent.
   */
  datatype Target = Target(sel: byte, item: byte, op: byte, reg: byte)

  /** The 32-byte buffer of a V2 request: length 7, a WriteOneByte select with id c, then the read with id c + 1. */
  function SelectRequest(c: int, t: Target): (buf: seq<byte>)
    ensures |buf| == 32
  {
    Filled([7, IdByte(c), WriteOneByte, t.sel, t.item, IdByte(c + 1), t.op, t.reg], 32)
  }

  /** The 32-byte buffer of a one-command request: length 3, then id, opcode and register. */
  function SingleRequest(c: int, op: byte, reg: byte): (buf: seq<byte>)
    ensures |buf| == 32
  {
    Filled([3, IdByte(c), op, reg], 32)
  }

  /** The request buffer a driver builds for a read: two commands on the h80i, one on the clink. */
  function Request(d: Driver, c: int, t: Target): (buf: seq<byte>)
    ensures |buf| == 32
  {
    match d
    case H80i => SelectRequest(c, t)
    case Clink => SingleRequest(c, t.op, t.reg)
  }

  /** What a caller hands to sendwait: the h80i the whole buffer, the clink callers `&buf[1]`, without the length byte. */
  function Passed(d: Driver, buf: seq<byte>): (r: seq<byte>)
    requires |buf| == 32
    ensures |r| >= 31
  {
    match d
    case H80i => buf
    case Clink => buf[1..]
  }

  /** The size argument of sendwait for a read: 11 for the h80i's two-command requests, 3 for the clink. */
  function ReadSize(d: Driver): nat
  {
    match d
    case H80i => 11
    case Clink => 3
  }

  /** The size argument of sendwait in devid_in. */
  function IdentifySize(d: Driver): nat
  {
    match d
    case H80i => 17
    case Clink => 3
  }

  /** Commands, and so message ids, per read request. */
  function Commands(d: Driver): nat
  {
    CommandsPerRequest(VariantOf(d))
  }

  /** Where the value read starts in new_dat: after the echoed ids and opcodes (byte 4 on the h80i, byte 2 on the clink). */
  function ValueAt(d: Driver): nat
  {
    ValueOffset(Commands(d))
  }

  /** The little-endian word a read request returns. */
  function Word(d: Driver, newDat: seq<byte>): u16
    requires |newDat| >= 6
  {
    ReplyWord(Commands(d), newDat)
  }

  /** sendwait on a request buffer, as its caller passes it. */
  function Sent(d: Driver, build: Build, buf: seq<byte>, size: nat, ex: Exchange): (o: Outcome)
    requires Fits(d, ex) && |buf| == 32
    ensures Sized(d, o.final)
  {
    SendWaitSpec(d, build, Passed(d, buf), size, ex)
  }

  /** The readings the drivers take. */
  datatype Reading = Rpm | MaxRpm | Mode | Temp

  /** Fan or sensor slots the readers and the probe address: six fans and four sensors on the h80i; the clink's register tables name five fans. */
  function Slots(d: Driver, r: Reading): nat
  {
    if r == Temp then 4 else if d == H80i then 6 else 5
  }

  /**
   * The target of reading `r` of fan or sensor `i`. The h80i selects the fan or sensor and
   * reads a shared register; the probe reads the temperature with ReadOneByte where
   * temp_in uses ReadTwoBytes. The clink reads the fan's or sensor's own register from its
   * tables, always with ReadTwoBytes.
   */
  function TargetOf(d: Driver, r: Reading, i: nat, probing: bool): Target
    requires i < Slots(d, r)
  {
    match d
    case H80i =>
      (match r
       case Rpm => Target(FAN_Select, i, ReadTwoBytes, FAN_ReadRPM)
       case MaxRpm => Target(FAN_Select, i, ReadTwoBytes, FAN_MaxRecordedRPM)
       case Mode => Target(FAN_Select, i, ReadOneByte, FAN_Mode)
       case Temp => Target(TEMP_SelectActiveSensor, i, if probing then ReadOneByte else ReadTwoBytes, TEMP_Read))
    case Clink =>
      (match r
       case Rpm => Target(0, 0, ReadTwoBytes, FanIndxToAddr[i])
       case MaxRpm => Target(0, 0, ReadTwoBytes, MaxFanIndxToAddr[i])
       case Mode => Target(0, 0, ReadTwoBytes, ModeFanIndxToAddr[i])
       case Temp => Target(0, 0, ReadTwoBytes, TempIndxToAddr[i]))
  }

  /** A V2 request holds exactly the two commands its length byte announces, whatever follows it in the buffer. */
  lemma SelectRequestUnpacks(c: int, t: Target)
    requires DataLen(t.op) == Some(0)
    ensures Unpack(SelectRequest(c, t)) ==
      Some([Command(IdByte(c), WriteOneByte, t.sel, [t.item]), Command(IdByte(c + 1), t.op, t.reg, [])])
  {
    var cmds := [Command(IdByte(c), WriteOneByte, t.sel, [t.item]), Command(IdByte(c + 1), t.op, t.reg, [])];
    assert Encode(cmds[1..][1..]) == [];
    assert Encode(cmds[1..]) == [IdByte(c + 1), t.op, t.reg];
    assert Encode(cmds) == [IdByte(c), WriteOneByte, t.sel, t.item, IdByte(c + 1), t.op, t.reg];
    UnpackPacket(cmds, Zeros(24));
    assert SelectRequest(c, t) == Packet(7, cmds) + Zeros(24);
  }

  /**
   * A one-command request holds the command its length byte announces; the three bytes
   * the clink sends (from `&buf[1]`, without the length byte) parse to the same command.
   */
  lemma SingleRequestUnpacks(c: int, op: byte, reg: byte)
    requires DataLen(op) == Some(0)
    ensures Unpack(SingleRequest(c, op, reg)) == Some([Command(IdByte(c), op, reg, [])])
    ensures Parse(Passed(Clink, SingleRequest(c, op, reg))[..3]) == Some([Command(IdByte(c), op, reg, [])])
  {
    var cmds := [Command(IdByte(c), op, reg, [])];
    assert Encode(cmds[1..]) == [];
    assert Encode(cmds) == [IdByte(c), op, reg];
    UnpackPacket(cmds, Zeros(28));
    assert SingleRequest(c, op, reg) == Packet(3, cmds) + Zeros(28);
    assert Passed(Clink, SingleRequest(c, op, reg))[..3] == Encode(cmds);
    ParseEncode(cmds);
  }

  /**
   * sendwait remembers the id and opcode of the request's first command. On the h80i that
   * is always the WriteOneByte select, so under the as-written OR test every reply to any
   * earlier V2 request passes.
   */
  lemma PendingIsFirstCommand(d: Driver, c: int, t: Target, reply: seq<byte>)
    requires |reply| >= 2
    ensures PendingOf(d, Passed(d, Request(d, c, t))) == Pending(IdByte(c), if d == H80i then WriteOneByte else t.op)
    ensures d == H80i && reply[1] == WriteOneByte ==> Matches(AsWritten, reply, PendingOf(d, Passed(d, Request(d, c, t))))
  {
  }

  /** The reply a device gives to a read request carrying the word `v`: the echoed ids and opcodes, then `v` low byte first. */
  function DeviceReply(d: Driver, c: int, t: Target, v: u16): seq<byte>
  {
    match d
    case H80i => [IdByte(c), WriteOneByte, IdByte(c + 1), t.op, LowByte(v), HighByte(v)]
    case Clink => [IdByte(c), t.op, LowByte(v), HighByte(v)]
  }

  /** The exchange in which the request goes out and the device answers once with `reply`. */
  function AnswerOnce(d: Driver, reply: seq<byte>): (ex: Exchange)
    ensures Fits(d, ex)
  {
    match d
    case H80i => H80iExchange(true, ReadSize(H80i), [], [Urb(0, reply)])
    case Clink => ClinkExchange(true, true, [Urb(0, reply)], false)
  }

  /** A read round trip: when the device answers a request with the word `v`, sendwait succeeds and the reader decodes `v`, in either build. */
  lemma ReadRoundTrip(d: Driver, build: Build, c: int, t: Target, v: u16)
    ensures var o := Sent(d, build, Request(d, c, t), ReadSize(d), AnswerOnce(d, DeviceReply(d, c, t, v)));
      o.retval == ReadSize(d) && Word(d, o.final.newDat) == v
  {
    var buf := Passed(d, Request(d, c, t));
    var p := PendingOf(d, buf);
    var reply := DeviceReply(d, c, t, v);
    var urb := Urb(0, reply);
    var s := Cleared(d).(state := if d == H80i then Await else Send, armed := true);
    var r := Received(s.irqBuf, reply);
    assert r[..|reply|] == reply;
    assert Matches(build, r, p);
    var s1 := Step(d, build, p, s, urb);
    assert s1.state == Done;
    assert Wait(d, build, p, s, [urb]) == s1;
    if d == H80i {
      assert Wait(H80i, build, p, Cleared(H80i).(state := Send, armed := true), []) == Cleared(H80i).(state := Send, armed := true);
    }
    assert s1.newDat[ValueAt(d)] == LowByte(v) && s1.newDat[ValueAt(d) + 1] == HighByte(v);
    WordRoundTrip(v);
  }

  /**
   * The attribute index each hwmon reader receives. The h80i registers fan and sensor
   * numbers; the clink registers the register address of each fan or sensor.
   */
  function AttrIndex(d: Driver, r: Reading, k: nat): int
    requires r != Mode && k < Slots(d, r)
  {
    match d
    case H80i => k
    case Clink => TargetOf(Clink, r, k, false).reg
  }

  /**
   * The clink readers index fans[NUMFANS] (six slots) and temps[NUMTEMPS] with that
   * attribute index, which is a register address beyond the end of either array:
   * 0x0b..0x0f and 0x10..0x14 for the five fan attributes, 0x07..0x0a for four sensors.
   */
  lemma ClinkAttrIndexOutOfBounds(k: nat)
    ensures k < 5 ==> AttrIndex(Clink, Rpm, k) >= Capability.NumFans && AttrIndex(Clink, MaxRpm, k) >= Capability.NumFans
    ensures k < 4 ==> AttrIndex(Clink, Temp, k) >= Capability.NumTemps
    ensures k < 4 ==> AttrIndex(H80i, Temp, k) == k
    ensures k < 6 ==> AttrIndex(H80i, Rpm, k) == k && AttrIndex(H80i, MaxRpm, k) == k
  {
  }

  /** Hands a request buffer to sendwait the way the driver's callers do. */
  method Transact(cl: DriverLink, buf: seq<byte>, size: nat, ex: Exchange) returns (retval: int)
    requires cl.Valid() && Fits(cl.driver, ex) && |buf| == 32 && size <= 31
    modifies cl
    ensures cl.Valid() && cl.Record() == old(cl.Record())
    ensures var o := Sent(cl.driver, cl.build, buf, size, ex);
      retval == o.retval && cl.Snap() == o.final && cl.commandId == ResetAtSend(old(cl.commandId))
  {
    retval := cl.SendWait(Passed(cl.driver, buf), size, ex);
  }

  /** The value a fan read takes from new_dat: the mode byte, or the little-endian word. */
  function FanValue(d: Driver, r: Reading, newDat: seq<byte>): int
    requires |newDat| >= 6
  {
    if r == Mode then newDat[ValueAt(d)] else Word(d, newDat)
  }

  /** A fan record with reading `r` replaced by `v`. */
  function WithReading(f: FanInfo, r: Reading, v: int): FanInfo
  {
    match r
    case Rpm => f.(rpm := v)
    case MaxRpm => f.(maxRpm := v)
    case Mode => f.(mode := v)
    case Temp => f
  }

  /**
   * fan_in and fan_max, and the probe's three reads of each fan: reads fan `k`'s RPM,
   * maximum RPM or mode into fans[k]. None stands for the "ERROR" text, given whenever
   * sendwait did not return the request size; fans[k] then keeps its old value. The slot
   * written is `k`; see ClinkAttrIndexOutOfBounds for the index the clink code uses.
   */
  method FanRead(cl: DriverLink, r: Reading, k: nat, ex: Exchange) returns (shown: Option<int>)
    requires cl.Valid() && Fits(cl.driver, ex)
    requires r != Temp && k < Slots(cl.driver, r)
    modifies cl, cl.fans
    ensures cl.Valid() && cl.Record() == old(cl.Record())
    ensures var o := Sent(cl.driver, cl.build, Request(cl.driver, old(cl.commandId), TargetOf(cl.driver, r, k, false)),
                          ReadSize(cl.driver), ex);
      && cl.Snap() == o.final
      && cl.commandId == AfterRequest(old(cl.commandId), Commands(cl.driver))
      && (shown.Some? <==> o.retval == ReadSize(cl.driver))
    ensures shown.Some? ==> shown.value == FanValue(cl.driver, r, cl.newDat)
    ensures cl.fans[k] == (if shown.Some? then WithReading(old(cl.fans[k]), r, shown.value) else old(cl.fans[k]))
    ensures forall j :: 0 <= j < cl.fans.Length && j != k ==> cl.fans[j] == old(cl.fans[j])
  {
    var c := cl.commandId;
    cl.commandId := c + Commands(cl.driver);
    var rv := Transact(cl, Request(cl.driver, c, TargetOf(cl.driver, r, k, false)), ReadSize(cl.driver), ex);
    if rv != ReadSize(cl.driver) {
      return None;
    }
    var v := FanValue(cl.driver, r, cl.newDat);
    cl.fans[k] := WithReading(cl.fans[k], r, v);
    shown := Some(v);
  }

  /**
   * temp_in, and the probe's read of each sensor: reads sensor `k` into temps[k] (whole
   * degrees from the high byte, 1/256ths from the low byte) and shows millidegrees; None
   * stands for the "ERROR" text, and temps[k] then keeps its old value.
   */
  method TempIn(cl: DriverLink, k: nat, probing: bool, ex: Exchange) returns (shown: Option<nat>)
    requires cl.Valid() && Fits(cl.driver, ex) && k < Slots(cl.driver, Temp)
    modifies cl, cl.temps
    ensures cl.Valid() && cl.Record() == old(cl.Record())
    ensures var o := Sent(cl.driver, cl.build, Request(cl.driver, old(cl.commandId), TargetOf(cl.driver, Temp, k, probing)),
                          ReadSize(cl.driver), ex);
      && cl.Snap() == o.final
      && cl.commandId == AfterRequest(old(cl.commandId), Commands(cl.driver))
      && (shown.Some? <==> o.retval == ReadSize(cl.driver))
    ensures shown.Some? ==>
      && cl.temps[k] == old(cl.temps[k]).(wholeDeg := cl.newDat[ValueAt(cl.driver) + 1], partDeg := cl.newDat[ValueAt(cl.driver)])
      && shown.value == Temperature.MilliDegrees(cl.temps[k].wholeDeg, cl.temps[k].partDeg)
      && shown.value / 1000 == HighByte(Word(cl.driver, cl.newDat))
    ensures shown.None? ==> cl.temps[k] == old(cl.temps[k])
    ensures forall j :: 0 <= j < cl.temps.Length && j != k ==> cl.temps[j] == old(cl.temps[j])
  {
    var ok := TempRead(cl, k, probing, ex);
    if !ok {
      return None;
    }
    var t := Temperature.ConvFraqTemp(cl.temps[k].partDeg);
    t := t + cl.temps[k].wholeDeg * 1000;
    shown := Some(t);
  }

  /** The read of temp_in: sends the request for sensor `k` and, when sendwait returns the request size, stores the reading in temps[k]. */
  method TempRead(cl: DriverLink, k: nat, probing: bool, ex: Exchange) returns (ok: bool)
    requires cl.Valid() && Fits(cl.driver, ex) && k < Slots(cl.driver, Temp)
    modifies cl, cl.temps
    ensures cl.Valid() && cl.Record() == old(cl.Record())
    ensures var o := Sent(cl.driver, cl.build, Request(cl.driver, old(cl.commandId), TargetOf(cl.driver, Temp, k, probing)),
                          ReadSize(cl.driver), ex);
      && cl.Snap() == o.final
      && cl.commandId == AfterRequest(old(cl.commandId), Commands(cl.driver))
      && (ok <==> o.retval == ReadSize(cl.driver))
    ensures cl.temps[k] == if ok then old(cl.temps[k]).(wholeDeg := cl.newDat[ValueAt(cl.driver) + 1], partDeg := cl.newDat[ValueAt(cl.driver)])
                           else old(cl.temps[k])
    ensures forall j :: 0 <= j < cl.temps.Length && j != k ==> cl.temps[j] == old(cl.temps[j])
  {
    var c := cl.commandId;
    cl.commandId := c + Commands(cl.driver);
    var rv := Transact(cl, Request(cl.driver, c, TargetOf(cl.driver, Temp, k, probing)), ReadSize(cl.driver), ex);
    if rv != ReadSize(cl.driver) {
      return false;
    }
    var at := ValueAt(cl.driver);
    cl.temps[k] := cl.temps[k].(wholeDeg := cl.newDat[at + 1], partDeg := cl.newDat[at]);
    ok := true;
  }

  /** One of the identification requests: a single command, answered by a three-byte reply. */
  method SingleRead(cl: DriverLink, opcode: byte, reg: byte, ex: Exchange) returns (retval: int)
    requires cl.Valid() && Fits(cl.driver, ex)
    modifies cl
    ensures cl.Valid() && cl.Record() == old(cl.Record())
    ensures var o := Sent(cl.driver, cl.build, SingleRequest(old(cl.commandId), opcode, reg), IdentifySize(cl.driver), ex);
      && retval == o.retval && cl.Snap() == o.final
      && cl.commandId == AfterRequest(old(cl.commandId), 1)
  {
    var c := cl.commandId;
    cl.commandId := c + 1;
    retval := Transact(cl, SingleRequest(c, opcode, reg), IdentifySize(cl.driver), ex);
  }

  /**
   * devid_in: reads the DeviceID register and looks the value up in the device table,
   * then reads the FirmwareID register. Returns 0 with `devid` set to the entry found; the
   * sendwait error with `devid` cleared when either read fails; -ENOENT with `devid` at the
   * "unknown" sentinel when the id is not in the table (the firmware is then not read).
   */
  method DevIdIn(cl: DriverLink, ex1: Exchange, ex2: Exchange) returns (retval: int)
    requires cl.Valid() && Fits(cl.driver, ex1) && Fits(cl.driver, ex2)
    modifies cl
    ensures cl.Valid() && cl.fanFiles == old(cl.fanFiles) && cl.tempFiles == old(cl.tempFiles)
    ensures var d := cl.driver;
      var t := DeviceTable(d);
      var size := IdentifySize(d);
      var c0 := old(cl.commandId);
      var o1 := Sent(d, cl.build, SingleRequest(c0, ReadOneByte, DeviceID), size, ex1);
      var id := o1.final.newDat[2];
      Capability.Terminated(t) &&
      if o1.retval != size then
        retval == o1.retval && cl.devid == None && cl.firmwareId == old(cl.firmwareId)
        && cl.commandId == AfterRequest(c0, 1) && cl.Snap() == o1.final
      else if !Capability.Known(t, id) then
        retval == -ENOENT && cl.devid == Some(|t| - 1) && cl.firmwareId == old(cl.firmwareId)
        && cl.commandId == AfterRequest(c0, 1) && cl.Snap() == o1.final
      else
        var o2 := Sent(d, cl.build, SingleRequest(AfterRequest(c0, 1), ReadTwoBytes, FirmwareID), size, ex2);
        && cl.commandId == AfterRequest(AfterRequest(c0, 1), 1) && cl.Snap() == o2.final
        && (o2.retval != size ==> retval == o2.retval && cl.devid == None && cl.firmwareId == old(cl.firmwareId))
        && (o2.retval == size ==>
              && retval == 0 && cl.devid == Some(Capability.Lookup(t, id)) && t[cl.devid.value].id == id
              && cl.firmwareId == Le16(o2.final.newDat[2], o2.final.newDat[3]))
  {
    Capability.TablesWellFormed();
    var size := IdentifySize(cl.driver);
    retval := SingleRead(cl, ReadOneByte, DeviceID, ex1);
    if retval < 0 || retval != size {
      cl.devid := None;
      return;
    }
    retval := IdLookup(cl, cl.newDat[2], ex2);
  }

  /** devid_in once the DeviceID read succeeded: the table lookup of `id`, then the firmware read for a known id. */
  method IdLookup(cl: DriverLink, id: byte, ex: Exchange) returns (retval: int)
    requires cl.Valid() && Fits(cl.driver, ex)
    modifies cl
    ensures cl.Valid() && cl.fanFiles == old(cl.fanFiles) && cl.tempFiles == old(cl.tempFiles)
    ensures var d := cl.driver;
      var t := DeviceTable(d);
      var size := IdentifySize(d);
      var c0 := old(cl.commandId);
      Capability.Terminated(t) &&
      if !Capability.Known(t, id) then
        retval == -ENOENT && cl.devid == Some(|t| - 1) && cl.firmwareId == old(cl.firmwareId)
        && cl.commandId == c0 && cl.Snap() == old(cl.Snap())
      else
        var o := Sent(d, cl.build, SingleRequest(c0, ReadTwoBytes, FirmwareID), size, ex);
        && cl.commandId == AfterRequest(c0, 1) && cl.Snap() == o.final
        && (o.retval != size ==> retval == o.retval && cl.devid == None && cl.firmwareId == old(cl.firmwareId))
        && (o.retval == size ==>
              && retval == 0 && cl.devid == Some(Capability.Lookup(t, id)) && t[cl.devid.value].id == id
              && cl.firmwareId == Le16(o.final.newDat[2], o.final.newDat[3]))
  {
    Capability.TablesWellFormed();
    var indx;
    retval, indx := Capability.DevIdScan(DeviceTable(cl.driver), id);
    cl.devid := Some(indx);
    if retval != 0 {
      return;
    }
    retval := FirmwareIn(cl, ex);
  }

  /** The second half of devid_in: reads the FirmwareID register; a failed read clears `devid`. */
  method FirmwareIn(cl: DriverLink, ex: Exchange) returns (retval: int)
    requires cl.Valid() && Fits(cl.driver, ex)
    modifies cl
    ensures cl.Valid() && cl.fanFiles == old(cl.fanFiles) && cl.tempFiles == old(cl.tempFiles)
    ensures var size := IdentifySize(cl.driver);
      var o := Sent(cl.driver, cl.build, SingleRequest(old(cl.commandId), ReadTwoBytes, FirmwareID), size, ex);
      && cl.commandId == AfterRequest(old(cl.commandId), 1) && cl.Snap() == o.final
      && (o.retval != size ==> retval == o.retval && cl.devid == None && cl.firmwareId == old(cl.firmwareId))
      && (o.retval == size ==> retval == 0 && cl.devid == old(cl.devid) && cl.firmwareId == Le16(o.final.newDat[2], o.final.newDat[3]))
  {
    var size := IdentifySize(cl.driver);
    retval := SingleRead(cl, ReadTwoBytes, FirmwareID, ex);
    if retval < 0 || retval != size {
      cl.devid := None;
      return;
    }
    retval := 0;
    cl.firmwareId := Le16(cl.newDat[2], cl.newDat[3]);
  }

  /** DevIdIn as the probe uses it: on success an entry of the table, otherwise none or the "unknown" sentinel. */
  method Identify(cl: DriverLink, ex1: Exchange, ex2: Exchange) returns (retval: int)
    requires cl.Valid() && Fits(cl.driver, ex1) && Fits(cl.driver, ex2)
    modifies cl
    ensures cl.Valid() && cl.fanFiles == old(cl.fanFiles) && cl.tempFiles == old(cl.tempFiles)
    ensures retval == 0 ==> cl.devid.Some? && cl.devid.value < |DeviceTable(cl.driver)|
    ensures retval == 0 ==> cl.commandId == AfterRequest(AfterRequest(old(cl.commandId), 1), 1)
    ensures retval != 0 && cl.devid.Some? ==> cl.devid.value == |DeviceTable(cl.driver)| - 1
  {
    retval := DevIdIn(cl, ex1, ex2);
  }

  /** The fan names the probes give: "Fan 1".."Fan 6", except that the h80i calls fan 5 (index 4) "Pump" on a device with a pump. */
  function FanName(d: Driver, hasPump: bool, i: nat): string
    requires i < 9
  {
    if d == H80i && i == 4 && hasPump then "Pump" else "Fan " + [Digit(i + 1)]
  }

  function TempName(i: nat): string
    requires i < 9
  {
    "Temp " + [Digit(i + 1)]
  }

  /**
   * Whether the probe takes a fan to be present and creates its attribute files. The h80i
   * trusts the present bit of the mode register; the clink also takes the tachometer bit
   * or any nonzero reading, because that bit drops when a fan spins down.
   */
  predicate FanPresent(d: Driver, f: FanInfo)
  {
    match d
    case H80i => BitSet(f.mode, FAN_PRSNT)
    case Clink => BitSet(f.mode, FAN_PRSNT) || BitSet(f.mode, FAN_TACH) || f.rpm != 0 || f.maxRpm != 0
  }

  /** Whether the probe takes a sensor to be present: h80i, 1..119 whole degrees; clink, any nonzero reading. */
  predicate TempPresent(d: Driver, t: TempInfo)
  {
    match d
    case H80i => t.wholeDeg != 0 && t.wholeDeg < 120
    case Clink => t.wholeDeg != 0 || t.partDeg != 0
  }

  /**
   * The clink test accepts every fan the h80i test accepts, and a fan or sensor whose
   * reads all failed (still zero-filled) is present under neither; an h80i sensor that is
   * present reads between 1 and 120 degrees.
   */
  lemma PresenceTests(f: FanInfo, t: TempInfo)
    ensures FanPresent(H80i, f) ==> FanPresent(Clink, f)
    ensures f.mode == 0 && f.rpm == 0 && f.maxRpm == 0 ==> !FanPresent(H80i, f) && !FanPresent(Clink, f)
    ensures t.wholeDeg == 0 && t.partDeg == 0 ==> !TempPresent(H80i, t) && !TempPresent(Clink, t)
    ensures TempPresent(H80i, t) ==>
      1000 <= Temperature.MilliDegrees(t.wholeDeg, t.partDeg) < 120000 && TempPresent(Clink, t)
  {
  }

  /** What a probe read leaves in a field: the value read when the read succeeded, else the old value. */
  function Kept(ok: bool, value: int, previous: int): int
  {
    if ok then value else previous
  }

  /** CommandId after `k` requests of `n` commands each, starting from `c`. */
  function CounterAfter(c: int, n: nat, k: nat): int
  {
    if k == 0 then c else AfterRequest(CounterAfter(c, n, k - 1), n)
  }

  /**
   * The record the probe leaves in fan slot `i` over the record `f` that was there, when
   * its mode, RPM and maximum-RPM requests go out from counter `c` through `exMode`, `exRpm`
   * and `exMax`: the slot's
   * name, and each reading where its read succeeded, the old field where it failed.
   */
  function ProbedFan(d: Driver, build: Build, hasPump: bool, c: int, i: nat, exMode: Exchange, exRpm: Exchange, exMax: Exchange, f: FanInfo): FanInfo
    requires i < 5 && Fits(d, exMode) && Fits(d, exRpm) && Fits(d, exMax)
  {
    var n := Commands(d);
    var size := ReadSize(d);
    var c1 := AfterRequest(c, n);
    var c2 := AfterRequest(c1, n);
    var om := Sent(d, build, Request(d, c, TargetOf(d, Mode, i, false)), size, exMode);
    var or := Sent(d, build, Request(d, c1, TargetOf(d, Rpm, i, false)), size, exRpm);
    var ox := Sent(d, build, Request(d, c2, TargetOf(d, MaxRpm, i, false)), size, exMax);
    FanInfo(FanName(d, hasPump, i),
            Kept(or.retval == size, Word(d, or.final.newDat), f.rpm),
            Kept(ox.retval == size, Word(d, ox.final.newDat), f.maxRpm),
            Kept(om.retval == size, om.final.newDat[ValueAt(d)], f.mode))
  }

  /**
   * The record the probe leaves in sensor slot `i` over the record `t` that was there, when
   * its read goes out from counter `c` through `ex`: the slot's name, and the reading where
   * the read succeeded, the old fields where it failed.
   */
  function ProbedTemp(d: Driver, build: Build, c: int, i: nat, ex: Exchange, t: TempInfo): TempInfo
    requires i < 4 && Fits(d, ex)
  {
    var o := Sent(d, build, Request(d, c, TargetOf(d, Temp, i, true)), ReadSize(d), ex);
    var ok := o.retval == ReadSize(d);
    TempInfo(TempName(i),
             if ok then o.final.newDat[ValueAt(d) + 1] else t.wholeDeg,
             if ok then o.final.newDat[ValueAt(d)] else t.partDeg)
  }

  /**
   * One iteration of the probe's fan loop: names fan `i`, reads its mode, RPM and maximum
   * RPM (each field changes only when its read succeeds) and creates its attribute files
   * when the presence test passes.
   */
  method ProbeFan(cl: DriverLink, i: nat, hasPump: bool, ex: seq<Exchange>)
    requires cl.Valid() && i < 5 && |ex| == 3 && forall e <- ex :: Fits(cl.driver, e)
    modifies cl, cl.fans
    ensures cl.Valid() && cl.devid == old(cl.devid) && cl.firmwareId == old(cl.firmwareId) && cl.tempFiles == old(cl.tempFiles)
    ensures var d := cl.driver;
      var n := Commands(d);
      var size := ReadSize(d);
      var c0 := old(cl.commandId);
      var c1 := AfterRequest(c0, n);
      var c2 := AfterRequest(c1, n);
      var om := Sent(d, cl.build, Request(d, c0, TargetOf(d, Mode, i, false)), size, ex[0]);
      var or := Sent(d, cl.build, Request(d, c1, TargetOf(d, Rpm, i, false)), size, ex[1]);
      var ox := Sent(d, cl.build, Request(d, c2, TargetOf(d, MaxRpm, i, false)), size, ex[2]);
      && cl.commandId == AfterRequest(c2, n)
      && cl.Snap() == ox.final
      && cl.fans[i] == ProbedFan(d, cl.build, hasPump, c0, i, ex[0], ex[1], ex[2], old(cl.fans[i]))
    ensures cl.fanFiles == old(cl.fanFiles) + (if FanPresent(cl.driver, cl.fans[i]) then {i} else {})
    ensures cl.fans[i].name == FanName(cl.driver, hasPump, i) && cl.fans[..] == old(cl.fans[..])[i := cl.fans[i]]
    ensures forall j :: 0 <= j < cl.fans.Length && j != i ==> cl.fans[j] == old(cl.fans[j])
  {
    cl.fans[i] := cl.fans[i].(name := FanName(cl.driver, hasPump, i));
    FanReadings(cl, i, ex);
    if FanPresent(cl.driver, cl.fans[i]) {
      cl.fanFiles := cl.fanFiles + {i};
    }
  }

  /** ProbeFan's reads of fan `i`: mode, RPM, then maximum RPM, each field kept when its read fails. */
  method FanReadings(cl: DriverLink, i: nat, ex: seq<Exchange>)
    requires cl.Valid() && i < 5 && |ex| == 3 && forall e <- ex :: Fits(cl.driver, e)
    modifies cl, cl.fans
    ensures cl.Valid() && cl.Record() == old(cl.Record())
    ensures var d := cl.driver;
      var n := Commands(d);
      var size := ReadSize(d);
      var c0 := old(cl.commandId);
      var c1 := AfterRequest(c0, n);
      var c2 := AfterRequest(c1, n);
      var om := Sent(d, cl.build, Request(d, c0, TargetOf(d, Mode, i, false)), size, ex[0]);
      var or := Sent(d, cl.build, Request(d, c1, TargetOf(d, Rpm, i, false)), size, ex[1]);
      var ox := Sent(d, cl.build, Request(d, c2, TargetOf(d, MaxRpm, i, false)), size, ex[2]);
      && cl.commandId == AfterRequest(c2, n)
      && cl.Snap() == ox.final
      && cl.fans[i] == old(cl.fans[i]).(rpm := Kept(or.retval == size, Word(d, or.final.newDat), old(cl.fans[i].rpm)),
                                         maxRpm := Kept(ox.retval == size, Word(d, ox.final.newDat), old(cl.fans[i].maxRpm)),
                                         mode := Kept(om.retval == size, om.final.newDat[ValueAt(d)], old(cl.fans[i].mode)))
    ensures forall j :: 0 <= j < cl.fans.Length && j != i ==> cl.fans[j] == old(cl.fans[j])
  {
    var shown := FanRead(cl, Mode, i, ex[0]);
    shown := FanRead(cl, Rpm, i, ex[1]);
    shown := FanRead(cl, MaxRpm, i, ex[2]);
  }

  /**
   * One iteration of the probe's sensor loop: names sensor `i`, reads it (the fields
   * change only when the read succeeds) and creates its attribute file when the presence
   * test passes.
   */
  method ProbeTemp(cl: DriverLink, i: nat, ex: Exchange)
    requires cl.Valid() && i < 4 && Fits(cl.driver, ex)
    modifies cl, cl.temps
    ensures cl.Valid() && cl.devid == old(cl.devid) && cl.firmwareId == old(cl.firmwareId) && cl.fanFiles == old(cl.fanFiles)
    ensures var d := cl.driver;
      var o := Sent(d, cl.build, Request(d, old(cl.commandId), TargetOf(d, Temp, i, true)), ReadSize(d), ex);
      && cl.commandId == AfterRequest(old(cl.commandId), Commands(d))
      && cl.Snap() == o.final
      && cl.temps[i] == ProbedTemp(d, cl.build, old(cl.commandId), i, ex, old(cl.temps[i]))
    ensures cl.tempFiles == old(cl.tempFiles) + (if TempPresent(cl.driver, cl.temps[i]) then {i} else {})
    ensures cl.temps[i].name == TempName(i) && cl.temps[..] == old(cl.temps[..])[i := cl.temps[i]]
    ensures forall j :: 0 <= j < cl.temps.Length && j != i ==> cl.temps[j] == old(cl.temps[j])
  {
    cl.temps[i] := cl.temps[i].(name := TempName(i));
    var ok := TempRead(cl, i, true, ex);
    if TempPresent(cl.driver, cl.temps[i]) {
      cl.tempFiles := cl.tempFiles + {i};
    }
  }

  /** The fans among the first `n` that pass the presence test: those the probe gives attribute files. */
  function PresentFans(d: Driver, fans: seq<FanInfo>, n: nat): set<nat>
    requires n <= |fans|
  {
    if n == 0 then {} else PresentFans(d, fans, n - 1) + (if FanPresent(d, fans[n - 1]) then {n - 1} else {})
  }

  function PresentTemps(d: Driver, temps: seq<TempInfo>, n: nat): set<nat>
    requires n <= |temps|
  {
    if n == 0 then {} else PresentTemps(d, temps, n - 1) + (if TempPresent(d, temps[n - 1]) then {n - 1} else {})
  }

  /** PresentFans holds exactly the indices below `n` of present fans, and depends on nothing else. */
  lemma {:induction false} PresentFansExactly(d: Driver, fans: seq<FanInfo>, other: seq<FanInfo>, n: nat)
    requires n <= |fans| && n <= |other| && fans[..n] == other[..n]
    ensures forall j :: j in PresentFans(d, fans, n) <==> 0 <= j < n && FanPresent(d, fans[j])
    ensures PresentFans(d, fans, n) == PresentFans(d, other, n)
  {
    if n > 0 {
      assert fans[..n - 1] == other[..n - 1] && fans[n - 1] == other[n - 1] by {
        assert fans[..n - 1] == fans[..n][..n - 1] && other[..n - 1] == other[..n][..n - 1];
        assert fans[n - 1] == fans[..n][n - 1] && other[n - 1] == other[..n][n - 1];
      }
      PresentFansExactly(d, fans, other, n - 1);
    }
  }

  lemma {:induction false} PresentTempsExactly(d: Driver, temps: seq<TempInfo>, other: seq<TempInfo>, n: nat)
    requires n <= |temps| && n <= |other| && temps[..n] == other[..n]
    ensures forall j :: j in PresentTemps(d, temps, n) <==> 0 <= j < n && TempPresent(d, temps[j])
    ensures PresentTemps(d, temps, n) == PresentTemps(d, other, n)
  {
    if n > 0 {
      assert temps[..n - 1] == other[..n - 1] && temps[n - 1] == other[n - 1] by {
        assert temps[..n - 1] == temps[..n][..n - 1] && other[..n - 1] == other[..n][..n - 1];
        assert temps[n - 1] == temps[..n][n - 1] && other[n - 1] == other[..n][n - 1];
      }
      PresentTempsExactly(d, temps, other, n - 1);
    }
  }

  /** Probing slot `i` alone adds `i` to the present fans exactly when the fan it leaves there is present. */
  lemma PresentFansStep(d: Driver, before: seq<FanInfo>, after: seq<FanInfo>, i: nat)
    requires i < |before| == |after| && forall j :: 0 <= j < |before| && j != i ==> after[j] == before[j]
    ensures PresentFans(d, after, i + 1) == PresentFans(d, before, i) + (if FanPresent(d, after[i]) then {i} else {})
  {
    assert before[..i] == after[..i];
    PresentFansExactly(d, before, after, i);
  }

  lemma PresentTempsStep(d: Driver, before: seq<TempInfo>, after: seq<TempInfo>, i: nat)
    requires i < |before| == |after| && forall j :: 0 <= j < |before| && j != i ==> after[j] == before[j]
    ensures PresentTemps(d, after, i + 1) == PresentTemps(d, before, i) + (if TempPresent(d, after[i]) then {i} else {})
  {
    assert before[..i] == after[..i];
    PresentTempsExactly(d, before, after, i);
  }

  /**
   * The records a probe loop leaves in `slots` when it rewrites slots `i` to `n - 1`, each
   * from the record that was there: slot `k` becomes `step(k, slots[k])`.
   */
  function SlotLoop<T>(step: (nat, T) -> T, slots: seq<T>, i: nat, n: nat): (r: seq<T>)
    requires i <= n <= |slots|
    ensures |r| == |slots|
    decreases n - i
  {
    if i == n then slots else SlotLoop(step, slots, i + 1, n)[i := step(i, slots[i])]
  }

  /** A slot the loop rewrites holds its step applied to the record that was there. */
  lemma {:induction false} SlotLoopAt<T>(step: (nat, T) -> T, slots: seq<T>, i: nat, n: nat, j: nat)
    requires i <= j < n <= |slots|
    ensures SlotLoop(step, slots, i, n)[j] == step(j, slots[j])
    decreases n - i
  {
    if j != i {
      SlotLoopAt(step, slots, i + 1, n, j);
    }
  }

  /** The loop leaves every slot before `i` and from `n` on as it was. */
  lemma {:induction false} SlotLoopKeeps<T>(step: (nat, T) -> T, slots: seq<T>, i: nat, n: nat, j: nat)
    requires i <= n <= |slots| && j < |slots| && (j < i || n <= j)
    ensures SlotLoop(step, slots, i, n)[j] == slots[j]
    decreases n - i
  {
    if i < n {
      SlotLoopKeeps(step, slots, i + 1, n, j);
    }
  }

  /** Changing a slot below where the loop starts changes only that slot of what it leaves. */
  lemma {:induction false} SlotLoopBelow<T>(step: (nat, T) -> T, slots: seq<T>, k: nat, v: T, i: nat, n: nat)
    requires k < i <= n <= |slots|
    ensures SlotLoop(step, slots[k := v], i, n) == SlotLoop(step, slots, i, n)[k := v]
    decreases n - i
  {
    if i < n {
      SlotLoopBelow(step, slots, k, v, i + 1, n);
      var rest := SlotLoop(step, slots, i + 1, n);
      assert rest[k := v][i := step(i, slots[i])] == rest[i := step(i, slots[i])][k := v];
    }
  }

  /** Doing the loop's first step and then the rest is doing the loop. */
  lemma SlotLoopStep<T>(step: (nat, T) -> T, slots: seq<T>, i: nat, n: nat)
    requires i < n <= |slots|
    ensures SlotLoop(step, slots[i := step(i, slots[i])], i + 1, n) == SlotLoop(step, slots, i, n)
  {
    SlotLoopBelow(step, slots, i, step(i, slots[i]), i + 1, n);
  }

  /**
   * The fan loop's step in a loop over `nf` fans that started with counter `c`: fan `k` is
   * read through exchanges `ex[3 * k]`, `ex[3 * k + 1]` and `ex[3 * k + 2]` once `3 * k`
   * requests have gone out, three per fan before it.
   */
  function FanStep(d: Driver, build: Build, hasPump: bool, c: int, ex: seq<Exchange>, nf: nat): (nat, FanInfo) -> FanInfo
    requires nf <= 5 && 3 * nf <= |ex| && forall e <- ex :: Fits(d, e)
  {
    (k: nat, f: FanInfo) =>
      if k < nf then ProbedFan(d, build, hasPump, CounterAfter(c, Commands(d), 3 * k), k, ex[3 * k], ex[3 * k + 1], ex[3 * k + 2], f)
      else f
  }

  /** The fan records the probe's fan loop over the first `nf` fans leaves over the records `fans`. */
  function FanLoop(d: Driver, build: Build, hasPump: bool, c: int, ex: seq<Exchange>, fans: seq<FanInfo>, nf: nat): (r: seq<FanInfo>)
    requires nf <= 5 && nf <= |fans| && 3 * nf <= |ex| && forall e <- ex :: Fits(d, e)
    ensures |r| == |fans|
  {
    SlotLoop(FanStep(d, build, hasPump, c, ex, nf), fans, 0, nf)
  }

  /**
   * What the fan loop leaves in slot `j` of those it reads: fan `j` read on its own, with the
   * counter `3 * j` requests on from the loop's start and its three exchanges, over the
   * record that was there; and every slot from `nf` on as it was.
   */
  lemma FanLoopAt(d: Driver, build: Build, hasPump: bool, c: int, ex: seq<Exchange>, fans: seq<FanInfo>, nf: nat, j: nat)
    requires nf <= 5 && nf <= |fans| && 3 * nf <= |ex| && forall e <- ex :: Fits(d, e)
    requires j < |fans|
    ensures j < nf ==>
      FanLoop(d, build, hasPump, c, ex, fans, nf)[j]
        == ProbedFan(d, build, hasPump, CounterAfter(c, Commands(d), 3 * j), j, ex[3 * j], ex[3 * j + 1], ex[3 * j + 2], fans[j])
    ensures nf <= j ==> FanLoop(d, build, hasPump, c, ex, fans, nf)[j] == fans[j]
  {
    if j < nf {
      SlotLoopAt(FanStep(d, build, hasPump, c, ex, nf), fans, 0, nf, j);
    } else {
      SlotLoopKeeps(FanStep(d, build, hasPump, c, ex, nf), fans, 0, nf, j);
    }
  }

  /** The fan loop names every fan it reads. */
  lemma FanLoopNames(d: Driver, build: Build, hasPump: bool, c: int, ex: seq<Exchange>, fans: seq<FanInfo>, nf: nat)
    requires nf <= 5 && nf <= |fans| && 3 * nf <= |ex| && forall e <- ex :: Fits(d, e)
    ensures forall j :: 0 <= j < nf ==> FanLoop(d, build, hasPump, c, ex, fans, nf)[j].name == FanName(d, hasPump, j)
  {
    forall j | 0 <= j < nf
      ensures FanLoop(d, build, hasPump, c, ex, fans, nf)[j].name == FanName(d, hasPump, j)
    {
      FanLoopAt(d, build, hasPump, c, ex, fans, nf, j);
    }
  }

  /**
   * The sensor loop's step in a loop over `nt` sensors that started with counter `c`:
   * sensor `k` is read through exchange `ex[k]` once `k` requests have gone out, one per
   * sensor before it.
   */
  function TempStep(d: Driver, build: Build, c: int, ex: seq<Exchange>, nt: nat): (nat, TempInfo) -> TempInfo
    requires nt <= 4 && nt <= |ex| && forall e <- ex :: Fits(d, e)
  {
    (k: nat, t: TempInfo) =>
      if k < nt then ProbedTemp(d, build, CounterAfter(c, Commands(d), k), k, ex[k], t) else t
  }

  /** The sensor records the probe's sensor loop over the first `nt` sensors leaves over the records `temps`. */
  function TempLoop(d: Driver, build: Build, c: int, ex: seq<Exchange>, temps: seq<TempInfo>, nt: nat): (r: seq<TempInfo>)
    requires nt <= 4 && nt <= |temps| && nt <= |ex| && forall e <- ex :: Fits(d, e)
    ensures |r| == |temps|
  {
    SlotLoop(TempStep(d, build, c, ex, nt), temps, 0, nt)
  }

  /**
   * What the sensor loop leaves in slot `j` of those it reads: sensor `j` read on its own,
   * with the counter `j` requests on from the loop's start and its exchange `ex[j]`, over
   * the record that was there; and every slot from `nt` on as it was.
   */
  lemma TempLoopAt(d: Driver, build: Build, c: int, ex: seq<Exchange>, temps: seq<TempInfo>, nt: nat, j: nat)
    requires nt <= 4 && nt <= |temps| && nt <= |ex| && forall e <- ex :: Fits(d, e)
    requires j < |temps|
    ensures j < nt ==>
      TempLoop(d, build, c, ex, temps, nt)[j] == ProbedTemp(d, build, CounterAfter(c, Commands(d), j), j, ex[j], temps[j])
    ensures nt <= j ==> TempLoop(d, build, c, ex, temps, nt)[j] == temps[j]
  {
    if j < nt {
      SlotLoopAt(TempStep(d, build, c, ex, nt), temps, 0, nt, j);
    } else {
      SlotLoopKeeps(TempStep(d, build, c, ex, nt), temps, 0, nt, j);
    }
  }

  /** The sensor loop names every sensor it reads. */
  lemma TempLoopNames(d: Driver, build: Build, c: int, ex: seq<Exchange>, temps: seq<TempInfo>, nt: nat)
    requires nt <= 4 && nt <= |temps| && nt <= |ex| && forall e <- ex :: Fits(d, e)
    ensures forall j :: 0 <= j < nt ==> TempLoop(d, build, c, ex, temps, nt)[j].name == TempName(j)
  {
    forall j | 0 <= j < nt
      ensures TempLoop(d, build, c, ex, temps, nt)[j].name == TempName(j)
    {
      TempLoopAt(d, build, c, ex, temps, nt, j);
    }
  }

  /**
   * ProbeFan as the fan loop over `nf` fans that started with counter `c0` and files `base`
   * uses it: fan `i` read by the loop's step, named, its files created when present.
   */
  method ProbeNextFan(cl: DriverLink, i: nat, nf: nat, hasPump: bool, ex: seq<Exchange>, ghost c0: int, ghost base: set<nat>)
    requires cl.Valid() && i < nf <= 5 && |ex| == 3 * nf && forall e <- ex :: Fits(cl.driver, e)
    requires cl.commandId == CounterAfter(c0, Commands(cl.driver), 3 * i)
    requires cl.fanFiles == base + PresentFans(cl.driver, cl.fans[..], i)
    modifies cl, cl.fans
    ensures cl.Valid() && cl.devid == old(cl.devid) && cl.firmwareId == old(cl.firmwareId) && cl.tempFiles == old(cl.tempFiles)
    ensures cl.commandId == CounterAfter(c0, Commands(cl.driver), 3 * (i + 1))
    ensures cl.fans[..] == old(cl.fans[..])[i := FanStep(cl.driver, cl.build, hasPump, c0, ex, nf)(i, old(cl.fans[i]))]
    ensures cl.fans[i].name == FanName(cl.driver, hasPump, i)
    ensures cl.fanFiles == base + PresentFans(cl.driver, cl.fans[..], i + 1)
  {
    ghost var c := cl.commandId;
    ghost var n := Commands(cl.driver);
    ghost var before := cl.fans[..];
    ProbeFan(cl, i, hasPump, ex[3 * i..3 * i + 3]);
    PresentFansStep(cl.driver, before, cl.fans[..], i);
    CounterThree(c, n);
    CounterSteps(c0, n, 3 * i, 3);
  }

  /** The probe's fan loop over the first `nf` fans, three reads each. */
  method ProbeFans(cl: DriverLink, nf: nat, hasPump: bool, ex: seq<Exchange>)
    requires cl.Valid() && nf <= 5 && |ex| == 3 * nf && forall e <- ex :: Fits(cl.driver, e)
    modifies cl, cl.fans
    ensures cl.Valid() && cl.devid == old(cl.devid) && cl.firmwareId == old(cl.firmwareId) && cl.tempFiles == old(cl.tempFiles)
    ensures cl.commandId == CounterAfter(old(cl.commandId), Commands(cl.driver), 3 * nf)
    ensures forall j :: 0 <= j < nf ==> cl.fans[j].name == FanName(cl.driver, hasPump, j)
    ensures cl.fanFiles == old(cl.fanFiles) + PresentFans(cl.driver, cl.fans[..], nf)
    ensures cl.fans[..] == FanLoop(cl.driver, cl.build, hasPump, old(cl.commandId), ex, old(cl.fans[..]), nf)
    ensures forall j :: nf <= j < cl.fans.Length ==> cl.fans[j] == old(cl.fans[j])
  {
    ghost var c0 := cl.commandId;
    ghost var n := Commands(cl.driver);
    ghost var step := FanStep(cl.driver, cl.build, hasPump, c0, ex, nf);
    ghost var all := SlotLoop(step, cl.fans[..], 0, nf);
    var i := 0;
    while i < nf
      invariant 0 <= i <= nf && cl.Valid()
      invariant cl.devid == old(cl.devid) && cl.firmwareId == old(cl.firmwareId) && cl.tempFiles == old(cl.tempFiles)
      invariant cl.commandId == CounterAfter(c0, n, 3 * i)
      invariant SlotLoop(step, cl.fans[..], i, nf) == all
      invariant cl.fanFiles == old(cl.fanFiles) + PresentFans(cl.driver, cl.fans[..], i)
    {
      ghost var before := cl.fans[..];
      ProbeNextFan(cl, i, nf, hasPump, ex, c0, old(cl.fanFiles));
      SlotLoopStep(step, before, i, nf);
      i := i + 1;
    }
    forall j | nf <= j < cl.fans.Length
      ensures cl.fans[j] == old(cl.fans[j])
    {
      FanLoopAt(cl.driver, cl.build, hasPump, c0, ex, old(cl.fans[..]), nf, j);
    }
    FanLoopNames(cl.driver, cl.build, hasPump, c0, ex, old(cl.fans[..]), nf);
  }

  /** The three requests one fan takes, counted one by one. */
  lemma CounterThree(c: int, n: nat)
    ensures CounterAfter(c, n, 3) == AfterRequest(AfterRequest(AfterRequest(c, n), n), n)
  {
    assert CounterAfter(c, n, 1) == AfterRequest(c, n);
    assert CounterAfter(c, n, 2) == AfterRequest(CounterAfter(c, n, 1), n);
  }

  /** Counting `k` requests and then `m` more is counting `k + m`. */
  lemma {:induction false} CounterSteps(c: int, n: nat, k: nat, m: nat)
    ensures CounterAfter(CounterAfter(c, n, k), n, m) == CounterAfter(c, n, k + m)
    decreases m
  {
    if m > 0 {
      CounterSteps(c, n, k, m - 1);
    }
  }

  /**
   * ProbeTemp as the sensor loop over `nt` sensors that started with counter `c0` and files
   * `base` uses it: sensor `i` read by the loop's step, named, its files created when present.
   */
  method ProbeNextTemp(cl: DriverLink, i: nat, nt: nat, ex: seq<Exchange>, ghost c0: int, ghost base: set<nat>)
    requires cl.Valid() && i < nt <= 4 && nt <= |ex| && forall e <- ex :: Fits(cl.driver, e)
    requires cl.commandId == CounterAfter(c0, Commands(cl.driver), i)
    requires cl.tempFiles == base + PresentTemps(cl.driver, cl.temps[..], i)
    modifies cl, cl.temps
    ensures cl.Valid() && cl.devid == old(cl.devid) && cl.firmwareId == old(cl.firmwareId) && cl.fanFiles == old(cl.fanFiles)
    ensures cl.commandId == CounterAfter(c0, Commands(cl.driver), i + 1)
    ensures cl.temps[..] == old(cl.temps[..])[i := TempStep(cl.driver, cl.build, c0, ex, nt)(i, old(cl.temps[i]))]
    ensures cl.temps[i].name == TempName(i)
    ensures cl.tempFiles == base + PresentTemps(cl.driver, cl.temps[..], i + 1)
  {
    ghost var before := cl.temps[..];
    ProbeTemp(cl, i, ex[i]);
    PresentTempsStep(cl.driver, before, cl.temps[..], i);
  }

  /** The probe's sensor loop over the first `nt` sensors, one read each. */
  method ProbeTemps(cl: DriverLink, nt: nat, ex: seq<Exchange>)
    requires cl.Valid() && nt <= 4 && nt <= |ex| && forall e <- ex :: Fits(cl.driver, e)
    modifies cl, cl.temps
    ensures cl.Valid() && cl.devid == old(cl.devid) && cl.firmwareId == old(cl.firmwareId) && cl.fanFiles == old(cl.fanFiles)
    ensures forall j :: 0 <= j < nt ==> cl.temps[j].name == TempName(j)
    ensures cl.commandId == CounterAfter(old(cl.commandId), Commands(cl.driver), nt)
    ensures cl.temps[..] == TempLoop(cl.driver, cl.build, old(cl.commandId), ex, old(cl.temps[..]), nt)
    ensures cl.tempFiles == old(cl.tempFiles) + PresentTemps(cl.driver, cl.temps[..], nt)
    ensures forall j :: nt <= j < cl.temps.Length ==> cl.temps[j] == old(cl.temps[j])
  {
    ghost var c0 := cl.commandId;
    ghost var n := Commands(cl.driver);
    ghost var step := TempStep(cl.driver, cl.build, c0, ex, nt);
    ghost var all := SlotLoop(step, cl.temps[..], 0, nt);
    var i := 0;
    while i < nt
      invariant 0 <= i <= nt && cl.Valid()
      invariant cl.devid == old(cl.devid) && cl.firmwareId == old(cl.firmwareId) && cl.fanFiles == old(cl.fanFiles)
      invariant cl.commandId == CounterAfter(c0, n, i)
      invariant SlotLoop(step, cl.temps[..], i, nt) == all
      invariant cl.tempFiles == old(cl.tempFiles) + PresentTemps(cl.driver, cl.temps[..], i)
    {
      ghost var before := cl.temps[..];
      ProbeNextTemp(cl, i, nt, ex, c0, old(cl.tempFiles));
      SlotLoopStep(step, before, i, nt);
      i := i + 1;
    }
    forall j | nt <= j < cl.temps.Length
      ensures cl.temps[j] == old(cl.temps[j])
    {
      TempLoopAt(cl.driver, cl.build, c0, ex, old(cl.temps[..]), nt, j);
    }
    TempLoopNames(cl.driver, cl.build, c0, ex, old(cl.temps[..]), nt);
  }

  /** The probe after identification: the fan loop, then the sensor loop, over the slots entry `e` gives. */
  method ProbeSlots(cl: DriverLink, e: Capability.DeviceSpec, fanEx: seq<Exchange>, tempEx: seq<Exchange>)
    requires cl.Valid() && cl.devid.Some? && cl.devid.value < |DeviceTable(cl.driver)|
    requires e == DeviceTable(cl.driver)[cl.devid.value] && e.supported
    requires |fanEx| == 15 && |tempEx| == 4
    requires (forall x <- fanEx :: Fits(cl.driver, x)) && (forall x <- tempEx :: Fits(cl.driver, x))
    modifies cl, cl.fans, cl.temps
    ensures cl.Valid() && cl.devid == old(cl.devid)
    ensures var nf := e.maxFans + e.maxPumps;
      && nf <= 5 && e.maxTemps <= 4
      && (forall j :: 0 <= j < nf ==> cl.fans[j].name == FanName(cl.driver, e.maxPumps != 0, j))
      && (forall j :: 0 <= j < e.maxTemps ==> cl.temps[j].name == TempName(j))
      && cl.fanFiles == old(cl.fanFiles) + PresentFans(cl.driver, cl.fans[..], nf)
      && cl.tempFiles == old(cl.tempFiles) + PresentTemps(cl.driver, cl.temps[..], e.maxTemps)
      && (forall j :: nf <= j < cl.fans.Length ==> cl.fans[j] == old(cl.fans[j]))
      && cl.fans[..] == FanLoop(cl.driver, cl.build, e.maxPumps != 0, old(cl.commandId), fanEx[..3 * nf], old(cl.fans[..]), nf)
      && var afterFans := CounterAfter(old(cl.commandId), Commands(cl.driver), 3 * nf);
         && cl.commandId == CounterAfter(afterFans, Commands(cl.driver), e.maxTemps)
         && cl.temps[..] == TempLoop(cl.driver, cl.build, afterFans, tempEx, old(cl.temps[..]), e.maxTemps)
  {
    Capability.SupportedFitSlots(DeviceTable(cl.driver), cl.devid.value);
    var nf := e.maxFans + e.maxPumps;
    ProbeFans(cl, nf, e.maxPumps != 0, fanEx[..3 * nf]);
    ProbeTemps(cl, e.maxTemps, tempEx);
  }

  /**
   * The probe (h80i_probe, clink_probe): identifies the device, then, on a supported
   * device, names and reads every fan and pump slot and every sensor slot its table entry
   * gives, creating the attribute files of those found present. Returns whether the
   * driver binds to the device.
   */
  method Probe(cl: DriverLink, idEx: seq<Exchange>, fanEx: seq<Exchange>, tempEx: seq<Exchange>) returns (attached: bool)
    requires cl.Valid() && |idEx| == 2 && |fanEx| == 15 && |tempEx| == 4
    requires forall e <- idEx + fanEx + tempEx :: Fits(cl.driver, e)
    modifies cl, cl.fans, cl.temps
    ensures cl.Valid()
    ensures attached <==> cl.devid.Some? && DeviceTable(cl.driver)[cl.devid.value].supported
    ensures attached ==>
      var e := DeviceTable(cl.driver)[cl.devid.value];
      var nf := e.maxFans + e.maxPumps;
      && nf <= 5 && e.maxTemps <= 4
      && (forall j :: 0 <= j < nf ==> cl.fans[j].name == FanName(cl.driver, e.maxPumps != 0, j))
      && (forall j :: 0 <= j < e.maxTemps ==> cl.temps[j].name == TempName(j))
      && cl.fanFiles == old(cl.fanFiles) + PresentFans(cl.driver, cl.fans[..], nf)
      && cl.tempFiles == old(cl.tempFiles) + PresentTemps(cl.driver, cl.temps[..], e.maxTemps)
      && (forall j :: nf <= j < cl.fans.Length ==> cl.fans[j] == old(cl.fans[j]))
      && var afterId := AfterRequest(AfterRequest(old(cl.commandId), 1), 1);
         && cl.fans[..] == FanLoop(cl.driver, cl.build, e.maxPumps != 0, afterId, fanEx[..3 * nf], old(cl.fans[..]), nf)
         && var afterFans := CounterAfter(afterId, Commands(cl.driver), 3 * nf);
            cl.temps[..] == TempLoop(cl.driver, cl.build, afterFans, tempEx, old(cl.temps[..]), e.maxTemps)
    ensures !attached ==> cl.fanFiles == old(cl.fanFiles) && cl.tempFiles == old(cl.tempFiles)
  {
    var r := Identify(cl, idEx[0], idEx[1]);
    if r != 0 {
      attached := false;
      Capability.TablesWellFormed();
      return;
    }
    var e := DeviceTable(cl.driver)[cl.devid.value];
    if !e.supported {
      return false;
    }
    ProbeSlots(cl, e, fanEx, tempEx);
    attached := true;
  }
}
