/**
 * The CorsairLink wire protocol shared by the userland tool and both kernel drivers:
 * opcodes, registers, the per-fan register tables of the older interface, the
 * command encoding, and where replies carry the value that was read.
 */
module Wire {
  import opened Basics

  /**
   * The two interface generations. V1: the older h80/h100 and the Cooling Node, which
   * address each fan or sensor by its own register. V2: the H80i/H100i, which select a
   * fan or sensor first and then read a shared register.
   */
  datatype Variant = V1 | V2

  const WriteOneByte: byte := 0x06
  const ReadOneByte: byte := 0x07
  const WriteTwoBytes: byte := 0x08
  const ReadTwoBytes: byte := 0x09
  const WriteThreeBytes: byte := 0x0A
  const ReadThreeBytes: byte := 0x0B

  /**
   * How many data bytes follow the register byte of a command, by opcode: one for
   * WriteOneByte, two for WriteTwoBytes, none for the reads. The three-byte opcodes
   * are never sent by this code and are not decoded.
   */
  function DataLen(opcode: byte): (n: Option<nat>)
    ensures n.Some? <==> opcode in {WriteOneByte, ReadOneByte, WriteTwoBytes, ReadTwoBytes}
    ensures n.Some? ==> n.value <= 2
  {
    if opcode == WriteOneByte then Some(1)
    else if opcode == WriteTwoBytes then Some(2)
    else if opcode == ReadOneByte || opcode == ReadTwoBytes then Some(0)
    else None
  }

  // Registers of the V2 interface.
  const DeviceID: byte := 0x00
  const FirmwareID: byte := 0x01
  const TEMP_SelectActiveSensor: byte := 0x0C
  const TEMP_CountSensors: byte := 0x0D
  const TEMP_Read: byte := 0x0E
  const FAN_Select: byte := 0x10
  const FAN_Mode: byte := 0x12
  const FAN_FixedRPM: byte := 0x14
  const FAN_ReadRPM: byte := 0x16
  const FAN_MaxRecordedRPM: byte := 0x17

  /** Bits of a fan-mode register: the fan is detected and running / the fan has a tachometer. */
  const FAN_PRSNT := 0x80
  const FAN_TACH := 0x01

  // V1 register of each sensor or fan, as the userland tool tables them (index = number - 1).
  const TempIndxToPort: seq<byte> := [0x0a, 0x09, 0x08, 0x07]
  const FanModeIndxToPort: seq<byte> := [0x20, 0x30, 0x40, 0x50, 0x60]
  const FanRPMIndxToPort: seq<byte> := [0x0b, 0x0c, 0x0d, 0x0e, 0x0f]
  const FanMaxRPMIndxToPort: seq<byte> := [0x10, 0x11, 0x12, 0x13, 0x14]
  const FanFixRPMIndxToPort: seq<byte> := [0x22, 0x32, 0x42, 0x52, 0x62]

  // The same registers as the clink driver tables them, each table closed by 0.
  const TEMP1_Read: byte := 0x0a
  const FAN1_ReadRPM: byte := 0x0b
  const FAN1_MaxRecordedRPM: byte := 0x10
  const FAN1_Mode: byte := 0x20
  const TempIndxToAddr: seq<byte> := [TEMP1_Read, 0x09, 0x08, 0x07, 0]
  const FanIndxToAddr: seq<byte> := [FAN1_ReadRPM, 0x0c, 0x0d, 0x0e, 0x0f, 0]
  const MaxFanIndxToAddr: seq<byte> := [FAN1_MaxRecordedRPM, 0x11, 0x12, 0x13, 0x14, 0]
  const ModeFanIndxToAddr: seq<byte> := [FAN1_Mode, 0x30, 0x40, 0x50, 0x60, 0]

  /**
   * The userland and driver tables name the same registers, in the same order, and follow
   * the register map: sensor n at 0x0b - n, fan n's RPM at 0x0a + n, its maximum at 0x0f + n,
   * its mode at 0x10 + 0x10 n with the fixed-RPM register two above the mode register.
   */
  lemma PortTablesAgree()
    ensures TempIndxToAddr == TempIndxToPort + [0]
    ensures FanIndxToAddr == FanRPMIndxToPort + [0]
    ensures MaxFanIndxToAddr == FanMaxRPMIndxToPort + [0]
    ensures ModeFanIndxToAddr == FanModeIndxToPort + [0]
    ensures forall i :: 0 <= i < 4 ==> TempIndxToPort[i] == 0x0a - i
    ensures forall i :: 0 <= i < 5 ==>
      && FanRPMIndxToPort[i] == 0x0b + i
      && FanMaxRPMIndxToPort[i] == 0x10 + i
      && FanModeIndxToPort[i] == 0x20 + 0x10 * i
      && FanFixRPMIndxToPort[i] == FanModeIndxToPort[i] + 2
  {
  }

  /** One register operation: message id, opcode, register and the data bytes written. */
  datatype Command = Command(id: byte, opcode: byte, reg: byte, data: seq<byte>)

  predicate WellFormed(c: Command)
  {
    DataLen(c.opcode) == Some(|c.data|)
  }

  predicate AllWellFormed(cmds: seq<Command>)
  {
    forall i :: 0 <= i < |cmds| ==> WellFormed(cmds[i])
  }

  /** The bytes of a run of commands: id, opcode, register, data, one command after the other. */
  function Encode(cmds: seq<Command>): (r: seq<byte>)
    ensures cmds != [] ==> |r| >= 3 && r[0] == cmds[0].id && r[1] == cmds[0].opcode && r[2] == cmds[0].reg
  {
    if cmds == [] then []
    else [cmds[0].id, cmds[0].opcode, cmds[0].reg] + cmds[0].data + Encode(cmds[1..])
  }

  /** How the device reads a run of commands: each opcode says how many data bytes follow. */
  function Parse(bytes: seq<byte>): Option<seq<Command>>
    decreases |bytes|
  {
    if bytes == [] then Some([])
    else if |bytes| < 3 || DataLen(bytes[1]).None? then None
    else
      var n := DataLen(bytes[1]).value;
      if |bytes| < 3 + n then None
      else match Parse(bytes[3 + n..])
        case None => None
        case Some(rest) => Some([Command(bytes[0], bytes[1], bytes[2], bytes[3..3 + n])] + rest)
  }

  lemma {:induction false} ParseEncode(cmds: seq<Command>)
    requires AllWellFormed(cmds)
    ensures Parse(Encode(cmds)) == Some(cmds)
    decreases |cmds|
  {
    if cmds != [] {
      var c := cmds[0];
      var e := Encode(cmds);
      assert e == [c.id, c.opcode, c.reg] + c.data + Encode(cmds[1..]);
      assert WellFormed(c);
      assert e[3 + |c.data|..] == Encode(cmds[1..]);
      assert e[3..3 + |c.data|] == c.data;
      ParseEncode(cmds[1..]);
      assert [c] + cmds[1..] == cmds;
    }
  }

  lemma {:induction false} EncodeParse(bytes: seq<byte>, cmds: seq<Command>)
    requires Parse(bytes) == Some(cmds)
    ensures AllWellFormed(cmds) && Encode(cmds) == bytes
    decreases |bytes|
  {
    if bytes != [] {
      var n := ParseHead(bytes);
      var rest := Parse(bytes[3 + n..]).value;
      var c := Command(bytes[0], bytes[1], bytes[2], bytes[3..3 + n]);
      EncodeParse(bytes[3 + n..], rest);
      ConsWellFormed(c, rest);
      EncodeCons(c, rest);
    }
  }

  /** A run of commands that parses starts with a whole command of `n` data bytes, followed by a run that parses. */
  lemma ParseHead(bytes: seq<byte>) returns (n: nat)
    requires bytes != [] && Parse(bytes).Some?
    ensures |bytes| >= 3 + n && DataLen(bytes[1]) == Some(n) && Parse(bytes[3 + n..]).Some?
    ensures Parse(bytes).value == [Command(bytes[0], bytes[1], bytes[2], bytes[3..3 + n])] + Parse(bytes[3 + n..]).value
    ensures bytes == [bytes[0], bytes[1], bytes[2]] + bytes[3..3 + n] + bytes[3 + n..]
  {
    n := DataLen(bytes[1]).value;
  }

  lemma ConsWellFormed(c: Command, rest: seq<Command>)
    requires WellFormed(c) && AllWellFormed(rest)
    ensures AllWellFormed([c] + rest)
  {
    forall i | 0 <= i < |rest| + 1
      ensures WellFormed(([c] + rest)[i])
    {
      if i > 0 {
        assert ([c] + rest)[i] == rest[i - 1];
      }
    }
  }

  lemma EncodeCons(c: Command, rest: seq<Command>)
    ensures Encode([c] + rest) == [c.id, c.opcode, c.reg] + c.data + Encode(rest)
  {
    assert ([c] + rest)[0] == c && ([c] + rest)[1..] == rest;
  }

  /** A request packet as the code fills its buffer: a length byte, then the commands. */
  function Packet(len: byte, cmds: seq<Command>): seq<byte>
  {
    [len] + Encode(cmds)
  }

  /** The commands a V2 device takes from a packet, reading as many bytes as the length byte announces. */
  function Unpack(packet: seq<byte>): Option<seq<Command>>
  {
    if |packet| == 0 || packet[0] > |packet| - 1 then None else Parse(packet[1..1 + packet[0]])
  }

  /** A packet whose length byte counts its command bytes unpacks to its commands, whatever padding follows it. */
  lemma UnpackPacket(cmds: seq<Command>, padding: seq<byte>)
    requires AllWellFormed(cmds) && |Encode(cmds)| < 256
    ensures Unpack(Packet(|Encode(cmds)|, cmds) + padding) == Some(cmds)
  {
    var p := Packet(|Encode(cmds)|, cmds) + padding;
    assert p[1..1 + p[0]] == Encode(cmds);
    ParseEncode(cmds);
  }

  /** The message id byte that a counter value puts on the wire. */
  function IdByte(counter: int): (b: byte)
    ensures 0 <= counter < 256 ==> b == counter
  {
    Truncate(counter)
  }

  /**
   * Where a reply carries the value read: the device echoes the id and opcode of each
   * command of the request, then the bytes read. A V1 request holds one command; a V2
   * request selects a fan or sensor first, so its reply echoes two commands.
   */
  function ValueOffset(commands: nat): nat
  {
    2 * commands
  }

  function CommandsPerRequest(variant: Variant): nat
  {
    match variant
    case V1 => 1
    case V2 => 2
  }

  /** The little-endian word read, as the code takes it from a reply. */
  function ReplyWord(commands: nat, reply: seq<byte>): u16
    requires |reply| >= ValueOffset(commands) + 2
  {
    Le16(reply[ValueOffset(commands)], reply[ValueOffset(commands) + 1])
  }

  /** A reply that carries the word `v` where the variant puts it decodes to `v`, whatever the other bytes hold. */
  lemma ReplyWordRoundTrip(commands: nat, reply: seq<byte>, v: u16)
    requires |reply| >= ValueOffset(commands) + 2
    requires reply[ValueOffset(commands)] == LowByte(v) && reply[ValueOffset(commands) + 1] == HighByte(v)
    ensures ReplyWord(commands, reply) == v
  {
  }
}
