/**
 * The fan record, the fan-mode enumeration and the mode-name table shared by the
 * userland tool and both kernel drivers.
 */
module FanInfo {
  import opened Basics

  /** The fan modes a controller understands; `Code` is the value written to the mode register. */
  datatype FanMode = FixedPWM | FixedRPM | Default | Quiet | Balanced | Performance | Custom
  {
    function Code(): byte
    {
      match this
      case FixedPWM => 0x02
      case FixedRPM => 0x04
      case Default => 0x06
      case Quiet => 0x08
      case Balanced => 0x0A
      case Performance => 0x0C
      case Custom => 0x0E
    }
  }

  const AllModes: seq<FanMode> := [FixedPWM, FixedRPM, Default, Quiet, Balanced, Performance, Custom]

  /** The mode code of a fan whose mode has not been read yet. */
  const Unset := 0x03

  /** The mode values the two kernel drivers declare, in declaration order. */
  const DriverModeCodes: seq<int> := [0x02, 0x04, 0x06, 0x08, 0x0A, 0x0C, 0x0E]

  /** The fan mode a register value stands for, if it stands for one. */
  function ModeOf(v: int): (m: Option<FanMode>)
    ensures m.Some? ==> m.value.Code() == v
  {
    if v == 0x02 then Some(FixedPWM)
    else if v == 0x04 then Some(FixedRPM)
    else if v == 0x06 then Some(Default)
    else if v == 0x08 then Some(Quiet)
    else if v == 0x0A then Some(Balanced)
    else if v == 0x0C then Some(Performance)
    else if v == 0x0E then Some(Custom)
    else None
  }

  /** The mode test of SetFansInfo: `v` equals one of the seven mode constants. */
  predicate IsFanMode(v: int)
  {
    v == FixedPWM.Code() || v == FixedRPM.Code() || v == Default.Code() || v == Quiet.Code()
    || v == Balanced.Code() || v == Performance.Code() || v == Custom.Code()
  }

  lemma ModeCodeRoundTrip(m: FanMode)
    ensures ModeOf(m.Code()) == Some(m)
  {
  }

  lemma IsFanModeMeansDecodable(v: int)
    ensures IsFanMode(v) <==> ModeOf(v).Some?
  {
  }

  /** The seven codes are distinct, even, between 2 and 0x0E, and leave the presence (0x80)
      and tachometer (0x01) bits clear; the drivers declare the same values. */
  lemma ModeCodesShape()
    ensures |AllModes| == 7 && forall m: FanMode :: m in AllModes
    ensures forall i, j :: 0 <= i < j < |AllModes| ==> AllModes[i].Code() != AllModes[j].Code()
    ensures forall m: FanMode :: m.Code() % 2 == 0 && 2 <= m.Code() <= 0x0E
    ensures forall m: FanMode :: !BitSet(m.Code(), 0x80) && !BitSet(m.Code(), 0x01)
    ensures forall i :: 0 <= i < 7 ==> DriverModeCodes[i] == AllModes[i].Code()
    ensures !IsFanMode(Unset)
  {
    forall m: FanMode ensures m in AllModes {
      assert m == AllModes[ModeIndex(m)];
    }
  }

  function ModeIndex(m: FanMode): nat
  {
    match m
    case FixedPWM => 0
    case FixedRPM => 1
    case Default => 2
    case Quiet => 3
    case Balanced => 4
    case Performance => 5
    case Custom => 6
  }

  /** The mode-name table, closed by the 0xff sentinel whose name is returned for unknown codes. */
  const TableEnd := 0xff
  const ModeToString: seq<(int, string)> := [
    (FixedPWM.Code(), "Fixed PWM"),
    (FixedRPM.Code(), "Fixed RPM"),
    (Default.Code(), "Default"),
    (Quiet.Code(), "Quiet"),
    (Balanced.Code(), "Balanced"),
    (Performance.Code(), "Performance"),
    (Custom.Code(), "Custom"),
    (TableEnd, "N/A")
  ]

  /**
   * GetFanModeString: scans the table until the sentinel. A mode code gets the name
   * paired with it; any other value (the unset 0x03 included) gets the sentinel's "N/A".
   */
  method GetFanModeString(mode: int) returns (name: string)
    ensures IsFanMode(mode) ==> exists i :: 0 <= i < 7 && ModeToString[i].0 == mode && name == ModeToString[i].1
    ensures !IsFanMode(mode) ==> name == "N/A"
    ensures mode == Default.Code() ==> name == "Default"
  {
    var i := 0;
    while ModeToString[i].0 != TableEnd
      invariant 0 <= i < |ModeToString|
      invariant forall j :: 0 <= j < i ==> ModeToString[j].0 != mode
      decreases |ModeToString| - i
    {
      if ModeToString[i].0 == mode {
        break;
      }
      i := i + 1;
    }
    if ModeToString[i].0 == TableEnd {
      assert ModeToString[0].0 != mode && ModeToString[1].0 != mode && ModeToString[2].0 != mode
        && ModeToString[3].0 != mode && ModeToString[4].0 != mode && ModeToString[5].0 != mode
        && ModeToString[6].0 != mode;
    } else {
      assert i < 7 && ModeToString[i].0 == mode;
    }
    name := ModeToString[i].1;
  }

  /** A fan as the tool reports it. */
  datatype FanInfo = FanInfo(name: string, rpm: int, maxRpm: int, mode: int)

  /** CorsairFanInfo_init: clears the reading and marks the mode as not yet read. */
  function Init(fi: FanInfo): (r: FanInfo)
    ensures r.rpm == 0 && r.mode == Unset && !IsFanMode(r.mode) && ModeOf(r.mode) == None
    ensures r.name == fi.name && r.maxRpm == fi.maxRpm
  {
    fi.(rpm := 0, mode := Unset)
  }
}
