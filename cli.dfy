/**
 * The OpenCorsairLink command line (main.c): parseArguments turns the options into the
 * interface, fan number, mode and RPM; main opens the link and either sets one fan or
 * reads every sensor and fan. Options arrive already split by getopt_long, their
 * arguments already converted by strtol.
 */
module Cli {
  import opened Basics
  import opened Wire
  import opened FanInfo
  import opened Link

  /** One option as getopt_long returns it: -i, -f, -m, -r with their value, -h, or anything it does not know. */
  datatype Opt = Intf(value: int) | Fan(value: int) | ModeOpt(value: int) | Rpm(value: int) | Help | Unknown

  /** main's four option variables. */
  datatype Settings = Settings(fanNumber: int, fanMode: int, fanRpm: int, intf: int)

  /** Their values before parsing: no fan, no mode, no RPM, the H80i. */
  const Defaults := Settings(0, 0, 0, H80I)

  /** What parseArguments ends in: its return code with the variables it left, or a call of exit. */
  datatype ParseResult = Parsed(rc: int, settings: Settings) | Exit(code: int)

  /** The modes the command line accepts: Fixed RPM, Default, Quiet, Balanced and Performance. */
  predicate CliMode(m: int)
  {
    m == Performance.Code() || m == FixedRPM.Code() || m == Default.Code() || m == Balanced.Code() || m == Quiet.Code()
  }

  /** Whether parseArguments accepts the value of an option; -h and unknown options are not values. */
  predicate OptionOk(o: Opt)
  {
    match o
    case Intf(v) => v == 1 || v == 2
    case Fan(v) => 1 <= v <= 4
    case ModeOpt(v) => CliMode(v)
    case Rpm(v) => v >= 0
    case Help => false
    case Unknown => false
  }

  /** The variable an option stores its value in, whether the value is accepted or not. */
  function Apply(s: Settings, o: Opt): Settings
  {
    match o
    case Intf(v) => s.(intf := v)
    case Fan(v) => s.(fanNumber := v)
    case ModeOpt(v) => s.(fanMode := v)
    case Rpm(v) => s.(fanRpm := v)
    case _ => s
  }

  /**
   * parseArguments from the `k`-th option with return code `rc`: it stops at the end or as
   * soon as the code is not zero (the option fetched then is dropped), exits with 0 on -h
   * and 1 on an unknown option, and otherwise stores each value and sets the code to 1
   * when the value is refused.
   */
  function ParseFrom(opts: seq<Opt>, k: nat, s: Settings, rc: int): ParseResult
    decreases |opts| - k
  {
    if k >= |opts| || rc != 0 then Parsed(rc, s)
    else match opts[k]
      case Help => Exit(0)
      case Unknown => Exit(1)
      case _ => ParseFrom(opts, k + 1, Apply(s, opts[k]), if OptionOk(opts[k]) then rc else 1)
  }

  /** parseArguments: the getopt loop over the options, on main's variables `s0`. */
  method ParseArguments(opts: seq<Opt>, s0: Settings) returns (r: ParseResult)
    ensures r == ParseFrom(opts, 0, s0, 0)
  {
    var s := s0;
    var returnCode := 0;
    var k := 0;
    while k < |opts| && returnCode == 0
      invariant k <= |opts|
      invariant ParseFrom(opts, k, s, returnCode) == ParseFrom(opts, 0, s0, 0)
      decreases |opts| - k
    {
      match opts[k] {
        case Intf(v) =>
          s := s.(intf := v);
          if v != 1 && v != 2 {
            returnCode := 1;
          }
        case Fan(v) =>
          s := s.(fanNumber := v);
          if v < 1 || v > 4 {
            returnCode := 1;
          }
        case ModeOpt(v) =>
          s := s.(fanMode := v);
          if !CliMode(v) {
            returnCode := 1;
          }
        case Rpm(v) =>
          s := s.(fanRpm := v);
          if v < 0 {
            returnCode := 1;
          }
        case Help =>
          return Exit(0);
        case Unknown =>
          return Exit(1);
      }
      k := k + 1;
    }
    return Parsed(returnCode, s);
  }

  /** Parsing from `k` on returns 0 if and only if every option from `k` on is one with an accepted value. */
  lemma {:induction false} ParseSucceedsFrom(opts: seq<Opt>, k: nat, s: Settings)
    requires k <= |opts|
    ensures ParseFrom(opts, k, s, 0).Parsed? && ParseFrom(opts, k, s, 0).rc == 0
      <==> forall i :: k <= i < |opts| ==> OptionOk(opts[i])
    decreases |opts| - k
  {
    if k < |opts| && !opts[k].Help? && !opts[k].Unknown? {
      if OptionOk(opts[k]) {
        ParseSucceedsFrom(opts, k + 1, Apply(s, opts[k]));
      }
    }
  }

  /** parseArguments returns 0 if and only if every option is -i, -f, -m or -r with an accepted value. */
  lemma ParseSucceedsIff(opts: seq<Opt>, s0: Settings)
    ensures ParseFrom(opts, 0, s0, 0).Parsed? && ParseFrom(opts, 0, s0, 0).rc == 0
      <==> forall i :: 0 <= i < |opts| ==> OptionOk(opts[i])
  {
    ParseSucceedsFrom(opts, 0, s0);
  }

  /** The settings the rest of main may rely on: a known interface, no fan or fans 1 to 4, no mode or a command-line mode, an RPM that is not negative. */
  predicate InRange(s: Settings)
  {
    (s.intf == 1 || s.intf == 2) && 0 <= s.fanNumber <= 4 && (s.fanMode == 0 || CliMode(s.fanMode)) && s.fanRpm >= 0
  }

  lemma {:induction false} ParsedInRangeFrom(opts: seq<Opt>, k: nat, s: Settings, s': Settings)
    requires k <= |opts| && InRange(s) && ParseFrom(opts, k, s, 0) == Parsed(0, s')
    ensures InRange(s')
    decreases |opts| - k
  {
    if k < |opts| {
      if OptionOk(opts[k]) {
        ParsedInRangeFrom(opts, k + 1, Apply(s, opts[k]), s');
      }
    }
  }

  /** Whatever the options, a return code of 0 leaves settings in range. */
  lemma ParsedInRange(opts: seq<Opt>, s: Settings)
    requires ParseFrom(opts, 0, Defaults, 0) == Parsed(0, s)
    ensures InRange(s)
  {
    ParsedInRangeFrom(opts, 0, Defaults, s);
  }

  lemma {:induction false} RefusedFrom(opts: seq<Opt>, rest: seq<Opt>, k: nat, s: Settings, rc: int, s': Settings)
    requires k <= |opts| && ParseFrom(opts, k, s, rc) == Parsed(1, s')
    ensures ParseFrom(opts + rest, k, s, rc) == Parsed(1, s')
    decreases |opts| - k
  {
    if k < |opts| && rc == 0 {
      assert (opts + rest)[k] == opts[k];
      RefusedFrom(opts, rest, k + 1, Apply(s, opts[k]), if OptionOk(opts[k]) then rc else 1, s');
    }
  }

  /** Once a value is refused nothing after it counts, not even -h: parseArguments returns 1 with the variables as they were then. */
  lemma RefusedIgnoresRest(opts: seq<Opt>, rest: seq<Opt>, s0: Settings, s: Settings)
    requires ParseFrom(opts, 0, s0, 0) == Parsed(1, s)
    ensures ParseFrom(opts + rest, 0, s0, 0) == Parsed(1, s)
  {
    RefusedFrom(opts, rest, 0, s0, 0, s);
  }

  /**
   * Every mode the command line accepts is one SetFansInfo accepts, but not conversely:
   * Fixed PWM and Custom pass SetFansInfo's test and are refused by the command line.
   */
  lemma CliModesAreFanModes(m: int)
    ensures CliMode(m) ==> IsFanMode(m)
    ensures IsFanMode(m) && !CliMode(m) <==> m == FixedPWM.Code() || m == Custom.Code()
  {
  }

  /** What main does after parsing: refuse the settings, set one fan, or read everything. */
  datatype Action = Reject | SetFan | Query

  function Dispatch(s: Settings): (a: Action)
    ensures a == Query <==> s.fanNumber == 0 && s.fanMode == 0 && s.fanRpm == 0
    ensures a == SetFan ==> s.fanNumber != 0 && !(s.fanMode == FixedRPM.Code() && s.fanRpm <= 0)
  {
    if s.fanNumber != 0 then
      if s.fanMode != 0 || s.fanRpm != 0 then
        if s.fanMode == FixedRPM.Code() && s.fanRpm <= 0 then Reject else SetFan
      else Reject
    else if s.fanMode != 0 || s.fanRpm != 0 then Reject
    else Query
  }

  /** Setting a fan needs something to set: refused settings are exactly those with a mode or RPM and no fan, a fan and nothing to set, or Fixed RPM without an RPM. */
  lemma RejectedExactly(s: Settings)
    ensures Dispatch(s) == Reject <==>
      || (s.fanNumber == 0 && (s.fanMode != 0 || s.fanRpm != 0))
      || (s.fanNumber != 0 && s.fanMode == 0 && s.fanRpm == 0)
      || (s.fanNumber != 0 && s.fanMode == FixedRPM.Code() && s.fanRpm <= 0)
  {
  }

  /**
   * The fan record main hands to SetFansInfo. As written it is an uninitialised local: its
   * name is cleared and the mode and RPM stored only when given, so an option left out
   * leaves whatever `stack` holds. Corrected, the record starts from CorsairFanInfo_init.
   */
  function FanRequest(build: Build, s: Settings, stack: FanInfo): FanInfo
  {
    var f := (if build == AsWritten then stack else Init(stack)).(name := "");
    var f' := if s.fanMode != 0 then f.(mode := s.fanMode) else f;
    if s.fanRpm != 0 then f'.(rpm := s.fanRpm) else f'
  }

  /** How the device behind the link answers, request by request, in main's order. */
  datatype Device = Device(initOk: bool, openOk: bool, identify: Reply, count: Reply, temps: seq<Reply>,
                           fans: seq<Reply>, setMode: Reply, setRpm: Reply)

  /** The link opens: hid_init and hid_open succeed and the identification is one the interface accepts. */
  predicate Opens(build: Build, intf: int, dev: Device)
  {
    dev.initOk && dev.openOk && IdentityAccepted(intf, IdSeen(build, DefaultReadWait, dev.identify))
  }

  /** The frame CorsairLink_init writes to identify the device (first id 0x81). */
  function IdentifyFrame(intf: int): seq<byte>
  {
    Written(VariantOf(intf), IdentifyRequest(0x81), ShortLength(VariantOf(intf)))
  }

  /** How many sensors main reads: 4 on the Cooling Node, the count read on the H80i (first id 0x82). */
  function SensorsSeen(build: Build, intf: int, count: Reply): nat
  {
    if intf == CLINK then 4 else ReadWrapperSpec(build, DefaultReadWait, CountRequest(0x82), count.polls).buf[2]
  }

  /** The first id of ReadFansInfo in a query: after the identification, the count request and every sensor read. */
  function QueryFanBase(build: Build, intf: int, count: Reply): int
  {
    var n := SensorsSeen(build, intf, count);
    if intf == CLINK then 0x82 + n else 0x83 + 2 * n
  }

  /** The temperature main prints for sensor `i`, read into a cleared buffer. */
  function TempShown(build: Build, intf: int, temps: seq<Reply>, i: nat): u16
  {
    WordIn(VariantOf(intf), ReadWrapperSpec(build, DefaultReadWait, Zeros(BufSize), ReplyAt(temps, i).polls).buf)
  }

  /** main's sensor loop: reads sensors 0 to n - 1 in turn, one request each. */
  method ReadTemps(cl: CorsairLink, intf: int, n: nat, replies: seq<Reply>) returns (temps: seq<u16>)
    requires cl.handle.Some? && cl.maxMsReadWait == DefaultReadWait && (intf == CLINK ==> n <= |TempIndxToPort|)
    modifies cl
    ensures cl.handle == old(cl.handle) && cl.maxMsReadWait == DefaultReadWait
    ensures cl.commandId == old(cl.commandId) + (if intf == CLINK then n else 2 * n)
    ensures |temps| == n && forall i :: 0 <= i < n ==> temps[i] == TempShown(cl.build, intf, replies, i)
  {
    temps := [];
    var i := 0;
    while i < n
      invariant 0 <= i <= n && |temps| == i
      invariant cl.handle == old(cl.handle) && cl.maxMsReadWait == DefaultReadWait
      invariant cl.commandId == old(cl.commandId) + (if intf == CLINK then i else 2 * i)
      invariant forall j :: 0 <= j < i ==> temps[j] == TempShown(cl.build, intf, replies, j)
    {
      var temp := ReadTempInfo(cl, intf, i, ReplyAt(replies, i));
      temps := temps + [temp];
      i := i + 1;
    }
  }

  /**
   * The query branch of main: reads the sensor count, every sensor in turn (their values are
   * what main prints) and then every fan.
   */
  method ShowAll(cl: CorsairLink, intf: int, dev: Device) returns (temps: seq<u16>)
    requires cl.Valid() && cl.handle.Some? && cl.commandId == 0x82 && cl.maxMsReadWait == DefaultReadWait
    modifies cl, cl.fans
    ensures cl.handle == old(cl.handle)
    ensures |temps| == SensorsSeen(cl.build, intf, dev.count)
    ensures forall i :: 0 <= i < |temps| ==> temps[i] == TempShown(cl.build, intf, dev.temps, i)
    ensures forall i :: 0 <= i < NUMFANS ==>
      cl.fans[i] == StoredFan(cl.build, DefaultReadWait, VariantOf(intf), QueryFanBase(cl.build, intf, dev.count), dev.fans, i)
  {
    var numTsen := ConnectedTemps(cl, intf, dev.count);
    assert numTsen == SensorsSeen(cl.build, intf, dev.count);
    temps := ReadTemps(cl, intf, numTsen, dev.temps);
    assert cl.commandId == QueryFanBase(cl.build, intf, dev.count);
    ReadFansInfo(cl, intf, dev.fans);
  }

  /**
   * main, from the options to the exit status. The link object is the program's global
   * link; `stack` is what the uninitialised fan record holds.
   */
  method Run(cl: CorsairLink, opts: seq<Opt>, dev: Device, stack: FanInfo) returns (code: int, temps: seq<u16>)
    requires cl.Valid()
    modifies cl, cl.fans
    ensures var p := ParseFrom(opts, 0, Defaults, 0);
      && (p.Exit? ==> code == p.code && cl.written == old(cl.written))
      && (p.Parsed? && p.rc != 0 ==> code == 1 && cl.written == old(cl.written))
      && (p.Parsed? && p.rc == 0 && !Opens(cl.build, p.settings.intf, dev) ==> code == 1)
    ensures var p := ParseFrom(opts, 0, Defaults, 0); p.Parsed? && p.rc == 0 ==> InRange(p.settings)
    ensures var p := ParseFrom(opts, 0, Defaults, 0);
      p.Parsed? && p.rc == 0 && Opens(cl.build, p.settings.intf, dev) ==>
        var s := p.settings;
        && (Dispatch(s) == Reject ==> code == 1 && cl.written == old(cl.written) + [IdentifyFrame(s.intf)])
        && (Dispatch(s) == SetFan ==>
              && code == 0 && cl.handle == None
              && cl.written == old(cl.written) + [IdentifyFrame(s.intf)]
                 + SetSpec(cl.build, DefaultReadWait, s.intf, s.fanNumber - 1, FanRequest(cl.build, s, stack), 0x82, dev.setMode, dev.setRpm).frames)
        && (Dispatch(s) == Query ==>
              && code == 0 && cl.handle == None
              && |temps| == SensorsSeen(cl.build, s.intf, dev.count)
              && (forall i :: 0 <= i < |temps| ==> temps[i] == TempShown(cl.build, s.intf, dev.temps, i))
              && forall i :: 0 <= i < NUMFANS ==>
                   cl.fans[i] == StoredFan(cl.build, DefaultReadWait, VariantOf(s.intf), QueryFanBase(cl.build, s.intf, dev.count), dev.fans, i))
  {
    temps := [];
    var p := ParseArguments(opts, Defaults);
    if p.Exit? {
      return p.code, temps;
    }
    if p.rc != 0 {
      return 1, temps;
    }
    var s := p.settings;
    ParsedInRange(opts, s);
    var ok := CorsairLinkInit(cl, s.intf, dev.initOk, dev.openOk, dev.identify);
    if ok != 1 {
      return 1, temps;
    }
    match Dispatch(s) {
      case Reject =>
        return 1, temps;
      case SetFan =>
        var fanInfo := FanRequest(cl.build, s, stack);
        var rc := SetFansInfo(cl, s.intf, s.fanNumber - 1, fanInfo, dev.setMode, dev.setRpm);
      case Query =>
        temps := ShowAll(cl, s.intf, dev);
    }
    Close(cl);
    return 0, temps;
  }

  /**
   * As written, a mode given without an RPM sends an RPM request as well whenever the
   * uninitialised record holds a nonzero RPM: on the Cooling Node, whose answers are not
   * checked, a device that never answers receives both requests. Corrected, only the mode
   * request goes out.
   */
  lemma StackRpmSent(build: Build, s: Settings, stack: FanInfo)
    requires s.intf == CLINK && 1 <= s.fanNumber <= 4 && CliMode(s.fanMode) && s.fanRpm == 0 && stack.rpm != 0
    ensures |SetSpec(build, DefaultReadWait, s.intf, s.fanNumber - 1, FanRequest(build, s, stack), 0x82, Silent, Silent).frames|
      == if build == AsWritten then 2 else 1
  {
    CliModesAreFanModes(s.fanMode);
    SilentRead(build, ModeSetRequest(V1, 0x82, s.fanNumber - 1, s.fanMode));
    SilentRead(build, RpmSetRequest(build, V1, 0x82 + SetIds(V1), s.fanNumber - 1, stack.rpm));
  }

  /**
   * Corrected, the record main hands to SetFansInfo carries only what the command line
   * gave: an RPM request goes out only for -r, and without -m SetFansInfo refuses the
   * record and sends nothing.
   */
  lemma RequestFollowsOptions(s: Settings, stack: FanInfo, c: int, dev: Device)
    requires s.intf == CLINK ==> 1 <= s.fanNumber <= 4
    ensures var o := SetSpec(Corrected, DefaultReadWait, s.intf, s.fanNumber - 1, FanRequest(Corrected, s, stack), c, dev.setMode, dev.setRpm);
      && (|o.frames| == 2 ==> s.fanRpm != 0)
      && (s.fanMode == 0 ==> o.rc == 1 && o.frames == [])
  {
    var f := FanRequest(Corrected, s, stack);
    SetSpecFrames(Corrected, DefaultReadWait, s.intf, s.fanNumber - 1, f, c, dev.setMode, dev.setRpm);
    assert s.fanMode == 0 ==> !IsFanMode(f.mode);
  }

  /** As written, without -m the mode SetFansInfo tests is whatever the uninitialised record holds. */
  lemma StackModeUsed(s: Settings, stack: FanInfo)
    requires s.fanMode == 0
    ensures FanRequest(AsWritten, s, stack).mode == stack.mode
    ensures FanRequest(Corrected, s, stack).mode == Unset
  {
  }
}
