/** The powertrain ECU: safety clamps, torque controller, frame dispatch, and the BMS limit behind it. */
module Powertrain {
  import opened Ints
  import opened Timeouts
  import V = Vehicle

  const LIMP_MAX: u8 := 25

  /** Keeping the low byte as a signed value. */
  function AsI8(x: u8): i8 { if x < 0x80 then x else x - 0x100 }

  // ----- the two clamp implementations -----

  predicate ModeBlocksTorque(m: V.Mode) { m != V.Drive && m != V.Limp }

  predicate ThrottleInvalid(throttle: u8) { throttle > 100 }

  function LimpTorqueCap(m: V.Mode): u8 { if m == V.Limp then LIMP_MAX else 255 }

  /** firmware/powertrain_ecu: unsigned caps, cast at the end. */
  method SafetyClampTorque(requested: i8, mode: V.Mode, brake: u8, bmsMax: u8) returns (torque: i8)
    ensures torque == Allowed(requested, mode, brake, bmsMax)
  {
    if brake != 0 { return 0; }
    if ModeBlocksTorque(mode) { return 0; }
    var effective: u8 := 100;
    var cap := LimpTorqueCap(mode);
    if cap < effective { effective := cap; }
    if bmsMax < effective { effective := bmsMax; }
    torque := requested;
    if torque < 0 { torque := 0; }
    if torque > AsI8(effective) { torque := AsI8(effective); }
  }

  /** common/: signed caps throughout. */
  method ProtocolClampTorque(requested: i8, mode: V.Mode, brake: u8, bmsMax: u8) returns (torque: i8)
    ensures torque == Allowed(requested, mode, brake, bmsMax)
  {
    if brake != 0 { return 0; }
    if mode != V.Drive && mode != V.Limp { return 0; }
    var modeMax: i8 := 100;
    if mode == V.Limp { modeMax := AsI8(LIMP_MAX); }
    var effective := modeMax;
    if bmsMax < effective { effective := AsI8(bmsMax); }
    torque := requested;
    if torque < 0 { torque := 0; }
    if torque > effective { torque := effective; }
  }

  function MinInt(a: int, b: int): int { if a < b then a else b }

  /** What both promise: nothing while braking or outside DRIVE and LIMP, else the least of request and limits. */
  function Allowed(requested: i8, mode: V.Mode, brake: u8, bmsMax: u8): (t: i8)
    ensures 0 <= t <= 100 && t <= bmsMax && (requested >= 0 ==> t <= requested)
    ensures mode == V.Limp ==> t <= LIMP_MAX
  {
    if brake != 0 || ModeBlocksTorque(mode) || requested < 0 then 0
    else MinInt(requested, MinInt(bmsMax, if mode == V.Limp then LIMP_MAX else 100))
  }

  // ----- the controller and the dispatcher -----

  const HEARTBEAT: u32 := 0x001
  const VEHICLE_MODE: u32 := 0x010
  const DRIVER_INPUT: u32 := 0x020
  const BMS_LIMITS: u32 := 0x201
  const GATEWAY: u8 := 1

  /** A received frame; the payload buffer is always eight bytes. */
  datatype Raw = Raw(id: u32, len: u8, data: seq<u8>)

  type Frame = f: Raw | |f.data| == 8 witness Raw(0, 0, [0, 0, 0, 0, 0, 0, 0, 0])

  datatype Controller = Controller(throttle: u8, brake: u8, gear: u8, mode: V.Mode, limit: u8, torque: i8, enable: bool)

  const IDLE := Controller(0, 0, 0, V.Off, 255, 0, true)

  function Received(c: Controller, f: Frame): Controller {
    if f.id == DRIVER_INPUT then
      c.(throttle := f.data[0], brake := f.data[1], gear := if f.len >= 3 then f.data[2] else 0)
    else if f.id == VEHICLE_MODE then c.(mode := V.ModeOf(f.data[0]))
    else if f.id == BMS_LIMITS then c.(limit := f.data[0])
    else c
  }

  function Computed(c: Controller): Controller {
    if ThrottleInvalid(c.throttle) then c.(torque := 0, enable := false)
    else c.(torque := Allowed(c.throttle, c.mode, c.brake, c.limit), enable := !ModeBlocksTorque(c.mode))
  }

  /** The controller and the watchdog's view of the gateway. */
  datatype Ecu = Ecu(c: Controller, wd: Cell)

  /** Frames, the periodic compute-and-send, and the watchdog timer, stamped with unbounded time. */
  datatype Event = Receive(f: Frame, at: nat) | Send | TimerFires(at: nat)

  predicate IsGatewayBeat(e: Event)
    ensures IsGatewayBeat(e) ==> e.Receive?
  {
    e.Receive? && e.f.id == HEARTBEAT && e.f.data[0] == GATEWAY
  }

  function Step(s: Ecu, e: Event): Ecu {
    match e
    case Receive(f, at) => Ecu(Received(s.c, f), if IsGatewayBeat(e) then Cell(true, at % WRAP) else s.wd)
    case Send => s.(c := Computed(s.c))
    case TimerFires(at) =>
      var wd := AfterCheck(s.wd, at % WRAP, GATEWAY_TIMEOUT_MS);
      Ecu(s.c.(enable := s.c.enable && wd.online), wd)
  }

  class PowertrainEcu {
    var throttlePercent: u8
    var brakePressed: u8
    var gear: u8
    var vehicleMode: V.Mode
    var bmsTorqueLimit: u8
    var outputTorque: i8
    var motorEnable: bool
    const wd: Watchdog

    function View(): Ecu
      reads this, wd
    {
      Ecu(Controller(throttlePercent, brakePressed, gear, vehicleMode, bmsTorqueLimit, outputTorque, motorEnable),
          wd.View())
    }

    constructor ()
      ensures View() == Ecu(IDLE, SILENT) && fresh(wd)
    {
      throttlePercent, brakePressed, gear, vehicleMode := 0, 0, 0, V.Off;
      bmsTorqueLimit, outputTorque, motorEnable := 255, 0, true;
      wd := new Watchdog();
    }

    method DispatchFrame(f: Frame, nowMs: u32)
      modifies this, wd
      ensures View() == Step(old(View()), Receive(f, nowMs))
    {
      if f.id == DRIVER_INPUT {
        throttlePercent, brakePressed := f.data[0], f.data[1];
        gear := if f.len >= 3 then f.data[2] else 0;
      } else if f.id == VEHICLE_MODE {
        vehicleMode := V.ModeOf(f.data[0]);
      } else if f.id == BMS_LIMITS {
        bmsTorqueLimit := f.data[0];
      } else if f.id == HEARTBEAT {
        if f.data[0] == GATEWAY { wd.GatewayBeat(nowMs); }
      }
    }

    method ComputeTorque() returns (torque: i8)
      modifies this
      ensures View() == Step(old(View()), Send) && torque == outputTorque
    {
      if ThrottleInvalid(throttlePercent) {
        outputTorque, motorEnable := 0, false;
        return 0;
      }
      var t := SafetyClampTorque(throttlePercent, vehicleMode, brakePressed, bmsTorqueLimit);
      outputTorque := t;
      motorEnable := !ModeBlocksTorque(vehicleMode);
      torque := outputTorque;
    }

    /** The software timer: a lost gateway clears the enable flag. */
    method WatchdogTimer(nowMs: u32)
      modifies this, wd
      ensures View() == Step(old(View()), TimerFires(nowMs))
    {
      var timedOut := wd.CheckGateway(nowMs);
      if timedOut { motorEnable := false; }
    }
  }

  // ----- every history -----

  function Run(es: seq<Event>): Ecu {
    if es == [] then Ecu(IDLE, SILENT) else Step(Run(es[..|es| - 1]), es[|es| - 1])
  }

  /** Byte i of the last frame with this id, or a default if none has come. */
  function LastByte(es: seq<Event>, id: u32, i: nat, default: u8): u8
    requires i < 8
  {
    if es == [] then default
    else if es[|es| - 1].Receive? && es[|es| - 1].f.id == id then es[|es| - 1].f.data[i]
    else LastByte(es[..|es| - 1], id, i, default)
  }

  /** The third byte of the last driver frame, if that frame had one. */
  function LastGear(es: seq<Event>): u8 {
    if es == [] then 0
    else
      var e := es[|es| - 1];
      if e.Receive? && e.f.id == DRIVER_INPUT then (if e.f.len < 3 then 0 else e.f.data[2]) else LastGear(es[..|es| - 1])
  }

  lemma {:induction false} InputsAreTheLastFrames(es: seq<Event>)
    ensures var c := Run(es).c;
            && c.throttle == LastByte(es, DRIVER_INPUT, 0, 0) && c.brake == LastByte(es, DRIVER_INPUT, 1, 0)
            && c.mode == V.ModeOf(LastByte(es, VEHICLE_MODE, 0, 0)) && c.limit == LastByte(es, BMS_LIMITS, 0, 255)
            && c.gear == LastGear(es)
  {
    if es != [] {
      InputsAreTheLastFrames(es[..|es| - 1]);
    }
  }

  /**
    * Every motor command sent, whatever came before: torque is the least of throttle, BMS limit and
    * the mode's cap if driving is allowed and the brake is up, and 0 otherwise; the motor is enabled
    * exactly in DRIVE or LIMP with a valid throttle.
    */
  lemma MotorCommand(es: seq<Event>)
    ensures var c := Run(es + [Send]).c;
            var throttle, brake := LastByte(es, DRIVER_INPUT, 0, 0), LastByte(es, DRIVER_INPUT, 1, 0);
            var mode, limit := V.ModeOf(LastByte(es, VEHICLE_MODE, 0, 0)), LastByte(es, BMS_LIMITS, 0, 255);
            && (c.enable <==> (mode == V.Drive || mode == V.Limp) && throttle <= 100)
            && c.torque == (if c.enable && brake == 0
                            then MinInt(throttle, MinInt(limit, if mode == V.Limp then 25 else 100)) else 0)
            && 0 <= c.torque <= 100 && c.torque <= limit && c.torque <= throttle && (mode == V.Limp ==> c.torque <= 25)
  {
    assert (es + [Send])[..|es|] == es;
    InputsAreTheLastFrames(es);
  }

  // ----- S4: a lost gateway -----

  /** What the watchdog sees of a history: gateway heartbeats and timer checks. */
  function Signals(es: seq<Event>): seq<Signal> {
    if es == [] then []
    else
      var e := es[|es| - 1];
      Signals(es[..|es| - 1])
      + if e.TimerFires? then [Check(e.at)] else if IsGatewayBeat(e) then [Beat(e.at)] else []
  }

  lemma {:induction false} WatchdogIsItsCell(es: seq<Event>)
    ensures Run(es).wd == Watch(Signals(es), GATEWAY_TIMEOUT_MS)
  {
    if es != [] {
      hide Received, Computed, IsGatewayBeat, Watch;
      var front, e := es[..|es| - 1], es[|es| - 1];
      WatchdogIsItsCell(front);
      if e.TimerFires? {
        WatchLast(Signals(front), Check(e.at), GATEWAY_TIMEOUT_MS);
      } else if IsGatewayBeat(e) {
        WatchLast(Signals(front), Beat(e.at), GATEWAY_TIMEOUT_MS);
      } else {
        assert Signals(es) == Signals(front) + [] == Signals(front);
      }
    }
  }

  lemma AfterLast(es: seq<Event>, e: Event)
    ensures Run(es + [e]) == Step(Run(es), e)
  {
    assert (es + [e])[..|es|] == es;
  }

  lemma SignalsOfTimer(es: seq<Event>, at: nat)
    ensures Signals(es + [TimerFires(at)]) == Signals(es) + [Check(at)]
  {
    assert (es + [TimerFires(at)])[..|es|] == es;
  }

  /** In real time: a timer check leaves the motor enabled only if a gateway heartbeat is less than 250 ms old. */
  lemma TimerSeesLostGateway(es: seq<Event>, at: nat)
    requires Timely(Signals(es + [TimerFires(at)]), GATEWAY_TIMEOUT_MS)
    ensures var s := Run(es + [TimerFires(at)]);
            && (s.wd.online <==> Alive(Signals(es), at, GATEWAY_TIMEOUT_MS))
            && (s.c.enable <==> Run(es).c.enable && Alive(Signals(es), at, GATEWAY_TIMEOUT_MS))
  {
    AfterLast(es, TimerFires(at));
    SignalsOfTimer(es, at);
    WatchdogIsItsCell(es + [TimerFires(at)]);
    OnlineIsAlive(Signals(es), at, GATEWAY_TIMEOUT_MS);
  }

  /**
    * The documented rule S4 wants torque off once the gateway is lost. The timer clears the enable
    * flag, but the next compute sets it again: with the gateway silent for 250 ms or more, the command
    * sent is disabled exactly if it would be anyway, by mode or throttle.
    */
  lemma TimerDoesNotStopTorque(es: seq<Event>, at: nat)
    requires Timely(Signals(es + [TimerFires(at)]), GATEWAY_TIMEOUT_MS)
    requires !Alive(Signals(es), at, GATEWAY_TIMEOUT_MS)
    ensures var lost := Run(es + [TimerFires(at)]);
            var sent := Run(es + [TimerFires(at)] + [Send]);
            && !lost.wd.online && !lost.c.enable && !sent.wd.online
            && sent.c == Run(es + [Send]).c
            && (!sent.c.enable <==>
                ModeBlocksTorque(V.ModeOf(LastByte(es, VEHICLE_MODE, 0, 0))) || LastByte(es, DRIVER_INPUT, 0, 0) > 100)
  {
    TimerSeesLostGateway(es, at);
    var ts := es + [TimerFires(at)];
    AfterLast(es, TimerFires(at));
    AfterLast(ts, Send);
    AfterLast(es, Send);
    MotorCommand(es);
    hide MinInt, Alive, Timely, Run, LastByte;
  }

  function ModeFrame(mode: u8): Frame { Raw(VEHICLE_MODE, 2, [mode, 0, 0, 0, 0, 0, 0, 0]) }

  function DriverFrame(throttle: u8, brake: u8): Frame { Raw(DRIVER_INPUT, 3, [throttle, brake, 0, 0, 0, 0, 0, 0]) }

  function BeatFrame(): Frame { Raw(HEARTBEAT, 5, [GATEWAY, 0, 0, 0, 0, 0, 0, 0]) }

  /** A gateway heard once, then silent for any 250 ms or more (within the clock's range); the motor is still driven at half throttle. */
  lemma TorqueWithoutGateway(at: nat)
    requires 250 <= at <= WRAP - 250
    ensures var es := [Receive(BeatFrame(), 0), Receive(ModeFrame(2), 0), Receive(DriverFrame(50, 0), 0)] + [TimerFires(at)] + [Send];
            var s := Run(es);
            !s.wd.online && s.c.enable && s.c.torque == 50
  {
    var b, m, d := Receive(BeatFrame(), 0), Receive(ModeFrame(2), 0), Receive(DriverFrame(50, 0), 0);
    var es := [b, m, d];
    assert es[..2] == [b, m] && [b, m][..1] == [b] && [b][..0] == [];
    AfterLast(es, TimerFires(at));
    AfterLast(es + [TimerFires(at)], Send);
    assert Run([b]) == Ecu(IDLE, Cell(true, 0));
    assert Run(es) == Ecu(IDLE.(throttle := 50, mode := V.Drive), Cell(true, 0));
  }

  // ----- the limit the BMS sends -----

  datatype BmsState = BmsOk | WarnHot | LimpRequest | CriticalFault | Unnamed(code: u8)

  function DetermineState(temp: i16): BmsState {
    if temp >= 900 then CriticalFault else if temp >= 750 then LimpRequest else if temp >= 600 then WarnHot else BmsOk
  }

  class BmsLimits {
    var maxTorquePercent: u8
    var reason: u8

    constructor ()
      ensures maxTorquePercent == 255 && reason == 0
    {
      maxTorquePercent, reason := 255, 0;
    }

    method Compute(s: BmsState) returns (limit: u8)
      modifies this
      ensures limit == maxTorquePercent == Limit(s) && reason == Reason(s)
    {
      match s {
        case BmsOk => maxTorquePercent, reason := 255, 0;
        case WarnHot => maxTorquePercent, reason := 255, 1;
        case LimpRequest => maxTorquePercent, reason := LIMP_MAX, 2;
        case CriticalFault => maxTorquePercent, reason := 0, 3;
        case Unnamed(_) => maxTorquePercent, reason := 255, 0;
      }
      limit := maxTorquePercent;
    }
  }

  function Limit(s: BmsState): u8 {
    match s case BmsOk => 255 case WarnHot => 255 case LimpRequest => LIMP_MAX case CriticalFault => 0 case Unnamed(_) => 255
  }

  function Reason(s: BmsState): u8 {
    match s case BmsOk => 0 case WarnHot => 1 case LimpRequest => 2 case CriticalFault => 3 case Unnamed(_) => 0
  }

  /** The bands of the pack temperature, in tenths of a degree, by the limit and the reason sent. */
  lemma TemperatureBands(temp: i16)
    ensures var s := DetermineState(temp);
            && (Reason(s) == 0 <==> temp < 600) && (Reason(s) == 1 <==> 600 <= temp < 750)
            && (Reason(s) == 2 <==> 750 <= temp < 900) && (Reason(s) == 3 <==> temp >= 900)
            && (Limit(s) == 255 <==> temp < 750) && (Limit(s) == 25 <==> 750 <= temp < 900)
            && (Limit(s) == 0 <==> temp >= 900)
  {
  }

  /** The documented bands, which end at 60.0 and 90.0 degrees inclusive. */
  function DocumentedState(temp: i16): BmsState {
    if temp > 900 then CriticalFault else if temp >= 750 then LimpRequest else if temp > 600 then WarnHot else BmsOk
  }

  /** Code and table differ at exactly two temperatures, and there the code is the stricter one. */
  lemma BandsDifferExactly(temp: i16)
    ensures DetermineState(temp) == DocumentedState(temp) <==> temp != 600 && temp != 900
    ensures Limit(DetermineState(temp)) <= Limit(DocumentedState(temp))
  {
  }

  /** From pack temperature to motor: 75.0 degrees or more leaves at most 25 %, 90.0 or more nothing, in every mode and history. */
  lemma HotPackLimitsTorque(es: seq<Event>, temp: i16)
    requires LastByte(es, BMS_LIMITS, 0, 255) == Limit(DetermineState(temp))
    ensures var t := Run(es + [Send]).c.torque;
            (temp >= 750 ==> t <= 25) && (temp >= 900 ==> t == 0)
  {
    MotorCommand(es);
  }

  /** Cooler than 75.0 degrees the BMS never limits: the torque is what it would be without it. */
  lemma CoolPackIsNoLimit(es: seq<Event>, temp: i16)
    requires LastByte(es, BMS_LIMITS, 0, 255) == Limit(DetermineState(temp)) && temp < 750
    ensures var mode := V.ModeOf(LastByte(es, VEHICLE_MODE, 0, 0));
            var throttle := LastByte(es, DRIVER_INPUT, 0, 0);
            mode == V.Drive && throttle <= 100 && LastByte(es, DRIVER_INPUT, 1, 0) == 0 ==>
            Run(es + [Send]).c.torque == throttle
  {
    MotorCommand(es);
  }
}
