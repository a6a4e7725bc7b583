/** The longitudinal vehicle plant in truncating 32-bit fixed-point arithmetic. */
module VehiclePlant {
  import opened Ints
  import opened Monotone
  import opened Wrappers

  const I32_MAX := 0x7FFF_FFFF

  function AsI32(x: u32): i32 { if x <= I32_MAX then x else x - WRAP }

  function AsU16(x: int): u16 { x % 0x1_0000 }

  // ----- one tick -----

  /** The speed before the narrowing cast, in 0.1 km/h. */
  function RawSpeed(speed: u16, torque: i8, dt: i32): int {
    Max(speed + TruncDiv(torque * dt, 100) - TruncDiv(speed * dt, 10000), 0)
  }

  /** Neither 32-bit product of the tick overflows. */
  predicate ProductsFit(speed: u16, torque: i8, dt: i32) { FitsI32(torque * dt) && FitsI32(speed * dt) }

  function Stepped(speed: u16, torque: i8, dtMs: u32): Option<u16> {
    var dt := AsI32(dtMs);
    if ProductsFit(speed, torque, dt) then Some(AsU16(RawSpeed(speed, torque, dt))) else None
  }

  datatype Car = Car(speed: u16, throttle: u8, brake: bool, torque: i8, plugged: bool)

  const REST := Car(0, 0, false, 0, false)

  /** The brake always wins. */
  function Acting(c: Car): i8 { if c.brake then 0 else c.torque }

  datatype Event = Input(throttle: u8, brake: bool) | Torque(torque: i8) | Pass(dt: u32)

  /** The car after a call, or nothing where the source's arithmetic overflows. */
  function After(c: Car, e: Event): Option<Car> {
    match e
    case Input(throttle, brake) => Some(c.(throttle := throttle, brake := brake))
    case Torque(torque) => Some(c.(torque := torque))
    case Pass(dt) =>
      var next := Stepped(c.speed, Acting(c), dt);
      if next.None? then None else Some(c.(speed := next.value))
  }

  class Plant {
    var speedKphX10: u16
    var throttlePercent: u8
    var brakePressed: bool
    var motorTorquePercent: i8
    var chargerPlugged: bool

    function View(): Car
      reads this
    {
      Car(speedKphX10, throttlePercent, brakePressed, motorTorquePercent, chargerPlugged)
    }

    constructor ()
      ensures View() == REST
    {
      speedKphX10, throttlePercent, brakePressed, motorTorquePercent, chargerPlugged := 0, 0, false, 0, false;
    }

    method SetDriverInput(throttle: u8, brake: bool)
      modifies this
      ensures Some(View()) == After(old(View()), Input(throttle, brake))
    {
      throttlePercent, brakePressed := throttle, brake;
    }

    method SetMotorTorque(torque: i8)
      modifies this
      ensures Some(View()) == After(old(View()), Torque(torque))
    {
      motorTorquePercent := torque;
    }

    /** `ok` is false where the arithmetic overflows; nothing changes then. */
    method Step(dtMs: u32) returns (ok: bool)
      modifies this`speedKphX10
      ensures After(old(View()), Pass(dtMs)) == if ok then Some(View()) else None
      ensures !ok ==> View() == old(View())
    {
      var effective: i8 := if brakePressed then 0 else motorTorquePercent;
      var dt := AsI32(dtMs);
      var push := effective * dt;
      var pull := speedKphX10 * dt;
      if !FitsI32(push) || !FitsI32(pull) { return false; }
      var delta := TruncDiv(push, 100);
      var drag := TruncDiv(pull, 10000);
      var next := speedKphX10 + delta - drag;
      if next < 0 { next := 0; }
      speedKphX10 := AsU16(next);
      ok := true;
    }
  }

  // ----- runs -----

  /** The torque that acts in a tick, and its length. */
  datatype Tick = Tick(torque: i8, dt: u32)

  /** The speed at rest followed by these ticks, or nothing if a product overflowed or the cast wrapped on the way. */
  function ExactRun(ticks: seq<Tick>): Option<u16> {
    if ticks == [] then Some(0)
    else
      var front, k := ExactRun(ticks[..|ticks| - 1]), ticks[|ticks| - 1];
      if front.None? then None
      else
        var next := Stepped(front.value, k.torque, k.dt);
        if next.Some? && next.value == RawSpeed(front.value, k.torque, AsI32(k.dt)) then next else None
  }

  ghost predicate TicksUpTo(ticks: seq<Tick>, limit: nat) {
    forall i :: 0 <= i < |ticks| ==> ticks[i].dt <= limit
  }

  /** The highest speed ticks of at most this length can reach: the torque/drag equilibrium, or one long tick from rest. */
  function TopSpeed(limit: nat): int { Max(12700, 127 * limit / 100) }

  /** The most a tick can gain, and what drag takes. */
  function Gain(dt: nat): nat { 127 * dt / 100 }

  function Drag(v: nat, dt: nat): int { v * dt / 10000 }

  lemma TorqueBound(torque: i8, dt: nat)
    ensures TruncDiv(torque * dt, 100) <= Gain(dt)
  {
    if torque > 0 {
      MulMono(torque, 127, dt);
      DivMono(torque * dt, 127 * dt, 100);
    } else {
      assert torque * dt <= 0;
    }
  }

  /** Above the equilibrium drag outweighs any torque. */
  lemma DragWins(v: nat, dt: nat)
    requires v >= 12700
    ensures Drag(v, dt) >= Gain(dt)
  {
    MulMono(12700, v, dt);
    DivMono(12700 * dt, v * dt, 10000);
    assert 12700 * dt / 10000 == 127 * dt / 100;
  }

  /** Below it, a tick of up to ten seconds cannot overshoot the equilibrium. */
  lemma NoOvershoot(v: nat, dt: nat)
    requires v < 12700 && dt <= 10000
    ensures v + Gain(dt) - Drag(v, dt) <= 12700
  {
    var k := 12700 - v;
    assert 12700 * dt == v * dt + k * dt;
    MulMono(dt, 10000, k);
    assert k * dt <= 10000 * k;
    CeilGap(v * dt, k * dt, k);
    assert 12700 * dt / 10000 == 127 * dt / 100;
  }

  lemma CeilGap(a: nat, b: nat, k: nat)
    requires b <= 10000 * k
    ensures (a + b) / 10000 <= a / 10000 + k
  {
    DivMono(a + b, a + 10000 * k, 10000);
    assert (a + 10000 * k) / 10000 == a / 10000 + k;
  }

  /** A longer tick sheds at least the whole speed. */
  lemma LongTickSheds(v: nat, dt: nat)
    requires dt >= 10000
    ensures Drag(v, dt) >= v
  {
    MulMono(10000, dt, v);
    DivMono(v * 10000, v * dt, 10000);
  }

  lemma TickStaysBelowTop(v: u16, torque: i8, dt: nat, limit: nat)
    requires v <= TopSpeed(limit) && dt <= limit && dt <= I32_MAX
    ensures 0 <= RawSpeed(v, torque, dt) <= TopSpeed(limit)
  {
    hide TopSpeed, RawSpeed, Gain, Drag;
    RawSpeedBound(v, torque, dt);
    TopIsAtLeast(limit, dt);
    if v >= 12700 {
      DragWins(v, dt);
    } else if dt <= 10000 {
      NoOvershoot(v, dt);
    } else {
      LongTickSheds(v, dt);
    }
  }

  lemma RawSpeedBound(v: u16, torque: i8, dt: nat)
    requires dt <= I32_MAX
    ensures 0 <= RawSpeed(v, torque, dt) <= Max(v + Gain(dt) - Drag(v, dt), 0)
  {
    hide TruncDiv;
    TorqueBound(torque, dt);
    assert TruncDiv(v * dt, 10000) == Drag(v, dt) by {
      assert v * dt >= 0;
      Truncates(v * dt);
    }
    hide Drag;
  }

  lemma Truncates(a: nat)
    ensures TruncDiv(a, 10000) == a / 10000
  {
  }

  lemma TopIsAtLeast(limit: nat, dt: nat)
    requires dt <= limit
    ensures TopSpeed(limit) >= 12700 && TopSpeed(limit) >= Gain(dt)
  {
    DivMono(127 * dt, 127 * limit, 100);
  }

  /** The longest tick for which no run can go wrong. */
  const LONGEST := 41121

  lemma TopFits(limit: nat)
    requires limit <= LONGEST
    ensures TopSpeed(limit) <= 52223
  {
    DivMono(127 * limit, 127 * LONGEST, 100);
  }

  lemma ProductsFitBelowTop(v: u16, torque: i8, dt: nat)
    requires v <= 52223 && dt <= LONGEST
    ensures ProductsFit(v, torque, dt)
  {
    MulMono(v, 52223, dt);
    MulMono(0, v, dt);
    MulMono(-128, torque, dt);
    MulMono(torque, 127, dt);
  }

  lemma CastOfSmall(x: int)
    requires 0 <= x < 0x1_0000
    ensures AsU16(x) == x
  {
  }

  /** Ticks up to the limit: every run is exact and the speed stays between rest and the top speed. */
  lemma {:induction false} RunsStayExact(ticks: seq<Tick>, limit: nat)
    requires limit <= LONGEST && TicksUpTo(ticks, limit)
    ensures ExactRun(ticks).Some? && ExactRun(ticks).value <= TopSpeed(limit)
  {
    if ticks != [] {
      var n := |ticks| - 1;
      RunsStayExact(ticks[..n], limit);
      var v, k := ExactRun(ticks[..n]).value, ticks[n];
      assert AsI32(k.dt) == k.dt;
      hide TopSpeed, RawSpeed, ProductsFit, AsU16, AsI32;
      TopFits(limit);
      TickStaysBelowTop(v, k.torque, k.dt, limit);
      ProductsFitBelowTop(v, k.torque, k.dt);
      CastOfSmall(RawSpeed(v, k.torque, k.dt));
    }
  }

  /** One millisecond more, and two full-torque ticks from rest overflow a 32-bit product. */
  lemma LongerTickOverflows(limit: nat)
    requires LONGEST < limit
    ensures exists ticks :: TicksUpTo(ticks, limit) && ExactRun(ticks) == None
  {
    var k := Tick(127, LONGEST + 1);
    var ticks := [k, k];
    assert ticks[..1] == [k] && [k][..0] == [];
    assert ExactRun([k]) == Some(52224);
    assert !FitsI32(52224 * 41122);
    assert ExactRun(ticks) == None;
  }

  /** No run of ticks up to `limit` ms overflows or wraps if and only if `limit` is at most 41121. */
  lemma ExactForAllRunsIff(limit: nat)
    ensures (forall ticks :: TicksUpTo(ticks, limit) ==> ExactRun(ticks).Some?) <==> limit <= LONGEST
  {
    if limit <= LONGEST {
      forall ticks | TicksUpTo(ticks, limit)
        ensures ExactRun(ticks).Some?
      {
        RunsStayExact(ticks, limit);
      }
    } else {
      LongerTickOverflows(limit);
    }
  }

  // ----- the balance of torque and drag -----

  lemma TruncationIsSmall(a: int, b: int)
    requires b > 0
    ensures -b < b * TruncDiv(a, b) - a < b
  {
    var q := (if a >= 0 then a else -a) / b;
    assert b * q == q * b;
  }

  /**
    * A tick changes the speed, in tenths of km/h, by a hundredth of torque times tick less a
    * ten-thousandth of speed times tick, to within one unit each; only standing still cuts it off.
    */
  lemma SpeedBalance(v: u16, torque: i8, dt: i32)
    ensures var s := RawSpeed(v, torque, dt);
            var exact := 100 * torque * dt - v * dt;
            && s >= 0
            && 10_000 * (s - v) > exact - 20_000
            && (s > 0 ==> 10_000 * (s - v) < exact + 20_000)
  {
    TruncationIsSmall(torque * dt, 100);
    TruncationIsSmall(v * dt, 10000);
    assert 100 * torque * dt == 100 * (torque * dt);
    hide TruncDiv;
  }

  /** The same for every tick of a run, and for the work of all of them while the car moves. */
  function Work(ticks: seq<Tick>): int {
    if ticks == [] then 0
    else
      var front, k := ticks[..|ticks| - 1], ticks[|ticks| - 1];
      Work(front) + if ExactRun(front).None? then 0 else 100 * k.torque * AsI32(k.dt) - ExactRun(front).value * AsI32(k.dt)
  }

  /** The car is never cut off at a standstill. */
  predicate KeepsMoving(ticks: seq<Tick>) {
    ticks == [] || (KeepsMoving(ticks[..|ticks| - 1]) && ExactRun(ticks).Some? && ExactRun(ticks).value > 0)
  }

  lemma {:induction false} SpeedIsWork(ticks: seq<Tick>)
    requires KeepsMoving(ticks)
    ensures ExactRun(ticks).Some?
    ensures -20_000 * |ticks| <= 10_000 * ExactRun(ticks).value - Work(ticks) <= 20_000 * |ticks|
  {
    if ticks != [] {
      var n := |ticks| - 1;
      SpeedIsWork(ticks[..n]);
      SpeedBalance(ExactRun(ticks[..n]).value, ticks[n].torque, AsI32(ticks[n].dt));
      hide RawSpeed, AsI32;
    }
  }

  // ----- histories of all calls -----

  function History(es: seq<Event>): Option<Car> {
    if es == [] then Some(REST)
    else
      var front := History(es[..|es| - 1]);
      if front.None? then None else After(front.value, es[|es| - 1])
  }

  /** Whether the last driver input braked. */
  function LastBrake(es: seq<Event>): bool {
    es != [] && if es[|es| - 1].Input? then es[|es| - 1].brake else LastBrake(es[..|es| - 1])
  }

  function LastThrottle(es: seq<Event>): u8 {
    if es == [] then 0 else if es[|es| - 1].Input? then es[|es| - 1].throttle else LastThrottle(es[..|es| - 1])
  }

  function LastTorque(es: seq<Event>): i8 {
    if es == [] then 0 else if es[|es| - 1].Torque? then es[|es| - 1].torque else LastTorque(es[..|es| - 1])
  }

  /** The ticks of a history, each with the torque that acts in it: the last command, unless the last input brakes. */
  function Ticks(es: seq<Event>): seq<Tick> {
    if es == [] then []
    else
      var front, e := es[..|es| - 1], es[|es| - 1];
      Ticks(front) + if e.Pass? then [Tick(if LastBrake(front) then 0 else LastTorque(front), e.dt)] else []
  }

  ghost predicate PassesUpTo(es: seq<Event>, limit: nat) {
    forall i :: 0 <= i < |es| && es[i].Pass? ==> es[i].dt <= limit
  }

  lemma {:induction false} TicksOfPasses(es: seq<Event>, limit: nat)
    requires PassesUpTo(es, limit)
    ensures TicksUpTo(Ticks(es), limit)
  {
    if es != [] {
      TicksOfPasses(es[..|es| - 1], limit);
    }
  }

  lemma ExactRunLast(ticks: seq<Tick>, k: Tick)
    requires ExactRun(ticks + [k]).Some?
    ensures ExactRun(ticks).Some? && Stepped(ExactRun(ticks).value, k.torque, k.dt) == ExactRun(ticks + [k])
  {
    hide Stepped, RawSpeed;
    assert (ticks + [k])[..|ticks|] == ticks;
  }

  /** Every history of inputs, commands and ticks up to the limit goes through, at the exact speed of its ticks. */
  lemma {:induction false} HistoriesStayExact(es: seq<Event>, limit: nat)
    requires limit <= LONGEST && PassesUpTo(es, limit)
    ensures var c, v := History(es), ExactRun(Ticks(es));
            && c.Some? && v.Some? && c.value.speed == v.value <= TopSpeed(limit)
            && c.value.brake == LastBrake(es) && c.value.torque == LastTorque(es)
            && c.value.throttle == LastThrottle(es) && !c.value.plugged
  {
    TicksOfPasses(es, limit);
    RunsStayExact(Ticks(es), limit);
    hide Stepped, ExactRun, TopSpeed;
    if es == [] {
      AtRest();
    } else {
      var front, e := es[..|es| - 1], es[|es| - 1];
      HistoriesStayExact(front, limit);
      if e.Pass? {
        ExactRunLast(Ticks(front), Tick(if LastBrake(front) then 0 else LastTorque(front), e.dt));
      } else {
        assert Ticks(es) == Ticks(front) + [] == Ticks(front);
      }
    }
  }

  lemma AtRest()
    ensures ExactRun([]) == Some(0)
  {
  }
}
