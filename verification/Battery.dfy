/** The battery plant: state of charge, temperature and voltage in fixed-point arithmetic. */
module Battery {
  import opened Ints
  import opened Monotone
  import opened Wrappers

  function AsI16(x: int): i16 { (x + 0x8000) % 0x1_0000 - 0x8000 }

  function Clamp(x: int, lo: int, hi: int): int
    requires lo <= hi
  {
    if x < lo then lo else if x > hi then hi else x
  }

  /** The divisor the code writes as 3600 times a capacity of 50000 mAh. */
  const DIVISOR := 180_000_000

  /** Milli-percent of charge a current moves in a tick, truncated toward zero. */
  function Moved(currentMa: int, dt: nat): int { TruncDiv(currentMa * dt * 1000, DIVISOR) }

  /** What one milli-percent is worth in the code, in mA ms; that of a 5 Ah pack. */
  const UNIT := 180_000

  /** The derivation beside the code: 50 Ah, so 1800000 mA ms to a milli-percent. */
  const DOCUMENTED_UNIT := 1_800_000

  function Documented(currentMa: int, dt: nat): int { TruncDiv(currentMa * dt, DOCUMENTED_UNIT) }

  lemma MovedInUnits(currentMa: int, dt: nat)
    ensures Moved(currentMa, dt) == TruncDiv(currentMa * dt, UNIT)
  {
    var a := currentMa * dt;
    assert currentMa * dt * 1000 == 1000 * a;
    hide Moved;
    assert TruncDiv(1000 * a, DIVISOR) == TruncDiv(a, UNIT);
    MovedIs(currentMa, dt);
  }

  lemma MovedIs(currentMa: int, dt: nat)
    ensures Moved(currentMa, dt) == TruncDiv(currentMa * dt * 1000, DIVISOR)
  {
  }

  /** The code moves the documented charge exactly in ticks too small to move any; else about ten times as much. */
  lemma DocumentedExactly(currentMa: int, dt: nat)
    ensures Moved(currentMa, dt) == Documented(currentMa, dt) <==> -UNIT < currentMa * dt < UNIT
    ensures 10 * Abs(Documented(currentMa, dt)) <= Abs(Moved(currentMa, dt)) <= 10 * Abs(Documented(currentMa, dt)) + 9
  {
    MovedInUnits(currentMa, dt);
    var a := currentMa * dt;
    hide Moved;
    TenfoldOf(a);
  }

  lemma TenfoldOf(a: int)
    ensures TruncDiv(a, UNIT) == TruncDiv(a, DOCUMENTED_UNIT) <==> -UNIT < a < UNIT
    ensures 10 * Abs(TruncDiv(a, DOCUMENTED_UNIT)) <= Abs(TruncDiv(a, UNIT)) <= 10 * Abs(TruncDiv(a, DOCUMENTED_UNIT)) + 9
  {
  }

  /** 50 A for ten seconds: the code takes 2777 milli-percent where 50 Ah would lose 277. */
  lemma TenfoldTick()
    ensures Moved(50_000, 10_000) == 2777 && Documented(50_000, 10_000) == 277
  {
  }

  function Percent(socMilli: nat): u8 {
    var p := (socMilli + 500) / 1000;
    if p > 100 then 100 else p
  }

  /** The percentage is the charge rounded to the nearest whole one, and 100 for any more. */
  lemma PercentRounds(socMilli: nat)
    ensures Percent(socMilli) <= 100
    ensures socMilli <= 100_000 ==> -500 <= 1000 * Percent(socMilli) - socMilli <= 500
    ensures socMilli >= 99_500 ==> Percent(socMilli) == 100
  {
  }

  /** Temperature in 0.1 degrees before the narrowing cast. */
  function RawTemp(temp: int, amps: nat, dt: nat): int {
    Max(temp + amps * amps * dt / 25000 - Max(temp - 250, 0) * dt / 100000, 200)
  }

  function Voltage(percent: u8, currentMa: int): u16 {
    var sag := Abs(currentMa) / 10;
    var v := 48000 * percent / 100;
    (if v > sag then v - sag else 0) % 0x1_0000
  }

  /** The voltage cast is exact; more charge never lowers the voltage and more current, either way, never raises it. */
  lemma VoltageFollowsLoad(p: u8, q: u8, a: int, b: int)
    requires p <= q <= 100 && Abs(a) >= Abs(b)
    ensures Voltage(p, a) <= Voltage(q, b) <= 48000
    ensures Voltage(q, 0) == 480 * q
    ensures Voltage(q, b) == Max(480 * q - Abs(b) / 10, 0)
  {
    VoltageIs(p, a);
    VoltageIs(q, b);
    VoltageIs(q, 0);
    hide Voltage;
  }

  lemma VoltageIs(q: u8, b: int)
    requires q <= 100
    ensures Voltage(q, b) == Max(480 * q - Abs(b) / 10, 0)
  {
    assert 48000 * q / 100 == 480 * q;
  }

  datatype Pack = Pack(socMilli: int, percent: u8, temp: i16, voltage: u16, currentMa: i32)

  const FACTORY := Pack(80_000, 80, 250, 48000, 0)

  /** A tick driven by motor torque; the charge only falls. */
  function Driven(p: Pack, torque: i8, dt: u32): Pack {
    var current := Abs(torque) * 500;
    var soc := Max(p.socMilli - Moved(current, dt), 0);
    Pack(soc, Percent(soc), AsI16(RawTemp(p.temp, current / 1000, dt)), Voltage(Percent(soc), current), current)
  }

  /** A tick with an explicit current; negative charges. */
  function Fed(p: Pack, currentMa: i32, dt: u32): Pack {
    var soc := Clamp(p.socMilli - Moved(currentMa, dt), 0, 100_000);
    Pack(soc, Percent(soc), AsI16(RawTemp(p.temp, Abs(currentMa) / 1000, dt)), Voltage(Percent(soc), currentMa), currentMa)
  }

  predicate FeedFits(currentMa: i32, dt: u32) {
    var amps := Abs(currentMa) / 1000;
    FitsI64(currentMa * dt * 1000) && FitsI64(amps * amps * dt)
  }

  function FedStep(p: Pack, currentMa: i32, dt: u32): Option<Pack> {
    if FeedFits(currentMa, dt) then Some(Fed(p, currentMa, dt)) else None
  }

  class BatteryModel {
    var socPercent: u8
    var socMilli: int
    var tempCX10: i16
    var voltageMv: u16
    var currentMa: i32

    function View(): Pack
      reads this
    {
      Pack(socMilli, socPercent, tempCX10, voltageMv, currentMa)
    }

    constructor ()
      ensures View() == FACTORY
    {
      socPercent, socMilli, tempCX10, voltageMv, currentMa := 80, 80_000, 250, 48000, 0;
    }

    method CalcVoltage() returns (v: u16)
      ensures v == Voltage(socPercent, currentMa)
    {
      var sag := Abs(currentMa) / 10;
      var open := 48000 * socPercent / 100;
      var left := if open > sag then open - sag else 0;
      v := left % 0x1_0000;
    }

    method Warm(amps: nat, dt: u32)
      modifies this`tempCX10
      ensures tempCX10 == AsI16(RawTemp(old(tempCX10), amps, dt))
    {
      var heatRise := amps * amps * dt / 25000;
      var above := if tempCX10 - 250 > 0 then tempCX10 - 250 else 0;
      var cooling := above * dt / 100000;
      var next := tempCX10 + heatRise - cooling;
      if next < 200 { next := 200; }
      tempCX10 := AsI16(next);
    }

    method Step(torque: i8, dt: u32)
      modifies this
      ensures View() == Driven(old(View()), torque, dt)
    {
      var current := Abs(torque) * 500;
      currentMa := current;
      var drop := TruncDiv(current * dt * 1000, 3600 * 50_000);
      socMilli := if socMilli - drop > 0 then socMilli - drop else 0;
      socPercent := Percent(socMilli);
      Warm(current / 1000, dt);
      voltageMv := CalcVoltage();
    }

    /** `ok` is false where a 64-bit product overflows; nothing changes then. */
    method StepWithCurrent(current: i32, dt: u32) returns (ok: bool)
      modifies this
      ensures FedStep(old(View()), current, dt) == if ok then Some(View()) else None
      ensures !ok ==> View() == old(View())
    {
      var amps := Abs(current) / 1000;
      if !FitsI64(current * dt * 1000) || !FitsI64(amps * amps * dt) { return false; }
      ok := true;
      currentMa := current;
      var delta := TruncDiv(current * dt * 1000, 3600 * 50_000);
      socMilli := Clamp(socMilli - delta, 0, 100_000);
      socPercent := Percent(socMilli);
      Warm(amps, dt);
      voltageMv := CalcVoltage();
    }
  }

  // ----- temperature over torque-driven runs -----

  datatype Tick = Tick(torque: i8, dt: u32)

  function Drive(ticks: seq<Tick>): Pack {
    if ticks == [] then FACTORY
    else Driven(Drive(ticks[..|ticks| - 1]), ticks[|ticks| - 1].torque, ticks[|ticks| - 1].dt)
  }

  /** The last tick's temperature went through the 16-bit cast unchanged. */
  predicate CastExact(ticks: seq<Tick>)
    requires ticks != []
  {
    var n := |ticks| - 1;
    Drive(ticks).temp == RawTemp(Drive(ticks[..n]).temp, Abs(ticks[n].torque) * 500 / 1000, ticks[n].dt)
  }

  ghost predicate TicksUpTo(ticks: seq<Tick>, limit: nat) {
    forall i :: 0 <= i < |ticks| ==> ticks[i].dt <= limit
  }

  /** The heating/cooling equilibrium at full torque, or one long tick from ambient. */
  function TopTemp(limit: nat): int { Max(16634, 250 + 16384 * limit / 100000) }

  lemma HeatBound(torque: i8, dt: nat)
    ensures var amps := Abs(torque) * 500 / 1000; amps * amps * dt / 25000 <= 16384 * dt / 100000
  {
    var amps := Abs(torque) * 500 / 1000;
    assert amps <= 64;
    MulMono(amps, 64, amps);
    assert amps * amps <= 4096;
    MulMono(amps * amps, 4096, dt);
    DivMono(amps * amps * dt, 4096 * dt, 25000);
    assert 4096 * dt / 25000 == 16384 * dt / 100000;
  }

  lemma CoolingWins(above: nat, dt: nat)
    requires above >= 16384
    ensures above * dt / 100000 >= 16384 * dt / 100000
  {
    MulMono(16384, above, dt);
    DivMono(16384 * dt, above * dt, 100000);
  }

  lemma NoOvershoot(above: nat, dt: nat)
    requires above < 16384 && dt <= 100000
    ensures above + 16384 * dt / 100000 - above * dt / 100000 <= 16384
  {
    var k := 16384 - above;
    assert 16384 * dt == above * dt + k * dt;
    MulMono(dt, 100000, k);
    DivMono(above * dt + k * dt, above * dt + 100000 * k, 100000);
    assert (above * dt + 100000 * k) / 100000 == above * dt / 100000 + k;
  }

  lemma LongTickSheds(above: nat, dt: nat)
    requires dt >= 100000
    ensures above * dt / 100000 >= above
  {
    MulMono(100000, dt, above);
    DivMono(above * 100000, above * dt, 100000);
  }

  lemma TopIsAtLeast(limit: nat, dt: nat)
    requires dt <= limit
    ensures TopTemp(limit) >= 16634 && TopTemp(limit) >= 250 + 16384 * dt / 100000
  {
    DivMono(16384 * dt, 16384 * limit, 100000);
  }

  lemma TickStaysBelowTop(temp: int, torque: i8, dt: nat, limit: nat)
    requires 200 <= temp <= TopTemp(limit) && dt <= limit
    ensures 200 <= RawTemp(temp, Abs(torque) * 500 / 1000, dt) <= TopTemp(limit)
  {
    hide TopTemp;
    HeatBound(torque, dt);
    TopIsAtLeast(limit, dt);
    var above := Max(temp - 250, 0);
    if above >= 16384 {
      CoolingWins(above, dt);
    } else if dt <= 100000 {
      NoOvershoot(above, dt);
    } else {
      LongTickSheds(above, dt);
    }
  }

  const LONGEST := 198474

  lemma TopFits(limit: nat)
    requires limit <= LONGEST
    ensures TopTemp(limit) <= 32767
  {
    DivMono(16384 * limit, 16384 * LONGEST, 100000);
  }

  lemma CastOfSmall(x: int)
    requires -0x8000 <= x < 0x8000
    ensures AsI16(x) == x
  {
  }

  /** Ticks up to the limit: the temperature stays in range and no cast ever wraps. */
  lemma {:induction false} TemperatureStaysInRange(ticks: seq<Tick>, limit: nat)
    requires limit <= LONGEST && TicksUpTo(ticks, limit)
    ensures 200 <= Drive(ticks).temp <= TopTemp(limit)
    ensures ticks != [] ==> CastExact(ticks)
  {
    if ticks != [] {
      var n := |ticks| - 1;
      TemperatureStaysInRange(ticks[..n], limit);
      hide TopTemp, RawTemp, AsI16, Voltage, Percent, Moved;
      TopFits(limit);
      TickStaysBelowTop(Drive(ticks[..n]).temp, ticks[n].torque, ticks[n].dt, limit);
      CastOfSmall(RawTemp(Drive(ticks[..n]).temp, Abs(ticks[n].torque) * 500 / 1000, ticks[n].dt));
    }
  }

  lemma LongerTickWraps()
    ensures var ticks := [Tick(-128, LONGEST + 1)]; !CastExact(ticks)
  {
    var ticks := [Tick(-128, LONGEST + 1)];
    assert ticks[..0] == [];
    assert RawTemp(250, 64, LONGEST + 1) == 32768;
  }

  /** The 16-bit temperature cast is exact in every run with ticks up to `limit` ms exactly when `limit` is at most 198474. */
  lemma CastExactForAllRunsIff(limit: nat)
    ensures (forall ticks :: ticks != [] && TicksUpTo(ticks, limit) ==> CastExact(ticks)) <==> limit <= LONGEST
  {
    if limit <= LONGEST {
      forall ticks | ticks != [] && TicksUpTo(ticks, limit)
        ensures CastExact(ticks)
      {
        TemperatureStaysInRange(ticks, limit);
      }
    } else {
      LongerTickWraps();
      assert TicksUpTo([Tick(-128, LONGEST + 1)], limit);
    }
  }

  // ----- state of charge over explicit currents -----

  datatype Feed = Feed(currentMa: i32, dt: u32)

  function Charged(soc: int, fs: seq<Feed>): int {
    if fs == [] then soc
    else
      var f := fs[|fs| - 1];
      Clamp(Charged(soc, fs[..|fs| - 1]) - Moved(f.currentMa, f.dt), 0, 100_000)
  }

  /** The charge component of a run of the whole pack. */
  function FedAll(p: Pack, fs: seq<Feed>): Pack {
    if fs == [] then p else Fed(FedAll(p, fs[..|fs| - 1]), fs[|fs| - 1].currentMa, fs[|fs| - 1].dt)
  }

  /** Every run from at most 100 % stays within 0..100 %, and the reported percentage rounds it. */
  lemma {:induction false} ChargeStaysInRange(p: Pack, fs: seq<Feed>)
    requires 0 <= p.socMilli <= 100_000
    ensures FedAll(p, fs).socMilli == Charged(p.socMilli, fs) && 0 <= Charged(p.socMilli, fs) <= 100_000
    ensures fs != [] ==> -500 <= 1000 * FedAll(p, fs).percent - Charged(p.socMilli, fs) <= 500
  {
    if fs != [] {
      ChargeStaysInRange(p, fs[..|fs| - 1]);
    }
  }

  /** No step of the run was cut off at empty or full. */
  predicate Unclamped(soc: int, fs: seq<Feed>) {
    fs == [] ||
    var f := fs[|fs| - 1];
    Unclamped(soc, fs[..|fs| - 1]) && 0 <= Charged(soc, fs[..|fs| - 1]) - Moved(f.currentMa, f.dt) <= 100_000
  }

  function Sum(fs: seq<Feed>): int {
    if fs == [] then 0 else Sum(fs[..|fs| - 1]) + Moved(fs[|fs| - 1].currentMa, fs[|fs| - 1].dt)
  }

  /** The charge that flowed, in mA ms. */
  function Flowed(fs: seq<Feed>): int {
    if fs == [] then 0 else Flowed(fs[..|fs| - 1]) + fs[|fs| - 1].currentMa * fs[|fs| - 1].dt
  }

  lemma {:induction false} UnclampedIsSum(soc: int, fs: seq<Feed>)
    requires Unclamped(soc, fs)
    ensures Charged(soc, fs) == soc - Sum(fs)
  {
    if fs != [] {
      UnclampedIsSum(soc, fs[..|fs| - 1]);
    }
  }

  lemma TruncError(a: int)
    ensures Abs(UNIT * TruncDiv(a, UNIT) - a) < UNIT
  {
  }

  /** While unclamped, n steps are off from the charge that flowed, in the code's unit, by less than n milli-percent. */
  lemma {:induction false} TruncationErrorIsBounded(soc: int, fs: seq<Feed>)
    requires Unclamped(soc, fs)
    ensures Abs(UNIT * (soc - Charged(soc, fs)) - Flowed(fs)) <= |fs| * (UNIT - 1)
  {
    if fs != [] {
      var n := |fs| - 1;
      TruncationErrorIsBounded(soc, fs[..n]);
      var a := fs[n].currentMa * fs[n].dt;
      TruncError(a);
      MovedInUnits(fs[n].currentMa, fs[n].dt);
      hide TruncDiv, Moved;
      assert Charged(soc, fs) == Charged(soc, fs[..n]) - TruncDiv(a, UNIT);
    }
  }

  /** Against the documented 50 Ah a run loses ten times the charge, to within n milli-percent. */
  lemma TenfoldOverRuns(soc: int, fs: seq<Feed>)
    requires Unclamped(soc, fs)
    ensures Abs(DOCUMENTED_UNIT * (soc - Charged(soc, fs)) - 10 * Flowed(fs)) <= |fs| * (DOCUMENTED_UNIT - 10)
  {
    TruncationErrorIsBounded(soc, fs);
    hide Charged, Flowed;
  }

  // ----- driving is discharging -----

  /** The current a torque draws: half an ampere per percent, whatever its sign. */
  function Draw(k: Tick): Feed { Feed(500 * Abs(k.torque), k.dt) }

  function Draws(ticks: seq<Tick>): seq<Feed> {
    seq(|ticks|, i requires 0 <= i < |ticks| => Draw(ticks[i]))
  }

  /** A torque-driven tick is the explicit-current tick of its draw, in every field. */
  lemma DrivenIsFed(p: Pack, k: Tick)
    requires 0 <= p.socMilli <= 100_000
    ensures Driven(p, k.torque, k.dt) == Fed(p, Draw(k).currentMa, k.dt)
  {
    hide Moved, RawTemp, Voltage, Percent, AsI16;
    DrawsNothingBack(500 * Abs(k.torque), k.dt);
  }

  lemma DrawsNothingBack(currentMa: nat, dt: nat)
    ensures Moved(currentMa, dt) >= 0
  {
    assert currentMa * dt >= 0;
    MovedInUnits(currentMa, dt);
    hide Moved;
  }

  /** A driven run is the run of its draws, so that all charge theorems apply to driving. */
  lemma {:induction false} DriveIsFed(ticks: seq<Tick>)
    ensures Drive(ticks) == FedAll(FACTORY, Draws(ticks))
    ensures Drive(ticks).socMilli == Charged(80_000, Draws(ticks)) && 0 <= Drive(ticks).socMilli <= 100_000
  {
    ChargeStaysInRange(FACTORY, Draws(ticks));
    if ticks != [] {
      var n := |ticks| - 1;
      DriveIsFed(ticks[..n]);
      assert Draws(ticks)[..n] == Draws(ticks[..n]);
      hide Driven, Fed;
      DrivenIsFed(Drive(ticks[..n]), ticks[n]);
    }
  }

  /** Driving never charges the pack; the fields shown are those of the charge and the last torque. */
  lemma DrivingDischarges(ticks: seq<Tick>)
    requires ticks != []
    ensures var n := |ticks| - 1; var p, q := Drive(ticks[..n]), Drive(ticks); var c := 500 * Abs(ticks[n].torque);
            && q.socMilli == Max(p.socMilli - c * ticks[n].dt / UNIT, 0) <= p.socMilli
            && -500 <= 1000 * q.percent - q.socMilli <= 500
            && q.currentMa == c && q.voltage == Max(480 * q.percent - c / 10, 0)
  {
    hide Driven;
    DriveIsFed(ticks[..|ticks| - 1]);
    DrivenDraws(Drive(ticks[..|ticks| - 1]), ticks[|ticks| - 1]);
  }

  lemma DrivenDraws(p: Pack, k: Tick)
    requires 0 <= p.socMilli <= 100_000
    ensures var q, c := Driven(p, k.torque, k.dt), 500 * Abs(k.torque);
            && q.socMilli == Max(p.socMilli - c * k.dt / UNIT, 0) <= p.socMilli
            && -500 <= 1000 * q.percent - q.socMilli <= 500
            && q.currentMa == c && q.voltage == Max(480 * q.percent - c / 10, 0)
  {
    var c := 500 * Abs(k.torque);
    MovedInUnits(c, k.dt);
    assert c * k.dt >= 0;
    assert 0 <= Moved(c, k.dt) == c * k.dt / UNIT by { hide Moved; }
    hide Moved, RawTemp, Voltage;
    var q := Driven(p, k.torque, k.dt);
    VoltageFollowsLoad(q.percent, q.percent, c, c);
  }

  /** The truncation bound for driving that does not run the pack empty. */
  lemma DrivingTruncation(ticks: seq<Tick>)
    requires Unclamped(80_000, Draws(ticks))
    ensures Abs(UNIT * (80_000 - Drive(ticks).socMilli) - Flowed(Draws(ticks))) <= |ticks| * (UNIT - 1)
  {
    hide Drive, Charged, Flowed, Unclamped, FedAll;
    DriveIsFed(ticks);
    TruncationErrorIsBounded(80_000, Draws(ticks));
  }

  // ----- heat -----

  /**
    * The heat balance of a tick, as one would write it without rounding: the rise is the square of the
    * current over 25000 less the excess over ambient over 100000, both times the tick, to within one
    * tenth of a degree each; and never below 20.0 degrees.
    */
  lemma HeatBalance(temp: int, amps: nat, dt: nat)
    ensures var t := RawTemp(temp, amps, dt);
            var exact := 4 * amps * amps * dt - Max(temp - 250, 0) * dt;
            && t >= 200
            && 100_000 * (t - temp) > exact - 100_000
            && (t > 200 ==> 100_000 * (t - temp) < exact + 100_000)
  {
    var heat, above := amps * amps * dt, Max(temp - 250, 0) * dt;
    assert heat >= 0 && above >= 0;
    assert 4 * amps * amps * dt == 4 * heat;
    var rise, fall := heat / 25000, above / 100000;
    assert 25000 * rise <= heat < 25000 * rise + 25000;
    assert 100000 * fall <= above < 100000 * fall + 100000;
  }

  /** A pack fed a current either way heats by that balance, as long as the result fits 16 bits. */
  lemma FedHeat(p: Pack, currentMa: i32, dt: u32)
    ensures var t, amps := Fed(p, currentMa, dt).temp, Abs(currentMa) / 1000;
            var exact := 4 * amps * amps * dt - Max(p.temp - 250, 0) * dt;
            100_000 * p.temp + exact + 100_000 <= 100_000 * 0x8000 ==>
              && t >= 200
              && 100_000 * (t - p.temp) > exact - 100_000
              && (t > 200 ==> 100_000 * (t - p.temp) < exact + 100_000)
  {
    HeatBalance(p.temp, Abs(currentMa) / 1000, dt);
    hide RawTemp;
    var t := RawTemp(p.temp, Abs(currentMa) / 1000, dt);
    if t < 0x8000 {
      CastOfSmall(t);
    }
  }

  // ----- charging back what was drawn -----

  function Back(f: Feed): Feed
    requires f.currentMa > -0x8000_0000
  {
    f.(currentMa := -f.currentMa)
  }

  lemma MovedIsOdd(currentMa: int, dt: nat)
    ensures Moved(-currentMa, dt) == -Moved(currentMa, dt)
  {
    assert (-currentMa) * dt * 1000 == -(currentMa * dt * 1000);
  }

  lemma {:induction false} SumWithout(fs: seq<Feed>, i: nat)
    requires i < |fs|
    ensures Sum(fs) == Sum(fs[..i] + fs[i + 1..]) + Moved(fs[i].currentMa, fs[i].dt)
  {
    hide Moved;
    var n := |fs| - 1;
    if i == n {
      assert fs[..i] + fs[i + 1..] == fs[..n];
    } else {
      SumWithout(fs[..n], i);
      var gs := fs[..i] + fs[i + 1..];
      assert gs[..|gs| - 1] == fs[..n][..i] + fs[..n][i + 1..] && gs[|gs| - 1] == fs[n];
    }
  }

  /** `gs` holds the reverse of each step of `fs`, in any order. */
  ghost predicate Reverses(fs: seq<Feed>, gs: seq<Feed>) {
    && (forall i :: 0 <= i < |fs| ==> fs[i].currentMa > -0x8000_0000)
    && multiset(gs) == multiset(seq(|fs|, i requires 0 <= i < |fs| && fs[i].currentMa > -0x8000_0000 => Back(fs[i])))
  }

  lemma RemoveOne<T>(s: seq<T>, i: nat)
    requires i < |s|
    ensures multiset(s[..i] + s[i + 1..]) == multiset(s) - multiset{s[i]}
  {
    assert s == s[..i] + ([s[i]] + s[i + 1..]);
  }

  lemma {:induction false} SumOfPermutation(fs: seq<Feed>, gs: seq<Feed>)
    requires multiset(fs) == multiset(gs)
    ensures Sum(fs) == Sum(gs)
  {
    hide Moved;
    if fs == [] {
      assert |multiset(gs)| == 0;
    } else {
      var n := |fs| - 1;
      var f := fs[n];
      assert f in multiset(gs);
      var i :| 0 <= i < |gs| && gs[i] == f;
      var rest := gs[..i] + gs[i + 1..];
      SumWithout(gs, i);
      RemoveOne(gs, i);
      RemoveOne(fs, n);
      assert fs[..n] + fs[n + 1..] == fs[..n];
      SumOfPermutation(fs[..n], rest);
    }
  }

  lemma {:induction false} SumOfBack(fs: seq<Feed>, gs: seq<Feed>)
    requires |fs| == |gs| && forall i :: 0 <= i < |fs| ==> fs[i].currentMa > -0x8000_0000 && gs[i] == Back(fs[i])
    ensures Sum(gs) == -Sum(fs)
  {
    hide Moved;
    if fs != [] {
      var n := |fs| - 1;
      SumOfBack(fs[..n], gs[..n]);
      MovedIsOdd(fs[n].currentMa, fs[n].dt);
    }
  }

  /** Replaying the opposite currents, in any order, restores the charge exactly if nothing was clamped. */
  lemma ReplayRestoresCharge(soc: int, fs: seq<Feed>, gs: seq<Feed>)
    requires Reverses(fs, gs) && Unclamped(soc, fs) && Unclamped(Charged(soc, fs), gs)
    ensures Charged(Charged(soc, fs), gs) == soc
  {
    var bs := seq(|fs|, i requires 0 <= i < |fs| && fs[i].currentMa > -0x8000_0000 => Back(fs[i]));
    SumOfBack(fs, bs);
    SumOfPermutation(bs, gs);
    UnclampedIsSum(soc, fs);
    UnclampedIsSum(Charged(soc, fs), gs);
  }

  // ----- the 64-bit products -----

  const LONGEST_FEED := 2_000_001

  /** Ticks of up to 2000001 ms overflow no 64-bit product, whatever the current. */
  lemma ProductsFit(currentMa: i32, dt: u32)
    requires dt <= LONGEST_FEED
    ensures FeedFits(currentMa, dt)
  {
    var amps := Abs(currentMa) / 1000;
    assert amps <= 2_147_483;
    MulMono(amps, 2_147_483, amps);
    assert amps * amps <= 2_147_483 * 2_147_483;
    MulMono(amps * amps, 2_147_483 * 2_147_483, dt);
    MulMono(currentMa, 0x8000_0000, dt);
    MulMono(-0x8000_0000, currentMa, dt);
    MulMono(0, amps * amps, dt);
  }

  /** A torque-driven tick overflows none of its products, and no tick overflows the cooling one. */
  lemma DrivenProductsFit(torque: i8, temp: i16, dt: u32)
    ensures FeedFits(Abs(torque) * 500, dt) && FitsI64(Max(temp - 250, 0) * dt)
  {
    var current := Abs(torque) * 500;
    var amps := current / 1000;
    assert amps <= 64;
    MulMono(amps, 64, amps);
    assert amps * amps <= 4096 && current * dt * 1000 == (current * 1000) * dt;
    hide FitsI64, Max;
    SmallProductFits(current * 1000, dt);
    SmallProductFits(amps * amps, dt);
    AboveIsSmall(temp);
    SmallProductFits(Max(temp - 250, 0), dt);
  }

  lemma AboveIsSmall(temp: i16)
    ensures 0 <= Max(temp - 250, 0) <= 0x8000
  {
  }

  lemma SmallProductFits(a: nat, dt: u32)
    requires a <= 64_000_000
    ensures FitsI64(a * dt)
  {
    MulMono(a, 64_000_000, dt);
    MulMono(0, a, dt);
  }

  /** A run of explicit currents, or nothing once a product has overflowed. */
  function FedRun(p: Pack, fs: seq<Feed>): Option<Pack> {
    if fs == [] then Some(p)
    else
      var front, f := FedRun(p, fs[..|fs| - 1]), fs[|fs| - 1];
      if front.None? then None else FedStep(front.value, f.currentMa, f.dt)
  }

  ghost predicate FeedsUpTo(fs: seq<Feed>, limit: nat) {
    forall i :: 0 <= i < |fs| ==> fs[i].dt <= limit
  }

  /** Up to the limit the overflow-aware run is the run the charge theorems are about. */
  lemma {:induction false} FedRunIsFedAll(p: Pack, fs: seq<Feed>)
    requires FeedsUpTo(fs, LONGEST_FEED)
    ensures FedRun(p, fs) == Some(FedAll(p, fs))
  {
    hide Fed, FeedFits;
    if fs != [] {
      var n := |fs| - 1;
      FedRunIsFedAll(p, fs[..n]);
      ProductsFit(fs[n].currentMa, fs[n].dt);
    }
  }

  /** One millisecond more, and the largest current overflows the heating product, from any state. */
  lemma LongerTickOverflows(p: Pack)
    ensures FedRun(p, [Feed(0x7FFF_FFFF, LONGEST_FEED + 1)]) == None
  {
    assert !FeedFits(0x7FFF_FFFF, LONGEST_FEED + 1);
    var f := Feed(0x7FFF_FFFF, LONGEST_FEED + 1);
    assert [f][..0] == [];
  }

  /** No run of explicit currents with ticks up to `limit` ms overflows if and only if `limit` is at most 2000001. */
  lemma FedRunsFitIff(limit: nat)
    ensures (forall p, fs :: FeedsUpTo(fs, limit) ==> FedRun(p, fs).Some?) <==> limit <= LONGEST_FEED
  {
    hide FedRun;
    if limit <= LONGEST_FEED {
      forall p, fs | FeedsUpTo(fs, limit)
        ensures FedRun(p, fs).Some?
      {
        FedRunIsFedAll(p, fs);
      }
    } else {
      var fs := [Feed(0x7FFF_FFFF, LONGEST_FEED + 1)];
      LongerTickOverflows(FACTORY);
      assert FeedsUpTo(fs, limit) && !FedRun(FACTORY, fs).Some?;
    }
  }
}
