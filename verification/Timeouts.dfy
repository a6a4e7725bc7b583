/** A heartbeat seen through a 32-bit millisecond clock, and the law it obeys in real time. */
module Timeouts {

  import opened Ints

  /** 32-bit unsigned subtraction. */
  function Elapsed(now: u32, last: u32): u32 { (now - last) % WRAP }

  datatype Cell = Cell(online: bool, last: u32)

  const SILENT := Cell(false, 0)

  function AfterCheck(c: Cell, now: u32, timeout: u32): Cell {
    if c.online && Elapsed(now, c.last) >= timeout then c.(online := false) else c
  }

  // ----- real time -----

  /** Heartbeats and checks, stamped with unbounded time; the cell sees that time modulo 2^32. */
  datatype Signal = Beat(at: nat) | Check(at: nat)

  function Observe(c: Cell, g: Signal, timeout: u32): Cell {
    match g
    case Beat(t) => Cell(true, t % WRAP)
    case Check(t) => AfterCheck(c, t % WRAP, timeout)
  }

  function Watch(gs: seq<Signal>, timeout: u32): Cell {
    if gs == [] then SILENT else Observe(Watch(gs[..|gs| - 1], timeout), gs[|gs| - 1], timeout)
  }

  lemma WatchLast(gs: seq<Signal>, g: Signal, timeout: u32)
    ensures Watch(gs + [g], timeout) == Observe(Watch(gs, timeout), g, timeout)
  {
    assert (gs + [g])[..|gs|] == gs;
  }

  /** The time of the last heartbeat, or -1. */
  function LastBeat(gs: seq<Signal>): int {
    if gs == [] then -1
    else if gs[|gs| - 1].Beat? then gs[|gs| - 1].at
    else LastBeat(gs[..|gs| - 1])
  }

  /** The time of the last check, counting the start as one. */
  function LastCheck(gs: seq<Signal>): nat {
    if gs == [] then 0
    else if gs[|gs| - 1].Check? then gs[|gs| - 1].at
    else LastCheck(gs[..|gs| - 1])
  }

  function Clock(gs: seq<Signal>): nat { if gs == [] then 0 else gs[|gs| - 1].at }

  /** Time never runs backward, and checks come often enough for the 32-bit clock. */
  predicate Timely(gs: seq<Signal>, timeout: u32) {
    gs == [] ||
    var front, g := gs[..|gs| - 1], gs[|gs| - 1];
    && Timely(front, timeout)
    && Clock(front) <= g.at
    && (g.Check? ==> g.at - LastCheck(front) + timeout <= WRAP)
  }

  /** Has beaten, and less than the timeout ago. */
  predicate Alive(gs: seq<Signal>, now: int, timeout: u32) {
    LastBeat(gs) >= 0 && now - LastBeat(gs) < timeout
  }

  lemma {:induction false} BeatsInThePast(gs: seq<Signal>, timeout: u32)
    requires Timely(gs, timeout)
    ensures LastBeat(gs) <= Clock(gs) && LastCheck(gs) <= Clock(gs)
  {
    if gs != [] {
      BeatsInThePast(gs[..|gs| - 1], timeout);
    }
  }

  lemma ElapsedIsExact(now: nat, last: nat)
    requires last <= now < last + WRAP
    ensures Elapsed(now % WRAP, last % WRAP) == now - last
  {
    assert now == WRAP * (now / WRAP) + now % WRAP && last == WRAP * (last / WRAP) + last % WRAP;
  }

  predicate BeatSinceCheck(gs: seq<Signal>) { gs != [] && gs[|gs| - 1].Beat? }

  /** Between checks: online means a beat since the last check, or one still fresh at it. */
  lemma {:induction false} CellTracksBeats(gs: seq<Signal>, timeout: u32)
    requires Timely(gs, timeout)
    ensures var c, b := Watch(gs, timeout), LastBeat(gs);
            && (c.online <==> BeatSinceCheck(gs) || Alive(gs, LastCheck(gs), timeout))
            && (b >= 0 ==> c.last == b % WRAP)
            && (BeatSinceCheck(gs) ==> b >= LastCheck(gs))
  {
    if gs != [] {
      var front, g := gs[..|gs| - 1], gs[|gs| - 1];
      CellTracksBeats(front, timeout);
      BeatsInThePast(front, timeout);
      if g.Check? && Watch(front, timeout).online && timeout > 0 {
        ElapsedIsExact(g.at, LastBeat(front));
      }
    }
  }

  /** After any check the online bit is the real-time truth, however often the clock has wrapped. */
  lemma OnlineIsAlive(gs: seq<Signal>, now: nat, timeout: u32)
    requires Timely(gs + [Check(now)], timeout)
    ensures Watch(gs + [Check(now)], timeout).online <==> Alive(gs, now, timeout)
  {
    var all := gs + [Check(now)];
    assert all[..|all| - 1] == gs;
    CellTracksBeats(all, timeout);
  }

  /** The spacing is the largest possible: one millisecond more, and a node silent for 2^32 ms passes as alive. */
  lemma SpacingIsTight(start: nat, timeout: u32)
    requires timeout > 0
    ensures var gs := [Beat(start), Check(start + timeout - 1)];
            var now := start + WRAP;
            && now - LastCheck(gs) + timeout == WRAP + 1
            && !Alive(gs, now, timeout)
            && Watch(gs + [Check(now)], timeout).online
  {
    var gs := [Beat(start), Check(start + timeout - 1)];
    var all := gs + [Check(start + WRAP)];
    assert all[..2] == gs && gs[..1] == [Beat(start)] && gs[..1][..0] == [];
    assert Watch([Beat(start)], timeout) == Cell(true, start % WRAP);
    ElapsedIsExact(start + timeout - 1, start);
    assert (start + WRAP) % WRAP == start % WRAP;
    assert LastBeat(gs) == LastBeat([Beat(start)]) == start;
  }

  // ----- the powertrain's gateway watchdog -----

  const GATEWAY_TIMEOUT_MS: u32 := 250

  class Watchdog {
    var lastGatewayBeatMs: u32
    var gatewayOnline: bool
    var torqueDisabled: bool

    function View(): Cell
      reads this
    {
      Cell(gatewayOnline, lastGatewayBeatMs)
    }

    constructor ()
      ensures View() == SILENT && !torqueDisabled
    {
      lastGatewayBeatMs, gatewayOnline, torqueDisabled := 0, false, false;
    }

    method GatewayBeat(nowMs: u32)
      modifies this
      ensures View() == Cell(true, nowMs) && !torqueDisabled
    {
      lastGatewayBeatMs := nowMs;
      gatewayOnline := true;
      torqueDisabled := false;
    }

    /** Torque is disabled, and a timeout reported, exactly while the gateway is not online. */
    method CheckGateway(nowMs: u32) returns (timedOut: bool)
      modifies this
      ensures View() == AfterCheck(old(View()), nowMs, GATEWAY_TIMEOUT_MS)
      ensures timedOut == torqueDisabled == !gatewayOnline
    {
      if !gatewayOnline {
        torqueDisabled := true;
        return true;
      }
      var elapsed := (nowMs - lastGatewayBeatMs) % WRAP;
      if elapsed >= 250 {
        gatewayOnline := false;
        torqueDisabled := true;
        return true;
      }
      torqueDisabled := false;
      timedOut := false;
    }
  }
}
