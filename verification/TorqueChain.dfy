/** Gateway and powertrain together: what a lost node or a critical fault does to the motor. */
module TorqueChain {
  import opened Ints
  import opened Timeouts
  import opened Gateway
  import opened GatewayRuns
  import HM = HeartbeatMonitor
  import FM = FaultManager
  import P = Powertrain
  import V = Vehicle

  /** The command sent by a powertrain with any history once it has received the gateway's mode. */
  function Command(ps: seq<P.Event>, g: Gw, at: nat): P.Controller {
    P.Run(ps + [P.Receive(P.ModeFrame(V.ModeByte(g.vehicle.mode)), at)] + [P.Send]).c
  }

  function Throttle(ps: seq<P.Event>): u8 { P.LastByte(ps, P.DRIVER_INPUT, 0, 0) }

  /** The motor is enabled exactly if the gateway's mode is DRIVE or LIMP and the throttle valid. */
  lemma CommandFollowsMode(ps: seq<P.Event>, g: Gw, at: nat)
    requires !g.vehicle.mode.Unnamed?
    ensures Command(ps, g, at).enable <==>
            (g.vehicle.mode == V.Drive || g.vehicle.mode == V.Limp) && Throttle(ps) <= 100
    ensures !Command(ps, g, at).enable ==> Command(ps, g, at).torque == 0
  {
    var e := P.Receive(P.ModeFrame(V.ModeByte(g.vehicle.mode)), at);
    assert (ps + [e])[..|ps|] == ps;
    P.MotorCommand(ps + [e]);
    hide P.Run, P.MinInt;
  }

  // ----- S7: a lost dashboard -----

  /** Where a tick takes a driving vehicle. */
  lemma TickFromDrive(es: seq<Event>, at: nat, beats: seq<u8>)
    requires Run(es).vehicle.mode == V.Drive
    ensures var after := Run(es + [Tick(at, beats)]);
            after.vehicle.mode == if HasActiveCritical(after.table) then V.Fault
                                  else if HM.AllOnline(after.nodes) then V.Drive else V.Ready
  {
    hide HasActiveCritical, HM.AllOnline, TimeoutReport, Heard;
    RunsAreSound(es);
    assert (es + [Tick(at, beats)])[..|es|] == es;
    RunsAreSound(es + [Tick(at, beats)]);
    CriticalIsCounted(Run(es + [Tick(at, beats)]).table);
  }

  /**
    * The documented rule S7 wants a lost dashboard not to disable the powertrain by itself. After a
    * tick of a driving vehicle with powertrain and BMS online and no critical fault, the next command
    * is enabled if and only if the dashboard is online too.
    */
  lemma DashboardDecides(es: seq<Event>, at: nat, beats: seq<u8>, ps: seq<P.Event>)
    requires Run(es).vehicle.mode == V.Drive && Throttle(ps) <= 100
    ensures var after := Run(es + [Tick(at, beats)]);
            && WatchesThree(after.nodes)
            && (after.nodes[0].cell.online && after.nodes[1].cell.online && !HasActiveCritical(after.table) ==>
                (Command(ps, after, at).enable <==> after.nodes[2].cell.online))
  {
    hide HasActiveCritical, Command, Run, Throttle, FM.Consistent, FM.Graded;
    TickFromDrive(es, at, beats);
    RunsAreSound(es + [Tick(at, beats)]);
    CommandFollowsMode(ps, Run(es + [Tick(at, beats)]), at);
  }

  function AllHeard(now: u32): seq<HM.Node> { Three(Cell(true, now), Cell(true, now), Cell(true, now)) }

  const EVERYONE: seq<u8> := [POWERTRAIN, BMS, DASHBOARD]

  lemma HeardEveryone(p: Cell, b: Cell, d: Cell, now: u32)
    ensures Heard(Three(p, b, d), EVERYONE, now) == AllHeard(now)
    ensures Heard(Three(p, b, d), [POWERTRAIN, BMS], now) == Three(Cell(true, now), Cell(true, now), d)
  {
    hide Three, HM.AfterBeat;
    var on := Cell(true, now);
    assert EVERYONE[..2] == [POWERTRAIN, BMS] && [POWERTRAIN, BMS][..1] == [POWERTRAIN] && [POWERTRAIN][..0] == [];
    BeatThree(p, b, d, now);
    BeatThree(on, b, d, now);
    BeatThree(on, on, d, now);
    assert Heard(Three(p, b, d), [], now) == Three(p, b, d);
    assert Heard(Three(p, b, d), [POWERTRAIN], now) == Three(on, b, d);
  }

  /** The gateway driving, everybody last heard at 10 ms. */
  const DRIVING := Gw(V.State(V.Drive, true, false, false, 0, true), false, AllHeard(10), FM.EMPTY)

  const START: seq<Event> := [Tick(10, EVERYONE), EnterDrive]

  lemma StartDrives()
    ensures Run(START) == DRIVING
  {
    var e := Tick(10, EVERYONE);
    assert WATCHED == Three(SILENT, SILENT, SILENT);
    HeardEveryone(SILENT, SILENT, SILENT, 10);
    CheckThree(Cell(true, 10), Cell(true, 10), Cell(true, 10), 10);
    assert HM.FirstOffline(AllHeard(10)) == 0 by { NobodyOffline(10); }
    hide Heard, HM.AfterCheckAll, HM.FirstOffline;
    RunOne(INIT, e);
    assert START[..1] == [e];
    assert Step(INIT, e) == DRIVING.(vehicle := V.State(V.Ready, true, false, false, 0, true));
  }

  lemma NobodyOffline(now: u32)
    ensures HM.FirstOffline(AllHeard(now)) == 0
  {
    var ns := AllHeard(now);
    assert ns[1..][0] == ns[1] && ns[1..][1..] == ns[2..] && ns[2..][0] == ns[2] && ns[2..][1..] == [];
    assert HM.FirstOffline(ns[2..]) == HM.FirstOffline([]) == 0;
  }

  /** A dashboard that falls silent while driving: 300 ms later, with everybody else heard and no fault, the mode is READY. */
  lemma LostDashboardEndsDrive(ps: seq<P.Event>)
    ensures var g := Run(START + [Tick(310, [POWERTRAIN, BMS])]);
            && g.nodes == Three(Cell(true, 310), Cell(true, 310), Cell(false, 10)) && g.table == FM.EMPTY
            && g.vehicle.mode == V.Ready
            && !Command(ps, g, 310).enable && Command(ps, g, 310).torque == 0
  {
    var e := Tick(310, [POWERTRAIN, BMS]);
    StartDrives();
    assert (START + [e])[..|START|] == START;
    var on := Cell(true, 10);
    HeardEveryone(on, on, on, 310);
    CheckThree(Cell(true, 310), Cell(true, 310), on, 310);
    OnlyDashboardOffline(310, 10);
    hide Command, Run, Heard, HM.AfterCheckAll, HM.FirstOffline, HM.Dropped, FM.Count;
    assert Run(START + [e]) == Step(DRIVING, e) by { LastStep(START, e); }
    NothingCounted();
    CommandFollowsMode(ps, Run(START + [e]), 310);
  }

  lemma LastStep(es: seq<Event>, e: Event)
    ensures Run(es + [e]) == Step(Run(es), e)
  {
    hide Step;
    assert (es + [e])[..|es|] == es;
  }

  lemma NothingCounted()
    ensures FM.Count([], FM.Everything, FM.Any) == 0
  {
  }

  lemma OnlyDashboardOffline(now: u32, last: u32)
    ensures HM.FirstOffline(Three(Cell(true, now), Cell(true, now), Cell(false, last))) == DASHBOARD
  {
    var ns := Three(Cell(true, now), Cell(true, now), Cell(false, last));
    assert ns[1..][0] == ns[1] && ns[1..][1..] == ns[2..] && ns[2..][0] == ns[2];
    assert HM.FirstOffline(ns[2..]) == DASHBOARD;
  }

  // ----- S8: a critical fault -----

  /**
    * The documented rule S8 wants a critical BMS fault to shut down drive. If the table takes the
    * report, the next tick of any run ends in FAULT and disables the motor; if not, the frame changes
    * nothing at all. So that tick ends in FAULT exactly if the report is taken or it would anyway.
    */
  lemma CriticalFaultStopsMotor(es: seq<Event>, code: u8, at: nat, beats: seq<u8>, ps: seq<P.Event>)
    requires FM.BmsSeverity(code) == 2
    ensures var taken := FM.Accepts(Run(es).table, BMS, code);
            var after := Run(es + [BmsFault(code)] + [Tick(at, beats)]);
            && (taken ==> after.vehicle.mode == V.Fault
                          && !Command(ps, after, at).enable && Command(ps, after, at).torque == 0)
            && (!taken ==> Run(es + [BmsFault(code)]) == Run(es))
            && (after.vehicle.mode == V.Fault <==> taken || Run(es + [Tick(at, beats)]).vehicle.mode == V.Fault)
  {
    hide Command, Run, HasActiveCritical, FM.Consistent, Heard, TimeoutReport;
    var reported, g := Run(es + [BmsFault(code)]), Run(es);
    var after := Run(es + [BmsFault(code)] + [Tick(at, beats)]);
    LastStep(es, BmsFault(code));
    LastStep(es, Tick(at, beats));
    LastStep(es + [BmsFault(code)], Tick(at, beats));
    if FM.Accepts(g.table, BMS, code) {
      RunsAreSound(es + [BmsFault(code)]);
      ReportIsCritical(g.table, code);
      TickEndsInFaultExactly(es + [BmsFault(code)], at, beats);
      TimeoutKeepsCritical(Heard(reported.nodes, beats, at % WRAP), reported.table, at % WRAP);
      CommandFollowsMode(ps, after, at);
    }
  }

  lemma ReportIsCritical(t: FM.Table, code: u8)
    requires FM.Accepts(t, BMS, code)
    ensures HasActiveCritical(FM.Reported(t, BMS, code, 2))
  {
    var i := FM.Find(t.faults, BMS, code);
    assert FM.Reported(t, BMS, code, 2).faults[i] == FM.Fault(BMS, code, true, 2);
  }

  /** Another report of critical severity keeps a critical fault active. */
  lemma TimeoutKeepsCritical(heard: seq<HM.Node>, t: FM.Table, now: u32)
    requires HasActiveCritical(t)
    ensures HasActiveCritical(TimeoutReport(heard, t, now))
  {
    hide HM.Dropped, HM.FirstOffline, HM.AfterCheckAll;
    var i :| 0 <= i < |t.faults| && t.faults[i].active && t.faults[i].severity == 2;
    var r := TimeoutReport(heard, t, now);
    assert r.faults[i].active && r.faults[i].severity == 2;
  }

  /** Faults with n different codes the firmware has no name for. */
  function Unknown(n: nat): seq<Event>
    requires n <= 16
  {
    if n == 0 then [] else Unknown(n - 1) + [BmsFault(9 + n)]
  }

  function Clutter(n: nat): seq<FM.Fault>
    requires n <= 16
  {
    seq(n, i requires 0 <= i < n => FM.Fault(BMS, 10 + i, true, 0))
  }

  lemma {:induction false} ClutterFills(n: nat)
    requires n <= 16
    ensures RunFrom(DRIVING, Unknown(n)) == DRIVING.(table := FM.Table(Clutter(n), 0, 0))
  {
    if n > 0 {
      hide Clutter, FM.Reported;
      ClutterFills(n - 1);
      var es := Unknown(n);
      assert es[..|es| - 1] == Unknown(n - 1) && es[|es| - 1] == BmsFault(9 + n);
      OneMoreUnknown(n);
    }
  }

  lemma OneMoreUnknown(n: nat)
    requires 1 <= n <= 16
    ensures FM.Reported(FM.Table(Clutter(n - 1), 0, 0), BMS, 9 + n, 0) == FM.Table(Clutter(n), 0, 0)
  {
    var fs, key: u8 := Clutter(n - 1), 9 + n;
    assert forall j :: 0 <= j < |fs| ==> fs[j].code != key;
    FM.FindUnique(fs, BMS, key, n - 1);
    assert Clutter(n) == fs + [FM.Fault(BMS, key, true, 0)];
  }

  /** Sixteen unknown codes fill the table: a critical fault is then dropped, and the vehicle drives on. */
  lemma FullTableHidesCriticalFault(ps: seq<P.Event>)
    requires Throttle(ps) <= 100
    ensures var g := Run(START + Unknown(16) + [BmsFault(1)] + [Tick(20, EVERYONE)]);
            FM.BmsSeverity(1) == 2 && g.vehicle.mode == V.Drive && Command(ps, g, 20).enable
  {
    hide Command, Unknown, Clutter, FM.Count, Throttle;
    var full := START + Unknown(16);
    var cluttered := DRIVING.(table := FM.Table(Clutter(16), 0, 0));
    assert Run(full) == cluttered by {
      hide Step, Run;
      StartDrives();
      RunAppend(INIT, START, Unknown(16));
      ClutterFills(16);
      assert Run(full) == RunFrom(Run(START), Unknown(16));
    }
    assert Step(cluttered, BmsFault(1)) == cluttered by { ClutterIsFull(); }
    LastStep(full, BmsFault(1));
    LastStep(full + [BmsFault(1)], Tick(20, EVERYONE));
    var on := Cell(true, 10);
    HeardEveryone(on, on, on, 20);
    CheckThree(Cell(true, 20), Cell(true, 20), Cell(true, 20), 20);
    NobodyOffline(20);
    hide Run, Heard, HM.AfterCheckAll, HM.FirstOffline, HM.Dropped;
    assert Step(cluttered, Tick(20, EVERYONE)).vehicle.mode == V.Drive;
    CommandFollowsMode(ps, Step(cluttered, Tick(20, EVERYONE)), 20);
  }

  lemma ClutterIsFull()
    ensures |Clutter(16)| == 16 && FM.Find(Clutter(16), BMS, 1) == 16
  {
    FM.FindUnique(Clutter(16), BMS, 1, 16);
  }
}
