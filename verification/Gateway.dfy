/** The gateway ECU: frame handlers and the periodic tick over the fault and heartbeat tables. */
module Gateway {
  import opened Ints
  import opened Timeouts
  import HM = HeartbeatMonitor
  import FM = FaultManager
  import V = Vehicle

  const POWERTRAIN: u8 := 2
  const BMS: u8 := 3
  const DASHBOARD: u8 := 4
  const TIMEOUT_MS: u32 := 300

  const START_SESSION: u8 := 1
  const READ_MODE: u8 := 2
  const READ_DTCS: u8 := 3
  const CLEAR_DTCS: u8 := 4
  const ACTUATOR_TEST: u8 := 6
  const END_SESSION: u8 := 7

  datatype Status = Ok | Rejected | Unsupported

  datatype Response = Response(service: u8, request: u8, status: Status, value0: u8, value1: u8)

  datatype Reply = Silence | Answer(r: Response)

  datatype Gw = Gw(vehicle: V.State, session: bool, nodes: seq<HM.Node>, table: FM.Table)

  const WATCHED: seq<HM.Node> := [
    HM.Node(POWERTRAIN, SILENT, TIMEOUT_MS), HM.Node(BMS, SILENT, TIMEOUT_MS), HM.Node(DASHBOARD, SILENT, TIMEOUT_MS)]

  const INIT := Gw(V.BOOTED, false, WATCHED, FM.EMPTY)

  // ----- the steps on values -----

  function FaultFrame(g: Gw, code: u8): Gw {
    g.(table := FM.Reported(g.table, BMS, code, FM.BmsSeverity(code)))
  }

  function Diagnosed(g: Gw, len: nat, service: u8): Gw {
    if len < 4 then g
    else if service == START_SESSION then
      if g.vehicle.mode == V.Drive then g else g.(session := true, vehicle := g.vehicle.(mode := V.Service))
    else if service == END_SESSION then g.(session := false)
    else if service == CLEAR_DTCS && g.session then g.(table := FM.Cleared(g.table, FM.OfNode(BMS)))
    else g
  }

  function Answered(g: Gw, len: nat, service: u8, request: u8): Reply {
    if len < 4 then Silence
    else
      var mode := V.ModeByte(Diagnosed(g, len, service).vehicle.mode);
      var active := FM.Count(g.table.faults, FM.Everything, FM.Any) % 256;
      Answer(
        if service == START_SESSION then
          Response(service, request, if g.vehicle.mode == V.Drive then Rejected else Ok, mode, 0)
        else if service == END_SESSION || service == READ_MODE then Response(service, request, Ok, mode, 0)
        else if service == READ_DTCS then Response(service, request, Ok, active, FM.FirstActiveKey(g.table.faults).1)
        else if service == CLEAR_DTCS then Response(service, request, if g.session then Ok else Rejected, 0, 0)
        else if service == ACTUATOR_TEST then
          Response(service, request, if g.session && g.vehicle.mode != V.Drive then Ok else Rejected, mode, 0)
        else Response(service, request, Unsupported, 0, 0))
  }

  function Heard(ns: seq<HM.Node>, beats: seq<u8>, now: u32): (r: seq<HM.Node>)
    ensures |r| == |ns|
  {
    if beats == [] then ns else HM.AfterBeat(Heard(ns, beats[..|beats| - 1], now), beats[|beats| - 1], now)
  }

  /** The table after the timeout check of a tick: the BMS is reported only if it is the node blamed. */
  function TimeoutReport(heard: seq<HM.Node>, t: FM.Table, now: u32): FM.Table {
    if HM.Dropped(heard, now) > 0 && HM.FirstOffline(HM.AfterCheckAll(heard, now)) == BMS
    then FM.Reported(t, BMS, FM.COMM_ERROR, 2) else t
  }

  /** update_vehicle_mode; the heartbeat table has been checked already. */
  function ModeUpdate(g: Gw): Gw {
    var online := HM.AllOnline(g.nodes);
    var critical := g.table.critical > 0;
    var count := FM.Count(g.table.faults, FM.Everything, FM.Any);
    if !critical && g.session
    then g.(vehicle := V.State(V.Service, online, false, false, count, g.vehicle.booted))
    else g.(vehicle := V.Updated(g.vehicle, online, critical, false, count))
  }

  /** One pass of the main loop at true time `at`, after dequeuing the given heartbeats. */
  function Ticked(g: Gw, at: nat, beats: seq<u8>): Gw {
    var now := at % WRAP;
    var heard := Heard(g.nodes, beats, now);
    ModeUpdate(g.(nodes := HM.AfterCheckAll(heard, now), table := TimeoutReport(heard, g.table, now)))
  }

  // ----- the gateway as an object -----

  lemma CheckTwice(ns: seq<HM.Node>, now: u32)
    ensures HM.AfterCheckAll(HM.AfterCheckAll(ns, now), now) == HM.AfterCheckAll(ns, now)
  {
  }

  class GatewayEcu {
    const hm: HM.Monitor
    const fm: FM.Manager
    var vehicle: V.State
    var sessionActive: bool

    ghost predicate Valid()
      reads this, hm, fm
    {
      hm.Valid() && fm.Valid() && hm.nodes as object != fm.faults
    }

    ghost function View(): Gw
      requires Valid()
      reads this, hm, hm.nodes, fm, fm.faults
    {
      Gw(vehicle, sessionActive, hm.View(), fm.View())
    }

    constructor ()
      ensures Valid() && View() == INIT && fresh(hm) && fresh(fm) && fresh(hm.nodes) && fresh(fm.faults)
    {
      var h := new HM.Monitor(TIMEOUT_MS);
      var f := new FM.Manager();
      var _ := h.Register(POWERTRAIN, TIMEOUT_MS);
      var _ := h.Register(BMS, TIMEOUT_MS);
      var _ := h.Register(DASHBOARD, TIMEOUT_MS);
      hm, fm := h, f;
      vehicle, sessionActive := V.BOOTED, false;
    }

    method HandleBmsFault(code: u8)
      requires Valid()
      modifies fm, fm.faults
      ensures Valid() && View() == FaultFrame(old(View()), code)
    {
      var severity := FM.BmsSeverity(code);
      var _ := fm.Report(BMS, code, severity);
    }

    method HandleDiagRequest(len: nat, service: u8, request: u8) returns (reply: Reply)
      requires Valid()
      modifies this, fm, fm.faults
      ensures Valid() && View() == Diagnosed(old(View()), len, service)
      ensures reply == Answered(old(View()), len, service, request)
    {
      if len < 4 { return Silence; }
      var status, value0, value1: u8 := Ok, 0, 0;
      if service == START_SESSION {
        if vehicle.mode == V.Drive {
          status := Rejected;
          value0 := V.ModeByte(vehicle.mode);
        } else {
          sessionActive := true;
          vehicle := vehicle.(mode := V.Service);
          value0 := V.ModeByte(vehicle.mode);
        }
      } else if service == END_SESSION {
        sessionActive := false;
        value0 := V.ModeByte(vehicle.mode);
      } else if service == READ_MODE {
        value0 := V.ModeByte(vehicle.mode);
      } else if service == READ_DTCS {
        var count, _, code := fm.FirstActiveDtc();
        value0 := count % 256;
        value1 := code;
      } else if service == CLEAR_DTCS {
        if !sessionActive { status := Rejected; } else { fm.ClearNode(BMS); }
      } else if service == ACTUATOR_TEST {
        status := if sessionActive && vehicle.mode != V.Drive then Ok else Rejected;
        value0 := V.ModeByte(vehicle.mode);
      } else {
        status := Unsupported;
      }
      reply := Answer(Response(service, request, status, value0, value1));
    }

    method UpdateVehicleMode(nowMs: u32)
      requires Valid()
      modifies this, hm.nodes
      ensures Valid()
      ensures View() == ModeUpdate(old(View()).(nodes := HM.AfterCheckAll(old(View()).nodes, nowMs)))
    {
      var _ := hm.Check(nowMs);
      var allOnline := hm.QueryAllOnline();
      var bmsFault := fm.HasCritical();
      var count := fm.ActiveCount();
      if !bmsFault && sessionActive {
        vehicle := V.State(V.Service, allOnline, bmsFault, false, count, vehicle.booted);
        return;
      }
      vehicle := V.Updated(vehicle, allOnline, bmsFault, false, count);
    }

    /** One pass of the main loop; `at` is the unbounded time the 32-bit tick count stands for. */
    method Tick(at: nat, beats: seq<u8>)
      requires Valid()
      modifies this, hm.nodes, fm, fm.faults
      ensures Valid() && View() == Ticked(old(View()), at, beats)
    {
      var nowMs := at % WRAP;
      ghost var was := View();
      for i := 0 to |beats|
        invariant Valid() && View() == was.(nodes := Heard(was.nodes, beats[..i], nowMs))
      {
        assert beats[..i + 1][..i] == beats[..i];
        hm.Beat(beats[i], nowMs);
      }
      assert beats[..|beats|] == beats;
      ghost var heard := View().nodes;
      var transitions := hm.Check(nowMs);
      if transitions > 0 {
        var lost := hm.LastTransitionNode();
        if lost == BMS {
          var _ := fm.Report(BMS, FM.COMM_ERROR, 2);
        }
      }
      CheckTwice(heard, nowMs);
      UpdateVehicleMode(nowMs);
    }

    method EnterDrive()
      requires Valid()
      modifies this
      ensures Valid() && View() == old(View()).(vehicle := V.DriveRequested(old(vehicle)))
    {
      if vehicle.mode == V.Ready { vehicle := vehicle.(mode := V.Drive); }
    }

    method Reboot()
      requires Valid()
      modifies this
      ensures Valid() && View() == old(View()).(vehicle := V.REBOOTED)
    {
      vehicle := V.State(V.Off, false, false, false, 0, false);
    }
  }
}
