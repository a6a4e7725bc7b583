/** How faults and sessions of the gateway begin and end, and what it answers. */
module GatewayFaults {
  import opened Ints
  import opened Histories
  import opened Timeouts
  import opened Gateway
  import opened GatewayRuns
  import HM = HeartbeatMonitor
  import FM = FaultManager
  import V = Vehicle

  // ----- sessions -----

  predicate EndsSession(e: Event) { e.Diag? && e.len >= 4 && e.service == END_SESSION }

  /** A session start that the mode allows. */
  predicate Starts(g: Gw, e: Event) { StartsSession(e) && g.vehicle.mode != V.Drive }

  ghost function StartedAt(es: seq<Event>): nat -> bool { (k: nat) => k < |es| && Starts(Run(es[..k]), es[k]) }

  ghost function EndedAt(es: seq<Event>): nat -> bool { (k: nat) => k < |es| && EndsSession(es[k]) }

  lemma SessionStep(g: Gw, e: Event)
    ensures Step(g, e).session <==> Starts(g, e) || (g.session && !EndsSession(e))
  {
    hide FM.Reported, FM.Cleared, Heard, TimeoutReport, HM.AfterCheckAll, V.Updated;
  }

  /** A session is active exactly after an accepted start with no later end; ticks, faults and reboots do not matter. */
  lemma SessionExactly(es: seq<Event>)
    ensures Run(es).session <==> Since(|es|, StartedAt(es), EndedAt(es))
  {
    SessionUpTo(es, |es|);
    assert es[..|es|] == es;
  }

  lemma {:induction false} SessionUpTo(es: seq<Event>, n: nat)
    requires n <= |es|
    ensures Run(es[..n]).session <==> Since(n, StartedAt(es), EndedAt(es))
  {
    hide Step, Starts, EndsSession;
    if n > 0 {
      SessionUpTo(es, n - 1);
      assert es[..n][..n - 1] == es[..n - 1];
      SessionStep(Run(es[..n - 1]), es[n - 1]);
      SinceNext(n - 1, StartedAt(es), EndedAt(es));
    }
  }

  // ----- entries of the fault table -----

  predicate Clears(g: Gw, e: Event) { e.Diag? && e.len >= 4 && e.service == CLEAR_DTCS && g.session }

  /** Entries keep their place and key for ever. */
  lemma KeysStay(g: Gw, e: Event, i: nat)
    requires i < |g.table.faults|
    ensures i < |Step(g, e).table.faults|
    ensures var f, h := g.table.faults[i], Step(g, e).table.faults[i]; h.node == f.node && h.code == f.code
  {
    hide HM.Dropped, HM.FirstOffline, Heard, HM.AfterCheckAll, V.Updated, FM.Count;
  }

  /** In every run an active entry goes quiet in a step exactly if it is the BMS's and the step is CLEAR_DTCS in a session. */
  lemma GoesQuietExactly(es: seq<Event>, e: Event, i: nat)
    requires i < |Run(es).table.faults| && Run(es).table.faults[i].active
    ensures i < |Run(es + [e]).table.faults|
    ensures !Run(es + [e]).table.faults[i].active <==> Run(es).table.faults[i].node == BMS && Clears(Run(es), e)
  {
    var g := Run(es);
    assert (es + [e])[..|es|] == es;
    hide Run, HM.Dropped, HM.FirstOffline, Heard, HM.AfterCheckAll, V.Updated, FM.Count;
    KeysStay(g, e, i);
  }

  // ----- COMM_ERROR -----

  /** The node is dropped by the check of this tick. */
  predicate NodeDrops(g: Gw, k: nat, at: nat, beats: seq<u8>)
    requires WatchesThree(g.nodes) && k < 3
  {
    g.nodes[k].cell.online && !NodeAlive(g, k, at, beats)
  }

  /** Readable before the tick: the powertrain is alive, the BMS is not, and BMS or dashboard is dropped just now. */
  predicate Blames(g: Gw, at: nat, beats: seq<u8>)
    requires WatchesThree(g.nodes)
  {
    NodeAlive(g, 0, at, beats) && !NodeAlive(g, 1, at, beats) && (NodeDrops(g, 1, at, beats) || NodeDrops(g, 2, at, beats))
  }

  lemma LostInTick(g: Gw, at: nat, beats: seq<u8>, k: nat)
    requires WatchesThree(g.nodes) && k < 3
    ensures k in HM.Lost(Heard(g.nodes, beats, at % WRAP), at % WRAP) <==> NodeDrops(g, k, at, beats)
  {
    HeardNode(g.nodes, beats, at % WRAP, k);
    HeardWatches(g.nodes, beats, at % WRAP);
    assert Elapsed(at % WRAP, at % WRAP) == 0;
  }

  lemma SomethingLost(g: Gw, at: nat, beats: seq<u8>)
    requires WatchesThree(g.nodes)
    ensures HM.Dropped(Heard(g.nodes, beats, at % WRAP), at % WRAP) > 0 <==>
            NodeDrops(g, 0, at, beats) || NodeDrops(g, 1, at, beats) || NodeDrops(g, 2, at, beats)
  {
    var lost := HM.Lost(Heard(g.nodes, beats, at % WRAP), at % WRAP);
    HM.DroppedCounts(Heard(g.nodes, beats, at % WRAP), at % WRAP);
    HeardNode(g.nodes, beats, at % WRAP, 0);
    LostInTick(g, at, beats, 0);
    LostInTick(g, at, beats, 1);
    LostInTick(g, at, beats, 2);
    hide NodeDrops;
    if |lost| > 0 {
      var k :| k in lost;
      assert k == 0 || k == 1 || k == 2;
    } else {
      assert lost == {};
    }
  }

  lemma BlamedNode(g: Gw, at: nat, beats: seq<u8>)
    requires WatchesThree(g.nodes)
    ensures HM.FirstOffline(Ticked(g, at, beats).nodes) == BMS <==>
            NodeAlive(g, 0, at, beats) && !NodeAlive(g, 1, at, beats)
  {
    var ns := Ticked(g, at, beats).nodes;
    HeardWatches(g.nodes, beats, at % WRAP);
    NodeAfterTick(g, 0, at, beats);
    NodeAfterTick(g, 1, at, beats);
    NodeAfterTick(g, 2, at, beats);
    assert WatchesThree(ns);
    hide Ticked, NodeAlive;
    HM.FirstOfflineIs(ns, if !ns[0].cell.online then 0 else if !ns[1].cell.online then 1
                          else if !ns[2].cell.online then 2 else 3);
  }

  /** A tick reports COMM_ERROR exactly then, and else leaves the fault table alone. */
  lemma TickReportsExactly(g: Gw, at: nat, beats: seq<u8>)
    requires WatchesThree(g.nodes)
    ensures Ticked(g, at, beats).table ==
            if Blames(g, at, beats) then FM.Reported(g.table, BMS, FM.COMM_ERROR, 2) else g.table
  {
    SomethingLost(g, at, beats);
    BlamedNode(g, at, beats);
    hide NodeAlive, HM.Dropped, HM.FirstOffline, FM.Reported, HM.AfterCheckAll, Heard;
  }

  /** The step puts COMM_ERROR in the table, if the table takes it. */
  predicate Raises(g: Gw, e: Event)
    requires WatchesThree(g.nodes)
  {
    (e == BmsFault(FM.COMM_ERROR) || (e.Tick? && Blames(g, e.at, e.beats))) && FM.Accepts(g.table, BMS, FM.COMM_ERROR)
  }

  lemma CommErrorStep(g: Gw, e: Event)
    requires Sound(g)
    ensures CommErrorActive(Step(g, e).table) <==> Raises(g, e) || (CommErrorActive(g.table) && !Clears(g, e))
  {
    hide FM.Accepts, FM.Count, FM.Consistent, FM.Graded, Blames;
    if e.Tick? {
      TickReportsExactly(g, e.at, e.beats);
      ReportKeepsCommError(g.table, FM.COMM_ERROR, 2);
    } else if e.BmsFault? {
      ReportKeepsCommError(g.table, e.code, FM.BmsSeverity(e.code));
    } else if Clears(g, e) {
      ClearEndsCommError(g.table);
    }
  }

  /** A report of another code leaves COMM_ERROR as it is; one of COMM_ERROR activates it if the table takes it. */
  lemma ReportKeepsCommError(t: FM.Table, code: u8, severity: u8)
    ensures CommErrorActive(FM.Reported(t, BMS, code, severity)) <==>
            CommErrorActive(t) || (code == FM.COMM_ERROR && FM.Accepts(t, BMS, code))
  {
    ReportedIsActive(t, BMS, code, severity);
    var r := FM.Reported(t, BMS, code, severity);
    var i := FM.FindActive(t.faults, BMS, FM.COMM_ERROR);
    var j := FM.FindActive(r.faults, BMS, FM.COMM_ERROR);
    if code == FM.COMM_ERROR {
      ActiveKeyIsAccepted(t);
    } else {
      if i < |t.faults| {
        assert r.faults[i] == t.faults[i];
      }
      if j < |r.faults| {
        assert r.faults[j].code == FM.COMM_ERROR;
        assert r.faults[j] == t.faults[j];
      }
    }
  }

  lemma ClearEndsCommError(t: FM.Table)
    ensures !CommErrorActive(FM.Cleared(t, FM.OfNode(BMS)))
  {
    var fs := FM.Cleared(t, FM.OfNode(BMS)).faults;
    assert forall i :: 0 <= i < |fs| ==> fs[i] == FM.Quiet(t.faults[i], FM.OfNode(BMS));
  }

  lemma WatchedAlways(es: seq<Event>)
    ensures WatchesThree(Run(es).nodes)
  {
    RunsAreSound(es);
  }

  ghost function RaisedAt(es: seq<Event>): nat -> bool {
    (k: nat) => k < |es| && WatchesThree(Run(es[..k]).nodes) && Raises(Run(es[..k]), es[k])
  }

  ghost function ClearedAt(es: seq<Event>): nat -> bool { (k: nat) => k < |es| && Clears(Run(es[..k]), es[k]) }

  /** Over every run, COMM_ERROR is active exactly if a frame or a blaming tick raised it and no CLEAR_DTCS of a session came since. */
  lemma CommErrorExactly(es: seq<Event>)
    ensures CommErrorActive(Run(es).table) <==> Since(|es|, RaisedAt(es), ClearedAt(es))
  {
    CommErrorUpTo(es, |es|);
    assert es[..|es|] == es;
  }

  lemma {:induction false} CommErrorUpTo(es: seq<Event>, n: nat)
    requires n <= |es|
    ensures CommErrorActive(Run(es[..n]).table) <==> Since(n, RaisedAt(es), ClearedAt(es))
  {
    hide Step, Raises, Clears, WatchesThree, FM.FindActive;
    if n > 0 {
      CommErrorUpTo(es, n - 1);
      assert es[..n][..n - 1] == es[..n - 1];
      RunsAreSound(es[..n - 1]);
      WatchedAlways(es[..n - 1]);
      CommErrorStep(Run(es[..n - 1]), es[n - 1]);
      SinceNext(n - 1, RaisedAt(es), ClearedAt(es));
    }
  }

  /**
    * A run without a COMM_ERROR frame in which no tick drops the BMS or the dashboard never records
    * COMM_ERROR. A node that was never heard is never dropped, so that the ordinary boot, in which
    * the powertrain beats first, records nothing.
    */
  lemma QuietRunsRecordNothing(es: seq<Event>)
    requires BmsFault(FM.COMM_ERROR) !in es
    requires forall k :: 0 <= k < |es| && es[k].Tick? ==>
               WatchesThree(Run(es[..k]).nodes) &&
               !NodeDrops(Run(es[..k]), 1, es[k].at, es[k].beats) && !NodeDrops(Run(es[..k]), 2, es[k].at, es[k].beats)
    ensures !CommErrorActive(Run(es).table)
  {
    hide Run, NodeDrops, CommErrorActive, WatchesThree, Clears, FM.Accepts;
    CommErrorExactly(es);
    forall k: nat | k < |es|
      ensures !RaisedAt(es)(k)
    {
      assert es[k] in es;
    }
  }

  /** Boot with the powertrain alone: nothing is recorded and the mode stays OFF. */
  lemma BootWithPowertrain(at: nat)
    ensures var g := Run([Tick(at, [POWERTRAIN])]); g.table == FM.EMPTY && g.vehicle.mode == V.Off
  {
    var e := Tick(at, [POWERTRAIN]);
    RunOne(INIT, e);
    WatchedAlways([]);
    TickReportsExactly(INIT, at, [POWERTRAIN]);
    NodeAfterTick(INIT, 1, at, [POWERTRAIN]);
    hide Heard, HM.AfterCheckAll, HM.Dropped, HM.FirstOffline, TimeoutReport;
  }

  /**
    * One might expect that a BMS never heard is never reported. But the first offline node is blamed
    * for any drop: the dashboard beats once and falls silent, and the BMS gets the fault.
    */
  lemma SilentBmsIsBlamed()
    ensures var g := Run([Tick(10, [POWERTRAIN, DASHBOARD]), Tick(310, [POWERTRAIN])]);
            CommErrorActive(g.table) && g.vehicle.mode == V.Fault
  {
    var e, f := Tick(10, [POWERTRAIN, DASHBOARD]), Tick(310, [POWERTRAIN]);
    hide Step, Run, Blames, NodeAlive, FM.Reported, CommErrorActive, HasActiveCritical;
    BmsNeverHeard();
    var g := Run([e]);
    WatchedAlways([e]);
    TickReportsExactly(g, 310, f.beats);
    assert Run([e, f]) == Ticked(g, 310, f.beats) by { SecondTick(e, f); }
    NoticedIsActive(FM.EMPTY);
    TickEndsInFaultExactly([e], 310, f.beats);
    assert [e] + [f] == [e, f];
    NewCommErrorIsCritical();
  }

  lemma SecondTick(e: Event, f: Event)
    requires f.Tick?
    ensures Run([e, f]) == Ticked(Run([e]), f.at, f.beats)
  {
    hide Ticked;
    assert [e, f][..1] == [e];
  }

  lemma NewCommErrorIsCritical()
    ensures HasActiveCritical(FM.Reported(FM.EMPTY, BMS, FM.COMM_ERROR, 2))
  {
    assert FM.Reported(FM.EMPTY, BMS, FM.COMM_ERROR, 2).faults[0] == FM.Fault(BMS, FM.COMM_ERROR, true, 2);
  }

  /** After the first of those ticks the second is a blaming one. */
  lemma BmsNeverHeard()
    ensures var g := Run([Tick(10, [POWERTRAIN, DASHBOARD])]);
            WatchesThree(g.nodes) && g.table == FM.EMPTY && Blames(g, 310, [POWERTRAIN])
  {
    var e := Tick(10, [POWERTRAIN, DASHBOARD]);
    RunOne(INIT, e);
    WatchedAlways([]);
    WatchedAlways([e]);
    HeardNode(INIT.nodes, e.beats, 10, 1);
    HeardNode(INIT.nodes, e.beats, 10, 2);
    TickReportsExactly(INIT, 10, e.beats);
    hide Heard, HM.Dropped, HM.FirstOffline, TimeoutReport;
  }

  // ----- severities and counters -----

  /** The active entries with one of these codes. */
  ghost function ActiveWith(t: FM.Table, codes: set<u8>): set<int> {
    set i | 0 <= i < |t.faults| && t.faults[i].active && t.faults[i].code in codes
  }

  /** In every run the critical counter counts active codes 1, 2 and 5, and the warning counter 3 and 4; other codes count nowhere. */
  lemma CountersByCode(es: seq<Event>)
    ensures var t := Run(es).table;
            t.critical == |ActiveWith(t, {1, 2, 5})| && t.warning == |ActiveWith(t, {3, 4})|
  {
    RunsAreSound(es);
    hide Run;
    var t := Run(es).table;
    FM.CountIsCardinality(t.faults, FM.Everything, FM.Critical);
    FM.CountIsCardinality(t.faults, FM.Everything, FM.Warning);
    forall i | 0 <= i < |t.faults|
      ensures t.faults[i].severity == FM.BmsSeverity(t.faults[i].code)
    {
      assert t.faults[i].severity == Grade(t.faults[i].node, t.faults[i].code);
    }
    assert FM.Positions(t.faults, FM.Everything, FM.Critical) == ActiveWith(t, {1, 2, 5});
    assert FM.Positions(t.faults, FM.Everything, FM.Warning) == ActiveWith(t, {3, 4});
  }

  // ----- answers -----

  /** What a request changes: mode and session by an accepted start, the session by an end, BMS entries by a clear; never the nodes. */
  lemma RequestChanges(g: Gw, len: nat, service: u8, request: u8)
    ensures var h := Diagnosed(g, len, service); var e := Diag(len, service, request);
            && h.vehicle == (if Starts(g, e) then g.vehicle.(mode := V.Service) else g.vehicle)
            && h.session == (Starts(g, e) || (g.session && !EndsSession(e)))
            && h.table == (if Clears(g, e) then FM.Cleared(g.table, FM.OfNode(BMS)) else g.table)
            && h.nodes == g.nodes
  {
  }

  predicate Known(service: u8) { service in {START_SESSION, END_SESSION, READ_MODE, READ_DTCS, CLEAR_DTCS, ACTUATOR_TEST} }

  /**
    * In every run: a request shorter than four bytes gets no answer, any other one with its service
    * and id. It is rejected exactly for a start while driving and for a clear or an actuator test
    * without a session, and unsupported exactly for an unknown service.
    */
  lemma StatusExactly(es: seq<Event>, len: nat, service: u8, request: u8)
    ensures var g := Run(es); var a := Answered(g, len, service, request);
            && (a.Silence? <==> len < 4)
            && (len >= 4 ==>
                && a.r.service == service && a.r.request == request
                && (a.r.status == Unsupported <==> !Known(service))
                && (a.r.status == Rejected <==>
                    (service == START_SESSION && g.vehicle.mode == V.Drive)
                    || (service in {CLEAR_DTCS, ACTUATOR_TEST} && !g.session)))
  {
    RunsAreSound(es);
    hide Run, FM.Count, FM.FirstActiveKey;
  }

  /** The values of an answer: a mode byte, or the number and first code of the active faults. */
  lemma ValuesExactly(es: seq<Event>, service: u8, request: u8, i: nat)
    requires var fs := Run(es).table.faults;
             i <= |fs| && (forall j :: 0 <= j < i ==> !fs[j].active) && (i < |fs| ==> fs[i].active)
    ensures var g := Run(es); var fs := g.table.faults; var a := Answered(g, 4, service, request);
            && a.Answer?
            && (service == START_SESSION ==> a.r.value0 == if g.vehicle.mode == V.Drive then 2 else 6)
            && (service in {END_SESSION, READ_MODE, ACTUATOR_TEST} ==> V.ModeOf(a.r.value0) == g.vehicle.mode)
            && (service == READ_DTCS ==>
                && a.r.value0 == |FM.Positions(fs, FM.Everything, FM.Any)|
                && a.r.value1 == if i < |fs| then fs[i].code else 0)
            && (service == CLEAR_DTCS || !Known(service) ==> a.r.value0 == 0)
            && (service != READ_DTCS ==> a.r.value1 == 0)
  {
    RunsAreSound(es);
    ModesOfRuns(es);
    var g := Run(es);
    hide Run;
    FM.CountIsCardinality(g.table.faults, FM.Everything, FM.Any);
    FM.FirstActiveKeyIs(g.table.faults, i);
    hide FM.Count, FM.FirstActiveKey;
  }

  // ----- modes -----

  /** LIMP, CHARGING, OTA and transport never occur in gateway runs. */
  lemma {:induction false} ModesOfRuns(es: seq<Event>)
    ensures Usual(Run(es).vehicle.mode)
  {
    hide Step;
    if es != [] {
      ModesOfRuns(es[..|es| - 1]);
      UsualStep(Run(es[..|es| - 1]), es[|es| - 1]);
    }
  }

  predicate Usual(m: V.Mode) { m == V.Off || m == V.Ready || m == V.Drive || m == V.Service || m == V.Fault }

  lemma UsualStep(g: Gw, e: Event)
    requires Usual(g.vehicle.mode)
    ensures Usual(Step(g, e).vehicle.mode)
  {
    hide FM.Reported, FM.Cleared, Heard, TimeoutReport, HM.AfterCheckAll, HM.AllOnline, FM.Count;
  }

  ghost predicate AllAlive(g: Gw, at: nat, beats: seq<u8>)
    requires WatchesThree(g.nodes)
  {
    NodeAlive(g, 0, at, beats) && NodeAlive(g, 1, at, beats) && NodeAlive(g, 2, at, beats)
  }

  lemma AllOnlineAfterTick(g: Gw, at: nat, beats: seq<u8>)
    requires WatchesThree(g.nodes)
    ensures HM.AllOnline(Ticked(g, at, beats).nodes) <==> AllAlive(g, at, beats)
  {
    NodeAfterTick(g, 0, at, beats);
    NodeAfterTick(g, 1, at, beats);
    NodeAfterTick(g, 2, at, beats);
    hide Ticked, NodeAlive;
  }

  /** The mode a tick without critical fault leads to, by session, old mode and nodes. */
  function CalmMode(session: bool, mode: V.Mode, alive: bool): V.Mode {
    if session then V.Service
    else if mode == V.Service then V.Off
    else if alive then (if mode == V.Drive then V.Drive else V.Ready)
    else if mode == V.Drive then V.Ready else V.Off
  }

  lemma TickMode(g: Gw, at: nat, beats: seq<u8>)
    requires WatchesThree(g.nodes) && Usual(g.vehicle.mode)
    ensures var h := Ticked(g, at, beats);
            && (h.vehicle.mode != V.Fault ==> h.vehicle.mode == CalmMode(g.session, g.vehicle.mode, AllAlive(g, at, beats)))
            && (h.vehicle.allOnline <==> AllAlive(g, at, beats))
            && (h.vehicle.bmsFault <==> h.table.critical > 0) && !h.vehicle.bmsLimp
            && h.vehicle.faultCount == FM.Count(h.table.faults, FM.Everything, FM.Any)
            && h.session == g.session && h.vehicle.booted == g.vehicle.booted
  {
    AllOnlineAfterTick(g, at, beats);
    hide Heard, TimeoutReport, HM.AfterCheckAll, HM.AllOnline, AllAlive, FM.Count;
  }

  /** Outside FAULT a tick decides the mode by session, old mode and nodes alone, and records what it saw. */
  lemma TickModeExactly(es: seq<Event>, at: nat, beats: seq<u8>)
    ensures var g, h := Run(es), Run(es + [Tick(at, beats)]);
            && WatchesThree(g.nodes)
            && (h.vehicle.mode != V.Fault ==> h.vehicle.mode == CalmMode(g.session, g.vehicle.mode, AllAlive(g, at, beats)))
            && (h.vehicle.allOnline <==> AllAlive(g, at, beats))
            && (h.vehicle.bmsFault <==> HasActiveCritical(h.table)) && !h.vehicle.bmsLimp
            && h.vehicle.faultCount == |FM.Positions(h.table.faults, FM.Everything, FM.Any)|
            && h.session == g.session && h.vehicle.booted == g.vehicle.booted
  {
    hide Ticked, CalmMode, AllAlive, FM.Consistent, FM.Graded, HasActiveCritical, FM.Count, FM.Positions, Usual, WatchesThree;
    var g, e := Run(es), Tick(at, beats);
    var h := Run(es + [e]);
    assert (es + [e])[..|es|] == es;
    WatchedAlways(es);
    ModesOfRuns(es);
    RunsAreSound(es + [e]);
    CriticalIsCounted(h.table);
    FM.CountIsCardinality(h.table.faults, FM.Everything, FM.Any);
    TickMode(g, at, beats);
  }
}
