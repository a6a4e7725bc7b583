/** What every run of the gateway keeps, and the lost-BMS rule S5. */
module GatewayRuns {
  import opened Ints
  import opened Timeouts
  import opened Gateway
  import HM = HeartbeatMonitor
  import FM = FaultManager
  import V = Vehicle

  datatype Event =
    | BmsFault(code: u8)
    | Diag(len: nat, service: u8, request: u8)
    | Tick(at: nat, beats: seq<u8>)
    | EnterDrive
    | Reboot

  function Step(g: Gw, e: Event): Gw {
    match e
    case BmsFault(code) => FaultFrame(g, code)
    case Diag(len, service, _) => Diagnosed(g, len, service)
    case Tick(at, beats) => Ticked(g, at, beats)
    case EnterDrive => g.(vehicle := V.DriveRequested(g.vehicle))
    case Reboot => g.(vehicle := V.REBOOTED)
  }

  function RunFrom(g: Gw, es: seq<Event>): Gw {
    if es == [] then g else Step(RunFrom(g, es[..|es| - 1]), es[|es| - 1])
  }

  function Run(es: seq<Event>): Gw { RunFrom(INIT, es) }

  // ----- the invariant -----

  /** The three monitored nodes, in registration order. */
  predicate WatchesThree(ns: seq<HM.Node>) {
    && |ns| == 3 && ns[0].id == POWERTRAIN && ns[1].id == BMS && ns[2].id == DASHBOARD
    && ns[0].timeout == ns[1].timeout == ns[2].timeout == TIMEOUT_MS
  }

  function Grade(node: u8, code: u8): u8 { FM.BmsSeverity(code) }

  ghost predicate Sound(g: Gw) {
    && WatchesThree(g.nodes)
    && FM.Consistent(g.table) && FM.Graded(g.table, Grade)
    && (g.session ==> g.vehicle.mode == V.Service || g.vehicle.mode == V.Fault || g.vehicle.mode == V.Off)
  }

  lemma {:induction false} HeardWatches(ns: seq<HM.Node>, beats: seq<u8>, now: u32)
    requires WatchesThree(ns)
    ensures WatchesThree(Heard(ns, beats, now))
    ensures BMS !in beats ==> Heard(ns, beats, now)[1] == ns[1]
    ensures BMS in beats ==> Heard(ns, beats, now)[1].cell == Cell(true, now)
  {
    if beats != [] {
      var n := |beats| - 1;
      HeardWatches(ns, beats[..n], now);
      var mid := Heard(ns, beats[..n], now);
      HM.BeatHitsItsNode(mid, beats[n], now, 0);
      HM.BeatHitsItsNode(mid, beats[n], now, 1);
      HM.BeatHitsItsNode(mid, beats[n], now, 2);
      assert beats == beats[..n] + [beats[n]];
    }
  }

  lemma TimeoutReportKeepsTable(heard: seq<HM.Node>, t: FM.Table, now: u32)
    requires FM.Consistent(t) && FM.Graded(t, Grade)
    ensures FM.Consistent(TimeoutReport(heard, t, now)) && FM.Graded(TimeoutReport(heard, t, now), Grade)
  {
    hide FM.Consistent, FM.Graded, FM.Reported;
    FM.ApplyKeepsRecount(t, FM.Report(BMS, FM.COMM_ERROR, 2), Grade);
  }

  lemma TickKeepsSound(g: Gw, at: nat, beats: seq<u8>)
    requires Sound(g)
    ensures Sound(Ticked(g, at, beats))
  {
    hide FM.Consistent, FM.Graded, TimeoutReport;
    var now := at % WRAP;
    var heard := Heard(g.nodes, beats, now);
    HeardWatches(g.nodes, beats, now);
    TimeoutReportKeepsTable(heard, g.table, now);
  }

  lemma StepKeepsSound(g: Gw, e: Event)
    requires Sound(g)
    ensures Sound(Step(g, e))
  {
    hide FM.Consistent, FM.Graded, FM.Reported, FM.Cleared;
    match e
    case BmsFault(code) => FM.ApplyKeepsRecount(g.table, FM.Report(BMS, code, FM.BmsSeverity(code)), Grade);
    case Diag(_, _, _) => FM.ApplyKeepsRecount(g.table, FM.ClearIn(FM.OfNode(BMS)), Grade);
    case Tick(at, beats) => TickKeepsSound(g, at, beats);
    case EnterDrive =>
    case Reboot =>
  }

  lemma {:induction false} RunsAreSound(es: seq<Event>)
    ensures Sound(Run(es))
  {
    if es != [] {
      RunsAreSound(es[..|es| - 1]);
      StepKeepsSound(Run(es[..|es| - 1]), es[|es| - 1]);
    }
  }

  // ----- mode safety over all runs -----

  ghost predicate HasActiveCritical(t: FM.Table) {
    exists i :: 0 <= i < |t.faults| && t.faults[i].active && t.faults[i].severity == 2
  }

  predicate StartsSession(e: Event) { e.Diag? && e.len >= 4 && e.service == START_SESSION }

  /** A reboot with no tick and no session start after it. */
  predicate Dark(es: seq<Event>) {
    es != [] &&
    var e := es[|es| - 1];
    e == Reboot || (!e.Tick? && !StartsSession(e) && Dark(es[..|es| - 1]))
  }

  /** While a session is active the mode is OFF exactly in the dark after a reboot, and else SERVICE or FAULT. */
  lemma {:induction false} SessionMode(es: seq<Event>)
    ensures var g := Run(es);
            && (Dark(es) ==> g.vehicle.mode == V.Off)
            && (g.session ==> (g.vehicle.mode == V.Off <==> Dark(es)))
            && (g.session && !Dark(es) ==> g.vehicle.mode == V.Service || g.vehicle.mode == V.Fault)
  {
    if es != [] {
      SessionMode(es[..|es| - 1]);
    }
  }

  /** The smallest such run: a session that outlives a reboot. */
  lemma SessionOutlivesReboot()
    ensures var g := Run([Diag(4, START_SESSION, 0), Reboot]); g.session && g.vehicle.mode == V.Off
  {
    var e := Diag(4, START_SESSION, 0);
    RunOne(INIT, e);
    assert [e, Reboot][..1] == [e];
  }

  /** No step takes DRIVE straight to SERVICE. */
  lemma DriveNeverBecomesService(es: seq<Event>, e: Event)
    requires Run(es).vehicle.mode == V.Drive
    ensures Run(es + [e]).vehicle.mode != V.Service
  {
    RunsAreSound(es);
    assert (es + [e])[..|es|] == es;
  }

  /** Every tick ends in FAULT exactly if a critical fault is active then, or FAULT was on and no session is. */
  lemma TickEndsInFaultExactly(es: seq<Event>, at: nat, beats: seq<u8>)
    ensures var before, after := Run(es), Run(es + [Tick(at, beats)]);
            after.vehicle.mode == V.Fault <==>
            HasActiveCritical(after.table) || (before.vehicle.mode == V.Fault && !before.session)
  {
    hide FM.Consistent, FM.Graded, TimeoutReport;
    RunsAreSound(es + [Tick(at, beats)]);
    assert (es + [Tick(at, beats)])[..|es|] == es;
    FM.CriticalFlagIsExact(Run(es + [Tick(at, beats)]).table);
  }

  /** FAULT is left only by a reboot or with a diagnostic session active. */
  lemma FaultIsLeftOnlyInSession(es: seq<Event>, e: Event)
    requires Run(es).vehicle.mode == V.Fault && Run(es + [e]).vehicle.mode != V.Fault
    ensures e == Reboot || Run(es + [e]).session
  {
    assert (es + [e])[..|es|] == es;
  }

  // ----- diagnostics -----

  lemma ReadsActiveCount(g: Gw, request: u8)
    requires |g.table.faults| <= FM.MAX_FAULTS
    ensures Answered(g, 4, READ_DTCS, request) ==
            Answer(Response(READ_DTCS, request, Ok, FM.Count(g.table.faults, FM.Everything, FM.Any),
                            FM.FirstActiveKey(g.table.faults).1))
  {
  }

  lemma ClearsBmsOnly(g: Gw)
    requires g.session
    ensures Diagnosed(g, 4, CLEAR_DTCS) == g.(table := FM.Cleared(g.table, FM.OfNode(BMS)))
  {
  }

  /** In a session, CLEAR_DTCS lowers the next READ_DTCS count by exactly the active BMS faults. */
  lemma ClearThenRead(es: seq<Event>, r0: u8, r1: u8)
    requires Run(es).session
    ensures var g := Run(es);
            var h := Diagnosed(g, 4, CLEAR_DTCS);
            var a0, a1 := Answered(g, 4, READ_DTCS, r0), Answered(h, 4, READ_DTCS, r1);
            && a0.Answer? && a1.Answer?
            && a1.r.value0 == a0.r.value0 - FM.Count(g.table.faults, FM.OfNode(BMS), FM.Any)
            && forall i :: 0 <= i < |g.table.faults| && g.table.faults[i].node != BMS ==>
                 h.table.faults[i] == g.table.faults[i]
  {
    RunsAreSound(es);
    var g := Run(es);
    assert |g.table.faults| <= FM.MAX_FAULTS;
    hide Answered, Diagnosed, FM.Count, FM.Quieted, FM.FirstActiveKey, Run, Sound;
    ReadsActiveCount(g, r0);
    ClearsBmsOnly(g);
    ReadsActiveCount(Diagnosed(g, 4, CLEAR_DTCS), r1);
    FM.ClearNodeDropsItsOwn(g.table, BMS);
  }

  // ----- S5: a lost BMS -----

  predicate BmsOnlineSince(g: Gw, b: nat) {
    WatchesThree(g.nodes) && g.nodes[1].cell == Cell(true, b % WRAP)
  }

  /** No tick of `es` dequeues a BMS heartbeat, and all come after b and before `limit`. */
  predicate BmsSilent(es: seq<Event>, b: nat, limit: nat) {
    forall i :: 0 <= i < |es| && es[i].Tick? ==> BMS !in es[i].beats && b <= es[i].at < limit
  }

  /** Until the timeout, whatever else happens, the BMS counts as online: the rule never fires early. */
  lemma {:induction false} BmsStaysOnline(g: Gw, es: seq<Event>, b: nat)
    requires BmsOnlineSince(g, b) && BmsSilent(es, b, b + TIMEOUT_MS)
    ensures BmsOnlineSince(RunFrom(g, es), b)
  {
    if es != [] {
      var n := |es| - 1;
      BmsStaysOnline(g, es[..n], b);
      if es[n].Tick? {
        var now := es[n].at % WRAP;
        HeardWatches(RunFrom(g, es[..n]).nodes, es[n].beats, now);
        ElapsedIsExact(es[n].at, b);
      }
    }
  }

  predicate CommErrorActive(t: FM.Table) {
    FM.FindActive(t.faults, BMS, FM.COMM_ERROR) < |t.faults|
  }

  lemma {:induction false} SomeDropped(ns: seq<HM.Node>, now: u32, i: nat)
    requires i < |ns| && ns[i].cell.online && !HM.Checked(ns[i], now).cell.online
    ensures HM.Dropped(ns, now) > 0
  {
    if i < |ns| - 1 {
      SomeDropped(ns[..|ns| - 1], now, i);
    }
  }

  /** The check at `now` drops a BMS silent since b and blames it exactly if the powertrain is online. */
  lemma TimeoutBlamesBms(heard: seq<HM.Node>, b: nat, at: nat)
    requires WatchesThree(heard) && heard[1].cell == Cell(true, b % WRAP) && b + TIMEOUT_MS <= at < b + WRAP
    ensures var now := at % WRAP; var checked := HM.AfterCheckAll(heard, now);
            && HM.Dropped(heard, now) > 0 && !checked[1].cell.online
            && (HM.FirstOffline(checked) == BMS <==> checked[0].cell.online)
  {
    ElapsedIsExact(at, b);
    SomeDropped(heard, at % WRAP, 1);
    var checked := HM.AfterCheckAll(heard, at % WRAP);
    assert checked[1..][0] == checked[1];
  }

  lemma ReportedIsActive(t: FM.Table, node: u8, code: u8, severity: u8)
    ensures FM.FindActive(FM.Reported(t, node, code, severity).faults, node, code) < |FM.Reported(t, node, code, severity).faults|
            <==> FM.Accepts(t, node, code)
  {
    var r := FM.Reported(t, node, code, severity);
    var i := FM.Find(t.faults, node, code);
    if FM.Accepts(t, node, code) {
      assert r.faults[i] == FM.Fault(node, code, true, severity);
    }
  }

  /** Readable before the tick: the node beats in it, or is online with a beat less than 300 ms old. */
  predicate NodeAlive(g: Gw, k: nat, at: nat, beats: seq<u8>)
    requires WatchesThree(g.nodes) && k < 3
  {
    var n := g.nodes[k];
    n.id in beats || (n.cell.online && Elapsed(at % WRAP, n.cell.last) < TIMEOUT_MS)
  }

  predicate PowertrainAlive(g: Gw, at: nat, beats: seq<u8>)
    requires WatchesThree(g.nodes)
  {
    NodeAlive(g, 0, at, beats)
  }

  lemma {:induction false} HeardNode(ns: seq<HM.Node>, beats: seq<u8>, now: u32, k: nat)
    requires WatchesThree(ns) && k < 3
    ensures |Heard(ns, beats, now)| == 3
    ensures Heard(ns, beats, now)[k] == if ns[k].id in beats then ns[k].(cell := Cell(true, now)) else ns[k]
  {
    if beats != [] {
      var n := |beats| - 1;
      HeardNode(ns, beats[..n], now, k);
      HeardWatches(ns, beats[..n], now);
      HM.BeatHitsItsNode(Heard(ns, beats[..n], now), beats[n], now, k);
    }
  }

  lemma NodeAfterTick(g: Gw, k: nat, at: nat, beats: seq<u8>)
    requires WatchesThree(g.nodes) && k < 3
    ensures |Ticked(g, at, beats).nodes| == 3
    ensures Ticked(g, at, beats).nodes[k].cell.online <==> NodeAlive(g, k, at, beats)
  {
    HeardNode(g.nodes, beats, at % WRAP, k);
  }

  /** What the tick that notices a lost BMS depends on. */
  predicate Noticed(before: Gw, at: nat, beats: seq<u8>)
    requires WatchesThree(before.nodes)
  {
    PowertrainAlive(before, at, beats) && FM.Accepts(before.table, BMS, FM.COMM_ERROR)
  }

  /**
    * S5. After a tick at b that heard the BMS, let any frames and ticks follow without a BMS
    * heartbeat, and let `at` be the first tick 300 ms or more after b. That tick leaves COMM_ERROR
    * active exactly if it already was, or the powertrain is alive and the table takes the report. It
    * ends in FAULT exactly in the second case, or if a critical fault was active or FAULT was on
    * outside a session.
    */
  lemma LostBmsRule(g: Gw, b: nat, es: seq<Event>, at: nat, beats: seq<u8>)
    requires Sound(g) && BmsOnlineSince(g, b)
    requires BmsSilent(es, b, b + TIMEOUT_MS) && BMS !in beats && b + TIMEOUT_MS <= at < b + WRAP
    ensures var before := RunFrom(g, es); var after := Step(before, Tick(at, beats));
            && WatchesThree(before.nodes) && WatchesThree(after.nodes)
            && before.nodes[1].cell.online && !after.nodes[1].cell.online
            && (CommErrorActive(after.table) <==> CommErrorActive(before.table) || Noticed(before, at, beats))
            && (after.vehicle.mode == V.Fault <==>
                Noticed(before, at, beats) || HasActiveCritical(before.table)
                || (before.vehicle.mode == V.Fault && !before.session))
  {
    hide FM.Consistent, FM.Graded, HasActiveCritical, CommErrorActive, FM.Accepts, HM.Dropped, HM.FirstOffline;
    var before := RunFrom(g, es);
    BmsStaysOnline(g, es, b);
    SoundFrom(g, es);
    LostBmsTable(before, b, at, beats);
    var after := Step(before, Tick(at, beats));
    StepKeepsSound(before, Tick(at, beats));
    CriticalIsCounted(before.table);
    CriticalIsCounted(after.table);
    CommErrorIsCritical(after.table);
    if Noticed(before, at, beats) {
      NoticedIsActive(before.table);
    }
  }

  /** The fault table and the nodes after that tick. */
  lemma LostBmsTable(before: Gw, b: nat, at: nat, beats: seq<u8>)
    requires Sound(before) && BmsOnlineSince(before, b)
    requires BMS !in beats && b + TIMEOUT_MS <= at < b + WRAP
    ensures var after := Ticked(before, at, beats);
            && WatchesThree(after.nodes) && !after.nodes[1].cell.online
            && after.table == (if PowertrainAlive(before, at, beats) then FM.Reported(before.table, BMS, FM.COMM_ERROR, 2)
                               else before.table)
            && (CommErrorActive(after.table) <==> CommErrorActive(before.table) || Noticed(before, at, beats))
            && (!Noticed(before, at, beats) ==> after.table == before.table)
  {
    var now := at % WRAP;
    HeardWatches(before.nodes, beats, now);
    TimeoutBlamesBms(Heard(before.nodes, beats, now), b, at);
    NodeAfterTick(before, 0, at, beats);
    ReportedIsActive(before.table, BMS, FM.COMM_ERROR, 2);
    ActiveKeyIsAccepted(before.table);
  }

  lemma CriticalIsCounted(t: FM.Table)
    requires FM.Consistent(t)
    ensures HasActiveCritical(t) <==> t.critical > 0
  {
    FM.CriticalFlagIsExact(t);
  }

  lemma NoticedIsActive(t: FM.Table)
    requires FM.Accepts(t, BMS, FM.COMM_ERROR)
    ensures CommErrorActive(FM.Reported(t, BMS, FM.COMM_ERROR, 2))
  {
    ReportedIsActive(t, BMS, FM.COMM_ERROR, 2);
  }

  lemma ActiveKeyIsAccepted(t: FM.Table)
    ensures CommErrorActive(t) ==> FM.Accepts(t, BMS, FM.COMM_ERROR)
  {
  }

  lemma CommErrorIsCritical(t: FM.Table)
    requires FM.Consistent(t) && FM.Graded(t, Grade)
    ensures CommErrorActive(t) ==> t.critical > 0
  {
    FM.CriticalFlagIsExact(t);
    if CommErrorActive(t) {
      var i := FM.FindActive(t.faults, BMS, FM.COMM_ERROR);
      assert t.faults[i].active && t.faults[i].severity == Grade(BMS, FM.COMM_ERROR) == 2;
    }
  }

  lemma {:induction false} SoundFrom(g: Gw, es: seq<Event>)
    requires Sound(g)
    ensures Sound(RunFrom(g, es))
  {
    if es != [] {
      SoundFrom(g, es[..|es| - 1]);
      StepKeepsSound(RunFrom(g, es[..|es| - 1]), es[|es| - 1]);
    }
  }

  // ----- S5 over whole runs with 10 ms ticks -----

  /** The ticks of `es` continue a 10 ms cadence that had its last tick at b, up to `last`. */
  predicate Cadence(es: seq<Event>, b: nat, last: int) {
    if es == [] then last == b
    else
      var e := es[|es| - 1];
      if e.Tick? then e.at == last && Cadence(es[..|es| - 1], b, last - 10)
      else Cadence(es[..|es| - 1], b, last)
  }

  lemma {:induction false} CadenceBounds(es: seq<Event>, b: nat, last: int)
    requires Cadence(es, b, last)
    ensures b <= last && forall i :: 0 <= i < |es| && es[i].Tick? ==> b < es[i].at <= last
  {
    if es != [] {
      var n := |es| - 1;
      CadenceBounds(es[..n], b, if es[n].Tick? then last - 10 else last);
      assert forall i :: 0 <= i < n ==> es[..n][i] == es[i];
    }
  }

  lemma {:induction false} RunAppend(g: Gw, xs: seq<Event>, ys: seq<Event>)
    ensures RunFrom(g, xs + ys) == RunFrom(RunFrom(g, xs), ys)
  {
    hide Step;
    if ys == [] {
      assert xs + ys == xs;
    } else {
      var n := |ys| - 1;
      assert (xs + ys)[..|xs| + n] == xs + ys[..n];
      RunAppend(g, xs, ys[..n]);
    }
  }

  lemma HeardBmsIsOnline(g: Gw, b: nat, beats: seq<u8>)
    requires Sound(g) && BMS in beats
    ensures BmsOnlineSince(Step(g, Tick(b, beats)), b)
  {
    HeardWatches(g.nodes, beats, b % WRAP);
  }

  ghost predicate NoBmsBeat(es: seq<Event>) {
    forall i :: 0 <= i < |es| && es[i].Tick? ==> BMS !in es[i].beats
  }

  /**
    * In every run with a 10 ms cadence: if the BMS was last heard in the tick at b, it counts as
    * online until the tick at b + 300, and that tick records COMM_ERROR and ends in FAULT exactly
    * under the conditions of `LostBmsRule`.
    */
  lemma LostBmsOnTime(pre: seq<Event>, b: nat, heard: seq<u8>, es: seq<Event>, beats: seq<u8>)
    requires BMS in heard && Cadence(es, b, b + 290) && NoBmsBeat(es) && BMS !in beats
    ensures var before := Run(pre + [Tick(b, heard)] + es);
            var after := Run(pre + [Tick(b, heard)] + es + [Tick(b + 300, beats)]);
            && WatchesThree(before.nodes) && before.nodes[1].cell.online
            && (CommErrorActive(after.table) <==> CommErrorActive(before.table) || Noticed(before, b + 300, beats))
            && (after.vehicle.mode == V.Fault <==>
                Noticed(before, b + 300, beats) || HasActiveCritical(before.table)
                || (before.vehicle.mode == V.Fault && !before.session))
  {
    hide Step, WatchesThree, CommErrorActive, Noticed, HasActiveCritical;
    var first := pre + [Tick(b, heard)];
    assert first[..|pre|] == pre;
    RunsAreSound(pre);
    RunsAreSound(first);
    HeardBmsIsOnline(Run(pre), b, heard);
    CadenceBounds(es, b, b + 290);
    RunAppend(INIT, first, es);
    var all := first + es + [Tick(b + 300, beats)];
    assert all[..|first + es|] == first + es;
    LostBmsRule(Run(first), b, es, b + 300, beats);
  }

  function Three(p: Cell, b: Cell, d: Cell): seq<HM.Node> {
    [HM.Node(POWERTRAIN, p, TIMEOUT_MS), HM.Node(BMS, b, TIMEOUT_MS), HM.Node(DASHBOARD, d, TIMEOUT_MS)]
  }

  lemma BeatThree(p: Cell, b: Cell, d: Cell, now: u32)
    ensures HM.AfterBeat(Three(p, b, d), POWERTRAIN, now) == Three(Cell(true, now), b, d)
    ensures HM.AfterBeat(Three(p, b, d), BMS, now) == Three(p, Cell(true, now), d)
    ensures HM.AfterBeat(Three(p, b, d), DASHBOARD, now) == Three(p, b, Cell(true, now))
  {
    HM.BeatUpdatesFirst(Three(p, b, d), POWERTRAIN, now, 0);
    HM.BeatUpdatesFirst(Three(p, b, d), BMS, now, 1);
    HM.BeatUpdatesFirst(Three(p, b, d), DASHBOARD, now, 2);
  }

  /** The nodes after a tick that heard the BMS and the dashboard, and the powertrain if asked. */
  lemma HeardThree(p: Cell, b: Cell, d: Cell, now: u32)
    ensures Heard(Three(p, b, d), [], now) == Three(p, b, d)
    ensures Heard(Three(p, b, d), [BMS], now) == Three(p, Cell(true, now), d)
    ensures Heard(Three(p, b, d), [BMS, POWERTRAIN], now) == Three(Cell(true, now), Cell(true, now), d)
  {
    hide HM.AfterBeat, Three;
    BeatThree(p, b, d, now);
    BeatThree(p, Cell(true, now), d, now);
    var both: seq<u8> := [BMS, POWERTRAIN];
    var one: seq<u8> := [BMS];
    assert both[..1] == one && one[..0] == [];
    assert Heard(Three(p, b, d), one, now) == HM.AfterBeat(Heard(Three(p, b, d), one[..0], now), BMS, now);
  }

  lemma CheckThree(p: Cell, b: Cell, d: Cell, now: u32)
    ensures HM.AfterCheckAll(Three(p, b, d), now) ==
            Three(AfterCheck(p, now, TIMEOUT_MS), AfterCheck(b, now, TIMEOUT_MS), AfterCheck(d, now, TIMEOUT_MS))
  {
  }

  /** A tick that finds the powertrain offline reports nothing and, with an empty table and no session, leaves the mode at OFF. */
  lemma TickWithoutPowertrain(g: Gw, p: Cell, b: Cell, at: nat, beats: seq<u8>)
    requires g.nodes == Three(p, b, SILENT) && g.table == FM.EMPTY && !g.session && g.vehicle.mode == V.Off
    requires (beats == [] || beats == [BMS]) && !AfterCheck(p, at % WRAP, TIMEOUT_MS).online
    ensures var h := Step(g, Tick(at, beats)); var now := at % WRAP;
            && h.nodes == Three(AfterCheck(p, now, TIMEOUT_MS),
                                AfterCheck(if beats == [] then b else Cell(true, now), now, TIMEOUT_MS), SILENT)
            && h.table == FM.EMPTY && !h.session && h.vehicle.mode == V.Off
  {
    var now := at % WRAP;
    HeardThree(p, b, SILENT, now);
    var b' := if beats == [] then b else Cell(true, now);
    CheckThree(p, b', SILENT, now);
    var checked := HM.AfterCheckAll(Heard(g.nodes, beats, now), now);
    assert checked[0] == HM.Node(POWERTRAIN, AfterCheck(p, now, TIMEOUT_MS), TIMEOUT_MS);
    assert HM.FirstOffline(checked) == POWERTRAIN && !HM.AllOnline(checked);
    assert AfterCheck(SILENT, now, TIMEOUT_MS) == SILENT;
  }

  lemma RunOne(g: Gw, e: Event)
    ensures RunFrom(g, [e]) == Step(g, e)
  {
    hide Step;
    assert [e][..0] == [];
  }

  /**
    * The documented rule has no powertrain condition, and fails without it: the powertrain was
    * never heard, the BMS falls silent after 10 ms, and at 310 ms it is offline without a fault.
    */
  lemma LostBmsUnnoticed()
    ensures var g := Run([Tick(10, [BMS]), Tick(310, [])]);
            g.nodes == Three(SILENT, Cell(false, 10), SILENT) && g.table == FM.EMPTY && g.vehicle.mode == V.Off
  {
    var e, f := Tick(10, [BMS]), Tick(310, []);
    assert [e, f][..1] == [e] && [e][..0] == [];
    assert WATCHED == Three(SILENT, SILENT, SILENT);
    TickWithoutPowertrain(INIT, SILENT, SILENT, 10, [BMS]);
    RunOne(INIT, e);
    TickWithoutPowertrain(Step(INIT, e), SILENT, Cell(true, 10), 310, []);
    hide Step, Three;
    RunAppend(INIT, [e], [f]);
    RunOne(Step(INIT, e), f);
    assert [e] + [f] == [e, f];
  }
}
