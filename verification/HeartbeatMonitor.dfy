/** The gateway's per-node heartbeat table. */
module HeartbeatMonitor {
  import opened Ints
  import opened Timeouts

  const MAX_NODES := 8

  datatype Node = Node(id: u8, cell: Cell, timeout: u32)

  /** The first entry with this id hears the beat; ids nobody registered are ignored. */
  function AfterBeat(ns: seq<Node>, id: u8, now: u32): (r: seq<Node>)
    ensures |r| == |ns|
  {
    if ns == [] then []
    else if ns[0].id == id then [ns[0].(cell := Cell(true, now))] + ns[1..]
    else [ns[0]] + AfterBeat(ns[1..], id, now)
  }

  /** The first i entries have other ids: entry i, if it exists, is the one updated. */
  lemma {:induction false} BeatUpdatesFirst(ns: seq<Node>, id: u8, now: u32, i: nat)
    requires i <= |ns| && forall j :: 0 <= j < i ==> ns[j].id != id
    requires i < |ns| ==> ns[i].id == id
    ensures AfterBeat(ns, id, now) == if i < |ns| then ns[i := ns[i].(cell := Cell(true, now))] else ns
  {
    if i > 0 {
      BeatUpdatesFirst(ns[1..], id, now, i - 1);
    }
  }

  function Checked(n: Node, now: u32): Node {
    n.(cell := AfterCheck(n.cell, now, n.timeout))
  }

  function AfterCheckAll(ns: seq<Node>, now: u32): (r: seq<Node>)
    ensures |r| == |ns|
  {
    seq(|ns|, i requires 0 <= i < |ns| => Checked(ns[i], now))
  }

  /** How many nodes the check takes offline. */
  function Dropped(ns: seq<Node>, now: u32): nat {
    if ns == [] then 0
    else var n := ns[|ns| - 1];
         Dropped(ns[..|ns| - 1], now) + if n.cell.online && !Checked(n, now).cell.online then 1 else 0
  }

  /** The nodes a check finds online and silent for their timeout or longer. */
  ghost function Lost(ns: seq<Node>, now: u32): set<int> {
    set i | 0 <= i < |ns| && ns[i].cell.online && Elapsed(now, ns[i].cell.last) >= ns[i].timeout
  }

  /** The number of transitions is the number of those nodes: one that was offline already is none of them. */
  lemma {:induction false} DroppedCounts(ns: seq<Node>, now: u32)
    ensures Dropped(ns, now) == |Lost(ns, now)|
  {
    if ns != [] {
      var k := |ns| - 1;
      DroppedCounts(ns[..k], now);
      assert Lost(ns, now) == Lost(ns[..k], now) + if k in Lost(ns, now) then {k} else {};
    } else {
      assert Lost(ns, now) == {};
    }
  }

  /** The node blamed is offline and all before it are online; 0 only if all are online, or is somebody's id. */
  lemma {:induction false} FirstOfflineIs(ns: seq<Node>, i: nat)
    requires i <= |ns| && (forall j :: 0 <= j < i ==> ns[j].cell.online) && (i < |ns| ==> !ns[i].cell.online)
    ensures FirstOffline(ns) == if i < |ns| then ns[i].id else 0
  {
    if i > 0 {
      FirstOfflineIs(ns[1..], i - 1);
    }
  }

  predicate AllOnline(ns: seq<Node>) {
    ns != [] && forall i :: 0 <= i < |ns| ==> ns[i].cell.online
  }

  /** The node blamed for a transition: the first offline one in registration order, 0 if none. */
  function FirstOffline(ns: seq<Node>): u8 {
    if ns == [] then 0 else if !ns[0].cell.online then ns[0].id else FirstOffline(ns[1..])
  }

  class Monitor {
    const nodes: array<Node>
    var nodeCount: nat

    ghost predicate Valid()
      reads this
    {
      nodes.Length == MAX_NODES && nodeCount <= MAX_NODES
    }

    ghost function View(): seq<Node>
      requires Valid()
      reads this, nodes
    {
      nodes[..nodeCount]
    }

    constructor (defaultTimeout: u32)
      ensures Valid() && fresh(nodes) && View() == []
    {
      nodes := new Node[MAX_NODES](_ => Node(0, SILENT, defaultTimeout));
      nodeCount := 0;
    }

    method Register(id: u8, timeout: u32) returns (ok: bool)
      requires Valid()
      modifies this, nodes
      ensures Valid() && ok == (old(nodeCount) < MAX_NODES)
      ensures View() == old(View()) + if ok then [Node(id, SILENT, timeout)] else []
    {
      if nodeCount >= MAX_NODES { return false; }
      nodes[nodeCount] := Node(id, SILENT, timeout);
      nodeCount := nodeCount + 1;
      ok := true;
    }

    method Beat(id: u8, nowMs: u32)
      requires Valid()
      modifies nodes
      ensures Valid() && View() == AfterBeat(old(View()), id, nowMs)
    {
      ghost var was := View();
      for i := 0 to nodeCount
        invariant View() == was && forall j :: 0 <= j < i ==> was[j].id != id
      {
        if nodes[i].id == id {
          BeatUpdatesFirst(was, id, nowMs, i);
          nodes[i] := nodes[i].(cell := Cell(true, nowMs));
          assert View() == was[i := nodes[i]];
          return;
        }
      }
      BeatUpdatesFirst(was, id, nowMs, nodeCount);
    }

    method Check(nowMs: u32) returns (transitions: nat)
      requires Valid()
      modifies nodes
      ensures Valid() && View() == AfterCheckAll(old(View()), nowMs)
      ensures transitions == Dropped(old(View()), nowMs)
    {
      ghost var was := View();
      transitions := 0;
      for i := 0 to nodeCount
        invariant forall j :: 0 <= j < i ==> nodes[j] == Checked(was[j], nowMs)
        invariant forall j :: i <= j < nodeCount ==> nodes[j] == was[j]
        invariant transitions == Dropped(was[..i], nowMs)
      {
        assert was[..i + 1][..i] == was[..i];
        var n := nodes[i];
        var elapsed := (nowMs - n.cell.last) % WRAP;
        if n.cell.online && elapsed >= n.timeout {
          nodes[i] := n.(cell := n.cell.(online := false));
          transitions := transitions + 1;
        }
      }
      assert was[..nodeCount] == was;
    }

    method QueryAllOnline() returns (r: bool)
      requires Valid()
      ensures r == AllOnline(View())
    {
      if nodeCount == 0 { return false; }
      for i := 0 to nodeCount
        invariant forall j :: 0 <= j < i ==> nodes[j].cell.online
      {
        if !nodes[i].cell.online {
          assert !View()[i].cell.online;
          return false;
        }
      }
      r := true;
    }

    method LastTransitionNode() returns (id: u8)
      requires Valid()
      ensures id == FirstOffline(View())
    {
      for i := 0 to nodeCount
        invariant FirstOffline(View()) == FirstOffline(View()[i..])
      {
        assert View()[i..][0] == nodes[i] && View()[i..][1..] == View()[i + 1..];
        if !nodes[i].cell.online { return nodes[i].id; }
      }
      id := 0;
    }
  }

  // ----- whole runs of the table -----

  datatype Event = Heard(id: u8, at: nat) | Swept(at: nat)

  function Step(ns: seq<Node>, e: Event): (r: seq<Node>)
    ensures |r| == |ns|
  {
    match e
    case Heard(id, t) => AfterBeat(ns, id, t % WRAP)
    case Swept(t) => AfterCheckAll(ns, t % WRAP)
  }

  function Run(ns: seq<Node>, es: seq<Event>): (r: seq<Node>)
    ensures |r| == |ns|
  {
    if es == [] then ns else Step(Run(ns, es[..|es| - 1]), es[|es| - 1])
  }

  /** What one node sees of a run: its own beats and every check. */
  function Seen(es: seq<Event>, id: u8): seq<Signal> {
    if es == [] then []
    else
      var e := es[|es| - 1];
      Seen(es[..|es| - 1], id)
      + if e.Swept? then [Check(e.at)] else if e.id == id then [Beat(e.at)] else []
  }

  ghost predicate DistinctIds(ns: seq<Node>) {
    forall i, j :: 0 <= i < j < |ns| ==> ns[i].id != ns[j].id
  }

  lemma {:induction false} BeatHitsItsNode(ns: seq<Node>, id: u8, now: u32, i: nat)
    requires DistinctIds(ns) && i < |ns|
    ensures AfterBeat(ns, id, now)[i] == if ns[i].id == id then ns[i].(cell := Cell(true, now)) else ns[i]
  {
    if ns[0].id != id && i > 0 {
      BeatHitsItsNode(ns[1..], id, now, i - 1);
    }
  }

  lemma {:induction false} NodeIsItsCell(ns: seq<Node>, es: seq<Event>, i: nat)
    requires DistinctIds(ns) && i < |ns| && ns[i].cell == SILENT
    ensures Run(ns, es)[i] == ns[i].(cell := Watch(Seen(es, ns[i].id), ns[i].timeout))
    ensures forall j :: 0 <= j < |ns| ==> Run(ns, es)[j].id == ns[j].id
  {
    if es != [] {
      var front, e := es[..|es| - 1], es[|es| - 1];
      var mid := Run(ns, front);
      NodeIsItsCell(ns, front, i);
      var seen := Seen(front, ns[i].id);
      if e.Heard? {
        forall j | 0 <= j < |ns|
          ensures Run(ns, es)[j].id == ns[j].id
        {
          BeatHitsItsNode(mid, e.id, e.at % WRAP, j);
        }
        BeatHitsItsNode(mid, e.id, e.at % WRAP, i);
        assert (seen + [Beat(e.at)])[..|seen|] == seen;
        assert seen + [] == seen;
      } else {
        assert (seen + [Check(e.at)])[..|seen|] == seen;
      }
    }
  }

  /**
    * After every check of a run, each registered node's online bit says whether that node has
    * beaten less than its timeout ago in real time.
    */
  lemma OnlineBitsAreTrue(ns: seq<Node>, es: seq<Event>, now: nat, i: nat)
    requires DistinctIds(ns) && i < |ns| && ns[i].cell == SILENT
    requires Timely(Seen(es + [Swept(now)], ns[i].id), ns[i].timeout)
    ensures Run(ns, es + [Swept(now)])[i].cell.online <==> Alive(Seen(es, ns[i].id), now, ns[i].timeout)
  {
    var all := es + [Swept(now)];
    assert all[..|es|] == es;
    NodeIsItsCell(ns, all, i);
    OnlineIsAlive(Seen(es, ns[i].id), now, ns[i].timeout);
  }
}
