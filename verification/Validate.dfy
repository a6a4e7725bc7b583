/** Validation of injected external-actor frames: charger events and OTA transfers. */
module Validate {
  import opened Ints
  import opened Wrappers

  const EVSE_EVENT: u32 := 0x610
  const OTA_REQUEST: u32 := 0x630
  const OTA_CHUNK: u32 := 0x631
  const OTA_FINISH: u32 := 0x632
  const NODE_EVSE: u8 := 6
  const NODE_OTA_TOOL: u8 := 7

  datatype Frame = Frame(at: nat, id: u32, sender: string, bus: string, data: seq<u8>)

  /** `resolves` says whether the machine's firmware path or name resolves to a known ECU. */
  datatype Machine = Machine(name: string, resolves: bool)

  datatype Attachment = Attachment(bus: string, machine: string)

  datatype Scenario = Scenario(machines: seq<Machine>, attachments: seq<Attachment>, injected: seq<Frame>)

  datatype Kind =
    | ActorHasFirmware | ActorNotOnBus | BadPayloadLength | BadSourceNode | BadEnumValue | ZeroRequestId
    | HandshakeBeforePlug | ChunkBeforeRequest | OtaChunkOrder | OtaFinishMismatch

  datatype Verdict = Valid | Invalid(kind: Kind)

  // ----- frames of interest, in stable time order -----

  predicate OfInterest(f: Frame) {
    f.id == EVSE_EVENT || f.id == OTA_REQUEST || f.id == OTA_CHUNK || f.id == OTA_FINISH
  }

  function Selected(fs: seq<Frame>): (r: seq<Frame>)
    ensures forall i :: 0 <= i < |r| ==> OfInterest(r[i])
  {
    if fs == [] then []
    else Selected(fs[..|fs| - 1]) + if OfInterest(fs[|fs| - 1]) then [fs[|fs| - 1]] else []
  }

  ghost predicate TimeOrdered(fs: seq<Frame>) {
    forall i, j :: 0 <= i < j < |fs| ==> fs[i].at <= fs[j].at
  }

  function Lead(f: Frame, t: nat): seq<Frame> { if f.at == t then [f] else [] }

  /** The frames of one instant, in their order. */
  function Instant(fs: seq<Frame>, t: nat): seq<Frame> {
    if fs == [] then [] else Lead(fs[0], t) + Instant(fs[1..], t)
  }

  /** `gs` is a stable sort of `fs` by time. */
  ghost predicate StablySorted(fs: seq<Frame>, gs: seq<Frame>) {
    TimeOrdered(gs) && forall t :: Instant(gs, t) == Instant(fs, t)
  }

  /** Insert a frame behind every frame that is not later. */
  function Insert(gs: seq<Frame>, f: Frame): seq<Frame> {
    if gs == [] || gs[|gs| - 1].at <= f.at then gs + [f]
    else Insert(gs[..|gs| - 1], f) + [gs[|gs| - 1]]
  }

  function SortByTime(fs: seq<Frame>): seq<Frame> {
    if fs == [] then [] else Insert(SortByTime(fs[..|fs| - 1]), fs[|fs| - 1])
  }

  lemma {:induction false} InstantAppend(fs: seq<Frame>, gs: seq<Frame>, t: nat)
    ensures Instant(fs + gs, t) == Instant(fs, t) + Instant(gs, t)
  {
    if fs == [] {
      assert fs + gs == gs;
    } else {
      hide Lead;
      assert (fs + gs)[1..] == fs[1..] + gs && (fs + gs)[0] == fs[0];
      InstantAppend(fs[1..], gs, t);
      assert Lead(fs[0], t) + (Instant(fs[1..], t) + Instant(gs, t)) == Lead(fs[0], t) + Instant(fs[1..], t) + Instant(gs, t);
    }
  }

  lemma InstantOne(f: Frame, t: nat)
    ensures Instant([f], t) == if f.at == t then [f] else []
  {
  }

  lemma {:induction false} InsertOrdered(gs: seq<Frame>, f: Frame)
    requires TimeOrdered(gs)
    ensures TimeOrdered(Insert(gs, f)) && |Insert(gs, f)| == |gs| + 1
    ensures forall i :: 0 <= i <= |gs| ==> Insert(gs, f)[i].at <= f.at || (gs != [] && Insert(gs, f)[i].at <= gs[|gs| - 1].at)
  {
    if gs != [] && gs[|gs| - 1].at > f.at {
      InsertOrdered(gs[..|gs| - 1], f);
    }
  }

  lemma {:induction false} InsertAtInstant(gs: seq<Frame>, f: Frame, t: nat)
    requires TimeOrdered(gs)
    ensures Instant(Insert(gs, f), t) == Instant(gs, t) + Instant([f], t)
  {
    if gs == [] || gs[|gs| - 1].at <= f.at {
      InstantAppend(gs, [f], t);
    } else {
      var n := |gs| - 1;
      var front, last := gs[..n], gs[n];
      InsertAtInstant(front, f, t);
      InstantAppend(Insert(front, f), [last], t);
      InstantAppend(front, [last], t);
      assert gs == front + [last] && Insert(gs, f) == Insert(front, f) + [last];
      InstantOne(f, t);
      InstantOne(last, t);
      hide Instant, Insert;
      SwapEmpty(Instant(front, t), Instant([f], t), Instant([last], t));
    }
  }

  lemma SwapEmpty<T>(a: seq<T>, b: seq<T>, c: seq<T>)
    requires b == [] || c == []
    ensures a + b + c == a + c + b
  {
    assert b == [] ==> a + b == a && a + c + b == a + c;
    assert c == [] ==> a + c == a && a + b + c == a + b;
  }

  lemma {:induction false} SortsAtInstant(fs: seq<Frame>, t: nat)
    ensures TimeOrdered(SortByTime(fs))
    ensures Instant(SortByTime(fs), t) == Instant(fs, t)
  {
    if fs != [] {
      var n := |fs| - 1;
      SortsAtInstant(fs[..n], t);
      InsertOrdered(SortByTime(fs[..n]), fs[n]);
      InsertAtInstant(SortByTime(fs[..n]), fs[n], t);
      InstantAppend(fs[..n], [fs[n]], t);
      assert fs == fs[..n] + [fs[n]];
    }
  }

  lemma SortIsStable(fs: seq<Frame>)
    ensures StablySorted(fs, SortByTime(fs))
  {
    SortsAtInstant(fs, 0);
    forall t: nat
      ensures Instant(SortByTime(fs), t) == Instant(fs, t)
    {
      SortsAtInstant(fs, t);
    }
  }

  lemma {:induction false} InstantFinds(fs: seq<Frame>, t: nat)
    ensures Instant(fs, t) != [] ==> exists i :: 0 <= i < |fs| && fs[i].at == t
  {
    if fs != [] && fs[0].at != t {
      InstantFinds(fs[1..], t);
      if Instant(fs, t) != [] {
        var i :| 0 <= i < |fs[1..]| && fs[1..][i].at == t;
        assert fs[i + 1].at == t;
      }
    }
  }

  lemma EarliestFirst(gs: seq<Frame>, hs: seq<Frame>)
    requires gs != [] && TimeOrdered(hs) && forall t :: Instant(gs, t) == Instant(hs, t)
    ensures hs != [] && hs[0].at <= gs[0].at
  {
    var t := gs[0].at;
    assert Instant(gs, t)[0] == gs[0];
    InstantFinds(hs, t);
  }

  /** There is only one stable order, whatever algorithm produces it. */
  lemma {:induction false} StableOrderIsUnique(gs: seq<Frame>, hs: seq<Frame>)
    requires TimeOrdered(gs) && TimeOrdered(hs) && forall t :: Instant(gs, t) == Instant(hs, t)
    ensures gs == hs
  {
    if gs != [] {
      EarliestFirst(gs, hs);
      EarliestFirst(hs, gs);
      HeadAndRest(gs, hs);
      StableOrderIsUnique(gs[1..], hs[1..]);
      assert gs == [gs[0]] + gs[1..] && hs == [hs[0]] + hs[1..];
    } else if hs != [] {
      EarliestFirst(hs, gs);
      assert false;
    }
  }

  lemma HeadAndRest(gs: seq<Frame>, hs: seq<Frame>)
    requires gs != [] && hs != [] && gs[0].at == hs[0].at && forall t :: Instant(gs, t) == Instant(hs, t)
    ensures gs[0] == hs[0] && forall t :: Instant(gs[1..], t) == Instant(hs[1..], t)
  {
    assert Instant(gs, gs[0].at)[0] == gs[0] && Instant(hs, gs[0].at)[0] == hs[0];
    forall t: nat
      ensures Instant(gs[1..], t) == Instant(hs[1..], t)
    {
      SplitHead(gs, t);
      SplitHead(hs, t);
    }
  }

  lemma SplitHead(gs: seq<Frame>, t: nat)
    requires gs != []
    ensures Instant(gs[1..], t) == Instant(gs, t)[if gs[0].at == t then 1 else 0..]
  {
  }

  lemma {:induction false} InsertKeepsInterest(gs: seq<Frame>, f: Frame)
    requires OfInterest(f) && forall i :: 0 <= i < |gs| ==> OfInterest(gs[i])
    ensures forall i :: 0 <= i < |Insert(gs, f)| ==> OfInterest(Insert(gs, f)[i])
  {
    if gs != [] && gs[|gs| - 1].at > f.at {
      InsertKeepsInterest(gs[..|gs| - 1], f);
    }
  }

  lemma {:induction false} SortKeepsInterest(fs: seq<Frame>)
    requires forall i :: 0 <= i < |fs| ==> OfInterest(fs[i])
    ensures forall i :: 0 <= i < |SortByTime(fs)| ==> OfInterest(SortByTime(fs)[i])
  {
    if fs != [] {
      SortKeepsInterest(fs[..|fs| - 1]);
      InsertKeepsInterest(SortByTime(fs[..|fs| - 1]), fs[|fs| - 1]);
    }
  }

  /** The frames the rules speak about, in stable time order. */
  function Timeline(injected: seq<Frame>): (r: seq<Frame>)
    ensures forall i :: 0 <= i < |r| ==> OfInterest(r[i])
  {
    SortKeepsInterest(Selected(injected));
    SortByTime(Selected(injected))
  }

  // ----- what makes a frame a violation -----

  /** Whether the first machine of that name resolves to an ECU. */
  predicate IsEcu(ms: seq<Machine>, name: string) {
    ms != [] && if ms[0].name == name then ms[0].resolves else IsEcu(ms[1..], name)
  }

  predicate OnBus(sc: Scenario, bus: string, name: string) { Attachment(bus, name) in sc.attachments }

  function PayloadLength(id: u32): nat {
    if id == EVSE_EVENT then 6 else if id == OTA_REQUEST then 4 else if id == OTA_CHUNK then 8 else 7
  }

  function ReservedNode(id: u32): u8 { if id == EVSE_EVENT then NODE_EVSE else NODE_OTA_TOOL }

  /** Faults of a frame taken alone, in the order they are looked for. */
  function ShapeFault(sc: Scenario, f: Frame): Option<Kind> {
    if IsEcu(sc.machines, f.sender) then Some(ActorHasFirmware)
    else if !OnBus(sc, f.bus, f.sender) then Some(ActorNotOnBus)
    else if |f.data| != PayloadLength(f.id) then Some(BadPayloadLength)
    else if f.data[0] != ReservedNode(f.id) then Some(BadSourceNode)
    else if f.id == EVSE_EVENT && f.data[1] > 3 then Some(BadEnumValue)
    else if (if f.id == EVSE_EVENT then f.data[2] else f.data[1]) == 0 then Some(ZeroRequestId)
    else None
  }

  predicate IsPlug(f: Frame) { f.id == EVSE_EVENT && |f.data| == 6 && f.data[1] == 1 }

  predicate IsRequest(f: Frame, rid: u8) { f.id == OTA_REQUEST && |f.data| == 4 && f.data[1] == rid }

  predicate IsChunk(f: Frame, rid: u8) { f.id == OTA_CHUNK && |f.data| == 8 && f.data[1] == rid }

  /** The chunk count declared by the latest request for this id, if any. */
  function Declared(fs: seq<Frame>, rid: u8): Option<u8> {
    if fs == [] then None
    else if IsRequest(fs[|fs| - 1], rid) then Some(fs[|fs| - 1].data[3])
    else Declared(fs[..|fs| - 1], rid)
  }

  /** How many chunks were sent for this id. */
  function Chunks(fs: seq<Frame>, rid: u8): nat {
    if fs == [] then 0
    else Chunks(fs[..|fs| - 1], rid) + if IsChunk(fs[|fs| - 1], rid) then 1 else 0
  }

  /** Faults of a well-shaped frame against the frames before it. */
  ghost function OrderFault(past: seq<Frame>, f: Frame): Option<Kind>
    requires OfInterest(f) && |f.data| == PayloadLength(f.id)
  {
    var rid := f.data[1];
    if f.id == EVSE_EVENT then
      if f.data[1] == 2 && !(exists j :: 0 <= j < |past| && IsPlug(past[j])) then Some(HandshakeBeforePlug) else None
    else if f.id == OTA_REQUEST then None
    else if f.id == OTA_CHUNK then
      if Declared(past, rid).None? then Some(ChunkBeforeRequest)
      else if f.data[2] != Chunks(past, rid) || f.data[2] >= Declared(past, rid).value then Some(OtaChunkOrder)
      else None
    else if Declared(past, rid) != Some(f.data[2]) || Chunks(past, rid) != f.data[2] then Some(OtaFinishMismatch)
    else None
  }

  ghost function FaultAt(sc: Scenario, fs: seq<Frame>, i: nat): Option<Kind>
    requires i < |fs| && forall j :: 0 <= j < |fs| ==> OfInterest(fs[j])
  {
    if ShapeFault(sc, fs[i]).Some? then ShapeFault(sc, fs[i]) else OrderFault(fs[..i], fs[i])
  }

  /** The verdict the rules give: the kind of the first fault in time order, or none. */
  ghost predicate Judges(sc: Scenario, fs: seq<Frame>, v: Verdict)
    requires forall j :: 0 <= j < |fs| ==> OfInterest(fs[j])
  {
    match v
    case Valid => forall i :: 0 <= i < |fs| ==> FaultAt(sc, fs, i) == None
    case Invalid(k) => exists i :: 0 <= i < |fs| && FaultAt(sc, fs, i) == Some(k)
                                   && forall j :: 0 <= j < i ==> FaultAt(sc, fs, j) == None
  }

  // ----- the single pass -----

  method SelectAndSort(fs: seq<Frame>) returns (r: seq<Frame>)
    ensures r == Timeline(fs)
  {
    r := [];
    for i := 0 to |fs|
      invariant r == Selected(fs[..i])
    {
      assert fs[..i + 1][..i] == fs[..i];
      if OfInterest(fs[i]) { r := r + [fs[i]]; }
    }
    assert fs[..|fs|] == fs;
    r := SortByTime(r);
  }

  /** The running maps say what the declarative counts say of the frames seen so far. */
  ghost predicate Tracks(past: seq<Frame>, plugged: bool, totals: map<u8, u8>, seen: map<u8, u8>) {
    && (plugged <==> exists j :: 0 <= j < |past| && IsPlug(past[j]))
    && (forall rid: u8 :: Declared(past, rid) == if rid in totals then Some(totals[rid]) else None)
    && (forall rid: u8 :: Chunks(past, rid) == if rid in seen then seen[rid] else 0)
    && totals.Keys == seen.Keys
  }

  lemma TracksStep(past: seq<Frame>, f: Frame, rid: u8)
    ensures Declared(past + [f], rid) == if IsRequest(f, rid) then Some(f.data[3]) else Declared(past, rid)
    ensures Chunks(past + [f], rid) == Chunks(past, rid) + if IsChunk(f, rid) then 1 else 0
  {
    assert (past + [f])[..|past|] == past;
  }

  lemma PlugStep(past: seq<Frame>, f: Frame)
    ensures (exists j :: 0 <= j < |past + [f]| && IsPlug((past + [f])[j])) <==>
            IsPlug(f) || exists j :: 0 <= j < |past| && IsPlug(past[j])
  {
    if IsPlug(f) {
      assert (past + [f])[|past|] == f;
    }
    forall j | 0 <= j < |past|
      ensures (past + [f])[j] == past[j]
    {
    }
  }

  /** The first machine of that name, if there is one and it resolves. */
  method FindsEcu(ms: seq<Machine>, name: string) returns (r: bool)
    ensures r == IsEcu(ms, name)
  {
    for i := 0 to |ms|
      invariant IsEcu(ms, name) == IsEcu(ms[i..], name)
    {
      assert ms[i..][0] == ms[i] && ms[i..][1..] == ms[i + 1..];
      if ms[i].name == name { return ms[i].resolves; }
    }
    r := false;
  }

  type Members = map<string, set<string>>

  ghost predicate Lists(members: Members, attachments: seq<Attachment>) {
    forall bus, name :: bus in members && name in members[bus] <==> Attachment(bus, name) in attachments
  }

  /** The machines attached to each bus. */
  method BusMembers(attachments: seq<Attachment>) returns (members: Members)
    ensures Lists(members, attachments)
  {
    members := map[];
    for i := 0 to |attachments|
      invariant Lists(members, attachments[..i])
    {
      var a := attachments[i];
      assert attachments[..i + 1] == attachments[..i] + [a];
      var there := if a.bus in members then members[a.bus] else {};
      members := members[a.bus := there + {a.machine}];
    }
    assert attachments[..|attachments|] == attachments;
  }

  /** The checks on a frame alone, in their order. */
  method CheckShape(sc: Scenario, members: Members, f: Frame) returns (fault: Option<Kind>)
    requires OfInterest(f) && Lists(members, sc.attachments)
    ensures fault == ShapeFault(sc, f)
  {
    var reserved: u8 := if f.id == EVSE_EVENT then NODE_EVSE else NODE_OTA_TOOL;
    var isEcu := FindsEcu(sc.machines, f.sender);
    if isEcu { return Some(ActorHasFirmware); }
    if !(f.bus in members && f.sender in members[f.bus]) { return Some(ActorNotOnBus); }
    var wantLen := 7;
    if f.id == EVSE_EVENT { wantLen := 6; }
    else if f.id == OTA_REQUEST { wantLen := 4; }
    else if f.id == OTA_CHUNK { wantLen := 8; }
    if |f.data| != wantLen { return Some(BadPayloadLength); }
    if f.data[0] != reserved { return Some(BadSourceNode); }
    if f.id == EVSE_EVENT {
      if f.data[1] > 3 { return Some(BadEnumValue); }
      if f.data[2] == 0 { return Some(ZeroRequestId); }
    } else if f.data[1] == 0 {
      return Some(ZeroRequestId);
    }
    fault := None;
  }

  /** One frame against the running state: its fault, or the state after it. */
  method ValidateFrame(sc: Scenario, members: Members, f: Frame, plugged: bool, totals: map<u8, u8>, seen: map<u8, u8>,
                       ghost past: seq<Frame>)
    returns (fault: Option<Kind>, plugged': bool, totals': map<u8, u8>, seen': map<u8, u8>)
    requires OfInterest(f) && Lists(members, sc.attachments) && Tracks(past, plugged, totals, seen)
    ensures fault == if ShapeFault(sc, f).Some? then ShapeFault(sc, f) else OrderFault(past, f)
    ensures fault == None ==> Tracks(past + [f], plugged', totals', seen')
  {
    plugged', totals', seen' := plugged, totals, seen;
    fault := CheckShape(sc, members, f);
    if fault.Some? { return; }
    assert |f.data| == PayloadLength(f.id);
    hide ShapeFault, Lists;
    PlugStep(past, f);
    forall rid: u8
      ensures Declared(past + [f], rid) == if IsRequest(f, rid) then Some(f.data[3]) else Declared(past, rid)
      ensures Chunks(past + [f], rid) == Chunks(past, rid) + if IsChunk(f, rid) then 1 else 0
    {
      TracksStep(past, f, rid);
    }
    if f.id == EVSE_EVENT {
      var event := f.data[1];
      if event == 1 {
        plugged' := true;
      } else if event == 2 && !plugged {
        return Some(HandshakeBeforePlug), plugged', totals', seen';
      }
    } else if f.id == OTA_REQUEST {
      var rid := f.data[1];
      totals' := totals[rid := f.data[3]];
      if rid !in seen { seen' := seen[rid := 0]; }
    } else if f.id == OTA_CHUNK {
      var rid, index := f.data[1], f.data[2];
      if rid !in totals { return Some(ChunkBeforeRequest), plugged', totals', seen'; }
      if index != seen[rid] { return Some(OtaChunkOrder), plugged', totals', seen'; }
      if index >= totals[rid] { return Some(OtaChunkOrder), plugged', totals', seen'; }
      seen' := seen[rid := seen[rid] + 1];
    } else {
      var rid, total := f.data[1], f.data[2];
      var observed: u8 := if rid in seen then seen[rid] else 0;
      if rid !in totals || totals[rid] != total || observed != total {
        return Some(OtaFinishMismatch), plugged', totals', seen';
      }
    }
    fault := None;
  }

  /** The whole pass decides exactly the rules, on the stable time order. */
  method ValidateExternalActorFrames(sc: Scenario) returns (v: Verdict)
    ensures Judges(sc, Timeline(sc.injected), v)
  {
    var members := BusMembers(sc.attachments);
    var fs := SelectAndSort(sc.injected);
    hide Lists, Tracks;
    var plugged := false;
    var totals: map<u8, u8> := map[];
    var seen: map<u8, u8> := map[];
    NothingTracked();
    for i := 0 to |fs|
      invariant Tracks(fs[..i], plugged, totals, seen)
      invariant forall j :: 0 <= j < i ==> FaultAt(sc, fs, j) == None
    {
      var fault;
      fault, plugged, totals, seen := ValidateFrame(sc, members, fs[i], plugged, totals, seen, fs[..i]);
      assert fs[..i + 1] == fs[..i] + [fs[i]];
      if fault.Some? {
        assert FaultAt(sc, fs, i) == fault;
        return Invalid(fault.value);
      }
    }
    v := Valid;
  }

  lemma NothingTracked()
    ensures Tracks([], false, map[], map[])
  {
  }

  // ----- the rules, said without the functions above -----

  /** The first machine of that name resolves to an ECU. */
  ghost predicate FirmwareActor(ms: seq<Machine>, name: string) {
    exists i :: 0 <= i < |ms| && ms[i].name == name && ms[i].resolves && forall j :: 0 <= j < i ==> ms[j].name != name
  }

  lemma {:induction false} IsEcuExactly(ms: seq<Machine>, name: string)
    ensures IsEcu(ms, name) <==> FirmwareActor(ms, name)
  {
    if ms == [] {
    } else if ms[0].name == name {
      assert FirmwareActor(ms, name) <==> ms[0].resolves;
    } else {
      IsEcuExactly(ms[1..], name);
      if FirmwareActor(ms[1..], name) {
        var i :| 0 <= i < |ms[1..]| && ms[1..][i].name == name && ms[1..][i].resolves
                 && forall j :: 0 <= j < i ==> ms[1..][j].name != name;
        forall j | 0 <= j < i + 1
          ensures ms[j].name != name
        {
          if j > 0 {
            assert ms[j] == ms[1..][j - 1];
          }
        }
        assert ms[i + 1].name == name && ms[i + 1].resolves;
      }
      if FirmwareActor(ms, name) {
        var i :| 0 <= i < |ms| && ms[i].name == name && ms[i].resolves && forall j :: 0 <= j < i ==> ms[j].name != name;
        assert ms[1..][i - 1] == ms[i];
        assert forall j :: 0 <= j < i - 1 ==> ms[1..][j] == ms[j + 1];
      }
    }
  }

  predicate RightLength(f: Frame) {
    (f.id == 0x610 && |f.data| == 6) || (f.id == 0x630 && |f.data| == 4) ||
    (f.id == 0x631 && |f.data| == 8) || (f.id == 0x632 && |f.data| == 7)
  }

  predicate RightNode(f: Frame)
    requires RightLength(f)
  {
    f.data[0] == if f.id == 0x610 then 6 else 7
  }

  predicate RightEvent(f: Frame)
    requires RightLength(f)
  {
    f.id == 0x610 ==> f.data[1] <= 3
  }

  /** The request id is byte 2 of a charger event and byte 1 of an OTA frame. */
  predicate HasRequestId(f: Frame)
    requires RightLength(f)
  {
    (f.id == 0x610 ==> f.data[2] != 0) && (f.id != 0x610 ==> f.data[1] != 0)
  }

  /** A frame that is in order by itself. */
  ghost predicate WellFormed(sc: Scenario, f: Frame) {
    && !FirmwareActor(sc.machines, f.sender)
    && Attachment(f.bus, f.sender) in sc.attachments
    && RightLength(f) && RightNode(f) && RightEvent(f) && HasRequestId(f)
  }

  /** Each fault of a frame alone is reported exactly if it is the first in this order. */
  lemma ShapeExactly(sc: Scenario, f: Frame)
    requires OfInterest(f)
    ensures var actor, attached := FirmwareActor(sc.machines, f.sender), Attachment(f.bus, f.sender) in sc.attachments;
            var k := ShapeFault(sc, f);
            && (k == None <==> WellFormed(sc, f))
            && (k == Some(ActorHasFirmware) <==> actor)
            && (k == Some(ActorNotOnBus) <==> !actor && !attached)
            && (k == Some(BadPayloadLength) <==> !actor && attached && !RightLength(f))
            && (k == Some(BadSourceNode) <==> !actor && attached && RightLength(f) && !RightNode(f))
            && (k == Some(BadEnumValue) <==> !actor && attached && RightLength(f) && RightNode(f) && !RightEvent(f))
            && (k == Some(ZeroRequestId) <==>
                !actor && attached && RightLength(f) && RightNode(f) && RightEvent(f) && !HasRequestId(f))
  {
    IsEcuExactly(sc.machines, f.sender);
    hide IsEcu, FirmwareActor;
  }

  /** The latest request for this id. */
  ghost predicate Latest(fs: seq<Frame>, rid: u8, r: nat) {
    && r < |fs| && fs[r].id == 0x630 && |fs[r].data| == 4 && fs[r].data[1] == rid
    && forall j :: r < j < |fs| && fs[j].id == 0x630 && |fs[j].data| == 4 ==> fs[j].data[1] != rid
  }

  lemma {:induction false} DeclaredIsLatest(fs: seq<Frame>, rid: u8)
    ensures forall r: nat :: Latest(fs, rid, r) ==> Declared(fs, rid) == Some(fs[r].data[3])
    ensures Declared(fs, rid).Some? ==> exists r: nat :: Latest(fs, rid, r)
  {
    if fs != [] {
      var n := |fs| - 1;
      DeclaredIsLatest(fs[..n], rid);
      if IsRequest(fs[n], rid) {
        assert Latest(fs, rid, n);
      } else {
        forall r: nat | Latest(fs, rid, r)
          ensures Latest(fs[..n], rid, r)
        {
        }
        if r: nat :| Latest(fs[..n], rid, r) {
          assert Latest(fs, rid, r);
        }
      }
    }
  }

  /** Where the chunks for this id are. */
  ghost function ChunkPositions(fs: seq<Frame>, rid: u8): set<int> {
    set j | 0 <= j < |fs| && fs[j].id == 0x631 && |fs[j].data| == 8 && fs[j].data[1] == rid
  }

  lemma {:induction false} ChunksAreCounted(fs: seq<Frame>, rid: u8)
    ensures Chunks(fs, rid) == |ChunkPositions(fs, rid)|
  {
    if fs == [] {
      assert ChunkPositions(fs, rid) == {};
    } else {
      var n := |fs| - 1;
      ChunksAreCounted(fs[..n], rid);
      var ps := ChunkPositions(fs[..n], rid);
      if IsChunk(fs[n], rid) {
        assert ChunkPositions(fs, rid) == ps + {n};
      } else {
        assert ChunkPositions(fs, rid) == ps;
      }
    }
  }

  /** A well-formed frame that fits the frames before it. */
  ghost predicate InSequence(past: seq<Frame>, f: Frame)
    requires RightLength(f)
  {
    var sent := |ChunkPositions(past, f.data[1])|;
    && (f.id == 0x610 && f.data[1] == 2 ==>
        exists j :: 0 <= j < |past| && past[j].id == 0x610 && |past[j].data| == 6 && past[j].data[1] == 1)
    && (f.id == 0x631 ==> exists r: nat :: Latest(past, f.data[1], r) && f.data[2] == sent && sent < past[r].data[3])
    && (f.id == 0x632 ==> exists r: nat :: Latest(past, f.data[1], r) && f.data[2] == past[r].data[3] == sent)
  }

  lemma PlugsAre(past: seq<Frame>)
    ensures (exists j :: 0 <= j < |past| && IsPlug(past[j])) <==>
            exists j :: 0 <= j < |past| && past[j].id == 0x610 && |past[j].data| == 6 && past[j].data[1] == 1
  {
  }

  /** Each fault against the frames before is reported exactly in its case. */
  lemma OrderExactly(past: seq<Frame>, f: Frame)
    requires RightLength(f)
    ensures var k := OrderFault(past, f);
            && (k == None <==> InSequence(past, f))
            && (k == Some(HandshakeBeforePlug) <==> f.id == 0x610 && !InSequence(past, f))
            && (k == Some(ChunkBeforeRequest) <==>
                f.id == 0x631 && forall r: nat :: !Latest(past, f.data[1], r))
            && (k == Some(OtaChunkOrder) <==>
                f.id == 0x631 && !InSequence(past, f) && exists r: nat :: Latest(past, f.data[1], r))
            && (k == Some(OtaFinishMismatch) <==> f.id == 0x632 && !InSequence(past, f))
  {
    DeclaredIsLatest(past, f.data[1]);
    ChunksAreCounted(past, f.data[1]);
    hide Declared, Chunks, ChunkPositions, Latest;
    PlugsAre(past);
  }

  /** A scenario is accepted exactly if every frame on its timeline is well formed and in sequence. */
  lemma AcceptedExactly(sc: Scenario)
    ensures var fs := Timeline(sc.injected);
            Judges(sc, fs, Valid) <==>
            forall i :: 0 <= i < |fs| ==> WellFormed(sc, fs[i]) && InSequence(fs[..i], fs[i])
  {
    var fs := Timeline(sc.injected);
    hide Timeline, InSequence, ShapeFault, OrderFault, FirmwareActor;
    forall i | 0 <= i < |fs|
      ensures FaultAt(sc, fs, i) == None <==> WellFormed(sc, fs[i]) && InSequence(fs[..i], fs[i])
    {
      FaultOfFrame(sc, fs, i);
    }
  }

  lemma FaultOfFrame(sc: Scenario, fs: seq<Frame>, i: nat)
    requires i < |fs| && forall j :: 0 <= j < |fs| ==> OfInterest(fs[j])
    ensures FaultAt(sc, fs, i) == None <==> WellFormed(sc, fs[i]) && InSequence(fs[..i], fs[i])
  {
    ShapeExactly(sc, fs[i]);
    if WellFormed(sc, fs[i]) {
      OrderExactly(fs[..i], fs[i]);
    }
    hide ShapeFault, OrderFault, InSequence, FirmwareActor;
  }

  lemma {:induction false} SelectedExactly(fs: seq<Frame>, f: Frame)
    ensures f in Selected(fs) <==> f in fs && f.id in {0x610, 0x630, 0x631, 0x632}
  {
    if fs != [] {
      var n := |fs| - 1;
      SelectedExactly(fs[..n], f);
      assert f in fs <==> f in fs[..n] || f == fs[n];
    }
  }

  lemma {:induction false} InInstant(fs: seq<Frame>, f: Frame)
    ensures f in Instant(fs, f.at) <==> f in fs
  {
    if fs != [] {
      InInstant(fs[1..], f);
      assert f in fs <==> f == fs[0] || f in fs[1..];
      assert f in Lead(fs[0], f.at) <==> f == fs[0];
    }
  }

  /** Exactly the frames with one of the four ids are on the timeline. */
  lemma TimelineExactly(injected: seq<Frame>, f: Frame)
    ensures f in Timeline(injected) <==> f in injected && f.id in {0x610, 0x630, 0x631, 0x632}
  {
    SelectedExactly(injected, f);
    SortIsStable(Selected(injected));
    InInstant(Selected(injected), f);
    InInstant(Timeline(injected), f);
    hide Selected, SortByTime, Instant;
  }

  // ----- what an accepted scenario guarantees -----

  /** The rules give exactly one verdict. */
  lemma VerdictIsUnique(sc: Scenario, fs: seq<Frame>, v: Verdict, w: Verdict)
    requires forall j :: 0 <= j < |fs| ==> OfInterest(fs[j])
    requires Judges(sc, fs, v) && Judges(sc, fs, w)
    ensures v == w
  {
    if v.Invalid? && w.Invalid? {
      var i :| 0 <= i < |fs| && FaultAt(sc, fs, i) == Some(v.kind) && forall j :: 0 <= j < i ==> FaultAt(sc, fs, j) == None;
      var k :| 0 <= k < |fs| && FaultAt(sc, fs, k) == Some(w.kind) && forall j :: 0 <= j < k ==> FaultAt(sc, fs, j) == None;
      assert i == k;
    }
  }

  /** In an accepted scenario the chunks of a request are numbered 0, 1, 2, ... in time order. */
  lemma {:induction false} ChunksAreNumbered(sc: Scenario, fs: seq<Frame>, n: nat, rid: u8, k: nat) returns (j: nat)
    requires forall i :: 0 <= i < |fs| ==> OfInterest(fs[i])
    requires Judges(sc, fs, Valid) && n <= |fs| && k < Chunks(fs[..n], rid)
    ensures j < n && IsChunk(fs[j], rid) && fs[j].data[2] == k && Chunks(fs[..j], rid) == k
  {
    var m := n - 1;
    assert fs[..n][..m] == fs[..m];
    if k < Chunks(fs[..m], rid) {
      j := ChunksAreNumbered(sc, fs, m, rid, k);
    } else {
      assert FaultAt(sc, fs, m) == None;
      j := m;
    }
  }

  /** An accepted OTA_FINISH closes a complete transfer: as many chunks as it says, every index present before it. */
  lemma FinishedTransfersAreComplete(sc: Scenario, fs: seq<Frame>, n: nat, k: nat) returns (j: nat)
    requires forall i :: 0 <= i < |fs| ==> OfInterest(fs[i])
    requires Judges(sc, fs, Valid) && n < |fs| && fs[n].id == OTA_FINISH && |fs[n].data| == 7 && k < fs[n].data[2]
    ensures Chunks(fs[..n], fs[n].data[1]) == fs[n].data[2]
    ensures j < n && IsChunk(fs[j], fs[n].data[1]) && fs[j].data[2] == k
  {
    assert FaultAt(sc, fs, n) == None;
    j := ChunksAreNumbered(sc, fs, n, fs[n].data[1], k);
  }

  lemma SelectedAppend(fs: seq<Frame>, f: Frame)
    ensures Selected(fs + [f]) == Selected(fs) + if OfInterest(f) then [f] else []
  {
    assert (fs + [f])[..|fs|] == fs;
  }

  lemma {:induction false} SelectionAtInstant(fs: seq<Frame>, t: nat)
    ensures Instant(Selected(fs), t) == Selected(Instant(fs, t))
  {
    if fs != [] {
      var n := |fs| - 1;
      var front, f := fs[..n], fs[n];
      SelectionAtInstant(front, t);
      assert fs == front + [f];
      SelectThenLook(front, f, t);
      LookThenSelect(front, f, t);
    }
  }

  /** The last frame, if it is of interest and of this instant. */
  function Kept(f: Frame, t: nat): seq<Frame> { if OfInterest(f) && f.at == t then [f] else [] }

  lemma SelectThenLook(front: seq<Frame>, f: Frame, t: nat)
    ensures Instant(Selected(front + [f]), t) == Instant(Selected(front), t) + Kept(f, t)
  {
    SelectedAppend(front, f);
    InstantOne(f, t);
    InstantAppend(Selected(front), [f], t);
    hide Instant, Selected, OfInterest;
    assert Selected(front) + [] == Selected(front);
    assert Instant(Selected(front), t) + [] == Instant(Selected(front), t);
  }

  lemma LookThenSelect(front: seq<Frame>, f: Frame, t: nat)
    ensures Selected(Instant(front + [f], t)) == Selected(Instant(front, t)) + Kept(f, t)
  {
    InstantOne(f, t);
    InstantAppend(front, [f], t);
    SelectedAppend(Instant(front, t), f);
    hide Instant, Selected, OfInterest;
    assert Instant(front, t) + [] == Instant(front, t);
    assert Selected(Instant(front, t)) + [] == Selected(Instant(front, t));
  }

  /** Listing the frames of different instants in another order changes nothing. */
  lemma ListingOrderIsIrrelevant(fs: seq<Frame>, gs: seq<Frame>)
    requires forall t :: Instant(fs, t) == Instant(gs, t)
    ensures Timeline(fs) == Timeline(gs)
  {
    var xs, ys := Selected(fs), Selected(gs);
    forall t: nat
      ensures Instant(xs, t) == Instant(ys, t)
    {
      SelectionAtInstant(fs, t);
      SelectionAtInstant(gs, t);
    }
    SortIsStable(xs);
    SortIsStable(ys);
    StableOrderIsUnique(SortByTime(xs), SortByTime(ys));
  }
}
