/** The charging state machine. */
module Charging {
  import opened Ints
  import opened Histories
  import V = Vehicle

  datatype Charge = Disconnected | PlugDetected | Handshake | Active | Limited | Complete | Faulted

  /** The EVSE event codes 0..3; other codes have no name but can arrive. */
  datatype Plug = Unplug | PlugIn | HandshakeOk | Stop | Unnamed(code: u8)

  datatype Event = Event(kind: Plug, freshLimit: u8, soc: u8, critical: bool, targetSoc: u8, offered: u8)

  datatype Outcome = Outcome(next: Charge, current: u8, rejected: bool)

  function Min(a: u8, b: u8): u8 { if a < b then a else b }

  /** The rule of the present state alone, if one applies. */
  function OwnRule(cs: Charge, e: Event): (r: Outcome) {
    match cs
    case Disconnected => if e.kind == PlugIn then Outcome(PlugDetected, 0, false) else Stay(cs)
    case PlugDetected => if e.kind == HandshakeOk then Outcome(Handshake, 0, false) else Stay(cs)
    case Handshake =>
      if e.freshLimit > 0 then Outcome(Active, Min(e.offered, e.freshLimit), false) else Stay(cs)
    case Active =>
      if 0 < e.freshLimit < e.offered then Outcome(Limited, e.freshLimit, false)
      else if e.soc >= e.targetSoc then Outcome(Complete, 0, false) else Stay(cs)
    case Limited => if e.soc >= e.targetSoc then Outcome(Complete, 0, false) else Stay(cs)
    case Complete => Stay(cs)
    case Faulted => Stay(cs)
  }

  function Stay(cs: Charge): Outcome { Outcome(cs, 0, true) }

  function Next(cs: Charge, e: Event): Outcome {
    var own := OwnRule(cs, e);
    if !own.rejected || cs == Disconnected then own
    else if e.critical then Outcome(Faulted, 0, false)
    else if e.kind == Unplug then Outcome(Disconnected, 0, false)
    else own
  }

  /** The output structure a step fills in. */
  class ChargingOutput {
    var nextState: Charge
    var commandCurrent: u8
    var rejectReason: u8

    constructor ()
    {
      nextState, commandCurrent, rejectReason := Disconnected, 0, 0;
    }

    method Put(s: Charge, current: u8, reject: u8)
      modifies this
      ensures nextState == s && commandCurrent == current && rejectReason == reject
    {
      nextState, commandCurrent, rejectReason := s, current, reject;
    }
  }

  method ChargingStep(cs: Charge, event: Event, output: ChargingOutput) returns (code: int)
    modifies output
    ensures Outcome(output.nextState, output.commandCurrent, code != 0) == Next(cs, event)
    ensures output.rejectReason == code && (code == 0 || code == 1)
  {
    if cs == Disconnected {
      if event.kind == PlugIn {
        output.Put(PlugDetected, 0, 0);
        return 0;
      }
    } else if cs == PlugDetected {
      if event.kind == HandshakeOk {
        output.Put(Handshake, 0, 0);
        return 0;
      }
    } else if cs == Handshake {
      if event.freshLimit > 0 {
        output.Put(Active, Min(event.offered, event.freshLimit), 0);
        return 0;
      }
    } else if cs == Active {
      if event.freshLimit > 0 && event.freshLimit < event.offered {
        output.Put(Limited, event.freshLimit, 0);
        return 0;
      }
      if event.soc >= event.targetSoc {
        output.Put(Complete, 0, 0);
        return 0;
      }
    } else if cs == Limited {
      if event.soc >= event.targetSoc {
        output.Put(Complete, 0, 0);
        return 0;
      }
    }
    if cs != Disconnected {
      if event.critical {
        output.Put(Faulted, 0, 0);
        return 0;
      }
      if event.kind == Unplug {
        output.Put(Disconnected, 0, 0);
        return 0;
      }
    }
    output.Put(cs, 0, 1);
    code := 1;
  }

  // ----- runs that store the next state -----

  function Run(es: seq<Event>): Charge {
    if es == [] then Disconnected else Next(Run(es[..|es| - 1]), es[|es| - 1]).next
  }

  function Number(cs: Charge): nat {
    match cs
    case Disconnected => 0 case PlugDetected => 1 case Handshake => 2 case Active => 3
    case Limited => 4 case Complete => 5 case Faulted => 6
  }

  /** The state number never falls, except to 0 by an unplug without a critical fault. */
  lemma NumberNeverFalls(es: seq<Event>, e: Event)
    ensures Number(Run(es + [e])) >= Number(Run(es))
            || (Run(es + [e]) == Disconnected && e.kind == Unplug && !e.critical)
  {
    assert (es + [e])[..|es|] == es;
  }

  /** FAULT is left exactly by an unplug without a critical fault. */
  lemma FaultIsLeftExactlyByUnplug(es: seq<Event>, e: Event)
    requires Run(es) == Faulted
    ensures Run(es + [e]) == if e.kind == Unplug && !e.critical then Disconnected else Faulted
  {
    assert (es + [e])[..|es|] == es;
  }

  /** Current is commanded only on entering ACTIVE or LIMITED, and never above what is offered or what the BMS allows. */
  lemma CurrentIsBounded(es: seq<Event>, e: Event)
    ensures var o := Next(Run(es), e);
            && o.current <= e.offered && o.current <= e.freshLimit
            && (o.current > 0 ==> (o.next == Active || o.next == Limited) && o.next != Run(es))
            && ((o.next == Active || o.next == Limited) && o.next != Run(es) ==>
                o.current == Min(e.offered, e.freshLimit))
  {
  }

  /** The positions where the present connection was plugged in and shook hands. */
  datatype Session = Session(plug: nat, handshake: nat)

  ghost predicate Connected(es: seq<Event>, s: Session) {
    && s.plug < s.handshake < |es|
    && es[s.plug].kind == PlugIn && Run(es[..s.plug]) == Disconnected
    && es[s.handshake].kind == HandshakeOk && Run(es[..s.handshake]) == PlugDetected
    && forall k :: s.plug < k <= |es| ==> Run(es[..k]) != Disconnected
  }

  ghost predicate Plugged(es: seq<Event>, p: nat) {
    && p < |es| && es[p].kind == PlugIn && Run(es[..p]) == Disconnected
    && forall k :: p < k <= |es| ==> Run(es[..k]) != Disconnected
  }

  lemma {:induction false} FindPlug(es: seq<Event>) returns (p: nat)
    requires Run(es) != Disconnected
    ensures Plugged(es, p)
  {
    var n := |es| - 1;
    assert es[..|es|] == es;
    if Run(es[..n]) == Disconnected {
      p := n;
    } else {
      p := FindPlug(es[..n]);
      assert es[..n][..p] == es[..p];
      forall k | p < k <= n
        ensures Run(es[..k]) != Disconnected
      {
        assert es[..n][..k] == es[..k];
      }
    }
  }

  /**
    * Charging, and completion, happen only in a connection that was plugged in and then shook
    * hands, with no disconnection since.
    */
  lemma {:induction false} ChargingNeedsHandshake(es: seq<Event>) returns (s: Session)
    requires Run(es) == Handshake || Run(es) == Active || Run(es) == Limited || Run(es) == Complete
    ensures Connected(es, s)
  {
    var n := |es| - 1;
    var front := es[..n];
    assert es[..|es|] == es;
    if Run(front) == PlugDetected {
      var p := FindPlug(front);
      s := Session(p, n);
      assert front[..p] == es[..p];
    } else {
      s := ChargingNeedsHandshake(front);
      assert front[..s.plug] == es[..s.plug] && front[..s.handshake] == es[..s.handshake];
    }
    forall k | s.plug < k <= |es|
      ensures Run(es[..k]) != Disconnected
    {
      if k <= n {
        assert front[..k] == es[..k];
      }
    }
  }

  // ----- exactly when each state holds -----

  /** The state's own rule applies to the event. */
  predicate Own(cs: Charge, e: Event) {
    (cs == Disconnected && e.kind == PlugIn) || (cs == PlugDetected && e.kind == HandshakeOk) ||
    (cs == Handshake && e.freshLimit > 0) || (cs == Active && 0 < e.freshLimit < e.offered) ||
    ((cs == Active || cs == Limited) && e.soc >= e.targetSoc)
  }

  /** An event that leaves a state as it is. */
  predicate Waits(cs: Charge, e: Event) {
    match cs
    case Disconnected => e.kind != PlugIn
    case Faulted => e.critical || e.kind != Unplug
    case _ => !e.critical && e.kind != Unplug && !Own(cs, e)
  }

  /** The entrances of each state. */
  predicate Enters(from: Charge, e: Event, to: Charge) {
    match to
    case PlugDetected => from == Disconnected && e.kind == PlugIn
    case Handshake => from == PlugDetected && e.kind == HandshakeOk
    case Active => from == Handshake && e.freshLimit > 0
    case Limited => from == Active && 0 < e.freshLimit < e.offered
    case Complete => e.soc >= e.targetSoc && (from == Limited || (from == Active && !(0 < e.freshLimit < e.offered)))
    case Faulted => e.critical && from != Disconnected && from != Faulted && !Own(from, e)
    case Disconnected => e.kind == Unplug && !e.critical && from != Disconnected && !Own(from, e)
  }

  lemma WaitingStays(cs: Charge, e: Event)
    ensures Next(cs, e).next == cs <==> Waits(cs, e)
  {
  }

  lemma Entrances(cs: Charge, e: Event, to: Charge)
    requires to != cs
    ensures Next(cs, e).next == to <==> Enters(cs, e, to)
  {
  }

  /** A step reports rejection exactly if it stays, but for a faulted state kept by a critical fault. */
  lemma RejectsExactly(cs: Charge, e: Event)
    ensures Next(cs, e).rejected <==> Waits(cs, e) && !(cs == Faulted && e.critical)
  {
  }

  ghost function EnteredAt(es: seq<Event>, cs: Charge): nat -> bool {
    (k: nat) => k < |es| && Run(es[..k]) != cs && Enters(Run(es[..k]), es[k], cs)
  }

  ghost function LeftAt(es: seq<Event>, cs: Charge): nat -> bool { (k: nat) => k < |es| && !Waits(cs, es[k]) }

  /** Disconnected from the start: no event so far was a plug. */
  ghost predicate NeverPlugged(es: seq<Event>, n: nat)
    requires n <= |es|
  {
    forall j :: 0 <= j < n ==> es[j].kind != PlugIn
  }

  /** A run is in a state exactly if an event entered it and all later ones wait in it, or it never left DISCONNECTED. */
  lemma StateExactly(es: seq<Event>, cs: Charge)
    ensures Run(es) == cs <==>
            Since(|es|, EnteredAt(es, cs), LeftAt(es, cs)) || (cs == Disconnected && NeverPlugged(es, |es|))
  {
    StateUpTo(es, cs, |es|);
    assert es[..|es|] == es;
  }

  lemma {:induction false} StateUpTo(es: seq<Event>, cs: Charge, n: nat)
    requires n <= |es|
    ensures Run(es[..n]) == cs <==>
            Since(n, EnteredAt(es, cs), LeftAt(es, cs)) || (cs == Disconnected && NeverPlugged(es, n))
  {
    hide Next, Enters, Waits, Run, Since;
    if n == 0 {
      AtFirst(es, cs);
    } else {
      StateUpTo(es, cs, n - 1);
      RunOn(es, n - 1);
      SinceNext(n - 1, EnteredAt(es, cs), LeftAt(es, cs));
      ComesAndStays(Run(es[..n - 1]), es[n - 1], cs);
      PlugEndsIt(es[n - 1]);
      assert NeverPlugged(es, n) <==> NeverPlugged(es, n - 1) && es[n - 1].kind != PlugIn;
      hide NeverPlugged;
    }
  }

  lemma AtFirst(es: seq<Event>, cs: Charge)
    ensures Run(es[..0]) == Disconnected && !Since(0, EnteredAt(es, cs), LeftAt(es, cs))
  {
  }

  lemma ComesAndStays(from: Charge, e: Event, cs: Charge)
    ensures Next(from, e).next == cs <==> if from == cs then Waits(cs, e) else Enters(from, e, cs)
  {
    hide Next, Enters, Waits;
    if from == cs {
      WaitingStays(cs, e);
    } else {
      Entrances(from, e, cs);
    }
  }

  lemma PlugEndsIt(e: Event)
    ensures Waits(Disconnected, e) <==> e.kind != PlugIn
  {
  }

  // ----- exactly when charging is active -----

  /** Only waiting events from position k on. */
  ghost predicate WaitsFrom(es: seq<Event>, cs: Charge, k: nat) {
    forall i :: k <= i < |es| ==> Waits(cs, es[i])
  }

  lemma {:induction false} Stays(es: seq<Event>, cs: Charge, k: nat)
    requires k <= |es| && Run(es[..k]) == cs && WaitsFrom(es, cs, k)
    ensures Run(es) == cs
  {
    hide Next, Waits;
    if k == |es| {
      assert es[..k] == es;
    } else {
      var front := es[..|es| - 1];
      WaitingStays(cs, es[|es| - 1]);
      assert front[..k] == es[..k];
      Stays(front, cs, k);
    }
  }

  /** The event that entered the present state; all later ones waited. */
  lemma {:induction false} Entered(es: seq<Event>, cs: Charge) returns (k: nat)
    requires cs != Disconnected && Run(es) == cs
    ensures k < |es| && Run(es[..k]) != cs && Run(es[..k + 1]) == cs && WaitsFrom(es, cs, k + 1)
  {
    hide Next, Waits;
    var n := |es| - 1;
    var front := es[..n];
    assert es[..n + 1] == es;
    if Run(front) != cs {
      k := n;
    } else {
      k := Entered(front, cs);
      WaitingStays(cs, es[n]);
      assert front[..k] == es[..k] && front[..k + 1] == es[..k + 1];
    }
  }

  /** Plugged at p while disconnected, handshake at h, a limit at a, and only waiting in between and since. */
  ghost predicate Way(es: seq<Event>, p: nat, h: nat, a: nat) {
    && p < h < a < |es|
    && Run(es[..p]) == Disconnected && es[p].kind == PlugIn && WaitsFrom(es[..h], PlugDetected, p + 1)
    && es[h].kind == HandshakeOk && WaitsFrom(es[..a], Handshake, h + 1)
    && es[a].freshLimit > 0 && WaitsFrom(es, Active, a + 1)
  }

  lemma RunOn(es: seq<Event>, k: nat)
    requires k < |es|
    ensures Run(es[..k + 1]) == Next(Run(es[..k]), es[k]).next
  {
    assert es[..k + 1][..k] == es[..k];
  }

  lemma WayEndsActive(es: seq<Event>, p: nat, h: nat, a: nat)
    requires Way(es, p, h, a)
    ensures Run(es) == Active
  {
    hide Next, Waits, Run;
    Entrances(Disconnected, es[p], PlugDetected);
    Entrances(PlugDetected, es[h], Handshake);
    Entrances(Handshake, es[a], Active);
    RunOn(es, p);
    assert es[..h][..p + 1] == es[..p + 1];
    Stays(es[..h], PlugDetected, p + 1);
    RunOn(es, h);
    assert es[..a][..h + 1] == es[..h + 1];
    Stays(es[..a], Handshake, h + 1);
    RunOn(es, a);
    Stays(es, Active, a + 1);
  }

  lemma FindWay(es: seq<Event>) returns (p: nat, h: nat, a: nat)
    requires Run(es) == Active
    ensures Way(es, p, h, a)
  {
    hide Next, Waits, Run;
    a := Entered(es, Active);
    RunOn(es, a);
    Entrances(Run(es[..a]), es[a], Active);
    h := Entered(es[..a], Handshake);
    assert es[..a][..h] == es[..h];
    assert es[..a][..h + 1] == es[..h + 1];
    RunOn(es, h);
    Entrances(Run(es[..h]), es[h], Handshake);
    p := Entered(es[..h], PlugDetected);
    assert es[..h][..p] == es[..p];
    assert es[..h][..p + 1] == es[..p + 1];
    RunOn(es, p);
    Entrances(Run(es[..p]), es[p], PlugDetected);
  }

  /** A run charges exactly if it went the whole way from a plug over a handshake to a limit, and nothing has ended it since. */
  lemma ActiveExactly(es: seq<Event>)
    ensures Run(es) == Active <==> exists p, h, a :: Way(es, p, h, a)
  {
    if Run(es) == Active {
      var p, h, a := FindWay(es);
    } else if p, h, a :| Way(es, p, h, a) {
      WayEndsActive(es, p, h, a);
      assert false;
    }
  }

  // ----- the documented overrides -----

  /**
    * A critical fault is documented to take any plugged state to FAULT. It does exactly when the
    * state's own rule does not apply to the same event.
    */
  lemma CriticalFaultsExactly(cs: Charge, e: Event)
    requires cs != Disconnected && e.critical
    ensures Next(cs, e).next == Faulted <==>
            !(cs == PlugDetected && e.kind == HandshakeOk) && !(cs == Handshake && e.freshLimit > 0)
            && !(cs == Active && 0 < e.freshLimit < e.offered)
            && !((cs == Active || cs == Limited) && e.soc >= e.targetSoc)
  {
  }

  /** One that slips through: charging starts, with current, during a critical fault. */
  lemma ChargingStartsDuringFault()
    ensures var e := Event(Stop, 64, 50, true, 80, 32); Next(Handshake, e) == Outcome(Active, 32, false)
  {
  }

  /** The mode shown to the vehicle. */
  function VehicleMode(cs: Charge): V.Mode {
    match cs
    case Disconnected => V.Off
    case Faulted => V.Fault
    case _ => V.Charging
  }

  /** Along any run the vehicle shows CHARGING exactly while connected and not faulted. */
  lemma ModeTracksConnection(es: seq<Event>)
    ensures VehicleMode(Run(es)) == V.Charging <==> (exists p :: Plugged(es, p)) && Run(es) != Faulted
    ensures VehicleMode(Run(es)) == V.Fault <==> Run(es) == Faulted
    ensures VehicleMode(Run(es)) == V.Off <==> !exists p :: Plugged(es, p)
  {
    if Run(es) != Disconnected {
      var p := FindPlug(es);
    }
    assert es[..|es|] == es;
  }
}
