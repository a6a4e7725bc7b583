/** Vehicle modes and the gateway's mode transition function. */
module Vehicle {
  import opened Ints

  datatype Mode = Off | Ready | Drive | Limp | Fault | Charging | Service | OtaUpdate | Transport | Unnamed(b: u8)

  /** A mode byte as received on the bus; values without a name are kept. */
  function ModeOf(b: u8): Mode {
    match b
    case 0 => Off case 1 => Ready case 2 => Drive case 3 => Limp case 4 => Fault
    case 5 => Charging case 6 => Service case 7 => OtaUpdate case 8 => Transport
    case _ => Unnamed(b)
  }

  function ModeByte(m: Mode): u8 {
    match m
    case Off => 0 case Ready => 1 case Drive => 2 case Limp => 3 case Fault => 4
    case Charging => 5 case Service => 6 case OtaUpdate => 7 case Transport => 8
    case Unnamed(b) => b
  }

  /** Every byte stands for one mode and every named mode for one byte, in the order of their declaration. */
  lemma ModeBytes(b: u8, m: Mode)
    ensures ModeByte(ModeOf(b)) == b
    ensures !m.Unnamed? ==> ModeOf(ModeByte(m)) == m && ModeByte(m) <= 8
    ensures ModeOf(b).Unnamed? <==> b > 8
    ensures ModeByte(Limp) < ModeByte(Fault) < ModeByte(Charging) < ModeByte(Service) < ModeByte(OtaUpdate) < ModeByte(Transport)
    ensures ModeByte(Off) < ModeByte(Ready) < ModeByte(Drive) < ModeByte(Limp)
  {
  }

  function DetermineMode(current: Mode, allOnline: bool, bmsFault: bool, bmsLimp: bool): Mode {
    if current == Fault || bmsFault then Fault
    else if current == Charging then Charging
    else if current == OtaUpdate then OtaUpdate
    else if bmsLimp then Limp
    else match current
      case Off => if allOnline then Ready else Off
      case Ready => if allOnline then Ready else Off
      case Drive => if allOnline then Drive else Ready
      case Limp => if allOnline then Ready else Off
      case _ => Off
  }

  /** The gateway's view of the vehicle. */
  datatype State = State(mode: Mode, allOnline: bool, bmsFault: bool, bmsLimp: bool, faultCount: nat, booted: bool)

  const BOOTED := State(Off, false, false, false, 0, true)

  function Updated(s: State, allOnline: bool, bmsFault: bool, bmsLimp: bool, faultCount: nat): State {
    State(DetermineMode(s.mode, allOnline, bmsFault, bmsLimp), allOnline, bmsFault, bmsLimp, faultCount, s.booted)
  }

  function DriveRequested(s: State): State {
    if s.mode == Ready then s.(mode := Drive) else s
  }

  const REBOOTED := State(Off, false, false, false, 0, false)

  // ----- every sequence of updates -----

  datatype Input = Input(allOnline: bool, bmsFault: bool, bmsLimp: bool, faultCount: nat)

  function Fed(s: State, ins: seq<Input>): State {
    if ins == [] then s
    else
      var i := ins[|ins| - 1];
      Updated(Fed(s, ins[..|ins| - 1]), i.allOnline, i.bmsFault, i.bmsLimp, i.faultCount)
  }

  predicate Latched(m: Mode) { m == Charging || m == OtaUpdate }

  /**
    * FAULT is exactly "started there or a fault was ever active"; otherwise a charging or updating
    * vehicle stays as it is, and any other is in LIMP exactly when the last update asked for it.
    */
  lemma {:induction false} FaultLatches(s: State, ins: seq<Input>)
    ensures var m := Fed(s, ins).mode;
            && (m == Fault <==> s.mode == Fault || exists i :: 0 <= i < |ins| && ins[i].bmsFault)
            && (m != Fault && Latched(s.mode) ==> m == s.mode)
            && (m != Fault && !Latched(s.mode) ==> !Latched(m))
            && (m != Fault && !Latched(s.mode) && ins != [] ==> (m == Limp <==> ins[|ins| - 1].bmsLimp))
  {
    if ins != [] {
      var n := |ins| - 1;
      FaultLatches(s, ins[..n]);
      assert forall i :: 0 <= i < n ==> ins[..n][i] == ins[i];
    }
  }

  /** DRIVE is never entered by an update: only staying in it, with every node online, keeps it. */
  lemma {:induction false} UpdatesNeverEnterDrive(s: State, ins: seq<Input>)
    requires Fed(s, ins).mode == Drive
    ensures s.mode == Drive && forall i :: 0 <= i < |ins| ==> ins[i].allOnline && !ins[i].bmsFault && !ins[i].bmsLimp
  {
    if ins != [] {
      var n := |ins| - 1;
      UpdatesNeverEnterDrive(s, ins[..n]);
      assert forall i :: 0 <= i < n ==> ins[..n][i] == ins[i];
    }
  }

  /** No fault and no limp request in these updates. */
  ghost predicate Calm(ins: seq<Input>) { forall i :: 0 <= i < |ins| ==> !ins[i].bmsFault && !ins[i].bmsLimp }

  /** The mode of a vehicle that is neither driving nor held: READY exactly if the last update saw every node. */
  function Parked(ins: seq<Input>): Mode
    requires ins != []
  {
    if ins[|ins| - 1].allOnline then Ready else Off
  }

  /**
    * Without faults and limp requests the nodes decide. From OFF, READY or LIMP the last update
    * does. A driving vehicle drives until the first update that misses a node, stops to READY in it,
    * and is parked from then on. Any other mode goes to OFF first.
    */
  lemma {:induction false} NodesDecide(s: State, ins: seq<Input>)
    requires Calm(ins) && ins != []
    ensures var m := Fed(s, ins).mode; var n := |ins| - 1;
            match s.mode
            case Off => m == Parked(ins)
            case Ready => m == Parked(ins)
            case Limp => m == Parked(ins)
            case Drive =>
              if forall i :: 0 <= i < n ==> ins[i].allOnline then m == if ins[n].allOnline then Drive else Ready
              else m == Parked(ins)
            case Fault => m == Fault
            case Charging => m == Charging
            case OtaUpdate => m == OtaUpdate
            case _ => m == if n == 0 then Off else Parked(ins)
  {
    var n := |ins| - 1;
    if n > 0 {
      NodesDecide(s, ins[..n]);
    } else {
      assert ins[..0] == [];
    }
  }

  /** Everything else an update records is its input. */
  lemma UpdateRecords(s: State, ins: seq<Input>)
    requires ins != []
    ensures var r, i := Fed(s, ins), ins[|ins| - 1];
            && r.allOnline == i.allOnline && r.bmsFault == i.bmsFault && r.bmsLimp == i.bmsLimp
            && r.faultCount == i.faultCount
    ensures Fed(s, ins).booted == s.booted
  {
    BootedStays(s, ins);
  }

  lemma {:induction false} BootedStays(s: State, ins: seq<Input>)
    ensures Fed(s, ins).booted == s.booted
  {
    if ins != [] {
      BootedStays(s, ins[..|ins| - 1]);
    }
  }
}
