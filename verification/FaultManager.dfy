/** The gateway's fault table with its redundant severity counters. */
module FaultManager {
  import opened Ints

  const MAX_FAULTS := 16
  const COMM_ERROR: u8 := 5

  datatype Fault = Fault(node: u8, code: u8, active: bool, severity: u8)

  datatype Table = Table(faults: seq<Fault>, critical: u8, warning: u8)

  const EMPTY := Table([], 0, 0)

  /** Which entries an operation or a count looks at. */
  datatype Scope = Everything | OfNode(node: u8)

  predicate Covers(s: Scope, f: Fault) { s.Everything? || f.node == s.node }

  // ----- counting -----

  /** Severity 1 and 2 are counted apart; `Any` counts every active entry. */
  datatype Class = Critical | Warning | Any

  predicate Counts(f: Fault, s: Scope, c: Class) {
    f.active && Covers(s, f) && (c.Critical? ==> f.severity == 2) && (c.Warning? ==> f.severity == 1)
  }

  function Count(fs: seq<Fault>, s: Scope, c: Class): (n: nat)
    ensures n <= |fs|
  {
    if fs == [] then 0
    else Count(fs[..|fs| - 1], s, c) + if Counts(fs[|fs| - 1], s, c) then 1 else 0
  }

  lemma CountNone(s: Scope)
    ensures Count([], s, Critical) == Count([], s, Warning) == 0
  {
  }

  function Unit(b: bool): nat { if b then 1 else 0 }

  lemma CountOneMore(fs: seq<Fault>, i: nat, s: Scope, c: Class)
    requires i < |fs|
    ensures Count(fs[..i + 1], s, c) == Count(fs[..i], s, c) + Unit(Counts(fs[i], s, c))
  {
    assert fs[..i + 1][..i] == fs[..i];
  }

  // ----- the operations on values; counters are bytes and wrap -----

  function Up(n: u8, yes: bool): u8 { if yes then (n + 1) % 256 else n }

  function Down(n: u8, d: nat): u8 { (n - d) % 256 }

  lemma DownMore(n: u8, d: nat)
    ensures (Down(n, d) + 255) % 256 == Down(n, d + 1)
    ensures Down(n, 0) == n
  {
  }

  predicate IsKey(f: Fault, node: u8, code: u8) { f.node == node && f.code == code }

  /** Position of the first entry with this key, or the length. */
  function Find(fs: seq<Fault>, node: u8, code: u8): (i: nat)
    ensures i <= |fs|
    ensures i < |fs| ==> IsKey(fs[i], node, code)
    ensures forall j :: 0 <= j < i ==> !IsKey(fs[j], node, code)
  {
    if fs == [] then 0 else if IsKey(fs[0], node, code) then 0 else 1 + Find(fs[1..], node, code)
  }

  /** Whether a report is recorded: the key is known or there is room. */
  predicate Accepts(t: Table, node: u8, code: u8) {
    Find(t.faults, node, code) < |t.faults| || |t.faults| < MAX_FAULTS
  }

  function Reported(t: Table, node: u8, code: u8, severity: u8): Table {
    var i := Find(t.faults, node, code);
    var f := Fault(node, code, true, severity);
    if i < |t.faults| then
      var rises := !t.faults[i].active;
      Table(t.faults[i := f], Up(t.critical, rises && severity == 2), Up(t.warning, rises && severity == 1))
    else if |t.faults| < MAX_FAULTS then
      Table(t.faults + [f], Up(t.critical, severity == 2), Up(t.warning, severity == 1))
    else t
  }

  function Quiet(f: Fault, s: Scope): Fault { if Covers(s, f) then f.(active := false) else f }

  lemma QuietCases(f: Fault, s: Scope)
    ensures Quiet(f, s) == if Covers(s, f) && f.active then f.(active := false) else f
  {
  }

  function Quieted(fs: seq<Fault>, s: Scope): (r: seq<Fault>)
    ensures |r| == |fs|
  {
    seq(|fs|, i requires 0 <= i < |fs| => Quiet(fs[i], s))
  }

  function Cleared(t: Table, s: Scope): Table {
    Table(Quieted(t.faults, s), Down(t.critical, Count(t.faults, s, Critical)), Down(t.warning, Count(t.faults, s, Warning)))
  }

  /** Clearing one fault: the first active entry with the key, if any. */
  function ClearedOne(t: Table, node: u8, code: u8): Table {
    var i := FindActive(t.faults, node, code);
    if i == |t.faults| then t
    else
      var f := t.faults[i];
      Table(t.faults[i := f.(active := false)],
            Down(t.critical, if f.severity == 2 then 1 else 0), Down(t.warning, if f.severity == 1 then 1 else 0))
  }

  function FindActive(fs: seq<Fault>, node: u8, code: u8): (i: nat)
    ensures i <= |fs|
    ensures i < |fs| ==> IsKey(fs[i], node, code) && fs[i].active
    ensures forall j :: 0 <= j < i ==> !(IsKey(fs[j], node, code) && fs[j].active)
  {
    if fs == [] then 0
    else if IsKey(fs[0], node, code) && fs[0].active then 0 else 1 + FindActive(fs[1..], node, code)
  }

  lemma FindUnique(fs: seq<Fault>, node: u8, code: u8, i: nat)
    requires i <= |fs| && forall j :: 0 <= j < i ==> !IsKey(fs[j], node, code)
    requires i < |fs| ==> IsKey(fs[i], node, code)
    ensures Find(fs, node, code) == i
  {
  }

  /** Node and code of the first active entry, zeros if none is active. */
  function FirstActiveKey(fs: seq<Fault>): (u8, u8) {
    if fs == [] then (0, 0) else if fs[0].active then (fs[0].node, fs[0].code) else FirstActiveKey(fs[1..])
  }

  /** Severity of a BMS fault code: 2 critical, 1 warning, 0 anything else. */
  function BmsSeverity(code: u8): u8 {
    if code == 1 || code == 2 || code == COMM_ERROR then 2 else if code == 3 || code == 4 then 1 else 0
  }

  // ----- the table as an object -----

  class Manager {
    const faults: array<Fault>
    var faultCount: nat
    var criticalCount: u8
    var warningCount: u8

    ghost predicate Valid()
      reads this
    {
      faults.Length == MAX_FAULTS && faultCount <= MAX_FAULTS
    }

    ghost function View(): Table
      requires Valid()
      reads this, faults
    {
      Table(faults[..faultCount], criticalCount, warningCount)
    }

    constructor ()
      ensures Valid() && fresh(faults) && View() == EMPTY
    {
      faults := new Fault[MAX_FAULTS](_ => Fault(0, 0, false, 0));
      faultCount, criticalCount, warningCount := 0, 0, 0;
    }

    method Report(node: u8, code: u8, severity: u8) returns (ok: bool)
      requires Valid()
      modifies this, faults
      ensures Valid() && View() == Reported(old(View()), node, code, severity)
      ensures ok == Accepts(old(View()), node, code)
    {
      ghost var was := View();
      for i := 0 to faultCount
        invariant View() == was && forall j :: 0 <= j < i ==> !IsKey(was.faults[j], node, code)
      {
        var f := faults[i];
        if f.node == node && f.code == code {
          FindUnique(was.faults, node, code, i);
          if !f.active {
            if severity == 2 { criticalCount := (criticalCount + 1) % 256; }
            else if severity == 1 { warningCount := (warningCount + 1) % 256; }
          }
          faults[i] := f.(active := true, severity := severity);
          assert faults[..faultCount] == was.faults[i := faults[i]];
          return true;
        }
      }
      FindUnique(was.faults, node, code, faultCount);
      if faultCount >= MAX_FAULTS { return false; }
      faults[faultCount] := Fault(node, code, true, severity);
      faultCount := faultCount + 1;
      assert faults[..faultCount] == was.faults + [Fault(node, code, true, severity)];
      if severity == 2 { criticalCount := (criticalCount + 1) % 256; }
      else if severity == 1 { warningCount := (warningCount + 1) % 256; }
      ok := true;
    }

    method Clear(node: u8, code: u8)
      requires Valid()
      modifies this, faults
      ensures Valid() && View() == ClearedOne(old(View()), node, code)
    {
      ghost var was := View();
      ghost var k := FindActive(was.faults, node, code);
      for i := 0 to faultCount
        invariant View() == was && i <= k
      {
        var f := faults[i];
        if f.node == node && f.code == code && f.active {
          if f.severity == 2 { criticalCount := (criticalCount + 255) % 256; }
          else if f.severity == 1 { warningCount := (warningCount + 255) % 256; }
          faults[i] := f.(active := false);
          assert faults[..faultCount] == was.faults[i := faults[i]];
          return;
        }
      }
    }

    /** The shared loop of clear_node and clear_all. */
    method ClearScope(s: Scope)
      requires Valid()
      modifies this, faults
      ensures Valid() && View() == Cleared(old(View()), s)
    {
      hide Down, Count, Quiet, Covers;
      ghost var was := View();
      CountNone(s);
      DownMore(was.critical, 0);
      DownMore(was.warning, 0);
      for i := 0 to faultCount
        invariant Valid() && faultCount == |was.faults|
        invariant forall j :: 0 <= j < i ==> faults[j] == Quiet(was.faults[j], s)
        invariant forall j :: i <= j < faultCount ==> faults[j] == was.faults[j]
        invariant criticalCount == Down(was.critical, Count(was.faults[..i], s, Critical))
        invariant warningCount == Down(was.warning, Count(was.faults[..i], s, Warning))
      {
        CountOneMore(was.faults, i, s, Critical);
        CountOneMore(was.faults, i, s, Warning);
        DownMore(was.critical, Count(was.faults[..i], s, Critical));
        DownMore(was.warning, Count(was.faults[..i], s, Warning));
        var f := faults[i];
        QuietCases(f, s);
        if Covers(s, f) && f.active {
          if f.severity == 2 { criticalCount := (criticalCount + 255) % 256; }
          else if f.severity == 1 { warningCount := (warningCount + 255) % 256; }
          faults[i] := f.(active := false);
        }
      }
      assert was.faults[..faultCount] == was.faults;
      assert faults[..faultCount] == Quieted(was.faults, s);
    }

    method ClearNode(node: u8)
      requires Valid()
      modifies this, faults
      ensures Valid() && View() == Cleared(old(View()), OfNode(node))
    {
      ClearScope(OfNode(node));
    }

    method ClearAll()
      requires Valid()
      modifies this, faults
      ensures Valid() && View() == Cleared(old(View()), Everything)
    {
      ClearScope(Everything);
    }

    method ActiveCount() returns (n: nat)
      requires Valid()
      ensures n == Count(View().faults, Everything, Any) <= MAX_FAULTS
    {
      n := 0;
      for i := 0 to faultCount
        invariant n == Count(View().faults[..i], Everything, Any)
      {
        CountOneMore(View().faults, i, Everything, Any);
        if faults[i].active { n := n + 1; }
      }
      assert View().faults[..faultCount] == View().faults;
    }

    method HasCritical() returns (r: bool)
      requires Valid()
      ensures r == (View().critical > 0)
    {
      r := criticalCount > 0;
    }

    /** The scan behind READ_DTCS: how many faults are active, and the key of the first. */
    method FirstActiveDtc() returns (count: nat, node: u8, code: u8)
      requires Valid()
      ensures count == Count(View().faults, Everything, Any)
      ensures (node, code) == FirstActiveKey(View().faults)
    {
      count, node, code := 0, 0, 0;
      ghost var fs := View().faults;
      for i := 0 to faultCount
        invariant count == Count(fs[..i], Everything, Any)
        invariant if count == 0 then (node, code) == (0, 0) && FirstActiveKey(fs) == FirstActiveKey(fs[i..])
                  else (node, code) == FirstActiveKey(fs)
      {
        CountOneMore(fs, i, Everything, Any);
        assert fs[i..][0] == faults[i] && fs[i..][1..] == fs[i + 1..];
        if faults[i].active {
          if count == 0 {
            node, code := faults[i].node, faults[i].code;
          }
          count := count + 1;
        }
      }
      assert fs[..faultCount] == fs;
    }
  }

  // ----- the counters are a recount -----

  ghost predicate DistinctKeys(fs: seq<Fault>) {
    forall i, j :: 0 <= i < j < |fs| ==> !IsKey(fs[j], fs[i].node, fs[i].code)
  }

  ghost predicate Consistent(t: Table) {
    && |t.faults| <= MAX_FAULTS && DistinctKeys(t.faults)
    && t.critical == Count(t.faults, Everything, Critical)
    && t.warning == Count(t.faults, Everything, Warning)
  }

  lemma SameKeysStayDistinct(fs: seq<Fault>, gs: seq<Fault>)
    requires DistinctKeys(fs) && |gs| == |fs|
    requires forall i :: 0 <= i < |fs| ==> gs[i].node == fs[i].node && gs[i].code == fs[i].code
    ensures DistinctKeys(gs)
  {
  }

  lemma NewKeyStaysDistinct(fs: seq<Fault>, f: Fault)
    requires DistinctKeys(fs) && forall i :: 0 <= i < |fs| ==> !IsKey(fs[i], f.node, f.code)
    ensures DistinctKeys(fs + [f])
  {
  }

  lemma {:induction false} CountUpdate(fs: seq<Fault>, i: nat, f: Fault, s: Scope, c: Class)
    requires i < |fs|
    ensures Count(fs[i := f], s, c) + Unit(Counts(fs[i], s, c)) == Count(fs, s, c) + Unit(Counts(f, s, c))
  {
    var n := |fs| - 1;
    if i < n {
      CountUpdate(fs[..n], i, f, s, c);
      assert fs[i := f][..n] == fs[..n][i := f];
    } else {
      assert fs[i := f][..n] == fs[..n];
    }
  }

  lemma CountAppend(fs: seq<Fault>, f: Fault, s: Scope, c: Class)
    ensures Count(fs + [f], s, c) == Count(fs, s, c) + Unit(Counts(f, s, c))
  {
    assert (fs + [f])[..|fs|] == fs;
  }

  /** Clearing a scope removes exactly what that scope counted. */
  lemma {:induction false} CountQuieted(fs: seq<Fault>, s: Scope, c: Class)
    ensures Count(Quieted(fs, s), Everything, c) + Count(fs, s, c) == Count(fs, Everything, c)
  {
    if fs != [] {
      var n := |fs| - 1;
      CountQuieted(fs[..n], s, c);
      assert Quieted(fs, s)[..n] == Quieted(fs[..n], s);
    }
  }

  lemma {:induction false} CountIsExact(fs: seq<Fault>, s: Scope, c: Class)
    ensures Count(fs, s, c) > 0 <==> exists i :: 0 <= i < |fs| && Counts(fs[i], s, c)
  {
    if fs != [] {
      var n := |fs| - 1;
      CountIsExact(fs[..n], s, c);
      forall i | 0 <= i < n
        ensures fs[..n][i] == fs[i]
      {
      }
    }
  }

  ghost function Positions(fs: seq<Fault>, s: Scope, c: Class): set<int> {
    set i | 0 <= i < |fs| && Counts(fs[i], s, c)
  }

  lemma {:induction false} CountIsCardinality(fs: seq<Fault>, s: Scope, c: Class)
    ensures Count(fs, s, c) == |Positions(fs, s, c)|
  {
    hide Counts;
    if fs == [] {
      assert Positions(fs, s, c) == {};
    } else {
      var k := |fs| - 1;
      CountIsCardinality(fs[..k], s, c);
      var ps := Positions(fs[..k], s, c);
      CountOneMore(fs, k, s, c);
      assert fs[..k + 1] == fs;
      hide Count;
      if Counts(fs[k], s, c) {
        assert Positions(fs, s, c) == ps + {k};
      } else {
        assert Positions(fs, s, c) == ps;
      }
    }
  }

  /** The key reported is that of the first active entry, and zeros if none is active. */
  lemma {:induction false} FirstActiveKeyIs(fs: seq<Fault>, i: nat)
    requires i <= |fs| && (forall j :: 0 <= j < i ==> !fs[j].active) && (i < |fs| ==> fs[i].active)
    ensures FirstActiveKey(fs) == if i < |fs| then (fs[i].node, fs[i].code) else (0, 0)
  {
    if i > 0 {
      FirstActiveKeyIs(fs[1..], i - 1);
    }
  }

  predicate SameClass(a: u8, b: u8) { (a == 2) == (b == 2) && (a == 1) == (b == 1) }

  /**
    * A report keeps keys distinct and the counters equal to a recount exactly when it does not
    * move an already active fault to another counted severity.
    */
  lemma ReportKeepsRecount(t: Table, node: u8, code: u8, severity: u8)
    requires Consistent(t)
    ensures var i := Find(t.faults, node, code);
            Consistent(Reported(t, node, code, severity)) <==>
            (i < |t.faults| && t.faults[i].active ==> SameClass(t.faults[i].severity, severity))
  {
    hide Consistent, Reported;
    if Find(t.faults, node, code) < |t.faults| {
      KnownKeyRecount(t, node, code, severity);
    } else {
      NewKeyRecount(t, node, code, severity);
    }
  }

  lemma KnownKeyRecount(t: Table, node: u8, code: u8, severity: u8)
    requires Consistent(t) && Find(t.faults, node, code) < |t.faults|
    ensures var g := t.faults[Find(t.faults, node, code)];
            Consistent(Reported(t, node, code, severity)) <==> (g.active ==> SameClass(g.severity, severity))
  {
    hide DistinctKeys, Count, Find;
    var i, f := Find(t.faults, node, code), Fault(node, code, true, severity);
    CountUpdate(t.faults, i, f, Everything, Critical);
    CountUpdate(t.faults, i, f, Everything, Warning);
    SameKeysStayDistinct(t.faults, t.faults[i := f]);
  }

  lemma NewKeyRecount(t: Table, node: u8, code: u8, severity: u8)
    requires Consistent(t) && Find(t.faults, node, code) == |t.faults|
    ensures Consistent(Reported(t, node, code, severity))
  {
    hide DistinctKeys, Count, Find;
    var f := Fault(node, code, true, severity);
    CountAppend(t.faults, f, Everything, Critical);
    CountAppend(t.faults, f, Everything, Warning);
    NewKeyStaysDistinct(t.faults, f);
  }

  /** The failing case: a critical fault downgraded by a second report stays in the critical counter. */
  lemma DowngradeStaysCritical()
    ensures var t := Reported(Reported(EMPTY, 3, 1, 2), 3, 1, 0);
            t.critical == 1 && Count(t.faults, Everything, Critical) == 0
  {
    var t := Reported(EMPTY, 3, 1, 2);
    assert t.faults == [Fault(3, 1, true, 2)];
    var u := Reported(t, 3, 1, 0);
    assert u.faults == [Fault(3, 1, true, 0)];
    assert u.faults[..0] == [];
  }

  lemma ClearScopeKeepsRecount(t: Table, s: Scope)
    requires Consistent(t)
    ensures Consistent(Cleared(t, s))
    ensures Cleared(t, s).critical == t.critical - Count(t.faults, s, Critical)
    ensures Cleared(t, s).warning == t.warning - Count(t.faults, s, Warning)
  {
    hide DistinctKeys, Count;
    CountQuieted(t.faults, s, Critical);
    CountQuieted(t.faults, s, Warning);
    SameKeysStayDistinct(t.faults, Cleared(t, s).faults);
  }

  lemma ClearOneKeepsRecount(t: Table, node: u8, code: u8)
    requires Consistent(t)
    ensures Consistent(ClearedOne(t, node, code))
  {
    var i := FindActive(t.faults, node, code);
    hide DistinctKeys, Count;
    if i < |t.faults| {
      var f := t.faults[i].(active := false);
      CountUpdate(t.faults, i, f, Everything, Critical);
      CountUpdate(t.faults, i, f, Everything, Warning);
      SameKeysStayDistinct(t.faults, t.faults[i := f]);
    }
  }

  /** After clearing a key, no entry with that key is active. */
  lemma ClearOneSilencesKey(t: Table, node: u8, code: u8)
    requires DistinctKeys(t.faults)
    ensures FindActive(ClearedOne(t, node, code).faults, node, code) == |t.faults|
  {
    var i, r := FindActive(t.faults, node, code), ClearedOne(t, node, code).faults;
    var k := FindActive(r, node, code);
    if k < |r| {
      assert false;
    }
  }

  // ----- whole runs -----

  datatype Op = Report(node: u8, code: u8, severity: u8) | ClearOne(node: u8, code: u8) | ClearIn(scope: Scope)

  function Apply(t: Table, o: Op): Table {
    match o
    case Report(n, c, v) => Reported(t, n, c, v)
    case ClearOne(n, c) => ClearedOne(t, n, c)
    case ClearIn(s) => Cleared(t, s)
  }

  function Run(os: seq<Op>): Table {
    if os == [] then EMPTY else Apply(Run(os[..|os| - 1]), os[|os| - 1])
  }

  /** Every entry carries the severity of its key. */
  ghost predicate Graded(t: Table, grade: (u8, u8) -> u8) {
    forall i :: 0 <= i < |t.faults| ==> t.faults[i].severity == grade(t.faults[i].node, t.faults[i].code)
  }

  lemma ApplyKeepsRecount(t: Table, o: Op, grade: (u8, u8) -> u8)
    requires Consistent(t) && Graded(t, grade) && (o.Report? ==> o.severity == grade(o.node, o.code))
    ensures Consistent(Apply(t, o)) && Graded(Apply(t, o), grade)
  {
    match o
    case Report(n, c, v) => ReportKeepsRecount(t, n, c, v);
    case ClearOne(n, c) => ClearOneKeepsRecount(t, n, c);
    case ClearIn(s) => ClearScopeKeepsRecount(t, s);
  }

  /** With one severity per (node, code), every run keeps the counters exact: they neither drift nor underflow. */
  lemma {:induction false} RunsStayConsistent(os: seq<Op>, grade: (u8, u8) -> u8)
    requires forall i :: 0 <= i < |os| && os[i].Report? ==> os[i].severity == grade(os[i].node, os[i].code)
    ensures Consistent(Run(os)) && Graded(Run(os), grade)
  {
    if os != [] {
      RunsStayConsistent(os[..|os| - 1], grade);
      ApplyKeepsRecount(Run(os[..|os| - 1]), os[|os| - 1], grade);
    }
  }

  /** has_critical is exact on a consistent table. */
  lemma CriticalFlagIsExact(t: Table)
    requires Consistent(t)
    ensures t.critical > 0 <==> exists i :: 0 <= i < |t.faults| && t.faults[i].active && t.faults[i].severity == 2
  {
    CountIsExact(t.faults, Everything, Critical);
    if t.critical > 0 {
      var i :| 0 <= i < |t.faults| && Counts(t.faults[i], Everything, Critical);
      assert t.faults[i].active && t.faults[i].severity == 2;
    }
    if i :| 0 <= i < |t.faults| && t.faults[i].active && t.faults[i].severity == 2 {
      assert Counts(t.faults[i], Everything, Critical);
    }
  }

  /** A node-scoped clear lowers the active count by that node's active faults and leaves every other entry as it was. */
  lemma ClearNodeDropsItsOwn(t: Table, node: u8)
    ensures var r := Cleared(t, OfNode(node));
            && Count(r.faults, Everything, Any) == Count(t.faults, Everything, Any) - Count(t.faults, OfNode(node), Any)
            && Count(r.faults, OfNode(node), Any) == 0
            && forall i :: 0 <= i < |t.faults| && t.faults[i].node != node ==> r.faults[i] == t.faults[i]
  {
    CountQuieted(t.faults, OfNode(node), Any);
    var r := Cleared(t, OfNode(node));
    CountIsExact(r.faults, OfNode(node), Any);
  }
}
