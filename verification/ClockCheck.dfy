/** The virtual-time invariant over an interleaved trace. */
module ClockCheck {
  import opened Ints
  import TN = TraceNormalize
  import TI = TraceIdempotence
  import opened Wrappers

  const U64 := 0x1_0000_0000_0000_0000

  datatype Stamp = Stamp(machine: string, time: nat)

  // ----- reading a line -----

  predicate IsDigit(c: char) { '0' <= c <= '9' }

  predicate AllDigits(s: string) { forall i :: 0 <= i < |s| ==> IsDigit(s[i]) }

  function DigitsValue(s: string): nat
    requires AllDigits(s)
  {
    if s == "" then 0 else 10 * DigitsValue(s[..|s| - 1]) + (s[|s| - 1] as int - '0' as int)
  }

  /** An unsigned 64-bit number: digits, perhaps after a plus sign, in range. */
  function ParseU64(s: string): Option<nat> {
    var d := if s != "" && s[0] == '+' then s[1..] else s;
    if d == "" || !AllDigits(d) || DigitsValue(d) >= U64 then None else Some(DigitsValue(d))
  }

  /** A number in decimal. */
  function Show(n: nat): string {
    if n < 10 then [(48 + n) as char] else Show(n / 10) + [(48 + n % 10) as char]
  }

  lemma {:induction false} ShowIsDigits(n: nat)
    ensures Show(n) != "" && AllDigits(Show(n)) && DigitsValue(Show(n)) == n
    ensures Show(n)[0] != '+' && (n > 0 ==> Show(n)[0] != '0')
  {
    if n >= 10 {
      ShowIsDigits(n / 10);
      var s := Show(n);
      assert s[..|s| - 1] == Show(n / 10);
    } else {
      assert Show(n)[..0] == "";
    }
  }

  /** Every number of up to 64 bits is read back from its decimal form, with or without a plus sign; larger ones are not read. */
  lemma ShownIsParsed(n: nat)
    ensures ParseU64(Show(n)) == ParseU64("+" + Show(n)) == if n < U64 then Some(n) else None
  {
    ShowIsDigits(n);
    assert ("+" + Show(n))[1..] == Show(n);
  }

  function Unpadded(s: string): string {
    if |s| > 1 && s[0] == '0' then Unpadded(s[1..]) else s
  }

  lemma {:induction false} ZeroInFront(s: string)
    requires s != "" && AllDigits(s) && s[0] == '0'
    ensures AllDigits(s[1..]) && DigitsValue(s) == DigitsValue(s[1..])
  {
    var n := |s| - 1;
    if n > 0 {
      assert s[..n][0] == '0';
      ZeroInFront(s[..n]);
      assert s[1..][..n - 1] == s[..n][1..];
    } else {
      assert s[..0] == "" && s[1..] == "";
    }
  }

  /** A digit string without padding is the decimal form of its value. */
  lemma {:induction false} DigitsAreShown(s: string)
    requires s != "" && AllDigits(s) && (|s| > 1 ==> s[0] != '0')
    ensures Show(DigitsValue(s)) == s
    ensures |s| > 1 ==> DigitsValue(s) >= 10
    ensures s[0] != '0' ==> DigitsValue(s) > 0
  {
    var n := |s| - 1;
    if n == 0 {
      assert s[..0] == "";
    } else {
      DigitsAreShown(s[..n]);
      assert s[..n][0] == s[0];
    }
  }

  lemma {:induction false} UnpaddedIsShown(s: string)
    requires s != "" && AllDigits(s)
    ensures Unpadded(s) == Show(DigitsValue(s))
  {
    if |s| > 1 && s[0] == '0' {
      ZeroInFront(s);
      UnpaddedIsShown(s[1..]);
    } else {
      DigitsAreShown(s);
    }
  }

  /** Conversely, whatever is read is the decimal form of the result, but for a plus sign and leading zeros. */
  lemma ParsedIsShown(s: string)
    requires ParseU64(s).Some?
    ensures var d := if s[..1] == "+" then s[1..] else s;
            d != "" && Unpadded(d) == Show(ParseU64(s).value)
  {
    var d := if s != "" && s[0] == '+' then s[1..] else s;
    UnpaddedIsShown(d);
  }

  const PREFIX := "[machine."

  /** The machine and time at the start of a line, if both are there. */
  function ParseTokens(ts: seq<string>): Option<Stamp> {
    if |ts| < 2 || !(PREFIX <= ts[0]) then None
    else match ParseU64(ts[1])
      case None => None
      case Some(t) => Some(Stamp(ts[0], t))
  }

  /** A line is stamped exactly if its first token starts so and its second is a number; the rest does not matter. */
  lemma StampedExactly(ts: seq<string>, m: string, n: nat, rest: seq<string>)
    ensures ParseTokens(ts).Some? <==> |ts| >= 2 && PREFIX <= ts[0] && ParseU64(ts[1]).Some?
    ensures n < U64 ==> ParseTokens(["[machine." + m, Show(n)] + rest) == Some(Stamp("[machine." + m, n))
  {
    ShownIsParsed(n);
  }

  function ParseMachineTime(line: string): Option<Stamp> { ParseTokens(TN.Split(line)) }

  /** The stamps of a trace, lines without one left out. */
  function Stamps(lines: seq<string>): seq<Stamp> {
    if lines == [] then []
    else
      var s := ParseMachineTime(lines[|lines| - 1]);
      Stamps(lines[..|lines| - 1]) + if s.Some? then [s.value] else []
  }

  // ----- the rule -----

  /** The times one machine has shown, in order. */
  function Times(es: seq<Stamp>, m: string): seq<nat> {
    if es == [] then []
    else Times(es[..|es| - 1], m) + if es[|es| - 1].machine == m then [es[|es| - 1].time] else []
  }

  /** A time may follow a history: not before its last entry, or not after any entry. */
  ghost predicate Follows(past: seq<nat>, t: nat) {
    past == [] || t >= past[|past| - 1] || forall i :: 0 <= i < |past| ==> t <= past[i]
  }

  ghost predicate InOrder(es: seq<Stamp>, i: nat)
    requires i < |es|
  {
    Follows(Times(es[..i], es[i].machine), es[i].time)
  }

  ghost predicate AllInOrder(es: seq<Stamp>) { forall i :: 0 <= i < |es| ==> InOrder(es, i) }

  /** How many segments there are: first times of a machine, and steps back. */
  function Segments(es: seq<Stamp>): nat {
    if es == [] then 0
    else
      var front, e := es[..|es| - 1], es[|es| - 1];
      var past := Times(front, e.machine);
      Segments(front) + if past == [] || e.time < past[|past| - 1] then 1 else 0
  }

  function Machines(es: seq<Stamp>): set<string> { set i | 0 <= i < |es| :: es[i].machine }

  datatype Verdict =
    | Skipped
    | Pass(checked: nat, machines: nat, segments: nat)
    | Fail(machine: string, segStart: nat, last: nat, time: nat)

  // ----- the loop -----

  function Min(past: seq<nat>): (m: nat)
    requires past != []
    ensures forall i :: 0 <= i < |past| ==> m <= past[i]
    ensures m in past
  {
    if |past| == 1 then past[0]
    else
      var m := Min(past[..|past| - 1]);
      if past[|past| - 1] < m then past[|past| - 1] else m
  }

  /** The map holds, for each machine seen, the least and the last of its times. */
  ghost predicate Tracks(state: map<string, (nat, nat)>, es: seq<Stamp>) {
    && state.Keys == Machines(es)
    && forall m :: m in state ==>
         var past := Times(es, m); past != [] && state[m] == (Min(past), past[|past| - 1])
  }

  lemma TimesAdd(es: seq<Stamp>, e: Stamp, m: string)
    ensures Times(es + [e], m) == Times(es, m) + if e.machine == m then [e.time] else []
  {
    assert (es + [e])[..|es|] == es;
  }

  lemma {:induction false} UnseenHasNoTimes(es: seq<Stamp>, m: string)
    ensures m !in Machines(es) <==> Times(es, m) == []
  {
    if es != [] {
      var n := |es| - 1;
      UnseenHasNoTimes(es[..n], m);
      assert Machines(es) == Machines(es[..n]) + {es[n].machine};
    }
  }

  lemma MachinesAdd(es: seq<Stamp>, e: Stamp)
    ensures Machines(es + [e]) == Machines(es) + {e.machine}
  {
    var fs := es + [e];
    assert fs[|es|] == e;
    assert forall i :: 0 <= i < |es| ==> fs[i] == es[i];
    forall m | m in Machines(es)
      ensures m in Machines(fs)
    {
      var i :| 0 <= i < |es| && es[i].machine == m;
      assert fs[i].machine == m;
    }
  }

  lemma SegmentsAdd(es: seq<Stamp>, e: Stamp)
    ensures var past := Times(es, e.machine);
            Segments(es + [e]) == Segments(es) + if past == [] || e.time < past[|past| - 1] then 1 else 0
  {
    assert (es + [e])[..|es|] == es;
  }

  lemma MinAdd(past: seq<nat>, t: nat)
    ensures Min(past + [t]) == if past == [] || t < Min(past) then t else Min(past)
  {
    assert (past + [t])[..|past|] == past;
  }

  lemma TracksKnows(state: map<string, (nat, nat)>, es: seq<Stamp>, m: string)
    requires Tracks(state, es)
    ensures var past := Times(es, m);
            (m in state <==> past != []) && (m in state ==> state[m] == (Min(past), past[|past| - 1]))
  {
    UnseenHasNoTimes(es, m);
  }

  lemma TracksUpdate(state: map<string, (nat, nat)>, es: seq<Stamp>, e: Stamp)
    requires Tracks(state, es)
    ensures Tracks(state[e.machine := (Min(Times(es, e.machine) + [e.time]), e.time)], es + [e])
  {
    hide Min, Machines, Times;
    var state' := state[e.machine := (Min(Times(es, e.machine) + [e.time]), e.time)];
    MachinesAdd(es, e);
    forall k | k in state'
      ensures var past := Times(es + [e], k); past != [] && state'[k] == (Min(past), past[|past| - 1])
    {
      TimesAdd(es, e, k);
      if k != e.machine {
        assert k in state && Times(es, k) + [] == Times(es, k);
      }
    }
    assert state'.Keys == state.Keys + {e.machine};
  }

  /** Not later than every entry is not later than the least one. */
  lemma FollowsMin(past: seq<nat>, t: nat)
    requires past != []
    ensures Follows(past, t) <==> t >= past[|past| - 1] || t <= Min(past)
    ensures Min(past) <= past[|past| - 1]
  {
    var i :| 0 <= i < |past| && past[i] == Min(past);
  }

  lemma FollowsNothing(t: nat)
    ensures Follows([], t)
  {
  }

  /** One stamp against the map: the new map and whether a segment began, or nothing on a step back inside a segment. */
  method Absorb(state: map<string, (nat, nat)>, e: Stamp, ghost es: seq<Stamp>)
    returns (ok: bool, state': map<string, (nat, nat)>, fresh': bool)
    requires Tracks(state, es)
    ensures ok <==> Follows(Times(es, e.machine), e.time)
    ensures ok ==> Tracks(state', es + [e])
    ensures ok ==> Segments(es + [e]) == Segments(es) + if fresh' then 1 else 0
    ensures !ok ==> e.machine in state
  {
    hide Tracks, Follows, Min;
    var m, t := e.machine, e.time;
    ghost var past := Times(es, m);
    TracksKnows(state, es, m);
    if past != [] {
      FollowsMin(past, t);
    } else {
      FollowsNothing(t);
    }
    MinAdd(past, t);
    TracksUpdate(state, es, e);
    SegmentsAdd(es, e);
    state', fresh', ok := state, false, true;
    if m !in state {
      state' := state[m := (t, t)];
      fresh' := true;
    } else {
      var (segStart, last) := state[m];
      if t >= last {
        state' := state[m := (segStart, t)];
      } else if t <= segStart {
        state' := state[m := (t, t)];
        fresh' := true;
      } else {
        ok := false;
      }
    }
  }

  /** The verdict that belongs to a trace. */
  ghost predicate Judges(es: seq<Stamp>, v: Verdict) {
    match v
    case Skipped => es == []
    case Pass(checked, machines, segments) =>
      && es != [] && checked == |es| && machines == |Machines(es)| && segments == Segments(es)
      && AllInOrder(es)
    case Fail(m, segStart, last, time) =>
      exists i :: 0 <= i < |es| && !InOrder(es, i) && (forall j :: 0 <= j < i ==> InOrder(es, j))
                  && FailsWith(es, i, m, segStart, last, time)
  }

  ghost predicate FailsWith(es: seq<Stamp>, i: nat, m: string, segStart: nat, last: nat, time: nat)
    requires i < |es|
  {
    var past := Times(es[..i], m);
    es[i] == Stamp(m, time) && past != [] && segStart == Min(past) && last == past[|past| - 1]
  }

  lemma Start()
    ensures Tracks(map[], []) && Segments([]) == 0 && AllInOrder([]) && Stamps([]) == []
  {
  }

  lemma StampsStep(lines: seq<string>, i: nat)
    requires i < |lines|
    ensures var s := ParseMachineTime(lines[i]);
            Stamps(lines[..i + 1]) == Stamps(lines[..i]) + if s.Some? then [s.value] else []
  {
    hide ParseMachineTime;
    assert lines[..i + 1][..i] == lines[..i];
  }

  lemma PassIsRight(state: map<string, (nat, nat)>, es: seq<Stamp>)
    requires Tracks(state, es) && AllInOrder(es)
    ensures Judges(es, if es == [] then Skipped else Pass(|es|, |state|, Segments(es)))
  {
    assert |state| == |state.Keys|;
  }

  /** The check passes exactly when every line of every machine follows that machine's earlier lines. */
  method Check(lines: seq<string>) returns (v: Verdict)
    ensures Judges(Stamps(lines), v)
  {
    hide Stamps, Tracks, Segments, AllInOrder, Judges, ParseMachineTime, Follows, Times, Min;
    var state: map<string, (nat, nat)> := map[];
    var checked, segments := 0, 0;
    ghost var seen: seq<Stamp> := [];
    Start();
    assert lines[..0] == [] && lines[..|lines|] == lines;
    for i := 0 to |lines|
      invariant seen == Stamps(lines[..i]) && Tracks(state, seen) && AllInOrder(seen)
      invariant checked == |seen| && segments == Segments(seen)
    {
      StampsStep(lines, i);
      var parsed := ParseMachineTime(lines[i]);
      if parsed.None? { continue; }
      var e := parsed.value;
      checked := checked + 1;
      var ok, state', begun := Absorb(state, e, seen);
      if !ok {
        StampsPrefix(lines, i + 1);
        TracksKnows(state, seen, e.machine);
        FailureIsFirst(Stamps(lines), seen, e);
        return Fail(e.machine, state[e.machine].0, state[e.machine].1, e.time);
      }
      OrderExtends(seen, e);
      state := state';
      if begun { segments := segments + 1; }
      seen := seen + [e];
    }
    PassIsRight(state, seen);
    v := if checked == 0 then Skipped else Pass(checked, |state|, segments);
  }

  lemma {:induction false} StampsPrefix(lines: seq<string>, n: nat)
    requires n <= |lines|
    ensures Stamps(lines[..n]) <= Stamps(lines)
    decreases |lines| - n
  {
    if n == |lines| {
      assert lines[..n] == lines;
    } else {
      StampsPrefix(lines, n + 1);
      assert lines[..n + 1][..n] == lines[..n];
    }
  }

  lemma OrderExtends(es: seq<Stamp>, e: Stamp)
    requires Follows(Times(es, e.machine), e.time) && AllInOrder(es)
    ensures AllInOrder(es + [e])
  {
    hide Follows;
    var fs := es + [e];
    forall j | 0 <= j <= |es|
      ensures InOrder(fs, j)
    {
      if j < |es| {
        assert fs[..j] == es[..j] && fs[j] == es[j] && InOrder(es, j);
      } else {
        assert fs[..j] == es;
      }
    }
  }

  lemma FailureIsFirst(all: seq<Stamp>, es: seq<Stamp>, e: Stamp)
    requires es + [e] <= all && !Follows(Times(es, e.machine), e.time) && AllInOrder(es)
    ensures var past := Times(es, e.machine);
            past != [] && Judges(all, Fail(e.machine, Min(past), past[|past| - 1], e.time))
  {
    var i, past := |es|, Times(es, e.machine);
    assert past != [];
    hide Follows;
    assert all[..i] == es && all[i] == (es + [e])[i] == e;
    forall j | 0 <= j < i
      ensures InOrder(all, j)
    {
      assert all[..j] == es[..j] && all[j] == es[j] && InOrder(es, j);
    }
    assert FailsWith(all, i, e.machine, Min(past), past[|past| - 1], e.time);
  }

  // ----- each machine separately -----

  ghost predicate Climbs(ts: seq<nat>) { forall i :: 0 <= i < |ts| ==> Follows(ts[..i], ts[i]) }

  lemma ClimbsAdd(ts: seq<nat>, t: nat)
    ensures Climbs(ts + [t]) <==> Climbs(ts) && Follows(ts, t)
  {
    hide Follows;
    var us := ts + [t];
    assert us[..|ts|] == ts;
    assert forall i :: 0 <= i < |ts| ==> us[..i] == ts[..i] && us[i] == ts[i];
    if Climbs(us) {
      assert Follows(us[..|ts|], us[|ts|]);
      forall i | 0 <= i < |ts|
        ensures Follows(ts[..i], ts[i])
      {
        assert Follows(us[..i], us[i]);
      }
    }
  }

  lemma OrderAdd(es: seq<Stamp>, e: Stamp)
    ensures AllInOrder(es + [e]) <==> AllInOrder(es) && Follows(Times(es, e.machine), e.time)
  {
    hide Follows, Times;
    var fs := es + [e];
    assert fs[..|es|] == es;
    assert forall i :: 0 <= i < |es| ==> fs[..i] == es[..i] && fs[i] == es[i];
    if AllInOrder(fs) {
      assert InOrder(fs, |es|);
      forall i | 0 <= i < |es|
        ensures InOrder(es, i)
      {
        assert InOrder(fs, i);
      }
    }
    if AllInOrder(es) && Follows(Times(es, e.machine), e.time) {
      forall i | 0 <= i <= |es|
        ensures InOrder(fs, i)
      {
        if i < |es| {
          assert InOrder(es, i);
        }
      }
    }
  }

  ghost predicate PerMachine(es: seq<Stamp>) { forall m :: Climbs(Times(es, m)) }

  lemma PerMachineAdd(es: seq<Stamp>, e: Stamp)
    ensures PerMachine(es + [e]) <==> PerMachine(es) && Follows(Times(es, e.machine), e.time)
  {
    hide Follows, Climbs, Times;
    var fs := es + [e];
    TimesAdd(es, e, e.machine);
    ClimbsAdd(Times(es, e.machine), e.time);
    assert forall m :: m != e.machine ==> Times(fs, m) == Times(es, m) by {
      forall m | m != e.machine
        ensures Times(fs, m) == Times(es, m)
      {
        TimesAdd(es, e, m);
      }
    }
    if PerMachine(fs) {
      assert Climbs(Times(fs, e.machine));
      forall m
        ensures Climbs(Times(es, m))
      {
        assert Climbs(Times(fs, m));
      }
    }
    if PerMachine(es) && Follows(Times(es, e.machine), e.time) {
      forall m
        ensures Climbs(Times(fs, m))
      {
        assert Climbs(Times(es, m));
      }
    }
  }

  /** A trace is in order exactly when each machine's own times are, however the machines interleave. */
  lemma {:induction false} OrderIsPerMachine(es: seq<Stamp>)
    ensures AllInOrder(es) <==> PerMachine(es)
  {
    if es == [] {
      assert forall m :: Times(es, m) == [];
    } else {
      hide AllInOrder, PerMachine, Follows, Times;
      var n := |es| - 1;
      OrderIsPerMachine(es[..n]);
      OrderAdd(es[..n], es[n]);
      PerMachineAdd(es[..n], es[n]);
      assert es == es[..n] + [es[n]];
    }
  }

  // ----- normalisation leaves the clock alone -----

  lemma {:induction false} NoZeroPrefix(p: seq<u8>, b: seq<u8>)
    requires forall i :: 0 <= i < |p| ==> p[i] != 48
    ensures p <= TN.Scrub(b) <==> p <= b
  {
    if p != [] && b != [] {
      TN.ScrubHead(b);
      if !TN.IsPointer(b) {
        NoZeroPrefix(p[1..], b[1..]);
        assert b == [b[0]] + b[1..] && p == [p[0]] + p[1..] && TN.Scrub(b)[1..] == TN.Scrub(b[1..]);
        assert p <= b <==> p[0] == b[0] && p[1..] <= b[1..];
        assert p <= TN.Scrub(b) <==> p[0] == b[0] && p[1..] <= TN.Scrub(b)[1..];
      }
    }
  }

  lemma {:induction false} NoXNoPointer(b: seq<u8>)
    requires forall i :: 0 <= i < |b| ==> b[i] != 120 && b[i] != 88
    ensures TN.Scrub(b) == b
  {
    if b != [] {
      NoXNoPointer(b[1..]);
      assert b == [b[0]] + b[1..];
    }
  }

  /** A scrubbed text that changed has an `x` in it. */
  lemma {:induction false} ChangedHasX(b: seq<u8>)
    requires TN.Scrub(b) != b
    ensures exists i :: 1 <= i < |TN.Scrub(b)| && TN.Scrub(b)[i] == 120
  {
    TN.ScrubHead(b);
    if TN.IsPointer(b) {
      assert TN.Scrub(b)[1] == TN.Mark()[1] == 120;
    } else {
      assert b == [b[0]] + b[1..];
      ChangedHasX(b[1..]);
      var i :| 1 <= i < |TN.Scrub(b[1..])| && TN.Scrub(b[1..])[i] == 120;
      assert TN.Scrub(b)[i + 1] == 120;
    }
  }

  /** A number token is never rewritten, and rewriting never makes a number. */
  lemma TimeTokenSurvives(t: string)
    requires TI.Plain(t) && TN.IsToken(t)
    ensures ParseU64(TN.NormalizeToken(t)) == ParseU64(t)
  {
    var b := TN.Encode(t);
    PlainBytes(t);
    var u := TN.NormalizeToken(t);
    if TN.Scrub(b) == b {
      assert u == t;
    } else {
      ChangedHasX(b);
      var i :| 1 <= i < |TN.Scrub(b)| && TN.Scrub(b)[i] == 120;
      assert u[i] == 'x';
      var d := if u[0] == '+' then u[1..] else u;
      assert d[if u[0] == '+' then i - 1 else i] == 'x';
      assert ParseU64(u) == None;
      if ParseU64(t).Some? {
        forall j | 0 <= j < |b|
          ensures b[j] != 120 && b[j] != 88
        {
          assert b[j] == t[j] as int;
          DigitsOrPlus(t, j);
        }
        NoXNoPointer(b);
        assert false;
      }
    }
  }

  lemma DigitsOrPlus(t: string, j: nat)
    requires ParseU64(t).Some? && j < |t|
    ensures t[j] == '+' || IsDigit(t[j])
  {
    if t[0] == '+' && j > 0 {
      assert t[1..][j - 1] == t[j];
    }
  }

  /** The bytes of a plain token are its characters. */
  lemma PlainBytes(t: string)
    requires TI.Plain(t) && TN.IsToken(t)
    ensures TN.Chars(TN.Encode(t)) == t
  {
    TI.PlainTokenBytes(t);
    PlainEncode(t);
  }

  lemma {:induction false} PlainEncode(t: string)
    requires forall i :: 0 <= i < |t| ==> t[i] as int < 0x80
    ensures |TN.Encode(t)| == |t| && forall i :: 0 <= i < |t| ==> TN.Encode(t)[i] == t[i] as int
  {
    if t != "" {
      PlainEncode(t[..|t| - 1]);
    }
  }

  lemma PrefixBytes(t: string)
    requires TI.Plain(t) && TN.IsToken(t)
    ensures PREFIX <= TN.NormalizeToken(t) <==> PREFIX <= t
  {
    var b := TN.Encode(t);
    PlainBytes(t);
    PlainEncode(PREFIX);
    var p := TN.Encode(PREFIX);
    NoZeroPrefix(p, b);
    CharsPrefix(p, b);
    CharsPrefix(p, TN.Scrub(b));
    assert TN.Chars(p) == PREFIX;
  }

  lemma CharsPrefix(a: seq<u8>, b: seq<u8>)
    ensures TN.Chars(a) <= TN.Chars(b) <==> a <= b
  {
    var x, y := TN.Chars(a), TN.Chars(b);
    if x <= y {
      forall i | 0 <= i < |a|
        ensures a[i] == b[i]
      {
        assert x[i] == y[i];
      }
    }
    if a <= b {
      forall i | 0 <= i < |a|
        ensures x[i] == y[i]
      {
        assert x[i] as int == y[i] as int;
      }
    }
  }

  /** Normalising a plain line keeps its time, and keeps its machine but for a pointer inside the name. */
  lemma NormalisationKeepsTheClock(line: string)
    requires TI.Plain(line)
    ensures var s, n := ParseMachineTime(line), ParseMachineTime(TN.NormalizeLine(line));
            n == if s.Some? then Some(Stamp(TN.NormalizeToken(s.value.machine), s.value.time)) else None
  {
    hide TI.Plain, TN.IsToken, TN.NormalizeToken, ParseU64;
    var ts := TN.Split(line);
    TI.PlainTokens(line);
    var us := TN.NormalizeTokens(ts);
    forall i | 0 <= i < |ts|
      ensures TN.IsToken(us[i])
    {
      TI.TokenTwice(ts[i]);
    }
    TN.NormalizesTokenwise(line);
    TN.SplitOfJoin(us);
    if |ts| >= 2 {
      PrefixBytes(ts[0]);
      TimeTokenSurvives(ts[1]);
    }
  }
}
