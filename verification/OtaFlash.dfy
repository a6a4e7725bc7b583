/**
 * The update machine over two stored records: calls, saves that may be cut short, and power
 * cycles that start again from whatever the flash holds.
 */
module OtaFlash {
  import opened Wrappers
  import opened OtaRecord
  import C = Crc32
  import S = OtaSlot

  type Page = s: seq<bv8> | |s| == 32 witness seq(32, _ => 0)

  datatype Flash = Flash(a: Page, b: Page)

  /** The record a boot would use. */
  function Newest(f: Flash): Option<MetaRecord> { SelectRecord(Some(FromBytes(f.a)), Some(FromBytes(f.b))) }

  /** A write goes to the page that is not in use. */
  function Overwritten(f: Flash, page: Page): Flash {
    if Newest(f) == Some(FromBytes(f.a)) then f.(b := page) else f.(a := page)
  }

  datatype Event = Call(c: S.Call) | Save(r: MetaRecord, page: Page) | PowerCycle

  datatype World = World(slot: S.Slot, flash: Flash)

  /** Initialisation, then recovery from the selected record if there is one. */
  function Booted(f: Flash): S.Slot { if Newest(f).Some? then S.Recover(Newest(f).value) else S.INIT }

  function Step(w: World, e: Event): World {
    match e
    case Call(c) => w.(slot := S.Apply(w.slot, c))
    case Save(_, page) => w.(flash := Overwritten(w.flash, page))
    case PowerCycle => w.(slot := Booted(w.flash))
  }

  function Run(f: Flash, es: seq<Event>): World {
    if es == [] then World(S.INIT, f) else Step(Run(f, es[..|es| - 1]), es[|es| - 1])
  }

  predicate Blank(f: Flash) { !IsValid(FromBytes(f.a)) && !IsValid(FromBytes(f.b)) }

  predicate Newer(r: MetaRecord, n: Option<MetaRecord>) { n.None? || !AtLeast(n.value.generation, r.generation) }

  predicate Completed(e: Event) { e.Save? && e.page == ToBytes(Finalized(e.r)) }

  /** A save records the present state with a higher generation; cut short, it leaves a page the validity test rejects. */
  predicate Allowed(w: World, e: Event) {
    e.Save? ==> S.Recorded(w.slot, e.r) && Newer(e.r, Newest(w.flash)) && (Completed(e) || !IsValid(FromBytes(e.page)))
  }

  /** Starts with no valid record, and every save is allowed. */
  ghost predicate Legal(f: Flash, es: seq<Event>) {
    Blank(f) && forall i :: 0 <= i < |es| ==> Allowed(Run(f, es[..i]), es[i])
  }

  lemma LegalPrefix(f: Flash, es: seq<Event>, n: nat)
    requires Legal(f, es) && n <= |es|
    ensures Legal(f, es[..n])
  {
    hide Run, Allowed, Blank;
    forall i | 0 <= i < n
      ensures Allowed(Run(f, es[..n][..i]), es[..n][i])
    {
      assert es[..n][..i] == es[..i];
    }
  }

  /** The CRC rejects every burst of up to 32 bits, so a save that ends in one is allowed. */
  lemma BurstIsAllowed(w: World, r: MetaRecord, page: Page, k: nat)
    requires S.Recorded(w.slot, r) && Newer(r, Newest(w.flash))
    requires C.Burst(C.Bits(ToBytes(Finalized(r))), C.Bits(page), k)
    ensures Allowed(w, Save(r, page))
  {
    hide C.Burst, C.Bits, IsValid, ToBytes, FromBytes, Finalized, Newest, Newer;
    FinalizeMakesValid(r);
    BurstInvalidates(Finalized(r), page, k);
  }

  // ----- what a save does to the flash -----

  lemma NewestIsValid(f: Flash)
    ensures Newest(f).Some? ==> IsValid(Newest(f).value)
    ensures Newest(f).Some? ==> Newest(f) == Some(FromBytes(f.a)) || Newest(f) == Some(FromBytes(f.b))
    ensures Newest(f).None? <==> Blank(f)
  {
    hide IsValid, FromBytes, AtLeast;
  }

  lemma SaveCompletes(f: Flash, r: MetaRecord)
    requires Newer(r, Newest(f))
    ensures Newest(Overwritten(f, ToBytes(Finalized(r)))) == Some(Finalized(r))
  {
    var w := Finalized(r);
    assert w.generation == r.generation;
    FinalizeMakesValid(r);
    hide IsValid, ToBytes, FromBytes, AtLeast, Finalized;
    ReadBack(w);
    NewestIsValid(f);
    if Newest(f).Some? {
      InterruptedUpdate(Newest(f).value, w, ToBytes(w));
    }
  }

  lemma SaveCutShort(f: Flash, page: Page)
    requires !IsValid(FromBytes(page))
    ensures Newest(Overwritten(f, page)) == Newest(f)
  {
    hide IsValid, FromBytes, AtLeast;
  }

  // ----- the history that counts -----

  /** The slot events that the present state comes from: a power cycle takes back everything since the last completed save. */
  function Past(f: Flash, es: seq<Event>): seq<S.Event>
    decreases |es|
  {
    if es == [] then []
    else
      var front, e := es[..|es| - 1], es[|es| - 1];
      match e
      case Call(c) => Past(f, front) + [S.Do(c)]
      case Save(_, _) => Past(f, front)
      case PowerCycle =>
        var n, saved := Newest(Run(f, front).flash), Saved(f, front);
        if n.None? || saved.None? then [] else saved.value + [S.Reset(n.value)]
  }

  /** The history up to the last completed save. */
  function Saved(f: Flash, es: seq<Event>): Option<seq<S.Event>>
    decreases |es|
  {
    if es == [] then None
    else
      var front, e := es[..|es| - 1], es[|es| - 1];
      if Completed(e) then Some(Past(f, front)) else Saved(f, front)
  }

  /** The slot is where its past leads, and the record in use is one of the last saved state. */
  ghost predicate Agrees(w: World, past: seq<S.Event>, saved: Option<seq<S.Event>>) {
    && S.Legal(past) && w.slot == S.Run(past)
    && (saved.None? <==> Newest(w.flash).None?)
    && (saved.Some? ==> S.Legal(saved.value) && S.Recorded(S.Run(saved.value), Newest(w.flash).value))
  }

  lemma FinalizedRecords(s: S.Slot, r: MetaRecord)
    requires S.Recorded(s, r)
    ensures S.Recorded(s, Finalized(r))
  {
  }

  lemma SaveAgrees(w: World, e: Event, past: seq<S.Event>, saved: Option<seq<S.Event>>)
    requires e.Save? && Allowed(w, e) && Agrees(w, past, saved)
    ensures Agrees(Step(w, e), past, if Completed(e) then Some(past) else saved)
  {
    hide IsValid, ToBytes, FromBytes, Newest, Overwritten, S.Run, S.Legal, S.Recorded, Finalized;
    if Completed(e) {
      SaveCompletes(w.flash, e.r);
      FinalizedRecords(w.slot, e.r);
    } else {
      SaveCutShort(w.flash, e.page);
    }
  }

  /**
    * Every run over the flash, with saves cut short and power cycles anywhere, is in the state of a
    * legal slot run: its own history with everything taken back that was not saved before a power cycle.
    */
  lemma {:induction false} FlashRunsAreSlotRuns(f: Flash, es: seq<Event>)
    requires Legal(f, es)
    ensures Agrees(Run(f, es), Past(f, es), Saved(f, es))
  {
    if es == [] {
      NewestIsValid(f);
    } else {
      var n := |es| - 1;
      var front, e := es[..n], es[n];
      LegalPrefix(f, es, n);
      FlashRunsAreSlotRuns(f, front);
      var w, past, saved := Run(f, front), Past(f, front), Saved(f, front);
      hide Newest, Overwritten, S.Run, S.Legal, S.Recorded, S.Apply, S.Recover, ToBytes, FromBytes, Finalized, IsValid;
      if e.Save? {
        SaveAgrees(w, e, past, saved);
      } else if e.Call? {
        S.Append(past, S.Do(e.c));
      } else if saved.Some? {
        S.Append(saved.value, S.Reset(Newest(w.flash).value));
      } else {
        Nothing();
      }
    }
  }

  lemma Nothing()
    ensures S.Legal([]) && S.Run([]) == S.INIT
  {
  }

  // ----- what follows -----

  /** A power cycle resumes exactly the state of the last completed save, or starts afresh if there was none. */
  lemma PowerCycleResumes(f: Flash, es: seq<Event>)
    requires Legal(f, es)
    ensures var saved := Saved(f, es);
            Booted(Run(f, es).flash) == if saved.Some? then S.Resumed(S.Run(saved.value)) else S.INIT
    ensures Booted(Run(f, es).flash).state == S.Healthy <==>
            Saved(f, es).Some? && S.Run(Saved(f, es).value).state == S.Healthy
  {
    hide Newest, S.Run, S.Legal, S.Recorded, S.Recover;
    FlashRunsAreSlotRuns(f, es);
    if Saved(f, es).Some? {
      S.RecoverResumes(S.Run(Saved(f, es).value), Newest(Run(f, es).flash).value);
    }
  }

  /** The laws of the slot hold over the flash too. */
  lemma FlashRunsAreSafe(f: Flash, es: seq<Event>)
    requires Legal(f, es)
    ensures var s := Run(f, es).slot;
            && S.Possible(s)
            && (s.committed <==> s.state == S.CommitPending || s.state == S.Rebooting || s.state == S.Healthy)
            && (s.committed ==> s.written && s.crcOk && s.target == S.SLOT_B)
            && S.BootSlot(s) == s.active == (if s.state == S.Healthy then S.SLOT_B else S.SLOT_A)
    ensures Run(f, es).slot.state == S.Healthy <==>
            exists t :: S.Follows(Past(f, es), t) && t.health < |Past(f, es)|
  {
    hide S.Run, S.Legal, Newest, S.Follows;
    FlashRunsAreSlotRuns(f, es);
    var past := Past(f, es);
    S.RunsArePossible(past);
    S.ArmedOnlyIfVerified(past);
    S.BootsActiveSlot(past);
    S.TakesEffectExactly(past);
  }

  lemma RunLast(f: Flash, es: seq<Event>)
    requires es != []
    ensures Run(f, es) == Step(Run(f, es[..|es| - 1]), es[|es| - 1])
    ensures Saved(f, es) == if Completed(es[|es| - 1]) then Some(Past(f, es[..|es| - 1])) else Saved(f, es[..|es| - 1])
  {
    hide Step, Past, Completed;
  }

  ghost predicate SafelyHealthy(w: World, saved: Option<seq<S.Event>>) {
    w.slot.state == S.Healthy && saved.Some? && S.Run(saved.value).state == S.Healthy
  }

  /** Once a save of HEALTHY has completed, nothing changes the slot any more: no call, no power cycle, no save cut short. */
  lemma {:induction false} SavedHealthyIsFinal(f: Flash, es: seq<Event>, n: nat)
    requires Legal(f, es) && n < |es| && Completed(es[n]) && Run(f, es[..n]).slot.state == S.Healthy
    ensures Run(f, es).slot == Run(f, es[..n]).slot && SafelyHealthy(Run(f, es), Saved(f, es))
  {
    hide Run, Saved, Past, Step, Legal, Completed, SafelyHealthy;
    var m := |es| - 1;
    var front, e := es[..m], es[m];
    LegalPrefix(f, es, m);
    RunLast(f, es);
    if n == m {
      SaveOfHealthy(f, front, e);
    } else {
      assert front[n] == es[n] && front[..n] == es[..n];
      SavedHealthyIsFinal(f, front, n);
      HealthyStays(f, front, e);
    }
  }

  lemma SaveOfHealthy(f: Flash, front: seq<Event>, e: Event)
    requires Legal(f, front) && Completed(e) && Run(f, front).slot.state == S.Healthy
    ensures Step(Run(f, front), e).slot == Run(f, front).slot
    ensures SafelyHealthy(Step(Run(f, front), e), Some(Past(f, front)))
  {
    FlashRunsAreSlotRuns(f, front);
    hide Run, Past, Saved, Newest, Overwritten, S.Run, S.Legal, ToBytes, Finalized;
  }

  lemma HealthyStays(f: Flash, front: seq<Event>, e: Event)
    requires Legal(f, front) && SafelyHealthy(Run(f, front), Saved(f, front))
    ensures Step(Run(f, front), e).slot == Run(f, front).slot
    ensures SafelyHealthy(Step(Run(f, front), e), if Completed(e) then Some(Past(f, front)) else Saved(f, front))
  {
    FlashRunsAreSlotRuns(f, front);
    PowerCycleResumes(f, front);
    var w, saved := Run(f, front), Saved(f, front);
    S.RunsArePossible(Past(f, front));
    S.RunsArePossible(saved.value);
    OneHealthy(w.slot, S.Run(saved.value));
    hide Run, Past, Saved, Booted, Newest, Overwritten, S.Run, S.Legal, S.Apply, S.Possible, S.Resumed, ToBytes, Finalized;
  }

  /** There is one healthy state, and calls and resets leave it alone. */
  lemma OneHealthy(s: S.Slot, t: S.Slot)
    requires S.Possible(s) && S.Possible(t) && s.state == t.state == S.Healthy
    ensures S.Resumed(t) == s && forall c :: S.Apply(s, c) == s
  {
  }

  lemma CallLast(f: Flash, es: seq<Event>, c: S.Call)
    ensures Run(f, es + [Call(c)]) == World(S.Apply(Run(f, es).slot, c), Run(f, es).flash)
  {
    hide S.Apply;
    assert (es + [Call(c)])[..|es|] == es;
  }

  /** The calls of a whole update. */
  function WholeUpdate(): seq<Event> {
    [] + [Call(S.Begin)] + [Call(S.Finish(true))] + [Call(S.Verify(true))] + [Call(S.Commit)] + [Call(S.Reboot)] +
    [Call(S.Health(true))]
  }

  lemma WholeUpdateIsHealthy(f: Flash)
    ensures Run(f, WholeUpdate()).slot.state == S.Healthy && Run(f, WholeUpdate()).flash == f
  {
    hide Run;
    var e1 := [] + [Call(S.Begin)];
    var e2 := e1 + [Call(S.Finish(true))];
    var e3 := e2 + [Call(S.Verify(true))];
    var e4 := e3 + [Call(S.Commit)];
    var e5 := e4 + [Call(S.Reboot)];
    assert Run(f, []) == World(S.INIT, f) by { Unstarted(f); }
    CallLast(f, [], S.Begin);
    CallLast(f, e1, S.Finish(true));
    CallLast(f, e2, S.Verify(true));
    CallLast(f, e3, S.Commit);
    CallLast(f, e4, S.Reboot);
    CallLast(f, e5, S.Health(true));
  }

  lemma Unstarted(f: Flash)
    ensures Run(f, []) == World(S.INIT, f)
  {
  }

  /** Without a save, health is lost with the power: a whole update, then a power cycle, and slot A is active again. */
  lemma UnsavedHealthIsLost(f: Flash)
    requires Blank(f)
    ensures Run(f, WholeUpdate()).slot.state == S.Healthy
    ensures Run(f, WholeUpdate() + [PowerCycle]).slot == S.INIT
  {
    hide Run, Saved, Past, Newest, Blank;
    WholeUpdateIsHealthy(f);
    NewestIsValid(f);
    RunLast(f, WholeUpdate() + [PowerCycle]);
    assert (WholeUpdate() + [PowerCycle])[..6] == WholeUpdate();
  }
}
