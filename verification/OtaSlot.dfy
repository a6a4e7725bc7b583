/** The A/B slot update machine, its run theorem and recovery after a reset. */
module OtaSlot {
  import opened OtaRecord
  import opened Wrappers
  import opened Histories

  const SLOT_A: bv8 := 0
  const SLOT_B: bv8 := 1

  /** The state byte; values above 6 have no name but can be read back from a record. */
  datatype Phase = Idle | Downloading | Verifying | CommitPending | Rebooting | Healthy | RolledBack | Unnamed(b: bv8)

  function PhaseOf(b: bv8): Phase {
    if b == 0 then Idle else if b == 1 then Downloading else if b == 2 then Verifying
    else if b == 3 then CommitPending else if b == 4 then Rebooting else if b == 5 then Healthy
    else if b == 6 then RolledBack else Unnamed(b)
  }

  datatype Slot = Slot(
    active: bv8, target: bv8, state: Phase, written: bool, crcOk: bool,
    committed: bool, healthy: bool, rolledBack: bool, reason: bv8)

  const INIT := Slot(SLOT_A, SLOT_A, Idle, false, false, false, false, false, 0)

  datatype Call =
    | Begin | Finish(complete: bool) | Verify(ok: bool) | Commit | Reboot
    | Health(ok: bool) | Rollback | Abort(reason: bv8)

  function OtherSlot(slot: bv8): bv8 {
    if slot == SLOT_A then SLOT_B else SLOT_A
  }

  function Reverted(s: Slot): Slot {
    if s.state == Healthy then s
    else s.(target := s.active, written := false, committed := false, healthy := false,
            rolledBack := true, state := RolledBack)
  }

  /** The state after a call. A call in the wrong state changes nothing. */
  function Apply(s: Slot, c: Call): Slot {
    match c
    case Begin =>
      if s.state != Idle then s
      else s.(target := OtherSlot(s.active), written := false, crcOk := false, committed := false,
              state := Downloading)
    case Finish(complete) =>
      if s.state != Downloading then s else if complete then s.(written := true) else Reverted(s)
    case Verify(ok) =>
      if s.state != Downloading then s
      else if ok then s.(state := Verifying, crcOk := true) else Reverted(s.(crcOk := false))
    case Commit =>
      if s.state != Verifying then s
      else if s.written && s.crcOk then s.(committed := true, state := CommitPending) else Reverted(s)
    case Reboot =>
      if s.state != CommitPending then s else s.(state := Rebooting)
    case Health(ok) =>
      if s.state != Rebooting then s
      else if ok && s.committed then s.(healthy := true, active := s.target, state := Healthy)
      else Reverted(s)
    case Rollback => Reverted(s)
    case Abort(reason) => if s.state == Healthy then s else Reverted(s).(reason := reason)
  }

  /** A call reports success exactly when it moved the update forward. */
  predicate Succeeds(s: Slot, c: Call) {
    || (c == Finish(true) && s.state == Downloading)
    || (Apply(s, c).state != s.state && Apply(s, c).state != RolledBack)
  }

  function BootSlot(s: Slot): bv8 {
    if s.state == Healthy && s.committed then s.target else s.active
  }

  function Recover(r: MetaRecord): Slot {
    var late := r.state >= 3;
    Slot(r.activeSlot, r.targetSlot, PhaseOf(r.state), late, late, r.committed != 0, r.healthy != 0,
         r.state == 6, r.abortReason)
  }

  class OtaSlotModel {
    var activeSlot: bv8
    var targetSlot: bv8
    var state: Phase
    var imageWritten: bool
    var crcOk: bool
    var committed: bool
    var bootHealthy: bool
    var rolledBack: bool
    var abortReason: bv8

    function View(): Slot
      reads this
    {
      Slot(activeSlot, targetSlot, state, imageWritten, crcOk, committed, bootHealthy, rolledBack, abortReason)
    }

    constructor ()
      ensures View() == INIT
    {
      activeSlot, targetSlot, state := SLOT_A, SLOT_A, Idle;
      imageWritten, crcOk, committed, bootHealthy, rolledBack := false, false, false, false, false;
      abortReason := 0;
    }

    method BeginDownload()
      modifies this
      ensures View() == Apply(old(View()), Begin)
    {
      if state != Idle { return; }
      targetSlot := OtherSlot(activeSlot);
      imageWritten := false;
      crcOk := false;
      committed := false;
      state := Downloading;
    }

    method FinishDownload(complete: bool) returns (ok: bool)
      modifies this
      ensures View() == Apply(old(View()), Finish(complete))
      ensures ok == Succeeds(old(View()), Finish(complete))
    {
      if state != Downloading { return false; }
      if !complete {
        RollBack();
        return false;
      }
      imageWritten := true;
      ok := true;
    }

    method VerifyImage(good: bool) returns (ok: bool)
      modifies this
      ensures View() == Apply(old(View()), Verify(good))
      ensures ok == Succeeds(old(View()), Verify(good))
    {
      if state != Downloading { return false; }
      state := Verifying;
      crcOk := good;
      if !crcOk {
        RollBack();
        return false;
      }
      ok := true;
    }

    method CommitUpdate() returns (ok: bool)
      modifies this
      ensures View() == Apply(old(View()), Commit)
      ensures ok == Succeeds(old(View()), Commit)
    {
      if state != Verifying { return false; }
      if !imageWritten || !crcOk {
        RollBack();
        return false;
      }
      committed := true;
      state := CommitPending;
      ok := true;
    }

    method RebootIntoTarget()
      modifies this
      ensures View() == Apply(old(View()), Reboot)
    {
      if state != CommitPending { return; }
      state := Rebooting;
    }

    method HealthCheck(good: bool) returns (ok: bool)
      modifies this
      ensures View() == Apply(old(View()), Health(good))
      ensures ok == Succeeds(old(View()), Health(good))
    {
      if state != Rebooting { return false; }
      if good && committed {
        bootHealthy := true;
        activeSlot := targetSlot;
        state := Healthy;
        return true;
      }
      bootHealthy := false;
      RollBack();
      ok := false;
    }

    method RollBack()
      modifies this
      ensures View() == Reverted(old(View()))
    {
      if state == Healthy { return; }
      targetSlot := activeSlot;
      imageWritten := false;
      committed := false;
      bootHealthy := false;
      rolledBack := true;
      state := RolledBack;
    }

    method AbortUpdate(reason: bv8)
      modifies this
      ensures View() == Apply(old(View()), Abort(reason))
    {
      if state == Healthy { return; }
      RollBack();
      abortReason := reason;
    }

    /** A null record leaves the state alone. */
    method RecoverAfterReset(r: Option<MetaRecord>)
      modifies this
      ensures View() == if r.Some? then Recover(r.value) else old(View())
    {
      if r.None? { return; }
      var m := r.value;
      activeSlot := m.activeSlot;
      targetSlot := m.targetSlot;
      state := PhaseOf(m.state);
      committed := m.committed != 0;
      bootHealthy := m.healthy != 0;
      abortReason := m.abortReason;
      imageWritten := m.state >= 3;
      crcOk := m.state >= 3;
      rolledBack := m.state == 6;
    }
  }

  // ----- runs with resets at any point -----

  datatype Event = Do(call: Call) | Reset(r: MetaRecord)

  /** The record holds what a writer persists of the state. */
  predicate Recorded(s: Slot, r: MetaRecord) {
    && r.activeSlot == s.active && r.targetSlot == s.target && PhaseOf(r.state) == s.state
    && (r.committed != 0) == s.committed && (r.healthy != 0) == s.healthy && r.abortReason == s.reason
  }

  function Step(s: Slot, e: Event): Slot {
    match e
    case Do(c) => Apply(s, c)
    case Reset(r) => Recover(r)
  }

  function Run(es: seq<Event>): Slot {
    if es == [] then INIT else Step(Run(es[..|es| - 1]), es[|es| - 1])
  }

  /** Every reset recovers from a record of the state it interrupted. */
  ghost predicate Legal(es: seq<Event>) {
    forall i :: 0 <= i < |es| && es[i].Reset? ==> Recorded(Run(es[..i]), es[i].r)
  }

  lemma LegalPrefix(es: seq<Event>, n: nat)
    requires Legal(es) && n <= |es|
    ensures Legal(es[..n])
  {
    forall i | 0 <= i < n && es[..n][i].Reset?
      ensures Recorded(Run(es[..n][..i]), es[..n][i].r)
    {
      assert es[..n][..i] == es[..i];
    }
  }

  /** Exactly the states a run can be in. */
  predicate Possible(s: Slot) {
    var clean := !s.committed && !s.healthy && !s.rolledBack && s.reason == 0;
    if s.state == Idle then s == INIT
    else if s.state == Downloading then s.active == SLOT_A && s.target == SLOT_B && clean && !s.crcOk
    else if s.state == Verifying then s.active == SLOT_A && s.target == SLOT_B && clean && (s.written ==> s.crcOk)
    else if s.state == CommitPending || s.state == Rebooting then
      s == Slot(SLOT_A, SLOT_B, s.state, true, true, true, false, false, 0)
    else if s.state == Healthy then s == Slot(SLOT_B, SLOT_B, Healthy, true, true, true, true, false, 0)
    else s == Slot(SLOT_A, SLOT_A, RolledBack, s.written, s.crcOk, false, false, true, s.reason)
         && (s.written ==> s.crcOk)
  }

  /** What a reset does to the state itself, whatever record of it is used. */
  function Resumed(s: Slot): Slot {
    var late := !(s.state.Idle? || s.state.Downloading? || s.state.Verifying?);
    s.(written := late, crcOk := late, rolledBack := s.state.RolledBack?)
  }

  lemma RecoverResumes(s: Slot, r: MetaRecord)
    requires Recorded(s, r)
    ensures Recover(r) == Resumed(s)
  {
  }

  lemma CallKeepsPossible(s: Slot, c: Call)
    requires Possible(s)
    ensures Possible(Apply(s, c))
  {
  }

  lemma StepKeepsPossible(s: Slot, e: Event)
    requires Possible(s) && (e.Reset? ==> Recorded(s, e.r))
    ensures Possible(Step(s, e))
  {
    hide Recover, Recorded, Apply;
    if e.Reset? {
      RecoverResumes(s, e.r);
    } else {
      CallKeepsPossible(s, e.call);
    }
  }

  lemma {:induction false} RunsArePossible(es: seq<Event>)
    requires Legal(es)
    ensures Possible(Run(es))
  {
    if es != [] {
      var n := |es| - 1;
      LegalPrefix(es, n);
      RunsArePossible(es[..n]);
      StepKeepsPossible(Run(es[..n]), es[n]);
    }
  }

  // ----- which calls make an update take effect -----

  predicate Cancel(e: Event) {
    e == Do(Rollback) || (e.Do? && e.call.Abort?)
  }

  /** Positions of the milestones of an update in a run of length n; n itself means "not reached". */
  datatype Trail = Trail(begin: nat, finish: nat, verify: nat, commit: nat, reboot: nat, health: nat)

  predicate Ordered(a: nat, b: nat, n: nat) { a < b <= n || a == b == n }

  /** Event e at position i fits the trail: it is the milestone due there, or does not stop or divert the update. */
  predicate Fits(e: Event, t: Trail, i: nat) {
    && (i == t.begin ==> e == Do(Begin))
    && (i == t.finish ==> e == Do(Finish(true)))
    && (i == t.verify ==> e == Do(Verify(true)))
    && (i == t.commit ==> e == Do(Commit))
    && (i == t.reboot ==> e == Do(Reboot))
    && (i == t.health ==> e == Do(Health(true)))
    && (i < t.health ==> !Cancel(e))
    && (i < t.begin ==> e != Do(Begin))
    && (t.begin < i < t.verify ==> e != Do(Finish(false)) && !(e.Do? && e.call.Verify?))
    && (t.verify < i < t.commit ==> e != Do(Commit))
    && (t.commit < i < t.reboot ==> e != Do(Reboot))
    && (t.reboot < i < t.health ==> !(e.Do? && e.call.Health?))
    && (t.finish < i < t.commit ==> e.Do?)
  }

  /** The milestones of a trail in a run of length n: in order, and never a commit without a finished download. */
  predicate InOrder(t: Trail, n: nat) {
    && Ordered(t.begin, t.verify, n) && Ordered(t.verify, t.commit, n)
    && Ordered(t.commit, t.reboot, n) && Ordered(t.reboot, t.health, n)
    && t.finish <= n && (t.finish < n ==> t.begin < t.finish < t.verify)
    && (t.commit < n ==> t.finish < n)
  }

  ghost predicate Follows(es: seq<Event>, t: Trail) {
    InOrder(t, |es|) && forall i :: 0 <= i < |es| ==> Fits(es[i], t, i)
  }

  /** Where a run that follows a trail stands after its first k events. */
  predicate Reached(s: Slot, t: Trail, k: nat) {
    if k <= t.begin then s.state == Idle
    else if k <= t.verify then s.state == Downloading && (t.finish < k ==> s.written)
    else if k <= t.commit then s.state == Verifying && (t.finish < k ==> s.written && s.crcOk)
    else if k <= t.reboot then s.state == CommitPending
    else if k <= t.health then s.state == Rebooting
    else s.state == Healthy
  }

  lemma StepReaches(s: Slot, e: Event, t: Trail, k: nat, n: nat)
    requires Possible(s) && (e.Reset? ==> Recorded(s, e.r))
    requires k < n && InOrder(t, n) && Fits(e, t, k) && Reached(s, t, k)
    ensures Reached(Step(s, e), t, k + 1)
  {
    hide Recover, Recorded;
    if e.Reset? {
      RecoverResumes(s, e.r);
    }
  }

  lemma StartReached(t: Trail)
    ensures Reached(INIT, t, 0)
  {
  }

  lemma {:induction false} FollowedTrailReaches(es: seq<Event>, t: Trail, k: nat)
    requires Legal(es) && Follows(es, t) && k <= |es|
    ensures Reached(Run(es[..k]), t, k)
  {
    hide Fits, InOrder, Possible, Recorded, Reached, Step;
    if k == 0 {
      assert Reached(INIT, t, 0) by { StartReached(t); }
      assert es[..0] == [];
    } else {
      FollowedTrailReaches(es, t, k - 1);
      LegalPrefix(es, k - 1);
      RunsArePossible(es[..k - 1]);
      StepReaches(Run(es[..k - 1]), es[k - 1], t, k - 1, |es|);
      assert es[..k][..k - 1] == es[..k - 1];
    }
  }

  /** The trail milestones that are reached say what state the run is in. */
  predicate Shows(s: Slot, t: Trail, n: nat) {
    && s.state == (if t.begin == n then Idle else if t.verify == n then Downloading
                   else if t.commit == n then Verifying else if t.reboot == n then CommitPending
                   else if t.health == n then Rebooting else Healthy)
    && (t.finish < n <==> s.written)
  }

  function Later(p: nat, n: nat): nat { if p < n then p else n + 1 }

  /** Move "not reached" from n to n + 1, except for the milestone event e reaches at n. */
  function Advance(t: Trail, s: Slot, e: Event, n: nat): Trail {
    var m := Trail(Later(t.begin, n), Later(t.finish, n), Later(t.verify, n),
                   Later(t.commit, n), Later(t.reboot, n), Later(t.health, n));
    match e
    case Reset(_) => if s.state == Downloading || s.state == Verifying then m.(finish := n + 1) else m
    case Do(Begin) => if s.state == Idle then m.(begin := n) else m
    case Do(Finish(_)) => if s.state == Downloading then m.(finish := n) else m
    case Do(Verify(_)) => if s.state == Downloading then m.(verify := n) else m
    case Do(Commit) => if s.state == Verifying then m.(commit := n) else m
    case Do(Reboot) => if s.state == CommitPending then m.(reboot := n) else m
    case Do(Health(_)) => if s.state == Rebooting then m.(health := n) else m
    case Do(_) => m
  }

  predicate Moved(p: nat, q: nat, n: nat) { if p < n then q == p else q >= n }

  /** Milestones before n are kept; a finished download may be forgotten or superseded. */
  predicate Extends(t: Trail, u: Trail, n: nat) {
    && Moved(t.begin, u.begin, n) && Moved(t.verify, u.verify, n) && Moved(t.commit, u.commit, n)
    && Moved(t.reboot, u.reboot, n) && Moved(t.health, u.health, n)
    && (u.finish == t.finish || u.finish >= n)
  }

  lemma ResetAdvances(s: Slot, e: Event, t: Trail, n: nat)
    requires Possible(s) && e.Reset? && Recorded(s, e.r)
    requires InOrder(t, n) && Shows(s, t, n) && s.state != RolledBack
    ensures var u := Advance(t, s, e, n);
            InOrder(u, n + 1) && Fits(e, u, n) && Shows(Step(s, e), u, n + 1) && Extends(t, u, n)
  {
    hide Recover, Recorded;
    RecoverResumes(s, e.r);
  }

  /** The part of `Possible` the trail argument needs. */
  predicate FlagsAgree(s: Slot) {
    && (s.state.Idle? ==> !s.written)
    && (s.state.CommitPending? || s.state.Rebooting? || s.state.Healthy? ==> s.written && s.committed)
  }

  lemma PossibleFlags(s: Slot)
    requires Possible(s)
    ensures FlagsAgree(s)
  {
  }

  /** A call that is not the next milestone leaves state and trail where they are. */
  predicate Idles(s: Slot, c: Call) {
    && !(c.Begin? && s.state.Idle?) && !((c.Finish? || c.Verify?) && s.state.Downloading?)
    && !(c.Commit? && s.state.Verifying?) && !(c.Reboot? && s.state.CommitPending?)
    && !(c.Health? && s.state.Rebooting?)
  }

  lemma IdleCallAdvances(s: Slot, c: Call, t: Trail, n: nat)
    requires Idles(s, c) && InOrder(t, n) && Shows(s, t, n) && Apply(s, c).state != RolledBack
    ensures Advanced(s, c, t, n)
  {
    assert Apply(s, c) == s;
    hide Apply;
  }

  /** The advanced trail still fits the run and shows the new state. */
  predicate Advanced(s: Slot, c: Call, t: Trail, n: nat) {
    var u := Advance(t, s, Do(c), n);
    InOrder(u, n + 1) && Fits(Do(c), u, n) && Shows(Apply(s, c), u, n + 1) && Extends(t, u, n)
  }

  lemma IdleAdvances(s: Slot, c: Call, t: Trail, n: nat)
    requires FlagsAgree(s) && !Idles(s, c) && s.state.Idle?
    requires InOrder(t, n) && Shows(s, t, n) && Apply(s, c).state != RolledBack
    ensures Advanced(s, c, t, n)
  {
  }

  lemma DownloadAdvances(s: Slot, c: Call, t: Trail, n: nat)
    requires FlagsAgree(s) && !Idles(s, c) && s.state.Downloading?
    requires InOrder(t, n) && Shows(s, t, n) && Apply(s, c).state != RolledBack
    ensures Advanced(s, c, t, n)
  {
  }

  lemma VerifyAdvances(s: Slot, c: Call, t: Trail, n: nat)
    requires FlagsAgree(s) && !Idles(s, c) && s.state.Verifying?
    requires InOrder(t, n) && Shows(s, t, n) && Apply(s, c).state != RolledBack
    ensures Advanced(s, c, t, n)
  {
  }

  lemma PendingAdvances(s: Slot, c: Call, t: Trail, n: nat)
    requires FlagsAgree(s) && !Idles(s, c) && s.state.CommitPending?
    requires InOrder(t, n) && Shows(s, t, n) && Apply(s, c).state != RolledBack
    ensures Advanced(s, c, t, n)
  {
  }

  lemma RebootAdvances(s: Slot, c: Call, t: Trail, n: nat)
    requires FlagsAgree(s) && !Idles(s, c) && s.state.Rebooting?
    requires InOrder(t, n) && Shows(s, t, n) && Apply(s, c).state != RolledBack
    ensures Advanced(s, c, t, n)
  {
  }

  lemma CallAdvances(s: Slot, c: Call, t: Trail, n: nat)
    requires FlagsAgree(s) && InOrder(t, n) && Shows(s, t, n) && Apply(s, c).state != RolledBack
    ensures Advanced(s, c, t, n)
  {
    hide Advanced, FlagsAgree, InOrder, Shows, Apply;
    if Idles(s, c) {
      IdleCallAdvances(s, c, t, n);
    } else {
      match s.state
      case Idle => IdleAdvances(s, c, t, n);
      case Downloading => DownloadAdvances(s, c, t, n);
      case Verifying => VerifyAdvances(s, c, t, n);
      case CommitPending => PendingAdvances(s, c, t, n);
      case Rebooting => RebootAdvances(s, c, t, n);
    }
  }

  lemma FitsExtends(e: Event, i: nat, t: Trail, u: Trail, n: nat)
    requires i < n && InOrder(t, n) && Fits(e, t, i) && Extends(t, u, n)
    ensures Fits(e, u, i)
  {
  }

  lemma EmptyTrail()
    ensures var t := Trail(0, 0, 0, 0, 0, 0); InOrder(t, 0) && Shows(INIT, t, 0)
  {
  }

  lemma {:induction false} FindTrail(es: seq<Event>) returns (t: Trail)
    requires Legal(es) && Run(es).state != RolledBack
    ensures Follows(es, t) && Shows(Run(es), t, |es|)
  {
    hide Fits, Possible, Recorded, Recover, Apply, Shows, Advance, Extends, InOrder, FlagsAgree;
    if es == [] {
      t := Trail(0, 0, 0, 0, 0, 0);
      EmptyTrail();
    } else {
      var n := |es| - 1;
      var s, e := Run(es[..n]), es[n];
      LegalPrefix(es, n);
      RunsArePossible(es[..n]);
      RolledBackStays(s, e);
      var t0 := FindTrail(es[..n]);
      t := Advance(t0, s, e, n);
      if e.Reset? {
        ResetAdvances(s, e, t0, n);
      } else {
        PossibleFlags(s);
        CallAdvances(s, e.call, t0, n);
      }
      forall i | 0 <= i < n
        ensures Fits(es[i], t, i)
      {
        assert es[i] == es[..n][i];
        FitsExtends(es[i], i, t0, t, n);
      }
    }
  }

  lemma RolledBackStays(s: Slot, e: Event)
    requires e.Reset? ==> Recorded(s, e.r)
    ensures s.state == RolledBack ==> Step(s, e).state == RolledBack
  {
    hide Recover, Recorded;
    if e.Reset? {
      RecoverResumes(s, e.r);
    }
  }

  // ----- the main results -----

  /**
    * For every run, with resets anywhere: the update has taken effect exactly when the run contains,
    * in this order, a begin, a completed download, a good verification, a commit, a reboot and a
    * healthy check, with no cancel before that check, no earlier call that would have diverted it,
    * and no reset between the completed download and the commit.
    */
  lemma TakesEffectExactly(es: seq<Event>)
    requires Legal(es)
    ensures Run(es).state == Healthy <==> exists t :: Follows(es, t) && t.health < |es|
  {
    hide Possible, Fits, InOrder, Apply;
    if Run(es).state == Healthy {
      var t := FindTrail(es);
      TrailEnds(es, t);
    }
    forall t | Follows(es, t) && t.health < |es|
      ensures Run(es).state == Healthy
    {
      FollowedTrailReaches(es, t, |es|);
      assert es[..|es|] == es;
      TrailEnds(es, t);
    }
  }

  lemma TrailEnds(es: seq<Event>, t: Trail)
    requires Follows(es, t)
    ensures Shows(Run(es), t, |es|) && Run(es).state == Healthy ==> t.health < |es|
    ensures Reached(Run(es), t, |es|) && t.health < |es| ==> Run(es).state == Healthy
  {
    hide Fits;
  }

  // ----- what the calls answer -----

  /** The calls that answer at all, and when they answer success. */
  lemma AnswersExactly(s: Slot, x: bool)
    ensures Succeeds(s, Finish(x)) <==> s.state == Downloading && x
    ensures Succeeds(s, Verify(x)) <==> s.state == Downloading && x
    ensures Succeeds(s, Commit) <==> s.state == Verifying && s.written && s.crcOk
    ensures Succeeds(s, Health(x)) <==> s.state == Rebooting && x && s.committed
  {
  }

  predicate Answers(c: Call) { c.Finish? || c.Verify? || c.Commit? || c.Health? }

  /** The phase in which an answering call acts. */
  function DueIn(c: Call): Phase
    requires Answers(c)
  {
    match c case Finish(_) => Downloading case Verify(_) => Downloading case Commit => Verifying case Health(_) => Rebooting
  }

  /** In every run a call answers failure exactly if it is refused, changing nothing, or rolls the update back. */
  lemma FailsExactly(es: seq<Event>, c: Call)
    requires Legal(es) && Answers(c)
    ensures var s, after := Run(es), Run(es + [Do(c)]);
            && (!Succeeds(s, c) <==> s.state != DueIn(c) || after.state == RolledBack)
            && (s.state != DueIn(c) ==> after == s)
  {
    RunsArePossible(es);
    assert (es + [Do(c)])[..|es|] == es;
  }

  /** Along a trail every milestone that answers, answers success. */
  lemma MilestonesSucceed(es: seq<Event>, t: Trail, i: nat)
    requires Legal(es) && Follows(es, t) && i < |es|
    requires i == t.finish || i == t.verify || i == t.commit || i == t.health
    ensures es[i].Do? && Answers(es[i].call) && Succeeds(Run(es[..i]), es[i].call)
  {
    LegalPrefix(es, i);
    RunsArePossible(es[..i]);
    FollowedTrailReaches(es, t, i);
    var s := Run(es[..i]);
    assert Fits(es[i], t, i) && InOrder(t, |es|);
    hide Run, Follows, Legal;
    AnswersExactly(s, true);
  }

  /** What success means: a finished download is written, a good verify verified, a commit armed, a healthy check final. */
  lemma SuccessMeans(es: seq<Event>, c: Call)
    requires Legal(es) && Answers(c) && Succeeds(Run(es), c)
    ensures var s := Run(es + [Do(c)]);
            match c
            case Finish(_) => s.state == Downloading && s.written
            case Verify(_) => s.state == Verifying && s.crcOk
            case Commit => s.state == CommitPending && s.committed
            case Health(_) => s.state == Healthy && s.healthy && s.active == SLOT_B
  {
    RunsArePossible(es);
    assert (es + [Do(c)])[..|es|] == es;
  }

  /** The reason given by the last abort before an update took effect, 0 if there was none. */
  function LastReason(es: seq<Event>): bv8 {
    if es == [] then 0
    else
      var front, e := es[..|es| - 1], es[|es| - 1];
      if e.Do? && e.call.Abort? && Run(front).state != Healthy then e.call.reason else LastReason(front)
  }

  lemma {:induction false} ReasonIsTheLastAbort(es: seq<Event>)
    requires Legal(es)
    ensures Run(es).reason == LastReason(es)
  {
    if es != [] {
      var n := |es| - 1;
      LegalPrefix(es, n);
      ReasonIsTheLastAbort(es[..n]);
      hide Apply, Recover, Recorded, Legal;
      if es[n].Reset? {
        assert Recorded(Run(es[..n]), es[n].r) by { ResetIsRecorded(es, n); }
        RecoverResumes(Run(es[..n]), es[n].r);
      } else {
        ReasonOf(Run(es[..n]), es[n].call);
      }
    }
  }

  lemma ResetIsRecorded(es: seq<Event>, n: nat)
    requires Legal(es) && n < |es| && es[n].Reset?
    ensures Recorded(Run(es[..n]), es[n].r)
  {
    hide Recorded, Run;
  }

  lemma ReasonOf(s: Slot, c: Call)
    ensures Apply(s, c).reason == if c.Abort? && s.state != Healthy then c.reason else s.reason
  {
  }

  /** A reset with no rollback or abort after it. */
  predicate ResetLast(es: seq<Event>) {
    es != [] && (es[|es| - 1].Reset? || (!Cancel(es[|es| - 1]) && ResetLast(es[..|es| - 1])))
  }

  /** A rolled-back slot holds no image, unless a reset has rebuilt its flags from the state byte since. */
  lemma {:induction false} RolledBackHoldsNoImage(es: seq<Event>)
    requires Legal(es) && Run(es).state == RolledBack
    ensures Run(es).rolledBack && (Run(es).written ==> ResetLast(es))
    ensures es[|es| - 1].Do? && Run(es[..|es| - 1]).state != RolledBack ==> !Run(es).written
    ensures es[|es| - 1].Reset? || Cancel(es[|es| - 1]) ==> Run(es).written == es[|es| - 1].Reset?
  {
    hide Apply, Recover, Recorded, Legal;
    Beginning();
    var n := |es| - 1;
    var front, e := es[..n], es[n];
    LegalPrefix(es, n);
    if Run(front).state == RolledBack {
      RolledBackHoldsNoImage(front);
    }
    if e.Reset? {
      ResetIsRecorded(es, n);
      RecoverResumes(Run(front), e.r);
    } else {
      ImageOf(Run(front), e.call);
    }
  }

  lemma Beginning()
    ensures Run([]) == INIT
  {
  }

  /** A call that rolls back drops the image; any other leaves a rolled-back slot as it is. */
  lemma ImageOf(s: Slot, c: Call)
    requires Apply(s, c).state == RolledBack
    ensures s.state != RolledBack || c.Rollback? || c.Abort? ==> Apply(s, c).rolledBack && !Apply(s, c).written
    ensures s.state == RolledBack && !c.Rollback? && !c.Abort? ==> Apply(s, c) == s
  {
  }

  // ----- the image flags over every run -----

  predicate Late(s: Slot) { !s.state.Idle? && !s.state.Downloading? && !s.state.Verifying? }

  /** The events that mark the image written, and those that unmark it. */
  predicate Writes(s: Slot, e: Event) { (e == Do(Finish(true)) && s.state == Downloading) || (e.Reset? && Late(s)) }

  predicate Unwrites(s: Slot, e: Event) {
    (e == Do(Begin) && s.state == Idle) || (e.Reset? && !Late(s)) ||
    (e.Do? && s.state != Healthy && Apply(s, e.call).state == RolledBack && (s.state != RolledBack || Cancel(e)))
  }

  predicate Verifies(s: Slot, e: Event) { (e == Do(Verify(true)) && s.state == Downloading) || (e.Reset? && Late(s)) }

  predicate Unverifies(s: Slot, e: Event) {
    (e == Do(Begin) && s.state == Idle) || (e == Do(Verify(false)) && s.state == Downloading) || (e.Reset? && !Late(s))
  }

  lemma FlagsOfCall(s: Slot, c: Call)
    ensures Apply(s, c).written <==> Writes(s, Do(c)) || (s.written && !Unwrites(s, Do(c)))
    ensures Apply(s, c).crcOk <==> Verifies(s, Do(c)) || (s.crcOk && !Unverifies(s, Do(c)))
  {
  }

  lemma FlagsOfReset(s: Slot, r: MetaRecord)
    requires Recorded(s, r)
    ensures Recover(r).written <==> Writes(s, Reset(r)) || (s.written && !Unwrites(s, Reset(r)))
    ensures Recover(r).crcOk <==> Verifies(s, Reset(r)) || (s.crcOk && !Unverifies(s, Reset(r)))
  {
    RecoverResumes(s, r);
    hide Recover, Recorded;
  }

  ghost function At(es: seq<Event>, p: (Slot, Event) -> bool): nat -> bool {
    (k: nat) => k < |es| && p(Run(es[..k]), es[k])
  }

  /** In every run the image is marked written, or verified, exactly if it was so marked and has not been unmarked since. */
  lemma ImageFlagsExactly(es: seq<Event>)
    requires Legal(es)
    ensures Run(es).written <==> Since(|es|, At(es, Writes), At(es, Unwrites))
    ensures Run(es).crcOk <==> Since(|es|, At(es, Verifies), At(es, Unverifies))
  {
    FlagsUpTo(es, |es|);
    assert es[..|es|] == es;
  }

  lemma {:induction false} FlagsUpTo(es: seq<Event>, n: nat)
    requires Legal(es) && n <= |es|
    ensures Run(es[..n]).written <==> Since(n, At(es, Writes), At(es, Unwrites))
    ensures Run(es[..n]).crcOk <==> Since(n, At(es, Verifies), At(es, Unverifies))
  {
    hide Apply, Recover, Recorded, Writes, Unwrites, Verifies, Unverifies, Legal;
    if n == 0 {
      Beginning();
      assert es[..0] == [];
    } else {
      FlagsUpTo(es, n - 1);
      var s, e := Run(es[..n - 1]), es[n - 1];
      assert es[..n][..n - 1] == es[..n - 1];
      if e.Reset? {
        ResetIsRecorded(es, n - 1);
        FlagsOfReset(s, e.r);
      } else {
        FlagsOfCall(s, e.call);
      }
      SinceNext(n - 1, At(es, Writes), At(es, Unwrites));
      SinceNext(n - 1, At(es, Verifies), At(es, Unverifies));
      hide Since;
    }
  }

  /** A download starts afresh: what was known of an earlier image does not matter, and the target is not the active slot. */
  lemma BeginForgets(s: Slot, written: bool, crcOk: bool, committed: bool, target: bv8)
    requires s.state == Idle
    ensures Apply(s, Begin) ==
            Apply(s.(written := written, crcOk := crcOk, committed := committed, target := target), Begin)
    ensures Apply(s, Begin).target != s.active && (Apply(s, Begin).target == SLOT_A || Apply(s, Begin).target == SLOT_B)
  {
  }

  // ----- boot slot and flags -----

  /** From any state, recovered or not, another slot than the active one boots only when committed and healthy, and then it is the target. */
  lemma BootsTargetOnlyIfHealthy(s: Slot)
    ensures BootSlot(s) != s.active ==> s.state == Healthy && s.committed
    ensures s.state == Healthy && s.committed ==> BootSlot(s) == s.target
  {
  }

  /** The bootloader's choice is the active slot, and that is slot B exactly once an update took effect. */
  lemma BootsActiveSlot(es: seq<Event>)
    requires Legal(es)
    ensures BootSlot(Run(es)) == Run(es).active == if Run(es).state == Healthy then SLOT_B else SLOT_A
  {
    RunsArePossible(es);
  }

  /** A committed flag means an armed or running target, and one that was written and verified. */
  lemma ArmedOnlyIfVerified(es: seq<Event>)
    requires Legal(es)
    ensures var s := Run(es);
            && (s.committed <==> s.state == CommitPending || s.state == Rebooting || s.state == Healthy)
            && (s.committed ==> s.written && s.crcOk && s.target == SLOT_B)
  {
    RunsArePossible(es);
  }

  /** Once an update took effect nothing changes any field any more, so the active slot changes at most once. */
  lemma {:induction false} HealthyIsFinal(es: seq<Event>, n: nat)
    requires Legal(es) && n <= |es| && Run(es[..n]).state == Healthy
    ensures Run(es) == Run(es[..n])
  {
    hide Possible, Recorded, Step;
    if n == |es| {
      assert es[..n] == es;
    } else {
      var k := |es| - 1;
      LegalPrefix(es, k);
      assert es[..k][..n] == es[..n];
      HealthyIsFinal(es[..k], n);
      RunsArePossible(es[..k]);
      HealthyStays(Run(es[..k]), es[k]);
    }
  }

  lemma HealthyStays(s: Slot, e: Event)
    requires Possible(s) && s.state == Healthy && (e.Reset? ==> Recorded(s, e.r))
    ensures Step(s, e) == s
  {
    hide Recover, Recorded;
    if e.Reset? {
      RecoverResumes(s, e.r);
    }
  }

  /** A reset keeps the boot slot, and keeps every armed or final state whole. */
  lemma ResetKeepsBootSlot(es: seq<Event>, r: MetaRecord)
    requires Legal(es) && Recorded(Run(es), r)
    ensures BootSlot(Recover(r)) == BootSlot(Run(es))
    ensures Run(es).committed ==> Recover(r) == Run(es)
  {
    hide Recover, Recorded;
    RunsArePossible(es);
    RecoverResumes(Run(es), r);
  }

  /** After a reset during verification a commit can only roll back. */
  lemma RecoveredVerifyingCannotCommit(es: seq<Event>, r: MetaRecord)
    requires Legal(es) && Recorded(Run(es), r) && Run(es).state == Verifying
    ensures Apply(Recover(r), Commit) == Reverted(Recover(r)) && !Succeeds(Recover(r), Commit)
  {
    hide Recover, Recorded;
    RecoverResumes(Run(es), r);
  }

  /**
    * A reset that finds one intact older record and one newer page, whole or with any content the
    * validity test rejects, resumes exactly the newer or exactly the older recorded state.
    */
  lemma ResetAfterTornWrite(s0: Slot, kept: MetaRecord, s1: Slot, written: MetaRecord, page: seq<bv8>)
    requires Recorded(s0, kept) && IsValid(kept) && Recorded(s1, written)
    requires !AtLeast(kept.generation, written.generation) && |page| == 32
    requires page == ToBytes(Finalized(written)) || !IsValid(FromBytes(page))
    ensures var found := SelectRecord(Some(FromBytes(page)), Some(kept));
            && found.Some?
            && Recover(found.value) == if page == ToBytes(Finalized(written)) then Resumed(s1) else Resumed(s0)
  {
    var w := Finalized(written);
    FinalizeMakesValid(written);
    assert Recorded(s1, w) && w.generation == written.generation;
    hide IsValid, ToBytes, FromBytes, Recover, Recorded, Finalized, SelectRecord, AtLeast;
    InterruptedUpdate(kept, w, page);
    RecoverResumes(s0, kept);
    RecoverResumes(s1, w);
  }

  // ----- every possible state is reached by some run -----

  function RecordOf(s: Slot): MetaRecord
    requires !s.state.Unnamed?
  {
    var b: bv8 := match s.state
      case Idle => 0 case Downloading => 1 case Verifying => 2 case CommitPending => 3
      case Rebooting => 4 case Healthy => 5 case RolledBack => 6;
    MetaRecord(MAGIC, FORMAT_VERSION, s.active, s.target, b, if s.committed then 1 else 0, 0,
               if s.healthy then 1 else 0, s.reason, 0, 0, 0, 0, 0)
  }

  /** A legal run goes on with any call, and with a reset from a record of its state. */
  lemma Append(es: seq<Event>, e: Event)
    requires Legal(es) && (e.Reset? ==> Recorded(Run(es), e.r))
    ensures Legal(es + [e]) && Run(es + [e]) == Step(Run(es), e)
  {
    hide Recorded, Step;
    var fs := es + [e];
    assert fs[..|es|] == es;
    forall i | 0 <= i < |fs| && fs[i].Reset?
      ensures Recorded(Run(fs[..i]), fs[i].r)
    {
      if i < |es| {
        assert fs[..i] == es[..i] && fs[i] == es[i];
      }
    }
  }

  lemma Then(es: seq<Event>, e: Event) returns (fs: seq<Event>)
    requires Legal(es) && (e.Reset? ==> Recorded(Run(es), e.r))
    ensures Legal(fs) && Run(fs) == Step(Run(es), e)
  {
    hide Recorded, Step, Run, Legal;
    fs := es + [e];
    Append(es, e);
  }

  lemma ThenReset(es: seq<Event>) returns (fs: seq<Event>)
    requires Legal(es) && !Run(es).state.Unnamed?
    ensures Legal(fs) && Run(fs) == Resumed(Run(es))
  {
    var r := RecordOf(Run(es));
    RecoverResumes(Run(es), r);
    fs := Then(es, Reset(r));
  }

  lemma VerifyingOccurs(written: bool) returns (es: seq<Event>)
    ensures Legal(es) && Run(es) == Slot(SLOT_A, SLOT_B, Verifying, written, true, false, false, false, 0)
  {
    es := Then([], Do(Begin));
    if written {
      es := Then(es, Do(Finish(true)));
    }
    es := Then(es, Do(Verify(true)));
  }

  lemma ArmedOccurs(s: Slot) returns (es: seq<Event>)
    requires Possible(s) && s.committed
    ensures Legal(es) && Run(es) == s
  {
    es := VerifyingOccurs(true);
    es := Then(es, Do(Commit));
    if s.state != CommitPending {
      es := Then(es, Do(Reboot));
      if s.state != Rebooting {
        es := Then(es, Do(Health(true)));
      }
    }
  }

  lemma RolledBackOccurs(s: Slot) returns (es: seq<Event>)
    requires Possible(s) && s.state == RolledBack
    ensures Legal(es) && Run(es) == s
  {
    es := [];
    if s.crcOk {
      es := VerifyingOccurs(false);
    }
    es := Then(es, Do(Abort(s.reason)));
    if s.written {
      es := ThenReset(es);
    }
  }

  /** `Possible` is exact: each such state ends some run. */
  lemma PossibleStatesOccur(s: Slot) returns (es: seq<Event>)
    requires Possible(s)
    ensures Legal(es) && Run(es) == s
  {
    if s.committed {
      es := ArmedOccurs(s);
    } else if s.state == RolledBack {
      es := RolledBackOccurs(s);
    } else if s.state == Verifying {
      es := VerifyingOccurs(s.written);
      if !s.crcOk {
        es := ThenReset(es);
      }
    } else {
      es := [];
      if s.state != Idle {
        es := Then(es, Do(Begin));
        if s.written {
          es := Then(es, Do(Finish(true)));
        }
      }
    }
  }
}
