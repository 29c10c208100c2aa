/** What the manager's lock region of a start or a lookup achieves, whatever the watchers do meanwhile. */
module WaitPrune {
  import opened Basics
  import opened Listing
  import opened Waits

  /** A listed watcher that was through when the lock was taken at `s0`. */
  ghost predicate Through(s0: State, id: Id) { id in s0.listed && id in s0.waits && s0.waits[id].watch.Done? }

  ghost function ThroughSet(s0: State, s: State): set<Id> { set id | id in s.listed && Through(s0, id) }

  /** Of the watchers that were through, at most 200 are left, and none past its retention. */
  ghost predicate Tidy(s0: State, s: State) {
    && (forall id :: id in s.listed && Through(s0, id) ==> s0.now - s0.waits[id].endedAt <= RETENTION)
    && |ThroughSet(s0, s)| <= MAX_KEPT
  }

  /** The lock, taken at `s0`, is still held at `s`. */
  ghost predicate Inside(s0: State, s: State) {
    && s.lock.Held? && s0.lock.Held? && s.lock.job == s0.lock.job && s.listed <= s0.listed && Later(s0, s)
    && match s.lock.phase
       case Scan(at, todo, resolved) =>
         at == s0.now && forall id :: id in s.listed && Through(s0, id) ==> id in todo || id in resolved
       case Count(todo, active) => Tidy(s0, s) && active <= |ActiveSet(s0) - todo|
       case Pruned => Tidy(s0, s)
       case Cancelling(_, _) => false
  }

  /** No watcher is gone or new, and all went on. */
  ghost predicate Later(s0: State, s: State) {
    s.waits.Keys == s0.waits.Keys && forall id :: id in s0.waits ==> Onward(s0.waits[id], s.waits[id])
  }

  lemma Begins(s: State, job: Job)
    requires Inv(s) && Enabled(s, Acquire(job)) && !job.CancelAll?
    ensures Inside(Do(s, Acquire(job)), Do(s, Acquire(job)))
  {
    hide Inv;
  }

  lemma LaterStep(s0: State, s: State, a: Action)
    requires Inv(s) && Later(s0, s) && Enabled(s, a) && !a.Release?
    ensures Later(s0, Do(s, a))
  {
    KeysStay(s, a);
    hide Inv, Do, Enabled, Onward;
    forall id | id in s0.waits ensures id in Do(s, a).waits && Onward(s0.waits[id], Do(s, a).waits[id]) {
      assert id in s0.waits.Keys;
      ActionIsOnward(s, a, id);
      OnwardOn(s0.waits[id], s.waits[id], Do(s, a).waits[id]);
    }
  }

  lemma OnwardOn(u: Wait, v: Wait, w: Wait)
    requires Onward(u, v) && Onward(v, w)
    ensures Onward(u, w)
  {
  }

  lemma KeysStay(s: State, a: Action)
    requires Enabled(s, a) && !a.Release?
    ensures Do(s, a).waits.Keys == s.waits.Keys
  {
  }

  /** A watcher that was through when the lock was taken still is, with the same end. */
  lemma ThroughStays(s0: State, s: State, id: Id)
    requires Inv(s0) && Later(s0, s) && Through(s0, id)
    ensures id in s.waits && s.waits[id].watch.Done? && s.waits[id].endedAt == s0.waits[id].endedAt
  {
    assert id in s.waits.Keys && WaitOk(s0.waits[id], s0.now);
  }

  /** An action without the lock. */
  lemma OthersInside(s0: State, s: State, a: Action)
    requires Inv(s) && Inside(s0, s) && Enabled(s, a) && (Local(a) || a.Tick?)
    ensures Inside(s0, Do(s, a))
  {
    LaterStep(s0, s, a);
    OthersShape(s, a);
    hide Inv, Do, Enabled, Later, RETENTION;
    var t := Do(s, a);
    assert ThroughSet(s0, t) == ThroughSet(s0, s);
  }

  lemma OthersShape(s: State, a: Action)
    requires Enabled(s, a) && (Local(a) || a.Tick?)
    ensures Do(s, a).lock == s.lock && Do(s, a).listed == s.listed
  {
  }

  lemma LookInside(s0: State, s: State, id: Id)
    requires Inv(s0) && Inv(s) && Inside(s0, s) && Enabled(s, Look(id))
    ensures Inside(s0, Do(s, Look(id)))
  {
    LaterStep(s0, s, Look(id));
    hide Inv, Later;
    if Through(s0, id) {
      ThroughStays(s0, s, id);
    }
    LookShape(s, id);
    hide Do, Enabled, Through;
  }

  lemma LookShape(s: State, id: Id)
    requires Enabled(s, Look(id))
    ensures var t, p := Do(s, Look(id)), s.lock.phase;
            && t.listed <= s.listed && t.lock.Held? && t.lock.job == s.lock.job
            && t.lock.phase.Scan? && t.lock.phase.at == p.at && t.lock.phase.todo == p.todo - {id}
            && (forall x :: x in p.resolved ==> x in t.lock.phase.resolved)
            && (s.waits[id].watch.Done? ==> id in t.lock.phase.resolved || id !in t.listed)
  {
  }

  lemma TrimInside(s0: State, s: State, list: seq<Id>)
    requires Inv(s0) && Inv(s) && Inside(s0, s) && Enabled(s, Trim(list))
    ensures Inside(s0, Do(s, Trim(list)))
  {
    var t := Do(s, Trim(list));
    LaterStep(s0, s, Trim(list));
    TrimPrunes(s0, s, list);
    hide Inv, Later, Tidy;
  }

  lemma TrimPrunes(s0: State, s: State, list: seq<Id>)
    requires Inv(s0) && Inv(s) && Inside(s0, s) && Enabled(s, Trim(list))
    ensures Tidy(s0, Do(s, Trim(list)))
  {
    hide TableOk, Later, WaitOk;
    var t, p := Do(s, Trim(list)), s.lock.phase;
    assert ScanOk(s, p.at, {}, p.resolved);
    SamePlaces(p.resolved, list);
    var first := SetOfList(list, Min(|list|, MAX_KEPT));
    TrimShape(s, list);
    forall id | id in t.listed && Through(s0, id)
      ensures s0.now - s0.waits[id].endedAt <= RETENTION && id in first
    {
      var l :| 0 <= l < |p.resolved| && p.resolved[l] == id;
      assert Kept(s, p.at, p.resolved[l]);
      ThroughStays(s0, s, id);
    }
    hide Do, Enabled, ScanOk;
    Fits(ThroughSet(s0, t), first);
  }

  /** Of the list only the first 200 stay. */
  lemma TrimShape(s: State, list: seq<Id>)
    requires Enabled(s, Trim(list))
    ensures var t := Do(s, Trim(list)).listed;
            t <= s.listed && forall id :: id in t && id in list ==> id in list[..Min(|list|, MAX_KEPT)]
  {
    var t, n := Do(s, Trim(list)).listed, Min(|list|, MAX_KEPT);
    forall id | id in t && id in list ensures id in list[..n] {
      var k :| 0 <= k < |list| && list[k] == id;
      assert k < n && list[..n][k] == id;
    }
  }

  lemma CountInside(s0: State, s: State, id: Id)
    requires Inv(s) && Inside(s0, s) && Enabled(s, CountOne(id))
    ensures Inside(s0, Do(s, CountOne(id)))
  {
    var t := Do(s, CountOne(id));
    LaterStep(s0, s, CountOne(id));
    CountShape(s, id);
    if !s.waits[id].watch.Done? {
      assert id in s0.waits.Keys && Active(s0, id);
    }
    hide Inv, Do, Enabled, Later, Active, RETENTION;
    assert ThroughSet(s0, t) == ThroughSet(s0, s);
    OneLess(ActiveSet(s0), s.lock.phase.todo, id);
  }

  lemma CountShape(s: State, id: Id)
    requires Inv(s) && Enabled(s, CountOne(id))
    ensures var t, p := Do(s, CountOne(id)), s.lock.phase;
            && t.listed == s.listed && t.lock.Held? && t.lock.job == s.lock.job && id in s.listed
            && t.lock.phase == Count(p.todo - {id}, if s.waits[id].watch.Done? then p.active else p.active + 1)
  {
    hide TableOk;
  }

  lemma OneLess(act: set<Id>, todo: set<Id>, id: Id)
    requires id in todo
    ensures |act - (todo - {id})| == |act - todo| + if id in act then 1 else 0
  {
    assert act - (todo - {id}) == (act - todo) + if id in act then {id} else {};
  }

  lemma InsideStep(s0: State, s: State, a: Action)
    requires Inv(s0) && Inv(s) && Inside(s0, s) && Enabled(s, a) && !a.Release?
    ensures Inside(s0, Do(s, a))
  {
    hide Inv, Inside, Do, Enabled;
    match a
    case Look(id) => LookInside(s0, s, id);
    case Trim(list) => TrimInside(s0, s, list);
    case CountOne(id) => CountInside(s0, s, id);
    case Acquire(_) => NotInside(s0, s, a);
    case CancelOne(_) => NotInside(s0, s, a);
    case _ => OthersInside(s0, s, a);
  }

  lemma {:induction false} RegionKeeps(s0: State, s: State, acts: seq<Action>, s': State)
    requires Inv(s0) && Inv(s) && Inside(s0, s) && Runs(s, acts, s') && Release !in acts
    ensures Inside(s0, s')
    decreases |acts|
  {
    hide Inv, Inside, Do, Enabled;
    if acts != [] {
      assert acts[0] in acts;
      InsideStep(s0, s, acts[0]);
      ActionKeeps(s, acts[0]);
      RegionKeeps(s0, Do(s, acts[0]), acts[1..], s');
    }
  }

  lemma NotInside(s0: State, s: State, a: Action)
    requires Inside(s0, s) && (a.Acquire? || a.CancelOne?)
    ensures !Enabled(s, a)
  {
  }

  /**
   * At the end of the lock region of a start or a lookup, taken at `s0`: of the watchers that were through by then at
   * most 200 are left, and none past its retention. A start is refused only if exactly 64 were unresolved when it took
   * the lock, and else its watcher is registered.
   */
  lemma RegionEnds(now: int, before: seq<Action>, job: Job, acts: seq<Action>, u: State, s: State) returns (s0: State)
    requires Runs(Init(now), before, u) && Enabled(u, Acquire(job)) && !job.CancelAll?
    requires s.lock.Held? && Enabled(s, Release) && Release !in acts && Runs(Do(u, Acquire(job)), acts, s)
    ensures s0 == Do(u, Acquire(job)) && Tidy(s0, s)
    ensures job.Start? && job.id !in Do(s, Release).waits ==> |ActiveSet(u)| == MAX_ACTIVE
  {
    s0 := Do(u, Acquire(job));
    InitOk(now);
    RunKeeps(Init(now), before, u);
    ActionKeeps(u, Acquire(job));
    Begins(u, job);
    RegionKeeps(s0, s0, acts, s);
    RunKeeps(s0, acts, s);
    hide Runs, Inv, Do, Enabled;
    Refusal(u, job, s);
  }

  lemma Refusal(u: State, job: Job, s: State)
    requires Inv(u) && Enabled(u, Acquire(job)) && !job.CancelAll? && Inv(s) && Enabled(s, Release)
    requires Inside(Do(u, Acquire(job)), s)
    ensures Tidy(Do(u, Acquire(job)), s)
    ensures job.Start? && job.id !in Do(s, Release).waits ==> |ActiveSet(u)| == MAX_ACTIVE
  {
    AcquireShape(u, job);
    ReleaseShape(s);
    ActiveBound(u);
    EndsInside(Do(u, Acquire(job)), s);
    hide Inside, Tidy, Inv, Do, Enabled, ActiveSet;
  }

  lemma EndsInside(s0: State, s: State)
    requires Inside(s0, s) && Enabled(s, Release)
    ensures Tidy(s0, s) && s.lock.job == s0.lock.job
    ensures s.lock.phase.Count? ==> s.lock.phase.active <= |ActiveSet(s0)|
  {
    hide Later, Tidy, ActiveSet;
    assert ActiveSet(s0) - {} == ActiveSet(s0);
  }

  lemma AcquireShape(u: State, job: Job)
    requires Enabled(u, Acquire(job))
    ensures var s0 := Do(u, Acquire(job)); s0.lock.Held? && s0.lock.job == job && ActiveSet(s0) == ActiveSet(u)
  {
    assert ActiveSet(Do(u, Acquire(job))) == ActiveSet(u);
  }

  lemma ReleaseShape(s: State)
    requires Inv(s) && Enabled(s, Release)
    ensures s.lock.job.Start? ==>
              && s.lock.phase.Count? && s.lock.phase.todo == {}
              && (s.lock.phase.active < MAX_ACTIVE ==> s.lock.job.id in Do(s, Release).waits)
  {
    hide TableOk;
  }

  // ----- cancelling all -----

  /** `CancelAll`, begun at `s0`, has counted those it cancelled. */
  ghost predicate Emptying(s0: State, s: State) {
    && s.lock.Held? && s.lock.job.CancelAll? && s.listed == s0.listed && Later(s0, s)
    && match s.lock.phase
       case Cancelling(todo, count) => |ActiveSet(s) - todo| <= count <= |ActiveSet(s0) - todo|
       case _ => false
  }

  lemma FewerLater(s0: State, s: State)
    requires Later(s0, s) && s.listed == s0.listed
    ensures ActiveSet(s) <= ActiveSet(s0)
  {
    forall id | id in ActiveSet(s) ensures id in ActiveSet(s0) {
      assert id in s0.waits.Keys && Active(s, id);
    }
  }

  lemma OthersEmptying(s0: State, s: State, a: Action)
    requires Inv(s) && Emptying(s0, s) && Enabled(s, a) && (Local(a) || a.Tick?)
    ensures Emptying(s0, Do(s, a))
  {
    LaterStep(s0, s, a);
    OthersShape(s, a);
    FewerStep(s, a);
    hide Inv, Do, Enabled, Later, ActiveSet;
    Fits(ActiveSet(Do(s, a)) - s.lock.phase.todo, ActiveSet(s) - s.lock.phase.todo);
  }

  lemma FewerStep(s: State, a: Action)
    requires Inv(s) && Enabled(s, a) && (Local(a) || a.Tick?)
    ensures ActiveSet(Do(s, a)) <= ActiveSet(s)
  {
    LaterHere(s);
    LaterStep(s, s, a);
    OthersShape(s, a);
    hide Inv, Do, Enabled, Later, ActiveSet;
    FewerLater(s, Do(s, a));
  }

  lemma LaterHere(s: State)
    ensures Later(s, s)
  {
  }

  lemma CancelEmptying(s0: State, s: State, id: Id)
    requires Inv(s) && Emptying(s0, s) && Enabled(s, CancelOne(id))
    ensures Emptying(s0, Do(s, CancelOne(id)))
  {
    var t, todo := Do(s, CancelOne(id)), s.lock.phase.todo;
    LaterStep(s0, s, CancelOne(id));
    CancelShape(s, id);
    FewerLater(s0, s);
    hide Inv, Do, Enabled, Later, ActiveSet;
    OneLess(ActiveSet(s), todo, id);
    OneLess(ActiveSet(s0), todo, id);
  }

  lemma CancelShape(s: State, id: Id)
    requires Inv(s) && Enabled(s, CancelOne(id))
    ensures var t, p := Do(s, CancelOne(id)), s.lock.phase;
            && t.listed == s.listed && t.lock.Held? && t.lock.job == s.lock.job && ActiveSet(t) == ActiveSet(s)
            && t.lock.phase == Cancelling(p.todo - {id}, if id in ActiveSet(s) then p.count + 1 else p.count)
  {
    hide TableOk;
    var t := Do(s, CancelOne(id));
    assert id in s.listed;
    assert id in ActiveSet(s) <==> !s.waits[id].watch.Done?;
    forall x | x in s.listed ensures Active(t, x) <==> Active(s, x) {
    }
    assert ActiveSet(t) == ActiveSet(s);
  }

  lemma {:induction false} CancelKeeps(s0: State, s: State, acts: seq<Action>, s': State)
    requires Inv(s) && Emptying(s0, s) && Runs(s, acts, s') && Release !in acts
    ensures Emptying(s0, s')
    decreases |acts|
  {
    hide Inv, Emptying, Do, Enabled;
    if acts != [] {
      var a := acts[0];
      assert a in acts;
      OnlyCancels(s0, s, a);
      if a.CancelOne? {
        CancelEmptying(s0, s, a.id);
      } else {
        OthersEmptying(s0, s, a);
      }
      ActionKeeps(s, a);
      CancelKeeps(s0, Do(s, a), acts[1..], s');
    }
  }

  lemma OnlyCancels(s0: State, s: State, a: Action)
    requires Emptying(s0, s) && Enabled(s, a) && !a.Release?
    ensures a.CancelOne? || Local(a) || a.Tick?
  {
  }

  /** The number `CancelAll` answers: at least those unresolved when it is through, at most those when it began. */
  lemma CancelAllCounts(now: int, before: seq<Action>, acts: seq<Action>, u: State, s: State)
    requires Runs(Init(now), before, u) && Enabled(u, Acquire(CancelAll))
    requires s.lock.Held? && Enabled(s, Release) && Release !in acts && Runs(Do(u, Acquire(CancelAll)), acts, s)
    ensures s.lock.phase.Cancelling? && |ActiveSet(s)| <= s.lock.phase.count <= |ActiveSet(u)|
  {
    var s0 := Do(u, Acquire(CancelAll));
    InitOk(now);
    RunKeeps(Init(now), before, u);
    ActionKeeps(u, Acquire(CancelAll));
    CancelBegins(u);
    CancelKeeps(s0, s0, acts, s);
    hide Runs, Inv, Do, Enabled, Emptying;
    EndsEmptying(s0, s);
  }

  lemma EndsEmptying(s0: State, s: State)
    requires Emptying(s0, s) && Enabled(s, Release)
    ensures s.lock.phase.Cancelling? && |ActiveSet(s)| <= s.lock.phase.count <= |ActiveSet(s0)|
  {
    hide Later, ActiveSet;
    assert ActiveSet(s) - {} == ActiveSet(s) && ActiveSet(s0) - {} == ActiveSet(s0);
  }

  lemma CancelBegins(u: State)
    requires Inv(u) && Enabled(u, Acquire(CancelAll))
    ensures var s0 := Do(u, Acquire(CancelAll)); Emptying(s0, s0) && ActiveSet(s0) == ActiveSet(u)
  {
    hide Inv;
    var s0 := Do(u, Acquire(CancelAll));
    assert ActiveSet(s0) == ActiveSet(u);
    assert ActiveSet(s0) - s0.listed == {};
  }
}
