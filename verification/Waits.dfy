/**
 * Server-side watchers as a step system. One action is one lock region, channel operation or probe of a watcher, or one
 * turn of a loop that runs under the manager's lock; watchers go on while the lock is held.
 */
module Waits {
  import opened Basics
  import opened Listing

  const RETENTION: nat := 30 * 60 * 1_000_000_000
  const MAX_ACTIVE: nat := 64
  const MAX_KEPT: nat := 200

  datatype WaitResult = WaitResult(satisfied: bool, timedOut: bool, checks: nat, detail: string)

  /** What a watcher has come to: nothing yet, a result, or a permanent probe failure. */
  datatype Verdict = Unset | Final(res: WaitResult) | Failed(error: string)

  /**
   * Where the watcher is: before a check, before its select, about to store its verdict, before closing `done`,
   * through.
   */
  datatype Watch = Probing | Selecting | Decided(verdict: Verdict) | Stored | Done

  datatype Wait = Wait(startedAt: int, deadline: int, cancelled: bool, watch: Watch, res: WaitResult,
                       last: WaitResult, verdict: Verdict, endedAt: int)

  function NewWait(now: int, timeout: nat): Wait {
    var r := WaitResult(false, false, 0, "");
    Wait(now, now + timeout, false, Probing, r, r, Unset, 0)
  }

  datatype Job = Get | Start(id: Id, timeout: nat) | CancelAll

  /** What the lock holder is doing: pruning, counting the unresolved, cancelling them, or nothing more. */
  datatype Phase =
    | Scan(at: int, todo: set<Id>, resolved: seq<Id>)
    | Count(todo: set<Id>, active: nat)
    | Cancelling(todo: set<Id>, count: nat)
    | Pruned

  datatype Lock = Free | Held(job: Job, phase: Phase)

  /** `waits` are all watchers ever started, `listed` the ids in the manager's map. */
  datatype State = State(now: int, waits: map<Id, Wait>, listed: set<Id>, lock: Lock)

  datatype Check = Holds | NotYet | Broken(error: string)
  datatype Wake = Ticked | Expired | Stopped

  datatype Action =
    | Tick(time: int)
    | Acquire(job: Job)
    | Look(id: Id)
    | Trim(list: seq<Id>)
    | CountOne(id: Id)
    | CancelOne(id: Id)
    | Release
    | Probe(id: Id, check: Check, detail: string)
    | Select(id: Id, wake: Wake)
    | Store(id: Id)
    | Close(id: Id)
    | Cancel(id: Id)

  function Init(now: int): State { State(now, map[], {}, Free) }

  predicate SortedBy(waits: map<Id, Wait>, list: seq<Id>) {
    && (forall k :: 0 <= k < |list| ==> list[k] in waits)
    && (forall k, l :: 0 <= k < l < |list| ==> waits[list[k]].startedAt >= waits[list[l]].startedAt)
  }

  predicate Enabled(s: State, a: Action) {
    match a
    case Tick(t) => t >= s.now
    case Acquire(job) => s.lock.Free? && (job.Start? ==> job.id !in s.waits)
    case Look(id) => s.lock.Held? && s.lock.phase.Scan? && id in s.lock.phase.todo && id in s.waits
    case Trim(list) =>
      && s.lock.Held? && s.lock.phase.Scan? && s.lock.phase.todo == {}
      && multiset(list) == multiset(s.lock.phase.resolved) && (|list| > MAX_KEPT ==> SortedBy(s.waits, list))
    case CountOne(id) => s.lock.Held? && s.lock.phase.Count? && id in s.lock.phase.todo && id in s.waits
    case CancelOne(id) => s.lock.Held? && s.lock.phase.Cancelling? && id in s.lock.phase.todo && id in s.waits
    case Release => s.lock.Held? && (s.lock.phase.Pruned? || (!s.lock.phase.Scan? && s.lock.phase.todo == {}))
    case Probe(id, _, _) => id in s.waits && s.waits[id].watch.Probing?
    case Select(id, wake) =>
      && id in s.waits && s.waits[id].watch.Selecting?
      && (wake.Expired? ==> s.now >= s.waits[id].deadline) && (wake.Stopped? ==> s.waits[id].cancelled)
    case Store(id) => id in s.waits && s.waits[id].watch.Decided?
    case Close(id) => id in s.waits && s.waits[id].watch.Stored?
    case Cancel(id) => id in s.waits
  }

  /** One check of the condition: an error or a hit decides, a miss is observed. */
  function ProbeWait(w: Wait, check: Check, detail: string): Wait {
    var r := w.res.(checks := w.res.checks + 1, detail := detail);
    match check
    case Broken(e) => w.(res := r, watch := Decided(Failed(e)))
    case Holds => w.(res := r.(satisfied := true), watch := Decided(Final(r.(satisfied := true))))
    case NotYet => w.(res := r, last := r, watch := Selecting)
  }

  function SelectWait(w: Wait, wake: Wake): Wait {
    match wake
    case Ticked => w.(watch := Probing)
    case Expired => w.(res := w.res.(timedOut := true), watch := Decided(Final(w.res.(timedOut := true))))
    case Stopped => w.(watch := Decided(Final(w.res)))
  }

  function LookAt(s: State, id: Id): State
    requires Enabled(s, Look(id))
  {
    var p := s.lock.phase;
    var looked := Scan(p.at, p.todo - {id}, p.resolved);
    if !s.waits[id].watch.Done? then s.(lock := s.lock.(phase := looked))
    else if p.at - s.waits[id].endedAt > RETENTION then s.(listed := s.listed - {id}, lock := s.lock.(phase := looked))
    else s.(lock := s.lock.(phase := Scan(p.at, p.todo - {id}, p.resolved + [id])))
  }

  /** Forgets what is beyond the newest `MAX_KEPT`; a start then counts the unresolved. */
  function TrimAll(s: State, list: seq<Id>): State
    requires s.lock.Held?
  {
    var listed := if |list| <= MAX_KEPT then s.listed else s.listed - (set k | MAX_KEPT <= k < |list| :: list[k]);
    s.(listed := listed, lock := s.lock.(phase := if s.lock.job.Start? then Count(listed, 0) else Pruned))
  }

  /** A start that counted fewer than `MAX_ACTIVE` registers its watcher; any other holder just unlocks. */
  function ReleaseLock(s: State): State
    requires Enabled(s, Release)
  {
    if s.lock.job.Start? && s.lock.phase.Count? && s.lock.phase.active < MAX_ACTIVE then
      var id := s.lock.job.id;
      s.(waits := s.waits[id := NewWait(s.now, s.lock.job.timeout)], listed := s.listed + {id}, lock := Free)
    else s.(lock := Free)
  }

  function Do(s: State, a: Action): State
    requires Enabled(s, a)
  {
    match a
    case Tick(t) => s.(now := t)
    case Acquire(job) =>
      s.(lock := Held(job, if job.CancelAll? then Cancelling(s.listed, 0) else Scan(s.now, s.listed, [])))
    case Look(id) => LookAt(s, id)
    case Trim(list) => TrimAll(s, list)
    case CountOne(id) =>
      var p := s.lock.phase;
      s.(lock := s.lock.(phase := Count(p.todo - {id}, if s.waits[id].watch.Done? then p.active else p.active + 1)))
    case CancelOne(id) =>
      var p, w := s.lock.phase, s.waits[id];
      if w.watch.Done? then s.(lock := s.lock.(phase := Cancelling(p.todo - {id}, p.count)))
      else s.(waits := s.waits[id := w.(cancelled := true)],
              lock := s.lock.(phase := Cancelling(p.todo - {id}, p.count + 1)))
    case Release => ReleaseLock(s)
    case Probe(id, check, detail) => s.(waits := s.waits[id := ProbeWait(s.waits[id], check, detail)])
    case Select(id, wake) => s.(waits := s.waits[id := SelectWait(s.waits[id], wake)])
    case Store(id) =>
      s.(waits := s.waits[id := s.waits[id].(verdict := s.waits[id].watch.verdict, endedAt := s.now, watch := Stored)])
    case Close(id) => s.(waits := s.waits[id := s.waits[id].(watch := Done)])
    case Cancel(id) => s.(waits := s.waits[id := s.waits[id].(cancelled := true)])
  }

  ghost predicate Runs(s: State, acts: seq<Action>, s': State)
    decreases |acts|
  {
    if acts == [] then s == s' else Enabled(s, acts[0]) && Runs(Do(s, acts[0]), acts[1..], s')
  }

  // ----- what a caller sees -----

  datatype WaitState = Satisfied | TimedOut | Pending | Cancelled

  datatype Answer = Answer(state: WaitState, res: WaitResult) | Error(error: string)

  function Snapshot(w: Wait): Answer {
    match w.verdict
    case Failed(e) => Error(e)
    case Unset => Answer(Pending, w.last)
    case Final(r) => Answer(if r.satisfied then Satisfied else if r.timedOut then TimedOut else Cancelled, r)
  }

  // ----- the invariant -----

  /** A verdict that a watcher with this deadline and cancellation may reach by `now`. */
  ghost predicate Fair(w: Wait, v: Verdict, now: int) {
    match v
    case Unset => false
    case Failed(_) => true
    case Final(r) =>
      && r == w.res && r.checks > 0 && !(r.satisfied && r.timedOut)
      && (r.timedOut ==> now >= w.deadline) && (!r.satisfied && !r.timedOut ==> w.cancelled)
  }

  ghost predicate WaitOk(w: Wait, now: int) {
    && w.startedAt <= now && !w.last.satisfied && !w.last.timedOut
    && (w.watch.Probing? || w.watch.Selecting? ==> !w.res.satisfied && !w.res.timedOut)
    && (w.watch.Probing? ==> w.last == w.res) && (w.watch.Selecting? ==> w.last == w.res && w.res.checks > 0)
    && (w.verdict.Unset? <==> !(w.watch.Stored? || w.watch.Done?))
    && (w.watch.Decided? ==> Fair(w, w.watch.verdict, now))
    && (!w.verdict.Unset? ==> Fair(w, w.verdict, now) && w.endedAt <= now)
  }

  ghost predicate Active(s: State, id: Id) { id in s.listed && id in s.waits && !s.waits[id].watch.Done? }

  /** The watchers still unresolved. */
  ghost function ActiveSet(s: State): set<Id> { set id | id in s.listed && Active(s, id) }

  ghost predicate TableOk(s: State) {
    && (forall id :: id in s.waits ==> WaitOk(s.waits[id], s.now))
    && (forall id :: id in s.listed ==> id in s.waits)
    && (forall id :: id in s.waits && !s.waits[id].watch.Done? ==> id in s.listed)
    && |ActiveSet(s)| <= MAX_ACTIVE && |s.listed| <= MAX_ACTIVE + MAX_KEPT + 1
  }

  /** What the scan has passed over as unresolved, or may yet. */
  ghost function Loose(s: State, todo: set<Id>, resolved: seq<Id>): set<Id> {
    set id | id in s.listed && id !in resolved && (id in todo ==> Active(s, id))
  }

  ghost predicate Kept(s: State, at: int, id: Id) {
    id in s.listed && id in s.waits && s.waits[id].watch.Done? && at - s.waits[id].endedAt <= RETENTION
  }

  ghost predicate ScanOk(s: State, at: int, todo: set<Id>, resolved: seq<Id>) {
    && at <= s.now && todo <= s.listed && Distinct(resolved)
    && (forall k :: 0 <= k < |resolved| ==> Kept(s, at, resolved[k]) && resolved[k] !in todo)
    && |Loose(s, todo, resolved)| <= MAX_ACTIVE
  }

  ghost function Counted(s: State, todo: set<Id>): set<Id> { ActiveSet(s) - todo }

  ghost predicate CountOk(s: State, todo: set<Id>, active: nat) {
    && todo <= s.listed && |Counted(s, todo)| <= active && active + |ActiveSet(s) * todo| <= MAX_ACTIVE
    && |s.listed| <= MAX_ACTIVE + MAX_KEPT
  }

  ghost predicate LockOk(s: State) {
    s.lock.Held? ==>
      && (s.lock.job.Start? ==> s.lock.job.id !in s.waits)
      && match s.lock.phase
         case Scan(at, todo, resolved) => ScanOk(s, at, todo, resolved)
         case Count(todo, active) => s.lock.job.Start? && CountOk(s, todo, active)
         case Cancelling(todo, _) =>
           !s.lock.job.Start? && todo <= s.listed && forall id :: Active(s, id) && id !in todo ==> s.waits[id].cancelled
         case Pruned => !s.lock.job.Start?
  }

  ghost predicate Inv(s: State) { TableOk(s) && LockOk(s) }

  lemma InitOk(now: int)
    ensures Inv(Init(now))
  {
    assert ActiveSet(Init(now)) == {};
  }

  // ----- every action keeps the invariant -----

  /** The actions of one watcher, and a cancellation from outside. */
  ghost predicate Local(a: Action) { a.Probe? || a.Select? || a.Store? || a.Close? || a.Cancel? }

  /** A watcher goes on: it stays resolved once it is, and a resolved one keeps its end. */
  ghost predicate Onward(w: Wait, w': Wait) {
    && w'.startedAt == w.startedAt && w'.deadline == w.deadline
    && (w.watch.Done? ==> w'.watch.Done?) && (w.cancelled ==> w'.cancelled)
    && (!w.verdict.Unset? ==> w'.verdict == w.verdict && w'.endedAt == w.endedAt)
  }

  lemma LocalKeepsWait(s: State, a: Action)
    requires Local(a) && Enabled(s, a) && WaitOk(s.waits[a.id], s.now)
    ensures WaitOk(Do(s, a).waits[a.id], s.now) && Onward(s.waits[a.id], Do(s, a).waits[a.id])
  {
  }

  /** Same list and same holder; every watcher goes on. */
  ghost predicate Calm(s: State, s': State) {
    && s'.listed == s.listed && s.now <= s'.now && s'.waits.Keys == s.waits.Keys
    && (forall id :: id in s.waits ==> WaitOk(s'.waits[id], s'.now) && Onward(s.waits[id], s'.waits[id]))
  }

  lemma FewerActive(s: State, s': State)
    requires Calm(s, s')
    ensures forall id :: Active(s', id) ==> Active(s, id)
    ensures ActiveSet(s') <= ActiveSet(s) && |ActiveSet(s')| <= |ActiveSet(s)|
  {
    forall id | Active(s', id) ensures Active(s, id) {
      assert id in s'.waits.Keys;
    }
    Fits(ActiveSet(s'), ActiveSet(s));
  }

  lemma CalmKeepsTable(s: State, s': State)
    requires TableOk(s) && Calm(s, s')
    ensures TableOk(s')
  {
    FewerActive(s, s');
    hide WaitOk;
    assert forall id :: id in s'.waits <==> id in s'.waits.Keys;
    assert forall id :: id in s.waits <==> id in s.waits.Keys;
  }

  lemma CalmKeepsLock(s: State, s': State)
    requires TableOk(s) && LockOk(s) && Calm(s, s') && s'.lock == s.lock
    ensures LockOk(s')
  {
    FewerActive(s, s');
    assert forall id :: id in s'.waits <==> id in s'.waits.Keys;
    assert forall id :: id in s.waits <==> id in s.waits.Keys;
    if s.lock.Held? {
      match s.lock.phase
      case Scan(at, todo, resolved) =>
        Fits(Loose(s', todo, resolved), Loose(s, todo, resolved));
        CalmKeepsKept(s, s', at, resolved);
      case Count(todo, active) =>
        Fits(Counted(s', todo), Counted(s, todo));
        Fits(ActiveSet(s') * todo, ActiveSet(s) * todo);
      case Cancelling(_, _) =>
      case Pruned =>
    }
  }

  lemma CalmKeepsKept(s: State, s': State, at: int, resolved: seq<Id>)
    requires TableOk(s) && Calm(s, s') && forall k :: 0 <= k < |resolved| ==> Kept(s, at, resolved[k])
    ensures forall k :: 0 <= k < |resolved| ==> Kept(s', at, resolved[k])
  {
    forall k | 0 <= k < |resolved| ensures Kept(s', at, resolved[k]) {
      var id := resolved[k];
      assert Kept(s, at, id) && WaitOk(s.waits[id], s.now);
      assert id in s'.waits.Keys;
    }
  }

  lemma LocalKeeps(s: State, a: Action)
    requires Inv(s) && Local(a) && Enabled(s, a)
    ensures Inv(Do(s, a))
  {
    var s' := Do(s, a);
    LocalKeepsWait(s, a);
    assert Calm(s, s') by {
      OneIsCalm(s, s', a.id);
    }
    CalmKeepsTable(s, s');
    CalmKeepsLock(s, s');
  }

  lemma OneIsCalm(s: State, s': State, id: Id)
    requires TableOk(s) && id in s.waits && s'.waits.Keys == s.waits.Keys && s'.listed == s.listed && s'.now == s.now
    requires forall x :: x in s.waits && x != id ==> s'.waits[x] == s.waits[x]
    requires WaitOk(s'.waits[id], s.now) && Onward(s.waits[id], s'.waits[id])
    ensures Calm(s, s')
  {
    hide WaitOk;
  }

  lemma TickKeeps(s: State, t: int)
    requires Inv(s) && t >= s.now
    ensures Inv(Do(s, Tick(t)))
  {
    var s' := Do(s, Tick(t));
    assert Calm(s, s');
    CalmKeepsTable(s, s');
    CalmKeepsLock(s, s');
  }

  lemma AcquireKeeps(s: State, job: Job)
    requires Inv(s) && Enabled(s, Acquire(job))
    ensures Inv(Do(s, Acquire(job)))
  {
    hide WaitOk;
    var s' := Do(s, Acquire(job));
    assert ActiveSet(s') == ActiveSet(s);
    assert Loose(s', s.listed, []) == ActiveSet(s);
  }

  /** Taking resolved watchers off the list. */
  lemma EvictKeepsTable(s: State, s': State)
    requires TableOk(s) && s'.waits == s.waits && s'.now == s.now && s'.listed <= s.listed
    requires forall id :: id in s.listed && id !in s'.listed ==> !Active(s, id)
    ensures TableOk(s') && ActiveSet(s') == ActiveSet(s)
  {
    hide WaitOk;
    assert ActiveSet(s') == ActiveSet(s);
    Fits(s'.listed, s.listed);
  }

  lemma LookKeeps(s: State, id: Id)
    requires Inv(s) && Enabled(s, Look(id))
    ensures Inv(Do(s, Look(id)))
  {
    hide WaitOk;
    var s' := Do(s, Look(id));
    EvictKeepsTable(s, s');
    hide TableOk;
    var p, q := s.lock.phase, s'.lock.phase;
    assert ScanOk(s, p.at, p.todo, p.resolved);
    assert Loose(s', q.todo, q.resolved) == Loose(s, p.todo, p.resolved);
    forall k | 0 <= k < |q.resolved| ensures Kept(s', q.at, q.resolved[k]) && q.resolved[k] !in q.todo {
      if k < |p.resolved| {
        assert q.resolved[k] == p.resolved[k] && Kept(s, p.at, p.resolved[k]);
      }
    }
  }

  lemma TrimFits(s: State, list: seq<Id>)
    requires LockOk(s) && Enabled(s, Trim(list))
    ensures var s' := Do(s, Trim(list));
            && |s'.listed| <= MAX_ACTIVE + MAX_KEPT && s'.listed <= s.listed
            && (forall id :: id in s.listed && id !in s'.listed ==> !Active(s, id))
  {
    var s', p := Do(s, Trim(list)), s.lock.phase;
    assert ScanOk(s, p.at, p.todo, p.resolved);
    SamePlaces(p.resolved, list);
    var n := Min(|list|, MAX_KEPT);
    var kept := SetOfList(list, n);
    var loose := Loose(s, {}, p.resolved);
    forall id | id in s'.listed ensures id in kept + loose {
      if id in p.resolved {
        var k :| 0 <= k < |list| && list[k] == id;
        assert k < n;
        assert list[..n][k] == id;
      }
    }
    Fits(s'.listed, kept + loose);
    forall id | id in s.listed && id !in s'.listed ensures !Active(s, id) {
      var k :| 0 <= k < |list| && list[k] == id;
      assert list[k] in p.resolved;
      var l :| 0 <= l < |p.resolved| && p.resolved[l] == id;
      assert Kept(s, p.at, p.resolved[l]);
    }
  }

  lemma TrimKeeps(s: State, list: seq<Id>)
    requires Inv(s) && Enabled(s, Trim(list))
    ensures Inv(Do(s, Trim(list)))
  {
    var s' := Do(s, Trim(list));
    TrimFits(s, list);
    EvictKeepsTable(s, s');
    hide TableOk, ScanOk;
    if s.lock.job.Start? {
      assert Counted(s', s'.listed) == {};
      Fits(ActiveSet(s') * s'.listed, ActiveSet(s'));
      assert |ActiveSet(s')| <= MAX_ACTIVE by { ActiveBound(s'); }
    }
  }

  lemma ActiveBound(s: State)
    requires TableOk(s)
    ensures |ActiveSet(s)| <= MAX_ACTIVE && |s.listed| <= MAX_ACTIVE + MAX_KEPT + 1
  {
  }

  lemma SameTable(s: State, s': State)
    requires TableOk(s) && s'.waits == s.waits && s'.now == s.now && s'.listed == s.listed
    ensures TableOk(s') && ActiveSet(s') == ActiveSet(s)
  {
    hide WaitOk;
    assert ActiveSet(s') == ActiveSet(s);
  }

  lemma CountKeeps(s: State, id: Id)
    requires Inv(s) && Enabled(s, CountOne(id))
    ensures Inv(Do(s, CountOne(id)))
  {
    var s' := Do(s, CountOne(id));
    SameTable(s, s');
    assert id in s.listed && (Active(s, id) <==> !s.waits[id].watch.Done?);
    hide TableOk;
    var p, q := s.lock.phase, s'.lock.phase;
    MoveOne(ActiveSet(s), p.todo, q.todo, id);
  }

  lemma MoveOne(act: set<Id>, todo: set<Id>, rest: set<Id>, id: Id)
    requires id in todo && rest == todo - {id}
    ensures if id in act then |act - rest| == |act - todo| + 1 && |act * rest| == |act * todo| - 1
            else act - rest == act - todo && act * rest == act * todo
  {
    if id in act {
      assert act - rest == (act - todo) + {id} && act * todo == (act * rest) + {id};
    } else {
      assert act - rest == act - todo && act * rest == act * todo;
    }
  }

  lemma CancelOneKeeps(s: State, id: Id)
    requires Inv(s) && Enabled(s, CancelOne(id))
    ensures Inv(Do(s, CancelOne(id)))
  {
    var s' := Do(s, CancelOne(id));
    assert WaitOk(s'.waits[id], s.now) && Onward(s.waits[id], s'.waits[id]);
    OneIsCalm(s, s', id);
    CalmKeepsTable(s, s');
    hide TableOk;
  }

  lemma ReleaseKeeps(s: State)
    requires Inv(s) && Enabled(s, Release)
    ensures Inv(Do(s, Release))
  {
    var s' := Do(s, Release);
    if s'.waits == s.waits && s'.listed == s.listed {
      SameTable(s, s');
    } else {
      StartKeeps(s);
    }
  }

  /** A start that found fewer than 64 unresolved leaves at most 64. */
  lemma StartKeeps(s: State)
    requires Inv(s) && s.lock.Held? && s.lock.job.Start? && s.lock.phase.Count?
    requires s.lock.phase.todo == {} && s.lock.phase.active < MAX_ACTIVE
    ensures Inv(Do(s, Release))
  {
    StartShape(s);
    var s', id := Do(s, Release), s.lock.job.id;
    assert CountOk(s, {}, s.lock.phase.active);
    hide WaitOk, Do, LockOk;
    StartFits(s, s', id);
    hide ActiveSet, CountOk, Counted;
  }

  lemma StartShape(s: State)
    requires LockOk(s) && s.lock.Held? && s.lock.job.Start? && s.lock.phase.Count?
    requires s.lock.phase.todo == {} && s.lock.phase.active < MAX_ACTIVE
    ensures var s', id := Do(s, Release), s.lock.job.id;
            && id !in s.waits && id in s'.waits && WaitOk(s'.waits[id], s.now)
                 && s'.waits == s.waits[id := s'.waits[id]]
            && s'.listed == s.listed + {id} && s'.now == s.now && LockOk(s')
  {
  }

  lemma StartFits(s: State, s': State, id: Id)
    requires |Counted(s, {})| < MAX_ACTIVE && |s.listed| <= MAX_ACTIVE + MAX_KEPT
    requires id !in s.waits && s'.listed == s.listed + {id} && id in s'.waits && s'.waits == s.waits[id := s'.waits[id]]
    ensures |ActiveSet(s')| <= MAX_ACTIVE && |s'.listed| <= MAX_ACTIVE + MAX_KEPT + 1
  {
    assert Counted(s, {}) == ActiveSet(s);
    StartAddsOne(s, s', id);
    hide ActiveSet;
    Fits(ActiveSet(s'), ActiveSet(s) + {id});
  }

  lemma StartAddsOne(s: State, s': State, id: Id)
    requires id !in s.waits && s'.listed == s.listed + {id} && id in s'.waits && s'.waits == s.waits[id := s'.waits[id]]
    ensures ActiveSet(s') <= ActiveSet(s) + {id}
  {
    forall x | x in ActiveSet(s') && x != id ensures x in ActiveSet(s) {
      assert Active(s', x);
    }
  }

  /** Every action of every thread keeps the invariant. */
  lemma ActionKeeps(s: State, a: Action)
    requires Inv(s) && Enabled(s, a)
    ensures Inv(Do(s, a))
  {
    hide TableOk, LockOk, Do;
    match a
    case Tick(t) => TickKeeps(s, t);
    case Acquire(job) => AcquireKeeps(s, job);
    case Look(id) => LookKeeps(s, id);
    case Trim(list) => TrimKeeps(s, list);
    case CountOne(id) => CountKeeps(s, id);
    case CancelOne(id) => CancelOneKeeps(s, id);
    case Release => ReleaseKeeps(s);
    case Probe(_, _, _) => LocalKeeps(s, a);
    case Select(_, _) => LocalKeeps(s, a);
    case Store(_) => LocalKeeps(s, a);
    case Close(_) => LocalKeeps(s, a);
    case Cancel(_) => LocalKeeps(s, a);
  }

  lemma {:induction false} RunKeeps(s: State, acts: seq<Action>, s': State)
    requires Inv(s) && Runs(s, acts, s')
    ensures Inv(s')
    decreases |acts|
  {
    if acts != [] {
      ActionKeeps(s, acts[0]);
      RunKeeps(Do(s, acts[0]), acts[1..], s');
    }
  }

  // ----- what the server promises -----

  /**
   * In every interleaving: at most 64 watchers are unresolved, the map holds at most 265, no unresolved watcher has
   * left it, and a start is refused only with a count of exactly 64.
   */
  lemma Bounded(now: int, acts: seq<Action>, s: State)
    requires Runs(Init(now), acts, s)
    ensures |ActiveSet(s)| <= MAX_ACTIVE && |s.listed| <= MAX_ACTIVE + MAX_KEPT + 1
    ensures forall id :: id in s.waits && !s.waits[id].watch.Done? ==> id in s.listed
    ensures s.lock.Held? && s.lock.phase.Count? ==> s.lock.phase.active <= MAX_ACTIVE
  {
    InitOk(now);
    RunKeeps(Init(now), acts, s);
    hide WaitOk;
  }

  /** When `CancelAll` is through, every watcher still unresolved is cancelled. */
  lemma CancelAllReachesAll(now: int, acts: seq<Action>, s: State, id: Id)
    requires Runs(Init(now), acts, s) && s.lock.Held? && s.lock.phase.Cancelling? && s.lock.phase.todo == {}
    requires id in s.waits && !s.waits[id].watch.Done?
    ensures s.waits[id].cancelled
  {
    InitOk(now);
    RunKeeps(Init(now), acts, s);
    hide WaitOk;
    assert Active(s, id);
  }

  /** What brought watcher `id` where it is was done: a check that held, one that failed, a cancellation. */
  ghost predicate Explained(acts: seq<Action>, w: Wait, id: Id) {
    && (w.res.satisfied ==> Probe(id, Holds, w.res.detail) in acts)
    && (w.res.timedOut ==> Select(id, Expired) in acts)
    && (w.last.checks > 0 ==> Probe(id, NotYet, w.last.detail) in acts)
    && (w.cancelled ==> Cancel(id) in acts || CancelOne(id) in acts)
    && (w.watch.Decided? && w.watch.verdict.Failed? ==> Probe(id, Broken(w.watch.verdict.error), w.res.detail) in acts)
    && (w.verdict.Failed? ==> Probe(id, Broken(w.verdict.error), w.res.detail) in acts)
  }

  lemma ActionExplains(acts: seq<Action>, s: State, a: Action, id: Id)
    requires Inv(s) && Enabled(s, a) && id in Do(s, a).waits && (id in s.waits ==> Explained(acts, s.waits[id], id))
    ensures Explained(acts + [a], Do(s, a).waits[id], id)
  {
    if id in s.waits {
      assert WaitOk(s.waits[id], s.now);
    }
    StartsNew(s, a);
    hide Inv, WaitOk, Explained, Do, Enabled;
    if id !in s.waits {
      NewExplained(acts + [a], s, a, id);
    } else if !Local(a) {
      OthersExplain(acts, s, a, id);
    } else if a.id == id {
      LocalExplains(acts, s, a);
    } else {
      LocalElsewhere(s, a, id);
      StaysExplained(acts, a, s.waits[id], id);
    }
  }

  lemma StaysExplained(acts: seq<Action>, a: Action, w: Wait, id: Id)
    requires Explained(acts, w, id)
    ensures Explained(acts + [a], w, id)
  {
    assert forall x :: x in acts ==> x in acts + [a];
  }

  lemma NewExplained(acts: seq<Action>, s: State, a: Action, id: Id)
    requires Enabled(s, a) && id !in s.waits && id in Do(s, a).waits
    ensures Explained(acts, Do(s, a).waits[id], id)
  {
  }

  lemma LocalElsewhere(s: State, a: Action, id: Id)
    requires Enabled(s, a) && Local(a) && a.id != id && id in s.waits
    ensures id in Do(s, a).waits && Do(s, a).waits[id] == s.waits[id]
  {
  }

  lemma OthersExplain(acts: seq<Action>, s: State, a: Action, id: Id)
    requires Enabled(s, a) && id in s.waits && !Local(a) && Explained(acts, s.waits[id], id)
    requires a.Release? && s.lock.job.Start? ==> s.lock.job.id !in s.waits
    ensures id in Do(s, a).waits && Explained(acts + [a], Do(s, a).waits[id], id)
  {
    OthersOnlyCancel(s, a, id);
    CancelsByCancelOne(s, a, id);
    StaysExplained(acts, a, s.waits[id], id);
    hide Do, Enabled;
    assert a in acts + [a];
  }

  lemma LocalExplains(acts: seq<Action>, s: State, a: Action)
    requires Local(a) && Enabled(s, a) && WaitOk(s.waits[a.id], s.now) && Explained(acts, s.waits[a.id], a.id)
    ensures Explained(acts + [a], Do(s, a).waits[a.id], a.id)
  {
    assert a in acts + [a] && forall x :: x in acts ==> x in acts + [a];
  }

  lemma CancelsByCancelOne(s: State, a: Action, id: Id)
    requires Enabled(s, a) && id in s.waits && id in Do(s, a).waits && !Local(a)
    requires a.Release? && s.lock.job.Start? ==> s.lock.job.id !in s.waits
    ensures Do(s, a).waits[id].cancelled && !s.waits[id].cancelled ==> a == CancelOne(id)
  {
  }

  lemma {:induction false} RunExplains(acts: seq<Action>, s: State, more: seq<Action>, s': State, id: Id)
    requires Inv(s) && Runs(s, more, s') && id in s'.waits && (id in s.waits ==> Explained(acts, s.waits[id], id))
    ensures Explained(acts + more, s'.waits[id], id)
    decreases |more|
  {
    hide Inv, Explained, Do, Enabled;
    if more == [] {
      assert acts + more == acts;
    } else {
      var t := Do(s, more[0]);
      ActionKeeps(s, more[0]);
      if id in t.waits {
        ActionExplains(acts, s, more[0], id);
      }
      RunExplains(acts + [more[0]], t, more[1..], s', id);
      assert (acts + [more[0]]) + more[1..] == acts + more;
    }
  }

  /**
   * What an answer means: satisfied, that a check of the run held, with the detail reported; failed, that one broke
   * with the error reported; timed out, that the deadline has passed; cancelled, that it was cancelled by id or with
   * all others. `done` is only closed on an answer.
   */
  lemma AnswersAreTrue(now: int, acts: seq<Action>, s: State, id: Id)
    requires Runs(Init(now), acts, s) && id in s.waits
    ensures var w, a := s.waits[id], Snapshot(s.waits[id]);
            && (w.watch.Done? ==> a.Error? || !a.state.Pending?)
            && (a.Error? ==> exists detail :: Probe(id, Broken(a.error), detail) in acts)
            && (a.Answer? ==> match a.state
                              case Satisfied =>
                                a.res.satisfied && a.res.checks > 0 && Probe(id, Holds, a.res.detail) in acts
                              case TimedOut =>
                                !a.res.satisfied && s.now >= w.deadline && Select(id, Expired) in acts
                              case Cancelled =>
                                !a.res.satisfied && w.cancelled && (Cancel(id) in acts || CancelOne(id) in acts)
                              case Pending =>
                                && !a.res.satisfied && !w.watch.Done? && id in s.listed
                                && (a.res.checks > 0 ==> Probe(id, NotYet, a.res.detail) in acts))
  {
    InitOk(now);
    RunKeeps(Init(now), acts, s);
    assert WaitOk(s.waits[id], s.now);
    RunExplains([], Init(now), acts, s, id);
    assert [] + acts == acts;
  }

  lemma ActionIsOnward(s: State, a: Action, id: Id)
    requires Inv(s) && Enabled(s, a) && id in s.waits
    ensures id in Do(s, a).waits && Onward(s.waits[id], Do(s, a).waits[id])
  {
    assert WaitOk(s.waits[id], s.now);
    StartsNew(s, a);
    hide Inv, WaitOk;
    if Local(a) {
      if a.id == id {
        LocalKeepsWait(s, a);
      }
    } else {
      OthersOnlyCancel(s, a, id);
    }
  }

  /** The id of a watcher about to start is new. */
  lemma StartsNew(s: State, a: Action)
    requires Inv(s) && Enabled(s, a)
    ensures a.Release? && s.lock.job.Start? ==> s.lock.job.id !in s.waits
  {
    hide TableOk;
  }

  lemma OthersOnlyCancel(s: State, a: Action, id: Id)
    requires Enabled(s, a) && id in s.waits && !Local(a)
    requires a.Release? && s.lock.job.Start? ==> s.lock.job.id !in s.waits
    ensures id in Do(s, a).waits
              && (Do(s, a).waits[id] == s.waits[id] || Do(s, a).waits[id] == s.waits[id].(cancelled := true))
  {
  }

  lemma {:induction false} RunIsOnward(s: State, acts: seq<Action>, s': State, id: Id)
    requires Inv(s) && Runs(s, acts, s') && id in s.waits
    ensures id in s'.waits && Onward(s.waits[id], s'.waits[id])
    decreases |acts|
  {
    if acts != [] {
      ActionKeeps(s, acts[0]);
      ActionIsOnward(s, acts[0], id);
      RunIsOnward(Do(s, acts[0]), acts[1..], s', id);
    }
  }

  /** An answer other than pending is the answer for ever. */
  lemma AnswersAreFinal(now: int, before: seq<Action>, s: State, after: seq<Action>, s': State, id: Id)
    requires Runs(Init(now), before, s) && Runs(s, after, s') && id in s.waits
    ensures id in s'.waits
    ensures Snapshot(s.waits[id]).Error? || !Snapshot(s.waits[id]).state.Pending? ==>
              Snapshot(s'.waits[id]) == Snapshot(s.waits[id])
  {
    InitOk(now);
    RunKeeps(Init(now), before, s);
    RunIsOnward(s, after, s', id);
  }

  /**
   * Only a resolved watcher leaves the map: one past its retention, or with 200 resolved others kept, none started
   * earlier.
   */
  lemma EvictionIsJustified(s: State, a: Action, id: Id) returns (newer: set<Id>)
    requires Inv(s) && Enabled(s, a) && id in s.listed && id !in Do(s, a).listed
    ensures s.lock.Held? && s.lock.phase.Scan? && s.waits[id].watch.Done?
    ensures s.lock.phase.at - s.waits[id].endedAt > RETENTION
            || (|newer| == MAX_KEPT && id !in newer && forall x :: x in newer ==>
                  Kept(s, s.lock.phase.at, x) && x in Do(s, a).listed && s.waits[x].startedAt >= s.waits[id].startedAt)
  {
    hide WaitOk, Loose;
    newer := {};
    if a.Trim? {
      var p := s.lock.phase;
      SamePlaces(p.resolved, a.list);
      var i :| 0 <= i < |a.list| && a.list[i] == id && i >= MAX_KEPT;
      assert a.list[i] in p.resolved;
      newer := SetOfList(a.list, MAX_KEPT);
      NewestStay(s, a.list, i, newer);
    }
  }

  lemma NewestStay(s: State, list: seq<Id>, i: nat, newer: set<Id>)
    requires LockOk(s) && Enabled(s, Trim(list)) && MAX_KEPT <= i < |list| && Distinct(list)
    requires forall x :: x in list <==> x in s.lock.phase.resolved
    requires forall x :: x in newer <==> x in list[..MAX_KEPT]
    ensures list[i] !in newer && forall x :: x in newer ==>
      Kept(s, s.lock.phase.at, x) && x in Do(s, Trim(list)).listed && s.waits[x].startedAt >= s.waits[list[i]].startedAt
  {
    hide Loose;
    var p := s.lock.phase;
    forall x | x in newer
      ensures x != list[i] && Kept(s, p.at, x) && x in Do(s, Trim(list)).listed
      ensures s.waits[x].startedAt >= s.waits[list[i]].startedAt
    {
      var k :| 0 <= k < MAX_KEPT && list[k] == x;
      assert x in p.resolved;
    }
  }
}
