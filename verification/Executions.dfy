/**
 * Detached executions as a step system. One action is one lock region (or one channel or map operation) of the
 * launching call, of the goroutine that runs the command, or of a prune; actions of different executions and of a
 * prune interleave freely.
 */
module Executions {
  import opened Basics
  import opened Listing

  const RETENTION: nat := 30 * 60 * 1_000_000_000
  const MAX_EXECS: nat := 200
  const MAX_OUTPUTS: nat := 16

  datatype Outcome = Outcome(notStarted: bool, timedOut: bool, cancelled: bool, exitCode: int, stdout: string,
                             stderr: string)

  datatype ExecState = Running | Completed | TimedOut | Cancelled | NotStarted

  /** The reported state of a finished execution. */
  function StateOf(r: Outcome): ExecState {
    if r.notStarted then NotStarted
    else if r.timedOut then TimedOut
    else if r.cancelled then Cancelled
    else Completed
  }

  function Stripped(r: Outcome): Outcome { r.(stdout := "", stderr := "") }

  /** Where the launching call is: in `Launch`, waiting, or past its claim. */
  datatype Call = Registered | Inserting | Inserted | Waiting | Claimed(result: Option<Outcome>)

  /** Where the goroutine of an execution is. `late` is its copy of the hand-off flag. */
  datatype Work = Unborn | Working | Finished(late: bool) | Closed(late: bool) | Told | Ended

  /**
   * One execution. `result`, `endedAt`, `handedOff` and `dropped` are the guarded fields, `exit` is the goroutine's own
   * copy of the outcome, `reports` the outcomes that went to the late callback.
   */
  datatype Exec = Exec(startedAt: int, hasCallback: bool, call: Call, work: Work, exit: Option<Outcome>,
                       result: Option<Outcome>, endedAt: int, handedOff: bool, dropped: bool, reports: seq<Outcome>)

  function NewExec(now: int, hasCallback: bool): Exec {
    Exec(now, hasCallback, Registered, Unborn, None, None, 0, false, false, [])
  }

  /** A prune in progress: reading every listed execution in any order, or walking the finished ones newest first. */
  datatype Prune =
    | Scan(at: int, todo: set<Id>, finished: seq<Id>)
    | Sweep(at: int, list: seq<Id>, i: nat, withOutput: nat, dropping: bool)

  /** Who holds the registry lock: nobody, or a launch (or a lookup, without an id) that prunes. */
  datatype Lock = Free | Held(launching: Option<Id>, prune: Prune)

  datatype State = State(now: int, execs: map<Id, Exec>, listed: set<Id>, running: set<Id>, lock: Lock)

  datatype Action =
    | Tick(time: int)
    | Register(id: Id, hasCallback: bool)
    | Acquire(launching: Option<Id>)
    | Look(id: Id)
    | Sort(list: seq<Id>)
    | Step
    | Release
    | Spawn(id: Id)
    | Finish(id: Id, outcome: Outcome)
    | Close(id: Id)
    | Report(id: Id)
    | Unregister(id: Id)
    | Claim(id: Id)

  function Init(now: int): State { State(now, map[], {}, {}, Free) }

  /** `list` is `finished`, newest start first. */
  predicate SortedBy(execs: map<Id, Exec>, list: seq<Id>) {
    && (forall k :: 0 <= k < |list| ==> list[k] in execs)
    && (forall k, l :: 0 <= k < l < |list| ==> execs[list[k]].startedAt >= execs[list[l]].startedAt)
  }

  predicate Enabled(s: State, a: Action) {
    match a
    case Tick(t) => t >= s.now
    case Register(id, _) => id !in s.execs
    case Acquire(l) => s.lock.Free? && (l.Some? ==> l.value in s.execs && s.execs[l.value].call.Registered?)
    case Look(id) => s.lock.Held? && s.lock.prune.Scan? && id in s.lock.prune.todo && id in s.execs
    case Sort(list) =>
      && s.lock.Held? && s.lock.prune.Scan? && s.lock.prune.todo == {}
      && multiset(list) == multiset(s.lock.prune.finished) && SortedBy(s.execs, list)
    case Step =>
      && s.lock.Held? && s.lock.prune.Sweep? && s.lock.prune.i < |s.lock.prune.list|
      && s.lock.prune.list[s.lock.prune.i] in s.execs
    case Release =>
      && s.lock.Held? && s.lock.prune.Sweep? && s.lock.prune.i >= |s.lock.prune.list|
      && (s.lock.launching.Some? ==> s.lock.launching.value in s.execs)
    case Spawn(id) => id in s.execs && s.execs[id].call.Inserted?
    case Finish(id, _) => id in s.execs && s.execs[id].work.Working?
    case Close(id) => id in s.execs && s.execs[id].work.Finished?
    case Report(id) => id in s.execs && s.execs[id].work.Closed?
    case Unregister(id) => id in s.execs && s.execs[id].work.Told?
    case Claim(id) => id in s.execs && s.execs[id].call.Waiting?
  }

  /** The outcome is stored and the hand-off flag read in one lock region. */
  function FinishExec(e: Exec, r: Outcome, now: int): Exec {
    e.(exit := Some(r), result := Some(r), endedAt := now, work := Finished(e.handedOff))
  }

  /** The late callback runs only for a handed-off execution that has one. */
  function ReportExec(e: Exec): Exec
    requires e.work.Closed?
  {
    e.(work := Told,
       reports := if e.work.late && e.hasCallback && e.exit.Some? then e.reports + [e.exit.value] else e.reports)
  }

  /** The launching call's last word: the result, or the hand-off. */
  function ClaimExec(e: Exec): Exec {
    e.(call := Claimed(e.result), handedOff := e.handedOff || e.result.None?)
  }

  function DropExec(e: Exec): Exec {
    if e.result.None? || e.dropped then e else e.(result := Some(Stripped(e.result.value)), dropped := true)
  }

  function LookAt(s: State, id: Id): State
    requires Enabled(s, Look(id))
  {
    var p, e := s.lock.prune, s.execs[id];
    if e.result.None? then s.(lock := s.lock.(prune := p.(todo := p.todo - {id})))
    else if p.at - e.endedAt > RETENTION then
      s.(listed := s.listed - {id}, lock := s.lock.(prune := p.(todo := p.todo - {id})))
    else s.(lock := s.lock.(prune := p.(todo := p.todo - {id}, finished := p.finished + [id])))
  }

  function SweepStep(s: State): State
    requires Enabled(s, Step)
  {
    var p := s.lock.prune;
    var id, next := p.list[p.i], s.lock.(prune := p.(i := p.i + 1, dropping := false));
    if p.dropping then s.(execs := s.execs[id := DropExec(s.execs[id])], lock := next)
    else if p.i >= MAX_EXECS then s.(listed := s.listed - {id}, lock := next)
    else if s.execs[id].dropped then s.(lock := next)
    else if p.withOutput + 1 > MAX_OUTPUTS then
      s.(lock := s.lock.(prune := p.(withOutput := p.withOutput + 1, dropping := true)))
    else s.(lock := next.(prune := next.prune.(withOutput := p.withOutput + 1)))
  }

  function Do(s: State, a: Action): State
    requires Enabled(s, a)
  {
    match a
    case Tick(t) => s.(now := t)
    case Register(id, cb) => s.(execs := s.execs[id := NewExec(s.now, cb)], running := s.running + {id})
    case Acquire(l) =>
      s.(lock := Held(l, Scan(s.now, s.listed, [])),
         execs := if l.Some? then s.execs[l.value := s.execs[l.value].(call := Inserting)] else s.execs)
    case Look(id) => LookAt(s, id)
    case Sort(list) => s.(lock := s.lock.(prune := Sweep(s.lock.prune.at, list, 0, 0, false)))
    case Step => SweepStep(s)
    case Release =>
      if s.lock.launching.None? then s.(lock := Free)
      else
        var id := s.lock.launching.value;
        s.(lock := Free, listed := s.listed + {id}, execs := s.execs[id := s.execs[id].(call := Inserted)])
    case Spawn(id) => s.(execs := s.execs[id := s.execs[id].(call := Waiting, work := Working)])
    case Finish(id, r) => s.(execs := s.execs[id := FinishExec(s.execs[id], r, s.now)])
    case Close(id) => s.(execs := s.execs[id := s.execs[id].(work := Closed(s.execs[id].work.late))])
    case Report(id) => s.(execs := s.execs[id := ReportExec(s.execs[id])])
    case Unregister(id) => s.(execs := s.execs[id := s.execs[id].(work := Ended)], running := s.running - {id})
    case Claim(id) => s.(execs := s.execs[id := ClaimExec(s.execs[id])])
  }

  /** The guarded fields of an execution, and the lock regions that change them. */
  class Execution {
    var result: Option<Outcome>
    var endedAt: int
    var handedOff: bool
    var dropped: bool
    ghost var exec: Exec  // the execution in the step system

    ghost predicate Valid()
      reads this
    {
      && exec.result == result && exec.handedOff == handedOff && exec.dropped == dropped
      && exec.endedAt == endedAt
    }

    constructor (now: int, hasCallback: bool)
      ensures Valid() && exec == NewExec(now, hasCallback)
    {
      result, endedAt, handedOff, dropped, exec := None, 0, false, false, NewExec(now, hasCallback);
    }

    /** The goroutine stores the outcome and learns whether a report is its job. */
    method Finish(r: Outcome, now: int) returns (late: bool)
      requires Valid()
      modifies this
      ensures Valid() && exec == FinishExec(old(exec), r, now) && late == exec.work.late
    {
      result, endedAt := Some(r), now;
      late := handedOff;
      exec := FinishExec(exec, r, now);
    }

    method Claim() returns (r: Option<Outcome>)
      requires Valid()
      modifies this
      ensures Valid() && exec == ClaimExec(old(exec)) && exec.call == Claimed(r)
    {
      if result.None? {
        handedOff := true;
      }
      r, exec := result, ClaimExec(exec);
    }

    method DropOutput()
      requires Valid()
      modifies this
      ensures Valid() && exec == DropExec(old(exec))
    {
      exec := DropExec(exec);
      if result.None? || dropped {
        return;
      }
      result, dropped := Some(Stripped(result.value)), true;
    }
  }

  /** Some interleaving `acts` leads from `s` to `s'`. */
  ghost predicate Runs(s: State, acts: seq<Action>, s': State)
    decreases |acts|
  {
    if acts == [] then s == s' else Enabled(s, acts[0]) && Runs(Do(s, acts[0]), acts[1..], s')
  }

  // ----- the invariant -----

  ghost predicate Over(w: Work) { w.Finished? || w.Closed? || w.Told? || w.Ended? }

  /** One execution, at any moment. */
  ghost predicate ExecOk(e: Exec, now: int) {
    && (e.exit.Some? <==> Over(e.work)) && (e.result.Some? <==> Over(e.work))
    && (e.result.Some? ==> e.result.value == if e.dropped then Stripped(e.exit.value) else e.exit.value)
    && (e.dropped ==> e.result.Some?)
    && (e.result.Some? ==> e.endedAt <= now)
    && (e.handedOff <==> e.call == Claimed(None))
    && (e.call.Claimed? && e.call.result.Some? ==>
          e.exit.Some?
            && (e.call.result.value == e.exit.value || (e.dropped && e.call.result.value == Stripped(e.exit.value))))
    && (e.work.Finished? || e.work.Closed? ==> e.work.late == e.handedOff)
    && e.reports == (if (e.work.Told? || e.work.Ended?) && e.handedOff && e.hasCallback then [e.exit.value] else [])
    && (e.work.Unborn? <==> e.call.Registered? || e.call.Inserting? || e.call.Inserted?)
  }

  ghost predicate Unlisted(c: Call) { c.Registered? || c.Inserting? }

  ghost predicate RegistryOk(s: State) {
    && (forall id :: id in s.execs ==> ExecOk(s.execs[id], s.now))
    && (forall id :: id in s.execs ==> (id in s.running <==> !s.execs[id].work.Ended?))
    && (forall id :: id in s.running ==> id in s.execs)
    && (forall id :: id in s.listed ==> id in s.execs && !Unlisted(s.execs[id].call))
    && (forall id :: id in s.execs && !Unlisted(s.execs[id].call) && s.execs[id].result.None? ==> id in s.listed)
  }

  /** A finished execution that is recent enough for the prune at `at`. */
  ghost predicate Recent(s: State, at: int, id: Id) {
    id in s.execs && s.execs[id].result.Some? && at - s.execs[id].endedAt <= RETENTION
  }

  /** Listed, and finished before the prune began. */
  ghost predicate Before(s: State, at: int, id: Id) {
    id in s.listed && id in s.execs && s.execs[id].result.Some? && s.execs[id].endedAt < at
  }

  ghost predicate ScanOk(s: State, at: int, todo: set<Id>, finished: seq<Id>) {
    && at <= s.now && todo <= s.listed && Distinct(finished)
    && (forall k :: 0 <= k < |finished| ==>
         Recent(s, at, finished[k]) && finished[k] in s.listed && finished[k] !in todo)
    && (forall id :: Before(s, at, id) ==> id in todo || id in finished)
  }

  /** How many of the first `n` executions of `list` still hold their output. */
  function Holding(execs: map<Id, Exec>, list: seq<Id>, n: nat): nat
    requires n <= |list| && forall k :: 0 <= k < |list| ==> list[k] in execs
  {
    if n == 0 then 0 else Holding(execs, list, n - 1) + (if execs[list[n - 1]].dropped then 0 else 1)
  }

  ghost predicate SweepOk(s: State, p: Prune)
    requires p.Sweep?
  {
    && p.at <= s.now && Distinct(p.list) && SortedBy(s.execs, p.list) && p.i <= |p.list|
    && (forall k :: 0 <= k < |p.list| ==> Recent(s, p.at, p.list[k]))
    && (forall k :: 0 <= k < |p.list| ==> (p.list[k] in s.listed <==> k < MAX_EXECS || k >= p.i))
    && (forall id :: Before(s, p.at, id) ==> id in p.list)
    && Holding(s.execs, p.list, Min(p.i, MAX_EXECS)) ==
         Min(if p.dropping then p.withOutput - 1 else p.withOutput, MAX_OUTPUTS)
    && (p.dropping ==> p.i < |p.list| && p.i < MAX_EXECS && p.withOutput > MAX_OUTPUTS && !s.execs[p.list[p.i]].dropped)
  }

  ghost predicate LockOk(s: State) {
    s.lock.Held? ==>
      && (s.lock.launching.Some? ==>
           s.lock.launching.value in s.execs && s.execs[s.lock.launching.value].call.Inserting?)
      && match s.lock.prune
         case Scan(at, todo, finished) => ScanOk(s, at, todo, finished)
         case Sweep(_, _, _, _, _) => SweepOk(s, s.lock.prune)
  }

  ghost predicate Inv(s: State) { RegistryOk(s) && LockOk(s) }

  // ----- every action keeps the invariant -----

  /** What an action without the registry lock leaves alone, and what it may add. */
  ghost predicate Calm(s: State, s': State) {
    && s'.listed == s.listed && s'.lock == s.lock && s.now <= s'.now
    && (forall id :: id in s.execs ==> id in s'.execs && CalmExec(s.execs[id], s'.execs[id], s.now))
    && (forall id :: id in s.listed ==> id in s.execs)
  }

  ghost predicate CalmExec(e: Exec, e': Exec, now: int) {
    && e'.startedAt == e.startedAt && e'.dropped == e.dropped
    && (e.result.Some? ==> e'.result.Some? && e'.endedAt == e.endedAt)
    && (e.result.None? && e'.result.Some? ==> e'.endedAt >= now)
    && (e.call.Inserting? ==> e'.call.Inserting?)
  }

  lemma {:induction false} HoldingFrame(execs: map<Id, Exec>, execs': map<Id, Exec>, list: seq<Id>, n: nat)
    requires n <= |list| && forall k :: 0 <= k < |list| ==> list[k] in execs && list[k] in execs'
    requires forall k :: 0 <= k < n ==> execs'[list[k]].dropped == execs[list[k]].dropped
    ensures Holding(execs', list, n) == Holding(execs, list, n)
  {
    if n > 0 {
      HoldingFrame(execs, execs', list, n - 1);
    }
  }

  lemma CalmKeepsLock(s: State, s': State)
    requires LockOk(s) && Calm(s, s')
    ensures LockOk(s')
  {
    if s.lock.Held? {
      var p := s.lock.prune;
      forall id | Before(s', p.at, id) ensures p.at <= s.now ==> Before(s, p.at, id) {
        assert CalmExec(s.execs[id], s'.execs[id], s.now);
      }
      match p {
        case Scan(at, todo, finished) =>
          assert ScanOk(s, at, todo, finished);
          forall k | 0 <= k < |finished| ensures Recent(s', at, finished[k]) {
            assert Recent(s, at, finished[k]);
          }
        case Sweep(_, _, _, _, _) => CalmKeepsSweep(s, s', p);
      }
    }
  }

  lemma CalmKeepsSweep(s: State, s': State, p: Prune)
    requires p.Sweep? && SweepOk(s, p) && Calm(s, s')
    requires forall id :: Before(s', p.at, id) ==> Before(s, p.at, id)
    ensures SweepOk(s', p)
  {
    forall k | 0 <= k < |p.list| ensures Recent(s', p.at, p.list[k]) {
      assert Recent(s, p.at, p.list[k]);
    }
    HoldingFrame(s.execs, s'.execs, p.list, Min(p.i, MAX_EXECS));
  }

  /** The actions that touch one execution and take no registry lock. */
  ghost predicate Local(a: Action) {
    a.Spawn? || a.Finish? || a.Close? || a.Report? || a.Unregister? || a.Claim?
  }

  lemma LocalKeepsExec(s: State, a: Action)
    requires Local(a) && Enabled(s, a) && ExecOk(s.execs[a.id], s.now)
    ensures var e, e' := s.execs[a.id], Do(s, a).execs[a.id];
            && ExecOk(e', s.now) && CalmExec(e, e', s.now)
            && (Unlisted(e'.call) <==> Unlisted(e.call)) && (e'.result.None? ==> e.result.None?)
            && (e'.work.Ended? <==> a.Unregister? || e.work.Ended?)
  {
  }

  /** Only execution `id` changes. */
  ghost predicate OnlyAt(s: State, s': State, id: Id) {
    && id in s.execs && s'.execs.Keys == s.execs.Keys && s'.now == s.now && s'.listed == s.listed
    && (forall x :: x in s.execs && x != id ==> s'.execs[x] == s.execs[x])
  }

  lemma OneKeepsRegistry(s: State, s': State, id: Id)
    requires RegistryOk(s) && OnlyAt(s, s', id) && ExecOk(s'.execs[id], s.now)
    requires s'.running == if s'.execs[id].work.Ended? then s.running - {id} else s.running
    requires s.execs[id].work.Ended? ==> s'.execs[id].work.Ended?
    requires Unlisted(s'.execs[id].call) <==> Unlisted(s.execs[id].call)
    requires s'.execs[id].result.None? ==> s.execs[id].result.None?
    ensures RegistryOk(s')
  {
    hide ExecOk;
  }

  lemma OneIsCalm(s: State, s': State, id: Id)
    requires RegistryOk(s) && OnlyAt(s, s', id) && s'.lock == s.lock && CalmExec(s.execs[id], s'.execs[id], s.now)
    ensures Calm(s, s')
  {
    hide ExecOk;
    assert forall x :: x in s.execs ==> x in s'.execs.Keys;
  }

  lemma LocalKeeps(s: State, a: Action)
    requires Inv(s) && Local(a) && Enabled(s, a)
    ensures Inv(Do(s, a))
  {
    var s' := Do(s, a);
    LocalKeepsExec(s, a);
    LocalShape(s, a);
    assert RegistryOk(s);
    hide ExecOk, Do, LockOk, RegistryOk, Enabled, CalmExec, Calm, OnlyAt;
    OneKeepsRegistry(s, s', a.id);
    OneIsCalm(s, s', a.id);
    CalmKeepsLock(s, s');
  }

  lemma LocalShape(s: State, a: Action)
    requires Local(a) && Enabled(s, a)
    requires s.execs[a.id].work.Ended? ==> a.id !in s.running
    ensures var s' := Do(s, a);
            && OnlyAt(s, s', a.id) && s'.lock == s.lock
            && s'.running == (if s'.execs[a.id].work.Ended? then s.running - {a.id} else s.running)
  {
  }

  /** Taking finished executions off the list. */
  lemma EvictKeepsRegistry(s: State, s': State)
    requires RegistryOk(s) && s'.execs == s.execs && s'.running == s.running && s'.now == s.now && s'.listed <= s.listed
    requires forall id :: id in s.listed && id !in s'.listed ==> id in s.execs && s.execs[id].result.Some?
    ensures RegistryOk(s')
  {
    hide ExecOk;
  }

  lemma TickKeeps(s: State, t: int)
    requires Inv(s) && t >= s.now
    ensures Inv(Do(s, Tick(t)))
  {
    CalmKeepsLock(s, Do(s, Tick(t)));
  }

  lemma RegisterKeeps(s: State, id: Id, cb: bool)
    requires Inv(s) && id !in s.execs
    ensures Inv(Do(s, Register(id, cb)))
  {
    CalmKeepsLock(s, Do(s, Register(id, cb)));
  }

  lemma AcquireKeeps(s: State, l: Option<Id>)
    requires Inv(s) && Enabled(s, Acquire(l))
    ensures Inv(Do(s, Acquire(l)))
  {
  }

  lemma LookKeeps(s: State, id: Id)
    requires Inv(s) && Enabled(s, Look(id))
    ensures Inv(Do(s, Look(id)))
  {
    hide ExecOk;
    var s' := Do(s, Look(id));
    EvictKeepsRegistry(s, s');
    var p, q := s.lock.prune, s'.lock.prune;
    LookKeepsScan(s, s', id, p, q);
  }

  lemma LookKeepsScan(s: State, s': State, id: Id, p: Prune, q: Prune)
    requires p.Scan? && q.Scan? && ScanOk(s, p.at, p.todo, p.finished) && id in p.todo && id in s.execs
    requires q.at == p.at && q.todo == p.todo - {id} && s'.now == s.now && s'.execs == s.execs
    requires || (q.finished == p.finished && s'.listed == s.listed && s.execs[id].result.None?)
             || (q.finished == p.finished && s'.listed == s.listed - {id})
             || (q.finished == p.finished + [id] && s'.listed == s.listed && Recent(s, p.at, id))
    ensures ScanOk(s', q.at, q.todo, q.finished)
  {
    forall x | Before(s', p.at, x) ensures x in q.todo || x in q.finished {
      assert Before(s, p.at, x);
    }
    forall k | 0 <= k < |q.finished|
      ensures Recent(s', p.at, q.finished[k]) && q.finished[k] in s'.listed && q.finished[k] !in q.todo
    {
      if k < |p.finished| {
        assert q.finished[k] == p.finished[k] && Recent(s, p.at, p.finished[k]);
      }
    }
  }

  lemma SortKeeps(s: State, list: seq<Id>)
    requires Inv(s) && Enabled(s, Sort(list))
    ensures Inv(Do(s, Sort(list)))
  {
    hide ExecOk;
    var s', p := Do(s, Sort(list)), s.lock.prune;
    assert ScanOk(s, p.at, p.todo, p.finished);
    SamePlaces(p.finished, list);
    hide ScanOk, SortedBy;
    assert RegistryOk(s');
    hide RegistryOk;
    forall k | 0 <= k < |list| ensures Recent(s', p.at, list[k]) && list[k] in s.listed {
      assert list[k] in p.finished;
    }
    forall id | Before(s', p.at, id) ensures id in list {
      assert Before(s, p.at, id);
    }
  }

  lemma ReleaseKeeps(s: State)
    requires Inv(s) && Enabled(s, Release)
    ensures Inv(Do(s, Release))
  {
  }

  lemma StepKeepsList(s: State, s': State, p: Prune)
    requires p.Sweep? && SweepOk(s, p) && s'.now == s.now && s'.listed <= s.listed && s'.execs.Keys == s.execs.Keys
    requires forall id :: id in s.execs ==>
               && s'.execs[id].startedAt == s.execs[id].startedAt && s'.execs[id].endedAt == s.execs[id].endedAt
               && (s'.execs[id].result.Some? <==> s.execs[id].result.Some?)
    ensures Distinct(p.list) && SortedBy(s'.execs, p.list)
    ensures forall k :: 0 <= k < |p.list| ==> Recent(s', p.at, p.list[k])
    ensures forall id :: Before(s', p.at, id) ==> id in p.list
  {
    assert forall id :: id in s'.execs <==> id in s'.execs.Keys;
    assert forall id :: id in s.execs <==> id in s.execs.Keys;
    forall id | Before(s', p.at, id) ensures id in p.list {
      assert Before(s, p.at, id);
    }
    forall k | 0 <= k < |p.list| ensures Recent(s', p.at, p.list[k]) {
      assert Recent(s, p.at, p.list[k]);
    }
  }

  /** Only the listing and the place of the sweep change. */
  lemma PassKeeps(s: State)
    requires Inv(s) && Enabled(s, Step) && !s.lock.prune.dropping
    ensures Inv(Do(s, Step))
  {
    hide ExecOk;
    var s', p := Do(s, Step), s.lock.prune;
    assert SweepOk(s, p);
    assert Recent(s, p.at, p.list[p.i]);
    EvictKeepsRegistry(s, s');
    hide RegistryOk;
    StepKeepsList(s, s', p);
    PassKeepsSweep(s);
  }

  lemma PassKeepsSweep(s: State)
    requires LockOk(s) && Enabled(s, Step) && !s.lock.prune.dropping
    requires var s', p := Do(s, Step), s.lock.prune;
             && SortedBy(s'.execs, p.list)
             && (forall k :: 0 <= k < |p.list| ==> Recent(s', p.at, p.list[k]))
             && (forall id :: Before(s', p.at, id) ==> id in p.list)
    ensures LockOk(Do(s, Step))
  {
    hide SortedBy, Recent, Before;
    assert SweepOk(s, s.lock.prune);
  }

  lemma DropKeeps(s: State)
    requires Inv(s) && Enabled(s, Step) && s.lock.prune.dropping
    ensures Inv(Do(s, Step))
  {
    var s', p := Do(s, Step), s.lock.prune;
    assert SweepOk(s, p);
    var id := p.list[p.i];
    assert Recent(s, p.at, id);
    assert ExecOk(s'.execs[id], s.now);
    hide ExecOk;
    OneKeepsRegistry(s, s', id);
    hide RegistryOk;
    StepKeepsList(s, s', p);
    HoldingFrame(s.execs, s'.execs, p.list, p.i);
    DropKeepsSweep(s);
  }

  lemma DropKeepsSweep(s: State)
    requires LockOk(s) && Enabled(s, Step) && s.lock.prune.dropping
    requires s.execs[s.lock.prune.list[s.lock.prune.i]].result.Some?
    requires var s', p := Do(s, Step), s.lock.prune;
             && SortedBy(s'.execs, p.list)
             && (forall k :: 0 <= k < |p.list| ==> Recent(s', p.at, p.list[k]))
             && (forall id :: Before(s', p.at, id) ==> id in p.list)
             && p.i < |p.list| && Holding(s'.execs, p.list, p.i) == Holding(s.execs, p.list, p.i)
    ensures LockOk(Do(s, Step))
  {
    hide Recent, Before;
    assert SweepOk(s, s.lock.prune);
  }

  /** Every action of every thread keeps the invariant. */
  lemma ActionKeeps(s: State, a: Action)
    requires Inv(s) && Enabled(s, a)
    ensures Inv(Do(s, a))
  {
    hide RegistryOk, LockOk, Do;
    match a
    case Tick(t) => TickKeeps(s, t);
    case Register(id, cb) => RegisterKeeps(s, id, cb);
    case Acquire(l) => AcquireKeeps(s, l);
    case Look(id) => LookKeeps(s, id);
    case Sort(list) => SortKeeps(s, list);
    case Step => if s.lock.prune.dropping { DropKeeps(s); } else { PassKeeps(s); }
    case Release => ReleaseKeeps(s);
    case Spawn(_) => LocalKeeps(s, a);
    case Finish(_, _) => LocalKeeps(s, a);
    case Close(_) => LocalKeeps(s, a);
    case Report(_) => LocalKeeps(s, a);
    case Unregister(_) => LocalKeeps(s, a);
    case Claim(_) => LocalKeeps(s, a);
  }

  /** The invariant holds at every moment of every interleaving. */
  lemma {:induction false} RunKeeps(s: State, acts: seq<Action>, s': State)
    requires Inv(s) && Runs(s, acts, s')
    ensures Inv(s')
    decreases |acts|
  {
    if acts != [] {
      ActionKeeps(s, acts[0]);
      RunKeeps(Do(s, acts[0]), acts[1..], s');
    }
  }

  lemma InitOk(now: int)
    ensures Inv(Init(now))
  {
  }

  // ----- exactly one report -----

  /** How often the outcome of `e` was reported: by the launching call, and by the late callback. */
  function Reports(e: Exec): nat {
    (if e.call.Claimed? && e.call.result.Some? then 1 else 0) + |e.reports|
  }

  /** What both sides of a report must agree on. */
  ghost predicate SameVerdict(x: Outcome, y: Outcome) { StateOf(x) == StateOf(y) && x.exitCode == y.exitCode }

  /**
   * In every interleaving: the outcome is reported at most once, and exactly once when both the call and the goroutine
   * are through, unless the execution was handed off without a callback. A report carries the true state and exit code.
   * The late one carries the true output too; when the call's does, `ClaimedIsWholeIff` says.
   */
  lemma ExactlyOneReport(now: int, acts: seq<Action>, s: State, id: Id)
    requires Runs(Init(now), acts, s) && id in s.execs
    ensures var e := s.execs[id];
            && Reports(e) <= 1
            && (e.call.Claimed? && e.work.Ended? ==> (Reports(e) == 1 <==> !e.handedOff || e.hasCallback))
            && (e.call.Claimed? && e.call.result.Some? ==>
                 e.exit.Some? && SameVerdict(e.call.result.value, e.exit.value))
            && (e.call.Claimed? && e.call.result.Some? && !e.dropped ==> e.call.result == e.exit)
            && (e.reports != [] ==> e.exit.Some? && e.reports == [e.exit.value] && e.call == Claimed(None))
  {
    InitOk(now);
    RunKeeps(Init(now), acts, s);
    assert ExecOk(s.execs[id], s.now);
  }

  /** Once an id has left `running`, the result is there and a late report that was due has been made. */
  lemma DrainedIsReported(now: int, acts: seq<Action>, s: State, id: Id)
    requires Runs(Init(now), acts, s) && id in s.execs && id !in s.running
    ensures var e := s.execs[id];
            && e.result.Some? && e.exit.Some? && SameVerdict(e.result.value, e.exit.value)
            && (e.handedOff && e.hasCallback ==> e.reports == [e.exit.value])
            && (!e.handedOff ==> e.reports == [] && (e.call.Claimed? ==> e.call.result.Some?))
  {
    InitOk(now);
    RunKeeps(Init(now), acts, s);
    assert ExecOk(s.execs[id], s.now);
  }

  // ----- what never changes again -----

  /** How an execution may develop: a result stays, with its state and exit code, and only its output may go. */
  ghost predicate Later(e: Exec, e': Exec) {
    && e'.startedAt == e.startedAt
    && (e.dropped ==> e'.dropped)
    && (e.result.Some? ==> e'.result.Some? && SameVerdict(e'.result.value, e.result.value) && e'.endedAt == e.endedAt)
    && (e.result.Some? && e'.dropped == e.dropped ==> e'.result == e.result)
    && (e.result.Some? && e'.dropped && !e.dropped ==> e'.result.value == Stripped(e.result.value))
    && (e.call.Claimed? ==> e'.call == e.call)
    && (e.exit.Some? ==> e'.exit == e.exit)
    && e.reports <= e'.reports
  }

  lemma LocalIsLater(s: State, a: Action)
    requires Local(a) && Enabled(s, a) && ExecOk(s.execs[a.id], s.now)
    ensures a.id in Do(s, a).execs && Later(s.execs[a.id], Do(s, a).execs[a.id])
  {
  }

  lemma LocalElsewhere(s: State, a: Action, id: Id)
    requires Local(a) && Enabled(s, a) && id in s.execs && id != a.id
    ensures id in Do(s, a).execs && Do(s, a).execs[id] == s.execs[id]
  {
  }

  lemma StepOnlyDrops(s: State, id: Id)
    requires Enabled(s, Step) && id in s.execs
    ensures var s' := Do(s, Step);
            id in s'.execs && (s'.execs[id] == s.execs[id] || s'.execs[id] == DropExec(s.execs[id]))
  {
  }

  lemma DropIsLater(e: Exec)
    ensures Later(e, DropExec(e)) && Later(e, e)
  {
  }

  lemma ActionIsLater(s: State, a: Action, id: Id)
    requires Inv(s) && Enabled(s, a) && id in s.execs
    ensures id in Do(s, a).execs && Later(s.execs[id], Do(s, a).execs[id])
  {
    assert ExecOk(s.execs[id], s.now);
    hide Inv, Do, Later, ExecOk;
    DropIsLater(s.execs[id]);
    if Local(a) {
      if a.id == id {
        LocalIsLater(s, a);
      } else {
        LocalElsewhere(s, a, id);
      }
    } else if a.Step? {
      StepOnlyDrops(s, id);
    } else {
      OthersChangeOnlyCalls(s, a, id);
      CallIsLater(s.execs[id], Do(s, a).execs[id]);
    }
  }

  lemma CallIsLater(e: Exec, e': Exec)
    requires e' == e || (e' == e.(call := e'.call) && !e.call.Claimed?)
    ensures Later(e, e')
  {
  }

  lemma OthersChangeOnlyCalls(s: State, a: Action, id: Id)
    requires Inv(s) && Enabled(s, a) && id in s.execs && !Local(a) && !a.Step?
    ensures id in Do(s, a).execs
    ensures var e, e' := s.execs[id], Do(s, a).execs[id];
            e' == e || (e' == e.(call := e'.call) && !e.call.Claimed?)
  {
    hide RegistryOk, ExecOk, ScanOk, SweepOk;
  }

  lemma {:induction false} RunIsLater(s: State, acts: seq<Action>, s': State, id: Id)
    requires Inv(s) && Runs(s, acts, s') && id in s.execs
    ensures id in s'.execs && Later(s.execs[id], s'.execs[id])
    decreases |acts|
  {
    if acts != [] {
      var t := Do(s, acts[0]);
      ActionKeeps(s, acts[0]);
      ActionIsLater(s, acts[0], id);
      hide Inv, Do, Enabled;
      RunIsLater(t, acts[1..], s', id);
      LaterTrans(s.execs[id], t.execs[id], s'.execs[id]);
    }
  }

  lemma LaterTrans(a: Exec, b: Exec, c: Exec)
    requires Later(a, b) && Later(b, c)
    ensures Later(a, c)
  {
  }

  // ----- when the claimed result is whole -----

  /** There was output to lose. */
  predicate HasOutput(r: Outcome) { Stripped(r) != r }

  /**
   * A claim that finds a result gets the command's own outcome exactly if its output was not dropped before, or there
   * was none.
   */
  lemma ClaimIsWhole(s: State, id: Id)
    requires Inv(s) && Enabled(s, Claim(id)) && s.execs[id].result.Some?
    ensures var e, e' := s.execs[id], Do(s, Claim(id)).execs[id];
            && e.exit.Some? && e'.exit == e.exit && e'.call.Claimed?
            && (e'.call.result == e.exit <==> !e.dropped || !HasOutput(e.exit.value))
  {
    assert ExecOk(s.execs[id], s.now);
  }

  /** The claim of `id`: the `k`-th action of the run `acts` from `s0`, taken in state `t`. */
  ghost predicate ClaimedAt(s0: State, acts: seq<Action>, k: nat, t: State, id: Id) {
    k < |acts| && acts[k] == Claim(id) && Runs(s0, acts[..k], t) && Enabled(t, Claim(id))
  }

  /** A claimed execution was claimed by some action of its run. */
  lemma {:induction false} ClaimMoment(s0: State, acts: seq<Action>, s: State, id: Id) returns (k: nat, t: State)
    requires Inv(s0) && Runs(s0, acts, s) && id in s.execs && s.execs[id].call.Claimed?
    requires id in s0.execs ==> !s0.execs[id].call.Claimed?
    ensures ClaimedAt(s0, acts, k, t, id) && Inv(t) && Runs(Do(t, Claim(id)), acts[k + 1..], s)
    decreases |acts|
  {
    var s1 := Do(s0, acts[0]);
    ActionKeeps(s0, acts[0]);
    if id in s1.execs && s1.execs[id].call.Claimed? {
      ClaimsOnlyByClaim(s0, acts[0], id);
      k, t := 0, s0;
      assert acts[..0] == [];
    } else {
      hide Inv, Do, Enabled;
      k, t := ClaimMoment(s1, acts[1..], s, id);
      assert acts[..k + 1][1..] == acts[1..][..k] && acts[..k + 1] != [];
      assert acts[k + 2..] == acts[1..][k + 1..];
      k := k + 1;
    }
  }

  lemma ClaimsOnlyByClaim(s: State, a: Action, id: Id)
    requires Inv(s) && Enabled(s, a) && id in Do(s, a).execs && Do(s, a).execs[id].call.Claimed?
    requires id in s.execs ==> !s.execs[id].call.Claimed?
    ensures a == Claim(id)
  {
    hide Inv;
  }

  /**
   * In every interleaving, a call that got a result got the command's own outcome exactly if no prune had dropped the
   * output by the time of its claim, or there was none; a later drop changes nothing.
   */
  lemma ClaimedIsWholeIff(now: int, acts: seq<Action>, s: State, id: Id) returns (k: nat, t: State)
    requires Runs(Init(now), acts, s) && id in s.execs && s.execs[id].call.Claimed? && s.execs[id].call.result.Some?
    ensures ClaimedAt(Init(now), acts, k, t, id) && s.execs[id].exit.Some?
    ensures s.execs[id].call.result == s.execs[id].exit <==> !t.execs[id].dropped || !HasOutput(s.execs[id].exit.value)
  {
    InitOk(now);
    k, t := ClaimMoment(Init(now), acts, s, id);
    var u := Do(t, Claim(id));
    ActionKeeps(t, Claim(id));
    RunIsLater(u, acts[k + 1..], s, id);
    ClaimIsWhole(t, id);
  }

  // ----- what a prune leaves -----

  lemma {:induction false} HolderSet(execs: map<Id, Exec>, list: seq<Id>, n: nat) returns (holders: set<Id>)
    requires n <= |list| && Distinct(list) && forall k :: 0 <= k < |list| ==> list[k] in execs
    ensures |holders| == Holding(execs, list, n)
    ensures forall id :: id in holders <==> id in list[..n] && !execs[id].dropped
  {
    if n == 0 {
      return {};
    }
    var rest := HolderSet(execs, list, n - 1);
    assert list[..n] == list[..n - 1] + [list[n - 1]];
    assert list[n - 1] !in list[..n - 1];
    holders := if execs[list[n - 1]].dropped then rest else rest + {list[n - 1]};
  }

  /** The prune that holds the lock has walked its whole list. */
  ghost predicate PruneOver(s: State) {
    s.lock.Held? && s.lock.prune.Sweep? && s.lock.prune.i == |s.lock.prune.list|
  }

  /** Whether `newer` are `n` listed finished executions, each started no earlier than `id`. */
  ghost predicate Newer(s: State, newer: set<Id>, n: nat, id: Id) {
    && |newer| == n && newer <= s.listed && id in s.execs && id !in newer
    && (forall x :: x in newer ==>
         x in s.execs && s.execs[x].result.Some? && s.execs[x].startedAt >= s.execs[id].startedAt)
  }

  /** What a prune saw finished and left listed, and what of it holds output. */
  function Kept(s: State, list: seq<Id>): set<Id> { set id | id in list && id in s.listed }

  function KeptOutputs(s: State, list: seq<Id>): set<Id> {
    set id | id in Kept(s, list) && id in s.execs && !s.execs[id].dropped
  }

  /**
   * When a prune is over, of the executions it saw finished at most 200 are still listed and at most 16 of these hold
   * output, and all of them ended within the retention; everything that had ended before the prune began was seen.
   */
  lemma PruneBounds(s: State)
    requires Inv(s) && PruneOver(s)
    ensures var p := s.lock.prune;
            && |Kept(s, p.list)| <= MAX_EXECS && |KeptOutputs(s, p.list)| <= MAX_OUTPUTS
            && (forall id :: id in Kept(s, p.list) ==> Recent(s, p.at, id))
            && (forall id :: Before(s, p.at, id) ==> id in Kept(s, p.list))
  {
    var p := s.lock.prune;
    assert SweepOk(s, p);
    hide RegistryOk;
    var n := Min(|p.list|, MAX_EXECS);
    forall id | id in Kept(s, p.list) ensures id in p.list[..n] && Recent(s, p.at, id) {
      var k :| 0 <= k < |p.list| && p.list[k] == id;
      assert p.list[..n][k] == id;
    }
    hide SweepOk, Recent;
    var ids := SetOfList(p.list, n);
    Fits(Kept(s, p.list), ids);
    var holders := HolderSet(s.execs, p.list, n);
    Fits(KeptOutputs(s, p.list), holders);
  }

  lemma DropsInStep(s: State, a: Action, id: Id)
    requires Enabled(s, a) && id in s.execs && !s.execs[id].dropped && id in Do(s, a).execs
    requires Do(s, a).execs[id].dropped
    ensures a == Step && s.lock.prune.dropping && id == s.lock.prune.list[s.lock.prune.i]
    ensures forall x :: x in s.execs && x != id ==> x in Do(s, a).execs && Do(s, a).execs[x] == s.execs[x]
  {
  }

  /** An output is dropped only while 16 other finished executions, none started earlier, are listed with theirs. */
  lemma DropIsJustified(s: State, a: Action, id: Id) returns (newer: set<Id>)
    requires Inv(s) && Enabled(s, a) && id in s.execs && !s.execs[id].dropped && id in Do(s, a).execs
    requires Do(s, a).execs[id].dropped
    ensures Newer(s, newer, MAX_OUTPUTS, id)
    ensures forall x :: x in newer ==> x in Do(s, a).execs && !s.execs[x].dropped && !Do(s, a).execs[x].dropped
  {
    hide RegistryOk, Do, Before;
    DropsInStep(s, a, id);
    var p := s.lock.prune;
    assert SweepOk(s, p);
    newer := HolderSet(s.execs, p.list, p.i);
    forall x | x in newer
      ensures x in s.listed && x != id && s.execs[x].result.Some? && s.execs[x].startedAt >= s.execs[id].startedAt
    {
      var k :| 0 <= k < p.i && p.list[k] == x;
      assert Recent(s, p.at, p.list[k]);
    }
  }

  /**
   * Only a finished execution leaves the list: one past its retention, or with 200 others listed, none started
   * earlier.
   */
  lemma EvictionIsJustified(s: State, a: Action, id: Id) returns (newer: set<Id>)
    requires Inv(s) && Enabled(s, a) && id in s.listed && id !in Do(s, a).listed
    ensures s.lock.Held? && s.execs[id].result.Some?
    ensures s.lock.prune.at - s.execs[id].endedAt > RETENTION || Newer(s, newer, MAX_EXECS, id)
  {
    newer := {};
    if a == Step {
      var p := s.lock.prune;
      assert SweepOk(s, p);
      assert id == p.list[p.i] && Recent(s, p.at, id);
      hide RegistryOk;
      newer := SetOfList(p.list, MAX_EXECS);
      forall x | x in newer
        ensures x in s.listed && x != id && s.execs[x].result.Some? && s.execs[x].startedAt >= s.execs[id].startedAt
      {
        var k :| 0 <= k < MAX_EXECS && p.list[k] == x;
        assert Recent(s, p.at, p.list[k]);
      }
    }
  }

  /** A launched execution that has no result yet can always be looked up and cancelled. */
  lemma RunningStaysListed(now: int, acts: seq<Action>, s: State, id: Id)
    requires Runs(Init(now), acts, s) && id in s.execs && s.execs[id].result.None?
    ensures id in s.running && (!Unlisted(s.execs[id].call) ==> id in s.listed)
  {
    InitOk(now);
    RunKeeps(Init(now), acts, s);
    assert ExecOk(s.execs[id], s.now);
  }

  // ----- the prune as the loop the registry runs -----

  lemma {:induction false} RunsSnoc(s: State, acts: seq<Action>, t: State, a: Action)
    requires Runs(s, acts, t) && Enabled(t, a)
    ensures Runs(s, acts + [a], Do(t, a))
    decreases |acts|
  {
    hide Enabled, Do;
    if acts == [] {
      assert Runs(Do(t, a), [], Do(t, a));
      assert [a][1..] == [];
    } else {
      RunsSnoc(Do(s, acts[0]), acts[1..], t, a);
      assert (acts + [a])[1..] == acts[1..] + [a];
    }
  }

  /** `id` put into `list` before the first execution that started earlier. */
  function Place(execs: map<Id, Exec>, list: seq<Id>, id: Id): (r: seq<Id>)
    requires SortedBy(execs, list) && id in execs
    ensures multiset(r) == multiset(list) + multiset{id} && SortedBy(execs, r)
  {
    if list == [] || execs[list[|list| - 1]].startedAt >= execs[id].startedAt then list + [id]
    else
      var n := |list| - 1;
      var front := Place(execs, list[..n], id);
      PlaceSorted(execs, list, id, front);
      front + [list[n]]
  }

  lemma PlaceSorted(execs: map<Id, Exec>, list: seq<Id>, id: Id, front: seq<Id>)
    requires SortedBy(execs, list) && id in execs && list != [] && SortedBy(execs, front)
    requires var last := list[|list| - 1];
             execs[last].startedAt < execs[id].startedAt
               && multiset(front) == multiset(list[..|list| - 1]) + multiset{id}
    ensures multiset(front + [list[|list| - 1]]) == multiset(list) + multiset{id}
    ensures SortedBy(execs, front + [list[|list| - 1]])
  {
    var n := |list| - 1;
    assert list == list[..n] + [list[n]];
    forall k | 0 <= k < |front| ensures execs[front[k]].startedAt >= execs[list[n]].startedAt {
      assert front[k] in multiset(front);
      assert front[k] in list[..n] || front[k] == id;
    }
  }

  method SortNewest(execs: map<Id, Exec>, ids: seq<Id>) returns (list: seq<Id>)
    requires forall k :: 0 <= k < |ids| ==> ids[k] in execs
    ensures multiset(list) == multiset(ids) && SortedBy(execs, list)
  {
    list := [];
    for n := 0 to |ids|
      invariant multiset(list) == multiset(ids[..n]) && SortedBy(execs, list)
    {
      assert ids[..n + 1] == ids[..n] + [ids[n]];
      list := Place(execs, list, ids[n]);
    }
    assert ids[..|ids|] == ids;
  }

  function FinishedListed(s: State): set<Id> { set id | id in s.listed && id in s.execs && s.execs[id].result.Some? }

  function Outputs(s: State): set<Id> { set id | id in FinishedListed(s) && !s.execs[id].dropped }

  /** `id` is one of the executions the prune has yet to read or has seen finished. */
  predicate InBooks(p: Prune, id: Id) {
    match p
    case Scan(_, todo, finished) => id in todo || id in finished
    case Sweep(_, list, _, _, _) => id in list
  }

  ghost predicate AllSeen(s: State) {
    s.lock.Held? && forall id :: id in FinishedListed(s) ==> InBooks(s.lock.prune, id)
  }

  /** Since `s0` nothing has finished, and only finished executions have left the list. */
  ghost predicate OnlyFinishedGone(s0: State, s: State) {
    && s.listed <= s0.listed && s.execs.Keys == s0.execs.Keys
    && (forall id :: id in s0.execs ==> (s.execs[id].result.Some? <==> s0.execs[id].result.Some?))
    && (forall id :: id in s0.listed && id in s0.execs && s0.execs[id].result.None? ==> id in s.listed)
  }

  /** Execution `id` right after the prune for `l` began. */
  function AtAcquire(s0: State, l: Option<Id>, id: Id): Exec
    requires id in s0.execs
  {
    if l == Some(id) then s0.execs[id].(call := Inserting) else s0.execs[id]
  }

  /** Since the prune for `l` began at `s0`, outputs were dropped and nothing else happened to any execution. */
  ghost predicate OnlyDrops(s0: State, l: Option<Id>, s: State) {
    && s.now == s0.now && s.running == s0.running && s.execs.Keys == s0.execs.Keys
    && (forall id :: id in s0.execs ==>
         s.execs[id] == AtAcquire(s0, l, id) || s.execs[id] == DropExec(AtAcquire(s0, l, id)))
  }

  /** What was forgotten was past its retention, or too many finished executions were found. */
  ghost predicate GoneForCause(s0: State, s: State) {
    forall id :: id in s0.listed && id !in s.listed ==>
      && id in s0.execs && s0.execs[id].result.Some?
      && (s0.now - s0.execs[id].endedAt > RETENTION
           || (s.lock.Held? && s.lock.prune.Sweep? && |s.lock.prune.list| > MAX_EXECS))
  }

  lemma AcquireCause(s0: State, l: Option<Id>)
    requires Enabled(s0, Acquire(l))
    ensures OnlyDrops(s0, l, Do(s0, Acquire(l))) && GoneForCause(s0, Do(s0, Acquire(l)))
  {
    var s := Do(s0, Acquire(l));
    assert l.Some? ==> l.value in s0.execs.Keys;
  }

  lemma LookCause(s0: State, l: Option<Id>, s: State, id: Id)
    requires Enabled(s, Look(id)) && s.lock.prune.at == s0.now && OnlyDrops(s0, l, s) && GoneForCause(s0, s)
    ensures OnlyDrops(s0, l, Do(s, Look(id))) && GoneForCause(s0, Do(s, Look(id)))
  {
    assert id in s.execs.Keys;
    assert s.execs[id] == AtAcquire(s0, l, id) || s.execs[id] == DropExec(AtAcquire(s0, l, id));
  }

  lemma SortCause(s0: State, l: Option<Id>, s: State, list: seq<Id>)
    requires Enabled(s, Sort(list)) && OnlyDrops(s0, l, s) && GoneForCause(s0, s)
    ensures OnlyDrops(s0, l, Do(s, Sort(list))) && GoneForCause(s0, Do(s, Sort(list)))
  {
  }

  lemma StepCause(s0: State, l: Option<Id>, s: State)
    requires Enabled(s, Step) && s.execs[s.lock.prune.list[s.lock.prune.i]].result.Some?
    requires OnlyDrops(s0, l, s) && GoneForCause(s0, s)
    ensures OnlyDrops(s0, l, Do(s, Step)) && GoneForCause(s0, Do(s, Step))
  {
    var s', id := Do(s, Step), s.lock.prune.list[s.lock.prune.i];
    assert id in s.execs.Keys;
    assert s.execs[id] == AtAcquire(s0, l, id) || s.execs[id] == DropExec(AtAcquire(s0, l, id));
    forall x | x in s0.execs
      ensures s'.execs[x] == AtAcquire(s0, l, x) || s'.execs[x] == DropExec(AtAcquire(s0, l, x))
    {
      assert x in s.execs.Keys;
    }
  }

  method Take(ghost s0: State, ghost acts: seq<Action>, s: State, a: Action)
    returns (s': State, ghost acts': seq<Action>)
    requires Runs(s0, acts, s) && Inv(s) && Enabled(s, a)
    ensures s' == Do(s, a) && Runs(s0, acts', s') && Inv(s')
  {
    hide Inv;
    s', acts' := Do(s, a), acts + [a];
    ActionKeeps(s, a);
    RunsSnoc(s0, acts, s, a);
  }

  lemma AcquireSees(s: State, l: Option<Id>)
    requires Inv(s) && Enabled(s, Acquire(l))
    ensures AllSeen(Do(s, Acquire(l))) && OnlyFinishedGone(s, Do(s, Acquire(l)))
  {
    hide ExecOk;
  }

  lemma LookEnabled(s: State, id: Id)
    requires Inv(s) && s.lock.Held? && s.lock.prune.Scan? && id in s.lock.prune.todo
    ensures Enabled(s, Look(id))
  {
    hide ExecOk;
  }

  lemma LookSees(s0: State, s: State, id: Id)
    requires Enabled(s, Look(id)) && AllSeen(s) && OnlyFinishedGone(s0, s)
    ensures AllSeen(Do(s, Look(id))) && OnlyFinishedGone(s0, Do(s, Look(id)))
  {
    var s' := Do(s, Look(id));
    assert id in s.execs.Keys;
    forall x | x in FinishedListed(s') ensures InBooks(s'.lock.prune, x) {
      assert InBooks(s.lock.prune, x);
    }
  }

  lemma FinishedKnown(s: State)
    requires Inv(s) && s.lock.Held? && s.lock.prune.Scan?
    ensures forall k :: 0 <= k < |s.lock.prune.finished| ==> s.lock.prune.finished[k] in s.execs
  {
    hide RegistryOk;
    var p := s.lock.prune;
    assert ScanOk(s, p.at, p.todo, p.finished);
    assert forall k :: 0 <= k < |p.finished| ==> Recent(s, p.at, p.finished[k]);
  }

  lemma SortSees(s0: State, s: State, list: seq<Id>)
    requires Enabled(s, Sort(list)) && AllSeen(s) && OnlyFinishedGone(s0, s)
    ensures AllSeen(Do(s, Sort(list))) && OnlyFinishedGone(s0, Do(s, Sort(list)))
  {
    var s' := Do(s, Sort(list));
    forall x | x in FinishedListed(s') ensures InBooks(s'.lock.prune, x) {
      assert InBooks(s.lock.prune, x);
      assert x in multiset(s.lock.prune.finished);
    }
  }

  lemma StepEnabled(s: State)
    requires Inv(s) && s.lock.Held? && s.lock.prune.Sweep? && s.lock.prune.i < |s.lock.prune.list|
    ensures Enabled(s, Step) && s.execs[s.lock.prune.list[s.lock.prune.i]].result.Some?
  {
    hide RegistryOk;
    var p := s.lock.prune;
    assert SweepOk(s, p);
    assert Recent(s, p.at, p.list[p.i]);
  }

  lemma StepSees(s0: State, s: State)
    requires Enabled(s, Step) && s.execs[s.lock.prune.list[s.lock.prune.i]].result.Some?
    requires AllSeen(s) && OnlyFinishedGone(s0, s)
    ensures AllSeen(Do(s, Step)) && OnlyFinishedGone(s0, Do(s, Step))
  {
    var s' := Do(s, Step);
    assert s.lock.prune.list[s.lock.prune.i] in s.execs.Keys;
    forall x | x in FinishedListed(s') ensures InBooks(s'.lock.prune, x) {
      assert InBooks(s.lock.prune, x);
    }
  }

  lemma SeenIsAll(s: State)
    requires AllSeen(s) && s.lock.prune.Sweep?
    ensures |FinishedListed(s)| <= |Kept(s, s.lock.prune.list)| && |Outputs(s)| <= |KeptOutputs(s, s.lock.prune.list)|
    ensures FinishedListed(s) <= Kept(s, s.lock.prune.list)
  {
    assert forall id :: id in FinishedListed(s) ==> InBooks(s.lock.prune, id);
    Fits(FinishedListed(s), Kept(s, s.lock.prune.list));
    Fits(Outputs(s), KeptOutputs(s, s.lock.prune.list));
  }

  lemma NoActs(s: State)
    ensures Runs(s, [], s)
  {
  }

  /** A list longer than the limit leaves the list of finished executions full. */
  lemma FullWhenLong(s: State)
    requires Inv(s) && PruneOver(s) && |s.lock.prune.list| > MAX_EXECS
    ensures |FinishedListed(s)| >= MAX_EXECS
  {
    hide RegistryOk;
    var p := s.lock.prune;
    assert SweepOk(s, p);
    var ids := SetOfList(p.list, MAX_EXECS);
    forall x | x in ids ensures x in FinishedListed(s) {
      var k :| 0 <= k < MAX_EXECS && p.list[k] == x;
      assert Recent(s, p.at, p.list[k]);
    }
    Fits(ids, FinishedListed(s));
  }

  lemma SweptAll(s0: State, s: State)
    requires Inv(s) && s.lock.Held? && s.lock.prune.Sweep? && s.lock.prune.i == |s.lock.prune.list|
    requires AllSeen(s) && OnlyFinishedGone(s0, s) && s.lock.prune.at == s0.now && s0.listed <= s0.execs.Keys
    requires GoneForCause(s0, s)
    ensures EvictedForCause(s0, s)
    ensures |FinishedListed(s)| <= MAX_EXECS && |Outputs(s)| <= MAX_OUTPUTS
    ensures forall id :: id in FinishedListed(s) ==> s0.now - s.execs[id].endedAt <= RETENTION
    ensures s.listed <= s0.listed && forall id :: id in s0.listed && s0.execs[id].result.None? ==> id in s.listed
  {
    hide Inv, FinishedListed, Outputs, AllSeen;
    PruneBounds(s);
    assert forall id :: id in Kept(s, s.lock.prune.list) ==> Recent(s, s.lock.prune.at, id);
    SeenIsAll(s);
    if |s.lock.prune.list| > MAX_EXECS {
      FullWhenLong(s);
    }
  }

  /** Only finished executions were forgotten: those past retention, others only if 200 stay. */
  ghost predicate EvictedForCause(s0: State, s: State) {
    forall id :: id in s0.listed && id !in s.listed ==>
      && id in s0.execs && s0.execs[id].result.Some?
      && (s0.now - s0.execs[id].endedAt > RETENTION || |FinishedListed(s)| == MAX_EXECS)
  }

  lemma ListedKnown(s: State)
    requires Inv(s)
    ensures s.listed <= s.execs.Keys
  {
    hide ExecOk;
  }

  /** A run from `s0` that has so far only pruned, as of `s`. */
  ghost predicate Pruning(s0: State, l: Option<Id>, acts: seq<Action>, s: State) {
    && Runs(s0, acts, s) && Inv(s) && s.lock.Held? && s.lock.prune.at == s0.now && s.lock.launching == l
    && AllSeen(s) && OnlyFinishedGone(s0, s) && OnlyDrops(s0, l, s) && GoneForCause(s0, s)
  }

  /** One more prune action. */
  method Prunes(s0: State, l: Option<Id>, ghost acts: seq<Action>, s: State, a: Action)
    returns (s': State, ghost acts': seq<Action>)
    requires Pruning(s0, l, acts, s) && (a.Look? || a.Sort? || a.Step?) && Enabled(s, a)
    ensures s' == Do(s, a) && Pruning(s0, l, acts', s')
  {
    hide Runs, Inv, AllSeen, OnlyFinishedGone, OnlyDrops, GoneForCause;
    s', acts' := Take(s0, acts, s, a);
    match a
    case Look(id) => LookSees(s0, s, id); LookCause(s0, l, s, id);
    case Sort(list) => SortSees(s0, s, list); SortCause(s0, l, s, list);
    case Step => StepEnabled(s); StepSees(s0, s); StepCause(s0, l, s);
  }

  lemma LookShape(s: State, id: Id)
    requires Enabled(s, Look(id))
    ensures var l := Do(s, Look(id)).lock; l.Held? && l.prune.Scan? && l.prune.todo == s.lock.prune.todo - {id}
  {
  }

  lemma StepShape(s: State)
    requires Enabled(s, Step)
    ensures var p, l := s.lock.prune, Do(s, Step).lock;
            && l.Held? && l.prune.Sweep? && l.prune.list == p.list
            && (if l.prune.dropping then !p.dropping && l.prune.i == p.i else l.prune.i == p.i + 1)
  {
  }

  method ScanAll(s0: State, l: Option<Id>, ghost acts0: seq<Action>, s1: State)
    returns (s: State, ghost acts: seq<Action>)
    requires Pruning(s0, l, acts0, s1) && s1.lock.prune.Scan?
    ensures Pruning(s0, l, acts, s) && s.lock.prune.Scan? && s.lock.prune.todo == {}
  {
    hide Runs, Inv, AllSeen, OnlyFinishedGone, OnlyDrops, GoneForCause, Do, Enabled;
    s, acts := s1, acts0;
    while s.lock.prune.todo != {}
      invariant Pruning(s0, l, acts, s) && s.lock.prune.Scan?
      decreases s.lock.prune.todo
    {
      var id :| id in s.lock.prune.todo;
      LookEnabled(s, id);
      LookShape(s, id);
      s, acts := Prunes(s0, l, acts, s, Look(id));
    }
  }

  method SweepAll(s0: State, l: Option<Id>, ghost acts0: seq<Action>, s1: State)
    returns (s: State, ghost acts: seq<Action>)
    requires Pruning(s0, l, acts0, s1) && s1.lock.prune.Sweep?
    ensures Pruning(s0, l, acts, s) && PruneOver(s)
  {
    hide Runs, Inv, AllSeen, OnlyFinishedGone, OnlyDrops, GoneForCause, Do, Enabled;
    s, acts := s1, acts0;
    SweepInRange(s);
    while s.lock.prune.i < |s.lock.prune.list|
      invariant Pruning(s0, l, acts, s) && s.lock.prune.Sweep? && s.lock.prune.i <= |s.lock.prune.list|
      decreases |s.lock.prune.list| - s.lock.prune.i, !s.lock.prune.dropping
    {
      StepEnabled(s);
      StepShape(s);
      s, acts := Prunes(s0, l, acts, s, Step);
    }
  }

  lemma SweepInRange(s: State)
    requires Inv(s) && s.lock.Held? && s.lock.prune.Sweep?
    ensures s.lock.prune.i <= |s.lock.prune.list|
  {
    hide RegistryOk;
  }

  /**
   * A prune that nobody interrupts is a run of the step system, and leaves at most 200 results and 16 outputs in all.
   */
  method PruneLocked(s0: State, l: Option<Id>) returns (s: State, ghost acts: seq<Action>)
    requires Inv(s0) && Enabled(s0, Acquire(l))
    ensures Runs(s0, acts, s) && Inv(s) && PruneOver(s)
    ensures |FinishedListed(s)| <= MAX_EXECS && |Outputs(s)| <= MAX_OUTPUTS
    ensures forall id :: id in FinishedListed(s) ==> s0.now - s.execs[id].endedAt <= RETENTION
    ensures s.listed <= s0.listed && EvictedForCause(s0, s) && OnlyDrops(s0, l, s) && s.lock.launching == l
  {
    hide Inv, Runs, AllSeen, OnlyFinishedGone, OnlyDrops, GoneForCause, EvictedForCause, SortedBy, FinishedListed,
      Outputs;
    ListedKnown(s0);
    NoActs(s0);
    AcquireSees(s0, l);
    AcquireCause(s0, l);
    s, acts := Take(s0, [], s0, Acquire(l));
    s, acts := ScanAll(s0, l, acts, s);
    FinishedKnown(s);
    var list := SortNewest(s.execs, s.lock.prune.finished);
    s, acts := Prunes(s0, l, acts, s, Sort(list));
    s, acts := SweepAll(s0, l, acts, s);
    SweptAll(s0, s);
  }

  // ----- a run that loses the output before the claim -----

  lemma {:induction false} RunsConcat(s: State, acts: seq<Action>, t: State, acts': seq<Action>, u: State)
    requires Runs(s, acts, t) && Runs(t, acts', u)
    ensures Runs(s, acts + acts', u)
    decreases |acts|
  {
    hide Enabled, Do;
    if acts == [] {
      assert [] + acts' == acts';
    } else {
      RunsConcat(Do(s, acts[0]), acts[1..], t, acts', u);
      assert (acts + acts')[1..] == acts[1..] + acts';
    }
  }

  /**
   * Executions 0 to `n - 1` are launched and listed and their calls wait; the first `m` are finished as of now with
   * outcome `r`.
   */
  ghost predicate Busy(s: State, n: nat, m: nat, r: Outcome) {
    && m <= n && s.lock.Free?
    && (forall id: Id :: id in s.execs <==> id < n) && (forall id: Id :: id in s.listed <==> id < n)
    && (forall id :: id in s.execs ==>
          && s.execs[id].call.Waiting? && !s.execs[id].dropped
          && (if id < m then
                s.execs[id].result == Some(r) && s.execs[id].exit == Some(r) && s.execs[id].endedAt == s.now
              else s.execs[id].result.None? && s.execs[id].work.Working?))
  }

  /** The prune of a launch changes nothing while nothing is finished. */
  lemma LaunchPrune(s: State, n: nat, r: Outcome, s1: State, s2: State)
    requires Busy(s, n, 0, r) && s1 == Do(s, Register(n, false))
    requires OnlyDrops(s1, Some(n), s2) && EvictedForCause(s1, s2) && s2.listed <= s1.listed && PruneOver(s2)
    requires s2.lock.launching == Some(n)
    ensures Enabled(s2, Release) && Enabled(Do(s2, Release), Spawn(n))
    ensures Busy(Do(Do(s2, Release), Spawn(n)), n + 1, 0, r)
  {
    LaunchKept(s, n, r, s1, s2);
    hide OnlyDrops, EvictedForCause;
    var s3 := Do(s2, Release);
    assert s3.execs[n].call.Inserted?;
  }

  lemma LaunchKept(s: State, n: nat, r: Outcome, s1: State, s2: State)
    requires Busy(s, n, 0, r) && s1 == Do(s, Register(n, false))
    requires OnlyDrops(s1, Some(n), s2) && EvictedForCause(s1, s2) && s2.listed <= s1.listed
    ensures s2.listed == s.listed && (forall id: Id :: id in s2.execs <==> id < n + 1)
    ensures s2.execs[n] == NewExec(s.now, false).(call := Inserting)
    ensures forall id: Id :: id < n ==> s2.execs[id] == s.execs[id]
  {
    forall id: Id ensures id in s2.execs <==> id < n + 1 {
      assert id in s2.execs.Keys <==> id in s1.execs.Keys;
    }
    forall id: Id | id < n + 1 ensures s2.execs[id] == AtAcquire(s1, Some(n), id) {
      assert id in s1.execs;
    }
    assert forall id :: id in s1.listed ==> id in s2.listed;
  }

  method LaunchOne(ghost s0: State, ghost acts0: seq<Action>, s: State, n: nat, ghost r: Outcome)
    returns (s': State, ghost acts: seq<Action>)
    requires Runs(s0, acts0, s) && Inv(s) && Busy(s, n, 0, r)
    ensures Runs(s0, acts, s') && Inv(s') && Busy(s', n + 1, 0, r)
  {
    hide Inv, Runs;
    var s1, s2;
    ghost var acts1, acts2;
    s1, acts1 := Take(s0, acts0, s, Register(n, false));
    s2, acts2 := PruneLocked(s1, Some(n));
    LaunchPrune(s, n, r, s1, s2);
    RunsConcat(s0, acts1, s1, acts2, s2);
    hide Busy, OnlyDrops, EvictedForCause, Do, Enabled;
    s', acts := Take(s0, acts1 + acts2, s2, Release);
    s', acts := Take(s0, acts, s', Spawn(n));
  }

  lemma FinishOne(s: State, n: nat, m: nat, r: Outcome)
    requires Busy(s, n, m, r) && m < n
    ensures Enabled(s, Finish(m, r)) && Busy(Do(s, Finish(m, r)), n, m + 1, r)
  {
  }

  /** Seventeen finished executions do not all keep their output. */
  lemma SomeDropped(s: State, n: nat, r: Outcome, s': State)
    requires Busy(s, n, n, r) && MAX_OUTPUTS < n < MAX_EXECS
    requires OnlyDrops(s, None, s') && EvictedForCause(s, s') && |Outputs(s')| <= MAX_OUTPUTS
    ensures exists id :: id in s'.execs && s'.execs[id].dropped
  {
    var ids := FirstIds(n);
    assert forall x :: x in s'.execs.Keys <==> x in s.execs.Keys;
    assert |FinishedListed(s')| < MAX_EXECS by {
      Fits(FinishedListed(s'), ids);
    }
    forall x | x in ids ensures x in FinishedListed(s') {
      assert x in s.execs.Keys && x in s'.execs;
    }
    if forall x :: x in ids ==> !s'.execs[x].dropped {
      Fits(ids, Outputs(s'));
      assert false;
    }
  }

  /** A claim after the drop gets the stripped result. */
  lemma ClaimAfterDrop(s: State, n: nat, r: Outcome, s': State, id: Id)
    requires Busy(s, n, n, r) && OnlyDrops(s, None, s') && id in s'.execs && s'.execs[id].dropped
    ensures Enabled(s', Claim(id))
    ensures var e := Do(s', Claim(id)).execs[id]; e.exit == Some(r) && e.call == Claimed(Some(Stripped(r)))
  {
    assert id in s.execs.Keys;
    assert s'.execs[id] == DropExec(s.execs[id]);
  }

  lemma {:induction false} FirstIds(n: nat) returns (ids: set<Id>)
    ensures |ids| == n && forall x: Id :: x in ids <==> x < n
  {
    ids := {};
    if n > 0 {
      var rest := FirstIds(n - 1);
      ids := rest + {n - 1};
    }
  }

  lemma StartsIdle(now: int, r: Outcome)
    ensures Inv(Init(now)) && Busy(Init(now), 0, 0, r) && Runs(Init(now), [], Init(now))
  {
  }

  /**
   * The output can be gone before the launching call claims its result: seventeen commands are launched and finish with
   * output, a lookup prunes, and then a call whose output was dropped claims.
   */
  method OutputLostBeforeClaim(now: int, r: Outcome) returns (s: State, id: Id)
    requires HasOutput(r)
    ensures exists acts :: Runs(Init(now), acts, s)
    ensures id in s.execs && s.execs[id].exit == Some(r) && s.execs[id].call == Claimed(Some(Stripped(r)))
    ensures s.execs[id].call.result != Some(r)
  {
    hide Inv, Runs;
    ghost var s0, acts: seq<Action> := Init(now), [];
    StartsIdle(now, r);
    s := Init(now);
    hide Busy, OnlyDrops, EvictedForCause, Enabled, Do, Outputs, FinishedListed;
    var n := MAX_OUTPUTS + 1;
    for k := 0 to n
      invariant Runs(s0, acts, s) && Inv(s) && Busy(s, k, 0, r)
    {
      s, acts := LaunchOne(s0, acts, s, k, r);
    }
    for k := 0 to n
      invariant Runs(s0, acts, s) && Inv(s) && Busy(s, n, k, r)
    {
      FinishOne(s, n, k, r);
      s, acts := Take(s0, acts, s, Finish(k, r));
    }
    LookupEnabled(s, n, r);
    var s1;
    ghost var acts1;
    s1, acts1 := PruneLocked(s, None);
    RunsConcat(s0, acts, s, acts1, s1);
    SomeDropped(s, n, r, s1);
    id :| id in s1.execs && s1.execs[id].dropped;
    ClaimAfterDrop(s, n, r, s1, id);
    s, acts := Take(s0, acts + acts1, s1, Claim(id));
    StillThere(s1, id);
  }

  lemma StillThere(s: State, id: Id)
    requires Enabled(s, Claim(id))
    ensures id in Do(s, Claim(id)).execs
  {
  }

  lemma LookupEnabled(s: State, n: nat, r: Outcome)
    requires Busy(s, n, n, r)
    ensures Enabled(s, Acquire(None))
  {
  }
}
