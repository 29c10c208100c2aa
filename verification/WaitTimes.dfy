/** The times kept with a watcher, told from the actions of a run alone: its start, its deadline, its end. */
module WaitTimes {
  import opened Listing
  import opened Waits

  /** The time after `acts`. */
  function Clock(now: int, acts: seq<Action>): int
    decreases |acts|
  {
    if acts == [] then now else Clock(if acts[0].Tick? then acts[0].time else now, acts[1..])
  }

  /** The lock was taken for `job` by `acts[j]` and not released before `acts[k]`. */
  predicate Region(acts: seq<Action>, j: nat, k: nat, job: Job) {
    j < k <= |acts| && acts[j] == Acquire(job) && forall i :: j < i < k ==> acts[i] != Release
  }

  /** `acts[k]` ends the lock region, begun at `j`, of a start that registered watcher `id`. */
  ghost predicate Registers(now: int, acts: seq<Action>, j: nat, k: nat, id: Id, timeout: nat) {
    && Region(acts, j, k, Start(id, timeout)) && k < |acts| && acts[k] == Release
    && exists s :: Runs(Init(now), acts[..k], s) && id !in s.waits && Enabled(s, Release) && id in Do(s, Release).waits
  }

  /** How often the condition of watcher `id` was checked. */
  function ProbesOf(acts: seq<Action>, id: Id): nat {
    if acts == [] then 0
    else
      var n := |acts| - 1;
      ProbesOf(acts[..n], id) + if acts[n].Probe? && acts[n].id == id then 1 else 0
  }

  /** Where in a run the lock was taken, the watcher was registered, with which timeout, and its verdict stored. */
  datatype Marks = Marks(taken: nat, asked: nat, started: nat, timeout: nat, stored: nat)

  ghost predicate LockTold(now: int, acts: seq<Action>, s: State, taken: nat) {
    s.lock.Held? ==>
      && Region(acts, taken, |acts|, s.lock.job)
      && (s.lock.phase.Scan? ==> s.lock.phase.at == Clock(now, acts[..taken]))
  }

  ghost predicate WaitTold(now: int, acts: seq<Action>, w: Wait, id: Id, m: Marks) {
    && Registers(now, acts, m.asked, m.started, id, m.timeout)
    && w.startedAt == Clock(now, acts[..m.started]) && w.deadline == w.startedAt + m.timeout
    && (!w.verdict.Unset? ==>
          m.stored < |acts| && acts[m.stored] == Store(id) && w.endedAt == Clock(now, acts[..m.stored]))
  }

  ghost predicate Told(now: int, acts: seq<Action>, s: State, id: Id, m: Marks) {
    && Runs(Init(now), acts, s) && s.now == Clock(now, acts)
    && LockTold(now, acts, s, m.taken) && (id in s.waits ==> WaitTold(now, acts, s.waits[id], id, m))
  }

  lemma {:induction false} ClockMore(now: int, acts: seq<Action>, a: Action)
    ensures Clock(now, acts + [a]) == if a.Tick? then a.time else Clock(now, acts)
    decreases |acts|
  {
    if acts != [] {
      ClockMore(if acts[0].Tick? then acts[0].time else now, acts[1..], a);
      assert (acts + [a])[1..] == acts[1..] + [a];
    }
  }

  lemma {:induction false} RunMore(s: State, acts: seq<Action>, t: State, a: Action)
    requires Runs(s, acts, t) && Enabled(t, a)
    ensures Runs(s, acts + [a], Do(t, a))
    decreases |acts|
  {
    hide Do, Enabled;
    if acts == [] {
      assert ([] + [a])[1..] == [] && Runs(Do(t, a), [], Do(t, a));
    } else {
      RunMore(Do(s, acts[0]), acts[1..], t, a);
      assert (acts + [a])[1..] == acts[1..] + [a];
    }
  }

  lemma RegistersMore(now: int, acts: seq<Action>, j: nat, k: nat, id: Id, timeout: nat, a: Action)
    requires Registers(now, acts, j, k, id, timeout)
    ensures Registers(now, acts + [a], j, k, id, timeout)
  {
    hide Runs, Do, Enabled;
    assert (acts + [a])[..k] == acts[..k];
  }

  lemma WaitToldMore(now: int, acts: seq<Action>, w: Wait, id: Id, m: Marks, a: Action)
    requires WaitTold(now, acts, w, id, m)
    ensures WaitTold(now, acts + [a], w, id, m)
  {
    hide Clock;
    RegistersMore(now, acts, m.asked, m.started, id, m.timeout, a);
    assert (acts + [a])[..m.started] == acts[..m.started];
    assert !w.verdict.Unset? ==> (acts + [a])[..m.stored] == acts[..m.stored];
  }

  lemma LockStep(now: int, acts: seq<Action>, s: State, a: Action, taken: nat) returns (taken': nat)
    requires Enabled(s, a) && LockTold(now, acts, s, taken) && s.now == Clock(now, acts)
    ensures LockTold(now, acts + [a], Do(s, a), taken')
  {
    hide Clock;
    taken' := if a.Acquire? then |acts| else taken;
    assert (acts + [a])[..|acts|] == acts;
    assert s.lock.Held? ==> (acts + [a])[..taken] == acts[..taken];
    LockShape(s, a);
    hide Do, Enabled;
  }

  lemma LockShape(s: State, a: Action)
    requires Enabled(s, a)
    ensures var t := Do(s, a);
            && (a.Acquire? ==> t.lock.Held? && t.lock.job == a.job && (t.lock.phase.Scan? ==> t.lock.phase.at == s.now))
            && (!a.Acquire? && t.lock.Held? ==>
                  s.lock.Held? && !a.Release? && t.lock.job == s.lock.job
                  && (t.lock.phase.Scan? ==> s.lock.phase.Scan? && t.lock.phase.at == s.lock.phase.at))
            && t.now == if a.Tick? then a.time else s.now
  {
  }

  /** What one action does to the times of a watcher. */
  lemma TimesShape(s: State, a: Action, id: Id)
    requires Inv(s) && Enabled(s, a) && id in s.waits
    ensures id in Do(s, a).waits
    ensures var w, w' := s.waits[id], Do(s, a).waits[id];
            && w'.startedAt == w.startedAt && w'.deadline == w.deadline
            && if a == Store(id) then w'.endedAt == s.now else w'.endedAt == w.endedAt && w'.verdict == w.verdict
  {
    StartsNew(s, a);
    hide Inv, Do, Enabled;
    if Local(a) && a.id == id {
      LocalShape(s, a);
    } else if Local(a) {
      LocalElsewhere(s, a, id);
    } else {
      OthersOnlyCancel(s, a, id);
    }
  }

  lemma LocalShape(s: State, a: Action)
    requires Enabled(s, a) && Local(a)
    ensures a.id in Do(s, a).waits
    ensures var w, w' := s.waits[a.id], Do(s, a).waits[a.id];
            && w'.startedAt == w.startedAt && w'.deadline == w.deadline
            && w'.res.checks == w.res.checks + (if a.Probe? then 1 else 0)
            && if a.Store? then w'.endedAt == s.now else w'.endedAt == w.endedAt && w'.verdict == w.verdict
  {
  }

  ghost function Checks(s: State, id: Id): nat { if id in s.waits then s.waits[id].res.checks else 0 }

  lemma StepCounts(s: State, a: Action, id: Id)
    requires Inv(s) && Enabled(s, a)
    ensures Checks(Do(s, a), id) == Checks(s, id) + if a.Probe? && a.id == id then 1 else 0
  {
    StartsNew(s, a);
    LocalNeedsWait(s, a);
    hide Inv, Do, Enabled;
    if Local(a) && a.id == id {
      LocalShape(s, a);
    } else if id in s.waits && Local(a) {
      LocalElsewhere(s, a, id);
    } else if id in s.waits {
      OthersOnlyCancel(s, a, id);
    } else if id in Do(s, a).waits {
      NewShape(s, a, id);
    }
  }

  lemma {:induction false} RunCounts(acts: seq<Action>, s: State, more: seq<Action>, s': State, id: Id)
    requires Inv(s) && Checks(s, id) == ProbesOf(acts, id) && Runs(s, more, s')
    ensures Checks(s', id) == ProbesOf(acts + more, id)
    decreases |more|
  {
    hide Inv, Do, Enabled, Checks, ProbesOf;
    if more == [] {
      assert acts + more == acts;
    } else {
      var a := more[0];
      StepCounts(s, a, id);
      ProbesMore(acts, a, id);
      ActionKeeps(s, a);
      RunCounts(acts + [a], Do(s, a), more[1..], s', id);
      assert (acts + [a]) + more[1..] == acts + more;
    }
  }

  lemma NewShape(s: State, a: Action, id: Id)
    requires Enabled(s, a) && id !in s.waits && id in Do(s, a).waits
    ensures a.Release? && s.lock.Held? && s.lock.job.Start? && s.lock.job.id == id
    ensures var w := Do(s, a).waits[id];
            && w.startedAt == s.now && w.deadline == s.now + s.lock.job.timeout && w.verdict.Unset?
            && w.res.checks == 0
  {
  }

  lemma StepTold(now: int, acts: seq<Action>, s: State, a: Action, id: Id, m: Marks) returns (m': Marks)
    requires Inv(s) && Enabled(s, a) && Told(now, acts, s, id, m)
    ensures Told(now, acts + [a], Do(s, a), id, m')
  {
    hide Inv, Do, Enabled, Clock, Registers;
    var t, more := Do(s, a), acts + [a];
    RunMore(Init(now), acts, s, a);
    ClockMore(now, acts, a);
    LockShape(s, a);
    var taken := LockStep(now, acts, s, a, m.taken);
    m' := m.(taken := taken);
    assert more[..|acts|] == acts;
    hide Runs, LockTold;
    if id in s.waits {
      TimesShape(s, a, id);
      WaitToldMore(now, acts, s.waits[id], id, m, a);
      if a == Store(id) {
        m' := m'.(stored := |acts|);
      }
    } else if id in t.waits {
      NewShape(s, a, id);
      m' := Marks(taken, m.taken, |acts|, s.lock.job.timeout, 0);
      NewRegisters(now, acts, s, id, m.taken);
    }
  }

  lemma ProbesMore(acts: seq<Action>, a: Action, id: Id)
    ensures ProbesOf(acts + [a], id) == ProbesOf(acts, id) + if a.Probe? && a.id == id then 1 else 0
  {
    assert (acts + [a])[..|acts|] == acts;
  }

  lemma LocalNeedsWait(s: State, a: Action)
    requires Enabled(s, a)
    ensures Local(a) ==> a.id in s.waits
  {
  }

  lemma NewRegisters(now: int, acts: seq<Action>, s: State, id: Id, taken: nat)
    requires Runs(Init(now), acts, s) && LockTold(now, acts, s, taken) && Enabled(s, Release)
    requires s.lock.Held? && s.lock.job.Start? && s.lock.job.id == id && id !in s.waits && id in Do(s, Release).waits
    ensures Registers(now, acts + [Release], taken, |acts|, id, s.lock.job.timeout)
  {
    hide Do, Enabled, Runs, Clock;
    assert (acts + [Release])[..|acts|] == acts;
  }

  lemma {:induction false} RunTold(now: int, acts: seq<Action>, s: State, more: seq<Action>, s': State, id: Id,
                                   m: Marks)
    returns (m': Marks)
    requires Inv(s) && Told(now, acts, s, id, m) && Runs(s, more, s')
    ensures Told(now, acts + more, s', id, m')
    decreases |more|
  {
    hide Inv, Told, Do, Enabled;
    m' := m;
    if more == [] {
      assert acts + more == acts;
    } else {
      var a := more[0];
      m' := StepTold(now, acts, s, a, id, m);
      ActionKeeps(s, a);
      m' := RunTold(now, acts + [a], Do(s, a), more[1..], s', id, m');
      assert (acts + [a]) + more[1..] == acts + more;
    }
  }

  /**
   * A watcher starts when the lock region that registers it ends, and its deadline is its timeout later. It answers
   * that it timed out only from then on, and may do so from then on whenever it waits. Its end is when its verdict is
   * stored, and it counts its checks.
   */
  lemma TimesAreTrue(now: int, acts: seq<Action>, s: State, id: Id) returns (m: Marks)
    requires Runs(Init(now), acts, s) && id in s.waits
    ensures Registers(now, acts, m.asked, m.started, id, m.timeout)
    ensures var w, started := s.waits[id], Clock(now, acts[..m.started]);
            && w.startedAt == started && w.res.checks == ProbesOf(acts, id)
            && (Snapshot(w).Answer? && Snapshot(w).state.TimedOut? ==>
                  Select(id, Expired) in acts && Clock(now, acts) >= started + m.timeout)
            && (Enabled(s, Select(id, Expired)) <==> w.watch.Selecting? && Clock(now, acts) >= started + m.timeout)
            && (w.watch.Stored? || w.watch.Done? ==>
                  m.stored < |acts| && acts[m.stored] == Store(id) && w.endedAt == Clock(now, acts[..m.stored]))
  {
    m := FromStart(now, acts, s, id);
    AnswersAreTrue(now, acts, s, id);
    VerdictStored(now, acts, s, id);
    InitOk(now);
    RunCounts([], Init(now), acts, s, id);
    assert [] + acts == acts;
    hide Clock, Registers, Runs, LockTold, Snapshot;
    MayExpire(s, id);
  }

  lemma FromStart(now: int, acts: seq<Action>, s: State, id: Id) returns (m: Marks)
    requires Runs(Init(now), acts, s)
    ensures Told(now, acts, s, id, m)
  {
    InitOk(now);
    assert [] + acts == acts && Runs(Init(now), [], Init(now));
    m := RunTold(now, [], Init(now), acts, s, id, Marks(0, 0, 0, 0, 0));
  }

  lemma VerdictStored(now: int, acts: seq<Action>, s: State, id: Id)
    requires Runs(Init(now), acts, s) && id in s.waits
    ensures s.waits[id].watch.Stored? || s.waits[id].watch.Done? ==> !s.waits[id].verdict.Unset?
  {
    InitOk(now);
    RunKeeps(Init(now), acts, s);
    assert WaitOk(s.waits[id], s.now);
  }

  lemma MayExpire(s: State, id: Id)
    requires id in s.waits
    ensures Enabled(s, Select(id, Expired)) <==> s.waits[id].watch.Selecting? && s.now >= s.waits[id].deadline
  {
  }

  /** One watcher's way through: the actions and the answer they lead to. */
  ghost predicate LeadsTo(s: State, acts: seq<Action>, s': State, id: Id, answer: Answer) {
    Runs(s, acts, s') && id in s'.waits && s'.waits[id].watch.Done? && Snapshot(s'.waits[id]) == answer
  }

  lemma ThreeSteps(s: State, a: Action, id: Id) returns (s': State)
    requires id in s.waits && (a.Probe? || a.Select?) && a.id == id && Enabled(s, a)
    requires Do(s, a).waits[id].watch.Decided?
    ensures var t := Do(s, a);
            && Runs(s, [a, Store(id), Close(id)], s')
            && s'.waits ==
                 t.waits[id := t.waits[id].(verdict := t.waits[id].watch.verdict, endedAt := s.now, watch := Done)]
  {
    var t := Do(s, a);
    var u := Do(t, Store(id));
    s' := Do(u, Close(id));
    var acts := [a, Store(id), Close(id)];
    assert acts[1..] == [Store(id), Close(id)] && acts[1..][1..] == [Close(id)] && acts[1..][1..][1..] == [];
    assert Runs(s', [], s') && Runs(u, [Close(id)], s') && Runs(t, [Store(id), Close(id)], s');
  }

  /** A watcher before a check answers at once if the check holds or breaks. */
  lemma ProbeAnswers(now: int, acts: seq<Action>, s: State, id: Id, detail: string, error: string)
    returns (held: State, broke: State)
    requires Runs(Init(now), acts, s) && id in s.waits && s.waits[id].watch.Probing?
    ensures LeadsTo(s, [Probe(id, Holds, detail), Store(id), Close(id)], held, id,
                    Answer(Satisfied, WaitResult(true, false, s.waits[id].res.checks + 1, detail)))
    ensures LeadsTo(s, [Probe(id, Broken(error), detail), Store(id), Close(id)], broke, id, Error(error))
  {
    InitOk(now);
    RunKeeps(Init(now), acts, s);
    assert WaitOk(s.waits[id], s.now);
    hide Inv, Runs, WaitOk;
    held := ThreeSteps(s, Probe(id, Holds, detail), id);
    broke := ThreeSteps(s, Probe(id, Broken(error), detail), id);
  }

  /** One that waits answers at once when its deadline has passed or it was cancelled. */
  lemma SelectAnswers(now: int, acts: seq<Action>, s: State, id: Id, wake: Wake) returns (s': State)
    requires Runs(Init(now), acts, s) && id in s.waits && s.waits[id].watch.Selecting?
    requires (wake.Stopped? && s.waits[id].cancelled) || (wake.Expired? && s.now >= s.waits[id].deadline)
    ensures LeadsTo(s, [Select(id, wake), Store(id), Close(id)], s', id,
                    if wake.Stopped? then Answer(Cancelled, s.waits[id].res)
                    else Answer(TimedOut, s.waits[id].res.(timedOut := true)))
  {
    InitOk(now);
    RunKeeps(Init(now), acts, s);
    assert WaitOk(s.waits[id], s.now);
    hide Inv, Runs;
    s' := ThreeSteps(s, Select(id, wake), id);
  }

  /** The lock holder prunes as of when it took the lock. */
  lemma PruneTime(now: int, acts: seq<Action>, s: State) returns (j: nat)
    requires Runs(Init(now), acts, s) && s.lock.Held?
    ensures Region(acts, j, |acts|, s.lock.job) && (s.lock.phase.Scan? ==> s.lock.phase.at == Clock(now, acts[..j]))
  {
    var m := FromStart(now, acts, s, 0);
    j := m.taken;
  }
}
