/** What is kept of an execution, told from the actions of a run alone: its start, its end, its outcome. */
module ExecTimes {
  import opened Basics
  import opened Listing
  import opened Executions

  /** The time after `acts`. */
  function Clock(now: int, acts: seq<Action>): int
    decreases |acts|
  {
    if acts == [] then now else Clock(if acts[0].Tick? then acts[0].time else now, acts[1..])
  }

  /** Where in a run the registry lock was taken, the execution was registered, and its command finished. */
  datatype Marks = Marks(taken: nat, started: nat, ended: nat)

  /** The lock was taken by `acts[taken]`, is still held, and the prune judges by the time it was taken. */
  ghost predicate LockTold(now: int, acts: seq<Action>, s: State, taken: nat) {
    s.lock.Held? ==>
      && taken < |acts| && acts[taken] == Acquire(s.lock.launching)
      && (forall i :: taken < i < |acts| ==> acts[i] != Release)
      && s.lock.prune.at == Clock(now, acts[..taken])
  }

  ghost predicate ExecTold(now: int, acts: seq<Action>, e: Exec, id: Id, m: Marks) {
    && m.started < |acts| && acts[m.started] == Register(id, e.hasCallback)
    && e.startedAt == Clock(now, acts[..m.started])
    && (e.exit.Some? ==>
          m.ended < |acts| && acts[m.ended] == Finish(id, e.exit.value) && e.endedAt == Clock(now, acts[..m.ended]))
  }

  ghost predicate Told(now: int, acts: seq<Action>, s: State, id: Id, m: Marks) {
    && s.now == Clock(now, acts) && LockTold(now, acts, s, m.taken)
    && (id in s.execs ==> ExecTold(now, acts, s.execs[id], id, m))
  }

  lemma {:induction false} ClockMore(now: int, acts: seq<Action>, a: Action)
    ensures Clock(now, acts + [a]) == if a.Tick? then a.time else Clock(now, acts)
    decreases |acts|
  {
    if acts != [] {
      ClockMore(if acts[0].Tick? then acts[0].time else now, acts[1..], a);
      assert (acts + [a])[1..] == acts[1..] + [a];
    }
  }

  lemma ExecToldMore(now: int, acts: seq<Action>, e: Exec, id: Id, m: Marks, a: Action)
    requires ExecTold(now, acts, e, id, m)
    ensures ExecTold(now, acts + [a], e, id, m)
  {
    hide Clock;
    assert (acts + [a])[..m.started] == acts[..m.started];
    assert e.exit.Some? ==> (acts + [a])[..m.ended] == acts[..m.ended];
  }

  lemma LockShape(s: State, a: Action)
    requires Enabled(s, a)
    ensures var t := Do(s, a);
            && (a.Acquire? ==> t.lock.Held? && t.lock.launching == a.launching && t.lock.prune.at == s.now)
            && (!a.Acquire? && t.lock.Held? ==>
                  s.lock.Held? && !a.Release? && t.lock.launching == s.lock.launching
                  && t.lock.prune.at == s.lock.prune.at)
            && t.now == if a.Tick? then a.time else s.now
  {
  }

  lemma LockStep(now: int, acts: seq<Action>, s: State, a: Action, taken: nat) returns (taken': nat)
    requires Enabled(s, a) && LockTold(now, acts, s, taken) && s.now == Clock(now, acts)
    ensures LockTold(now, acts + [a], Do(s, a), taken')
  {
    hide Clock;
    taken' := if a.Acquire? then |acts| else taken;
    assert (acts + [a])[..|acts|] == acts;
    assert s.lock.Held? ==> (acts + [a])[..taken] == acts[..taken];
    LockShape(s, a);
    hide Do, Enabled;
  }

  /** What one action does to the start, the end and the outcome of an execution. */
  lemma ExecShape(s: State, a: Action, id: Id)
    requires Enabled(s, a) && id in s.execs
    ensures id in Do(s, a).execs
    ensures var e, e' := s.execs[id], Do(s, a).execs[id];
            && e'.startedAt == e.startedAt && e'.hasCallback == e.hasCallback
            && if a.Finish? && a.id == id then e'.exit == Some(a.outcome) && e'.endedAt == s.now
               else e'.exit == e.exit && e'.endedAt == e.endedAt
  {
  }

  lemma NewShape(s: State, a: Action, id: Id)
    requires Enabled(s, a) && id !in s.execs && id in Do(s, a).execs
    ensures var e := Do(s, a).execs[id]; a == Register(id, e.hasCallback) && e.startedAt == s.now && e.exit.None?
  {
  }

  lemma StepTold(now: int, acts: seq<Action>, s: State, a: Action, id: Id, m: Marks) returns (m': Marks)
    requires Enabled(s, a) && Told(now, acts, s, id, m)
    ensures Told(now, acts + [a], Do(s, a), id, m')
  {
    hide Do, Enabled, Clock;
    var t, more := Do(s, a), acts + [a];
    ClockMore(now, acts, a);
    LockShape(s, a);
    var taken := LockStep(now, acts, s, a, m.taken);
    m' := m.(taken := taken);
    assert more[..|acts|] == acts;
    hide LockTold;
    if id in s.execs {
      ExecShape(s, a, id);
      ExecToldMore(now, acts, s.execs[id], id, m, a);
      if a.Finish? && a.id == id {
        m' := m'.(ended := |acts|);
      }
    } else if id in t.execs {
      NewShape(s, a, id);
      m' := Marks(taken, |acts|, 0);
    }
  }

  lemma {:induction false} RunTold(now: int, acts: seq<Action>, s: State, more: seq<Action>, s': State, id: Id,
                                   m: Marks)
    returns (m': Marks)
    requires Told(now, acts, s, id, m) && Runs(s, more, s')
    ensures Told(now, acts + more, s', id, m')
    decreases |more|
  {
    hide Told, Do, Enabled;
    m' := m;
    if more == [] {
      assert acts + more == acts;
    } else {
      var a := more[0];
      m' := StepTold(now, acts, s, a, id, m);
      m' := RunTold(now, acts + [a], Do(s, a), more[1..], s', id, m');
      assert (acts + [a]) + more[1..] == acts + more;
    }
  }

  lemma FromStart(now: int, acts: seq<Action>, s: State, id: Id) returns (m: Marks)
    requires Runs(Init(now), acts, s)
    ensures Told(now, acts, s, id, m)
  {
    assert [] + acts == acts;
    m := RunTold(now, [], Init(now), acts, s, id, Marks(0, 0, 0));
  }

  /**
   * In every run: an execution starts when it is registered, and ends when its command finishes. What is kept as its
   * result, what the launching call claims and what the late report tells is the outcome the command finished with, or
   * that outcome without its output.
   */
  lemma RecordIsTrue(now: int, acts: seq<Action>, s: State, id: Id) returns (m: Marks)
    requires Runs(Init(now), acts, s) && id in s.execs
    ensures var e := s.execs[id];
            && m.started < |acts| && acts[m.started] == Register(id, e.hasCallback)
            && e.startedAt == Clock(now, acts[..m.started])
            && (e.result.Some? ==>
                  && m.ended < |acts| && acts[m.ended].Finish? && acts[m.ended].id == id
                  && e.endedAt == Clock(now, acts[..m.ended])
                  && var r := acts[m.ended].outcome;
                     && e.result.value == (if e.dropped then Stripped(r) else r)
                     && (e.call.Claimed? && e.call.result.Some? ==> e.call.result.value in [r, Stripped(r)])
                     && forall x :: x in e.reports ==> x == r)
            && (e.result.None? ==> e.reports == [] && (e.call.Claimed? ==> e.call.result.None?))
  {
    m := FromStart(now, acts, s, id);
    InitOk(now);
    RunKeeps(Init(now), acts, s);
    hide Runs, Clock, LockOk, LockTold;
    assert ExecOk(s.execs[id], s.now);
  }

  /**
   * A command at work can finish with any outcome, whatever else goes on: four steps of its goroutine store the
   * outcome, report it if the call has handed it off and a callback is there, and take the id out of `running`.
   */
  lemma CanFinish(now: int, acts: seq<Action>, s: State, id: Id, r: Outcome) returns (s': State)
    requires Runs(Init(now), acts, s) && id in s.execs && s.execs[id].work.Working?
    ensures Runs(s, [Finish(id, r), Close(id), Report(id), Unregister(id)], s')
    ensures id in s'.execs && id !in s'.running && s'.execs[id].result == Some(r) && s'.execs[id].endedAt == s.now
    ensures s'.execs[id].reports == if s.execs[id].handedOff && s.execs[id].hasCallback then [r] else []
  {
    InitOk(now);
    RunKeeps(Init(now), acts, s);
    assert ExecOk(s.execs[id], s.now);
    hide Inv, Runs;
    s' := LastSteps(s, id, r);
  }

  lemma LastSteps(s: State, id: Id, r: Outcome) returns (s': State)
    requires id in s.execs && s.execs[id].work.Working?
    ensures Runs(s, [Finish(id, r), Close(id), Report(id), Unregister(id)], s') && s'.running == s.running - {id}
    ensures id in s'.execs && s'.execs[id].result == Some(r) && s'.execs[id].endedAt == s.now
    ensures var e := s.execs[id];
            s'.execs[id].reports == if e.handedOff && e.hasCallback then e.reports + [r] else e.reports
  {
    var t := Do(s, Finish(id, r));
    var u := Do(t, Close(id));
    var v := Do(u, Report(id));
    s' := Do(v, Unregister(id));
    hide Do, Enabled;
    OneMore(v, Unregister(id), [], s');
    OneMore(u, Report(id), [Unregister(id)], s');
    OneMore(t, Close(id), [Report(id), Unregister(id)], s');
    OneMore(s, Finish(id, r), [Close(id), Report(id), Unregister(id)], s');
  }

  lemma OneMore(s: State, a: Action, rest: seq<Action>, s': State)
    requires Enabled(s, a) && if rest == [] then s' == Do(s, a) else Runs(Do(s, a), rest, s')
    ensures Runs(s, [a] + rest, s')
  {
    assert ([a] + rest)[1..] == rest;
    assert rest == [] ==> Runs(s', rest, s');
  }

  /** A prune judges ages as of when its lock was taken. */
  lemma PruneTime(now: int, acts: seq<Action>, s: State) returns (j: nat)
    requires Runs(Init(now), acts, s) && s.lock.Held?
    ensures j < |acts| && acts[j] == Acquire(s.lock.launching) && forall i :: j < i < |acts| ==> acts[i] != Release
    ensures s.lock.prune.at == Clock(now, acts[..j])
  {
    var m := FromStart(now, acts, s, 0);
    j := m.taken;
  }
}
