/**
 The status file that `run_one` writes, said by what happened in the run: which steps were taken, in
 which order, and whether `stop` was set when it was looked at.
 */
module RunnerStatus {
  import opened TestRunner

  // ------------------------------------------------------------------ what happened

  /** The step was taken before `k`. */
  ghost predicate Did(steps: seq<Step>, k: nat, step: Step)
    requires k <= |steps|
  {
    exists i :: 0 <= i < k && steps[i] == step
  }

  /** The step was taken, and `stop` was set then. */
  ghost predicate DidStopped(steps: seq<Step>, k: nat, step: Step)
    requires k <= |steps|
  {
    exists i :: 0 <= i < k && steps[i] == step && Did(steps, i, StopSignal)
  }

  /** The step would end the process of `id` with `code`, if it still ran. */
  predicate EndsWith(step: Step, id: nat, code: int) {
    step == Exit(id, code) || step == Terminated(id, code) || step == SweepTerminate(id, code)
  }

  /** How often the step was taken before `k`. */
  ghost function Times(steps: seq<Step>, k: nat, step: Step): nat
    requires k <= |steps|
  {
    |set i | 0 <= i < k && steps[i] == step|
  }

  /** The first step that ended the process ended it with `code`. */
  ghost predicate Ended(steps: seq<Step>, k: nat, id: nat, code: int)
    requires k <= |steps|
  {
    exists i :: 0 <= i < k && EndsWith(steps[i], id, code) && forall j :: 0 <= j < i ==> !Ends(steps[j], id)
  }

  /**
   The status to be written: 130 if `stop` was found set before the start; 2 if the process could not
   be started, or waiting on it failed, or no cleanup worked; 124 if waiting timed out; 130 if `stop`
   was found set at the end, unless the process itself ended with 124; and otherwise the code the
   process ended with.
   */
  ghost predicate StatusIs(steps: seq<Step>, k: nat, id: nat, status: int)
    requires k <= |steps|
  {
    if DidStopped(steps, k, Begin(id)) || DidStopped(steps, k, TestStop(id)) then status == 130
    else if Did(steps, k, SpawnFails(id)) || Did(steps, k, WaitFaults(id)) || !Did(steps, k, CleanupWorks(id)) then
      status == 2
    else if Did(steps, k, WaitTimesOut(id)) then status == 124
    else if DidStopped(steps, k, Settle(id)) && !Ended(steps, k, id, 124) then status == 130
    else Ended(steps, k, id, status)
  }

  // ------------------------------------------------------------------ the same as a record, step by step

  datatype Code = Running | Code(code: int)

  /** What has happened to one codeunit. */
  datatype Log = Log(
    stop: bool, stoppedAtBegin: bool, stoppedAtTest: bool, spawned: bool, spawnFailed: bool, returned: bool,
    faulted: bool, timedOut: bool, stoppedAtEnd: bool, cleaned: bool, failures: nat, ended: Code)

  const NOTHING :=
    Log(false, false, false, false, false, false, false, false, false, false, 0, Running)

  function Note(log: Log, step: Step, id: nat): Log {
    log.(stop := log.stop || step.StopSignal?,
         stoppedAtBegin := log.stoppedAtBegin || (step.Begin? && step.id == id && log.stop),
         stoppedAtTest := log.stoppedAtTest || (step.TestStop? && step.id == id && log.stop),
         spawned := log.spawned || (step.Spawn? && step.id == id),
         spawnFailed := log.spawnFailed || (step.SpawnFails? && step.id == id),
         returned := log.returned || (step.WaitReturns? && step.id == id),
         faulted := log.faulted || (step.WaitFaults? && step.id == id),
         timedOut := log.timedOut || (step.WaitTimesOut? && step.id == id),
         stoppedAtEnd := log.stoppedAtEnd || (step.Settle? && step.id == id && log.stop),
         cleaned := log.cleaned || (step.CleanupWorks? && step.id == id),
         failures := log.failures + (if step.CleanupFails? && step.id == id then 1 else 0),
         ended := if log.ended.Running? && Ends(step, id) then Code(step.code) else log.ended)
  }

  ghost function LogOf(steps: seq<Step>, k: nat, id: nat): Log
    requires k <= |steps|
  {
    if k == 0 then NOTHING else Note(LogOf(steps, k - 1, id), steps[k - 1], id)
  }

  lemma {:induction false} LogTellsStart(steps: seq<Step>, k: nat, id: nat)
    requires k <= |steps|
    ensures LogOf(steps, k, id).spawned <==> Did(steps, k, Spawn(id))
    ensures LogOf(steps, k, id).spawnFailed <==> Did(steps, k, SpawnFails(id))
    ensures LogOf(steps, k, id).returned <==> Did(steps, k, WaitReturns(id))
  {
    if k > 0 {
      LogTellsStart(steps, k - 1, id);
      DidNext(steps, k - 1, Spawn(id));
      DidNext(steps, k - 1, SpawnFails(id));
      DidNext(steps, k - 1, WaitReturns(id));
    }
  }

  lemma {:induction false} LogTellsWait(steps: seq<Step>, k: nat, id: nat)
    requires k <= |steps|
    ensures LogOf(steps, k, id).faulted <==> Did(steps, k, WaitFaults(id))
    ensures LogOf(steps, k, id).timedOut <==> Did(steps, k, WaitTimesOut(id))
    ensures LogOf(steps, k, id).cleaned <==> Did(steps, k, CleanupWorks(id))
  {
    if k > 0 {
      LogTellsWait(steps, k - 1, id);
      DidNext(steps, k - 1, WaitFaults(id));
      DidNext(steps, k - 1, WaitTimesOut(id));
      DidNext(steps, k - 1, CleanupWorks(id));
    }
  }

  lemma DidNext(steps: seq<Step>, k: nat, step: Step)
    requires k < |steps|
    ensures Did(steps, k + 1, step) <==> Did(steps, k, step) || steps[k] == step
  {
  }

  lemma DidStoppedNext(steps: seq<Step>, k: nat, step: Step)
    requires k < |steps|
    ensures DidStopped(steps, k + 1, step) <==>
            DidStopped(steps, k, step) || (steps[k] == step && Did(steps, k, StopSignal))
  {
  }

  lemma {:induction false} LogTellsFailures(steps: seq<Step>, k: nat, id: nat)
    requires k <= |steps|
    ensures LogOf(steps, k, id).failures == Times(steps, k, CleanupFails(id))
  {
    if k > 0 {
      LogTellsFailures(steps, k - 1, id);
      TimesNext(steps, k - 1, CleanupFails(id));
    }
  }

  lemma TimesNext(steps: seq<Step>, k: nat, step: Step)
    requires k < |steps|
    ensures Times(steps, k + 1, step) == Times(steps, k, step) + if steps[k] == step then 1 else 0
  {
    assert (set i | 0 <= i < k + 1 && steps[i] == step) ==
           (set i | 0 <= i < k && steps[i] == step) + if steps[k] == step then {k} else {};
  }

  lemma {:induction false} LogTellsStop(steps: seq<Step>, k: nat, id: nat)
    requires k <= |steps|
    ensures LogOf(steps, k, id).stop <==> Did(steps, k, StopSignal)
  {
    if k > 0 {
      LogTellsStop(steps, k - 1, id);
      DidNext(steps, k - 1, StopSignal);
    }
  }

  lemma {:induction false} LogTellsBegin(steps: seq<Step>, k: nat, id: nat)
    requires k <= |steps|
    ensures LogOf(steps, k, id).stoppedAtBegin <==> DidStopped(steps, k, Begin(id))
  {
    if k > 0 {
      LogTellsBegin(steps, k - 1, id);
      LogTellsStop(steps, k - 1, id);
      DidStoppedNext(steps, k - 1, Begin(id));
    }
  }

  lemma {:induction false} LogTellsTest(steps: seq<Step>, k: nat, id: nat)
    requires k <= |steps|
    ensures LogOf(steps, k, id).stoppedAtTest <==> DidStopped(steps, k, TestStop(id))
  {
    if k > 0 {
      LogTellsTest(steps, k - 1, id);
      LogTellsStop(steps, k - 1, id);
      DidStoppedNext(steps, k - 1, TestStop(id));
    }
  }

  lemma {:induction false} LogTellsSettle(steps: seq<Step>, k: nat, id: nat)
    requires k <= |steps|
    ensures LogOf(steps, k, id).stoppedAtEnd <==> DidStopped(steps, k, Settle(id))
  {
    if k > 0 {
      LogTellsSettle(steps, k - 1, id);
      LogTellsStop(steps, k - 1, id);
      DidStoppedNext(steps, k - 1, Settle(id));
    }
  }

  ghost predicate NoneEnds(steps: seq<Step>, k: nat, id: nat)
    requires k <= |steps|
  {
    forall j :: 0 <= j < k ==> !Ends(steps[j], id)
  }

  lemma {:induction false} LogTellsEnd(steps: seq<Step>, k: nat, id: nat)
    requires k <= |steps|
    ensures LogOf(steps, k, id).ended.Running? <==> NoneEnds(steps, k, id)
    ensures forall code :: Ended(steps, k, id, code) <==> LogOf(steps, k, id).ended == Code(code)
  {
    if k > 0 {
      LogTellsEnd(steps, k - 1, id);
      forall code
        ensures Ended(steps, k, id, code) <==>
                Ended(steps, k - 1, id, code) || (EndsWith(steps[k - 1], id, code) && NoneEnds(steps, k - 1, id))
      {
        EndedNext(steps, k - 1, id, code);
      }
    }
  }

  lemma EndedNext(steps: seq<Step>, k: nat, id: nat, code: int)
    requires k < |steps|
    ensures Ended(steps, k + 1, id, code) <==>
            Ended(steps, k, id, code) || (EndsWith(steps[k], id, code) && NoneEnds(steps, k, id))
  {
  }

  // ------------------------------------------------------------------ the thread agrees with its record

  predicate BeforeStart(p: Place) {
    p.Queued? || p.Cancelled? || p.WantStart? || p.InStart? || p.Spawning?
  }

  predicate AtEnd(p: Place) {
    p.Writing? || p.Done? || p.Crashed?
  }

  /** The status of a process that was waited for, cleanup aside. */
  predicate Settled(log: Log, t: Thread) {
    if log.faulted then t.status == 2
    else if log.timedOut then t.status == 124
    else if log.stoppedAtEnd && log.ended != Code(124) then t.status == 130
    else t.process == Dead(t.status)
  }

  /** What is recorded of a codeunit whose process never started. */
  predicate UnstartedAgrees(log: Log, t: Thread) {
    && !log.faulted && !log.timedOut && !log.stoppedAtEnd && !log.cleaned && log.ended.Running?
    && !log.spawned && !log.returned && log.failures == 0 && !t.faulted && !t.dropped
    && (BeforeStart(t.place) ==> !log.stoppedAtBegin && !log.stoppedAtTest && !log.spawnFailed)
    && (t.place.Writing? || t.place.Done? ==>
          if log.stoppedAtBegin || log.stoppedAtTest then t.status == 130 else log.spawnFailed && t.status == 2)
    && (BeforeStart(t.place) || AtEnd(t.place))
  }

  /** ... and of one whose process did. */
  predicate StartedAgrees(log: Log, t: Thread) {
    && !BeforeStart(t.place) && log.spawned
    && (if t.place.Registering? || t.place.Waiting? || t.place.Terminating? then !log.returned
        else log.returned == (!log.faulted && !log.timedOut))
    && (if t.place.Cleaning? then log.failures == t.place.attempt < 3
        else if t.place.Writing? || t.place.Done? then (log.cleaned ==> log.failures < 3)
            && (!log.cleaned ==> log.failures == 3)
        else t.place.Crashed? || log.failures == 0)
    && !log.stoppedAtBegin && !log.stoppedAtTest && !log.spawnFailed
    && t.faulted == log.faulted && t.dropped == log.cleaned
    && (t.process == Live && !log.faulted ==> t.place.Registering? || t.place.Waiting? || t.place.Terminating?)
    && (t.process == Live <==> log.ended.Running?) && (t.process.Dead? ==> log.ended == Code(t.process.code))
    && (t.place.Registering? || t.place.Waiting? ==> !log.timedOut && !log.faulted && !log.stoppedAtEnd && !log.cleaned)
    && (t.place.Terminating? ==> log.timedOut && !log.faulted && !log.stoppedAtEnd && !log.cleaned)
    && (t.place.WantPop? || t.place.InPop? || t.place.Settling? ==>
          && !log.stoppedAtEnd && !log.cleaned
          && (log.faulted || if log.timedOut then t.status == 124 else t.process == Dead(t.status)))
    && (t.place.Settling? ==> !log.faulted)
    && (t.place.Cleaning? ==> !log.cleaned && Settled(log, t))
    && (t.place.Writing? || t.place.Done? ==> if log.cleaned then Settled(log, t) else t.status == 2)
  }

  predicate Agrees(log: Log, t: Thread) {
    (if t.process == NotStarted then UnstartedAgrees(log, t) else StartedAgrees(log, t))
    && (t.place.Done? ==> t.written == t.status)
  }

  lemma QueueingAgrees(s: State, step: Step, log: Log)
    requires Queueing(step) && Enabled(s, step) && Agrees(log, s.threads[step.id]) && log.stop == s.stop
    ensures Agrees(Note(log, step, step.id), Apply(s, step).threads[step.id])
  {
  }

  lemma StartingAgrees(s: State, step: Step, log: Log)
    requires Starting(step) && Enabled(s, step) && Agrees(log, s.threads[step.id]) && log.stop == s.stop
    ensures Agrees(Note(log, step, step.id), Apply(s, step).threads[step.id])
  {
  }

  lemma WaitingAgrees(s: State, step: Step, log: Log)
    requires (step.Exit? || step.WaitReturns? || step.WaitTimesOut?) && Enabled(s, step)
             && Agrees(log, s.threads[step.id]) && log.stop == s.stop
    ensures Agrees(Note(log, step, step.id), Apply(s, step).threads[step.id])
  {
  }

  lemma FailingAgrees(s: State, step: Step, log: Log)
    requires (step.Terminated? || step.WaitFaults?) && Enabled(s, step) && Agrees(log, s.threads[step.id])
             && log.stop == s.stop
    ensures Agrees(Note(log, step, step.id), Apply(s, step).threads[step.id])
  {
  }

  lemma PoppingAgrees(s: State, step: Step, log: Log)
    requires (step.TakePopLock? || step.Pop?) && Enabled(s, step) && Agrees(log, s.threads[step.id])
             && log.stop == s.stop
    ensures Agrees(Note(log, step, step.id), Apply(s, step).threads[step.id])
  {
  }

  lemma SettlingAgrees(s: State, step: Step, log: Log)
    requires step.Settle? && Enabled(s, step) && Agrees(log, s.threads[step.id]) && log.stop == s.stop
    ensures Agrees(Note(log, step, step.id), Apply(s, step).threads[step.id])
  {
  }

  lemma CleaningAgrees(s: State, step: Step, log: Log)
    requires (step.CleanupWorks? || step.CleanupFails?) && Enabled(s, step) && Agrees(log, s.threads[step.id])
             && log.stop == s.stop
    ensures Agrees(Note(log, step, step.id), Apply(s, step).threads[step.id])
  {
  }

  lemma WritingAgrees(s: State, step: Step, log: Log)
    requires step.WriteStatus? && Enabled(s, step) && Agrees(log, s.threads[step.id]) && log.stop == s.stop
    ensures Agrees(Note(log, step, step.id), Apply(s, step).threads[step.id])
  {
  }

  /** A step of another thread, of the main thread, or the signal. */
  lemma OtherAgrees(s: State, step: Step, id: nat, log: Log)
    requires Enabled(s, step) && id in s.threads && Agrees(log, s.threads[id])
    requires Sweeping(step) || step.id != id
    requires step.SweepTerminate? && step.id == id ==> s.threads[id].process != NotStarted
    ensures Agrees(Note(log, step, id), Apply(s, step).threads[id])
  {
    if step.SweepTerminate? && step.id == id {
      TerminatedAgrees(s, id, step.code, log);
    } else {
      OtherThread(s, step, id);
      OtherNote(log, step, id);
    }
  }

  lemma OtherThread(s: State, step: Step, id: nat)
    requires Enabled(s, step) && id in s.threads && (Sweeping(step) || step.id != id)
    requires !(step.SweepTerminate? && step.id == id) && !(step.Cancel? && step.id == id)
    ensures Apply(s, step).threads[id] == s.threads[id]
  {
  }

  lemma OtherNote(log: Log, step: Step, id: nat)
    requires (Sweeping(step) || step.id != id) && !(step.SweepTerminate? && step.id == id)
    ensures Note(log, step, id) == log.(stop := Note(log, step, id).stop)
  {
  }

  /** A sweep terminates a process that has been started. */
  lemma TerminatedAgrees(s: State, id: nat, code: int, log: Log)
    requires Enabled(s, SweepTerminate(id, code)) && Agrees(log, s.threads[id]) && s.threads[id].process != NotStarted
    ensures Agrees(Note(log, SweepTerminate(id, code), id), Apply(s, SweepTerminate(id, code)).threads[id])
  {
  }

  lemma StepAgrees(s: State, step: Step, id: nat, log: Log)
    requires Enabled(s, step) && id in s.threads && Agrees(log, s.threads[id]) && log.stop == s.stop
    requires step.SweepTerminate? && step.id == id ==> s.threads[id].process != NotStarted
    ensures Agrees(Note(log, step, id), Apply(s, step).threads[id])
  {
    if Sweeping(step) || step.id != id {
      OtherAgrees(s, step, id, log);
    } else if Queueing(step) {
      QueueingAgrees(s, step, log);
    } else if Starting(step) {
      StartingAgrees(s, step, log);
    } else if step.Exit? || step.WaitReturns? || step.WaitTimesOut? {
      WaitingAgrees(s, step, log);
    } else if step.Terminated? || step.WaitFaults? {
      FailingAgrees(s, step, log);
    } else if step.TakePopLock? || step.Pop? {
      PoppingAgrees(s, step, log);
    } else if step.Settle? {
      SettlingAgrees(s, step, log);
    } else if step.WriteStatus? {
      WritingAgrees(s, step, log);
    } else {
      CleaningAgrees(s, step, log);
    }
  }

  lemma StopIsNoted(s: State, step: Step, id: nat, log: Log)
    requires Enabled(s, step) && log.stop == s.stop
    ensures Note(log, step, id).stop == Apply(s, step).stop
  {
  }

  /** What a sweep is to terminate has been started. */
  ghost predicate RestStarted(s: State) {
    s.sweep.Killing? ==> forall id :: id in s.sweep.rest && id in s.threads ==> s.threads[id].process != NotStarted
  }

  lemma StepKeepsRest(s: State, step: Step)
    requires Invariant(s) && Enabled(s, step) && RestStarted(s)
    ensures RestStarted(Apply(s, step))
  {
    var t := Apply(s, step);
    if t.sweep.Killing? {
      forall id | id in t.sweep.rest && id in t.threads
        ensures t.threads[id].process != NotStarted
      {
        assert ThreadInvariant(s, id);
        StepFollows(s, step, id);
        if Sweeping(step) {
          SweepStep(s, step, id);
        }
      }
    }
  }

  lemma {:induction false} RunAgrees(ids: set<nat>, states: seq<State>, steps: seq<Step>, k: nat, id: nat)
    requires IsRun(ids, states, steps) && k <= |steps| && id in ids
    ensures id in states[k].threads && RestStarted(states[k])
    ensures Agrees(LogOf(steps, k, id), states[k].threads[id]) && LogOf(steps, k, id).stop == states[k].stop
  {
    RunKeepsInvariant(ids, states, steps, k);
    if k > 0 {
      RunAgrees(ids, states, steps, k - 1, id);
      RunKeepsInvariant(ids, states, steps, k - 1);
      assert Steps(states, steps, k - 1);
      StepKeepsRest(states[k - 1], steps[k - 1]);
      StepAgrees(states[k - 1], steps[k - 1], id, LogOf(steps, k - 1, id));
      StopIsNoted(states[k - 1], steps[k - 1], id, LogOf(steps, k - 1, id));
    }
  }

  // ------------------------------------------------------------------ the written status

  /** In every interleaving, the status file of a codeunit that is done says what happened to it. */
  lemma WrittenStatus(ids: set<nat>, states: seq<State>, steps: seq<Step>, k: nat, id: nat)
    requires IsRun(ids, states, steps) && k <= |steps| && id in ids
    ensures id in states[k].threads
    ensures states[k].threads[id].place.Done? ==> StatusIs(steps, k, id, states[k].threads[id].written)
  {
    RunAgrees(ids, states, steps, k, id);
    LogTellsStart(steps, k, id);
    LogTellsWait(steps, k, id);
    LogTellsBegin(steps, k, id);
    LogTellsTest(steps, k, id);
    LogTellsSettle(steps, k, id);
    LogTellsEnd(steps, k, id);
  }

  /** When it is 0. */
  lemma ZeroIff(ids: set<nat>, states: seq<State>, steps: seq<Step>, k: nat, id: nat)
    requires IsRun(ids, states, steps) && k <= |steps| && id in ids
    requires id in states[k].threads && states[k].threads[id].place.Done?
    ensures states[k].threads[id].written == 0 <==>
            && Did(steps, k, Spawn(id)) && Did(steps, k, WaitReturns(id)) && Ended(steps, k, id, 0)
            && !Did(steps, k, WaitTimesOut(id)) && !Did(steps, k, WaitFaults(id))
            && !DidStopped(steps, k, Begin(id)) && !DidStopped(steps, k, TestStop(id))
                && !DidStopped(steps, k, Settle(id))
            && Did(steps, k, CleanupWorks(id))
  {
    RunAgrees(ids, states, steps, k, id);
    LogTellsStart(steps, k, id);
    LogTellsWait(steps, k, id);
    LogTellsBegin(steps, k, id);
    LogTellsTest(steps, k, id);
    LogTellsSettle(steps, k, id);
    LogTellsEnd(steps, k, id);
  }

  /** A database is given up exactly after the third failed attempt to drop it. */
  lemma ThreeAttempts(ids: set<nat>, states: seq<State>, steps: seq<Step>, k: nat, id: nat)
    requires IsRun(ids, states, steps) && k <= |steps| && id in ids && Did(steps, k, Spawn(id))
    requires id in states[k].threads && states[k].threads[id].place.Done?
    ensures if Did(steps, k, CleanupWorks(id)) then Times(steps, k, CleanupFails(id)) < 3
            else Times(steps, k, CleanupFails(id)) == 3
  {
    RunAgrees(ids, states, steps, k, id);
    LogTellsStart(steps, k, id);
    LogTellsWait(steps, k, id);
    LogTellsFailures(steps, k, id);
  }

  // ------------------------------------------------------------------ a run in which all pass

  const FRESH := Thread(Queued, NotStarted, -1, false, false, -1)
  const PASSED := Thread(Done, Dead(0), 0, false, true, 0)

  /** The codeunits of `done` have passed, `id` stands where `t` says, and the others wait. */
  function Partway(ids: set<nat>, done: set<nat>, id: nat, t: Thread, lock: Lock, active: set<nat>): State
    requires id in ids
  {
    State(false, lock, active, AllBut(ids, done)[id := t], Idle, false, {})
  }

  function AllBut(ids: set<nat>, done: set<nat>): map<nat, Thread> {
    map i | i in ids :: if i in done then PASSED else FRESH
  }

  /** A run so far, and the state it has come to. */
  ghost predicate Comes(ids: set<nat>, states: seq<State>, steps: seq<Step>, s: State) {
    IsRun(ids, states, steps) && OnlyFaults(steps, {}) && states[|steps|] == s
  }

  lemma Goes(ids: set<nat>, states: seq<State>, steps: seq<Step>, s: State, step: Step, t: State)
    returns (more: seq<State>, taken: seq<Step>)
    requires Comes(ids, states, steps, s) && Enabled(s, step) && Apply(s, step) == t && !step.WaitFaults?
    ensures Comes(ids, more, taken, t)
  {
    more := Extend(ids, {}, states, steps, step);
    taken := steps + [step];
  }

  /** `id` starts and waits. */
  lemma StartsOne(ids: set<nat>, done: set<nat>, id: nat, states: seq<State>, steps: seq<Step>)
    returns (more: seq<State>, taken: seq<Step>)
    requires id in ids && Comes(ids, states, steps, Partway(ids, done, id, FRESH, Free, {}))
    ensures Comes(ids, more, taken, Partway(ids, done, id, FRESH.(place := Waiting, process := Live), Free, {id}))
  {
    var s := Partway(ids, done, id, FRESH, Free, {});
    var t := Partway(ids, done, id, FRESH.(place := WantStart), Free, {});
    more, taken := Goes(ids, states, steps, s, Begin(id), t);
    s := Partway(ids, done, id, FRESH.(place := InStart), Worker(id), {});
    more, taken := Goes(ids, more, taken, t, TakeStartLock(id), s);
    t := Partway(ids, done, id, FRESH.(place := Spawning), Worker(id), {});
    more, taken := Goes(ids, more, taken, s, TestStop(id), t);
    s := Partway(ids, done, id, FRESH.(place := Registering, process := Live), Worker(id), {});
    more, taken := Goes(ids, more, taken, t, Spawn(id), s);
    t := Partway(ids, done, id, FRESH.(place := Waiting, process := Live), Free, {id});
    more, taken := Goes(ids, more, taken, s, Register(id), t);
  }

  /** Its process exits 0 and the thread takes note. */
  lemma ReturnsOne(ids: set<nat>, done: set<nat>, id: nat, states: seq<State>, steps: seq<Step>)
    returns (more: seq<State>, taken: seq<Step>)
    requires id in ids
    requires Comes(ids, states, steps, Partway(ids, done, id, FRESH.(place := Waiting, process := Live), Free, {id}))
    ensures Comes(ids, more, taken,
                  Partway(ids, done, id, FRESH.(place := Settling, process := Dead(0), status := 0), Free, {}))
  {
    var s := Partway(ids, done, id, FRESH.(place := Waiting, process := Live), Free, {id});
    var t := Partway(ids, done, id, FRESH.(place := Waiting, process := Dead(0)), Free, {id});
    more, taken := Goes(ids, states, steps, s, Exit(id, 0), t);
    s := Partway(ids, done, id, FRESH.(place := WantPop, process := Dead(0), status := 0), Free, {id});
    more, taken := Goes(ids, more, taken, t, WaitReturns(id), s);
    t := Partway(ids, done, id, FRESH.(place := InPop, process := Dead(0), status := 0), Worker(id), {id});
    more, taken := Goes(ids, more, taken, s, TakePopLock(id), t);
    s := Partway(ids, done, id, FRESH.(place := Settling, process := Dead(0), status := 0), Free, {});
    more, taken := Goes(ids, more, taken, t, Pop(id), s);
  }

  /** Its database is dropped and its status written. */
  lemma FinishesOne(ids: set<nat>, done: set<nat>, id: nat, states: seq<State>, steps: seq<Step>)
    returns (more: seq<State>, taken: seq<Step>)
    requires id in ids
    requires Comes(ids, states, steps,
                   Partway(ids, done, id, FRESH.(place := Settling, process := Dead(0), status := 0), Free, {}))
    ensures Comes(ids, more, taken, Partway(ids, done, id, PASSED, Free, {}))
  {
    var s := Partway(ids, done, id, FRESH.(place := Settling, process := Dead(0), status := 0), Free, {});
    var t := Partway(ids, done, id, FRESH.(place := Cleaning(0), process := Dead(0), status := 0), Free, {});
    more, taken := Goes(ids, states, steps, s, Settle(id), t);
    s := Partway(ids, done, id, PASSED.(place := Writing, written := -1), Free, {});
    more, taken := Goes(ids, more, taken, t, CleanupWorks(id), s);
    t := Partway(ids, done, id, PASSED, Free, {});
    more, taken := Goes(ids, more, taken, s, WriteStatus(id), t);
  }

  lemma {:induction false} SomePass(ids: set<nat>, done: set<nat>) returns (states: seq<State>, steps: seq<Step>)
    requires done <= ids
    ensures Comes(ids, states, steps, State(false, Free, {}, AllBut(ids, done), Idle, false, {}))
    decreases done
  {
    if done == {} {
      states, steps := [Init(ids)], [];
      assert Init(ids).threads == AllBut(ids, {});
    } else {
      var id :| id in done;
      var fewer := done - {id};
      states, steps := SomePass(ids, fewer);
      assert AllBut(ids, fewer)[id := FRESH] == AllBut(ids, fewer);
      states, steps := StartsOne(ids, fewer, id, states, steps);
      states, steps := ReturnsOne(ids, fewer, id, states, steps);
      states, steps := FinishesOne(ids, fewer, id, states, steps);
      assert AllBut(ids, fewer)[id := PASSED] == AllBut(ids, done);
    }
  }

  /** For any codeunits there is a run in which all write 0 and nobody asks to stop. */
  lemma AllCanPass(ids: set<nat>) returns (states: seq<State>, steps: seq<Step>)
    ensures IsRun(ids, states, steps) && !states[|steps|].stop
    ensures forall id :: id in ids ==> id in states[|steps|].threads && states[|steps|].threads[id] == PASSED
  {
    states, steps := SomePass(ids, ids);
  }
}
