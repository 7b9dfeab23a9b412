/**
 The concurrent runner of `scripts/ut_milestone.py`: worker threads running `run_one`, a signal that
 sets `stop`, the `lock`, the `active` dictionary, and the main thread that sweeps it. A state
 machine whose steps are the atomic actions of the threads, in any interleaving.
 */
module TestRunner {

  /** The test process of one codeunit; `code` is what `wait` returns. */
  datatype Process = NotStarted | Live | Dead(code: int)

  datatype Lock = Free | Worker(id: nat) | Sweeper

  /** Where a thread stands in `run_one`. */
  datatype Place =
    | Queued       // the future has not begun
    | Cancelled    // ... and never will
    | WantStart    // `stop` was clear when first looked at
    | InStart      // holds the lock, has not looked at `stop` again
    | Spawning     // holds the lock and has found `stop` clear
    | Registering  // the process runs; still holds the lock
    | Waiting
    | Terminating  // the wait timed out
    | WantPop      // waiting is over, the process is to leave `active`
    | InPop        // ... and the lock is held for it
    | Settling     // looks at `stop` a last time
    | Cleaning(attempt: nat)
    | Writing      // about to write the status file
    | Done
    | Crashed      // the log or the status file could not be written

  /** `faulted`: waiting or terminating raised `OSError`; `written`: the status file, at first -1. */
  datatype Thread = Thread(place: Place, process: Process, status: int, faulted: bool, dropped: bool, written: int)

  /** The main thread between two waits, holding the lock, or terminating what it saw. */
  datatype Sweep = Idle | Looking | Killing(rest: set<nat>)

  /** `swept`: some sweep has taken the lock; `running`: the snapshot of the last sweep that looked. */
  datatype State = State(stop: bool, lock: Lock, active: set<nat>, threads: map<nat, Thread>,
                         sweep: Sweep, swept: bool, running: set<nat>)

  datatype Step =
    | StopSignal
    | Begin(id: nat)
    | Crash(id: nat)
    | TakeStartLock(id: nat)
    | TestStop(id: nat)
    | Spawn(id: nat)
    | SpawnFails(id: nat)
    | Register(id: nat)
    | Exit(id: nat, code: int)
    | WaitReturns(id: nat)
    | WaitTimesOut(id: nat)
    | Terminated(id: nat, code: int)
    | WaitFaults(id: nat)
    | TakePopLock(id: nat)
    | Pop(id: nat)
    | Settle(id: nat)
    | CleanupWorks(id: nat)
    | CleanupFails(id: nat)
    | WriteStatus(id: nat)
    | SweepTakeLock
    | SweepLook
    | SweepTerminate(id: nat, code: int)
    | SweepEnd
    | Cancel(id: nat)

  const ATTEMPTS := 3

  function Init(ids: set<nat>): State {
    State(false, Free, {}, map id | id in ids :: Thread(Queued, NotStarted, -1, false, false, -1),
          Idle, false, {})
  }

  function With(s: State, id: nat, t: Thread): (r: State)
    requires id in s.threads
    ensures r.threads.Keys == s.threads.Keys
  {
    s.(threads := s.threads[id := t])
  }

  /** The place a step of a thread starts from; `None` for steps of no thread. */
  predicate From(s: State, id: nat, place: Place) {
    id in s.threads && s.threads[id].place == place
  }

  predicate Enabled(s: State, step: Step) {
    match step
    case StopSignal => true
    case Begin(id) => From(s, id, Queued)
    case Crash(id) => id in s.threads && (s.threads[id].place in {Queued, Writing} || s.threads[id].place.Cleaning?)
    case TakeStartLock(id) => From(s, id, WantStart) && s.lock == Free
    case TestStop(id) => From(s, id, InStart)
    case Spawn(id) => From(s, id, Spawning)
    case SpawnFails(id) => From(s, id, Spawning)
    case Register(id) => From(s, id, Registering)
    case Exit(id, _) => id in s.threads && s.threads[id].process == Live
    case WaitReturns(id) => From(s, id, Waiting) && s.threads[id].process.Dead?
    case WaitTimesOut(id) => From(s, id, Waiting)
    case Terminated(id, _) => From(s, id, Terminating)
    case WaitFaults(id) => From(s, id, Waiting) || From(s, id, Terminating)
    case TakePopLock(id) => From(s, id, WantPop) && s.lock == Free
    case Pop(id) => From(s, id, InPop)
    case Settle(id) => From(s, id, Settling)
    case CleanupWorks(id) => id in s.threads && s.threads[id].place.Cleaning?
    case CleanupFails(id) => id in s.threads && s.threads[id].place.Cleaning?
    case WriteStatus(id) => From(s, id, Writing)
    case SweepTakeLock => s.stop && s.sweep == Idle && s.lock == Free
    case SweepLook => s.sweep == Looking
    case SweepTerminate(id, _) => s.sweep.Killing? && id in s.sweep.rest && id in s.threads
    case SweepEnd => s.sweep == Killing({})
    case Cancel(id) => s.stop && From(s, id, Queued)
  }

  /** `terminate` and `wait`: a process that already ended keeps its exit code. */
  function Ended(p: Process, code: int): Process {
    if p == Live then Dead(code) else p
  }

  function Apply(s: State, step: Step): (r: State)
    requires Enabled(s, step)
    ensures r.threads.Keys == s.threads.Keys
  {
    match step
    case StopSignal => s.(stop := true)
    case Begin(id) =>
      var t := s.threads[id];
      With(s, id, if s.stop then t.(status := 130, place := Writing) else t.(place := WantStart))
    case Crash(id) => With(s, id, s.threads[id].(place := Crashed))
    case TakeStartLock(id) => With(s, id, s.threads[id].(place := InStart)).(lock := Worker(id))
    case TestStop(id) =>
      var t := s.threads[id];
      if s.stop then With(s, id, t.(status := 130, place := Writing)).(lock := Free)
      else With(s, id, t.(place := Spawning))
    case Spawn(id) => With(s, id, s.threads[id].(process := Live, place := Registering))
    case SpawnFails(id) => With(s, id, s.threads[id].(status := 2, place := Writing)).(lock := Free)
    case Register(id) => With(s, id, s.threads[id].(place := Waiting)).(active := s.active + {id}, lock := Free)
    case Exit(id, code) => With(s, id, s.threads[id].(process := Dead(code)))
    case WaitReturns(id) =>
      var t := s.threads[id];
      With(s, id, t.(status := t.process.code, place := WantPop))
    case WaitTimesOut(id) => With(s, id, s.threads[id].(place := Terminating))
    case Terminated(id, code) =>
      var t := s.threads[id];
      With(s, id, t.(process := Ended(t.process, code), status := 124, place := WantPop))
    case WaitFaults(id) => With(s, id, s.threads[id].(faulted := true, place := WantPop))
    case TakePopLock(id) => With(s, id, s.threads[id].(place := InPop)).(lock := Worker(id))
    case Pop(id) =>
      var t := s.threads[id];
      With(s, id, if t.faulted then t.(status := 2, place := Cleaning(0)) else t.(place := Settling))
        .(active := s.active - {id}, lock := Free)
    case Settle(id) =>
      var t := s.threads[id];
      With(s, id, t.(status := if s.stop && t.status != 124 then 130 else t.status, place := Cleaning(0)))
    case CleanupWorks(id) => With(s, id, s.threads[id].(dropped := true, place := Writing))
    case CleanupFails(id) =>
      var t := s.threads[id];
      With(s, id, if t.place.attempt + 1 < ATTEMPTS then t.(place := Cleaning(t.place.attempt + 1))
                  else t.(status := 2, place := Writing))
    case WriteStatus(id) =>
      var t := s.threads[id];
      With(s, id, t.(written := t.status, place := Done))
    case SweepTakeLock => s.(lock := Sweeper, sweep := Looking, swept := true)
    case SweepLook => s.(lock := Free, sweep := Killing(s.active), running := s.active)
    case SweepTerminate(id, code) =>
      var t := s.threads[id];
      With(s, id, t.(process := Ended(t.process, code))).(sweep := Killing(s.sweep.rest - {id}))
    case SweepEnd => s.(sweep := Idle)
    case Cancel(id) => With(s, id, s.threads[id].(place := Cancelled))
  }

  // ------------------------------------------------------------------ what every step keeps

  predicate HoldsLock(p: Place) {
    p.InStart? || p.Spawning? || p.Registering? || p.InPop?
  }

  predicate NotYetStarted(p: Place) {
    p.Queued? || p.Cancelled? || p.WantStart? || p.InStart? || p.Spawning?
  }

  predicate InActive(p: Place) {
    p.Waiting? || p.Terminating? || p.WantPop? || p.InPop?
  }

  /** The thread by itself. */
  predicate ThreadValid(t: Thread) {
    && (NotYetStarted(t.place) ==> t.process == NotStarted)
    && (t.place.Registering? || InActive(t.place) || t.place.Settling? || t.place.Cleaning? ==> t.process != NotStarted)
    && (NotYetStarted(t.place) || t.place.Registering? || t.place.Waiting? || t.place.Terminating? || t.place.Settling?
        ==> !t.faulted)
    && (t.process == Live && !t.faulted ==> t.place.Registering? || t.place.Waiting? || t.place.Terminating?)
    && (t.status == 0 ==>
          !NotYetStarted(t.place) && !t.place.Registering? && !t.place.Waiting? && !t.place.Terminating?)
    && (t.status == 0 && !t.faulted ==> t.process == Dead(0))
    && (t.status == 0 && t.faulted ==> t.place.WantPop? || t.place.InPop?)
    && (t.status == 0 && (t.place.Writing? || t.place.Done?) ==> t.dropped)
    && (t.written == 0 ==> t.place.Done? && t.status == 0)
  }

  /** A process that is running, and whose waiting has not failed. */
  predicate Running(t: Thread) {
    t.process == Live && !t.faulted
  }

  predicate ThreadInvariant(s: State, id: nat)
    requires id in s.threads
  {
    var t := s.threads[id];
    && ThreadValid(t)
    && (HoldsLock(t.place) <==> s.lock == Worker(id))
    && (InActive(t.place) <==> id in s.active)
    && (s.swept ==> !t.place.Spawning? && !t.place.Registering?)
    && (s.sweep.Killing? && Running(t) ==> id in s.sweep.rest)
  }

  predicate SweepInvariant(s: State) {
    && (s.sweep == Looking <==> s.lock == Sweeper)
    && (s.swept ==> s.stop) && (s.sweep != Idle ==> s.swept)
  }

  ghost predicate Invariant(s: State) {
    && SweepInvariant(s)
    && (s.lock.Worker? ==> s.lock.id in s.threads)
    && (forall id :: id in s.active ==> id in s.threads)
    && (forall id :: id in s.threads ==> ThreadInvariant(s, id))
  }

  lemma InitHolds(ids: set<nat>)
    ensures Invariant(Init(ids))
  {
  }

  /** Steps that neither take the lock nor hold it. */
  predicate Queueing(step: Step) {
    step.Begin? || step.Crash? || step.Cancel?
  }

  /** Steps under the lock, up to the start of the process. */
  predicate Starting(step: Step) {
    step.TakeStartLock? || step.TestStop? || step.Spawn? || step.SpawnFails? || step.Register?
  }

  /** Steps from the running process to its removal from `active`. */
  predicate Awaiting(step: Step) {
    step.Exit? || step.WaitReturns? || step.WaitTimesOut? || step.Terminated? || step.WaitFaults? ||
    step.TakePopLock? || step.Pop?
  }

  /** Steps from there to the status file. */
  predicate Finishing(step: Step) {
    step.Settle? || step.CleanupWorks? || step.CleanupFails? || step.WriteStatus?
  }

  /** The signal, and the steps of the main thread. */
  predicate Sweeping(step: Step) {
    !Queueing(step) && !Starting(step) && !Awaiting(step) && !Finishing(step)
  }

  lemma QueueingKeeps(s: State, step: Step, id: nat)
    requires Queueing(step) && Enabled(s, step) && SweepInvariant(s) && ThreadInvariant(s, step.id)
    requires id in s.threads && ThreadInvariant(s, id)
    ensures ThreadInvariant(Apply(s, step), id)
  {
  }

  lemma StartingKeeps(s: State, step: Step, id: nat)
    requires Starting(step) && Enabled(s, step) && SweepInvariant(s) && ThreadInvariant(s, step.id)
    requires id in s.threads && ThreadInvariant(s, id)
    ensures ThreadInvariant(Apply(s, step), id)
  {
  }

  lemma AwaitingKeeps(s: State, step: Step, id: nat)
    requires Awaiting(step) && Enabled(s, step) && SweepInvariant(s) && ThreadInvariant(s, step.id)
    requires id in s.threads && ThreadInvariant(s, id)
    ensures ThreadInvariant(Apply(s, step), id)
  {
  }

  lemma FinishingKeeps(s: State, step: Step, id: nat)
    requires Finishing(step) && Enabled(s, step) && SweepInvariant(s) && ThreadInvariant(s, step.id)
    requires id in s.threads && ThreadInvariant(s, id)
    ensures ThreadInvariant(Apply(s, step), id)
  {
  }

  lemma SweepingKeeps(s: State, step: Step, id: nat)
    requires Enabled(s, step) && SweepInvariant(s) && Sweeping(step)
    requires id in s.threads && ThreadInvariant(s, id)
    ensures ThreadInvariant(Apply(s, step), id)
  {
  }

  lemma StepKeepsThread(s: State, step: Step, id: nat)
    requires Invariant(s) && Enabled(s, step) && id in s.threads
    ensures ThreadInvariant(Apply(s, step), id)
  {
    assert ThreadInvariant(s, id);
    assert Queueing(step) || Starting(step) || Awaiting(step) || Finishing(step) ==> ThreadInvariant(s, step.id);
    if Queueing(step) {
      QueueingKeeps(s, step, id);
    } else if Starting(step) {
      StartingKeeps(s, step, id);
    } else if Awaiting(step) {
      AwaitingKeeps(s, step, id);
    } else if Finishing(step) {
      FinishingKeeps(s, step, id);
    } else {
      SweepingKeeps(s, step, id);
    }
  }

  lemma StepKeepsInvariant(s: State, step: Step)
    requires Invariant(s) && Enabled(s, step)
    ensures Invariant(Apply(s, step))
  {
    var s' := Apply(s, step);
    forall id | id in s'.threads
      ensures ThreadInvariant(s', id)
    {
      StepKeepsThread(s, step, id);
    }
  }

  // ------------------------------------------------------------------ what a step does to one process

  /** Steps that end the process of `id` if it runs. */
  predicate Ends(step: Step, id: nat) {
    (step.Exit? || step.Terminated? || step.SweepTerminate?) && step.id == id
  }

  /**
   A process starts once and ends once; a thread gives up on it only where waiting fails, and does not
   come back to it.
   */
  predicate Follows(t: Thread, u: Thread, step: Step, id: nat) {
    && (|| u.process == t.process
        || (t.process == NotStarted && step == Spawn(id))
        || (t.process == Live && u.process.Dead? && Ends(step, id)))
    && (t.process == Live && Ends(step, id) ==> u.process.Dead?)
    && (t.faulted && !InActive(t.place) ==> u.faulted && !InActive(u.place))
    && (u.faulted ==> t.faulted || step == WaitFaults(id))
  }

  lemma QueueingFollows(s: State, step: Step, id: nat)
    requires Queueing(step) && Enabled(s, step) && id in s.threads && ThreadValid(s.threads[id])
    ensures Follows(s.threads[id], Apply(s, step).threads[id], step, id)
    ensures Apply(s, step).sweep == s.sweep && Apply(s, step).swept == s.swept
  {
    assert step.id != id ==> Apply(s, step).threads[id] == s.threads[id];
  }

  lemma StartingFollows(s: State, step: Step, id: nat)
    requires Starting(step) && Enabled(s, step) && id in s.threads && ThreadValid(s.threads[id])
    ensures Follows(s.threads[id], Apply(s, step).threads[id], step, id)
    ensures Apply(s, step).sweep == s.sweep && Apply(s, step).swept == s.swept
  {
    assert step.id != id ==> Apply(s, step).threads[id] == s.threads[id];
  }

  lemma AwaitingFollows(s: State, step: Step, id: nat)
    requires Awaiting(step) && Enabled(s, step) && id in s.threads && ThreadValid(s.threads[id])
    ensures Follows(s.threads[id], Apply(s, step).threads[id], step, id)
    ensures Apply(s, step).sweep == s.sweep && Apply(s, step).swept == s.swept
  {
    assert step.id != id ==> Apply(s, step).threads[id] == s.threads[id];
  }

  lemma FinishingFollows(s: State, step: Step, id: nat)
    requires Finishing(step) && Enabled(s, step) && id in s.threads && ThreadValid(s.threads[id])
    ensures Follows(s.threads[id], Apply(s, step).threads[id], step, id)
    ensures Apply(s, step).sweep == s.sweep && Apply(s, step).swept == s.swept
  {
    assert step.id != id ==> Apply(s, step).threads[id] == s.threads[id];
  }

  lemma SweepingFollows(s: State, step: Step, id: nat)
    requires Sweeping(step) && Enabled(s, step) && id in s.threads && ThreadValid(s.threads[id])
    ensures Follows(s.threads[id], Apply(s, step).threads[id], step, id)
  {
  }

  lemma StepFollows(s: State, step: Step, id: nat)
    requires Enabled(s, step) && id in s.threads && ThreadValid(s.threads[id])
    ensures Follows(s.threads[id], Apply(s, step).threads[id], step, id)
    ensures !Sweeping(step) ==> Apply(s, step).sweep == s.sweep && Apply(s, step).swept == s.swept
  {
    if Queueing(step) {
      QueueingFollows(s, step, id);
    } else if Starting(step) {
      StartingFollows(s, step, id);
    } else if Awaiting(step) {
      AwaitingFollows(s, step, id);
    } else if Finishing(step) {
      FinishingFollows(s, step, id);
    } else {
      SweepingFollows(s, step, id);
    }
  }

  /** What a sweep is about to terminate was in `active` when it looked, and becomes less by what ends. */
  lemma SweepStep(s: State, step: Step, id: nat)
    requires Sweeping(step) && Enabled(s, step) && SweepInvariant(s)
    ensures var t := Apply(s, step);
      && (t.sweep.Killing? && id in t.sweep.rest ==> id in s.active || (s.sweep.Killing? && id in s.sweep.rest))
      && (s.sweep.Killing? && !step.SweepEnd? ==>
            t.sweep.Killing? && (id in s.sweep.rest ==> id in t.sweep.rest || Ends(step, id)))
      && (s.swept ==> t.swept)
  {
  }

  // ------------------------------------------------------------------ whole runs

  /** The states of a run: any interleaving of enabled steps from the start. */
  ghost predicate IsRun(ids: set<nat>, states: seq<State>, steps: seq<Step>) {
    && |states| == |steps| + 1 && states[0] == Init(ids)
    && forall k :: 0 <= k < |steps| ==> Steps(states, steps, k)
  }

  ghost predicate Steps(states: seq<State>, steps: seq<Step>, k: nat)
    requires k < |steps| && |states| == |steps| + 1
  {
    Enabled(states[k], steps[k]) && states[k + 1] == Apply(states[k], steps[k])
  }

  lemma {:induction false} RunKeepsInvariant(ids: set<nat>, states: seq<State>, steps: seq<Step>, k: nat)
    requires IsRun(ids, states, steps) && k <= |steps|
    ensures Invariant(states[k]) && states[k].threads.Keys == ids
  {
    if k == 0 {
      InitHolds(ids);
    } else {
      RunKeepsInvariant(ids, states, steps, k - 1);
      assert Steps(states, steps, k - 1);
      StepKeepsInvariant(states[k - 1], steps[k - 1]);
    }
  }

  ghost function Alive(s: State): set<nat> {
    set id | id in s.threads && s.threads[id].process == Live
  }

  ghost function Started(s: State): set<nat> {
    set id | id in s.threads && s.threads[id].process != NotStarted
  }

  /** The processes that run on although their thread has given up on them: waiting raised `OSError`. */
  ghost function Abandoned(s: State): set<nat> {
    set id | id in s.threads && s.threads[id].process == Live && s.threads[id].faulted && !InActive(s.threads[id].place)
  }

  /**
   Whenever no worker holds the lock, the running processes outside `active` are exactly the abandoned
   ones. So every running process is in `active` if and only if no waiting has failed on one.
   */
  lemma AliveIsActive(ids: set<nat>, states: seq<State>, steps: seq<Step>, k: nat)
    requires IsRun(ids, states, steps) && k <= |steps| && !states[k].lock.Worker?
    ensures Alive(states[k]) - states[k].active == Abandoned(states[k])
    ensures Alive(states[k]) <= states[k].active <==> Abandoned(states[k]) == {}
  {
    var s := states[k];
    RunKeepsInvariant(ids, states, steps, k);
    forall id | id in s.threads
      ensures id in Alive(s) - s.active <==> id in Abandoned(s)
    {
      assert ThreadInvariant(s, id);
    }
    assert Alive(s) - s.active == Abandoned(s);
  }

  // ------------------------------------------------------------------ when every process is tracked

  /** Waiting fails on none but the given codeunits. */
  ghost predicate OnlyFaults(steps: seq<Step>, faulty: set<nat>) {
    forall k :: 0 <= k < |steps| && steps[k].WaitFaults? ==> steps[k].id in faulty
  }

  lemma StepFaults(s: State, step: Step, id: nat)
    requires Invariant(s) && Enabled(s, step) && id in s.threads
    ensures Apply(s, step).threads[id].faulted ==> s.threads[id].faulted || step == WaitFaults(id)
  {
    assert ThreadInvariant(s, id);
    StepFollows(s, step, id);
  }

  lemma {:induction false} FaultedIsFaulty(
    ids: set<nat>, states: seq<State>, steps: seq<Step>, faulty: set<nat>, k: nat, id: nat)
    requires IsRun(ids, states, steps) && OnlyFaults(steps, faulty) && k <= |steps| && id in ids
    ensures id in states[k].threads && (states[k].threads[id].faulted ==> id in faulty)
  {
    RunKeepsInvariant(ids, states, steps, k);
    if k > 0 {
      FaultedIsFaulty(ids, states, steps, faulty, k - 1, id);
      RunKeepsInvariant(ids, states, steps, k - 1);
      assert Steps(states, steps, k - 1);
      StepFaults(states[k - 1], steps[k - 1], id);
    }
  }

  /** Where waiting fails on none of the codeunits, nothing is ever abandoned. */
  lemma NoneAbandoned(ids: set<nat>, states: seq<State>, steps: seq<Step>, faulty: set<nat>, k: nat)
    requires IsRun(ids, states, steps) && OnlyFaults(steps, faulty) && k <= |steps| && ids !! faulty
    ensures Abandoned(states[k]) == {}
  {
    RunKeepsInvariant(ids, states, steps, k);
    forall id | id in states[k].threads
      ensures id !in Abandoned(states[k])
    {
      FaultedIsFaulty(ids, states, steps, faulty, k, id);
    }
  }

  /** In every such run, whenever no worker holds the lock, every live process is in `active`. */
  ghost predicate AlwaysTracked(ids: set<nat>, faulty: set<nat>) {
    forall states, steps :: IsRun(ids, states, steps) && OnlyFaults(steps, faulty) ==> Tracks(states)
  }

  ghost predicate Tracks(states: seq<State>) {
    forall k :: 0 <= k < |states| && !states[k].lock.Worker? ==> Alive(states[k]) <= states[k].active
  }

  /** A run with one more step, no wait failing in it outside `faulty`. */
  lemma Extend(ids: set<nat>, faulty: set<nat>, states: seq<State>, steps: seq<Step>, step: Step)
    returns (more: seq<State>)
    requires IsRun(ids, states, steps) && OnlyFaults(steps, faulty) && Enabled(states[|steps|], step)
    requires step.WaitFaults? ==> step.id in faulty
    ensures IsRun(ids, more, steps + [step]) && OnlyFaults(steps + [step], faulty)
    ensures more[|steps| + 1] == Apply(states[|steps|], step)
  {
    more := states + [Apply(states[|steps|], step)];
    forall k | 0 <= k <= |steps|
      ensures Steps(more, steps + [step], k)
    {
      if k < |steps| {
        assert Steps(states, steps, k);
      }
    }
  }

  /** Only codeunit `id` has moved: its thread, the lock, and whether it is in `active`. */
  function Solo(
    ids: set<nat>, id: nat, place: Place, process: Process, faulted: bool, lock: Lock, active: set<nat>): State {
    var threads := Init(ids).threads[id := Thread(place, process, -1, faulted, false, -1)];
    State(false, lock, active, threads, Idle, false, {})
  }

  lemma SoloStart(ids: set<nat>, id: nat) returns (states: seq<State>, steps: seq<Step>)
    requires id in ids
    ensures IsRun(ids, states, steps) && OnlyFaults(steps, {id})
    ensures states[|steps|] == Solo(ids, id, Registering, Live, false, Worker(id), {})
  {
    states, steps := [Init(ids)], [];
    assert Init(ids) == Solo(ids, id, Queued, NotStarted, false, Free, {});
    states := Extend(ids, {id}, states, steps, Begin(id));
    steps := steps + [Begin(id)];
    assert states[|steps|] == Solo(ids, id, WantStart, NotStarted, false, Free, {});
    states := Extend(ids, {id}, states, steps, TakeStartLock(id));
    steps := steps + [TakeStartLock(id)];
    assert states[|steps|] == Solo(ids, id, InStart, NotStarted, false, Worker(id), {});
    states := Extend(ids, {id}, states, steps, TestStop(id));
    steps := steps + [TestStop(id)];
    assert states[|steps|] == Solo(ids, id, Spawning, NotStarted, false, Worker(id), {});
    states := Extend(ids, {id}, states, steps, Spawn(id));
    steps := steps + [Spawn(id)];
  }

  lemma SoloFaults(ids: set<nat>, id: nat) returns (states: seq<State>, steps: seq<Step>)
    requires id in ids
    ensures IsRun(ids, states, steps) && OnlyFaults(steps, {id})
    ensures states[|steps|] == Solo(ids, id, WantPop, Live, true, Free, {id})
  {
    states, steps := SoloStart(ids, id);
    states := Extend(ids, {id}, states, steps, Register(id));
    steps := steps + [Register(id)];
    assert states[|steps|] == Solo(ids, id, Waiting, Live, false, Free, {id});
    states := Extend(ids, {id}, states, steps, WaitFaults(id));
    steps := steps + [WaitFaults(id)];
  }

  /** Of any codeunit: where waiting on it fails, its thread can leave the running process outside `active`. */
  lemma WaitFaultAbandons(ids: set<nat>, id: nat) returns (states: seq<State>, steps: seq<Step>)
    requires id in ids
    ensures IsRun(ids, states, steps) && OnlyFaults(steps, {id}) && states[|steps|].lock == Free
    ensures id in Alive(states[|steps|]) - states[|steps|].active
    ensures states[|steps|].sweep == Idle && states[|steps|].active == {}
  {
    states, steps := SoloFaults(ids, id);
    states := Extend(ids, {id}, states, steps, TakePopLock(id));
    steps := steps + [TakePopLock(id)];
    assert states[|steps|] == Solo(ids, id, InPop, Live, true, Worker(id), {id});
    states := Extend(ids, {id}, states, steps, Pop(id));
    steps := steps + [Pop(id)];
  }

  lemma UnfaultedTracks(ids: set<nat>, states: seq<State>, steps: seq<Step>, faulty: set<nat>)
    requires IsRun(ids, states, steps) && OnlyFaults(steps, faulty) && ids !! faulty
    ensures Tracks(states)
  {
    forall k | 0 <= k < |states| && !states[k].lock.Worker?
      ensures Alive(states[k]) <= states[k].active
    {
      NoneAbandoned(ids, states, steps, faulty, k);
      AliveIsActive(ids, states, steps, k);
    }
  }

  /**
   In all interleavings, every live process is in `active` whenever no worker holds the lock, if and
   only if waiting fails on none of the codeunits.
   */
  lemma AlwaysTrackedIffNoFaults(ids: set<nat>, faulty: set<nat>)
    ensures AlwaysTracked(ids, faulty) <==> ids !! faulty
  {
    if id :| id in ids && id in faulty {
      var states, steps := WaitFaultAbandons(ids, id);
      assert OnlyFaults(steps, faulty) && !Tracks(states);
    } else {
      forall states, steps | IsRun(ids, states, steps) && OnlyFaults(steps, faulty)
        ensures Tracks(states)
      {
        UnfaultedTracks(ids, states, steps, faulty);
      }
    }
  }

  /** Once a sweep has taken the lock, no process is ever started again. */
  lemma {:induction false} NoStartAfterSweep(ids: set<nat>, states: seq<State>, steps: seq<Step>, j: nat, k: nat)
    requires IsRun(ids, states, steps) && j <= k <= |steps| && states[j].swept
    ensures states[k].swept && Started(states[k]) == Started(states[j])
    decreases k
  {
    if j < k {
      NoStartAfterSweep(ids, states, steps, j, k - 1);
      RunKeepsInvariant(ids, states, steps, k - 1);
      assert Steps(states, steps, k - 1);
      SweptStepStartsNothing(states[k - 1], steps[k - 1]);
    }
  }

  lemma SweptStepStartsNothing(s: State, step: Step)
    requires Invariant(s) && Enabled(s, step) && s.swept
    ensures Apply(s, step).swept && Started(Apply(s, step)) == Started(s)
  {
    if Sweeping(step) {
      SweepStep(s, step, 0);
    }
    forall id | id in s.threads
      ensures Apply(s, step).threads[id].process == NotStarted <==> s.threads[id].process == NotStarted
      ensures Apply(s, step).swept
    {
      assert ThreadInvariant(s, id);
      StepFollows(s, step, id);
    }
  }

  // ------------------------------------------------------------------ what a sweep leaves running

  /** Abandoned, and not about to be terminated by the sweep that is under way. */
  ghost predicate BeyondSweep(s: State, id: nat) {
    id in Abandoned(s) && (s.sweep.Killing? ==> id !in s.sweep.rest)
  }

  /** The process ended by itself at some step from `j` on, before `k`. */
  ghost predicate Exited(steps: seq<Step>, j: nat, k: nat, id: nat)
    requires k <= |steps|
  {
    exists i :: j <= i < k && steps[i].Exit? && steps[i].id == id
  }

  lemma StepBeyondSweep(s: State, step: Step, id: nat)
    requires Invariant(s) && Enabled(s, step) && BeyondSweep(s, id)
    ensures if step.Exit? && step.id == id then Apply(s, step).threads[id].process.Dead?
            else BeyondSweep(Apply(s, step), id)
  {
    assert ThreadInvariant(s, id);
    StepFollows(s, step, id);
    if Sweeping(step) {
      SweepStep(s, step, id);
    }
  }

  lemma ExitedNext(steps: seq<Step>, j: nat, k: nat, id: nat)
    requires j <= k < |steps|
    ensures Exited(steps, j, k + 1, id) <==> Exited(steps, j, k, id) || (steps[k].Exit? && steps[k].id == id)
  {
  }

  /** Whatever happens, sweeps included: an abandoned process runs on until it ends by itself. */
  lemma {:induction false} AbandonedUntilExit(
    ids: set<nat>, states: seq<State>, steps: seq<Step>, j: nat, k: nat, id: nat)
    requires IsRun(ids, states, steps) && j <= k <= |steps| && BeyondSweep(states[j], id)
    ensures id in states[k].threads
    ensures if Exited(steps, j, k, id) then states[k].threads[id].process.Dead? else BeyondSweep(states[k], id)
    decreases k
  {
    if j < k {
      AbandonedUntilExit(ids, states, steps, j, k - 1, id);
      RunKeepsInvariant(ids, states, steps, k - 1);
      assert Steps(states, steps, k - 1);
      ExitedNext(steps, j, k - 1, id);
      if Exited(steps, j, k - 1, id) {
        assert ThreadInvariant(states[k - 1], id);
        StepFollows(states[k - 1], steps[k - 1], id);
      } else {
        StepBeyondSweep(states[k - 1], steps[k - 1], id);
      }
    }
  }

  /** From `j`, where it looks at `active`, to `k`, where it has terminated all it saw. */
  ghost predicate IsSweep(steps: seq<Step>, j: nat, k: nat) {
    j < k < |steps| && steps[j].SweepLook? && steps[k].SweepEnd? && forall i :: j < i < k ==> !steps[i].SweepEnd?
  }

  lemma StepSweeps(s: State, step: Step, id: nat)
    requires Invariant(s) && Enabled(s, step) && s.sweep.Killing? && s.swept && !step.SweepEnd?
    requires id in s.threads && (s.threads[id].process == Live ==> id in s.sweep.rest)
    ensures var t := Apply(s, step);
      t.sweep.Killing? && t.swept && (t.threads[id].process == Live ==> id in t.sweep.rest)
  {
    assert ThreadInvariant(s, id);
    StepFollows(s, step, id);
    if Sweeping(step) {
      SweepStep(s, step, id);
    }
  }

  lemma {:induction false} DuringSweep(
    ids: set<nat>, states: seq<State>, steps: seq<Step>, j: nat, k: nat, m: nat, id: nat)
    requires IsRun(ids, states, steps) && IsSweep(steps, j, k) && j < m <= k && id in ids && id !in Abandoned(states[j])
    ensures id in states[m].threads && states[m].sweep.Killing? && states[m].swept
    ensures states[m].threads[id].process == Live ==> id in states[m].sweep.rest
    decreases m
  {
    RunKeepsInvariant(ids, states, steps, m - 1);
    assert Steps(states, steps, m - 1);
    if m == j + 1 {
      assert ThreadInvariant(states[j], id);
    } else {
      DuringSweep(ids, states, steps, j, k, m - 1, id);
      StepSweeps(states[m - 1], steps[m - 1], id);
    }
  }

  /**
   A whole sweep, in any interleaving. Its snapshot misses exactly the abandoned processes; and when
   it has terminated what it saw, exactly those of them still run that did not end by themselves.
   */
  lemma SweepLeavesAbandoned(ids: set<nat>, states: seq<State>, steps: seq<Step>, j: nat, k: nat)
    requires IsRun(ids, states, steps) && IsSweep(steps, j, k)
    ensures Alive(states[j]) - states[j + 1].running == Abandoned(states[j])
    ensures forall id :: id in Alive(states[k]) <==> id in Abandoned(states[j]) && !Exited(steps, j, k, id)
  {
    RunKeepsInvariant(ids, states, steps, j);
    RunKeepsInvariant(ids, states, steps, k);
    assert Steps(states, steps, j) && Steps(states, steps, k);
    AliveIsActive(ids, states, steps, j);
    forall id | id in ids
      ensures id in Alive(states[k]) <==> id in Abandoned(states[j]) && !Exited(steps, j, k, id)
    {
      if id in Abandoned(states[j]) {
        AbandonedUntilExit(ids, states, steps, j, k, id);
      } else {
        DuringSweep(ids, states, steps, j, k, k, id);
      }
    }
  }

  /** After a sweep has taken the lock, whatever runs has been running all along. */
  lemma {:induction false} AliveShrinks(ids: set<nat>, states: seq<State>, steps: seq<Step>, j: nat, k: nat)
    requires IsRun(ids, states, steps) && j <= k <= |steps| && states[j].swept
    ensures Alive(states[k]) <= Alive(states[j])
    decreases k
  {
    if j < k {
      AliveShrinks(ids, states, steps, j, k - 1);
      NoStartAfterSweep(ids, states, steps, j, k - 1);
      RunKeepsInvariant(ids, states, steps, k - 1);
      assert Steps(states, steps, k - 1);
      forall id | id in Alive(states[k])
        ensures id in Alive(states[k - 1])
      {
        assert ThreadInvariant(states[k - 1], id);
        StepFollows(states[k - 1], steps[k - 1], id);
      }
    }
  }

  /** Of any codeunit: where waiting on it fails, a whole sweep can leave its process running. */
  lemma SweepMissesOne(ids: set<nat>, id: nat) returns (states: seq<State>, steps: seq<Step>, j: nat)
    requires id in ids
    ensures IsRun(ids, states, steps) && OnlyFaults(steps, {id}) && j < |steps| && IsSweep(steps, j, |steps| - 1)
    ensures id in Alive(states[|steps|])
  {
    states, steps := WaitFaultAbandons(ids, id);
    states := Extend(ids, {id}, states, steps, StopSignal);
    steps := steps + [StopSignal];
    states := Extend(ids, {id}, states, steps, SweepTakeLock);
    steps := steps + [SweepTakeLock];
    j := |steps|;
    states := Extend(ids, {id}, states, steps, SweepLook);
    steps := steps + [SweepLook];
    assert states[|steps|].sweep == Killing({});
    states := Extend(ids, {id}, states, steps, SweepEnd);
    steps := steps + [SweepEnd];
  }

  /** The snapshot of the sweep holds every live process, and from its end on none runs any more. */
  ghost predicate Sweeps(states: seq<State>, steps: seq<Step>, j: nat, k: nat)
    requires |states| == |steps| + 1 && IsSweep(steps, j, k)
  {
    Alive(states[j]) <= states[j + 1].running && forall m :: k <= m < |states| ==> Alive(states[m]) == {}
  }

  /** In every such run, every whole sweep. */
  ghost predicate SweepsClean(ids: set<nat>, faulty: set<nat>) {
    forall states, steps, j, k {:trigger IsRun(ids, states, steps), OnlyFaults(steps, faulty), IsSweep(steps, j, k)} ::
      IsRun(ids, states, steps) && OnlyFaults(steps, faulty) && IsSweep(steps, j, k) ==> Sweeps(states, steps, j, k)
  }

  lemma SweptFromThen(ids: set<nat>, states: seq<State>, steps: seq<Step>, j: nat, k: nat)
    requires IsRun(ids, states, steps) && IsSweep(steps, j, k) && Abandoned(states[j]) == {}
    ensures Sweeps(states, steps, j, k)
  {
    SweepLeavesAbandoned(ids, states, steps, j, k);
    RunKeepsInvariant(ids, states, steps, k);
    assert Steps(states, steps, k);
    assert Alive(states[k]) == {};
    forall id | id in Alive(states[j])
      ensures id in states[j + 1].running
    {
      assert id !in Abandoned(states[j]);
    }
    forall m | k <= m < |states|
      ensures Alive(states[m]) == {}
    {
      AliveShrinks(ids, states, steps, k, m);
    }
  }

  /**
   In all interleavings, every whole sweep sees every live process and leaves none running, if and
   only if waiting fails on none of the codeunits.
   */
  lemma SweepsCleanIffNoFaults(ids: set<nat>, faulty: set<nat>)
    ensures SweepsClean(ids, faulty) <==> ids !! faulty
  {
    if id :| id in ids && id in faulty {
      var states, steps, j := SweepMissesOne(ids, id);
      assert OnlyFaults(steps, faulty);
      assert !Sweeps(states, steps, j, |steps| - 1);
    } else {
      forall states, steps, j, k | IsRun(ids, states, steps) && OnlyFaults(steps, faulty) && IsSweep(steps, j, k)
        ensures Sweeps(states, steps, j, k)
      {
        NoneAbandoned(ids, states, steps, faulty, j);
        SweptFromThen(ids, states, steps, j, k);
      }
    }
  }

  /** A status file that says 0 was written for a process that started and exited 0, its database dropped. */
  lemma ZeroStatusMeansCleanRun(ids: set<nat>, states: seq<State>, steps: seq<Step>, k: nat, id: nat)
    requires IsRun(ids, states, steps) && k <= |steps|
    requires id in states[k].threads && states[k].threads[id].written == 0
    ensures var t := states[k].threads[id]; t.place.Done? && t.process == Dead(0) && t.dropped
  {
    RunKeepsInvariant(ids, states, steps, k);
    assert ThreadInvariant(states[k], id);
  }
}
