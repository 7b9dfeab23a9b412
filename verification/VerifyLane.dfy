/**
 The reusable lane of `scripts/verify_snapshot.py`: starts that prepare it one at a time under a
 file lock, the receipts (`result.json`) of their runs, the runners that work in it, and the file
 `lane/latest`. A state machine over the atomic reads and writes, in any interleaving.
 */
module VerifyLane {

  /** What `result.json` says of a run, `Absent` before it is written. */
  datatype Status = Absent | Waiting | Running | Passed | Failed

  predicate Terminal(s: Status) {
    s.Passed? || s.Failed?
  }

  /** Where a reusing `start` stands; the places from `Locked` to `Named` hold the lock. */
  datatype Place =
    | Preparing                // the snapshot is frozen, the lock not yet taken
    | Locked
    | Probing(previous: nat)   // has read a receipt that says it is running
    | Marking(previous: nat)   // found its runner gone, about to write that it failed
    | Clear                    // `prepare_lane` has returned
    | Written                  // the receipt says queued
    | Launched                 // the runner is started
    | Named                    // `lane/latest` names this run
    | Released
    | Refused                  // the lane is still running: the run is removed
    | Killed                   // the starting process died

  /** The process that runs `run_snapshot`: the starting process itself unless it detaches. */
  datatype Runner = NoRunner | Live | Gone

  datatype Run = Run(place: Place, detached: bool, receipt: Status, runner: Runner, begun: bool, finished: bool)

  datatype Lock = Free | HeldBy(id: nat)

  /** `orphaned`: the runs whose detaching start died after it launched the runner and before `lane/latest` named it. */
  datatype State = State(lock: Lock, latest: Latest, runs: map<nat, Run>, orphaned: set<nat>)

  /** `lane/latest`. */
  datatype Latest = Nowhere | To(id: nat)

  datatype Step =
    | TakeLock(id: nat)
    | ReadLatest(id: nat)
    | Probe(id: nat, dead: bool)
    | MarkFailed(id: nat)
    | WriteReceipt(id: nat)
    | Launch(id: nat)
    | Name(id: nat)
    | Release(id: nat)
    | RunnerBegins(id: nat)
    | RunnerFinishes(id: nat, status: Status)
    | RunnerDies(id: nat)
    | StarterDies(id: nat)

  function Init(detached: map<nat, bool>): State {
    State(Free, Nowhere, map id | id in detached :: Run(Preparing, detached[id], Absent, NoRunner, false, false), {})
  }

  predicate HoldsLock(p: Place) {
    p.Locked? || p.Probing? || p.Marking? || p.Clear? || p.Written? || p.Launched? || p.Named?
  }

  predicate Known(s: State, id: nat) {
    id in s.runs && s.runs[id].receipt != Absent
  }

  predicate Enabled(s: State, step: Step) {
    step.id in s.runs &&
    var r := s.runs[step.id];
    match step
    case TakeLock(_) => r.place == Preparing && s.lock == Free
    case ReadLatest(_) => r.place == Locked && (s.latest.To? ==> Known(s, s.latest.id))
    case Probe(_, dead) => r.place.Probing? && Known(s, r.place.previous)
        && (dead ==> s.runs[r.place.previous].runner != Live)
    case MarkFailed(_) => r.place.Marking? && Known(s, r.place.previous)
    case WriteReceipt(_) => r.place == Clear
    case Launch(_) => r.place == Written
    case Name(_) => r.place == Launched
    case Release(_) => r.place == Named
    case RunnerBegins(_) => r.runner == Live && !r.begun && (r.detached || r.place == Released)
    case RunnerFinishes(_, status) => r.runner == Live && r.begun && !r.finished && Terminal(status)
    case RunnerDies(_) => r.runner == Live && (r.detached || r.place == Released)
    case StarterDies(_) => HoldsLock(r.place)
  }

  function With(s: State, id: nat, r: Run): (t: State)
    requires id in s.runs
    ensures t.runs.Keys == s.runs.Keys
  {
    s.(runs := s.runs[id := r])
  }

  function Apply(s: State, step: Step): (t: State)
    requires Enabled(s, step)
    ensures t.runs.Keys == s.runs.Keys
  {
    var id := step.id;
    var r := s.runs[id];
    match step
    case TakeLock(_) => With(s, id, r.(place := Locked)).(lock := HeldBy(id))
    case ReadLatest(_) =>
      if s.latest == Nowhere || Terminal(s.runs[s.latest.id].receipt) then With(s, id, r.(place := Clear))
      else if s.runs[s.latest.id].receipt.Running? then With(s, id, r.(place := Probing(s.latest.id)))
      else With(s, id, r.(place := Refused)).(lock := Free)
    case Probe(_, dead) =>
      if dead then With(s, id, r.(place := Marking(r.place.previous)))
      else With(s, id, r.(place := Refused)).(lock := Free)
    case MarkFailed(_) =>
      var previous := r.place.previous;
      var q := s.runs[previous];
      var marked := With(s, previous, q.(receipt := Failed));
      With(marked, id, marked.runs[id].(place := Clear))
    case WriteReceipt(_) =>
      With(s, id, r.(place := Written, receipt := Waiting, runner := if r.detached then NoRunner else Live))
    case Launch(_) => With(s, id, r.(place := Launched, runner := Live))
    case Name(_) => With(s, id, r.(place := Named)).(latest := To(id))
    case Release(_) => With(s, id, r.(place := Released)).(lock := Free)
    case RunnerBegins(_) => With(s, id, r.(receipt := Running, begun := true))
    case RunnerFinishes(_, status) => With(s, id, r.(receipt := status, finished := true))
    case RunnerDies(_) => With(s, id, r.(runner := Gone))
    case StarterDies(_) =>
      With(s, id, r.(place := Killed, runner := if !r.detached && r.runner == Live then Gone else r.runner))
        .(lock := Free, orphaned := s.orphaned + if r.detached && r.place == Launched then {id} else {})
  }

  // ------------------------------------------------------------------ what every step keeps

  /** Queued or running, with a runner that is alive. */
  predicate Busy(r: Run) {
    r.runner == Live && r.receipt != Absent && !Terminal(r.receipt)
  }

  predicate BeforeReceipt(p: Place) {
    p.Preparing? || p.Locked? || p.Probing? || p.Marking? || p.Clear? || p.Refused?
  }

  predicate RunValid(r: Run) {
    && (BeforeReceipt(r.place) ==> r.receipt == Absent && r.runner == NoRunner)
    && (!BeforeReceipt(r.place) && !r.place.Killed? ==> r.receipt != Absent)
    && (r.receipt == Absent ==> r.runner == NoRunner && !r.begun)
    && (r.finished ==> r.begun)
    && (r.receipt != Absent && !r.begun ==> r.receipt == Waiting)
    && (r.receipt != Absent && r.begun && !r.finished && r.runner == Live ==> r.receipt == Running)
    && (r.receipt != Absent && r.begun && !r.finished ==> !r.receipt.Waiting?)
    && (r.receipt != Absent && r.finished ==> Terminal(r.receipt))
    && (r.begun && !r.place.Killed? ==> r.place.Launched? || r.place.Named? || r.place.Released?)
    && (r.place.Launched? || r.place.Named? || r.place.Released? ==> r.runner != NoRunner)
    && (r.place.Written? && r.detached ==> r.runner == NoRunner)
    && (r.begun ==> r.runner != NoRunner)
    && (r.place.Killed? && !r.detached ==> r.runner != Live)
  }

  /** A busy run is the one named, or holds the lock on its way there. */
  predicate Accounted(s: State, id: nat)
    requires id in s.runs
  {
    s.latest == To(id) || (s.lock == HeldBy(id) && (s.runs[id].place.Written? || s.runs[id].place.Launched?))
  }

  /** The start that holds the lock has found the lane free. */
  predicate Owns(s: State, id: nat)
    requires id in s.runs
  {
    s.runs[id].place.Clear? || s.runs[id].place.Written? || s.runs[id].place.Launched? || s.runs[id].place.Named?
  }

  predicate RunInvariant(s: State, id: nat)
    requires id in s.runs
  {
    var r := s.runs[id];
    && RunValid(r)
    && (HoldsLock(r.place) <==> s.lock == HeldBy(id))
    && (r.place.Marking? ==> Known(s, r.place.previous) && s.runs[r.place.previous].runner != Live
                             && s.runs[r.place.previous].begun && s.latest == To(r.place.previous))
    && (r.place.Probing? ==> Known(s, r.place.previous) && s.runs[r.place.previous].begun
                             && s.latest == To(r.place.previous))
    && (id in s.orphaned ==> r.place.Killed? && s.latest != To(id))
    && (s.latest == To(id) ==> (r.place.Named? || r.place.Released? || r.place.Killed?) && r.runner != NoRunner)
    && (Busy(r) && id !in s.orphaned ==> Accounted(s, id))
    && (Busy(r) && id !in s.orphaned && s.lock.HeldBy? && s.lock.id in s.runs && Owns(s, s.lock.id) ==> id == s.lock.id)
  }

  ghost predicate Invariant(s: State) {
    && (s.lock.HeldBy? ==> s.lock.id in s.runs)
    && (s.latest.To? ==> Known(s, s.latest.id))
    && (forall id :: id in s.runs ==> RunInvariant(s, id))
  }

  lemma InitHolds(detached: map<nat, bool>)
    ensures Invariant(Init(detached))
  {
  }

  /** What a step may look at: the run it moves, the holder of the lock, and the run that is named. */
  predicate Around(s: State, step: Step) {
    && step.id in s.runs && RunInvariant(s, step.id)
    && (s.lock.HeldBy? ==> s.lock.id in s.runs && RunInvariant(s, s.lock.id))
    && (s.latest.To? ==> Known(s, s.latest.id) && RunInvariant(s, s.latest.id))
  }

  /** Looking at the lane, up to the decision. */
  predicate Looking(step: Step) {
    step.TakeLock? || step.ReadLatest? || step.Probe?
  }

  /** Filling it. */
  predicate Filling(step: Step) {
    step.WriteReceipt? || step.Launch? || step.Name? || step.Release?
  }

  lemma LookingKeeps(s: State, step: Step, id: nat)
    requires Around(s, step) && Enabled(s, step) && Looking(step) && id in s.runs && RunInvariant(s, id)
    ensures RunInvariant(Apply(s, step), id)
  {
  }

  lemma MarkingKeeps(s: State, step: Step, id: nat)
    requires Around(s, step) && Enabled(s, step) && step.MarkFailed? && id in s.runs && RunInvariant(s, id)
    ensures RunInvariant(Apply(s, step), id)
  {
  }

  lemma FillingKeeps(s: State, step: Step, id: nat)
    requires Around(s, step) && Enabled(s, step) && Filling(step) && id in s.runs && RunInvariant(s, id)
    ensures RunInvariant(Apply(s, step), id)
  {
  }

  lemma RunningKeeps(s: State, step: Step, id: nat)
    requires Around(s, step) && Enabled(s, step) && !Looking(step) && !Filling(step) && !step.MarkFailed?
    requires id in s.runs && RunInvariant(s, id)
    ensures RunInvariant(Apply(s, step), id)
  {
  }

  lemma StepKeepsLatest(s: State, step: Step)
    requires Around(s, step) && Enabled(s, step)
    ensures var t := Apply(s, step);
      (t.lock.HeldBy? ==> t.lock.id in t.runs) && (t.latest.To? ==> Known(t, t.latest.id))
  {
  }

  lemma StepKeepsInvariant(s: State, step: Step)
    requires Invariant(s) && Enabled(s, step)
    ensures Invariant(Apply(s, step))
  {
    assert Around(s, step);
    StepKeepsLatest(s, step);
    forall id | id in s.runs
      ensures RunInvariant(Apply(s, step), id)
    {
      assert RunInvariant(s, id);
      if Looking(step) {
        LookingKeeps(s, step, id);
      } else if step.MarkFailed? {
        MarkingKeeps(s, step, id);
      } else if Filling(step) {
        FillingKeeps(s, step, id);
      } else {
        RunningKeeps(s, step, id);
      }
    }
  }

  // ------------------------------------------------------------------ whole runs

  /** The states of a run: any interleaving of enabled steps, from any state on. */
  ghost predicate IsRun(states: seq<State>, steps: seq<Step>) {
    |states| == |steps| + 1 && forall k :: 0 <= k < |steps| ==> Steps(states, steps, k)
  }

  ghost predicate Steps(states: seq<State>, steps: seq<Step>, k: nat)
    requires k < |steps| && |states| == |steps| + 1
  {
    Enabled(states[k], steps[k]) && states[k + 1] == Apply(states[k], steps[k])
  }

  ghost predicate RunBetween(s: State, t: State, states: seq<State>, steps: seq<Step>) {
    IsRun(states, steps) && states[0] == s && states[|steps|] == t
  }

  /** Some run goes from `s` to `t`. */
  ghost predicate Leads(s: State, t: State) {
    exists states, steps :: RunBetween(s, t, states, steps)
  }

  ghost predicate Reachable(detached: map<nat, bool>, s: State) {
    Leads(Init(detached), s)
  }

  lemma LeadsSelf(s: State)
    ensures Leads(s, s)
  {
    assert RunBetween(s, s, [s], []);
  }

  lemma LeadsNext(s: State, t: State, step: Step)
    requires Leads(s, t) && Enabled(t, step)
    ensures Leads(s, Apply(t, step))
  {
    var states, steps :| RunBetween(s, t, states, steps);
    var u := Apply(t, step);
    forall k | 0 <= k <= |steps|
      ensures Steps(states + [u], steps + [step], k)
    {
      if k < |steps| {
        assert Steps(states, steps, k);
      }
    }
    assert RunBetween(s, u, states + [u], steps + [step]);
  }

  lemma LeadsTransitive(s: State, t: State, u: State)
    requires Leads(s, t) && Leads(t, u)
    ensures Leads(s, u)
  {
    var states, steps :| RunBetween(t, u, states, steps);
    LeadsAlong(s, states, steps, |steps|);
  }

  lemma {:induction false} LeadsAlong(s: State, states: seq<State>, steps: seq<Step>, k: nat)
    requires IsRun(states, steps) && k <= |steps| && Leads(s, states[0])
    ensures Leads(s, states[k])
  {
    if k > 0 {
      LeadsAlong(s, states, steps, k - 1);
      assert Steps(states, steps, k - 1);
      LeadsNext(s, states[k - 1], steps[k - 1]);
    }
  }

  lemma {:induction false} RunKeepsInvariant(states: seq<State>, steps: seq<Step>, k: nat)
    requires IsRun(states, steps) && k <= |steps| && Invariant(states[0])
    ensures Invariant(states[k]) && states[k].runs.Keys == states[0].runs.Keys
  {
    if k > 0 {
      RunKeepsInvariant(states, steps, k - 1);
      assert Steps(states, steps, k - 1);
      StepKeepsInvariant(states[k - 1], steps[k - 1]);
    }
  }

  /** Every reachable state of every interleaving. */
  lemma ReachableInvariant(detached: map<nat, bool>, s: State)
    requires Reachable(detached, s)
    ensures Invariant(s) && s.runs.Keys == detached.Keys
  {
    var states, steps :| RunBetween(Init(detached), s, states, steps);
    InitHolds(detached);
    RunKeepsInvariant(states, steps, |steps|);
  }

  // ------------------------------------------------------------------ one runner at a time

  ghost function BusyRuns(s: State): set<nat> {
    set id | id in s.runs && Busy(s.runs[id])
  }

  ghost function NamedRun(s: State): set<nat> {
    if s.latest.To? then {s.latest.id} else {}
  }

  /**
   In every interleaving: of the runs that are queued or running with a live runner, at most one is
   not orphaned; and whenever no start holds the lock, the ones that `lane/latest` does not name are
   exactly the orphaned ones.
   */
  lemma LaneIsExclusive(detached: map<nat, bool>, s: State)
    requires Reachable(detached, s)
    ensures forall p, q :: p in BusyRuns(s) - s.orphaned && q in BusyRuns(s) - s.orphaned ==> p == q
    ensures s.lock == Free ==> BusyRuns(s) - NamedRun(s) == BusyRuns(s) * s.orphaned
  {
    ReachableInvariant(detached, s);
    forall p, q | p in BusyRuns(s) - s.orphaned && q in BusyRuns(s) - s.orphaned
      ensures p == q
    {
      assert RunInvariant(s, p) && RunInvariant(s, q);
      if s.lock.HeldBy? {
        assert RunInvariant(s, s.lock.id);
      }
    }
    if s.lock == Free {
      forall p | p in BusyRuns(s)
        ensures p in NamedRun(s) <==> p !in s.orphaned
      {
        assert RunInvariant(s, p);
      }
    }
  }

  /** No two runs are busy, and the busy one is named whenever no start holds the lock. */
  ghost predicate Exclusive(s: State) {
    && (forall p, q :: p in BusyRuns(s) && q in BusyRuns(s) ==> p == q)
    && (s.lock == Free ==> BusyRuns(s) <= NamedRun(s))
  }

  /** In a state, with the lock free: exclusive exactly if no orphaned run is busy. */
  lemma ExclusiveIffNoBusyOrphan(detached: map<nat, bool>, s: State)
    requires Reachable(detached, s) && s.lock == Free
    ensures Exclusive(s) <==> BusyRuns(s) * s.orphaned == {}
  {
    LaneIsExclusive(detached, s);
    assert BusyRuns(s) - NamedRun(s) == {} <==> BusyRuns(s) <= NamedRun(s);
    if BusyRuns(s) * s.orphaned == {} {
      assert BusyRuns(s) - s.orphaned == BusyRuns(s);
    }
  }

  lemma StepKeepsDetached(s: State, step: Step, id: nat)
    requires Enabled(s, step) && id in s.runs
    ensures var t := Apply(s, step);
      t.runs[id].detached == s.runs[id].detached && (id in t.orphaned ==> id in s.orphaned || s.runs[id].detached)
  {
  }

  lemma StepOrphansKnown(s: State, step: Step)
    requires Enabled(s, step) && s.orphaned <= s.runs.Keys
    ensures Apply(s, step).orphaned <= s.runs.Keys
  {
  }

  /** Without a detaching start there is no orphan. */
  lemma {:induction false} OrphansDetached(detached: map<nat, bool>, states: seq<State>, steps: seq<Step>, k: nat)
    requires IsRun(states, steps) && k <= |steps| && states[0] == Init(detached)
    ensures states[k].runs.Keys == detached.Keys && states[k].orphaned <= detached.Keys
    ensures forall id :: id in detached ==> states[k].runs[id].detached == detached[id]
    ensures forall id :: id in states[k].orphaned ==> detached[id]
  {
    if k > 0 {
      OrphansDetached(detached, states, steps, k - 1);
      assert Steps(states, steps, k - 1);
      StepOrphansKnown(states[k - 1], steps[k - 1]);
      forall id | id in detached
        ensures states[k].runs[id].detached == detached[id] && (id in states[k].orphaned ==> detached[id])
      {
        StepKeepsDetached(states[k - 1], steps[k - 1], id);
      }
    }
  }

  lemma ReachableOrphans(detached: map<nat, bool>, s: State)
    requires Reachable(detached, s)
    ensures s.runs.Keys == detached.Keys && s.orphaned <= detached.Keys
    ensures forall id :: id in s.orphaned ==> detached[id]
  {
    var states, steps :| RunBetween(Init(detached), s, states, steps);
    OrphansDetached(detached, states, steps, |steps|);
  }

  // ------------------------------------------------------------------ continuations

  /** The lane can be taken at once: nothing is named, or the named run has ended. */
  predicate Vacant(s: State) {
    s.lock == Free && (s.latest.To? ==> s.latest.id in s.runs && Terminal(s.runs[s.latest.id].receipt))
  }

  predicate Waits(s: State, p: nat) {
    p in s.runs && s.runs[p].place == Preparing
  }

  /** `p` as its start leaves it behind, at the given place. */
  function Queued(p: Run, place: Place): Run {
    Run(place, p.detached, Waiting, Live, false, false)
  }

  /** A waiting start takes a vacant lane and launches its runner. */
  lemma TakesLane(s: State, p: nat) returns (t: State)
    requires Vacant(s) && Waits(s, p) && Invariant(s)
    ensures Leads(s, t) && t == State(HeldBy(p), s.latest, s.runs[p := Queued(s.runs[p], Launched)], s.orphaned)
  {
    assert RunInvariant(s, p);
    LeadsSelf(s);
    var locked := Apply(s, TakeLock(p));
    LeadsNext(s, s, TakeLock(p));
    t := FillsLane(s, locked, Apply(locked, ReadLatest(p)), ReadLatest(p), p);
  }

  /** From the step that finds the lane free on. */
  lemma FillsLane(s: State, before: State, clear: State, step: Step, p: nat) returns (t: State)
    requires Leads(s, before) && Enabled(before, step) && clear == Apply(before, step)
    requires clear.lock == HeldBy(p) && p in clear.runs && clear.runs[p].place == Clear
    requires !clear.runs[p].begun && !clear.runs[p].finished
    ensures Leads(s, t)
    ensures t == State(HeldBy(p), clear.latest, clear.runs[p := Queued(clear.runs[p], Launched)], clear.orphaned)
  {
    LeadsNext(s, before, step);
    LeadsNext(s, clear, WriteReceipt(p));
    var written := Apply(clear, WriteReceipt(p));
    LeadsNext(s, written, Launch(p));
    t := Apply(written, Launch(p));
    assert t.runs == clear.runs[p := Queued(clear.runs[p], Launched)];
  }

  /** ... and is named, and lets the lock go. */
  lemma GoesThrough(s: State, p: nat) returns (t: State)
    requires Vacant(s) && Waits(s, p) && Invariant(s)
    ensures Leads(s, t) && t == State(Free, To(p), s.runs[p := Queued(s.runs[p], Released)], s.orphaned)
  {
    var launched := TakesLane(s, p);
    LeadsNext(s, launched, Name(p));
    var named := Apply(launched, Name(p));
    LeadsNext(s, named, Release(p));
    t := Apply(named, Release(p));
    assert t.runs == s.runs[p := Queued(s.runs[p], Released)];
  }

  /** A detaching start that dies right after launching: its run is busy, unnamed and orphaned. */
  lemma LeavesOrphan(s: State, p: nat) returns (t: State)
    requires Vacant(s) && Waits(s, p) && Invariant(s) && s.runs[p].detached
    ensures Leads(s, t) && t == State(Free, s.latest, s.runs[p := Queued(s.runs[p], Killed)], s.orphaned + {p})
  {
    var launched := TakesLane(s, p);
    LeadsNext(s, launched, StarterDies(p));
    t := Apply(launched, StarterDies(p));
    assert t.runs == s.runs[p := Queued(s.runs[p], Killed)];
  }

  // ------------------------------------------------------------------ when the lane is exclusive

  ghost predicate AlwaysExclusive(detached: map<nat, bool>) {
    forall s {:trigger Reachable(detached, s)} :: Reachable(detached, s) ==> Exclusive(s)
  }

  lemma VacantAtFirst(detached: map<nat, bool>)
    ensures Reachable(detached, Init(detached)) && Vacant(Init(detached)) && Invariant(Init(detached))
    ensures forall p :: p in detached ==> Waits(Init(detached), p)
  {
    LeadsSelf(Init(detached));
    InitHolds(detached);
  }

  /** The lane is exclusive in every interleaving if and only if no start detaches. */
  lemma ExclusiveIffNoneDetaches(detached: map<nat, bool>)
    ensures AlwaysExclusive(detached) <==> forall id :: id in detached ==> !detached[id]
  {
    if id :| id in detached && detached[id] {
      VacantAtFirst(detached);
      var t := LeavesOrphan(Init(detached), id);
      assert Reachable(detached, t) && id in BusyRuns(t) && id !in NamedRun(t);
    } else {
      forall s | Reachable(detached, s)
        ensures Exclusive(s)
      {
        ReachableOrphans(detached, s);
        LaneIsExclusive(detached, s);
        assert s.orphaned == {};
        assert BusyRuns(s) - s.orphaned == BusyRuns(s) && BusyRuns(s) * s.orphaned == {};
      }
    }
  }

  ghost predicate AtMostOneBusy(s: State) {
    forall p, q :: p in BusyRuns(s) && q in BusyRuns(s) ==> p == q
  }

  ghost predicate NeverTwoBusy(detached: map<nat, bool>) {
    forall s {:trigger Reachable(detached, s)} :: Reachable(detached, s) ==> AtMostOneBusy(s)
  }

  /** A detaching start that dies right after launching leaves room for any second runner beside its own. */
  lemma OrphanSharesLane(detached: map<nat, bool>, p: nat, q: nat) returns (s: State)
    requires p in detached && q in detached && p != q && detached[p]
    ensures Reachable(detached, s) && p in BusyRuns(s) && q in BusyRuns(s)
  {
    VacantAtFirst(detached);
    var orphaned := LeavesOrphan(Init(detached), p);
    ReachableInvariant(detached, orphaned);
    s := GoesThrough(orphaned, q);
    LeadsTransitive(Init(detached), orphaned, s);
  }

  /**
   Two runners never work in the lane at once, in any interleaving, exactly if no detaching start has
   another start beside it.
   */
  lemma NeverTwoBusyIff(detached: map<nat, bool>)
    ensures NeverTwoBusy(detached) <==> forall p, q :: p in detached && q in detached && detached[p] ==> p == q
  {
    if p, q :| p in detached && q in detached && detached[p] && p != q {
      var s := OrphanSharesLane(detached, p, q);
      assert Reachable(detached, s) && !AtMostOneBusy(s);
    } else {
      forall s | Reachable(detached, s)
        ensures AtMostOneBusy(s)
      {
        ReachableInvariant(detached, s);
        ReachableOrphans(detached, s);
        LaneIsExclusive(detached, s);
        forall p, q | p in BusyRuns(s) && q in BusyRuns(s)
          ensures p == q
        {
          assert p in detached && q in detached;
          assert p in s.orphaned ==> detached[p];
          assert q in s.orphaned ==> detached[q];
        }
      }
    }
  }

  // ------------------------------------------------------------------ when the lane can be used again

  /** The named run is queued and its runner gone. */
  predicate NeverBegan(s: State) {
    s.latest.To? && s.latest.id in s.runs && s.runs[s.latest.id].receipt == Waiting
        && s.runs[s.latest.id].runner == Gone
  }

  /** ... and no start is past looking at it. */
  predicate Wedged(s: State) {
    NeverBegan(s) &&
    forall other :: other in s.runs ==>
      !Owns(s, other) && !s.runs[other].place.Marking? && !s.runs[other].place.Probing?
  }

  ghost function LiveRunners(s: State): set<nat> {
    set id | id in s.runs && s.runs[id].runner == Live
  }

  lemma StepStaysWedged(s: State, step: Step)
    requires Wedged(s) && Enabled(s, step)
    ensures Wedged(Apply(s, step)) && LiveRunners(Apply(s, step)) <= LiveRunners(s)
  {
    assert !Owns(s, step.id);
  }

  /**
   `receipt_state` looks for the runner of a running receipt only. So if the named runner is gone
   while its receipt still says queued, no later step of any start launches a runner.
   */
  lemma {:induction false} QueuedDeathWedgesLane(states: seq<State>, steps: seq<Step>, k: nat)
    requires IsRun(states, steps) && k <= |steps| && Wedged(states[0])
    ensures Wedged(states[k]) && LiveRunners(states[k]) <= LiveRunners(states[0])
  {
    if k > 0 {
      QueuedDeathWedgesLane(states, steps, k - 1);
      assert Steps(states, steps, k - 1);
      StepStaysWedged(states[k - 1], steps[k - 1]);
    }
  }

  /** Some continuation gives the start `p` a live runner. */
  ghost predicate CanLaunch(s: State, p: nat) {
    exists t :: Leads(s, t) && p in LiveRunners(t)
  }

  /** The named run still has work to do, and a live runner to do it. */
  lemma NamedRunEnds(s: State) returns (t: State)
    requires Invariant(s) && s.lock == Free && s.latest.To? && Busy(s.runs[s.latest.id])
    ensures Leads(s, t) && Vacant(t) && forall p :: Waits(s, p) ==> Waits(t, p)
    ensures Invariant(t)
  {
    var id := s.latest.id;
    assert RunInvariant(s, id);
    LeadsSelf(s);
    t := s;
    if s.runs[id].receipt == Waiting {
      LeadsNext(s, s, RunnerBegins(id));
      StepKeepsInvariant(s, RunnerBegins(id));
      t := Apply(s, RunnerBegins(id));
    }
    assert RunInvariant(t, id);
    LeadsNext(s, t, RunnerFinishes(id, Passed));
    StepKeepsInvariant(t, RunnerFinishes(id, Passed));
    t := Apply(t, RunnerFinishes(id, Passed));
  }

  /** The named run says that it is running and its runner is gone: the start marks it and takes the lane. */
  lemma TakesOver(s: State, p: nat) returns (t: State)
    requires Invariant(s) && s.lock == Free && Waits(s, p) && s.latest.To?
    requires s.runs[s.latest.id].receipt == Running && s.runs[s.latest.id].runner != Live
    ensures Leads(s, t) && p in LiveRunners(t)
  {
    assert RunInvariant(s, p);
    LeadsSelf(s);
    LeadsNext(s, s, TakeLock(p));
    var locked := Apply(s, TakeLock(p));
    LeadsNext(s, locked, ReadLatest(p));
    var probing := Apply(locked, ReadLatest(p));
    LeadsNext(s, probing, Probe(p, true));
    var marking := Apply(probing, Probe(p, true));
    t := FillsLane(s, marking, Apply(marking, MarkFailed(p)), MarkFailed(p), p);
  }

  /**
   In every reachable state with the lock free: a start that waits can still launch its runner if and
   only if it is not the case that the named run's receipt says queued and its runner is gone.
   */
  lemma UsableIffNamedRunnerBegan(detached: map<nat, bool>, s: State, p: nat)
    requires Reachable(detached, s) && s.lock == Free && Waits(s, p)
    ensures CanLaunch(s, p) <==> !NeverBegan(s)
  {
    ReachableInvariant(detached, s);
    assert RunInvariant(s, p);
    assert s.latest.To? ==> RunInvariant(s, s.latest.id);
    if NeverBegan(s) {
      forall other | other in s.runs
        ensures !Owns(s, other) && !s.runs[other].place.Marking? && !s.runs[other].place.Probing?
      {
        assert RunInvariant(s, other);
      }
      forall t | Leads(s, t)
        ensures p !in LiveRunners(t)
      {
        var states, steps :| RunBetween(s, t, states, steps);
        QueuedDeathWedgesLane(states, steps, |steps|);
      }
    } else if Vacant(s) {
      var t := TakesLane(s, p);
    } else if s.runs[s.latest.id].runner == Live {
      var ended := NamedRunEnds(s);
      var t := TakesLane(ended, p);
      LeadsTransitive(s, ended, t);
    } else {
      var t := TakesOver(s, p);
    }
  }

  /** Any start, going through alone, can come to that. */
  lemma LaneCanWedge(detached: map<nat, bool>, p: nat) returns (s: State)
    requires p in detached
    ensures Reachable(detached, s) && s.lock == Free && Wedged(s)
    ensures forall q :: q in detached && q != p ==> Waits(s, q)
  {
    VacantAtFirst(detached);
    var through := GoesThrough(Init(detached), p);
    LeadsNext(Init(detached), through, RunnerDies(p));
    s := Apply(through, RunnerDies(p));
  }

  /** Every waiting start can always launch, once the lock is free, exactly if there are no two starts. */
  lemma AlwaysUsableIffSingle(detached: map<nat, bool>)
    ensures AlwaysUsable(detached) <==> forall p, q :: p in detached && q in detached ==> p == q
  {
    if p, q :| p in detached && q in detached && p != q {
      var s := LaneCanWedge(detached, p);
      UsableIffNamedRunnerBegan(detached, s, q);
      assert Reachable(detached, s) && !Usable(s);
    } else {
      forall s | Reachable(detached, s)
        ensures Usable(s)
      {
        ReachableInvariant(detached, s);
        forall p | s.lock == Free && Waits(s, p)
          ensures CanLaunch(s, p)
        {
          assert RunInvariant(s, p);
          UsableIffNamedRunnerBegan(detached, s, p);
        }
      }
    }
  }

  ghost predicate Usable(s: State) {
    s.lock == Free ==> forall p :: Waits(s, p) ==> CanLaunch(s, p)
  }

  ghost predicate AlwaysUsable(detached: map<nat, bool>) {
    forall s {:trigger Reachable(detached, s)} :: Reachable(detached, s) ==> Usable(s)
  }

  // ------------------------------------------------------------------ when a passed receipt stays

  /** A start has read that `id` is running, and has not yet acted on it. */
  predicate Read(s: State, id: nat) {
    exists q :: q in s.runs && Reads(s.runs[q], id)
  }

  predicate SaysPassed(s: State, id: nat) {
    id in s.runs && s.runs[id].receipt == Passed
  }

  predicate Reads(r: Run, id: nat) {
    r.place == Probing(id) || r.place == Marking(id)
  }

  lemma StepReadsNothing(s: State, step: Step, id: nat, q: nat)
    requires Enabled(s, step) && SaysPassed(s, id) && q in s.runs && !Reads(s.runs[q], id)
    ensures !Reads(Apply(s, step).runs[q], id)
  {
  }

  lemma StepKeepsReceipt(s: State, step: Step, id: nat)
    requires Enabled(s, step) && SaysPassed(s, id) && RunInvariant(s, id) && RunInvariant(s, step.id)
             && !Reads(s.runs[step.id], id)
    ensures SaysPassed(Apply(s, step), id)
  {
  }

  lemma StepKeepsPassed(s: State, step: Step, id: nat)
    requires Invariant(s) && Enabled(s, step) && SaysPassed(s, id) && !Read(s, id)
    ensures SaysPassed(Apply(s, step), id) && !Read(Apply(s, step), id)
  {
    assert RunInvariant(s, id) && RunInvariant(s, step.id);
    StepKeepsReceipt(s, step, id);
    forall q | q in s.runs
      ensures !Reads(Apply(s, step).runs[q], id)
    {
      StepReadsNothing(s, step, id, q);
    }
  }

  lemma {:induction false} RunKeepsPassed(states: seq<State>, steps: seq<Step>, id: nat, k: nat)
    requires IsRun(states, steps) && k <= |steps| && Invariant(states[0]) && SaysPassed(states[0], id)
             && !Read(states[0], id)
    ensures SaysPassed(states[k], id) && !Read(states[k], id)
  {
    if k > 0 {
      RunKeepsPassed(states, steps, id, k - 1);
      RunKeepsInvariant(states, steps, k - 1);
      assert Steps(states, steps, k - 1);
      StepKeepsPassed(states[k - 1], steps[k - 1], id);
    }
  }

  /** The start that has read it goes on to write that it failed. */
  lemma ReaderOverwrites(s: State, id: nat, q: nat) returns (t: State)
    requires Invariant(s) && SaysPassed(s, id) && q in s.runs
    requires Reads(s.runs[q], id)
    ensures Leads(s, t) && id in t.runs && t.runs[id].receipt == Failed
  {
    assert RunInvariant(s, q) && RunInvariant(s, id);
    LeadsSelf(s);
    t := s;
    if s.runs[q].place == Probing(id) {
      if s.runs[id].runner == Live {
        LeadsNext(s, s, RunnerDies(id));
        t := Apply(s, RunnerDies(id));
      }
      LeadsNext(s, t, Probe(q, true));
      t := Apply(t, Probe(q, true));
    }
    LeadsNext(s, t, MarkFailed(q));
    t := Apply(t, MarkFailed(q));
  }

  ghost predicate StaysPassed(s: State, id: nat) {
    forall t :: Leads(s, t) ==> SaysPassed(t, id)
  }

  /**
   In every reachable state: a receipt that says passed goes on saying so in every continuation if
   and only if no start has read it while it was running and is still about to act on that.
   */
  lemma PassedStaysIffUnread(detached: map<nat, bool>, s: State, id: nat)
    requires Reachable(detached, s) && SaysPassed(s, id)
    ensures StaysPassed(s, id) <==> !Read(s, id)
  {
    ReachableInvariant(detached, s);
    if Read(s, id) {
      var q :| q in s.runs && Reads(s.runs[q], id);
      var t := ReaderOverwrites(s, id, q);
    } else {
      forall t | Leads(s, t)
        ensures SaysPassed(t, id)
      {
        var states, steps :| RunBetween(s, t, states, steps);
        RunKeepsPassed(states, steps, id, |steps|);
      }
    }
  }

  /** A second start reads that the named run is running; then that run passes. */
  lemma ReadsThenPasses(start: State, s: State, p: nat, q: nat) returns (t: State)
    requires Leads(start, s) && s.lock == Free && s.latest == To(p) && p in s.runs && Waits(s, q) && p != q
    requires s.runs[p].receipt == Running && s.runs[p].runner == Live && s.runs[p].begun && !s.runs[p].finished
    ensures Leads(start, t) && SaysPassed(t, p) && Read(t, p)
  {
    LeadsNext(start, s, TakeLock(q));
    t := Apply(s, TakeLock(q));
    LeadsNext(start, t, ReadLatest(q));
    t := Apply(t, ReadLatest(q));
    assert t.runs[q].place == Probing(p);
    LeadsNext(start, t, RunnerFinishes(p, Passed));
    t := Apply(t, RunnerFinishes(p, Passed));
    assert t.runs[q].place == Probing(p);
  }

  /** Any second start can read a run that then passes. */
  lemma PassesBehindReader(detached: map<nat, bool>, p: nat, q: nat) returns (s: State)
    requires p in detached && q in detached && p != q
    ensures Reachable(detached, s) && SaysPassed(s, p) && Read(s, p)
  {
    VacantAtFirst(detached);
    var through := GoesThrough(Init(detached), p);
    LeadsNext(Init(detached), through, RunnerBegins(p));
    s := ReadsThenPasses(Init(detached), Apply(through, RunnerBegins(p)), p, q);
  }

  /** Then it finds the runner gone and writes that the run failed, over the receipt that it passed. */
  lemma PassedReceiptCanBeLost(detached: map<nat, bool>, p: nat, q: nat) returns (s: State, t: State)
    requires p in detached && q in detached && p != q
    ensures Reachable(detached, s) && SaysPassed(s, p) && Leads(s, t) && p in t.runs && t.runs[p].receipt == Failed
  {
    s := PassesBehindReader(detached, p, q);
    ReachableInvariant(detached, s);
    var reader :| reader in s.runs && Reads(s.runs[reader], p);
    t := ReaderOverwrites(s, p, reader);
  }

  ghost predicate KeepsPassed(detached: map<nat, bool>) {
    forall s, id {:trigger Reachable(detached, s), SaysPassed(s, id)} ::
      Reachable(detached, s) && SaysPassed(s, id) ==> StaysPassed(s, id)
  }

  lemma SingleUnread(detached: map<nat, bool>, s: State, id: nat)
    requires Reachable(detached, s) && SaysPassed(s, id)
    requires forall p, q :: p in detached && q in detached ==> p == q
    ensures !Read(s, id)
  {
    ReachableInvariant(detached, s);
    forall q | q in s.runs
      ensures !Reads(s.runs[q], id)
    {
      assert RunInvariant(s, q) && q == id;
    }
  }

  /** No passed receipt is ever lost, in any interleaving, if and only if there are no two starts. */
  lemma KeepsPassedIffSingle(detached: map<nat, bool>)
    ensures KeepsPassed(detached) <==> forall p, q :: p in detached && q in detached ==> p == q
  {
    if p, q :| p in detached && q in detached && p != q {
      var s, t := PassedReceiptCanBeLost(detached, p, q);
      assert Reachable(detached, s) && SaysPassed(s, p) && Leads(s, t) && !SaysPassed(t, p);
    } else {
      forall s, id | Reachable(detached, s) && SaysPassed(s, id)
        ensures StaysPassed(s, id)
      {
        SingleUnread(detached, s, id);
        PassedStaysIffUnread(detached, s, id);
      }
    }
  }
}
