/**
 The provenance row of `scripts/seed_demo.py`: seeding runs that insert it and verifying runs that
 resume it, each going through the shared tables and then closing the row with a guarded update.
 */
module SeedProvenance {
  import opened SeedColumns
  import opened SeedTables

  /** The singleton row: `id` and the rest of the details that identify a seed. */
  datatype Row = NoRow | Row(status: Status, id: nat, identity: nat)

  datatype Place = Fresh | Going | Closed | Aborted

  /**
   A run of the script. `tables` are the shared tables, with what moving each will come to; `next`
   counts those gone through, `refused` the refusals among them and `rows` the rows counted.
   */
  datatype Seed = Seed(
    place: Place, verify: bool, id: nat, identity: nat, tables: seq<Table>, next: nat, refused: nat, rows: nat)

  datatype State = State(row: Row, seeds: map<nat, Seed>)

  datatype Step =
    | Begin(run: nat)     // begin_seed: INSERT
    | Resume(run: nat)    // resume_seed
    | Take(run: nat)      // the next table: skipped, refused, carried, or read back and found equal
    | Close(run: nat)     // finish_seed: guarded UPDATE
    | Abort(run: nat)     // any failure in between

  predicate Unstarted(seed: Seed) {
    seed.place == Fresh && seed.next == 0 && seed.refused == 0 && seed.rows == 0
  }

  predicate Init(s: State) {
    s.row == NoRow && forall r :: r in s.seeds ==> Unstarted(s.seeds[r])
  }

  predicate Enabled(s: State, step: Step) {
    step.run in s.seeds &&
    var seed := s.seeds[step.run];
    match step
    case Begin(_) => seed.place == Fresh && !seed.verify
    case Resume(_) => seed.place == Fresh && seed.verify
    case Take(_) => seed.place == Going && seed.next < |seed.tables|
    case Close(_) => seed.place == Going && seed.next == |seed.tables|
    case Abort(_) => seed.place == Fresh || seed.place == Going
  }

  /** The WHERE clause of `finish_seed`. */
  predicate Closable(row: Row, id: nat) {
    row.Row? && (row.status == Building || row.status == Failed) && row.id == id
  }

  function With(s: State, run: nat, seed: Seed): (t: State)
    requires run in s.seeds
    ensures t.seeds.Keys == s.seeds.Keys && t.row == s.row
  {
    s.(seeds := s.seeds[run := seed])
  }

  /** One turn of the table loop. */
  ghost function Taken(system: Fields, seed: Seed): Seed
    requires seed.next < |seed.tables|
  {
    var t := seed.tables[seed.next];
    seed.(next := seed.next + 1, refused := seed.refused + (if Refused(system, t) then 1 else 0),
          rows := seed.rows + RowsOf(system, t))
  }

  ghost function Apply(system: Fields, s: State, step: Step): (t: State)
    requires Enabled(s, step)
    ensures t.seeds.Keys == s.seeds.Keys
  {
    var run := step.run;
    var seed := s.seeds[run];
    match step
    case Begin(_) =>
      if s.row.NoRow? then With(s, run, seed.(place := Going)).(row := Row(Building, seed.id, seed.identity))
      else With(s, run, seed.(place := Aborted))
    case Resume(_) =>
      if s.row.Row? && s.row.status != Complete && s.row.identity == seed.identity
      then With(s, run, seed.(place := Going, id := s.row.id))
      else With(s, run, seed.(place := Aborted))
    case Take(_) => With(s, run, Taken(system, seed))
    case Close(_) =>
      if Closable(s.row, seed.id)
      then With(s, run, seed.(place := Closed)).(row := Row(StatusOf(seed.refused, seed.rows), seed.id, seed.identity))
      else With(s, run, seed.(place := Aborted))
    case Abort(_) => With(s, run, seed.(place := Aborted))
  }

  /** `seed_identity` of the UT runner: nothing to say, the identity, or a refusal. */
  datatype Admission = Unseeded | Admitted(id: nat) | NotAdmitted

  function SeedIdentity(row: Row): Admission {
    match row
    case NoRow => Unseeded
    case Row(status, id, _) => if status == Complete then Admitted(id) else NotAdmitted
  }

  // ------------------------------------------------------------------ what every step keeps

  /** A run that closed the row, having moved all its tables. */
  ghost predicate Thorough(system: Fields, seed: Seed) {
    seed.place == Closed && AllMoved(system, seed.tables)
  }

  ghost predicate CompletedBy(system: Fields, s: State, id: nat, identity: nat) {
    exists r :: r in s.seeds && Thorough(system, s.seeds[r]) && s.seeds[r].id == id && s.seeds[r].identity == identity
  }

  /** The counters of a run are those of the tables it has gone through. */
  ghost predicate Counted(system: Fields, seed: Seed) {
    && seed.next <= |seed.tables|
    && seed.refused == Refusals(system, seed.tables[..seed.next])
    && seed.rows == Rows(system, seed.tables[..seed.next])
  }

  /** A run under way, or one that closed the row, carries the identity of the row. */
  ghost predicate SeedInvariant(system: Fields, row: Row, seed: Seed) {
    && Counted(system, seed)
    && (seed.place == Going || seed.place == Closed ==> row.Row? && seed.id == row.id && seed.identity == row.identity)
    && (Thorough(system, seed) ==> row.Row? && row.status == Complete)
  }

  ghost predicate Invariant(system: Fields, s: State) {
    && (forall r :: r in s.seeds ==> SeedInvariant(system, s.row, s.seeds[r]))
    && (s.row.Row? && s.row.status == Complete ==> CompletedBy(system, s, s.row.id, s.row.identity))
  }

  lemma InitHolds(system: Fields, s: State)
    requires Init(s)
    ensures Invariant(system, s)
  {
    forall r | r in s.seeds
      ensures SeedInvariant(system, s.row, s.seeds[r])
    {
      assert Unstarted(s.seeds[r]) && s.seeds[r].tables[..0] == [];
    }
  }

  lemma TakenIsCounted(system: Fields, seed: Seed)
    requires Counted(system, seed) && seed.next < |seed.tables|
    ensures Counted(system, Taken(system, seed))
  {
    var n := seed.next;
    assert seed.tables[..n + 1][..n] == seed.tables[..n];
  }

  /** When all tables are gone through, the status says whether all moved. */
  lemma StatusAtEnd(system: Fields, seed: Seed)
    requires Counted(system, seed) && seed.next == |seed.tables|
    ensures StatusOf(seed.refused, seed.rows) == if AllMoved(system, seed.tables) then Complete else Failed
  {
    assert seed.tables[..seed.next] == seed.tables;
    StatusMeansAllMoved(system, seed.tables);
  }

  /** What a step does to the row, given the run that takes it. */
  lemma StepOfRow(system: Fields, s: State, step: Step)
    requires Enabled(s, step) && SeedInvariant(system, s.row, s.seeds[step.run]) && s.row.Row?
    ensures var t := Apply(system, s, step);
      && t.row.Row? && t.row.id == s.row.id && t.row.identity == s.row.identity
      && (s.row.status == Complete ==> t.row == s.row)
  {
  }

  /** ... and what it does to that run. */
  lemma StepOfSeed(system: Fields, s: State, step: Step)
    requires Enabled(s, step) && SeedInvariant(system, s.row, s.seeds[step.run])
    ensures SeedInvariant(system, Apply(system, s, step).row, Apply(system, s, step).seeds[step.run])
  {
    var seed := s.seeds[step.run];
    if step.Take? {
      TakenIsCounted(system, seed);
    } else if step.Close? {
      StatusAtEnd(system, seed);
    }
  }

  lemma StepKeepsSeed(system: Fields, s: State, step: Step, r: nat)
    requires Invariant(system, s) && Enabled(s, step) && r in s.seeds
    ensures SeedInvariant(system, Apply(system, s, step).row, Apply(system, s, step).seeds[r])
  {
    assert SeedInvariant(system, s.row, s.seeds[r]) && SeedInvariant(system, s.row, s.seeds[step.run]);
    if r == step.run {
      StepOfSeed(system, s, step);
    } else {
      assert Apply(system, s, step).seeds[r] == s.seeds[r];
      if s.row.Row? {
        StepOfRow(system, s, step);
      }
    }
  }

  /** Whoever completed the row goes on having done so. */
  lemma StepKeepsCompleted(system: Fields, s: State, step: Step)
    requires Invariant(system, s) && Enabled(s, step) && s.row.Row? && s.row.status == Complete
    ensures CompletedBy(system, Apply(system, s, step), s.row.id, s.row.identity)
  {
    var r :| r in s.seeds && Thorough(system, s.seeds[r])
          && s.seeds[r].id == s.row.id && s.seeds[r].identity == s.row.identity;
    assert Apply(system, s, step).seeds[r] == s.seeds[r];
  }

  /** The row becomes complete only where a thorough run closes it. */
  lemma StepCompletes(system: Fields, s: State, step: Step)
    requires Invariant(system, s) && Enabled(s, step) && Apply(system, s, step).row.Row?
    requires Apply(system, s, step).row.status == Complete && !(s.row.Row? && s.row.status == Complete)
    ensures var t := Apply(system, s, step); CompletedBy(system, t, t.row.id, t.row.identity)
  {
    assert SeedInvariant(system, s.row, s.seeds[step.run]);
    StatusAtEnd(system, s.seeds[step.run]);
    assert Thorough(system, Apply(system, s, step).seeds[step.run]);
  }

  lemma StepKeepsInvariant(system: Fields, s: State, step: Step)
    requires Invariant(system, s) && Enabled(s, step)
    ensures Invariant(system, Apply(system, s, step))
  {
    var t := Apply(system, s, step);
    forall r | r in s.seeds
      ensures SeedInvariant(system, t.row, t.seeds[r])
    {
      StepKeepsSeed(system, s, step, r);
    }
    if s.row.Row? && s.row.status == Complete {
      StepKeepsRow(system, s, step);
      StepKeepsCompleted(system, s, step);
    } else if t.row.Row? && t.row.status == Complete {
      StepCompletes(system, s, step);
    }
  }

  /** Once written, the row keeps its identity; once complete, it does not change at all. */
  lemma StepKeepsRow(system: Fields, s: State, step: Step)
    requires Invariant(system, s) && Enabled(s, step) && s.row.Row?
    ensures var t := Apply(system, s, step);
      && t.row.Row? && t.row.id == s.row.id && t.row.identity == s.row.identity
      && (s.row.status == Complete ==> t.row == s.row)
  {
    assert SeedInvariant(system, s.row, s.seeds[step.run]);
    StepOfRow(system, s, step);
  }

  // ------------------------------------------------------------------ whole runs

  ghost predicate IsRun(system: Fields, states: seq<State>, steps: seq<Step>) {
    IsPath(system, states, steps) && Init(states[0])
  }

  /** Any interleaving of enabled steps, from any state on. */
  ghost predicate IsPath(system: Fields, states: seq<State>, steps: seq<Step>) {
    |states| == |steps| + 1 && forall k :: 0 <= k < |steps| ==> Steps(system, states, steps, k)
  }

  ghost predicate Steps(system: Fields, states: seq<State>, steps: seq<Step>, k: nat)
    requires k < |steps| && |states| == |steps| + 1
  {
    Enabled(states[k], steps[k]) && states[k + 1] == Apply(system, states[k], steps[k])
  }

  lemma {:induction false} RunKeepsInvariant(system: Fields, states: seq<State>, steps: seq<Step>, k: nat)
    requires IsRun(system, states, steps) && k <= |steps|
    ensures Invariant(system, states[k])
  {
    if k == 0 {
      InitHolds(system, states[0]);
    } else {
      RunKeepsInvariant(system, states, steps, k - 1);
      assert Steps(system, states, steps, k - 1);
      StepKeepsInvariant(system, states[k - 1], steps[k - 1]);
    }
  }

  /** Over any interleaving of seeding and verifying runs: the identity is permanent, `complete` final. */
  lemma {:induction false} ProvenanceIsPermanent(system: Fields, states: seq<State>, steps: seq<Step>, j: nat, k: nat)
    requires IsRun(system, states, steps) && j <= k <= |steps| && states[j].row.Row?
    ensures states[k].row.Row? && states[k].row.id == states[j].row.id
    ensures states[k].row.identity == states[j].row.identity
    ensures states[j].row.status == Complete ==> states[k].row == states[j].row
    decreases k
  {
    if j < k {
      ProvenanceIsPermanent(system, states, steps, j, k - 1);
      RunKeepsInvariant(system, states, steps, k - 1);
      assert Steps(system, states, steps, k - 1);
      StepKeepsRow(system, states[k - 1], steps[k - 1]);
    }
  }

  /**
   In every reachable state, the UT runner admits the provenance row if and only if some run of the
   script under that identity has closed it after going through all its tables, none of them refused
   and some row counted.
   */
  lemma AdmittedIffThorough(system: Fields, states: seq<State>, steps: seq<Step>, k: nat)
    requires IsRun(system, states, steps) && k <= |steps|
    ensures var s := states[k];
      SeedIdentity(s.row).Admitted? <==> s.row.Row? && CompletedBy(system, s, s.row.id, s.row.identity)
    ensures SeedIdentity(states[k].row).Admitted? ==> SeedIdentity(states[k].row).id == states[k].row.id
  {
    RunKeepsInvariant(system, states, steps, k);
    var s := states[k];
    if s.row.Row? && CompletedBy(system, s, s.row.id, s.row.identity) {
      var r :| r in s.seeds && Thorough(system, s.seeds[r]) && s.seeds[r].id == s.row.id;
      assert SeedInvariant(system, s.row, s.seeds[r]);
    }
  }

  /**
   A closing step of any run: where the guarded update applies, the row then says `complete` if and
   only if all the run's tables moved -- the status that the table loop returns.
   */
  lemma ClosedAsMoved(system: Fields, states: seq<State>, steps: seq<Step>, k: nat)
    requires IsRun(system, states, steps) && k < |steps| && steps[k].Close?
    ensures steps[k].run in states[k].seeds
    ensures var seed := states[k].seeds[steps[k].run];
      Closable(states[k].row, seed.id) ==>
      states[k + 1].row == Row(if AllMoved(system, seed.tables) then Complete else Failed, seed.id, seed.identity)
  {
    RunKeepsInvariant(system, states, steps, k);
    assert Steps(system, states, steps, k);
    assert SeedInvariant(system, states[k].row, states[k].seeds[steps[k].run]);
    StatusAtEnd(system, states[k].seeds[steps[k].run]);
  }

  // ------------------------------------------------------------------ what a run can achieve

  /** The run has not begun, and the row is as its kind of run needs it. */
  predicate Admissible(s: State, r: nat) {
    r in s.seeds && Unstarted(s.seeds[r]) &&
    if s.seeds[r].verify
    then s.row.Row? && s.row.status != Complete && s.row.identity == s.seeds[r].identity
    else s.row.NoRow?
  }

  lemma Extend(system: Fields, states: seq<State>, steps: seq<Step>, step: Step) returns (more: seq<State>)
    requires IsPath(system, states, steps) && Enabled(states[|steps|], step)
    ensures IsPath(system, more, steps + [step]) && more[0] == states[0]
    ensures more[|steps| + 1] == Apply(system, states[|steps|], step)
  {
    more := states + [Apply(system, states[|steps|], step)];
    forall k | 0 <= k <= |steps|
      ensures Steps(system, more, steps + [step], k)
    {
      if k < |steps| {
        assert Steps(system, states, steps, k);
      }
    }
  }

  /** Run `r` is under way on the row, with its counters right. */
  ghost predicate UnderWay(system: Fields, s: State, r: nat, tables: seq<Table>) {
    && r in s.seeds && s.seeds[r].place == Going && Counted(system, s.seeds[r]) && s.seeds[r].tables == tables
    && Closable(s.row, s.seeds[r].id)
  }

  lemma {:induction false} TakesAll(
    system: Fields, states: seq<State>, steps: seq<Step>, r: nat, tables: seq<Table>)
    returns (more: seq<State>, done: seq<Step>)
    requires IsPath(system, states, steps) && UnderWay(system, states[|steps|], r, tables)
    ensures IsPath(system, more, done) && more[0] == states[0] && UnderWay(system, more[|done|], r, tables)
    ensures more[|done|].seeds[r].next == |tables|
    decreases |tables| - states[|steps|].seeds[r].next
  {
    more, done := states, steps;
    var seed := states[|steps|].seeds[r];
    if seed.next < |tables| {
      TakenIsCounted(system, seed);
      more := Extend(system, states, steps, Take(r));
      done := steps + [Take(r)];
      more, done := TakesAll(system, more, done, r, tables);
    }
  }

  /**
   A run that has not begun can write the row by itself exactly if the row is as its kind needs it:
   then beginning puts it under way, and going on alone it closes the row with the status that its
   tables deserve; otherwise beginning aborts it.
   */
  lemma AloneWritesStatus(system: Fields, s: State, r: nat) returns (states: seq<State>, steps: seq<Step>)
    requires r in s.seeds && Unstarted(s.seeds[r])
    ensures IsPath(system, states, steps) && states[0] == s && r in states[|steps|].seeds
    ensures if Admissible(s, r)
            then states[|steps|].row.Row? &&
                 states[|steps|].row.status == if AllMoved(system, s.seeds[r].tables) then Complete else Failed
            else states[|steps|].row == s.row && states[|steps|].seeds[r].place == Aborted
  {
    var first := if s.seeds[r].verify then Resume(r) else Begin(r);
    assert IsPath(system, [s], []);
    assert s.seeds[r].tables[..0] == [];
    states := Extend(system, [s], [], first);
    steps := [] + [first];
    if Admissible(s, r) {
      states, steps := TakesAll(system, states, steps, r, s.seeds[r].tables);
      StatusAtEnd(system, states[|steps|].seeds[r]);
      states := Extend(system, states, steps, Close(r));
      steps := steps + [Close(r)];
    }
  }
}
