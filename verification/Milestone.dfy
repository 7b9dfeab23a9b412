/**
 The end of `ut_milestone.main`: the verdict over the status files that the threads wrote and the
 results that the processes reported.
 */
module Milestone {
  import opened Numerals
  import opened TestRunner
  import opened RunnerStatus
  import opened RunResults
  import opened Sequences

  predicate Failures(s: State) {
    exists id :: id in s.threads && s.threads[id].place.Crashed?
  }

  /** The manifest names each codeunit of the run, its methods distinct, with the artifact it left. */
  ghost predicate Belongs(s: State, manifest: seq<Entry>, artifacts: seq<Artifact>) {
    && |artifacts| == |manifest|
    && (forall i :: 0 <= i < |manifest| ==> Distinct(manifest[i].methods) && manifest[i].id in s.threads)
    && (forall i :: 0 <= i < |manifest| ==> artifacts[i].status == s.threads[manifest[i].id].written)
  }

  /** Nobody asked to stop, no thread failed, and every codeunit's results are perfect. */
  ghost predicate ReturnsZero(s: State, manifest: seq<Entry>, artifacts: seq<Artifact>)
    requires |artifacts| == |manifest|
  {
    !s.stop && !Failures(s) && forall i :: 0 <= i < |manifest| ==> Perfect(manifest[i], artifacts[i])
  }

  /** What `main` returns after the pool is left. */
  method Verdict(s: State, manifest: seq<Entry>, artifacts: seq<Artifact>) returns (status: int)
    requires Belongs(s, manifest, artifacts)
    ensures status == 0 || status == 1
    ensures status == 0 <==> ReturnsZero(s, manifest, artifacts)
  {
    status := Aggregate(manifest, artifacts);
    if Failures(s) || s.stop {
      status := 1;
    }
  }

  /** The process of the codeunit started and exited 0, and its scratch database was dropped. */
  predicate CleanlyRun(s: State, id: nat) {
    id in s.threads && s.threads[id].place.Done? && s.threads[id].process == Dead(0) && s.threads[id].dropped
  }

  /**
   In every interleaving: if `main` returns 0, then every codeunit of the manifest ran cleanly, and
   every method of the manifest has exactly one record, well-formed and passing. So a run in which
   some codeunit never started, failed, or kept its database, does not return 0, whatever it reported.
   */
  lemma ZeroMeansAllPassed(
    ids: set<nat>, states: seq<State>, steps: seq<Step>, manifest: seq<Entry>, artifacts: seq<Artifact>)
    requires IsRun(ids, states, steps) && Belongs(states[|steps|], manifest, artifacts)
    requires ReturnsZero(states[|steps|], manifest, artifacts)
    ensures forall i :: 0 <= i < |manifest| ==> CleanlyRun(states[|steps|], manifest[i].id)
    ensures forall i, test :: 0 <= i < |manifest| && test in manifest[i].methods ==>
              PassedOnce(manifest[i], artifacts[i], test)
  {
    forall i | 0 <= i < |manifest|
      ensures CleanlyRun(states[|steps|], manifest[i].id)
    {
      assert Perfect(manifest[i], artifacts[i]);
      ZeroStatusMeansCleanRun(ids, states, steps, |steps|, manifest[i].id);
    }
  }

  /** What a codeunit leaves behind whose tests all passed. */
  function Flawless(e: Entry): Artifact {
    Artifact(seq(|e.methods|, i requires 0 <= i < |e.methods| => Record(e.id, e.name, e.methods[i], true)),
             [(Decimal(|e.methods|), Decimal(|e.methods|))], 0)
  }

  lemma FlawlessIsPerfect(e: Entry)
    requires Distinct(e.methods)
    ensures Perfect(e, Flawless(e))
  {
    var a := Flawless(e);
    forall i | 0 <= i < |e.methods|
      ensures PassedOnce(e, a, e.methods[i])
    {
      assert forall j :: 0 <= j < |a.lines| && j != i ==> !Reports(e, a.lines[j], e.methods[i]);
      assert Reports(e, a.lines[i], e.methods[i]);
      assert Recorded(e, a.lines, e.methods[i]) == {i};
    }
  }

  /** `main` can return 0: for any manifest there is a run, and results, for which it does. */
  lemma CanReturnZero(ids: set<nat>, manifest: seq<Entry>)
    returns (states: seq<State>, steps: seq<Step>, artifacts: seq<Artifact>)
    requires forall i :: 0 <= i < |manifest| ==> Distinct(manifest[i].methods) && manifest[i].id in ids
    ensures IsRun(ids, states, steps) && Belongs(states[|steps|], manifest, artifacts)
    ensures ReturnsZero(states[|steps|], manifest, artifacts)
  {
    states, steps := AllCanPass(ids);
    RunKeepsInvariant(ids, states, steps, |steps|);
    artifacts := seq(|manifest|, i requires 0 <= i < |manifest| => Flawless(manifest[i]));
    forall i | 0 <= i < |manifest|
      ensures Perfect(manifest[i], artifacts[i])
    {
      FlawlessIsPerfect(manifest[i]);
    }
  }
}
