/**
 The abstract pass agrees with every concrete build: where `Depth` does not refuse, its value at a
 token is the depth counted over the selected tokens only, in each build that selects the token.
 Hence `closing` finds the bracket that matches in every build holding both ends.
 */
module VariantDepth {
  import opened Outcomes
  import opened Preprocessor
  import opened BraceDepth

  /** Whether the branch that frame `i` is currently in is active. */
  predicate ActiveIn(m: Machine, i: nat)
    requires i < |m.stack|
  {
    if i + 1 < |m.stack| then m.stack[i + 1].parent else m.active
  }

  /** What an abstract branch knows about concrete depth `count`, for the machine's frame `i`. */
  ghost predicate FrameAgrees(m: Machine, base: nat, d: DepthState, count: int, i: nat)
    requires |m.stack| == base + |d.branches| && base <= i < |m.stack|
  {
    var frame, branch := m.stack[i], d.branches[i - base];
    && (ActiveIn(m, i) ==> frame.parent && frame.taken)
    && frame.closed == branch.hasElse && (frame.closed ==> frame.taken)
    && (frame.parent && !frame.taken ==> count == branch.start)
    && (frame.parent && frame.taken && !ActiveIn(m, i) ==> count in branch.ends)
  }

  /** An active frame lies in active frames. */
  predicate Nested(m: Machine, base: nat) {
    forall i, j :: base <= i < j < |m.stack| && m.stack[j].parent ==> m.stack[i].parent
  }

  /** The abstract state follows the machine above its `base` frames; `count` is the concrete depth. */
  ghost predicate Agrees(m: Machine, base: nat, d: DepthState, count: int) {
    && |m.stack| == base + |d.branches|
    && Nested(m, base)
    && (m.active ==> d.value == count)
    && forall i :: base <= i < |m.stack| ==> FrameAgrees(m, base, d, count, i)
  }

  lemma AgreesIf(b: Brackets, m: Machine, base: nat, d: DepthState, count: int, t: Token)
    requires Agrees(m, base, d, count) && t.If? && Step(m, t).Accept?
    ensures Agrees(Step(m, t).value, base, DepthStep(b, d, t).value, count)
  {
    var m', d' := Step(m, t).value, DepthStep(b, d, t).value;
    var n := |m.stack|;
    forall i | base <= i < n + 1
      ensures FrameAgrees(m', base, d', count, i)
    {
      if i < n {
        assert FrameAgrees(m, base, d, count, i);
        assert ActiveIn(m', i) == ActiveIn(m, i);
      }
    }
    if n > base && m.active {
      assert FrameAgrees(m, base, d, count, n - 1);
    }
  }

  lemma AgreesBranch(b: Brackets, m: Machine, base: nat, d: DepthState, count: int, t: Token)
    requires Agrees(m, base, d, count) && (t.Elif? || t.Else?)
    requires Step(m, t).Accept? && DepthStep(b, d, t).Accept?
    ensures Agrees(Step(m, t).value, base, DepthStep(b, d, t).value, count)
  {
    var m', d' := Step(m, t).value, DepthStep(b, d, t).value;
    var n := |m.stack|;
    assert FrameAgrees(m, base, d, count, n - 1);
    forall i | base <= i < n
      ensures FrameAgrees(m', base, d', count, i)
    {
      assert FrameAgrees(m, base, d, count, i);
      if i < n - 1 {
        assert ActiveIn(m', i) == ActiveIn(m, i);
      }
    }
  }

  lemma AgreesEndif(b: Brackets, m: Machine, base: nat, d: DepthState, count: int, t: Token)
    requires Agrees(m, base, d, count) && t.Endif?
    requires Step(m, t).Accept? && DepthStep(b, d, t).Accept?
    ensures Agrees(Step(m, t).value, base, DepthStep(b, d, t).value, count)
  {
    var m', d' := Step(m, t).value, DepthStep(b, d, t).value;
    var n := |m.stack|;
    var top, branch := m.stack[n - 1], d.branches[n - 1 - base];
    assert FrameAgrees(m, base, d, count, n - 1);
    var ends := FinalEnds(branch, d.value);
    assert ends[|branch.ends|] == d.value;
    if top.parent && !m.active {
      assert count in ends by {
        if top.taken {
          var i :| 0 <= i < |branch.ends| && branch.ends[i] == count;
          assert ends[i] == count;
        } else {
          assert ends[|ends| - 1] == branch.start;
        }
      }
    }
    forall i | base <= i < n - 1
      ensures FrameAgrees(m', base, d', count, i)
    {
      assert FrameAgrees(m, base, d, count, i);
      assert ActiveIn(m', i) == ActiveIn(m, i);
    }
  }

  lemma AgreesPlain(b: Brackets, m: Machine, base: nat, d: DepthState, count: int, t: Token)
    requires Agrees(m, base, d, count) && !t.If? && !t.Elif? && !t.Else? && !t.Endif? && Step(m, t).Accept?
    ensures Agrees(Step(m, t).value, base, DepthStep(b, d, t).value,
                   if m.active then count + Delta(b, t) else count)
  {
    var m', d' := Step(m, t).value, DepthStep(b, d, t).value;
    var count' := if m.active then count + Delta(b, t) else count;
    var n := |m.stack|;
    forall i | base <= i < n
      ensures FrameAgrees(m', base, d', count', i)
    {
      assert FrameAgrees(m, base, d, count, i);
      assert FrameAgrees(m, base, d, count, n - 1);
      assert ActiveIn(m', i) == ActiveIn(m, i);
    }
  }

  lemma AgreesStep(b: Brackets, m: Machine, base: nat, d: DepthState, count: int, t: Token)
    requires Agrees(m, base, d, count) && Step(m, t).Accept? && DepthStep(b, d, t).Accept?
    ensures Agrees(Step(m, t).value, base, DepthStep(b, d, t).value,
                   if m.active then count + Delta(b, t) else count)
  {
    if t.If? {
      AgreesIf(b, m, base, d, count, t);
    } else if t.Elif? || t.Else? {
      AgreesBranch(b, m, base, d, count, t);
    } else if t.Endif? {
      AgreesEndif(b, m, base, d, count, t);
    } else {
      AgreesPlain(b, m, base, d, count, t);
    }
  }

  // ------------------------------------------------------------------ whole runs

  /** The machine of an accepted trace before token `at`. */
  function At(trace: Trace, at: nat): Machine
    requires at < |trace| && trace[at].Accept?
  {
    trace[at].value.machine
  }

  /** The depth counted over only the selected tokens of `ts[start..k]`. */
  ghost function Count(b: Brackets, ts: seq<Token>, trace: Trace, start: nat, k: nat): int
    requires IsTrace(ts, trace) && Accepted(trace) && start <= k <= |ts|
    decreases k
  {
    if k == start then 0
    else Count(b, ts, trace, start, k - 1) + if At(trace, k - 1).active then Delta(b, ts[k - 1]) else 0
  }

  /** From any starting point, as long as `Depth` does not refuse. */
  lemma {:induction false} DepthAgrees(b: Brackets, ts: seq<Token>, trace: Trace, start: nat, k: nat)
    requires IsTrace(ts, trace) && Accepted(trace) && start <= k <= |ts| && DepthTo(b, ts, start, k).Accept?
    ensures Agrees(At(trace, k), |At(trace, start).stack|, DepthTo(b, ts, start, k).value,
                   Count(b, ts, trace, start, k))
    decreases k
  {
    if k > start {
      DepthAgrees(b, ts, trace, start, k - 1);
      assert Advances(ts, trace, k - 1);
      AgreesStep(b, At(trace, k - 1), |At(trace, start).stack|, DepthTo(b, ts, start, k - 1).value,
                 Count(b, ts, trace, start, k - 1), ts[k - 1]);
    }
  }

  /** At a selected token the abstract value is the depth of the build. */
  lemma DepthAtSelected(b: Brackets, ts: seq<Token>, trace: Trace, start: nat, at: nat)
    requires IsTrace(ts, trace) && Accepted(trace) && start <= at < |ts|
    requires DepthTo(b, ts, start, at + 1).Accept? && Selects(At(trace, at), ts[at])
    ensures DepthTo(b, ts, start, at + 1).value.value == Count(b, ts, trace, start, at + 1)
  {
    DepthAgrees(b, ts, trace, start, at + 1);
    assert Advances(ts, trace, at);
  }

  // ------------------------------------------------------------------ the tokens of one build

  function Selected(trace: Trace): seq<nat>
    requires trace != [] && trace[|trace| - 1].Accept?
  {
    trace[|trace| - 1].value.selected
  }

  /** How many tokens are selected before position `k`. */
  function Rank(trace: Trace, k: nat): nat
    requires k < |trace| && trace[k].Accept?
  {
    |trace[k].value.selected|
  }

  /** `[values[at] for at in selected]`. */
  function Project(ts: seq<Token>, selected: seq<nat>): (r: seq<Token>)
    requires forall i :: 0 <= i < |selected| ==> selected[i] < |ts|
    ensures |r| == |selected|
    ensures forall i :: 0 <= i < |r| ==> r[i] == ts[selected[i]]
  {
    seq(|selected|, i requires 0 <= i < |selected| => ts[selected[i]])
  }

  lemma {:induction false} RankStep(ts: seq<Token>, trace: Trace, k: nat)
    requires IsTrace(ts, trace) && Accepted(trace) && k < |ts|
    ensures trace[k + 1].value.selected ==
      if Selects(At(trace, k), ts[k]) then trace[k].value.selected + [k] else trace[k].value.selected
  {
    assert Advances(ts, trace, k);
  }

  /** The selection made so far is a prefix of the selection in the end. */
  lemma {:induction false} SelectedPrefix(ts: seq<Token>, trace: Trace, k: nat)
    requires IsTrace(ts, trace) && Accepted(trace) && k <= |ts|
    ensures trace[k].value.selected <= Selected(trace)
    decreases |ts| - k
  {
    if k < |ts| {
      RankStep(ts, trace, k);
      SelectedPrefix(ts, trace, k + 1);
    }
  }

  lemma SelectedAt(ts: seq<Token>, trace: Trace, k: nat)
    requires IsTrace(ts, trace) && Accepted(trace) && k < |ts| && Selects(At(trace, k), ts[k])
    ensures Rank(trace, k) < |Selected(trace)| && Selected(trace)[Rank(trace, k)] == k
    ensures Rank(trace, k + 1) == Rank(trace, k) + 1
  {
    RankStep(ts, trace, k);
    SelectedPrefix(ts, trace, k + 1);
  }

  /** Every entry of the selection is a selected token, and its place is its rank. */
  lemma {:induction false} RankOfSelected(ts: seq<Token>, trace: Trace, n: nat, i: nat)
    requires IsTrace(ts, trace) && Accepted(trace) && n <= |ts| && i < Rank(trace, n) && trace[0].value.selected == []
    ensures var k := trace[n].value.selected[i]; k < n && Selects(At(trace, k), ts[k]) && Rank(trace, k) == i
    decreases n
  {
    RankStep(ts, trace, n - 1);
    if i < Rank(trace, n - 1) {
      RankOfSelected(ts, trace, n - 1, i);
    }
  }

  lemma {:induction false} RankMonotone(ts: seq<Token>, trace: Trace, j: nat, k: nat)
    requires IsTrace(ts, trace) && Accepted(trace) && j <= k <= |ts|
    ensures Rank(trace, j) <= Rank(trace, k)
    decreases k
  {
    if j < k {
      RankMonotone(ts, trace, j, k - 1);
      RankStep(ts, trace, k - 1);
    }
  }

  /** The selection of an accepted trace from the start, as tokens of the build. */
  ghost predicate Builds(ts: seq<Token>, trace: Trace, build: seq<Token>) {
    && IsTrace(ts, trace) && Accepted(trace) && trace[0].value.selected == []
    && |build| == |Selected(trace)|
    && forall i :: 0 <= i < |build| ==> Selected(trace)[i] < |ts| && build[i] == ts[Selected(trace)[i]]
  }

  /** `Depth` over a build is the plain count: a build holds no directives. */
  lemma {:induction false} DepthOfBuild(
    b: Brackets, ts: seq<Token>, trace: Trace, build: seq<Token>, start: nat, k: nat)
    requires Builds(ts, trace, build) && start <= k <= |ts|
    ensures Rank(trace, start) <= Rank(trace, k) <= |build|
    ensures DepthTo(b, build, Rank(trace, start), Rank(trace, k)) ==
            Accept(DepthState(Count(b, ts, trace, start, k), []))
    decreases k
  {
    SelectedPrefix(ts, trace, k);
    if k > start {
      DepthOfBuild(b, ts, trace, build, start, k - 1);
      RankStep(ts, trace, k - 1);
      if Selects(At(trace, k - 1), ts[k - 1]) {
        SelectedAt(ts, trace, k - 1);
      }
    }
  }

  // ------------------------------------------------------------------ closing, in every build

  lemma {:induction false} BuildPasses(b: Brackets, ts: seq<Token>, trace: Trace, build: seq<Token>, start: nat, k: nat)
    requires Builds(ts, trace, build) && start <= k < |ts|
    requires Selects(At(trace, k), ts[k]) && DepthTo(b, ts, start, k + 1).Accept?
    ensures Rank(trace, start) <= Rank(trace, k) < |build| && build[Rank(trace, k)] == ts[k]
    ensures DepthTo(b, build, Rank(trace, start), Rank(trace, k) + 1) ==
            Accept(DepthState(DepthTo(b, ts, start, k + 1).value.value, []))
  {
    RankMonotone(ts, trace, start, k);
    SelectedAt(ts, trace, k);
    DepthAtSelected(b, ts, trace, start, k);
    DepthOfBuild(b, ts, trace, build, start, k + 1);
  }

  lemma {:induction false} ClosesAtInBuild(
    b: Brackets, ts: seq<Token>, trace: Trace, build: seq<Token>, start: nat, at: nat)
    requires Builds(ts, trace, build) && ClosesAt(b, ts, start, at)
    requires Selects(At(trace, start), ts[start]) && Selects(At(trace, at), ts[at])
    ensures ClosesAt(b, build, Rank(trace, start), Rank(trace, at))
  {
    var from, to := Rank(trace, start), Rank(trace, at);
    BuildPasses(b, ts, trace, build, start, at);
    forall i | from <= i < to
      ensures Passes(b, build, from, i)
    {
      var k := Selected(trace)[i];
      RankOfSelected(ts, trace, |ts|, i);
      if k < start {
        RankMonotone(ts, trace, k + 1, start);
        SelectedAt(ts, trace, k);
      } else if k >= at {
        RankMonotone(ts, trace, at, k);
      }
      assert Passes(b, ts, start, k);
      BuildPasses(b, ts, trace, build, start, k);
    }
  }

  /**
   The close that `closing` finds in the raw tokens is the close it finds in the tokens of every
   build that selects both ends.
   */
  lemma ClosingInEveryBuild(b: Brackets, ts: seq<Token>, enabled: set<string>, start: nat, at: nat,
                            selected: seq<nat>, from: nat, to: nat)
    requires start <= |ts| && Closing(b, ts, start) == Accept(at)
    requires Selection(ts, enabled) == Accept(selected)
    requires from < |selected| && selected[from] == start && to < |selected| && selected[to] == at
    ensures forall i :: 0 <= i < |selected| ==> selected[i] < |ts|
    ensures Closing(b, Project(ts, selected), from) == Accept(to)
  {
    var trace := TraceOf(Start(enabled), ts);
    TraceAccepted(Start(enabled), ts);
    SelectedIncrease(Start(enabled), ts, |ts|);
    var build := Project(ts, selected);
    RankOfSelected(ts, trace, |ts|, from);
    RankOfSelected(ts, trace, |ts|, to);
    ClosingClosesAt(b, ts, start, start, at);
    ClosesAtInBuild(b, ts, trace, build, start, at);
    ClosingClosesAt(b, build, from, from, to);
  }

  // ------------------------------------------------------------------ depth, in every build

  /** How often a symbol stands in a list of tokens. */
  function Tally(ts: seq<Token>, symbol: Symbol): nat {
    if ts == [] then 0 else
    var last := ts[|ts| - 1];
    Tally(ts[..|ts| - 1], symbol) + if last.Code? && last.symbol == symbol then 1 else 0
  }

  /** Opening minus ending brackets: depth as a build sees it. */
  function PlainDepth(b: Brackets, build: seq<Token>): int {
    Tally(build, b.opening) - if b.ending == b.opening then 0 else Tally(build, b.ending)
  }

  lemma {:induction false} DepthOfPlain(b: Brackets, build: seq<Token>, k: nat)
    requires k <= |build| && forall i :: 0 <= i < |build| ==> build[i].Code?
    ensures DepthTo(b, build, 0, k) == Accept(DepthState(PlainDepth(b, build[..k]), []))
  {
    if k > 0 {
      DepthOfPlain(b, build, k - 1);
      assert build[..k][..k - 1] == build[..k - 1];
    }
  }

  lemma {:induction false} DepthRefusalStays(b: Brackets, ts: seq<Token>, start: nat, k: nat, n: nat)
    requires start <= k <= n <= |ts| && DepthTo(b, ts, start, k).Refuse?
    ensures DepthTo(b, ts, start, n) == DepthTo(b, ts, start, k)
    decreases n
  {
    if k < n {
      DepthRefusalStays(b, ts, start, k, n - 1);
    }
  }

  lemma {:induction false} DepthAcceptedBefore(b: Brackets, ts: seq<Token>, start: nat, k: nat, n: nat)
    requires start <= k <= n <= |ts| && DepthTo(b, ts, start, n).Accept?
    ensures DepthTo(b, ts, start, k).Accept?
    decreases n
  {
    if k < n {
      DepthAcceptedBefore(b, ts, start, k, n - 1);
    }
  }

  /**
   If `Depth` steps through the tokens without refusing, then in every build that
   `conditional_indices` accepts, and at every token the build selects, its value is the plain
   depth over the tokens that the build has selected so far.
   */
  lemma DepthInEveryBuild(b: Brackets, ts: seq<Token>, enabled: set<string>, selected: seq<nat>, i: nat)
    requires DepthTo(b, ts, 0, |ts|).Accept? && Selection(ts, enabled) == Accept(selected) && i < |selected|
    ensures forall j :: 0 <= j < |selected| ==> selected[j] < |ts|
    ensures DepthTo(b, ts, 0, selected[i] + 1).Accept?
    ensures DepthTo(b, ts, 0, selected[i] + 1).value.value == PlainDepth(b, Project(ts, selected)[..i + 1])
  {
    var trace := TraceOf(Start(enabled), ts);
    TraceAccepted(Start(enabled), ts);
    SelectedIncrease(Start(enabled), ts, |ts|);
    RankOfSelected(ts, trace, |ts|, i);
    DepthAcceptedBefore(b, ts, 0, selected[i] + 1, |ts|);
    BuildPasses(b, ts, trace, Project(ts, selected), 0, selected[i]);
    DepthOfPlain(b, Project(ts, selected), i + 1);
  }
}
