/**
 The test methods found in the raw tokens are the test methods of every build: running
 `test_methods` on the tokens that a build selects yields, in order, exactly the raw methods whose
 `[Test]` attribute the build selects.
 */
module VariantTests {
  import opened Outcomes
  import opened Preprocessor
  import opened BraceDepth
  import opened VariantDepth
  import opened TestInventory
  import opened TestHeaders

  /** The next `n - 1` tokens behind `at`, as far as there are any, are code and not directives. */
  predicate Solid(body: seq<Token>, at: nat, n: nat) {
    forall i :: at < i < at + n && i < |body| ==> body[i].Code?
  }

  /** No directive splits a `[Test]` triple at depth one or the header of a test method. */
  predicate Unsplit(body: seq<Token>, methods: seq<Method>) {
    && (forall at :: 0 <= at < |body| && Spelled(body, at, OpenBracket) && AtDepthOne(body, at) ==> SolidTest(body, at))
    && (forall i :: 0 <= i < |methods| ==> Solid(body, methods[i].procedure, 3))
  }

  predicate SolidTest(body: seq<Token>, at: nat) {
    Solid(body, at, if Spelled(body, at + 1, TestWord) then 3 else 2)
  }

  /** The methods whose attribute is selected, in order. */
  function KeptBy(methods: seq<Method>, selected: seq<nat>): seq<Method> {
    if methods == [] then [] else
    var last := methods[|methods| - 1];
    KeptBy(methods[..|methods| - 1], selected) + if last.attribute in selected then [last] else []
  }

  lemma KeptByAppend(methods: seq<Method>, last: Method, selected: seq<nat>)
    ensures KeptBy(methods + [last], selected) ==
            KeptBy(methods, selected) + if last.attribute in selected then [last] else []
  {
    assert (methods + [last])[..|methods|] == methods;
  }

  /** Attributes before `k` do not notice whether `k` is selected. */
  lemma {:induction false} KeptByEarlier(methods: seq<Method>, selected: seq<nat>, k: nat)
    requires forall i :: 0 <= i < |methods| ==> methods[i].attribute < k
    ensures KeptBy(methods, selected + [k]) == KeptBy(methods, selected)
  {
    if methods != [] {
      KeptByEarlier(methods[..|methods| - 1], selected, k);
      var last := methods[|methods| - 1];
      assert last.attribute in selected + [k] <==> last.attribute in selected;
    }
  }

  // ------------------------------------------------------------------ raw scan and build scan, linked

  /** Raw scan `s` and build scan `v` after `k` raw tokens, with machine `m` and the selection so far. */
  ghost predicate Linked(s: Scan, m: Machine, selected: seq<nat>, v: Scan, k: nat) {
    && s.pending <= 1
    && s.attributes == |s.methods| + s.pending
    && v.attributes == |v.methods| + v.pending
    && (s.pending == 1 ==> s.origin < k)
    && (forall i :: 0 <= i < |s.methods| ==> s.methods[i].attribute < k)
    && (forall i :: 0 <= i < |selected| ==> selected[i] < k)
    && v.pending == (if s.pending == 1 && s.origin in selected then 1 else 0)
    && (v.pending == 1 ==> v.origin == s.origin && m.active)
    && v.methods == KeptBy(s.methods, selected)
  }

  /** A directive, or code that the build leaves out. */
  lemma LinkedUnselected(
    body: seq<Token>, at: nat, s: Scan, s': Scan, m: Machine, m': Machine, selected: seq<nat>, v: Scan)
    requires at < |body| && Linked(s, m, selected, v, at) && !Selects(m, body[at])
    requires ScanStep(body, Indices(|body|), at, s) == Accept(s') && s'.pending <= 1
    requires v.pending == 1 && !Splits(body[at]) ==> m'.active
    ensures Linked(s', m', selected, v, at + 1)
  {
    if Spelled(body, at, ProcedureWord) && s'.methods != s.methods {
      KeptByAppend(s.methods, s'.methods[|s.methods|], selected);
    }
  }

  /** What `test_methods` may look at from token `at` is the same in the build at `r`. */
  predicate SameAhead(body: seq<Token>, at: nat, build: seq<Token>, r: nat, pending: nat) {
    && TestTriple(build, r) == TestTriple(body, at)
    && (Spelled(body, at, ProcedureWord) && pending > 0 && at + 2 < |body| ==>
          r + 2 < |build| && build[r + 1] == body[at + 1] && build[r + 2] == body[at + 2])
  }

  /** A selected `procedure`, which takes the pending attribute if there is one. */
  lemma LinkedProcedure(body: seq<Token>, at: nat, build: seq<Token>, origins: seq<nat>, r: nat,
                        s: Scan, s': Scan, m: Machine, selected: seq<nat>, v: Scan)
    requires at < |body| && r < |build| == |origins| && build[r] == body[at] && origins[r] == at
    requires Linked(s, m, selected, v, at) && m.active && SameAhead(body, at, build, r, s.pending)
    requires Spelled(body, at, ProcedureWord) && Inspect(body, Indices(|body|), at, s) == Accept(s')
    ensures Inspect(build, origins, r, v).Accept?
    ensures Linked(s', m, selected + [at], Inspect(build, origins, r, v).value, at + 1)
  {
    KeptByEarlier(s.methods, selected, at);
    if s.pending == 1 {
      var last := s'.methods[|s.methods|];
      KeptByAppend(s.methods, last, selected + [at]);
      assert s.origin in selected + [at] <==> s.origin in selected;
    }
  }

  /** Any other selected token at depth one, `[Test]` among them. */
  lemma LinkedOther(body: seq<Token>, at: nat, build: seq<Token>, origins: seq<nat>, r: nat,
                    s: Scan, s': Scan, m: Machine, selected: seq<nat>, v: Scan)
    requires at < |body| && r < |build| == |origins| && build[r] == body[at] && origins[r] == at
    requires Linked(s, m, selected, v, at) && m.active && SameAhead(body, at, build, r, s.pending)
    requires !Spelled(body, at, ProcedureWord) && Inspect(body, Indices(|body|), at, s) == Accept(s') && s'.pending <= 1
    ensures Inspect(build, origins, r, v).Accept?
    ensures Linked(s', m, selected + [at], Inspect(build, origins, r, v).value, at + 1)
  {
    KeptByEarlier(s.methods, selected, at);
    assert s.pending == 1 ==> (s.origin in selected + [at] <==> s.origin in selected);
  }

  /** A selected token at another depth. */
  lemma LinkedPast(s: Scan, m: Machine, selected: seq<nat>, v: Scan, at: nat, d: DepthState, e: DepthState)
    requires Linked(s, m, selected, v, at)
    ensures Linked(s.(depth := d), m, selected + [at], v.(depth := e), at + 1)
  {
    KeptByEarlier(s.methods, selected, at);
    assert s.pending == 1 ==> (s.origin in selected + [at] <==> s.origin in selected);
  }

  /** What the loop does with code, its depth taken. */
  lemma ScanStepOfCode(body: seq<Token>, origins: seq<nat>, at: nat, s: Scan, d: DepthState)
    requires at < |body| == |origins| && body[at].Code? && DepthStep(BRACES, s.depth, body[at]) == Accept(d)
    ensures ScanStep(body, origins, at, s) ==
            if d.value != 1 then Accept(s.(depth := d)) else Inspect(body, origins, at, s.(depth := d))
  {
  }

  lemma InspectKeepsDepth(body: seq<Token>, origins: seq<nat>, at: nat, s: Scan)
    requires at < |body| == |origins| && Inspect(body, origins, at, s).Accept?
    ensures Inspect(body, origins, at, s).value.depth == s.depth
  {
  }

  /** Code that the build selects, at any depth that both scans agree on. */
  lemma LinkedStep(body: seq<Token>, at: nat, build: seq<Token>, origins: seq<nat>, r: nat,
                   s: Scan, s': Scan, m: Machine, selected: seq<nat>, v: Scan, d: DepthState, e: DepthState)
    returns (v': Scan)
    requires at < |body| && r < |build| == |origins| && build[r] == body[at] && origins[r] == at && body[at].Code?
    requires Linked(s, m, selected, v, at) && m.active && (d.value == 1 ==> SameAhead(body, at, build, r, s.pending))
    requires DepthStep(BRACES, s.depth, body[at]) == Accept(d) && DepthStep(BRACES, v.depth, body[at]) == Accept(e)
    requires d.value == e.value && ScanStep(body, Indices(|body|), at, s) == Accept(s') && s'.pending <= 1
    ensures ScanStep(build, origins, r, v) == Accept(v') && v'.depth == e && s'.depth == d
    ensures Linked(s', m, selected + [at], v', at + 1)
  {
    ScanStepOfCode(body, Indices(|body|), at, s, d);
    ScanStepOfCode(build, origins, r, v, e);
    v' := v.(depth := e);
    if d.value == 1 {
      InspectKeepsDepth(body, Indices(|body|), at, s.(depth := d));
      if Spelled(body, at, ProcedureWord) {
        LinkedProcedure(body, at, build, origins, r, s.(depth := d), s', m, selected, v');
      } else {
        LinkedOther(body, at, build, origins, r, s.(depth := d), s', m, selected, v');
      }
      InspectKeepsDepth(build, origins, r, v');
      v' := Inspect(build, origins, r, v').value;
    } else {
      LinkedPast(s, m, selected, v, at, d, e);
    }
  }

  // ------------------------------------------------------------------ looking ahead

  /** Where no directive follows, the build reads ahead exactly what the raw tokens hold. */
  lemma {:induction false} AheadSame(ts: seq<Token>, trace: Trace, build: seq<Token>, at: nat, i: nat)
    requires Builds(ts, trace, build) && at < |ts| && Selects(At(trace, at), ts[at]) && Solid(ts, at, i + 1)
    ensures at + i < |ts| <==> Rank(trace, at) + i < |build|
    ensures at + i < |ts| ==> build[Rank(trace, at) + i] == ts[at + i]
    ensures at + i <= |ts| ==> Rank(trace, at + i) == Rank(trace, at) + i && At(trace, at + i) == At(trace, at)
  {
    if i > 0 {
      AheadSame(ts, trace, build, at, i - 1);
      if at + i <= |ts| {
        assert Advances(ts, trace, at + i - 1);
        RankStep(ts, trace, at + i - 1);
      }
    }
    if at + i < |ts| {
      SelectedAt(ts, trace, at + i);
    }
  }

  lemma AheadSpelled(ts: seq<Token>, trace: Trace, build: seq<Token>, at: nat, i: nat, symbol: Symbol)
    requires Builds(ts, trace, build) && at < |ts| && Selects(At(trace, at), ts[at]) && Solid(ts, at, i + 1)
    ensures Spelled(build, Rank(trace, at) + i, symbol) == Spelled(ts, at + i, symbol)
  {
    AheadSame(ts, trace, build, at, i);
  }

  lemma AheadAll(ts: seq<Token>, trace: Trace, build: seq<Token>, at: nat, pending: nat)
    requires Builds(ts, trace, build) && at < |ts| && Selects(At(trace, at), ts[at])
    requires Spelled(ts, at, OpenBracket) ==> SolidTest(ts, at)
    requires Spelled(ts, at, ProcedureWord) && pending > 0 ==> Solid(ts, at, 3)
    ensures SameAhead(ts, at, build, Rank(trace, at), pending)
  {
    AheadSpelled(ts, trace, build, at, 0, ts[at].symbol);
    if Spelled(ts, at, OpenBracket) {
      AheadSpelled(ts, trace, build, at, 1, TestWord);
      if Spelled(ts, at + 1, TestWord) {
        AheadSpelled(ts, trace, build, at, 2, CloseBracket);
      }
    } else if Spelled(ts, at, ProcedureWord) && pending > 0 {
      AheadSame(ts, trace, build, at, 1);
      AheadSame(ts, trace, build, at, 2);
    }
  }

  // ------------------------------------------------------------------ the induction

  /** Only `#if`, `#elif` and `#else` can leave an active region, where `Depth` does not refuse. */
  lemma StaysActive(ts: seq<Token>, trace: Trace, at: nat)
    requires IsTrace(ts, trace) && Accepted(trace) && at < |ts| && At(trace, at).active
    requires DepthTo(BRACES, ts, 0, at + 1).Accept? && !Splits(ts[at])
    ensures At(trace, at + 1).active
  {
    assert Advances(ts, trace, at);
    DepthAgrees(BRACES, ts, trace, 0, at);
    if ts[at].Endif? {
      var m, base := At(trace, at), |At(trace, 0).stack|;
      var d, count := DepthTo(BRACES, ts, 0, at).value, Count(BRACES, ts, trace, 0, at);
      assert FrameAgrees(m, base, d, count, |m.stack| - 1);
    }
  }

  /** Raw scan, build scan and their depths, after `k` raw tokens. */
  ghost predicate LinkedAt(body: seq<Token>, trace: Trace, s: Scan, v: Scan, k: nat)
    requires IsTrace(body, trace) && Accepted(trace) && k <= |body|
  {
    && DepthTo(BRACES, body, 0, k) == Accept(s.depth)
    && v.depth == DepthState(Count(BRACES, body, trace, 0, k), [])
    && Linked(s, At(trace, k), trace[k].value.selected, v, k)
  }

  lemma {:induction false} UnselectedNext(
    body: seq<Token>, trace: Trace, build: seq<Token>, at: nat, s: Scan, s': Scan, v: Scan)
    requires Builds(body, trace, build) && at < |body| && !Selects(At(trace, at), body[at])
    requires LinkedAt(body, trace, s, v, at) && ScanStep(body, Indices(|body|), at, s) == Accept(s') && s'.pending <= 1
    ensures Rank(trace, at + 1) == Rank(trace, at) && LinkedAt(body, trace, s', v, at + 1)
  {
    RankStep(body, trace, at);
    if v.pending == 1 && !Splits(body[at]) {
      StaysActive(body, trace, at);
    }
    LinkedUnselected(body, at, s, s', At(trace, at), At(trace, at + 1), trace[at].value.selected, v);
  }

  /** Both depths step alike at a selected token. */
  lemma {:induction false} SelectedDepth(
    body: seq<Token>, trace: Trace, build: seq<Token>, at: nat, d: DepthState, e: DepthState)
    requires Builds(body, trace, build) && at < |body| && Selects(At(trace, at), body[at])
    requires DepthTo(BRACES, body, 0, at) == Accept(d) && e == DepthState(Count(BRACES, body, trace, 0, at), [])
    ensures var d', e' := DepthStep(BRACES, d, body[at]), DepthStep(BRACES, e, body[at]);
      && DepthTo(BRACES, body, 0, at + 1) == d' && d'.Accept? && e'.Accept? && e'.value.value == d'.value.value
      && e'.value == DepthState(Count(BRACES, body, trace, 0, at + 1), [])
  {
    DepthAtSelected(BRACES, body, trace, 0, at);
  }

  /** A `procedure` that takes the pending attribute is that of a method, so nothing splits its header. */
  lemma HeaderIsSolid(body: seq<Token>, methods: seq<Method>, at: nat, s: Scan, s': Scan)
    requires at < |body| && Unsplit(body, methods) && s'.methods <= methods
    requires ScanStep(body, Indices(|body|), at, s) == Accept(s') && DepthStep(BRACES, s.depth, body[at]).Accept?
    requires DepthStep(BRACES, s.depth, body[at]).value.value == 1 && Spelled(body, at, ProcedureWord) && s.pending > 0
    ensures Solid(body, at, 3)
  {
    var c := |s.methods|;
    ScanStepOfCode(body, Indices(|body|), at, s, DepthStep(BRACES, s.depth, body[at]).value);
    assert s'.methods[c].procedure == at;
    assert methods[c] == s'.methods[c];
  }

  lemma {:induction false} SelectedAhead(
    body: seq<Token>, methods: seq<Method>, trace: Trace, build: seq<Token>, at: nat,
    s: Scan, s': Scan)
    requires Builds(body, trace, build) && Unsplit(body, methods) && at < |body| && Selects(At(trace, at), body[at])
    requires s'.methods <= methods && AtDepthOne(body, at) && DepthTo(BRACES, body, 0, at) == Accept(s.depth)
    requires ScanStep(body, Indices(|body|), at, s) == Accept(s')
    ensures SameAhead(body, at, build, Rank(trace, at), s.pending)
  {
    if Spelled(body, at, ProcedureWord) && s.pending > 0 {
      HeaderIsSolid(body, methods, at, s, s');
    }
    AheadAll(body, trace, build, at, s.pending);
  }

  /** Selecting code leaves the machine alone. */
  lemma SelectedMachine(body: seq<Token>, trace: Trace, at: nat)
    requires IsTrace(body, trace) && Accepted(trace) && at < |body| && Selects(At(trace, at), body[at])
    ensures At(trace, at + 1) == At(trace, at) && trace[at + 1].value.selected == trace[at].value.selected + [at]
  {
    RankStep(body, trace, at);
    assert Advances(body, trace, at);
  }

  lemma {:induction false} SelectedNext(
    body: seq<Token>, trace: Trace, build: seq<Token>, at: nat, s: Scan, s': Scan, v: Scan)
    returns (v': Scan)
    requires Builds(body, trace, build) && at < |body| && Selects(At(trace, at), body[at])
    requires AtDepthOne(body, at) ==> SameAhead(body, at, build, Rank(trace, at), s.pending)
    requires LinkedAt(body, trace, s, v, at) && ScanStep(body, Indices(|body|), at, s) == Accept(s') && s'.pending <= 1
    ensures Rank(trace, at + 1) == Rank(trace, at) + 1 <= |build|
    ensures ScanStep(build, Selected(trace), Rank(trace, at), v) == Accept(v')
    ensures LinkedAt(body, trace, s', v', at + 1)
  {
    SelectedAt(body, trace, at);
    SelectedMachine(body, trace, at);
    SelectedDepth(body, trace, build, at, s.depth, v.depth);
    v' := LinkedStep(body, at, build, Selected(trace), Rank(trace, at), s, s', At(trace, at),
                     trace[at].value.selected, v,
                     DepthStep(BRACES, s.depth, body[at]).value, DepthStep(BRACES, v.depth, body[at]).value);
  }

  /** The build scan follows the raw scan through `k` raw tokens. */
  ghost predicate Tracks(body: seq<Token>, trace: Trace, build: seq<Token>, s: Scan, vs: seq<Scan>, k: nat)
    requires Builds(body, trace, build) && k <= |body|
  {
    && IsScan(build, Selected(trace), vs) && |vs| == Rank(trace, k) + 1
    && LinkedAt(body, trace, s, vs[|vs| - 1], k)
  }

  lemma ScanAppend(body: seq<Token>, origins: seq<nat>, scans: seq<Scan>, next: Scan)
    requires IsScan(body, origins, scans) && |scans| <= |body|
    requires ScanStep(body, origins, |scans| - 1, scans[|scans| - 1]) == Accept(next)
    ensures IsScan(body, origins, scans + [next])
  {
    forall at | 0 <= at < |scans|
      ensures ScanAdvances(body, origins, scans + [next], at)
    {
      if at < |scans| - 1 {
        assert ScanAdvances(body, origins, scans, at);
      }
    }
  }

  lemma {:induction false} TracksNext(body: seq<Token>, methods: seq<Method>, trace: Trace, build: seq<Token>, at: nat,
    s: Scan, s': Scan, vs: seq<Scan>)
    returns (vs': seq<Scan>)
    requires Builds(body, trace, build) && Unsplit(body, methods) && at < |body|
             && Tracks(body, trace, build, s, vs, at)
    requires s'.methods <= methods
    requires ScanStep(body, Indices(|body|), at, s) == Accept(s') && s'.pending <= 1
    ensures Tracks(body, trace, build, s', vs', at + 1)
  {
    var v := vs[|vs| - 1];
    if Selects(At(trace, at), body[at]) {
      if AtDepthOne(body, at) {
        SelectedAhead(body, methods, trace, build, at, s, s');
      }
      var v' := SelectedNext(body, trace, build, at, s, s', v);
      ScanAppend(build, Selected(trace), vs, v');
      vs' := vs + [v'];
    } else {
      UnselectedNext(body, trace, build, at, s, s', v);
      vs' := vs;
    }
  }

  lemma {:induction false} MethodsGrow(body: seq<Token>, scans: seq<Scan>, k: nat)
    requires IsScan(body, Indices(|body|), scans) && |scans| == |body| + 1 && k <= |body|
    ensures scans[k].methods <= scans[|body|].methods
    decreases |body| - k
  {
    if k < |body| {
      MethodsGrow(body, scans, k + 1);
      assert ScanAdvances(body, Indices(|body|), scans, k);
    }
  }

  lemma {:induction false} TracksEverywhere(body: seq<Token>, trace: Trace, build: seq<Token>, scans: seq<Scan>, k: nat)
    returns (vs: seq<Scan>)
    requires Builds(body, trace, build) && k <= |body|
    requires IsScan(body, Indices(|body|), scans) && |scans| == |body| + 1 && scans[|body|].pending == 0
    requires Unsplit(body, scans[|body|].methods)
    ensures Tracks(body, trace, build, scans[k], vs, k)
  {
    if k == 0 {
      vs := [EMPTY_SCAN];
    } else {
      vs := TracksEverywhere(body, trace, build, scans, k - 1);
      assert ScanAdvances(body, Indices(|body|), scans, k - 1);
      if scans[k].pending > 1 {
        PendingStays(body, Indices(|body|), scans, k, |body|);
      }
      MethodsGrow(body, scans, k);
      vs := TracksNext(body, scans[|body|].methods, trace, build, k - 1, scans[k - 1], scans[k], vs);
    }
  }

  /**
   For a body that `test_methods` accepts, in which no directive splits a `[Test]` at depth one or the
   header of a test method, from any machine state at its opening brace: `test_methods` accepts the
   tokens of the build as well, and returns in order the raw methods whose attribute the build
   selects, one attribute for each.
   */
  lemma TestMethodsInEveryBuild(body: seq<Token>, m: Machine, inventory: Inventory)
    requires TestMethods(body, Indices(|body|)) == Accept(inventory) && Unsplit(body, inventory.methods)
    requires Run(m, body, |body|).Accept?
    ensures var selected := Run(m, body, |body|).value.selected;
      && (forall i :: 0 <= i < |selected| ==> selected[i] < |body|)
      && var kept := KeptBy(inventory.methods, selected);
         var found := TestMethods(Project(body, selected), selected);
         found.Accept? && found.value.methods == kept && found.value.attributes == |kept|
  {
    var trace := TraceOf(m, body);
    TraceAccepted(m, body);
    SelectedIncrease(m, body, |body|);
    var build := Project(body, Selected(trace));
    var scans := ScanOf(body, Indices(|body|));
    var vs := TracksEverywhere(body, trace, build, scans, |body|);
    ScanIsScanTo(build, Selected(trace), vs, |build|);
  }

  // ------------------------------------------------------------------ the subtype

  /** No directive splits a `Subtype = Test;` at depth one. */
  predicate UnsplitSubtype(body: seq<Token>) {
    forall at :: 0 <= at < |body| && Spelled(body, at, SubtypeWord) && AtDepthOne(body, at) ==> Solid(body, at, 4)
  }

  lemma {:induction false} SubtypeAtInBuild(body: seq<Token>, trace: Trace, build: seq<Token>, r: nat)
    requires Builds(body, trace, build) && UnsplitSubtype(body) && r < |build|
             && DepthTo(BRACES, body, 0, |body|).Accept?
    ensures SubtypeAt(build, r) <==> SubtypeAt(body, Selected(trace)[r])
  {
    var at := Selected(trace)[r];
    RankOfSelected(body, trace, |body|, r);
    DepthAcceptedBefore(BRACES, body, 0, at + 1, |body|);
    BuildPasses(BRACES, body, trace, build, 0, at);
    if Spelled(body, at, SubtypeWord) && AtDepthOne(body, at) {
      AheadSpelled(body, trace, build, at, 1, Equals);
      AheadSpelled(body, trace, build, at, 2, TestWord);
      AheadSpelled(body, trace, build, at, 3, Semicolon);
    }
  }

  /** A build is a test codeunit exactly when it selects a `Subtype = Test;` of the raw body. */
  lemma SubtypeInEveryBuild(body: seq<Token>, m: Machine, inventory: Inventory, selected: seq<nat>, found: Inventory)
    requires UnsplitSubtype(body) && TestMethods(body, Indices(|body|)) == Accept(inventory)
    requires Run(m, body, |body|).Accept? && selected == Run(m, body, |body|).value.selected
    requires forall i :: 0 <= i < |selected| ==> selected[i] < |body|
    requires TestMethods(Project(body, selected), selected) == Accept(found)
    ensures found.subtype <==> exists at :: 0 <= at < |body| && at in selected && SubtypeAt(body, at)
    ensures inventory.subtype <==> exists at :: 0 <= at < |body| && SubtypeAt(body, at)
  {
    var trace := TraceOf(m, body);
    TraceAccepted(m, body);
    var build := Project(body, selected);
    var scans := ScanOf(body, Indices(|body|));
    var vs := ScanOf(build, selected);
    ScanDepth(body, Indices(|body|), scans, |body|);
    SubtypeSeen(body, Indices(|body|), scans, |body|);
    SubtypeSeen(build, selected, vs, |build|);
    forall r | 0 <= r < |build|
      ensures SubtypeAt(build, r) <==> SubtypeAt(body, selected[r])
    {
      SubtypeAtInBuild(body, trace, build, r);
    }
  }
}
