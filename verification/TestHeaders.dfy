/**
 What `test_methods` accepts, said without a scan: the `[Test]` attributes at depth one and the
 procedures they belong to, one header behind the other.
 */
module TestHeaders {
  import opened Outcomes
  import opened Preprocessor
  import opened BraceDepth
  import opened VariantDepth
  import opened TestInventory

  function Indices(n: nat): (r: seq<nat>)
    ensures |r| == n && forall i :: 0 <= i < n ==> r[i] == i
  {
    seq(n, i => i)
  }

  // ------------------------------------------------------------------ headers

  predicate AtDepthOne(body: seq<Token>, at: nat)
    requires at < |body|
  {
    var depth := DepthTo(Brackets(OpenBrace, CloseBrace), body, 0, at + 1);
    depth.Accept? && depth.value.value == 1
  }

  predicate TestAt(body: seq<Token>, at: nat) {
    && Spelled(body, at, OpenBracket) && Spelled(body, at + 1, TestWord) && Spelled(body, at + 2, CloseBracket)
    && AtDepthOne(body, at)
  }

  predicate ProcedureAt(body: seq<Token>, at: nat) {
    Spelled(body, at, ProcedureWord) && AtDepthOne(body, at)
  }

  /** `Subtype = Test;` stands at `at`, at depth one. */
  predicate SubtypeAt(body: seq<Token>, at: nat) {
    && Spelled(body, at, SubtypeWord) && Spelled(body, at + 1, Equals)
    && Spelled(body, at + 2, TestWord) && Spelled(body, at + 3, Semicolon)
    && AtDepthOne(body, at)
  }

  /** Nothing at `k` comes between an attribute and its procedure. */
  predicate Idle(body: seq<Token>, k: nat)
    requires k < |body|
  {
    !TestAt(body, k) && !ProcedureAt(body, k) && !body[k].If? && !body[k].Elif? && !body[k].Else?
  }

  predicate Quiet(body: seq<Token>, from: nat, to: nat)
    requires to <= |body|
  {
    forall k :: from < k < to ==> Idle(body, k)
  }

  /** `m` is the procedure, with a name and an argument list, that follows its attribute. */
  predicate Header(body: seq<Token>, m: Method) {
    && TestAt(body, m.attribute) && ProcedureAt(body, m.procedure) && m.attribute < m.procedure
    && m.procedure + 2 < |body| && Spelled(body, m.procedure + 2, OpenParen)
    && body[m.procedure + 1].Code? && body[m.procedure + 1].ident == Some(m.name)
    && Quiet(body, m.attribute, m.procedure)
  }

  predicate Ordered(methods: seq<Method>) {
    forall i, j :: 0 <= i < j < |methods| ==> methods[i].procedure < methods[j].attribute
  }

  predicate HasAttribute(methods: seq<Method>, at: nat) {
    exists i :: 0 <= i < |methods| && methods[i].attribute == at
  }

  /** The methods are headers, in order, and every `[Test]` at depth one is the attribute of one. */
  ghost predicate Lists(body: seq<Token>, methods: seq<Method>) {
    && Ordered(methods)
    && (forall i :: 0 <= i < |methods| ==> Header(body, methods[i]))
    && (forall at :: 0 <= at < |body| && TestAt(body, at) ==> HasAttribute(methods, at))
  }

  // ------------------------------------------------------------------ the scan, described

  lemma {:induction false} ScanDepth(body: seq<Token>, origins: seq<nat>, scans: seq<Scan>, k: nat)
    requires IsScan(body, origins, scans) && k < |scans|
    ensures DepthTo(BRACES, body, 0, k) == Accept(scans[k].depth)
  {
    if k > 0 {
      ScanDepth(body, origins, scans, k - 1);
      assert ScanAdvances(body, origins, scans, k - 1);
    }
  }

  /** Two pending attributes are never reconciled again. */
  lemma {:induction false} PendingStays(body: seq<Token>, origins: seq<nat>, scans: seq<Scan>, k: nat, n: nat)
    requires IsScan(body, origins, scans) && k <= n < |scans| && scans[k].pending > 1
    ensures scans[n].pending > 1
    decreases n
  {
    if k < n {
      PendingStays(body, origins, scans, k, n - 1);
      assert ScanAdvances(body, origins, scans, n - 1);
    }
  }

  /** The attribute that waits for its procedure, after `k` tokens. */
  ghost predicate Awaits(body: seq<Token>, s: Scan, k: nat)
    requires k <= |body|
  {
    && s.origin < k && TestAt(body, s.origin) && Quiet(body, s.origin, k)
    && forall i :: 0 <= i < |s.methods| ==> s.methods[i].procedure < s.origin
  }

  predicate CoveredAt(s: Scan, at: nat) {
    HasAttribute(s.methods, at) || (s.pending == 1 && at == s.origin)
  }

  /** The first `k` tokens hold the headers listed, one attribute more if one is pending, and no other. */
  ghost predicate Describes(body: seq<Token>, s: Scan, k: nat)
    requires k <= |body|
  {
    && s.pending <= 1 && s.attributes == |s.methods| + s.pending
    && Ordered(s.methods)
    && (forall i :: 0 <= i < |s.methods| ==> Header(body, s.methods[i]) && s.methods[i].procedure < k)
    && (s.pending == 1 ==> Awaits(body, s, k))
    && (forall at :: 0 <= at < k && TestAt(body, at) ==> CoveredAt(s, at))
  }

  /** A token that changes neither methods nor attributes. */
  lemma DescribesIdle(body: seq<Token>, s: Scan, s': Scan, at: nat)
    requires at < |body| && Describes(body, s, at) && !TestAt(body, at)
    requires s'.methods == s.methods && s'.attributes == s.attributes && s'.pending == s.pending
             && s'.origin == s.origin
    requires s.pending == 1 ==> Idle(body, at)
    ensures Describes(body, s', at + 1)
  {
    forall a | 0 <= a < at + 1 && TestAt(body, a)
      ensures CoveredAt(s', a)
    {
      assert CoveredAt(s, a);
    }
  }

  /** A `[Test]`. */
  lemma DescribesTest(body: seq<Token>, s: Scan, s': Scan, at: nat)
    requires at < |body| && Describes(body, s, at) && TestAt(body, at) && s.pending == 0
    requires s'.methods == s.methods && s'.attributes == s.attributes + 1 && s'.pending == 1 && s'.origin == at
    ensures Describes(body, s', at + 1)
  {
    forall a | 0 <= a < at + 1 && TestAt(body, a)
      ensures CoveredAt(s', a)
    {
      assert a < at ==> CoveredAt(s, a);
    }
  }

  lemma HasAttributeNext(methods: seq<Method>, m: Method, at: nat)
    ensures HasAttribute(methods + [m], at) <==> HasAttribute(methods, at) || at == m.attribute
  {
    if i :| 0 <= i < |methods| && methods[i].attribute == at {
      assert (methods + [m])[i].attribute == at;
    }
    assert (methods + [m])[|methods|] == m;
  }

  /** A `procedure` that takes the pending attribute. */
  lemma DescribesHeader(body: seq<Token>, s: Scan, s': Scan, at: nat, m: Method)
    requires at < |body| && Describes(body, s, at) && s.pending == 1
    requires m.attribute == s.origin && m.procedure == at && Header(body, m)
    requires s'.methods == s.methods + [m] && s'.attributes == s.attributes && s'.pending == 0
    ensures Describes(body, s', at + 1)
  {
    forall a | 0 <= a < at + 1 && TestAt(body, a)
      ensures CoveredAt(s', a)
    {
      assert a < at ==> CoveredAt(s, a);
      HasAttributeNext(s.methods, m, a);
    }
  }

  /** The scan at depth one, token by token. */
  lemma InspectDescribes(body: seq<Token>, s: Scan, s': Scan, at: nat)
    requires at < |body| && Describes(body, s, at) && AtDepthOne(body, at) && body[at].Code?
    requires Inspect(body, Indices(|body|), at, s) == Accept(s') && s'.pending <= 1
    ensures Describes(body, s', at + 1)
  {
    if TestTriple(body, at) {
      DescribesTest(body, s, s', at);
    } else if Spelled(body, at, ProcedureWord) && s.pending == 1 {
      DescribesHeader(body, s, s', at, s'.methods[|s.methods|]);
    } else {
      DescribesIdle(body, s, s', at);
    }
  }

  lemma StepDescribes(body: seq<Token>, s: Scan, s': Scan, at: nat)
    requires at < |body| && Describes(body, s, at) && DepthTo(BRACES, body, 0, at) == Accept(s.depth)
    requires ScanStep(body, Indices(|body|), at, s) == Accept(s') && s'.pending <= 1
    ensures Describes(body, s', at + 1)
  {
    var d := DepthStep(BRACES, s.depth, body[at]).value;
    assert DepthTo(BRACES, body, 0, at + 1) == Accept(d);
    var deep := s.(depth := d);
    assert Describes(body, deep, at);
    if body[at].Code? && AtDepthOne(body, at) {
      InspectDescribes(body, deep, s', at);
    } else {
      DescribesIdle(body, s, s', at);
    }
  }

  lemma {:induction false} ScanDescribes(body: seq<Token>, scans: seq<Scan>, k: nat)
    requires IsScan(body, Indices(|body|), scans) && |scans| == |body| + 1 && scans[|body|].pending == 0 && k <= |body|
    ensures Describes(body, scans[k], k)
  {
    if k > 0 {
      ScanDescribes(body, scans, k - 1);
      ScanDepth(body, Indices(|body|), scans, k - 1);
      assert ScanAdvances(body, Indices(|body|), scans, k - 1);
      if scans[k].pending > 1 {
        PendingStays(body, Indices(|body|), scans, k, |body|);
      }
      StepDescribes(body, scans[k - 1], scans[k], k - 1);
    }
  }

  lemma {:induction false} SubtypeStep(body: seq<Token>, origins: seq<nat>, scans: seq<Scan>, at: nat)
    requires IsScan(body, origins, scans) && at + 1 < |scans|
    ensures scans[at + 1].subtype <==> scans[at].subtype || SubtypeAt(body, at)
  {
    ScanDepth(body, origins, scans, at);
    ScanDepth(body, origins, scans, at + 1);
    assert ScanAdvances(body, origins, scans, at);
  }

  lemma {:induction false} SubtypeSeen(body: seq<Token>, origins: seq<nat>, scans: seq<Scan>, k: nat)
    requires IsScan(body, origins, scans) && k < |scans|
    ensures scans[k].subtype <==> exists at :: 0 <= at < k && SubtypeAt(body, at)
  {
    if k > 0 {
      SubtypeSeen(body, origins, scans, k - 1);
      SubtypeStep(body, origins, scans, k - 1);
    }
  }

  // ------------------------------------------------------------------ whatever is so listed is accepted

  /** What the scan has listed so far are the first of the listed methods. */
  ghost predicate Tallies(body: seq<Token>, methods: seq<Method>, s: Scan, k: nat)
    requires k <= |body|
  {
    Lists(body, methods) && Describes(body, s, k) && s.methods <= methods
  }

  /** The attribute of a later method that has been passed already is the pending one. */
  lemma LaterAttribute(body: seq<Token>, methods: seq<Method>, s: Scan, k: nat, i: nat)
    requires k <= |body| && Tallies(body, methods, s, k) && |s.methods| <= i < |methods| && methods[i].attribute < k
    ensures s.pending == 1 && methods[i].attribute == s.origin
  {
    assert Header(body, methods[i]) && CoveredAt(s, methods[i].attribute);
    forall j | 0 <= j < |s.methods|
      ensures s.methods[j].attribute != methods[i].attribute
    {
      assert s.methods[j] == methods[j] && Header(body, methods[j]);
    }
  }

  /** The pending attribute is that of a later method. */
  lemma PendingIsListed(body: seq<Token>, methods: seq<Method>, s: Scan, k: nat) returns (i: nat)
    requires k <= |body| && Tallies(body, methods, s, k) && s.pending == 1
    ensures |s.methods| <= i < |methods| && methods[i].attribute == s.origin
  {
    assert HasAttribute(methods, s.origin);
    i :| 0 <= i < |methods| && methods[i].attribute == s.origin;
    forall j | 0 <= j < |s.methods|
      ensures methods[j].attribute != s.origin
    {
      assert s.methods[j] == methods[j] && Header(body, methods[j]);
    }
  }

  /** The pending attribute is that of the next listed method, whose procedure is still to come. */
  lemma PendingIsNext(body: seq<Token>, methods: seq<Method>, s: Scan, k: nat)
    requires k <= |body| && Tallies(body, methods, s, k) && s.pending == 1
    ensures |s.methods| < |methods|
    ensures var m := methods[|s.methods|]; m.attribute == s.origin && m.procedure >= k
  {
    var c := |s.methods|;
    var i := PendingIsListed(body, methods, s, k);
    assert Header(body, methods[c]);
    assert c < i ==> methods[c].procedure < methods[i].attribute;
    LaterAttribute(body, methods, s, k, c);
    assert s.origin < methods[c].procedure < k ==> Idle(body, methods[c].procedure);
  }

  /** At the end the scan has listed them all. */
  lemma NothingLeft(body: seq<Token>, methods: seq<Method>, s: Scan)
    requires Tallies(body, methods, s, |body|)
    ensures s.pending == 0 && s.methods == methods
  {
    assert forall i :: 0 <= i < |methods| ==> Header(body, methods[i]);
    if s.pending == 1 {
      PendingIsNext(body, methods, s, |body|);
    }
    if |s.methods| < |methods| {
      LaterAttribute(body, methods, s, |body|, |s.methods|);
    }
  }

  /** What stands behind the pending attribute, up to its procedure. */
  lemma UpToProcedure(body: seq<Token>, methods: seq<Method>, s: Scan, at: nat)
    requires at < |body| && Tallies(body, methods, s, at) && s.pending == 1
    ensures |s.methods| < |methods|
    ensures var m := methods[|s.methods|];
      m.attribute == s.origin && Header(body, m) && (at == m.procedure || Idle(body, at))
  {
    PendingIsNext(body, methods, s, at);
    assert Header(body, methods[|s.methods|]);
  }

  /** At depth one, a listed body gives no reason to refuse. */
  lemma ListedInspect(body: seq<Token>, methods: seq<Method>, s: Scan, at: nat)
    requires at < |body| && Tallies(body, methods, s, at) && AtDepthOne(body, at)
    ensures var r := Inspect(body, Indices(|body|), at, s);
      r.Accept? && r.value.pending <= 1 && r.value.methods <= methods && r.value.depth == s.depth
  {
    if s.pending == 1 {
      UpToProcedure(body, methods, s, at);
      assert s.methods + [methods[|s.methods|]] <= methods;
    }
  }

  /** What a listed body makes of a token. */
  lemma ListedStep(body: seq<Token>, methods: seq<Method>, s: Scan, at: nat) returns (s': Scan)
    requires at < |body| && Tallies(body, methods, s, at)
    requires DepthTo(BRACES, body, 0, at) == Accept(s.depth) && DepthTo(BRACES, body, 0, at + 1).Accept?
    ensures ScanStep(body, Indices(|body|), at, s) == Accept(s') && DepthTo(BRACES, body, 0, at + 1) == Accept(s'.depth)
    ensures Tallies(body, methods, s', at + 1)
  {
    var d := DepthStep(BRACES, s.depth, body[at]).value;
    assert DepthTo(BRACES, body, 0, at + 1) == Accept(d);
    if s.pending == 1 {
      UpToProcedure(body, methods, s, at);
    }
    s' := s.(depth := d);
    if d.value == 1 {
      ListedInspect(body, methods, s', at);
      s' := Inspect(body, Indices(|body|), at, s').value;
    }
    StepDescribes(body, s, s', at);
  }

  lemma {:induction false} ListedScan(body: seq<Token>, methods: seq<Method>, k: nat) returns (s: Scan)
    requires Lists(body, methods) && k <= |body| && DepthTo(BRACES, body, 0, |body|).Accept?
    ensures ScanTo(body, Indices(|body|), k) == Accept(s) && DepthTo(BRACES, body, 0, k) == Accept(s.depth)
    ensures Tallies(body, methods, s, k)
  {
    if k == 0 {
      s := EMPTY_SCAN;
    } else {
      var before := ListedScan(body, methods, k - 1);
      DepthAcceptedBefore(BRACES, body, 0, k, |body|);
      ScanNext(body, Indices(|body|), k - 1, before);
      s := ListedStep(body, methods, before, k - 1);
    }
  }

  /**
   `test_methods` accepts a body exactly if its depth can be followed and the `[Test]` attributes at
   depth one are those of a list of headers; the list is what it returns, one attribute for each, and
   the subtype is set exactly if a `Subtype = Test;` stands at depth one.
   */
  lemma AcceptedIffListed(body: seq<Token>, inventory: Inventory)
    ensures TestMethods(body, Indices(|body|)) == Accept(inventory) <==>
            && DepthTo(BRACES, body, 0, |body|).Accept?
            && Lists(body, inventory.methods)
            && inventory.attributes == |inventory.methods|
            && (inventory.subtype <==> exists at :: 0 <= at < |body| && SubtypeAt(body, at))
  {
    if TestMethods(body, Indices(|body|)) == Accept(inventory) {
      AcceptedIsListed(body, inventory);
    }
    if DepthTo(BRACES, body, 0, |body|).Accept? && Lists(body, inventory.methods) {
      ListedIsAccepted(body, inventory.methods);
      AcceptedIsListed(body, TestMethods(body, Indices(|body|)).value);
    }
  }

  lemma AcceptedIsListed(body: seq<Token>, inventory: Inventory)
    requires TestMethods(body, Indices(|body|)) == Accept(inventory)
    ensures DepthTo(BRACES, body, 0, |body|).Accept? && Lists(body, inventory.methods)
    ensures inventory.attributes == |inventory.methods|
    ensures inventory.subtype <==> exists at :: 0 <= at < |body| && SubtypeAt(body, at)
  {
    var scans := ScanOf(body, Indices(|body|));
    ScanDepth(body, Indices(|body|), scans, |body|);
    ScanDescribes(body, scans, |body|);
    SubtypeSeen(body, Indices(|body|), scans, |body|);
    forall at | 0 <= at < |body| && TestAt(body, at)
      ensures HasAttribute(inventory.methods, at)
    {
      assert CoveredAt(scans[|body|], at);
    }
  }

  lemma ListedIsAccepted(body: seq<Token>, methods: seq<Method>)
    requires DepthTo(BRACES, body, 0, |body|).Accept? && Lists(body, methods)
    ensures TestMethods(body, Indices(|body|)).Accept? && TestMethods(body, Indices(|body|)).value.methods == methods
  {
    var s := ListedScan(body, methods, |body|);
    NothingLeft(body, methods, s);
  }
}
