/**
 `scope_inventory.test_methods`: finding the `[Test]` procedures of an object body in the raw tokens.
 An origin is represented by the index of its token.
 */
module TestInventory {
  import opened Outcomes
  import opened Preprocessor
  import opened BraceDepth
  import opened VariantDepth

  const BRACES := Brackets(OpenBrace, CloseBrace)

  /** A test procedure, with the origins of its attribute and of its `procedure` keyword. */
  datatype Method = Method(attribute: nat, procedure: nat, name: string)

  /** The loop variables; `origin` is `attribute_origin`. */
  datatype Scan = Scan(depth: DepthState, attributes: nat, pending: nat, origin: nat,
                       methods: seq<Method>, subtype: bool)

  datatype Inventory = Inventory(subtype: bool, methods: seq<Method>, attributes: nat)

  predicate Spelled(body: seq<Token>, at: nat, symbol: Symbol) {
    at < |body| && body[at].Code? && body[at].symbol == symbol
  }

  predicate TestTriple(body: seq<Token>, at: nat) {
    Spelled(body, at, OpenBracket) && Spelled(body, at + 1, TestWord) && Spelled(body, at + 2, CloseBracket)
  }

  predicate SubtypeTest(body: seq<Token>, at: nat) {
    && Spelled(body, at, SubtypeWord) && Spelled(body, at + 1, Equals)
    && Spelled(body, at + 2, TestWord) && Spelled(body, at + 3, Semicolon)
  }

  function Identifier(t: Token): Outcome<string> {
    if t.Code? && t.ident.Some? then Accept(t.ident.value) else Refuse(ExpectedIdentifier)
  }

  /** What a token at depth one does, its depth already taken. */
  function Inspect(body: seq<Token>, origins: seq<nat>, at: nat, s: Scan): Outcome<Scan>
    requires at < |body| == |origins|
  {
    var s1 := if SubtypeTest(body, at) then s.(subtype := true) else s;
    var s2 := if TestTriple(body, at)
              then s1.(attributes := s1.attributes + 1, pending := s1.pending + 1, origin := origins[at]) else s1;
    if Spelled(body, at, ProcedureWord) && s2.pending > 0 then
      if s2.pending != 1 || at + 2 >= |body| || !Spelled(body, at + 2, OpenParen)
      then Refuse(UnreconciledTestAttributes) else
      var name :- Identifier(body[at + 1]);
      Accept(s2.(methods := s2.methods + [Method(s2.origin, origins[at], name)], pending := 0))
    else
      Accept(s2)
  }

  predicate Splits(t: Token) {
    t.If? || t.Else? || t.Elif?
  }

  function ScanStep(body: seq<Token>, origins: seq<nat>, at: nat, s: Scan): Outcome<Scan>
    requires at < |body| == |origins|
  {
    if Splits(body[at]) && s.pending > 0 then Refuse(ConditionalTestHeader) else
    var depth :- DepthStep(BRACES, s.depth, body[at]);
    if depth.value != 1 then Accept(s.(depth := depth)) else Inspect(body, origins, at, s.(depth := depth))
  }

  const EMPTY_SCAN := Scan(DepthState(0, []), 0, 0, 0, [], false)

  function ScanTo(body: seq<Token>, origins: seq<nat>, k: nat): Outcome<Scan>
    requires k <= |body| == |origins|
  {
    if k == 0 then Accept(EMPTY_SCAN) else
    var s :- ScanTo(body, origins, k - 1);
    ScanStep(body, origins, k - 1, s)
  }

  /** The value of `test_methods`. */
  function TestMethods(body: seq<Token>, origins: seq<nat>): Outcome<Inventory>
    requires |body| == |origins|
  {
    var s :- ScanTo(body, origins, |body|);
    if s.pending > 0 || s.attributes != |s.methods| then Refuse(UnreconciledTestAttributes)
    else Accept(Inventory(s.subtype, s.methods, s.attributes))
  }

  lemma {:induction false} ScanRefusalStays(body: seq<Token>, origins: seq<nat>, k: nat, n: nat)
    requires k <= n <= |body| == |origins| && ScanTo(body, origins, k).Refuse?
    ensures ScanTo(body, origins, n) == ScanTo(body, origins, k)
  {
    if k < n {
      ScanRefusalStays(body, origins, k, n - 1);
    }
  }

  /** One turn of the loop. */
  lemma ScanNext(body: seq<Token>, origins: seq<nat>, at: nat, s: Scan)
    requires at < |body| == |origins| && ScanTo(body, origins, at) == Accept(s)
    ensures ScanTo(body, origins, at + 1) == ScanStep(body, origins, at, s)
    ensures var next := ScanStep(body, origins, at, s);
      next.Refuse? ==> TestMethods(body, origins) == Refuse(next.why)
  {
    if ScanStep(body, origins, at, s).Refuse? {
      ScanRefusalStays(body, origins, at + 1, |body|);
    }
  }

  /** The part of the loop body that is reached at depth one. */
  method InspectToken(body: seq<Token>, origins: seq<nat>, at: nat, s: Scan) returns (r: Outcome<Scan>)
    requires at < |body| == |origins|
    ensures r == Inspect(body, origins, at, s)
  {
    var Scan(depth, attributes, pending, origin, methods, subtype) := s;
    if SubtypeTest(body, at) {
      subtype := true;
    }
    if TestTriple(body, at) {
      attributes, pending, origin := attributes + 1, pending + 1, origins[at];
    }
    if Spelled(body, at, ProcedureWord) && pending > 0 {
      if pending != 1 || at + 2 >= |body| || !Spelled(body, at + 2, OpenParen) {
        return Refuse(UnreconciledTestAttributes);
      }
      var name :- Identifier(body[at + 1]);
      methods := methods + [Method(origin, origins[at], name)];
      pending := 0;
    }
    return Accept(Scan(depth, attributes, pending, origin, methods, subtype));
  }

  method FindTestMethods(body: seq<Token>, origins: seq<nat>) returns (r: Outcome<Inventory>)
    requires |body| == |origins|
    ensures r == TestMethods(body, origins)
  {
    var depth := new Depth(OpenBrace, CloseBrace);
    var s := EMPTY_SCAN;
    for at := 0 to |body|
      invariant depth.brackets == BRACES && depth.State() == s.depth
      invariant ScanTo(body, origins, at) == Accept(s)
    {
      ScanNext(body, origins, at, s);
      ghost var next := ScanStep(body, origins, at, s);
      if Splits(body[at]) && s.pending > 0 {
        return Refuse(ConditionalTestHeader);
      }
      var value :- depth.Step(body[at]);
      s := s.(depth := depth.State());
      if value == 1 {
        s :- InspectToken(body, origins, at, s);
      }
      assert next == Accept(s);
    }
    if s.pending > 0 || s.attributes != |s.methods| {
      return Refuse(UnreconciledTestAttributes);
    }
    return Accept(Inventory(s.subtype, s.methods, s.attributes));
  }

  // ------------------------------------------------------------------ an accepted scan as a trace

  predicate ScanAdvances(body: seq<Token>, origins: seq<nat>, scans: seq<Scan>, at: nat)
    requires at < |body| == |origins| && at + 1 < |scans|
  {
    ScanStep(body, origins, at, scans[at]) == Accept(scans[at + 1])
  }

  /** The loop variables of `test_methods` after 0, 1, 2, ... tokens, as far as it goes through the body. */
  ghost predicate IsScan(body: seq<Token>, origins: seq<nat>, scans: seq<Scan>) {
    && |body| == |origins| && 1 <= |scans| <= |body| + 1 && scans[0] == EMPTY_SCAN
    && forall at :: 0 <= at < |scans| - 1 ==> ScanAdvances(body, origins, scans, at)
  }

  lemma {:induction false} ScanIsScanTo(body: seq<Token>, origins: seq<nat>, scans: seq<Scan>, k: nat)
    requires IsScan(body, origins, scans) && k < |scans|
    ensures ScanTo(body, origins, k) == Accept(scans[k])
  {
    if k > 0 {
      ScanIsScanTo(body, origins, scans, k - 1);
      assert ScanAdvances(body, origins, scans, k - 1);
      ScanNext(body, origins, k - 1, scans[k - 1]);
    }
  }

  lemma ScanOf(body: seq<Token>, origins: seq<nat>) returns (scans: seq<Scan>)
    requires |body| == |origins| && ScanTo(body, origins, |body|).Accept?
    ensures IsScan(body, origins, scans) && |scans| == |body| + 1
            && scans[|body|] == ScanTo(body, origins, |body|).value
  {
    forall k | 0 <= k <= |body|
      ensures ScanTo(body, origins, k).Accept?
    {
      if ScanTo(body, origins, k).Refuse? {
        ScanRefusalStays(body, origins, k, |body|);
      }
    }
    scans := seq(|body| + 1, k requires 0 <= k <= |body| => ScanTo(body, origins, k).value);
    forall at | 0 <= at < |body|
      ensures ScanAdvances(body, origins, scans, at)
    {
      ScanNext(body, origins, at, scans[at]);
    }
  }
}
