/**
 `scope_inventory.Depth` and `closing`: one pass over the raw tokens that follows the nesting depth
 through all branches of conditional compilation at once. Where it does not refuse, it agrees with
 the depth counted in every single build.
 */
module BraceDepth {
  import opened Outcomes
  import opened Preprocessor

  /** An open `#if`: the depth it started at, the depths its finished branches ended at, `#else` seen. */
  datatype Branch = Branch(start: int, ends: seq<int>, hasElse: bool)

  datatype DepthState = DepthState(value: int, branches: seq<Branch>)

  /** The pair of symbols that `Depth` was made for. */
  datatype Brackets = Brackets(opening: Symbol, ending: Symbol)

  predicate AllEqual(xs: seq<int>) {
    forall i, j :: 0 <= i < |xs| && 0 <= j < |xs| ==> xs[i] == xs[j]
  }

  function Delta(b: Brackets, t: Token): int {
    if !t.Code? then 0 else if t.symbol == b.opening then 1 else if t.symbol == b.ending then -1 else 0
  }

  /** The depths a chain can leave behind, once its last branch ends at `value`. */
  function FinalEnds(branch: Branch, value: int): seq<int> {
    branch.ends + [value] + if branch.hasElse then [] else [branch.start]
  }

  function DepthStep(b: Brackets, d: DepthState, t: Token): Outcome<DepthState> {
    var n := |d.branches|;
    match t
    case If(_) => Accept(d.(branches := d.branches + [Branch(d.value, [], false)]))
    case Elif(_) =>
      if n == 0 then Refuse(BranchBeforeBoundary) else
      var top := d.branches[n - 1];
      Accept(DepthState(top.start, d.branches[n - 1 := top.(ends := top.ends + [d.value])]))
    case Else =>
      if n == 0 then Refuse(BranchBeforeBoundary) else
      var top := d.branches[n - 1];
      Accept(DepthState(top.start, d.branches[n - 1 := top.(ends := top.ends + [d.value], hasElse := true)]))
    case Endif =>
      if n == 0 then Refuse(BranchBeforeBoundary)
      else if !AllEqual(FinalEnds(d.branches[n - 1], d.value)) then Refuse(UnbalancedBranches)
      else Accept(d.(branches := d.branches[..n - 1]))
    case _ => Accept(d.(value := d.value + Delta(b, t)))
  }

  /** The object itself. A refused step leaves it in no state anyone reads again. */
  class Depth {
    const brackets: Brackets
    var value: int
    var branches: seq<Branch>

    constructor (opening: Symbol, ending: Symbol)
      ensures State() == DepthState(0, []) && brackets == Brackets(opening, ending)
    {
      brackets, value, branches := Brackets(opening, ending), 0, [];
    }

    function State(): DepthState
      reads this
    {
      DepthState(value, branches)
    }

    method Step(token: Token) returns (r: Outcome<int>)
      modifies this
      ensures match old(DepthStep(brackets, State(), token))
              case Refuse(why) => r == Refuse(why)
              case Accept(next) => State() == next && r == Accept(next.value)
    {
      if token.If? {
        branches := branches + [Branch(value, [], false)];
      } else if token.Else? || token.Elif? {
        if branches == [] {
          return Refuse(BranchBeforeBoundary);
        }
        var Branch(start, ends, hasElse) := branches[|branches| - 1];
        branches := branches[|branches| - 1 := Branch(start, ends + [value], hasElse || token.Else?)];
        value := start;
      } else if token.Endif? {
        if branches == [] {
          return Refuse(BranchBeforeBoundary);
        }
        var top := branches[|branches| - 1];
        branches := branches[..|branches| - 1];
        var equal := SingleValue(FinalEnds(top, value));
        if !equal {
          return Refuse(UnbalancedBranches);
        }
      } else if token.Code? && token.symbol == brackets.opening {
        value := value + 1;
      } else if token.Code? && token.symbol == brackets.ending {
        value := value - 1;
      }
      return Accept(value);
    }
  }

  /** `len(set(ends)) == 1` for a list that is not empty. */
  method SingleValue(ends: seq<int>) returns (equal: bool)
    requires ends != []
    ensures equal == AllEqual(ends)
  {
    for i := 0 to |ends|
      invariant forall j :: 0 <= j < i ==> ends[j] == ends[0]
    {
      if ends[i] != ends[0] {
        return false;
      }
    }
    return true;
  }

  /** The state after the tokens `ts[start..k]`. */
  function DepthTo(b: Brackets, ts: seq<Token>, start: nat, k: nat): Outcome<DepthState>
    requires start <= k <= |ts|
    decreases k
  {
    if k == start then Accept(DepthState(0, [])) else
    var d :- DepthTo(b, ts, start, k - 1);
    DepthStep(b, d, ts[k - 1])
  }

  predicate Ends(b: Brackets, t: Token) {
    t.Code? && t.symbol == b.ending
  }

  function ClosingFrom(b: Brackets, ts: seq<Token>, start: nat, at: nat): Outcome<nat>
    requires start <= at <= |ts|
    decreases |ts| - at
  {
    if at == |ts| then Refuse(UnclosedBracket) else
    var d :- DepthTo(b, ts, start, at + 1);
    if d.value == 0 && Ends(b, ts[at]) then Accept(at) else ClosingFrom(b, ts, start, at + 1)
  }

  /** The value of `closing`. */
  function Closing(b: Brackets, ts: seq<Token>, start: nat): Outcome<nat>
    requires start <= |ts|
  {
    ClosingFrom(b, ts, start, start)
  }

  method FindClosing(ts: seq<Token>, start: nat, opening: Symbol, ending: Symbol) returns (r: Outcome<nat>)
    requires start <= |ts|
    ensures r == Closing(Brackets(opening, ending), ts, start)
  {
    ghost var b := Brackets(opening, ending);
    var depth := new Depth(opening, ending);
    for at := start to |ts|
      invariant depth.brackets == b && DepthTo(b, ts, start, at) == Accept(depth.State())
      invariant Closing(b, ts, start) == ClosingFrom(b, ts, start, at)
    {
      var value :- depth.Step(ts[at]);
      if value == 0 && ts[at].Code? && ts[at].symbol == ending {
        return Accept(at);
      }
    }
    return Refuse(UnclosedBracket);
  }

  /** The scan of `closing` from `start` goes past the token at `k`. */
  predicate Passes(b: Brackets, ts: seq<Token>, start: nat, k: nat)
    requires start <= k < |ts|
  {
    match DepthTo(b, ts, start, k + 1)
    case Refuse(_) => false
    case Accept(d) => !(d.value == 0 && Ends(b, ts[k]))
  }

  /** `at` is the first ending bracket, counted from `start`, at which the depth is back at zero. */
  ghost predicate ClosesAt(b: Brackets, ts: seq<Token>, start: nat, at: nat) {
    && start <= at < |ts|
    && (forall k :: start <= k < at ==> Passes(b, ts, start, k))
    && DepthTo(b, ts, start, at + 1).Accept? && DepthTo(b, ts, start, at + 1).value.value == 0 && Ends(b, ts[at])
  }

  lemma {:induction false} ClosingClosesAt(b: Brackets, ts: seq<Token>, start: nat, from: nat, at: nat)
    requires start <= from <= |ts| && forall k :: start <= k < from ==> Passes(b, ts, start, k)
    ensures ClosingFrom(b, ts, start, from) == Accept(at) <==> ClosesAt(b, ts, start, at)
    decreases |ts| - from
  {
    assert start <= at < from ==> Passes(b, ts, start, at);
    if from < |ts| && Passes(b, ts, start, from) {
      ClosingClosesAt(b, ts, start, from + 1, at);
    }
  }
}
