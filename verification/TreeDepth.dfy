/**
 When `scope_inventory.Depth` and `closing` refuse, said over the tree of `#if` chains and without
 the stack of branches: every branch of a chain must change the depth by as much, and by nothing
 where the chain has no `#else`.
 */
module TreeDepth {
  import opened Outcomes
  import opened Sequences
  import opened Preprocessor
  import opened Chains
  import opened BraceDepth
  import opened VariantDepth

  // ------------------------------------------------------------------ balanced trees

  /** By how much a block changes the depth, where the chains change it by their first branch. */
  function Net(b: Brackets, block: Block): int {
    match block
    case Nil => 0
    case Cons(head, tail) => NetItem(b, head) + Net(b, tail)
  }

  function NetItem(b: Brackets, i: Item): int {
    match i
    case Plain(t) => PlainDepth(b, [t])
    case Chain(_, body, _) => Net(b, body)
  }

  /** In every chain all branches have the same net, which is 0 where there is no `#else`. */
  predicate Balanced(b: Brackets, block: Block) {
    match block
    case Nil => true
    case Cons(head, tail) => BalancedItem(b, head) && Balanced(b, tail)
  }

  predicate BalancedItem(b: Brackets, i: Item) {
    match i
    case Plain(_) => true
    case Chain(_, body, rest) => Balanced(b, body) && BalancedRest(b, rest, Net(b, body))
  }

  /** Every further branch has net `net`; without an `#else` the net is 0. */
  predicate BalancedRest(b: Brackets, r: Alternatives, net: int) {
    match r
    case End => net == 0
    case Otherwise(body) => Balanced(b, body) && Net(b, body) == net
    case ElseIf(_, body, rest) => Balanced(b, body) && Net(b, body) == net && BalancedRest(b, rest, net)
  }

  // ------------------------------------------------------------------ one token

  lemma SingleDepth(b: Brackets, t: Token)
    requires IsPlain(t)
    ensures PlainDepth(b, [t]) == Delta(b, t)
  {
    assert [t][..0] == [];
    assert Tally([t], b.opening) == if t.Code? && t.symbol == b.opening then 1 else 0;
    assert Tally([t], b.ending) == if t.Code? && t.symbol == b.ending then 1 else 0;
  }

  /** `Depth` has come to position `at` in state `d`. */
  predicate Stood(b: Brackets, ts: seq<Token>, start: nat, at: nat, d: DepthState) {
    start <= at <= |ts| && DepthTo(b, ts, start, at) == Accept(d)
  }

  lemma AllEqualNext(xs: seq<int>, x: int, y: int)
    ensures AllEqual(xs + [x] + [y]) <==> AllEqual(xs + [x]) && x == y
  {
    var few, many := xs + [x], xs + [x] + [y];
    assert forall i :: 0 <= i < |few| ==> many[i] == few[i];
    assert many[|xs|] == x && many[|xs| + 1] == y && few[|xs|] == x;
    if AllEqual(many) {
      assert many[|xs|] == many[|xs| + 1];
    }
  }

  // ------------------------------------------------------------------ the pass over a tree

  /** What the pass makes of a block, and of the alternatives of an open chain. */
  function After(b: Brackets, block: Block, d: DepthState): Outcome<DepthState> {
    if Balanced(b, block) then Accept(d.(value := d.value + Net(b, block))) else Refuse(UnbalancedBranches)
  }

  function AfterItem(b: Brackets, i: Item, d: DepthState): Outcome<DepthState> {
    if BalancedItem(b, i) then Accept(d.(value := d.value + NetItem(b, i))) else Refuse(UnbalancedBranches)
  }

  /** The innermost chain started at `start`; earlier branches ended at `ends`, the last one at `value`. */
  function AfterRest(b: Brackets, r: Alternatives, outer: seq<Branch>, start: int, ends: seq<int>, value: int)
    : Outcome<DepthState>
  {
    if AllEqual(ends + [value]) && BalancedRest(b, r, value - start) then Accept(DepthState(value, outer))
    else Refuse(UnbalancedBranches)
  }

  lemma {:induction false} BlockDepth(b: Brackets, ts: seq<Token>, start: nat, at: nat, d: DepthState, block: Block)
    requires WellFormed(block) && Stands(ts, at, Flat(block)) && Stood(b, ts, start, at, d)
    ensures DepthTo(b, ts, start, at + |Flat(block)|) == After(b, block, d)
    decreases block
  {
    if block.Cons? {
      StandsSplit(ts, at, FlatItem(block.head), Flat(block.tail));
      ItemDepth(b, ts, start, at, d, block.head);
      var next := at + |FlatItem(block.head)|;
      if BalancedItem(b, block.head) {
        BlockDepth(b, ts, start, next, AfterItem(b, block.head, d).value, block.tail);
      } else {
        DepthRefusalStays(b, ts, start, next, at + |Flat(block)|);
      }
    }
  }

  lemma {:induction false} ItemDepth(b: Brackets, ts: seq<Token>, start: nat, at: nat, d: DepthState, i: Item)
    requires WellFormedItem(i) && Stands(ts, at, FlatItem(i)) && Stood(b, ts, start, at, d)
    ensures DepthTo(b, ts, start, at + |FlatItem(i)|) == AfterItem(b, i, d)
    decreases i
  {
    if i.Plain? {
      StandsSingle(ts, at, i.token);
      SingleDepth(b, i.token);
    } else {
      StandsSplit(ts, at, [If(i.cond)] + Flat(i.body), FlatRest(i.rest));
      StandsSplit(ts, at, [If(i.cond)], Flat(i.body));
      StandsSingle(ts, at, If(i.cond));
      var pushed := DepthState(d.value, d.branches + [Branch(d.value, [], false)]);
      assert DepthTo(b, ts, start, at + 1) == Accept(pushed);
      BlockDepth(b, ts, start, at + 1, pushed, i.body);
      var next := at + 1 + |Flat(i.body)|;
      if Balanced(b, i.body) {
        assert Stood(b, ts, start, next, DepthState(d.value + Net(b, i.body), pushed.branches));
        assert [] + [d.value + Net(b, i.body)] == [d.value + Net(b, i.body)];
        RestDepth(b, ts, start, next, d.branches, d.value, [], d.value + Net(b, i.body), i.rest);
      } else {
        DepthRefusalStays(b, ts, start, next, at + |FlatItem(i)|);
      }
    }
  }

  /** An `#elif` or `#else` with its body, and what follows them. */
  lemma BranchParts(ts: seq<Token>, at: nat, r: Alternatives)
    requires !r.End? && Stands(ts, at, FlatRest(r))
    ensures at < |ts| && (if r.Otherwise? then ts[at].Else? else ts[at].Elif?) && Stands(ts, at + 1, Flat(r.body))
    ensures var next := at + 1 + |Flat(r.body)|;
      && (r.Otherwise? ==> next < |ts| && ts[next].Endif? && |FlatRest(r)| == |Flat(r.body)| + 2)
      && (r.ElseIf? ==> Stands(ts, next, FlatRest(r.rest)) && |FlatRest(r)| == 1 + |Flat(r.body)| + |FlatRest(r.rest)|)
  {
    var first := if r.Otherwise? then Else else Elif(r.cond);
    var last := if r.Otherwise? then [Endif] else FlatRest(r.rest);
    assert FlatRest(r) == [first] + Flat(r.body) + last;
    StandsSplit(ts, at, [first] + Flat(r.body), last);
    StandsSplit(ts, at, [first], Flat(r.body));
    StandsSingle(ts, at, first);
    if r.Otherwise? {
      StandsSingle(ts, at + 1 + |Flat(r.body)|, Endif);
    }
  }

  /** The `#endif` behind an `#else`. */
  lemma EndDepth(
    b: Brackets, ts: seq<Token>, start: nat, at: nat, outer: seq<Branch>, from: int, ends: seq<int>, value: int,
        end: int)
    requires at < |ts| && ts[at].Endif?
    requires Stood(b, ts, start, at, DepthState(end, outer + [Branch(from, ends + [value], true)]))
    ensures DepthTo(b, ts, start, at + 1) ==
            if AllEqual(ends + [value]) && end == value then Accept(DepthState(value, outer))
            else Refuse(UnbalancedBranches)
  {
    ClosesDepth(b, ts, start, at, outer, from, ends + [value], end, true);
    AllEqualNext(ends, value, end);
  }

  lemma {:induction false} RestDepth(
    b: Brackets, ts: seq<Token>, start: nat, at: nat, outer: seq<Branch>, from: int, ends: seq<int>, value: int,
    r: Alternatives)
    requires WellFormedRest(r) && Stands(ts, at, FlatRest(r))
    requires Stood(b, ts, start, at, DepthState(value, outer + [Branch(from, ends, false)]))
    ensures DepthTo(b, ts, start, at + |FlatRest(r)|) == AfterRest(b, r, outer, from, ends, value)
    decreases r, 1
  {
    match r
    case End =>
      StandsSingle(ts, at, Endif);
      ClosesDepth(b, ts, start, at, outer, from, ends, value, false);
      AllEqualNext(ends, value, from);
    case Otherwise(_) => ElseDepth(b, ts, start, at, outer, from, ends, value, r);
    case ElseIf(_, _, _) => ElifDepth(b, ts, start, at, outer, from, ends, value, r);
  }

  lemma {:induction false} ElseDepth(
    b: Brackets, ts: seq<Token>, start: nat, at: nat, outer: seq<Branch>, from: int, ends: seq<int>, value: int,
    r: Alternatives)
    requires r.Otherwise? && WellFormedRest(r) && Stands(ts, at, FlatRest(r))
    requires Stood(b, ts, start, at, DepthState(value, outer + [Branch(from, ends, false)]))
    ensures DepthTo(b, ts, start, at + |FlatRest(r)|) == AfterRest(b, r, outer, from, ends, value)
    decreases r, 0
  {
    BranchParts(ts, at, r);
    BranchDepth(b, ts, start, at, outer, from, ends, value, true);
    var inner := outer + [Branch(from, ends + [value], true)];
    BlockDepth(b, ts, start, at + 1, DepthState(from, inner), r.body);
    var next, end := at + 1 + |Flat(r.body)|, from + Net(b, r.body);
    if Balanced(b, r.body) {
      assert Stood(b, ts, start, next, DepthState(end, inner));
      EndDepth(b, ts, start, next, outer, from, ends, value, end);
    } else {
      DepthRefusalStays(b, ts, start, next, at + |FlatRest(r)|);
    }
  }

  lemma {:induction false} ElifDepth(
    b: Brackets, ts: seq<Token>, start: nat, at: nat, outer: seq<Branch>, from: int, ends: seq<int>, value: int,
    r: Alternatives)
    requires r.ElseIf? && WellFormedRest(r) && Stands(ts, at, FlatRest(r))
    requires Stood(b, ts, start, at, DepthState(value, outer + [Branch(from, ends, false)]))
    ensures DepthTo(b, ts, start, at + |FlatRest(r)|) == AfterRest(b, r, outer, from, ends, value)
    decreases r, 0
  {
    BranchParts(ts, at, r);
    BranchDepth(b, ts, start, at, outer, from, ends, value, false);
    var inner := outer + [Branch(from, ends + [value], false)];
    BlockDepth(b, ts, start, at + 1, DepthState(from, inner), r.body);
    var next, end := at + 1 + |Flat(r.body)|, from + Net(b, r.body);
    if Balanced(b, r.body) {
      assert Stood(b, ts, start, next, DepthState(end, inner));
      RestDepth(b, ts, start, next, outer, from, ends + [value], end, r.rest);
      AllEqualNext(ends, value, end);
    } else {
      DepthRefusalStays(b, ts, start, next, at + |FlatRest(r)|);
    }
  }

  /** An `#elif` or `#else` of the innermost chain. */
  lemma BranchDepth(
    b: Brackets, ts: seq<Token>, start: nat, at: nat, outer: seq<Branch>, from: int, ends: seq<int>, value: int,
    last: bool)
    requires at < |ts| && (if last then ts[at].Else? else ts[at].Elif?)
    requires Stood(b, ts, start, at, DepthState(value, outer + [Branch(from, ends, false)]))
    ensures DepthTo(b, ts, start, at + 1) ==
            Accept(DepthState(from, outer + [Branch(from, ends + [value], last)]))
  {
    assert (outer + [Branch(from, ends, false)])[|outer| := Branch(from, ends + [value], last)] ==
           outer + [Branch(from, ends + [value], last)];
  }

  /** Its `#endif`. */
  lemma ClosesDepth(
    b: Brackets, ts: seq<Token>, start: nat, at: nat, outer: seq<Branch>, from: int, ends: seq<int>, value: int,
    closed: bool)
    requires at < |ts| && ts[at].Endif?
    requires Stood(b, ts, start, at, DepthState(value, outer + [Branch(from, ends, closed)]))
    ensures DepthTo(b, ts, start, at + 1) ==
            if AllEqual(if closed then ends + [value] else ends + [value] + [from])
                then Accept(DepthState(value, outer))
            else Refuse(UnbalancedBranches)
  {
    var all := outer + [Branch(from, ends, closed)];
    assert all[..|outer|] == outer;
    assert ends + [value] + [] == ends + [value];
  }

  /**
   `Depth` goes through the tokens of a well-formed tree exactly if the tree is balanced, and then ends
   at the tree's net depth with no chain open; otherwise it refuses the depths as unequal.
   */
  lemma DepthIffBalanced(b: Brackets, block: Block)
    requires WellFormed(block)
    ensures DepthTo(b, Flat(block), 0, |Flat(block)|) ==
            if Balanced(b, block) then Accept(DepthState(Net(b, block), [])) else Refuse(UnbalancedBranches)
  {
    var ts := Flat(block);
    assert ts[0..] == ts;
    StandsWhole(ts, 0);
    BlockDepth(b, ts, 0, 0, DepthState(0, []), block);
  }

  // ------------------------------------------------------------------ where `closing` stops

  /** A walk through a tree: to the bracket that closes, out at some depth, or to an unbalanced `#endif`. */
  datatype Walk = Closed(at: nat) | Out(depth: int) | Unbalanced

  /** From depth `v` at position `at`, looking for an ending bracket that brings the depth to zero. */
  function Find(b: Brackets, block: Block, v: int, at: nat): Walk {
    match block
    case Nil => Out(v)
    case Cons(head, tail) =>
      var first := FindItem(b, head, v, at);
      if first.Out? then Find(b, tail, first.depth, at + |FlatItem(head)|) else first
  }

  function FindItem(b: Brackets, i: Item, v: int, at: nat): Walk {
    match i
    case Plain(t) =>
      var after := v + PlainDepth(b, [t]);
      if after == 0 && t.Code? && t.symbol == b.ending then Closed(at) else Out(after)
    case Chain(_, body, rest) =>
      var first := Find(b, body, v, at + 1);
      if first.Out? then FindRest(b, rest, v, true, first.depth, at + 1 + |Flat(body)|) else first
  }

  /** Each branch starts at depth `v` again; `same` says whether those before all ended at `end`. */
  function FindRest(b: Brackets, r: Alternatives, v: int, same: bool, end: int, at: nat): Walk {
    match r
    case End => if same && end == v then Out(end) else Unbalanced
    case Otherwise(body) =>
      var last := Find(b, body, v, at + 1);
      if !last.Out? then last else if same && last.depth == end then Out(end) else Unbalanced
    case ElseIf(_, body, rest) =>
      var next := Find(b, body, v, at + 1);
      if !next.Out? then next
      else FindRest(b, rest, v, same && next.depth == end, next.depth, at + 1 + |Flat(body)|)
  }

  /** What `closing` does from `at` on, where the walk through the part up to `next` has come to `w`. */
  ghost predicate Answers(b: Brackets, ts: seq<Token>, start: nat, at: nat, next: nat, w: Walk, outer: seq<Branch>) {
    && start <= at <= next <= |ts|
    && match w
       case Closed(k) => ClosingFrom(b, ts, start, at) == Accept(k)
       case Unbalanced => ClosingFrom(b, ts, start, at) == Refuse(UnbalancedBranches)
       case Out(depth) =>
         && ClosingFrom(b, ts, start, at) == ClosingFrom(b, ts, start, next)
         && Stood(b, ts, start, next, DepthState(depth, outer))
  }

  /** One token that is no ending bracket at depth zero, or one at which `Depth` refuses. */
  lemma OneToken(b: Brackets, ts: seq<Token>, start: nat, at: nat)
    requires start <= at < |ts|
    ensures ClosingFrom(b, ts, start, at) ==
            match DepthTo(b, ts, start, at + 1)
            case Refuse(why) => Refuse(why)
            case Accept(d) => if d.value == 0 && ts[at].Code? && ts[at].symbol == b.ending then Accept(at)
                              else ClosingFrom(b, ts, start, at + 1)
  {
  }

  lemma {:induction false} FindInBlock(
    b: Brackets, ts: seq<Token>, start: nat, at: nat, v: int, outer: seq<Branch>, block: Block)
    requires WellFormed(block) && Stands(ts, at, Flat(block)) && Stood(b, ts, start, at, DepthState(v, outer))
    ensures Answers(b, ts, start, at, at + |Flat(block)|, Find(b, block, v, at), outer)
    decreases block
  {
    if block.Cons? {
      StandsSplit(ts, at, FlatItem(block.head), Flat(block.tail));
      FindInItem(b, ts, start, at, v, outer, block.head);
      var first := FindItem(b, block.head, v, at);
      if first.Out? {
        FindInBlock(b, ts, start, at + |FlatItem(block.head)|, first.depth, outer, block.tail);
      }
    }
  }

  lemma {:induction false} FindInItem(
    b: Brackets, ts: seq<Token>, start: nat, at: nat, v: int, outer: seq<Branch>, i: Item)
    requires WellFormedItem(i) && Stands(ts, at, FlatItem(i)) && Stood(b, ts, start, at, DepthState(v, outer))
    ensures Answers(b, ts, start, at, at + |FlatItem(i)|, FindItem(b, i, v, at), outer)
    decreases i
  {
    if i.Plain? {
      StandsSingle(ts, at, i.token);
      SingleDepth(b, i.token);
      OneToken(b, ts, start, at);
    } else {
      StandsSplit(ts, at, [If(i.cond)] + Flat(i.body), FlatRest(i.rest));
      StandsSplit(ts, at, [If(i.cond)], Flat(i.body));
      StandsSingle(ts, at, If(i.cond));
      OneToken(b, ts, start, at);
      FindInBlock(b, ts, start, at + 1, v, outer + [Branch(v, [], false)], i.body);
      var first := Find(b, i.body, v, at + 1);
      if first.Out? {
        FindInRest(b, ts, start, at + 1 + |Flat(i.body)|, outer, v, [], first.depth, i.rest);
      }
    }
  }

  lemma {:induction false} FindInRest(
    b: Brackets, ts: seq<Token>, start: nat, at: nat, outer: seq<Branch>, v: int, ends: seq<int>, end: int,
    r: Alternatives)
    requires WellFormedRest(r) && Stands(ts, at, FlatRest(r))
    requires Stood(b, ts, start, at, DepthState(end, outer + [Branch(v, ends, false)]))
    ensures Answers(b, ts, start, at, at + |FlatRest(r)|, FindRest(b, r, v, AllEqual(ends + [end]), end, at), outer)
    decreases r, 1
  {
    match r
    case End =>
      OneToken(b, ts, start, at);
      StandsSingle(ts, at, Endif);
      ClosesDepth(b, ts, start, at, outer, v, ends, end, false);
      AllEqualNext(ends, end, v);
    case Otherwise(_) => FindInElse(b, ts, start, at, outer, v, ends, end, r);
    case ElseIf(_, _, _) => FindInElif(b, ts, start, at, outer, v, ends, end, r);
  }

  /** At the `#endif` behind an `#else`. */
  lemma FoundAtEnd(
    b: Brackets, ts: seq<Token>, start: nat, at: nat, outer: seq<Branch>, v: int, ends: seq<int>, end: int, depth: int)
    requires at < |ts| && ts[at].Endif?
    requires Stood(b, ts, start, at, DepthState(depth, outer + [Branch(v, ends + [end], true)]))
    ensures Answers(
              b, ts, start, at, at + 1, if AllEqual(ends + [end]) && depth == end then Out(end) else Unbalanced, outer)
  {
    ClosesDepth(b, ts, start, at, outer, v, ends + [end], depth, true);
    AllEqualNext(ends, end, depth);
    OneToken(b, ts, start, at);
  }

  /** An `#elif` or `#else` is gone past, and its branch begins at the depth before the chain. */
  lemma PastBranch(
    b: Brackets, ts: seq<Token>, start: nat, at: nat, outer: seq<Branch>, v: int, ends: seq<int>, end: int,
    r: Alternatives)
    requires !r.End? && Stands(ts, at, FlatRest(r))
    requires Stood(b, ts, start, at, DepthState(end, outer + [Branch(v, ends, false)]))
    ensures Stood(b, ts, start, at + 1, DepthState(v, outer + [Branch(v, ends + [end], r.Otherwise?)]))
    ensures ClosingFrom(b, ts, start, at) == ClosingFrom(b, ts, start, at + 1)
  {
    BranchParts(ts, at, r);
    BranchDepth(b, ts, start, at, outer, v, ends, end, r.Otherwise?);
    OneToken(b, ts, start, at);
  }

  /** One walk behind the other. */
  lemma AnswersOn(
    b: Brackets, ts: seq<Token>, start: nat, at: nat, mid: nat, next: nat, depth: int, inner: seq<Branch>, w: Walk,
    outer: seq<Branch>)
    requires Answers(b, ts, start, at, mid, Out(depth), inner) && Answers(b, ts, start, mid, next, w, outer)
    ensures Answers(b, ts, start, at, next, w, outer)
  {
  }

  lemma {:induction false} FindInElse(
    b: Brackets, ts: seq<Token>, start: nat, at: nat, outer: seq<Branch>, v: int, ends: seq<int>, end: int,
    r: Alternatives)
    requires r.Otherwise? && WellFormedRest(r) && Stands(ts, at, FlatRest(r))
    requires Stood(b, ts, start, at, DepthState(end, outer + [Branch(v, ends, false)]))
    ensures Answers(b, ts, start, at, at + |FlatRest(r)|, FindRest(b, r, v, AllEqual(ends + [end]), end, at), outer)
    decreases r, 0
  {
    BranchParts(ts, at, r);
    PastBranch(b, ts, start, at, outer, v, ends, end, r);
    var inner := outer + [Branch(v, ends + [end], true)];
    FindInBlock(b, ts, start, at + 1, v, inner, r.body);
    var walk, next := Find(b, r.body, v, at + 1), at + 1 + |Flat(r.body)|;
    if walk.Out? {
      FoundAtEnd(b, ts, start, next, outer, v, ends, end, walk.depth);
      var last := if AllEqual(ends + [end]) && walk.depth == end then Out(end) else Unbalanced;
      AnswersOn(b, ts, start, at + 1, next, next + 1, walk.depth, inner, last, outer);
    }
  }

  lemma {:induction false} FindInElif(
    b: Brackets, ts: seq<Token>, start: nat, at: nat, outer: seq<Branch>, v: int, ends: seq<int>, end: int,
    r: Alternatives)
    requires r.ElseIf? && WellFormedRest(r) && Stands(ts, at, FlatRest(r))
    requires Stood(b, ts, start, at, DepthState(end, outer + [Branch(v, ends, false)]))
    ensures Answers(b, ts, start, at, at + |FlatRest(r)|, FindRest(b, r, v, AllEqual(ends + [end]), end, at), outer)
    decreases r, 0
  {
    BranchParts(ts, at, r);
    PastBranch(b, ts, start, at, outer, v, ends, end, r);
    var inner := outer + [Branch(v, ends + [end], false)];
    FindInBlock(b, ts, start, at + 1, v, inner, r.body);
    var walk, next := Find(b, r.body, v, at + 1), at + 1 + |Flat(r.body)|;
    if walk.Out? {
      AllEqualNext(ends, end, walk.depth);
      FindInRest(b, ts, start, next, outer, v, ends + [end], walk.depth, r.rest);
      var rest := FindRest(b, r.rest, v, AllEqual(ends + [end] + [walk.depth]), walk.depth, next);
      AnswersOn(b, ts, start, at + 1, next, next + |FlatRest(r.rest)|, walk.depth, inner, rest, outer);
    }
  }

  /**
   From the start of any well-formed tree that reaches to the end of the tokens, `closing` answers what
   the walk finds: the first ending bracket at depth zero in the order of the text, each branch of a
   chain counted from the depth before the chain -- unless a chain with unequal branches ends before it.
   */
  lemma ClosingIsFound(b: Brackets, ts: seq<Token>, start: nat, block: Block)
    requires start <= |ts| && WellFormed(block) && Flat(block) == ts[start..]
    ensures Closing(b, ts, start) ==
            match Find(b, block, 0, start)
            case Closed(at) => Accept(at)
            case Unbalanced => Refuse(UnbalancedBranches)
            case Out(_) => Refuse(UnclosedBracket)
  {
    StandsWhole(ts, start);
    FindInBlock(b, ts, start, start, 0, [], block);
  }

  /** In a balanced tree the walk is never stopped by a chain. */
  lemma {:induction false} BalancedWalk(b: Brackets, block: Block, v: int, at: nat)
    requires Balanced(b, block)
    ensures Find(b, block, v, at).Closed? || Find(b, block, v, at) == Out(v + Net(b, block))
    decreases block
  {
    if block.Cons? {
      BalancedItemWalk(b, block.head, v, at);
      BalancedWalk(b, block.tail, v + NetItem(b, block.head), at + |FlatItem(block.head)|);
    }
  }

  lemma {:induction false} BalancedItemWalk(b: Brackets, i: Item, v: int, at: nat)
    requires BalancedItem(b, i)
    ensures FindItem(b, i, v, at).Closed? || FindItem(b, i, v, at) == Out(v + NetItem(b, i))
    decreases i
  {
    if i.Chain? {
      BalancedWalk(b, i.body, v, at + 1);
      BalancedRestWalk(b, i.rest, v, Net(b, i.body), at + 1 + |Flat(i.body)|);
    }
  }

  lemma {:induction false} BalancedRestWalk(b: Brackets, r: Alternatives, v: int, net: int, at: nat)
    requires BalancedRest(b, r, net)
    ensures var w := FindRest(b, r, v, true, v + net, at); w.Closed? || w == Out(v + net)
    decreases r
  {
    if !r.End? {
      BalancedWalk(b, r.body, v, at + 1);
      if r.ElseIf? {
        BalancedRestWalk(b, r.rest, v, net, at + 1 + |Flat(r.body)|);
      }
    }
  }

  /**
   Between an opening bracket and an ending one, a balanced tree whose net is 0 is always closed: by the
   ending bracket behind it, unless one inside closes it before.
   */
  lemma ClosingBehindBalanced(b: Brackets, ts: seq<Token>, start: nat, inner: Block, opening: Token, ending: Token)
    requires b.opening != b.ending && IsPlain(opening) && IsPlain(ending) && WellFormed(inner)
    requires opening.Code? && opening.symbol == b.opening && ending.Code? && ending.symbol == b.ending
    requires start <= |ts| && Stands(ts, start, [opening] + Flat(inner) + [ending])
    requires Balanced(b, inner) && Net(b, inner) == 0
    ensures var walk := Find(b, inner, 1, start + 1);
      Closing(b, ts, start) == Accept(if walk.Closed? then walk.at else start + 1 + |Flat(inner)|)
  {
    StandsSplit(ts, start, [opening] + Flat(inner), [ending]);
    StandsSplit(ts, start, [opening], Flat(inner));
    StandsSingle(ts, start, opening);
    var last := start + 1 + |Flat(inner)|;
    StandsSingle(ts, last, ending);
    SingleDepth(b, opening);
    SingleDepth(b, ending);
    OneToken(b, ts, start, start);
    FindInBlock(b, ts, start, start + 1, 1, [], inner);
    BalancedWalk(b, inner, 1, start + 1);
    OneToken(b, ts, start, last);
  }
}
