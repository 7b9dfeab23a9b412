/**
 What conditional compilation means, said without a stack: a source is a tree of `#if` chains, and a
 chain contributes its first branch whose condition holds. The stack machine of
 `conditional_indices` accepts exactly the flattened trees and selects exactly their meaning.
 */
module Chains {
  import opened Outcomes
  import opened Conditions
  import opened Preprocessor
  import opened Sequences

  datatype Block = Nil | Cons(head: Item, tail: Block)
  datatype Item = Plain(token: Token) | Chain(cond: seq<Part>, body: Block, rest: Alternatives)
  datatype Alternatives =
    | End
    | Otherwise(body: Block)
    | ElseIf(cond: seq<Part>, body: Block, rest: Alternatives)

  /** Conditions parse, `#define`/`#undef` name a symbol, and plain tokens are not branch directives. */
  predicate WellFormed(b: Block) {
    match b
    case Nil => true
    case Cons(head, tail) => WellFormedItem(head) && WellFormed(tail)
  }

  predicate WellFormedItem(i: Item) {
    match i
    case Plain(t) => IsPlain(t)
    case Chain(cond, body, rest) => Condition(cond, {}).Accept? && WellFormed(body) && WellFormedRest(rest)
  }

  predicate WellFormedRest(r: Alternatives) {
    match r
    case End => true
    case Otherwise(body) => WellFormed(body)
    case ElseIf(cond, body, rest) => Condition(cond, {}).Accept? && WellFormed(body) && WellFormedRest(rest)
  }

  predicate IsBranch(t: Token) {
    t.Elif? || t.Else? || t.Endif?
  }

  predicate IsPlain(t: Token) {
    !t.If? && !IsBranch(t) && ((t.Define? || t.Undef?) ==> t.name.Some?)
  }

  function Flat(b: Block): seq<Token> {
    match b
    case Nil => []
    case Cons(head, tail) => FlatItem(head) + Flat(tail)
  }

  function FlatItem(i: Item): seq<Token> {
    match i
    case Plain(t) => [t]
    case Chain(cond, body, rest) => [If(cond)] + Flat(body) + FlatRest(rest)
  }

  function FlatRest(r: Alternatives): seq<Token> {
    match r
    case End => [Endif]
    case Otherwise(body) => [Else] + Flat(body) + [Endif]
    case ElseIf(cond, body, rest) => [Elif(cond)] + Flat(body) + FlatRest(rest)
  }

  // ------------------------------------------------------------------ recursive meaning

  /** The positions contributed and the symbols enabled afterwards. */
  datatype Meaning = Meaning(selected: seq<nat>, enabled: set<string>)

  /** The meaning of an active block whose first token stands at `at`. */
  function Mean(b: Block, enabled: set<string>, at: nat): Meaning {
    match b
    case Nil => Meaning([], enabled)
    case Cons(head, tail) =>
      var first := MeanItem(head, enabled, at);
      var others := Mean(tail, first.enabled, at + |FlatItem(head)|);
      Meaning(first.selected + others.selected, others.enabled)
  }

  function MeanItem(i: Item, enabled: set<string>, at: nat): Meaning {
    match i
    case Plain(t) =>
      (match t
       case Code(_, _) => Meaning([at], enabled)
       case Define(Some(name)) => Meaning([], enabled + {name})
       case Undef(Some(name)) => Meaning([], enabled - {name})
       case _ => Meaning([], enabled))
    case Chain(cond, body, rest) =>
      if Condition(cond, enabled) == Accept(true) then Mean(body, enabled, at + 1)
      else MeanRest(rest, enabled, at + 1 + |Flat(body)|)
  }

  function MeanRest(r: Alternatives, enabled: set<string>, at: nat): Meaning {
    match r
    case End => Meaning([], enabled)
    case Otherwise(body) => Mean(body, enabled, at + 1)
    case ElseIf(cond, body, rest) =>
      if Condition(cond, enabled) == Accept(true) then Mean(body, enabled, at + 1)
      else MeanRest(rest, enabled, at + 1 + |Flat(body)|)
  }

  // ------------------------------------------------------------------ the machine over a tree

  /** The loop has reached position `at` with progress `p`. */
  ghost predicate Reached(ts: seq<Token>, trace: Trace, at: nat, p: Progress) {
    IsTrace(ts, trace) && at <= |ts| && trace[at] == Accept(p)
  }

  function Pop(m: Machine): Machine
    requires m.stack != []
  {
    m.(active := Top(m).parent, stack := m.stack[..|m.stack| - 1])
  }

  lemma PopTaken(m: Machine, branch: bool, last: bool, enabled: set<string>)
    requires m.stack != []
    ensures Pop(TakeBranch(m, branch, last).(enabled := enabled)) == Pop(m).(enabled := enabled)
  {
  }

  /** A block in an inactive region changes nothing. */
  lemma {:induction false} SkippedBlock(ts: seq<Token>, trace: Trace, at: nat, p: Progress, b: Block)
    requires WellFormed(b) && Stands(ts, at, Flat(b)) && Reached(ts, trace, at, p) && !p.machine.active
    ensures Reached(ts, trace, at + |Flat(b)|, p)
    decreases b
  {
    if b.Cons? {
      StandsSplit(ts, at, FlatItem(b.head), Flat(b.tail));
      SkippedItem(ts, trace, at, p, b.head);
      SkippedBlock(ts, trace, at + |FlatItem(b.head)|, p, b.tail);
    }
  }

  lemma {:induction false} SkippedItem(ts: seq<Token>, trace: Trace, at: nat, p: Progress, i: Item)
    requires WellFormedItem(i) && Stands(ts, at, FlatItem(i)) && Reached(ts, trace, at, p) && !p.machine.active
    ensures Reached(ts, trace, at + |FlatItem(i)|, p)
    decreases i
  {
    if i.Plain? {
      StandsSingle(ts, at, i.token);
      assert Advances(ts, trace, at);
    } else {
      var pushed := OpenChain(ts, trace, at, p, i);
      SkippedBlock(ts, trace, at + 1, pushed, i.body);
      FinishedRest(ts, trace, at + 1 + |Flat(i.body)|, pushed, i.rest);
      assert Pop(pushed.machine) == p.machine;
    }
  }

  /** The `#if` of a chain pushes a frame; its body and alternatives follow. */
  lemma OpenChain(ts: seq<Token>, trace: Trace, at: nat, p: Progress, i: Item) returns (pushed: Progress)
    requires WellFormedItem(i) && i.Chain? && Stands(ts, at, FlatItem(i)) && Reached(ts, trace, at, p)
    ensures Condition(i.cond, p.machine.enabled).Accept?
    ensures var branch := Condition(i.cond, p.machine.enabled).value;
      pushed == Progress(p.machine.(active := p.machine.active && branch,
                                    stack := p.machine.stack + [Frame(p.machine.active, branch, false)]), p.selected)
    ensures Reached(ts, trace, at + 1, pushed) && Stands(ts, at + 1, Flat(i.body))
    ensures Stands(ts, at + 1 + |Flat(i.body)|, FlatRest(i.rest))
    ensures |FlatItem(i)| == 1 + |Flat(i.body)| + |FlatRest(i.rest)|
  {
    StandsSplit(ts, at, [If(i.cond)] + Flat(i.body), FlatRest(i.rest));
    StandsSplit(ts, at, [If(i.cond)], Flat(i.body));
    StandsSingle(ts, at, If(i.cond));
    ConditionLocal(i.cond, p.machine.enabled, {});
    assert Advances(ts, trace, at);
    pushed := trace[at + 1].value;
  }

  /** An `#elif` or `#else` enters its own branch; its body and what follows it stand behind. */
  lemma EnterBranch(
    ts: seq<Token>, trace: Trace, at: nat, p: Progress, r: Alternatives) returns (branch: bool, entered: Progress)
    requires WellFormedRest(r) && !r.End? && Stands(ts, at, FlatRest(r)) && Reached(ts, trace, at, p)
    requires p.machine.stack != [] && !Top(p.machine).closed
    ensures branch == (r.Otherwise? || Condition(r.cond, p.machine.enabled) == Accept(true))
    ensures entered == Progress(TakeBranch(p.machine, branch, r.Otherwise?), p.selected)
    ensures Reached(ts, trace, at + 1, entered) && Stands(ts, at + 1, Flat(r.body))
    ensures Stands(ts, at + 1 + |Flat(r.body)|, if r.Otherwise? then [Endif] else FlatRest(r.rest))
    ensures |FlatRest(r)| == 1 + |Flat(r.body)| + if r.Otherwise? then 1 else |FlatRest(r.rest)|
  {
    var first := if r.Otherwise? then Else else Elif(r.cond);
    var last := if r.Otherwise? then [Endif] else FlatRest(r.rest);
    assert FlatRest(r) == [first] + Flat(r.body) + last;
    StandsSplit(ts, at, [first] + Flat(r.body), last);
    StandsSplit(ts, at, [first], Flat(r.body));
    StandsSingle(ts, at, first);
    if r.ElseIf? {
      ConditionLocal(r.cond, p.machine.enabled, {});
    }
    branch := r.Otherwise? || Condition(r.cond, p.machine.enabled) == Accept(true);
    assert Advances(ts, trace, at);
    entered := trace[at + 1].value;
  }

  lemma CloseChain(ts: seq<Token>, trace: Trace, at: nat, p: Progress)
    requires Stands(ts, at, [Endif]) && Reached(ts, trace, at, p) && p.machine.stack != []
    ensures Reached(ts, trace, at + 1, Progress(Pop(p.machine), p.selected))
  {
    StandsSingle(ts, at, Endif);
    assert Advances(ts, trace, at);
  }

  /** Alternatives that can no longer be taken: a branch was, or the whole chain is inactive. */
  lemma {:induction false} FinishedRest(ts: seq<Token>, trace: Trace, at: nat, p: Progress, r: Alternatives)
    requires WellFormedRest(r) && Stands(ts, at, FlatRest(r)) && Reached(ts, trace, at, p)
    requires p.machine.stack != [] && !Top(p.machine).closed && (Top(p.machine).parent ==> Top(p.machine).taken)
    ensures Reached(ts, trace, at + |FlatRest(r)|, Progress(Pop(p.machine), p.selected))
    decreases r
  {
    if r.End? {
      CloseChain(ts, trace, at, p);
    } else {
      var branch, entered := EnterBranch(ts, trace, at, p, r);
      SkippedBlock(ts, trace, at + 1, entered, r.body);
      PopTaken(p.machine, branch, r.Otherwise?, p.machine.enabled);
      var next := at + 1 + |Flat(r.body)|;
      if r.Otherwise? {
        CloseChain(ts, trace, next, entered);
      } else {
        FinishedRest(ts, trace, next, entered, r.rest);
      }
    }
  }

  function Contribute(p: Progress, mean: Meaning): Progress {
    Progress(p.machine.(enabled := mean.enabled), p.selected + mean.selected)
  }

  /** A block in an active region contributes its meaning. */
  lemma {:induction false} ActiveBlock(ts: seq<Token>, trace: Trace, at: nat, p: Progress, b: Block)
    requires WellFormed(b) && Stands(ts, at, Flat(b)) && Reached(ts, trace, at, p) && p.machine.active
    ensures Reached(ts, trace, at + |Flat(b)|, Contribute(p, Mean(b, p.machine.enabled, at)))
    decreases b
  {
    if b.Nil? {
      assert Contribute(p, Mean(b, p.machine.enabled, at)) == p;
    } else {
      StandsSplit(ts, at, FlatItem(b.head), Flat(b.tail));
      ActiveItem(ts, trace, at, p, b.head);
      var first := MeanItem(b.head, p.machine.enabled, at);
      var next := at + |FlatItem(b.head)|;
      ActiveBlock(ts, trace, next, Contribute(p, first), b.tail);
      assert Contribute(Contribute(p, first), Mean(b.tail, first.enabled, next))
          == Contribute(p, Mean(b, p.machine.enabled, at));
    }
  }

  lemma {:induction false} ActiveItem(ts: seq<Token>, trace: Trace, at: nat, p: Progress, i: Item)
    requires WellFormedItem(i) && Stands(ts, at, FlatItem(i)) && Reached(ts, trace, at, p) && p.machine.active
    ensures Reached(ts, trace, at + |FlatItem(i)|, Contribute(p, MeanItem(i, p.machine.enabled, at)))
    decreases i
  {
    if i.Plain? {
      StandsSingle(ts, at, i.token);
      ActivePlain(ts, trace, at, p, i.token);
    } else {
      var pushed := OpenChain(ts, trace, at, p, i);
      var next := at + 1 + |Flat(i.body)|;
      if pushed.machine.active {
        ActiveBlock(ts, trace, at + 1, pushed, i.body);
        var done := Contribute(pushed, Mean(i.body, p.machine.enabled, at + 1));
        FinishedRest(ts, trace, next, done, i.rest);
        assert Pop(done.machine) == p.machine.(enabled := done.machine.enabled);
      } else {
        SkippedBlock(ts, trace, at + 1, pushed, i.body);
        PendingRest(ts, trace, next, pushed, i.rest);
        assert Pop(pushed.machine) == p.machine;
      }
    }
  }

  lemma ActivePlain(ts: seq<Token>, trace: Trace, at: nat, p: Progress, t: Token)
    requires at < |ts| && ts[at] == t && IsPlain(t) && Reached(ts, trace, at, p) && p.machine.active
    ensures Reached(ts, trace, at + 1, Contribute(p, MeanItem(Plain(t), p.machine.enabled, at)))
  {
    var q := Contribute(p, MeanItem(Plain(t), p.machine.enabled, at));
    assert Advances(ts, trace, at);
    assert Step(p.machine, t) == Accept(q.machine);
    assert q.selected == if t.Code? then p.selected + [at] else p.selected;
  }

  /** Alternatives of an active chain in which no branch has been taken yet. */
  lemma {:induction false} PendingRest(ts: seq<Token>, trace: Trace, at: nat, p: Progress, r: Alternatives)
    requires WellFormedRest(r) && Stands(ts, at, FlatRest(r)) && Reached(ts, trace, at, p)
    requires p.machine.stack != [] && Top(p.machine) == Frame(true, false, false)
    ensures Reached(ts, trace, at + |FlatRest(r)|,
                    Contribute(Progress(Pop(p.machine), p.selected), MeanRest(r, p.machine.enabled, at)))
    decreases r
  {
    if r.End? {
      CloseChain(ts, trace, at, p);
      assert Contribute(Progress(Pop(p.machine), p.selected), MeanRest(r, p.machine.enabled, at))
          == Progress(Pop(p.machine), p.selected);
    } else {
      var branch, entered := EnterBranch(ts, trace, at, p, r);
      if branch {
        TakenBranch(ts, trace, at, p, r, entered);
      } else {
        SkippedBlock(ts, trace, at + 1, entered, r.body);
        PopTaken(p.machine, branch, false, p.machine.enabled);
        PendingRest(ts, trace, at + 1 + |Flat(r.body)|, entered, r.rest);
      }
    }
  }

  /** The alternative that is taken contributes its body, and the ones behind it nothing. */
  lemma {:induction false} TakenBranch(
    ts: seq<Token>, trace: Trace, at: nat, p: Progress, r: Alternatives, entered: Progress)
    requires WellFormedRest(r) && !r.End? && Stands(ts, at + 1, Flat(r.body))
    requires Stands(ts, at + 1 + |Flat(r.body)|, if r.Otherwise? then [Endif] else FlatRest(r.rest))
    requires p.machine.stack != [] && Top(p.machine) == Frame(true, false, false)
    requires entered == Progress(TakeBranch(p.machine, true, r.Otherwise?), p.selected)
             && Reached(ts, trace, at + 1, entered)
    ensures Reached(ts, trace, at + 1 + |Flat(r.body)| + if r.Otherwise? then 1 else |FlatRest(r.rest)|,
                    Contribute(Progress(Pop(p.machine), p.selected), Mean(r.body, p.machine.enabled, at + 1)))
    decreases r, 0
  {
    var next, mean := at + 1 + |Flat(r.body)|, Mean(r.body, p.machine.enabled, at + 1);
    ActiveBlock(ts, trace, at + 1, entered, r.body);
    var done := Contribute(entered, mean);
    PopTaken(p.machine, true, r.Otherwise?, mean.enabled);
    assert Progress(Pop(done.machine), done.selected) == Contribute(Progress(Pop(p.machine), p.selected), mean);
    if r.Otherwise? {
      CloseChain(ts, trace, next, done);
    } else {
      FinishedRest(ts, trace, next, done, r.rest);
    }
  }

  /** The stack machine computes the recursive meaning of every well-formed tree. */
  lemma MachineMeansTree(b: Block, enabled: set<string>)
    requires WellFormed(b)
    ensures Selection(Flat(b), enabled) == Accept(Mean(b, enabled, 0).selected)
  {
    var ts := Flat(b);
    assert ts[0..] == ts;
    StandsWhole(ts, 0);
    ActiveBlock(ts, TraceOf(Start(enabled), ts), 0, Progress(Start(enabled), []), b);
    assert [] + Mean(b, enabled, 0).selected == Mean(b, enabled, 0).selected;
  }

  // ------------------------------------------------------------------ every accepted source is a tree

  /** The loop refused nothing and closed every chain. */
  ghost predicate Completes(ts: seq<Token>, trace: Trace) {
    && IsTrace(ts, trace) && Accepted(trace)
    && trace[|ts|].value.machine.stack == []
  }

  ghost function StackAt(ts: seq<Token>, trace: Trace, at: nat): seq<Frame>
    requires Completes(ts, trace) && at <= |ts|
  {
    trace[at].value.machine.stack
  }

  lemma {:induction false} BlockKeepsStack(ts: seq<Token>, trace: Trace, at: nat, b: Block)
    requires Completes(ts, trace) && WellFormed(b) && Stands(ts, at, Flat(b))
    ensures StackAt(ts, trace, at + |Flat(b)|) == StackAt(ts, trace, at)
  {
    var p := trace[at].value;
    assert Reached(ts, trace, at, p);
    if p.machine.active {
      ActiveBlock(ts, trace, at, p, b);
      assert Contribute(p, Mean(b, p.machine.enabled, at)).machine.stack == p.machine.stack;
    } else {
      SkippedBlock(ts, trace, at, p, b);
    }
  }

  /** The block that stands at `at`, read up to the next branch directive or the end. */
  lemma {:induction false} ReadBlock(ts: seq<Token>, trace: Trace, at: nat) returns (b: Block)
    requires Completes(ts, trace) && at <= |ts|
    ensures WellFormed(b) && Stands(ts, at, Flat(b))
    ensures at + |Flat(b)| == |ts| || IsBranch(ts[at + |Flat(b)|])
    ensures StackAt(ts, trace, at + |Flat(b)|) == StackAt(ts, trace, at)
    decreases |ts| - at, 0
  {
    if at == |ts| || IsBranch(ts[at]) {
      b := Nil;
    } else {
      assert Advances(ts, trace, at);
      var head: Item;
      if ts[at].If? {
        head := ReadChain(ts, trace, at);
      } else {
        head := Plain(ts[at]);
        StandsSingle(ts, at, ts[at]);
      }
      var tail := ReadBlock(ts, trace, at + |FlatItem(head)|);
      b := Cons(head, tail);
      StandsSplit(ts, at, FlatItem(head), Flat(tail));
      BlockKeepsStack(ts, trace, at, b);
    }
  }

  lemma {:induction false} ReadChain(ts: seq<Token>, trace: Trace, at: nat) returns (i: Item)
    requires Completes(ts, trace) && at < |ts| && ts[at].If?
    ensures WellFormedItem(i) && i.Chain? && Stands(ts, at, FlatItem(i))
    decreases |ts| - at, 0, 0
  {
    assert Advances(ts, trace, at);
    ConditionLocal(ts[at].cond, trace[at].value.machine.enabled, {});
    var body := ReadBlock(ts, trace, at + 1);
    var next := at + 1 + |Flat(body)|;
    var rest := ReadRest(ts, trace, next);
    i := Chain(ts[at].cond, body, rest);
    StandsSingle(ts, at, ts[at]);
    StandsSplit(ts, at, [ts[at]], Flat(body));
    StandsSplit(ts, at, [ts[at]] + Flat(body), FlatRest(rest));
  }

  /** At a branch directive or the end, an empty stack means the end, and behind `#else` comes `#endif`. */
  lemma AtBoundary(ts: seq<Token>, trace: Trace, at: nat)
    requires Completes(ts, trace) && at <= |ts| && (at == |ts| || IsBranch(ts[at]))
    ensures StackAt(ts, trace, at) == [] <==> at == |ts|
    ensures at < |ts| && Top(trace[at].value.machine).closed ==> ts[at] == Endif
  {
    if at < |ts| {
      assert Advances(ts, trace, at);
    }
  }

  /** An accepted `#elif` has a condition that parses; an accepted `#else`, and no `#elif`, closes the chain. */
  lemma BranchAccepted(ts: seq<Token>, trace: Trace, at: nat)
    requires Completes(ts, trace) && at < |ts| && (ts[at].Elif? || ts[at].Else?)
    ensures StackAt(ts, trace, at + 1) != [] && Top(trace[at + 1].value.machine).closed == ts[at].Else?
    ensures ts[at].Elif? ==> Condition(ts[at].cond, {}).Accept?
  {
    assert Advances(ts, trace, at);
    if ts[at].Elif? {
      ConditionLocal(ts[at].cond, trace[at].value.machine.enabled, {});
    }
  }

  lemma {:induction false} ReadRest(ts: seq<Token>, trace: Trace, at: nat) returns (r: Alternatives)
    requires Completes(ts, trace) && at <= |ts| && (at == |ts| || IsBranch(ts[at]))
    requires StackAt(ts, trace, at) != [] && !Top(trace[at].value.machine).closed
    ensures WellFormedRest(r) && Stands(ts, at, FlatRest(r))
    decreases |ts| - at
  {
    AtBoundary(ts, trace, at);
    StandsSingle(ts, at, ts[at]);
    if ts[at].Endif? {
      r := End;
    } else {
      BranchAccepted(ts, trace, at);
      var body := ReadBlock(ts, trace, at + 1);
      var next := at + 1 + |Flat(body)|;
      StandsSplit(ts, at, [ts[at]], Flat(body));
      if ts[at].Else? {
        AtBoundary(ts, trace, next);
        r := Otherwise(body);
        StandsSingle(ts, next, Endif);
        StandsSplit(ts, at, [Else] + Flat(body), [Endif]);
      } else {
        var rest := ReadRest(ts, trace, next);
        r := ElseIf(ts[at].cond, body, rest);
        StandsSplit(ts, at, [ts[at]] + Flat(body), FlatRest(rest));
      }
    }
  }

  /** What the machine accepts is a flattened tree. */
  lemma AcceptedIsTree(ts: seq<Token>, enabled: set<string>) returns (b: Block)
    requires Selection(ts, enabled).Accept?
    ensures WellFormed(b) && Flat(b) == ts
  {
    var trace := TraceOf(Start(enabled), ts);
    TraceAccepted(Start(enabled), ts);
    b := ReadBlock(ts, trace, 0);
    AtBoundary(ts, trace, |Flat(b)|);
    StandsIsSlice(ts, 0, Flat(b));
  }

  /**
   The machine accepts exactly the flattened well-formed trees -- whatever is enabled -- and selects
   the meaning of the tree: of every chain reached, the first branch whose condition holds.
   */
  lemma MachineAcceptsExactlyTrees(ts: seq<Token>, enabled: set<string>)
    ensures Selection(ts, enabled).Accept? <==> exists b :: WellFormed(b) && Flat(b) == ts
    ensures forall b ::
              WellFormed(b) && Flat(b) == ts ==> Selection(ts, enabled) == Accept(Mean(b, enabled, 0).selected)
  {
    if Selection(ts, enabled).Accept? {
      var b := AcceptedIsTree(ts, enabled);
    }
    forall b | WellFormed(b) && Flat(b) == ts
      ensures Selection(ts, enabled) == Accept(Mean(b, enabled, 0).selected)
    {
      MachineMeansTree(b, enabled);
    }
  }
}
