/**
 `scope_inventory.conditional_indices`, the stack machine that selects the tokens of one build,
 and the enumeration of `variant_declarations`, which claims to visit every build.
 */
module Preprocessor {
  import opened Outcomes
  import opened Conditions
  import opened Numerals
  import opened Sequences

  /**
   A lexed token. A directive carries the condition or the argument that the lexer kept beside it;
   `name` is what `identifier` makes of a `#define`/`#undef` argument, and `ident` what it makes of
   ordinary code (`None` where it refuses). `Marker` stands for `#pragma`, `#region` and `#endregion`.
   */
  datatype Token =
    | If(cond: seq<Part>)
    | Elif(cond: seq<Part>)
    | Else
    | Endif
    | Define(name: Option<string>)
    | Undef(name: Option<string>)
    | Marker
    | Code(symbol: Symbol, ident: Option<string>)

  /**
   What the inventory distinguishes among the spellings of ordinary code: single punctuation
   characters, and `test`, `subtype` and `procedure` in any capitalisation.
   */
  datatype Symbol =
    | OpenBrace | CloseBrace | OpenBracket | CloseBracket | OpenParen | Equals | Semicolon
    | TestWord | SubtypeWord | ProcedureWord
    | Other(spelling: string)

  /** One open `#if`: was it reached actively, has a branch been taken, has `#else` been seen. */
  datatype Frame = Frame(parent: bool, taken: bool, closed: bool)

  datatype Machine = Machine(enabled: set<string>, active: bool, stack: seq<Frame>)

  /** What the loop of `conditional_indices` holds after some tokens. */
  datatype Progress = Progress(machine: Machine, selected: seq<nat>)

  function Start(enabled: set<string>): Machine {
    Machine(enabled, true, [])
  }

  function Top(m: Machine): Frame
    requires m.stack != []
  {
    m.stack[|m.stack| - 1]
  }

  /** An `#elif` or `#else` whose own condition is `branch`. */
  function TakeBranch(m: Machine, branch: bool, last: bool): Machine
    requires m.stack != []
  {
    var top := Top(m);
    m.(active := top.parent && !top.taken && branch,
       stack := m.stack[|m.stack| - 1 := Frame(top.parent, top.taken || branch, last)])
  }

  function Step(m: Machine, t: Token): Outcome<Machine> {
    match t
    case If(cond) =>
      var branch :- Condition(cond, m.enabled);
      Accept(m.(active := m.active && branch, stack := m.stack + [Frame(m.active, branch, false)]))
    case Elif(cond) =>
      if m.stack == [] || Top(m).closed then Refuse(InvalidBranchOrder) else
      var branch :- Condition(cond, m.enabled);
      Accept(TakeBranch(m, branch, false))
    case Else =>
      if m.stack == [] || Top(m).closed then Refuse(InvalidBranchOrder) else Accept(TakeBranch(m, true, true))
    case Endif =>
      if m.stack == [] then Refuse(EndWithoutOpening)
      else Accept(m.(active := Top(m).parent, stack := m.stack[..|m.stack| - 1]))
    case Define(name) =>
      if name.None? then Refuse(ExpectedIdentifier)
      else Accept(if m.active then m.(enabled := m.enabled + {name.value}) else m)
    case Undef(name) =>
      if name.None? then Refuse(ExpectedIdentifier)
      else Accept(if m.active then m.(enabled := m.enabled - {name.value}) else m)
    case Marker => Accept(m)
    case Code(_, _) => Accept(m)
  }

  predicate Selects(m: Machine, t: Token) {
    m.active && t.Code?
  }

  /** The first `k` tokens of `ts`, starting from machine `m`. */
  function Run(m: Machine, ts: seq<Token>, k: nat): Outcome<Progress>
    requires k <= |ts|
  {
    if k == 0 then Accept(Progress(m, [])) else
    var p :- Run(m, ts, k - 1);
    var next :- Step(p.machine, ts[k - 1]);
    Accept(Progress(next, if Selects(p.machine, ts[k - 1]) then p.selected + [k - 1] else p.selected))
  }

  /** The value of `conditional_indices`. */
  function Selection(ts: seq<Token>, enabled: set<string>): Outcome<seq<nat>> {
    var p :- Run(Start(enabled), ts, |ts|);
    if p.machine.stack != [] then Refuse(UnclosedDirective) else Accept(p.selected)
  }

  // ------------------------------------------------------------------ the loop

  lemma RefusalStays(m: Machine, ts: seq<Token>, k: nat, n: nat)
    requires k <= n <= |ts| && Run(m, ts, k).Refuse?
    ensures Run(m, ts, n) == Run(m, ts, k)
  {
  }

  method ConditionalIndices(ts: seq<Token>, initial: set<string>) returns (r: Outcome<seq<nat>>)
    ensures r == Selection(ts, initial)
  {
    var enabled, active := initial, true;
    var stack: seq<Frame>, selected: seq<nat> := [], [];
    for at := 0 to |ts|
      invariant Run(Start(initial), ts, at) == Accept(Progress(Machine(enabled, active, stack), selected))
    {
      ghost var m := Machine(enabled, active, stack);
      if Step(m, ts[at]).Refuse? {
        RefusalStays(Start(initial), ts, at + 1, |ts|);
      }
      var value := ts[at];
      if value.If? {
        var branch :- EvaluateCondition(value.cond, enabled);
        stack := stack + [Frame(active, branch, false)];
        active := active && branch;
      } else if value.Elif? || value.Else? {
        if stack == [] || stack[|stack| - 1].closed {
          return Refuse(InvalidBranchOrder);
        }
        var Frame(parent, taken, _) := stack[|stack| - 1];
        var branch := true;
        if value.Elif? {
          branch :- EvaluateCondition(value.cond, enabled);
        }
        active := parent && !taken && branch;
        stack := stack[|stack| - 1 := Frame(parent, taken || branch, value.Else?)];
      } else if value.Endif? {
        if stack == [] {
          return Refuse(EndWithoutOpening);
        }
        active, stack := stack[|stack| - 1].parent, stack[..|stack| - 1];
      } else if value.Define? || value.Undef? {
        if value.name.None? {
          return Refuse(ExpectedIdentifier);
        }
        if active {
          enabled := if value.Define? then enabled + {value.name.value} else enabled - {value.name.value};
        }
      } else if active && value.Code? {
        selected := selected + [at];
      }
      assert Step(m, ts[at]) == Accept(Machine(enabled, active, stack));
    }
    if stack != [] {
      return Refuse(UnclosedDirective);
    }
    return Accept(selected);
  }

  /** The refusals, by the least sources that meet them. */
  lemma RefusalsAre(enabled: set<string>)
    ensures Selection([Elif([Name("A")])], enabled) == Refuse(InvalidBranchOrder)
    ensures Selection([Else], enabled) == Refuse(InvalidBranchOrder)
    ensures Selection([Endif], enabled) == Refuse(EndWithoutOpening)
    ensures Selection([Define(None)], enabled) == Refuse(ExpectedIdentifier)
    ensures Selection([Undef(None)], enabled) == Refuse(ExpectedIdentifier)
    ensures Selection([If([Name("A")])], enabled) == Refuse(UnclosedDirective)
    ensures Selection([If([])], enabled) == Refuse(IncompleteExpression)
  {
    RunSingle(Elif([Name("A")]), enabled);
    RunSingle(Else, enabled);
    RunSingle(Endif, enabled);
    RunSingle(Define(None), enabled);
    RunSingle(Undef(None), enabled);
    RunSingle(If([Name("A")]), enabled);
    RunSingle(If([]), enabled);
    assert Condition([], enabled) == Refuse(IncompleteExpression);
    assert Condition([Name("A")], enabled) == Accept("A" in enabled);
  }

  lemma RunSingle(t: Token, enabled: set<string>)
    ensures Run(Start(enabled), [t], |[t]|) == match Step(Start(enabled), t)
                                               case Refuse(why) => Refuse(why)
                                               case Accept(m) => Accept(Progress(m, if t.Code? then [0] else []))
  {
    var none: seq<nat> := [];
    assert Run(Start(enabled), [t], 0) == Accept(Progress(Start(enabled), none));
    assert none + [0] == [0];
  }

  /** The selected indices strictly increase and point at code. */
  lemma {:induction false} SelectedIncrease(m: Machine, ts: seq<Token>, k: nat)
    requires k <= |ts| && Run(m, ts, k).Accept?
    ensures var s := Run(m, ts, k).value.selected;
      && (forall i, j :: 0 <= i < j < |s| ==> s[i] < s[j])
      && (forall i :: 0 <= i < |s| ==> s[i] < k && ts[s[i]].Code?)
  {
    if k > 0 {
      SelectedIncrease(m, ts, k - 1);
    }
  }

  // ------------------------------------------------------------------ the loop as a trace

  /** The outcomes of the loop of `conditional_indices` after 0, 1, 2, ... tokens. */
  type Trace = seq<Outcome<Progress>>

  ghost predicate Advances(ts: seq<Token>, trace: Trace, at: nat)
    requires at < |ts| && |trace| == |ts| + 1
  {
    trace[at].Accept? ==>
      var p := trace[at].value;
      trace[at + 1] ==
        match Step(p.machine, ts[at])
        case Refuse(why) => Refuse(why)
        case Accept(next) =>
          Accept(Progress(next, if Selects(p.machine, ts[at]) then p.selected + [at] else p.selected))
  }

  ghost predicate IsTrace(ts: seq<Token>, trace: Trace) {
    |trace| == |ts| + 1 && forall at :: 0 <= at < |ts| ==> Advances(ts, trace, at)
  }

  function TraceOf(m: Machine, ts: seq<Token>): (trace: Trace)
    ensures IsTrace(ts, trace) && forall k :: 0 <= k <= |ts| ==> trace[k] == Run(m, ts, k)
  {
    seq(|ts| + 1, k requires 0 <= k <= |ts| => Run(m, ts, k))
  }

  ghost predicate Accepted(trace: Trace) {
    forall k :: 0 <= k < |trace| ==> trace[k].Accept?
  }

  /** A run that is accepted as a whole was accepted at every token. */
  lemma TraceAccepted(m: Machine, ts: seq<Token>)
    requires Run(m, ts, |ts|).Accept?
    ensures Accepted(TraceOf(m, ts))
  {
    forall k | 0 <= k <= |ts|
      ensures Run(m, ts, k).Accept?
    {
      if Run(m, ts, k).Refuse? {
        RefusalStays(m, ts, k, |ts|);
      }
    }
  }

  // ------------------------------------------------------------------ only the named symbols matter

  function Names(parts: seq<Part>): set<string> {
    set p | p in parts && p.Name? :: p.name
  }

  /** The symbols that `variant_declarations` collects: those named in `#if` and `#elif`. */
  function Symbols(ts: seq<Token>): set<string> {
    set t, p | t in ts && (t.If? || t.Elif?) && p in t.cond && p.Name? :: p.name
  }

  ghost predicate AgreeOn(names: set<string>, e: set<string>, f: set<string>) {
    forall name :: name in names ==> (name in e <==> name in f)
  }

  /** Refused for the same reason, or read up to the same position. */
  predicate SameExtent(r: Reading, q: Reading) {
    match (r, q)
    case (Accept(a), Accept(b)) => a.1 == b.1
    case (Refuse(a), Refuse(b)) => a == b
    case _ => false
  }

  lemma {:induction false} UnaryLocal(parts: seq<Part>, e: set<string>, f: set<string>, at: nat)
    ensures SameExtent(Unary(parts, e, at), Unary(parts, f, at))
    ensures AgreeOn(Names(parts), e, f) ==> Unary(parts, e, at) == Unary(parts, f, at)
    decreases |parts| - at, 0
  {
    if at < |parts| {
      if parts[at].NotWord? {
        UnaryLocal(parts, e, f, at + 1);
      } else if parts[at].Open? {
        DisjunctionLocal(parts, e, f, at + 1);
      } else if parts[at].Name? {
        assert parts[at].name in Names(parts);
      }
    }
  }

  lemma {:induction false} ConjunctionLocal(parts: seq<Part>, e: set<string>, f: set<string>, at: nat)
    ensures SameExtent(Conjunction(parts, e, at), Conjunction(parts, f, at))
    ensures AgreeOn(Names(parts), e, f) ==> Conjunction(parts, e, at) == Conjunction(parts, f, at)
    decreases |parts| - at, 2
  {
    UnaryLocal(parts, e, f, at);
    var r, q := Unary(parts, e, at), Unary(parts, f, at);
    if r.Accept? {
      MoreConjunctsLocal(parts, e, f, r.value.0, q.value.0, r.value.1);
    }
  }

  lemma {:induction false} MoreConjunctsLocal(
    parts: seq<Part>, e: set<string>, f: set<string>, v: bool, w: bool, at: nat)
    requires at <= |parts|
    ensures SameExtent(MoreConjuncts(parts, e, v, at), MoreConjuncts(parts, f, w, at))
    ensures AgreeOn(Names(parts), e, f) && v == w ==>
      MoreConjuncts(parts, e, v, at) == MoreConjuncts(parts, f, w, at)
    decreases |parts| - at, 1
  {
    if at < |parts| && parts[at].AndWord? {
      UnaryLocal(parts, e, f, at + 1);
      var r, q := Unary(parts, e, at + 1), Unary(parts, f, at + 1);
      if r.Accept? {
        MoreConjunctsLocal(parts, e, f, v && r.value.0, w && q.value.0, r.value.1);
      }
    }
  }

  lemma {:induction false} DisjunctionLocal(parts: seq<Part>, e: set<string>, f: set<string>, at: nat)
    ensures SameExtent(Disjunction(parts, e, at), Disjunction(parts, f, at))
    ensures AgreeOn(Names(parts), e, f) ==> Disjunction(parts, e, at) == Disjunction(parts, f, at)
    decreases |parts| - at, 4
  {
    ConjunctionLocal(parts, e, f, at);
    var r, q := Conjunction(parts, e, at), Conjunction(parts, f, at);
    if r.Accept? {
      MoreDisjunctsLocal(parts, e, f, r.value.0, q.value.0, r.value.1);
    }
  }

  lemma {:induction false} MoreDisjunctsLocal(
    parts: seq<Part>, e: set<string>, f: set<string>, v: bool, w: bool, at: nat)
    requires at <= |parts|
    ensures SameExtent(MoreDisjuncts(parts, e, v, at), MoreDisjuncts(parts, f, w, at))
    ensures AgreeOn(Names(parts), e, f) && v == w ==>
      MoreDisjuncts(parts, e, v, at) == MoreDisjuncts(parts, f, w, at)
    decreases |parts| - at, 3
  {
    if at < |parts| && parts[at].OrWord? {
      ConjunctionLocal(parts, e, f, at + 1);
      var r, q := Conjunction(parts, e, at + 1), Conjunction(parts, f, at + 1);
      if r.Accept? {
        MoreDisjunctsLocal(parts, e, f, v || r.value.0, w || q.value.0, r.value.1);
      }
    }
  }

  /** A condition reads no symbol but those it names, and whether it parses depends on no symbol at all. */
  lemma ConditionLocal(parts: seq<Part>, e: set<string>, f: set<string>)
    ensures Condition(parts, e).Accept? <==> Condition(parts, f).Accept?
    ensures AgreeOn(Names(parts), e, f) ==> Condition(parts, e) == Condition(parts, f)
  {
    DisjunctionLocal(parts, e, f, 0);
  }

  /** Two machines that differ only in symbols no condition names. */
  ghost predicate Alike(names: set<string>, m: Machine, n: Machine) {
    m.active == n.active && m.stack == n.stack && AgreeOn(names, m.enabled, n.enabled)
  }

  ghost predicate AlikeProgress(names: set<string>, p: Outcome<Progress>, q: Outcome<Progress>) {
    match (p, q)
    case (Accept(a), Accept(b)) => a.selected == b.selected && Alike(names, a.machine, b.machine)
    case (Refuse(a), Refuse(b)) => a == b
    case _ => false
  }

  lemma StepAlike(ts: seq<Token>, at: nat, m: Machine, n: Machine)
    requires at < |ts| && Alike(Symbols(ts), m, n)
    ensures Step(m, ts[at]).Accept? ==>
              Step(n, ts[at]).Accept? && Alike(Symbols(ts), Step(m, ts[at]).value, Step(n, ts[at]).value)
    ensures Step(m, ts[at]).Refuse? ==> Step(n, ts[at]) == Step(m, ts[at])
  {
    var t := ts[at];
    if t.If? || t.Elif? {
      forall p | p in t.cond && p.Name?
        ensures p.name in Symbols(ts)
      {
        assert t in ts;
      }
      ConditionLocal(t.cond, m.enabled, n.enabled);
    }
  }

  /** One turn of the loop, for a progress or a refusal. */
  ghost function After(p: Outcome<Progress>, t: Token, at: nat): Outcome<Progress> {
    match p
    case Refuse(why) => Refuse(why)
    case Accept(p) =>
      match Step(p.machine, t)
      case Refuse(why) => Refuse(why)
      case Accept(next) => Accept(Progress(next, if Selects(p.machine, t) then p.selected + [at] else p.selected))
  }

  lemma RunAfter(m: Machine, ts: seq<Token>, k: nat)
    requires k < |ts|
    ensures Run(m, ts, k + 1) == After(Run(m, ts, k), ts[k], k)
  {
  }

  lemma AfterAlike(ts: seq<Token>, at: nat, p: Outcome<Progress>, q: Outcome<Progress>)
    requires at < |ts| && AlikeProgress(Symbols(ts), p, q)
    ensures AlikeProgress(Symbols(ts), After(p, ts[at], at), After(q, ts[at], at))
  {
    if p.Accept? {
      StepAlike(ts, at, p.value.machine, q.value.machine);
    }
  }

  lemma {:induction false} RunAlike(ts: seq<Token>, m: Machine, n: Machine, k: nat)
    requires k <= |ts| && Alike(Symbols(ts), m, n)
    ensures AlikeProgress(Symbols(ts), Run(m, ts, k), Run(n, ts, k))
  {
    if k > 0 {
      RunAlike(ts, m, n, k - 1);
      RunAfter(m, ts, k - 1);
      RunAfter(n, ts, k - 1);
      AfterAlike(ts, k - 1, Run(m, ts, k - 1), Run(n, ts, k - 1));
    }
  }

  /**
   Any set of enabled symbols selects exactly what its restriction to the named symbols selects,
   and is refused exactly when that is, although `#define` and `#undef` change the set on the way.
   */
  lemma OnlyNamedSymbolsMatter(ts: seq<Token>, enabled: set<string>)
    ensures Selection(ts, enabled) == Selection(ts, enabled * Symbols(ts))
  {
    RunAlike(ts, Start(enabled), Start(enabled * Symbols(ts)), |ts|);
  }

  // ------------------------------------------------------------------ the enumeration of variants

  const MAX_VARIANT_SYMBOLS := 8

  /** `product((False, True), repeat=len(symbols))`, each assignment as its set of true symbols. */
  function Assignments<T>(symbols: seq<T>): seq<set<T>> {
    if symbols == [] then [{}] else
    var rest := Assignments(symbols[1..]);
    rest + WithEach(rest, symbols[0])
  }

  function WithEach<T>(rest: seq<set<T>>, symbol: T): (r: seq<set<T>>)
    ensures |r| == |rest| && forall i :: 0 <= i < |r| ==> r[i] == rest[i] + {symbol}
  {
    seq(|rest|, i requires 0 <= i < |rest| => rest[i] + {symbol})
  }

  lemma {:induction false} AssignmentsCount<T>(symbols: seq<T>)
    ensures |Assignments(symbols)| == Power2(|symbols|)
  {
    if symbols != [] {
      AssignmentsCount(symbols[1..]);
    }
  }

  /** An assignment to the other symbols is extended both ways. */
  lemma AssignmentsExtend<T>(symbols: seq<T>, i: nat)
    requires symbols != [] && i < |Assignments(symbols[1..])|
    ensures Assignments(symbols[1..])[i] in Assignments(symbols)
    ensures Assignments(symbols[1..])[i] + {symbols[0]} in Assignments(symbols)
  {
    var rest := Assignments(symbols[1..]);
    var more := WithEach(rest, symbols[0]);
    assert rest[i] in rest && more[i] in more && Assignments(symbols) == rest + more;
  }

  /** Every set of symbols is visited. */
  lemma {:induction false} AssignmentsComplete<T>(symbols: seq<T>, a: set<T>)
    requires a <= Elements(symbols)
    ensures a in Assignments(symbols)
  {
    if symbols == [] {
      assert a == {} == Assignments(symbols)[0];
    } else {
      var rest, without := Assignments(symbols[1..]), a - {symbols[0]};
      AssignmentsComplete(symbols[1..], without);
      var i :| 0 <= i < |rest| && rest[i] == without;
      AssignmentsExtend(symbols, i);
      assert a == without || a == without + {symbols[0]};
    }
  }

  datatype Variant = Variant(enabled: set<string>, selected: seq<nat>)

  /** The build that enables exactly `e` selects the same tokens as one of the variants. */
  ghost predicate Visits(ts: seq<Token>, variants: seq<Variant>, e: set<string>) {
    exists i :: 0 <= i < |variants| && Selection(ts, e) == Accept(variants[i].selected)
  }

  /**
   The loop of `variant_declarations` up to the token selection: `symbols` is the sorted list of the
   named symbols. It succeeds exactly when the work budget holds and no build at all is refused,
   and then it has visited every build there is.
   */
  method VariantSelections(ts: seq<Token>, symbols: seq<string>) returns (r: Outcome<seq<Variant>>)
    requires Elements(symbols) == Symbols(ts)
    ensures r.Accept? <==> |symbols| <= 8 && forall e :: Selection(ts, e).Accept?
    ensures r.Accept? ==> |r.value| == Power2(|symbols|) && forall e :: Visits(ts, r.value, e)
  {
    if |symbols| > MAX_VARIANT_SYMBOLS {
      return Refuse(VariantBudgetExceeded);
    }
    var variants: seq<Variant> := [];
    var assignments := Assignments(symbols);
    AssignmentsCount(symbols);
    for n := 0 to |assignments|
      invariant |variants| == n
      invariant forall i :: 0 <= i < n ==> variants[i].enabled == assignments[i]
      invariant forall i :: 0 <= i < n ==> Selection(ts, assignments[i]) == Accept(variants[i].selected)
    {
      var selected :- ConditionalIndices(ts, assignments[n]);
      variants := variants + [Variant(assignments[n], selected)];
    }
    forall e
      ensures Visits(ts, variants, e) && Selection(ts, e).Accept?
    {
      OnlyNamedSymbolsMatter(ts, e);
      AssignmentsComplete(symbols, e * Symbols(ts));
      var i :| 0 <= i < |assignments| && assignments[i] == e * Symbols(ts);
      assert Selection(ts, e) == Accept(variants[i].selected);
    }
    return Accept(variants);
  }
}
