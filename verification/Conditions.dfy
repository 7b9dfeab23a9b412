/**
 The Boolean conditions of `#if` and `#elif`: the recursive-descent parser of
 `scope_inventory.condition`, and a printer that it inverts.
 */
module Conditions {
  import opened Outcomes
  import opened Sequences

  /** What the lexical pattern of `condition` yields: a word, or one other visible character. */
  datatype Lexeme = Text(word: string) | Mark(c: char)

  /** How `condition` reads a lexeme: keywords in any capitalisation, symbols, parentheses, the rest. */
  datatype Part = AndWord | OrWord | NotWord | Name(name: string) | Open | Close | Stray

  function Classify(l: Lexeme): Part {
    match l
    case Text(word) =>
      var lower := Lower(word);
      if lower == "and" then AndWord else if lower == "or" then OrWord else if lower == "not" then NotWord
      else Name(word)
    case Mark(c) => if c == '(' then Open else if c == ')' then Close else Stray
  }

  function Classified(lexemes: seq<Lexeme>): (parts: seq<Part>)
    ensures |parts| == |lexemes|
    ensures forall i :: 0 <= i < |parts| ==> parts[i] == Classify(lexemes[i])
  {
    seq(|lexemes|, i requires 0 <= i < |lexemes| => Classify(lexemes[i]))
  }

  /** The value read and the position after it. */
  type Reading = Outcome<(bool, nat)>

  // ------------------------------------------------------------------ specification

  function Unary(parts: seq<Part>, enabled: set<string>, at: nat): (r: Reading)
    ensures r.Accept? ==> at < r.value.1 <= |parts|
    decreases |parts| - at, 0
  {
    if at >= |parts| then
      Refuse(IncompleteExpression)
    else if parts[at].NotWord? then
      var (value, next) :- Unary(parts, enabled, at + 1);
      Accept((!value, next))
    else if parts[at].Open? then
      var (value, next) :- Disjunction(parts, enabled, at + 1);
      if next >= |parts| || !parts[next].Close? then Refuse(UnclosedExpression) else Accept((value, next + 1))
    else if !parts[at].Name? then
      Refuse(InvalidOperand)
    else
      Accept((parts[at].name in enabled, at + 1))
  }

  function Conjunction(parts: seq<Part>, enabled: set<string>, at: nat): (r: Reading)
    ensures r.Accept? ==> at < r.value.1 <= |parts|
    decreases |parts| - at, 2
  {
    var (first, next) :- Unary(parts, enabled, at);
    MoreConjuncts(parts, enabled, first, next)
  }

  /** The `while` loop of `binary('and')`, entered with the operands read so far combined. */
  function MoreConjuncts(parts: seq<Part>, enabled: set<string>, result: bool, at: nat): (r: Reading)
    requires at <= |parts|
    ensures r.Accept? ==> at <= r.value.1 <= |parts|
    decreases |parts| - at, 1
  {
    if at < |parts| && parts[at].AndWord? then
      var (right, next) :- Unary(parts, enabled, at + 1);
      MoreConjuncts(parts, enabled, result && right, next)
    else
      Accept((result, at))
  }

  function Disjunction(parts: seq<Part>, enabled: set<string>, at: nat): (r: Reading)
    ensures r.Accept? ==> at < r.value.1 <= |parts|
    decreases |parts| - at, 4
  {
    var (first, next) :- Conjunction(parts, enabled, at);
    MoreDisjuncts(parts, enabled, first, next)
  }

  /** The `while` loop of `binary('or')`. */
  function MoreDisjuncts(parts: seq<Part>, enabled: set<string>, result: bool, at: nat): (r: Reading)
    requires at <= |parts|
    ensures r.Accept? ==> at <= r.value.1 <= |parts|
    decreases |parts| - at, 3
  {
    if at < |parts| && parts[at].OrWord? then
      var (right, next) :- Conjunction(parts, enabled, at + 1);
      MoreDisjuncts(parts, enabled, result || right, next)
    else
      Accept((result, at))
  }

  function Condition(parts: seq<Part>, enabled: set<string>): Outcome<bool> {
    var (value, next) :- Disjunction(parts, enabled, 0);
    if next != |parts| then Refuse(UnconsumedExpression) else Accept(value)
  }

  // ------------------------------------------------------------------ the parser itself

  /** The closure variables of `condition`: the parts, the enabled symbols and the cursor. */
  class Parser {
    const parts: seq<Part>
    const enabled: set<string>
    var at: nat

    constructor (parts: seq<Part>, enabled: set<string>)
      ensures this.parts == parts && this.enabled == enabled && at == 0
    {
      this.parts, this.enabled, at := parts, enabled, 0;
    }

    ghost predicate Read(r: Outcome<bool>, spec: Reading)
      reads this
    {
      match spec
      case Accept((value, next)) => r == Accept(value) && at == next
      case Refuse(why) => r == Refuse(why)
    }

    method ReadUnary() returns (r: Outcome<bool>)
      modifies this
      ensures Read(r, old(Unary(parts, enabled, at)))
      decreases |parts| - at, 0
    {
      if at >= |parts| {
        return Refuse(IncompleteExpression);
      }
      var value := parts[at];
      at := at + 1;
      if value.NotWord? {
        var operand :- ReadUnary();
        return Accept(!operand);
      }
      if value.Open? {
        var result :- ReadBinary(false);
        if at >= |parts| || !parts[at].Close? {
          return Refuse(UnclosedExpression);
        }
        at := at + 1;
        return Accept(result);
      }
      if !value.Name? {
        return Refuse(InvalidOperand);
      }
      return Accept(value.name in enabled);
    }

    /** `binary('and')` when `conjunctive`, otherwise `binary('or')`. */
    method ReadBinary(conjunctive: bool) returns (r: Outcome<bool>)
      modifies this
      ensures Read(r, old(if conjunctive then Conjunction(parts, enabled, at) else Disjunction(parts, enabled, at)))
      decreases |parts| - at, if conjunctive then 2 else 4
    {
      ghost var spec := if conjunctive then Conjunction(parts, enabled, at) else Disjunction(parts, enabled, at);
      ghost var start := at;
      var result :- ReadOperand(conjunctive);
      while at < |parts| && parts[at] == (if conjunctive then AndWord else OrWord)
        invariant start < at <= |parts|
        invariant spec == if conjunctive then MoreConjuncts(parts, enabled, result, at)
                          else MoreDisjuncts(parts, enabled, result, at)
        decreases |parts| - at
      {
        at := at + 1;
        var right :- ReadOperand(conjunctive);
        result := if conjunctive then result && right else result || right;
      }
      return Accept(result);
    }

    method ReadOperand(conjunctive: bool) returns (r: Outcome<bool>)
      modifies this
      ensures Read(r, old(if conjunctive then Unary(parts, enabled, at) else Conjunction(parts, enabled, at)))
      decreases |parts| - at, if conjunctive then 1 else 3
    {
      if conjunctive {
        r := ReadUnary();
      } else {
        r := ReadBinary(true);
      }
    }
  }

  /** `condition`: the whole expression must be consumed. */
  method EvaluateCondition(parts: seq<Part>, enabled: set<string>) returns (r: Outcome<bool>)
    ensures r == Condition(parts, enabled)
  {
    var parser := new Parser(parts, enabled);
    var result :- parser.ReadBinary(false);
    if parser.at != |parts| {
      return Refuse(UnconsumedExpression);
    }
    return Accept(result);
  }

  // ------------------------------------------------------------------ expressions and their printing

  datatype Expr =
    | Symbol(name: string)
    | Not(operand: Expr)
    | And(left: Expr, right: Expr)
    | Or(left: Expr, right: Expr)
    | Grouped(inner: Expr) // in parentheses that the source wrote, needed or not

  predicate Holds(e: Expr, enabled: set<string>) {
    match e
    case Symbol(name) => name in enabled
    case Not(operand) => !Holds(operand, enabled)
    case And(left, right) => Holds(left, enabled) && Holds(right, enabled)
    case Or(left, right) => Holds(left, enabled) || Holds(right, enabled)
    case Grouped(inner) => Holds(inner, enabled)
  }

  /** How tightly an expression binds: `not` over `and` over `or`. */
  function Binding(e: Expr): nat {
    match e
    case Or(_, _) => 0
    case And(_, _) => 1
    case _ => 2
  }

  /** Prints `e` where at least binding `level` is demanded: its own parentheses and those that are needed. */
  function Print(e: Expr, level: nat): seq<Part>
    decreases e, 1
  {
    if Binding(e) < level then [Open] + PrintBare(e) + [Close] else PrintBare(e)
  }

  function PrintBare(e: Expr): seq<Part>
    decreases e, 0
  {
    match e
    case Symbol(name) => [Name(name)]
    case Not(operand) => [NotWord] + Print(operand, 2)
    case And(left, right) => Print(left, 1) + [AndWord] + Print(right, 2)
    case Or(left, right) => Print(left, 0) + [OrWord] + Print(right, 1)
    case Grouped(inner) => [Open] + Print(inner, 0) + [Close]
  }

  predicate Continues(parts: seq<Part>, at: nat, keyword: Part) {
    at < |parts| && parts[at] == keyword
  }

  /** A tightly bound expression is read by `unary`. */
  lemma {:induction false} UnaryReads(e: Expr, parts: seq<Part>, enabled: set<string>, at: nat)
    requires Stands(parts, at, Print(e, 2))
    ensures Unary(parts, enabled, at) == Accept((Holds(e, enabled), at + |Print(e, 2)|))
    decreases e, if e.And? || e.Or? then 5 else 2
  {
    match e
    case Symbol(name) =>
    case Not(operand) =>
      var printed := Print(operand, 2);
      assert Print(e, 2) == [NotWord] + printed;
      StandsSplit(parts, at, [NotWord], printed);
      UnaryReads(operand, parts, enabled, at + 1);
    case Grouped(inner) =>
      ParenthesesRead(inner, parts, enabled, at);
    case _ =>
      assert Print(e, 2) == [Open] + Print(e, 0) + [Close];
      ParenthesesRead(e, parts, enabled, at);
  }

  lemma {:induction false} ParenthesesRead(e: Expr, parts: seq<Part>, enabled: set<string>, at: nat)
    requires Stands(parts, at, [Open] + Print(e, 0) + [Close])
    ensures Unary(parts, enabled, at) == Accept((Holds(e, enabled), at + |Print(e, 0)| + 2))
    decreases e, 4, 1
  {
    var bare := Print(e, 0);
    StandsSplit(parts, at, [Open] + bare, [Close]);
    StandsSplit(parts, at, [Open], bare);
    assert parts[at].Open? && parts[at + 1 + |bare|].Close?;
    DisjunctionReads(e, parts, enabled, at + 1);
  }

  /** One turn of the loop of `binary('and')`. */
  lemma NextConjunct(parts: seq<Part>, enabled: set<string>, result: bool, at: nat, right: bool, next: nat)
    requires Continues(parts, at, AndWord) && Unary(parts, enabled, at + 1) == Accept((right, next))
    ensures next <= |parts|
    ensures MoreConjuncts(parts, enabled, result, at) == MoreConjuncts(parts, enabled, result && right, next)
  {
  }

  /** One turn of the loop of `binary('or')`, when its right operand ends at `next`. */
  lemma NextDisjunct(parts: seq<Part>, enabled: set<string>, result: bool, at: nat, right: bool, next: nat)
    requires Continues(parts, at, OrWord) && next <= |parts| && !Continues(parts, next, AndWord)
    requires Conjunction(parts, enabled, at + 1) == MoreConjuncts(parts, enabled, right, next)
    ensures MoreDisjuncts(parts, enabled, result, at) == MoreDisjuncts(parts, enabled, result || right, next)
  {
  }

  /** Where `left keyword right` stands, each of the three stands in its place. */
  lemma InfixStands(parts: seq<Part>, at: nat, left: seq<Part>, keyword: Part, right: seq<Part>)
    requires Stands(parts, at, left + [keyword] + right)
    ensures Stands(parts, at, left) && Stands(parts, at + |left| + 1, right)
    ensures Continues(parts, at + |left|, keyword)
  {
    StandsSplit(parts, at, left + [keyword], right);
    StandsSplit(parts, at, left, [keyword]);
    assert parts[at + |left|] == keyword;
  }

  /** An expression above `or` is read by `binary('and')`, which then goes on with its loop. */
  lemma {:induction false} ConjunctionReads(e: Expr, parts: seq<Part>, enabled: set<string>, at: nat)
    requires Stands(parts, at, Print(e, 1))
    ensures Conjunction(parts, enabled, at)
         == MoreConjuncts(parts, enabled, Holds(e, enabled), at + |Print(e, 1)|)
    decreases e, if e.Or? then 6 else 3
  {
    if e.And? {
      var left, right := Print(e.left, 1), Print(e.right, 2);
      var mid, end := at + |left|, at + |Print(e, 1)|;
      assert Print(e, 1) == left + [AndWord] + right;
      InfixStands(parts, at, left, AndWord, right);
      ConjunctionReads(e.left, parts, enabled, at);
      UnaryReads(e.right, parts, enabled, mid + 1);
      NextConjunct(parts, enabled, Holds(e.left, enabled), mid, Holds(e.right, enabled), end);
    } else {
      assert Print(e, 1) == Print(e, 2);
      UnaryReads(e, parts, enabled, at);
      assert Unary(parts, enabled, at).value.1 == at + |Print(e, 1)|;
    }
  }

  /** Any expression is read by `binary('or')`, unless a following `and` would capture its last conjunct. */
  lemma {:induction false} DisjunctionReads(e: Expr, parts: seq<Part>, enabled: set<string>, at: nat)
    requires Stands(parts, at, Print(e, 0))
    requires !Continues(parts, at + |Print(e, 0)|, AndWord)
    ensures Disjunction(parts, enabled, at)
         == MoreDisjuncts(parts, enabled, Holds(e, enabled), at + |Print(e, 0)|)
    decreases e, 4, 0
  {
    if e.Or? {
      var left, right := Print(e.left, 0), Print(e.right, 1);
      var mid, end := at + |left|, at + |Print(e, 0)|;
      assert Print(e, 0) == left + [OrWord] + right;
      InfixStands(parts, at, left, OrWord, right);
      DisjunctionReads(e.left, parts, enabled, at);
      ConjunctionReads(e.right, parts, enabled, mid + 1);
      NextDisjunct(parts, enabled, Holds(e.left, enabled), mid, Holds(e.right, enabled), end);
    } else {
      assert Print(e, 0) == Print(e, 1);
      ConjunctionReads(e, parts, enabled, at);
    }
  }

  // ------------------------------------------------------------------ whatever is accepted is a printing

  /** `parts[from..to]` is the printing of `e`, which binds at least as tightly as `level`. */
  ghost predicate Spans(parts: seq<Part>, from: nat, to: nat, e: Expr, level: nat) {
    from <= to <= |parts| && parts[from..to] == PrintBare(e) && level <= Binding(e)
  }

  lemma SpansInfix(parts: seq<Part>, from: nat, at: nat, next: nat, keyword: Part)
    requires from <= at < next <= |parts| && parts[at] == keyword
    ensures parts[from..next] == parts[from..at] + [keyword] + parts[at + 1..next]
  {
  }

  lemma {:induction false} UnaryIsPrinting(parts: seq<Part>, enabled: set<string>, at: nat) returns (e: Expr)
    requires Unary(parts, enabled, at).Accept?
    ensures var (value, next) := Unary(parts, enabled, at).value;
      Spans(parts, at, next, e, 2) && value == Holds(e, enabled)
    decreases |parts| - at, 0
  {
    var next := Unary(parts, enabled, at).value.1;
    if parts[at].NotWord? {
      var operand := UnaryIsPrinting(parts, enabled, at + 1);
      e := Not(operand);
      assert parts[at..next] == [NotWord] + parts[at + 1..next];
    } else if parts[at].Open? {
      var inner := DisjunctionIsPrinting(parts, enabled, at + 1);
      e := Grouped(inner);
      assert parts[at..next] == [Open] + parts[at + 1..next - 1] + [Close];
    } else {
      e := Symbol(parts[at].name);
      assert parts[at..next] == [parts[at]];
    }
  }

  lemma {:induction false} ConjunctionIsPrinting(parts: seq<Part>, enabled: set<string>, at: nat) returns (e: Expr)
    requires Conjunction(parts, enabled, at).Accept?
    ensures var (value, next) := Conjunction(parts, enabled, at).value;
      Spans(parts, at, next, e, 1) && value == Holds(e, enabled)
    decreases |parts| - at, 2
  {
    var first := UnaryIsPrinting(parts, enabled, at);
    var next := Unary(parts, enabled, at).value.1;
    e := ConjunctsArePrinting(parts, enabled, at, first, next);
  }

  lemma {:induction false} ConjunctsArePrinting(
    parts: seq<Part>, enabled: set<string>, from: nat, sofar: Expr, at: nat) returns (e: Expr)
    requires Spans(parts, from, at, sofar, 1)
    requires MoreConjuncts(parts, enabled, Holds(sofar, enabled), at).Accept?
    ensures var (value, next) := MoreConjuncts(parts, enabled, Holds(sofar, enabled), at).value;
      Spans(parts, from, next, e, 1) && value == Holds(e, enabled)
    decreases |parts| - at, 1
  {
    if at < |parts| && parts[at].AndWord? {
      var right := UnaryIsPrinting(parts, enabled, at + 1);
      var next := Unary(parts, enabled, at + 1).value.1;
      SpansInfix(parts, from, at, next, AndWord);
      e := ConjunctsArePrinting(parts, enabled, from, And(sofar, right), next);
    } else {
      e := sofar;
    }
  }

  lemma {:induction false} DisjunctionIsPrinting(parts: seq<Part>, enabled: set<string>, at: nat) returns (e: Expr)
    requires Disjunction(parts, enabled, at).Accept?
    ensures var (value, next) := Disjunction(parts, enabled, at).value;
      Spans(parts, at, next, e, 0) && value == Holds(e, enabled)
    decreases |parts| - at, 4
  {
    var first := ConjunctionIsPrinting(parts, enabled, at);
    var next := Conjunction(parts, enabled, at).value.1;
    e := DisjunctsArePrinting(parts, enabled, at, first, next);
  }

  lemma {:induction false} DisjunctsArePrinting(
    parts: seq<Part>, enabled: set<string>, from: nat, sofar: Expr, at: nat) returns (e: Expr)
    requires Spans(parts, from, at, sofar, 0)
    requires MoreDisjuncts(parts, enabled, Holds(sofar, enabled), at).Accept?
    ensures var (value, next) := MoreDisjuncts(parts, enabled, Holds(sofar, enabled), at).value;
      Spans(parts, from, next, e, 0) && value == Holds(e, enabled)
    decreases |parts| - at, 3
  {
    if at < |parts| && parts[at].OrWord? {
      var right := ConjunctionIsPrinting(parts, enabled, at + 1);
      var next := Conjunction(parts, enabled, at + 1).value.1;
      SpansInfix(parts, from, at, next, OrWord);
      e := DisjunctsArePrinting(parts, enabled, from, Or(sofar, right), next);
    } else {
      e := sofar;
    }
  }

  /** The parts are a printing of an expression that has the given value. */
  ghost predicate Means(parts: seq<Part>, enabled: set<string>, value: bool) {
    exists e :: Print(e, 0) == parts && Holds(e, enabled) == value
  }

  /**
   The grammar, in both directions: a condition is accepted with a value exactly if it is a printing,
   with any parentheses beyond those needed, of an expression that has this value. Everything else is
   refused.
   */
  lemma ConditionIffPrinting(parts: seq<Part>, enabled: set<string>, value: bool)
    ensures Condition(parts, enabled) == Accept(value) <==> Means(parts, enabled, value)
  {
    if Condition(parts, enabled) == Accept(value) {
      var e := DisjunctionIsPrinting(parts, enabled, 0);
      assert parts[0..|parts|] == parts;
    }
    if Means(parts, enabled, value) {
      var e :| Print(e, 0) == parts && Holds(e, enabled) == value;
      PrintingHolds(e, parts, enabled);
    }
  }

  lemma PrintingHolds(e: Expr, parts: seq<Part>, enabled: set<string>)
    requires Print(e, 0) == parts
    ensures Condition(parts, enabled) == Accept(Holds(e, enabled))
  {
    StandsWhole(parts, 0);
    assert parts[0..] == parts;
    DisjunctionReads(e, parts, enabled, 0);
  }

  // ------------------------------------------------------------------ round trip from lexemes

  predicate Reserved(name: string) {
    Lower(name) in {"and", "or", "not"}
  }

  predicate WellNamed(e: Expr) {
    match e
    case Symbol(name) => !Reserved(name)
    case Not(operand) => WellNamed(operand)
    case And(left, right) => WellNamed(left) && WellNamed(right)
    case Or(left, right) => WellNamed(left) && WellNamed(right)
    case Grouped(inner) => WellNamed(inner)
  }

  /** The lexemes of the printed expression, keywords spelled as given. */
  function Spelled(parts: seq<Part>, keyword: Part -> string): (lexemes: seq<Lexeme>)
    ensures |lexemes| == |parts|
  {
    seq(|parts|, i requires 0 <= i < |parts| =>
      match parts[i]
      case Name(name) => Text(name)
      case Open => Mark('(')
      case Close => Mark(')')
      case Stray => Mark('?')
      case word => Text(keyword(word)))
  }

  /** Some capitalisation of each keyword. */
  ghost predicate SpellsKeywords(keyword: Part -> string) {
    Lower(keyword(AndWord)) == "and" && Lower(keyword(OrWord)) == "or" && Lower(keyword(NotWord)) == "not"
  }

  ghost predicate Unreserved(parts: seq<Part>) {
    forall p :: p in parts && p.Name? ==> !Reserved(p.name)
  }

  lemma {:induction false} PrintUnreserved(e: Expr, level: nat)
    requires WellNamed(e)
    ensures Unreserved(Print(e, level)) && Unreserved(PrintBare(e))
    decreases e
  {
    match e
    case Symbol(_) =>
    case Not(operand) => PrintUnreserved(operand, 2);
    case And(left, right) => PrintUnreserved(left, 1); PrintUnreserved(right, 2);
    case Or(left, right) => PrintUnreserved(left, 0); PrintUnreserved(right, 1);
    case Grouped(inner) => PrintUnreserved(inner, 0);
  }

  /**
   The parser inverts the minimal printer: for every expression over symbols other than the keywords,
   and any capitalisation of the keywords, the lexemes are consumed whole and mean what the expression says.
   */
  lemma PrintedConditionHolds(e: Expr, keyword: Part -> string, enabled: set<string>)
    requires WellNamed(e) && SpellsKeywords(keyword)
    ensures Condition(Classified(Spelled(Print(e, 0), keyword)), enabled) == Accept(Holds(e, enabled))
  {
    var parts := Print(e, 0);
    PrintUnreserved(e, 0);
    assert forall i :: 0 <= i < |parts| ==> parts[i] in parts;
    assert Classified(Spelled(parts, keyword)) == parts;
    PrintingHolds(e, parts, enabled);
  }

  /** A lexeme spells a part: keywords in any capitalisation, any other word as the symbol it is. */
  predicate SpellsPart(l: Lexeme, p: Part) {
    match p
    case AndWord => l.Text? && Lower(l.word) == "and"
    case OrWord => l.Text? && Lower(l.word) == "or"
    case NotWord => l.Text? && Lower(l.word) == "not"
    case Name(name) => l == Text(name) && !Reserved(name)
    case Open => l == Mark('(')
    case Close => l == Mark(')')
    case Stray => false
  }

  ghost predicate SpellsAll(lexemes: seq<Lexeme>, parts: seq<Part>) {
    |lexemes| == |parts| && forall i :: 0 <= i < |parts| ==> SpellsPart(lexemes[i], parts[i])
  }

  lemma {:induction false} PrintHasNoStray(e: Expr, level: nat)
    ensures Stray !in Print(e, level) && Stray !in PrintBare(e)
    decreases e
  {
    match e
    case Symbol(_) =>
    case Not(operand) => PrintHasNoStray(operand, 2);
    case And(left, right) => PrintHasNoStray(left, 1); PrintHasNoStray(right, 2);
    case Or(left, right) => PrintHasNoStray(left, 0); PrintHasNoStray(right, 1);
    case Grouped(inner) => PrintHasNoStray(inner, 0);
  }

  lemma ClassifiedIffSpelled(lexemes: seq<Lexeme>, parts: seq<Part>)
    ensures Stray !in parts ==> (Classified(lexemes) == parts <==> SpellsAll(lexemes, parts))
  {
    if Stray !in parts && |lexemes| == |parts| {
      forall i | 0 <= i < |parts|
        ensures Classify(lexemes[i]) == parts[i] <==> SpellsPart(lexemes[i], parts[i])
      {
        assert parts[i] in parts;
      }
    }
  }

  /** The refusals, by the least conditions that meet them. */
  lemma RefusalsAre(enabled: set<string>)
    ensures Condition([], enabled) == Refuse(IncompleteExpression)
    ensures Condition([NotWord], enabled) == Refuse(IncompleteExpression)
    ensures Condition([AndWord], enabled) == Refuse(InvalidOperand)
    ensures Condition([Stray], enabled) == Refuse(InvalidOperand)
    ensures Condition([Open, Name("A")], enabled) == Refuse(UnclosedExpression)
    ensures Condition([Name("A"), Name("B")], enabled) == Refuse(UnconsumedExpression)
  {
  }

  /** The lexemes spell an expression that has the given value. */
  ghost predicate Says(lexemes: seq<Lexeme>, enabled: set<string>, value: bool) {
    exists e :: SpellsAll(lexemes, Print(e, 0)) && Holds(e, enabled) == value
  }

  /** The same from the lexemes on. */
  lemma AcceptedIffSpelled(lexemes: seq<Lexeme>, enabled: set<string>, value: bool)
    ensures Condition(Classified(lexemes), enabled) == Accept(value) <==> Says(lexemes, enabled, value)
  {
    var parts := Classified(lexemes);
    ConditionIffPrinting(parts, enabled, value);
    if Means(parts, enabled, value) {
      var e :| Print(e, 0) == parts && Holds(e, enabled) == value;
      PrintHasNoStray(e, 0);
      ClassifiedIffSpelled(lexemes, parts);
    }
    if Says(lexemes, enabled, value) {
      var e :| SpellsAll(lexemes, Print(e, 0)) && Holds(e, enabled) == value;
      PrintHasNoStray(e, 0);
      ClassifiedIffSpelled(lexemes, Print(e, 0));
    }
  }
}
