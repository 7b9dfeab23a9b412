/**
 The tooling reports every refusal by raising `ValueError` with a fixed message.
 An `Outcome` is either the value a routine returns or the message it raises.
 */
module Outcomes {

  /** One constructor per message raised by the modelled routines of `scope_inventory.py`. */
  datatype Refusal =
    | IncompleteExpression
    | UnclosedExpression
    | InvalidOperand
    | UnconsumedExpression
    | InvalidBranchOrder
    | EndWithoutOpening
    | UnclosedDirective
    | ExpectedIdentifier
    | BranchBeforeBoundary
    | UnbalancedBranches
    | UnclosedBracket
    | ConditionalTestHeader
    | UnreconciledTestAttributes
    | VariantBudgetExceeded

  datatype Outcome<+T> = Accept(value: T) | Refuse(why: Refusal) {
    predicate IsFailure() {
      Refuse?
    }

    function PropagateFailure<U>(): Outcome<U>
      requires Refuse?
    {
      Refuse(why)
    }

    function Extract(): T
      requires Accept?
    {
      value
    }
  }

  datatype Option<+T> = None | Some(value: T)

  /** `str.lower` on the ASCII letters, which is all the keyword comparisons can observe. */
  function Lower(s: string): (r: string)
    ensures |r| == |s|
  {
    seq(|s|, i requires 0 <= i < |s| => if 'A' <= s[i] <= 'Z' then s[i] - 'A' + 'a' else s[i])
  }
}
