/**
 * The parsed form of a standard-library assertion
 * (assert2ify-macros/src/macro_parsing/assertion.rs).
 */
module ParsedAssertion {
  import opened Syntax

  /**
   * `assert_eq!`/`assert_ne!` become `AssertBinary`; every `assert!` becomes
   * `AssertUnary`, whatever the shape of its expression (also `a == b`).
   */
  datatype Assertion =
    | AssertBinary(lhs: Expr, operator: BinOp, rhs: Expr)
    | AssertUnary(expr: Expr)

  /** The operand expressions of an assertion, in source order. */
  function Operands(assertion: Assertion): seq<Expr> {
    match assertion
    case AssertBinary(lhs, _, rhs) => [lhs, rhs]
    case AssertUnary(expr) => [expr]
  }

  /** The boolean expression the assertion checks. */
  function Condition(assertion: Assertion): Expr {
    match assertion
    case AssertBinary(lhs, operator, rhs) => Binary(lhs, operator, rhs)
    case AssertUnary(expr) => expr
  }

  /** `new_binary`: a binary assertion over exactly the given operands and operator. */
  function NewBinary(lhs: Expr, operator: BinOp, rhs: Expr): (assertion: Assertion)
    ensures assertion.AssertBinary? && assertion.operator == operator
    ensures Operands(assertion) == [lhs, rhs]
    ensures Condition(assertion) == Binary(lhs, operator, rhs)
  {
    AssertBinary(lhs, operator, rhs)
  }

  /** `new_assert`: a unary assertion on `expr`, kept as given even when `expr` is a comparison. */
  function NewAssert(expr: Expr): (assertion: Assertion)
    ensures assertion.AssertUnary?
    ensures Operands(assertion) == [expr]
    ensures Condition(assertion) == expr
  {
    AssertUnary(expr)
  }
}
