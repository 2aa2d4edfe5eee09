/**
 * A parsed assertion together with its location and message arguments, and
 * the replacement macro built from it
 * (assert2ify-macros/src/macro_parsing/assertion_macro.rs).
 */
module AssertionMacros {
  import opened Syntax
  import opened ParsedAssertion

  /** An assertion invocation: its location, its message arguments and the assertion proper. */
  datatype AssertionMacro = AssertionMacro(span: Span, infoArgs: seq<Expr>, assertion: Assertion)

  /** `AssertionMacro::new`. */
  function New(assertion: Assertion, span: Span, infoArgs: seq<Expr>): (m: AssertionMacro)
    ensures m.assertion == assertion && m.span == span && m.infoArgs == infoArgs
  {
    AssertionMacro(span, infoArgs, assertion)
  }

  /** The tokens an assertion's operands are spliced in as: `#lhs #operator #rhs` or `#expr`. */
  function ConditionTokens(assertion: Assertion): (ts: seq<Token>)
    ensures ParseExpr(ts) == Ok(Condition(assertion))
  {
    match assertion
    case AssertBinary(lhs, operator, rhs) => [ExprToken(lhs), OpToken(operator), ExprToken(rhs)]
    case AssertUnary(expr) => [ExprToken(expr)]
  }

  /**
   * `assert2ify_with`: the replacement invocation of `assert2MacroPath`. Its
   * `!` and parentheses sit at the original location, and its argument list
   * is the condition followed by the message arguments in their original order.
   */
  function Assert2ifyWith(m: AssertionMacro, assert2MacroPath: Path): (mac: Macro)
    ensures mac.path == assert2MacroPath
    ensures mac.bang == m.span && mac.delimiter == Paren(m.span)
    ensures MacroSpan(mac) == m.span
    ensures mac.tokens == ArgumentTokens(ConditionTokens(m.assertion), m.infoArgs)
    ensures ParseArguments(mac.tokens) == Ok([Condition(m.assertion)] + m.infoArgs)
  {
    ParseArgumentTokens(ConditionTokens(m.assertion), m.infoArgs);
    Macro(assert2MacroPath, m.span, Paren(m.span), ArgumentTokens(ConditionTokens(m.assertion), m.infoArgs))
  }
}
