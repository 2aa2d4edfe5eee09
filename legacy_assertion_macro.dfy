/**
 * The earlier classifier and emitter that the fold still uses
 * (assert2ify-macros/src/assertion_macro.rs). It recognises an assertion by a
 * substring of the first path segment and only knows the `==` comparison.
 */
module LegacyAssertionMacro {
  import opened Syntax
  import Detail

  datatype Assertion =
    | AssertCompare(lhs: Expr, operator: BinOp, rhs: Expr, span: Span, msg: seq<Expr>)
    | AssertUnary(expr: Expr, span: Span)
    | AssertMatches(pat: Pat, expr: Expr, span: Span)

  datatype MacExpr = Assertion(assertion: Assertion) | Other(node: ExprMacro)

  /** The one-segment path `assert2`, without a leading `::`. */
  const Assert2Path := Path(false, ["assert2"])

  /** `str::contains`: whether `needle` occurs in `haystack` at some position. */
  function Contains(haystack: string, needle: string): (found: bool)
    ensures found <==> exists i :: 0 <= i <= |haystack| && needle <= haystack[i..]
    decreases |haystack|
  {
    if needle <= haystack then
      assert haystack[0..] == haystack;
      true
    else if |haystack| == 0 then
      false
    else
      assert forall i :: 1 <= i <= |haystack| ==> haystack[1..][i - 1..] == haystack[i..];
      Contains(haystack[1..], needle)
  }

  /**
   * `assert2_macro_with`: the path argument is ignored; the replacement
   * always invokes `assert2`, with `!` and parentheses at `span`.
   */
  function Assert2MacroWith(assert2MacroPath: Path, tokens: seq<Token>, span: Span): (mac: Macro)
    ensures mac.path == Assert2Path
    ensures mac.tokens == tokens
    ensures MacroSpan(mac) == span && mac.delimiter == Paren(span)
  {
    Macro(Assert2Path, span, Paren(span), tokens)
  }

  /**
   * `Assertion::assert2ify_with`. Only `AssertCompare` is implemented (the
   * other arms are `todo!()`). The replacement has no attributes and its
   * argument list is the comparison followed by the message arguments.
   */
  function Assert2ifyWith(assertion: Assertion, assert2MacroPath: Path): (node: ExprMacro)
    requires assertion.AssertCompare?
    ensures node.attrs == []
    ensures node.mac.path == Assert2Path
    ensures MacroSpan(node.mac) == assertion.span && node.mac.delimiter == Paren(assertion.span)
    ensures ParseArguments(node.mac.tokens)
              == Ok([Binary(assertion.lhs, assertion.operator, assertion.rhs)] + assertion.msg)
  {
    var head := [ExprToken(assertion.lhs), OpToken(assertion.operator), ExprToken(assertion.rhs)];
    ParseArgumentTokens(head, assertion.msg);
    ExprMacro([], Assert2MacroWith(assert2MacroPath, ArgumentTokens(head, assertion.msg), assertion.span))
  }

  /** Whether `MacExpr::from` treats the invocation as an assertion. */
  predicate IsLegacyAssertion(node: ExprMacro) {
    |node.mac.path.segments| > 0 && Contains(node.mac.path.segments[0], "assert_eq")
  }

  /**
   * What `MacExpr::from` needs in order not to panic: a first path segment
   * (`first().unwrap()`) and, for an assertion, a body that parses
   * (`unwrap()`) into at least two arguments (`[0]`, `[1]`).
   */
  predicate CanConvert(node: ExprMacro) {
    && |node.mac.path.segments| > 0
    && (IsLegacyAssertion(node) ==>
          ParseArguments(node.mac.tokens).Ok? && |ParseArguments(node.mac.tokens).value| >= 2)
  }

  /**
   * `MacExpr::from`: an invocation whose first path segment contains
   * `assert_eq` becomes an `==` comparison of its first two arguments, the
   * rest being message arguments; any other invocation is passed through.
   */
  function From(node: ExprMacro): (r: MacExpr)
    requires CanConvert(node)
    ensures r.Assertion? <==> IsLegacyAssertion(node)
    ensures r.Other? ==> r.node == node
    ensures r.Assertion? ==>
              && r.assertion.AssertCompare?
              && r.assertion.operator == Eq(ExprMacroSpan(node))
              && r.assertion.span == ExprMacroSpan(node)
              && ParseArguments(node.mac.tokens) == Ok([r.assertion.lhs, r.assertion.rhs] + r.assertion.msg)
  {
    if Contains(node.mac.path.segments[0], "assert_eq") then
      var expressions := ParseArguments(node.mac.tokens).value;
      assert [expressions[0], expressions[1]] + expressions[2..] == expressions;
      Assertion(AssertCompare(expressions[0], Eq(ExprMacroSpan(node)), expressions[1], ExprMacroSpan(node), expressions[2..]))
    else
      Other(node)
  }

  /**
   * Classification by substring of the first segment disagrees with the
   * exact classifier: `debug_assert_eq!` is rewritten into an unconditional
   * assertion, while `std::assert_eq!`, `assert_ne!` and `assert!` are left alone.
   */
  lemma SubstringClassificationCounterexample(x: Expr, y: Expr, at: Span)
    ensures var debug := ExprMacro([], Macro(Path(false, ["debug_assert_eq"]), at, Paren(at), [ExprToken(x), Comma, ExprToken(y)]));
            && IsLegacyAssertion(debug)
            && Detail.InferMacroKindFromPath(debug.mac.path) == Detail.Other
    ensures var qualified := Path(false, ["std", "assert_eq"]);
            && !Contains(qualified.segments[0], "assert_eq")
            && Detail.InferMacroKindFromPath(qualified) == Detail.Assertion(Detail.AssertEq)
    ensures !Contains("assert_ne", "assert_eq") && !Contains("assert", "assert_eq")
  {
    assert "assert_eq" <= "debug_assert_eq"[6..];
    assert "assert_ne"[7] != "assert_eq"[7];
  }
}
