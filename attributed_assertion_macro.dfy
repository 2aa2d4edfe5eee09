/**
 * The variant of the assertion parser and emitter that carries the outer
 * attributes of the invocation over to its replacement
 * (assert2ify-macros/src/assertion_macro/mod.rs).
 */
module AttributedAssertionMacro {
  import opened Syntax
  import Detail
  import MacroExpressions
  import ParsedAssertion

  /**
   * `AssertMatches` (for `assert!(matches!(e, p))`) is declared and has a
   * constructor, but the parser below never builds it.
   */
  datatype Assertion =
    | AssertBinary(lhs: Expr, operator: BinOp, rhs: Expr)
    | AssertMatches(expr: Expr, pat: Pat)
    | AssertGeneral(expr: Expr)

  datatype AssertionMacro = AssertionMacro(span: Span, infoArgs: seq<Expr>, assertion: Assertion, attrs: seq<Attribute>)

  datatype MacroExpression = Assertion(assertionMacro: AssertionMacro) | Other(node: ExprMacro)

  const TooFewBinaryArguments := "Too few arguments. Binary assertion like assert_eq! or assert_ne! must have at least two arguments"
  const TooFewUnaryArguments := "Too few arguments. Assertion must have at least one argument"

  /** The operand expressions of a binary or general assertion, in source order. */
  function Operands(assertion: Assertion): seq<Expr>
    requires !assertion.AssertMatches?
  {
    match assertion
    case AssertBinary(lhs, _, rhs) => [lhs, rhs]
    case AssertGeneral(expr) => [expr]
  }

  /** The boolean expression a binary or general assertion checks. */
  function Condition(assertion: Assertion): Expr
    requires !assertion.AssertMatches?
  {
    match assertion
    case AssertBinary(lhs, operator, rhs) => Binary(lhs, operator, rhs)
    case AssertGeneral(expr) => expr
  }

  /** `assert2_macro_with`: an invocation of `assert2MacroPath` in parentheses, located at `span`. */
  function Assert2MacroWith(assert2MacroPath: Path, tokens: seq<Token>, span: Span): (mac: Macro)
    ensures mac.path == assert2MacroPath && mac.tokens == tokens
    ensures MacroSpan(mac) == span && mac.delimiter == Paren(span)
  {
    Macro(assert2MacroPath, span, Paren(span), tokens)
  }

  /**
   * `AssertionMacro::assert2ify_with`. The `AssertMatches` arm is `todo!()`,
   * so it is excluded. The replacement keeps the attributes and the location,
   * and its argument list is the condition followed by the message arguments.
   */
  function Assert2ifyWith(m: AssertionMacro, assert2MacroPath: Path): (node: ExprMacro)
    requires !m.assertion.AssertMatches?
    ensures node.attrs == m.attrs
    ensures node.mac.path == assert2MacroPath
    ensures MacroSpan(node.mac) == m.span && node.mac.delimiter == Paren(m.span)
    ensures ParseArguments(node.mac.tokens) == Ok([Condition(m.assertion)] + m.infoArgs)
  {
    match m.assertion
    case AssertBinary(lhs, operator, rhs) =>
      var head := [ExprToken(lhs), OpToken(operator), ExprToken(rhs)];
      ParseArgumentTokens(head, m.infoArgs);
      ExprMacro(m.attrs, Assert2MacroWith(assert2MacroPath, ArgumentTokens(head, m.infoArgs), m.span))
    case AssertGeneral(expr) =>
      ParseArgumentTokens([ExprToken(expr)], m.infoArgs);
      ExprMacro(m.attrs, Assert2MacroWith(assert2MacroPath, ArgumentTokens([ExprToken(expr)], m.infoArgs), m.span))
  }

  /** `MacroExpression::assert2ify_with`: assertions are replaced, any other macro is returned as it was. */
  function MacroExpressionAssert2ifyWith(me: MacroExpression, assert2MacroPath: Path): (node: ExprMacro)
    requires me.Assertion? ==> !me.assertionMacro.assertion.AssertMatches?
    ensures me.Other? ==> node == me.node
    ensures me.Assertion? ==>
              && node.attrs == me.assertionMacro.attrs
              && node.mac.path == assert2MacroPath
              && MacroSpan(node.mac) == me.assertionMacro.span
              && node.mac.delimiter == Paren(me.assertionMacro.span)
              && ParseArguments(node.mac.tokens)
                   == Ok([Condition(me.assertionMacro.assertion)] + me.assertionMacro.infoArgs)
  {
    match me
    case Assertion(m) => Assert2ifyWith(m, assert2MacroPath)
    case Other(node) => node
  }

  /** `Spanned::span`: the location of the invocation the value was parsed from. */
  function SpanOf(me: MacroExpression): (span: Span)
    ensures forall node :: TryFrom(node) == Ok(me) ==> span == ExprMacroSpan(node)
  {
    match me
    case Assertion(m) => m.span
    case Other(node) => ExprMacroSpan(node)
  }

  /**
   * `TryFrom<ExprMacro>`: the same split as the attribute-free parser, with
   * the attributes carried into the result. It never builds `AssertMatches`.
   */
  function TryFrom(node: ExprMacro): (r: Result<MacroExpression>)
    ensures ParseArguments(node.mac.tokens).Err? ==> r == Err(ParseArguments(node.mac.tokens).error)
    ensures r.Ok? && r.value.Other? <==>
              ParseArguments(node.mac.tokens).Ok? && Detail.InferMacroKindFromPath(node.mac.path) == Detail.Other
    ensures r.Ok? && r.value.Other? ==> r.value.node == node
    ensures r.Ok? && r.value.Assertion? ==>
              var m := r.value.assertionMacro;
              var kind := Detail.InferMacroKindFromPath(node.mac.path);
              && !m.assertion.AssertMatches?
              && m.attrs == node.attrs
              && m.span == ExprMacroSpan(node)
              && ParseArguments(node.mac.tokens) == Ok(Operands(m.assertion) + m.infoArgs)
              && (m.assertion.AssertBinary? <==> Detail.IsBinaryAssertion(kind))
              && (m.assertion.AssertBinary? ==> Detail.BinaryOperator(kind, m.span) == Some(m.assertion.operator))
    ensures ParseArguments(node.mac.tokens).Ok? ==>
              var args := ParseArguments(node.mac.tokens).value;
              var kind := Detail.InferMacroKindFromPath(node.mac.path);
              var span := ExprMacroSpan(node);
              && (Detail.IsBinaryAssertion(kind) && |args| < 2 ==>
                    r == Err(CompileError(span, TooFewBinaryArguments)))
              && (kind == Detail.Assertion(Detail.Assert) && |args| == 0 ==>
                    r == Err(CompileError(span, TooFewUnaryArguments)))
              && (Detail.IsBinaryAssertion(kind) && |args| >= 2 ==> r.Ok? && r.value.Assertion?)
              && (kind == Detail.Assertion(Detail.Assert) && |args| >= 1 ==> r.Ok? && r.value.Assertion?)
  {
    var span := ExprMacroSpan(node);
    match ParseArguments(node.mac.tokens)
    case Err(e) => Err(e)
    case Ok(args) =>
      var kind := Detail.InferMacroKindFromPath(node.mac.path);
      if Detail.IsBinaryAssertion(kind) then
        if |args| < 2 then
          Err(CompileError(span, TooFewBinaryArguments))
        else
          var operator := Detail.BinaryOperator(kind, span).value;
          assert [args[0], args[1]] + args[2..] == args;
          Ok(Assertion(AssertionMacro(span, args[2..], AssertBinary(args[0], operator, args[1]), node.attrs)))
      else if Detail.IsAssertion(kind) then
        if |args| == 0 then
          Err(CompileError(span, TooFewUnaryArguments))
        else
          assert [args[0]] + args[1..] == args;
          Ok(Assertion(AssertionMacro(span, args[1..], AssertGeneral(args[0]), node.attrs)))
      else
        Ok(Other(node))
  }

  /** Parsing and then emitting never reaches the unimplemented `AssertMatches` arm, and keeps the attributes. */
  lemma RewriteIsTotal(node: ExprMacro, assert2MacroPath: Path)
    requires TryFrom(node).Ok?
    ensures var out := MacroExpressionAssert2ifyWith(TryFrom(node).value, assert2MacroPath);
            out.attrs == node.attrs && MacroSpan(out.mac) == ExprMacroSpan(node)
  {
  }

  /**
   * This parser and the attribute-free one agree on every invocation: both
   * fail or neither does, both pass it through or neither does, and an
   * assertion gets the same location, operands, operator and message
   * arguments from both. Only the error messages differ.
   */
  lemma {:induction false} AgreesWithAttributeFreeParser(node: ExprMacro)
    ensures TryFrom(node).Err? <==> MacroExpressions.TryFrom(node.mac).Err?
    ensures TryFrom(node).Ok? && TryFrom(node).value.Other? <==>
              MacroExpressions.TryFrom(node.mac).Ok? && MacroExpressions.TryFrom(node.mac).value.Other?
    ensures TryFrom(node).Ok? && TryFrom(node).value.Assertion? ==>
              && MacroExpressions.TryFrom(node.mac).Ok?
              && MacroExpressions.TryFrom(node.mac).value.Assertion?
              && var m := TryFrom(node).value.assertionMacro;
                 var m' := MacroExpressions.TryFrom(node.mac).value.assertionMacro;
                 && m.span == m'.span
                 && m.infoArgs == m'.infoArgs
                 && Operands(m.assertion) == ParsedAssertion.Operands(m'.assertion)
                 && Condition(m.assertion) == ParsedAssertion.Condition(m'.assertion)
  {
    var r := TryFrom(node);
    var r' := MacroExpressions.TryFrom(node.mac);
    if ParseArguments(node.mac.tokens).Ok? {
      var args := ParseArguments(node.mac.tokens).value;
      var kind := Detail.InferMacroKindFromPath(node.mac.path);
      if r.Ok? && r.value.Assertion? {
        var m := r.value.assertionMacro;
        var m' := r'.value.assertionMacro;
        if Detail.IsBinaryAssertion(kind) {
          assert m.infoArgs == args[2..] == m'.infoArgs;
        } else {
          assert m.infoArgs == args[1..] == m'.infoArgs;
        }
      }
    }
  }
}
