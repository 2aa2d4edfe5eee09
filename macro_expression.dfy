/**
 * Classification of a macro invocation as an assertion or as any other macro
 * (assert2ify-macros/src/macro_parsing/macro_expression.rs).
 */
module MacroExpressions {
  import opened Syntax
  import opened ParsedAssertion
  import opened AssertionMacros
  import Detail

  datatype MacroExpression = Assertion(assertionMacro: AssertionMacro) | Other(mac: Macro)

  /** `Spanned::span`: the location of the invocation the value was parsed from. */
  function SpanOf(me: MacroExpression): (span: Span)
    ensures forall mac :: TryFrom(mac) == Ok(me) ==> span == MacroSpan(mac)
  {
    match me
    case Assertion(m) => m.span
    case Other(mac) => MacroSpan(mac)
  }

  const TooFewBinaryArgumentsNone := "Too few arguments: expected 2 or more, got 0"
  const TooFewBinaryArgumentsOne := "Too few arguments: expected 2 or more, got 1"
  const TooFewUnaryArguments := "Too few arguments: expected 1 or more, got 0"

  /**
   * `TryFrom<Macro>`. The body is split into comma-separated expressions
   * first, for every path; only then is the path classified. A binary
   * assertion takes its first two arguments as operands and an `assert!` its
   * first; the rest are message arguments. Any other macro is passed through.
   */
  function TryFrom(mac: Macro): (r: Result<MacroExpression>)
    ensures ParseArguments(mac.tokens).Err? ==> r == Err(ParseArguments(mac.tokens).error)
    ensures r.Ok? && r.value.Other? <==>
              ParseArguments(mac.tokens).Ok? && Detail.InferMacroKindFromPath(mac.path) == Detail.Other
    ensures r.Ok? && r.value.Other? ==> r.value.mac == mac
    ensures r.Ok? && r.value.Assertion? ==>
              var m := r.value.assertionMacro;
              var kind := Detail.InferMacroKindFromPath(mac.path);
              && m.span == MacroSpan(mac)
              && ParseArguments(mac.tokens) == Ok(Operands(m.assertion) + m.infoArgs)
              && Detail.IsAssertion(kind)
              && (m.assertion.AssertBinary? <==> Detail.IsBinaryAssertion(kind))
              && (m.assertion.AssertBinary? ==> Detail.BinaryOperator(kind, m.span) == Some(m.assertion.operator))
    ensures ParseArguments(mac.tokens).Ok? ==>
              var args := ParseArguments(mac.tokens).value;
              var kind := Detail.InferMacroKindFromPath(mac.path);
              var span := MacroSpan(mac);
              && (Detail.IsBinaryAssertion(kind) && |args| == 0 ==>
                    r == Err(CompileError(span, TooFewBinaryArgumentsNone)))
              && (Detail.IsBinaryAssertion(kind) && |args| == 1 ==>
                    r == Err(CompileError(span, TooFewBinaryArgumentsOne)))
              && (kind == Detail.Assertion(Detail.Assert) && |args| == 0 ==>
                    r == Err(CompileError(span, TooFewUnaryArguments)))
              && (Detail.IsBinaryAssertion(kind) && |args| >= 2 ==> r.Ok? && r.value.Assertion?)
              && (kind == Detail.Assertion(Detail.Assert) && |args| >= 1 ==> r.Ok? && r.value.Assertion?)
  {
    var span := MacroSpan(mac);
    match ParseArguments(mac.tokens)
    case Err(e) => Err(e)
    case Ok(args) =>
      var kind := Detail.InferMacroKindFromPath(mac.path);
      if Detail.IsBinaryAssertion(kind) then
        if |args| == 0 then
          Err(CompileError(span, TooFewBinaryArgumentsNone))
        else if |args| == 1 then
          Err(CompileError(span, TooFewBinaryArgumentsOne))
        else
          var operator := Detail.BinaryOperator(kind, span).value;
          assert [args[0], args[1]] + args[2..] == args;
          Ok(Assertion(New(NewBinary(args[0], operator, args[1]), span, args[2..])))
      else if Detail.IsAssertion(kind) then
        if |args| == 0 then
          Err(CompileError(span, TooFewUnaryArguments))
        else
          assert [args[0]] + args[1..] == args;
          Ok(Assertion(New(NewAssert(args[0]), span, args[1..])))
      else
        Ok(Other(mac))
  }

  /** The value `TryFrom` builds reports the location of the macro it was built from. */
  lemma TryFromKeepsSpan(mac: Macro)
    requires TryFrom(mac).Ok?
    ensures SpanOf(TryFrom(mac).value) == MacroSpan(mac)
  {
  }

  /** `assert!(a == b)` stays a unary assertion on the comparison; it is not turned into `assert_eq!`. */
  lemma UnaryComparisonStaysUnary(mac: Macro, a: Expr, op: BinOp, b: Expr)
    requires Detail.InferMacroKindFromPath(mac.path) == Detail.Assertion(Detail.Assert)
    requires mac.tokens == [ExprToken(a), OpToken(op), ExprToken(b)]
    ensures TryFrom(mac) == Ok(Assertion(AssertionMacro(MacroSpan(mac), [], AssertUnary(Binary(a, op, b)))))
  {
    assert FirstComma(mac.tokens) == 3;
    assert mac.tokens[..3] == mac.tokens;
    assert ParseArguments(mac.tokens) == Ok([Binary(a, op, b)]);
  }

  /**
   * Rewriting an assertion and classifying the replacement again leaves it
   * alone when the replacement path is not an assertion's, so a second pass
   * does not rewrite it twice.
   */
  lemma ReplacementIsNotReclassified(m: AssertionMacro, assert2MacroPath: Path)
    requires Detail.InferMacroKindFromPath(assert2MacroPath) == Detail.Other
    ensures TryFrom(Assert2ifyWith(m, assert2MacroPath)) == Ok(Other(Assert2ifyWith(m, assert2MacroPath)))
  {
  }

  /**
   * Parsing an assertion and emitting its replacement keeps every argument:
   * the replacement's argument list is the original one with the operands
   * of a binary assertion joined by its comparison operator.
   */
  lemma {:induction false} RewriteKeepsArguments(mac: Macro, assert2MacroPath: Path)
    requires TryFrom(mac).Ok? && TryFrom(mac).value.Assertion?
    ensures var args := ParseArguments(mac.tokens).value;
            var kind := Detail.InferMacroKindFromPath(mac.path);
            var out := Assert2ifyWith(TryFrom(mac).value.assertionMacro, assert2MacroPath);
            && out.path == assert2MacroPath
            && MacroSpan(out) == MacroSpan(mac)
            && (Detail.IsBinaryAssertion(kind) ==>
                  ParseArguments(out.tokens)
                    == Ok([Binary(args[0], Detail.BinaryOperator(kind, MacroSpan(mac)).value, args[1])] + args[2..]))
            && (kind == Detail.Assertion(Detail.Assert) ==> ParseArguments(out.tokens) == Ok(args))
  {
    var m := TryFrom(mac).value.assertionMacro;
    var args := ParseArguments(mac.tokens).value;
    assert args == Operands(m.assertion) + m.infoArgs;
    if m.assertion.AssertBinary? {
      assert args[2..] == m.infoArgs;
    } else {
      assert args[1..] == m.infoArgs;
      assert [args[0]] + args[1..] == args;
    }
  }
}
