/**
 * The proc-macro rewrite and the call-site expansion composed: an assertion
 * is parsed, re-emitted as an invocation of the `__assertify!` macro, and
 * that invocation is expanded by its `macro_rules` definition.
 */
module EndToEnd {
  import opened Syntax
  import Detail
  import opened ParsedAssertion
  import opened AssertionMacros
  import opened MacroExpressions
  import CallSiteAssertions

  /** Each message argument as one token item. */
  function ExprTokens(args: seq<Expr>): (ts: seq<Token>)
    ensures |ts| == |args|
    ensures forall k :: 0 <= k < |args| ==> ts[k] == ExprToken(args[k])
  {
    if args == [] then [] else [ExprToken(args[0])] + ExprTokens(args[1..])
  }

  /**
   * The message arguments as `#head, #(#args),*` leaves them after the
   * condition: each preceded by a comma, and a lone comma when there are none.
   */
  lemma {:induction false} CommaSeparatedAsInfo(args: seq<Expr>)
    ensures [Comma] + CommaSeparated(args)
              == CallSiteAssertions.InfoTokens(ExprTokens(args)) + (if args == [] then [Comma] else [])
  {
    if |args| == 1 {
      assert ExprTokens(args) == [ExprToken(args[0])];
      assert ExprTokens(args)[1..] == [];
    } else if |args| > 1 {
      CommaSeparatedAsInfo(args[1..]);
      var rest := CallSiteAssertions.InfoTokens(ExprTokens(args[1..]));
      assert [Comma] + CommaSeparated(args) == [Comma, ExprToken(args[0])] + ([Comma] + CommaSeparated(args[1..]));
      assert ExprTokens(args)[1..] == ExprTokens(args[1..]);
      assert CallSiteAssertions.InfoTokens(ExprTokens(args)) == [Comma, ExprToken(args[0])] + rest;
    }
  }

  /**
   * `assert_eq!(a, b, info...)` or `assert_ne!(a, b, info...)` becomes a
   * single `assert!` of the comparison, with the message arguments following
   * it unchanged.
   */
  lemma BinaryAssertionEndToEnd(mac: Macro, assertifyPath: Path)
    requires Detail.IsBinaryAssertion(Detail.InferMacroKindFromPath(mac.path))
    requires ParseArguments(mac.tokens).Ok? && |ParseArguments(mac.tokens).value| >= 2
    ensures TryFrom(mac).Ok? && TryFrom(mac).value.Assertion?
    ensures var out := Assert2ifyWith(TryFrom(mac).value.assertionMacro, assertifyPath);
            var args := ParseArguments(mac.tokens).value;
            var op := Detail.BinaryOperator(Detail.InferMacroKindFromPath(mac.path), MacroSpan(mac)).value;
            && CallSiteAssertions.Assertify(out.tokens) == CallSiteAssertions.Statement(CallSiteAssertions.Invocation(CallSiteAssertions.AssertName, out.tokens))
            && ParseArguments(out.tokens) == Ok([Binary(args[0], op, args[1])] + args[2..])
  {
    RewriteKeepsArguments(mac, assertifyPath);
    var out := Assert2ifyWith(TryFrom(mac).value.assertionMacro, assertifyPath);
    assert out.tokens[1].OpToken?;
  }

  /**
   * `assert!(e, info...)` is parsed as a unary assertion of its first
   * argument, located at the original `!`, with the rest as message
   * arguments.
   */
  lemma UnaryAssertionParsed(mac: Macro)
    requires Detail.InferMacroKindFromPath(mac.path) == Detail.Assertion(Detail.Assert)
    requires ParseArguments(mac.tokens).Ok? && |ParseArguments(mac.tokens).value| >= 1
    ensures var args := ParseArguments(mac.tokens).value;
            TryFrom(mac) == Ok(Assertion(AssertionMacro(MacroSpan(mac), args[1..], AssertUnary(args[0]))))
  {
    var a := TryFrom(mac).value.assertionMacro;
    var args := ParseArguments(mac.tokens).value;
    assert !a.assertion.AssertBinary?;
    assert args == [a.assertion.expr] + a.infoArgs;
    assert a.infoArgs == args[1..];
  }

  /**
   * `assert!(matches!(e, p1 | ... | pn if g), i1, ..., ik)` whose message
   * arguments are single token trees becomes the block
   * `{ let_assert!(p1 | ... | pn = e, i1, ..., ik); assert!(g); }`, with the
   * guard assertion present exactly when there is a guard; `__checkify!`
   * expands the same with `check!`.
   */
  lemma MatchesAssertionEndToEnd(mac: Macro, assertifyPath: Path, matchesPath: Path, bang: Span, open: Span,
                                 m: CallSiteAssertions.MatchesArguments, innerComma: bool, info: seq<Expr>)
    requires Detail.InferMacroKindFromPath(mac.path) == Detail.Assertion(Detail.Assert)
    requires CallSiteAssertions.IsMatchesPath(matchesPath) && |m.patterns| > 0
    requires forall k :: 0 <= k < |info| ==> info[k].Atom?
    requires ParseArguments(mac.tokens)
               == Ok([MacroExpr(ExprMacro([], Macro(matchesPath, bang, Paren(open),
                                                    CallSiteAssertions.MatchesBodyTokens(m, innerComma))))] + info)
    ensures TryFrom(mac).Ok? && TryFrom(mac).value.Assertion?
    ensures var out := Assert2ifyWith(TryFrom(mac).value.assertionMacro, assertifyPath);
            && CallSiteAssertions.Assertify(out.tokens) == CallSiteAssertions.MatchesExpansion(CallSiteAssertions.AssertName, m, ExprTokens(info))
            && CallSiteAssertions.Checkify(out.tokens) == CallSiteAssertions.MatchesExpansion(CallSiteAssertions.CheckName, m, ExprTokens(info))
  {
    var infoTokens := ExprTokens(info);
    forall k | 0 <= k < |infoTokens|
      ensures CallSiteAssertions.IsTokenTree(infoTokens[k])
    {
      assert infoTokens[k] == ExprToken(info[k]);
    }
    RewrittenMatchesTokens(mac, assertifyPath, matchesPath, bang, open, m, innerComma, info);
    CallSiteAssertions.AssertifyAndCheckifyOfMatches(matchesPath, bang, open, m, infoTokens, innerComma, info == []);
  }

  /** The rewritten `assert!(matches!(...), info...)` hands `__assertify!` the `matches!` call followed by the message arguments. */
  lemma RewrittenMatchesTokens(mac: Macro, assertifyPath: Path, matchesPath: Path, bang: Span, open: Span,
                               m: CallSiteAssertions.MatchesArguments, innerComma: bool, info: seq<Expr>)
    requires Detail.InferMacroKindFromPath(mac.path) == Detail.Assertion(Detail.Assert)
    requires ParseArguments(mac.tokens)
               == Ok([MacroExpr(ExprMacro([], Macro(matchesPath, bang, Paren(open),
                                                    CallSiteAssertions.MatchesBodyTokens(m, innerComma))))] + info)
    ensures TryFrom(mac).Ok? && TryFrom(mac).value.Assertion?
    ensures Assert2ifyWith(TryFrom(mac).value.assertionMacro, assertifyPath).tokens
              == CallSiteAssertions.MatchesCallTokens(matchesPath, bang, open, m, ExprTokens(info), innerComma, info == [])
  {
    var args := ParseArguments(mac.tokens).value;
    assert args[1..] == info;
    UnaryAssertionParsed(mac);
    UnaryRewriteTokens(TryFrom(mac).value.assertionMacro, assertifyPath);
  }

  /** A unary assertion is handed on as its condition followed by its message arguments. */
  lemma UnaryRewriteTokens(a: AssertionMacro, assertifyPath: Path)
    requires a.assertion.AssertUnary?
    ensures Assert2ifyWith(a, assertifyPath).tokens
              == [ExprToken(a.assertion.expr)] + CallSiteAssertions.InfoTokens(ExprTokens(a.infoArgs))
                 + (if a.infoArgs == [] then [Comma] else [])
  {
    assert ConditionTokens(a.assertion) == [ExprToken(a.assertion.expr)];
    ArgumentTokensAsInfo([ExprToken(a.assertion.expr)], a.infoArgs);
  }

  /** `#head, #(#args),*` is the head followed by the arguments in the form the info matcher reads. */
  lemma ArgumentTokensAsInfo(head: seq<Token>, args: seq<Expr>)
    ensures ArgumentTokens(head, args)
              == head + CallSiteAssertions.InfoTokens(ExprTokens(args)) + (if args == [] then [Comma] else [])
  {
    assert ArgumentTokens(head, args) == head + ([Comma] + CommaSeparated(args));
    CommaSeparatedAsInfo(args);
  }
}
