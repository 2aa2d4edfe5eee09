/**
 * The call-site macros `__xify!`, `__assertify!` and `__checkify!`
 * (src/assertions.rs), modelled as functions from the argument tokens of an
 * invocation to its expansion. A `matches!` invocation used as the condition
 * becomes a `let_assert!` on its patterns, followed by an assertion of its
 * guard; every other argument list is forwarded unchanged.
 */
module CallSiteAssertions {
  import opened Syntax

  /** The arguments of `matches!(expression, p1 | p2 | ... if guard)`. */
  datatype MatchesArguments = MatchesArguments(expression: Expr, patterns: seq<Pat>, guard: Option<Expr>)

  /** An invocation `$crate::assertions::name!(tokens)`. */
  datatype Invocation = Invocation(name: string, tokens: seq<Token>)

  /**
   * What an invocation expands to: a block of statements (first rule of
   * `__xify!`), a single statement (second rule), a `compile_error!`, or no
   * expansion because no rule matches.
   */
  datatype Expansion =
    | Block(statements: seq<Invocation>)
    | Statement(invocation: Invocation)
    | CompileErrorMacro(message: string)
    | NoRuleMatches

  const TooFewArgumentsMessage := "Too few arguments in assertion"
  const LetAssert := "let_assert"
  const AssertName := "assert"
  const CheckName := "check"

  /** `$(::)? $(std::)? matches`: the path of the `matches!` the first rule recognises. */
  predicate IsMatchesPath(path: Path) {
    path.segments == ["matches"] || path.segments == ["std", "matches"]
  }

  /** Whether a token item is a single token tree, as a `tt` fragment needs. */
  predicate IsTokenTree(t: Token) {
    match t
    case ExprToken(e) => e.Atom?
    case PatToken(_) => false
    case _ => true
  }

  /** The tokens of `$($pattern)|+`. */
  function PatternTokens(patterns: seq<Pat>): (ts: seq<Token>)
    ensures |patterns| > 0 <==> |ts| > 0
    ensures |patterns| > 0 ==> ts[0] == PatToken(patterns[0])
  {
    if patterns == [] then []
    else if |patterns| == 1 then [PatToken(patterns[0])]
    else [PatToken(patterns[0]), Pipe] + PatternTokens(patterns[1..])
  }

  /** The tokens of `$( if $guard )?`. */
  function GuardTokens(guard: Option<Expr>): seq<Token> {
    match guard
    case None => []
    case Some(g) => [IfKeyword, ExprToken(g)]
  }

  /** The tokens of `$(, $info_args)*`. */
  function InfoTokens(info: seq<Token>): (ts: seq<Token>)
    ensures |ts| == 2 * |info|
  {
    if info == [] then [] else [Comma, info[0]] + InfoTokens(info[1..])
  }

  /** The body of a `matches!` invocation with the given arguments, with or without a trailing comma. */
  function MatchesBodyTokens(m: MatchesArguments, trailingComma: bool): seq<Token> {
    [ExprToken(m.expression), Comma] + PatternTokens(m.patterns) + GuardTokens(m.guard)
      + (if trailingComma then [Comma] else [])
  }

  /**
   * `$($pattern:pat)|+`: the longest run of patterns separated by `|` at the
   * front of `ts`, and how many tokens it takes.
   */
  function ParsePatterns(ts: seq<Token>): (r: (seq<Pat>, nat))
    ensures r.1 <= |ts|
    ensures ts[..r.1] == PatternTokens(r.0)
  {
    if ts != [] && ts[0].PatToken? then
      if |ts| >= 3 && ts[1] == Pipe && ts[2].PatToken? then
        var rest := ParsePatterns(ts[2..]);
        assert ts[..2 + rest.1] == [ts[0], Pipe] + ts[2..][..rest.1];
        ([ts[0].pat] + rest.0, 2 + rest.1)
      else
        ([ts[0].pat], 1)
    else
      ([], 0)
  }

  /**
   * `$( if $guard:expr )? $(,)?`: what follows the patterns of a `matches!`
   * body, that is nothing, or `if` and a guard, then an optional comma.
   */
  function ParseGuard(ts: seq<Token>): (r: Option<Option<Expr>>)
    ensures r == Some(None) ==> ts == [] || ts == [Comma]
    ensures r.Some? && r.value.Some? ==>
              && |ts| >= 2 && ts[0] == IfKeyword
              && (|| ParseExpr(ts[1..]) == Ok(r.value.value)
                  || (ts[|ts| - 1] == Comma && ParseExpr(ts[1..|ts| - 1]) == Ok(r.value.value)))
  {
    var tail := if ts != [] && ts[|ts| - 1] == Comma then ts[..|ts| - 1] else ts;
    if tail == [] then Some(None)
    else if tail[0] == IfKeyword then
      match ParseExpr(tail[1..])
      case Ok(guard) => Some(Some(guard))
      case Err(_) => None
    else None
  }

  /**
   * The body of `matches!($expression:expr, $($pattern:pat)|+ $(if $guard:expr)? $(,)?)`:
   * an expression up to the first comma, at least one pattern, an optional
   * guard and an optional trailing comma.
   */
  function ParseMatchesBody(body: seq<Token>): (r: Option<MatchesArguments>)
    ensures r.Some? ==> |r.value.patterns| > 0
    ensures r.Some? ==> FirstComma(body) < |body| && ParseExpr(body[..FirstComma(body)]) == Ok(r.value.expression)
    ensures r.Some? ==>
              var rest := body[FirstComma(body) + 1..];
              var n := |PatternTokens(r.value.patterns)|;
              n <= |rest| && rest[..n] == PatternTokens(r.value.patterns) && ParseGuard(rest[n..]) == Some(r.value.guard)
  {
    var i := FirstComma(body);
    if i == |body| then None
    else
      match ParseExpr(body[..i])
      case Err(_) => None
      case Ok(expression) =>
        ParsePatternsAndGuard(expression, body[i + 1..])
  }

  /** What follows the expression and its comma in a `matches!` body: at least one pattern, then the guard part. */
  function ParsePatternsAndGuard(expression: Expr, rest: seq<Token>): (r: Option<MatchesArguments>)
    ensures r.Some? ==> r.value.expression == expression && |r.value.patterns| > 0
    ensures r.Some? ==>
              && |PatternTokens(r.value.patterns)| <= |rest|
              && rest[..|PatternTokens(r.value.patterns)|] == PatternTokens(r.value.patterns)
              && ParseGuard(rest[|PatternTokens(r.value.patterns)|..]) == Some(r.value.guard)
  {
    var patterns := ParsePatterns(rest);
    if patterns.1 == 0 then None
    else
      match ParseGuard(rest[patterns.1..])
      case Some(guard) => Some(MatchesArguments(expression, patterns.0, guard))
      case None => None
  }

  /**
   * `$(, $info_args:tt)* $(,)?`: single token trees each preceded by a comma,
   * with an optional trailing comma. It accepts exactly the printed forms.
   */
  function InfoArguments(ts: seq<Token>): (r: Option<seq<Token>>)
    ensures r.Some? ==> forall k :: 0 <= k < |r.value| ==> IsTokenTree(r.value[k])
    ensures r.Some? ==> ts == InfoTokens(r.value) || ts == InfoTokens(r.value) + [Comma]
  {
    if ts == [] || ts == [Comma] then Some([])
    else if |ts| >= 2 && ts[0] == Comma && IsTokenTree(ts[1]) then
      match InfoArguments(ts[2..])
      case Some(rest) =>
        assert InfoTokens([ts[1]] + rest) == [Comma, ts[1]] + InfoTokens(rest) by {
          assert ([ts[1]] + rest)[1..] == rest;
        }
        assert ts == [Comma, ts[1]] + ts[2..];
        Some([ts[1]] + rest)
      case None => None
    else None
  }

  /**
   * The first rule of `__xify!`: the arguments start with a parenthesised
   * `matches!` invocation whose body parses, followed by token-tree info
   * arguments. Yields the `matches!` arguments and the info arguments.
   */
  function MatchesForm(args: seq<Token>): (r: Option<(MatchesArguments, seq<Token>)>)
    ensures r.Some? ==> args != [] && args[0].ExprToken? && args[0].expr.MacroExpr?
    ensures r.Some? ==> |r.value.0.patterns| > 0
    ensures r.Some? ==> InfoArguments(args[1..]) == Some(r.value.1)
    ensures r.Some? ==>
              var node := args[0].expr.node;
              && node.attrs == [] && IsMatchesPath(node.mac.path) && node.mac.delimiter.Paren?
              && ParseMatchesBody(node.mac.tokens) == Some(r.value.0)
              && (args[1..] == InfoTokens(r.value.1) || args[1..] == InfoTokens(r.value.1) + [Comma])
              && forall k :: 0 <= k < |r.value.1| ==> IsTokenTree(r.value.1[k])
  {
    if args != [] && args[0].ExprToken? && args[0].expr.MacroExpr? then
      var node := args[0].expr.node;
      if node.attrs == [] && IsMatchesPath(node.mac.path) && node.mac.delimiter.Paren? then
        match ParseMatchesBody(node.mac.tokens)
        case Some(m) =>
          (match InfoArguments(args[1..])
           case Some(info) => Some((m, info))
           case None => None)
        case None => None
      else None
    else None
  }

  /** The arguments of the emitted `let_assert!($($pattern)|+ = $expression $(,$info_args)*)`. */
  function LetAssertTokens(m: MatchesArguments, info: seq<Token>): seq<Token> {
    PatternTokens(m.patterns) + [EqualsSign, ExprToken(m.expression)] + InfoTokens(info)
  }

  /**
   * `__xify!(new_assertion = newAssertion, args...)`. A `matches!` condition
   * becomes a block: `let_assert!` on its patterns with the info arguments,
   * then `newAssertion!` on the guard when there is one. Any other non-empty
   * argument list is passed to `newAssertion!` unchanged.
   */
  function Xify(newAssertion: string, args: seq<Token>): (r: Expansion)
    ensures args == [] ==> r == NoRuleMatches
    ensures args != [] && MatchesForm(args).None? ==> r == Statement(Invocation(newAssertion, args))
    ensures MatchesForm(args).Some? ==>
              var m := MatchesForm(args).value.0;
              var info := MatchesForm(args).value.1;
              && r.Block?
              && |r.statements| == (if m.guard.Some? then 2 else 1)
              && r.statements[0] == Invocation(LetAssert, LetAssertTokens(m, info))
              && (m.guard.Some? ==> r.statements[1] == Invocation(newAssertion, [ExprToken(m.guard.value)]))
  {
    match MatchesForm(args)
    case Some((m, info)) =>
      var guardStatement := if m.guard.Some? then [Invocation(newAssertion, [ExprToken(m.guard.value)])] else [];
      Block([Invocation(LetAssert, LetAssertTokens(m, info))] + guardStatement)
    case None =>
      if args == [] then NoRuleMatches else Statement(Invocation(newAssertion, args))
  }

  /** `__assertify!`: no arguments is a compile error; otherwise `__xify!` with `assert`. */
  function Assertify(args: seq<Token>): (r: Expansion)
    ensures args == [] <==> r == CompileErrorMacro(TooFewArgumentsMessage)
    ensures args != [] ==> r == Xify(AssertName, args)
  {
    if args == [] then CompileErrorMacro(TooFewArgumentsMessage) else Xify(AssertName, args)
  }

  /** `__checkify!`: no arguments is a compile error; otherwise `__xify!` with `check`. */
  function Checkify(args: seq<Token>): (r: Expansion)
    ensures args == [] <==> r == CompileErrorMacro(TooFewArgumentsMessage)
    ensures args != [] ==> r == Xify(CheckName, args)
  {
    if args == [] then CompileErrorMacro(TooFewArgumentsMessage) else Xify(CheckName, args)
  }

  /** An expansion with every invocation of the new assertion renamed to `name`; `let_assert!` is kept. */
  function WithAssertion(x: Expansion, name: string): Expansion {
    match x
    case Block(statements) =>
      Block(seq(|statements|, k requires 0 <= k < |statements| =>
        if statements[k].name == LetAssert then statements[k] else Invocation(name, statements[k].tokens)))
    case Statement(invocation) => Statement(Invocation(name, invocation.tokens))
    case _ => x
  }

  /** `__checkify!` expands exactly like `__assertify!`, with `check!` in place of `assert!`. */
  lemma CheckifyIsAssertifyWithCheck(args: seq<Token>)
    ensures Checkify(args) == WithAssertion(Assertify(args), CheckName)
  {
  }

  /** Printing patterns in front of a token run that does not continue them, and parsing them back. */
  lemma {:induction false} ParsePatternTokens(patterns: seq<Pat>, rest: seq<Token>)
    requires |patterns| > 0
    requires rest == [] || rest[0] != Pipe
    ensures ParsePatterns(PatternTokens(patterns) + rest).0 == patterns
    ensures ParsePatterns(PatternTokens(patterns) + rest).1 == |PatternTokens(patterns)|
  {
    if |patterns| == 1 {
      assert PatternTokens(patterns) + rest == [PatToken(patterns[0])] + rest;
      assert [patterns[0]] == patterns;
    } else {
      var tailTokens := PatternTokens(patterns[1..]);
      var ts := PatternTokens(patterns) + rest;
      assert PatternTokens(patterns) == [PatToken(patterns[0]), Pipe] + tailTokens;
      assert ts == [PatToken(patterns[0]), Pipe] + (tailTokens + rest);
      assert ts[2..] == tailTokens + rest;
      assert |ts| >= 3 && ts[0].PatToken? && ts[1] == Pipe && ts[2] == tailTokens[0] && ts[2].PatToken?;
      ParsePatternTokens(patterns[1..], rest);
      assert ts[0].pat == patterns[0];
      assert ParsePatterns(ts).0 == [ts[0].pat] + ParsePatterns(ts[2..]).0;
      assert [patterns[0]] + patterns[1..] == patterns;
    }
  }

  /** A guard, printed with or without a trailing comma, parses back. */
  lemma ParseGuardTokens(guard: Option<Expr>, trailingComma: bool)
    ensures ParseGuard(GuardTokens(guard) + (if trailingComma then [Comma] else [])) == Some(guard)
  {
    var ts := GuardTokens(guard) + (if trailingComma then [Comma] else []);
    var tail := if ts != [] && ts[|ts| - 1] == Comma then ts[..|ts| - 1] else ts;
    assert tail == GuardTokens(guard);
    if guard.Some? {
      assert tail[1..] == [ExprToken(guard.value)];
    }
  }

  /** The body of a `matches!` invocation parses back to its arguments. */
  lemma ParseMatchesBodyTokens(m: MatchesArguments, trailingComma: bool)
    requires |m.patterns| > 0
    ensures ParseMatchesBody(MatchesBodyTokens(m, trailingComma)) == Some(m)
  {
    var suffix := GuardTokens(m.guard) + (if trailingComma then [Comma] else []);
    var rest := PatternTokens(m.patterns) + suffix;
    assert MatchesBodyTokens(m, trailingComma) == [ExprToken(m.expression), Comma] + rest;
    assert suffix == [] || suffix[0] != Pipe;
    ParsePatternTokens(m.patterns, suffix);
    assert rest[|PatternTokens(m.patterns)|..] == suffix;
    ParseGuardTokens(m.guard, trailingComma);
    ParseMatchesBodyOfParts(m.expression, rest);
  }

  /** A token run without a binary operator token. */
  predicate NoOperator(ts: seq<Token>) {
    forall t :: t in ts ==> !t.OpToken?
  }

  /** An expression read from a run without operator tokens was written as one token item. */
  lemma SingleTokenExpression(ts: seq<Token>)
    requires ParseExpr(ts).Ok? && NoOperator(ts)
    ensures ts == [ExprToken(ParseExpr(ts).value)]
  {
  }

  /** An accepted guard part without operator tokens is a printed guard, with or without a trailing comma. */
  lemma AcceptedGuardIsPrinted(ts: seq<Token>)
    requires ParseGuard(ts).Some? && NoOperator(ts)
    ensures ts == GuardTokens(ParseGuard(ts).value) || ts == GuardTokens(ParseGuard(ts).value) + [Comma]
  {
    var guard := ParseGuard(ts).value;
    if guard.Some? {
      var tail := if ts[|ts| - 1] == Comma then ts[..|ts| - 1] else ts;
      assert tail[1..] == ts[1..|tail|];
      SingleTokenExpression(tail[1..]);
      assert tail == [IfKeyword] + tail[1..];
      assert ts == tail || ts == tail + [Comma];
    }
  }

  /**
   * The converse of `ParseMatchesBodyTokens`: a body the first rule accepts,
   * written without binary operators, is the printed body of the arguments it
   * yields, with or without a trailing comma.
   */
  lemma AcceptedMatchesBodyIsPrinted(body: seq<Token>)
    requires ParseMatchesBody(body).Some? && NoOperator(body)
    ensures var m := ParseMatchesBody(body).value;
            body == MatchesBodyTokens(m, false) || body == MatchesBodyTokens(m, true)
  {
    var m := ParseMatchesBody(body).value;
    var i := FirstComma(body);
    var rest := body[i + 1..];
    var n := |PatternTokens(m.patterns)|;
    var guardPart := rest[n..];
    NoOperatorSlice(body, 0, i);
    SingleTokenExpression(body[..i]);
    NoOperatorSlice(body, i + 1 + n, |body|);
    assert guardPart == body[i + 1 + n..|body|];
    AcceptedGuardIsPrinted(guardPart);
    assert rest == PatternTokens(m.patterns) + guardPart;
    assert body == [ExprToken(m.expression), Comma] + rest by {
      assert body == body[..i] + [body[i]] + rest;
    }
    MatchesBodyOfParts(m, guardPart);
  }

  /** Any slice of a run without operator tokens has none either. */
  lemma NoOperatorSlice(ts: seq<Token>, a: nat, b: nat)
    requires NoOperator(ts) && a <= b <= |ts|
    ensures NoOperator(ts[a..b])
  {
    forall k | 0 <= k < b - a
      ensures !ts[a..b][k].OpToken?
    {
      assert ts[a..b][k] == ts[a + k];
    }
  }

  /** A body assembled from an expression, a comma, printed patterns and a printed guard part is a printed body. */
  lemma MatchesBodyOfParts(m: MatchesArguments, guardPart: seq<Token>)
    requires guardPart == GuardTokens(m.guard) || guardPart == GuardTokens(m.guard) + [Comma]
    ensures var body := [ExprToken(m.expression), Comma] + (PatternTokens(m.patterns) + guardPart);
            body == MatchesBodyTokens(m, false) || body == MatchesBodyTokens(m, true)
  {
    var head := [ExprToken(m.expression), Comma] + PatternTokens(m.patterns);
    assert MatchesBodyTokens(m, false) == head + GuardTokens(m.guard) + [];
    assert MatchesBodyTokens(m, true) == head + GuardTokens(m.guard) + [Comma];
  }

  /** A `matches!` body is parsed piece by piece: expression, comma, then patterns and guard. */
  lemma ParseMatchesBodyOfParts(expression: Expr, rest: seq<Token>)
    ensures ParseMatchesBody([ExprToken(expression), Comma] + rest) == ParsePatternsAndGuard(expression, rest)
  {
    var body := [ExprToken(expression), Comma] + rest;
    assert body == [ExprToken(expression)] + ([Comma] + rest);
    FirstCommaAfter([ExprToken(expression)], [Comma] + rest);
    assert body[..1] == [ExprToken(expression)];
    assert body[2..] == rest;
  }

  /** Token-tree info arguments, printed with or without a trailing comma, parse back. */
  lemma {:induction false} InfoArgumentsOfInfoTokens(info: seq<Token>, trailingComma: bool)
    requires forall k :: 0 <= k < |info| ==> IsTokenTree(info[k])
    ensures InfoArguments(InfoTokens(info) + (if trailingComma then [Comma] else [])) == Some(info)
  {
    if info != [] {
      var tail := if trailingComma then [Comma] else [];
      var ts := InfoTokens(info) + tail;
      assert ts == [Comma, info[0]] + (InfoTokens(info[1..]) + tail);
      assert ts[2..] == InfoTokens(info[1..]) + tail;
      InfoArgumentsOfInfoTokens(info[1..], trailingComma);
      assert [info[0]] + info[1..] == info;
    } else {
      assert InfoTokens(info) + (if trailingComma then [Comma] else []) == (if trailingComma then [Comma] else []);
    }
  }

  /** The tokens of `$(::)? $(std::)? matches!(body) $(, info)* $(,)?` as the first rule reads them. */
  function MatchesCallTokens(path: Path, bang: Span, open: Span, m: MatchesArguments, info: seq<Token>,
                             innerComma: bool, outerComma: bool): seq<Token> {
    [ExprToken(MacroExpr(ExprMacro([], Macro(path, bang, Paren(open), MatchesBodyTokens(m, innerComma)))))]
      + InfoTokens(info) + (if outerComma then [Comma] else [])
  }

  /**
   * The block the first rule of `__xify!` produces for `matches!(e, p1 | ... | pn if g), i1, ..., ik`:
   * `{ let_assert!(p1 | ... | pn = e, i1, ..., ik); newAssertion!(g); }`,
   * the second statement present exactly when there is a guard.
   */
  function MatchesExpansion(newAssertion: string, m: MatchesArguments, info: seq<Token>): Expansion {
    var letAssert := Invocation(LetAssert, PatternTokens(m.patterns) + [EqualsSign, ExprToken(m.expression)] + InfoTokens(info));
    if m.guard.Some? then Block([letAssert, Invocation(newAssertion, [ExprToken(m.guard.value)])])
    else Block([letAssert])
  }

  /** A `matches!` condition with token-tree info arguments expands to `MatchesExpansion`. */
  lemma XifyOfMatches(newAssertion: string, path: Path, bang: Span, open: Span, m: MatchesArguments,
                      info: seq<Token>, innerComma: bool, outerComma: bool)
    requires IsMatchesPath(path) && |m.patterns| > 0
    requires forall k :: 0 <= k < |info| ==> IsTokenTree(info[k])
    ensures Xify(newAssertion, MatchesCallTokens(path, bang, open, m, info, innerComma, outerComma))
              == MatchesExpansion(newAssertion, m, info)
  {
    var args := MatchesCallTokens(path, bang, open, m, info, innerComma, outerComma);
    MatchesFormOfCall(path, bang, open, m, info, innerComma, outerComma);
    var x := Xify(newAssertion, args);
    var letAssert := Invocation(LetAssert, LetAssertTokens(m, info));
    if m.guard.Some? {
      assert x.statements == [letAssert, Invocation(newAssertion, [ExprToken(m.guard.value)])];
    } else {
      assert x.statements == [letAssert];
    }
  }

  /** `__assertify!` and `__checkify!` on a `matches!` condition: the block with `assert!`, respectively `check!`. */
  lemma AssertifyAndCheckifyOfMatches(path: Path, bang: Span, open: Span, m: MatchesArguments,
                                      info: seq<Token>, innerComma: bool, outerComma: bool)
    requires IsMatchesPath(path) && |m.patterns| > 0
    requires forall k :: 0 <= k < |info| ==> IsTokenTree(info[k])
    ensures Assertify(MatchesCallTokens(path, bang, open, m, info, innerComma, outerComma))
              == MatchesExpansion(AssertName, m, info)
    ensures Checkify(MatchesCallTokens(path, bang, open, m, info, innerComma, outerComma))
              == MatchesExpansion(CheckName, m, info)
  {
    XifyOfMatches(AssertName, path, bang, open, m, info, innerComma, outerComma);
    XifyOfMatches(CheckName, path, bang, open, m, info, innerComma, outerComma);
  }

  /** The first rule of `__xify!` recognises a printed `matches!` call and recovers its parts. */
  lemma MatchesFormOfCall(path: Path, bang: Span, open: Span, m: MatchesArguments,
                          info: seq<Token>, innerComma: bool, outerComma: bool)
    requires IsMatchesPath(path) && |m.patterns| > 0
    requires forall k :: 0 <= k < |info| ==> IsTokenTree(info[k])
    ensures MatchesForm(MatchesCallTokens(path, bang, open, m, info, innerComma, outerComma)) == Some((m, info))
  {
    var node := ExprMacro([], Macro(path, bang, Paren(open), MatchesBodyTokens(m, innerComma)));
    var rest := InfoTokens(info) + (if outerComma then [Comma] else []);
    assert MatchesCallTokens(path, bang, open, m, info, innerComma, outerComma) == [ExprToken(MacroExpr(node))] + rest;
    ParseMatchesBodyTokens(m, innerComma);
    InfoArgumentsOfInfoTokens(info, outerComma);
    MatchesFormOfParts(node, rest, m, info);
  }

  /**
   * The converse of `MatchesFormOfCall`: arguments the first rule accepts,
   * with a `matches!` body written without binary operators, are the printed
   * call of the `matches!` arguments and info arguments it yields.
   */
  lemma AcceptedMatchesCallIsPrinted(args: seq<Token>)
    requires MatchesForm(args).Some?
    requires args[0].ExprToken? && args[0].expr.MacroExpr? && NoOperator(args[0].expr.node.mac.tokens)
    ensures var mac := args[0].expr.node.mac;
            exists innerComma: bool, outerComma: bool ::
              args == MatchesCallTokens(mac.path, mac.bang, mac.delimiter.span, MatchesForm(args).value.0,
                                        MatchesForm(args).value.1, innerComma, outerComma)
  {
    var r := MatchesForm(args).value;
    assert args == [ExprToken(MacroExpr(args[0].expr.node))] + args[1..];
    PrintedCallOfAcceptedParts(args[0].expr.node, args[1..], r.0, r.1);
  }

  /** A `matches!` node and info tokens the first rule accepts, with an operator-free body, form a printed call. */
  lemma PrintedCallOfAcceptedParts(node: ExprMacro, rest: seq<Token>, m: MatchesArguments, info: seq<Token>)
    requires node.attrs == [] && node.mac.delimiter.Paren?
    requires ParseMatchesBody(node.mac.tokens) == Some(m) && NoOperator(node.mac.tokens)
    requires rest == InfoTokens(info) || rest == InfoTokens(info) + [Comma]
    ensures exists innerComma: bool, outerComma: bool ::
              [ExprToken(MacroExpr(node))] + rest
                == MatchesCallTokens(node.mac.path, node.mac.bang, node.mac.delimiter.span, m, info, innerComma, outerComma)
  {
    AcceptedMatchesBodyIsPrinted(node.mac.tokens);
    var innerComma := node.mac.tokens == MatchesBodyTokens(m, true);
    var outerComma := rest != InfoTokens(info);
    CallOfParts(node, rest, m, info, innerComma, outerComma);
  }

  /** An accepted `matches!` node followed by printed info arguments is a printed call. */
  lemma CallOfParts(node: ExprMacro, rest: seq<Token>, m: MatchesArguments, info: seq<Token>,
                    innerComma: bool, outerComma: bool)
    requires node.attrs == [] && node.mac.delimiter.Paren?
    requires node.mac.tokens == MatchesBodyTokens(m, innerComma)
    requires rest == InfoTokens(info) + (if outerComma then [Comma] else [])
    ensures [ExprToken(MacroExpr(node))] + rest
              == MatchesCallTokens(node.mac.path, node.mac.bang, node.mac.delimiter.span, m, info, innerComma, outerComma)
  {
    assert node == ExprMacro([], Macro(node.mac.path, node.mac.bang, Paren(node.mac.delimiter.span),
                                       MatchesBodyTokens(m, innerComma)));
  }

  /** The first rule applies when the `matches!` body and the info arguments both match. */
  lemma MatchesFormOfParts(node: ExprMacro, rest: seq<Token>, m: MatchesArguments, info: seq<Token>)
    requires node.attrs == [] && IsMatchesPath(node.mac.path) && node.mac.delimiter.Paren?
    requires ParseMatchesBody(node.mac.tokens) == Some(m)
    requires InfoArguments(rest) == Some(info)
    ensures MatchesForm([ExprToken(MacroExpr(node))] + rest) == Some((m, info))
  {
    assert ([ExprToken(MacroExpr(node))] + rest)[1..] == rest;
  }

  /**
   * When an info argument after `matches!(...)` is not a single token tree,
   * the first rule does not apply and the whole argument list goes to the
   * new assertion unchanged.
   */
  lemma NonTokenTreeInfoFallsBack(newAssertion: string, path: Path, bang: Span, open: Span, m: MatchesArguments,
                                  info: seq<Token>, innerComma: bool, outerComma: bool, k: nat)
    requires k < |info| && !IsTokenTree(info[k])
    ensures var args := MatchesCallTokens(path, bang, open, m, info, innerComma, outerComma);
            Xify(newAssertion, args) == Statement(Invocation(newAssertion, args))
  {
    var args := MatchesCallTokens(path, bang, open, m, info, innerComma, outerComma);
    assert args[1..] == InfoTokens(info) + (if outerComma then [Comma] else []);
    InfoArgumentsRejectsNonTokenTree(info, outerComma, k);
  }

  /** The info-argument matcher fails on a list holding something that is not a single token tree. */
  lemma {:induction false} InfoArgumentsRejectsNonTokenTree(info: seq<Token>, trailingComma: bool, k: nat)
    requires k < |info| && !IsTokenTree(info[k])
    ensures InfoArguments(InfoTokens(info) + (if trailingComma then [Comma] else [])).None?
  {
    var tail := if trailingComma then [Comma] else [];
    var ts := InfoTokens(info) + tail;
    assert ts == [Comma, info[0]] + (InfoTokens(info[1..]) + tail);
    if k > 0 {
      assert ts[2..] == InfoTokens(info[1..]) + tail;
      InfoArgumentsRejectsNonTokenTree(info[1..], trailingComma, k - 1);
    }
  }
}
