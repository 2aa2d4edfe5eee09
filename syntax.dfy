/**
 * The syntax-tree values the assertion rewriter reads and builds, reduced to
 * what the rewriter looks at: macro paths, macro bodies as token sequences,
 * binary operators, and an expression tree with macro-invocation nodes.
 *
 * A macro body is a sequence of abstract token items. A whole expression that
 * is interpolated into a body counts as one `ExprToken`, so that parsing a body
 * back into a comma-separated expression list can be stated exactly.
 */
module Syntax {

  datatype Option<T> = None | Some(value: T)

  /** An opaque source location. The rewriter only ever copies it. */
  datatype Span = Span(location: nat)

  /** A path such as `::std::assert_eq`: the leading `::` flag and the identifier of each segment. */
  datatype Path = Path(leadingColon: bool, segments: seq<string>)

  /** A binary operator token; `Eq` is `==`, `Ne` is `!=`. */
  datatype BinOp = Eq(span: Span) | Ne(span: Span) | OtherOp(symbol: string, span: Span)

  /** An outer attribute `#[...]`, carried around unchanged. */
  datatype Attribute = Attribute(id: nat)

  /** A pattern, opaque to the rewriter. */
  datatype Pat = Pat(id: nat)

  datatype MacroDelimiter = Paren(span: Span) | Brace(span: Span) | Bracket(span: Span)

  /**
   * Expressions. `Atom` is an expression written as a single token tree (a
   * literal, an identifier, a parenthesised group); `Compound` stands for every
   * other expression form (calls, blocks, loops, closures, ...), whose
   * sub-expressions are its children; `MacroExpr` is a macro invocation.
   */
  datatype Expr =
    | Atom(id: nat)
    | Binary(lhs: Expr, op: BinOp, rhs: Expr)
    | Compound(kind: nat, children: seq<Expr>)
    | MacroExpr(node: ExprMacro)

  /** A macro invocation in expression position, with its outer attributes. */
  datatype ExprMacro = ExprMacro(attrs: seq<Attribute>, mac: Macro)

  /**
   * A macro invocation `path!(tokens)`. `bang` is the single location the
   * model gives the invocation; every rewrite copies it.
   */
  datatype Macro = Macro(path: Path, bang: Span, delimiter: MacroDelimiter, tokens: seq<Token>)

  datatype Token =
    | ExprToken(expr: Expr)
    | OpToken(op: BinOp)
    | Comma
    | Pipe
    | IfKeyword
    | EqualsSign
    | PatToken(pat: Pat)
    | OtherToken(id: nat)

  /** A `syn::Error`: either a failed parse of a macro body, or an error raised at a location. */
  datatype Error = ParseError | CompileError(span: Span, message: string)

  datatype Result<T> = Ok(value: T) | Err(error: Error)

  /**
   * The location of a macro invocation. syn's `Spanned::span` starts at the
   * first token; the model uses one opaque location per invocation instead.
   */
  function MacroSpan(mac: Macro): Span {
    mac.bang
  }

  /** The location of a macro invocation in expression position. */
  function ExprMacroSpan(node: ExprMacro): Span {
    MacroSpan(node.mac)
  }

  /** A token sequence without a top-level comma. */
  predicate NoComma(ts: seq<Token>) {
    forall k :: 0 <= k < |ts| ==> ts[k] != Comma
  }

  /** Index of the first comma in `ts`, or `|ts|` when there is none. */
  function FirstComma(ts: seq<Token>): (i: nat)
    ensures i <= |ts|
    ensures NoComma(ts[..i])
    ensures i < |ts| ==> ts[i] == Comma
  {
    if ts == [] || ts[0] == Comma then 0 else 1 + FirstComma(ts[1..])
  }

  /**
   * Parses one expression from a comma-free token run: a single expression
   * token, or two expression tokens joined by a binary operator.
   */
  function ParseExpr(ts: seq<Token>): (r: Result<Expr>)
    ensures r.Ok? ==> NoComma(ts)
    ensures r.Ok? && |ts| == 1 ==> ts == [ExprToken(r.value)]
  {
    if |ts| == 1 && ts[0].ExprToken? then
      Ok(ts[0].expr)
    else if |ts| == 3 && ts[0].ExprToken? && ts[1].OpToken? && ts[2].ExprToken? then
      Ok(Binary(ts[0].expr, ts[1].op, ts[2].expr))
    else
      Err(ParseError)
  }

  /**
   * `parse_body_with(Punctuated::<Expr, Token![,]>::parse_terminated)`: a
   * comma-separated list of expressions with an optional trailing comma.
   */
  function ParseArguments(ts: seq<Token>): (r: Result<seq<Expr>>)
    ensures ts == [] ==> r == Ok([])
    ensures ts != [] && ParseExpr(ts[..FirstComma(ts)]).Err? ==> r.Err?
    ensures r.Ok? && ts != [] ==> |r.value| >= 1 && ParseExpr(ts[..FirstComma(ts)]) == Ok(r.value[0])
    ensures r.Ok? ==> |r.value| <= |ts|
    decreases |ts|
  {
    if ts == [] then
      Ok([])
    else
      var i := FirstComma(ts);
      match ParseExpr(ts[..i])
      case Err(e) => Err(e)
      case Ok(e) =>
        if i == |ts| then Ok([e])
        else
          match ParseArguments(ts[i + 1..])
          case Err(err) => Err(err)
          case Ok(rest) => Ok([e] + rest)
  }

  /** The tokens `quote!` produces for `#(#args),*`. */
  function CommaSeparated(args: seq<Expr>): (ts: seq<Token>)
    ensures |args| == 0 <==> ts == []
  {
    if args == [] then []
    else if |args| == 1 then [ExprToken(args[0])]
    else [ExprToken(args[0]), Comma] + CommaSeparated(args[1..])
  }

  /** The tokens of `#head, #(#args),*`: a leading item, a comma, then the remaining arguments. */
  function ArgumentTokens(head: seq<Token>, args: seq<Expr>): seq<Token> {
    head + [Comma] + CommaSeparated(args)
  }

  /** Printing a list of expressions and parsing it back gives the list. */
  lemma {:induction false} ParseCommaSeparated(args: seq<Expr>)
    ensures ParseArguments(CommaSeparated(args)) == Ok(args)
  {
    if |args| == 1 {
      var ts := [ExprToken(args[0])];
      assert CommaSeparated(args) == ts;
      assert FirstComma(ts) == 1 && ts[..1] == ts;
      assert ParseExpr(ts) == Ok(args[0]);
      assert [args[0]] == args;
    } else if |args| > 1 {
      var ts := CommaSeparated(args);
      assert ts == [ExprToken(args[0]), Comma] + CommaSeparated(args[1..]);
      assert FirstComma(ts) == 1;
      assert ts[..1] == [ExprToken(args[0])];
      assert ParseExpr(ts[..1]) == Ok(args[0]);
      assert ts[2..] == CommaSeparated(args[1..]);
      ParseCommaSeparated(args[1..]);
      assert [args[0]] + args[1..] == args;
    }
  }

  /**
   * The argument list `#head, #(#args),*` parses back to the expression
   * `head` denotes followed by `args`.
   */
  lemma ParseArgumentTokens(head: seq<Token>, args: seq<Expr>)
    requires ParseExpr(head).Ok?
    ensures ParseArguments(ArgumentTokens(head, args)) == Ok([ParseExpr(head).value] + args)
  {
    var ts := ArgumentTokens(head, args);
    assert ts == head + ([Comma] + CommaSeparated(args));
    FirstCommaAfter(head, [Comma] + CommaSeparated(args));
    var i := FirstComma(ts);
    assert ts[..i] == head;
    assert ts != [] && i < |ts|;
    assert ts[i + 1..] == CommaSeparated(args);
    ParseCommaSeparated(args);
  }

  /** The first comma of `head + tail` is in `tail` when `head` has none. */
  lemma {:induction false} FirstCommaAfter(head: seq<Token>, tail: seq<Token>)
    requires NoComma(head)
    requires |tail| > 0 && tail[0] == Comma
    ensures FirstComma(head + tail) == |head|
  {
    if head != [] {
      assert (head + tail)[1..] == head[1..] + tail;
      FirstCommaAfter(head[1..], tail);
    } else {
      assert head + tail == tail;
    }
  }
}
