/**
 * The `#[assert2ify]` configuration and the syntax-tree fold that replaces
 * assertion invocations (assert2ify-macros/src/assert2ification/mod.rs).
 * The fold classifies with the earlier substring-based `MacExpr::from`.
 */
module Assert2ificationFold {
  import opened Syntax
  import Detail
  import Legacy = LegacyAssertionMacro

  datatype Configuration = ASSERTIFY | CHECKIFY

  datatype Assert2Ification = Assert2Ification(configuration: Configuration)

  const InvalidArgumentMessage := "Invalid macro argument: either use no arguments or use `check` as a macro argument"
  const TooManyArgumentsMessage := "Too many macro arguments: either use no arguments or use `check` as a macro argument"

  /** `Assert2Ification::new`: always succeeds and keeps the configuration. */
  function New(configuration: Configuration): (r: Result<Assert2Ification>)
    ensures r.Ok? && r.value.configuration == configuration
  {
    Ok(Assert2Ification(configuration))
  }

  /** The attribute arguments that select a configuration: none, or the single identifier `check`. */
  function ArgumentsOf(configuration: Configuration): seq<string> {
    match configuration
    case ASSERTIFY => []
    case CHECKIFY => ["check"]
  }

  /**
   * `Parse for Assert2Ification`, given the result of parsing the attribute
   * arguments as a comma-separated identifier list; `span` is where the
   * errors are reported. The argument lists it accepts are exactly those of
   * `ArgumentsOf`.
   */
  function Parse(arguments: Result<seq<string>>, span: Span): (r: Result<Assert2Ification>)
    ensures arguments.Err? ==> r == Err(arguments.error)
    ensures r.Ok? ==> arguments == Ok(ArgumentsOf(r.value.configuration))
    ensures forall c :: arguments == Ok(ArgumentsOf(c)) ==> r == Ok(Assert2Ification(c))
    ensures arguments.Ok? && |arguments.value| == 1 && arguments.value[0] != "check" ==>
              r == Err(CompileError(span, InvalidArgumentMessage))
    ensures arguments.Ok? && |arguments.value| >= 2 ==> r == Err(CompileError(span, TooManyArgumentsMessage))
  {
    match arguments
    case Err(e) => Err(e)
    case Ok(idents) =>
      if |idents| == 0 then
        New(ASSERTIFY)
      else if |idents| == 1 then
        if idents[0] == "check" then assert idents == ["check"]; New(CHECKIFY) else Err(CompileError(span, InvalidArgumentMessage))
      else
        Err(CompileError(span, TooManyArgumentsMessage))
  }

  /**
   * `assert2_macro_path_with_span`: the one-segment path `assert2` for
   * ASSERTIFY (the CHECKIFY arm is `todo!()`). Neither classifier sees an
   * assertion in it.
   */
  function AssertMacroPathWithSpan(self: Assert2Ification, span: Span): (path: Path)
    requires self.configuration == ASSERTIFY
    ensures path == Path(false, ["assert2"])
    ensures Detail.InferMacroKindFromPath(path) == Detail.Other
    ensures !Legacy.Contains(path.segments[0], "assert_eq")
  {
    Legacy.Assert2Path
  }

  /**
   * syn's default `fold_expr_macro`: it rebuilds the node from its attributes
   * and its macro, and does not look into the macro's token stream, so the
   * node comes back as it was.
   */
  function DefaultFoldExprMacro(node: ExprMacro): (folded: ExprMacro)
    ensures folded == node
  {
    ExprMacro(node.attrs, Macro(node.mac.path, node.mac.bang, node.mac.delimiter, node.mac.tokens))
  }

  /** What `fold_expr_macro` needs in order not to panic on `node`. */
  predicate CanFoldMacro(self: Assert2Ification, node: ExprMacro) {
    Legacy.CanConvert(node) && (Legacy.IsLegacyAssertion(node) ==> self.configuration == ASSERTIFY)
  }

  /**
   * `Fold::fold_expr_macro`. An assertion is replaced by an `assert2!`
   * invocation at the same location whose argument list is the comparison of
   * the first two arguments followed by the rest; its operands are put in
   * as they are, not folded. Any other macro is left as it was.
   */
  function FoldExprMacro(self: Assert2Ification, node: ExprMacro): (folded: ExprMacro)
    requires CanFoldMacro(self, node)
    ensures !Legacy.IsLegacyAssertion(node) ==> folded == node
    ensures Legacy.IsLegacyAssertion(node) ==>
              var args := ParseArguments(node.mac.tokens).value;
              var span := ExprMacroSpan(node);
              && folded.attrs == []
              && folded.mac.path == Path(false, ["assert2"])
              && MacroSpan(folded.mac) == span
              && folded.mac.delimiter == Paren(span)
              && ParseArguments(folded.mac.tokens) == Ok([Binary(args[0], Eq(span), args[1])] + args[2..])
    ensures CanFoldMacro(self, folded) && !Legacy.IsLegacyAssertion(folded)
  {
    var span := ExprMacroSpan(node);
    match Legacy.From(node)
    case Assertion(assertion) =>
      assert [assertion.lhs, assertion.rhs] + assertion.msg == ParseArguments(node.mac.tokens).value;
      Legacy.Assert2ifyWith(assertion, AssertMacroPathWithSpan(self, span))
    case Other(other) => DefaultFoldExprMacro(other)
  }

  /** No macro node the fold visits in `e` makes it panic. */
  predicate FoldDefined(self: Assert2Ification, e: Expr) {
    match e
    case Atom(_) => true
    case Binary(lhs, _, rhs) => FoldDefined(self, lhs) && FoldDefined(self, rhs)
    case Compound(_, children) => forall i :: 0 <= i < |children| ==> FoldDefined(self, children[i])
    case MacroExpr(node) => CanFoldMacro(self, node)
  }

  /** Some macro node the fold visits in `e` is one it rewrites. */
  predicate HasReachableAssertion(e: Expr) {
    match e
    case Atom(_) => false
    case Binary(lhs, _, rhs) => HasReachableAssertion(lhs) || HasReachableAssertion(rhs)
    case Compound(_, children) => exists i :: 0 <= i < |children| && HasReachableAssertion(children[i])
    case MacroExpr(node) => Legacy.IsLegacyAssertion(node)
  }

  /**
   * The fold over an expression tree: every node but a macro invocation is
   * rebuilt, with the same kind, from its folded sub-expressions; a macro
   * invocation goes to `FoldExprMacro`.
   */
  function FoldExpr(self: Assert2Ification, e: Expr): (folded: Expr)
    requires FoldDefined(self, e)
    ensures e.Atom? ==> folded == e
    ensures e.Binary? ==> folded.Binary? && folded.op == e.op
    ensures e.Compound? ==> folded.Compound? && folded.kind == e.kind && |folded.children| == |e.children|
    ensures e.MacroExpr? ==> folded.MacroExpr?
    decreases e
  {
    match e
    case Atom(_) => e
    case Binary(lhs, op, rhs) => Binary(FoldExpr(self, lhs), op, FoldExpr(self, rhs))
    case Compound(kind, children) => Compound(kind, FoldExprs(self, children))
    case MacroExpr(node) => MacroExpr(FoldExprMacro(self, node))
  }

  /** The fold applied to each expression of a sequence, in order. */
  function FoldExprs(self: Assert2Ification, es: seq<Expr>): (folded: seq<Expr>)
    requires forall i :: 0 <= i < |es| ==> FoldDefined(self, es[i])
    ensures |folded| == |es|
    ensures forall i :: 0 <= i < |es| ==> folded[i] == FoldExpr(self, es[i])
    decreases es
  {
    if es == [] then [] else [FoldExpr(self, es[0])] + FoldExprs(self, es[1..])
  }

  /** A tree in which the fold meets no assertion comes back unchanged. */
  lemma {:induction false} FoldWithoutAssertionIsIdentity(self: Assert2Ification, e: Expr)
    requires FoldDefined(self, e) && !HasReachableAssertion(e)
    ensures FoldExpr(self, e) == e
    decreases e
  {
    match e
    case Atom(_) =>
    case Binary(lhs, _, rhs) =>
      FoldWithoutAssertionIsIdentity(self, lhs);
      FoldWithoutAssertionIsIdentity(self, rhs);
    case Compound(kind, children) =>
      forall i | 0 <= i < |children|
        ensures FoldExprs(self, children)[i] == children[i]
      {
        FoldWithoutAssertionIsIdentity(self, children[i]);
      }
      assert FoldExprs(self, children) == children;
    case MacroExpr(_) =>
  }

  /**
   * Every assertion the fold can reach is rewritten: the result holds none,
   * and folding it again cannot panic.
   */
  lemma {:induction false} FoldLeavesNoReachableAssertion(self: Assert2Ification, e: Expr)
    requires FoldDefined(self, e)
    ensures FoldDefined(self, FoldExpr(self, e))
    ensures !HasReachableAssertion(FoldExpr(self, e))
    decreases e
  {
    match e
    case Atom(_) =>
    case Binary(lhs, _, rhs) =>
      FoldLeavesNoReachableAssertion(self, lhs);
      FoldLeavesNoReachableAssertion(self, rhs);
    case Compound(kind, children) =>
      var folded := FoldExprs(self, children);
      forall i | 0 <= i < |children|
        ensures FoldDefined(self, folded[i]) && !HasReachableAssertion(folded[i])
      {
        FoldLeavesNoReachableAssertion(self, children[i]);
      }
    case MacroExpr(_) =>
  }

  /** The placeholder that `Erase` puts where a macro invocation was. */
  const Hole := ExprMacro([], Macro(Path(false, []), Span(0), Paren(Span(0)), []))

  /** `e` with every macro invocation replaced by `Hole`: the part of the tree the fold rebuilds as it was. */
  function Erase(e: Expr): Expr
    decreases e
  {
    match e
    case Atom(_) => e
    case Binary(lhs, op, rhs) => Binary(Erase(lhs), op, Erase(rhs))
    case Compound(kind, children) => Compound(kind, EraseAll(children))
    case MacroExpr(_) => MacroExpr(Hole)
  }

  function EraseAll(es: seq<Expr>): seq<Expr>
    decreases es
  {
    if es == [] then [] else [Erase(es[0])] + EraseAll(es[1..])
  }

  /** The macro invocations the fold visits in `e`, in pre-order. */
  function MacroNodes(e: Expr): seq<ExprMacro>
    decreases e
  {
    match e
    case Atom(_) => []
    case Binary(lhs, _, rhs) => MacroNodes(lhs) + MacroNodes(rhs)
    case Compound(_, children) => MacroNodesAll(children)
    case MacroExpr(node) => [node]
  }

  function MacroNodesAll(es: seq<Expr>): seq<ExprMacro>
    decreases es
  {
    if es == [] then [] else MacroNodes(es[0]) + MacroNodesAll(es[1..])
  }

  /** `after` is `before` with `FoldExprMacro` applied to each node. */
  predicate FoldsEachMacro(self: Assert2Ification, before: seq<ExprMacro>, after: seq<ExprMacro>) {
    && |after| == |before|
    && forall i :: 0 <= i < |before| ==> CanFoldMacro(self, before[i]) && after[i] == FoldExprMacro(self, before[i])
  }

  lemma FoldsEachMacroAppend(self: Assert2Ification, a: seq<ExprMacro>, a': seq<ExprMacro>,
                             b: seq<ExprMacro>, b': seq<ExprMacro>)
    requires FoldsEachMacro(self, a, a') && FoldsEachMacro(self, b, b')
    ensures FoldsEachMacro(self, a + b, a' + b')
  {
    forall i | 0 <= i < |a + b|
      ensures CanFoldMacro(self, (a + b)[i]) && (a' + b')[i] == FoldExprMacro(self, (a + b)[i])
    {
      if i >= |a| {
        assert (a + b)[i] == b[i - |a|] && (a' + b')[i] == b'[i - |a|];
      }
    }
  }

  /** Outside its macro invocations the fold returns the tree exactly as it was. */
  lemma {:induction false} FoldKeepsTreeOutsideMacros(self: Assert2Ification, e: Expr)
    requires FoldDefined(self, e)
    ensures Erase(FoldExpr(self, e)) == Erase(e)
    decreases e
  {
    match e
    case Atom(_) =>
    case Binary(lhs, _, rhs) =>
      FoldKeepsTreeOutsideMacros(self, lhs);
      FoldKeepsTreeOutsideMacros(self, rhs);
    case Compound(_, children) =>
      FoldKeepsSequenceOutsideMacros(self, children);
    case MacroExpr(_) =>
  }

  lemma {:induction false} FoldKeepsSequenceOutsideMacros(self: Assert2Ification, es: seq<Expr>)
    requires forall i :: 0 <= i < |es| ==> FoldDefined(self, es[i])
    ensures EraseAll(FoldExprs(self, es)) == EraseAll(es)
    decreases es
  {
    if es != [] {
      FoldKeepsTreeOutsideMacros(self, es[0]);
      FoldKeepsSequenceOutsideMacros(self, es[1..]);
    }
  }

  /**
   * The macro invocations of the folded tree are those of the original, in
   * the same order, each passed through `FoldExprMacro`.
   */
  lemma {:induction false} FoldRewritesEachMacroNode(self: Assert2Ification, e: Expr)
    requires FoldDefined(self, e)
    ensures FoldsEachMacro(self, MacroNodes(e), MacroNodes(FoldExpr(self, e)))
    decreases e
  {
    match e
    case Atom(_) =>
    case Binary(lhs, _, rhs) =>
      FoldRewritesEachMacroNode(self, lhs);
      FoldRewritesEachMacroNode(self, rhs);
      FoldsEachMacroAppend(self, MacroNodes(lhs), MacroNodes(FoldExpr(self, lhs)),
                           MacroNodes(rhs), MacroNodes(FoldExpr(self, rhs)));
    case Compound(_, children) =>
      FoldRewritesEachMacroNodeOfAll(self, children);
    case MacroExpr(_) =>
  }

  lemma {:induction false} FoldRewritesEachMacroNodeOfAll(self: Assert2Ification, es: seq<Expr>)
    requires forall i :: 0 <= i < |es| ==> FoldDefined(self, es[i])
    ensures FoldsEachMacro(self, MacroNodesAll(es), MacroNodesAll(FoldExprs(self, es)))
    decreases es
  {
    if es != [] {
      var folded := FoldExprs(self, es);
      assert folded[0] == FoldExpr(self, es[0]) && folded[1..] == FoldExprs(self, es[1..]);
      FoldRewritesEachMacroNode(self, es[0]);
      FoldRewritesEachMacroNodeOfAll(self, es[1..]);
      FoldsEachMacroAppend(self, MacroNodes(es[0]), MacroNodes(folded[0]),
                           MacroNodesAll(es[1..]), MacroNodesAll(folded[1..]));
    }
  }

  /** Folding twice is folding once. */
  lemma FoldIsIdempotent(self: Assert2Ification, e: Expr)
    requires FoldDefined(self, e)
    ensures FoldDefined(self, FoldExpr(self, e))
    ensures FoldExpr(self, FoldExpr(self, e)) == FoldExpr(self, e)
  {
    FoldLeavesNoReachableAssertion(self, e);
    FoldWithoutAssertionIsIdentity(self, FoldExpr(self, e));
  }

  /**
   * With the `check` configuration the path for a replacement is `todo!()`,
   * so the fold only completes on trees holding no assertion, and then
   * changes nothing.
   */
  lemma {:induction false} CheckifyNeverRewrites(e: Expr)
    requires FoldDefined(Assert2Ification(CHECKIFY), e)
    ensures !HasReachableAssertion(e)
    ensures FoldExpr(Assert2Ification(CHECKIFY), e) == e
    decreases e
  {
    match e {
      case Atom(_) =>
      case Binary(lhs, _, rhs) =>
        CheckifyNeverRewrites(lhs);
        CheckifyNeverRewrites(rhs);
      case Compound(_, children) =>
        forall i | 0 <= i < |children|
          ensures !HasReachableAssertion(children[i])
        {
          CheckifyNeverRewrites(children[i]);
        }
      case MacroExpr(_) =>
    }
    FoldWithoutAssertionIsIdentity(Assert2Ification(CHECKIFY), e);
  }

  /**
   * An assertion used as an operand of another assertion stays in the
   * output exactly as written, and the fold does not reach it afterwards.
   */
  lemma NestedAssertionStaysAsWritten(self: Assert2Ification, outer: ExprMacro, inner: ExprMacro)
    requires CanFoldMacro(self, outer) && Legacy.IsLegacyAssertion(outer)
    requires ParseArguments(outer.mac.tokens).value[0] == MacroExpr(inner)
    ensures var folded := FoldExprMacro(self, outer);
            && ParseArguments(folded.mac.tokens).Ok?
            && ParseArguments(folded.mac.tokens).value[0].lhs == MacroExpr(inner)
            && !HasReachableAssertion(MacroExpr(folded))
  {
  }

  /**
   * A macro that is not an assertion is kept whole, including assertions
   * inside its body: the fold does not look into token streams.
   */
  lemma OpaqueMacroKeepsItsBody(self: Assert2Ification, node: ExprMacro)
    requires CanFoldMacro(self, node) && !Legacy.IsLegacyAssertion(node)
    ensures FoldExpr(self, MacroExpr(node)) == MacroExpr(node)
  {
  }
}
