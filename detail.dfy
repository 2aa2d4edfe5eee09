/**
 * Classification of macro paths into standard-library assertions
 * (assert2ify-macros/src/detail/mod.rs).
 */
module Detail {
  import opened Syntax

  /** The three standard-library assertion macros. */
  datatype StandardLibraryAssertion = AssertEq | AssertNe | Assert

  datatype MacroKind = Assertion(assertion: StandardLibraryAssertion) | Other

  /** The macro name each assertion is invoked by. */
  function AssertionName(assertion: StandardLibraryAssertion): string {
    match assertion
    case AssertEq => "assert_eq"
    case AssertNe => "assert_ne"
    case Assert => "assert"
  }

  /**
   * Whether `path` names `assertion`: the bare name, or the name under a
   * single `std` segment. The leading `::` is not looked at.
   */
  predicate IsPathForStdAssertion(path: Path, assertion: StandardLibraryAssertion)
    ensures IsPathForStdAssertion(path, assertion) ==>
              && 1 <= |path.segments| <= 2
              && path.segments[|path.segments| - 1] == AssertionName(assertion)
              && (|path.segments| == 2 ==> path.segments[0] == "std")
  {
    var segments := path.segments;
    var name := AssertionName(assertion);
    (|segments| == 1 && segments[0] == name) || (|segments| == 2 && segments[0] == "std" && segments[1] == name)
  }

  /** Whether a kind is one of the three assertions. */
  predicate IsAssertion(kind: MacroKind)
    ensures IsAssertion(kind) <==> kind != Other
  {
    match kind
    case Assertion(_) => true
    case Other => false
  }

  predicate IsBinaryAssertion(kind: MacroKind)
    ensures IsBinaryAssertion(kind) ==> IsAssertion(kind)
  {
    match kind
    case Assertion(AssertEq) => true
    case Assertion(AssertNe) => true
    case Assertion(Assert) => false
    case Other => false
  }

  /** The comparison a binary assertion performs, located at `span`. */
  function BinaryOperator(kind: MacroKind, span: Span): (op: Option<BinOp>)
    ensures op.Some? <==> IsBinaryAssertion(kind)
    ensures op.Some? ==> op.value.span == span
    ensures kind == Assertion(AssertEq) ==> op == Some(Eq(span))
    ensures kind == Assertion(AssertNe) ==> op == Some(Ne(span))
  {
    match kind
    case Assertion(AssertEq) => Some(Eq(span))
    case Assertion(AssertNe) => Some(Ne(span))
    case Assertion(Assert) => None
    case Other => None
  }

  /** The kind a single identifier denotes: the assertion of that exact name, if any. */
  function MacroKindOfIdent(ident: string): (kind: MacroKind)
    ensures kind.Assertion? ==> AssertionName(kind.assertion) == ident
    ensures kind == Other <==> forall a :: AssertionName(a) != ident
  {
    if ident == "assert_eq" then Assertion(AssertEq)
    else if ident == "assert_ne" then Assertion(AssertNe)
    else if ident == "assert" then Assertion(Assert)
    else Other
  }

  /**
   * `infer_macro_kind_from_path`: a one-segment path, or a two-segment path
   * under `std`, names the assertion its last segment spells exactly; every
   * other path is `Other`.
   */
  function InferMacroKindFromPath(path: Path): (kind: MacroKind)
    ensures forall a :: IsPathForStdAssertion(path, a) <==> kind == Assertion(a)
    ensures |path.segments| == 2 && path.segments[0] != "std" ==> kind == Other
    ensures |path.segments| == 0 || |path.segments| >= 3 ==> kind == Other
  {
    var segments := path.segments;
    if |segments| == 1 then
      MacroKindOfIdent(segments[0])
    else if |segments| == 2 then
      if segments[0] != "std" then Other else MacroKindOfIdent(segments[1])
    else
      Other
  }

  /** Each assertion's own name classifies back to it, so the name mapping is one-to-one. */
  lemma NameClassifiesAsItsAssertion(assertion: StandardLibraryAssertion, rooted: bool)
    ensures MacroKindOfIdent(AssertionName(assertion)) == Assertion(assertion)
    ensures InferMacroKindFromPath(Path(rooted, [AssertionName(assertion)])) == Assertion(assertion)
    ensures InferMacroKindFromPath(Path(rooted, ["std", AssertionName(assertion)])) == Assertion(assertion)
  {
  }

  /** A leading `::` never changes the classification. */
  lemma LeadingColonIgnored(segments: seq<string>)
    ensures InferMacroKindFromPath(Path(true, segments)) == InferMacroKindFromPath(Path(false, segments))
  {
  }
}
