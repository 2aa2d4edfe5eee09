# assert2ify: a Dafny model of the assertion rewriter

`#[assert2ify]` is a Rust attribute macro. It walks the syntax tree of a
function and replaces each standard-library assertion with an invocation of
the more informative `assert2` assertions. This project models the
rewriting core in Dafny and proves properties about it:

- **Path classification.** `detail/mod.rs` and the older `detail.rs` decide
  whether a macro path names `assert_eq!`, `assert_ne!` or `assert!`
  (`Detail`, `LegacyDetail`).
- **Assertion parsers.** The parsers split an invocation's arguments into
  operands and message arguments and report arity errors
  (`MacroExpressions`, `AttributedAssertionMacro`). The older
  substring-based `MacExpr::from` is modelled separately
  (`LegacyAssertionMacro`).
- **Emitters.** The emitters build the replacement invocation at the
  original location (`AssertionMacros`, `AttributedAssertionMacro`,
  `LegacyAssertionMacro`).
- **Configuration parser and fold.** `assert2ification/mod.rs` holds the
  parser for the attribute's `check` argument and the fold over the
  expression tree (`Assert2ificationFold`).
- **Call-site macros.** The `macro_rules` macros `__xify!`, `__assertify!`
  and `__checkify!` turn `assert!(matches!(e, P if g), info...)` into
  `{ let_assert!(P = e, info...); assert!(g); }` and forward every other
  argument list unchanged (`CallSiteAssertions`).
- **End to end.** `EndToEnd` composes a parser, an emitter and
  `__assertify!`/`__checkify!`.

`Syntax` holds the syntax-tree values the rewriter reads and builds:
- paths, spans and binary operators
- an expression tree whose nodes are atoms, binary expressions, compound
  expressions with children, and macro invocations
- macro bodies as sequences of abstract token items

A whole expression interpolated into a body is one token item. On that
alphabet, `ParseArguments` is syn's `parse_body_with(Punctuated::<Expr,
Token![,]>::parse_terminated)`. Each comma-separated chunk is one expression
or `lhs op rhs`, and a trailing comma is allowed. `CommaSeparated` and
`ArgumentTokens` are what `quote!` produces for `#(#args),*` and
`#head, #(#args),*`. Every emitter is proved against the parser: what it
emits parses back to the condition followed by the message arguments. This
round trip holds on the token alphabet, where an interpolated operand is one
item. In Rust it holds only for operands that bind at least as tightly as
`==`/`!=` (see "Left out").

In three places the repository's own documentation or tests promise more
than the code does. The model follows the code in each case:
- **Assertions inside other macros.** `src/lib.rs:148-151` says that
  assertions inside macro invocations are replaced when the macro's tokens
  parse as an expression. `tests/integration.rs:67-76` expects
  `identity!(identity!(identity!(assert_eq!(2,3))))` to be rewritten. The fold
  in `assert2ification/mod.rs:92-97` instead hands every non-assertion macro
  to syn's default `fold_expr_macro`, which does not look into token streams.
  `Assert2ificationFold.OpaqueMacroKeepsItsBody` states the result: the macro
  comes back unchanged.
- **`matches!` conditions.** The `AssertMatches` variant
  (`assertion_macro/mod.rs:72-81`) is documented as the form that
  `assert!(matches!(e, p))` is parsed into. The parser never builds it: the
  unary branch (`assertion_macro/mod.rs:173-178`) always builds a general
  assertion. The `matches!` form is handled at the call site by `__xify!`.
- **Classification in the fold.** `src/lib.rs:78` promises that `assert_eq!`,
  `assert_ne!` and `assert!` are all replaced, and `detail/mod.rs:17-27`
  classifies by the whole path. The fold uses the older `MacExpr::from`,
  which classifies by a substring of the first path segment
  (`assertion_macro.rs:102`, see Findings).

## Model

| member | source | states |
|---|---|---|
| Detail.InferMacroKindFromPath | assert2ify-macros/src/detail/mod.rs:91-123 | a path is classified as assertion `a` exactly when it is `a`'s bare name or `std::` followed by that name (any leading `::`); two segments not under `std`, no segment or three or more segments give `Other` |
| Detail.MacroKindOfIdent | assert2ify-macros/src/detail/mod.rs:96-110 | an identifier is `Other` exactly when it spells no assertion name, and otherwise the assertion it spells |
| Detail.IsPathForStdAssertion | assert2ify-macros/src/detail/mod.rs:17-27 | a path names an assertion only when it has one or two segments, ends in the assertion's name, and its first segment is `std` when there are two |
| Detail.IsAssertion | assert2ify-macros/src/detail/mod.rs:44-49 | a kind is an assertion exactly when it is not `Other` |
| Detail.IsBinaryAssertion | assert2ify-macros/src/detail/mod.rs:53-60 | a binary assertion is an assertion |
| Detail.BinaryOperator | assert2ify-macros/src/detail/mod.rs:70-77 | an operator exists exactly for binary assertions; it is `==` for `assert_eq`, `!=` for `assert_ne`, and carries the given span |
| Detail.NameClassifiesAsItsAssertion | assert2ify-macros/src/detail/mod.rs:96-119 | each assertion's name, bare or under `std`, classifies back to that assertion, so the name mapping is one-to-one |
| Detail.LeadingColonIgnored | assert2ify-macros/src/detail/mod.rs:91-93 | a leading `::` never changes the classification |
| LegacyDetail.IsPathForStdAssertion | assert2ify-macros/src/detail.rs:15-25 | true exactly for the segment lists `[name]` and `["std", name]` |
| LegacyDetail.AgreesWithCurrentClassifier | assert2ify-macros/src/detail.rs:15-25 | the older check accepts exactly the paths the current classifier maps to the same assertion |
| ParsedAssertion.NewBinary | assert2ify-macros/src/macro_parsing/assertion.rs:23-25 | builds a binary assertion whose operands are `lhs, rhs` and whose condition is `lhs op rhs` |
| ParsedAssertion.NewAssert | assert2ify-macros/src/macro_parsing/assertion.rs:27-29 | builds a unary assertion whose only operand and condition is the expression |
| AssertionMacros.New | assert2ify-macros/src/macro_parsing/assertion_macro.rs:24-30 | the record keeps the assertion, span and message arguments it is given |
| AssertionMacros.ConditionTokens | assert2ify-macros/src/macro_parsing/assertion_macro.rs:39-46 | the spliced operand tokens parse as exactly one expression, the assertion's condition |
| AssertionMacros.Assert2ifyWith | assert2ify-macros/src/macro_parsing/assertion_macro.rs:36-54 | the replacement invokes the given path with its `!` and parentheses at the original span, and its arguments parse back to the condition followed by the message arguments in order |
| Syntax.ParseArguments | assert2ify-macros/src/macro_parsing/macro_expression.rs:58 | an empty body is the empty list; a body whose first chunk is not an expression is rejected; otherwise the first argument is the first chunk's expression, and there are never more arguments than tokens |
| Syntax.ParseCommaSeparated | assert2ify-macros/src/macro_parsing/macro_expression.rs:58 | parsing the printed form of an expression list gives the list back |
| Syntax.ParseArgumentTokens | assert2ify-macros/src/macro_parsing/assertion_macro.rs:41-44 | `#head, #(#args),*` parses to the head's expression followed by `args`, including the trailing comma left when `args` is empty |
| MacroExpressions.SpanOf | assert2ify-macros/src/macro_parsing/macro_expression.rs:22-29 | the span of a parsed value is the location of the invocation it was parsed from |
| MacroExpressions.TryFrom | assert2ify-macros/src/macro_parsing/macro_expression.rs:55-86 | a body that does not parse is an error for every macro; otherwise `Other` exactly for unclassified paths (macro unchanged); binary assertions need two arguments and unary ones one, with the source's three error messages at the macro's span; an accepted assertion's operands followed by its message arguments are the parsed arguments, and it is binary exactly when the kind is |
| MacroExpressions.TryFromKeepsSpan | assert2ify-macros/src/macro_parsing/macro_expression.rs:22-29 | the parsed expression reports the invocation's own location |
| MacroExpressions.UnaryComparisonStaysUnary | assert2ify-macros/src/macro_parsing/macro_expression.rs:74-81 | `assert!(a op b)` is one unary assertion of the comparison, not a binary assertion |
| MacroExpressions.ReplacementIsNotReclassified | assert2ify-macros/src/macro_parsing/macro_expression.rs:82-85 | a replacement emitted under a non-assertion path is passed through unchanged when parsed again |
| MacroExpressions.RewriteKeepsArguments | assert2ify-macros/src/macro_parsing/assertion_macro.rs:36-54 | parse then emit keeps the location and the arguments: `assert_eq!(a, b, m...)` becomes `a == b, m...` (`!=` for `assert_ne!`), and `assert!` keeps its list |
| AttributedAssertionMacro.Assert2MacroWith | assert2ify-macros/src/assertion_macro/mod.rs:189-196 | the macro has the given path and tokens, with `!` and parentheses at the given span |
| AttributedAssertionMacro.Assert2ifyWith | assert2ify-macros/src/assertion_macro/mod.rs:39-59 | attributes carried over; the given path at the original span; arguments parse back to the condition followed by the message arguments |
| AttributedAssertionMacro.MacroExpressionAssert2ifyWith | assert2ify-macros/src/assertion_macro/mod.rs:141-150 | a non-assertion is returned unchanged; an assertion becomes an invocation of the given path that keeps its attributes and location and whose arguments parse back to the condition followed by the message arguments |
| AttributedAssertionMacro.SpanOf | assert2ify-macros/src/assertion_macro/mod.rs:117-124 | the span of a parsed value is the location of the invocation it was parsed from |
| AttributedAssertionMacro.TryFrom | assert2ify-macros/src/assertion_macro/mod.rs:157-183 | as the attribute-free parser, with the source's two error messages; attributes are carried into the assertion; the `matches` form is never produced |
| AttributedAssertionMacro.RewriteIsTotal | assert2ify-macros/src/assertion_macro/mod.rs:141-150 | a successful parse can always be emitted, and the result keeps the attributes and location |
| AttributedAssertionMacro.AgreesWithAttributeFreeParser | assert2ify-macros/src/assertion_macro/mod.rs:157-183 | the attribute-aware and attribute-free parsers fail together, pass the same macros through, and agree on span, operands, condition and message arguments |
| LegacyAssertionMacro.Contains | assert2ify-macros/src/assertion_macro.rs:102 | `str::contains`: true exactly when the needle is a prefix of some suffix of the haystack |
| LegacyAssertionMacro.Assert2MacroWith | assert2ify-macros/src/assertion_macro.rs:50-72 | ignores the path it is given: the macro is always `assert2` with `!` and parentheses at the span |
| LegacyAssertionMacro.Assert2ifyWith | assert2ify-macros/src/assertion_macro.rs:75-90 | a comparison becomes `assert2!(lhs op rhs, msg...)` without attributes at the comparison's span (the other variants are `todo!()`) |
| LegacyAssertionMacro.From | assert2ify-macros/src/assertion_macro.rs:99-118 | a macro is an assertion exactly when its first path segment contains `assert_eq`; the assertion is `args[0] == args[1]` located at the macro, followed by the remaining arguments; anything else is returned unchanged |
| LegacyAssertionMacro.SubstringClassificationCounterexample | assert2ify-macros/src/assertion_macro.rs:102 | `debug_assert_eq` is taken for an assertion and `std::assert_eq` is not, and `assert_ne`/`assert` are never taken, contrary to the path classifier |
| Assert2ificationFold.New | assert2ify-macros/src/assert2ification/mod.rs:31-35 | always succeeds and keeps the configuration |
| Assert2ificationFold.Parse | assert2ify-macros/src/assert2ification/mod.rs:60-76 | errors from the identifier list propagate; the accepted lists are exactly `[]` (assert) and `[check]` (check); another single identifier and two or more identifiers give the source's two messages at the given span |
| Assert2ificationFold.AssertMacroPathWithSpan | assert2ify-macros/src/assert2ification/mod.rs:37-56 | for the assert configuration the path is the single segment `assert2`, which neither classifier takes for an assertion |
| Assert2ificationFold.DefaultFoldExprMacro | assert2ify-macros/src/assert2ification/mod.rs:96 | syn's default macro fold returns the node unchanged, body included |
| Assert2ificationFold.FoldExprMacro | assert2ify-macros/src/assert2ification/mod.rs:79-98 | non-assertions are unchanged; an assertion becomes `assert2!(args[0] == args[1], args[2..])` without attributes at the original span; the result is not an assertion and can be folded again |
| Assert2ificationFold.FoldExpr | assert2ify-macros/src/assert2ification/mod.rs:79-98 | the fold keeps every node's kind, operator, compound kind and number of children, and leaves atoms alone |
| Assert2ificationFold.FoldKeepsTreeOutsideMacros | assert2ify-macros/src/assert2ification/mod.rs:79-98 | with every macro invocation blanked out, the folded tree equals the original: the fold changes nothing outside macro nodes |
| Assert2ificationFold.FoldRewritesEachMacroNode | assert2ify-macros/src/assert2ification/mod.rs:79-98 | the macro nodes of the folded tree, in pre-order, are those of the original with `FoldExprMacro` applied to each |
| Assert2ificationFold.FoldExprs | assert2ify-macros/src/assert2ification/mod.rs:79-98 | a sequence of expressions is folded element by element, in order |
| Assert2ificationFold.FoldWithoutAssertionIsIdentity | assert2ify-macros/src/assert2ification/mod.rs:92-97 | a tree holding no reachable assertion comes back unchanged |
| Assert2ificationFold.FoldLeavesNoReachableAssertion | assert2ify-macros/src/assert2ification/mod.rs:86-91 | after the fold no reachable assertion remains, and the result can be folded without panicking |
| Assert2ificationFold.FoldIsIdempotent | assert2ify-macros/src/assert2ification/mod.rs:79-98 | folding twice is folding once |
| Assert2ificationFold.CheckifyNeverRewrites | assert2ify-macros/src/assert2ification/mod.rs:54 | with `check` the fold completes only on trees without assertions, and then changes nothing |
| Assert2ificationFold.NestedAssertionStaysAsWritten | assert2ify-macros/src/assert2ification/mod.rs:86-91 | an assertion used as an operand of another stays verbatim in the replacement and is not reached by a later fold |
| Assert2ificationFold.OpaqueMacroKeepsItsBody | assert2ify-macros/src/assert2ification/mod.rs:92-97 | a non-assertion macro is kept whole, with any assertions inside its body |
| CallSiteAssertions.PatternTokens | src/assertions.rs:14 | the printed patterns start with the first pattern and are empty only for no patterns |
| CallSiteAssertions.ParsePatterns | src/assertions.rs:12 | the consumed prefix is exactly the printed form of the patterns returned |
| CallSiteAssertions.ParsePatternTokens | src/assertions.rs:12 | printed patterns followed by a token that does not continue them parse back to the same patterns and length |
| CallSiteAssertions.ParseGuard | src/assertions.rs:12 | "no guard" is returned only for nothing or a lone trailing comma; a guard `g` is returned only for `if` followed by tokens that parse to `g`, with an optional trailing comma |
| CallSiteAssertions.ParseGuardTokens | src/assertions.rs:12 | a printed guard, with or without a trailing comma, parses back |
| CallSiteAssertions.ParsePatternsAndGuard | src/assertions.rs:12 | a match keeps the expression; the tokens start with the printed patterns (at least one) and the remainder parses to the guard |
| CallSiteAssertions.ParseMatchesBody | src/assertions.rs:12 | an accepted body is the expression up to the first comma, the comma, the printed patterns (at least one), then tokens that parse to the guard |
| CallSiteAssertions.AcceptedMatchesBodyIsPrinted | src/assertions.rs:12 | converse of `ParseMatchesBodyTokens`: an accepted body written without binary operators is exactly the printed body of what was accepted, with or without a trailing comma |
| CallSiteAssertions.ParseMatchesBodyOfParts | src/assertions.rs:12 | the body parser reads the expression and its comma, then patterns and guard |
| CallSiteAssertions.ParseMatchesBodyTokens | src/assertions.rs:12 | the printed body of `matches!(e, p1 \| ... if g)`, with or without a trailing comma, parses back to its arguments |
| CallSiteAssertions.InfoTokens | src/assertions.rs:14 | `$(, $info_args)*` has two tokens per argument |
| CallSiteAssertions.InfoArguments | src/assertions.rs:12 | accepted info arguments are single token trees whose printed form, with or without a trailing comma, is the input |
| CallSiteAssertions.InfoArgumentsOfInfoTokens | src/assertions.rs:12 | printed single-token-tree info arguments, with or without a trailing comma, parse back |
| CallSiteAssertions.InfoArgumentsRejectsNonTokenTree | src/assertions.rs:12 | info arguments holding anything but a single token tree are rejected |
| CallSiteAssertions.MatchesForm | src/assertions.rs:12 | the first rule matches only a leading attribute-free `matches!(...)` invocation (optional `std::`) whose body parses to the result, followed by the printed token-tree info arguments with an optional trailing comma |
| CallSiteAssertions.AcceptedMatchesCallIsPrinted | src/assertions.rs:12 | converse of `MatchesFormOfCall`: arguments the first rule accepts, with an operator-free `matches!` body, are the printed call of the accepted `matches!` and info arguments |
| CallSiteAssertions.MatchesFormOfParts | src/assertions.rs:12 | the first rule matches when the leading `matches!` body and the info arguments both parse |
| CallSiteAssertions.MatchesFormOfCall | src/assertions.rs:12 | a printed `matches!` call with token-tree info arguments is recognised and its parts recovered |
| CallSiteAssertions.Xify | src/assertions.rs:11-23 | no arguments match no rule; a `matches!` form becomes a block of `let_assert!(patterns = e, info...)` plus `new!(guard)` exactly when there is a guard; every other argument list goes to `new!` unchanged |
| CallSiteAssertions.XifyOfMatches | src/assertions.rs:12-19 | `matches!(e, P if g), info...` expands to the `let_assert!`/guard block |
| CallSiteAssertions.NonTokenTreeInfoFallsBack | src/assertions.rs:20-22 | a `matches!` condition followed by an info argument that is not one token tree is forwarded whole to the new assertion |
| CallSiteAssertions.Assertify | src/assertions.rs:28-34 | no arguments give `compile_error!("Too few arguments in assertion")`, and only they do; otherwise `__xify!` with `assert` |
| CallSiteAssertions.Checkify | src/assertions.rs:39-44 | no arguments give the same compile error, and only they do; otherwise `__xify!` with `check` |
| CallSiteAssertions.CheckifyIsAssertifyWithCheck | src/assertions.rs:28-44 | `__checkify!` expands exactly as `__assertify!` with `check!` in place of `assert!`, `let_assert!` kept |
| CallSiteAssertions.AssertifyAndCheckifyOfMatches | src/assertions.rs:28-44 | on a `matches!` condition both call-site macros give the `let_assert!` block, with `assert!` or `check!` on the guard |
| EndToEnd.ExprTokens | assert2ify-macros/src/macro_parsing/assertion_macro.rs:41-44 | each message argument becomes one token item, in order |
| EndToEnd.CommaSeparatedAsInfo | assert2ify-macros/src/macro_parsing/assertion_macro.rs:41-44 | the emitted `, #(#info_args),*` is exactly what `$(, $info_args)* $(,)?` reads |
| EndToEnd.ArgumentTokensAsInfo | assert2ify-macros/src/macro_parsing/assertion_macro.rs:41-44 | the emitted argument list is the head followed by the info arguments as the call-site rule reads them |
| EndToEnd.UnaryRewriteTokens | assert2ify-macros/src/macro_parsing/assertion_macro.rs:43-44 | a unary assertion is emitted as its condition followed by its message arguments |
| EndToEnd.UnaryAssertionParsed | assert2ify-macros/src/macro_parsing/macro_expression.rs:74-81 | `assert!(e, info...)` parses to the unary assertion of `e` at the macro's location, with `info` as message arguments |
| EndToEnd.RewrittenMatchesTokens | assert2ify-macros/src/macro_parsing/assertion_macro.rs:36-54 | the re-emitted `assert!(matches!(...), info...)` hands `__assertify!` the `matches!` call followed by the info arguments |
| EndToEnd.BinaryAssertionEndToEnd | src/assertions.rs:20-22 | `assert_eq!(a, b, m...)` ends as one `assert!(a == b, m...)` (`!=` for `assert_ne!`) |
| EndToEnd.MatchesAssertionEndToEnd | src/assertions.rs:12-19 | `assert!(matches!(e, P if g), i...)` with token-tree message arguments ends as `{ let_assert!(P = e, i...); assert!(g); }`, or `check!(g)` under `__checkify!` |

## Left out

- The proc-macro entry points (`#[assert2ify]` in `assert2ify-macros/src/lib.rs`) are not part of this model. Reading the function item, running the fold over it and turning errors into `compile_error!` are I/O around the core.
- syn's and quote's parsers and printers are reduced to an abstract token alphabet. An interpolated expression is one token item, and a comma-separated chunk is parsed as one expression or `lhs op rhs`. Operator precedence and the full expression grammar are not modelled.
- Spans are opaque values that are only copied. Identifier spans (such as the span `assert2_macro_path_with_span` gives the `assert2` segment) are not modelled. As a modelling choice, each macro invocation has one location, kept in its `!` field, and every rewrite copies that location. syn's `span()` reports the span of the first token (the path, or the first outer attribute); that difference is not modelled.
- AssertionMacros.Assert2ifyWith, AttributedAssertionMacro.Assert2ifyWith and LegacyAssertionMacro.Assert2ifyWith: the proved round trip holds only because an operand is one token item. The sources (`macro_parsing/assertion_macro.rs:41`, `assertion_macro/mod.rs:46`, `assertion_macro.rs:80`) splice `#lhs #operator #rhs` without parentheses. So in Rust, an operand that binds more loosely than `==`/`!=` changes the emitted condition: `assert_eq!(a || b, c)` becomes `a || b == c`, which is `a || (b == c)`. An operand that is itself a comparison, as in `assert_eq!(a < b, c)`, gives a chained comparison that does not compile. The model does not capture either consequence.
- The `println!` calls in the fold and in the attribute-aware parser are output only and are left out.
- The run-time behaviour of `assert2`'s `assert!`, `check!` and `let_assert!` is not modelled. The model stops at the invocations the call-site macros emit.
- Assert2ificationFold.FoldExprMacro: the panics of `MacExpr::from` (the `unwrap` of the first segment and of the parse, and `expressions[0]`/`expressions[1]`) and the CHECKIFY `todo!()` are preconditions (`CanFoldMacro`, `FoldDefined`). Panicking is therefore not modelled as a result.
- Assert2ificationFold.AssertMacroPathWithSpan: the CHECKIFY arm is `todo!()`, so the function requires the assert configuration.
- AttributedAssertionMacro.Assert2ifyWith: the `AssertMatches` arm is `todo!()`, so the function requires another variant. The parser never produces that variant.
- LegacyAssertionMacro.Assert2ifyWith: the `AssertUnary` and `AssertMatches` arms are `todo!()`, so the function requires a comparison.
- The unused structs `AssertionMacro` and `MacroExpression` in `assert2ify-macros/src/assertion_macro.rs` (lines 9-26) are declared but never built, and are not modelled.
- The `crate = ...` option documented in `src/lib.rs` is not parsed by this version of the configuration parser. Such arguments are one of the error cases of `Assert2ificationFold.Parse`.
- CallSiteAssertions.Xify: when the first rule fails partway, `macro_rules` may report a hard error instead of trying the second rule, for example when a fragment such as `$expression:expr` cannot be parsed. The model always falls back to the second rule. The `$crate::assertions::` prefix of emitted invocations is kept implicit.
- CallSiteAssertions.AcceptedMatchesBodyIsPrinted and CallSiteAssertions.AcceptedMatchesCallIsPrinted: these require a `matches!` body without binary operator tokens. A chunk written `l op r` is read as one binary expression, and the printer emits that expression as a single token item, so the printed form differs from the written one. For such bodies the contracts of `ParseMatchesBody` and `MatchesForm` still give the split into expression, patterns, guard and info arguments.
- CallSiteAssertions.IsTokenTree: an atom is one token tree. Every other expression and a pattern are treated as more than one. A call such as `f(x)` is two token trees, so it is treated as more than one, but so is a compound expression written as one group, such as `{ x }`.
- Macros in statement position written with braces (`Stmt::Item(Item::Macro)` in syn 1) and every other non-expression node are not represented. A statement macro written with parentheses is an `Expr::Macro` in syn 1, which the fold reaches and the model covers as a `MacroExpr` node. The tree has atoms, binary expressions, compound expressions with children, and macro expressions.
- The `assert2-ify-macros` stub crate and the test files are context, not part of the core.

## Findings

| source | as written | input that shows it | evidently intended | confidence | as-written member | corrected member |
|---|---|---|---|---|---|---|
| assert2ify-macros/src/assertion_macro.rs:102 | the fold takes a macro for `assert_eq!` when its first path segment contains the substring `assert_eq` | `debug_assert_eq!(x, y)` is rewritten into an always-on `assert2!(x == y)`; `std::assert_eq!(x, y)` is left alone; `assert_ne!` and `assert!` are never rewritten | classify by the whole path, as `infer_macro_kind_from_path` does for the newer parsers | not executed; high (the substring test is unambiguous) | LegacyAssertionMacro.SubstringClassificationCounterexample | Detail.InferMacroKindFromPath |
