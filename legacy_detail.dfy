/**
 * The earlier path check for standard-library assertions
 * (assert2ify-macros/src/detail.rs), whose enumeration spells its variants
 * `ASSERT_EQ`, `ASSERT_NE` and `ASSERT`.
 */
module LegacyDetail {
  import opened Syntax
  import Detail

  datatype StandardLibraryAssertion = ASSERT_EQ | ASSERT_NE | ASSERT

  function AssertionName(assertion: StandardLibraryAssertion): string {
    match assertion
    case ASSERT_EQ => "assert_eq"
    case ASSERT_NE => "assert_ne"
    case ASSERT => "assert"
  }

  /**
   * `is_path_for_std_assertion`: true exactly for the bare name and for the
   * name under `std`, with or without a leading `::`.
   */
  predicate IsPathForStdAssertion(path: Path, assertion: StandardLibraryAssertion)
    ensures IsPathForStdAssertion(path, assertion) <==>
              path.segments == [AssertionName(assertion)] || path.segments == ["std", AssertionName(assertion)]
  {
    var segments := path.segments;
    var name := AssertionName(assertion);
    (|segments| == 1 && segments[0] == name) || (|segments| == 2 && segments[0] == "std" && segments[1] == name)
  }

  /** The same assertion under the current enumeration's spelling. */
  function Renamed(assertion: StandardLibraryAssertion): Detail.StandardLibraryAssertion {
    match assertion
    case ASSERT_EQ => Detail.AssertEq
    case ASSERT_NE => Detail.AssertNe
    case ASSERT => Detail.Assert
  }

  /** The earlier check accepts exactly the paths the current classifier maps to the same assertion. */
  lemma AgreesWithCurrentClassifier(path: Path, assertion: StandardLibraryAssertion)
    ensures IsPathForStdAssertion(path, assertion) <==>
              Detail.InferMacroKindFromPath(path) == Detail.Assertion(Renamed(assertion))
  {
    assert AssertionName(assertion) == Detail.AssertionName(Renamed(assertion));
    assert IsPathForStdAssertion(path, assertion) == Detail.IsPathForStdAssertion(path, Renamed(assertion));
  }
}
