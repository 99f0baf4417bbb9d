/**
  `Field`: one compiled selector path such as "foo/bar" or "*", and its
  bidirectional prefix match against the segments of a candidate path.
 */
module FieldSelector {
  import opened Segments
  import opened Paths
  const Wildcard: string := "*"

  /** A selector path, held as its segments. */
  datatype Field = Field(parts: seq<string>)

  /** `new Field(value)`: the segments of `value` between path separators. */
  function FieldOf(value: string): (f: Field)
    ensures |f.parts| >= 1
    ensures SeparatorFree(f.parts, PathSeparator)
  {
    SplitSeparatorFree(value, PathSeparator);
    Field(Split(value, PathSeparator))
  }

  /** `Field.ToString()`: the segments joined by the path separator. */
  function ToText(f: Field): (text: string)
  {
    Join(f.parts, PathSeparator)
  }

  /** A selector segment accepts a candidate segment: the wildcard accepts any. */
  predicate SegmentMatches(pattern: string, segment: string, ignoreCase: bool)
  {
    pattern == Wildcard || (if ignoreCase then EqualsIgnoringCase(pattern, segment) else pattern == segment)
  }

  /**
    The scan behind `Field.Matches`: compare position by position and stop as
    soon as either side runs out, so extra trailing segments on either side
    never cause a mismatch.
   */
  function ScanPrefix(pattern: seq<string>, candidate: seq<string>, ignoreCase: bool): (agrees: bool)
    decreases |pattern|
  {
    if pattern == [] || candidate == [] then true
    else SegmentMatches(pattern[0], candidate[0], ignoreCase) && ScanPrefix(pattern[1..], candidate[1..], ignoreCase)
  }

  /** `Field.Matches(parts, ignoreCase)`. */
  predicate Matches(f: Field, candidate: seq<string>, ignoreCase: bool)
  {
    ScanPrefix(f.parts, candidate, ignoreCase)
  }

  /** Reference reading of the match: the two agree at every position both have. */
  ghost predicate AgreeOnCommonPrefix(pattern: seq<string>, candidate: seq<string>, ignoreCase: bool)
  {
    forall i :: 0 <= i < |pattern| && i < |candidate| ==> SegmentMatches(pattern[i], candidate[i], ignoreCase)
  }

  /** The scan computes exactly the reference reading. */
  lemma {:induction false} ScanPrefixAgrees(pattern: seq<string>, candidate: seq<string>, ignoreCase: bool)
    ensures ScanPrefix(pattern, candidate, ignoreCase) <==> AgreeOnCommonPrefix(pattern, candidate, ignoreCase)
    decreases |pattern|
  {
    if pattern != [] && candidate != [] {
      ScanPrefixAgrees(pattern[1..], candidate[1..], ignoreCase);
      if AgreeOnCommonPrefix(pattern, candidate, ignoreCase) {
        assert SegmentMatches(pattern[0], candidate[0], ignoreCase);
        forall i | 0 <= i < |pattern[1..]| && i < |candidate[1..]|
          ensures SegmentMatches(pattern[1..][i], candidate[1..][i], ignoreCase)
        {
          assert SegmentMatches(pattern[i + 1], candidate[i + 1], ignoreCase);
        }
      }
      if ScanPrefix(pattern, candidate, ignoreCase) {
        forall i | 0 <= i < |pattern| && i < |candidate|
          ensures SegmentMatches(pattern[i], candidate[i], ignoreCase)
        {
          if i > 0 {
            assert pattern[1..][i - 1] == pattern[i] && candidate[1..][i - 1] == candidate[i];
          }
        }
      }
    }
  }

  /** `Matches` holds exactly when the field and the candidate agree wherever both have a segment. */
  lemma MatchesIff(f: Field, candidate: seq<string>, ignoreCase: bool)
    ensures Matches(f, candidate, ignoreCase) <==>
      forall i :: 0 <= i < |f.parts| && i < |candidate| ==> SegmentMatches(f.parts[i], candidate[i], ignoreCase)
  {
    ScanPrefixAgrees(f.parts, candidate, ignoreCase);
  }

  /**
    Bidirectional prefix: a selector matches every candidate that extends it
    (its descendants) and every candidate it extends (its ancestors).
   */
  lemma PrefixMatchesBothWays(shorter: seq<string>, longer: seq<string>, ignoreCase: bool)
    requires |shorter| <= |longer| && longer[..|shorter|] == shorter
    ensures Matches(Field(shorter), longer, ignoreCase)
    ensures Matches(Field(longer), shorter, ignoreCase)
  {
    forall i | 0 <= i < |shorter| ensures SegmentMatches(shorter[i], longer[i], ignoreCase) && SegmentMatches(longer[i], shorter[i], ignoreCase) {
      assert longer[..|shorter|][i] == longer[i];
    }
    MatchesIff(Field(shorter), longer, ignoreCase);
    MatchesIff(Field(longer), shorter, ignoreCase);
  }

  /** One rejected segment anywhere in the common prefix rejects the whole candidate. */
  lemma MismatchRejects(f: Field, candidate: seq<string>, ignoreCase: bool, i: nat)
    requires i < |f.parts| && i < |candidate|
    requires !SegmentMatches(f.parts[i], candidate[i], ignoreCase)
    ensures !Matches(f, candidate, ignoreCase)
  {
    MatchesIff(f, candidate, ignoreCase);
  }

  /** A wildcard segment accepts any candidate segment in its position. */
  lemma WildcardAcceptsAny(before: seq<string>, after: seq<string>, candidate: seq<string>, ignoreCase: bool)
    requires |before| < |candidate|
    requires forall i :: 0 <= i < |before| ==> SegmentMatches(before[i], candidate[i], ignoreCase)
    requires AgreeOnCommonPrefix(after, candidate[|before| + 1..], ignoreCase)
    ensures Matches(Field(before + [Wildcard] + after), candidate, ignoreCase)
  {
    var parts := before + [Wildcard] + after;
    forall i | 0 <= i < |parts| && i < |candidate| ensures SegmentMatches(parts[i], candidate[i], ignoreCase) {
      if i > |before| {
        assert parts[i] == after[i - |before| - 1];
        assert candidate[|before| + 1..][i - |before| - 1] == candidate[i];
      }
    }
    MatchesIff(Field(parts), candidate, ignoreCase);
  }

  /** Ignoring case never loses a match. */
  lemma IgnoringCaseIsWeaker(f: Field, candidate: seq<string>)
    ensures Matches(f, candidate, false) ==> Matches(f, candidate, true)
  {
    MatchesIff(f, candidate, false);
    MatchesIff(f, candidate, true);
  }

  /** Only the wildcard lower-cases to the wildcard. */
  lemma LowerWildcard(p: string)
    ensures LowerText(p) == Wildcard <==> p == Wildcard
  {
    if LowerText(p) == Wildcard {
      assert Lower(p[0]) == '*';
      assert p == [p[0]];
    }
  }

  /**
    Matching while ignoring case is case-sensitive matching of the lower-cased
    segments on both sides; the wildcard keeps its meaning because lower-casing
    leaves it alone.
   */
  lemma IgnoreCaseIsLowerCaseMatch(f: Field, candidate: seq<string>)
    ensures Matches(f, candidate, true) <==> Matches(Field(LowerAll(f.parts)), LowerAll(candidate), false)
  {
    forall i | 0 <= i < |f.parts| && i < |candidate|
      ensures SegmentMatches(f.parts[i], candidate[i], true) <==> SegmentMatches(LowerAll(f.parts)[i], LowerAll(candidate)[i], false)
    {
      LowerWildcard(f.parts[i]);
    }
    MatchesIff(f, candidate, true);
    MatchesIff(Field(LowerAll(f.parts)), LowerAll(candidate), false);
  }

  /** `ToString` returns the text the field was built from. */
  lemma ToTextOfFieldOf(value: string)
    ensures ToText(FieldOf(value)) == value
  {
    JoinSplit(value, PathSeparator);
  }

  /** Building a field from the text of a field with separator-free segments gives it back. */
  lemma FieldOfToText(f: Field)
    requires |f.parts| >= 1 && SeparatorFree(f.parts, PathSeparator)
    ensures FieldOf(ToText(f)) == f
  {
    SplitJoin(f.parts, PathSeparator);
  }

  // The cases pinned by the unit tests of `Field`.

  lemma PartsOfSingleValue()
    ensures FieldOf("foo").parts == ["foo"]
  {
    SplitFree("foo", PathSeparator);
  }

  lemma PartsOfNestedValue()
    ensures FieldOf("foo/bar").parts == ["foo", "bar"]
  {
    SplitConcat("foo", "bar", PathSeparator);
    SplitFree("foo", PathSeparator);
    SplitFree("bar", PathSeparator);
    assert "foo" + [PathSeparator] + "bar" == "foo/bar";
  }

  lemma DifferentValueDoesNotMatch()
    ensures !Matches(FieldOf("foo"), ["bar"], false)
  {
    PartsOfSingleValue();
  }

  lemma DifferentNestedValueDoesNotMatch()
    ensures !Matches(FieldOf("foo/bar"), ["foo", "baz"], false)
  {
    PartsOfNestedValue();
  }

  lemma SameValueMatches()
    ensures Matches(FieldOf("foo"), ["foo"], false)
  {
    PartsOfSingleValue();
  }

  lemma DescendantMatches()
    ensures Matches(FieldOf("foo"), ["foo", "bar"], false)
  {
    PartsOfSingleValue();
  }

  lemma AncestorMatches()
    ensures Matches(FieldOf("foo/bar"), ["foo"], false)
  {
    PartsOfNestedValue();
  }

  lemma WildcardMatches()
    ensures Matches(FieldOf("*"), ["foo"], false)
  {
    SplitFree("*", PathSeparator);
  }

  lemma IgnoreCaseMatches()
    ensures Matches(FieldOf("foo"), ["FOO"], true)
    ensures !Matches(FieldOf("foo"), ["FOO"], false)
  {
    PartsOfSingleValue();
    assert LowerText("FOO") == "foo";
    assert LowerText("foo") == "foo";
  }

  lemma ToTextReturnsValue()
    ensures ToText(FieldOf("foo/bar")) == "foo/bar"
  {
    ToTextOfFieldOf("foo/bar");
  }
}
