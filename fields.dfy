/**
  `Fields`: the parsed set of selector paths of one selector text, its
  all-or-nothing `TryParse`, and its aggregate match over a path string.
 */
module FieldSet {
  import opened Segments
  import opened FieldSelector
  import opened Paths
  import opened Optional

  const ListSeparator: char := ','

  /** A parsed selector; insertion order is kept. */
  datatype Fields = Fields(values: seq<Field>)

  /** `default(Fields)`: no values at all. */
  const Default: Fields := Fields([])

  /** A clause is well formed when none of its segments is empty. */
  predicate WellFormedClause(clause: string)
  {
    forall j :: 0 <= j < |Split(clause, PathSeparator)| ==> Split(clause, PathSeparator)[j] != ""
  }

  /** A selector text is well formed when every clause between list separators is. */
  predicate WellFormed(value: string)
  {
    forall i :: 0 <= i < |Split(value, ListSeparator)| ==> WellFormedClause(Split(value, ListSeparator)[i])
  }

  /** Compile the clauses in order, failing as a whole on the first malformed one. */
  function ParseClauses(clauses: seq<string>): (r: Option<seq<Field>>)
    ensures r.Some? ==> |r.value| == |clauses|
    decreases |clauses|
  {
    if clauses == [] then Some([])
    else if !WellFormedClause(clauses[0]) then None
    else
      match ParseClauses(clauses[1..])
      case None => None
      case Some(rest) => Some([FieldOf(clauses[0])] + rest)
  }

  /**
    `Fields.TryParse(value, out fields)`: the success flag, and the parsed set,
    which is `Default` whenever parsing fails.
   */
  function TryParse(value: string): (result: (bool, Fields))
    ensures result.0 <==> WellFormed(value)
    ensures !result.0 ==> result.1 == Default
    ensures result.0 ==> |result.1.values| == |Split(value, ListSeparator)|
    ensures result.0 ==> forall i :: 0 <= i < |result.1.values| ==>
      result.1.values[i] == FieldOf(Split(value, ListSeparator)[i])
  {
    ParseClausesSpec(Split(value, ListSeparator));
    match ParseClauses(Split(value, ListSeparator))
    case None => (false, Default)
    case Some(values) => (true, Fields(values))
  }

  lemma {:induction false} ParseClausesSpec(clauses: seq<string>)
    ensures ParseClauses(clauses).Some? <==> forall i :: 0 <= i < |clauses| ==> WellFormedClause(clauses[i])
    ensures ParseClauses(clauses).Some? ==> forall i :: 0 <= i < |clauses| ==>
      ParseClauses(clauses).value[i] == FieldOf(clauses[i])
    decreases |clauses|
  {
    if clauses != [] {
      ParseClausesSpec(clauses[1..]);
      if forall i :: 0 <= i < |clauses| ==> WellFormedClause(clauses[i]) {
        assert forall i :: 0 <= i < |clauses[1..]| ==> WellFormedClause(clauses[1..][i]) by {
          forall i | 0 <= i < |clauses[1..]| ensures WellFormedClause(clauses[1..][i]) { assert clauses[1..][i] == clauses[i + 1]; }
        }
      }
      if ParseClauses(clauses).Some? {
        forall i | 0 <= i < |clauses| ensures WellFormedClause(clauses[i]) && ParseClauses(clauses).value[i] == FieldOf(clauses[i]) {
          if i > 0 { assert clauses[1..][i - 1] == clauses[i]; }
        }
      }
    }
  }

  /** The text of a parsed set: each field's text, joined by the list separator. */
  function ToText(fields: Fields): (text: string)
  {
    Join(FieldTexts(fields.values), ListSeparator)
  }

  function FieldTexts(values: seq<Field>): (texts: seq<string>)
    ensures |texts| == |values|
    ensures forall i :: 0 <= i < |values| ==> texts[i] == FieldSelector.ToText(values[i])
  {
    seq(|values|, i requires 0 <= i < |values| => FieldSelector.ToText(values[i]))
  }

  /** What parsing succeeded on prints back as the very same text. */
  lemma TryParseRoundTrip(value: string)
    requires TryParse(value).0
    ensures ToText(TryParse(value).1) == value
  {
    var clauses := Split(value, ListSeparator);
    var texts := FieldTexts(TryParse(value).1.values);
    forall i | 0 <= i < |clauses| ensures texts[i] == clauses[i] {
      ToTextOfFieldOf(clauses[i]);
    }
    assert texts == clauses;
    JoinSplit(value, ListSeparator);
  }

  /** A set whose fields have non-empty segments free of both separators parses back from its text. */
  ghost predicate Printable(fields: Fields)
  {
    && |fields.values| >= 1
    && forall i :: 0 <= i < |fields.values| ==>
         && |fields.values[i].parts| >= 1
         && forall j :: 0 <= j < |fields.values[i].parts| ==>
              && fields.values[i].parts[j] != ""
              && PathSeparator !in fields.values[i].parts[j]
              && ListSeparator !in fields.values[i].parts[j]
  }

  lemma ParseOfToText(fields: Fields)
    requires Printable(fields)
    ensures TryParse(ToText(fields)) == (true, fields)
  {
    var texts := FieldTexts(fields.values);
    forall i | 0 <= i < |texts| ensures ListSeparator !in texts[i] && FieldOf(texts[i]) == fields.values[i] {
      FieldOfToText(fields.values[i]);
      NoCharInJoin(fields.values[i].parts, PathSeparator, ListSeparator);
    }
    SplitJoin(texts, ListSeparator);
    var value := ToText(fields);
    assert Split(value, ListSeparator) == texts;
    forall i | 0 <= i < |texts| ensures WellFormedClause(texts[i]) {
      SplitJoin(fields.values[i].parts, PathSeparator);
    }
    assert TryParse(value).1.values == fields.values;
  }

  /** A character that is neither the separator nor in any piece is not in the join. */
  lemma {:induction false} NoCharInJoin(pieces: seq<string>, sep: char, c: char)
    requires c != sep
    requires forall i :: 0 <= i < |pieces| ==> c !in pieces[i]
    ensures c !in Join(pieces, sep)
    decreases |pieces|
  {
    if |pieces| > 1 {
      NoCharInJoin(pieces[1..], sep, c);
      assert c !in pieces[0];
    }
  }

  /** `Fields.Matches(value, ignoreCase)`: some field matches the segments of `value`. */
  predicate Matches(fields: Fields, value: string, ignoreCase: bool)
  {
    AnyMatches(fields.values, Split(value, PathSeparator), ignoreCase)
  }

  function AnyMatches(values: seq<Field>, candidate: seq<string>, ignoreCase: bool): (matched: bool)
    decreases |values|
  {
    values != [] && (FieldSelector.Matches(values[0], candidate, ignoreCase) || AnyMatches(values[1..], candidate, ignoreCase))
  }

  /** The set matches exactly when one of its fields does. */
  lemma {:induction false} MatchesIffSomeField(values: seq<Field>, candidate: seq<string>, ignoreCase: bool)
    ensures AnyMatches(values, candidate, ignoreCase) <==>
      exists i :: 0 <= i < |values| && FieldSelector.Matches(values[i], candidate, ignoreCase)
    decreases |values|
  {
    if values != [] {
      MatchesIffSomeField(values[1..], candidate, ignoreCase);
      if exists i :: 0 <= i < |values| && FieldSelector.Matches(values[i], candidate, ignoreCase) {
        var i :| 0 <= i < |values| && FieldSelector.Matches(values[i], candidate, ignoreCase);
        if i > 0 { assert values[1..][i - 1] == values[i]; }
      }
      if AnyMatches(values[1..], candidate, ignoreCase) {
        var i :| 0 <= i < |values[1..]| && FieldSelector.Matches(values[1..][i], candidate, ignoreCase);
        assert values[i + 1] == values[1..][i];
      }
    }
  }

  /** The default set matches nothing. */
  lemma DefaultMatchesNothing(value: string, ignoreCase: bool)
    ensures !Matches(Default, value, ignoreCase)
  {
  }

  // The cases pinned by the unit tests of `Fields`.

  lemma DefaultHasNoValues()
    ensures Default.values == []
  {
  }

  lemma MalformedTextFails()
    ensures TryParse("foo//") == (false, Default)
  {
    SplitFree("foo//", ListSeparator);
    assert Split("foo//", ListSeparator) == ["foo//"];
    SplitConcat("foo", "/", PathSeparator);
    SplitConcat("", "", PathSeparator);
    SplitFree("foo", PathSeparator);
    assert "foo" + [PathSeparator] + "/" == "foo//";
    assert "" + [PathSeparator] + "" == "/";
    assert Split("foo//", PathSeparator) == ["foo", "", ""];
    assert Split("foo//", PathSeparator)[1] == "";
    assert !WellFormedClause("foo//");
    assert Split("foo//", ListSeparator)[0] == "foo//";
    assert !WellFormed("foo//");
  }

  lemma ParseOfFoo()
    ensures TryParse("foo") == (true, Fields([Field(["foo"])]))
  {
    SplitFree("foo", ListSeparator);
    SplitFree("foo", PathSeparator);
    assert Split("foo", PathSeparator)[0] == "foo";
    assert WellFormedClause("foo");
    assert Split("foo", ListSeparator)[0] == "foo";
    assert WellFormed("foo");
    assert FieldOf("foo") == Field(["foo"]);
    assert TryParse("foo").1.values[0] == FieldOf("foo");
    assert TryParse("foo").1.values == [Field(["foo"])];
  }

  lemma ParsedFooDoesNotMatchBar()
    ensures !Matches(TryParse("foo").1, "bar", false)
  {
    ParseOfFoo();
    SplitFree("bar", PathSeparator);
  }

  lemma ParsedFooMatchesFoo()
    ensures Matches(TryParse("foo").1, "foo", false)
  {
    ParseOfFoo();
  }

  lemma ParsedFooMatchesUpperCaseWhenIgnoringCase()
    ensures Matches(TryParse("foo").1, "FOO", true)
  {
    ParseOfFoo();
    SplitFree("FOO", PathSeparator);
    assert LowerText("FOO") == "foo";
    assert LowerText("foo") == "foo";
  }
}
