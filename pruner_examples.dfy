/**
  Worked trees for the pruner: each lemma pins what pruning writes for one
  input tree and one selector predicate.
 */
module PruningExamples {
  import opened Optional
  import opened Paths
  import opened JsonPruner

  const One: Json := Value("1")
  const Two: Json := Value("2")
  const Three: Json := Value("3")

  /** `{"a":{"b":1,"c":2},"d":3}` */
  const Nested: Json := Obj([Prop("a", Obj([Prop("b", One), Prop("c", Two)])), Prop("d", Three)])

  /** Accepts `a` and `a/b` only. */
  predicate KeepAB(q: string)
  {
    q == "a" || q == "a/b"
  }

  lemma PathsOfNested()
    ensures CombinePath(None, "a") == "a" && CombinePath(None, "d") == "d"
    ensures CombinePath(Some("a"), "b") == "a/b" && CombinePath(Some("a"), "c") == "a/c"
  {
    assert "a" + [PathSeparator] + "b" == "a/b";
    assert "a" + [PathSeparator] + "c" == "a/c";
  }

  /** Selecting `a` and `a/b` from `{"a":{"b":1,"c":2},"d":3}` writes `{"a":{"b":1}}`. */
  lemma SelectingNestedProperty()
    ensures Pruned(Some(Nested), KeepAB) == Some(Obj([Prop("a", Obj([Prop("b", One)]))]))
  {
    PathsOfNested();
    var inner := [Prop("b", One), Prop("c", Two)];
    assert PrunePropertiesUpTo(inner, 1, Some("a"), KeepAB) == [Prop("b", One)];
    assert PrunePropertiesUpTo(inner, 2, Some("a"), KeepAB) == [Prop("b", One)];
    assert PruneProperties(inner, Some("a"), KeepAB) == [Prop("b", One)];
    assert PropertyFate(Nested.props[0], None, KeepAB) == [Prop("a", Obj([Prop("b", One)]))];
    assert PropertyFate(Nested.props[1], None, KeepAB) == [];
    assert PrunePropertiesUpTo(Nested.props, 1, None, KeepAB) == [Prop("a", Obj([Prop("b", One)]))];
    assert PrunePropertiesUpTo(Nested.props, 2, None, KeepAB) == [Prop("a", Obj([Prop("b", One)]))];
  }

  /** In that pass, the paths evaluated are `a`, `a/b`, `a/c` and `d`; nothing below the rejected `d`. */
  lemma NestedEvaluatedPaths()
    ensures Evaluated(Some(Nested), KeepAB) == {"a", "a/b", "a/c", "d"}
  {
    PathsOfNested();
    var inner := [Prop("b", One), Prop("c", Two)];
    assert VisitedProperty(inner[0], Some("a"), KeepAB) == {"a/b"};
    assert VisitedProperty(inner[1], Some("a"), KeepAB) == {"a/c"};
    assert VisitedPropertiesUpTo(inner, 1, Some("a"), KeepAB) == {"a/b"};
    assert VisitedPropertiesUpTo(inner, 2, Some("a"), KeepAB) == {"a/b", "a/c"};
    assert VisitedProperties(inner, Some("a"), KeepAB) == {"a/b", "a/c"};
    assert VisitedProperty(Nested.props[0], None, KeepAB) == {"a", "a/b", "a/c"};
    assert VisitedProperty(Nested.props[1], None, KeepAB) == {"d"};
    assert VisitedPropertiesUpTo(Nested.props, 1, None, KeepAB) == {"a", "a/b", "a/c"};
    assert VisitedPropertiesUpTo(Nested.props, 2, None, KeepAB) == {"a", "a/b", "a/c", "d"};
  }

  /** The whole pass on that tree, run through the mutable pruner. */
  method PruneNested() returns (written: Option<Json>)
    ensures written == Some(Obj([Prop("a", Obj([Prop("b", One)]))]))
  {
    ghost var queried;
    written, queried := RemovePropertiesAndArrayElements(Some(Nested), KeepAB);
    SelectingNestedProperty();
  }

  /** `[{"a":1},{"a":2}]`: two sibling elements whose property has the one path `a`. */
  const Siblings: Json := Arr([Obj([Prop("a", One)]), Obj([Prop("a", Two)])])

  lemma SiblingsEvaluateOnePath(keep: string -> bool)
    ensures Evaluated(Some(Siblings), keep) == {"a"}
  {
    PathsOfNested();
    var first, second := [Prop("a", One)], [Prop("a", Two)];
    assert VisitedProperty(first[0], None, keep) == {"a"};
    assert VisitedProperty(second[0], None, keep) == {"a"};
    assert VisitedPropertiesUpTo(first, 1, None, keep) == {"a"};
    assert VisitedPropertiesUpTo(second, 1, None, keep) == {"a"};
    assert ElementVisits(Siblings.elems[0], None, keep) == VisitedProperties(first, None, keep) == {"a"};
    assert ElementVisits(Siblings.elems[1], None, keep) == VisitedProperties(second, None, keep) == {"a"};
    assert VisitedElementsUpTo(Siblings.elems, 1, None, keep) == {"a"};
    assert VisitedElementsUpTo(Siblings.elems, 2, None, keep) == {"a"};
  }

  /** Both elements stand or fall with the one decision on `a`. */
  lemma SiblingsPruned(keep: string -> bool)
    ensures Pruned(Some(Siblings), keep) == if keep("a") then Some(Siblings) else Some(Arr([]))
  {
    PathsOfNested();
    var first, second := [Prop("a", One)], [Prop("a", Two)];
    assert first[0].value.Value? && second[0].value.Value?;
    assert PrunedArrayValue(first[0], None, keep) == [first[0]] == first;
    assert PrunedArrayValue(second[0], None, keep) == [second[0]] == second;
    assert PropertyFate(first[0], None, keep) == if keep("a") then first else [];
    assert PropertyFate(second[0], None, keep) == if keep("a") then second else [];
    assert PrunePropertiesUpTo(first, 1, None, keep) == PrunePropertiesUpTo(first, 0, None, keep) + PropertyFate(first[0], None, keep);
    assert PrunePropertiesUpTo(second, 1, None, keep) == PrunePropertiesUpTo(second, 0, None, keep) + PropertyFate(second[0], None, keep);
    assert PruneProperties(first, None, keep) == if keep("a") then first else [];
    assert PruneProperties(second, None, keep) == if keep("a") then second else [];
    assert Siblings.elems[0] == Obj(first) && Siblings.elems[1] == Obj(second);
    assert ElementFate(Siblings.elems[0], None, keep) == if keep("a") then [Siblings.elems[0]] else [];
    assert ElementFate(Siblings.elems[1], None, keep) == if keep("a") then [Siblings.elems[1]] else [];
    assert PruneElementsUpTo(Siblings.elems, 1, None, keep) == if keep("a") then [Siblings.elems[0]] else [];
    assert PruneElementsUpTo(Siblings.elems, 2, None, keep) == if keep("a") then Siblings.elems else [];
  }

  /**
    The memo at work: the path `a` of both elements is handed to the predicate
    once, and both elements get the same decision.
   */
  method SiblingsShareOneQuery(keep: string -> bool) returns (written: Option<Json>, ghost queried: seq<string>)
    ensures queried == ["a"]
    ensures written == if keep("a") then Some(Siblings) else Some(Arr([]))
  {
    written, queried := RemovePropertiesAndArrayElements(Some(Siblings), keep);
    SiblingsEvaluateOnePath(keep);
    SiblingsPruned(keep);
    assert queried[0] in queried;
  }

  predicate KeepAll(q: string)
  {
    true
  }

  predicate KeepNone(q: string)
  {
    false
  }

  /** `{"a":{}}` writes `{}`: the emptied object is removed from its parent, the root stays. */
  lemma EmptyChildCascades()
    ensures Pruned(Some(Obj([Prop("a", Obj([]))])), KeepAll) == Some(Obj([]))
  {
    assert PrunePropertiesUpTo([Prop("a", Obj([]))], 1, None, KeepAll) == [];
  }

  lemma {:induction false} RejectAllUpTo(ps: seq<Prop>, n: nat, path: Option<string>)
    requires n <= |ps|
    ensures PrunePropertiesUpTo(ps, n, path, KeepNone) == []
  {
    if n > 0 {
      RejectAllUpTo(ps, n - 1, path);
    }
  }

  /** Rejecting every path turns any object root into `{}`: it is emptied but, having no parent, never removed. */
  lemma RejectingEverythingKeepsRoot(ps: seq<Prop>)
    ensures Pruned(Some(Obj(ps)), KeepNone) == Some(Obj([]))
  {
    RejectAllUpTo(ps, |ps|, None);
  }

  /** Accepts `items` but nothing below it. */
  predicate KeepItems(q: string)
  {
    q == "items"
  }

  /**
    `{"items":[{"x":1},2,[]]}` with only `items` accepted writes `{"items":[2,[]]}`:
    the object element is pruned at `items/x` (the array's path, no index) and goes
    once empty, while the scalar and the nested empty array stay as they are.
   */
  lemma ArrayElementsUseArrayPath()
    ensures Pruned(Some(Obj([Prop("items", Arr([Obj([Prop("x", One)]), Two, Arr([])]))])), KeepItems)
      == Some(Obj([Prop("items", Arr([Two, Arr([])]))]))
  {
    assert CombinePath(None, "items") == "items";
    assert CombinePath(Some("items"), "x") == "items/x";
    assert !KeepItems("items/x");
    assert PrunePropertiesUpTo([Prop("x", One)], 1, Some("items"), KeepItems) == [];
    assert PruneProperties([Prop("x", One)], Some("items"), KeepItems) == [];
    var elems := [Obj([Prop("x", One)]), Two, Arr([])];
    assert ElementFate(elems[0], Some("items"), KeepItems) == [];
    assert PruneElementsUpTo(elems, 1, Some("items"), KeepItems) == [];
    assert PruneElementsUpTo(elems, 2, Some("items"), KeepItems) == [Two];
    assert PruneElementsUpTo(elems, 3, Some("items"), KeepItems) == [Two, Arr([])];
    assert PruneElements(elems, Some("items"), KeepItems) == [Two, Arr([])];
    var p := Prop("items", Arr(elems));
    assert PrunedArrayValue(p, None, KeepItems) == [Prop("items", Arr([Two, Arr([])]))];
    assert PropertyFate(p, None, KeepItems) == [Prop("items", Arr([Two, Arr([])]))];
    assert PrunePropertiesUpTo([p], 1, None, KeepItems) == [Prop("items", Arr([Two, Arr([])]))];
  }

  /** `{"items":[{"x":1}]}` with only `items` accepted writes `{}`: emptiness cascades through the array. */
  lemma EmptiedArrayCascades()
    ensures Pruned(Some(Obj([Prop("items", Arr([Obj([Prop("x", One)])]))])), KeepItems) == Some(Obj([]))
  {
    assert CombinePath(None, "items") == "items";
    assert CombinePath(Some("items"), "x") == "items/x";
    assert !KeepItems("items/x");
    assert PrunePropertiesUpTo([Prop("x", One)], 1, Some("items"), KeepItems) == [];
    assert PruneProperties([Prop("x", One)], Some("items"), KeepItems) == [];
    var elems := [Obj([Prop("x", One)])];
    assert PruneElementsUpTo(elems, 1, Some("items"), KeepItems) == [];
    assert PruneElements(elems, Some("items"), KeepItems) == [];
    var p := Prop("items", Arr(elems));
    assert PrunedArrayValue(p, None, KeepItems) == [];
    assert PrunePropertiesUpTo([p], 1, None, KeepItems) == [];
  }

  /** `[{"a":1}]` with every path rejected writes `[]`: the emptied element goes, the root array stays. */
  lemma RejectingEverythingKeepsRootArray()
    ensures Pruned(Some(Arr([Obj([Prop("a", One)])])), KeepNone) == Some(Arr([]))
  {
    assert PrunePropertiesUpTo([Prop("a", One)], 1, None, KeepNone) == [];
    assert PruneProperties([Prop("a", One)], None, KeepNone) == [];
    assert PruneElementsUpTo([Obj([Prop("a", One)])], 1, None, KeepNone) == [];
  }

  /** An empty array nested in the root array is not an object element, so `[[]]` is written unchanged. */
  lemma NestedEmptyArrayStays()
    ensures Pruned(Some(Arr([Arr([])])), KeepNone) == Some(Arr([Arr([])]))
  {
    assert PruneElementsUpTo([Arr([])], 1, None, KeepNone) == [Arr([])];
  }

  /** Arrays nested in arrays are not walked, so even an object inside one is written unchanged. */
  lemma ObjectInNestedArrayStays()
    ensures Pruned(Some(Arr([Arr([Obj([Prop("x", One)])])])), KeepNone) == Some(Arr([Arr([Obj([Prop("x", One)])])]))
  {
    assert PruneElementsUpTo([Arr([Obj([Prop("x", One)])])], 1, None, KeepNone) == [Arr([Obj([Prop("x", One)])])];
  }

  /** A null root and a scalar root are written as they are. */
  lemma NullAndScalarRoots(keep: string -> bool)
    ensures Pruned(None, keep) == None
    ensures Pruned(Some(Three), keep) == Some(Three)
  {
  }
}
