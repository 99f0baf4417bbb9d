/**
  The tree pruner of `PartialJsonUtilities`: walks a JSON tree, removes every
  object property whose path the `shouldSerialize` predicate rejects, prunes the
  object elements of arrays with the array's own path, and removes non-root
  containers that end up empty.

  The tree is a value; where the source removes a token through its parent
  pointer, the model's callee reports a `Removal` and the caller leaves the
  token out of the container it rebuilds. The per-pass decision cache is the
  field of a `PruningPass` object that the recursive methods update.
 */
module JsonPruner {
  import opened Optional
  import opened Paths

  /** A JSON token: a scalar (`JValue`), an object (`JObject`) or an array (`JArray`). */
  datatype Json = Value(raw: string) | Obj(props: seq<Prop>) | Arr(elems: seq<Json>)

  /** A property (`JProperty`) of an object: its name and its value. */
  datatype Prop = Prop(name: string, value: Json)

  /** Where a container sits: no parent at all, the value of a property, or an element of an array. */
  datatype Slot = Root | PropertyValue | ArrayElement

  /** What `RemoveObjectIfEmpty` / `RemoveArrayIfEmpty` did to a container's place in its parent. */
  datatype Removal = Stays | RemovesProperty | RemovesElement

  /**
    The removal of an emptied container: its owning property when it is a
    property value, itself when it is an array element, nothing at the root.
   */
  function RemoveIfEmpty(isEmpty: bool, slot: Slot): (r: Removal)
    ensures r == RemovesProperty <==> isEmpty && slot == PropertyValue
    ensures r == RemovesElement <==> isEmpty && slot == ArrayElement
    ensures slot == Root ==> r == Stays
  {
    if !isEmpty then Stays
    else match slot
      case Root => Stays
      case PropertyValue => RemovesProperty
      case ArrayElement => RemovesElement
  }

  // ---------------------------------------------------------------------------
  // Specification: what a pass leaves of a tree, as functions of the tree.
  // A function `XUpTo(s, n)` covers the first `n` elements of `s`, so that a
  // loop over `s` extends it by one element per iteration.

  /** What pruning an object with properties `props` at `path` leaves of them. */
  function PruneProperties(props: seq<Prop>, path: Option<string>, keep: string -> bool): (kept: seq<Prop>)
    decreases props, 3
  {
    PrunePropertiesUpTo(props, |props|, path, keep)
  }

  function PrunePropertiesUpTo(props: seq<Prop>, n: nat, path: Option<string>, keep: string -> bool): (kept: seq<Prop>)
    requires n <= |props|
    decreases props, 2, n
  {
    if n == 0 then []
    else PrunePropertiesUpTo(props, n - 1, path, keep) + PropertyFate(props[n - 1], path, keep)
  }

  /** What becomes of one property: nothing, or the property with its pruned value. */
  function PropertyFate(p: Prop, path: Option<string>, keep: string -> bool): (kept: seq<Prop>)
    decreases p, 1
  {
    if !keep(CombinePath(path, p.name)) then []
    else if p.value.Obj? then PrunedObjectValue(p, path, keep)
    else PrunedArrayValue(p, path, keep)
  }

  /** The second pass on one surviving property: an object value is pruned, and dropped once empty. */
  function PrunedObjectValue(p: Prop, path: Option<string>, keep: string -> bool): (kept: seq<Prop>)
    decreases p, 0
  {
    match p.value
    case Obj(ps) =>
      var r := PruneProperties(ps, Some(CombinePath(path, p.name)), keep);
      if r == [] then [] else [Prop(p.name, Obj(r))]
    case _ => [p]
  }

  /** The third pass on one surviving property: an array value is pruned, and dropped once empty. */
  function PrunedArrayValue(p: Prop, path: Option<string>, keep: string -> bool): (kept: seq<Prop>)
    decreases p, 0
  {
    match p.value
    case Arr(es) =>
      var r := PruneElements(es, Some(CombinePath(path, p.name)), keep);
      if r == [] then [] else [Prop(p.name, Arr(r))]
    case _ => [p]
  }

  /** What pruning an array with elements `elems` at `path` leaves of them. */
  function PruneElements(elems: seq<Json>, path: Option<string>, keep: string -> bool): (kept: seq<Json>)
    decreases elems, 3
  {
    PruneElementsUpTo(elems, |elems|, path, keep)
  }

  function PruneElementsUpTo(elems: seq<Json>, n: nat, path: Option<string>, keep: string -> bool): (kept: seq<Json>)
    requires n <= |elems|
    decreases elems, 2, n
  {
    if n == 0 then []
    else PruneElementsUpTo(elems, n - 1, path, keep) + ElementFate(elems[n - 1], path, keep)
  }

  /** An object element is pruned with the array's own path and dropped once empty; others stay. */
  function ElementFate(e: Json, path: Option<string>, keep: string -> bool): (kept: seq<Json>)
    decreases e, 1
  {
    match e
    case Obj(ps) =>
      var r := PruneProperties(ps, path, keep);
      if r == [] then [] else [Obj(r)]
    case _ => [e]
  }

  /** What `RemovePropertiesAndArrayElements` writes: `None` stands for the null the serializer writes. */
  function Pruned(value: Option<Json>, keep: string -> bool): (written: Option<Json>)
    ensures written.Some? <==> value.Some?
    ensures value.Some? && value.value.Obj? ==> written.value.Obj?
    ensures value.Some? && value.value.Arr? ==> written.value.Arr?
    ensures value.Some? && value.value.Value? ==> written == value
  {
    match value
    case None => None
    case Some(Obj(ps)) => Some(Obj(PruneProperties(ps, None, keep)))
    case Some(Arr(es)) => Some(Arr(PruneElements(es, None, keep)))
    case Some(v) => Some(v)
  }

  // The three passes of an object, as the loops run them.

  /** The first pass over the first `n` properties: those whose path `keep` accepts, in order. */
  function KeptUpTo(props: seq<Prop>, n: nat, path: Option<string>, keep: string -> bool): (kept: seq<Prop>)
    requires n <= |props|
  {
    if n == 0 then []
    else
      var p := props[n - 1];
      KeptUpTo(props, n - 1, path, keep) + (if keep(CombinePath(path, p.name)) then [p] else [])
  }

  /** The first pass only drops properties: what it keeps comes from `props`. */
  lemma {:induction false} KeptFromProps(props: seq<Prop>, n: nat, path: Option<string>, keep: string -> bool)
    requires n <= |props|
    ensures forall j :: 0 <= j < |KeptUpTo(props, n, path, keep)| ==> KeptUpTo(props, n, path, keep)[j] in props
  {
    if n > 0 {
      KeptFromProps(props, n - 1, path, keep);
    }
  }

  /** The second pass over the first `n` properties of a snapshot. */
  function ObjectPassUpTo(props: seq<Prop>, n: nat, path: Option<string>, keep: string -> bool): (kept: seq<Prop>)
    requires n <= |props|
  {
    if n == 0 then []
    else ObjectPassUpTo(props, n - 1, path, keep) + PrunedObjectValue(props[n - 1], path, keep)
  }

  /** The second pass only rebuilds object values: an array-valued property it leaves comes from `props`. */
  lemma {:induction false} ObjectPassFromProps(props: seq<Prop>, survivors: seq<Prop>, n: nat, path: Option<string>, keep: string -> bool)
    requires n <= |survivors|
    requires forall j :: 0 <= j < |survivors| ==> survivors[j] in props
    ensures var o := ObjectPassUpTo(survivors, n, path, keep);
      forall j :: 0 <= j < |o| ==> o[j].value.Arr? ==> o[j] in props
  {
    if n > 0 {
      ObjectPassFromProps(props, survivors, n - 1, path, keep);
      var p := survivors[n - 1];
      var before, x := ObjectPassUpTo(survivors, n - 1, path, keep), PrunedObjectValue(p, path, keep);
      assert forall j :: 0 <= j < |before| ==> before[j].value.Arr? ==> before[j] in props by {
        assert var o := ObjectPassUpTo(survivors, n - 1, path, keep); forall j :: 0 <= j < |o| ==> o[j].value.Arr? ==> o[j] in props;
      }
      assert p in props;
      assert forall j :: 0 <= j < |x| ==> x[j].value.Arr? ==> x[j] == p;
      forall j | 0 <= j < |before + x| && (before + x)[j].value.Arr? ensures (before + x)[j] in props {
        if j >= |before| {
          assert (before + x)[j] == x[j - |before|];
        } else {
          assert (before + x)[j] == before[j];
        }
      }
    }
  }

  /** The third pass over the first `n` properties of a snapshot. */
  function ArrayPassUpTo(props: seq<Prop>, n: nat, path: Option<string>, keep: string -> bool): (kept: seq<Prop>)
    requires n <= |props|
  {
    if n == 0 then []
    else ArrayPassUpTo(props, n - 1, path, keep) + PrunedArrayValue(props[n - 1], path, keep)
  }

  lemma {:induction false} ObjectPassPrefix(s: seq<Prop>, t: seq<Prop>, n: nat, path: Option<string>, keep: string -> bool)
    requires n <= |s|
    ensures ObjectPassUpTo(s + t, n, path, keep) == ObjectPassUpTo(s, n, path, keep)
  {
    if n > 0 {
      ObjectPassPrefix(s, t, n - 1, path, keep);
      assert (s + t)[n - 1] == s[n - 1];
    }
  }

  lemma {:induction false} ArrayPassPrefix(s: seq<Prop>, t: seq<Prop>, n: nat, path: Option<string>, keep: string -> bool)
    requires n <= |s|
    ensures ArrayPassUpTo(s + t, n, path, keep) == ArrayPassUpTo(s, n, path, keep)
  {
    if n > 0 {
      ArrayPassPrefix(s, t, n - 1, path, keep);
      assert (s + t)[n - 1] == s[n - 1];
    }
  }

  /** The third pass over the output of the second pass on a single accepted property is that property's fate. */
  lemma PassesOnOneProperty(o: seq<Prop>, p: Prop, path: Option<string>, keep: string -> bool)
    requires keep(CombinePath(path, p.name))
    ensures ArrayPassUpTo(o + PrunedObjectValue(p, path, keep), |o + PrunedObjectValue(p, path, keep)|, path, keep)
         == ArrayPassUpTo(o, |o|, path, keep) + PropertyFate(p, path, keep)
  {
    var x := PrunedObjectValue(p, path, keep);
    if x == [] {
      assert o + x == o;
    } else {
      ArrayPassPrefix(o, x, |o|, path, keep);
      assert (o + x)[|o|] == x[0];
      if p.value.Obj? {
        assert x[0].value.Obj?;
      } else {
        assert x == [p];
      }
    }
  }

  /** One more property extends the output of the three passes by that property's fate. */
  lemma PassesStep(props: seq<Prop>, n: nat, path: Option<string>, keep: string -> bool)
    requires 0 < n <= |props|
    ensures var k, k' := KeptUpTo(props, n - 1, path, keep), KeptUpTo(props, n, path, keep);
      var o, o' := ObjectPassUpTo(k, |k|, path, keep), ObjectPassUpTo(k', |k'|, path, keep);
      ArrayPassUpTo(o', |o'|, path, keep) == ArrayPassUpTo(o, |o|, path, keep) + PropertyFate(props[n - 1], path, keep)
  {
    var p := props[n - 1];
    var k := KeptUpTo(props, n - 1, path, keep);
    var o := ObjectPassUpTo(k, |k|, path, keep);
    if keep(CombinePath(path, p.name)) {
      assert KeptUpTo(props, n, path, keep) == k + [p];
      ObjectPassPrefix(k, [p], |k|, path, keep);
      assert (k + [p])[|k|] == p;
      assert ObjectPassUpTo(k + [p], |k + [p]|, path, keep) == o + PrunedObjectValue(p, path, keep);
      PassesOnOneProperty(o, p, path, keep);
    } else {
      assert KeptUpTo(props, n, path, keep) == k + [] == k;
      assert o + [] == o;
    }
  }

  /** The three passes one after the other prune an object as specified. */
  lemma {:induction false} PassesCompose(props: seq<Prop>, n: nat, path: Option<string>, keep: string -> bool)
    requires n <= |props|
    ensures var k := KeptUpTo(props, n, path, keep);
      var o := ObjectPassUpTo(k, |k|, path, keep);
      ArrayPassUpTo(o, |o|, path, keep) == PrunePropertiesUpTo(props, n, path, keep)
  {
    if n > 0 {
      PassesCompose(props, n - 1, path, keep);
      PassesStep(props, n, path, keep);
    }
  }

  // ---------------------------------------------------------------------------
  // Specification of the decision cache: the paths a pass evaluates.

  /** The paths evaluated while pruning an object. */
  function VisitedProperties(props: seq<Prop>, path: Option<string>, keep: string -> bool): (visited: set<string>)
    decreases props, 3
  {
    VisitedPropertiesUpTo(props, |props|, path, keep)
  }

  function VisitedPropertiesUpTo(props: seq<Prop>, n: nat, path: Option<string>, keep: string -> bool): (visited: set<string>)
    requires n <= |props|
    decreases props, 2, n
  {
    if n == 0 then {}
    else VisitedPropertiesUpTo(props, n - 1, path, keep) + VisitedProperty(props[n - 1], path, keep)
  }

  /** A property's own path, and the paths below it only when it survives the first pass. */
  function VisitedProperty(p: Prop, path: Option<string>, keep: string -> bool): (visited: set<string>)
    decreases p, 1
  {
    var q := CombinePath(path, p.name);
    {q} + (if keep(q) then ObjectVisits(p, path, keep) + ArrayVisits(p, path, keep) else {})
  }

  /** The paths the second pass evaluates below one property. */
  function ObjectVisits(p: Prop, path: Option<string>, keep: string -> bool): (visited: set<string>)
    decreases p, 0
  {
    match p.value
    case Obj(ps) => VisitedProperties(ps, Some(CombinePath(path, p.name)), keep)
    case _ => {}
  }

  /** The paths the third pass evaluates below one property. */
  function ArrayVisits(p: Prop, path: Option<string>, keep: string -> bool): (visited: set<string>)
    decreases p, 0
  {
    match p.value
    case Arr(es) => VisitedElements(es, Some(CombinePath(path, p.name)), keep)
    case _ => {}
  }

  /** The paths evaluated while pruning an array: those of its object elements, at the array's path. */
  function VisitedElements(elems: seq<Json>, path: Option<string>, keep: string -> bool): (visited: set<string>)
    decreases elems, 3
  {
    VisitedElementsUpTo(elems, |elems|, path, keep)
  }

  function VisitedElementsUpTo(elems: seq<Json>, n: nat, path: Option<string>, keep: string -> bool): (visited: set<string>)
    requires n <= |elems|
    decreases elems, 2, n
  {
    if n == 0 then {}
    else VisitedElementsUpTo(elems, n - 1, path, keep) + ElementVisits(elems[n - 1], path, keep)
  }

  function ElementVisits(e: Json, path: Option<string>, keep: string -> bool): (visited: set<string>)
    decreases e, 1
  {
    match e
    case Obj(ps) => VisitedProperties(ps, path, keep)
    case _ => {}
  }

  /** The paths a whole pass evaluates. */
  function Evaluated(value: Option<Json>, keep: string -> bool): (paths: set<string>)
  {
    match value
    case Some(Obj(ps)) => VisitedProperties(ps, None, keep)
    case Some(Arr(es)) => VisitedElements(es, None, keep)
    case _ => {}
  }

  /** The direct property paths of the first `n` properties. */
  function DirectPathsUpTo(props: seq<Prop>, n: nat, path: Option<string>): (paths: set<string>)
    requires n <= |props|
  {
    if n == 0 then {}
    else DirectPathsUpTo(props, n - 1, path) + {CombinePath(path, props[n - 1].name)}
  }

  function ObjectPassVisitsUpTo(props: seq<Prop>, n: nat, path: Option<string>, keep: string -> bool): (visited: set<string>)
    requires n <= |props|
  {
    if n == 0 then {}
    else ObjectPassVisitsUpTo(props, n - 1, path, keep) + ObjectVisits(props[n - 1], path, keep)
  }

  function ArrayPassVisitsUpTo(props: seq<Prop>, n: nat, path: Option<string>, keep: string -> bool): (visited: set<string>)
    requires n <= |props|
  {
    if n == 0 then {}
    else ArrayPassVisitsUpTo(props, n - 1, path, keep) + ArrayVisits(props[n - 1], path, keep)
  }

  lemma {:induction false} ObjectPassVisitsPrefix(s: seq<Prop>, t: seq<Prop>, n: nat, path: Option<string>, keep: string -> bool)
    requires n <= |s|
    ensures ObjectPassVisitsUpTo(s + t, n, path, keep) == ObjectPassVisitsUpTo(s, n, path, keep)
  {
    if n > 0 {
      ObjectPassVisitsPrefix(s, t, n - 1, path, keep);
      assert (s + t)[n - 1] == s[n - 1];
    }
  }

  lemma {:induction false} ArrayPassVisitsPrefix(s: seq<Prop>, t: seq<Prop>, n: nat, path: Option<string>, keep: string -> bool)
    requires n <= |s|
    ensures ArrayPassVisitsUpTo(s + t, n, path, keep) == ArrayPassVisitsUpTo(s, n, path, keep)
  {
    if n > 0 {
      ArrayPassVisitsPrefix(s, t, n - 1, path, keep);
      assert (s + t)[n - 1] == s[n - 1];
    }
  }

  /** After the second pass on one property, the third pass evaluates below it only if it holds an array. */
  lemma VisitsOnOneProperty(o: seq<Prop>, p: Prop, path: Option<string>, keep: string -> bool)
    ensures ArrayPassVisitsUpTo(o + PrunedObjectValue(p, path, keep), |o + PrunedObjectValue(p, path, keep)|, path, keep)
         == ArrayPassVisitsUpTo(o, |o|, path, keep) + ArrayVisits(p, path, keep)
  {
    var x := PrunedObjectValue(p, path, keep);
    if x == [] {
      assert o + x == o;
    } else {
      ArrayPassVisitsPrefix(o, x, |o|, path, keep);
      assert (o + x)[|o|] == x[0];
      if p.value.Obj? {
        assert x[0].value.Obj?;
      } else {
        assert x == [p];
      }
    }
  }

  /** One more property adds its own path, and below it what the second and third passes evaluate when it is accepted. */
  lemma VisitsStep(props: seq<Prop>, n: nat, path: Option<string>, keep: string -> bool)
    requires 0 < n <= |props|
    ensures var p := props[n - 1];
      var k, k' := KeptUpTo(props, n - 1, path, keep), KeptUpTo(props, n, path, keep);
      var o, o' := ObjectPassUpTo(k, |k|, path, keep), ObjectPassUpTo(k', |k'|, path, keep);
      && DirectPathsUpTo(props, n, path) == DirectPathsUpTo(props, n - 1, path) + {CombinePath(path, p.name)}
      && (!keep(CombinePath(path, p.name)) ==> k' == k)
      && (keep(CombinePath(path, p.name)) ==>
            && ObjectPassVisitsUpTo(k', |k'|, path, keep) == ObjectPassVisitsUpTo(k, |k|, path, keep) + ObjectVisits(p, path, keep)
            && ArrayPassVisitsUpTo(o', |o'|, path, keep) == ArrayPassVisitsUpTo(o, |o|, path, keep) + ArrayVisits(p, path, keep))
  {
    var p := props[n - 1];
    var k := KeptUpTo(props, n - 1, path, keep);
    var o := ObjectPassUpTo(k, |k|, path, keep);
    if keep(CombinePath(path, p.name)) {
      assert KeptUpTo(props, n, path, keep) == k + [p];
      ObjectPassPrefix(k, [p], |k|, path, keep);
      ObjectPassVisitsPrefix(k, [p], |k|, path, keep);
      assert (k + [p])[|k|] == p;
      assert ObjectPassUpTo(k + [p], |k + [p]|, path, keep) == o + PrunedObjectValue(p, path, keep);
      VisitsOnOneProperty(o, p, path, keep);
    } else {
      assert KeptUpTo(props, n, path, keep) == k + [] == k;
    }
  }

  /** The paths the three passes evaluate together are those of the specification. */
  lemma {:induction false} PassVisitsCompose(props: seq<Prop>, n: nat, path: Option<string>, keep: string -> bool)
    requires n <= |props|
    ensures var k := KeptUpTo(props, n, path, keep);
      var o := ObjectPassUpTo(k, |k|, path, keep);
      DirectPathsUpTo(props, n, path) + ObjectPassVisitsUpTo(k, |k|, path, keep) + ArrayPassVisitsUpTo(o, |o|, path, keep)
        == VisitedPropertiesUpTo(props, n, path, keep)
  {
    if n > 0 {
      PassVisitsCompose(props, n - 1, path, keep);
      VisitsStep(props, n, path, keep);
      var p := props[n - 1];
      var q := CombinePath(path, p.name);
      var k := KeptUpTo(props, n - 1, path, keep);
      var o := ObjectPassUpTo(k, |k|, path, keep);
      var d, ov, av := DirectPathsUpTo(props, n - 1, path), ObjectPassVisitsUpTo(k, |k|, path, keep), ArrayPassVisitsUpTo(o, |o|, path, keep);
      if keep(q) {
        UnionRegroup(d, ov, av, VisitedPropertiesUpTo(props, n - 1, path, keep), {q}, ObjectVisits(p, path, keep), ArrayVisits(p, path, keep));
      } else {
        UnionRegroup(d, ov, av, VisitedPropertiesUpTo(props, n - 1, path, keep), {q}, {}, {});
      }
    }
  }

  lemma UnionAssociates<T>(a: set<T>, b: set<T>, c: set<T>)
    ensures a + b + c == a + (b + c)
  {
  }

  lemma UnionRegroup<T>(a: set<T>, b: set<T>, c: set<T>, whole: set<T>, x: set<T>, y: set<T>, z: set<T>)
    requires a + b + c == whole
    ensures (a + x) + (b + y) + (c + z) == whole + (x + (y + z))
  {
  }

  /** The paths recorded in `log`. */
  function Logged(log: seq<string>): (paths: set<string>)
    decreases |log|
  {
    if |log| == 0 then {} else Logged(log[..|log| - 1]) + {log[|log| - 1]}
  }

  lemma {:induction false} LoggedElements(log: seq<string>)
    ensures forall path :: path in Logged(log) <==> path in log
    decreases |log|
  {
    if |log| > 0 {
      var init := log[..|log| - 1];
      LoggedElements(init);
      assert log == init + [log[|log| - 1]];
    }
  }

  /** No path occurs twice in `log`: each entry is new when it is appended. */
  predicate NoDuplicates(log: seq<string>)
    decreases |log|
  {
    |log| == 0 || (log[|log| - 1] !in Logged(log[..|log| - 1]) && NoDuplicates(log[..|log| - 1]))
  }

  /** A log without duplicates records as many paths as it has entries. */
  lemma {:induction false} NoDuplicatesCount(log: seq<string>)
    requires NoDuplicates(log)
    ensures |Logged(log)| == |log|
    decreases |log|
  {
    if |log| > 0 {
      NoDuplicatesCount(log[..|log| - 1]);
    }
  }

  /** The append-time reading of `NoDuplicates` is the pairwise one. */
  lemma {:induction false} NoDuplicatesPairwise(log: seq<string>)
    ensures NoDuplicates(log) <==> forall i, j :: 0 <= i < j < |log| ==> log[i] != log[j]
    decreases |log|
  {
    if |log| > 0 {
      var init := log[..|log| - 1];
      NoDuplicatesPairwise(init);
      LoggedElements(init);
      if NoDuplicates(log) {
        forall i, j | 0 <= i < j < |log| ensures log[i] != log[j] {
          if j < |log| - 1 {
            assert log[i] == init[i] && log[j] == init[j];
          } else {
            assert log[i] == init[i];
          }
        }
      }
      if forall i, j :: 0 <= i < j < |log| ==> log[i] != log[j] {
        forall i, j | 0 <= i < j < |init| ensures init[i] != init[j] {
          assert init[i] == log[i] && init[j] == log[j];
        }
        assert log[|log| - 1] !in init by {
          forall i | 0 <= i < |init| ensures init[i] != log[|log| - 1] {
            assert init[i] == log[i];
          }
        }
      }
    }
  }

  // ---------------------------------------------------------------------------
  // The pass.

  /**
    One pruning pass: the predicate it serves and its private cache from a path
    to "remove this property". `queried` logs, in order, every path handed to
    the predicate.
   */
  class PruningPass {
    const shouldSerialize: string -> bool
    var cache: map<string, bool>
    ghost var queried: seq<string>

    /** Every cached decision is the negated predicate; the predicate was asked exactly the cached paths, once each. */
    ghost predicate Valid()
      reads this
    {
      && (forall path :: path in cache ==> cache[path] == !shouldSerialize(path))
      && cache.Keys == Logged(queried)
      && NoDuplicates(queried)
    }

    /** `new Dictionary<string, bool>()` for a pass serving `shouldSerialize`. */
    constructor (shouldSerialize: string -> bool)
      ensures Valid()
      ensures this.shouldSerialize == shouldSerialize
      ensures cache == map[] && queried == []
    {
      this.shouldSerialize := shouldSerialize;
      cache := map[];
      queried := [];
    }

    /** The filter of the first pass: is property `name` at `currentPath` to be removed? Memoised per path. */
    method ShouldRemove(currentPath: Option<string>, name: string) returns (remove: bool)
      requires Valid()
      modifies this
      ensures Valid()
      ensures remove == !shouldSerialize(CombinePath(currentPath, name))
      ensures cache == old(cache)[CombinePath(currentPath, name) := remove]
      ensures queried == if CombinePath(currentPath, name) in old(cache) then old(queried)
                         else old(queried) + [CombinePath(currentPath, name)]
    {
      var path := CombinePath(currentPath, name);
      if path in cache {
        remove := cache[path];
      } else {
        remove := !shouldSerialize(path);
        cache := cache[path := remove];
        queried := queried + [path];
        assert queried[..|queried| - 1] == old(queried);
      }
    }

    /**
      `RemoveObjectProperties` followed by `RemoveObjectIfEmpty`: the pruned
      properties of an object sitting in `slot`, and what its parent must remove.
     */
    method RemoveObjectProperties(props: seq<Prop>, currentPath: Option<string>, slot: Slot)
      returns (rest: seq<Prop>, removal: Removal)
      requires Valid()
      modifies this
      ensures Valid()
      ensures rest == PruneProperties(props, currentPath, shouldSerialize)
      ensures removal == RemoveIfEmpty(rest == [], slot)
      ensures cache.Keys == old(cache.Keys) + VisitedProperties(props, currentPath, shouldSerialize)
      ensures old(queried) <= queried
      decreases props, 1
    {
      var survivors := FirstPass(props, currentPath);
      KeptFromProps(props, |props|, currentPath, shouldSerialize);
      var afterObjects := ObjectPass(props, survivors, currentPath);
      ObjectPassFromProps(props, survivors, |survivors|, currentPath, shouldSerialize);
      rest := ArrayPass(props, afterObjects, currentPath);
      PassesCompose(props, |props|, currentPath, shouldSerialize);
      PassVisitsCompose(props, |props|, currentPath, shouldSerialize);
      removal := RemoveIfEmpty(rest == [], slot);
    }

    /** The first pass of `RemoveObjectProperties`: the properties that are not to be removed, in order. */
    method FirstPass(props: seq<Prop>, currentPath: Option<string>) returns (survivors: seq<Prop>)
      requires Valid()
      modifies this
      ensures Valid()
      ensures survivors == KeptUpTo(props, |props|, currentPath, shouldSerialize)
      ensures cache.Keys == old(cache.Keys) + DirectPathsUpTo(props, |props|, currentPath)
      ensures old(queried) <= queried
    {
      survivors := [];
      for i := 0 to |props|
        invariant Valid()
        invariant survivors == KeptUpTo(props, i, currentPath, shouldSerialize)
        invariant cache.Keys == old(cache.Keys) + DirectPathsUpTo(props, i, currentPath)
        invariant old(queried) <= queried
      {
        var remove := ShouldRemove(currentPath, props[i].name);
        if !remove {
          survivors := survivors + [props[i]];
        }
      }
    }

    /**
      The second pass of `RemoveObjectProperties`: prune the object value of
      every property in `survivors`, leaving out the properties whose object
      ended up empty.
     */
    method ObjectPass(props: seq<Prop>, survivors: seq<Prop>, currentPath: Option<string>) returns (afterObjects: seq<Prop>)
      requires Valid()
      requires forall j :: 0 <= j < |survivors| ==> survivors[j] in props
      modifies this
      ensures Valid()
      ensures afterObjects == ObjectPassUpTo(survivors, |survivors|, currentPath, shouldSerialize)
      ensures cache.Keys == old(cache.Keys) + ObjectPassVisitsUpTo(survivors, |survivors|, currentPath, shouldSerialize)
      ensures old(queried) <= queried
      decreases props, 0
    {
      afterObjects := [];
      for k := 0 to |survivors|
        invariant Valid()
        invariant afterObjects == ObjectPassUpTo(survivors, k, currentPath, shouldSerialize)
        invariant cache.Keys == old(cache.Keys) + ObjectPassVisitsUpTo(survivors, k, currentPath, shouldSerialize)
        invariant old(queried) <= queried
      {
        var p := survivors[k];
        UnionAssociates(old(cache.Keys), ObjectPassVisitsUpTo(survivors, k, currentPath, shouldSerialize), ObjectVisits(p, currentPath, shouldSerialize));
        if p.value.Obj? {
          var child, childRemoval := RemoveObjectProperties(p.value.props, Some(CombinePath(currentPath, p.name)), PropertyValue);
          if childRemoval != RemovesProperty {
            afterObjects := afterObjects + [Prop(p.name, Obj(child))];
          }
        } else {
          afterObjects := afterObjects + [p];
        }
      }
    }

    /**
      The third pass of `RemoveObjectProperties`: prune the array value of
      every property left, leaving out the properties whose array ended up empty.
     */
    method ArrayPass(props: seq<Prop>, afterObjects: seq<Prop>, currentPath: Option<string>) returns (afterArrays: seq<Prop>)
      requires Valid()
      requires forall j :: 0 <= j < |afterObjects| ==> afterObjects[j].value.Arr? ==> afterObjects[j] in props
      modifies this
      ensures Valid()
      ensures afterArrays == ArrayPassUpTo(afterObjects, |afterObjects|, currentPath, shouldSerialize)
      ensures cache.Keys == old(cache.Keys) + ArrayPassVisitsUpTo(afterObjects, |afterObjects|, currentPath, shouldSerialize)
      ensures old(queried) <= queried
      decreases props, 0
    {
      afterArrays := [];
      for k := 0 to |afterObjects|
        invariant Valid()
        invariant afterArrays == ArrayPassUpTo(afterObjects, k, currentPath, shouldSerialize)
        invariant cache.Keys == old(cache.Keys) + ArrayPassVisitsUpTo(afterObjects, k, currentPath, shouldSerialize)
        invariant old(queried) <= queried
      {
        var p := afterObjects[k];
        UnionAssociates(old(cache.Keys), ArrayPassVisitsUpTo(afterObjects, k, currentPath, shouldSerialize), ArrayVisits(p, currentPath, shouldSerialize));
        if p.value.Arr? {
          var child, childRemoval := RemoveArrayElements(p.value.elems, Some(CombinePath(currentPath, p.name)), PropertyValue);
          if childRemoval != RemovesProperty {
            afterArrays := afterArrays + [Prop(p.name, Arr(child))];
          }
        } else {
          afterArrays := afterArrays + [p];
        }
      }
    }

    /**
      `RemoveArrayElements` followed by `RemoveArrayIfEmpty`: the pruned
      elements of an array sitting in `slot`, and what its parent must remove.
     */
    method RemoveArrayElements(elems: seq<Json>, currentPath: Option<string>, slot: Slot)
      returns (rest: seq<Json>, removal: Removal)
      requires Valid()
      modifies this
      ensures Valid()
      ensures rest == PruneElements(elems, currentPath, shouldSerialize)
      ensures removal == RemoveIfEmpty(rest == [], slot)
      ensures cache.Keys == old(cache.Keys) + VisitedElements(elems, currentPath, shouldSerialize)
      ensures old(queried) <= queried
      decreases elems, 1
    {
      var kept: seq<Json> := [];
      for i := 0 to |elems|
        invariant Valid()
        invariant kept == PruneElementsUpTo(elems, i, currentPath, shouldSerialize)
        invariant cache.Keys == old(cache.Keys) + VisitedElementsUpTo(elems, i, currentPath, shouldSerialize)
        invariant old(queried) <= queried
      {
        var e := elems[i];
        UnionAssociates(old(cache.Keys), VisitedElementsUpTo(elems, i, currentPath, shouldSerialize), ElementVisits(e, currentPath, shouldSerialize));
        if e.Obj? {
          var child, childRemoval := RemoveObjectProperties(e.props, currentPath, ArrayElement);
          if childRemoval != RemovesElement {
            kept := kept + [Obj(child)];
          }
        } else {
          kept := kept + [e];
        }
      }
      rest := kept;
      removal := RemoveIfEmpty(rest == [], slot);
    }
  }

  /** What a duplicate-free log recording exactly `paths` says: each of them once, and nothing else. */
  lemma LogReport(log: seq<string>, paths: set<string>)
    requires NoDuplicates(log) && Logged(log) == paths
    ensures forall i, j :: 0 <= i < j < |log| ==> log[i] != log[j]
    ensures forall path :: path in log <==> path in paths
    ensures |log| == |paths|
  {
    NoDuplicatesPairwise(log);
    LoggedElements(log);
    NoDuplicatesCount(log);
  }

  /**
    `RemovePropertiesAndArrayElements`: prune `value` with a fresh cache and
    return what is written. Every evaluated path is handed to `shouldSerialize`
    exactly once, and no other path is.
   */
  method RemovePropertiesAndArrayElements(value: Option<Json>, shouldSerialize: string -> bool)
    returns (written: Option<Json>, ghost queried: seq<string>)
    ensures written == Pruned(value, shouldSerialize)
    ensures forall i, j :: 0 <= i < j < |queried| ==> queried[i] != queried[j]
    ensures forall path :: path in queried <==> path in Evaluated(value, shouldSerialize)
    ensures |queried| == |Evaluated(value, shouldSerialize)|
  {
    match value {
      case None =>
        written, queried := None, [];
      case Some(token) =>
        var pass := new PruningPass(shouldSerialize);
        match token {
          case Arr(es) =>
            var rest, _ := pass.RemoveArrayElements(es, None, Root);
            written := Some(Arr(rest));
          case Obj(ps) =>
            var rest, _ := pass.RemoveObjectProperties(ps, None, Root);
            written := Some(Obj(rest));
          case Value(_) =>
            written := Some(token);
        }
        queried := pass.queried;
        LogReport(queried, Evaluated(value, shouldSerialize));
    }
  }
}
