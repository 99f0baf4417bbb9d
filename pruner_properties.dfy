/**
  What the pruner promises about its output, proved of the specification
  functions of `JsonPruner` (which the methods of `PruningPass` are proved to
  compute): it is a fixed point of pruning (so pruning twice changes nothing),
  every property left has an accepted path, no emptied container is left below
  the root, it is an order-preserving sub-tree of the input, and only paths at
  or below accepted properties are ever evaluated.
 */
module PruningProperties {
  import opened Optional
  import opened Paths
  import opened JsonPruner

  // ---------------------------------------------------------------------------
  // Settled trees: the fixed points of pruning.

  /**
    Every property has an accepted path and a settled value: nothing a pass
    could still remove.
   */
  ghost predicate SettledProps(props: seq<Prop>, path: Option<string>, keep: string -> bool)
    decreases props
  {
    forall i :: 0 <= i < |props| ==>
      && keep(CombinePath(path, props[i].name))
      && SettledValue(props[i].value, Some(CombinePath(path, props[i].name)), keep)
  }

  /** A property value is settled: a container in it is non-empty and settled, a scalar always is. */
  ghost predicate SettledValue(v: Json, path: Option<string>, keep: string -> bool)
    decreases v
  {
    match v
    case Obj(ps) => ps != [] && SettledProps(ps, path, keep)
    case Arr(es) => es != [] && SettledElems(es, path, keep)
    case Value(_) => true
  }

  /** Every object element is non-empty and settled at the array's path; other elements are left alone. */
  ghost predicate SettledElems(elems: seq<Json>, path: Option<string>, keep: string -> bool)
    decreases elems
  {
    forall i :: 0 <= i < |elems| ==> elems[i].Obj? ==> elems[i].props != [] && SettledProps(elems[i].props, path, keep)
  }

  /** A written tree is settled: only its root may be an empty container. */
  ghost predicate SettledRoot(value: Option<Json>, keep: string -> bool)
  {
    match value
    case Some(Obj(ps)) => SettledProps(ps, None, keep)
    case Some(Arr(es)) => SettledElems(es, None, keep)
    case _ => true
  }

  lemma SettledPropsAppend(a: seq<Prop>, b: seq<Prop>, path: Option<string>, keep: string -> bool)
    requires SettledProps(a, path, keep) && SettledProps(b, path, keep)
    ensures SettledProps(a + b, path, keep)
  {
    forall i | 0 <= i < |a + b|
      ensures keep(CombinePath(path, (a + b)[i].name))
      ensures SettledValue((a + b)[i].value, Some(CombinePath(path, (a + b)[i].name)), keep)
    {
      if i < |a| { assert (a + b)[i] == a[i]; } else { assert (a + b)[i] == b[i - |a|]; }
    }
  }

  lemma SettledElemsAppend(a: seq<Json>, b: seq<Json>, path: Option<string>, keep: string -> bool)
    requires SettledElems(a, path, keep) && SettledElems(b, path, keep)
    ensures SettledElems(a + b, path, keep)
  {
    forall i | 0 <= i < |a + b| && (a + b)[i].Obj?
      ensures (a + b)[i].props != [] && SettledProps((a + b)[i].props, path, keep)
    {
      if i < |a| { assert (a + b)[i] == a[i]; } else { assert (a + b)[i] == b[i - |a|]; }
    }
  }

  /** What pruning leaves of an object is settled. */
  lemma {:induction false} PrunedPropsSettled(props: seq<Prop>, path: Option<string>, keep: string -> bool)
    ensures SettledProps(PruneProperties(props, path, keep), path, keep)
    decreases props, 1
  {
    PrunedPropsSettledUpTo(props, |props|, path, keep);
  }

  lemma {:induction false} PrunedPropsSettledUpTo(props: seq<Prop>, n: nat, path: Option<string>, keep: string -> bool)
    requires n <= |props|
    ensures SettledProps(PrunePropertiesUpTo(props, n, path, keep), path, keep)
    decreases props, 0, n
  {
    if n > 0 {
      PrunedPropsSettledUpTo(props, n - 1, path, keep);
      FateSettled(props[n - 1], path, keep);
      SettledPropsAppend(PrunePropertiesUpTo(props, n - 1, path, keep), PropertyFate(props[n - 1], path, keep), path, keep);
    }
  }

  /** What is left of one property is settled. */
  lemma {:induction false} FateSettled(p: Prop, path: Option<string>, keep: string -> bool)
    ensures SettledProps(PropertyFate(p, path, keep), path, keep)
    decreases p
  {
    var q := CombinePath(path, p.name);
    if keep(q) {
      match p.value
      case Obj(ps) => PrunedPropsSettled(ps, Some(q), keep);
      case Arr(es) => PrunedElemsSettled(es, Some(q), keep);
      case Value(_) =>
    }
  }

  /** What pruning leaves of an array is settled. */
  lemma {:induction false} PrunedElemsSettled(elems: seq<Json>, path: Option<string>, keep: string -> bool)
    ensures SettledElems(PruneElements(elems, path, keep), path, keep)
    decreases elems, 1
  {
    PrunedElemsSettledUpTo(elems, |elems|, path, keep);
  }

  lemma {:induction false} PrunedElemsSettledUpTo(elems: seq<Json>, n: nat, path: Option<string>, keep: string -> bool)
    requires n <= |elems|
    ensures SettledElems(PruneElementsUpTo(elems, n, path, keep), path, keep)
    decreases elems, 0, n
  {
    if n > 0 {
      PrunedElemsSettledUpTo(elems, n - 1, path, keep);
      var e := elems[n - 1];
      if e.Obj? {
        PrunedPropsSettled(e.props, path, keep);
      }
      SettledElemsAppend(PruneElementsUpTo(elems, n - 1, path, keep), ElementFate(e, path, keep), path, keep);
    }
  }

  /** Pruning a settled object changes nothing. */
  lemma {:induction false} SettledPropsFixed(props: seq<Prop>, path: Option<string>, keep: string -> bool)
    requires SettledProps(props, path, keep)
    ensures PruneProperties(props, path, keep) == props
    decreases props, 1
  {
    SettledPropsFixedUpTo(props, |props|, path, keep);
  }

  lemma {:induction false} SettledPropsFixedUpTo(props: seq<Prop>, n: nat, path: Option<string>, keep: string -> bool)
    requires n <= |props|
    requires SettledProps(props, path, keep)
    ensures PrunePropertiesUpTo(props, n, path, keep) == props[..n]
    decreases props, 0, n
  {
    if n > 0 {
      SettledPropsFixedUpTo(props, n - 1, path, keep);
      var p := props[n - 1];
      var q := CombinePath(path, p.name);
      assert keep(q) && SettledValue(p.value, Some(q), keep);
      match p.value {
        case Obj(ps) => SettledPropsFixed(ps, Some(q), keep);
        case Arr(es) => SettledElemsFixed(es, Some(q), keep);
        case Value(_) =>
      }
      assert PropertyFate(p, path, keep) == [p];
      assert props[..n] == props[..n - 1] + [p];
    }
  }

  /** Pruning a settled array changes nothing. */
  lemma {:induction false} SettledElemsFixed(elems: seq<Json>, path: Option<string>, keep: string -> bool)
    requires SettledElems(elems, path, keep)
    ensures PruneElements(elems, path, keep) == elems
    decreases elems, 1
  {
    SettledElemsFixedUpTo(elems, |elems|, path, keep);
  }

  lemma {:induction false} SettledElemsFixedUpTo(elems: seq<Json>, n: nat, path: Option<string>, keep: string -> bool)
    requires n <= |elems|
    requires SettledElems(elems, path, keep)
    ensures PruneElementsUpTo(elems, n, path, keep) == elems[..n]
    decreases elems, 0, n
  {
    if n > 0 {
      SettledElemsFixedUpTo(elems, n - 1, path, keep);
      var e := elems[n - 1];
      if e.Obj? {
        SettledPropsFixed(e.props, path, keep);
      }
      assert ElementFate(e, path, keep) == [e];
      assert elems[..n] == elems[..n - 1] + [e];
    }
  }

  /**
    The written tree is settled, and a tree is settled exactly when the pruner
    writes it back unchanged.
   */
  lemma PrunedSettled(value: Option<Json>, keep: string -> bool)
    ensures SettledRoot(Pruned(value, keep), keep)
    ensures SettledRoot(value, keep) <==> Pruned(value, keep) == value
  {
    match value {
      case Some(Obj(ps)) =>
        PrunedPropsSettled(ps, None, keep);
        if SettledProps(ps, None, keep) { SettledPropsFixed(ps, None, keep); }
      case Some(Arr(es)) =>
        PrunedElemsSettled(es, None, keep);
        if SettledElems(es, None, keep) { SettledElemsFixed(es, None, keep); }
      case _ =>
    }
  }

  /** Pruning is idempotent: a second pass with the same predicate removes nothing more. */
  lemma PrunedTwice(value: Option<Json>, keep: string -> bool)
    ensures Pruned(Pruned(value, keep), keep) == Pruned(value, keep)
  {
    PrunedSettled(value, keep);
    PrunedSettled(Pruned(value, keep), keep);
  }

  // ---------------------------------------------------------------------------
  // Pruning only removes: the output is an order-preserving sub-tree.

  /**
    `small` is `big` with some properties and object elements removed, at any
    depth: scalars equal, containers of the same kind whose members embed in order.
   */
  ghost predicate SubTree(small: Json, big: Json)
    decreases big, 2
  {
    match big
    case Value(_) => small == big
    case Obj(bs) => small.Obj? && SubProps(small.props, |small.props|, bs, |bs|)
    case Arr(bs) => small.Arr? && SubElems(small.elems, |small.elems|, bs, |bs|)
  }

  /** The first `m` properties of `a` embed, in order and by name, into the first `n` of `b`. */
  ghost predicate SubProps(a: seq<Prop>, m: nat, b: seq<Prop>, n: nat)
    requires m <= |a| && n <= |b|
    decreases b, 1, n
  {
    if m == 0 then true
    else if n == 0 then false
    else (&& a[m - 1].name == b[n - 1].name
          && SubTree(a[m - 1].value, b[n - 1].value)
          && SubProps(a, m - 1, b, n - 1))
         || SubProps(a, m, b, n - 1)
  }

  /** The first `m` elements of `a` embed, in order, into the first `n` of `b`. */
  ghost predicate SubElems(a: seq<Json>, m: nat, b: seq<Json>, n: nat)
    requires m <= |a| && n <= |b|
    decreases b, 1, n
  {
    if m == 0 then true
    else if n == 0 then false
    else (SubTree(a[m - 1], b[n - 1]) && SubElems(a, m - 1, b, n - 1)) || SubElems(a, m, b, n - 1)
  }

  lemma {:induction false} SubTreeReflexive(v: Json)
    ensures SubTree(v, v)
    decreases v, 2
  {
    match v {
      case Obj(ps) => SubPropsReflexive(ps, |ps|);
      case Arr(es) => SubElemsReflexive(es, |es|);
      case Value(_) =>
    }
  }

  lemma {:induction false} SubPropsReflexive(b: seq<Prop>, n: nat)
    requires n <= |b|
    ensures SubProps(b, n, b, n)
    decreases b, 1, n
  {
    if n > 0 {
      SubTreeReflexive(b[n - 1].value);
      SubPropsReflexive(b, n - 1);
    }
  }

  lemma {:induction false} SubElemsReflexive(b: seq<Json>, n: nat)
    requires n <= |b|
    ensures SubElems(b, n, b, n)
    decreases b, 1, n
  {
    if n > 0 {
      SubTreeReflexive(b[n - 1]);
      SubElemsReflexive(b, n - 1);
    }
  }

  lemma {:induction false} SubPropsPrefix(a: seq<Prop>, t: seq<Prop>, m: nat, b: seq<Prop>, n: nat)
    requires m <= |a| && n <= |b|
    ensures SubProps(a + t, m, b, n) == SubProps(a, m, b, n)
    decreases n
  {
    if m > 0 && n > 0 {
      assert (a + t)[m - 1] == a[m - 1];
      SubPropsPrefix(a, t, m - 1, b, n - 1);
      SubPropsPrefix(a, t, m, b, n - 1);
    }
  }

  lemma {:induction false} SubElemsPrefix(a: seq<Json>, t: seq<Json>, m: nat, b: seq<Json>, n: nat)
    requires m <= |a| && n <= |b|
    ensures SubElems(a + t, m, b, n) == SubElems(a, m, b, n)
    decreases n
  {
    if m > 0 && n > 0 {
      assert (a + t)[m - 1] == a[m - 1];
      SubElemsPrefix(a, t, m - 1, b, n - 1);
      SubElemsPrefix(a, t, m, b, n - 1);
    }
  }

  /** What is left of the first `n` properties embeds into them. */
  lemma {:induction false} PrunedPropsSub(props: seq<Prop>, n: nat, path: Option<string>, keep: string -> bool)
    requires n <= |props|
    ensures var out := PrunePropertiesUpTo(props, n, path, keep); SubProps(out, |out|, props, n)
    decreases props, 1, n
  {
    if n > 0 {
      PrunedPropsSub(props, n - 1, path, keep);
      var before := PrunePropertiesUpTo(props, n - 1, path, keep);
      var fate := PropertyFate(props[n - 1], path, keep);
      if fate == [] {
        assert before + fate == before;
      } else {
        FateSub(props[n - 1], path, keep);
        SubPropsPrefix(before, fate, |before|, props, n - 1);
        assert (before + fate)[|before|] == fate[0];
      }
    }
  }

  /** A property that is left keeps its name and holds a sub-tree of its value. */
  lemma {:induction false} FateSub(p: Prop, path: Option<string>, keep: string -> bool)
    ensures var fate := PropertyFate(p, path, keep);
      |fate| <= 1 && (fate != [] ==> fate[0].name == p.name && SubTree(fate[0].value, p.value))
    decreases p, 0
  {
    var q := CombinePath(path, p.name);
    if keep(q) {
      match p.value {
        case Obj(ps) =>
          PrunedPropsSub(ps, |ps|, Some(q), keep);
          var r := PruneProperties(ps, Some(q), keep);
          assert SubProps(r, |r|, ps, |ps|);
          assert SubTree(Obj(r), p.value);
        case Arr(es) =>
          PrunedElemsSub(es, |es|, Some(q), keep);
          var r := PruneElements(es, Some(q), keep);
          assert SubElems(r, |r|, es, |es|);
          assert SubTree(Arr(r), p.value);
        case Value(_) => SubTreeReflexive(p.value);
      }
    }
  }

  /** What is left of the first `n` elements embeds into them. */
  lemma {:induction false} PrunedElemsSub(elems: seq<Json>, n: nat, path: Option<string>, keep: string -> bool)
    requires n <= |elems|
    ensures var out := PruneElementsUpTo(elems, n, path, keep); SubElems(out, |out|, elems, n)
    decreases elems, 1, n
  {
    if n > 0 {
      PrunedElemsSub(elems, n - 1, path, keep);
      var e := elems[n - 1];
      var before := PruneElementsUpTo(elems, n - 1, path, keep);
      var fate := ElementFate(e, path, keep);
      if fate == [] {
        assert before + fate == before;
      } else {
        match e {
          case Obj(ps) =>
            PrunedPropsSub(ps, |ps|, path, keep);
            var r := PruneProperties(ps, path, keep);
            assert SubProps(r, |r|, ps, |ps|);
            assert fate == [Obj(r)];
            assert SubTree(fate[0], e);
          case _ => SubTreeReflexive(e);
        }
        SubElemsPrefix(before, fate, |before|, elems, n - 1);
        assert (before + fate)[|before|] == fate[0];
      }
    }
  }

  /** The written tree is a sub-tree of the input: pruning only removes, and keeps order and scalars. */
  lemma PrunedSubTree(value: Option<Json>, keep: string -> bool)
    requires value.Some?
    ensures SubTree(Pruned(value, keep).value, value.value)
  {
    match value.value {
      case Obj(ps) => PrunedPropsSub(ps, |ps|, None, keep);
      case Arr(es) => PrunedElemsSub(es, |es|, None, keep);
      case Value(_) => SubTreeReflexive(value.value);
    }
  }

  // ---------------------------------------------------------------------------
  // Which properties and elements survive.

  /** A container value that pruning empties; a scalar never is one. */
  ghost predicate Emptied(v: Json, path: Option<string>, keep: string -> bool)
  {
    match v
    case Obj(ps) => PruneProperties(ps, path, keep) == []
    case Arr(es) => PruneElements(es, path, keep) == []
    case Value(_) => false
  }

  /** No other property of `props` has the name of `props[i]`, as in any `JObject`. */
  ghost predicate UniqueName(props: seq<Prop>, i: nat)
    requires i < |props|
  {
    forall j :: 0 <= j < |props| && j != i ==> props[j].name != props[i].name
  }

  lemma {:induction false} FatesInOutput(props: seq<Prop>, i: nat, n: nat, path: Option<string>, keep: string -> bool)
    requires i < n <= |props|
    ensures forall x :: x in PropertyFate(props[i], path, keep) ==> x in PrunePropertiesUpTo(props, n, path, keep)
  {
    if n > i + 1 {
      FatesInOutput(props, i, n - 1, path, keep);
    }
  }

  lemma {:induction false} OutputFromFates(props: seq<Prop>, n: nat, path: Option<string>, keep: string -> bool)
    requires n <= |props|
    ensures forall x :: x in PrunePropertiesUpTo(props, n, path, keep) ==>
      exists k :: 0 <= k < n && x in PropertyFate(props[k], path, keep)
  {
    if n > 0 {
      OutputFromFates(props, n - 1, path, keep);
    }
  }

  /**
    The fate of the property `props[i]`: with a rejected path its name is gone
    from the object; with an accepted path a scalar property stays as it is,
    and a container property stays with its pruned value unless that is empty.
    When no other property shares its name, a property of that name is left
    exactly when its path is accepted and its value was not emptied.
   */
  lemma PropertySurvival(props: seq<Prop>, i: nat, path: Option<string>, keep: string -> bool)
    requires i < |props|
    ensures var p, out := props[i], PruneProperties(props, path, keep);
      var q := CombinePath(path, p.name);
      && (!keep(q) ==> forall j :: 0 <= j < |out| ==> out[j].name != p.name)
      && (keep(q) && p.value.Value? ==> p in out)
      && (keep(q) && p.value.Obj? && !Emptied(p.value, Some(q), keep) ==>
            Prop(p.name, Obj(PruneProperties(p.value.props, Some(q), keep))) in out)
      && (keep(q) && p.value.Arr? && !Emptied(p.value, Some(q), keep) ==>
            Prop(p.name, Arr(PruneElements(p.value.elems, Some(q), keep))) in out)
      && (UniqueName(props, i) ==>
            ((exists j :: 0 <= j < |out| && out[j].name == p.name) <==> keep(q) && !Emptied(p.value, Some(q), keep)))
  {
    var p, out := props[i], PruneProperties(props, path, keep);
    var q := CombinePath(path, p.name);
    var fate := PropertyFate(p, path, keep);
    assert out == PrunePropertiesUpTo(props, |props|, path, keep);
    PrunedPropsSettled(props, path, keep);
    FatesInOutput(props, i, |props|, path, keep);
    FateSub(p, path, keep);
    if keep(q) && !Emptied(p.value, Some(q), keep) {
      assert fate == [PruneOne(p, q, keep)];
      assert fate[0] in fate;
    }
    if !keep(q) {
      forall j | 0 <= j < |out| ensures out[j].name != p.name {
        assert keep(CombinePath(path, out[j].name));
      }
    }
    if UniqueName(props, i) && exists j :: 0 <= j < |out| && out[j].name == p.name {
      var j :| 0 <= j < |out| && out[j].name == p.name;
      OutputFromFates(props, |props|, path, keep);
      assert out[j] in out;
      var k :| 0 <= k < |props| && out[j] in PropertyFate(props[k], path, keep);
      FateSub(props[k], path, keep);
      assert props[k].name == p.name;
      assert k == i;
    }
  }

  /** What an accepted property at path `q` becomes when its value is not emptied. */
  ghost function PruneOne(p: Prop, q: string, keep: string -> bool): (pruned: Prop)
  {
    match p.value
    case Obj(ps) => Prop(p.name, Obj(PruneProperties(ps, Some(q), keep)))
    case Arr(es) => Prop(p.name, Arr(PruneElements(es, Some(q), keep)))
    case Value(_) => p
  }

  lemma {:induction false} ElementFatesInOutput(elems: seq<Json>, i: nat, n: nat, path: Option<string>, keep: string -> bool)
    requires i < n <= |elems|
    ensures forall x :: x in ElementFate(elems[i], path, keep) ==> x in PruneElementsUpTo(elems, n, path, keep)
  {
    if n > i + 1 {
      ElementFatesInOutput(elems, i, n - 1, path, keep);
    }
  }

  lemma {:induction false} ElementOutputFromFates(elems: seq<Json>, n: nat, path: Option<string>, keep: string -> bool)
    requires n <= |elems|
    ensures forall x :: x in PruneElementsUpTo(elems, n, path, keep) ==>
      exists k :: 0 <= k < n && x in ElementFate(elems[k], path, keep)
  {
    if n > 0 {
      ElementOutputFromFates(elems, n - 1, path, keep);
    }
  }

  /**
    In an array only object elements are pruned, and with the array's own path
    (no index segment): scalars and nested arrays stay untouched, an object
    element stays pruned unless that empties it, and whatever is left that is
    not an object is an element of the input.
   */
  lemma ElementSurvival(elems: seq<Json>, i: nat, path: Option<string>, keep: string -> bool)
    requires i < |elems|
    ensures var e, out := elems[i], PruneElements(elems, path, keep);
      && (!e.Obj? ==> e in out)
      && (e.Obj? && PruneProperties(e.props, path, keep) != [] ==> Obj(PruneProperties(e.props, path, keep)) in out)
      && (forall j :: 0 <= j < |out| && !out[j].Obj? ==> out[j] in elems)
  {
    var e, out := elems[i], PruneElements(elems, path, keep);
    assert out == PruneElementsUpTo(elems, |elems|, path, keep);
    ElementFatesInOutput(elems, i, |elems|, path, keep);
    var fate := ElementFate(e, path, keep);
    if !e.Obj? {
      assert fate == [e];
      assert e in fate;
    } else if PruneProperties(e.props, path, keep) != [] {
      assert fate[0] in fate;
    }
    ElementOutputFromFates(elems, |elems|, path, keep);
    forall j | 0 <= j < |out| && !out[j].Obj? ensures out[j] in elems {
      assert out[j] in out;
      var k :| 0 <= k < |elems| && out[j] in ElementFate(elems[k], path, keep);
      assert out[j] == elems[k];
    }
  }

  // ---------------------------------------------------------------------------
  // Nothing is evaluated below a rejected property.

  /** `x` lies strictly below the path `q`: it starts with `q` and a separator. */
  ghost predicate Below(x: string, q: string)
  {
    |x| > |q| && x[..|q| + 1] == q + [PathSeparator]
  }

  lemma BelowTrans(x: string, y: string, z: string)
    requires Below(x, y) && Below(y, z)
    ensures Below(x, z)
  {
    assert x[..|z| + 1] == x[..|y| + 1][..|z| + 1];
  }

  /** What `CombinePath` puts in front of a name: nothing at the root, else the path and a separator. */
  function Lead(path: Option<string>): (lead: string)
  {
    match path
    case None => ""
    case Some(prefix) => prefix + [PathSeparator]
  }

  lemma CombineLead(path: Option<string>, name: string)
    ensures CombinePath(path, name) == Lead(path) + name
    ensures path.Some? ==> Below(CombinePath(path, name), path.value)
  {
    if path.Some? {
      assert CombinePath(path, name)[..|path.value| + 1] == Lead(path);
    }
  }

  lemma {:induction false} PropsBelowUpTo(props: seq<Prop>, n: nat, prefix: string, keep: string -> bool)
    requires n <= |props|
    ensures forall x :: x in VisitedPropertiesUpTo(props, n, Some(prefix), keep) ==> Below(x, prefix)
    decreases props, 2, n
  {
    if n > 0 {
      PropsBelowUpTo(props, n - 1, prefix, keep);
      PropertyBelow(props[n - 1], prefix, keep);
    }
  }

  lemma {:induction false} PropertyBelow(p: Prop, prefix: string, keep: string -> bool)
    ensures forall x :: x in VisitedProperty(p, Some(prefix), keep) ==> Below(x, prefix)
    decreases p, 1
  {
    var q := CombinePath(Some(prefix), p.name);
    CombineLead(Some(prefix), p.name);
    match p.value
    case Obj(ps) =>
      PropsBelowUpTo(ps, |ps|, q, keep);
      forall x | x in VisitedProperties(ps, Some(q), keep) ensures Below(x, prefix) {
        BelowTrans(x, q, prefix);
      }
    case Arr(es) =>
      ElemsBelowUpTo(es, |es|, q, keep);
      forall x | x in VisitedElements(es, Some(q), keep) ensures Below(x, prefix) {
        BelowTrans(x, q, prefix);
      }
    case Value(_) =>
  }

  lemma {:induction false} ElemsBelowUpTo(elems: seq<Json>, n: nat, prefix: string, keep: string -> bool)
    requires n <= |elems|
    ensures forall x :: x in VisitedElementsUpTo(elems, n, Some(prefix), keep) ==> Below(x, prefix)
    decreases elems, 2, n
  {
    if n > 0 {
      ElemsBelowUpTo(elems, n - 1, prefix, keep);
      match elems[n - 1]
      case Obj(ps) =>
        PropsBelowUpTo(ps, |ps|, prefix, keep);
        assert ElementVisits(elems[n - 1], Some(prefix), keep) == VisitedPropertiesUpTo(ps, |ps|, Some(prefix), keep);
      case _ =>
    }
  }

  /**
    Every path evaluated while pruning an object is the path of one of its
    properties, or lies below the path of one whose own path was accepted.
   */
  lemma {:induction false} VisitedOnlyUnderAccepted(props: seq<Prop>, n: nat, path: Option<string>, keep: string -> bool)
    requires n <= |props|
    ensures forall x :: x in VisitedPropertiesUpTo(props, n, path, keep) ==>
      exists i :: 0 <= i < n &&
        (x == CombinePath(path, props[i].name) ||
         (keep(CombinePath(path, props[i].name)) && Below(x, CombinePath(path, props[i].name))))
  {
    if n > 0 {
      VisitedOnlyUnderAccepted(props, n - 1, path, keep);
      var p := props[n - 1];
      var q := CombinePath(path, p.name);
      match p.value {
        case Obj(ps) =>
          PropsBelowUpTo(ps, |ps|, q, keep);
          assert ObjectVisits(p, path, keep) == VisitedPropertiesUpTo(ps, |ps|, Some(q), keep);
          assert ArrayVisits(p, path, keep) == {};
        case Arr(es) =>
          ElemsBelowUpTo(es, |es|, q, keep);
          assert ArrayVisits(p, path, keep) == VisitedElementsUpTo(es, |es|, Some(q), keep);
          assert ObjectVisits(p, path, keep) == {};
        case Value(_) =>
          assert ObjectVisits(p, path, keep) == ArrayVisits(p, path, keep) == {};
      }
      assert forall x :: x in VisitedProperty(p, path, keep) ==> x == q || (keep(q) && Below(x, q));
    }
  }

  /** A path of a sibling property is never below another sibling's path when names hold no separator. */
  lemma SiblingNotBelow(lead: string, a: string, b: string)
    requires PathSeparator !in b
    ensures !Below(lead + b, lead + a)
  {
    if |lead + b| > |lead + a| {
      assert (lead + b)[..|lead + a| + 1][|lead| + |a|] == b[|a|];
      assert b[|a|] in b;
    }
  }

  /** A path below two sibling paths is below siblings of the same name, when names hold no separator. */
  lemma BelowOneSibling(lead: string, a: string, b: string, x: string)
    requires PathSeparator !in a && PathSeparator !in b
    requires Below(x, lead + b)
    ensures Below(x, lead + a) ==> a == b
  {
    if |a| < |b| {
      assert x[|lead| + |a|] == b[|a|];
      assert b[|a|] in b;
    } else if |b| < |a| {
      assert x[|lead| + |b|] == PathSeparator;
      assert (lead + a + [PathSeparator])[|lead| + |b|] == a[|b|];
      assert a[|b|] in a;
    } else if Below(x, lead + a) {
      assert lead + a == x[..|lead| + |a|] == lead + b;
      assert a == (lead + a)[|lead|..];
      assert b == (lead + b)[|lead|..];
    }
  }

  /**
    Once a property's path is rejected, nothing below it is evaluated, provided
    no property name holds the separator and no sibling shares its name (with
    those, the path strings of different properties can coincide).
   */
  lemma NothingBelowRejected(props: seq<Prop>, i: nat, path: Option<string>, keep: string -> bool)
    requires i < |props| && UniqueName(props, i)
    requires forall j :: 0 <= j < |props| ==> PathSeparator !in props[j].name
    requires !keep(CombinePath(path, props[i].name))
    ensures forall x :: x in VisitedProperties(props, path, keep) ==> !Below(x, CombinePath(path, props[i].name))
  {
    var lead := Lead(path);
    var qi := CombinePath(path, props[i].name);
    CombineLead(path, props[i].name);
    VisitedOnlyUnderAccepted(props, |props|, path, keep);
    assert VisitedProperties(props, path, keep) == VisitedPropertiesUpTo(props, |props|, path, keep);
    forall x | x in VisitedProperties(props, path, keep) ensures !Below(x, qi) {
      var j :| 0 <= j < |props| &&
        (x == CombinePath(path, props[j].name) ||
         (keep(CombinePath(path, props[j].name)) && Below(x, CombinePath(path, props[j].name))));
      CombineLead(path, props[j].name);
      if x == CombinePath(path, props[j].name) {
        SiblingNotBelow(lead, props[i].name, props[j].name);
      } else {
        BelowOneSibling(lead, props[i].name, props[j].name, x);
      }
    }
  }
}
