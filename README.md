# PartialResponse.Core: a verified model of the JSON pruner and its selectors

PartialResponse.Core serves "partial responses". A client sends a selector
such as `name,address/city,items/*`. The server serializes only the parts of
the response whose paths the selector accepts.

This project models three pieces of the library and proves what each promises:

- **The tree pruner** (`PartialJsonUtilities`), in `pruner.dfy`.
  - It walks a JSON tree and removes every object property whose slash-joined
    path the `shouldSerialize` predicate rejects.
  - It recurses into object- and array-valued properties that survive.
  - In an array it prunes only the object elements, and they keep the array's
    own path.
  - A non-root container left empty is removed from its parent. Children are
    handled before parents, so the removal cascades upward.
  - Each path's decision is memoised in a per-pass dictionary.

  The pass is an imperative class, `PruningPass`:
  - its `cache` field is the dictionary;
  - a ghost `queried` log records every path handed to the predicate;
  - its recursive methods run the same three loops over snapshots as the
    source: remove rejected properties, then recurse into objects, then into
    arrays.

  Each method is proved to compute the specification functions
  `PruneProperties` / `PruneElements` / `Pruned`. It also keeps the cache
  invariant (`Valid`) and extends the cache by exactly the paths the
  specification says are evaluated. `pruner_properties.dfy` proves what the
  output is, and `pruner_examples.dfy` works through concrete trees.
- **`Field`**, one compiled selector path such as `foo/bar`, in `field.dfy`.
  - It is split on `/` into segments.
  - Its text prints back to the original.
  - Its match is bidirectional: either the selector or the candidate may be a
    prefix of the other.
  - Matching has a `*` wildcard and optionally ignores case.
- **`Fields`**, a parsed comma-separated list of fields, in `fields.dfy`.
  - `TryParse` is all-or-nothing: an empty segment anywhere fails the whole
    parse and yields the default (empty) set.
  - `Matches` holds when some field matches.

Common helpers:
- `segments.dfy` splits and joins on a separator, as `String.Split(char)`
  does, and does ASCII case folding;
- `paths.dfy` has `CombinePath` and paths built by nesting;
- `option.dfy` has `Option`.

The JSON document is a datatype: `Value` is a scalar, `Obj` an ordered list
of named properties, `Arr` a list of elements. A null input is `None`.

Where the source removes a token through its `Parent` pointer, the model
hands it the same information:
- a callee is told its `Slot`: the root, a property value, or an array
  element;
- it returns a `Removal`;
- the caller leaves the token out of the container it rebuilds.

Two parts of the library are not modelled from their code:
- `PathUtilities.CombinePath`, whose behaviour is assumed: `name` at the root,
  `prefix + "/" + name` below it.
- The `Field` / `Fields` / parser implementations. Those modules reproduce what
  their unit tests pin, together with the selector grammar: clauses separated
  by `,`, segments by `/`, no empty segment.

## Model

| member | source | states |
|---|---|---|
| JsonPruner.RemovePropertiesAndArrayElements | src/PartialResponse.Core/PartialJsonUtilities.cs:13-47 | The value written is `Pruned(value, shouldSerialize)`. Each path is handed to `shouldSerialize` at most once in the pass (the log has no duplicates), and exactly the paths of `Evaluated` are handed to it. So the log has one entry per evaluated path. |
| JsonPruner.Pruned | src/PartialResponse.Core/PartialJsonUtilities.cs:15-44 | Null is written as null and a scalar root unchanged. An object root stays an object and an array root stays an array, so the root is never removed. |
| JsonPruner.RemoveIfEmpty | src/PartialResponse.Core/PartialJsonUtilities.cs:58-130 | `RemoveArrayIfEmpty` and `RemoveObjectIfEmpty` share one rule. An emptied container removes its owning property when it is a property value, removes itself when it is an array element, and stays at the root. A container that is not empty is never removed. |
| JsonPruner.PruningPass.constructor | src/PartialResponse.Core/PartialJsonUtilities.cs:37 | A fresh pass starts with an empty cache and has queried nothing. |
| JsonPruner.PruningPass.ShouldRemove | src/PartialResponse.Core/PartialJsonUtilities.cs:76-90 | The decision is `!shouldSerialize(CombinePath(currentPath, name))`. The cache gains exactly that entry. The predicate is queried only when the path was not cached yet. Cached decisions always equal the negated predicate. |
| JsonPruner.PruningPass.RemoveObjectProperties | src/PartialResponse.Core/PartialJsonUtilities.cs:73-115 | The properties left are `PruneProperties(props, currentPath, shouldSerialize)`. The removal reported is the emptiness rule for the object's slot. The cache grows by exactly the paths `VisitedProperties` says are evaluated, and keeps its invariant. The query log only grows. |
| JsonPruner.PruningPass.FirstPass | src/PartialResponse.Core/PartialJsonUtilities.cs:75-92 | The survivors are, in order, the properties whose path is accepted. The cache grows by exactly their direct paths. The query log only grows. |
| JsonPruner.PruningPass.ObjectPass | src/PartialResponse.Core/PartialJsonUtilities.cs:94-102 | Every object-valued survivor is pruned at its own path and dropped once empty; other properties pass through. The cache grows by exactly the paths evaluated below those objects. The query log only grows. |
| JsonPruner.PruningPass.ArrayPass | src/PartialResponse.Core/PartialJsonUtilities.cs:104-112 | Every array-valued property is pruned at its own path and dropped once empty; other properties pass through. The cache grows by exactly the paths evaluated below those arrays. The query log only grows. |
| JsonPruner.PruningPass.RemoveArrayElements | src/PartialResponse.Core/PartialJsonUtilities.cs:49-56 | The elements left are `PruneElements(elems, currentPath, shouldSerialize)`: object elements are pruned at the array's own path and dropped once empty, all others are kept. Also the emptiness rule for the array's slot, and the cache growth. The query log only grows. |
| JsonPruner.PassesCompose | src/PartialResponse.Core/PartialJsonUtilities.cs:75-112 | Running the three passes is the same as deciding each property's fate on its own, in order. So the loops compute `PruneProperties`. |
| JsonPruner.PassVisitsCompose | src/PartialResponse.Core/PartialJsonUtilities.cs:75-112 | The paths the three passes evaluate are, property by property, its own path plus, only if that path is accepted, the paths below it. |
| JsonPruner.NoDuplicatesPairwise | src/PartialResponse.Core/PartialJsonUtilities.cs:80-89 | The log whose last entry never repeats an earlier one is pairwise distinct. This is the at-most-once reading of the cache check. |
| JsonPruner.NoDuplicatesCount | src/PartialResponse.Core/PartialJsonUtilities.cs:80-89 | A log with no duplicates records as many distinct paths as it has entries. |
| JsonPruner.LogReport | src/PartialResponse.Core/PartialJsonUtilities.cs:80-89 | A duplicate-free log of exactly a set of paths holds each of them once, nothing else, and has the set's size. |
| PruningProperties.PrunedSettled | src/PartialResponse.Core/PartialJsonUtilities.cs:73-130 | The output is settled: every property left has an accepted path, and no container below the root is empty. Pruning leaves a tree unchanged exactly when it was settled already. |
| PruningProperties.PrunedTwice | src/PartialResponse.Core/PartialJsonUtilities.cs:73-130 | Pruning is idempotent. |
| PruningProperties.PrunedSubTree | src/PartialResponse.Core/PartialJsonUtilities.cs:49-130 | The output is a sub-tree of the input. Properties and elements that are left keep their order, their names and their scalar values; only removals happen. |
| PruningProperties.PropertySurvival | src/PartialResponse.Core/PartialJsonUtilities.cs:75-112 | A property with a rejected path leaves no property of its name. An accepted scalar property stays as it is. An accepted container property stays with its pruned value unless that value is emptied. With a unique name, the property is present exactly when it is accepted and not emptied. |
| PruningProperties.ElementSurvival | src/PartialResponse.Core/PartialJsonUtilities.cs:51-53 | Scalar and array elements are kept untouched. An object element is kept, pruned at the array's path, unless it is emptied. Every non-object element left comes from the input. |
| PruningProperties.VisitedOnlyUnderAccepted | src/PartialResponse.Core/PartialJsonUtilities.cs:94-112 | Every path evaluated while pruning an object is the path of one of its properties, or lies below the path of a property whose own path was accepted. |
| PruningProperties.NothingBelowRejected | src/PartialResponse.Core/PartialJsonUtilities.cs:94-112 | No path below a rejected property is evaluated, for names that are distinct and contain no `/`. |
| PruningProperties.PropsBelowUpTo | src/PartialResponse.Core/PartialJsonUtilities.cs:99-101 | Everything evaluated inside an object at path `p` lies below `p`. |
| PruningExamples.SelectingNestedProperty | src/PartialResponse.Core/PartialJsonUtilities.cs:73-115 | `{"a":{"b":1,"c":2},"d":3}` with `a` and `a/b` accepted gives `{"a":{"b":1}}`. |
| PruningExamples.NestedEvaluatedPaths | src/PartialResponse.Core/PartialJsonUtilities.cs:78-89 | That pass evaluates `a`, `a/b`, `a/c` and `d`, and nothing below the rejected `d`. |
| PruningExamples.SiblingsEvaluateOnePath | src/PartialResponse.Core/PartialJsonUtilities.cs:49-56 | Both elements of `[{"a":1},{"a":2}]` are judged at the same path: only `a` is evaluated. |
| PruningExamples.SiblingsPruned | src/PartialResponse.Core/PartialJsonUtilities.cs:49-56 | `[{"a":1},{"a":2}]` is kept whole when `a` is accepted, and becomes `[]` when it is not. |
| PruningExamples.SiblingsShareOneQuery | src/PartialResponse.Core/PartialJsonUtilities.cs:76-90 | On `[{"a":1},{"a":2}]` the pass hands the path `a` to the predicate exactly once, for both elements: the log is `["a"]`. Both elements get the same decision, so both stay or both go. |
| PruningExamples.PruneNested | src/PartialResponse.Core/PartialJsonUtilities.cs:13-47 | The mutable pass writes `{"a":{"b":1}}` for that tree. |
| PruningExamples.EmptyChildCascades | src/PartialResponse.Core/PartialJsonUtilities.cs:114-130 | `{"a":{}}` gives `{}`: an object that is empty on input is removed too. |
| PruningExamples.RejectingEverythingKeepsRoot | src/PartialResponse.Core/PartialJsonUtilities.cs:121-128 | For every object root, rejecting every path gives `{}`, not nothing. |
| PruningExamples.RejectingEverythingKeepsRootArray | src/PartialResponse.Core/PartialJsonUtilities.cs:62-69 | `[{"a":1}]` with every path rejected gives `[]`. |
| PruningExamples.EmptiedArrayCascades | src/PartialResponse.Core/PartialJsonUtilities.cs:49-71 | `{"items":[{"x":1}]}` with only `items` accepted gives `{}`. The element empties, then the array, then the property goes. |
| PruningExamples.ArrayElementsUseArrayPath | src/PartialResponse.Core/PartialJsonUtilities.cs:49-56 | `{"items":[{"x":1},2,[]]}` with only `items` accepted gives `{"items":[2,[]]}`. The element object is judged at `items/x`, with no index. |
| PruningExamples.NestedEmptyArrayStays | src/PartialResponse.Core/PartialJsonUtilities.cs:51-53 | `[[]]` is written unchanged, because a nested array is not an object element. |
| PruningExamples.ObjectInNestedArrayStays | src/PartialResponse.Core/PartialJsonUtilities.cs:51-53 | An object inside a nested array is not pruned. |
| PruningExamples.NullAndScalarRoots | src/PartialResponse.Core/PartialJsonUtilities.cs:15-44 | A null root and a scalar root are written as they are. |
| Paths.CombinePathSegments | src/PartialResponse.Core/PartialJsonUtilities.cs:99 | Below the root, a combined path splits on `/` into the segments of the current path followed by the name, for a name without `/`. This is how a selector sees the path of a nested property. |
| Paths.CombinePathInjective | src/PartialResponse.Core/PartialJsonUtilities.cs:78-87 | Under one current path, different names give different paths, so sibling properties never share a cache key. |
| Paths.PathOfSegments | src/PartialResponse.Core/PartialJsonUtilities.cs:99 | The path reached by nesting names is those names joined by `/`. When no name holds `/`, it splits back into exactly those names. |
| FieldSelector.FieldOf | test/PartialResponse.Core.Tests/FieldTests.cs:21-44 | A field always has at least one segment, and no segment contains `/`. |
| FieldSelector.ScanPrefixAgrees | test/PartialResponse.Core.Tests/FieldTests.cs:59-134 | The segment-by-segment scan of `Matches` holds exactly when the selector and the candidate agree at every position both have. |
| FieldSelector.MatchesIff | test/PartialResponse.Core.Tests/FieldTests.cs:59-134 | `Matches` holds exactly when every common position matches. |
| FieldSelector.PrefixMatchesBothWays | test/PartialResponse.Core.Tests/FieldTests.cs:98-121 | A selector matches every candidate that extends it, and every candidate it extends. |
| FieldSelector.MismatchRejects | test/PartialResponse.Core.Tests/FieldTests.cs:72-82 | One mismatching segment in the common prefix rejects the candidate, even after matching ones. |
| FieldSelector.WildcardAcceptsAny | test/PartialResponse.Core.Tests/FieldTests.cs:124-134 | A `*` segment accepts any candidate segment at its position. |
| FieldSelector.IgnoringCaseIsWeaker | test/PartialResponse.Core.Tests/FieldTests.cs:137-147 | Ignoring case never loses a match. |
| FieldSelector.IgnoreCaseIsLowerCaseMatch | test/PartialResponse.Core.Tests/FieldTests.cs:137-147 | Matching with `ignoreCase` holds exactly when case-sensitive matching of the lower-cased selector segments against the lower-cased candidate segments holds. The wildcard keeps its meaning, because only `*` lower-cases to `*`. |
| FieldSelector.ToTextOfFieldOf | test/PartialResponse.Core.Tests/FieldTests.cs:150-161 | `ToString` of a field built from a text returns that text. |
| FieldSelector.FieldOfToText | test/PartialResponse.Core.Tests/FieldTests.cs:150-161 | Building a field from the text of a field whose segments contain no `/` gives it back. |
| FieldSelector.PartsOfSingleValue | test/PartialResponse.Core.Tests/FieldTests.cs:21-31 | `"foo"` has parts `["foo"]`. |
| FieldSelector.PartsOfNestedValue | test/PartialResponse.Core.Tests/FieldTests.cs:34-44 | `"foo/bar"` has parts `["foo","bar"]`. |
| FieldSelector.DifferentValueDoesNotMatch | test/PartialResponse.Core.Tests/FieldTests.cs:59-69 | `foo` does not match `["bar"]`. |
| FieldSelector.DifferentNestedValueDoesNotMatch | test/PartialResponse.Core.Tests/FieldTests.cs:72-82 | `foo/bar` does not match `["foo","baz"]`. |
| FieldSelector.SameValueMatches | test/PartialResponse.Core.Tests/FieldTests.cs:85-95 | `foo` matches `["foo"]`. |
| FieldSelector.DescendantMatches | test/PartialResponse.Core.Tests/FieldTests.cs:98-108 | `foo` matches `["foo","bar"]`. |
| FieldSelector.AncestorMatches | test/PartialResponse.Core.Tests/FieldTests.cs:111-121 | `foo/bar` matches `["foo"]`. |
| FieldSelector.WildcardMatches | test/PartialResponse.Core.Tests/FieldTests.cs:124-134 | `*` matches `["foo"]`. |
| FieldSelector.IgnoreCaseMatches | test/PartialResponse.Core.Tests/FieldTests.cs:137-147 | `foo` matches `["FOO"]` when ignoring case, and only then. |
| FieldSelector.ToTextReturnsValue | test/PartialResponse.Core.Tests/FieldTests.cs:150-161 | `ToString` of `Field("foo/bar")` is `"foo/bar"`. |
| Segments.SplitSeparatorFree | test/PartialResponse.Core.Tests/FieldTests.cs:34-44 | No piece of a split contains the separator. |
| Segments.JoinSplit | test/PartialResponse.Core.Tests/FieldTests.cs:150-161 | Joining the pieces of a split with the separator gives back the text. |
| Segments.SplitJoin | test/PartialResponse.Core.Tests/FieldTests.cs:34-44 | Splitting the join of pieces that do not hold the separator gives back the pieces. |
| Segments.SplitConcat | test/PartialResponse.Core.Tests/FieldTests.cs:34-44 | Splitting `a + sep + b` is splitting `a` followed by splitting `b`. |
| FieldSet.TryParse | test/PartialResponse.Core.Tests/FieldsTests.cs:31-48 | Parsing succeeds exactly when every clause is well formed, and failure yields `default(Fields)`. On success there is one field per clause, the i-th built from the i-th clause. |
| FieldSet.ParseClausesSpec | test/PartialResponse.Core.Tests/FieldsTests.cs:31-48 | The clause-by-clause parse fails as a whole exactly when some clause is malformed. |
| FieldSet.TryParseRoundTrip | test/PartialResponse.Core.Tests/FieldsTests.cs:75-85 | What parsing accepts prints back, fields joined by `,`, as exactly the parsed text. |
| FieldSet.ParseOfToText | test/PartialResponse.Core.Tests/FieldsTests.cs:75-85 | A non-empty set with non-empty segments free of `/` and `,` parses back from its own text. |
| FieldSet.MatchesIffSomeField | test/PartialResponse.Core.Tests/FieldsTests.cs:61-98 | A set matches exactly when one of its fields matches. |
| FieldSet.DefaultMatchesNothing | test/PartialResponse.Core.Tests/FieldsTests.cs:21-28 | The default set matches no path. |
| FieldSet.DefaultHasNoValues | test/PartialResponse.Core.Tests/FieldsTests.cs:21-28 | `default(Fields).Values` is empty. |
| FieldSet.MalformedTextFails | test/PartialResponse.Core.Tests/FieldsTests.cs:31-48 | `TryParse("foo//")` returns false and the default set. |
| FieldSet.ParseOfFoo | test/PartialResponse.Core.Tests/FieldsTests.cs:68 | `TryParse("foo")` succeeds with the single field `foo`. |
| FieldSet.ParsedFooDoesNotMatchBar | test/PartialResponse.Core.Tests/FieldsTests.cs:62-72 | The set parsed from `foo` does not match `bar`. |
| FieldSet.ParsedFooMatchesFoo | test/PartialResponse.Core.Tests/FieldsTests.cs:75-85 | The set parsed from `foo` matches `foo`. |
| FieldSet.ParsedFooMatchesUpperCaseWhenIgnoringCase | test/PartialResponse.Core.Tests/FieldsTests.cs:88-98 | The set parsed from `foo` matches `FOO` when ignoring case. |

## Left out

- Newtonsoft.Json is not modelled: `JToken.FromObject`, `WriteTo` and `JsonSerializer.Serialize`. The input is taken as an already converted tree, and the output is the tree that would be written.
- Parent pointers are not modelled. The `Parent` / `Parent.Parent` test becomes the `Slot` handed to a callee. The case of a property without a parent cannot arise in the walk, because the walk only reaches properties that are attached.
- `PathUtilities.CombinePath` is not part of this model. It is assumed to give the name alone for a null path and `path + "/" + name` otherwise. The cache is keyed by that string. So two properties whose path strings coincide share one decision: equal names, or a name holding `/`.
- `JObject` forbids two properties of the same name. The model's objects allow it, and every lemma holds either way. Lemmas that need unique names say so.
- `shouldSerialize` is taken as a pure function. A `Func<string, bool>` with side effects is not modelled. The ghost `queried` log stands in for observing its calls.
- JsonPruner.RemovePropertiesAndArrayElements: the order of the queried paths is not stated. The contract states only which paths are queried, and that each is queried once.
- PruningProperties.NothingBelowRejected: the contract holds only for distinct names without `/`. With colliding path strings, another property's path can lie below a rejected one. `VisitedOnlyUnderAccepted` states the general form.
- The `Field`, `Fields` and parser implementations are not part of this model. Their behaviour is modelled as the unit tests pin it, and `ParserContext` / `TextReader` (a character-stream reader) are left out.
  - The parser's grammar is only the flat one: clauses separated by `,`, segments separated by `/`, and an empty segment fails the parse. The empty selector `""` therefore fails.
  - No whitespace handling is modelled.
- FieldSelector.SegmentMatches: `*` is special only on the selector side. A `*` in the candidate is a literal segment.
- Segments.Lower: case folding is ASCII only. .NET's culture-sensitive comparison is not modelled.
- Null arguments (`ArgumentNullException` for a null value, parts, or selector text) are not modelled. Dafny's types already exclude null, so no precondition is needed.
