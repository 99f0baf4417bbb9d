/**
  Slash-joined paths used as keys while walking a JSON tree. The root has no
  path (a null `currentPath`), a property extends its parent's path by its name.
 */
module Paths {
  import opened Segments
  import opened Optional

  const PathSeparator: char := '/'

  /**
    `PathUtilities.CombinePath(currentPath, name)`: with no current path the
    name alone, otherwise the current path, a separator and the name.
   */
  function CombinePath(currentPath: Option<string>, name: string): (path: string)
  {
    match currentPath
    case None => name
    case Some(prefix) => prefix + [PathSeparator] + name
  }

  /**
    Below the root, the segments of a combined path are those of the current
    path followed by the name, when the name holds no separator: this is how a
    selector, which compares segments, sees the path of a nested property.
   */
  lemma CombinePathSegments(prefix: string, name: string)
    requires PathSeparator !in name
    ensures Split(CombinePath(Some(prefix), name), PathSeparator) == Split(prefix, PathSeparator) + [name]
  {
    SplitConcat(prefix, name, PathSeparator);
    SplitFree(name, PathSeparator);
  }

  /** Under one current path, different names give different paths (and so different cache keys). */
  lemma CombinePathInjective(currentPath: Option<string>, a: string, b: string)
    ensures CombinePath(currentPath, a) == CombinePath(currentPath, b) ==> a == b
  {
    if currentPath.Some? && CombinePath(currentPath, a) == CombinePath(currentPath, b) {
      var n := |currentPath.value| + 1;
      assert a == CombinePath(currentPath, a)[n..];
      assert b == CombinePath(currentPath, b)[n..];
    }
  }

  /** The path of a property reached through the property names `names`, from the root. */
  function PathOf(names: seq<string>): (path: string)
    requires |names| >= 1
    decreases |names|
  {
    if |names| == 1 then CombinePath(None, names[0])
    else CombinePath(Some(PathOf(names[..|names| - 1])), names[|names| - 1])
  }

  /**
    The path built by nesting is the names joined by the separator, and when no
    name contains the separator it splits back into exactly those names; this is
    what lets a selector, which looks at segments, judge a path string.
   */
  lemma {:induction false} PathOfSegments(names: seq<string>)
    requires |names| >= 1
    requires SeparatorFree(names, PathSeparator)
    ensures PathOf(names) == Join(names, PathSeparator)
    ensures Split(PathOf(names), PathSeparator) == names
    decreases |names|
  {
    if |names| > 1 {
      var init := names[..|names| - 1];
      PathOfSegments(init);
      JoinSnoc(init, names[|names| - 1], PathSeparator);
      assert init + [names[|names| - 1]] == names;
    }
    SplitJoin(names, PathSeparator);
  }

  /** Joining with one more piece at the end appends a separator and that piece. */
  lemma {:induction false} JoinSnoc(pieces: seq<string>, last: string, sep: char)
    requires |pieces| >= 1
    ensures Join(pieces + [last], sep) == Join(pieces, sep) + [sep] + last
    decreases |pieces|
  {
    if |pieces| == 1 {
      assert (pieces + [last])[1..] == [last];
    } else {
      JoinSnoc(pieces[1..], last, sep);
      assert (pieces + [last])[1..] == pieces[1..] + [last];
    }
  }
}
