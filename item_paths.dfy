/** Sitecore item paths: segments joined by '/', such as "/sitecore/content/Home". */
module ItemPaths {
  import opened Outcomes
  import opened Text

  /** The path of an item named `name` under the item at `parentPath` (string.Concat(parent, "/", name)). */
  function ChildPath(parentPath: string, name: string): string
  {
    parentPath + "/" + name
  }

  /** Everything before the last '/', or None for a path without one. */
  function ParentPath(path: string): Option<string>
  {
    match LastIndexOf(path, '/')
    case None => None
    case Some(k) => Some(path[..k])
  }

  /** Everything after the last '/': the item's name. */
  function LastSegment(path: string): string
  {
    match LastIndexOf(path, '/')
    case None => path
    case Some(k) => path[k + 1..]
  }

  lemma LastIndexOfAfter(front: string, c: char, back: string)
    requires c !in back
    ensures LastIndexOf(front + [c] + back, c) == Some(|front|)
  {
    var s := front + [c] + back;
    assert s[|front|] == c;
    var r := LastIndexOf(s, c);
    assert r.Some?;
    assert s[|front| + 1..] == back;
  }

  /** A child path splits back into its parent's path and its name, when the name has no '/'. */
  lemma ChildPathParts(parentPath: string, name: string)
    requires '/' !in name
    ensures ParentPath(ChildPath(parentPath, name)) == Some(parentPath)
    ensures LastSegment(ChildPath(parentPath, name)) == name
  {
    LastIndexOfAfter(parentPath, '/', name);
    var p := ChildPath(parentPath, name);
    assert p[..|parentPath|] == parentPath;
    assert p[|parentPath| + 1..] == name;
  }

  /** And a path with a '/' is the child path of its parent path and last segment. */
  lemma PathIsChildOfParent(path: string)
    requires ParentPath(path).Some?
    ensures ChildPath(ParentPath(path).value, LastSegment(path)) == path
  {
    var k := LastIndexOf(path, '/').value;
    assert path == path[..k] + "/" + path[k + 1..];
  }

  /** Is `path` equal to `root` or inside it, comparing ignoring case as item paths are compared? */
  predicate WithinIgnoreCase(path: string, root: string)
  {
    StartsWithIgnoreCase(path, root)
  }
}
