/**
 * Materialised folder paths: segments joined by `/`.  The explorer's current
 * location is a path string in which `""` stands for the root.
 */
module Paths {
  import opened Wrappers
  import opened Strings

  /** `path.split('/').length`. */
  function SegmentCount(path: string): nat
  {
    |Split(path, '/')|
  }

  /** `currentPath || null`: the `parent` value of a folder created at `currentPath`. */
  function ParentKey(currentPath: string): Option<string>
  {
    if currentPath == "" then None else Some(currentPath)
  }

  /** `currentPath || 'root'`: the `dossierId` of a file stored at `currentPath`. */
  function ContainerKey(currentPath: string): string
  {
    if currentPath == "" then "root" else currentPath
  }

  /** The path of a folder named `name` under `parent` (absent for a root folder). */
  function JoinPath(parent: Option<string>, name: string): string
  {
    match parent
    case None => name
    case Some(p) => p + "/" + name
  }

  /** The `niveau` a folder created at `currentPath` receives. */
  function ChildLevel(currentPath: string): nat
  {
    if currentPath == "" then 1 else SegmentCount(currentPath) + 1
  }

  /** The "Retour" button: `currentPath.split('/')` without its last segment, joined by `/`. */
  function ParentPath(currentPath: string): string
  {
    var parts := Split(currentPath, '/');
    Join(parts[..|parts| - 1], '/')
  }

  /** Renaming in place: the last segment of `path` replaced by `newName`. */
  function RenamedPath(path: string, newName: string): string
  {
    var parts := Split(path, '/');
    Join(parts[..|parts| - 1] + [newName], '/')
  }

  /** A path has one more segment than it has separators. */
  lemma SegmentCountIsCount(p: string)
    ensures SegmentCount(p) == Count(p, '/') + 1
  {
    SplitCount(p, '/');
  }

  /** Appending one `/`-free segment adds one segment. */
  lemma SegmentCountAppend(p: string, name: string)
    requires '/' !in name
    ensures SegmentCount(p + "/" + name) == SegmentCount(p) + 1
  {
    SegmentCountIsCount(p);
    SegmentCountIsCount(p + "/" + name);
    CountAppend(p + "/", name, '/');
    CountAppend(p, "/", '/');
    CountAbsent(name, '/');
    assert Count("/", '/') == 1 by {
      assert "/"[1..] == [];
    }
  }

  lemma SegmentCountSingle(name: string)
    requires '/' !in name
    ensures SegmentCount(name) == 1
  {
    SegmentCountIsCount(name);
    CountAbsent(name, '/');
  }

  /** The segments of a child path are its parent's segments and its name. */
  lemma SplitChild(p: string, name: string)
    requires '/' !in name
    ensures Split(p + "/" + name, '/') == Split(p, '/') + [name]
  {
    var parts := Split(p, '/') + [name];
    JoinAppend(Split(p, '/'), name, '/');
    SplitJoin(parts, '/');
  }

  lemma SplitSingle(name: string)
    requires '/' !in name
    ensures Split(name, '/') == [name]
  {
    SplitJoin([name], '/');
  }

  /**
   * A folder created at `currentPath` gets a level equal to the number of
   * segments of its path, as long as its name holds no `/`.
   */
  lemma ChildLevelIsDepth(currentPath: string, name: string)
    requires '/' !in name
    ensures ChildLevel(currentPath) == SegmentCount(JoinPath(ParentKey(currentPath), name))
  {
    if currentPath == "" {
      SegmentCountSingle(name);
    } else {
      SegmentCountAppend(currentPath, name);
    }
  }

  /** A name with a `/` breaks that agreement: created at the root it has level 1 but two segments. */
  lemma SlashInNameBreaksDepth()
    ensures ChildLevel("") == 1
    ensures SegmentCount(JoinPath(ParentKey(""), "a/b")) == 2
  {
    assert Split("a/b", '/') == ["a", "b"] by {
      SplitJoin(["a", "b"], '/');
      assert Join(["a", "b"], '/') == "a/b";
    }
  }

  /** "Retour" from a folder leads back to the location it was created at. */
  lemma ParentOfChild(currentPath: string, name: string)
    requires '/' !in name
    ensures ParentPath(JoinPath(ParentKey(currentPath), name)) == currentPath
  {
    if currentPath == "" {
      SplitSingle(name);
    } else {
      SplitChild(currentPath, name);
      var parts := Split(currentPath, '/') + [name];
      assert parts[..|parts| - 1] == Split(currentPath, '/');
    }
  }

  /** "Retour" removes exactly one segment from a path of two segments or more. */
  lemma ParentPathDropsOneSegment(path: string)
    requires SegmentCount(path) >= 2
    ensures SegmentCount(ParentPath(path)) == SegmentCount(path) - 1
    ensures ParentPath(path) + "/" + Split(path, '/')[SegmentCount(path) - 1] == path
  {
    var parts := Split(path, '/');
    assert ParentPath(path) == Join(parts[..|parts| - 1], '/');
    JoinFront(parts);
    RejoinFront(parts);
  }

  /** Dropping the last of several `/`-free segments: what is left splits back to the front. */
  lemma JoinFront(parts: seq<string>)
    requires |parts| >= 2
    requires forall k :: 0 <= k < |parts| ==> '/' !in parts[k]
    ensures Split(Join(parts[..|parts| - 1], '/'), '/') == parts[..|parts| - 1]
  {
    var front := parts[..|parts| - 1];
    assert forall k :: 0 <= k < |front| ==> '/' !in front[k] by {
      assert forall k :: 0 <= k < |front| ==> front[k] == parts[k];
    }
    SplitJoin(front, '/');
  }

  /** Dropping the last of several segments and putting it back with a separator gives the whole. */
  lemma RejoinFront(parts: seq<string>)
    requires |parts| >= 2
    ensures Join(parts[..|parts| - 1], '/') + "/" + parts[|parts| - 1] == Join(parts, '/')
  {
    SplitLast(parts);
    RejoinLast(parts, parts[..|parts| - 1], parts[|parts| - 1]);
  }

  lemma SplitLast<T>(s: seq<T>)
    requires |s| >= 1
    ensures s == s[..|s| - 1] + [s[|s| - 1]]
  {
  }

  lemma RejoinLast(parts: seq<string>, front: seq<string>, last: string)
    requires |front| >= 1 && parts == front + [last]
    ensures Join(front, '/') + "/" + last == Join(parts, '/')
  {
    JoinAppend(front, last, '/');
  }

  /**
   * Renaming the last segment of a folder's path gives the path of a folder of
   * the new name under the same parent.
   */
  lemma RenamedChild(parent: Option<string>, oldName: string, newName: string)
    requires '/' !in oldName
    ensures RenamedPath(JoinPath(parent, oldName), newName) == JoinPath(parent, newName)
  {
    match parent
    case None =>
      SplitSingle(oldName);
    case Some(p) =>
      SplitChild(p, oldName);
      var parts := Split(p, '/') + [oldName];
      assert parts[..|parts| - 1] == Split(p, '/');
      JoinAppend(Split(p, '/'), newName, '/');
  }

  /** The segments of a folder path are its parent's segments followed by its name. */
  lemma SplitJoinPath(parent: Option<string>, name: string)
    requires '/' !in name
    ensures Split(JoinPath(parent, name), '/') ==
      match parent
      case None => [name]
      case Some(p) => Split(p, '/') + [name]
  {
    match parent
    case None => SplitSingle(name);
    case Some(p) => SplitChild(p, name);
  }

  /** A folder path has one segment more than its parent path, and one segment at the root. */
  lemma JoinPathDepth(parent: Option<string>, name: string)
    requires '/' !in name
    ensures SegmentCount(JoinPath(parent, name)) ==
      match parent
      case None => 1
      case Some(p) => SegmentCount(p) + 1
  {
    SplitJoinPath(parent, name);
  }

  /** Joining a name adds one segment, and one more for every `/` inside the name. */
  lemma JoinPathSegments(parent: Option<string>, name: string)
    ensures SegmentCount(JoinPath(parent, name)) ==
      (match parent case None => 0 case Some(p) => SegmentCount(p)) + Count(name, '/') + 1
  {
    SegmentCountIsCount(JoinPath(parent, name));
    match parent
    case None =>
    case Some(p) =>
      SegmentCountIsCount(p);
      CountAppend(p + "/", name, '/');
      CountAppend(p, "/", '/');
      assert Count("/", '/') == 1 by {
        assert "/"[1..] == [];
      }
  }

  /** Different parents or different `/`-free names give different paths. */
  lemma JoinPathDistinct(p: Option<string>, a: string, q: Option<string>, b: string)
    requires '/' !in a && '/' !in b
    requires p != q || a != b
    ensures JoinPath(p, a) != JoinPath(q, b)
  {
    SplitJoinPath(p, a);
    SplitJoinPath(q, b);
    var sa := Split(JoinPath(p, a), '/');
    var sb := Split(JoinPath(q, b), '/');
    assert sa[|sa| - 1] == a && sb[|sb| - 1] == b;
    if p.Some? {
      assert sa[..|sa| - 1] == Split(p.value, '/');
    }
    if q.Some? {
      assert sb[..|sb| - 1] == Split(q.value, '/');
    }
    assert sa != sb;
  }
}
