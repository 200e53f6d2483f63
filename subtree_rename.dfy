/**
 * The rename the cascade is evidently meant to perform: every folder and file
 * at or below the renamed folder has the old path prefix replaced by the new
 * one, by plain prefix substitution (no `$` patterns). Unlike the one-level
 * cascade it keeps the tree consistent.
 */
module SubtreeRename {
  import opened Wrappers
  import opened Strings
  import opened Paths
  import opened Documents
  import opened Namespace
  import opened NamespaceProperties

  /** `path` is `root` itself or lies somewhere below it. */
  predicate Under(path: string, root: string)
  {
    path == root || (|root| < |path| && path[..|root| + 1] == root + "/")
  }

  /** The `root` prefix of a path at or below `root` replaced by `newRoot`; other paths are kept. */
  function Rebase(path: string, root: string, newRoot: string): (r: string)
    ensures Under(path, root) ==> r == newRoot + path[|root|..]
    ensures !Under(path, root) ==> r == path
  {
    if Under(path, root) then newRoot + path[|root|..] else path
  }

  function RebaseParent(parent: Option<string>, root: string, newRoot: string): Option<string>
  {
    match parent
    case None => None
    case Some(p) => Some(Rebase(p, root, newRoot))
  }

  /** The folder table after renaming `f` to `newName` together with its whole subtree. */
  function SubtreeFolders(folders: seq<Folder>, f: Folder, newName: string): (r: seq<Folder>)
    ensures |r| == |folders|
  {
    var newPath := NewPathFor(f, newName);
    seq(|folders|, i requires 0 <= i < |folders| =>
      folders[i].(nom := if folders[i].id == f.id then newName else folders[i].nom,
                  path := Rebase(folders[i].path, f.path, newPath),
                  parent := RebaseParent(folders[i].parent, f.path, newPath)))
  }

  /** The file table after the subtree rename: files anywhere below follow their folder. */
  function SubtreeFiles(files: seq<File>, f: Folder, newName: string): (r: seq<File>)
    ensures |r| == |files|
  {
    var newPath := NewPathFor(f, newName);
    seq(|files|, i requires 0 <= i < |files| =>
      files[i].(dossierId := Rebase(files[i].dossierId, f.path, newPath)))
  }

  // ---------------------------------------------------------------------------
  // Prefix facts
  // ---------------------------------------------------------------------------

  /** A child of a path at or below `root` is below `root`. */
  lemma ChildOfUnder(p: string, name: string, root: string)
    ensures Under(p, root) ==> Under(p + "/" + name, root)
  {
    var s := p + "/" + name;
    if Under(p, root) && p != root {
      assert s[..|root| + 1] == p[..|root| + 1];
    }
  }

  /** The parent of a `/`-free name strictly below `root` is itself at or below `root`. */
  lemma ParentOfUnder(p: string, name: string, root: string)
    requires '/' !in name
    requires Under(p + "/" + name, root) && p + "/" + name != root
    ensures Under(p, root)
  {
    var s := p + "/" + name;
    assert s[|root|] == '/';
    assert forall j :: |p| < j < |s| ==> s[j] == name[j - |p| - 1];
    assert |root| <= |p|;
    if |root| < |p| {
      assert p[..|root| + 1] == s[..|root| + 1];
    } else {
      assert p == s[..|p|] == root;
    }
  }

  /** A path without `/` is at or below `root` only when it is `root`. */
  lemma SingleSegmentUnder(s: string, root: string)
    ensures Under(s, root) && '/' !in s ==> s == root
  {
    if Under(s, root) && s != root {
      assert s[|root|] == (root + "/")[|root|];
    }
  }

  /** Rebasing a child path rebases its parent part. */
  lemma RebaseChild(p: string, name: string, root: string, newRoot: string)
    requires Under(p, root)
    ensures Rebase(p + "/" + name, root, newRoot) == Rebase(p, root, newRoot) + "/" + name
  {
    ChildOfUnder(p, name, root);
    var s := p + "/" + name;
    assert s[|root|..] == p[|root|..] + "/" + name;
  }

  /** Rebasing onto a root of the same depth keeps the number of segments. */
  lemma RebaseDepth(p: string, root: string, newRoot: string)
    requires SegmentCount(newRoot) == SegmentCount(root)
    ensures SegmentCount(Rebase(p, root, newRoot)) == SegmentCount(p)
  {
    if Under(p, root) {
      var t := p[|root|..];
      assert p == root + t;
      assert Rebase(p, root, newRoot) == newRoot + t;
      SegmentCountIsCount(p);
      SegmentCountIsCount(root);
      SegmentCountIsCount(newRoot);
      SegmentCountIsCount(newRoot + t);
      CountAppend(root, t, '/');
      CountAppend(newRoot, t, '/');
    }
  }

  // ---------------------------------------------------------------------------
  // The subtree rename keeps the tree consistent
  // ---------------------------------------------------------------------------

  /** The renamed folder takes the new name at the new path; it is well formed exactly when the name holds no `/`. */
  lemma SubtreeRoot(folders: seq<Folder>, files: seq<File>, k: nat, newName: string)
    requires Consistent(folders, files) && FolderIdsIncreasing(folders) && k < |folders|
    requires newName != ""
    ensures var r := SubtreeFolders(folders, folders[k], newName);
      && r[k] == folders[k].(nom := newName, path := JoinPath(folders[k].parent, newName))
      && (WellFormed(r[k]) <==> '/' !in newName)
  {
    var f := folders[k];
    var newPath := NewPathFor(f, newName);
    assert WellFormed(f);
    NewPathIsSibling(folders, files, k, newName);
    assert f.path[|f.path|..] == "";
    assert Rebase(f.path, f.path, newPath) == newPath;
    assert f.parent.Some? ==> !Under(f.parent.value, f.path);
    assert RebaseParent(f.parent, f.path, newPath) == f.parent;
    if '/' !in newName {
      NewPathDepth(folders, files, k, newName);
    }
  }

  /** Every other folder stays well formed. */
  lemma SubtreeOther(folders: seq<Folder>, files: seq<File>, k: nat, newName: string, i: nat)
    requires Consistent(folders, files) && UniquePaths(folders) && FolderIdsIncreasing(folders)
    requires k < |folders| && newName != "" && '/' !in newName
    requires i < |folders| && i != k
    ensures WellFormed(SubtreeFolders(folders, folders[k], newName)[i])
  {
    var f := folders[k];
    var x := folders[i];
    var newPath := NewPathFor(f, newName);
    var y := SubtreeFolders(folders, f, newName)[i];
    assert WellFormed(x) && x.id != f.id && x.path != f.path;
    NewPathDepth(folders, files, k, newName);
    RebaseDepth(x.path, f.path, newPath);
    if Under(x.path, f.path) {
      SingleSegmentUnder(x.nom, f.path);
      assert x.parent.Some?;
      var pv := x.parent.value;
      ParentOfUnder(pv, x.nom, f.path);
      RebaseChild(pv, x.nom, f.path, newPath);
    } else if x.parent.Some? {
      ChildOfUnder(x.parent.value, x.nom, f.path);
    }
  }

  /**
   * Renaming a folder together with its subtree keeps the tree consistent:
   * every folder stays well formed, every parent path still names a folder,
   * and every file is still at the root or in a folder.
   */
  lemma RenameSubtreeConsistent(folders: seq<Folder>, files: seq<File>, k: nat, newName: string)
    requires Consistent(folders, files) && UniquePaths(folders) && FolderIdsIncreasing(folders)
    requires k < |folders| && newName != "" && '/' !in newName
    ensures Consistent(SubtreeFolders(folders, folders[k], newName), SubtreeFiles(files, folders[k], newName))
  {
    var f := folders[k];
    var newPath := NewPathFor(f, newName);
    var r := SubtreeFolders(folders, f, newName);
    var g := SubtreeFiles(files, f, newName);
    forall i | 0 <= i < |r| ensures WellFormed(r[i]) {
      if i == k {
        SubtreeRoot(folders, files, k, newName);
      } else {
        SubtreeOther(folders, files, k, newName, i);
      }
    }
    forall p | HasFolderAt(folders, p) ensures HasFolderAt(r, Rebase(p, f.path, newPath)) {
      var z :| 0 <= z < |folders| && folders[z].path == p;
      assert r[z].path == Rebase(p, f.path, newPath);
    }
    forall i | 0 <= i < |r| && r[i].parent.Some? ensures HasFolderAt(r, r[i].parent.value) {
      assert HasFolderAt(folders, folders[i].parent.value);
    }
    SubtreeRoot(folders, files, k, newName);
    assert r[k].path == Rebase(f.path, f.path, newPath) by {
      assert f.path[|f.path|..] == "";
    }
    SingleSegmentUnder("root", f.path);
    forall i | 0 <= i < |g| && g[i].dossierId != "root" ensures HasFolderAt(r, g[i].dossierId) {
      if files[i].dossierId != "root" {
        assert HasFolderAt(folders, files[i].dossierId);
      } else {
        assert HasFolderAt(r, r[k].path);
      }
    }
  }

  /**
   * On the renamed folder and its direct subfolders the subtree rename agrees
   * with the one-level cascade, as long as the new path holds no `$`; the two
   * differ only further down.
   */
  lemma SubtreeAgreesOnFirstLevel(folders: seq<Folder>, files: seq<File>, k: nat, newName: string, i: nat)
    requires Consistent(folders, files) && FolderIdsIncreasing(folders)
    requires k < |folders| && newName != ""
    requires '$' !in NewPathFor(folders[k], newName)
    requires i < |folders| && (i == k || folders[i].parent == Some(folders[k].path))
    ensures SubtreeFolders(folders, folders[k], newName)[i] == RenamedFolders(folders, folders[k], newName)[i]
  {
    var f := folders[k];
    var newPath := NewPathFor(f, newName);
    SubtreeRoot(folders, files, k, newName);
    RenameRecordFields(folders, files, k, newName);
    if i != k {
      var x := folders[i];
      assert WellFormed(x) && WellFormed(f) && x.id != f.id;
      RenameChildFields(folders, files, k, newName, i);
      ChildOfUnder(f.path, x.nom, f.path);
      RebaseChild(f.path, x.nom, f.path, newPath);
      assert f.path[|f.path|..] == "";
      assert !Under(f.path, x.path);
    }
  }

  /** Files move with the folder they are in, whether it is the renamed folder or one below it. */
  lemma SubtreeFilesFollow(files: seq<File>, f: Folder, newName: string, j: nat)
    requires j < |files|
    ensures var g := SubtreeFiles(files, f, newName);
      && (files[j].dossierId == f.path ==> g[j].dossierId == NewPathFor(f, newName))
      && (!Under(files[j].dossierId, f.path) ==> g[j] == files[j])
  {
    assert f.path[|f.path|..] == "";
  }

  // ---------------------------------------------------------------------------
  // The subtree rename on the store
  // ---------------------------------------------------------------------------

  /**
   * The corrected `updateFolder`: a name holding `/`, which a folder name
   * must not hold, and an unknown folder both fail with nothing changed;
   * otherwise every folder record and every file record is rewritten, one at
   * a time, with the old path prefix replaced wherever it occurs at or above
   * the record.
   */
  method RenameSubtree(store: Store, folder: Folder, newName: string) returns (r: Outcome)
    requires store.Valid()
    modifies store
    ensures store.Valid()
    ensures store.objects == old(store.objects) && store.nextId == old(store.nextId)
    ensures ('/' !in newName && exists i :: 0 <= i < |old(store.folders)| && old(store.folders)[i].id == folder.id) ==>
      && r == Pass
      && store.folders == SubtreeFolders(old(store.folders), folder, newName)
      && store.files == SubtreeFiles(old(store.files), folder, newName)
    ensures ('/' in newName || forall i :: 0 <= i < |old(store.folders)| ==> old(store.folders)[i].id != folder.id) ==>
      r == Fail(RenameError) && store.folders == old(store.folders) && store.files == old(store.files)
  {
    if '/' in newName {
      return Fail(RenameError);
    }
    var k := store.FindFolder(folder.id);
    if k.None? {
      return Fail(RenameError);
    }
    RebaseFolderTable(store, folder, newName);
    RebaseFileTable(store, folder, newName);
    r := Pass;
  }

  /** The loop over every folder record: each is rebased, and the renamed one takes the new name. */
  method RebaseFolderTable(store: Store, folder: Folder, newName: string)
    requires store.Valid()
    modifies store
    ensures store.Valid()
    ensures store.folders == SubtreeFolders(old(store.folders), folder, newName)
    ensures store.files == old(store.files) && store.objects == old(store.objects)
    ensures store.nextId == old(store.nextId)
  {
    var newPath := NewPathFor(folder, newName);
    ghost var before := store.folders;
    ghost var target := SubtreeFolders(before, folder, newName);
    var i := 0;
    while i < |store.folders|
      invariant 0 <= i <= |store.folders| && |store.folders| == |before|
      invariant forall m :: 0 <= m < i ==> store.folders[m] == target[m]
      invariant forall m :: i <= m < |store.folders| ==> store.folders[m] == before[m]
      invariant store.files == old(store.files) && store.objects == old(store.objects)
      invariant store.nextId == old(store.nextId)
    {
      var x := store.folders[i];
      var y := x.(nom := if x.id == folder.id then newName else x.nom,
                  path := Rebase(x.path, folder.path, newPath),
                  parent := RebaseParent(x.parent, folder.path, newPath));
      assert y == target[i];
      store.folders := store.folders[i := y];
      i := i + 1;
    }
    assert store.folders == target;
    assert forall m :: 0 <= m < |target| ==> target[m].id == before[m].id;
  }

  /** The loop over every file record: each container path is rebased. */
  method RebaseFileTable(store: Store, folder: Folder, newName: string)
    requires store.Valid()
    modifies store
    ensures store.Valid()
    ensures store.files == SubtreeFiles(old(store.files), folder, newName)
    ensures store.folders == old(store.folders) && store.objects == old(store.objects)
    ensures store.nextId == old(store.nextId)
  {
    var newPath := NewPathFor(folder, newName);
    ghost var before := store.files;
    ghost var target := SubtreeFiles(before, folder, newName);
    var j := 0;
    while j < |store.files|
      invariant 0 <= j <= |store.files| && |store.files| == |before|
      invariant forall m :: 0 <= m < j ==> store.files[m] == target[m]
      invariant forall m :: j <= m < |store.files| ==> store.files[m] == before[m]
      invariant store.folders == old(store.folders) && store.objects == old(store.objects)
      invariant store.nextId == old(store.nextId)
    {
      var y := store.files[j].(dossierId := Rebase(store.files[j].dossierId, folder.path, newPath));
      assert y == target[j];
      store.files := store.files[j := y];
      j := j + 1;
    }
    assert store.files == target;
    assert forall m :: 0 <= m < |target| ==> target[m].id == before[m].id;
  }

  // ---------------------------------------------------------------------------
  // `$` patterns in the new path
  // ---------------------------------------------------------------------------

  /** A root folder `a` holding the subfolder `a/b`. */
  function DollarExample(): seq<Folder>
  {
    [Folder(0, "a", "a", 1, None, 1, 0, "u"), Folder(1, "b", "a/b", 2, Some("a"), 1, 0, "u")]
  }

  lemma DollarExampleConsistent()
    ensures Consistent(DollarExample(), [])
  {
    var t := DollarExample();
    SegmentCountSingle("a");
    SegmentCountAppend("a", "b");
    assert t[0].path == "a";
    assert HasFolderAt(t, "a");
  }

  /**
   * The cascade rewrites a subfolder path with `replace`, which expands `$&`
   * to the matched text: renaming `a` to `x$&` turns `a/b` into `xa/b` while
   * its parent becomes `x$&`, so the subfolder is no longer well formed.
   */
  lemma DollarExpandedInChildPath()
    ensures Consistent(DollarExample(), [])
    ensures var r := RenamedFolders(DollarExample(), DollarExample()[0], "x$&");
      && r[1].parent == Some("x$&")
      && r[1].path == "xa/b"
      && !WellFormed(r[1])
  {
    DollarExampleConsistent();
    var s := "a/b";
    assert s[0..1] == "a";
    assert IndexOf(s, "a") == Some(0);
    var rest := "$&";
    assert rest[0] == '$' && rest[1] == '&' && rest[2..] == "";
    assert ExpandReplacement(rest, "a", "", "/b") == "a";
    var repl := "x$&";
    assert repl[0] == 'x' && repl[1..] == rest;
    assert ExpandReplacement(repl, "a", "", "/b") == "xa";
    assert s[..0] == "" && s[1..] == "/b";
    assert ReplaceFirst(s, "a", repl) == "xa/b";
  }

  /** The prefix rewrite keeps `$` literal: the subfolder becomes `x$&/b` and stays well formed. */
  lemma DollarKeptBySubtreeRename()
    ensures var r := SubtreeFolders(DollarExample(), DollarExample()[0], "x$&");
      && r[1].parent == Some("x$&")
      && r[1].path == "x$&/b"
      && WellFormed(r[1])
  {
    var s := "a/b";
    assert s[..2] == "a/";
    assert Under(s, "a");
    assert s[1..] == "/b";
    assert "a"[1..] == "";
    assert NewPathFor(DollarExample()[0], "x$&") == "x$&";
    assert Rebase("a", "a", "x$&") == "x$&";
    assert '/' !in "x$&" && '/' !in "b";
    SegmentCountSingle("x$&");
    SegmentCountAppend("x$&", "b");
  }
}
