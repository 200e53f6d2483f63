/**
 * What the namespace handlers do to the tree the two tables encode: creation
 * keeps it consistent and numbers siblings in creation order, deletion of an
 * empty folder keeps it consistent, and the rename cascade rewrites the
 * renamed folder, its files and its direct subfolders but leaves every
 * grandchild pointing at a parent path that no longer exists.
 */
module NamespaceProperties {
  import opened Wrappers
  import opened Strings
  import opened Paths
  import opened Documents
  import opened Collections
  import Sorting
  import opened Namespace

  lemma HasFolderAtAppend(folders: seq<Folder>, x: Folder, p: string)
    requires HasFolderAt(folders, p)
    ensures HasFolderAt(folders + [x], p)
  {
    var i :| 0 <= i < |folders| && folders[i].path == p;
    assert (folders + [x])[i] == folders[i];
  }

  /** In a consistent table no parent is the empty path: every folder path is non-empty. */
  lemma ParentNotEmpty(folders: seq<Folder>, files: seq<File>, i: nat)
    requires Consistent(folders, files)
    requires i < |folders| && folders[i].parent.Some?
    ensures folders[i].parent.value != ""
  {
    var z :| 0 <= z < |folders| && folders[z].path == folders[i].parent.value;
    assert WellFormed(folders[z]);
  }

  // ---------------------------------------------------------------------------
  // handleCreateFolder
  // ---------------------------------------------------------------------------

  /**
   * The folder created for a `/`-free name at `currentPath`: at the root its
   * path is the name, its parent is absent and its level 1; elsewhere its path
   * is `currentPath/name`, its parent `currentPath` and its level one more than
   * the segments of `currentPath`. Its sibling number is one more than the
   * number of folders already under that parent. It is well formed and
   * "Retour" from it leads back to `currentPath`.
   */
  lemma CreatedFolderFields(folders: seq<Folder>, id: nat, currentPath: string, name: string,
                            userId: string, now: int)
    requires name != "" && '/' !in name
    ensures var x := NewFolder(folders, id, currentPath, name, userId, now);
      && x.id == id && x.nom == name && x.creePar == userId && x.dateCreation == now
      && (currentPath == "" ==> x.path == name && x.parent == None && x.niveau == 1)
      && (currentPath != "" ==>
            x.path == currentPath + "/" + name && x.parent == Some(currentPath)
            && x.niveau == SegmentCount(currentPath) + 1)
      && x.ordre == |FoldersUnder(folders, x.parent)| + 1
      && WellFormed(x)
      && ParentPath(x.path) == currentPath
  {
    ChildLevelIsDepth(currentPath, name);
    ParentOfChild(currentPath, name);
  }

  /**
   * Nothing stops a second folder of the same name at the same location:
   * paths stay unique exactly when no sibling already carries the name.
   */
  lemma CreateKeepsUniquePathsIff(folders: seq<Folder>, files: seq<File>, id: nat, currentPath: string,
                                  name: string, userId: string, now: int)
    requires Consistent(folders, files) && UniquePaths(folders)
    requires name != "" && '/' !in name
    ensures UniquePaths(folders + [NewFolder(folders, id, currentPath, name, userId, now)]) <==>
      forall i :: 0 <= i < |folders| ==> folders[i].parent != ParentKey(currentPath) || folders[i].nom != name
  {
    var x := NewFolder(folders, id, currentPath, name, userId, now);
    var t := folders + [x];
    if forall i :: 0 <= i < |folders| ==> folders[i].parent != ParentKey(currentPath) || folders[i].nom != name {
      forall i, j | 0 <= i < |t| && 0 <= j < |t| && i != j ensures t[i].path != t[j].path {
        if i < |folders| && j < |folders| {
          assert t[i] == folders[i] && t[j] == folders[j];
        } else if i < |folders| {
          assert WellFormed(folders[i]) && t[i] == folders[i] && t[j] == x;
          JoinPathDistinct(folders[i].parent, folders[i].nom, x.parent, x.nom);
        } else {
          assert WellFormed(folders[j]) && t[j] == folders[j] && t[i] == x;
          JoinPathDistinct(folders[j].parent, folders[j].nom, x.parent, x.nom);
        }
      }
    } else {
      var i :| 0 <= i < |folders| && folders[i].parent == ParentKey(currentPath) && folders[i].nom == name;
      assert WellFormed(folders[i]);
      assert t[i].path == t[|folders|].path;
    }
  }

  /** Creating a folder at an existing location keeps the tree consistent. */
  lemma CreateKeepsConsistent(folders: seq<Folder>, files: seq<File>, id: nat, currentPath: string,
                              name: string, userId: string, now: int)
    requires Consistent(folders, files)
    requires name != "" && '/' !in name
    requires currentPath == "" || HasFolderAt(folders, currentPath)
    ensures Consistent(folders + [NewFolder(folders, id, currentPath, name, userId, now)], files)
  {
    var x := NewFolder(folders, id, currentPath, name, userId, now);
    ChildLevelIsDepth(currentPath, name);
    assert WellFormed(x);
    AppendKeepsConsistent(folders, files, x);
  }

  /** Appending a well-formed folder whose parent (if any) exists keeps the tree consistent. */
  lemma AppendKeepsConsistent(folders: seq<Folder>, files: seq<File>, x: Folder)
    requires Consistent(folders, files) && WellFormed(x)
    requires x.parent.Some? ==> HasFolderAt(folders, x.parent.value)
    ensures Consistent(folders + [x], files)
  {
    var t := folders + [x];
    forall i | 0 <= i < |t| && t[i].parent.Some? ensures HasFolderAt(t, t[i].parent.value) {
      if i < |folders| {
        assert t[i] == folders[i];
        HasFolderAtAppend(folders, x, folders[i].parent.value);
      } else {
        HasFolderAtAppend(folders, x, x.parent.value);
      }
    }
    forall i | 0 <= i < |files| && files[i].dossierId != "root" ensures HasFolderAt(t, files[i].dossierId) {
      HasFolderAtAppend(folders, x, files[i].dossierId);
    }
  }

  /** The folders under `key` carry the sibling numbers 1, 2, 3, … in store order. */
  ghost predicate NumberedSiblings(folders: seq<Folder>, key: Option<string>)
  {
    var s := FoldersUnder(folders, key);
    forall k :: 0 <= k < |s| ==> s[k].ordre == k + 1
  }

  /**
   * As long as nothing is deleted, creation keeps every location's folders
   * numbered 1, 2, 3, … in creation order.
   */
  lemma CreateKeepsNumbering(folders: seq<Folder>, id: nat, currentPath: string, name: string,
                             userId: string, now: int, key: Option<string>)
    requires NumberedSiblings(folders, key)
    ensures NumberedSiblings(folders + [NewFolder(folders, id, currentPath, name, userId, now)], key)
  {
    var x := NewFolder(folders, id, currentPath, name, userId, now);
    var before := FoldersUnder(folders, key);
    var after := FoldersUnder(folders + [x], key);
    FilterAppend(folders, [x], ParentIs(key));
    assert Filter([x], ParentIs(key)) == if x.parent == key then [x] else [] by {
      assert [x][1..] == [];
    }
    forall j | 0 <= j < |after| ensures after[j].ordre == j + 1 {
      if j < |before| {
        assert after[j] == before[j];
      } else {
        assert after[j] == x && x.parent == key;
      }
    }
  }

  /** Numbered siblings are listed in creation order: the sort by `ordre` leaves them as they are. */
  lemma NumberedListingInStoreOrder(folders: seq<Folder>, key: Option<string>)
    requires NumberedSiblings(folders, key)
    ensures Sorting.Sort(FoldersUnder(folders, key), ByOrdre) == FoldersUnder(folders, key)
  {
    Sorting.SortOfSorted(FoldersUnder(folders, key), ByOrdre);
  }

  /** Three folders C, A, B created at the root are numbered 1, 2, 3 and listed as C, A, B. */
  lemma CreationOrderNotNameOrder(c: Folder, a: Folder, b: Folder)
    requires c == NewFolder([], 0, "", "C", "u", 0)
    requires a == NewFolder([c], 1, "", "A", "u", 0)
    requires b == NewFolder([c, a], 2, "", "B", "u", 0)
    ensures c.ordre == 1 && a.ordre == 2 && b.ordre == 3
    ensures Sorting.Sort(FoldersUnder([c, a, b], None), ByOrdre) == [c, a, b]
  {
    // All three are root folders, so each count is the number of folders before it.
    assert c.parent == None && a.parent == None && b.parent == None;
    FilterAll([c], ParentIs(None));
    FilterAll([c, a], ParentIs(None));
    FilterAll([c, a, b], ParentIs(None));
    NumberedListingInStoreOrder([c, a, b], None);
  }

  // ---------------------------------------------------------------------------
  // handleFolderDelete
  // ---------------------------------------------------------------------------

  /**
   * Removing a folder that no file and no folder points at keeps the tree
   * consistent.
   */
  lemma DeleteKeepsConsistent(folders: seq<Folder>, files: seq<File>, k: nat)
    requires Consistent(folders, files) && FolderIdsIncreasing(folders)
    requires k < |folders|
    requires forall i :: 0 <= i < |files| ==> files[i].dossierId != folders[k].path
    requires forall i :: 0 <= i < |folders| ==> folders[i].parent != Some(folders[k].path)
    ensures Consistent(Filter(folders, FolderIdIsNot(folders[k].id)), files)
  {
    var t := Filter(folders, FolderIdIsNot(folders[k].id));
    forall p | HasFolderAt(folders, p) && p != folders[k].path ensures HasFolderAt(t, p) {
      var z :| 0 <= z < |folders| && folders[z].path == p;
      assert folders[z].id != folders[k].id;
      assert folders[z] in t;
    }
    forall i | 0 <= i < |t| && t[i].parent.Some? ensures HasFolderAt(t, t[i].parent.value) {
      assert t[i] in folders;
    }
    forall i | 0 <= i < |t| ensures WellFormed(t[i]) {
      assert t[i] in folders;
    }
  }

  /** A successful delete removes exactly the one record with the folder's identifier. */
  lemma DeleteRemovesExactlyOne(folders: seq<Folder>, k: nat)
    requires k < |folders|
    requires forall i :: 0 <= i < |folders| && i != k ==> folders[i].id != folders[k].id
    ensures Filter(folders, FolderIdIsNot(folders[k].id)) == folders[..k] + folders[k + 1..]
  {
    var id := folders[k].id;
    var pre, post := folders[..k], folders[k + 1..];
    SplitAround(folders, k);
    FilterAppend(pre + [folders[k]], post, FolderIdIsNot(id));
    DropLast(pre, folders[k]);
    KeepBefore(folders, k);
    KeepAfter(folders, k);
  }

  lemma KeepBefore(folders: seq<Folder>, k: nat)
    requires k < |folders|
    requires forall i :: 0 <= i < |folders| && i != k ==> folders[i].id != folders[k].id
    ensures Filter(folders[..k], FolderIdIsNot(folders[k].id)) == folders[..k]
  {
    var pre := folders[..k];
    assert forall i :: 0 <= i < |pre| ==> pre[i] == folders[i];
    KeepAll(pre, folders[k].id);
  }

  lemma KeepAfter(folders: seq<Folder>, k: nat)
    requires k < |folders|
    requires forall i :: 0 <= i < |folders| && i != k ==> folders[i].id != folders[k].id
    ensures Filter(folders[k + 1..], FolderIdIsNot(folders[k].id)) == folders[k + 1..]
  {
    var post := folders[k + 1..];
    assert forall i :: 0 <= i < |post| ==> post[i] == folders[k + 1 + i];
    KeepAll(post, folders[k].id);
  }

  lemma DropLast(s: seq<Folder>, x: Folder)
    ensures Filter(s + [x], FolderIdIsNot(x.id)) == Filter(s, FolderIdIsNot(x.id))
  {
    FilterAppend(s, [x], FolderIdIsNot(x.id));
    assert Filter([x], FolderIdIsNot(x.id)) == [] by { assert [x][1..] == []; }
  }

  lemma {:induction false} KeepAll(s: seq<Folder>, id: nat)
    requires forall i :: 0 <= i < |s| ==> s[i].id != id
    ensures Filter(s, FolderIdIsNot(id)) == s
  {
    if s != [] {
      KeepAll(s[1..], id);
    }
  }

  // ---------------------------------------------------------------------------
  // updateFolder: the renamed folder, its direct subfolders and its files
  // ---------------------------------------------------------------------------

  /** Identifiers are unique. */
  lemma IdsUnique(folders: seq<Folder>, i: nat, j: nat)
    requires FolderIdsIncreasing(folders) && i < |folders| && j < |folders|
    requires folders[i].id == folders[j].id
    ensures i == j
  {
  }

  /**
   * The path the rename computes is the path of a folder of the new name under
   * the same parent.
   */
  lemma NewPathIsSibling(folders: seq<Folder>, files: seq<File>, k: nat, newName: string)
    requires Consistent(folders, files) && k < |folders|
    ensures NewPathFor(folders[k], newName) == JoinPath(folders[k].parent, newName)
  {
    var f := folders[k];
    assert WellFormed(f);
    if f.parent.Some? {
      ParentNotEmpty(folders, files, k);
      RenamedChild(f.parent, f.nom, newName);
    }
  }

  /**
   * The renamed record gets the new name and the sibling path; its parent,
   * level and sibling number are untouched. It stays well formed exactly when
   * the new name holds no `/`: the prompt accepts one, and the level is then
   * too small for the path.
   */
  lemma RenameRecordFields(folders: seq<Folder>, files: seq<File>, k: nat, newName: string)
    requires Consistent(folders, files) && FolderIdsIncreasing(folders) && k < |folders|
    requires newName != ""
    ensures var r := RenamedFolders(folders, folders[k], newName);
      && |r| == |folders|
      && r[k] == folders[k].(nom := newName, path := JoinPath(folders[k].parent, newName))
      && (WellFormed(r[k]) <==> '/' !in newName)
  {
    var f := folders[k];
    NewPathIsSibling(folders, files, k, newName);
    NewPathDepth(folders, files, k, newName);
    assert WellFormed(f);
    assert f.parent != Some(f.path);
  }

  /**
   * A direct subfolder gets the new path as its parent and its path rewritten
   * under it, as long as the new path holds no `$`. It stays well formed
   * exactly when the new name holds no `/`, since its level is kept.
   */
  lemma RenameChildFields(folders: seq<Folder>, files: seq<File>, k: nat, newName: string, c: nat)
    requires Consistent(folders, files) && FolderIdsIncreasing(folders) && k < |folders|
    requires newName != ""
    requires '$' !in NewPathFor(folders[k], newName)
    requires c < |folders| && folders[c].parent == Some(folders[k].path)
    ensures var r := RenamedFolders(folders, folders[k], newName);
      var newPath := NewPathFor(folders[k], newName);
      && |r| == |folders|
      && r[c] == folders[c].(parent := Some(newPath), path := newPath + "/" + folders[c].nom)
      && (WellFormed(r[c]) <==> '/' !in newName)
  {
    var f := folders[k];
    var x := folders[c];
    var newPath := NewPathFor(f, newName);
    assert WellFormed(f) && WellFormed(x);
    assert f.parent != Some(f.path);
    assert x.id != f.id;
    var r1 := RenameRecord(folders, f.id, newName, newPath);
    assert r1[c] == x;
    var r := ReparentChildren(r1, f.path, newPath);
    assert r[c] == x.(parent := Some(newPath), path := ReplaceFirst(x.path, f.path, newPath));
    RewrittenChildPath(f.path, x.nom, newPath);
    NewPathDepth(folders, files, k, newName);
    SegmentCountAppend(f.path, x.nom);
    SegmentCountAppend(newPath, x.nom);
  }

  lemma RewrittenChildPath(oldPath: string, name: string, newPath: string)
    requires '$' !in newPath
    ensures ReplaceFirst(oldPath + "/" + name, oldPath, newPath) == newPath + "/" + name
  {
    var p := oldPath + "/" + name;
    assert p[..|oldPath|] == oldPath;
    ReplacePrefix(p, oldPath, newPath);
    assert p[|oldPath|..] == "/" + name;
  }

  /**
   * The renamed folder's new path has as many segments as its old one, plus
   * one for every `/` in the new name; so the kept level stays right exactly
   * when the new name holds no `/`.
   */
  lemma NewPathDepth(folders: seq<Folder>, files: seq<File>, k: nat, newName: string)
    requires Consistent(folders, files) && k < |folders|
    ensures SegmentCount(NewPathFor(folders[k], newName)) == SegmentCount(folders[k].path) + Count(newName, '/')
    ensures SegmentCount(NewPathFor(folders[k], newName)) == folders[k].niveau <==> '/' !in newName
  {
    var f := folders[k];
    assert WellFormed(f);
    NewPathIsSibling(folders, files, k, newName);
    JoinPathSegments(f.parent, f.nom);
    JoinPathSegments(f.parent, newName);
    CountAbsent(f.nom, '/');
    CountAbsent(newName, '/');
  }

  /**
   * Nothing else changes: a folder that is neither the renamed one nor a
   * direct subfolder keeps its record, and so does every file not directly in
   * the renamed folder; a file directly in it is moved to the new path.
   */
  lemma RenameFrame(folders: seq<Folder>, files: seq<File>, f: Folder, newName: string)
    ensures var r := RenamedFolders(folders, f, newName);
      && |r| == |folders|
      && forall i :: 0 <= i < |folders| && folders[i].id != f.id && folders[i].parent != Some(f.path) ==>
           r[i] == folders[i]
    ensures var g := RenamedFiles(files, f, newName);
      && |g| == |files|
      && forall i :: 0 <= i < |files| ==>
           g[i] == if files[i].dossierId == f.path then files[i].(dossierId := NewPathFor(f, newName)) else files[i]
  {
  }

  /**
   * After a rename to a different name a folder has the old path of a direct
   * subfolder exactly when the renamed folder's new path is that path, which
   * takes a `/` in the new name (renaming `a` to `a/b` over a subfolder `b`).
   */
  lemma OldChildPathVanishes(folders: seq<Folder>, files: seq<File>, k: nat, newName: string, c: nat)
    requires Consistent(folders, files) && FolderIdsIncreasing(folders)
    requires k < |folders| && newName != "" && newName != folders[k].nom
    requires '$' !in NewPathFor(folders[k], newName)
    requires c < |folders| && folders[c].parent == Some(folders[k].path)
    ensures HasFolderAt(RenamedFolders(folders, folders[k], newName), folders[c].path) <==>
      NewPathFor(folders[k], newName) == folders[c].path
    ensures '/' !in newName ==> !HasFolderAt(RenamedFolders(folders, folders[k], newName), folders[c].path)
  {
    var f := folders[k];
    var x := folders[c];
    var r := RenamedFolders(folders, f, newName);
    var newPath := NewPathFor(f, newName);
    assert WellFormed(f) && WellFormed(x);
    NewPathDepth(folders, files, k, newName);
    RenameRecordFields(folders, files, k, newName);
    SegmentCountAppend(f.path, x.nom);
    forall i | 0 <= i < |r| && i != k ensures r[i].path != x.path {
      if folders[i].parent == Some(f.path) {
        RenameChildFields(folders, files, k, newName, i);
        SegmentCountAppend(newPath, folders[i].nom);
        if '/' !in newName {
          NewPathIsSibling(folders, files, k, newName);
          JoinPathDistinct(f.parent, newName, f.parent, f.nom);
          JoinPathDistinct(Some(newPath), folders[i].nom, x.parent, x.nom);
        }
      } else {
        assert folders[i].id != f.id && WellFormed(folders[i]);
        assert r[i] == folders[i];
        JoinPathDistinct(folders[i].parent, folders[i].nom, x.parent, x.nom);
      }
    }
    assert r[k].path == newPath;
  }

  /**
   * The rename prompt does not refuse a `/`: renaming the root folder `a` to
   * `a/b` over its subfolder `b` puts it at the subfolder's path while its
   * level stays 1, so the tree holds two folders at `a/b` and the renamed
   * record is no longer well formed.
   */
  lemma SlashRenameBreaksTree(a: Folder, b: Folder)
    requires a == Folder(0, "a", "a", 1, None, 1, 0, "u")
    requires b == Folder(1, "b", "a/b", 2, Some("a"), 1, 0, "u")
    ensures Consistent([a, b], []) && FolderIdsIncreasing([a, b])
    ensures var r := RenamedFolders([a, b], a, "a/b");
      && r[0].path == "a/b" && r[0].niveau == 1 && SegmentCount(r[0].path) == 2
      && HasFolderAt(r, b.path) && !WellFormed(r[0])
  {
    SegmentCountSingle("a");
    SegmentCountAppend("a", "b");
    assert "a" + "/" + "b" == "a/b";
    assert HasFolderAt([a, b], "a") by { assert [a, b][0].path == "a"; }
    RenameRecordFields([a, b], [], 0, "a/b");
    OldChildPathVanishes([a, b], [], 0, "a/b", 1);
  }

  /**
   * The cascade is one level deep: a grandchild of the renamed folder keeps
   * its record, so its parent path names no folder any more and the tree is
   * no longer consistent. The one exception is a new name with a `/` that
   * puts the renamed folder itself at the subfolder's old path.
   */
  lemma RenameOrphansGrandchild(folders: seq<Folder>, files: seq<File>, k: nat, newName: string,
                                c: nat, g: nat)
    requires Consistent(folders, files) && FolderIdsIncreasing(folders)
    requires k < |folders| && newName != "" && newName != folders[k].nom
    requires '$' !in NewPathFor(folders[k], newName)
    requires c < |folders| && folders[c].parent == Some(folders[k].path)
    requires g < |folders| && folders[g].parent == Some(folders[c].path)
    ensures var r := RenamedFolders(folders, folders[k], newName);
      && r[g] == folders[g]
      && (HasFolderAt(r, r[g].parent.value) <==> NewPathFor(folders[k], newName) == folders[c].path)
      && (NewPathFor(folders[k], newName) != folders[c].path ==>
            !Consistent(r, RenamedFiles(files, folders[k], newName)))
  {
    var f := folders[k];
    var x := folders[c];
    assert WellFormed(f) && WellFormed(x);
    assert x.path != f.path;
    assert folders[g].id != f.id;
    OldChildPathVanishes(folders, files, k, newName, c);
  }

  /**
   * Files inside a direct subfolder are not moved: they keep the subfolder's
   * old path, which names no folder any more unless the renamed folder itself
   * now sits there.
   */
  lemma RenameStrandsSubfolderFiles(folders: seq<Folder>, files: seq<File>, k: nat, newName: string,
                                    c: nat, j: nat)
    requires Consistent(folders, files) && FolderIdsIncreasing(folders)
    requires k < |folders| && newName != "" && newName != folders[k].nom
    requires '$' !in NewPathFor(folders[k], newName)
    requires c < |folders| && folders[c].parent == Some(folders[k].path)
    requires j < |files| && files[j].dossierId == folders[c].path
    ensures var g := RenamedFiles(files, folders[k], newName);
      && g[j] == files[j]
      && (HasFolderAt(RenamedFolders(folders, folders[k], newName), g[j].dossierId) <==>
            NewPathFor(folders[k], newName) == folders[c].path)
  {
    var f := folders[k];
    var x := folders[c];
    assert WellFormed(x);
    assert x.path != f.path;
    OldChildPathVanishes(folders, files, k, newName, c);
  }
}
