/**
 * The folder/file namespace of the explorer: the two tables of the document
 * store, the handlers that change them (create, rename with its cascade,
 * delete-if-empty, file upload and delete) and the queries they issue.
 * Every query returns documents in identifier order, which is the order of
 * the tables here.
 */
module Namespace {
  import opened Wrappers
  import opened Strings
  import opened Paths
  import opened Documents
  import opened Collections
  import Sorting
  import opened UploadNaming

  // ---------------------------------------------------------------------------
  // Queries over the tables
  // ---------------------------------------------------------------------------

  /** `where('parent', '==', key)`. */
  function ParentIs(key: Option<string>): Folder -> bool
  {
    (x: Folder) => x.parent == key
  }

  /** `where('dossierId', '==', key)`. */
  function InFolder(key: string): File -> bool
  {
    (f: File) => f.dossierId == key
  }

  function FoldersUnder(folders: seq<Folder>, key: Option<string>): seq<Folder>
  {
    Filter(folders, ParentIs(key))
  }

  function FilesIn(files: seq<File>, key: string): seq<File>
  {
    Filter(files, InFolder(key))
  }

  /** The comparator `(a, b) => a.ordre - b.ordre` of the folder listing. */
  function ByOrdre(a: Folder, b: Folder): bool
  {
    a.ordre <= b.ordre
  }

  lemma ByOrdreTotal()
    ensures Sorting.TotalPreorder(ByOrdre)
  {
  }

  function FolderIdIsNot(id: nat): Folder -> bool
  {
    (x: Folder) => x.id != id
  }

  function FileIdIsNot(id: nat): File -> bool
  {
    (f: File) => f.id != id
  }

  ghost predicate FolderIdsIncreasing(folders: seq<Folder>)
  {
    forall i, j :: 0 <= i < j < |folders| ==> folders[i].id < folders[j].id
  }

  ghost predicate FileIdsIncreasing(files: seq<File>)
  {
    forall i, j :: 0 <= i < j < |files| ==> files[i].id < files[j].id
  }

  // ---------------------------------------------------------------------------
  // The namespace invariant
  // ---------------------------------------------------------------------------

  ghost predicate HasFolderAt(folders: seq<Folder>, path: string)
  {
    exists i :: 0 <= i < |folders| && folders[i].path == path
  }

  /**
   * A well-formed folder: its name is a non-empty `/`-free segment, its path is
   * its parent's path joined with its name, and its level is its path's
   * number of segments.
   */
  ghost predicate WellFormed(x: Folder)
  {
    && x.nom != "" && '/' !in x.nom
    && x.path == JoinPath(x.parent, x.nom)
    && x.niveau == SegmentCount(x.path)
  }

  /**
   * The tree the tables are meant to encode: every folder is well formed,
   * every parent path names a folder, and every file is at the root or in a
   * folder.
   */
  ghost predicate Consistent(folders: seq<Folder>, files: seq<File>)
  {
    && (forall i :: 0 <= i < |folders| ==> WellFormed(folders[i]))
    && (forall i :: 0 <= i < |folders| && folders[i].parent.Some? ==>
          HasFolderAt(folders, folders[i].parent.value))
    && (forall i :: 0 <= i < |files| ==>
          files[i].dossierId == "root" || HasFolderAt(folders, files[i].dossierId))
  }

  /** No two folders share a path. */
  ghost predicate UniquePaths(folders: seq<Folder>)
  {
    forall i, j :: 0 <= i < |folders| && 0 <= j < |folders| && i != j ==>
      folders[i].path != folders[j].path
  }

  // ---------------------------------------------------------------------------
  // What the handlers write, as functions of the tables
  // ---------------------------------------------------------------------------

  /** The record `handleCreateFolder` adds for `name` at `currentPath`. */
  function NewFolder(folders: seq<Folder>, id: nat, currentPath: string, name: string,
                     userId: string, now: int): Folder
  {
    Folder(id, name, JoinPath(ParentKey(currentPath), name), ChildLevel(currentPath),
           ParentKey(currentPath), |FoldersUnder(folders, ParentKey(currentPath))| + 1, now, userId)
  }

  /**
   * The new path `updateFolder` computes: `newName` for a folder without a
   * (non-empty) parent, otherwise its path with the last segment replaced.
   */
  function NewPathFor(folder: Folder, newName: string): string
  {
    if folder.parent.Some? && folder.parent.value != "" then RenamedPath(folder.path, newName)
    else newName
  }

  /** `updateDoc(folder, {nom, path})`. */
  function RenameRecord(folders: seq<Folder>, id: nat, newName: string, newPath: string): (r: seq<Folder>)
    ensures |r| == |folders|
  {
    seq(|folders|, i requires 0 <= i < |folders| =>
      if folders[i].id == id then folders[i].(nom := newName, path := newPath) else folders[i])
  }

  /** Every file whose `dossierId` is `oldPath` is moved to `newPath`. */
  function RepointFiles(files: seq<File>, oldPath: string, newPath: string): (r: seq<File>)
    ensures |r| == |files|
  {
    seq(|files|, i requires 0 <= i < |files| =>
      if files[i].dossierId == oldPath then files[i].(dossierId := newPath) else files[i])
  }

  /**
   * Every folder whose `parent` is `oldPath` gets `parent = newPath` and
   * `path = path.replace(oldPath, newPath)`.
   */
  function ReparentChildren(folders: seq<Folder>, oldPath: string, newPath: string): (r: seq<Folder>)
    ensures |r| == |folders|
  {
    seq(|folders|, i requires 0 <= i < |folders| =>
      if folders[i].parent == Some(oldPath)
      then folders[i].(parent := Some(newPath), path := ReplaceFirst(folders[i].path, oldPath, newPath))
      else folders[i])
  }

  /** The folder table after `updateFolder(folder, newName)`. */
  function RenamedFolders(folders: seq<Folder>, folder: Folder, newName: string): seq<Folder>
  {
    var newPath := NewPathFor(folder, newName);
    ReparentChildren(RenameRecord(folders, folder.id, newName, newPath), folder.path, newPath)
  }

  /** The file table after `updateFolder(folder, newName)`. */
  function RenamedFiles(files: seq<File>, folder: Folder, newName: string): seq<File>
  {
    var newPath := NewPathFor(folder, newName);
    if folder.path != newPath then RepointFiles(files, folder.path, newPath) else files
  }

  const RenameError := "Impossible de renommer le dossier. Veuillez réessayer plus tard."
  const NotEmptyError := "Impossible de supprimer un dossier non vide."
  const FileDeleteError := "Impossible de supprimer le fichier. Veuillez réessayer plus tard."

  function TooLargeError(name: string): string
  {
    "Le fichier " + name + " dépasse la limite de 50 Mo. Veuillez choisir un fichier plus petit."
  }

  /** The record an upload of `name` at `currentPath` leaves in `fichiers` once its bytes are stored. */
  function UploadedFile(id: nat, currentPath: string, name: string, size: int, userId: string,
                        startedAt: nat, completedAt: int, url: string): File
  {
    File(id, name, FileTypeOf(name), size, ContainerKey(currentPath),
         StorageKey(currentPath, startedAt, name), completedAt, userId, url)
  }

  // ---------------------------------------------------------------------------
  // The store
  // ---------------------------------------------------------------------------

  class Store {
    /** The `dossiers` collection, in identifier order. */
    var folders: seq<Folder>
    /** The `fichiers` collection, in identifier order. */
    var files: seq<File>
    /** The keys of the objects held by object storage. */
    var objects: set<string>
    /** The identifier the store assigns to the next document it creates. */
    var nextId: nat

    ghost predicate Valid()
      reads this
    {
      && FolderIdsIncreasing(folders) && FileIdsIncreasing(files)
      && (forall i :: 0 <= i < |folders| ==> folders[i].id < nextId)
      && (forall i :: 0 <= i < |files| ==> files[i].id < nextId)
    }

    constructor ()
      ensures Valid()
      ensures folders == [] && files == [] && objects == {}
    {
      folders, files, objects, nextId := [], [], {}, 0;
    }

    /** The size of the snapshot of `where('parent', '==', key)`. */
    method CountFoldersUnder(key: Option<string>) returns (n: nat)
      ensures n == |FoldersUnder(folders, key)|
    {
      n := 0;
      var i := 0;
      while i < |folders|
        invariant 0 <= i <= |folders|
        invariant n == |FoldersUnder(folders[..i], key)|
      {
        FilterSnoc(folders, i, ParentIs(key));
        if folders[i].parent == key {
          n := n + 1;
        }
        i := i + 1;
      }
      assert folders[..i] == folders;
    }

    /** Whether `where('dossierId', '==', path)` is non-empty. */
    method AnyFileIn(path: string) returns (found: bool)
      ensures found <==> exists i :: 0 <= i < |files| && files[i].dossierId == path
    {
      found := false;
      var i := 0;
      while i < |files| && !found
        invariant 0 <= i <= |files|
        invariant found <==> exists m :: 0 <= m < i && files[m].dossierId == path
      {
        found := files[i].dossierId == path;
        i := i + 1;
      }
    }

    /** Whether `where('parent', '==', path)` is non-empty. */
    method AnySubfolderOf(path: string) returns (found: bool)
      ensures found <==> exists i :: 0 <= i < |folders| && folders[i].parent == Some(path)
    {
      found := false;
      var i := 0;
      while i < |folders| && !found
        invariant 0 <= i <= |folders|
        invariant found <==> exists m :: 0 <= m < i && folders[m].parent == Some(path)
      {
        found := folders[i].parent == Some(path);
        i := i + 1;
      }
    }

    /** The position of the folder document with identifier `id`, if there is one. */
    method FindFolder(id: nat) returns (k: Option<nat>)
      ensures k.Some? ==> k.value < |folders| && folders[k.value].id == id
      ensures k.None? ==> forall i :: 0 <= i < |folders| ==> folders[i].id != id
    {
      var i := 0;
      while i < |folders|
        invariant 0 <= i <= |folders|
        invariant forall m :: 0 <= m < i ==> folders[m].id != id
      {
        if folders[i].id == id {
          return Some(i);
        }
        i := i + 1;
      }
      return None;
    }

    /**
     * Loading a location: the subfolders sorted by `ordre` (stable, so ties
     * keep store order) and the files, both read by equality queries.
     */
    method ListChildren(currentPath: string) returns (subfolders: seq<Folder>, contents: seq<File>)
      ensures subfolders == Sorting.Sort(FoldersUnder(folders, ParentKey(currentPath)), ByOrdre)
      ensures contents == FilesIn(files, ContainerKey(currentPath))
    {
      var key := ParentKey(currentPath);
      var box := ContainerKey(currentPath);
      var found: seq<Folder> := [];
      contents := [];
      var i := 0;
      while i < |folders|
        invariant 0 <= i <= |folders|
        invariant found == FoldersUnder(folders[..i], key)
      {
        FilterSnoc(folders, i, ParentIs(key));
        if folders[i].parent == key {
          found := found + [folders[i]];
        }
        i := i + 1;
      }
      assert folders[..i] == folders;
      var j := 0;
      while j < |files|
        invariant 0 <= j <= |files|
        invariant contents == FilesIn(files[..j], box)
      {
        FilterSnoc(files, j, InFolder(box));
        if files[j].dossierId == box {
          contents := contents + [files[j]];
        }
        j := j + 1;
      }
      assert files[..j] == files;
      subfolders := Sorting.Sort(found, ByOrdre);
    }

    /** `handleCreateFolder(name)` at `currentPath`: one record inserted, nothing else changed. */
    method CreateFolder(currentPath: string, name: string, userId: string, now: int)
      returns (created: Folder)
      requires Valid()
      modifies this
      ensures Valid()
      ensures created == NewFolder(old(folders), old(nextId), currentPath, name, userId, now)
      ensures folders == old(folders) + [created]
      ensures files == old(files) && objects == old(objects)
    {
      var level := ChildLevel(currentPath);
      var path := JoinPath(ParentKey(currentPath), name);
      var siblings := CountFoldersUnder(ParentKey(currentPath));
      created := Folder(nextId, name, path, level, ParentKey(currentPath), siblings + 1, now, userId);
      folders := folders + [created];
      nextId := nextId + 1;
    }

    /**
     * The new-folder form: the typed name is trimmed and, unless nothing is
     * left, handed to `handleCreateFolder`.
     */
    method SubmitNewFolder(currentPath: string, typed: string, userId: string, now: int)
      returns (created: Option<Folder>)
      requires Valid()
      modifies this
      ensures Valid()
      ensures IsBlank(typed) ==> created == None && unchanged(this)
      ensures !IsBlank(typed) ==>
        && created == Some(NewFolder(old(folders), old(nextId), currentPath, Trim(typed), userId, now))
        && folders == old(folders) + [created.value]
        && files == old(files) && objects == old(objects)
    {
      var name := Trim(typed);
      if name == "" {
        return None;
      }
      var f := CreateFolder(currentPath, name, userId, now);
      created := Some(f);
    }

    /** `updateFolder(folder, newName)`: the renamed record, then its files, then its direct subfolders. */
    method UpdateFolder(folder: Folder, newName: string) returns (r: Outcome)
      requires Valid()
      modifies this
      ensures Valid()
      ensures objects == old(objects) && nextId == old(nextId)
      ensures (exists i :: 0 <= i < |old(folders)| && old(folders)[i].id == folder.id) ==>
        && r == Pass
        && folders == RenamedFolders(old(folders), folder, newName)
        && files == RenamedFiles(old(files), folder, newName)
      ensures (forall i :: 0 <= i < |old(folders)| ==> old(folders)[i].id != folder.id) ==>
        r == Fail(RenameError) && folders == old(folders) && files == old(files)
    {
      var newPath := NewPathFor(folder, newName);
      var k := FindFolder(folder.id);
      if k.None? {
        return Fail(RenameError);
      }
      ghost var renamed := RenameRecord(folders, folder.id, newName, newPath);
      assert folders[k.value := folders[k.value].(nom := newName, path := newPath)] == renamed;
      folders := folders[k.value := folders[k.value].(nom := newName, path := newPath)];

      if folder.path != newPath {
        RepointFileTable(folder.path, newPath);
      }
      ReparentFolderTable(folder.path, newPath);
      r := Pass;
    }

    /** The loop over the files of `where('dossierId', '==', oldPath)`: each is moved to `newPath`. */
    method RepointFileTable(oldPath: string, newPath: string)
      requires Valid()
      modifies this
      ensures Valid()
      ensures files == RepointFiles(old(files), oldPath, newPath)
      ensures folders == old(folders) && objects == old(objects) && nextId == old(nextId)
    {
      ghost var before := files;
      var i := 0;
      while i < |files|
        invariant 0 <= i <= |files| && |files| == |before|
        invariant forall m :: 0 <= m < i ==> files[m] == RepointFiles(before, oldPath, newPath)[m]
        invariant forall m :: i <= m < |files| ==> files[m] == before[m]
        invariant folders == old(folders) && objects == old(objects) && nextId == old(nextId)
      {
        if files[i].dossierId == oldPath {
          files := files[i := files[i].(dossierId := newPath)];
        }
        i := i + 1;
      }
      assert files == RepointFiles(before, oldPath, newPath);
      assert forall m :: 0 <= m < |files| ==> files[m].id == before[m].id;
    }

    /** The loop over the folders of `where('parent', '==', oldPath)`: each is moved under `newPath`. */
    method ReparentFolderTable(oldPath: string, newPath: string)
      requires Valid()
      modifies this
      ensures Valid()
      ensures folders == ReparentChildren(old(folders), oldPath, newPath)
      ensures files == old(files) && objects == old(objects) && nextId == old(nextId)
    {
      ghost var before := folders;
      var j := 0;
      while j < |folders|
        invariant 0 <= j <= |folders| && |folders| == |before|
        invariant forall m :: 0 <= m < j ==> folders[m] == ReparentChildren(before, oldPath, newPath)[m]
        invariant forall m :: j <= m < |folders| ==> folders[m] == before[m]
        invariant files == old(files) && objects == old(objects) && nextId == old(nextId)
      {
        if folders[j].parent == Some(oldPath) {
          folders := folders[j := folders[j].(parent := Some(newPath),
                                               path := ReplaceFirst(folders[j].path, oldPath, newPath))];
        }
        j := j + 1;
      }
      assert folders == ReparentChildren(before, oldPath, newPath);
      assert forall m :: 0 <= m < |folders| ==> folders[m].id == before[m].id;
    }

    /**
     * The rename prompt: a cancelled or empty answer, or the current name,
     * changes nothing; any other answer goes to `updateFolder`.
     */
    method HandleFolderRename(folder: Folder, answer: Option<string>) returns (r: Outcome)
      requires Valid()
      modifies this
      ensures Valid()
      ensures (answer == None || answer == Some("") || answer == Some(folder.nom)) ==>
        r == Pass && unchanged(this)
      ensures (&& answer.Some? && answer.value != "" && answer.value != folder.nom
               && exists i :: 0 <= i < |old(folders)| && old(folders)[i].id == folder.id) ==>
        && r == Pass
        && folders == RenamedFolders(old(folders), folder, answer.value)
        && files == RenamedFiles(old(files), folder, answer.value)
        && objects == old(objects)
      ensures (&& answer.Some? && answer.value != "" && answer.value != folder.nom
               && forall i :: 0 <= i < |old(folders)| ==> old(folders)[i].id != folder.id) ==>
        && r == Fail(RenameError)
        && folders == old(folders) && files == old(files) && objects == old(objects)
    {
      if answer == None || answer.value == "" || answer.value == folder.nom {
        return Pass;
      }
      r := UpdateFolder(folder, answer.value);
    }

    /** `handleFolderDelete(folder)`: refused while the folder holds a file or a subfolder. */
    method DeleteFolder(folder: Folder) returns (r: Outcome)
      requires Valid()
      modifies this
      ensures Valid()
      ensures files == old(files) && objects == old(objects) && nextId == old(nextId)
      ensures var occupied :=
          (exists i :: 0 <= i < |old(files)| && old(files)[i].dossierId == folder.path)
          || (exists i :: 0 <= i < |old(folders)| && old(folders)[i].parent == Some(folder.path));
        && (occupied ==> r == Fail(NotEmptyError) && folders == old(folders))
        && (!occupied ==> r == Pass && folders == Filter(old(folders), FolderIdIsNot(folder.id)))
    {
      var hasFiles := AnyFileIn(folder.path);
      var hasFolders := AnySubfolderOf(folder.path);
      if hasFiles || hasFolders {
        return Fail(NotEmptyError);
      }
      FilterKeepsPairwise(folders, FolderIdIsNot(folder.id), (a: Folder, b: Folder) => a.id < b.id);
      folders := Filter(folders, FolderIdIsNot(folder.id));
      r := Pass;
    }

    /**
     * `handleFileUpload(file)` run to completion: a file over the limit is
     * refused; otherwise its bytes are stored under the storage key and then
     * its record is added.
     */
    method UploadFile(currentPath: string, name: string, size: int, userId: string,
                      startedAt: nat, completedAt: int, url: string) returns (r: Outcome)
      requires Valid()
      modifies this
      ensures Valid()
      ensures folders == old(folders)
      ensures TooLarge(size) ==> r == Fail(TooLargeError(name)) && unchanged(this)
      ensures !TooLarge(size) ==>
        && r == Pass
        && objects == old(objects) + {StorageKey(currentPath, startedAt, name)}
        && files == old(files) + [UploadedFile(old(nextId), currentPath, name, size, userId,
                                               startedAt, completedAt, url)]
    {
      if size > MaxFileSize {
        return Fail(TooLargeError(name));
      }
      var key := StorageKey(currentPath, startedAt, name);
      objects := objects + {key};
      files := files + [File(nextId, name, FileTypeOf(name), size, ContainerKey(currentPath),
                             key, completedAt, userId, url)];
      nextId := nextId + 1;
      r := Pass;
    }

    /** `handleFileDelete(file)`: the stored object first; if that fails the record stays. */
    method DeleteFile(file: File) returns (r: Outcome)
      requires Valid()
      modifies this
      ensures Valid()
      ensures folders == old(folders) && nextId == old(nextId)
      ensures file.cheminStockage !in old(objects) ==>
        r == Fail(FileDeleteError) && files == old(files) && objects == old(objects)
      ensures file.cheminStockage in old(objects) ==>
        && r == Pass
        && objects == old(objects) - {file.cheminStockage}
        && files == Filter(old(files), FileIdIsNot(file.id))
    {
      if file.cheminStockage !in objects {
        return Fail(FileDeleteError);
      }
      objects := objects - {file.cheminStockage};
      FilterKeepsPairwise(files, FileIdIsNot(file.id), (a: File, b: File) => a.id < b.id);
      files := Filter(files, FileIdIsNot(file.id));
      r := Pass;
    }
  }
}
