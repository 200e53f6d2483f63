/**
 * `initializeDefaultFolders`: on an empty `dossiers` collection, the four
 * default root folders are written one after the other; a collection that
 * already holds a folder is left alone.
 */
module InitializeData {
  import opened Wrappers
  import opened Strings
  import opened Paths
  import opened Documents
  import opened Collections
  import opened Namespace

  /** The default folder names, in the order they are written. */
  const DefaultNames: seq<string> :=
    ["#ecycle", "1 - Expertise", "2 - Gestion technique", "3 - Gestion technique expertise"]

  const InitError := "Impossible d'initialiser les données par défaut."

  /** The `k`-th default folder: a root folder whose path is its name, ranked `k + 1`. */
  function DefaultFolder(k: nat, id: nat, userId: string, now: int): Folder
    requires k < |DefaultNames|
  {
    Folder(id, DefaultNames[k], DefaultNames[k], 1, None, k + 1, now, userId)
  }

  /** The first `n` default folders as written from the identifier `firstId` on. */
  function DefaultRecords(n: nat, firstId: nat, userId: string, now: int): (r: seq<Folder>)
    requires n <= |DefaultNames|
    ensures |r| == n
    ensures forall k :: 0 <= k < n ==> r[k] == DefaultFolder(k, firstId + k, userId, now)
  {
    seq(n, k requires 0 <= k < n => DefaultFolder(k, firstId + k, userId, now))
  }

  /** How many defaults are written when the write numbered `failAt` (if any) throws. */
  function Written(failAt: Option<nat>): (n: nat)
    ensures n <= |DefaultNames|
    ensures failAt.None? ==> n == |DefaultNames|
    ensures failAt.Some? ==> n == if failAt.value < |DefaultNames| then failAt.value else |DefaultNames|
  {
    match failAt
    case None => |DefaultNames|
    case Some(k) => if k < |DefaultNames| then k else |DefaultNames|
  }

  /**
   * `initializeDefaultFolders(userId)`. `failAt` is the index of the
   * `addDoc` that throws, if one does: the writes before it stay, the call
   * fails with its own message.
   */
  method InitializeDefaultFolders(store: Store, userId: string, now: int, failAt: Option<nat>)
    returns (r: Outcome)
    requires store.Valid()
    modifies store
    ensures store.Valid()
    ensures old(store.folders) != [] ==> r == Pass && unchanged(store)
    ensures old(store.folders) == [] ==>
      && store.folders == DefaultRecords(Written(failAt), old(store.nextId), userId, now)
      && r == (if Written(failAt) < |DefaultNames| then Fail(InitError) else Pass)
    ensures store.files == old(store.files) && store.objects == old(store.objects)
  {
    if store.folders != [] {
      return Pass;
    }
    ghost var firstId := store.nextId;
    var i := 0;
    while i < |DefaultNames|
      invariant 0 <= i <= |DefaultNames|
      invariant i <= Written(failAt)
      invariant store.Valid()
      invariant store.nextId == firstId + i
      invariant store.folders == DefaultRecords(i, firstId, userId, now)
      invariant store.files == old(store.files) && store.objects == old(store.objects)
    {
      if failAt == Some(i) {
        return Fail(InitError);
      }
      var f := DefaultFolder(i, store.nextId, userId, now);
      assert DefaultRecords(i + 1, firstId, userId, now) == DefaultRecords(i, firstId, userId, now) + [f];
      store.folders := store.folders + [f];
      store.nextId := store.nextId + 1;
      i := i + 1;
    }
    return Pass;
  }

  /**
   * Seeding twice: once the first call has written a folder, the second call
   * finds the collection non-empty, writes nothing and succeeds.
   */
  method InitializeTwice(store: Store, userId: string, now: int, failAt: Option<nat>)
    returns (first: Outcome, second: Outcome)
    requires store.Valid()
    modifies store
    ensures store.Valid()
    ensures old(store.folders) == [] && Written(failAt) > 0 ==>
      && store.folders == DefaultRecords(Written(failAt), old(store.nextId), userId, now)
      && second == Pass
    ensures old(store.folders) != [] ==> first == Pass && second == Pass && unchanged(store)
    ensures store.files == old(store.files) && store.objects == old(store.objects)
  {
    first := InitializeDefaultFolders(store, userId, now, failAt);
    ghost var between := store.folders;
    ghost var betweenId := store.nextId;
    second := InitializeDefaultFolders(store, userId, now, failAt);
    assert between != [] ==> store.folders == between && store.nextId == betweenId;
  }

  /** The default names are non-empty, `/`-free and pairwise distinct (their first characters differ). */
  lemma DefaultNamesFacts()
    ensures forall k :: 0 <= k < |DefaultNames| ==> DefaultNames[k] != "" && '/' !in DefaultNames[k]
    ensures forall i, j :: 0 <= i < |DefaultNames| && 0 <= j < |DefaultNames| && i != j ==>
      DefaultNames[i] != DefaultNames[j]
  {
    forall k | 0 <= k < |DefaultNames| ensures DefaultNames[k] != "" && '/' !in DefaultNames[k] {
      DefaultNameSlashFree(k);
    }
    assert DefaultNames[0][0] == '#' && DefaultNames[1][0] == '1';
    assert DefaultNames[2][0] == '2' && DefaultNames[3][0] == '3';
  }

  lemma DefaultNameSlashFree(k: nat)
    requires k < |DefaultNames|
    ensures DefaultNames[k] != "" && '/' !in DefaultNames[k]
  {
    if k == 0 {
      assert '/' !in "#ecycle";
    } else if k == 1 {
      assert '/' !in "1 - Expertise";
    } else if k == 2 {
      assert '/' !in "2 - Gestion technique";
    } else {
      assert '/' !in "3 - Gestion technique expertise";
    }
  }

  lemma RootRecords(n: nat, firstId: nat, userId: string, now: int)
    requires n <= |DefaultNames|
    ensures FoldersUnder(DefaultRecords(n, firstId, userId, now), None) == DefaultRecords(n, firstId, userId, now)
  {
    var r := DefaultRecords(n, firstId, userId, now);
    assert forall i :: 0 <= i < n ==> ParentIs(None)(r[i]);
    FilterAll(r, ParentIs(None));
  }

  /**
   * Every prefix of the defaults is a consistent tree of distinct root
   * paths, numbered 1, 2, 3, … in order at the root: a failed
   * initialization leaves no half-formed folder behind.
   */
  lemma DefaultsConsistent(n: nat, firstId: nat, userId: string, now: int, files: seq<File>)
    requires n <= |DefaultNames|
    requires Consistent([], files)
    ensures var r := DefaultRecords(n, firstId, userId, now);
      && Consistent(r, files)
      && UniquePaths(r)
      && FolderIdsIncreasing(r)
      && (forall k :: 0 <= k < |FoldersUnder(r, None)| ==> FoldersUnder(r, None)[k].ordre == k + 1)
  {
    DefaultsWellFormed(n, firstId, userId, now);
    DefaultsUnique(n, firstId, userId, now);
    RootRecords(n, firstId, userId, now);
    FilesStayAtRoot(DefaultRecords(n, firstId, userId, now), files);
  }

  lemma FilesStayAtRoot(r: seq<Folder>, files: seq<File>)
    requires Consistent([], files)
    ensures forall i :: 0 <= i < |files| ==> files[i].dossierId == "root" || HasFolderAt(r, files[i].dossierId)
  {
    forall i | 0 <= i < |files| ensures files[i].dossierId == "root" {
      assert !HasFolderAt([], files[i].dossierId);
    }
  }

  lemma DefaultsWellFormed(n: nat, firstId: nat, userId: string, now: int)
    requires n <= |DefaultNames|
    ensures forall i :: 0 <= i < n ==> WellFormed(DefaultRecords(n, firstId, userId, now)[i])
  {
    var r := DefaultRecords(n, firstId, userId, now);
    DefaultNamesFacts();
    forall i | 0 <= i < n ensures WellFormed(r[i]) {
      assert r[i] == DefaultFolder(i, firstId + i, userId, now);
      SegmentCountSingle(DefaultNames[i]);
    }
  }

  lemma DefaultsUnique(n: nat, firstId: nat, userId: string, now: int)
    requires n <= |DefaultNames|
    ensures UniquePaths(DefaultRecords(n, firstId, userId, now))
    ensures FolderIdsIncreasing(DefaultRecords(n, firstId, userId, now))
  {
    var r := DefaultRecords(n, firstId, userId, now);
    DefaultNamesFacts();
    forall i, j | 0 <= i < n && 0 <= j < n && i != j ensures r[i].path != r[j].path {
      assert r[i] == DefaultFolder(i, firstId + i, userId, now);
      assert r[j] == DefaultFolder(j, firstId + j, userId, now);
    }
    forall i, j | 0 <= i < j < n ensures r[i].id < r[j].id {
      assert r[i] == DefaultFolder(i, firstId + i, userId, now);
      assert r[j] == DefaultFolder(j, firstId + j, userId, now);
    }
  }

  /**
   * The defaults are the records that creating each default name at the root,
   * in turn, would have written: the literal ranks agree with the sibling
   * count the folder-creation handler computes.
   */
  lemma DefaultsAreCreations(k: nat, firstId: nat, userId: string, now: int)
    requires k < |DefaultNames|
    ensures DefaultFolder(k, firstId + k, userId, now) ==
      NewFolder(DefaultRecords(k, firstId, userId, now), firstId + k, "", DefaultNames[k], userId, now)
  {
    RootRecords(k, firstId, userId, now);
  }
}
