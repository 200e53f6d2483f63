/**
 * What the explorer shows of the tables: the file list sorted by the chosen
 * column and direction, the column toggle, the flat file search and the
 * breadcrumb trail.
 */
module ExplorerView {
  import opened Wrappers
  import opened Strings
  import opened Paths
  import opened Documents
  import opened Collections
  import Sorting

  // ---------------------------------------------------------------------------
  // sortFiles / handleSort
  // ---------------------------------------------------------------------------

  datatype SortField = Nom | Type | Taille | DateUpload
  datatype SortDirection = Asc | Desc
  datatype SortState = SortState(field: SortField, direction: SortDirection)

  /** The state the explorer starts in: by name, ascending. */
  const InitialSort := SortState(Nom, Asc)

  /** `localeCompare(a, b) <= 0`, taken as code-point lexicographic order. */
  predicate StrLe(a: string, b: string)
  {
    a == [] || (b != [] && (a[0] < b[0] || (a[0] == b[0] && StrLe(a[1..], b[1..]))))
  }

  lemma {:induction false} StrLeTotal(a: string, b: string)
    ensures StrLe(a, b) || StrLe(b, a)
  {
    if a != [] && b != [] && a[0] == b[0] {
      StrLeTotal(a[1..], b[1..]);
    }
  }

  lemma {:induction false} StrLeTrans(a: string, b: string, c: string)
    requires StrLe(a, b) && StrLe(b, c)
    ensures StrLe(a, c)
  {
    if a != [] && b != [] && c != [] && a[0] == b[0] && b[0] == c[0] {
      StrLeTrans(a[1..], b[1..], c[1..]);
    }
  }

  /** The key comparison of one column, ascending: lower-cased text, size, or upload time. */
  predicate KeyLe(field: SortField, a: File, b: File)
  {
    match field
    case Nom => StrLe(Lower(a.nom), Lower(b.nom))
    case Type => StrLe(Lower(a.fileType), Lower(b.fileType))
    case Taille => a.taille <= b.taille
    case DateUpload => a.dateUpload <= b.dateUpload
  }

  /** The comparator of `sortFiles` as the relation "comparator result is not positive". */
  function Comparator(st: SortState): (File, File) -> bool
  {
    (a: File, b: File) => if st.direction == Asc then KeyLe(st.field, a, b) else KeyLe(st.field, b, a)
  }

  lemma ComparatorTotalPreorder(st: SortState)
    ensures Sorting.TotalPreorder(Comparator(st))
  {
    var le := Comparator(st);
    forall a: File, b: File ensures le(a, b) || le(b, a) {
      StrLeTotal(Lower(a.nom), Lower(b.nom));
      StrLeTotal(Lower(a.fileType), Lower(b.fileType));
    }
    forall a: File, b: File, c: File | le(a, b) && le(b, c) ensures le(a, c) {
      match st.field
      case Nom =>
        if st.direction == Asc {
          StrLeTrans(Lower(a.nom), Lower(b.nom), Lower(c.nom));
        } else {
          StrLeTrans(Lower(c.nom), Lower(b.nom), Lower(a.nom));
        }
      case Type =>
        if st.direction == Asc {
          StrLeTrans(Lower(a.fileType), Lower(b.fileType), Lower(c.fileType));
        } else {
          StrLeTrans(Lower(c.fileType), Lower(b.fileType), Lower(a.fileType));
        }
      case Taille =>
      case DateUpload =>
    }
  }

  /** `sortFiles(files)`: a sorted copy; the input is a value and is left as it is. */
  function SortFiles(files: seq<File>, st: SortState): seq<File>
  {
    Sorting.Sort(files, Comparator(st))
  }

  /**
   * The sorted list is a permutation of the input, ordered by the chosen key
   * in the chosen direction, and files with equal keys keep their order.
   */
  lemma SortFilesCorrect(files: seq<File>, st: SortState, e: File)
    ensures var r := SortFiles(files, st);
      && multiset(r) == multiset(files)
      && (forall i, j :: 0 <= i < j < |r| ==>
            if st.direction == Asc then KeyLe(st.field, r[i], r[j]) else KeyLe(st.field, r[j], r[i]))
      && Sorting.TiesOf(r, e, Comparator(st)) == Sorting.TiesOf(files, e, Comparator(st))
  {
    ComparatorTotalPreorder(st);
    Sorting.SortSorted(files, Comparator(st));
    Sorting.SortStable(files, e, Comparator(st));
  }

  /** The descending order of a column is the ascending order read the other way round. */
  lemma DescendingIsReversedKey(field: SortField, a: File, b: File)
    ensures Comparator(SortState(field, Desc))(a, b) == Comparator(SortState(field, Asc))(b, a)
  {
  }

  /** `handleSort(field)`: the same column flips the direction, another column starts ascending. */
  function HandleSort(st: SortState, field: SortField): (r: SortState)
    ensures r.field == field
    ensures st.field == field ==> r.direction != st.direction
    ensures st.field != field ==> r.direction == Asc
  {
    if st.field == field then SortState(field, if st.direction == Asc then Desc else Asc)
    else SortState(field, Asc)
  }

  /** Clicking the current column twice restores the state; clicking a new column twice sorts it descending. */
  lemma HandleSortTwice(st: SortState, field: SortField)
    ensures st.field == field ==> HandleSort(HandleSort(st, field), field) == st
    ensures st.field != field ==> HandleSort(HandleSort(st, field), field) == SortState(field, Desc)
  {
  }

  /** `displayedFiles`: the search results while searching, otherwise the folder's files, sorted. */
  function DisplayedFiles(searching: bool, results: seq<File>, files: seq<File>, st: SortState): seq<File>
  {
    SortFiles(if searching then results else files, st)
  }

  /**
   * While searching the table shows exactly the search results, otherwise
   * exactly the folder's files, in either case ordered by the chosen column
   * and direction.
   */
  lemma DisplayedFilesCorrect(searching: bool, results: seq<File>, files: seq<File>, st: SortState)
    ensures var r := DisplayedFiles(searching, results, files, st);
      && (searching ==> multiset(r) == multiset(results))
      && (!searching ==> multiset(r) == multiset(files))
      && forall i, j :: 0 <= i < j < |r| ==>
           if st.direction == Asc then KeyLe(st.field, r[i], r[j]) else KeyLe(st.field, r[j], r[i])
  {
    var shown := if searching then results else files;
    ComparatorTotalPreorder(st);
    Sorting.SortSorted(shown, Comparator(st));
  }

  // ---------------------------------------------------------------------------
  // handleSearch
  // ---------------------------------------------------------------------------

  datatype SearchState = SearchState(searching: bool, results: seq<File>)

  function NameMatches(q: string): File -> bool
  {
    (f: File) => Contains(Lower(f.nom), Lower(q))
  }

  /**
   * `handleSearch(query)` over every file of the store: an empty query ends
   * the search; any other query, even one of spaces only, keeps the files
   * whose lower-cased name contains the lower-cased query.
   */
  function HandleSearch(all: seq<File>, q: string): (r: SearchState)
    ensures q == "" ==> r == SearchState(false, [])
    ensures q != "" ==> r.searching
    ensures forall i :: 0 <= i < |r.results| ==> r.results[i] in all
  {
    if q == "" then SearchState(false, []) else SearchState(true, Filter(all, NameMatches(q)))
  }

  /** A non-empty query finds exactly the files whose name contains it, ignoring case. */
  lemma SearchFindsExactly(all: seq<File>, q: string, f: File)
    requires q != ""
    ensures f in HandleSearch(all, q).results <==>
      f in all && exists i: nat :: OccursAt(Lower(f.nom), Lower(q), i)
  {
    var r := HandleSearch(all, q).results;
    ContainsIff(Lower(f.nom), Lower(q));
    if f in all && Contains(Lower(f.nom), Lower(q)) {
      var j :| 0 <= j < |all| && all[j] == f;
      assert f in r;
    }
    if f in r {
      var j :| 0 <= j < |r| && r[j] == f;
    }
  }

  /** Results keep store order: searching a concatenation concatenates the results. */
  lemma SearchKeepsOrder(a: seq<File>, b: seq<File>, q: string)
    requires q != ""
    ensures HandleSearch(a + b, q).results == HandleSearch(a, q).results + HandleSearch(b, q).results
  {
    FilterAppend(a, b, NameMatches(q));
  }

  /** The query's case does not matter. */
  lemma SearchIgnoresCase(all: seq<File>, q: string)
    ensures HandleSearch(all, Lower(q)) == HandleSearch(all, q)
  {
    LowerIdempotent(q);
    assert NameMatches(Lower(q)) == NameMatches(q);
  }

  /** The guard only tests for the empty string: a query of one space still searches. */
  lemma BlankQueryStillSearches(all: seq<File>)
    ensures HandleSearch(all, " ").searching
  {
  }

  // ---------------------------------------------------------------------------
  // Breadcrumb
  // ---------------------------------------------------------------------------

  datatype Crumb = Crumb(id: string, name: string, path: string)

  const Home := Crumb("root", "Accueil", "")

  /** The position of the first folder at or after `from` whose path is `p`. */
  function FirstAtFrom(folders: seq<Folder>, p: string, from: nat): (r: Option<nat>)
    ensures r.Some? ==> from <= r.value < |folders| && folders[r.value].path == p
    ensures r.Some? ==> forall j :: from <= j < r.value ==> folders[j].path != p
    ensures r.None? ==> forall j :: from <= j < |folders| ==> folders[j].path != p
    decreases |folders| - from
  {
    if from >= |folders| then None
    else if folders[from].path == p then Some(from)
    else FirstAtFrom(folders, p, from + 1)
  }

  /** The first document of `where('path', '==', p)`, in store order. */
  function FolderAt(folders: seq<Folder>, p: string): Option<Folder>
  {
    match FirstAtFrom(folders, p, 0)
    case None => None
    case Some(i) => Some(folders[i])
  }

  /** `folderData?.nom || part`: the folder's name, or the raw segment when there is no such folder. */
  function CrumbName(folders: seq<Folder>, prefix: string, part: string): string
  {
    match FolderAt(folders, prefix)
    case Some(x) => if x.nom != "" then x.nom else part
    case None => part
  }

  /** The cumulative path after segment `i`. */
  function Prefix(parts: seq<string>, i: nat): string
    requires i < |parts|
  {
    Join(parts[..i + 1], '/')
  }

  /**
   * The trail as the code builds it: the path of every entry past the root is
   * the final value of the shared `cumulativePath`, the whole current path.
   */
  function BreadcrumbAsWritten(folders: seq<Folder>, currentPath: string): seq<Crumb>
  {
    if currentPath == "" then [Home]
    else AsWrittenTrail(folders, Split(currentPath, '/'), currentPath)
  }

  /** The trail as written for the segments `parts` of `currentPath`. */
  function AsWrittenTrail(folders: seq<Folder>, parts: seq<string>, currentPath: string): seq<Crumb>
  {
    [Home] + seq(|parts|, i requires 0 <= i < |parts| =>
      Crumb(parts[i], CrumbName(folders, Prefix(parts, i), parts[i]), currentPath))
  }

  /** The trail as intended: every entry's path is the cumulative path up to its segment. */
  function Breadcrumb(folders: seq<Folder>, currentPath: string): seq<Crumb>
  {
    if currentPath == "" then [Home]
    else
      var parts := Split(currentPath, '/');
      [Home] + seq(|parts|, i requires 0 <= i < |parts| =>
        Crumb(parts[i], CrumbName(folders, Prefix(parts, i), parts[i]), Prefix(parts, i)))
  }

  /**
   * The trail starts at the home entry and has one entry per segment of the
   * current path; each entry is named after the first folder at its
   * cumulative path, or after its raw segment when there is none.
   */
  lemma BreadcrumbShape(folders: seq<Folder>, currentPath: string)
    ensures var r := BreadcrumbAsWritten(folders, currentPath);
      && r[0] == Home
      && |r| == (if currentPath == "" then 1 else SegmentCount(currentPath) + 1)
      && forall i :: 0 <= i < |r| - 1 ==>
           var parts := Split(currentPath, '/');
           var x := FolderAt(folders, Prefix(parts, i));
           && r[i + 1].id == parts[i]
           && (x.None? ==> r[i + 1].name == parts[i])
           && (x.Some? && x.value.nom != "" ==> r[i + 1].name == x.value.nom)
    ensures Breadcrumb(folders, currentPath)[0] == Home
    ensures |Breadcrumb(folders, currentPath)| == |BreadcrumbAsWritten(folders, currentPath)|
    ensures forall i :: 0 <= i < |BreadcrumbAsWritten(folders, currentPath)| ==>
      Breadcrumb(folders, currentPath)[i].id == BreadcrumbAsWritten(folders, currentPath)[i].id &&
      Breadcrumb(folders, currentPath)[i].name == BreadcrumbAsWritten(folders, currentPath)[i].name
  {
  }

  /** In the trail as written, every entry past the root leads to the current location. */
  lemma AsWrittenCrumbsAllLeadHere(folders: seq<Folder>, currentPath: string)
    ensures forall i :: 1 <= i < |BreadcrumbAsWritten(folders, currentPath)| ==>
      BreadcrumbAsWritten(folders, currentPath)[i].path == currentPath
  {
  }

  /** With the current path `a/b`, the entry for `a` leads to `a/b` instead of `a`. */
  lemma AsWrittenFirstCrumbMisdirects(folders: seq<Folder>)
    ensures BreadcrumbAsWritten(folders, "a/b")[1].path == "a/b"
    ensures Breadcrumb(folders, "a/b")[1].path == "a"
  {
    var parts := ["a", "b"];
    assert Join(parts, '/') == "a/b";
    SplitJoin(parts, '/');
    assert parts[..1] == ["a"];
  }

  /**
   * In the intended trail, entry `i` leads to the cumulative path of `i`
   * segments, which names the same segments as the start of the current
   * path, and the last entry leads to the current location.
   */
  lemma BreadcrumbPaths(folders: seq<Folder>, currentPath: string, i: nat)
    requires currentPath != "" && 1 <= i <= SegmentCount(currentPath)
    ensures var r := Breadcrumb(folders, currentPath);
      && Split(r[i].path, '/') == Split(currentPath, '/')[..i]
      && SegmentCount(r[i].path) == i
      && (i == SegmentCount(currentPath) ==> r[i].path == currentPath)
  {
    var parts := Split(currentPath, '/');
    var r := Breadcrumb(folders, currentPath);
    assert |r| == |parts| + 1;
    assert r[i].path == Prefix(parts, i - 1);
    SplitFront(parts, i);
    if i == |parts| {
      PrefixOfAll(parts, currentPath);
    }
  }

  lemma SplitFront(parts: seq<string>, i: nat)
    requires 1 <= i <= |parts|
    requires forall k :: 0 <= k < |parts| ==> '/' !in parts[k]
    ensures Split(Prefix(parts, i - 1), '/') == parts[..i]
  {
    assert Prefix(parts, i - 1) == Join(parts[..i], '/');
    var front := parts[..i];
    assert forall k :: 0 <= k < |front| ==> front[k] == parts[k];
    SplitJoin(front, '/');
  }

  /**
   * A breadcrumb entry found in the store leads to that folder: its path is
   * the folder's path.
   */
  lemma BreadcrumbFindsFolder(folders: seq<Folder>, currentPath: string, i: nat)
    requires currentPath != "" && 1 <= i <= SegmentCount(currentPath)
    requires FolderAt(folders, Breadcrumb(folders, currentPath)[i].path).Some?
    ensures var r := Breadcrumb(folders, currentPath);
      var x := FolderAt(folders, r[i].path).value;
      x.path == r[i].path && (x.nom != "" ==> r[i].name == x.nom)
  {
  }

  /** The heading: the last entry's name inside a folder, `Accueil` at the root. */
  function Heading(folders: seq<Folder>, currentPath: string): string
  {
    if currentPath == "" then "Accueil" else LastName(BreadcrumbAsWritten(folders, currentPath))
  }

  /** `trail[trail.length - 1]?.name`, with nothing shown for an empty trail. */
  function LastName(trail: seq<Crumb>): string
  {
    if trail == [] then "" else trail[|trail| - 1].name
  }

  /**
   * The heading names the current folder: inside a folder it is the name of
   * the first folder at the current path, or the last segment when there is
   * none; at the root it is `Accueil`.
   */
  lemma HeadingNamesCurrent(folders: seq<Folder>, currentPath: string)
    ensures currentPath == "" ==> Heading(folders, currentPath) == "Accueil"
    ensures currentPath != "" ==>
      Heading(folders, currentPath) == CrumbName(folders, currentPath, LastSegment(currentPath))
  {
    if currentPath != "" {
      HeadingInside(folders, currentPath);
    }
  }

  /** The last segment of a path. */
  function LastSegment(path: string): string
  {
    var parts := Split(path, '/');
    parts[|parts| - 1]
  }

  lemma HeadingInside(folders: seq<Folder>, currentPath: string)
    requires currentPath != ""
    ensures Heading(folders, currentPath) == CrumbName(folders, currentPath, LastSegment(currentPath))
  {
    var parts := Split(currentPath, '/');
    assert Heading(folders, currentPath) == LastName(AsWrittenTrail(folders, parts, currentPath));
    TrailLastJoined(folders, parts, currentPath);
  }

  /** The last entry of a trail whose segments join to `currentPath` is named after `currentPath`. */
  lemma TrailLastJoined(folders: seq<Folder>, parts: seq<string>, currentPath: string)
    requires |parts| >= 1 && Join(parts, '/') == currentPath
    ensures LastName(AsWrittenTrail(folders, parts, currentPath)) == CrumbName(folders, currentPath, parts[|parts| - 1])
  {
    TrailLast(folders, parts, currentPath);
    PrefixOfAll(parts, currentPath);
  }

  lemma TrailLast(folders: seq<Folder>, parts: seq<string>, currentPath: string)
    requires |parts| >= 1
    ensures LastName(AsWrittenTrail(folders, parts, currentPath))
      == CrumbName(folders, Prefix(parts, |parts| - 1), parts[|parts| - 1])
  {
    var t := AsWrittenTrail(folders, parts, currentPath);
    assert |t| == |parts| + 1;
  }

  lemma PrefixOfAll(parts: seq<string>, path: string)
    requires |parts| >= 1 && Join(parts, '/') == path
    ensures Prefix(parts, |parts| - 1) == path
  {
    assert parts[..|parts|] == parts;
  }
}
