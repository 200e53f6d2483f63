/**
 * `Array.prototype.sort` with a comparator: a stable sort.  A comparator `cmp`
 * is represented by the relation `le(a, b) == (cmp(a, b) <= 0)`, which for the
 * comparators of this application is a total preorder.  The sort is defined as
 * an insertion sort; its three properties below (ordered, a permutation,
 * stable) determine the result of any stable sort.
 */
module Sorting {

  ghost predicate TotalPreorder<T(!new)>(le: (T, T) -> bool)
  {
    && (forall a, b :: le(a, b) || le(b, a))
    && (forall a, b, c :: le(a, b) && le(b, c) ==> le(a, c))
  }

  predicate Sorted<T>(s: seq<T>, le: (T, T) -> bool)
  {
    forall i, j :: 0 <= i < j < |s| ==> le(s[i], s[j])
  }

  /** Inserts `x` in front of the first element it does not follow. */
  function Insert<T>(x: T, s: seq<T>, le: (T, T) -> bool): (r: seq<T>)
    ensures multiset(r) == multiset(s) + multiset{x}
    ensures |r| == |s| + 1
  {
    if s == [] then [x]
    else if le(x, s[0]) then [x] + s
    else
      assert s == [s[0]] + s[1..];
      [s[0]] + Insert(x, s[1..], le)
  }

  /** `[...s].sort(cmp)`. */
  function Sort<T>(s: seq<T>, le: (T, T) -> bool): (r: seq<T>)
    ensures multiset(r) == multiset(s)
    ensures |r| == |s|
  {
    if s == [] then []
    else
      assert s == [s[0]] + s[1..];
      Insert(s[0], Sort(s[1..], le), le)
  }

  lemma {:induction false} InsertSorted<T(!new)>(x: T, s: seq<T>, le: (T, T) -> bool)
    requires TotalPreorder(le)
    requires Sorted(s, le)
    ensures Sorted(Insert(x, s, le), le)
    decreases |s|
  {
    if s != [] && !le(x, s[0]) {
      InsertSorted(x, s[1..], le);
      var r := Insert(x, s, le);
      var t := Insert(x, s[1..], le);
      assert r == [s[0]] + t;
      forall j | 0 <= j < |t| ensures le(s[0], t[j]) {
        assert t[j] in multiset(t);
        assert t[j] in multiset(s[1..]) + multiset{x};
        if t[j] != x {
          assert t[j] in multiset(s[1..]);
          var k :| 0 <= k < |s[1..]| && s[1..][k] == t[j];
          assert s[k + 1] == t[j];
        }
      }
    }
  }

  /** The sorted copy is ordered by the comparator. */
  lemma {:induction false} SortSorted<T(!new)>(s: seq<T>, le: (T, T) -> bool)
    requires TotalPreorder(le)
    ensures Sorted(Sort(s, le), le)
    decreases |s|
  {
    if s != [] {
      SortSorted(s[1..], le);
      InsertSorted(s[0], Sort(s[1..], le), le);
    }
  }

  /** `a` and `b` compare equal. */
  predicate Ties<T>(a: T, b: T, le: (T, T) -> bool)
  {
    le(a, b) && le(b, a)
  }

  /** The elements of `s` that compare equal to `e`, in their order in `s`. */
  function TiesOf<T>(s: seq<T>, e: T, le: (T, T) -> bool): seq<T>
  {
    if s == [] then []
    else (if Ties(s[0], e, le) then [s[0]] else []) + TiesOf(s[1..], e, le)
  }

  /** When `x` does not come before `y`, `y` cannot tie with anything `x` ties with. */
  lemma NotBeforeNoTie<T(!new)>(x: T, y: T, e: T, le: (T, T) -> bool)
    requires TotalPreorder(le)
    requires !le(x, y) && Ties(x, e, le)
    ensures !Ties(y, e, le)
  {
  }

  lemma {:induction false} InsertStable<T(!new)>(x: T, s: seq<T>, e: T, le: (T, T) -> bool)
    requires TotalPreorder(le)
    ensures TiesOf(Insert(x, s, le), e, le)
         == (if Ties(x, e, le) then [x] else []) + TiesOf(s, e, le)
    decreases |s|
  {
    if s == [] {
      TiesOfCons(x, [], e, le);
    } else if le(x, s[0]) {
      TiesOfCons(x, s, e, le);
    } else {
      InsertStable(x, s[1..], e, le);
      TiesOfCons(s[0], Insert(x, s[1..], le), e, le);
      TiesOfCons(s[0], s[1..], e, le);
      assert [s[0]] + s[1..] == s;
      // s[0] comes strictly before x, so it cannot tie with e when x does.
      if Ties(x, e, le) {
        NotBeforeNoTie(x, s[0], e, le);
      }
      SwapEmpty(if Ties(s[0], e, le) then [s[0]] else [], if Ties(x, e, le) then [x] else [],
                TiesOf(s[1..], e, le));
    }
  }

  lemma TiesOfCons<T>(y: T, t: seq<T>, e: T, le: (T, T) -> bool)
    ensures TiesOf([y] + t, e, le) == (if Ties(y, e, le) then [y] else []) + TiesOf(t, e, le)
  {
    assert ([y] + t)[1..] == t;
  }

  lemma SwapEmpty<T>(a: seq<T>, b: seq<T>, c: seq<T>)
    requires a == [] || b == []
    ensures a + (b + c) == b + (a + c)
  {
  }

  /**
   * The sort is stable: the elements that compare equal to any given one keep
   * their relative order.
   */
  lemma {:induction false} SortStable<T(!new)>(s: seq<T>, e: T, le: (T, T) -> bool)
    requires TotalPreorder(le)
    ensures TiesOf(Sort(s, le), e, le) == TiesOf(s, e, le)
    decreases |s|
  {
    if s != [] {
      SortStable(s[1..], e, le);
      InsertStable(s[0], Sort(s[1..], le), e, le);
    }
  }

  /** An input that is already ordered comes back unchanged. */
  lemma {:induction false} SortOfSorted<T(!new)>(s: seq<T>, le: (T, T) -> bool)
    requires Sorted(s, le)
    ensures Sort(s, le) == s
    decreases |s|
  {
    if s != [] {
      assert Sorted(s[1..], le);
      SortOfSorted(s[1..], le);
      if |s| > 1 {
        assert le(s[0], s[1]);
      }
      assert s == [s[0]] + s[1..];
    }
  }
}
