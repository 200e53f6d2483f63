/** `Array.prototype.filter` and removal of one record by its identifier. */
module Collections {

  /** `s.filter(p)`: the elements of `s` that satisfy `p`, in their order in `s`. */
  function Filter<T>(s: seq<T>, p: T -> bool): (r: seq<T>)
    ensures |r| <= |s|
    ensures forall i :: 0 <= i < |r| ==> r[i] in s && p(r[i])
    ensures forall i :: 0 <= i < |s| && p(s[i]) ==> s[i] in r
  {
    if s == [] then []
    else
      assert s == [s[0]] + s[1..];
      (if p(s[0]) then [s[0]] else []) + Filter(s[1..], p)
  }

  /** Filtering distributes over concatenation, so the result keeps the input order. */
  lemma {:induction false} FilterAppend<T>(a: seq<T>, b: seq<T>, p: T -> bool)
    ensures Filter(a + b, p) == Filter(a, p) + Filter(b, p)
  {
    if a == [] {
      assert a + b == b;
    } else {
      assert (a + b)[0] == a[0];
      assert (a + b)[1..] == a[1..] + b;
      FilterAppend(a[1..], b, p);
    }
  }

  /** The step of a loop that filters a prefix of its input. */
  lemma FilterSnoc<T>(s: seq<T>, i: nat, p: T -> bool)
    requires i < |s|
    ensures Filter(s[..i + 1], p) == Filter(s[..i], p) + (if p(s[i]) then [s[i]] else [])
  {
    assert s[..i + 1] == s[..i] + [s[i]];
    FilterAppend(s[..i], [s[i]], p);
  }

  /** Nothing qualifies exactly when the filter is empty. */
  lemma FilterEmpty<T>(s: seq<T>, p: T -> bool)
    ensures Filter(s, p) == [] <==> forall i :: 0 <= i < |s| ==> !p(s[i])
  {
    if Filter(s, p) == [] {
      forall i | 0 <= i < |s| ensures !p(s[i]) {
        assert s[i] in s;
      }
    } else {
      assert Filter(s, p)[0] in s;
    }
  }

  /** A filter every element passes keeps the whole sequence. */
  lemma {:induction false} FilterAll<T>(s: seq<T>, p: T -> bool)
    requires forall i :: 0 <= i < |s| ==> p(s[i])
    ensures Filter(s, p) == s
  {
    if s != [] {
      FilterAll(s[1..], p);
    }
  }

  /** A relation holding between every earlier and later element still holds after filtering. */
  lemma {:induction false} FilterKeepsPairwise<T>(s: seq<T>, p: T -> bool, lt: (T, T) -> bool)
    requires forall i, j :: 0 <= i < j < |s| ==> lt(s[i], s[j])
    ensures forall i, j :: 0 <= i < j < |Filter(s, p)| ==> lt(Filter(s, p)[i], Filter(s, p)[j])
  {
    if s != [] {
      assert forall i, j :: 0 <= i < j < |s[1..]| ==> lt(s[1..][i], s[1..][j]) by {
        forall i, j | 0 <= i < j < |s[1..]| ensures lt(s[1..][i], s[1..][j]) {
          assert s[1..][i] == s[i + 1] && s[1..][j] == s[j + 1];
        }
      }
      FilterKeepsPairwise(s[1..], p, lt);
      var t := Filter(s[1..], p);
      if p(s[0]) {
        forall k | 0 <= k < |t| ensures lt(s[0], t[k]) {
          assert t[k] in s[1..];
        }
        PairwiseCons(s[0], t, lt);
        assert Filter(s, p) == [s[0]] + t;
      } else {
        assert Filter(s, p) == t;
      }
    }
  }

  /** A sequence is its prefix, one element and its suffix. */
  lemma SplitAround<T>(s: seq<T>, k: nat)
    requires k < |s|
    ensures s == (s[..k] + [s[k]]) + s[k + 1..]
  {
  }

  lemma PairwiseCons<T>(x: T, t: seq<T>, lt: (T, T) -> bool)
    requires forall k :: 0 <= k < |t| ==> lt(x, t[k])
    requires forall i, j :: 0 <= i < j < |t| ==> lt(t[i], t[j])
    ensures forall i, j :: 0 <= i < j < |[x] + t| ==> lt(([x] + t)[i], ([x] + t)[j])
  {
    var r := [x] + t;
    forall i, j | 0 <= i < j < |r| ensures lt(r[i], r[j]) {
      assert r[j] == t[j - 1];
      if i > 0 {
        assert r[i] == t[i - 1];
      }
    }
  }
}
