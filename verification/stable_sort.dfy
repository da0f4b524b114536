/**
 * Stable descending sort by an integer key, the behaviour of
 * `Array.prototype.sort` (stable since ECMAScript 2019) called with a
 * three-way comparator that answers 1 when its first argument has the smaller
 * key, -1 when it has the larger one and 0 on a tie.
 *
 * `SortDesc` is the reference definition (insertion sort that moves an element
 * left only past strictly smaller keys); `SortInPlace` runs the same algorithm
 * on an array.
 */
module StableSort {

  /** The three-way comparator for a descending order on integer keys. */
  function CompareDesc(x: int, y: int): (r: int)
    ensures r == -1 || r == 0 || r == 1
    ensures r > 0 <==> x < y
    ensures r < 0 <==> x > y
  {
    if x < y then 1 else if x > y then -1 else 0
  }

  /** Non-increasing in `key`. */
  ghost predicate Sorted<T>(s: seq<T>, key: T -> int)
  {
    forall i, j :: 0 <= i < j < |s| ==> key(s[i]) >= key(s[j])
  }

  /** The elements of `s` whose key is `v`, in their order in `s`. */
  function KeyFilter<T>(s: seq<T>, key: T -> int, v: int): seq<T>
  {
    if s == [] then []
    else KeyFilter(s[..|s| - 1], key, v) + (if key(s[|s| - 1]) == v then [s[|s| - 1]] else [])
  }

  /**
   * Places `x` into the sorted `t`: it moves left past every element whose
   * key is strictly smaller, and stops at the first one the comparator does
   * not put after `x`.
   */
  function Insert<T>(t: seq<T>, x: T, key: T -> int): (r: seq<T>)
    ensures |r| == |t| + 1
  {
    if t == [] || CompareDesc(key(t[|t| - 1]), key(x)) <= 0 then t + [x]
    else Insert(t[..|t| - 1], x, key) + [t[|t| - 1]]
  }

  lemma {:induction false} InsertPerm<T>(t: seq<T>, x: T, key: T -> int)
    ensures multiset(Insert(t, x, key)) == multiset(t) + multiset{x}
  {
    if t == [] || CompareDesc(key(t[|t| - 1]), key(x)) <= 0 {
    } else {
      var init := t[..|t| - 1];
      assert t == init + [t[|t| - 1]];
      InsertPerm(init, x, key);
    }
  }

  function SortDesc<T>(s: seq<T>, key: T -> int): (r: seq<T>)
    ensures |r| == |s|
    ensures multiset(r) == multiset(s)
  {
    if s == [] then []
    else
      var init := s[..|s| - 1];
      assert s == init + [s[|s| - 1]];
      InsertPerm(SortDesc(init, key), s[|s| - 1], key);
      Insert(SortDesc(init, key), s[|s| - 1], key)
  }

  lemma {:induction false} KeyFilterAppend<T>(a: seq<T>, b: seq<T>, key: T -> int, v: int)
    ensures KeyFilter(a + b, key, v) == KeyFilter(a, key, v) + KeyFilter(b, key, v)
    decreases |b|
  {
    if b == [] {
      assert a + b == a;
    } else {
      var b' := b[..|b| - 1];
      assert (a + b)[..|a + b| - 1] == a + b';
      KeyFilterAppend(a, b', key, v);
    }
  }

  lemma {:induction false} KeyFilterMember<T>(s: seq<T>, key: T -> int, v: int, x: T)
    requires x in KeyFilter(s, key, v)
    ensures x in s && key(x) == v
  {
    if s != [] {
      var init := s[..|s| - 1];
      assert s == init + [s[|s| - 1]];
      if x in KeyFilter(init, key, v) {
        KeyFilterMember(init, key, v, x);
      }
    }
  }

  lemma {:induction false} InsertKeyFilter<T>(t: seq<T>, x: T, key: T -> int, v: int)
    ensures KeyFilter(Insert(t, x, key), key, v) == KeyFilter(t, key, v) + KeyFilter([x], key, v)
  {
    if t == [] || CompareDesc(key(t[|t| - 1]), key(x)) <= 0 {
      KeyFilterAppend(t, [x], key, v);
    } else {
      var init, last := t[..|t| - 1], t[|t| - 1];
      assert t == init + [last];
      InsertKeyFilter(init, x, key, v);
      KeyFilterAppend(Insert(init, x, key), [last], key, v);
      KeyFilterAppend(init, [last], key, v);
      assert key(last) < key(x);
    }
  }

  /** Ties keep their input order: every equal-key subsequence is unchanged. */
  lemma {:induction false} SortDescStable<T>(s: seq<T>, key: T -> int, v: int)
    ensures KeyFilter(SortDesc(s, key), key, v) == KeyFilter(s, key, v)
  {
    if s != [] {
      var init, last := s[..|s| - 1], s[|s| - 1];
      assert s == init + [last];
      SortDescStable(init, key, v);
      InsertKeyFilter(SortDesc(init, key), last, key, v);
    }
  }

  lemma {:induction false} InsertSorted<T>(t: seq<T>, x: T, key: T -> int)
    requires Sorted(t, key)
    ensures Sorted(Insert(t, x, key), key)
  {
    if t == [] || CompareDesc(key(t[|t| - 1]), key(x)) <= 0 {
    } else {
      var init, last := t[..|t| - 1], t[|t| - 1];
      InsertSorted(init, x, key);
      var u := Insert(init, x, key);
      InsertPerm(init, x, key);
      forall i | 0 <= i < |u| ensures key(u[i]) >= key(last) {
        assert u[i] in multiset(u);
        if u[i] != x {
          assert u[i] in init;
        }
      }
    }
  }

  lemma {:induction false} SortDescSorted<T>(s: seq<T>, key: T -> int)
    ensures Sorted(SortDesc(s, key), key)
  {
    if s != [] {
      var init := s[..|s| - 1];
      SortDescSorted(init, key);
      InsertSorted(SortDesc(init, key), s[|s| - 1], key);
    }
  }

  /**
   * A stable sort has exactly one possible outcome: any arrangement that is
   * non-increasing in `key` and keeps every equal-key subsequence of `s` is
   * `SortDesc(s, key)`.
   */
  lemma SortDescUnique<T>(s: seq<T>, r: seq<T>, key: T -> int)
    requires Sorted(r, key)
    requires forall v :: KeyFilter(r, key, v) == KeyFilter(s, key, v)
    ensures r == SortDesc(s, key)
  {
    SortDescSorted(s, key);
    forall v ensures KeyFilter(r, key, v) == KeyFilter(SortDesc(s, key), key, v) {
      SortDescStable(s, key, v);
    }
    SortedSameFiltersEqual(r, SortDesc(s, key), key);
  }

  lemma {:induction false} SortedSameFiltersEqual<T>(a: seq<T>, b: seq<T>, key: T -> int)
    requires Sorted(a, key) && Sorted(b, key)
    requires forall v :: KeyFilter(a, key, v) == KeyFilter(b, key, v)
    ensures a == b
    decreases |a|
  {
    if a == [] {
      if b != [] {
        LastHasFilter(b, key);
        assert false;
      }
    } else if b == [] {
      LastHasFilter(a, key);
      assert false;
    } else {
      var ai, al := a[..|a| - 1], a[|a| - 1];
      var bi, bl := b[..|b| - 1], b[|b| - 1];
      // The last elements carry the smallest key of each side, and both sides
      // hold the same keys, so the last keys agree.
      LastKeyBound(a, b, key);
      LastKeyBound(b, a, key);
      var k := key(al);
      assert key(bl) == k;
      var fa, fb := KeyFilter(a, key, k), KeyFilter(b, key, k);
      assert fa == KeyFilter(ai, key, k) + [al];
      assert fb == KeyFilter(bi, key, k) + [bl];
      assert fa == fb;
      assert al == fa[|fa| - 1] == fb[|fb| - 1] == bl;
      forall v ensures KeyFilter(ai, key, v) == KeyFilter(bi, key, v) {
        var tail := if v == k then [al] else [];
        var x, y := KeyFilter(ai, key, v), KeyFilter(bi, key, v);
        assert KeyFilter(a, key, v) == x + tail;
        assert KeyFilter(b, key, v) == y + tail;
        assert x + tail == y + tail;
        assert |x| == |y|;
        assert (x + tail)[..|x|] == x;
        assert (y + tail)[..|y|] == y;
      }
      SortedSameFiltersEqual(ai, bi, key);
      assert a == ai + [al] && b == bi + [bl];
    }
  }

  lemma LastHasFilter<T>(s: seq<T>, key: T -> int)
    requires s != []
    ensures KeyFilter(s, key, key(s[|s| - 1])) != []
  {
  }

  lemma LastKeyBound<T>(a: seq<T>, b: seq<T>, key: T -> int)
    requires a != [] && b != [] && Sorted(b, key)
    requires forall v :: KeyFilter(a, key, v) == KeyFilter(b, key, v)
    ensures key(b[|b| - 1]) <= key(a[|a| - 1])
  {
    var al := a[|a| - 1];
    var k := key(al);
    assert KeyFilter(a, key, k) == KeyFilter(a[..|a| - 1], key, k) + [al];
    assert al in KeyFilter(b, key, k);
    KeyFilterMember(b, key, k, al);
    var i :| 0 <= i < |b| && b[i] == al;
    if i < |b| - 1 {
      assert key(b[i]) >= key(b[|b| - 1]);
    }
  }

  /** `f` applied to every element, in order. */
  function Project<T, U>(s: seq<T>, f: T -> U): (r: seq<U>)
    ensures |r| == |s|
    ensures forall i :: 0 <= i < |s| ==> r[i] == f(s[i])
  {
    if s == [] then [] else Project(s[..|s| - 1], f) + [f(s[|s| - 1])]
  }

  lemma {:induction false} InsertProjectPerm<T, U>(t: seq<T>, x: T, key: T -> int, f: T -> U)
    ensures multiset(Project(Insert(t, x, key), f)) == multiset(Project(t, f)) + multiset{f(x)}
  {
    if t == [] || CompareDesc(key(t[|t| - 1]), key(x)) <= 0 {
      assert Project(t + [x], f) == Project(t, f) + [f(x)];
    } else {
      var init, last := t[..|t| - 1], t[|t| - 1];
      var u := Insert(init, x, key);
      InsertProjectPerm(init, x, key, f);
      assert Project(u + [last], f) == Project(u, f) + [f(last)];
      assert Project(t, f) == Project(init, f) + [f(last)];
    }
  }

  /** Sorting permutes every projection of the elements as well. */
  lemma {:induction false} SortDescProjectPerm<T, U>(s: seq<T>, key: T -> int, f: T -> U)
    ensures multiset(Project(SortDesc(s, key), f)) == multiset(Project(s, f))
  {
    if s != [] {
      var init, last := s[..|s| - 1], s[|s| - 1];
      assert s == init + [last];
      SortDescProjectPerm(init, key, f);
      InsertProjectPerm(SortDesc(init, key), last, key, f);
      assert Project(s, f) == Project(init, f) + [f(last)];
    }
  }

  /** The in-place form of `SortDesc`: an insertion sort on the array. */
  method SortInPlace<T>(a: array<T>, key: T -> int)
    modifies a
    ensures a[..] == SortDesc(old(a[..]), key)
  {
    ghost var input := a[..];
    var i := 0;
    while i < a.Length
      invariant 0 <= i <= a.Length
      invariant a[..i] == SortDesc(input[..i], key)
      invariant forall m :: i <= m < a.Length ==> a[m] == input[m]
    {
      InsertLast(a, i, key);
      SortDescStep(input, i, key);
      i := i + 1;
    }
    assert a[..] == a[..a.Length];
    assert input[..a.Length] == input;
  }

  /** Sorting one more element of `s` inserts it into the sorted prefix. */
  lemma SortDescStep<T>(s: seq<T>, i: int, key: T -> int)
    requires 0 <= i < |s|
    ensures SortDesc(s[..i + 1], key) == Insert(SortDesc(s[..i], key), s[i], key)
  {
    assert s[..i + 1][..i] == s[..i];
  }

  /** Moves `a[i]` left into the sorted prefix `a[..i]`, as `Insert` does. */
  method InsertLast<T>(a: array<T>, i: int, key: T -> int)
    requires 0 <= i < a.Length
    modifies a
    ensures a[..i + 1] == Insert(old(a[..i]), old(a[i]), key)
    ensures forall m :: i < m < a.Length ==> a[m] == old(a[m])
  {
    ghost var t := a[..i];
    var x := a[i];
    var j := ShiftRight(a, i, x, key);
    a[j] := x;
    InsertPlaced(t, x, key, j);
    assert a[..i + 1] == t[..j] + [x] + t[j..];
  }

  /**
   * Shifts one place to the right the run of elements just before `a[i]`
   * whose keys are strictly smaller than `key(x)`; `j` is where the run began.
   */
  method ShiftRight<T>(a: array<T>, i: int, x: T, key: T -> int) returns (j: int)
    requires 0 <= i < a.Length
    modifies a
    ensures 0 <= j <= i
    ensures forall m :: 0 <= m < j ==> a[m] == old(a[m])
    ensures forall m :: j < m <= i ==> a[m] == old(a[m - 1])
    ensures forall m :: i < m < a.Length ==> a[m] == old(a[m])
    ensures j == 0 || CompareDesc(key(old(a[j - 1])), key(x)) <= 0
    ensures forall m :: j <= m < i ==> CompareDesc(key(old(a[m])), key(x)) > 0
  {
    j := i;
    while j > 0 && CompareDesc(key(a[j - 1]), key(x)) > 0
      invariant 0 <= j <= i
      invariant forall m :: 0 <= m < j ==> a[m] == old(a[m])
      invariant forall m :: j < m <= i ==> a[m] == old(a[m - 1])
      invariant forall m :: i < m < a.Length ==> a[m] == old(a[m])
      invariant forall m :: j <= m < i ==> CompareDesc(key(old(a[m])), key(x)) > 0
    {
      a[j] := a[j - 1];
      j := j - 1;
    }
  }

  /**
   * `Insert` puts `x` after the last element whose key is not smaller than
   * `key(x)`, with the strictly smaller ones after it.
   */
  lemma {:induction false} InsertPlaced<T>(t: seq<T>, x: T, key: T -> int, j: int)
    requires 0 <= j <= |t|
    requires j == 0 || CompareDesc(key(t[j - 1]), key(x)) <= 0
    requires forall m :: j <= m < |t| ==> CompareDesc(key(t[m]), key(x)) > 0
    ensures Insert(t, x, key) == t[..j] + [x] + t[j..]
  {
    if j < |t| {
      var init, last := t[..|t| - 1], t[|t| - 1];
      assert CompareDesc(key(last), key(x)) > 0;
      assert Insert(t, x, key) == Insert(init, x, key) + [last];
      InsertPlaced(init, x, key, j);
      assert init[..j] == t[..j];
      assert t[j..] == init[j..] + [last];
    } else {
      assert t[..j] == t;
    }
  }
}
