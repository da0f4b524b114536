/**
 * An insertion-ordered map in the manner of JavaScript's `Map`: a Dafny `map`
 * for the entries plus the sequence of keys in the order in which each key was
 * first set. Setting a key that is already present replaces its value and
 * keeps its position; setting a new key appends it.
 */
module OrderedMaps {

  datatype OMap<K, V> = OMap(keys: seq<K>, entries: map<K, V>)

  /** No key occurs twice in `s`. */
  predicate Distinct<K(==, !new)>(s: seq<K>)
  {
    forall i, j :: 0 <= i < j < |s| ==> s[i] != s[j]
  }

  /** The key order lists every key of the map exactly once. */
  ghost predicate Valid<K(!new), V>(m: OMap<K, V>)
  {
    && Distinct(m.keys)
    && (forall k :: k in m.keys <==> k in m.entries)
  }

  function Empty<K(!new), V>(): (r: OMap<K, V>)
    ensures Valid(r) && r.keys == []
  {
    OMap([], map[])
  }

  /** `m.get(k) || d`: the stored value, or `d` when `k` has no entry. */
  function GetOr<K(==, !new), V>(m: OMap<K, V>, k: K, d: V): V
  {
    if k in m.entries then m.entries[k] else d
  }

  /** `m.set(k, v)`. */
  function Set<K(==, !new), V>(m: OMap<K, V>, k: K, v: V): OMap<K, V>
  {
    OMap(if k in m.entries then m.keys else m.keys + [k], m.entries[k := v])
  }

  lemma SetValid<K(!new), V>(m: OMap<K, V>, k: K, v: V)
    requires Valid(m)
    ensures Valid(Set(m, k, v))
  {
  }

  /** `Array.from(m.values())`: the values in key order. */
  function Values<K(==, !new), V>(m: OMap<K, V>): (r: seq<V>)
    requires Valid(m)
    ensures |r| == |m.keys|
    ensures forall i :: 0 <= i < |r| ==> r[i] == m.entries[m.keys[i]]
  {
    seq(|m.keys|, i requires 0 <= i < |m.keys| => m.entries[m.keys[i]])
  }

  /** Setting a new key appends its value after all the others. */
  lemma ValuesSetNew<K(!new), V>(m: OMap<K, V>, k: K, v: V)
    requires Valid(m) && k !in m.entries
    ensures Valid(Set(m, k, v))
    ensures Values(Set(m, k, v)) == Values(m) + [v]
  {
    SetValid(m, k, v);
  }

  /** Setting a present key replaces its value in place and moves nothing. */
  lemma ValuesSetExisting<K(!new), V>(m: OMap<K, V>, k: K, v: V)
    requires Valid(m) && k in m.entries
    ensures Valid(Set(m, k, v))
    ensures |Values(Set(m, k, v))| == |Values(m)|
    ensures forall i :: 0 <= i < |Values(m)| ==>
      Values(Set(m, k, v))[i] == if m.keys[i] == k then v else Values(m)[i]
  {
    SetValid(m, k, v);
  }

  /**
   * The elements of `s` without repetitions, each at the place of its first
   * occurrence: the key order a `Map` ends up with when `s` is the sequence of
   * keys set on it.
   */
  function Dedup<K(==, !new)>(s: seq<K>): (r: seq<K>)
    ensures Distinct(r)
    ensures forall x :: x in r <==> x in s
    ensures |r| <= |s|
  {
    if s == [] then []
    else
      var d := Dedup(s[..|s| - 1]);
      if s[|s| - 1] in d then d else d + [s[|s| - 1]]
  }

  /** Position `p` holds the first occurrence of its element. */
  ghost predicate FirstAt<K(!new)>(s: seq<K>, p: int)
  {
    0 <= p < |s| && forall q :: 0 <= q < p ==> s[q] != s[p]
  }

  lemma {:induction false} DedupPrefix<K(!new)>(s: seq<K>, n: nat, m: nat)
    requires n <= m <= |s|
    ensures Dedup(s[..n]) <= Dedup(s[..m])
    decreases m - n
  {
    if n < m {
      DedupPrefix(s, n, m - 1);
      assert s[..m][..m - 1] == s[..m - 1];
    }
  }

  lemma DedupAtFirst<K(!new)>(s: seq<K>, p: int)
    requires FirstAt(s, p)
    ensures Dedup(s[..p + 1]) == Dedup(s[..p]) + [s[p]]
  {
    assert s[..p + 1][..p] == s[..p];
    assert s[p] !in s[..p];
  }

  /** The first occurrence at `p` lands at index `|Dedup(s[..p])|`. */
  lemma DedupIndexOfFirst<K(!new)>(s: seq<K>, p: int)
    requires FirstAt(s, p)
    ensures |Dedup(s[..p])| < |Dedup(s)| && Dedup(s)[|Dedup(s[..p])|] == s[p]
  {
    DedupAtFirst(s, p);
    DedupPrefix(s, p + 1, |s|);
    assert s[..|s|] == s;
  }

  /** Keys appear in the order of their first occurrence in `s`. */
  lemma {:induction false} DedupFirstOccurrenceOrder<K(!new)>(s: seq<K>, p: int, q: int)
    requires FirstAt(s, p) && FirstAt(s, q) && p < q
    ensures forall i, j ::
      0 <= i < |Dedup(s)| && 0 <= j < |Dedup(s)| && Dedup(s)[i] == s[p] && Dedup(s)[j] == s[q]
      ==> i < j
  {
    var d := Dedup(s);
    DedupIndexOfFirst(s, p);
    DedupIndexOfFirst(s, q);
    DedupAtFirst(s, p);
    DedupPrefix(s, p + 1, q);
    var ip, iq := |Dedup(s[..p])|, |Dedup(s[..q])|;
    assert ip < iq;
    forall i, j | 0 <= i < |d| && 0 <= j < |d| && d[i] == s[p] && d[j] == s[q]
      ensures i < j
    {
      assert d[i] == d[ip] && d[j] == d[iq];
    }
  }

  /** In a sequence without repetitions every element occurs exactly once. */
  lemma {:induction false} DistinctOccursOnce<K(!new)>(s: seq<K>, x: K)
    requires Distinct(s)
    ensures multiset(s)[x] == if x in s then 1 else 0
  {
    if s != [] {
      var t := s[..|s| - 1];
      assert s == t + [s[|s| - 1]];
      assert Distinct(t);
      DistinctOccursOnce(t, x);
    }
  }
}
