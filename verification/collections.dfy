/** Sequence helpers that the handlers share: counting, filtering, the distinct values of a
    list (what `[...new Set(xs)]` gives), grouping with counts (what `groupBy` plus a
    `reduce` or a `forEach` tally give) and ordering by a key (what `orderBy` gives). */
module Collections {
  import opened Common

  /** Number of occurrences of `x` in `s`. */
  function Count<T(==)>(s: seq<T>, x: T): (n: nat)
    ensures n <= |s|
    ensures n > 0 <==> x in s
  {
    if s == [] then 0
    else
      assert s == s[..|s| - 1] + [s[|s| - 1]];
      Count(s[..|s| - 1], x) + (if s[|s| - 1] == x then 1 else 0)
  }

  /** The elements of `s` that satisfy `p`, in their original order. */
  function Filter<T(==)>(s: seq<T>, p: T -> bool): (r: seq<T>)
    ensures |r| <= |s|
    ensures forall i :: 0 <= i < |r| ==> r[i] in s && p(r[i])
    ensures forall i :: 0 <= i < |s| && p(s[i]) ==> s[i] in r
  {
    if s == [] then []
    else
      assert s == s[..|s| - 1] + [s[|s| - 1]];
      Filter(s[..|s| - 1], p) + (if p(s[|s| - 1]) then [s[|s| - 1]] else [])
  }

  lemma {:induction false} FilterAppend<T>(a: seq<T>, b: seq<T>, p: T -> bool)
    ensures Filter(a + b, p) == Filter(a, p) + Filter(b, p)
    decreases |b|
  {
    if b == [] {
      assert a + b == a;
    } else {
      var b' := b[..|b| - 1];
      assert (a + b)[..|a + b| - 1] == a + b';
      FilterAppend(a, b', p);
    }
  }

  /** Filtering keeps every element the test accepts exactly as often as it occurs, and
      drops every other. */
  lemma {:induction false} FilterMultiset<T>(s: seq<T>, p: T -> bool)
    ensures forall x :: multiset(Filter(s, p))[x] == if p(x) then multiset(s)[x] else 0
  {
    if s != [] {
      var init := s[..|s| - 1];
      assert s == init + [s[|s| - 1]];
      FilterMultiset(init, p);
    }
  }

  /** Replacing one element by another that the test treats alike keeps the number of
      elements the filter keeps. */
  lemma {:induction false} FilterUpdateLength<T>(s: seq<T>, k: nat, x: T, p: T -> bool)
    requires k < |s| && p(s[k]) == p(x)
    ensures |Filter(s[k := x], p)| == |Filter(s, p)|
  {
    var t := s[k := x];
    if k < |s| - 1 {
      assert t[..|t| - 1] == s[..|s| - 1][k := x];
      FilterUpdateLength(s[..|s| - 1], k, x, p);
    } else {
      assert t[..|t| - 1] == s[..|s| - 1];
    }
  }

  /** Filtering keeps every element `p` accepts: filtering with a weaker test never
      yields fewer elements. */
  lemma {:induction false} FilterMonotone<T>(s: seq<T>, p: T -> bool, q: T -> bool)
    requires forall x :: x in s && p(x) ==> q(x)
    ensures |Filter(s, p)| <= |Filter(s, q)|
  {
    if s != [] {
      assert s == s[..|s| - 1] + [s[|s| - 1]];
      FilterMonotone(s[..|s| - 1], p, q);
    }
  }

  /** Index of the first element satisfying `p`, as a `findFirst` without `orderBy`
      returns the first matching row. */
  function FindFirst<T>(s: seq<T>, p: T -> bool): (r: Option<nat>)
    ensures r.Some? ==> r.value < |s| && p(s[r.value])
    ensures r.Some? ==> forall i :: 0 <= i < r.value ==> !p(s[i])
    ensures r.None? ==> forall i :: 0 <= i < |s| ==> !p(s[i])
  {
    if s == [] then None
    else if p(s[0]) then Some(0)
    else
      match FindFirst(s[1..], p)
      case None => None
      case Some(k) => Some(k + 1)
  }

  /** The non-empty labels of the elements that have one, in order: what
      `s.map(label).filter(Boolean)` keeps. */
  function Labels<T>(s: seq<T>, labelOf: T -> Option<string>): (r: seq<string>)
    ensures forall i :: 0 <= i < |r| ==> r[i] != "" && exists j :: 0 <= j < |s| && labelOf(s[j]) == Some(r[i])
    ensures forall j :: 0 <= j < |s| && labelOf(s[j]).Some? && labelOf(s[j]).value != "" ==> labelOf(s[j]).value in r
  {
    if s == [] then []
    else
      var init := s[..|s| - 1];
      var rest := Labels(init, labelOf);
      assert forall j :: 0 <= j < |init| ==> init[j] == s[j];
      var l := labelOf(s[|s| - 1]);
      if l.Some? && l.value != "" then rest + [l.value] else rest
  }

  predicate NoDups<T(==)>(s: seq<T>)
  {
    forall i, j :: 0 <= i < j < |s| ==> s[i] != s[j]
  }

  /** The distinct elements of `s` in order of first occurrence, as a JavaScript `Set`
      built from `s` enumerates them. */
  function Distinct<T(==)>(s: seq<T>): (r: seq<T>)
    ensures NoDups(r)
    ensures forall x :: x in r ==> x in s
    ensures forall i :: 0 <= i < |s| ==> s[i] in r
    ensures |r| <= |s|
  {
    if s == [] then []
    else
      assert s == s[..|s| - 1] + [s[|s| - 1]];
      var rest := Distinct(s[..|s| - 1]);
      if s[|s| - 1] in rest then rest else rest + [s[|s| - 1]]
  }

  /** Each label that occurs in `labels`, with its number of occurrences: the object that
      a `groupBy` with `_count`, folded into a record, produces. Labels that do not occur
      have no key. */
  function GroupCount<T(==)>(labels: seq<T>): (m: map<T, nat>)
    ensures forall k :: k in m ==> k in labels && m[k] > 0
    ensures forall i :: 0 <= i < |labels| ==> labels[i] in m
  {
    map k | k in labels :: Count(labels, k)
  }

  /** The sum of `m[k]` over `keys`, a missing key counting 0 (as `obj[k] || 0`). */
  function SumOver<T(==)>(m: map<T, nat>, keys: seq<T>): nat
  {
    if keys == [] then 0
    else SumOver(m, keys[..|keys| - 1]) + (if keys[|keys| - 1] in m then m[keys[|keys| - 1]] else 0)
  }

  /** The sum of `Count(s, k)` over `keys`. */
  function SumCounts<T(==)>(s: seq<T>, keys: seq<T>): nat
  {
    if keys == [] then 0
    else SumCounts(s, keys[..|keys| - 1]) + Count(s, keys[|keys| - 1])
  }

  lemma {:induction false} SumOverGroupCount<T>(s: seq<T>, keys: seq<T>)
    ensures SumOver(GroupCount(s), keys) == SumCounts(s, keys)
  {
    if keys != [] {
      SumOverGroupCount(s, keys[..|keys| - 1]);
    }
  }

  lemma {:induction false} SumCountsOfEmpty<T>(keys: seq<T>)
    ensures SumCounts([], keys) == 0
  {
    if keys != [] {
      SumCountsOfEmpty(keys[..|keys| - 1]);
    }
  }

  lemma {:induction false} CountSnoc<T>(s: seq<T>, a: T, k: T)
    ensures Count(s + [a], k) == Count(s, k) + (if a == k then 1 else 0)
  {
    assert (s + [a])[..|s + [a]| - 1] == s;
  }

  lemma {:induction false} SumCountsSnoc<T>(s: seq<T>, a: T, keys: seq<T>)
    ensures SumCounts(s + [a], keys) == SumCounts(s, keys) + Count(keys, a)
  {
    if keys != [] {
      var init := keys[..|keys| - 1];
      SumCountsSnoc(s, a, init);
      CountSnoc(s, a, keys[|keys| - 1]);
      assert keys == init + [keys[|keys| - 1]];
      CountSnoc(init, keys[|keys| - 1], a);
    }
  }

  /** A label occurs exactly once in a duplicate-free list that contains it. */
  lemma {:induction false} CountOnce<T>(keys: seq<T>, a: T)
    requires NoDups(keys) && a in keys
    ensures Count(keys, a) == 1
  {
    var init := keys[..|keys| - 1];
    assert keys == init + [keys[|keys| - 1]];
    CountSnoc(init, keys[|keys| - 1], a);
    if keys[|keys| - 1] == a {
      assert a !in init;
    } else {
      assert a in init;
      CountOnce(init, a);
    }
  }

  lemma {:induction false} SumCountsCovers<T>(s: seq<T>, keys: seq<T>)
    requires NoDups(keys)
    requires forall x :: x in s ==> x in keys
    ensures SumCounts(s, keys) == |s|
  {
    if s == [] {
      SumCountsOfEmpty(keys);
    } else {
      var init := s[..|s| - 1];
      assert s == init + [s[|s| - 1]];
      SumCountsCovers(init, keys);
      SumCountsSnoc(init, s[|s| - 1], keys);
      CountOnce(keys, s[|s| - 1]);
    }
  }

  /** The per-label counts of a grouping add up to the number of labels, whichever
      duplicate-free list of keys covering the labels they are summed over. */
  lemma GroupCountSums<T>(s: seq<T>, keys: seq<T>)
    requires NoDups(keys)
    requires forall x :: x in s ==> x in keys
    ensures SumOver(GroupCount(s), keys) == |s|
  {
    SumOverGroupCount(s, keys);
    SumCountsCovers(s, keys);
  }

  /** The grouping's counts add up to the number of labels when summed over the distinct
      labels themselves, i.e. over the keys of the grouping. */
  lemma GroupCountTotal<T>(s: seq<T>)
    ensures SumOver(GroupCount(s), Distinct(s)) == |s|
  {
    GroupCountSums(s, Distinct(s));
  }

  /** The `forEach` tally `m[k] = (m[k] || 0) + 1` over `labels`: it builds exactly the
      grouping of the labels. */
  method Tally<T(==)>(labels: seq<T>) returns (m: map<T, nat>)
    ensures m == GroupCount(labels)
  {
    m := map[];
    for i := 0 to |labels|
      invariant forall k :: k in m <==> k in labels[..i]
      invariant forall k :: k in m ==> m[k] == Count(labels[..i], k)
    {
      var k := labels[i];
      assert labels[..i + 1] == labels[..i] + [k];
      forall j | j in m
        ensures Count(labels[..i + 1], j) == m[j] + (if k == j then 1 else 0)
      {
        CountSnoc(labels[..i], k, j);
      }
      CountSnoc(labels[..i], k, k);
      m := m[k := (if k in m then m[k] else 0) + 1];
    }
    assert labels[..|labels|] == labels;
    assert m.Keys == GroupCount(labels).Keys;
  }

  /** Lexicographic order on sort keys: the first component first, the second breaking
      ties. Each `orderBy` list of the handlers is encoded as such a key. */
  predicate KeyLe(a: (int, int), b: (int, int))
  {
    a.0 < b.0 || (a.0 == b.0 && a.1 <= b.1)
  }

  ghost predicate SortedBy<T>(s: seq<T>, key: T -> (int, int))
  {
    forall i, j :: 0 <= i < j < |s| ==> KeyLe(key(s[i]), key(s[j]))
  }

  function Insert<T(==)>(x: T, s: seq<T>, key: T -> (int, int)): (r: seq<T>)
    requires SortedBy(s, key)
    ensures SortedBy(r, key)
    ensures multiset(r) == multiset(s) + multiset{x}
    ensures forall y :: y in r ==> y == x || y in s
  {
    if s == [] then [x]
    else if KeyLe(key(x), key(s[0])) then [x] + s
    else
      assert s == [s[0]] + s[1..];
      var rest := Insert(x, s[1..], key);
      InsertBehindHead(x, s, rest, key);
      [s[0]] + rest
  }

  /** An element that sorts after the head of `s` may be inserted anywhere behind it: the
      head still comes first. */
  lemma InsertBehindHead<T>(x: T, s: seq<T>, rest: seq<T>, key: T -> (int, int))
    requires s != [] && SortedBy(s, key) && !KeyLe(key(x), key(s[0]))
    requires SortedBy(rest, key)
    requires forall y :: y in rest ==> y == x || y in s[1..]
    ensures SortedBy([s[0]] + rest, key)
  {
    var r := [s[0]] + rest;
    forall i, j | 0 <= i < j < |r|
      ensures KeyLe(key(r[i]), key(r[j]))
    {
      if i == 0 {
        assert r[j] == rest[j - 1] && rest[j - 1] in rest;
        if r[j] != x {
          var m :| 0 <= m < |s[1..]| && s[1..][m] == r[j];
          assert s[m + 1] == r[j];
        }
      } else {
        assert r[i] == rest[i - 1] && r[j] == rest[j - 1];
      }
    }
  }

  /** Sorting neither adds nor drops an element. */
  lemma SortByKeyMembers<T>(s: seq<T>, key: T -> (int, int))
    ensures forall x :: x in SortByKey(s, key) <==> x in s
  {
    var r := SortByKey(s, key);
    forall x
      ensures x in r <==> x in s
    {
      assert x in r <==> x in multiset(r);
      assert x in s <==> x in multiset(s);
    }
  }

  /** Filtering then sorting keeps every accepted element exactly as often as it occurs. */
  lemma SortedFilterMultiset<T>(s: seq<T>, p: T -> bool, key: T -> (int, int))
    ensures forall x :: multiset(SortByKey(Filter(s, p), key))[x] == if p(x) then multiset(s)[x] else 0
  {
    FilterMultiset(s, p);
  }

  /** Filtering then sorting keeps exactly the accepted elements of `s`. */
  lemma SortedFilterMembers<T>(s: seq<T>, p: T -> bool, key: T -> (int, int))
    ensures forall x :: x in SortByKey(Filter(s, p), key) <==> x in s && p(x)
  {
    var f := Filter(s, p);
    SortByKeyMembers(f, key);
    forall x | x in f
      ensures x in s && p(x)
    {
      var i :| 0 <= i < |f| && f[i] == x;
    }
  }

  /** `s` ordered by `key`, ascending: a permutation of `s` that is sorted. */
  function SortByKey<T(==)>(s: seq<T>, key: T -> (int, int)): (r: seq<T>)
    ensures SortedBy(r, key)
    ensures multiset(r) == multiset(s)
    ensures |r| == |s|
  {
    if s == [] then []
    else
      assert s == [s[0]] + s[1..];
      var r := Insert(s[0], SortByKey(s[1..], key), key);
      assert |r| == |multiset(r)|;
      r
  }
}
