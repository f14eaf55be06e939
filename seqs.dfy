/** `Array.prototype.filter` and a descending `Array.prototype.sort`, as
    the console uses them on lists of records. */
module Seqs {

  /** `s.filter(p)`. */
  function Filter<T(!new)>(s: seq<T>, p: T -> bool): (r: seq<T>)
    ensures |r| <= |s|
    ensures forall i :: 0 <= i < |r| ==> p(r[i])
    ensures forall x :: x in r ==> x in s
  {
    if s == [] then []
    else (if p(s[0]) then [s[0]] else []) + Filter(s[1..], p)
  }

  /** The filter keeps every passing element as often as it occurs and
      drops every other one. */
  lemma {:induction false} FilterCount<T(!new)>(s: seq<T>, p: T -> bool)
    ensures forall x :: multiset(Filter(s, p))[x] == if p(x) then multiset(s)[x] else 0
    decreases |s|
  {
    if s != [] {
      FilterCount(s[1..], p);
      assert s == [s[0]] + s[1..];
    }
  }

  /** Filtering keeps the relative order: it distributes over concatenation. */
  lemma {:induction false} FilterConcat<T(!new)>(a: seq<T>, b: seq<T>, p: T -> bool)
    ensures Filter(a + b, p) == Filter(a, p) + Filter(b, p)
    decreases |a|
  {
    if a == [] {
      assert a + b == b;
    } else {
      var head := if p(a[0]) then [a[0]] else [];
      calc {
        Filter(a + b, p);
        { assert (a + b)[0] == a[0] && (a + b)[1..] == a[1..] + b; }
        head + Filter(a[1..] + b, p);
        { FilterConcat(a[1..], b, p); }
        head + (Filter(a[1..], p) + Filter(b, p));
        (head + Filter(a[1..], p)) + Filter(b, p);
      }
    }
  }

  /** Two elements that pass the filter appear in its result in the order
      they had. */
  lemma {:induction false} FilterKeepsOrder<T(!new)>(s: seq<T>, p: T -> bool, i: nat, j: nat)
    requires i < j < |s| && p(s[i]) && p(s[j])
    ensures var r := Filter(s, p);
      exists k, l :: 0 <= k < l < |r| && r[k] == s[i] && r[l] == s[j]
  {
    var front := Filter(s[..j], p);
    assert s == s[..j] + s[j..];
    FilterConcat(s[..j], s[j..], p);
    assert s[j..][0] == s[j];
    assert Filter(s[j..], p)[0] == s[j];
    FilterCount(s[..j], p);
    assert s[i] == s[..j][i];
    assert multiset(front)[s[i]] > 0;
    var k :| 0 <= k < |front| && front[k] == s[i];
    var r := Filter(s, p);
    assert r[k] == s[i] && r[|front|] == s[j];
  }

  /** A list whose every element passes is unchanged by the filter. */
  lemma {:induction false} FilterAll<T(!new)>(s: seq<T>, p: T -> bool)
    requires forall i :: 0 <= i < |s| ==> p(s[i])
    ensures Filter(s, p) == s
    decreases |s|
  {
    if s != [] {
      FilterAll(s[1..], p);
    }
  }

  /** `key` does not increase along `s`. */
  predicate SortedDesc<T>(s: seq<T>, key: T -> int) {
    forall i, j :: 0 <= i < j < |s| ==> key(s[i]) >= key(s[j])
  }

  /** Insert `x` before the first element whose key is not larger. */
  function InsertDesc<T>(x: T, t: seq<T>, key: T -> int): (r: seq<T>)
    ensures multiset(r) == multiset(t) + multiset{x}
    ensures |r| == |t| + 1
  {
    if t == [] || key(t[0]) <= key(x) then [x] + t
    else
      assert t == [t[0]] + t[1..];
      [t[0]] + InsertDesc(x, t[1..], key)
  }

  /** Inserting into a list sorted by descending key keeps it sorted. */
  lemma {:induction false} InsertDescSorted<T>(x: T, t: seq<T>, key: T -> int)
    requires SortedDesc(t, key)
    ensures SortedDesc(InsertDesc(x, t, key), key)
    decreases |t|
  {
    if t != [] && key(t[0]) > key(x) {
      var rest := InsertDesc(x, t[1..], key);
      InsertDescSorted(x, t[1..], key);
      forall i | 0 <= i < |rest| ensures key(rest[i]) <= key(t[0]) {
        assert rest[i] in multiset(rest);
        if rest[i] != x {
          assert rest[i] in multiset(t[1..]);
          var j :| 0 <= j < |t[1..]| && t[1..][j] == rest[i];
          assert t[j + 1] == rest[i];
        }
      }
    }
  }

  /** `s.sort((a, b) => key(b) - key(a))`: an insertion sort that keeps
      elements with equal keys in their original order. */
  function SortDesc<T>(s: seq<T>, key: T -> int): (r: seq<T>)
    ensures multiset(r) == multiset(s)
    ensures |r| == |s|
    ensures SortedDesc(r, key)
  {
    if s == [] then []
    else
      assert s == [s[0]] + s[1..];
      var sorted := SortDesc(s[1..], key);
      InsertDescSorted(s[0], sorted, key);
      InsertDesc(s[0], sorted, key)
  }

  /** The elements whose key is `k`. */
  function KeyIs<T>(key: T -> int, k: int): (T -> bool) {
    (x: T) => key(x) == k
  }

  /** Inserting `x` puts it after every element of `t` with its own key: the
      elements it passes all have a larger key. */
  lemma {:induction false} InsertDescStable<T(!new)>(x: T, t: seq<T>, key: T -> int, k: int)
    ensures Filter(InsertDesc(x, t, key), KeyIs(key, k))
      == Filter([x], KeyIs(key, k)) + Filter(t, KeyIs(key, k))
    decreases |t|
  {
    var p := KeyIs(key, k);
    if t == [] || key(t[0]) <= key(x) {
      FilterConcat([x], t, p);
    } else {
      InsertDescStable(x, t[1..], key, k);
      FilterConcat([t[0]], InsertDesc(x, t[1..], key), p);
      FilterConcat([t[0]], t[1..], p);
      assert t == [t[0]] + t[1..];
      assert Filter([t[0]], p) == [] || Filter([x], p) == [];
    }
  }

  /** The sort is stable: the elements with any one key come out in the
      order they had. */
  lemma {:induction false} SortDescStable<T(!new)>(s: seq<T>, key: T -> int, k: int)
    ensures Filter(SortDesc(s, key), KeyIs(key, k)) == Filter(s, KeyIs(key, k))
    decreases |s|
  {
    if s != [] {
      SortDescStable(s[1..], key, k);
      InsertDescStable(s[0], SortDesc(s[1..], key), key, k);
      FilterConcat([s[0]], s[1..], KeyIs(key, k));
      assert s == [s[0]] + s[1..];
    }
  }
}
