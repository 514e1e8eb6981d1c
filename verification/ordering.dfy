/** `sorted(named.items())` on the keyword arguments of a call: Python
    compares the pairs by their keys first, and the keys of a call are
    distinct, so the values never take part.  Strings compare code point by
    code point, a proper prefix coming first. */
module Ordering {

  /** `a < b` on Python strings. */
  predicate StrLess(a: string, b: string)
    decreases |a|
  {
    if a == [] then b != []
    else if b == [] then false
    else if a[0] != b[0] then a[0] < b[0]
    else StrLess(a[1..], b[1..])
  }

  lemma {:induction false} StrLessIrreflexive(a: string)
    ensures !StrLess(a, a)
    decreases |a|
  {
    if a != [] {
      StrLessIrreflexive(a[1..]);
    }
  }

  /** Two different strings are ordered one way or the other. */
  lemma {:induction false} StrLessTotal(a: string, b: string)
    requires a != b
    ensures StrLess(a, b) || StrLess(b, a)
    decreases |a|
  {
    if a != [] && b != [] && a[0] == b[0] {
      assert a == [a[0]] + a[1..] && b == [b[0]] + b[1..];
      StrLessTotal(a[1..], b[1..]);
    }
  }

  lemma {:induction false} StrLessTransitive(a: string, b: string, c: string)
    requires StrLess(a, b) && StrLess(b, c)
    ensures StrLess(a, c)
    decreases |a|
  {
    if a != [] && a[0] == b[0] && b[0] == c[0] {
      StrLessTransitive(a[1..], b[1..], c[1..]);
    }
  }

  /** Keyword arguments: a key and the value passed under it. */
  type Pair = (string, string)

  /** The keys of a call's keyword arguments are distinct. */
  predicate DistinctKeys(s: seq<Pair>) {
    forall i, j :: 0 <= i < j < |s| ==> s[i].0 != s[j].0
  }

  /** Strictly increasing keys. */
  predicate Sorted(s: seq<Pair>) {
    forall i, j :: 0 <= i < j < |s| ==> StrLess(s[i].0, s[j].0)
  }

  /** `x` placed in front of the first pair whose key is greater. */
  function Insert(x: Pair, s: seq<Pair>): (r: seq<Pair>)
    ensures multiset(r) == multiset(s) + multiset{x}
  {
    if s == [] then [x]
    else if StrLess(x.0, s[0].0) then [x] + s
    else
      assert s == [s[0]] + s[1..];
      [s[0]] + Insert(x, s[1..])
  }

  /** Insertion sort by key. */
  function SortByKey(s: seq<Pair>): (r: seq<Pair>)
    ensures multiset(r) == multiset(s)
  {
    if s == [] then []
    else
      assert s == [s[0]] + s[1..];
      Insert(s[0], SortByKey(s[1..]))
  }

  /** Every key of `s` is greater than `key`. */
  predicate Above(key: string, s: seq<Pair>) {
    forall i :: 0 <= i < |s| ==> StrLess(key, s[i].0)
  }

  lemma SortedTail(s: seq<Pair>)
    requires Sorted(s) && s != []
    ensures Sorted(s[1..]) && Above(s[0].0, s[1..])
  {
    forall i | 0 <= i < |s[1..]| ensures StrLess(s[0].0, s[1..][i].0) {
      assert s[1..][i] == s[i + 1];
    }
  }

  lemma ConsSorted(a: Pair, t: seq<Pair>)
    requires Sorted(t) && Above(a.0, t)
    ensures Sorted([a] + t)
  {
    var r := [a] + t;
    forall i, j | 0 <= i < j < |r| ensures StrLess(r[i].0, r[j].0) {
      if i == 0 {
        assert r[j] == t[j - 1];
      } else {
        assert r[i] == t[i - 1] && r[j] == t[j - 1];
      }
    }
  }

  /** Inserting a key above `key` keeps every key above it. */
  lemma {:induction false} InsertAbove(key: string, x: Pair, s: seq<Pair>)
    requires Above(key, s) && StrLess(key, x.0)
    ensures Above(key, Insert(x, s))
    decreases |s|
  {
    if s != [] && !StrLess(x.0, s[0].0) {
      assert Above(key, s[1..]) by {
        forall i | 0 <= i < |s[1..]| ensures StrLess(key, s[1..][i].0) {
          assert s[1..][i] == s[i + 1];
        }
      }
      var t := Insert(x, s[1..]);
      InsertAbove(key, x, s[1..]);
      assert Insert(x, s) == [s[0]] + t;
      forall i | 0 <= i < |t| + 1 ensures StrLess(key, ([s[0]] + t)[i].0) {
        if i > 0 {
          assert ([s[0]] + t)[i] == t[i - 1];
        }
      }
    }
  }

  lemma {:induction false} InsertSorted(x: Pair, s: seq<Pair>)
    requires Sorted(s)
    requires forall i :: 0 <= i < |s| ==> s[i].0 != x.0
    ensures Sorted(Insert(x, s))
    decreases |s|
  {
    if s != [] {
      if StrLess(x.0, s[0].0) {
        assert Above(x.0, s) by {
          forall i | 0 <= i < |s| ensures StrLess(x.0, s[i].0) {
            if i > 0 {
              StrLessTransitive(x.0, s[0].0, s[i].0);
            }
          }
        }
        ConsSorted(x, s);
      } else {
        StrLessTotal(x.0, s[0].0);
        SortedTail(s);
        InsertSorted(x, s[1..]);
        InsertAbove(s[0].0, x, s[1..]);
        ConsSorted(s[0], Insert(x, s[1..]));
      }
    }
  }

  /** With distinct keys the sort orders them strictly. */
  lemma {:induction false} SortSorted(s: seq<Pair>)
    requires DistinctKeys(s)
    ensures Sorted(SortByKey(s))
    decreases |s|
  {
    if s != [] {
      var t := SortByKey(s[1..]);
      SortSorted(s[1..]);
      forall i | 0 <= i < |t| ensures t[i].0 != s[0].0 {
        assert t[i] in multiset(s[1..]);
        var k :| 0 <= k < |s[1..]| && s[1..][k] == t[i];
        assert s[k + 1] == t[i];
      }
      InsertSorted(s[0], t);
    }
  }

  /** The least key of the same pairs comes first in either arrangement. */
  lemma SortedHeads(a: seq<Pair>, b: seq<Pair>)
    requires Sorted(a) && Sorted(b) && multiset(a) == multiset(b) && a != [] && b != []
    ensures a[0] == b[0]
  {
    if a[0] != b[0] {
      assert a[0] in multiset(b) && b[0] in multiset(a);
      var j :| 0 <= j < |b| && b[j] == a[0];
      var i :| 0 <= i < |a| && a[i] == b[0];
      StrLessTransitive(a[0].0, b[0].0, a[0].0);
      StrLessIrreflexive(a[0].0);
    }
  }

  lemma MultisetTails(a: seq<Pair>, b: seq<Pair>)
    requires a != [] && b != [] && a[0] == b[0] && multiset(a) == multiset(b)
    ensures multiset(a[1..]) == multiset(b[1..])
  {
    assert a == [a[0]] + a[1..] && b == [b[0]] + b[1..];
    assert multiset(a) == multiset{a[0]} + multiset(a[1..]);
    assert multiset(b) == multiset{b[0]} + multiset(b[1..]);
    assert multiset(a[1..]) == multiset(a) - multiset{a[0]};
    assert multiset(b[1..]) == multiset(b) - multiset{b[0]};
  }

  /** Two strictly sorted arrangements of the same pairs are the same. */
  lemma {:induction false} SortedUnique(a: seq<Pair>, b: seq<Pair>)
    requires Sorted(a) && Sorted(b) && multiset(a) == multiset(b)
    ensures a == b
    decreases |a|
  {
    assert |a| == |multiset(a)| == |multiset(b)| == |b|;
    if a != [] {
      SortedHeads(a, b);
      MultisetTails(a, b);
      SortedTail(a);
      SortedTail(b);
      SortedUnique(a[1..], b[1..]);
      assert a == [a[0]] + a[1..] && b == [b[0]] + b[1..];
    }
  }

  /** The order in which keyword arguments were passed does not show in
      the sorted pairs. */
  lemma SortIgnoresCallOrder(s: seq<Pair>, t: seq<Pair>)
    requires DistinctKeys(s) && DistinctKeys(t) && multiset(s) == multiset(t)
    ensures SortByKey(s) == SortByKey(t)
  {
    SortSorted(s);
    SortSorted(t);
    SortedUnique(SortByKey(s), SortByKey(t));
  }
}
