/**
 * A stable insertion sort by a two-part key. It stands for JavaScript's
 * `Array.prototype.sort` with a key comparator (which is stable) and for a
 * SQL `ORDER BY` on one or two columns over a table read in storage order.
 */
module Sorting {

  /** A sort key compared lexicographically: `major` first, then `minor`. */
  datatype Key = Key(major: int, minor: int)

  predicate KeyLe(a: Key, b: Key) {
    a.major < b.major || (a.major == b.major && a.minor <= b.minor)
  }

  predicate SortedBy<T>(s: seq<T>, key: T -> Key) {
    forall i, j :: 0 <= i < j < |s| ==> KeyLe(key(s[i]), key(s[j]))
  }

  /** Inserts `x` after every element whose key does not exceed its own. */
  function Insert<T>(x: T, s: seq<T>, key: T -> Key): (r: seq<T>)
    ensures |r| == |s| + 1
    ensures r[0] == x || (|s| > 0 && r[0] == s[0])
  {
    if |s| == 0 then [x]
    else if !KeyLe(key(s[0]), key(x)) then [x] + s
    else [s[0]] + Insert(x, s[1..], key)
  }

  /** Insertion into a sorted sequence keeps it sorted. */
  lemma {:induction false} InsertSorted<T>(x: T, s: seq<T>, key: T -> Key)
    requires SortedBy(s, key)
    ensures SortedBy(Insert(x, s, key), key)
  {
    if |s| == 0 {
    } else if !KeyLe(key(s[0]), key(x)) {
      PrependSorted(x, s, key);
    } else {
      var t := Insert(x, s[1..], key);
      assert SortedBy(s[1..], key) by {
        forall i, j | 0 <= i < j < |s| - 1 ensures KeyLe(key(s[1..][i]), key(s[1..][j])) {
          assert s[1..][i] == s[i + 1] && s[1..][j] == s[j + 1];
        }
      }
      InsertSorted(x, s[1..], key);
      assert KeyLe(key(s[0]), key(t[0])) by {
        if t[0] != x {
          assert t[0] == s[1];
        }
      }
      PrependSorted(s[0], t, key);
    }
  }

  /** Prepending an element no larger than the head keeps a sequence sorted. */
  lemma PrependSorted<T>(x: T, s: seq<T>, key: T -> Key)
    requires SortedBy(s, key)
    requires |s| > 0 ==> KeyLe(key(x), key(s[0]))
    ensures SortedBy([x] + s, key)
  {
    var r := [x] + s;
    forall i, j | 0 <= i < j < |r|
      ensures KeyLe(key(r[i]), key(r[j]))
    {
      if i == 0 {
        assert r[j] == s[j - 1];
        assert KeyLe(key(s[0]), key(s[j - 1]));
      } else {
        assert r[i] == s[i - 1] && r[j] == s[j - 1];
      }
    }
  }

  /** Stable sort: each element is inserted behind the ones that came before it. */
  function SortBy<T>(s: seq<T>, key: T -> Key): (r: seq<T>)
    ensures SortedBy(r, key)
    ensures |r| == |s|
  {
    if |s| == 0 then []
    else
      var p := SortBy(s[..|s| - 1], key);
      InsertSorted(s[|s| - 1], p, key);
      Insert(s[|s| - 1], p, key)
  }

  /** Insertion adds exactly `x`. */
  lemma {:induction false} InsertPermutes<T>(x: T, s: seq<T>, key: T -> Key)
    ensures multiset(Insert(x, s, key)) == multiset(s) + multiset{x}
  {
    if |s| > 0 && KeyLe(key(s[0]), key(x)) {
      InsertPermutes(x, s[1..], key);
      assert Insert(x, s, key) == [s[0]] + Insert(x, s[1..], key);
      assert s == [s[0]] + s[1..];
    }
  }

  /** Sorting is a permutation. */
  lemma {:induction false} SortByPermutes<T>(s: seq<T>, key: T -> Key)
    ensures multiset(SortBy(s, key)) == multiset(s)
  {
    if |s| > 0 {
      var p, x := s[..|s| - 1], s[|s| - 1];
      var sp := SortBy(p, key);
      assert SortBy(s, key) == Insert(x, sp, key);
      SortByPermutes(p, key);
      InsertPermutes(x, sp, key);
      assert s == p + [x];
      assert multiset(s) == multiset(p) + multiset{x};
    }
  }

  /** The elements of `s` whose key is `k`, in their original order. */
  function WithKey<T>(s: seq<T>, key: T -> Key, k: Key): seq<T> {
    if |s| == 0 then []
    else Keep(s[0], key, k) + WithKey(s[1..], key, k)
  }

  /** `[x]` when `x` has key `k`, otherwise nothing. */
  function Keep<T>(x: T, key: T -> Key, k: Key): seq<T> {
    if key(x) == k then [x] else []
  }

  /** Sum of `f` over the elements of `s`. */
  function SumOf<T>(s: seq<T>, f: T -> real): real {
    if |s| == 0 then 0.0 else f(s[0]) + SumOf(s[1..], f)
  }

  lemma {:induction false} WithKeyAppend<T>(a: seq<T>, b: seq<T>, key: T -> Key, k: Key)
    ensures WithKey(a + b, key, k) == WithKey(a, key, k) + WithKey(b, key, k)
  {
    if |a| > 0 {
      assert (a + b)[1..] == a[1..] + b;
      WithKeyAppend(a[1..], b, key, k);
    } else {
      assert a + b == b;
    }
  }

  lemma {:induction false} SumOfAppend<T>(a: seq<T>, b: seq<T>, f: T -> real)
    ensures SumOf(a + b, f) == SumOf(a, f) + SumOf(b, f)
  {
    if |a| > 0 {
      assert (a + b)[1..] == a[1..] + b;
      SumOfAppend(a[1..], b, f);
    } else {
      assert a + b == b;
    }
  }

  /** The sum over one element is its value. */
  lemma SumOfSingle<T>(x: T, f: T -> real)
    ensures SumOf([x], f) == f(x)
  {
    assert [x][1..] == [];
  }

  /** The sum splits off the last element. */
  lemma SumOfLast<T>(s: seq<T>, f: T -> real)
    requires |s| > 0
    ensures SumOf(s, f) == SumOf(s[..|s| - 1], f) + f(s[|s| - 1])
  {
    assert s == s[..|s| - 1] + [s[|s| - 1]];
    SumOfAppend(s[..|s| - 1], [s[|s| - 1]], f);
    SumOfSingle(s[|s| - 1], f);
  }

  /** Dropping the last element keeps a sequence sorted. */
  lemma SortedDropLast<T>(s: seq<T>, key: T -> Key)
    requires SortedBy(s, key) && |s| > 0
    ensures SortedBy(s[..|s| - 1], key)
  {
    var p := s[..|s| - 1];
    forall a, b | 0 <= a < b < |p| ensures KeyLe(key(p[a]), key(p[b])) {
      assert p[a] == s[a] && p[b] == s[b];
    }
  }

  lemma {:induction false} WithKeyNone<T>(s: seq<T>, key: T -> Key, k: Key)
    requires forall i :: 0 <= i < |s| ==> key(s[i]) != k
    ensures WithKey(s, key, k) == []
  {
    if |s| > 0 {
      WithKeyNone(s[1..], key, k);
    }
  }

  lemma {:induction false} SingletonWithKey<T>(x: T, key: T -> Key, k: Key)
    ensures WithKey([x], key, k) == Keep(x, key, k)
  {
    assert [x][1..] == [];
  }

  /** Every element of a sorted sequence is at least its head. */
  lemma HeadIsLeast<T>(s: seq<T>, key: T -> Key, i: int)
    requires SortedBy(s, key) && 0 <= i < |s|
    ensures KeyLe(key(s[0]), key(s[i]))
  {
    if i > 0 {
      assert KeyLe(key(s[0]), key(s[i]));
    }
  }

  /** Inserting `x` appends it to the elements that share its key. */
  lemma {:induction false} InsertWithKey<T>(x: T, s: seq<T>, key: T -> Key, k: Key)
    requires SortedBy(s, key)
    ensures WithKey(Insert(x, s, key), key, k) ==
            WithKey(s, key, k) + Keep(x, key, k)
  {
    if |s| == 0 {
      SingletonWithKey(x, key, k);
      assert Insert(x, s, key) == [x];
    } else if !KeyLe(key(s[0]), key(x)) {
      InsertWithKeyFront(x, s, key, k);
    } else {
      InsertWithKey(x, s[1..], key, k);
      InsertWithKeyStep(x, s, key, k);
    }
  }

  lemma {:induction false} InsertWithKeyFront<T>(x: T, s: seq<T>, key: T -> Key, k: Key)
    requires SortedBy(s, key) && |s| > 0 && !KeyLe(key(s[0]), key(x))
    ensures WithKey(Insert(x, s, key), key, k) ==
            WithKey(s, key, k) + Keep(x, key, k)
  {
    if key(x) == k {
      forall i | 0 <= i < |s|
        ensures key(s[i]) != k
      {
        HeadIsLeast(s, key, i);
      }
      WithKeyNone(s, key, k);
    }
    var r := Insert(x, s, key);
    assert r == [x] + s;
    assert r[1..] == s;
    assert WithKey(r, key, k) == Keep(x, key, k) + WithKey(s, key, k);
  }

  lemma {:induction false} InsertWithKeyStep<T>(x: T, s: seq<T>, key: T -> Key, k: Key)
    requires |s| > 0 && KeyLe(key(s[0]), key(x))
    requires WithKey(Insert(x, s[1..], key), key, k) == WithKey(s[1..], key, k) + Keep(x, key, k)
    ensures WithKey(Insert(x, s, key), key, k) == WithKey(s, key, k) + Keep(x, key, k)
  {
    var t := Insert(x, s[1..], key);
    assert Insert(x, s, key) == [s[0]] + t;
    var a := WithKey(s[1..], key, k);
    var tl := Keep(x, key, k);
    var h := Keep(s[0], key, k);
    ConsWithKey(s[0], t, key, k);
    assert WithKey(Insert(x, s, key), key, k) == h + (a + tl);
    assert s == [s[0]] + s[1..];
    ConsWithKey(s[0], s[1..], key, k);
    assert WithKey(s, key, k) == h + a;
    assert h + (a + tl) == (h + a) + tl;
  }

  lemma {:induction false} ConsWithKey<T>(y: T, t: seq<T>, key: T -> Key, k: Key)
    ensures WithKey([y] + t, key, k) == Keep(y, key, k) + WithKey(t, key, k)
  {
    assert ([y] + t)[1..] == t;
  }

  /** Stability: the elements sharing a key keep their relative order. */
  lemma {:induction false} SortByStable<T>(s: seq<T>, key: T -> Key, k: Key)
    ensures WithKey(SortBy(s, key), key, k) == WithKey(s, key, k)
  {
    if |s| > 0 {
      var p, x := s[..|s| - 1], s[|s| - 1];
      var sp := SortBy(p, key);
      assert SortBy(s, key) == Insert(x, sp, key);
      SortByStable(p, key, k);
      InsertWithKey(x, sp, key, k);
      assert s == p + [x];
      WithKeyAppend(p, [x], key, k);
      SingletonWithKey(x, key, k);
    }
  }

  lemma {:induction false} InsertAtEnd<T>(x: T, s: seq<T>, key: T -> Key)
    requires SortedBy(s, key)
    requires forall i :: 0 <= i < |s| ==> KeyLe(key(s[i]), key(x))
    ensures Insert(x, s, key) == s + [x]
  {
    if |s| > 0 {
      InsertAtEnd(x, s[1..], key);
      assert s == [s[0]] + s[1..];
    }
  }

  /** Sorting an already sorted sequence changes nothing. */
  lemma {:induction false} SortBySorted<T>(s: seq<T>, key: T -> Key)
    requires SortedBy(s, key)
    ensures SortBy(s, key) == s
  {
    if |s| > 0 {
      var p, x := s[..|s| - 1], s[|s| - 1];
      assert SortedBy(p, key) by {
        forall i, j | 0 <= i < j < |p| ensures KeyLe(key(p[i]), key(p[j])) {
          assert p[i] == s[i] && p[j] == s[j];
        }
      }
      SortBySorted(p, key);
      assert SortBy(s, key) == Insert(x, p, key);
      forall i | 0 <= i < |p| ensures KeyLe(key(p[i]), key(x)) {
        assert p[i] == s[i];
      }
      InsertAtEnd(x, p, key);
      assert s == p + [x];
    }
  }

  lemma {:induction false} InsertSum<T>(x: T, s: seq<T>, key: T -> Key, f: T -> real)
    requires SortedBy(s, key)
    ensures SumOf(Insert(x, s, key), f) == SumOf(s, f) + f(x)
  {
    if |s| > 0 && KeyLe(key(s[0]), key(x)) {
      InsertSum(x, s[1..], key, f);
      assert Insert(x, s, key) == [s[0]] + Insert(x, s[1..], key);
    }
  }

  /** A sum does not depend on the order in which it is taken. */
  lemma {:induction false} SortBySum<T>(s: seq<T>, key: T -> Key, f: T -> real)
    ensures SumOf(SortBy(s, key), f) == SumOf(s, f)
  {
    if |s| > 0 {
      var p, x := s[..|s| - 1], s[|s| - 1];
      SortBySum(p, key, f);
      InsertSum(x, SortBy(p, key), key, f);
      assert s == p + [x];
      SumOfAppend(p, [x], f);
    }
  }

  /** Sorting keeps exactly the elements it was given. */
  lemma {:induction false} SortByMember<T>(s: seq<T>, key: T -> Key, x: T)
    ensures x in SortBy(s, key) <==> x in s
  {
    SortByPermutes(s, key);
    assert x in multiset(SortBy(s, key)) <==> x in multiset(s);
  }

  lemma {:induction false} InsertMember<T>(x: T, s: seq<T>, key: T -> Key, y: T)
    ensures y in Insert(x, s, key) <==> y == x || y in s
  {
    InsertPermutes(x, s, key);
    assert y in multiset(Insert(x, s, key)) <==> y in multiset(s) + multiset{x};
  }

  predicate DistinctKeys<T>(s: seq<T>, key: T -> Key) {
    forall i, j :: 0 <= i < j < |s| ==> key(s[i]) != key(s[j])
  }

  /** Inserting an element with a fresh key keeps the keys distinct. */
  lemma {:induction false} InsertDistinct<T>(x: T, s: seq<T>, key: T -> Key)
    requires DistinctKeys(s, key)
    requires forall i :: 0 <= i < |s| ==> key(s[i]) != key(x)
    ensures DistinctKeys(Insert(x, s, key), key)
  {
    if |s| == 0 {
    } else if !KeyLe(key(s[0]), key(x)) {
      var r := [x] + s;
      forall i, j | 0 <= i < j < |r| ensures key(r[i]) != key(r[j]) {
        if i > 0 {
          assert r[i] == s[i - 1] && r[j] == s[j - 1];
        }
      }
    } else {
      var t := Insert(x, s[1..], key);
      assert DistinctKeys(s[1..], key) by {
        forall i, j | 0 <= i < j < |s| - 1 ensures key(s[1..][i]) != key(s[1..][j]) {
          assert s[1..][i] == s[i + 1] && s[1..][j] == s[j + 1];
        }
      }
      InsertDistinct(x, s[1..], key);
      var r := [s[0]] + t;
      forall i, j | 0 <= i < j < |r| ensures key(r[i]) != key(r[j]) {
        if i == 0 {
          assert r[j] in t;
          InsertMember(x, s[1..], key, r[j]);
          if r[j] != x {
            assert r[j] in s[1..];
            var m :| 0 <= m < |s[1..]| && s[1..][m] == r[j];
            assert s[m + 1] == r[j];
          }
        } else {
          assert r[i] == t[i - 1] && r[j] == t[j - 1];
        }
      }
    }
  }

  /** Sorting keeps the keys distinct when they were. */
  lemma {:induction false} SortByDistinct<T>(s: seq<T>, key: T -> Key)
    requires DistinctKeys(s, key)
    ensures DistinctKeys(SortBy(s, key), key)
  {
    if |s| > 0 {
      var p, x := s[..|s| - 1], s[|s| - 1];
      assert DistinctKeys(p, key) by {
        forall i, j | 0 <= i < j < |p| ensures key(p[i]) != key(p[j]) {
          assert p[i] == s[i] && p[j] == s[j];
        }
      }
      SortByDistinct(p, key);
      var sp := SortBy(p, key);
      forall i | 0 <= i < |sp| ensures key(sp[i]) != key(x) {
        SortByMember(p, key, sp[i]);
        assert sp[i] in p;
        var m :| 0 <= m < |p| && p[m] == sp[i];
        assert s[m] == sp[i];
      }
      InsertDistinct(x, sp, key);
      assert SortBy(s, key) == Insert(x, sp, key);
    }
  }
  /** In a sorted sequence with distinct keys only the head has the least key. */
  lemma HeadIsOnlyLeast<T>(a: seq<T>, key: T -> Key, n: int)
    requires SortedBy(a, key) && DistinctKeys(a, key)
    requires 0 <= n < |a| && KeyLe(key(a[n]), key(a[0]))
    ensures n == 0
  {
  }

  /** Two sorted arrangements of the same elements coincide when no two
    * elements share a key. */
  lemma {:induction false} SortedUnique<T>(a: seq<T>, b: seq<T>, key: T -> Key)
    requires SortedBy(a, key) && SortedBy(b, key) && DistinctKeys(a, key)
    requires multiset(a) == multiset(b)
    ensures a == b
    decreases |a|
  {
    assert |a| == |multiset(a)| == |multiset(b)| == |b|;
    if |a| > 0 {
      SameHead(a, b, key);
      TailMultiset(a);
      TailMultiset(b);
      SortedTail(a, key);
      SortedTail(b, key);
      SortedUnique(a[1..], b[1..], key);
      assert a == [a[0]] + a[1..] && b == [b[0]] + b[1..];
    }
  }

  /** Sorted arrangements of the same elements with distinct keys start alike. */
  lemma SameHead<T>(a: seq<T>, b: seq<T>, key: T -> Key)
    requires SortedBy(a, key) && SortedBy(b, key) && DistinctKeys(a, key)
    requires multiset(a) == multiset(b) && |a| > 0 && |b| > 0
    ensures a[0] == b[0]
  {
    assert a[0] in multiset(b) && b[0] in multiset(a);
    var m :| 0 <= m < |b| && b[m] == a[0];
    var n :| 0 <= n < |a| && a[n] == b[0];
    if m > 0 {
      assert KeyLe(key(b[0]), key(b[m]));
    }
    HeadIsOnlyLeast(a, key, n);
  }

  lemma TailMultiset<T>(a: seq<T>)
    requires |a| > 0
    ensures multiset(a[1..]) == multiset(a) - multiset{a[0]}
  {
    assert a == [a[0]] + a[1..];
  }

  /** Dropping the head keeps a sequence sorted and its keys distinct. */
  lemma SortedTail<T>(a: seq<T>, key: T -> Key)
    requires |a| > 0 && SortedBy(a, key)
    ensures SortedBy(a[1..], key)
    ensures DistinctKeys(a, key) ==> DistinctKeys(a[1..], key)
  {
    forall i, j | 0 <= i < j < |a| - 1 ensures KeyLe(key(a[1..][i]), key(a[1..][j])) {
      assert a[1..][i] == a[i + 1] && a[1..][j] == a[j + 1];
    }
    if DistinctKeys(a, key) {
      forall i, j | 0 <= i < j < |a| - 1 ensures key(a[1..][i]) != key(a[1..][j]) {
        assert a[1..][i] == a[i + 1] && a[1..][j] == a[j + 1];
      }
    }
  }

  /** With distinct keys the sorted order does not depend on the order the
    * elements arrived in. */
  lemma {:induction false} SortByCanonical<T>(s1: seq<T>, s2: seq<T>, key: T -> Key)
    requires multiset(s1) == multiset(s2) && DistinctKeys(s1, key)
    ensures SortBy(s1, key) == SortBy(s2, key)
  {
    SortByPermutes(s1, key);
    SortByPermutes(s2, key);
    SortByDistinct(s1, key);
    SortedUnique(SortBy(s1, key), SortBy(s2, key), key);
  }
}
