/** The array operations the site's code relies on — `map`, `filter`, `indexOf` and the stable
    `Array.prototype.sort` with a numeric comparator — as functions on sequences, with the
    facts the rest of the model needs about them. */
module Seqs {

  /** `s.map(f)`. */
  function MapSeq<T, U>(s: seq<T>, f: T -> U): (r: seq<U>)
    ensures |r| == |s| && forall i :: 0 <= i < |s| ==> r[i] == f(s[i])
  {
    seq(|s|, i requires 0 <= i < |s| => f(s[i]))
  }

  /** `s.filter(p)`: the elements satisfying `p`, in their original order. */
  function Filter<T>(s: seq<T>, p: T -> bool): (r: seq<T>)
    ensures |r| <= |s|
    ensures forall x :: x in r ==> x in s && p(x)
    decreases |s|
  {
    if s == [] then []
    else if p(s[0]) then [s[0]] + Filter(s[1..], p)
    else Filter(s[1..], p)
  }

  /** Two permutations of each other stay permutations once the first element of one and an
      equal element of the other are taken out. */
  lemma RemoveMatching<T>(s: seq<T>, t: seq<T>, k: int)
    requires multiset(s) == multiset(t) && s != [] && 0 <= k < |t| && t[k] == s[0]
    ensures multiset(s[1..]) == multiset(t[..k] + t[k + 1..])
  {
    var a, b := s[1..], t[..k] + t[k + 1..];
    assert s == [s[0]] + a;
    assert multiset(s) == multiset{s[0]} + multiset(a);
    assert t == t[..k] + ([t[k]] + t[k + 1..]);
    assert multiset(t) == multiset(t[..k]) + multiset{t[k]} + multiset(t[k + 1..]);
    assert multiset(b) == multiset(t[..k]) + multiset(t[k + 1..]);
    forall x ensures multiset(a)[x] == multiset(b)[x] {
      assert multiset(s)[x] == multiset(t)[x];
    }
  }

  /** Filtering keeps exactly the elements satisfying the predicate, each as often as in `s`. */
  lemma {:induction false} FilterCount<T>(s: seq<T>, p: T -> bool, x: T)
    ensures multiset(Filter(s, p))[x] == if p(x) then multiset(s)[x] else 0
    decreases |s|
  {
    if s != [] {
      FilterCount(s[1..], p, x);
      assert s == [s[0]] + s[1..];
    }
  }

  lemma FilterMembership<T>(s: seq<T>, p: T -> bool, x: T)
    ensures x in Filter(s, p) <==> x in s && p(x)
  {
    FilterCount(s, p, x);
  }

  /** Filtering distributes over concatenation: the relative order of the kept elements is the
      order they had in `s`. */
  lemma {:induction false} FilterConcat<T>(a: seq<T>, b: seq<T>, p: T -> bool)
    ensures Filter(a + b, p) == Filter(a, p) + Filter(b, p)
    decreases |a|
  {
    if a == [] {
      assert a + b == b;
    } else {
      assert (a + b)[1..] == a[1..] + b;
      FilterConcat(a[1..], b, p);
    }
  }

  /** Filtering with a predicate that holds of every element changes nothing. */
  lemma {:induction false} FilterAll<T>(s: seq<T>, p: T -> bool)
    requires forall i :: 0 <= i < |s| ==> p(s[i])
    ensures Filter(s, p) == s
    decreases |s|
  {
    if s != [] {
      FilterAll(s[1..], p);
    }
  }

  /** `s.indexOf(x)`: the first position of `x`, or -1 when it does not occur. */
  function IndexOf<T(==)>(s: seq<T>, x: T): (r: int)
    ensures -1 <= r && (r == -1 <==> x !in s)
    ensures 0 <= r ==> r < |s| && s[r] == x && x !in s[..r]
    decreases |s|
  {
    if s == [] then -1
    else if s[0] == x then 0
    else
      assert x in s <==> x in s[1..] by {
        assert s == [s[0]] + s[1..];
      }
      var k := IndexOf(s[1..], x);
      assert 0 <= k ==> s[..k + 1] == [s[0]] + s[1..][..k];
      if k == -1 then -1 else k + 1
  }

  /** No value occurs twice. */
  predicate NoDuplicates<T(==)>(s: seq<T>) {
    forall i, j :: 0 <= i < j < |s| ==> s[i] != s[j]
  }

  /** A sequence has no duplicates exactly when no value is counted twice. */
  lemma {:induction false} NoDuplicatesByCount<T>(s: seq<T>)
    ensures NoDuplicates(s) <==> forall x :: multiset(s)[x] <= 1
    decreases |s|
  {
    if s != [] {
      NoDuplicatesByCount(s[1..]);
      assert s == [s[0]] + s[1..];
      if NoDuplicates(s) {
        assert s[0] !in s[1..];
      }
      if forall x :: multiset(s)[x] <= 1 {
        assert multiset(s)[s[0]] == 1 + multiset(s[1..])[s[0]];
        assert forall x :: multiset(s[1..])[x] <= multiset(s)[x];
      }
    }
  }

  /** A permutation of a duplicate-free sequence is duplicate-free. */
  lemma NoDuplicatesPermutation<T>(s: seq<T>, t: seq<T>)
    requires NoDuplicates(s) && multiset(s) == multiset(t)
    ensures NoDuplicates(t)
  {
    NoDuplicatesByCount(s);
    NoDuplicatesByCount(t);
  }

  /** In a sequence without duplicates, `indexOf` finds every element at its own position. */
  lemma IndexOfDistinct<T>(s: seq<T>, i: int)
    requires NoDuplicates(s) && 0 <= i < |s|
    ensures IndexOf(s, s[i]) == i
  {
    var k := IndexOf(s, s[i]);
    assert s[i] in s;
    assert s[k] == s[i];
    assert forall j :: 0 <= j < k ==> s[..k][j] == s[j];
  }

  /** The key comparison order of `sort((a, b) => key(a) - key(b))`. */
  ghost predicate SortedBy<T>(s: seq<T>, key: T -> int) {
    forall i, j :: 0 <= i < j < |s| ==> key(s[i]) <= key(s[j])
  }

  /** Holds of exactly the elements whose key is `k`. */
  function KeyIs<T>(key: T -> int, k: int): T -> bool {
    x => key(x) == k
  }

  /** Inserts `x` before the first element whose key is not smaller than its own. */
  function Insert<T>(x: T, t: seq<T>, key: T -> int): seq<T>
    decreases |t|
  {
    if t == [] || key(x) <= key(t[0]) then [x] + t
    else [t[0]] + Insert(x, t[1..], key)
  }

  /** `s.slice().sort((a, b) => key(a) - key(b))`, a stable sort (as the language requires
      since ECMAScript 2019), written as insertion sort. */
  function SortBy<T>(s: seq<T>, key: T -> int): seq<T>
    decreases |s|
  {
    if s == [] then [] else Insert(s[0], SortBy(s[1..], key), key)
  }

  lemma {:induction false} InsertPermutation<T>(x: T, t: seq<T>, key: T -> int)
    ensures multiset(Insert(x, t, key)) == multiset(t) + multiset{x}
    decreases |t|
  {
    if !(t == [] || key(x) <= key(t[0])) {
      InsertPermutation(x, t[1..], key);
      assert t == [t[0]] + t[1..];
    }
  }

  lemma {:induction false} InsertSorted<T>(x: T, t: seq<T>, key: T -> int)
    requires SortedBy(t, key)
    ensures SortedBy(Insert(x, t, key), key)
    decreases |t|
  {
    if !(t == [] || key(x) <= key(t[0])) {
      InsertSorted(x, t[1..], key);
      InsertPermutation(x, t[1..], key);
      var r := Insert(x, t[1..], key);
      forall y | y in r ensures key(t[0]) <= key(y) {
        assert y in multiset(r);
        if y != x {
          assert y in multiset(t[1..]);
        }
      }
    }
  }

  /** Inserting `x` adds it to the elements of its key and leaves the order among the others. */
  lemma {:induction false} InsertStable<T>(x: T, t: seq<T>, key: T -> int, k: int)
    ensures Filter(Insert(x, t, key), KeyIs(key, k))
         == if key(x) == k then [x] + Filter(t, KeyIs(key, k)) else Filter(t, KeyIs(key, k))
    decreases |t|
  {
    if !(t == [] || key(x) <= key(t[0])) {
      InsertStable(x, t[1..], key, k);
      assert ([t[0]] + Insert(x, t[1..], key))[1..] == Insert(x, t[1..], key);
    } else {
      assert ([x] + t)[1..] == t;
    }
  }

  /** The sort returns a permutation of its input. */
  lemma {:induction false} SortByPermutation<T>(s: seq<T>, key: T -> int)
    ensures multiset(SortBy(s, key)) == multiset(s)
    decreases |s|
  {
    if s != [] {
      SortByPermutation(s[1..], key);
      InsertPermutation(s[0], SortBy(s[1..], key), key);
      assert s == [s[0]] + s[1..];
    }
  }

  /** The sort returns its input in non-decreasing key order. */
  lemma {:induction false} SortBySorted<T>(s: seq<T>, key: T -> int)
    ensures SortedBy(SortBy(s, key), key)
    decreases |s|
  {
    if s != [] {
      SortBySorted(s[1..], key);
      InsertSorted(s[0], SortBy(s[1..], key), key);
    }
  }

  /** The sort is stable: elements with equal keys keep their input order. */
  lemma {:induction false} SortByStable<T>(s: seq<T>, key: T -> int, k: int)
    ensures Filter(SortBy(s, key), KeyIs(key, k)) == Filter(s, KeyIs(key, k))
    decreases |s|
  {
    if s != [] {
      SortByStable(s[1..], key, k);
      InsertStable(s[0], SortBy(s[1..], key), key, k);
    }
  }

  lemma SortByLength<T>(s: seq<T>, key: T -> int)
    ensures |SortBy(s, key)| == |s|
  {
    SortByPermutation(s, key);
    assert |multiset(SortBy(s, key))| == |multiset(s)|;
  }

  /** Sorting `f + [g]` where `g` has a larger key than every element of `f` puts `g` last. */
  lemma GreatestKeyLast<T>(f: seq<T>, g: T, s: seq<T>, key: T -> int)
    requires SortedBy(s, key) && multiset(s) == multiset(f + [g])
    requires forall x :: x in f ==> key(x) < key(g)
    ensures |s| == |f| + 1 && s[|f|] == g
  {
    assert |s| == |f| + 1 by {
      assert |multiset(s)| == |multiset(f + [g])|;
    }
    var n := |f|;
    assert g in s by {
      assert g in multiset(f + [g]);
    }
    var p :| 0 <= p < |s| && s[p] == g;
    assert key(g) <= key(s[n]);
    assert s[n] !in f;
    assert s[n] in multiset(f) + multiset{g} by {
      assert s[n] in multiset(s);
      assert multiset(f + [g]) == multiset(f) + multiset{g};
    }
  }

  /** A subsequence chosen by `filter` of a sorted sequence is sorted. */
  lemma {:induction false} FilterSorted<T>(s: seq<T>, p: T -> bool, key: T -> int)
    requires SortedBy(s, key)
    ensures SortedBy(Filter(s, p), key)
    decreases |s|
  {
    if s != [] {
      FilterSorted(s[1..], p, key);
      if p(s[0]) {
        var r := Filter(s[1..], p);
        forall y | y in r ensures key(s[0]) <= key(y) {
          var j :| 0 <= j < |s[1..]| && s[1..][j] == y;
          assert s[j + 1] == y;
        }
      }
    }
  }

  /** A strictly increasing run of `|s|` keys drawn from `[0, |s|)` is exactly `0, 1, …`. */
  lemma KeysAreIndices<T>(s: seq<T>, key: T -> int)
    requires forall i, j :: 0 <= i < j < |s| ==> key(s[i]) < key(s[j])
    requires forall i :: 0 <= i < |s| ==> 0 <= key(s[i]) < |s|
    ensures forall i :: 0 <= i < |s| ==> key(s[i]) == i
  {
    forall i | 0 <= i < |s| ensures key(s[i]) == i {
      AtLeastIndex(s, key, i);
      AtMostIndex(s, key, i);
    }
  }

  lemma {:induction false} AtLeastIndex<T>(s: seq<T>, key: T -> int, i: int)
    requires forall i, j :: 0 <= i < j < |s| ==> key(s[i]) < key(s[j])
    requires forall i :: 0 <= i < |s| ==> 0 <= key(s[i])
    requires 0 <= i < |s|
    ensures key(s[i]) >= i
    decreases i
  {
    if i > 0 {
      AtLeastIndex(s, key, i - 1);
    }
  }

  lemma {:induction false} AtMostIndex<T>(s: seq<T>, key: T -> int, i: int)
    requires forall i, j :: 0 <= i < j < |s| ==> key(s[i]) < key(s[j])
    requires forall i :: 0 <= i < |s| ==> key(s[i]) < |s|
    requires 0 <= i < |s|
    ensures key(s[i]) <= i
    decreases |s| - i
  {
    if i < |s| - 1 {
      AtMostIndex(s, key, i + 1);
    }
  }
}
