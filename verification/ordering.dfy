/** Sorting by a numeric key, as `Array.prototype.sort` does with the comparator
    `(a, b) => key(a) - key(b)`. JavaScript's sort is stable: elements with equal
    keys keep their relative order. */
module Ordering {

  /** Keys never decrease along `s`. */
  predicate SortedBy<T>(s: seq<T>, key: T -> int) {
    forall i, j :: 0 <= i < j < |s| ==> key(s[i]) <= key(s[j])
  }

  /** The elements of `s` whose key is `k`, in their order in `s`. */
  function WithKey<T>(s: seq<T>, key: T -> int, k: int): seq<T> {
    if s == [] then [] else (if key(s[0]) == k then [s[0]] else []) + WithKey(s[1..], key, k)
  }

  /** Inserts `x` into `s` after every element whose key is not greater than its own. */
  function Insert<T>(x: T, s: seq<T>, key: T -> int): (r: seq<T>)
    ensures |r| == |s| + 1
    ensures multiset(r) == multiset(s) + multiset{x}
  {
    if s == [] then [x]
    else if key(x) < key(s[0]) then [x] + s
    else
      assert s == [s[0]] + s[1..];
      [s[0]] + Insert(x, s[1..], key)
  }

  /** A lower bound on the keys of `s` and of `x` bounds the keys after insertion. */
  lemma {:induction false} InsertBounded<T>(x: T, s: seq<T>, key: T -> int, m: int)
    requires key(x) >= m
    requires forall i :: 0 <= i < |s| ==> key(s[i]) >= m
    ensures forall i :: 0 <= i < |Insert(x, s, key)| ==> key(Insert(x, s, key)[i]) >= m
    decreases |s|
  {
    if s != [] && key(x) >= key(s[0]) {
      InsertBounded(x, s[1..], key, m);
      var r := Insert(x, s, key);
      assert r[1..] == Insert(x, s[1..], key);
      forall i | 0 < i < |r| ensures key(r[i]) >= m {
        assert r[i] == r[1..][i - 1];
      }
    }
  }

  /** Insertion keeps a sorted sequence sorted. */
  lemma {:induction false} InsertSorted<T>(x: T, s: seq<T>, key: T -> int)
    requires SortedBy(s, key)
    ensures SortedBy(Insert(x, s, key), key)
    decreases |s|
  {
    var r := Insert(x, s, key);
    if s == [] {
      assert r == [x];
    } else if key(x) < key(s[0]) {
      assert r == [x] + s;
      forall i, j | 0 <= i < j < |r| ensures key(r[i]) <= key(r[j]) {
        assert r[j] == s[j - 1];
        if i > 0 {
          assert r[i] == s[i - 1];
        }
      }
    } else {
      var rest := Insert(x, s[1..], key);
      InsertSorted(x, s[1..], key);
      InsertBounded(x, s[1..], key, key(s[0]));
      assert r == [s[0]] + rest;
      forall i, j | 0 <= i < j < |r| ensures key(r[i]) <= key(r[j]) {
        assert r[j] == rest[j - 1];
        if i > 0 {
          assert r[i] == rest[i - 1];
        }
      }
    }
  }

  /** The sorted rearrangement of `s`: the same elements, keys ascending. */
  function SortBy<T>(s: seq<T>, key: T -> int): (r: seq<T>)
    ensures |r| == |s|
    ensures multiset(r) == multiset(s)
    ensures SortedBy(r, key)
  {
    if s == [] then []
    else
      var front := s[..|s| - 1];
      assert s == front + [s[|s| - 1]];
      var sorted := SortBy(front, key);
      InsertSorted(s[|s| - 1], sorted, key);
      Insert(s[|s| - 1], sorted, key)
  }

  /** The sort neither adds nor drops elements. */
  lemma SortByMembers<T>(s: seq<T>, key: T -> int)
    ensures forall x :: x in SortBy(s, key) <==> x in s
  {
    var r := SortBy(s, key);
    forall x ensures x in r <==> x in s {
      assert x in r <==> x in multiset(r);
      assert x in s <==> x in multiset(s);
    }
  }

  lemma {:induction false} WithKeyAppend<T>(a: seq<T>, b: seq<T>, key: T -> int, k: int)
    ensures WithKey(a + b, key, k) == WithKey(a, key, k) + WithKey(b, key, k)
    decreases |a|
  {
    if a == [] {
      assert a + b == b;
    } else {
      var ab, head := a + b, if key(a[0]) == k then [a[0]] else [];
      assert ab[0] == a[0] && ab[1..] == a[1..] + b;
      WithKeyAppend(a[1..], b, key, k);
      AppendAssociative(head, WithKey(a[1..], key, k), WithKey(b, key, k));
    }
  }

  lemma {:induction false} NoneWithKey<T>(s: seq<T>, key: T -> int, k: int)
    requires forall i :: 0 <= i < |s| ==> key(s[i]) > k
    ensures WithKey(s, key, k) == []
    decreases |s|
  {
    if s != [] {
      NoneWithKey(s[1..], key, k);
    }
  }

  /** The tail of a sorted sequence is sorted. */
  lemma SortedTail<T>(s: seq<T>, key: T -> int)
    requires s != [] && SortedBy(s, key)
    ensures SortedBy(s[1..], key)
  {
    forall i, j | 0 <= i < j < |s| - 1 ensures key(s[1..][i]) <= key(s[1..][j]) {
      assert s[1..][i] == s[i + 1] && s[1..][j] == s[j + 1];
    }
  }

  /** The first element of a sorted sequence has the least key. */
  lemma SortedHead<T>(s: seq<T>, key: T -> int)
    requires s != [] && SortedBy(s, key)
    ensures forall i :: 0 <= i < |s| ==> key(s[0]) <= key(s[i])
  {
    forall i | 0 < i < |s| ensures key(s[0]) <= key(s[i]) {
    }
  }

  /** Concatenation is associative. */
  lemma AppendAssociative<T>(a: seq<T>, b: seq<T>, c: seq<T>)
    ensures a + (b + c) == (a + b) + c
  {
    assert |a + (b + c)| == |(a + b) + c|;
    forall i | 0 <= i < |a + (b + c)| ensures (a + (b + c))[i] == ((a + b) + c)[i] {
    }
  }

  /** One step of `WithKey`. */
  lemma WithKeyCons<T>(x: T, s: seq<T>, key: T -> int, k: int)
    ensures WithKey([x] + s, key, k) == (if key(x) == k then [x] else []) + WithKey(s, key, k)
  {
    var xs := [x] + s;
    assert xs[0] == x && xs[1..] == s;
  }

  /** Inserting into a sorted sequence puts `x` after every element with its key. */
  lemma {:induction false} InsertKeepsTies<T>(x: T, s: seq<T>, key: T -> int, k: int)
    requires SortedBy(s, key)
    ensures WithKey(Insert(x, s, key), key, k) == WithKey(s, key, k) + (if key(x) == k then [x] else [])
    decreases |s|
  {
    if s == [] {
      WithKeySingle(x, key, k);
    } else if key(x) < key(s[0]) {
      assert Insert(x, s, key) == [x] + s;
      WithKeyCons(x, s, key, k);
      if key(x) == k {
        SortedHead(s, key);
        NoneWithKey(s, key, k);
      }
    } else {
      var rest := Insert(x, s[1..], key);
      var head := if key(s[0]) == k then [s[0]] else [];
      var tie := if key(x) == k then [x] else [];
      assert Insert(x, s, key) == [s[0]] + rest;
      assert s == [s[0]] + s[1..];
      SortedTail(s, key);
      InsertKeepsTies(x, s[1..], key, k);
      WithKeyCons(s[0], rest, key, k);
      WithKeyCons(s[0], s[1..], key, k);
      calc {
        WithKey(Insert(x, s, key), key, k);
        head + WithKey(rest, key, k);
        head + (WithKey(s[1..], key, k) + tie);
        { AppendAssociative(head, WithKey(s[1..], key, k), tie); }
        (head + WithKey(s[1..], key, k)) + tie;
        WithKey(s, key, k) + tie;
      }
    }
  }

  /** One step of `SortBy`: sort all but the last element, then insert the last. */
  lemma SortBySnoc<T>(s: seq<T>, key: T -> int)
    requires s != []
    ensures SortBy(s, key) == Insert(s[|s| - 1], SortBy(s[..|s| - 1], key), key)
  {
  }

  /** The sort is stable: for every key, the elements carrying it appear in the
      result in the same order as in the input. */
  lemma {:induction false} SortByIsStable<T>(s: seq<T>, key: T -> int, k: int)
    ensures WithKey(SortBy(s, key), key, k) == WithKey(s, key, k)
    decreases |s|
  {
    if s != [] {
      var front, last := s[..|s| - 1], s[|s| - 1];
      var sorted := SortBy(front, key);
      SortBySnoc(s, key);
      SortByIsStable(front, key, k);
      InsertKeepsTies(last, sorted, key, k);
      SplitLast(s);
      WithKeyAppend(front, [last], key, k);
      WithKeySingle(last, key, k);
      calc {
        WithKey(SortBy(s, key), key, k);
        WithKey(Insert(last, sorted, key), key, k);
        WithKey(sorted, key, k) + WithKey([last], key, k);
        WithKey(front, key, k) + WithKey([last], key, k);
        WithKey(s, key, k);
      }
    }
  }

  /** A non-empty sequence is its front followed by its last element. */
  lemma SplitLast<T>(s: seq<T>)
    requires s != []
    ensures s == s[..|s| - 1] + [s[|s| - 1]]
  {
    var t := s[..|s| - 1] + [s[|s| - 1]];
    assert |t| == |s|;
    forall i | 0 <= i < |s| ensures t[i] == s[i] {
    }
  }

  lemma WithKeySingle<T>(x: T, key: T -> int, k: int)
    ensures WithKey([x], key, k) == if key(x) == k then [x] else []
  {
    assert [x][1..] == [];
  }
}
