/** A stable sort by an integer key, the behaviour `Array.prototype.sort`
    promises for a consistent comparator, written as an insertion sort, with
    the facts that pin it down: the output is sorted, a permutation of the
    input, and keeps the input order among elements with equal keys; and any
    sequence with those properties is this one. */
module StableSort {

  /** Inserts `x` after every element whose key is not larger than its own. */
  function Insert<T>(s: seq<T>, x: T, key: T -> int): seq<T> {
    if |s| == 0 then [x]
    else if key(x) < key(s[0]) then [x] + s
    else [s[0]] + Insert(s[1..], x, key)
  }

  /** Inserts the elements left to right, so that ties keep their input order. */
  function Sort<T>(s: seq<T>, key: T -> int): seq<T> {
    if |s| == 0 then []
    else Insert(Sort(s[..|s| - 1], key), s[|s| - 1], key)
  }

  ghost predicate Sorted<T>(s: seq<T>, key: T -> int) {
    forall i, j :: 0 <= i < j < |s| ==> key(s[i]) <= key(s[j])
  }

  /** The elements of `s` whose key is `k`, in order. */
  function WithKey<T>(s: seq<T>, key: T -> int, k: int): seq<T> {
    if |s| == 0 then []
    else (if key(s[0]) == k then [s[0]] else []) + WithKey(s[1..], key, k)
  }

  ghost predicate Distinct<T>(s: seq<T>) {
    forall i, j :: 0 <= i < j < |s| ==> s[i] != s[j]
  }

  // ---------------------------------------------------------------- insertion

  lemma {:induction false} InsertPerm<T>(s: seq<T>, x: T, key: T -> int)
    ensures multiset(Insert(s, x, key)) == multiset(s) + multiset{x}
  {
    if |s| > 0 && key(s[0]) <= key(x) {
      InsertPerm(s[1..], x, key);
      assert s == [s[0]] + s[1..];
    }
  }

  /** A bound below every key of `s` and below `x`'s bounds every key after the insertion. */
  lemma {:induction false} InsertAbove<T>(s: seq<T>, x: T, key: T -> int, lo: int)
    requires forall i :: 0 <= i < |s| ==> lo <= key(s[i])
    requires lo <= key(x)
    ensures forall i :: 0 <= i < |Insert(s, x, key)| ==> lo <= key(Insert(s, x, key)[i])
  {
    if |s| > 0 && key(s[0]) <= key(x) {
      InsertAbove(s[1..], x, key, lo);
      var rest := Insert(s[1..], x, key);
      var r := [s[0]] + rest;
      forall i | 0 <= i < |r| ensures lo <= key(r[i]) {
        if i > 0 {
          assert r[i] == rest[i - 1];
        }
      }
    }
  }

  lemma {:induction false} InsertSorted<T>(s: seq<T>, x: T, key: T -> int)
    requires Sorted(s, key)
    ensures Sorted(Insert(s, x, key), key)
  {
    if |s| > 0 && key(s[0]) <= key(x) {
      var rest := Insert(s[1..], x, key);
      InsertSorted(s[1..], x, key);
      InsertAbove(s[1..], x, key, key(s[0]));
      var r := [s[0]] + rest;
      forall i, j | 0 <= i < j < |r| ensures key(r[i]) <= key(r[j]) {
        assert r[j] == rest[j - 1];
        if i > 0 {
          assert r[i] == rest[i - 1];
        }
      }
    }
  }

  lemma {:induction false} WithKeyAppend<T>(a: seq<T>, b: seq<T>, key: T -> int, k: int)
    ensures WithKey(a + b, key, k) == WithKey(a, key, k) + WithKey(b, key, k)
  {
    if |a| > 0 {
      WithKeyAppend(a[1..], b, key, k);
      assert (a + b)[1..] == a[1..] + b;
    } else {
      assert a + b == b;
    }
  }

  /** Nothing in a sorted sequence has a key below its first element's. */
  lemma {:induction false} WithKeyBelowHead<T>(s: seq<T>, key: T -> int, k: int)
    requires Sorted(s, key) && |s| > 0 && k < key(s[0])
    ensures WithKey(s, key, k) == []
  {
    if |s| > 1 {
      assert Sorted(s[1..], key);
      WithKeyBelowHead(s[1..], key, k);
    }
  }

  lemma {:induction false} InsertStable<T>(s: seq<T>, x: T, key: T -> int, k: int)
    requires Sorted(s, key)
    ensures WithKey(Insert(s, x, key), key, k) == WithKey(s, key, k) + WithKey([x], key, k)
  {
    if |s| == 0 {
    } else if key(x) < key(s[0]) {
      if key(x) == k {
        WithKeyBelowHead(s, key, k);
      }
      WithKeyAppend([x], s, key, k);
    } else {
      assert Sorted(s[1..], key);
      InsertStable(s[1..], x, key, k);
      WithKeyAppend([s[0]], Insert(s[1..], x, key), key, k);
      WithKeyAppend([s[0]], s[1..], key, k);
      assert s == [s[0]] + s[1..];
    }
  }

  // ---------------------------------------------------------------- sorting

  lemma {:induction false} SortPerm<T>(s: seq<T>, key: T -> int)
    ensures multiset(Sort(s, key)) == multiset(s)
  {
    if |s| > 0 {
      SortPerm(s[..|s| - 1], key);
      InsertPerm(Sort(s[..|s| - 1], key), s[|s| - 1], key);
      assert s == s[..|s| - 1] + [s[|s| - 1]];
    }
  }

  lemma {:induction false} SortSorted<T>(s: seq<T>, key: T -> int)
    ensures Sorted(Sort(s, key), key)
  {
    if |s| > 0 {
      SortSorted(s[..|s| - 1], key);
      InsertSorted(Sort(s[..|s| - 1], key), s[|s| - 1], key);
    }
  }

  lemma {:induction false} SortStable<T>(s: seq<T>, key: T -> int, k: int)
    ensures WithKey(Sort(s, key), key, k) == WithKey(s, key, k)
  {
    if |s| > 0 {
      var init := s[..|s| - 1];
      SortStable(init, key, k);
      SortSorted(init, key);
      InsertStable(Sort(init, key), s[|s| - 1], key, k);
      WithKeyAppend(init, [s[|s| - 1]], key, k);
      assert s == init + [s[|s| - 1]];
    }
  }

  lemma {:induction false} WithKeyMember<T>(s: seq<T>, key: T -> int, k: int, x: T)
    requires x in WithKey(s, key, k)
    ensures x in s && key(x) == k
  {
    if |s| > 0 && x !in (if key(s[0]) == k then [s[0]] else []) {
      WithKeyMember(s[1..], key, k, x);
    }
  }

  lemma {:induction false} WithKeyHas<T>(s: seq<T>, key: T -> int, i: nat)
    requires i < |s|
    ensures s[i] in WithKey(s, key, key(s[i]))
  {
    if i > 0 {
      WithKeyHas(s[1..], key, i - 1);
    }
  }

  /** The first element of `s` is the first of those with its key. */
  lemma WithKeyFirst<T>(s: seq<T>, key: T -> int)
    requires |s| > 0
    ensures WithKey(s, key, key(s[0])) == [s[0]] + WithKey(s[1..], key, key(s[0]))
  {
  }

  /** Two sorted sequences that agree on the elements of every key start with
      the same element. */
  lemma HeadsAgree<T>(t: seq<T>, u: seq<T>, key: T -> int)
    requires Sorted(t, key) && Sorted(u, key) && |t| > 0
    requires forall k :: WithKey(t, key, k) == WithKey(u, key, k)
    ensures |u| > 0 && t[0] == u[0]
  {
    var a := key(t[0]);
    WithKeyHas(t, key, 0);
    assert WithKey(t, key, a) == WithKey(u, key, a);
    WithKeyMember(u, key, a, t[0]);
    var j :| 0 <= j < |u| && u[j] == t[0];
    var b := key(u[0]);
    WithKeyHas(u, key, 0);
    assert WithKey(t, key, b) == WithKey(u, key, b);
    WithKeyMember(t, key, b, u[0]);
    var i :| 0 <= i < |t| && t[i] == u[0];
    assert b <= key(u[j]) == a && a <= key(t[i]) == b;
    WithKeyFirst(t, key);
    WithKeyFirst(u, key);
    assert WithKey(t, key, a)[0] == t[0];
    assert WithKey(u, key, a)[0] == u[0];
  }

  /** Equal heads removed, the elements of key `k` still agree. */
  lemma TailsAgree<T>(t: seq<T>, u: seq<T>, key: T -> int, k: int)
    requires |t| > 0 && |u| > 0 && t[0] == u[0]
    requires WithKey(t, key, k) == WithKey(u, key, k)
    ensures WithKey(t[1..], key, k) == WithKey(u[1..], key, k)
  {
    var head := if key(t[0]) == k then [t[0]] else [];
    assert WithKey(t, key, k) == head + WithKey(t[1..], key, k);
    assert WithKey(u, key, k) == head + WithKey(u[1..], key, k);
    assert WithKey(t[1..], key, k) == WithKey(t, key, k)[|head|..];
  }

  /** Two sorted sequences that agree on the elements of every key are equal. */
  lemma {:induction false} SortedAgreeing<T>(t: seq<T>, u: seq<T>, key: T -> int)
    requires Sorted(t, key) && Sorted(u, key)
    requires forall k :: WithKey(t, key, k) == WithKey(u, key, k)
    ensures t == u
    decreases |t|
  {
    if |t| == 0 {
      if |u| > 0 {
        HeadsAgree(u, t, key);
      }
    } else {
      HeadsAgree(t, u, key);
      forall k ensures WithKey(t[1..], key, k) == WithKey(u[1..], key, k) {
        TailsAgree(t, u, key, k);
      }
      assert Sorted(t[1..], key) && Sorted(u[1..], key);
      SortedAgreeing(t[1..], u[1..], key);
      assert t == [t[0]] + t[1..] && u == [u[0]] + u[1..];
    }
  }

  /** `Sort` is the only stable sort: a sorted sequence that keeps, key by key,
      the input's elements in the input's order is `Sort` of the input. */
  lemma SortUnique<T>(s: seq<T>, t: seq<T>, key: T -> int)
    requires Sorted(t, key)
    requires forall k :: WithKey(t, key, k) == WithKey(s, key, k)
    ensures t == Sort(s, key)
  {
    SortSorted(s, key);
    forall k ensures WithKey(t, key, k) == WithKey(Sort(s, key), key, k) {
      SortStable(s, key, k);
    }
    SortedAgreeing(t, Sort(s, key), key);
  }

  /** Taking one element out of a sequence takes it out of its multiset. */
  lemma RemoveAt<T>(s: seq<T>, i: nat)
    requires i < |s|
    ensures multiset(s[..i] + s[i + 1..]) == multiset(s) - multiset{s[i]}
  {
    assert s == s[..i] + [s[i]] + s[i + 1..];
    assert multiset(s) == multiset(s[..i]) + multiset{s[i]} + multiset(s[i + 1..]);
  }

  // ---------------------------------------------------------------- distinctness

  lemma {:induction false} DistinctAtMostOnce<T>(s: seq<T>, x: T)
    requires Distinct(s)
    ensures multiset(s)[x] <= 1
  {
    if |s| > 0 {
      assert Distinct(s[1..]);
      DistinctAtMostOnce(s[1..], x);
      assert s == [s[0]] + s[1..];
      if s[0] == x {
        assert x !in s[1..];
      }
    }
  }

  lemma RepeatedTwice<T>(s: seq<T>, i: nat, j: nat)
    requires i < j < |s| && s[i] == s[j]
    ensures multiset(s)[s[i]] >= 2
  {
    assert s == s[..j] + [s[j]] + s[j + 1..];
    assert s[..j][i] == s[i];
    assert multiset(s[..j])[s[i]] >= 1;
  }

  /** Distinctness depends only on the multiset of elements. */
  lemma DistinctPerm<T>(a: seq<T>, b: seq<T>)
    requires Distinct(a) && multiset(a) == multiset(b)
    ensures Distinct(b)
  {
    forall i, j | 0 <= i < j < |b| ensures b[i] != b[j] {
      if b[i] == b[j] {
        RepeatedTwice(b, i, j);
        DistinctAtMostOnce(a, b[i]);
      }
    }
  }
}
