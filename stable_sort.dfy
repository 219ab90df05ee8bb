/**
 * A stable sort by key. Both the browser (Array.prototype.sort with a
 * numeric comparator, stable since ECMAScript 2019) and the server
 * (Python's list.sort with a key) sort stably, and with a consistent
 * comparator a stable sort has exactly one possible result. That result is
 * described here by insertion sort, and SortedUnique shows that any sorted
 * arrangement keeping the input order among equal keys is this one.
 */
module StableSort {

  /** lt is a strict total order: irreflexive, transitive and total. */
  ghost predicate StrictTotalOrder<K(!new)>(lt: (K, K) -> bool)
  {
    Irreflexive(lt) && Transitive(lt) && Total(lt)
  }

  ghost predicate Irreflexive<K(!new)>(lt: (K, K) -> bool)
  {
    forall a :: !lt(a, a)
  }

  ghost predicate Transitive<K(!new)>(lt: (K, K) -> bool)
  {
    forall a, b, c :: lt(a, b) && lt(b, c) ==> lt(a, c)
  }

  ghost predicate Total<K(!new)>(lt: (K, K) -> bool)
  {
    forall a, b :: a == b || lt(a, b) || lt(b, a)
  }

  /** No element has a key strictly before the key of an element ahead of it. */
  predicate Sorted<T, K>(s: seq<T>, key: T -> K, lt: (K, K) -> bool)
  {
    forall i, j :: 0 <= i < j < |s| ==> !lt(key(s[j]), key(s[i]))
  }

  /** The elements of s whose key is k, in their order in s. */
  function WithKey<T, K(==)>(s: seq<T>, key: T -> K, k: K): seq<T>
  {
    if |s| == 0 then []
    else (if key(s[0]) == k then [s[0]] else []) + WithKey(s[1..], key, k)
  }

  /** x placed after every element of s whose key is not after its own. */
  function Insert<T, K>(x: T, s: seq<T>, key: T -> K, lt: (K, K) -> bool): (r: seq<T>)
    ensures |r| == |s| + 1
    ensures multiset(r) == multiset(s) + multiset{x}
  {
    if |s| == 0 then [x]
    else if lt(key(x), key(s[0])) then [x] + s
    else
      assert s == [s[0]] + s[1..];
      [s[0]] + Insert(x, s[1..], key, lt)
  }

  /** s sorted by key, elements with equal keys kept in their input order. */
  function Sort<T, K>(s: seq<T>, key: T -> K, lt: (K, K) -> bool): (r: seq<T>)
    ensures |r| == |s|
    ensures multiset(r) == multiset(s)
  {
    if |s| == 0 then []
    else
      assert s == s[..|s| - 1] + [s[|s| - 1]];
      Insert(s[|s| - 1], Sort(s[..|s| - 1], key, lt), key, lt)
  }

  // ---------------------------------------------------------------------
  // Filtering by key
  // ---------------------------------------------------------------------

  lemma {:induction false} WithKeyAppend<T, K>(a: seq<T>, b: seq<T>, key: T -> K, k: K)
    ensures WithKey(a + b, key, k) == WithKey(a, key, k) + WithKey(b, key, k)
    decreases |a|
  {
    if |a| > 0 {
      assert (a + b)[1..] == a[1..] + b;
      WithKeyAppend(a[1..], b, key, k);
    } else {
      assert a + b == b;
    }
  }

  lemma {:induction false} WithKeyNone<T, K>(s: seq<T>, key: T -> K, k: K)
    requires forall i :: 0 <= i < |s| ==> key(s[i]) != k
    ensures WithKey(s, key, k) == []
    decreases |s|
  {
    if |s| > 0 {
      WithKeyNone(s[1..], key, k);
    }
  }

  lemma {:induction false} WithKeyWitness<T, K>(s: seq<T>, key: T -> K, k: K) returns (j: nat)
    requires WithKey(s, key, k) != []
    ensures j < |s| && key(s[j]) == k
    decreases |s|
  {
    if key(s[0]) == k {
      j := 0;
    } else {
      var j' := WithKeyWitness(s[1..], key, k);
      j := j' + 1;
    }
  }

  // ---------------------------------------------------------------------
  // Insertion keeps order and stability
  // ---------------------------------------------------------------------

  lemma {:induction false} InsertSorted<T, K(!new)>(x: T, s: seq<T>, key: T -> K, lt: (K, K) -> bool)
    requires StrictTotalOrder(lt)
    requires Sorted(s, key, lt)
    ensures Sorted(Insert(x, s, key, lt), key, lt)
    decreases |s|
  {
    if |s| > 0 && !lt(key(x), key(s[0])) {
      var tail := Insert(x, s[1..], key, lt);
      InsertSorted(x, s[1..], key, lt);
      forall j | 0 <= j < |tail|
        ensures !lt(key(tail[j]), key(s[0]))
      {
        assert tail[j] in multiset(tail);
        if tail[j] != x {
          assert tail[j] in multiset(s[1..]);
          var m :| 0 <= m < |s[1..]| && s[1..][m] == tail[j];
          assert s[m + 1] == tail[j];
        }
      }
    }
  }

  lemma {:induction false} InsertWithKey<T, K(!new)>(x: T, s: seq<T>, key: T -> K, lt: (K, K) -> bool, k: K)
    requires Irreflexive(lt)
    requires Sorted(s, key, lt)
    ensures WithKey(Insert(x, s, key, lt), key, k) == WithKey(s, key, k) + WithKey([x], key, k)
    decreases |s|
  {
    if |s| == 0 {
      assert Insert(x, s, key, lt) == [x];
      assert WithKey(s, key, k) == [];
    } else if lt(key(x), key(s[0])) {
      InsertBeforeWithKey(x, s, key, lt, k);
    } else {
      SortedTail(s, key, lt);
      InsertWithKey(x, s[1..], key, lt, k);
      InsertAfterWithKey(x, s, key, lt, k);
    }
  }

  lemma InsertAfterWithKey<T, K>(x: T, s: seq<T>, key: T -> K, lt: (K, K) -> bool, k: K)
    requires |s| > 0 && !lt(key(x), key(s[0]))
    requires WithKey(Insert(x, s[1..], key, lt), key, k) == WithKey(s[1..], key, k) + WithKey([x], key, k)
    ensures WithKey(Insert(x, s, key, lt), key, k) == WithKey(s, key, k) + WithKey([x], key, k)
  {
    InsertAfterUnfold(x, s, key, lt, k);
    WithKeyRegroup(s, key, k, WithKey([x], key, k));
  }

  lemma InsertAfterUnfold<T, K>(x: T, s: seq<T>, key: T -> K, lt: (K, K) -> bool, k: K)
    requires |s| > 0 && !lt(key(x), key(s[0]))
    ensures WithKey(Insert(x, s, key, lt), key, k) == WithKey([s[0]], key, k) + WithKey(Insert(x, s[1..], key, lt), key, k)
  {
    assert Insert(x, s, key, lt) == [s[0]] + Insert(x, s[1..], key, lt);
    WithKeyAppend([s[0]], Insert(x, s[1..], key, lt), key, k);
  }

  lemma WithKeyRegroup<T, K>(s: seq<T>, key: T -> K, k: K, rest: seq<T>)
    requires |s| > 0
    ensures WithKey([s[0]], key, k) + (WithKey(s[1..], key, k) + rest) == WithKey(s, key, k) + rest
  {
    AppendAssoc(WithKey([s[0]], key, k), WithKey(s[1..], key, k), rest);
    assert [s[0]] + s[1..] == s;
    WithKeyAppend([s[0]], s[1..], key, k);
  }

  lemma AppendAssoc<T>(a: seq<T>, b: seq<T>, c: seq<T>)
    ensures a + (b + c) == (a + b) + c
  {
  }

  lemma SortedTail<T, K>(s: seq<T>, key: T -> K, lt: (K, K) -> bool)
    requires |s| > 0 && Sorted(s, key, lt)
    ensures Sorted(s[1..], key, lt)
  {
    forall i, j | 0 <= i < j < |s| - 1
      ensures !lt(key(s[1..][j]), key(s[1..][i]))
    {
      assert s[1..][j] == s[j + 1] && s[1..][i] == s[i + 1];
    }
  }

  lemma InsertBeforeWithKey<T, K(!new)>(x: T, s: seq<T>, key: T -> K, lt: (K, K) -> bool, k: K)
    requires Irreflexive(lt)
    requires Sorted(s, key, lt)
    requires |s| > 0 && lt(key(x), key(s[0]))
    ensures WithKey(Insert(x, s, key, lt), key, k) == WithKey(s, key, k) + WithKey([x], key, k)
  {
    assert Insert(x, s, key, lt) == [x] + s;
    WithKeyAppend([x], s, key, k);
    if key(x) == k {
      forall i | 0 <= i < |s|
        ensures key(s[i]) != k
      {
        if i > 0 {
          assert !lt(key(s[i]), key(s[0]));
        }
      }
      WithKeyNone(s, key, k);
    } else {
      assert WithKey([x], key, k) == [];
    }
  }

  // ---------------------------------------------------------------------
  // The sort
  // ---------------------------------------------------------------------

  lemma {:induction false} SortSorted<T, K(!new)>(s: seq<T>, key: T -> K, lt: (K, K) -> bool)
    requires StrictTotalOrder(lt)
    ensures Sorted(Sort(s, key, lt), key, lt)
    decreases |s|
  {
    if |s| > 0 {
      SortSorted(s[..|s| - 1], key, lt);
      InsertSorted(s[|s| - 1], Sort(s[..|s| - 1], key, lt), key, lt);
    }
  }

  /** Stability: for every key, the elements with that key appear in the result in their input order. */
  lemma {:induction false} SortStable<T, K(!new)>(s: seq<T>, key: T -> K, lt: (K, K) -> bool, k: K)
    requires StrictTotalOrder(lt)
    ensures WithKey(Sort(s, key, lt), key, k) == WithKey(s, key, k)
    decreases |s|
  {
    if |s| > 0 {
      var init, last := s[..|s| - 1], s[|s| - 1];
      calc {
        WithKey(Sort(s, key, lt), key, k);
        WithKey(Insert(last, Sort(init, key, lt), key, lt), key, k);
        { SortSorted(init, key, lt); InsertWithKey(last, Sort(init, key, lt), key, lt, k); }
        WithKey(Sort(init, key, lt), key, k) + WithKey([last], key, k);
        { SortStable(init, key, lt, k); }
        WithKey(init, key, k) + WithKey([last], key, k);
        { WithKeyAppend(init, [last], key, k); assert init + [last] == s; }
        WithKey(s, key, k);
      }
    }
  }

  /**
   * Two sorted sequences that agree, key by key, on the elements carrying
   * that key and on their order, are the same sequence.
   */
  lemma {:induction false} SortedUnique<T, K(!new)>(a: seq<T>, b: seq<T>, key: T -> K, lt: (K, K) -> bool)
    requires StrictTotalOrder(lt)
    requires Sorted(a, key, lt) && Sorted(b, key, lt)
    requires forall k :: WithKey(a, key, k) == WithKey(b, key, k)
    ensures a == b
    decreases |a|
  {
    if |a| == 0 {
      if |b| > 0 {
        assert false;
      }
    } else {
      var ka := key(a[0]);
      assert WithKey(a, key, ka) != [];
      var jb := WithKeyWitness(b, key, ka);
      var kb := key(b[0]);
      assert WithKey(b, key, kb) != [];
      var ja := WithKeyWitness(a, key, kb);
      assert WithKey(a, key, ka) == WithKey(b, key, ka);
      assert !lt(ka, kb) && !lt(kb, ka);
      assert ka == kb;
      assert WithKey(a, key, ka) == [a[0]] + WithKey(a[1..], key, ka);
      assert WithKey(b, key, ka) == [b[0]] + WithKey(b[1..], key, ka);
      assert a[0] == WithKey(a, key, ka)[0] == WithKey(b, key, ka)[0] == b[0];
      forall k
        ensures WithKey(a[1..], key, k) == WithKey(b[1..], key, k)
      {
        assert WithKey(a, key, k) == WithKey(b, key, k);
        if k != ka {
          assert WithKey(a, key, k) == WithKey(a[1..], key, k);
          assert WithKey(b, key, k) == WithKey(b[1..], key, k);
        } else {
          assert WithKey(a[1..], key, k) == WithKey(a, key, k)[1..];
          assert WithKey(b[1..], key, k) == WithKey(b, key, k)[1..];
        }
      }
      SortedUnique(a[1..], b[1..], key, lt);
      assert a == [a[0]] + a[1..] && b == [b[0]] + b[1..];
    }
  }

  /** Sort is the only sorted arrangement of s that is stable. */
  lemma SortCharacterized<T, K(!new)>(s: seq<T>, t: seq<T>, key: T -> K, lt: (K, K) -> bool)
    requires StrictTotalOrder(lt)
    requires Sorted(t, key, lt)
    requires forall k :: WithKey(t, key, k) == WithKey(s, key, k)
    ensures t == Sort(s, key, lt)
  {
    SortSorted(s, key, lt);
    forall k
      ensures WithKey(t, key, k) == WithKey(Sort(s, key, lt), key, k)
    {
      SortStable(s, key, lt, k);
    }
    SortedUnique(t, Sort(s, key, lt), key, lt);
  }

  /** Sorting an already sorted sequence leaves it unchanged. */
  lemma SortOfSorted<T, K(!new)>(s: seq<T>, key: T -> K, lt: (K, K) -> bool)
    requires StrictTotalOrder(lt)
    requires Sorted(s, key, lt)
    ensures Sort(s, key, lt) == s
  {
    SortCharacterized(s, s, key, lt);
  }
}
