/** Python's `list.sort(key=...)`: a stable sort, as a function with the properties that determine it. */
module StableSort {

  /** What a key function gives: `None` sorts before everything else. */
  datatype Key = Missing | Known(n: int)

  predicate Le(a: Key, b: Key) { a.Missing? || (b.Known? && a.n <= b.n) }

  /** Puts `x` behind every element whose key is not greater. */
  function Insert<T>(s: seq<T>, x: T, key: T -> Key): seq<T> {
    if s == [] || Le(key(s[|s| - 1]), key(x)) then s + [x]
    else Insert(s[..|s| - 1], x, key) + [s[|s| - 1]]
  }

  function Sorted<T>(s: seq<T>, key: T -> Key): seq<T> {
    if s == [] then [] else Insert(Sorted(s[..|s| - 1], key), s[|s| - 1], key)
  }

  predicate Ordered<T>(s: seq<T>, key: T -> Key) {
    forall i, j :: 0 <= i <= j < |s| ==> Le(key(s[i]), key(s[j]))
  }

  /** The elements with key `k`, in their order. */
  function Pick<T>(s: seq<T>, key: T -> Key, k: Key): seq<T> {
    if s == [] then []
    else
      var init, x := Pick(s[..|s| - 1], key, k), s[|s| - 1];
      if key(x) == k then init + [x] else init
  }

  lemma {:induction false} InsertKeepsElements<T>(s: seq<T>, x: T, key: T -> Key)
    ensures multiset(Insert(s, x, key)) == multiset(s) + multiset{x}
  {
    if s == [] || Le(key(s[|s| - 1]), key(x)) {
    } else {
      InsertKeepsElements(s[..|s| - 1], x, key);
      assert s == s[..|s| - 1] + [s[|s| - 1]];
    }
  }

  /** Sorting permutes. */
  lemma {:induction false} SortedPermutes<T>(s: seq<T>, key: T -> Key)
    ensures multiset(Sorted(s, key)) == multiset(s)
    ensures |Sorted(s, key)| == |s|
  {
    if s != [] {
      SortedPermutes(s[..|s| - 1], key);
      InsertKeepsElements(Sorted(s[..|s| - 1], key), s[|s| - 1], key);
      assert s == s[..|s| - 1] + [s[|s| - 1]];
    }
    assert |multiset(Sorted(s, key))| == |multiset(s)|;
  }

  lemma {:induction false} InsertOrders<T>(s: seq<T>, x: T, key: T -> Key)
    requires Ordered(s, key)
    ensures Ordered(Insert(s, x, key), key)
  {
    if s == [] || Le(key(s[|s| - 1]), key(x)) {
      var r := s + [x];
      forall i, j | 0 <= i <= j < |r|
        ensures Le(key(r[i]), key(r[j]))
      {
        if j == |s| && i < |s| {
          assert Le(key(s[i]), key(s[|s| - 1]));
        }
      }
    } else {
      var init, last := s[..|s| - 1], s[|s| - 1];
      InsertOrders(init, x, key);
      InsertKeepsElements(init, x, key);
      var r := Insert(init, x, key);
      forall i | 0 <= i < |r|
        ensures Le(key(r[i]), key(last))
      {
        assert r[i] in multiset(r);
        if r[i] != x {
          assert r[i] in multiset(init);
        }
      }
    }
  }

  /** What the order means: no key comes before a number, and numbers do not fall. */
  lemma OrderedExactly<T>(s: seq<T>, key: T -> Key)
    ensures Ordered(s, key) <==> forall i, j :: 0 <= i < j < |s| ==>
      match (key(s[i]), key(s[j])) { case (Missing, _) => true case (Known(_), Missing) => false case (Known(a), Known(b)) => a <= b }
  {
  }

  lemma {:induction false} SortedOrders<T>(s: seq<T>, key: T -> Key)
    ensures Ordered(Sorted(s, key), key)
  {
    if s != [] {
      SortedOrders(s[..|s| - 1], key);
      InsertOrders(Sorted(s[..|s| - 1], key), s[|s| - 1], key);
    }
  }

  lemma PickLast<T>(s: seq<T>, x: T, key: T -> Key, k: Key)
    ensures Pick(s + [x], key, k) == if key(x) == k then Pick(s, key, k) + [x] else Pick(s, key, k)
  {
    assert (s + [x])[..|s|] == s;
  }

  lemma {:induction false} InsertIsStable<T>(s: seq<T>, x: T, key: T -> Key, k: Key)
    ensures Pick(Insert(s, x, key), key, k) == Pick(s + [x], key, k)
  {
    if s == [] || Le(key(s[|s| - 1]), key(x)) {
    } else {
      var init, last := s[..|s| - 1], s[|s| - 1];
      InsertIsStable(init, x, key, k);
      PickLast(Insert(init, x, key), last, key, k);
      PickLast(s, x, key, k);
      PickLast(init, x, key, k);
    }
  }

  /** Stability: elements with the same key keep their order. */
  lemma {:induction false} SortedIsStable<T>(s: seq<T>, key: T -> Key, k: Key)
    ensures Pick(Sorted(s, key), key, k) == Pick(s, key, k)
  {
    if s != [] {
      var init, last := s[..|s| - 1], s[|s| - 1];
      SortedIsStable(init, key, k);
      InsertIsStable(Sorted(init, key), last, key, k);
      PickLast(Sorted(init, key), last, key, k);
    }
  }

  /** An ordered sequence with two keys is its lower part followed by its upper part. */
  lemma {:induction false} TwoParts<T>(s: seq<T>, key: T -> Key, lo: Key, hi: Key)
    requires Ordered(s, key) && lo != hi && Le(lo, hi)
    requires forall i :: 0 <= i < |s| ==> key(s[i]) == lo || key(s[i]) == hi
    ensures s == Pick(s, key, lo) + Pick(s, key, hi)
  {
    if s != [] {
      var init, last := s[..|s| - 1], s[|s| - 1];
      TwoParts(init, key, lo, hi);
      assert s == init + [last];
      if key(last) == lo {
        forall i | 0 <= i < |init|
          ensures key(init[i]) == lo
        {
          assert Le(key(s[i]), key(s[|s| - 1]));
        }
        PickNone(init, key, hi);
      }
    }
  }

  lemma {:induction false} PickNone<T>(s: seq<T>, key: T -> Key, k: Key)
    requires forall i :: 0 <= i < |s| ==> key(s[i]) != k
    ensures Pick(s, key, k) == []
  {
    if s != [] {
      PickNone(s[..|s| - 1], key, k);
    }
  }

  /** A stable sort by two keys is a stable partition. */
  lemma SortedByTwo<T>(s: seq<T>, key: T -> Key, lo: Key, hi: Key)
    requires lo != hi && Le(lo, hi)
    requires forall i :: 0 <= i < |s| ==> key(s[i]) == lo || key(s[i]) == hi
    ensures Sorted(s, key) == Pick(s, key, lo) + Pick(s, key, hi)
  {
    var r := Sorted(s, key);
    SortedOrders(s, key);
    SortedPermutes(s, key);
    forall i | 0 <= i < |r|
      ensures key(r[i]) == lo || key(r[i]) == hi
    {
      assert r[i] in multiset(s);
    }
    TwoParts(r, key, lo, hi);
    SortedIsStable(s, key, lo);
    SortedIsStable(s, key, hi);
  }

  lemma {:induction false} PickHas<T>(s: seq<T>, key: T -> Key, k: Key)
    ensures Pick(s, key, k) != [] <==> exists i :: 0 <= i < |s| && key(s[i]) == k
  {
    if s != [] {
      var init := s[..|s| - 1];
      PickHas(init, key, k);
      if exists i :: 0 <= i < |init| && key(init[i]) == k {
        var i :| 0 <= i < |init| && key(init[i]) == k;
        assert key(s[i]) == k;
      }
    }
  }

  lemma PickNothing<T>(s: seq<T>, key: T -> Key)
    requires forall k :: Pick(s, key, k) == []
    ensures s == []
  {
    if s != [] {
      PickHas(s, key, key(s[0]));
    }
  }

  lemma SameGreatestKey<T>(a: seq<T>, b: seq<T>, key: T -> Key)
    requires Ordered(a, key) && Ordered(b, key) && a != []
    requires forall k :: Pick(a, key, k) == Pick(b, key, k)
    ensures b != [] && key(a[|a| - 1]) == key(b[|b| - 1])
  {
    var m := key(a[|a| - 1]);
    PickHas(a, key, m);
    PickHas(b, key, m);
    var i :| 0 <= i < |b| && key(b[i]) == m;
    var n := key(b[|b| - 1]);
    PickHas(b, key, n);
    PickHas(a, key, n);
    var j :| 0 <= j < |a| && key(a[j]) == n;
    assert Le(m, n) && Le(n, m);
  }

  /** Order and stability leave no choice: ordered sequences with the same elements, in the same order, at every key agree. */
  lemma {:induction false} OrderedUnique<T>(a: seq<T>, b: seq<T>, key: T -> Key)
    requires Ordered(a, key) && Ordered(b, key)
    requires forall k :: Pick(a, key, k) == Pick(b, key, k)
    ensures a == b
    decreases |a|
  {
    if a == [] {
      PickNothing(b, key);
    } else {
      SameGreatestKey(a, b, key);
      var a0, b0, x, y := a[..|a| - 1], b[..|b| - 1], a[|a| - 1], b[|b| - 1];
      assert a == a0 + [x] && b == b0 + [y];
      var m := key(x);
      PickLast(a0, x, key, m);
      PickLast(b0, y, key, m);
      SameLast(Pick(a0, key, m), x, Pick(b0, key, m), y);
      forall k: Key
        ensures Pick(a0, key, k) == Pick(b0, key, k)
      {
        PickLast(a0, x, key, k);
        PickLast(b0, y, key, k);
      }
      OrderedUnique(a0, b0, key);
    }
  }

  lemma SameLast<T>(a: seq<T>, x: T, b: seq<T>, y: T)
    requires a + [x] == b + [y]
    ensures a == b && x == y
  {
    assert (a + [x])[..|a|] == a && (b + [y])[..|b|] == b;
    assert (a + [x])[|a|] == (b + [y])[|b|];
  }

  /** The sort is the only ordered and stable arrangement. */
  lemma SortedUnique<T>(s: seq<T>, r: seq<T>, key: T -> Key)
    requires Ordered(r, key) && forall k :: Pick(r, key, k) == Pick(s, key, k)
    ensures r == Sorted(s, key)
  {
    var t := Sorted(s, key);
    SortedOrders(s, key);
    forall k: Key
      ensures Pick(r, key, k) == Pick(t, key, k)
    {
      SortedIsStable(s, key, k);
    }
    OrderedUnique(r, t, key);
  }
}
