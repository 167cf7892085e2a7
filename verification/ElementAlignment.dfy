/** Lining up the expected and the actual elements of a list before they are compared: `sort_elements`, its two stages, and
  the list part of `compareElements`, art/core_api/validator.py. */
module ElementAlignment {
  import opened StableSort

  datatype Attr = Name | Id | Index

  const SORT_ATTRS: seq<Attr> := [Name, Id, Index]

  /** An element: the sort attributes that its class has, and what else it holds. */
  datatype Element = Element(attrs: map<Attr, Key>, rest: nat)

  /** `getattr(e, attr, None)`. */
  function Get(e: Element, attr: Attr): Key { if attr in e.attrs then e.attrs[attr] else Missing }

  function AttrKey(attr: Attr): Element -> Key { (e: Element) => Get(e, attr) }

  /** -1 for the elements whose value is among `values`, 1 for the others. */
  function ExistenceKey(attr: Attr, values: set<Key>): Element -> Key {
    (e: Element) => if Get(e, attr) in values then Known(-1) else Known(1)
  }

  function Values(s: seq<Element>, attr: Attr): set<Key> { set e | e in s :: Get(e, attr) }

  predicate Distinct(s: seq<Element>, attr: Attr) {
    forall i, j :: 0 <= i < j < |s| ==> Get(s[i], attr) != Get(s[j], attr)
  }

  // ---------- The stages as functions ----------

  /** `s` after both stages; `other` is the other list as it came. */
  function Arranged(s: seq<Element>, other: seq<Element>, attr: Attr): seq<Element> {
    var sorted := Sorted(s, AttrKey(attr));
    if |s| > |other| then Sorted(sorted, ExistenceKey(attr, Values(other, attr))) else sorted
  }

  /** The first sort attribute, from place `n` on, that both elements have. */
  function Chosen(exp: Element, act: Element, n: nat): (r: nat)
    requires n <= |SORT_ATTRS|
    ensures n <= r <= |SORT_ATTRS|
    ensures r < |SORT_ATTRS| ==> Get(exp, SORT_ATTRS[r]).Known? && Get(act, SORT_ATTRS[r]).Known?
    ensures forall m :: n <= m < r ==> Get(exp, SORT_ATTRS[m]).Missing? || Get(act, SORT_ATTRS[m]).Missing?
    decreases |SORT_ATTRS| - n
  {
    if n == |SORT_ATTRS| || (Get(exp, SORT_ATTRS[n]).Known? && Get(act, SORT_ATTRS[n]).Known?) then n
    else Chosen(exp, act, n + 1)
  }

  /** The name decides if both have one, otherwise the id, otherwise the index. */
  lemma ChosenExactly(exp: Element, act: Element)
    ensures var both := (attr: Attr) => Get(exp, attr).Known? && Get(act, attr).Known?;
            var n := Chosen(exp, act, 0);
            && (both(Name) ==> n < |SORT_ATTRS| && SORT_ATTRS[n] == Name)
            && (!both(Name) && both(Id) ==> n < |SORT_ATTRS| && SORT_ATTRS[n] == Id)
            && (!both(Name) && !both(Id) && both(Index) ==> n < |SORT_ATTRS| && SORT_ATTRS[n] == Index)
            && (!both(Name) && !both(Id) && !both(Index) ==> n == |SORT_ATTRS|)
  {
  }

  // ---------- Alignment ----------

  predicate Aligned(act: seq<Element>, exp: seq<Element>, attr: Attr) {
    forall i :: 0 <= i < |act| && i < |exp| ==> Get(act[i], attr) == Get(exp[i], attr)
  }

  lemma ArrangedPermutes(s: seq<Element>, other: seq<Element>, attr: Attr)
    ensures multiset(Arranged(s, other, attr)) == multiset(s) && |Arranged(s, other, attr)| == |s|
  {
    var sorted := Sorted(s, AttrKey(attr));
    SortedPermutes(s, AttrKey(attr));
    SortedPermutes(sorted, ExistenceKey(attr, Values(other, attr)));
  }

  lemma SameElements(a: seq<Element>, b: seq<Element>, attr: Attr)
    requires multiset(a) == multiset(b)
    ensures Values(a, attr) == Values(b, attr)
  {
    assert forall e :: e in a <==> e in multiset(a);
    assert forall e :: e in b <==> e in multiset(b);
    assert forall e :: e in a <==> e in b;
  }

  /** What one more element at the end changes. */
  lemma Append(init: seq<Element>, last: Element, attr: Attr)
    ensures Values(init + [last], attr) == Values(init, attr) + {Get(last, attr)}
    ensures Distinct(init + [last], attr) <==> Distinct(init, attr) && Get(last, attr) !in Values(init, attr)
    ensures Ordered(init + [last], AttrKey(attr)) <==>
      Ordered(init, AttrKey(attr)) && forall v :: v in Values(init, attr) ==> Le(v, Get(last, attr))
  {
    AppendDistinct(init, last, attr);
    AppendOrdered(init, last, attr);
  }

  lemma AppendDistinct(init: seq<Element>, last: Element, attr: Attr)
    ensures Distinct(init + [last], attr) <==> Distinct(init, attr) && Get(last, attr) !in Values(init, attr)
  {
    var s := init + [last];
    if Distinct(s, attr) {
      forall i, j | 0 <= i < j < |init|
        ensures Get(init[i], attr) != Get(init[j], attr)
      {
        assert s[i] == init[i] && s[j] == init[j];
      }
      forall e | e in init
        ensures Get(e, attr) != Get(last, attr)
      {
        var i :| 0 <= i < |init| && init[i] == e;
        assert s[i] == e && s[|init|] == last;
      }
    } else {
      var i, j :| 0 <= i < j < |s| && Get(s[i], attr) == Get(s[j], attr);
      assert init[i] in init;
      assert j < |init| ==> Get(init[i], attr) == Get(init[j], attr);
    }
  }

  lemma AppendOrdered(init: seq<Element>, last: Element, attr: Attr)
    ensures Ordered(init + [last], AttrKey(attr)) <==>
      Ordered(init, AttrKey(attr)) && forall v :: v in Values(init, attr) ==> Le(v, Get(last, attr))
  {
    var s, key := init + [last], AttrKey(attr);
    if Ordered(s, key) {
      forall i, j | 0 <= i <= j < |init|
        ensures Le(key(init[i]), key(init[j]))
      {
        assert Le(key(s[i]), key(s[j]));
      }
      forall v | v in Values(init, attr)
        ensures Le(v, Get(last, attr))
      {
        var e :| e in init && Get(e, attr) == v;
        var i :| 0 <= i < |init| && init[i] == e;
        assert Le(key(s[i]), key(s[|init|]));
      }
    } else {
      var i, j :| 0 <= i <= j < |s| && !Le(key(s[i]), key(s[j]));
      if i < |init| {
        assert init[i] in init && Get(init[i], attr) in Values(init, attr);
        assert j < |init| ==> !Le(key(init[i]), key(init[j]));
      }
    }
  }

  /** Distinct values are as many as the elements. */
  lemma {:induction false} DistinctCounts(s: seq<Element>, attr: Attr)
    ensures |Values(s, attr)| <= |s|
    ensures Distinct(s, attr) <==> |Values(s, attr)| == |s|
  {
    if s != [] {
      var init, last := s[..|s| - 1], s[|s| - 1];
      DistinctCounts(init, attr);
      assert s == init + [last];
      Append(init, last, attr);
      if Get(last, attr) in Values(init, attr) {
        assert Values(init, attr) + {Get(last, attr)} == Values(init, attr);
      }
    }
  }

  lemma PermutedDistinct(a: seq<Element>, b: seq<Element>, attr: Attr)
    requires multiset(a) == multiset(b) && |a| == |b| && Distinct(a, attr)
    ensures Distinct(b, attr)
  {
    SameElements(a, b, attr);
    DistinctCounts(a, attr);
    DistinctCounts(b, attr);
  }

  /** A pick keeps order and distinctness, and has the values it is to have. */
  lemma {:induction false} PickExisting(s: seq<Element>, attr: Attr, values: set<Key>)
    requires Ordered(s, AttrKey(attr)) && Distinct(s, attr)
    ensures Ordered(Pick(s, ExistenceKey(attr, values), Known(-1)), AttrKey(attr))
    ensures Distinct(Pick(s, ExistenceKey(attr, values), Known(-1)), attr)
    ensures Values(Pick(s, ExistenceKey(attr, values), Known(-1)), attr) == Values(s, attr) * values
  {
    if s != [] {
      var init, last := s[..|s| - 1], s[|s| - 1];
      assert s == init + [last];
      Append(init, last, attr);
      PickExisting(init, attr, values);
      Append(Pick(init, ExistenceKey(attr, values), Known(-1)), last, attr);
    }
  }

  lemma LastIsGreatest(a0: seq<Element>, x: Element, b0: seq<Element>, y: Element, attr: Attr)
    requires Ordered(a0 + [x], AttrKey(attr)) && Ordered(b0 + [y], AttrKey(attr))
    requires Distinct(a0 + [x], attr) && Distinct(b0 + [y], attr)
    requires Values(a0 + [x], attr) == Values(b0 + [y], attr)
    ensures Get(x, attr) == Get(y, attr) && Values(a0, attr) == Values(b0, attr)
    ensures Ordered(a0, AttrKey(attr)) && Ordered(b0, AttrKey(attr)) && Distinct(a0, attr) && Distinct(b0, attr)
  {
    Append(a0, x, attr);
    Append(b0, y, attr);
    var u, v := Get(x, attr), Get(y, attr);
    assert u in Values(b0, attr) + {v} && v in Values(a0, attr) + {u};
    assert Le(u, v) && Le(v, u);
    assert Values(a0, attr) == (Values(a0, attr) + {u}) - {u};
    assert Values(b0, attr) == (Values(b0, attr) + {v}) - {v};
  }

  /** Ordered lists with distinct values are determined, value by value, by their set of values. */
  lemma {:induction false} SameValues(a: seq<Element>, b: seq<Element>, attr: Attr)
    requires Ordered(a, AttrKey(attr)) && Ordered(b, AttrKey(attr)) && Distinct(a, attr) && Distinct(b, attr)
    requires Values(a, attr) == Values(b, attr)
    ensures |a| == |b| && Aligned(a, b, attr)
  {
    assert a != [] ==> Get(a[0], attr) in Values(a, attr);
    assert b != [] ==> Get(b[0], attr) in Values(b, attr);
    if a != [] && b != [] {
      var a0, x, b0, y := a[..|a| - 1], a[|a| - 1], b[..|b| - 1], b[|b| - 1];
      assert a == a0 + [x] && b == b0 + [y];
      LastIsGreatest(a0, x, b0, y, attr);
      SameValues(a0, b0, attr);
      forall i | 0 <= i < |a|
        ensures Get(a[i], attr) == Get(b[i], attr)
      {
        assert i < |a0| ==> a[i] == a0[i] && b[i] == b0[i];
      }
    }
  }

  /** The arranged longer list begins with its elements whose values the shorter one has. */
  lemma LongerStarts(longer: seq<Element>, shorter: seq<Element>, attr: Attr)
    requires |longer| >= |shorter| && Distinct(longer, attr) && Distinct(shorter, attr)
    requires Values(shorter, attr) <= Values(longer, attr)
    ensures Aligned(Arranged(longer, shorter, attr), Arranged(shorter, longer, attr), attr)
  {
    var l, s := Sorted(longer, AttrKey(attr)), Sorted(shorter, AttrKey(attr));
    SortedOrders(longer, AttrKey(attr));
    SortedOrders(shorter, AttrKey(attr));
    SortedPermutes(longer, AttrKey(attr));
    SortedPermutes(shorter, AttrKey(attr));
    SameElements(longer, l, attr);
    SameElements(shorter, s, attr);
    PermutedDistinct(longer, l, attr);
    PermutedDistinct(shorter, s, attr);
    if |longer| == |shorter| {
      DistinctCounts(longer, attr);
      DistinctCounts(shorter, attr);
      SubsetOfSameSize(Values(shorter, attr), Values(longer, attr));
      SameValues(l, s, attr);
    } else {
      var key := ExistenceKey(attr, Values(shorter, attr));
      var p := Pick(l, key, Known(-1));
      PickExisting(l, attr, Values(shorter, attr));
      SortedByTwo(l, key, Known(-1), Known(1));
      assert Values(p, attr) == Values(s, attr);
      SameValues(p, s, attr);
      assert Arranged(longer, shorter, attr)[..|p|] == p;
    }
  }

  lemma SubsetOfSameSize<T>(a: set<T>, b: set<T>)
    requires a <= b && |a| == |b|
    ensures a == b
  {
    assert |b - a| == |b| - |a|;
  }

  lemma AlignedMeansContained(longer: seq<Element>, shorter: seq<Element>, attr: Attr)
    requires |longer| >= |shorter| && Aligned(longer, shorter, attr)
    ensures Values(shorter, attr) <= Values(longer, attr)
  {
    forall v | v in Values(shorter, attr)
      ensures v in Values(longer, attr)
    {
      var e :| e in shorter && Get(e, attr) == v;
      var i :| 0 <= i < |shorter| && shorter[i] == e;
      assert longer[i] in longer;
    }
  }

  /** With distinct values, the two lists line up exactly when the shorter one has no value that the longer one lacks. */
  lemma AlignedExactly(act: seq<Element>, exp: seq<Element>, attr: Attr)
    requires Distinct(act, attr) && Distinct(exp, attr)
    ensures Aligned(Arranged(act, exp, attr), Arranged(exp, act, attr), attr) <==>
      if |act| <= |exp| then Values(act, attr) <= Values(exp, attr) else Values(exp, attr) <= Values(act, attr)
  {
    var a, e := Arranged(act, exp, attr), Arranged(exp, act, attr);
    ArrangedPermutes(act, exp, attr);
    ArrangedPermutes(exp, act, attr);
    SameElements(act, a, attr);
    SameElements(exp, e, attr);
    if |act| <= |exp| {
      if Values(act, attr) <= Values(exp, attr) {
        LongerStarts(exp, act, attr);
      } else if Aligned(a, e, attr) {
        AlignedMeansContained(e, a, attr);
      }
    } else {
      if Values(exp, attr) <= Values(act, attr) {
        LongerStarts(act, exp, attr);
      } else if Aligned(a, e, attr) {
        AlignedMeansContained(a, e, attr);
      }
    }
  }

  function Named(n: int): Element { Element(map[Name := Known(n)], 0) }

  /** The order of the second stage is not enough, its stability is needed: another arrangement of the longer list that is in
    order by existence does not line up. */
  lemma StabilityIsNeeded()
    ensures var longer, shorter, other := [Named(1), Named(2), Named(3)], [Named(1), Named(2)], [Named(2), Named(1), Named(3)];
            && multiset(other) == multiset(longer) && Ordered(other, ExistenceKey(Name, Values(shorter, Name)))
            && !Aligned(other, shorter, Name)
  {
    var shorter, other := [Named(1), Named(2)], [Named(2), Named(1), Named(3)];
    assert Named(1) in shorter && Named(2) in shorter;
    assert Values(shorter, Name) == {Known(1), Known(2)};
    assert Get(other[0], Name) != Get(shorter[0], Name);
  }

  // ---------- Comparing ----------

  /** The comparison by place. */
  ghost predicate AllSame(act: seq<Element>, exp: seq<Element>, same: (Element, Element) -> bool) {
    forall i :: 0 <= i < |exp| && i < |act| ==> same(exp[i], act[i])
  }

  /** When the lists line up, comparing by place is comparing the elements that have the same value. */
  lemma ComparedByValue(act: seq<Element>, exp: seq<Element>, attr: Attr, same: (Element, Element) -> bool)
    requires Distinct(act, attr) && Distinct(exp, attr)
    requires if |act| <= |exp| then Values(act, attr) <= Values(exp, attr) else Values(exp, attr) <= Values(act, attr)
    ensures AllSame(Arranged(act, exp, attr), Arranged(exp, act, attr), same) <==>
      forall e, a :: e in exp && a in act && Get(e, attr) == Get(a, attr) ==> same(e, a)
  {
    var a1, e1 := Arranged(act, exp, attr), Arranged(exp, act, attr);
    AlignedExactly(act, exp, attr);
    ArrangedPermutes(act, exp, attr);
    ArrangedPermutes(exp, act, attr);
    PermutedDistinct(act, a1, attr);
    PermutedDistinct(exp, e1, attr);
    SameMembers(act, a1);
    SameMembers(exp, e1);
    AlignedCompare(a1, e1, attr, same);
  }

  lemma SameMembers(a: seq<Element>, b: seq<Element>)
    requires multiset(a) == multiset(b)
    ensures forall e :: e in a <==> e in b
  {
    assert forall e :: e in a <==> e in multiset(a);
    assert forall e :: e in b <==> e in multiset(b);
  }

  lemma SamePlace(act: seq<Element>, exp: seq<Element>, attr: Attr, i: nat, j: nat)
    requires Aligned(act, exp, attr) && Distinct(act, attr) && Distinct(exp, attr)
    requires i < |exp| && j < |act| && Get(exp[i], attr) == Get(act[j], attr)
    ensures i == j
  {
    assert i < |act| ==> Get(act[i], attr) == Get(exp[i], attr);
    assert j < |exp| ==> Get(act[j], attr) == Get(exp[j], attr);
  }

  lemma AlignedCompare(act: seq<Element>, exp: seq<Element>, attr: Attr, same: (Element, Element) -> bool)
    requires Aligned(act, exp, attr) && Distinct(act, attr) && Distinct(exp, attr)
    ensures AllSame(act, exp, same) <==> forall e, a :: e in exp && a in act && Get(e, attr) == Get(a, attr) ==> same(e, a)
  {
    if AllSame(act, exp, same) {
      forall e, a | e in exp && a in act && Get(e, attr) == Get(a, attr)
        ensures same(e, a)
      {
        var i :| 0 <= i < |exp| && exp[i] == e;
        var j :| 0 <= j < |act| && act[j] == a;
        SamePlace(act, exp, attr, i, j);
      }
    } else {
      var i :| 0 <= i < |exp| && i < |act| && !same(exp[i], act[i]);
      assert exp[i] in exp && act[i] in act;
    }
  }

  // ---------- The code ----------

  /** A Python list of elements. */
  class ElementList {
    var items: seq<Element>

    constructor (items: seq<Element>)
      ensures this.items == items
    {
      this.items := items;
    }

    /** `list.sort(key=...)`. */
    method Sort(key: Element -> Key)
      modifies this
      ensures items == Sorted(old(items), key)
    {
      items := Sorted(items, key);
    }
  }

  method SortElementsByAttr(act: ElementList, exp: ElementList, attr: Attr)
    requires act != exp
    modifies act, exp
    ensures act.items == Sorted(old(act.items), AttrKey(attr)) && exp.items == Sorted(old(exp.items), AttrKey(attr))
  {
    exp.Sort(AttrKey(attr));
    act.Sort(AttrKey(attr));
  }

  method SortElementsByExistence(act: ElementList, exp: ElementList, attr: Attr)
    requires act != exp
    modifies act, exp
    ensures |old(act.items)| > |old(exp.items)| ==>
      act.items == Sorted(old(act.items), ExistenceKey(attr, Values(old(exp.items), attr))) && exp.items == old(exp.items)
    ensures |old(act.items)| < |old(exp.items)| ==>
      exp.items == Sorted(old(exp.items), ExistenceKey(attr, Values(old(act.items), attr))) && act.items == old(act.items)
    ensures |old(act.items)| == |old(exp.items)| ==> act.items == old(act.items) && exp.items == old(exp.items)
  {
    if |act.items| != |exp.items| {
      var toSort, sortBy := exp, act;
      if |act.items| > |exp.items| {
        toSort, sortBy := act, exp;
      }
      var values := Values(sortBy.items, attr);
      toSort.Sort(ExistenceKey(attr, values));
    }
  }

  /** `sort_elements`; `attr` is the number of the sort attribute used, past the end when the lists are left as they are. */
  method SortElements(act: ElementList, exp: ElementList) returns (attr: nat)
    requires act != exp && act.items != [] && exp.items != []
    modifies act, exp
    ensures attr == Chosen(old(exp.items[0]), old(act.items[0]), 0)
    ensures attr < |SORT_ATTRS| ==>
      && act.items == Arranged(old(act.items), old(exp.items), SORT_ATTRS[attr])
      && exp.items == Arranged(old(exp.items), old(act.items), SORT_ATTRS[attr])
    ensures attr >= |SORT_ATTRS| ==> act.items == old(act.items) && exp.items == old(exp.items)
  {
    attr := 0;
    while attr < |SORT_ATTRS|
      invariant attr <= |SORT_ATTRS| && act.items == old(act.items) && exp.items == old(exp.items)
      invariant Chosen(exp.items[0], act.items[0], 0) == Chosen(exp.items[0], act.items[0], attr)
    {
      var sortAttr := SORT_ATTRS[attr];
      if Get(exp.items[0], sortAttr).Known? && Get(act.items[0], sortAttr).Known? {
        ghost var a, e := act.items, exp.items;
        SortedPermutes(a, AttrKey(sortAttr));
        SortedPermutes(e, AttrKey(sortAttr));
        SameElements(a, Sorted(a, AttrKey(sortAttr)), sortAttr);
        SameElements(e, Sorted(e, AttrKey(sortAttr)), sortAttr);
        SortElementsByAttr(act, exp, sortAttr);
        SortElementsByExistence(act, exp, sortAttr);
        return;
      }
      attr := attr + 1;
    }
  }

  /** The list part of `compareElements`: expected elements beyond the actual ones are only reported. */
  method CompareLists(act: ElementList, exp: ElementList, same: (Element, Element) -> bool, equal: bool) returns (r: bool)
    requires act != exp && act.items != [] && exp.items != []
    modifies act, exp
    ensures var attr := Chosen(old(exp.items[0]), old(act.items[0]), 0);
            r == (equal && if attr < |SORT_ATTRS|
                  then AllSame(Arranged(old(act.items), old(exp.items), SORT_ATTRS[attr]), Arranged(old(exp.items), old(act.items), SORT_ATTRS[attr]), same)
                  else AllSame(old(act.items), old(exp.items), same))
  {
    var attr := SortElements(act, exp);
    r := equal;
    for i := 0 to |exp.items|
      invariant r == (equal && forall j :: 0 <= j < i && j < |act.items| ==> same(exp.items[j], act.items[j]))
    {
      if i <= |act.items| - 1 && !same(exp.items[i], act.items[i]) {
        r := false;
      }
    }
  }
}
