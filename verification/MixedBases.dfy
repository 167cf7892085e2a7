/** Equalising mixed content along base chains: `checkMixedBases` and its helpers in
  art/generateDS/generateDS.py. */
module MixedBases {
  import opened Helpers

  // ---------- The effect on the set of mixed elements ----------

  ghost predicate AnyMixed<T>(mixed: set<T>, chain: seq<T>) { exists x :: x in chain && x in mixed }

  /** `rationalizeMixedBases`: one mixed element makes its whole chain mixed. */
  ghost function Rationalized<T>(mixed: set<T>, chain: seq<T>): set<T> {
    if AnyMixed(mixed, chain) then mixed + (set x | x in chain) else mixed
  }

  ghost predicate Uniform<T>(mixed: set<T>, chain: seq<T>) {
    (forall x :: x in chain ==> x in mixed) || (forall x :: x in chain ==> x !in mixed)
  }

  /** Along the chain the base of a mixed element is mixed. */
  ghost predicate UpClosed<T>(mixed: set<T>, chain: seq<T>) {
    forall i :: 0 <= i < |chain| - 1 && chain[i] in mixed ==> chain[i + 1] in mixed
  }

  /** The walk, for the chains of the elements in the order in which they are visited. */
  ghost function Walked<T>(mixed: set<T>, chains: seq<seq<T>>): set<T>
    decreases |chains|
  {
    if chains == [] then mixed
    else Rationalized(Walked(mixed, chains[..|chains| - 1]), chains[|chains| - 1])
  }

  /** Two chains that meet go on together. */
  ghost predicate Merging<T>(a: seq<T>, b: seq<T>) {
    forall i, k :: 0 <= i < |a| && 0 <= k < |b| && a[i] == b[k] ==> a[i..] == b[k..]
  }

  lemma RationalizedIsUniform<T>(mixed: set<T>, chain: seq<T>)
    ensures mixed <= Rationalized(mixed, chain) <= mixed + (set x | x in chain)
    ensures Uniform(Rationalized(mixed, chain), chain)
  {
  }

  /** Rationalising another chain keeps the bases of mixed elements mixed. */
  lemma UpClosedStays<T>(mixed: set<T>, chain: seq<T>, other: seq<T>)
    requires UpClosed(mixed, chain) && Merging(chain, other)
    ensures UpClosed(Rationalized(mixed, other), chain)
  {
    var m := Rationalized(mixed, other);
    forall i | 0 <= i < |chain| - 1 && chain[i] in m ensures chain[i + 1] in m {
      if chain[i] !in mixed {
        var k :| 0 <= k < |other| && other[k] == chain[i];
        assert chain[i..] == other[k..];
        assert chain[i + 1] == chain[i..][1] == other[k..][1] == other[k + 1];
      }
    }
  }

  /** After the walk the base of a mixed element is mixed, all along the chain of every visited element. */
  lemma {:induction false} WalkedIsUpClosed<T>(mixed: set<T>, chains: seq<seq<T>>)
    requires forall a, b :: a in chains && b in chains ==> Merging(a, b)
    ensures mixed <= Walked(mixed, chains)
    ensures forall c :: c in chains ==> UpClosed(Walked(mixed, chains), c)
    decreases |chains|
  {
    if chains != [] {
      var n := |chains| - 1;
      WalkedIsUpClosed(mixed, chains[..n]);
      var before := Walked(mixed, chains[..n]);
      RationalizedIsUniform(before, chains[n]);
      forall c | c in chains ensures UpClosed(Walked(mixed, chains), c) {
        if c in chains[..n] {
          UpClosedStays(before, c, chains[n]);
        } else {
          assert c == chains[n];
        }
      }
    }
  }

  lemma {:induction false} UpClosedReaches<T>(mixed: set<T>, chain: seq<T>, i: nat)
    requires UpClosed(mixed, chain) && i < |chain| && chain[0] in mixed
    ensures chain[i] in mixed
  {
    if i > 0 {
      UpClosedReaches(mixed, chain, i - 1);
    }
  }

  /** What uniformity means for the final flags, given that bases of mixed elements are mixed. */
  lemma UniformFromStart<T>(mixed: set<T>, chains: seq<seq<T>>, c: seq<T>)
    requires forall a, b :: a in chains && b in chains ==> Merging(a, b)
    requires c in chains && c != []
    ensures var m := Walked(mixed, chains); Uniform(m, c) <==> (c[0] in m || !AnyMixed(m, c[1..]))
  {
    var m := Walked(mixed, chains);
    WalkedIsUpClosed(mixed, chains);
    if c[0] in m {
      forall x | x in c ensures x in m {
        var i :| 0 <= i < |c| && c[i] == x;
        UpClosedReaches(m, c, i);
      }
    }
    assert forall x :: x in c <==> x == c[0] || x in c[1..];
    if c[0] !in m && AnyMixed(m, c[1..]) {
      var x :| x in c[1..] && x in m;
      assert x in c && c[0] in c;
    }
  }

  // ---------- The final flags from the initial ones ----------

  /** The chains are not empty, and those that meet go on together. */
  ghost predicate ChainsOk<T>(chains: seq<seq<T>>) {
    && (forall i :: 0 <= i < |chains| ==> chains[i] != [])
    && (forall i, k :: 0 <= i < |chains| && 0 <= k < |chains| ==> Merging(chains[i], chains[k]))
  }

  function Root<T>(chain: seq<T>): T
    requires chain != []
  {
    chain[|chain| - 1]
  }

  /** Chains that meet have the same root. */
  lemma MeetingChains<T>(a: seq<T>, b: seq<T>, x: T)
    requires a != [] && b != [] && Merging(a, b) && x in a && x in b
    ensures Root(a) == Root(b)
  {
    var i :| 0 <= i < |a| && a[i] == x;
    var k :| 0 <= k < |b| && b[k] == x;
    assert a[i..] == b[k..];
    assert Root(a) == a[i..][|a| - 1 - i] && Root(b) == b[k..][|b| - 1 - k];
  }

  /** Chain `i` is made mixed on its visit: it, or a chain visited before with the same root, holds an element that is mixed
    from the beginning. */
  ghost predicate Mixes<T>(mixed: set<T>, chains: seq<seq<T>>, i: nat)
    requires i < |chains| && ChainsOk(chains)
  {
    exists k :: 0 <= k <= i && Root(chains[k]) == Root(chains[i]) && AnyMixed(mixed, chains[k])
  }

  /** An element is mixed after the walk exactly when it was before, or lies on a chain that is made mixed. */
  lemma {:induction false} InWalked<T>(mixed: set<T>, chains: seq<seq<T>>, x: T)
    requires ChainsOk(chains)
    ensures x in Walked(mixed, chains) <==> x in mixed || exists i :: 0 <= i < |chains| && x in chains[i] && Mixes(mixed, chains, i)
    decreases |chains|
  {
    if chains != [] {
      var n := |chains| - 1;
      var init, last := chains[..n], chains[n];
      assert ChainsOk(init) && forall i :: 0 <= i < n ==> init[i] == chains[i];
      InWalked(mixed, init, x);
      forall i | 0 <= i < n
        ensures Mixes(mixed, init, i) <==> Mixes(mixed, chains, i)
      {
        SameMixes(mixed, chains, i);
      }
      LastMixes(mixed, chains);
      var before := Walked(mixed, init);
      assert x in Walked(mixed, chains) <==> x in before || (x in last && AnyMixed(before, last));
      if x in last && Mixes(mixed, chains, n) {
        assert x in chains[n];
      }
    }
  }

  lemma SameMixes<T>(mixed: set<T>, chains: seq<seq<T>>, i: nat)
    requires ChainsOk(chains) && i < |chains| - 1
    ensures ChainsOk(chains[..|chains| - 1])
    ensures (Mixes(mixed, chains[..|chains| - 1], i) <==> Mixes(mixed, chains, i))
  {
    var init := chains[..|chains| - 1];
    assert ChainsOk(init);
    assert forall k :: 0 <= k <= i ==> init[k] == chains[k];
  }

  /** The last visit finds a mixed element on its chain exactly when `Mixes` says so. */
  lemma {:induction false} LastMixes<T>(mixed: set<T>, chains: seq<seq<T>>)
    requires ChainsOk(chains) && chains != []
    ensures AnyMixed(Walked(mixed, chains[..|chains| - 1]), chains[|chains| - 1]) <==> Mixes(mixed, chains, |chains| - 1)
    decreases |chains|, 0
  {
    var n := |chains| - 1;
    var init, last := chains[..n], chains[n];
    assert ChainsOk(init) && forall i :: 0 <= i < n ==> init[i] == chains[i];
    if AnyMixed(Walked(mixed, init), last) {
      var y :| y in last && y in Walked(mixed, init);
      InWalked(mixed, init, y);
      if y in mixed {
        assert AnyMixed(mixed, chains[n]);
      } else {
        var i :| 0 <= i < |init| && y in init[i] && Mixes(mixed, init, i);
        var k :| 0 <= k <= i && Root(init[k]) == Root(init[i]) && AnyMixed(mixed, init[k]);
        MeetingChains(chains[i], chains[n], y);
        assert Root(chains[k]) == Root(chains[n]) && AnyMixed(mixed, chains[k]);
      }
    }
    if Mixes(mixed, chains, n) {
      var k :| 0 <= k <= n && Root(chains[k]) == Root(chains[n]) && AnyMixed(mixed, chains[k]);
      var y := Root(last);
      if k == n {
        var z :| z in last && z in mixed;
        InWalked(mixed, init, z);
      } else {
        assert Mixes(mixed, init, k) by { assert Root(init[k]) == Root(init[k]) && AnyMixed(mixed, init[k]); }
        assert y in init[k] && y in last;
        InWalked(mixed, init, y);
      }
    }
  }

  /** What can be told before the walk: no visited chain with the root of chain `j` holds a mixed element, or its first element
    lies on a chain that is made mixed. */
  ghost predicate StaysUniform<T>(mixed: set<T>, chains: seq<seq<T>>, j: nat)
    requires j < |chains| && ChainsOk(chains)
  {
    || (forall k :: 0 <= k < |chains| && Root(chains[k]) == Root(chains[j]) ==> !AnyMixed(mixed, chains[k]))
    || (exists i :: 0 <= i < |chains| && chains[j][0] in chains[i] && Mixes(mixed, chains, i))
  }

  /** The chain of a visited element is uniform at the end exactly when the flags before the walk and the order of the visits
    say so. */
  lemma UniformExactly<T>(mixed: set<T>, chains: seq<seq<T>>, j: nat)
    requires ChainsOk(chains) && j < |chains|
    ensures Uniform(Walked(mixed, chains), chains[j]) <==> StaysUniform(mixed, chains, j)
  {
    var m, c := Walked(mixed, chains), chains[j];
    assert c in chains;
    forall a, b | a in chains && b in chains
      ensures Merging(a, b)
    {
    }
    UniformFromStart(mixed, chains, c);
    InWalked(mixed, chains, c[0]);
    if c[0] in mixed {
      assert c[0] in c && AnyMixed(mixed, c);
      assert Mixes(mixed, chains, j);
    }
    if exists k :: 0 <= k < |chains| && Root(chains[k]) == Root(c) && AnyMixed(mixed, chains[k]) {
      var k :| 0 <= k < |chains| && Root(chains[k]) == Root(c) && AnyMixed(mixed, chains[k]);
      assert Mixes(mixed, chains, k);
      assert Root(c) in chains[k] && Root(c) in c;
      InWalked(mixed, chains, Root(c));
      assert Root(c) in m;
      assert |c| > 1 ==> c[1..][|c| - 2] == Root(c);
    } else if AnyMixed(m, c) {
      NobodyMixes(mixed, chains, j);
    }
  }

  lemma NobodyMixes<T>(mixed: set<T>, chains: seq<seq<T>>, j: nat)
    requires ChainsOk(chains) && j < |chains|
    requires forall k :: 0 <= k < |chains| && Root(chains[k]) == Root(chains[j]) ==> !AnyMixed(mixed, chains[k])
    ensures !AnyMixed(Walked(mixed, chains), chains[j])
  {
    forall y | y in chains[j]
      ensures y !in Walked(mixed, chains)
    {
      InWalked(mixed, chains, y);
      if y in Walked(mixed, chains) && y !in mixed {
        var i :| 0 <= i < |chains| && y in chains[i] && Mixes(mixed, chains, i);
        assert chains[i] in chains && chains[j] in chains;
        MeetingChains(chains[i], chains[j], y);
      }
    }
  }

  /** The order of the walk matters: a sibling visited later can make a base mixed under an element that
      stays as it was. */
  lemma LaterSiblingSplitsChain<T>(plain: T, other: T, base: T)
    requires plain != other && plain != base && other != base
    ensures var m := Walked({other}, [[plain, base], [other, base]]); !Uniform(m, [plain, base])
    ensures var m := Walked({other}, [[other, base], [plain, base]]); Uniform(m, [plain, base])
  {
    var p, o := [plain, base], [other, base];
    assert [p, o][..1] == [p] && [o, p][..1] == [o] && [p][..0] == [] && [o][..0] == [];
    assert !AnyMixed({other}, p);
    assert Walked({other}, [p]) == {other};
    assert other in o && AnyMixed({other}, o);
    assert Walked({other}, [p, o]) == {other, base};
    assert p[0] in p && p[1] in p;
    assert Walked({other}, [o]) == {other, base};
    assert base in p && AnyMixed({other, base}, p);
    assert Walked({other}, [o, p]) == {other, base, plain};
  }

  // ---------- The elements ----------

  class XschemaElement {
    const base: Option<string>
    var mixed: bool
    var mixedExtensionError: bool

    constructor (base: Option<string>, mixed: bool)
      ensures this.base == base && this.mixed == mixed && !mixedExtensionError
    {
      this.base, this.mixed, mixedExtensionError := base, mixed, false;
    }
  }

  /** The elements of a schema: `dict` is ElementDict; `rank` witnesses that bases are acyclic. */
  class Schema {
    const dict: map<string, XschemaElement>
    ghost const rank: map<XschemaElement, nat>

    constructor (dict: map<string, XschemaElement>, ghost rank: map<XschemaElement, nat>)
      ensures this.dict == dict && this.rank == rank
    {
      this.dict, this.rank := dict, rank;
    }

    ghost predicate Valid() {
      forall e :: e in rank && Parent(e).Some? ==> Parent(e).value in rank && rank[Parent(e).value] < rank[e]
    }

    function Parent(e: XschemaElement): Option<XschemaElement> {
      if e.base.Some? && e.base.value in dict then Some(dict[e.base.value]) else None
    }

    /** The element, its base, the base of that, and so on. */
    ghost function Chain(e: XschemaElement): (c: seq<XschemaElement>)
      requires Valid() && e in rank
      ensures c != [] && c[0] == e && forall x :: x in c ==> x in rank && rank[x] <= rank[e]
      decreases rank[e]
    {
      if Parent(e).None? then [e] else [e] + Chain(Parent(e).value)
    }

    /** Every element of a chain names the next one as its base, and the last one names no defined base. */
    lemma {:induction false} ChainLinks(e: XschemaElement)
      requires Valid() && e in rank
      ensures forall i :: 0 <= i < |Chain(e)| - 1 ==>
        Chain(e)[i].base.Some? && Chain(e)[i].base.value in dict && Chain(e)[i + 1] == dict[Chain(e)[i].base.value]
      ensures var last := Chain(e)[|Chain(e)| - 1]; last.base.None? || last.base.value !in dict
      decreases rank[e]
    {
      if Parent(e).Some? {
        var rest := Chain(Parent(e).value);
        ChainLinks(Parent(e).value);
        forall i | 0 <= i < |Chain(e)| - 1
          ensures Chain(e)[i].base.Some? && Chain(e)[i].base.value in dict && Chain(e)[i + 1] == dict[Chain(e)[i].base.value]
        {
          assert i > 0 ==> Chain(e)[i] == rest[i - 1] && Chain(e)[i + 1] == rest[i - 1 + 1];
        }
      }
    }

    ghost function Mixed(): set<XschemaElement>
      reads rank.Keys
    {
      set e | e in rank && e.mixed
    }

    lemma {:induction false} ChainSuffix(e: XschemaElement, i: nat)
      requires Valid() && e in rank && i < |Chain(e)|
      ensures Chain(e)[i..] == Chain(Chain(e)[i])
      decreases rank[e]
    {
      if i > 0 {
        ChainSuffix(Parent(e).value, i - 1);
        assert Chain(e)[i..] == Chain(Parent(e).value)[i - 1..];
      }
    }

    lemma ChainsMerge(a: XschemaElement, b: XschemaElement)
      requires Valid() && a in rank && b in rank
      ensures Merging(Chain(a), Chain(b))
    {
      forall i, k | 0 <= i < |Chain(a)| && 0 <= k < |Chain(b)| && Chain(a)[i] == Chain(b)[k]
        ensures Chain(a)[i..] == Chain(b)[k..]
      {
        ChainSuffix(a, i);
        ChainSuffix(b, k);
      }
    }

    method HasMixedInChain(e: XschemaElement) returns (r: bool)
      requires Valid() && e in rank
      ensures r <==> AnyMixed(Mixed(), Chain(e))
      decreases rank[e]
    {
      assert Chain(e)[0] in Chain(e) && (e.mixed <==> e in Mixed());
      if e.mixed {
        return true;
      }
      if Parent(e).Some? {
        r := HasMixedInChain(Parent(e).value);
      } else {
        r := false;
      }
    }

    method EqualizeMixedBases(e: XschemaElement)
      requires Valid() && e in rank
      modifies (set x | x in Chain(e))`mixed
      ensures Mixed() == old(Mixed()) + (set x | x in Chain(e))
      decreases rank[e]
    {
      if !e.mixed {
        e.mixed := true;
      }
      if Parent(e).Some? {
        EqualizeMixedBases(Parent(e).value);
      }
    }

    method RationalizeMixedBases(e: XschemaElement)
      requires Valid() && e in rank
      modifies (set x | x in Chain(e))`mixed
      ensures Mixed() == Rationalized(old(Mixed()), Chain(e))
    {
      var mixed := HasMixedInChain(e);
      if mixed {
        EqualizeMixedBases(e);
      }
    }

    /** The error is set at the first element of the chain whose base differs from the starting element, and
        nowhere if there is none. */
    method CheckMixedBasesChain(e: XschemaElement, childMixed: bool)
      requires Valid() && e in rank
      modifies (set x | x in Chain(e))`mixedExtensionError
      ensures forall x :: x in rank ==>
        x.mixedExtensionError == (old(x.mixedExtensionError) || FirstDifference(x, e, childMixed))
      decreases rank[e]
    {
      if Parent(e).Some? {
        var parent := Parent(e).value;
        if childMixed != parent.mixed {
          e.mixedExtensionError := true;
          return;
        }
        CheckMixedBasesChain(parent, childMixed);
      }
    }

    ghost predicate FirstDifference(x: XschemaElement, e: XschemaElement, childMixed: bool)
      requires Valid() && e in rank
      reads rank.Keys
      decreases rank[e]
    {
      Parent(e).Some? &&
      if Parent(e).value.mixed != childMixed then x == e else FirstDifference(x, Parent(e).value, childMixed)
    }

    /** Element `x` stands at place `i` of the chain, before the first one, above the start, whose flag differs. */
    ghost predicate BeforeDifference(c: seq<XschemaElement>, x: XschemaElement, i: int, childMixed: bool)
      reads c
    {
      0 <= i < |c| - 1 && x == c[i] && c[i + 1].mixed != childMixed && forall k :: 0 < k <= i ==> c[k].mixed == childMixed
    }

    lemma DifferenceFurtherUp(c: seq<XschemaElement>, e: XschemaElement, rest: seq<XschemaElement>, x: XschemaElement, i: nat, childMixed: bool)
      requires c == [e] + rest && rest != [] && rest[0].mixed == childMixed
      ensures BeforeDifference(c, x, i + 1, childMixed) <==> BeforeDifference(rest, x, i, childMixed)
      ensures !BeforeDifference(c, x, 0, childMixed)
    {
      assert forall k :: 0 < k < |c| ==> c[k] == rest[k - 1];
      if BeforeDifference(c, x, i + 1, childMixed) {
        forall k | 0 < k <= i
          ensures rest[k].mixed == childMixed
        {
          assert c[k + 1] == rest[k];
        }
        assert c[i + 1 + 1] == rest[i + 1];
      }
      if BeforeDifference(rest, x, i, childMixed) {
        forall k | 0 < k <= i + 1
          ensures c[k].mixed == childMixed
        {
          assert c[k] == rest[k - 1];
        }
        assert c[i + 1 + 1] == rest[i + 1] && c[i + 1] == rest[i];
      }
      assert rest[0] == c[1];
    }

    lemma DifferenceHere(c: seq<XschemaElement>, e: XschemaElement, rest: seq<XschemaElement>, x: XschemaElement, childMixed: bool)
      requires c == [e] + rest && rest != [] && rest[0].mixed != childMixed
      ensures x == e <==> BeforeDifference(c, x, 0, childMixed)
      ensures forall i :: i != 0 ==> !BeforeDifference(c, x, i, childMixed)
    {
      assert c[0] == e && c[1] == rest[0];
    }

    lemma {:induction false} DifferenceOn(c: seq<XschemaElement>, x: XschemaElement, e: XschemaElement, childMixed: bool)
      requires Valid() && e in rank && c == Chain(e)
      ensures FirstDifference(x, e, childMixed) <==> exists i :: BeforeDifference(c, x, i, childMixed)
      decreases rank[e]
    {
      if Parent(e).Some? {
        var rest := Chain(Parent(e).value);
        assert c == [e] + rest && rest[0] == Parent(e).value;
        if Parent(e).value.mixed != childMixed {
          DifferenceHere(c, e, rest, x, childMixed);
        } else {
          DifferenceOn(rest, x, Parent(e).value, childMixed);
          if i :| BeforeDifference(rest, x, i, childMixed) {
            DifferenceFurtherUp(c, e, rest, x, i, childMixed);
            assert BeforeDifference(c, x, i + 1, childMixed);
          }
          if i :| BeforeDifference(c, x, i, childMixed) {
            DifferenceFurtherUp(c, e, rest, x, if i > 0 then i - 1 else 0, childMixed);
            assert BeforeDifference(rest, x, i - 1, childMixed);
          }
        }
      }
    }

    /** By places: the error goes to that element. */
    lemma FirstDifferenceExactly(x: XschemaElement, e: XschemaElement, childMixed: bool)
      requires Valid() && e in rank
      ensures FirstDifference(x, e, childMixed) <==> exists i :: BeforeDifference(Chain(e), x, i, childMixed)
    {
      DifferenceOn(Chain(e), x, e, childMixed);
    }

    lemma {:induction false} UniformHasNoDifference(x: XschemaElement, e: XschemaElement, childMixed: bool)
      requires Valid() && e in rank && forall y :: y in Chain(e) ==> y.mixed == childMixed
      ensures !FirstDifference(x, e, childMixed)
      decreases rank[e]
    {
      if Parent(e).Some? {
        assert Parent(e).value in Chain(e);
        UniformHasNoDifference(x, Parent(e).value, childMixed);
      }
    }

    ghost function Chains(order: seq<XschemaElement>): (r: seq<seq<XschemaElement>>)
      requires Valid() && forall e :: e in order ==> e in rank
      ensures |r| == |order| && forall i :: 0 <= i < |order| ==> r[i] == Chain(order[i])
    {
      seq(|order|, i requires 0 <= i < |order| => Chain(order[i]))
    }

    /** `checkMixedBases` over the element tree, for its elements in the order in which they are visited. */
    method CheckMixedBases(order: seq<XschemaElement>)
      requires Valid() && forall e :: e in order ==> e in rank
      modifies rank.Keys
      ensures Mixed() == Walked(old(Mixed()), Chains(order))
      ensures forall e :: e in rank ==> e.mixedExtensionError == old(e.mixedExtensionError)
      ensures forall e :: e in order ==> UpClosed(Mixed(), Chain(e))
      ensures ChainsOk(Chains(order))
      ensures forall j :: 0 <= j < |order| ==> (Uniform(Mixed(), Chain(order[j])) <==> StaysUniform(old(Mixed()), Chains(order), j))
    {
      for i := 0 to |order|
        invariant Mixed() == Walked(old(Mixed()), Chains(order[..i]))
        invariant forall e :: e in rank ==> e.mixedExtensionError == old(e.mixedExtensionError)
      {
        var e := order[i];
        RationalizeMixedBases(e);
        ghost var m := Mixed();
        CheckMixedBasesChain(e, e.mixed);
        assert Mixed() == m;
        forall x | x in rank ensures !FirstDifference(x, e, e.mixed) {
          assert forall y :: y in Chain(e) ==> (y.mixed <==> y in m);
          assert e in Chain(e);
          UniformHasNoDifference(x, e, e.mixed);
        }
        assert Chains(order[..i + 1])[..i] == Chains(order[..i]);
      }
      assert order[..|order|] == order;
      AllMerge(order);
      WalkedIsUpClosed(old(Mixed()), Chains(order));
      forall e | e in order ensures UpClosed(Mixed(), Chain(e)) {
        var i :| 0 <= i < |order| && order[i] == e;
        assert Chains(order)[i] in Chains(order);
      }
      AllChainsOk(order);
      forall j | 0 <= j < |order|
        ensures Uniform(Mixed(), Chain(order[j])) <==> StaysUniform(old(Mixed()), Chains(order), j)
      {
        UniformExactly(old(Mixed()), Chains(order), j);
      }
    }

    lemma AllChainsOk(order: seq<XschemaElement>)
      requires Valid() && forall e :: e in order ==> e in rank
      ensures ChainsOk(Chains(order))
    {
      forall i, k | 0 <= i < |order| && 0 <= k < |order|
        ensures Merging(Chains(order)[i], Chains(order)[k])
      {
        ChainsMerge(order[i], order[k]);
      }
    }

    lemma AllMerge(order: seq<XschemaElement>)
      requires Valid() && forall e :: e in order ==> e in rank
      ensures forall a, b :: a in Chains(order) && b in Chains(order) ==> Merging(a, b)
    {
      forall a, b | a in Chains(order) && b in Chains(order) ensures Merging(a, b) {
        var i :| 0 <= i < |order| && Chains(order)[i] == a;
        var k :| 0 <= k < |order| && Chains(order)[k] == b;
        ChainsMerge(order[i], order[k]);
      }
    }
  }
}
