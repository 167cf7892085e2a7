/** What group expansion yields, compared with the in-order flattening of the references. */
module GroupResults {
  import opened Helpers
  import opened GroupExpansion

  /** The groups as parsed; `rank` witnesses that references are acyclic. */
  datatype Table = Table(groups: map<string, Id>, children: map<Id, seq<Child>>, rank: Id -> nat)

  function Target(t: Table, c: Child): Id {
    if c.Ref? && Resolve(t.groups, c.name).Some? then Resolve(t.groups, c.name).value else 0
  }

  ghost predicate ListOk(t: Table, list: seq<Child>, bound: nat) {
    forall c :: c in list && c.Ref? ==>
      Resolve(t.groups, c.name).Some? && Target(t, c) in t.children && t.rank(Target(t, c)) < bound
  }

  /** References are known and acyclic. */
  ghost predicate Ranked(t: Table) {
    TableOk(t.groups, t.children) && forall id :: id in t.children ==> ListOk(t, t.children[id], t.rank(id))
  }

  predicate HasRef(list: seq<Child>) { exists c :: c in list && c.Ref? }

  predicate Holder(t: Table, id: Id) { id in t.children && HasRef(t.children[id]) }

  // ---------- Specification ----------

  /** The in-order flattening of a group. */
  ghost function Flat(t: Table, id: Id): seq<Child>
    requires Ranked(t) && id in t.children
    decreases t.rank(id), 1, 0
  {
    FlatList(t, t.children[id], t.rank(id))
  }

  ghost function FlatList(t: Table, list: seq<Child>, bound: nat): seq<Child>
    requires Ranked(t) && ListOk(t, list, bound)
    decreases bound, 0, |list|
  {
    if list == [] then []
    else (if list[0].Leaf? then [list[0]] else Flat(t, Target(t, list[0]))) + FlatList(t, list[1..], bound)
  }

  /** The groups with references that the full unfolding of a group passes through, repetitions included. */
  ghost function Unfold(t: Table, id: Id): seq<Id>
    requires Ranked(t) && id in t.children
    decreases t.rank(id), 1, 0
  {
    if Holder(t, id) then [id] + UnfoldList(t, t.children[id], t.rank(id)) else []
  }

  ghost function UnfoldList(t: Table, list: seq<Child>, bound: nat): seq<Id>
    requires Ranked(t) && ListOk(t, list, bound)
    decreases bound, 0, |list|
  {
    if list == [] then []
    else (if list[0].Leaf? then [] else Unfold(t, Target(t, list[0]))) + UnfoldList(t, list[1..], bound)
  }

  ghost predicate NoDup(s: seq<Id>) { forall i, k :: 0 <= i < k < |s| ==> s[i] != s[k] }

  ghost function Elems(s: seq<Id>): set<Id> { set x | x in s }

  ghost predicate Clean(s: seq<Id>, visited: set<Id>) { NoDup(s) && Elems(s) !! visited }

  function Leaves(list: seq<Child>): nat {
    if list == [] then 0 else (if list[0].Leaf? then 1 else 0) + Leaves(list[1..])
  }

  ghost predicate NonEmpty(t: Table)
    requires Ranked(t)
  {
    forall id :: id in t.children ==> Flat(t, id) != []
  }

  // ---------- Basic facts ----------

  lemma CleanAppend(a: seq<Id>, b: seq<Id>, visited: set<Id>)
    ensures Clean(a + b, visited) <==> Clean(a, visited) && Clean(b, visited + Elems(a))
    ensures Elems(a + b) == Elems(a) + Elems(b)
  {
    assert forall i :: 0 <= i < |a| ==> (a + b)[i] == a[i];
    assert forall i :: 0 <= i < |b| ==> (a + b)[|a| + i] == b[i];
    if Clean(a + b, visited) {
      forall i, k | 0 <= i < k < |b| ensures b[i] != b[k] {
        assert (a + b)[|a| + i] != (a + b)[|a| + k];
      }
      forall x | x in Elems(b) ensures x !in visited + Elems(a) {
        var k :| 0 <= k < |b| && b[k] == x;
        assert (a + b)[|a| + k] == x;
      }
      forall x | x in Elems(a) ensures x !in visited {
        assert x in a + b;
      }
    }
    if Clean(a, visited) && Clean(b, visited + Elems(a)) {
      forall i, k | 0 <= i < k < |a + b| ensures (a + b)[i] != (a + b)[k] {
        if i < |a| <= k {
          assert a[i] in Elems(a) && b[k - |a|] in Elems(b);
        }
      }
    }
  }

  lemma {:induction false} LeavesAppend(a: seq<Child>, b: seq<Child>)
    ensures Leaves(a + b) == Leaves(a) + Leaves(b)
    decreases |a|
  {
    if a == [] {
      assert a + b == b;
    } else {
      LeavesAppend(a[1..], b);
      assert (a + b)[1..] == a[1..] + b;
    }
  }

  lemma {:induction false} NoRefLeaves(list: seq<Child>)
    ensures !HasRef(list) <==> Leaves(list) == |list|
    ensures Leaves(list) <= |list|
    decreases |list|
  {
    if list != [] {
      NoRefLeaves(list[1..]);
      if HasRef(list[1..]) {
        var c :| c in list[1..] && c.Ref?;
        assert c in list;
      }
      if HasRef(list) && list[0].Leaf? {
        var c :| c in list && c.Ref?;
        assert c in list[1..];
      }
    }
  }

  lemma {:induction false} FlatHasNoRef(t: Table, list: seq<Child>, bound: nat)
    requires Ranked(t) && ListOk(t, list, bound)
    ensures Leaves(FlatList(t, list, bound)) == |FlatList(t, list, bound)|
    ensures !HasRef(list) ==> FlatList(t, list, bound) == list && UnfoldList(t, list, bound) == []
    decreases bound, |list|
  {
    if list != [] {
      FlatHasNoRef(t, list[1..], bound);
      if list[0].Ref? {
        var r := Target(t, list[0]);
        assert list[0] in list;
        FlatHasNoRef(t, t.children[r], t.rank(r));
        LeavesAppend(Flat(t, r), FlatList(t, list[1..], bound));
      } else {
        LeavesAppend([list[0]], FlatList(t, list[1..], bound));
        assert Leaves([list[0]]) == 1;
        assert HasRef(list[1..]) ==> HasRef(list);
      }
    }
  }

  lemma {:induction false} UnfoldBelow(t: Table, list: seq<Child>, bound: nat)
    requires Ranked(t) && ListOk(t, list, bound)
    ensures forall x :: x in UnfoldList(t, list, bound) ==> Holder(t, x) && t.rank(x) < bound
    decreases bound, |list|
  {
    if list != [] {
      UnfoldBelow(t, list[1..], bound);
      if list[0].Ref? {
        var r := Target(t, list[0]);
        assert list[0] in list;
        UnfoldBelow(t, t.children[r], t.rank(r));
      }
    }
  }

  // ---------- The traversal ----------

  /** Only visited groups have been touched, and only groups with references are ever visited. */
  ghost predicate Untouched(t: Table, st: State) {
    && st.children.Keys == t.children.Keys
    && (forall id :: id in t.children && id !in st.visited ==> st.children[id] == t.children[id])
    && (forall id :: id in st.visited ==> Holder(t, id))
  }

  /** A child list is as it was or flattened. */
  ghost predicate OldOrFlat(t: Table, before: map<Id, seq<Child>>, after: map<Id, seq<Child>>)
    requires Ranked(t)
  {
    forall id :: id in t.children && id in before && id in after ==> after[id] == before[id] || after[id] == Flat(t, id)
  }

  // Writing `== true` after one of the following predicates makes the verifier treat it as one fact and not as many.

  /** Expanding a list from `st` gave `e`; `flat` is the list's flattening, `u` its unfolding, `leaves` the
      number of its proper elements. */
  ghost predicate Result(t: Table, grp: Id, flat: seq<Child>, u: seq<Id>, hasRef: bool, leaves: nat, st: State, e: Expanded)
    requires Ranked(t)
  {
    && Untouched(t, e.st) && st.visited <= e.st.visited
    && (hasRef ==> grp in e.st.visited)
    && Leaves(e.out) <= |flat|
    && (Clean(u, st.visited) ==>
          && e.out == flat && (e.changed <==> hasRef)
          && e.st.visited == st.visited + (if hasRef then {grp} else {}) + Elems(u)
          && OldOrFlat(t, st.children, e.st.children))
    && (NonEmpty(t) && !Clean(u, st.visited) ==> Leaves(e.out) < |flat|)
    && (!e.changed ==> Leaves(e.out) == leaves)
  }

  ghost predicate ListResult(t: Table, grp: Id, list: seq<Child>, st: State, e: Expanded)
    requires Ranked(t) && ListOk(t, list, t.rank(grp))
  {
    Result(t, grp, FlatList(t, list, t.rank(grp)), UnfoldList(t, list, t.rank(grp)), HasRef(list), Leaves(list), st, e)
  }

  ghost predicate GroupResult(t: Table, grp: Id, flat: seq<Child>, u: seq<Id>, st: State, r: State)
    requires Ranked(t) && grp in t.children
  {
    && Untouched(t, r) && st.visited <= r.visited
    && Leaves(r.children[grp]) <= |flat|
    && (Clean(u, st.visited) ==>
          r.children[grp] == flat && r.visited == st.visited + Elems(u) && OldOrFlat(t, st.children, r.children))
    && (NonEmpty(t) && !Clean(u, st.visited) ==> Leaves(r.children[grp]) < |flat|)
  }

  /** What is put into the group after its list was expanded. */
  function Replaced(grp: Id, e: Expanded): State {
    if e.changed then State(e.st.children[grp := e.out], e.st.visited) else e.st
  }

  lemma {:induction false} ExpandGroupResult(t: Table, grp: Id, st: State)
    requires Ranked(t) && Untouched(t, st) && grp in t.children && grp !in st.visited
    ensures GroupResult(t, grp, Flat(t, grp), Unfold(t, grp), st, Expand(t.groups, grp, st))
    decreases t.rank(grp), 1, 0
  {
    var list := t.children[grp];
    var e := ExpandList(t.groups, grp, list, st);
    ExpandListResult(t, grp, list, st);
    UnfoldBelow(t, list, t.rank(grp));
    FlatHasNoRef(t, list, t.rank(grp));
    if e.changed {
      ReplaceGroup(t, grp, st, e, UnfoldList(t, list, t.rank(grp)));
    } else {
      NothingChanges(t.groups, grp, list, st);
      KeepGroup(t, grp, st, e, UnfoldList(t, list, t.rank(grp)));
    }
  }

  lemma OwnUnfold(t: Table, grp: Id, visited: set<Id>, u: seq<Id>)
    requires grp !in visited && grp !in u
    ensures Clean([grp] + u, visited) <==> Clean(u, visited)
    ensures Elems([grp] + u) == {grp} + Elems(u)
  {
    CleanAppend([grp], u, visited);
    CleanSkip(u, visited, grp);
    assert Elems([grp]) == {grp};
  }

  lemma ReplaceGroup(t: Table, grp: Id, st: State, e: Expanded, u: seq<Id>)
    requires Ranked(t) && Untouched(t, st) && grp in t.children && grp !in st.visited && grp !in u && e.changed
    requires Result(t, grp, Flat(t, grp), u, Holder(t, grp), Leaves(t.children[grp]), st, e)
    requires !Holder(t, grp) ==> u == []
    ensures GroupResult(t, grp, Flat(t, grp), if Holder(t, grp) then [grp] + u else [], st, Replaced(grp, e))
  {
    assert Clean([], st.visited);
    if Holder(t, grp) {
      ReplaceHolder(t, grp, Flat(t, grp), st, e, u);
    }
  }

  lemma ReplaceHolder(t: Table, grp: Id, flat: seq<Child>, st: State, e: Expanded, u: seq<Id>)
    requires Ranked(t) && Untouched(t, st) && grp in t.children && grp !in st.visited && grp !in u && e.changed
    requires Result(t, grp, flat, u, true, Leaves(t.children[grp]), st, e) && flat == Flat(t, grp)
    ensures GroupResult(t, grp, flat, [grp] + u, st, Replaced(grp, e))
  {
    OwnUnfold(t, grp, st.visited, u);
    assert Replaced(grp, e).children[grp] == e.out && Replaced(grp, e).visited == e.st.visited;
    assert Clean(u, st.visited) ==> e.st.visited == st.visited + Elems([grp] + u);
  }

  lemma KeepGroup(t: Table, grp: Id, st: State, e: Expanded, u: seq<Id>)
    requires Ranked(t) && Untouched(t, st) && grp in t.children && grp !in st.visited && grp !in u && !e.changed
    requires e.st.children == st.children
    requires Result(t, grp, Flat(t, grp), u, Holder(t, grp), Leaves(t.children[grp]), st, e)
    requires !Holder(t, grp) ==> u == [] && Flat(t, grp) == t.children[grp]
    ensures GroupResult(t, grp, Flat(t, grp), if Holder(t, grp) then [grp] + u else [], st, Replaced(grp, e))
  {
    OwnUnfold(t, grp, st.visited, u);
    if !Holder(t, grp) {
      assert Clean([], st.visited);
      assert Elems([]) == {};
    }
  }

  lemma {:induction false} NothingChanges(groups: map<string, Id>, grp: Id, list: seq<Child>, st: State)
    requires TableOk(groups, st.children) && grp in st.children && !ExpandList(groups, grp, list, st).changed
    ensures ExpandList(groups, grp, list, st).st.children == st.children
    decreases |list|
  {
    if list != [] {
      if list[0].Leaf? {
        NothingChanges(groups, grp, list[1..], st);
      } else {
        var r := Resolve(groups, list[0].name);
        if r.None? {
          NothingChanges(groups, grp, list[1..], st);
        } else if r.value in st.visited + {grp} {
          NothingChanges(groups, grp, list[1..], State(st.children, st.visited + {grp}));
        }
      }
    }
  }

  lemma CleanSkip(u: seq<Id>, visited: set<Id>, grp: Id)
    requires grp !in u
    ensures Clean(u, visited) <==> Clean(u, visited + {grp})
  {
  }

  lemma {:induction false} ExpandListResult(t: Table, grp: Id, list: seq<Child>, st: State)
    requires Ranked(t) && Untouched(t, st) && grp in t.children && ListOk(t, list, t.rank(grp))
    requires HasRef(list) ==> Holder(t, grp)
    ensures ListResult(t, grp, list, st, ExpandList(t.groups, grp, list, st)) == true
    decreases t.rank(grp), 0, |list|
  {
    if list == [] {
      assert Clean([], st.visited);
    } else {
      var rest := list[1..];
      HasRefTail(list);
      UnrollOk(t, grp, list);
      if list[0].Leaf? {
        ExpandListResult(t, grp, rest, st);
        ListLeaf(t, grp, list, st);
      } else {
        var r := Target(t, list[0]);
        var seen := State(st.children, st.visited + {grp});
        if r in st.visited {
          ExpandListResult(t, grp, rest, seen);
          ListDropped(t, grp, list, st);
        } else {
          ExpandGroupResult(t, r, seen);
          ExpandListResult(t, grp, rest, Expand(t.groups, r, seen));
          ListFollowed(t, grp, list, st);
        }
      }
    }
  }

  lemma UnrollOk(t: Table, grp: Id, list: seq<Child>)
    requires Ranked(t) && grp in t.children && ListOk(t, list, t.rank(grp)) && list != []
    ensures ListOk(t, list[1..], t.rank(grp))
    ensures list[0].Ref? ==> Target(t, list[0]) in t.children && t.rank(Target(t, list[0])) < t.rank(grp)
  {
    assert list[0] in list;
  }

  lemma UnrollLeaf(t: Table, grp: Id, list: seq<Child>, st: State)
    requires Ranked(t) && st.children.Keys == t.children.Keys && grp in t.children && ListOk(t, list, t.rank(grp)) && list != [] && list[0].Leaf?
    requires ListOk(t, list[1..], t.rank(grp))
    ensures FlatList(t, list, t.rank(grp)) == [list[0]] + FlatList(t, list[1..], t.rank(grp))
    ensures UnfoldList(t, list, t.rank(grp)) == UnfoldList(t, list[1..], t.rank(grp)) && Leaves(list) == 1 + Leaves(list[1..])
    ensures var rest := ExpandList(t.groups, grp, list[1..], st); ExpandList(t.groups, grp, list, st) == rest.(out := [list[0]] + rest.out)
  {
    assert [] + UnfoldList(t, list[1..], t.rank(grp)) == UnfoldList(t, list[1..], t.rank(grp));
  }

  lemma ListLeaf(t: Table, grp: Id, list: seq<Child>, st: State)
    requires Ranked(t) && Untouched(t, st) && grp in t.children && ListOk(t, list, t.rank(grp)) && list != [] && list[0].Leaf?
    requires ListOk(t, list[1..], t.rank(grp))
    requires ListResult(t, grp, list[1..], st, ExpandList(t.groups, grp, list[1..], st)) == true
    ensures ListResult(t, grp, list, st, ExpandList(t.groups, grp, list, st)) == true
  {
    HasRefTail(list);
    UnrollLeaf(t, grp, list, st);
    LeafBefore(t, grp, list, st, ExpandList(t.groups, grp, list[1..], st), ExpandList(t.groups, grp, list, st));
  }

  lemma LeafBefore(t: Table, grp: Id, list: seq<Child>, st: State, rest: Expanded, e: Expanded)
    requires Ranked(t) && ListOk(t, list, t.rank(grp)) && list != [] && list[0].Leaf? && ListOk(t, list[1..], t.rank(grp))
    requires FlatList(t, list, t.rank(grp)) == [list[0]] + FlatList(t, list[1..], t.rank(grp))
    requires UnfoldList(t, list, t.rank(grp)) == UnfoldList(t, list[1..], t.rank(grp)) && Leaves(list) == 1 + Leaves(list[1..])
    requires (HasRef(list) <==> HasRef(list[1..])) && e == rest.(out := [list[0]] + rest.out)
    requires ListResult(t, grp, list[1..], st, rest) == true
    ensures ListResult(t, grp, list, st, e) == true
  {
    LeafFirst(t, grp, list[0], FlatList(t, list[1..], t.rank(grp)), UnfoldList(t, list[1..], t.rank(grp)), HasRef(list[1..]),
              Leaves(list[1..]), st, rest);
  }

  lemma ListDropped(t: Table, grp: Id, list: seq<Child>, st: State)
    requires Ranked(t) && Untouched(t, st) && grp in t.children && ListOk(t, list, t.rank(grp)) && list != [] && list[0].Ref?
    requires Target(t, list[0]) in st.visited && HasRef(list) && Holder(t, grp) && ListOk(t, list[1..], t.rank(grp))
    requires var seen := State(st.children, st.visited + {grp});
             ListResult(t, grp, list[1..], seen, ExpandList(t.groups, grp, list[1..], seen)) == true
    ensures ListResult(t, grp, list, st, ExpandList(t.groups, grp, list, st)) == true
  {
    var rest := list[1..];
    Unroll(t, grp, list, st);
    DroppedFirst(t, grp, Target(t, list[0]), UnfoldList(t, rest, t.rank(grp)), FlatList(t, rest, t.rank(grp)), HasRef(rest), Leaves(rest), st,
                 ExpandList(t.groups, grp, rest, State(st.children, st.visited + {grp})));
  }

  lemma ListFollowed(t: Table, grp: Id, list: seq<Child>, st: State)
    requires Ranked(t) && Untouched(t, st) && grp in t.children && ListOk(t, list, t.rank(grp)) && list != [] && list[0].Ref?
    requires Target(t, list[0]) in t.children && Target(t, list[0]) !in st.visited + {grp} && HasRef(list) && Holder(t, grp)
    requires var seen := State(st.children, st.visited + {grp});
             var r := Target(t, list[0]);
             GroupResult(t, r, Flat(t, r), Unfold(t, r), seen, Expand(t.groups, r, seen)) == true
    requires var next := Expand(t.groups, Target(t, list[0]), State(st.children, st.visited + {grp}));
             ListResult(t, grp, list[1..], next, ExpandList(t.groups, grp, list[1..], next)) == true
    ensures ListResult(t, grp, list, st, ExpandList(t.groups, grp, list, st)) == true
  {
    var rest := list[1..];
    var r := Target(t, list[0]);
    var next := Expand(t.groups, r, State(st.children, st.visited + {grp}));
    Unroll(t, grp, list, st);
    UnfoldBelow(t, list, t.rank(grp));
    FollowedFirst(t, grp, r, UnfoldList(t, rest, t.rank(grp)), FlatList(t, rest, t.rank(grp)), HasRef(rest), Leaves(rest),
                  st, next, ExpandList(t.groups, grp, rest, next));
  }

  /** The pieces of a list that starts with a proper element or with a reference. */
  lemma Unroll(t: Table, grp: Id, list: seq<Child>, st: State)
    requires Ranked(t) && st.children.Keys == t.children.Keys && grp in t.children && ListOk(t, list, t.rank(grp)) && list != []
    ensures list[0] in list && ListOk(t, list[1..], t.rank(grp))
    ensures var flat, v := FlatList(t, list[1..], t.rank(grp)), UnfoldList(t, list[1..], t.rank(grp));
            if list[0].Leaf? then
              var rest := ExpandList(t.groups, grp, list[1..], st);
              && FlatList(t, list, t.rank(grp)) == [list[0]] + flat && UnfoldList(t, list, t.rank(grp)) == v
              && ExpandList(t.groups, grp, list, st) == rest.(out := [list[0]] + rest.out)
              && Leaves(list) == 1 + Leaves(list[1..])
            else
              var r := Target(t, list[0]);
              var seen := State(st.children, st.visited + {grp});
              && r in t.children && r != grp && Leaves(list) == Leaves(list[1..])
              && FlatList(t, list, t.rank(grp)) == Flat(t, r) + flat && UnfoldList(t, list, t.rank(grp)) == Unfold(t, r) + v
              && ExpandList(t.groups, grp, list, st) ==
                   if r in st.visited then ExpandList(t.groups, grp, list[1..], seen)
                   else
                     var next := Expand(t.groups, r, seen);
                     var rest := ExpandList(t.groups, grp, list[1..], next);
                     Expanded(rest.st, next.children[r] + rest.out, true)
  {
    assert list[0] in list;
    assert [] + UnfoldList(t, list[1..], t.rank(grp)) == UnfoldList(t, list[1..], t.rank(grp));
  }

  lemma HasRefTail(list: seq<Child>)
    requires list != []
    ensures HasRef(list) <==> list[0].Ref? || HasRef(list[1..])
  {
    if HasRef(list) && list[0].Leaf? {
      var c :| c in list && c.Ref?;
      assert c in list[1..];
    }
    if HasRef(list[1..]) {
      var c :| c in list[1..] && c.Ref?;
      assert c in list;
    }
    if list[0].Ref? {
      assert list[0] in list;
    }
  }

  lemma LeafFirst(t: Table, grp: Id, c: Child, flat: seq<Child>, u: seq<Id>, hasRef: bool, leaves: nat, st: State, e: Expanded)
    requires Ranked(t) && c.Leaf? && Result(t, grp, flat, u, hasRef, leaves, st, e)
    ensures Result(t, grp, [c] + flat, u, hasRef, 1 + leaves, st, e.(out := [c] + e.out)) == true
  {
    LeavesAppend([c], e.out);
    assert Leaves([c]) == 1;
  }

  /** A reference to a visited group is dropped, with everything it stands for. */
  lemma DroppedFirst(t: Table, grp: Id, r: Id, v: seq<Id>, flat: seq<Child>, hasRef: bool, leaves: nat, st: State, e: Expanded)
    requires Ranked(t) && Untouched(t, st) && r in st.visited && Holder(t, grp)
    requires Result(t, grp, flat, v, hasRef, leaves, State(st.children, st.visited + {grp}), e)
    ensures Result(t, grp, Flat(t, r) + flat, Unfold(t, r) + v, true, leaves, st, e)
  {
    assert Holder(t, r);
    assert (Unfold(t, r) + v)[0] == r;
    assert r in Elems(Unfold(t, r) + v);
    assert !Clean(Unfold(t, r) + v, st.visited);
  }

  lemma FollowedFirst(t: Table, grp: Id, r: Id, v: seq<Id>, flat: seq<Child>, hasRef: bool, leaves: nat, st: State, next: State, e: Expanded)
    requires Ranked(t) && Untouched(t, st) && r in t.children && Holder(t, grp) && grp !in Unfold(t, r) + v
    requires GroupResult(t, r, Flat(t, r), Unfold(t, r), State(st.children, st.visited + {grp}), next)
    requires Result(t, grp, flat, v, hasRef, leaves, next, e)
    ensures Result(t, grp, Flat(t, r) + flat, Unfold(t, r) + v, true, leaves, st, Expanded(e.st, next.children[r] + e.out, true))
  {
    var u := Unfold(t, r);
    CleanSkip(u + v, st.visited, grp);
    CleanAppend(u, v, st.visited + {grp});
    LeavesAppend(next.children[r], e.out);
    if Clean(u + v, st.visited) {
      assert next.visited == st.visited + {grp} + Elems(u);
      assert Clean(v, next.visited);
    } else if Clean(u, st.visited + {grp}) {
      assert !Clean(v, next.visited);
    }
  }

  // ---------- One expansion ----------

  function ExpandFresh(t: Table, grp: Id): map<Id, seq<Child>>
    requires TableOk(t.groups, t.children) && grp in t.children
  {
    Expand(t.groups, grp, State(t.children, {})).children
  }

  /** `expandGroupReferences` produces the flattening exactly when the full unfolding meets no group with
      references twice.  (That it is sufficient needs no assumption that groups have elements.) */
  lemma ExpandExactly(t: Table, grp: Id)
    requires Ranked(t) && grp in t.children
    ensures NoDup(Unfold(t, grp)) ==> ExpandFresh(t, grp)[grp] == Flat(t, grp) && OldOrFlat(t, t.children, ExpandFresh(t, grp))
    ensures NonEmpty(t) && !NoDup(Unfold(t, grp)) ==> Leaves(ExpandFresh(t, grp)[grp]) < |Flat(t, grp)|
    ensures NonEmpty(t) ==> (ExpandFresh(t, grp)[grp] == Flat(t, grp) <==> NoDup(Unfold(t, grp)))
    ensures !HasRef(Flat(t, grp)) && Leaves(Flat(t, grp)) == |Flat(t, grp)|
  {
    ExpandGroupResult(t, grp, State(t.children, {}));
    FlatHasNoRef(t, t.children[grp], t.rank(grp));
    NoRefLeaves(Flat(t, grp));
  }

  lemma SharedUnfolds(t: Table)
    requires t.groups == map["S" := 1, "T" := 2]
    requires t.children == map[0 := [Ref("S"), Ref("S")], 1 := [Ref("T")], 2 := [Leaf(7)]]
    requires t.rank(0) == 2 && t.rank(1) == 1 && t.rank(2) == 0
    ensures Ranked(t) && Unfold(t, 0) == [0, 1, 1]
  {
    SharedRanked(t);
    var s, two := [Ref("S")], [Ref("S"), Ref("S")];
    assert two[1..] == s && s[1..] == [] && [Ref("T")][1..] == [];
    assert Holder(t, 0) by { assert Ref("S") in t.children[0]; }
    assert Holder(t, 1) by { assert Ref("T") in t.children[1]; }
    assert !Holder(t, 2);
    assert UnfoldList(t, [Ref("T")], 1) == Unfold(t, 2) + UnfoldList(t, [], 1);
    assert UnfoldList(t, s, 2) == Unfold(t, 1) + UnfoldList(t, [], 2);
    assert UnfoldList(t, two, 2) == Unfold(t, 1) + UnfoldList(t, s, 2);
  }

  lemma SharedFlattens(t: Table)
    requires t.groups == map["S" := 1, "T" := 2]
    requires t.children == map[0 := [Ref("S"), Ref("S")], 1 := [Ref("T")], 2 := [Leaf(7)]]
    requires t.rank(0) == 2 && t.rank(1) == 1 && t.rank(2) == 0
    ensures Ranked(t) && Flat(t, 0) == [Leaf(7), Leaf(7)] && NonEmpty(t)
  {
    SharedRanked(t);
    var s, two := [Ref("S")], [Ref("S"), Ref("S")];
    assert two[1..] == s && s[1..] == [] && [Ref("T")][1..] == [] && [Leaf(7)][1..] == [];
    assert FlatList(t, [Leaf(7)], 0) == [Leaf(7)] + FlatList(t, [], 0);
    assert FlatList(t, [Ref("T")], 1) == Flat(t, 2) + FlatList(t, [], 1);
    assert FlatList(t, s, 2) == Flat(t, 1) + FlatList(t, [], 2);
    assert FlatList(t, two, 2) == Flat(t, 1) + FlatList(t, s, 2);
  }

  /** A nested group used twice: the second use is reported as circular and dropped. */
  lemma SharedNestedGroupIsDropped(t: Table)
    requires t.groups == map["S" := 1, "T" := 2]
    requires t.children == map[0 := [Ref("S"), Ref("S")], 1 := [Ref("T")], 2 := [Leaf(7)]]
    requires t.rank(0) == 2 && t.rank(1) == 1 && t.rank(2) == 0
    ensures Ranked(t) && Unfold(t, 0) == [0, 1, 1] && Flat(t, 0) == [Leaf(7), Leaf(7)]
    ensures ExpandFresh(t, 0)[0] != Flat(t, 0)
  {
    SharedUnfolds(t);
    SharedFlattens(t);
    ExpandExactly(t, 0);
    assert Unfold(t, 0)[1] == Unfold(t, 0)[2];
  }

  lemma SharedRanked(t: Table)
    requires t.groups == map["S" := 1, "T" := 2]
    requires t.children == map[0 := [Ref("S"), Ref("S")], 1 := [Ref("T")], 2 := [Leaf(7)]]
    requires t.rank(0) == 2 && t.rank(1) == 1 && t.rank(2) == 0
    ensures Ranked(t)
  {
  }

  /** Expanding a group without references changes nothing; so repeating a correct expansion does nothing. */
  lemma ExpandAgain(groups: map<string, Id>, grp: Id, st: State)
    requires TableOk(groups, st.children) && grp in st.children && grp !in st.visited && !HasRef(st.children[grp])
    ensures Expand(groups, grp, st) == st
  {
    PlainList(groups, grp, st.children[grp], st);
  }

  lemma {:induction false} PlainList(groups: map<string, Id>, grp: Id, list: seq<Child>, st: State)
    requires TableOk(groups, st.children) && grp in st.children && !HasRef(list)
    ensures ExpandList(groups, grp, list, st) == Expanded(st, list, false)
    decreases |list|
  {
    if list != [] {
      HasRefTail(list);
      PlainList(groups, grp, list[1..], st);
    }
  }

  // ---------- All groups, in some order ----------

  /** `children` is the table with some groups flattened. */
  ghost predicate Partly(t: Table, children: map<Id, seq<Child>>)
    requires Ranked(t)
  {
    children.Keys == t.children.Keys && OldOrFlat(t, t.children, children)
  }

  lemma PartlyRanked(t: Table, children: map<Id, seq<Child>>)
    requires Ranked(t) && Partly(t, children)
    ensures Ranked(t.(children := children))
  {
    var t' := t.(children := children);
    forall id | id in children ensures ListOk(t', children[id], t.rank(id)) {
      ExpandExactly(t, id);
      if HasRef(children[id]) {
        assert children[id] == t.children[id];
        assert ListOk(t, t.children[id], t.rank(id));
      } else {
        assert forall c :: c in children[id] ==> c.Leaf?;
      }
    }
  }

  /** Flattening some groups does not change what any group flattens to, and unfolds into less. */
  lemma {:induction false} PartlySame(t: Table, children: map<Id, seq<Child>>, list: seq<Child>, bound: nat)
    requires Ranked(t) && Partly(t, children) && ListOk(t, list, bound)
    requires Ranked(t.(children := children)) && ListOk(t.(children := children), list, bound)
    ensures FlatList(t.(children := children), list, bound) == FlatList(t, list, bound)
    ensures Elems(UnfoldList(t.(children := children), list, bound)) <= Elems(UnfoldList(t, list, bound))
    ensures NoDup(UnfoldList(t, list, bound)) ==> NoDup(UnfoldList(t.(children := children), list, bound))
    decreases bound, 0, |list|
  {
    if list != [] {
      var t' := t.(children := children);
      PartlySame(t, children, list[1..], bound);
      if list[0].Ref? {
        var r := Target(t, list[0]);
        assert list[0] in list;
        PartlySameGroup(t, children, r);
        AppendLess(Unfold(t, r), UnfoldList(t, list[1..], bound), Unfold(t', r), UnfoldList(t', list[1..], bound));
      } else {
        AppendLess([], UnfoldList(t, list[1..], bound), [], UnfoldList(t', list[1..], bound));
      }
    }
  }

  lemma {:induction false} PartlySameGroup(t: Table, children: map<Id, seq<Child>>, id: Id)
    requires Ranked(t) && Partly(t, children) && id in t.children && Ranked(t.(children := children))
    ensures Flat(t.(children := children), id) == Flat(t, id)
    ensures Elems(Unfold(t.(children := children), id)) <= Elems(Unfold(t, id))
    ensures NoDup(Unfold(t, id)) ==> NoDup(Unfold(t.(children := children), id))
    decreases t.rank(id), 1, 0
  {
    var t' := t.(children := children);
    ExpandExactly(t, id);
    if HasRef(children[id]) {
      assert children[id] == t.children[id] && Holder(t, id) && Holder(t', id);
      PartlySame(t, children, children[id], t.rank(id));
      AppendLess([id], UnfoldList(t, children[id], t.rank(id)), [id], UnfoldList(t', children[id], t.rank(id)));
    } else {
      FlatHasNoRef(t', children[id], t.rank(id));
      FlatHasNoRef(t, t.children[id], t.rank(id));
    }
  }

  lemma AppendLess(a: seq<Id>, b: seq<Id>, a': seq<Id>, b': seq<Id>)
    requires Elems(a') <= Elems(a) && Elems(b') <= Elems(b)
    requires NoDup(a) ==> NoDup(a')
    requires NoDup(b) ==> NoDup(b')
    ensures Elems(a' + b') <= Elems(a + b)
    ensures NoDup(a + b) ==> NoDup(a' + b')
  {
    CleanAppend(a, b, {});
    CleanAppend(a', b', {});
  }

  /** One group of a partly flattened table whose own unfolding is without repetitions. */
  lemma ExpandOne(t: Table, children: map<Id, seq<Child>>, grp: Id)
    requires Ranked(t) && Partly(t, children) && grp in t.children
    requires Ranked(t.(children := children)) && NoDup(Unfold(t.(children := children), grp))
    ensures var after := ExpandFresh(t.(children := children), grp);
            Partly(t, after) && after[grp] == Flat(t, grp) &&
            forall id :: id in t.children && children[id] == Flat(t, id) ==> after[id] == Flat(t, id)
  {
    var t' := t.(children := children);
    ExpandExactly(t', grp);
    forall id | id in t.children ensures Flat(t', id) == Flat(t, id) {
      PartlySameGroup(t, children, id);
    }
  }

  /** When no group's unfolding has repetitions, the loop over all groups flattens every group, in whatever
      order the dictionary yields them. */
  lemma {:induction false} AnyOrder(t: Table, children: map<Id, seq<Child>>, order: seq<Id>)
    requires Ranked(t) && Partly(t, children) && forall id :: id in t.children ==> NoDup(Unfold(t, id))
    requires forall id :: id in order ==> id in t.children
    requires TableOk(t.groups, children)
    ensures var after := ExpandInOrder(t.groups, order, children);
            Partly(t, after) && forall id :: id in order || (id in t.children && children[id] == Flat(t, id)) ==> after[id] == Flat(t, id)
    decreases |order|
  {
    if order != [] {
      PartlyRanked(t, children);
      PartlySameGroup(t, children, order[0]);
      ExpandOne(t, children, order[0]);
      AnyOrder(t, ExpandFresh(t.(children := children), order[0]), order[1..]);
    }
  }

  /** What `order[i]` refers to is done already or comes earlier. */
  ghost predicate ReferencesFirst(t: Table, done: set<Id>, order: seq<Id>) {
    forall i :: 0 <= i < |order| && order[i] in t.children ==> Prepared(t, done + Elems(order[..i]), order[i])
  }

  ghost predicate Prepared(t: Table, done: set<Id>, grp: Id)
    requires grp in t.children
  {
    forall c :: c in t.children[grp] && c.Ref? ==> Target(t, c) in done
  }

  ghost predicate Done(t: Table, children: map<Id, seq<Child>>, done: set<Id>)
    requires Ranked(t)
  {
    done <= t.children.Keys && done <= children.Keys && forall id :: id in done ==> children[id] == Flat(t, id)
  }

  /** In an order that expands what a group refers to before the group itself, sharing does no harm. */
  lemma {:induction false} BottomUp(t: Table, children: map<Id, seq<Child>>, done: set<Id>, order: seq<Id>)
    requires Ranked(t) && Partly(t, children) && TableOk(t.groups, children)
    requires forall id :: id in order ==> id in t.children
    requires Done(t, children, done) && ReferencesFirst(t, done, order)
    ensures Done(t, ExpandInOrder(t.groups, order, children), done + Elems(order))
    decreases |order|
  {
    if order == [] {
      assert done + Elems(order) == done;
    } else {
      var after := ExpandFresh(t.(children := children), order[0]);
      assert order[0] in t.children && order[..0] == [] && done + Elems([]) == done;
      BottomUpOne(t, children, done, order[0]);
      ReferencesLater(t, done, order);
      BottomUp(t, after, done + {order[0]}, order[1..]);
      assert done + Elems(order) == done + {order[0]} + Elems(order[1..]);
    }
  }

  lemma ReferencesLater(t: Table, done: set<Id>, order: seq<Id>)
    requires order != [] && ReferencesFirst(t, done, order)
    ensures ReferencesFirst(t, done + {order[0]}, order[1..])
  {
    forall i | 0 <= i < |order[1..]| && order[1..][i] in t.children
      ensures Prepared(t, done + {order[0]} + Elems(order[1..][..i]), order[1..][i])
    {
      assert order[..i + 1] == [order[0]] + order[1..][..i];
      assert done + Elems(order[..i + 1]) == done + {order[0]} + Elems(order[1..][..i]);
      assert Prepared(t, done + Elems(order[..i + 1]), order[i + 1]);
    }
  }

  lemma BottomUpOne(t: Table, children: map<Id, seq<Child>>, done: set<Id>, grp: Id)
    requires Ranked(t) && Partly(t, children) && TableOk(t.groups, children) && grp in t.children
    requires Done(t, children, done) && Prepared(t, done, grp)
    ensures var after := ExpandFresh(t.(children := children), grp); Partly(t, after) && Done(t, after, done + {grp})
  {
    var t' := t.(children := children);
    PartlyRanked(t, children);
    ExpandExactly(t, grp);
    assert forall c :: c in children[grp] && c.Ref? ==> HasRef(children[grp]);
    FlatReferences(t, children, done, children[grp], t.rank(grp));
    ExpandOne(t, children, grp);
  }

  lemma {:induction false} FlatReferences(t: Table, children: map<Id, seq<Child>>, done: set<Id>, list: seq<Child>, bound: nat)
    requires Ranked(t) && Partly(t, children) && Ranked(t.(children := children)) && ListOk(t.(children := children), list, bound)
    requires done <= t.children.Keys && forall id :: id in done ==> children[id] == Flat(t, id)
    requires forall c :: c in list && c.Ref? ==> Target(t, c) in done
    ensures UnfoldList(t.(children := children), list, bound) == []
    decreases |list|
  {
    if list != [] {
      FlatReferences(t, children, done, list[1..], bound);
      assert list[0] in list;
      if list[0].Ref? {
        ExpandExactly(t, Target(t, list[0]));
      }
    }
  }

  // ---------- How references name groups ----------

  /** Of a qualified name only the part behind the last ':' is left. */
  lemma {:induction false} StripQualified(prefix: string, name: string)
    requires ':' !in name
    ensures StripNamespace(name) == name && StripNamespace(prefix + ":" + name) == name
    decreases |prefix|
  {
    var q := prefix + ":" + name;
    assert q[|prefix|] == ':' && ':' in q;
    if prefix == "" {
      assert q[1..] == name;
    } else {
      assert q[1..] == prefix[1..] + ":" + name;
      assert q[1..][|prefix| - 1] == ':';
      StripQualified(prefix[1..], name);
    }
  }

  /** A name is looked up as it is, and then without its prefix. */
  lemma ResolveExactly(groups: map<string, Id>, prefix: string, name: string)
    requires ':' !in name
    ensures Resolve(groups, name) == if name in groups then Some(groups[name]) else None
    ensures var q := prefix + ":" + name;
            Resolve(groups, q) == if q in groups then Some(groups[q]) else if name in groups then Some(groups[name]) else None
  {
    StripQualified(prefix, name);
  }

  /** `a` and `b` differ only in that some references of `a` have a prefix, without being the name of a group themselves. */
  ghost predicate Qualified(groups: map<string, Id>, a: seq<Child>, b: seq<Child>) {
    |a| == |b| && forall i :: 0 <= i < |a| ==> a[i] == b[i] || QualifiedRef(groups, a[i], b[i])
  }

  ghost predicate QualifiedRef(groups: map<string, Id>, a: Child, b: Child) {
    && a.Ref? && b.Ref? && ':' !in b.name && b.name in groups && a.name !in groups
    && exists prefix :: a.name == prefix + ":" + b.name
  }

  lemma QualifiedResolves(groups: map<string, Id>, a: Child, b: Child)
    requires QualifiedRef(groups, a, b)
    ensures Resolve(groups, a.name) == Resolve(groups, b.name) == Some(groups[b.name])
  {
    var prefix :| a.name == prefix + ":" + b.name;
    ResolveExactly(groups, prefix, b.name);
  }

  /** Qualified references expand as the plain ones do. */
  lemma {:induction false} QualifiedExpands(groups: map<string, Id>, grp: Id, a: seq<Child>, b: seq<Child>, st: State)
    requires TableOk(groups, st.children) && grp in st.children && Qualified(groups, a, b)
    ensures ExpandList(groups, grp, a, st) == ExpandList(groups, grp, b, st)
    decreases |a|
  {
    if a != [] {
      assert a[0] == b[0] || QualifiedRef(groups, a[0], b[0]);
      forall i | 0 <= i < |a[1..]|
        ensures a[1..][i] == b[1..][i] || QualifiedRef(groups, a[1..][i], b[1..][i])
      {
        assert a[i + 1] == b[i + 1] || QualifiedRef(groups, a[i + 1], b[i + 1]);
      }
      assert Qualified(groups, a[1..], b[1..]);
      if a[0].Leaf? {
        QualifiedExpands(groups, grp, a[1..], b[1..], st);
      } else {
        if a[0] != b[0] {
          QualifiedResolves(groups, a[0], b[0]);
        }
        var r, seen := Resolve(groups, a[0].name), State(st.children, st.visited + {grp});
        if r.None? {
          QualifiedExpands(groups, grp, a[1..], b[1..], st);
        } else if r.value in seen.visited {
          QualifiedExpands(groups, grp, a[1..], b[1..], seen);
        } else {
          QualifiedExpands(groups, grp, a[1..], b[1..], Expand(groups, r.value, seen));
        }
      }
    }
  }

  /** A reference to an unknown group is left out, wherever it stands. */
  lemma {:induction false} UnknownDropped(groups: map<string, Id>, grp: Id, a: seq<Child>, c: Child, b: seq<Child>, st: State)
    requires TableOk(groups, st.children) && grp in st.children
    requires c.Ref? && c.name !in groups && (forall prefix, name :: ':' !in name && c.name == prefix + ":" + name ==> name !in groups)
    ensures ExpandList(groups, grp, a + [c] + b, st) == ExpandList(groups, grp, a + b, st)
    decreases |a|
  {
    if a == [] {
      UnknownResolves(groups, c.name);
      assert a + [c] + b == [c] + b && a + b == b && ([c] + b)[1..] == b;
    } else {
      assert (a + [c] + b)[0] == a[0] && (a + b)[0] == a[0];
      assert (a + [c] + b)[1..] == a[1..] + [c] + b && (a + b)[1..] == a[1..] + b;
      if a[0].Leaf? {
        UnknownDropped(groups, grp, a[1..], c, b, st);
      } else {
        var r, seen := Resolve(groups, a[0].name), State(st.children, st.visited + {grp});
        if r.None? {
          UnknownDropped(groups, grp, a[1..], c, b, st);
        } else if r.value in seen.visited {
          UnknownDropped(groups, grp, a[1..], c, b, seen);
        } else {
          UnknownDropped(groups, grp, a[1..], c, b, Expand(groups, r.value, seen));
        }
      }
    }
  }

  lemma UnknownResolves(groups: map<string, Id>, name: string)
    requires name !in groups && (forall prefix, rest :: ':' !in rest && name == prefix + ":" + rest ==> rest !in groups)
    ensures Resolve(groups, name).None?
  {
    if ':' in name {
      var prefix, rest := LastColon(name);
      StripQualified(prefix, rest);
    }
  }

  lemma {:induction false} LastColon(name: string) returns (prefix: string, rest: string)
    requires ':' in name
    ensures name == prefix + ":" + rest && ':' !in rest
  {
    if ':' in name[1..] {
      prefix, rest := LastColon(name[1..]);
      prefix := [name[0]] + prefix;
    } else {
      prefix, rest := "", name[1..];
    }
  }

  /** A group all of whose references are unknown or lead to visited groups keeps its list, the references included. */
  lemma NothingFollowed(groups: map<string, Id>, grp: Id, st: State)
    requires TableOk(groups, st.children) && grp in st.children && grp !in st.visited
    requires AllDropped(groups, grp, st.children[grp], st)
    ensures Expand(groups, grp, st).children == st.children
  {
    DroppedStays(groups, grp, st.children[grp], st);
  }

  ghost predicate AllDropped(groups: map<string, Id>, grp: Id, list: seq<Child>, st: State) {
    forall c :: c in list && c.Ref? ==> match Resolve(groups, c.name) { case None => true case Some(r) => r == grp || r in st.visited }
  }

  lemma {:induction false} DroppedStays(groups: map<string, Id>, grp: Id, list: seq<Child>, st: State)
    requires TableOk(groups, st.children) && grp in st.children && AllDropped(groups, grp, list, st)
    ensures var e := ExpandList(groups, grp, list, st); !e.changed && e.st.children == st.children
    decreases |list|
  {
    if list != [] {
      assert list[0] in list && forall c :: c in list[1..] ==> c in list;
      DroppedStays(groups, grp, list[1..], st);
      DroppedStays(groups, grp, list[1..], State(st.children, st.visited + {grp}));
    }
  }
}
