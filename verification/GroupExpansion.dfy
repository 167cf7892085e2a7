/** Expansion of element-group references, `_expandGR` and `expandGroupReferences` of
  art/generateDS/generateDS.py.  Groups are objects with an identity; their child lists are replaced in place. */
module GroupExpansion {
  import opened Helpers

  type Id = nat

  /** A child is a proper element or a reference to a group by name. */
  datatype Child = Leaf(id: nat) | Ref(name: string)

  /** The part of a qualified name after the last ':'. */
  function StripNamespace(name: string): string
    decreases |name|
  {
    if ':' !in name then name
    else if name[0] == ':' && ':' !in name[1..] then name[1..]
    else StripNamespace(name[1..])
  }

  function Resolve(groups: map<string, Id>, name: string): Option<Id> {
    if name in groups then Some(groups[name])
    else if StripNamespace(name) in groups then Some(groups[StripNamespace(name)])
    else None
  }

  datatype State = State(children: map<Id, seq<Child>>, visited: set<Id>)

  datatype Expanded = Expanded(st: State, out: seq<Child>, changed: bool)

  ghost predicate TableOk(groups: map<string, Id>, children: map<Id, seq<Child>>) {
    forall name :: name in groups ==> groups[name] in children
  }

  /** `_expandGR` as a function of the child lists and the visited set.  It is defined on every reference
      graph: each nested call has one more group visited. */
  function Expand(groups: map<string, Id>, grp: Id, st: State): (r: State)
    requires TableOk(groups, st.children) && grp in st.children && grp !in st.visited
    ensures r.children.Keys == st.children.Keys && st.visited <= r.visited <= st.visited + st.children.Keys
    decreases |st.children.Keys - st.visited|, 0
  {
    SubsetSize(st.children.Keys - (st.visited + {grp}), st.children.Keys - st.visited);
    assert grp in st.children.Keys - st.visited;
    var e := ExpandList(groups, grp, st.children[grp], st);
    if e.changed then State(e.st.children[grp := e.out], e.st.visited) else e.st
  }

  function ExpandList(groups: map<string, Id>, grp: Id, list: seq<Child>, st: State): (e: Expanded)
    requires TableOk(groups, st.children) && grp in st.children
    ensures e.st.children.Keys == st.children.Keys && st.visited <= e.st.visited <= st.visited + st.children.Keys
    decreases |st.children.Keys - (st.visited + {grp})|, 1 + |list|
  {
    if list == [] then Expanded(st, [], false)
    else if list[0].Leaf? then
      var rest := ExpandList(groups, grp, list[1..], st);
      rest.(out := [list[0]] + rest.out)
    else
      var r := Resolve(groups, list[0].name);
      if r.None? then ExpandList(groups, grp, list[1..], st)               // unknown group
      else
        var seen := State(st.children, st.visited + {grp});
        assert seen.visited + {grp} == st.visited + {grp};
        if r.value in seen.visited then ExpandList(groups, grp, list[1..], seen)   // "circular"
        else
          var next := Expand(groups, r.value, seen);
          SubsetSize(st.children.Keys - (next.visited + {grp}), st.children.Keys - (st.visited + {grp}));
          var rest := ExpandList(groups, grp, list[1..], next);
          Expanded(rest.st, next.children[r.value] + rest.out, true)
  }

  lemma Reassociate(a: seq<Child>, b: seq<Child>, c: seq<Child>)
    ensures a + (b + c) == (a + b) + c
  {
  }

  // ---------- The class ----------

  class ElementGroups {
    const groups: map<string, Id>
    var children: map<Id, seq<Child>>

    constructor (groups: map<string, Id>, children: map<Id, seq<Child>>)
      requires TableOk(groups, children)
      ensures this.groups == groups && this.children == children && Valid()
    {
      this.groups, this.children := groups, children;
    }

    ghost predicate Valid()
      reads this
    {
      TableOk(groups, children)
    }

    method ExpandGR(grp: Id, visited: set<Id>) returns (visited': set<Id>)
      requires Valid() && grp in children && grp !in visited
      modifies this
      ensures Valid() && State(children, visited') == Expand(groups, grp, old(State(children, visited)))
      decreases |children.Keys - visited|
    {
      var list := children[grp];
      var out, changed, i := [], false, 0;
      visited' := visited;
      ghost var whole := ExpandList(groups, grp, list, State(children, visited));
      ghost var rest := whole;
      while i < |list|
        invariant i <= |list|
        invariant Valid() && children.Keys == old(children).Keys && visited <= visited'
        invariant rest == ExpandList(groups, grp, list[i..], State(children, visited'))
        invariant whole.st == rest.st && whole.out == out + rest.out && whole.changed == (changed || rest.changed)
      {
        assert list[i..][0] == list[i] && list[i..][1..] == list[i + 1..];
        ghost var tail;
        if list[i].Leaf? {
          tail := ExpandList(groups, grp, list[i + 1..], State(children, visited'));
          Reassociate(out, [list[i]], tail.out);
          out := out + [list[i]];
        } else {
          var r := Resolve(groups, list[i].name);
          if r.Some? {
            visited' := visited' + {grp};
            if r.value !in visited' {
              changed := true;
              SubsetSize(children.Keys - visited', children.Keys - visited);
              assert grp in children.Keys - visited;
              visited' := ExpandGR(r.value, visited');
              tail := ExpandList(groups, grp, list[i + 1..], State(children, visited'));
              Reassociate(out, children[r.value], tail.out);
              out := out + children[r.value];
            }
          }
          tail := ExpandList(groups, grp, list[i + 1..], State(children, visited'));
        }
        i, rest := i + 1, tail;
      }
      assert list[i..] == [] && out + [] == out;
      if changed {
        children := children[grp := out];
      }
    }

    method ExpandGroupReferences(grp: Id)
      requires Valid() && grp in children
      modifies this
      ensures Valid() && children == Expand(groups, grp, State(old(children), {})).children
    {
      var visited := ExpandGR(grp, {});
    }

    /** The loop of `annotate`, over the groups in the order in which the dictionary yields them. */
    method ExpandAll(order: seq<Id>)
      requires Valid() && forall grp :: grp in order ==> grp in children
      modifies this
      ensures Valid() && children == ExpandInOrder(groups, order, old(children))
    {
      ghost var whole := ExpandInOrder(groups, order, children);
      for i := 0 to |order|
        invariant Valid() && children.Keys == old(children).Keys
        invariant whole == ExpandInOrder(groups, order[i..], children)
      {
        assert order[i..][0] == order[i] && order[i..][1..] == order[i + 1..];
        ExpandGroupReferences(order[i]);
      }
    }
  }

  function ExpandInOrder(groups: map<string, Id>, order: seq<Id>, children: map<Id, seq<Child>>): (r: map<Id, seq<Child>>)
    requires TableOk(groups, children) && forall grp :: grp in order ==> grp in children
    ensures r.Keys == children.Keys
    decreases |order|
  {
    if order == [] then children
    else ExpandInOrder(groups, order[1..], Expand(groups, order[0], State(children, {})).children)
  }
}
