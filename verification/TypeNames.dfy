/** Names for raised anonymous types: `unique_name` and `raise_anon_complextypes` of
  art/generateDS/process_includes.py. */
module TypeNames {
  import opened Helpers
  import opened Decimal

  /** The `k`-th candidate after a name turned out to be taken. */
  function Candidate(name: string, k: nat): string { name + Str(k) }

  lemma CandidatesDiffer(name: string, a: nat, b: nat)
    ensures Candidate(name, a) != name
    ensures Candidate(name, a) == Candidate(name, b) ==> a == b
  {
    if Candidate(name, a) == Candidate(name, b) {
      assert Str(a) == Candidate(name, a)[|name|..] == Candidate(name, b)[|name|..] == Str(b);
      StrInjective(a, b);
    }
  }

  /** The name that is picked: the given one if it is free, otherwise the first free one of those with a number above `count`
    behind it; `count'` is the last number used. */
  ghost predicate Picks(name: string, names: set<string>, count: nat, unique: string, count': nat) {
    && unique !in names
    && if name !in names then unique == name && count' == count
       else count' > count && unique == name + Str(count') && forall k :: count < k < count' ==> name + Str(k) in names
  }

  /** The loop ends for every finite set of names. */
  method UniqueName(name: string, names: set<string>, count: nat) returns (unique: string, count': nat)
    ensures Picks(name, names, count, unique, count')
  {
    unique, count' := name, count;
    ghost var tried: set<string> := {};
    while unique in names
      invariant count' >= count && (count' == count <==> unique == name)
      invariant count' > count ==> unique == Candidate(name, count') && name in names
      invariant forall k :: count < k < count' ==> Candidate(name, k) in names
      invariant tried <= names && forall t :: t in tried ==> t == name || exists k :: count < k < count' && t == Candidate(name, k)
      invariant count' == count ==> tried == {}
      decreases names - tried
    {
      ghost var before := unique;
      assert unique !in tried by {
        if unique in tried {
          if count' > count {
            CandidatesDiffer(name, count', count');
            var k :| count < k < count' && unique == Candidate(name, k);
            CandidatesDiffer(name, count', k);
          }
        }
      }
      tried := tried + {unique};
      count' := count' + 1;
      unique := Candidate(name, count');
      CandidatesDiffer(name, count', count');
      assert before == name || before == Candidate(name, count' - 1);
    }
    forall k | count < k < count'
      ensures name + Str(k) in names
    {
      assert Candidate(name, k) in names;
    }
  }

  /** An `element` of the schema tree and a type definition, with the attributes that matter. */
  class XsdElement {
    const name: Option<string>
    var typ: Option<string>

    constructor (name: Option<string>, typ: Option<string>)
      ensures this.name == name && this.typ == typ
    {
      this.name, this.typ := name, typ;
    }
  }

  class XsdType {
    var name: Option<string>

    constructor ()
      ensures name == None
    {
      name := None;
    }
  }

  /** A type definition below the top level; its parent, if that is an `element`. */
  datatype Def = Def(node: XsdType, parent: Option<XsdElement>)

  /** An element holds at most one type definition. */
  ghost predicate DefsOk(defs: seq<Def>) {
    forall i, k :: 0 <= i < k < |defs| ==>
      defs[i].node != defs[k].node && (defs[i].parent.Some? ==> defs[i].parent != defs[k].parent)
  }

  predicate IsRaised(d: Def) {
    d.parent.Some? && d.parent.value.name.Some? && d.parent.value.name.value != ""
  }

  function Raised(defs: seq<Def>): (r: seq<Def>)
    ensures forall d | d in r :: d in defs && IsRaised(d)
    ensures forall d | d in defs && IsRaised(d) :: d in r
    decreases |defs|
  {
    if defs == [] then []
    else
      assert defs == defs[..|defs| - 1] + [defs[|defs| - 1]];
      Raised(defs[..|defs| - 1]) + if IsRaised(defs[|defs| - 1]) then [defs[|defs| - 1]] else []
  }

  lemma RaisedOneMore(defs: seq<Def>, n: nat)
    requires 0 < n <= |defs|
    ensures Raised(defs[..n]) == Raised(defs[..n - 1]) + (if IsRaised(defs[n - 1]) then [defs[n - 1]] else [])
  {
    assert defs[..n][..n - 1] == defs[..n - 1];
  }

  lemma {:induction false} RaisedLength(defs: seq<Def>, n: nat)
    requires n <= |defs|
    ensures |Raised(defs[..n])| == Rank(defs, IsRaised, n)
    decreases n
  {
    if n > 0 {
      RaisedLength(defs, n - 1);
      RankNext(defs, IsRaised, n - 1);
      RaisedOneMore(defs, n);
    }
  }

  lemma {:induction false} RaisedPlace(defs: seq<Def>, n: nat, p: nat)
    requires p < n <= |defs| && IsRaised(defs[p])
    ensures Rank(defs, IsRaised, p) < |Raised(defs[..n])| && Raised(defs[..n])[Rank(defs, IsRaised, p)] == defs[p]
    decreases n
  {
    RaisedOneMore(defs, n);
    if p < n - 1 {
      RaisedPlace(defs, n - 1, p);
    } else {
      RaisedLength(defs, p);
    }
  }

  /** The raised definitions are those whose parent is an element with a name, in the order in which they come. */
  lemma RaisedInOrder(defs: seq<Def>, p: nat)
    requires p < |defs| && defs[p].parent.Some? && defs[p].parent.value.name.Some? && defs[p].parent.value.name.value != ""
    ensures forall d | d in Raised(defs) :: d.parent.Some? && d.parent.value.name.Some? && d.parent.value.name.value != ""
    ensures |Raised(defs)| == Rank(defs, IsRaised, |defs|)
    ensures Rank(defs, IsRaised, p) < |Raised(defs)| && Raised(defs)[Rank(defs, IsRaised, p)] == defs[p]
  {
    assert defs[..|defs|] == defs;
    RaisedLength(defs, |defs|);
    RaisedPlace(defs, |defs|, p);
  }

  /** Each name is picked in its turn, with the names in use so far and the number where the last one stopped. */
  ghost predicate PickedInTurn(raised: seq<Def>, given: seq<string>, counts: seq<nat>, names0: set<string>) {
    && |given| == |raised| && |counts| == |raised| + 1 && counts[0] == 0
    && forall i :: 0 <= i < |raised| ==> PickedFor(raised[i], names0 + Set(given[..i]), counts[i], given[i], counts[i + 1])
  }

  ghost predicate PickedFor(d: Def, names: set<string>, count: nat, name: string, count': nat) {
    d.parent.Some? && d.parent.value.name.Some? && Picks(d.parent.value.name.value + "Type", names, count, name, count')
  }

  function Set(names: seq<string>): set<string> { set i | 0 <= i < |names| :: names[i] }

  lemma OneMorePicked(raised: seq<Def>, given: seq<string>, counts: seq<nat>, names0: set<string>, d: Def, name: string, count': nat)
    requires PickedInTurn(raised, given, counts, names0)
    requires PickedFor(d, names0 + Set(given), counts[|raised|], name, count')
    ensures PickedInTurn(raised + [d], given + [name], counts + [count'], names0)
  {
    var raised', given', counts' := raised + [d], given + [name], counts + [count'];
    assert given'[..|given|] == given;
    forall i | 0 <= i < |raised'|
      ensures PickedFor(raised'[i], names0 + Set(given'[..i]), counts'[i], given'[i], counts'[i + 1])
    {
      if i < |raised| {
        assert given'[..i] == given[..i];
      }
    }
  }

  /** The given names are new, pairwise distinct, and what was added to the names in use. */
  ghost predicate Fresh(given: seq<string>, names0: set<string>, names: set<string>) {
    && (forall i :: 0 <= i < |given| ==> given[i] !in names0)
    && (forall i, k :: 0 <= i < k < |given| ==> given[i] != given[k])
    && names == names0 + Set(given)
  }

  lemma OneMoreFresh(given: seq<string>, names0: set<string>, names: set<string>, name: string)
    requires Fresh(given, names0, names) && name !in names
    ensures Fresh(given + [name], names0, names + {name})
  {
    var all := given + [name];
    assert forall i :: 0 <= i < |given| ==> all[i] == given[i] && given[i] in names;
    assert all[|given|] == name;
    assert Set(all) == Set(given) + {name};
  }

  ghost function Nodes(defs: seq<Def>): set<XsdType> { set d | d in defs :: d.node }

  ghost function Elements(defs: seq<Def>): set<XsdElement> { set d | d in defs && d.parent.Some? :: d.parent.value }

  /** Each raised node carries its name and its parent refers to it. */
  ghost predicate Labelled(raised: seq<Def>, given: seq<string>)
    reads Nodes(raised), Elements(raised)
  {
    |given| == |raised| && forall i :: 0 <= i < |raised| ==> Label(raised[i], given[i])
  }

  ghost predicate Label(d: Def, name: string)
    reads d.node, if d.parent.Some? then {d.parent.value} else {}
  {
    IsRaised(d) && d.node.name == Some(name) && d.parent.value.typ == Some(name)
  }

  /** The body of the loop for a definition that is raised. */
  method RaiseOne(d: Def, names: set<string>, count: nat, ghost names0: set<string>, ghost before: seq<Def>, ghost given: seq<string>)
    returns (typeName: string, count': nat)
    requires IsRaised(d) && d.node !in Nodes(before) && d.parent.value !in Elements(before)
    requires Fresh(given, names0, names) && Labelled(before, given)
    modifies d.node, d.parent.value
    ensures typeName !in names
    ensures Fresh(given + [typeName], names0, names + {typeName}) && Labelled(before + [d], given + [typeName])
    ensures PickedFor(d, names, count, typeName, count')
  {
    typeName, count' := UniqueName(d.parent.value.name.value + "Type", names, count);
    OneMoreFresh(given, names0, names, typeName);
    d.parent.value.typ := Some(typeName);
    d.node.name := Some(typeName);
    assert Labelled(before, given);
    assert Label(d, typeName);
  }

  /** `raise_anon_complextypes`.  The new names are pairwise distinct and none was in use before; each raised
      node carries the name that its parent's `type` refers to; no other node or parent changes. */
  method RaiseAnonComplexTypes(defs: seq<Def>, names0: set<string>)
    returns (names: set<string>, topLevel: seq<XsdType>, ghost given: seq<string>, ghost counts: seq<nat>)
    requires DefsOk(defs)
    modifies Nodes(Raised(defs)), Elements(Raised(defs))
    ensures Fresh(given, names0, names) && Labelled(Raised(defs), given) && PickedInTurn(Raised(defs), given, counts, names0)
    ensures |topLevel| == |Raised(defs)| && forall i :: 0 <= i < |topLevel| ==> topLevel[i] == Raised(defs)[i].node
  {
    names, topLevel, given, counts := names0, [], [], [0];
    var count := 0;
    for i := 0 to |defs|
      invariant Fresh(given, names0, names) && Labelled(Raised(defs[..i]), given)
      invariant PickedInTurn(Raised(defs[..i]), given, counts, names0) && count == counts[|given|]
      invariant |topLevel| == |given| && forall k :: 0 <= k < |topLevel| ==> topLevel[k] == Raised(defs[..i])[k].node
    {
      var d := defs[i];
      assert defs[..i + 1][..i] == defs[..i];
      if IsRaised(d) {
        Apart(defs, i);
        assert d in Raised(defs);
        var typeName;
        typeName, count := RaiseOne(d, names, count, names0, Raised(defs[..i]), given);
        OneMorePicked(Raised(defs[..i]), given, counts, names0, d, typeName, count);
        counts := counts + [count];
        names := names + {typeName};
        topLevel, given := topLevel + [d.node], given + [typeName];
        assert Raised(defs[..i + 1]) == Raised(defs[..i]) + [d];
      }
    }
    assert defs[..|defs|] == defs;
  }

  lemma Apart(defs: seq<Def>, i: nat)
    requires DefsOk(defs) && i < |defs| && IsRaised(defs[i])
    ensures defs[i].node !in Nodes(Raised(defs[..i])) && defs[i].parent.value !in Elements(Raised(defs[..i]))
  {
  }
}
