/** Dictionaries that are updated in place, `update_dict` on them, and the settings read from the command line:
  art/test_handler/settings.py. */
module SettingsDicts {
  import opened SettingsMerge

  datatype Entry = Plain(value: Value) | Sub(dict: Dict)

  /** The dictionaries of `entries` and all below them lie in `owned`, without a cycle; sharing is allowed. */
  ghost predicate Grounded(entries: map<string, Entry>, owned: set<Dict>)
    reads owned
    decreases owned, 1
  {
    forall k :: k in entries && entries[k].Sub? ==>
      entries[k].dict in owned && entries[k].dict.Repr <= owned && entries[k].dict.Valid()
  }

  /** No dictionary below `entries` is reached in two ways. */
  ghost predicate Separate(entries: map<string, Entry>, owned: set<Dict>)
    requires Grounded(entries, owned)
    reads owned
    decreases owned, 1
  {
    && (forall k :: k in entries && entries[k].Sub? ==> entries[k].dict.Unshared())
    && (forall j, k :: j in entries && k in entries && j != k && entries[j].Sub? && entries[k].Sub? ==>
          entries[j].dict.Repr !! entries[k].dict.Repr)
  }

  ghost function Trees(entries: map<string, Entry>, owned: set<Dict>): (t: map<string, Tree>)
    requires Grounded(entries, owned)
    reads owned
    ensures t.Keys == entries.Keys
    decreases owned, 1
  {
    map k | k in entries :: match entries[k] case Plain(v) => Leaf(v) case Sub(d) => d.Contents()
  }

  lemma PutBack(entries: map<string, Tree>, k: string, t: Tree)
    ensures (entries - {k})[k := t] == entries[k := t]
  {
  }

  /** A dictionary whose values are leaves or further dictionaries. */
  class Dict {
    var entries: map<string, Entry>
    ghost var Repr: set<Dict>

    ghost predicate Valid()
      reads this, Repr
      decreases Repr, 0
    {
      this in Repr && Grounded(entries, Repr - {this})
    }

    ghost predicate Unshared()
      requires Valid()
      reads this, Repr
      decreases Repr, 0
    {
      Separate(entries, Repr - {this})
    }

    ghost function Contents(): Tree
      requires Valid()
      reads this, Repr
      decreases Repr, 0
    {
      Node(Trees(entries, Repr - {this}))
    }

    constructor ()
      ensures Valid() && Unshared() && Contents() == EMPTY
      ensures Repr == {this}
    {
      entries, Repr := map[], {this};
    }

    /** What entry `k` has below it. */
    ghost function Below(k: string): set<Dict>
      reads this, if k in entries && entries[k].Sub? then {entries[k].dict} else {}
    {
      if k in entries && entries[k].Sub? then entries[k].dict.Repr else {}
    }

    /** What the other entries own. */
    ghost function Others(k: string): set<Dict>
      reads this, if k in entries && entries[k].Sub? then {entries[k].dict} else {}
    {
      Repr - {this} - Below(k)
    }

    /** The entries other than `k` are in order, own `owned`, and have the contents `others`. */
    ghost predicate Apart(k: string, owned: set<Dict>, others: map<string, Tree>)
      reads this, owned
    {
      && this !in owned && Grounded(entries - {k}, owned) && Separate(entries - {k}, owned)
      && Trees(entries - {k}, owned) == others
    }

    /** The entry itself is in order and has the contents `t`. */
    ghost predicate Holds(t: Tree)
      reads this, Repr
    {
      Valid() && Unshared() && Contents() == t
    }

    lemma TakeApart(k: string)
      requires Valid() && Unshared()
      ensures Apart(k, Others(k), Contents().entries - {k})
    {
      forall j | j in entries && j != k && entries[j].Sub?
        ensures entries[j].dict in Others(k) && entries[j].dict.Repr <= Others(k)
      {
        assert Grounded(entries, Repr - {this});
        assert entries[j].dict.Valid();
      }
    }

    /** `master[k] = v` for a leaf. */
    method PutPlain(k: string, v: Value, ghost owned: set<Dict>, ghost others: map<string, Tree>)
      requires Apart(k, owned, others)
      modifies this
      ensures Holds(Node(others[k := Leaf(v)])) && Repr == {this} + owned
    {
      ghost var rest := entries - {k};
      entries := entries[k := Plain(v)];
      Repr := {this} + owned;
      assert entries == rest[k := Plain(v)] && Repr - {this} == owned;
      PutTogether(rest, k, Plain(v), owned);
      assert owned + {} == owned;
    }

    /** `master[k] = d`, where `d` shares nothing with the other entries. */
    method PutSub(k: string, d: Dict, ghost t: Tree, ghost owned: set<Dict>, ghost others: map<string, Tree>)
      requires Apart(k, owned, others) && d.Holds(t) && d.Repr !! owned && this !in d.Repr
      modifies this
      ensures Holds(Node(others[k := t])) && Repr == {this} + owned + d.Repr
    {
      ghost var rest := entries - {k};
      PutTogether(rest, k, Sub(d), owned);
      entries := entries[k := Sub(d)];
      Repr := {this} + owned + d.Repr;
      assert entries == rest[k := Sub(d)] && Repr - {this} == owned + d.Repr;
    }

    /** `master.get(k, {})` where that is a dictionary, and what is left beside it. */
    method Fetch(k: string) returns (d: Dict, ghost owned: set<Dict>)
      requires Valid() && Unshared() && (k in entries ==> entries[k].Sub?)
      ensures d.Holds(At(Contents(), k)) && Apart(k, owned, Contents().entries - {k})
      ensures this !in d.Repr && d.Repr !! owned && owned <= Repr && fresh(d.Repr - Repr)
    {
      owned := Others(k);
      TakeApart(k);
      if k in entries {
        d := entries[k].dict;
      } else {
        d := new Dict();
      }
    }

    /** The recursive call on what was fetched for key `k`, and storing its result. */
    method UpdateFetched(k: string, d: Dict, v: Dict, ghost t: Tree, ghost owned: set<Dict>, ghost others: map<string, Tree>) returns (ok: bool)
      requires Apart(k, owned, others) && d.Holds(t) && d.Repr !! owned && this !in d.Repr
      requires v.Valid() && d.Repr !! v.Repr && this !in v.Repr && owned !! v.Repr
      modifies this, d.Repr
      ensures Valid() && Unshared() && fresh(Repr - old({this} + owned + d.Repr)) && ok == Fits(t, old(v.Contents()))
      ensures ok ==> Contents() == Node(others[k := Merge(t, old(v.Contents()))])
      decreases v.Repr, 2
    {
      ok := d.Update(v);
      assert Apart(k, owned, others);
      PutSub(k, d, d.Contents(), owned, others);
    }

    /** The recursive call for key `k`. */
    method UpdateSub(k: string, v: Dict) returns (ok: bool)
      requires Valid() && Unshared() && v.Valid() && Repr !! v.Repr && (k in entries ==> entries[k].Sub?)
      modifies Repr
      ensures Valid() && Unshared() && fresh(Repr - old(Repr))
      ensures ok == Fits(At(old(Contents()), k), old(v.Contents()))
      ensures ok ==> Contents() == Node(old(Contents()).entries[k := Merge(At(old(Contents()), k), old(v.Contents()))])
      decreases v.Repr, 3
    {
      ghost var whole, added := Contents().entries, v.Contents();
      var d, owned := Fetch(k);
      ok := UpdateFetched(k, d, v, At(Node(whole), k), owned, whole - {k});
      if ok {
        PutBack(whole, k, Merge(At(Node(whole), k), added));
      }
    }

    /** One turn of the loop: key `k` of the update. */
    method UpdateKey(update: Dict, k: string) returns (ok: bool)
      requires Valid() && Unshared() && update.Valid() && Repr !! update.Repr && k in update.entries
      modifies Repr
      ensures Valid() && Unshared() && fresh(Repr - old(Repr))
      ensures ok == Fits(At(old(Contents()), k), old(update.Contents()).entries[k])
      ensures ok ==> Contents() == Node(old(Contents()).entries[k := Merge(At(old(Contents()), k), old(update.Contents()).entries[k])])
      decreases update.Repr, 0
    {
      ghost var whole := Contents().entries;
      match update.entries[k] {
        case Plain(v) =>
          TakeApart(k);
          PutPlain(k, v, Others(k), whole - {k});
          assert (whole - {k})[k := Leaf(v)] == whole[k := Leaf(v)];
          ok := true;
        case Sub(v) =>
          if k in entries && entries[k].Plain? {
            ok := v.entries == map[];
            assert v.Contents().entries.Keys == v.entries.Keys;
            assert v.entries == map[] <==> v.entries.Keys == {};
            assert v.Contents().entries == map[] <==> v.Contents().entries.Keys == {};
            assert ok ==> whole == whole[k := At(Contents(), k)];
          } else {
            ok := UpdateSub(k, v);
          }
      }
    }

    /** `update_dict`: merges into this dictionary in place; `ok` is false when Python raises. The update keeps its contents,
      and afterwards no dictionary belongs to both. */
    method Update(update: Dict) returns (ok: bool)
      requires Valid() && Unshared() && update.Valid() && Repr !! update.Repr
      modifies Repr
      ensures Valid() && Unshared() && fresh(Repr - old(Repr))
      ensures update.Valid() && update.Contents() == old(update.Contents()) && Repr !! update.Repr
      ensures ok == Fits(old(Contents()), old(update.Contents()))
      ensures ok ==> Contents() == Merge(old(Contents()), old(update.Contents()))
      decreases update.Repr, 1
    {
      ghost var a, b := Contents(), update.Contents();
      ghost var done: set<string> := {};
      var todo := update.entries.Keys;
      ok := true;
      assert MergeOn(a, b, {}).entries == a.entries;
      while todo != {}
        invariant b.entries.Keys == done + todo && done !! todo && FitsOn(a, b, done)
        invariant Valid() && Unshared() && fresh(Repr - old(Repr)) && Contents() == MergeOn(a, b, done)
        invariant update.Valid() && update.Contents() == b && Repr !! update.Repr
      {
        var k :| k in todo;
        MergeOnStep(a, b, done, k);
        ok := UpdateKey(update, k);
        if !ok {
          return;
        }
        todo, done := todo - {k}, done + {k};
      }
      assert done == b.entries.Keys;
      MergeOnAll(a, b);
    }
  }

  /** Adding an entry that shares nothing with the others. */
  lemma PutTogether(others: map<string, Entry>, k: string, e: Entry, owned: set<Dict>)
    requires k !in others && Grounded(others, owned) && Separate(others, owned)
    requires e.Sub? ==> e.dict.Valid() && e.dict.Unshared() && e.dict.Repr !! owned
    ensures var all, entries := owned + (if e.Sub? then e.dict.Repr else {}), others[k := e];
            && Grounded(entries, all) && Separate(entries, all)
            && Trees(entries, all) == Trees(others, owned)[k := match e case Plain(v) => Leaf(v) case Sub(d) => d.Contents()]
  {
  }
}
