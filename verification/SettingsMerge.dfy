/** Nested settings as values, and what merging one into another means: `update_dict` of
  art/test_handler/settings.py. SettingsDicts.dfy has the in-place code. */
module SettingsMerge {

  datatype Value = Text(text: string) | Items(items: seq<string>)

  datatype Tree = Leaf(value: Value) | Node(entries: map<string, Tree>)

  const EMPTY: Tree := Node(map[])

  /** `master.get(k, {})`. */
  function At(t: Tree, k: string): Tree
    requires t.Node?
  {
    if k in t.entries then t.entries[k] else EMPTY
  }

  /** The merge of `b` into `a` raises nothing: only a mapping with entries cannot be merged into a leaf. */
  predicate Fits(a: Tree, b: Tree)
    decreases b
  {
    match b
    case Leaf(_) => true
    case Node(entries) =>
      if a.Leaf? then entries == map[] else forall k :: k in entries ==> Fits(At(a, k), entries[k])
  }

  /** `update_dict`: a leaf replaces, a mapping is merged key by key; an empty mapping leaves a leaf alone. */
  function Merge(a: Tree, b: Tree): Tree
    requires Fits(a, b)
    decreases b
  {
    match b
    case Leaf(_) => b
    case Node(entries) =>
      if a.Leaf? then a
      else Node(map k | k in a.entries.Keys + entries.Keys :: if k in entries then Merge(At(a, k), entries[k]) else a.entries[k])
  }

  /** The merge of the keys in `done` only, which is where the loop over the update stands. */
  ghost predicate FitsOn(a: Tree, b: Tree, done: set<string>)
    requires a.Node? && b.Node?
  {
    done <= b.entries.Keys && forall k :: k in done ==> Fits(At(a, k), b.entries[k])
  }

  ghost function MergeOn(a: Tree, b: Tree, done: set<string>): Tree
    requires a.Node? && b.Node? && FitsOn(a, b, done)
  {
    Node(map k | k in a.entries.Keys + done :: if k in done then Merge(At(a, k), b.entries[k]) else a.entries[k])
  }

  lemma MergeOnStep(a: Tree, b: Tree, done: set<string>, k: string)
    requires a.Node? && b.Node? && FitsOn(a, b, done) && k in b.entries && k !in done
    ensures At(MergeOn(a, b, done), k) == At(a, k)
    ensures Fits(At(a, k), b.entries[k]) ==>
      FitsOn(a, b, done + {k}) && MergeOn(a, b, done + {k}) == Node(MergeOn(a, b, done).entries[k := Merge(At(a, k), b.entries[k])])
  {
    if Fits(At(a, k), b.entries[k]) {
      assert MergeOn(a, b, done + {k}).entries == MergeOn(a, b, done).entries[k := Merge(At(a, k), b.entries[k])];
    }
  }

  lemma MergeOnAll(a: Tree, b: Tree)
    requires a.Node? && b.Node? && FitsOn(a, b, b.entries.Keys)
    ensures Fits(a, b) && MergeOn(a, b, b.entries.Keys) == Merge(a, b)
  {
    assert MergeOn(a, b, b.entries.Keys).entries == Merge(a, b).entries;
  }

  // ---------- What is found at a path ----------

  datatype Found = Absent | Mapping | Scalar(value: Value)

  function Find(t: Tree, path: seq<string>): Found
    decreases |path|
  {
    if path == [] then (if t.Leaf? then Scalar(t.value) else Mapping)
    else if t.Leaf? || path[0] !in t.entries then Absent
    else Find(t.entries[path[0]], path[1..])
  }

  /** A shorter path already ends in a leaf. */
  predicate Cut(t: Tree, path: seq<string>)
    decreases |path|
  {
    path != [] && (t.Leaf? || (path[0] in t.entries && Cut(t.entries[path[0]], path[1..])))
  }

  /** `Cut` says what its name says. */
  lemma {:induction false} CutExactly(t: Tree, path: seq<string>)
    ensures Cut(t, path) <==> exists n :: 0 <= n < |path| && Find(t, path[..n]).Scalar?
    decreases |path|
  {
    if path != [] {
      if t.Leaf? {
        assert Find(t, path[..0]).Scalar?;
      } else if path[0] in t.entries {
        var sub, rest := t.entries[path[0]], path[1..];
        CutExactly(sub, rest);
        forall n | 0 < n < |path|
          ensures Find(t, path[..n]) == Find(sub, rest[..n - 1])
        {
          assert path[..n][1..] == rest[..n - 1];
        }
        if Cut(sub, rest) {
          var n :| 0 <= n < |rest| && Find(sub, rest[..n]).Scalar?;
          assert Find(t, path[..n + 1]).Scalar?;
        }
      } else {
        assert forall n :: 0 < n < |path| ==> path[..n][0] == path[0];
      }
    }
  }

  /** The merge, path by path. What the update says at a path wins; below one of its leaves nothing of the master stays; a
    mapping of the update does not displace a leaf of the master; where the update says nothing, the master stays. */
  lemma {:induction false} MergeByPath(a: Tree, b: Tree, path: seq<string>)
    requires Fits(a, b)
    ensures Find(Merge(a, b), path)
         == if Find(b, path).Scalar? then Find(b, path)
            else if Cut(b, path) then Absent
            else if Find(b, path).Mapping? then (if Find(a, path).Scalar? then Find(a, path) else Mapping)
            else Find(a, path)
    decreases |path|
  {
    if path != [] && b.Node? && a.Node? && path[0] in b.entries {
      MergeByPath(At(a, path[0]), b.entries[path[0]], path[1..]);
      if path[0] !in a.entries {
        assert Find(EMPTY, path[1..]) == if path[1..] == [] then Mapping else Absent;
      }
    }
  }

  lemma FindOne(t: Tree, k: string)
    ensures Find(t, [k]) == (if t.Leaf? || k !in t.entries then Absent else if t.entries[k].Leaf? then Scalar(t.entries[k].value) else Mapping)
  {
    assert [k][1..] == [];
  }

  /** Two trees in which every path finds the same are the same. */
  lemma {:induction false} SamePaths(a: Tree, b: Tree)
    requires forall path: seq<string> :: Find(a, path) == Find(b, path)
    ensures a == b
    decreases a
  {
    assert Find(a, []) == Find(b, []);
    if a.Node? {
      forall k: string
        ensures k in a.entries <==> k in b.entries
        ensures k in a.entries && k in b.entries ==> a.entries[k] == b.entries[k]
      {
        assert Find(a, [k]) == Find(b, [k]);
        FindOne(a, k);
        FindOne(b, k);
        if k in a.entries {
          assert [k][1..] == [];
          forall path: seq<string>
            ensures Find(a.entries[k], path) == Find(b.entries[k], path)
          {
            assert Find(a, [k] + path) == Find(b, [k] + path);
            assert ([k] + path)[1..] == path;
          }
          SamePaths(a.entries[k], b.entries[k]);
        }
      }
      assert a.entries == b.entries;
    }
  }

  /** The update goes on below a leaf of the master. */
  ghost predicate Clash(a: Tree, b: Tree, path: seq<string>, k: string) {
    Find(a, path).Scalar? && Find(b, path + [k]) != Absent
  }

  lemma {:induction false} ClashMeansMisfit(a: Tree, b: Tree, path: seq<string>, k: string)
    requires Clash(a, b, path, k)
    ensures !Fits(a, b)
    decreases |path|
  {
    if path != [] {
      var rest := path[1..];
      assert (path + [k])[0] == path[0] && (path + [k])[1..] == rest + [k];
      ClashMeansMisfit(a.entries[path[0]], b.entries[path[0]], rest, k);
    }
  }

  lemma {:induction false} MisfitMeansClash(a: Tree, b: Tree) returns (path: seq<string>, k: string)
    requires !Fits(a, b)
    ensures Clash(a, b, path, k)
    decreases b
  {
    if a.Leaf? {
      path := [];
      k :| k in b.entries;
      assert [] + [k] == [k];
    } else {
      var h :| h in b.entries && !Fits(At(a, h), b.entries[h]);
      if h !in a.entries {
        MergeIntoEmpty(b.entries[h]);
      }
      var rest, j := MisfitMeansClash(a.entries[h], b.entries[h]);
      path, k := [h] + rest, j;
      assert path[1..] == rest && (path + [k])[1..] == rest + [k];
    }
  }

  /** The merge fails exactly when some path of the update continues below a leaf of the master. */
  lemma FitsExactly(a: Tree, b: Tree)
    ensures Fits(a, b) <==> forall path: seq<string>, k: string :: !Clash(a, b, path, k)
  {
    if Fits(a, b) {
      forall path: seq<string>, k: string | Clash(a, b, path, k)
        ensures false
      {
        ClashMeansMisfit(a, b, path, k);
      }
    } else {
      var path, k := MisfitMeansClash(a, b);
    }
  }

  // ---------- Laws ----------

  /** Merging into an empty mapping copies. */
  lemma {:induction false} MergeIntoEmpty(b: Tree)
    ensures Fits(EMPTY, b) && Merge(EMPTY, b) == b
    decreases b
  {
    if b.Node? {
      forall k | k in b.entries
        ensures Fits(At(EMPTY, k), b.entries[k]) && Merge(At(EMPTY, k), b.entries[k]) == b.entries[k]
      {
        MergeIntoEmpty(b.entries[k]);
      }
      assert Merge(EMPTY, b).entries == b.entries;
    }
  }

  lemma {:induction false} MergeIdempotent(a: Tree, b: Tree)
    requires Fits(a, b)
    ensures Fits(Merge(a, b), b) && Merge(Merge(a, b), b) == Merge(a, b)
    decreases b
  {
    if b.Node? && a.Node? {
      var m := Merge(a, b);
      forall k | k in b.entries
        ensures Fits(At(m, k), b.entries[k]) && Merge(At(m, k), b.entries[k]) == m.entries[k]
      {
        MergeIdempotent(At(a, k), b.entries[k]);
      }
      assert Merge(m, b).entries == m.entries;
    }
  }

  /** Associativity, with the failures: once the neighbours fit, both groupings fail together or give the same tree. */
  lemma {:induction false} MergeAssociative(a: Tree, b: Tree, c: Tree)
    requires Fits(a, b) && Fits(b, c)
    ensures Fits(Merge(a, b), c) <==> Fits(a, Merge(b, c))
    ensures Fits(a, Merge(b, c)) ==> Merge(Merge(a, b), c) == Merge(a, Merge(b, c))
    decreases c
  {
    if c.Node? && b.Node? {
      if a.Leaf? {
        MergeIntoEmpty(c);
      } else {
        var ab, bc := Merge(a, b), Merge(b, c);
        forall k | k in c.entries
          ensures Fits(At(ab, k), c.entries[k]) <==> Fits(At(a, k), bc.entries[k])
          ensures Fits(At(a, k), bc.entries[k]) ==> Merge(At(ab, k), c.entries[k]) == Merge(At(a, k), bc.entries[k])
        {
          if k in b.entries {
            MergeAssociative(At(a, k), b.entries[k], c.entries[k]);
          } else {
            MergeIntoEmpty(c.entries[k]);
          }
        }
        FitsAssociative(a, b, c);
        if Fits(a, bc) {
          assert Merge(ab, c).entries == Merge(a, bc).entries;
        }
      }
    }
  }

  /** Lifting the agreement at the keys of `c` to the trees. */
  lemma FitsAssociative(a: Tree, b: Tree, c: Tree)
    requires a.Node? && b.Node? && c.Node? && Fits(a, b) && Fits(b, c)
    requires forall k :: k in c.entries ==> (Fits(At(Merge(a, b), k), c.entries[k]) <==> Fits(At(a, k), Merge(b, c).entries[k]))
    ensures Fits(Merge(a, b), c) <==> Fits(a, Merge(b, c))
  {
    var bc := Merge(b, c);
    assert forall k :: k in bc.entries && k !in c.entries ==> bc.entries[k] == b.entries[k];
  }
}
