/** The order of include resolution: in which order documents are visited, and where in the result each child stands. */
module IncludeOrder {
  import opened Helpers
  import opened IncludePaths
  import opened IncludeResolver
  import opened IncludeRuns

  // ---------- Kinds of children ----------

  const Included := (c: Child) => c.Include?
  const Imported := (c: Child) => c.Import?

  /** What is taken over: all but comments and `include`s. */
  const Kept := (c: Child) => !c.Comment? && !c.Include?

  /** The children that are followed: `include` and `import` alike, if they have a location. */
  lemma ReferenceKinds(c: Child)
    ensures IsReference(c) <==> (exists p :: c == Include(Some(p))) || (exists p :: c == Import(Some(p)))
  {
    if IsReference(c) {
      assert c == Include(Some(c.location.value)) || c == Import(Some(c.location.value));
    }
  }

  // ---------- The references of a document ----------

  lemma {:induction false} IncludesAppend(a: Document, b: Document)
    ensures Includes(a + b) == Includes(a) + Includes(b)
    decreases |a|
  {
    if a == [] {
      assert a + b == b;
    } else {
      IncludesAppend(a[1..], b);
      assert (a + b)[1..] == a[1..] + b && (a + b)[0] == a[0];
    }
  }

  lemma {:induction false} ImportsAppend(a: Document, b: Document)
    ensures Imports(a + b) == Imports(a) + Imports(b)
    decreases |a|
  {
    if a == [] {
      assert a + b == b;
    } else {
      ImportsAppend(a[1..], b);
      assert (a + b)[1..] == a[1..] + b && (a + b)[0] == a[0];
    }
  }

  lemma OneReference(c: Child)
    ensures Includes([c]) == (if c.Include? then [c] else []) && Imports([c]) == (if c.Import? then [c] else [])
  {
    assert [c][1..] == [];
  }

  lemma {:induction false} IncludesRank(doc: Document, p: nat)
    requires p <= |doc|
    ensures |Includes(doc[..p])| == Rank(doc, Included, p) && |Imports(doc[..p])| == Rank(doc, Imported, p)
    decreases p
  {
    if p > 0 {
      IncludesRank(doc, p - 1);
      RankNext(doc, Included, p - 1);
      RankNext(doc, Imported, p - 1);
      assert doc[..p] == doc[..p - 1] + [doc[p - 1]];
      IncludesAppend(doc[..p - 1], [doc[p - 1]]);
      ImportsAppend(doc[..p - 1], [doc[p - 1]]);
      OneReference(doc[p - 1]);
    }
  }

  /** The references are all `include` children in the order of the document, and then all `import` children in that order. */
  lemma ReferencesInOrder(doc: Document, p: nat)
    requires p < |doc|
    ensures |References(doc)| == Rank(doc, Included, |doc|) + Rank(doc, Imported, |doc|)
    ensures doc[p].Include? ==> Rank(doc, Included, p) < Rank(doc, Included, |doc|) && References(doc)[Rank(doc, Included, p)] == doc[p]
    ensures doc[p].Import? ==>
      var k := Rank(doc, Included, |doc|) + Rank(doc, Imported, p);
      k < |References(doc)| && References(doc)[k] == doc[p]
  {
    var a, c, b := doc[..p], doc[p], doc[p + 1..];
    assert doc == a + ([c] + b) && doc[..|doc|] == doc;
    IncludesAppend(a, [c] + b);
    IncludesAppend([c], b);
    ImportsAppend(a, [c] + b);
    ImportsAppend([c], b);
    OneReference(c);
    IncludesRank(doc, p);
    IncludesRank(doc, |doc|);
  }

  // ---------- What is taken over, child by child ----------

  lemma {:induction false} InsertsAppend(reference: Child, a: Document, b: Document)
    ensures InsertsOf(reference, a + b) == InsertsOf(reference, a) + InsertsOf(reference, b)
    decreases |a|
  {
    if a == [] {
      assert a + b == b;
    } else {
      InsertsAppend(reference, a[1..], b);
      assert (a + b)[1..] == a[1..] + b && (a + b)[0] == a[0];
      var head := if a[0].Comment? || a[0].Include? then [] else [Note(reference), Copy(a[0])];
      InsertsAssociate(head, InsertsOf(reference, a[1..]), InsertsOf(reference, b));
    }
  }

  lemma OneInsert(reference: Child, c: Child)
    ensures InsertsOf(reference, [c]) == if Kept(c) then [Note(reference), Copy(c)] else []
  {
    assert [c][1..] == [];
  }

  lemma {:induction false} InsertsRank(reference: Child, doc: Document, p: nat)
    requires p <= |doc|
    ensures |InsertsOf(reference, doc[..p])| == 2 * Rank(doc, Kept, p)
    decreases p
  {
    if p > 0 {
      InsertsRank(reference, doc, p - 1);
      RankNext(doc, Kept, p - 1);
      assert doc[..p] == doc[..p - 1] + [doc[p - 1]];
      InsertsAppend(reference, doc[..p - 1], [doc[p - 1]]);
      OneInsert(reference, doc[p - 1]);
    }
  }

  /** The k-th copy that a document adds is its k-th child that is neither comment nor `include`, directly behind a note of the
    reference that brought the document in. */
  lemma InsertsInOrder(reference: Child, doc: Document, p: nat)
    requires p < |doc| && Kept(doc[p])
    ensures |InsertsOf(reference, doc)| == 2 * Rank(doc, Kept, |doc|)
    ensures var k := Rank(doc, Kept, p);
            && k < Rank(doc, Kept, |doc|)
            && InsertsOf(reference, doc)[2 * k] == Note(reference) && InsertsOf(reference, doc)[2 * k + 1] == Copy(doc[p])
  {
    var a, c, b := doc[..p], doc[p], doc[p + 1..];
    assert doc == a + ([c] + b) && doc[..|doc|] == doc;
    InsertsAppend(reference, a, [c] + b);
    InsertsAppend(reference, [c], b);
    OneInsert(reference, c);
    InsertsRank(reference, doc, p);
    InsertsRank(reference, doc, |doc|);
  }

  // ---------- ... and document by document ----------

  /** How many children the documents have that are taken over. */
  ghost function KeptBy(visits: seq<Visit>): nat
    decreases |visits|
  {
    if visits == [] then 0 else KeptBy(visits[..|visits| - 1]) + Rank(visits[|visits| - 1].doc, Kept, |visits[|visits| - 1].doc|)
  }

  /** The child at place `p` of the document visited as number `v` stands at its place, behind its note: after all that earlier
    documents add and after what its own document has before it. */
  ghost predicate StandsAt(inserts: seq<Insert>, visits: seq<Visit>, v: nat, p: nat)
    requires v < |visits| && p < |visits[v].doc|
  {
    var k := KeptBy(visits[..v]) + Rank(visits[v].doc, Kept, p);
    2 * k + 1 < |inserts| && inserts[2 * k] == Note(visits[v].reference) && inserts[2 * k + 1] == Copy(visits[v].doc[p])
  }

  /** `inserts` holds what the visited documents add, in the order of the visits and of the documents, and nothing else. */
  ghost predicate InOrder(inserts: seq<Insert>, visits: seq<Visit>) {
    && |inserts| == 2 * KeptBy(visits)
    && forall v, p :: 0 <= v < |visits| && 0 <= p < |visits[v].doc| && Kept(visits[v].doc[p]) ==> StandsAt(inserts, visits, v, p)
  }

  lemma {:induction false} AllInsertsLength(visits: seq<Visit>)
    ensures |AllInserts(visits)| == 2 * KeptBy(visits)
    decreases |visits|
  {
    if visits != [] {
      var n := |visits| - 1;
      AllInsertsLength(visits[..n]);
      InsertsRank(visits[n].reference, visits[n].doc, |visits[n].doc|);
      assert visits[n].doc[..|visits[n].doc|] == visits[n].doc;
    }
  }

  lemma AllInsertsPlace(visits: seq<Visit>, v: nat, p: nat)
    requires v < |visits| && p < |visits[v].doc| && Kept(visits[v].doc[p])
    ensures StandsAt(AllInserts(visits), visits, v, p) == true
  {
    var a, x, b := visits[..v], visits[v], visits[v + 1..];
    assert visits == a + ([x] + b);
    AllInsertsAppend(a, [x] + b);
    AllInsertsAppend([x], b);
    assert [x][..0] == [];
    assert AllInserts([x]) == InsertsOf(x.reference, x.doc);
    AllInsertsLength(a);
    InsertsInOrder(x.reference, x.doc, p);
    var k := Rank(x.doc, Kept, p);
    var whole := AllInserts(a) + (InsertsOf(x.reference, x.doc) + AllInserts(b));
    MiddleAt(AllInserts(a), InsertsOf(x.reference, x.doc), AllInserts(b), 2 * k);
    MiddleAt(AllInserts(a), InsertsOf(x.reference, x.doc), AllInserts(b), 2 * k + 1);
    assert AllInserts(visits) == whole;
  }

  lemma MiddleAt(a: seq<Insert>, x: seq<Insert>, b: seq<Insert>, k: nat)
    requires k < |x|
    ensures |a| + k < |a + (x + b)| && (a + (x + b))[|a| + k] == x[k]
  {
  }

  lemma AllInOrder(visits: seq<Visit>)
    ensures InOrder(AllInserts(visits), visits)
  {
    AllInsertsLength(visits);
    forall v, p | 0 <= v < |visits| && 0 <= p < |visits[v].doc| && Kept(visits[v].doc[p])
      ensures StandsAt(AllInserts(visits), visits, v, p)
    {
      AllInsertsPlace(visits, v, p);
    }
  }

  // ---------- The order of the visits ----------

  // Writing `== true` after the following predicate makes the verifier treat it as one fact and not as many.

  /** A reference that is still to be looked at, with the base of the document that holds it. */
  datatype Open = Open(base: Path, child: Child)

  function Opened(base: Path, refs: seq<Child>): (r: seq<Open>)
    ensures |r| == |refs| && forall i :: 0 <= i < |r| ==> r[i] == Open(base, refs[i])
  {
    seq(|refs|, i requires 0 <= i < |refs| => Open(base, refs[i]))
  }

  /** The visits that a list of open references leads to, without recursion over documents: the first reference is passed over,
    or its document is visited and that document's references come before everything else that is open. */
  ghost predicate Traversal(w: World, todo: seq<Open>, processed: set<Key>, visits: seq<Visit>)
    decreases |visits|, |todo|
  {
    if todo == [] then visits == []
    else if !IsReference(todo[0].child) then Traversal(w, todo[1..], processed, visits)
    else
      var locn := Locate(todo[0].base, todo[0].child.location.value);
      var key, file := KeyOf(w.cwd, locn), FileAtLocation(w, locn);
      if key in processed then Traversal(w, todo[1..], processed, visits)
      else
        && visits != [] && file in w.files && visits[0] == Visit(locn.absolute, key, todo[0].child, w.files[file])
        && Traversal(w, Opened(Path(locn.absolute, Head(locn.absolute, locn.segs)), References(w.files[file])) + todo[1..],
                     processed + {key}, visits[1..])
  }

  lemma {:induction false} RunAllTraverses(w: World, base: Path, refs: seq<Child>, processed: set<Key>, inserts: seq<Insert>, depth: nat,
                                           more: seq<Open>, rest: seq<Visit>)
    requires RunAll(w, base, refs, processed, inserts, depth).Done?
    requires Traversal(w, more, RunAll(w, base, refs, processed, inserts, depth).processed, rest)
    ensures Traversal(w, Opened(base, refs) + more, processed, RunAll(w, base, refs, processed, inserts, depth).visits + rest) == true
    decreases depth, 1 + |refs|
  {
    if refs == [] {
      assert Opened(base, refs) + more == more && [] + rest == rest;
    } else {
      var first := RunOne(w, base, refs[0], processed, inserts, depth);
      var others := RunAll(w, base, refs[1..], first.processed, first.inserts, depth);
      RunAllTraverses(w, base, refs[1..], first.processed, first.inserts, depth, more, rest);
      RunOneTraverses(w, base, refs[0], processed, inserts, depth, Opened(base, refs[1..]) + more, others.visits + rest);
      assert [Open(base, refs[0])] + (Opened(base, refs[1..]) + more) == Opened(base, refs) + more;
      assert first.visits + (others.visits + rest) == (first.visits + others.visits) + rest;
    }
  }

  /** One reference that leads to a document not visited yet. */
  lemma RunOneVisits(w: World, base: Path, child: Child, processed: set<Key>, inserts: seq<Insert>, depth: nat)
    returns (locn: Path, visit: Visit, inner: Outcome)
    requires IsReference(child) && KeyOf(w.cwd, Locate(base, child.location.value)) !in processed
    requires RunOne(w, base, child, processed, inserts, depth).Done?
    ensures locn == Locate(base, child.location.value) && FileAtLocation(w, locn) in w.files && depth > 0
    ensures visit == Visit(locn.absolute, KeyOf(w.cwd, locn), child, w.files[FileAtLocation(w, locn)])
    ensures inner == RunAll(w, Path(locn.absolute, Head(locn.absolute, locn.segs)), References(visit.doc), processed + {visit.key},
                            inserts + InsertsOf(child, visit.doc), depth - 1)
    ensures inner.Done? && RunOne(w, base, child, processed, inserts, depth).processed == inner.processed
    ensures RunOne(w, base, child, processed, inserts, depth).visits == [visit] + inner.visits
  {
    locn := Locate(base, child.location.value);
    visit := Visit(locn.absolute, KeyOf(w.cwd, locn), child, w.files[FileAtLocation(w, locn)]);
    inner := RunAll(w, Path(locn.absolute, Head(locn.absolute, locn.segs)), References(visit.doc), processed + {visit.key},
                    inserts + InsertsOf(child, visit.doc), depth - 1);
  }

  lemma TraverseVisit(w: World, o: Open, more: seq<Open>, processed: set<Key>, visit: Visit, later: seq<Visit>)
    requires IsReference(o.child)
    requires var locn := Locate(o.base, o.child.location.value);
             && KeyOf(w.cwd, locn) !in processed && FileAtLocation(w, locn) in w.files
             && visit == Visit(locn.absolute, KeyOf(w.cwd, locn), o.child, w.files[FileAtLocation(w, locn)])
             && Traversal(w, Opened(Path(locn.absolute, Head(locn.absolute, locn.segs)), References(visit.doc)) + more,
                          processed + {visit.key}, later)
    ensures Traversal(w, [o] + more, processed, [visit] + later) == true
  {
    assert ([o] + more)[1..] == more && ([visit] + later)[1..] == later;
  }

  lemma {:induction false} VisitTraverses(w: World, o: Open, processed: set<Key>, inserts: seq<Insert>, depth: nat, more: seq<Open>, rest: seq<Visit>,
                                          below: Path, visit: Visit, inner: Outcome)
    requires IsReference(o.child)
    requires var locn := Locate(o.base, o.child.location.value);
             && KeyOf(w.cwd, locn) !in processed && FileAtLocation(w, locn) in w.files
             && visit == Visit(locn.absolute, KeyOf(w.cwd, locn), o.child, w.files[FileAtLocation(w, locn)])
             && below == Path(locn.absolute, Head(locn.absolute, locn.segs))
    requires inner == RunAll(w, below, References(visit.doc), processed + {visit.key}, inserts, depth) && inner.Done?
    requires Traversal(w, more, inner.processed, rest)
    ensures Traversal(w, [o] + more, processed, ([visit] + inner.visits) + rest) == true
    decreases depth, 2 + |References(visit.doc)|
  {
    RunAllTraverses(w, below, References(visit.doc), processed + {visit.key}, inserts, depth, more, rest);
    TraverseVisit(w, o, more, processed, visit, inner.visits + rest);
    assert ([visit] + inner.visits) + rest == [visit] + (inner.visits + rest);
  }

  lemma {:induction false} RunOneTraverses(w: World, base: Path, child: Child, processed: set<Key>, inserts: seq<Insert>, depth: nat,
                                           more: seq<Open>, rest: seq<Visit>)
    requires RunOne(w, base, child, processed, inserts, depth).Done?
    requires Traversal(w, more, RunOne(w, base, child, processed, inserts, depth).processed, rest) == true
    ensures Traversal(w, [Open(base, child)] + more, processed, RunOne(w, base, child, processed, inserts, depth).visits + rest) == true
    decreases depth, 0
  {
    if IsReference(child) && KeyOf(w.cwd, Locate(base, child.location.value)) !in processed {
      var locn, visit, inner := RunOneVisits(w, base, child, processed, inserts, depth);
      VisitTraverses(w, Open(base, child), processed, inserts + InsertsOf(child, visit.doc), depth - 1, more, rest,
                     Path(locn.absolute, Head(locn.absolute, locn.segs)), visit, inner);
    } else {
      RunOnePasses(w, base, child, processed, inserts, depth);
      assert ([Open(base, child)] + more)[1..] == more && [] + rest == rest;
    }
  }

  lemma RunOnePasses(w: World, base: Path, child: Child, processed: set<Key>, inserts: seq<Insert>, depth: nat)
    requires IsReference(child) ==> KeyOf(w.cwd, Locate(base, child.location.value)) in processed
    ensures RunOne(w, base, child, processed, inserts, depth) == Done(processed, inserts, [])
  {
  }

  /** The recursion, with the base saved and restored, visits what the list of open references leads to, in that order. */
  lemma RunTraverses(w: World, base: Path, refs: seq<Child>, processed: set<Key>, inserts: seq<Insert>, depth: nat)
    requires RunAll(w, base, refs, processed, inserts, depth).Done?
    ensures Traversal(w, Opened(base, refs), processed, RunAll(w, base, refs, processed, inserts, depth).visits)
  {
    var r := RunAll(w, base, refs, processed, inserts, depth);
    RunAllTraverses(w, base, refs, processed, inserts, depth, [], []);
    assert Opened(base, refs) + [] == Opened(base, refs) && r.visits + [] == r.visits;
  }

  /** There is only one such order. */
  lemma {:induction false} TraversalIsUnique(w: World, todo: seq<Open>, processed: set<Key>, a: seq<Visit>, b: seq<Visit>)
    requires Traversal(w, todo, processed, a) && Traversal(w, todo, processed, b)
    ensures a == b
    decreases |a|, |todo|
  {
    if todo != [] {
      var o := todo[0];
      var locn := if IsReference(o.child) then Locate(o.base, o.child.location.value) else o.base;
      var key := KeyOf(w.cwd, locn);
      if !IsReference(o.child) || key in processed {
        TraversalIsUnique(w, todo[1..], processed, a, b);
      } else {
        var doc := w.files[FileAtLocation(w, locn)];
        TraversalIsUnique(w, Opened(Path(locn.absolute, Head(locn.absolute, locn.segs)), References(doc)) + todo[1..], processed + {key},
                          a[1..], b[1..]);
        assert a == [a[0]] + a[1..] && b == [b[0]] + b[1..];
      }
    }
  }
}
