/** What one run of include resolution reads and takes over, for any files and any mixture of relative and absolute
  references. */
module IncludeRuns {
  import opened Helpers
  import opened IncludePaths
  import opened IncludeResolver

  function AllInserts(visits: seq<Visit>): seq<Insert>
    decreases |visits|
  {
    if visits == [] then []
    else AllInserts(visits[..|visits| - 1]) + InsertsOf(visits[|visits| - 1].reference, visits[|visits| - 1].doc)
  }

  lemma {:induction false} AllInsertsAppend(a: seq<Visit>, b: seq<Visit>)
    ensures AllInserts(a + b) == AllInserts(a) + AllInserts(b)
    decreases |b|
  {
    if b == [] {
      assert a + b == a;
    } else {
      var n := |b| - 1;
      assert (a + b)[..|a + b| - 1] == a + b[..n] && (a + b)[|a + b| - 1] == b[n];
      AllInsertsAppend(a, b[..n]);
      InsertsAssociate(AllInserts(a), AllInserts(b[..n]), InsertsOf(b[n].reference, b[n].doc));
    }
  }

  lemma InsertsAssociate(x: seq<Insert>, y: seq<Insert>, z: seq<Insert>)
    ensures (x + y) + z == x + (y + z)
  {
  }

  predicate HasFile(w: World, k: Key) { Norm([], k) in w.files }

  function FileAt(w: World, k: Key): Document
    requires HasFile(w, k)
  {
    w.files[Norm([], k)]
  }

  ghost predicate NamesFiles(doc: Document) {
    forall c :: c in doc && IsReference(c) ==> NamesFile(c.location.value)
  }

  /** Files are stored under normalised paths, and references name files. */
  ghost predicate WorldOk(w: World) {
    Normal(w.cwd) && forall p :: p in w.files ==> Normal(p) && NamesFiles(w.files[p])
  }

  // ---------- Walks along references ----------

  /** The references `cs` lead, one after the other, from document `doc` below `dir` to the location `k`. */
  ghost predicate KeyWalk(w: World, absolute: bool, dir: seq<string>, doc: Document, cs: seq<Child>, last: bool, k: Key)
    decreases |cs|
  {
    && cs != [] && cs[0] in doc && IsReference(cs[0])
    && var url := cs[0].location.value;
       var next := NextKey(absolute, dir, url);
       if |cs| == 1 then last == (absolute || url.absolute) && k == next
       else HasFile(w, next) && KeyWalk(w, absolute || url.absolute, BaseOf(absolute || url.absolute, next), FileAt(w, next), cs[1..], last, k)
  }

  ghost predicate Reached(w: World, absolute: bool, dir: seq<string>, doc: Document, last: bool, k: Key) {
    exists cs :: KeyWalk(w, absolute, dir, doc, cs, last, k)
  }

  lemma ReachedMore(w: World, absolute: bool, dir: seq<string>, doc: Document, more: Document, last: bool, k: Key)
    requires Reached(w, absolute, dir, doc, last, k) && forall c :: c in doc && IsReference(c) ==> c in more
    ensures Reached(w, absolute, dir, more, last, k)
  {
    var cs :| KeyWalk(w, absolute, dir, doc, cs, last, k);
    assert KeyWalk(w, absolute, dir, more, cs, last, k);
  }

  lemma ReachedNow(w: World, absolute: bool, dir: seq<string>, doc: Document, c: Child)
    requires c in doc && IsReference(c)
    ensures Reached(w, absolute, dir, doc, absolute || c.location.value.absolute, NextKey(absolute, dir, c.location.value))
  {
    assert KeyWalk(w, absolute, dir, doc, [c], absolute || c.location.value.absolute, NextKey(absolute, dir, c.location.value));
  }

  lemma ReachedLater(w: World, absolute: bool, dir: seq<string>, doc: Document, c: Child, last: bool, k: Key)
    requires c in doc && IsReference(c) && HasFile(w, NextKey(absolute, dir, c.location.value))
    requires var next := NextKey(absolute, dir, c.location.value);
             Reached(w, absolute || c.location.value.absolute, BaseOf(absolute || c.location.value.absolute, next), FileAt(w, next), last, k)
    ensures Reached(w, absolute, dir, doc, last, k)
  {
    var next := NextKey(absolute, dir, c.location.value);
    var cs :| KeyWalk(w, absolute || c.location.value.absolute, BaseOf(absolute || c.location.value.absolute, next), FileAt(w, next), cs, last, k);
    assert ([c] + cs)[1..] == cs;
    assert KeyWalk(w, absolute, dir, doc, [c] + cs, last, k);
  }

  // ---------- What a call achieves ----------

  /** Every reference of a document found in directory `dir` has its key in `s`. */
  ghost predicate Covers(absolute: bool, s: set<Key>, dir: seq<string>, doc: Document) {
    forall c :: c in doc && IsReference(c) ==> NextKey(absolute, dir, c.location.value) in s
  }

  ghost predicate Distinct(visits: seq<Visit>) {
    forall i, k :: 0 <= i < k < |visits| ==> visits[i].key != visits[k].key
  }

  ghost function Keys(visits: seq<Visit>): set<Key> { set v | v in visits :: v.key }

  ghost predicate Genuine(w: World, visits: seq<Visit>) {
    forall v :: v in visits ==> HasFile(w, v.key) && v.doc == FileAt(w, v.key)
  }

  /** All references of the visited documents are processed. */
  ghost predicate Exhausted(processed: set<Key>, visits: seq<Visit>) {
    forall v :: v in visits ==> Covers(v.absolute, processed, BaseOf(v.absolute, v.key), v.doc)
  }

  ghost predicate Resolved(w: World, before: set<Key>, after: set<Key>, visits: seq<Visit>) {
    && after == before + Keys(visits) && Distinct(visits) && Keys(visits) !! before
    && Genuine(w, visits) && Exhausted(after, visits)
  }

  /** A call for the references of `node`, found below `dir`, took `before` to `after`: what it processed is what it visited,
    each location once, and it left no reference behind. */
  ghost predicate Complete(w: World, absolute: bool, dir: seq<string>, node: Document, before: set<Key>, after: set<Key>,
                           inserts: seq<Insert>, inserts': seq<Insert>, visits: seq<Visit>)
  {
    && Resolved(w, before, after, visits)
    && Covers(absolute, after, dir, node)
    && inserts' == inserts + AllInserts(visits)
  }

  /** Nothing unreachable is read. */
  ghost predicate AllReached(w: World, absolute: bool, dir: seq<string>, node: Document, visits: seq<Visit>) {
    forall v :: v in visits ==> Reached(w, absolute, dir, node, v.absolute, v.key)
  }

  ghost predicate MissingReached(w: World, absolute: bool, dir: seq<string>, node: Document, k: Key) {
    !HasFile(w, k) && exists last :: Reached(w, absolute, dir, node, last, k)
  }

  // Writing `== true` after the following predicate makes the verifier treat it as one fact and not as many.

  /** The outcome of a call: complete, and confined to what the references lead to. */
  ghost predicate Good(w: World, absolute: bool, dir: seq<string>, node: Document, processed: set<Key>, inserts: seq<Insert>, r: Outcome) {
    match r
    case Done(p, i, v) => Complete(w, absolute, dir, node, processed, p, inserts, i, v) && AllReached(w, absolute, dir, node, v)
    case Failed(Missing(k)) => MissingReached(w, absolute, dir, node, k)
    case Failed(TooDeep) => true
  }

  lemma KeysAppend(a: seq<Visit>, b: seq<Visit>)
    ensures Keys(a + b) == Keys(a) + Keys(b)
  {
    forall k | k in Keys(a) + Keys(b) ensures k in Keys(a + b) {
      var v :| (v in a || v in b) && v.key == k;
      assert v in a + b;
    }
  }

  lemma ResolvedAppend(w: World, before: set<Key>, mid: set<Key>, after: set<Key>, a: seq<Visit>, b: seq<Visit>)
    requires Resolved(w, before, mid, a) && Resolved(w, mid, after, b)
    ensures Resolved(w, before, after, a + b)
  {
    KeysAppend(a, b);
    forall i, k | 0 <= i < k < |a + b| ensures (a + b)[i].key != (a + b)[k].key {
      if i < |a| <= k {
        assert a[i].key in Keys(a) && b[k - |a|].key in Keys(b);
      }
    }
    forall v | v in a + b ensures Covers(v.absolute, after, BaseOf(v.absolute, v.key), v.doc) {
      assert v in a ==> Covers(v.absolute, mid, BaseOf(v.absolute, v.key), v.doc);
    }
  }

  lemma CoversAppend(absolute: bool, mid: set<Key>, after: set<Key>, dir: seq<string>, refs: seq<Child>)
    requires refs != [] && mid <= after && Covers(absolute, mid, dir, [refs[0]]) && Covers(absolute, after, dir, refs[1..])
    ensures Covers(absolute, after, dir, refs)
  {
    assert refs[0] in [refs[0]];
    assert forall c :: c in refs ==> c == refs[0] || c in refs[1..];
  }

  lemma CompleteAppend(w: World, absolute: bool, dir: seq<string>, refs: seq<Child>, before: set<Key>, mid: set<Key>, after: set<Key>,
                       ins0: seq<Insert>, ins1: seq<Insert>, ins2: seq<Insert>, a: seq<Visit>, b: seq<Visit>)
    requires refs != [] && Complete(w, absolute, dir, [refs[0]], before, mid, ins0, ins1, a)
    requires Complete(w, absolute, dir, refs[1..], mid, after, ins1, ins2, b)
    ensures Complete(w, absolute, dir, refs, before, after, ins0, ins2, a + b)
  {
    ResolvedAppend(w, before, mid, after, a, b);
    CoversAppend(absolute, mid, after, dir, refs);
    AllInsertsAppend(a, b);
    InsertsAssociate(ins0, AllInserts(a), AllInserts(b));
  }

  lemma AllReachedAppend(w: World, absolute: bool, dir: seq<string>, refs: seq<Child>, a: seq<Visit>, b: seq<Visit>)
    requires refs != [] && AllReached(w, absolute, dir, [refs[0]], a) && AllReached(w, absolute, dir, refs[1..], b)
    ensures AllReached(w, absolute, dir, refs, a + b)
  {
    forall v | v in a + b
      ensures Reached(w, absolute, dir, refs, v.absolute, v.key)
    {
      ReachedMore(w, absolute, dir, if v in a then [refs[0]] else refs[1..], refs, v.absolute, v.key);
    }
  }

  /** One reference and then the others. */
  lemma GoodAppend(w: World, absolute: bool, dir: seq<string>, refs: seq<Child>, processed: set<Key>, inserts: seq<Insert>,
                   first: Outcome, rest: Outcome)
    requires refs != [] && first.Done? && Good(w, absolute, dir, [refs[0]], processed, inserts, first) == true
    requires Good(w, absolute, dir, refs[1..], first.processed, first.inserts, rest) == true
    ensures Good(w, absolute, dir, refs, processed, inserts, After(first.visits, rest)) == true
  {
    match rest {
      case Done(after, ins, visits) =>
        CompleteAppend(w, absolute, dir, refs, processed, first.processed, after, inserts, first.inserts, ins, first.visits, visits);
        AllReachedAppend(w, absolute, dir, refs, first.visits, visits);
      case Failed(Missing(k)) =>
        var last :| Reached(w, absolute, dir, refs[1..], last, k);
        ReachedMore(w, absolute, dir, refs[1..], refs, last, k);
      case Failed(TooDeep) =>
    }
  }

  lemma ResolvedVisit(w: World, v: Visit, before: set<Key>, after: set<Key>, more: seq<Visit>)
    requires v.key !in before && HasFile(w, v.key) && v.doc == FileAt(w, v.key)
    requires Resolved(w, before + {v.key}, after, more) && Covers(v.absolute, after, BaseOf(v.absolute, v.key), v.doc)
    ensures Resolved(w, before, after, [v] + more) && v.key in after
  {
    var all := [v] + more;
    KeysAppend([v], more);
    assert Keys([v]) == {v.key} by { assert v in [v]; }
    forall i, k | 0 <= i < k < |all| ensures all[i].key != all[k].key {
      if i == 0 {
        assert more[k - 1].key in Keys(more);
      }
    }
  }

  lemma InsertsVisit(v: Visit, more: seq<Visit>, inserts: seq<Insert>)
    ensures inserts + AllInserts([v] + more) == inserts + InsertsOf(v.reference, v.doc) + AllInserts(more)
  {
    AllInsertsAppend([v], more);
    assert [v][..0] == [];
    assert AllInserts([v]) == InsertsOf(v.reference, v.doc);
  }

  lemma CoversReferences(absolute: bool, s: set<Key>, dir: seq<string>, doc: Document)
    ensures Covers(absolute, s, dir, References(doc)) <==> Covers(absolute, s, dir, doc)
  {
  }

  /** A document was read for reference `c`; its own references follow. */
  lemma GoodVisit(w: World, absolute: bool, dir: seq<string>, c: Child, v: Visit, processed: set<Key>, inserts: seq<Insert>, rest: Outcome)
    requires IsReference(c) && v.key == NextKey(absolute, dir, c.location.value) && v.absolute == (absolute || c.location.value.absolute)
    requires v.reference == c && v.key !in processed && HasFile(w, v.key) && v.doc == FileAt(w, v.key)
    requires Good(w, v.absolute, BaseOf(v.absolute, v.key), References(v.doc), processed + {v.key}, inserts + InsertsOf(c, v.doc), rest)
    ensures Good(w, absolute, dir, [c], processed, inserts, After([v], rest))
  {
    assert c in [c];
    if rest.Done? {
      CoversReferences(v.absolute, rest.processed, BaseOf(v.absolute, v.key), v.doc);
      ResolvedVisit(w, v, processed, rest.processed, rest.visits);
      InsertsVisit(v, rest.visits, inserts);
      forall x | x in [v] + rest.visits
        ensures Reached(w, absolute, dir, [c], x.absolute, x.key)
      {
        if x in rest.visits {
          ReachedMore(w, v.absolute, BaseOf(v.absolute, v.key), References(v.doc), v.doc, x.absolute, x.key);
          ReachedLater(w, absolute, dir, [c], c, x.absolute, x.key);
        } else {
          ReachedNow(w, absolute, dir, [c], c);
        }
      }
    } else if rest.why.Missing? {
      var last :| Reached(w, v.absolute, BaseOf(v.absolute, v.key), References(v.doc), last, rest.why.key);
      ReachedMore(w, v.absolute, BaseOf(v.absolute, v.key), References(v.doc), v.doc, last, rest.why.key);
      ReachedLater(w, absolute, dir, [c], c, last, rest.why.key);
    }
  }

  lemma GoodNothing(w: World, absolute: bool, dir: seq<string>, doc: Document, processed: set<Key>, inserts: seq<Insert>)
    requires Covers(absolute, processed, dir, doc)
    ensures Good(w, absolute, dir, doc, processed, inserts, Done(processed, inserts, []))
  {
    assert Keys([]) == {};
    assert inserts + AllInserts([]) == inserts;
  }

  lemma {:induction false} RunAllGood(w: World, base: Path, refs: seq<Child>, processed: set<Key>, inserts: seq<Insert>, depth: nat)
    requires WorldOk(w) && NamesFiles(refs)
    ensures Good(w, base.absolute, KeyOf(w.cwd, base), refs, processed, inserts, RunAll(w, base, refs, processed, inserts, depth)) == true
    decreases depth, 1 + |refs|
  {
    if refs == [] {
      GoodNothing(w, base.absolute, KeyOf(w.cwd, base), refs, processed, inserts);
    } else {
      var first := RunOne(w, base, refs[0], processed, inserts, depth);
      RunOneGood(w, base, refs[0], processed, inserts, depth);
      if first.Done? {
        RunAllGood(w, base, refs[1..], first.processed, first.inserts, depth);
        GoodAppend(w, base.absolute, KeyOf(w.cwd, base), refs, processed, inserts, first,
                   RunAll(w, base, refs[1..], first.processed, first.inserts, depth));
      } else if first.why.Missing? {
        var last :| Reached(w, base.absolute, KeyOf(w.cwd, base), [refs[0]], last, first.why.key);
        ReachedMore(w, base.absolute, KeyOf(w.cwd, base), [refs[0]], refs, last, first.why.key);
      }
    }
  }

  lemma {:induction false} RunOneGood(w: World, base: Path, child: Child, processed: set<Key>, inserts: seq<Insert>, depth: nat)
    requires WorldOk(w) && (IsReference(child) ==> NamesFile(child.location.value))
    ensures Good(w, base.absolute, KeyOf(w.cwd, base), [child], processed, inserts, RunOne(w, base, child, processed, inserts, depth)) == true
    decreases depth, 0
  {
    var absolute, dir := base.absolute, KeyOf(w.cwd, base);
    assert child in [child];
    if !IsReference(child) {
      GoodNothing(w, absolute, dir, [child], processed, inserts);
    } else {
      KeysCompose(w.cwd, base, child.location.value);
      var locn := Locate(base, child.location.value);
      var key := KeyOf(w.cwd, locn);
      if key in processed {
        GoodNothing(w, absolute, dir, [child], processed, inserts);
      } else if FileAtLocation(w, locn) !in w.files {
        ReachedNow(w, absolute, dir, [child], child);
      } else if depth > 0 {
        var doc := w.files[FileAtLocation(w, locn)];
        RunAllGood(w, Path(locn.absolute, Head(locn.absolute, locn.segs)), References(doc), processed + {key}, inserts + InsertsOf(child, doc), depth - 1);
        GoodVisit(w, absolute, dir, child, Visit(locn.absolute, key, child, doc), processed, inserts,
                  RunAll(w, Path(locn.absolute, Head(locn.absolute, locn.segs)), References(doc), processed + {key}, inserts + InsertsOf(child, doc), depth - 1));
      }
    }
  }

  // ---------- Enough stack ----------

  /** Every existing file that the references lead to has its key in `u`. */
  ghost predicate Within(w: World, absolute: bool, dir: seq<string>, doc: Document, u: set<Key>) {
    forall last, k :: Reached(w, absolute, dir, doc, last, k) && HasFile(w, k) ==> k in u
  }

  /** A stack as deep as there are keys within reach is enough. */
  lemma {:induction false} RunAllDeepEnough(w: World, base: Path, refs: seq<Child>, processed: set<Key>, inserts: seq<Insert>, depth: nat, u: set<Key>)
    requires WorldOk(w) && NamesFiles(refs)
    requires Within(w, base.absolute, KeyOf(w.cwd, base), refs, u) && |u - processed| <= depth
    ensures RunAll(w, base, refs, processed, inserts, depth) != Failed(TooDeep)
    decreases depth, 1 + |refs|
  {
    if refs != [] {
      var absolute, dir := base.absolute, KeyOf(w.cwd, base);
      var first := RunOne(w, base, refs[0], processed, inserts, depth);
      WithinPart(w, absolute, dir, [refs[0]], refs, u);
      WithinPart(w, absolute, dir, refs[1..], refs, u);
      RunOneDeepEnough(w, base, refs[0], processed, inserts, depth, u);
      RunOneGood(w, base, refs[0], processed, inserts, depth);
      if first.Done? {
        SubsetSize(u - first.processed, u - processed);
        RunAllDeepEnough(w, base, refs[1..], first.processed, first.inserts, depth, u);
      }
    }
  }

  lemma {:induction false} RunOneDeepEnough(w: World, base: Path, child: Child, processed: set<Key>, inserts: seq<Insert>, depth: nat, u: set<Key>)
    requires WorldOk(w) && (IsReference(child) ==> NamesFile(child.location.value))
    requires Within(w, base.absolute, KeyOf(w.cwd, base), [child], u) && |u - processed| <= depth
    ensures RunOne(w, base, child, processed, inserts, depth) != Failed(TooDeep)
    decreases depth, 0
  {
    if ReadsFile(w, base, child, processed) {
      var locn := Locate(base, child.location.value);
      var doc := w.files[FileAtLocation(w, locn)];
      VisitWithin(w, base, child, u);
      RoomForOne(u, processed, KeyOf(w.cwd, locn), depth);
      RunOneReads(w, base, child, processed, inserts, depth);
      RunAllDeepEnough(w, Path(locn.absolute, Head(locn.absolute, locn.segs)), References(doc), processed + {KeyOf(w.cwd, locn)},
                       inserts + InsertsOf(child, doc), depth - 1, u);
    } else {
      RunOneSkips(w, base, child, processed, inserts, depth);
    }
  }

  /** The reference leads to a file and was not processed. */
  predicate ReadsFile(w: World, base: Path, child: Child, processed: set<Key>) {
    && IsReference(child)
    && var locn := Locate(base, child.location.value);
       KeyOf(w.cwd, locn) !in processed && FileAtLocation(w, locn) in w.files
  }

  lemma RunOneSkips(w: World, base: Path, child: Child, processed: set<Key>, inserts: seq<Insert>, depth: nat)
    requires !ReadsFile(w, base, child, processed)
    ensures RunOne(w, base, child, processed, inserts, depth) != Failed(TooDeep)
  {
  }

  lemma VisitWithin(w: World, base: Path, child: Child, u: set<Key>)
    requires WorldOk(w) && IsReference(child) && NamesFile(child.location.value)
    requires Within(w, base.absolute, KeyOf(w.cwd, base), [child], u) && FileAtLocation(w, Locate(base, child.location.value)) in w.files
    ensures var locn := Locate(base, child.location.value);
            var doc := w.files[FileAtLocation(w, locn)];
            KeyOf(w.cwd, locn) in u && NamesFiles(References(doc)) && Within(w, locn.absolute, KeyOf(w.cwd, Path(locn.absolute, Head(locn.absolute, locn.segs))), References(doc), u)
  {
    KeysCompose(w.cwd, base, child.location.value);
    assert child in [child];
    ReachedNow(w, base.absolute, KeyOf(w.cwd, base), [child], child);
    WithinVisit(w, base.absolute, KeyOf(w.cwd, base), child, u);
  }

  lemma RoomForOne(u: set<Key>, processed: set<Key>, key: Key, depth: nat)
    requires key in u && key !in processed && |u - processed| <= depth
    ensures depth > 0 && |u - (processed + {key})| <= depth - 1
  {
    SubsetSize(u - (processed + {key}), u - processed);
  }

  /** A document that is read makes the call too deep only if its own references do. */
  lemma RunOneReads(w: World, base: Path, child: Child, processed: set<Key>, inserts: seq<Insert>, depth: nat)
    requires ReadsFile(w, base, child, processed) && depth > 0
    ensures var locn := Locate(base, child.location.value);
            var doc := w.files[FileAtLocation(w, locn)];
            RunOne(w, base, child, processed, inserts, depth) == Failed(TooDeep) ==>
            RunAll(w, Path(locn.absolute, Head(locn.absolute, locn.segs)), References(doc), processed + {KeyOf(w.cwd, locn)},
                   inserts + InsertsOf(child, doc), depth - 1) == Failed(TooDeep)
  {
  }

  lemma WithinPart(w: World, absolute: bool, dir: seq<string>, part: Document, doc: Document, u: set<Key>)
    requires Within(w, absolute, dir, doc, u) && forall c :: c in part ==> c in doc
    ensures Within(w, absolute, dir, part, u)
  {
    forall last, k | Reached(w, absolute, dir, part, last, k) && HasFile(w, k)
      ensures k in u
    {
      ReachedMore(w, absolute, dir, part, doc, last, k);
    }
  }

  lemma WithinVisit(w: World, absolute: bool, dir: seq<string>, c: Child, u: set<Key>)
    requires IsReference(c) && Within(w, absolute, dir, [c], u) && HasFile(w, NextKey(absolute, dir, c.location.value))
    ensures var next := NextKey(absolute, dir, c.location.value);
            Within(w, absolute || c.location.value.absolute, BaseOf(absolute || c.location.value.absolute, next), References(FileAt(w, next)), u)
  {
    var next := NextKey(absolute, dir, c.location.value);
    var a := absolute || c.location.value.absolute;
    forall last, k | Reached(w, a, BaseOf(a, next), References(FileAt(w, next)), last, k) && HasFile(w, k)
      ensures k in u
    {
      ReachedMore(w, a, BaseOf(a, next), References(FileAt(w, next)), FileAt(w, next), last, k);
      assert c in [c];
      ReachedLater(w, absolute, dir, [c], c, last, k);
    }
  }
}
