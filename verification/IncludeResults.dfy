/** What include resolution achieves from a fresh start: which locations and files it visits, what it takes over, when it
  completes in terms of locations, and exactly when it completes with relative references only. */
module IncludeResults {
  import opened Helpers
  import opened IncludePaths
  import opened IncludeResolver
  import opened IncludeRuns
  import opened IncludeOrder

  /** The whole resolution of `root`. */
  function Resolution(w: World, base: Path, root: Document, depth: nat): Outcome {
    RunAll(w, base, References(root), {}, [], depth)
  }

  /** With a large enough stack the resolution comes to its end without an error. */
  ghost predicate Completes(w: World, base: Path, root: Document) {
    exists depth: nat :: Resolution(w, base, root, depth).Done?
  }

  lemma ResolutionGood(w: World, base: Path, root: Document, depth: nat)
    requires WorldOk(w) && NamesFiles(root)
    ensures Good(w, base.absolute, KeyOf(w.cwd, base), root, {}, [], Resolution(w, base, root, depth)) == true
  {
    var r, dir := Resolution(w, base, root, depth), KeyOf(w.cwd, base);
    RunAllGood(w, base, References(root), {}, [], depth);
    if r.Done? {
      CoversReferences(base.absolute, r.processed, dir, root);
      forall v | v in r.visits
        ensures Reached(w, base.absolute, dir, root, v.absolute, v.key)
      {
        ReachedMore(w, base.absolute, dir, References(root), root, v.absolute, v.key);
      }
    } else if r.why.Missing? {
      var last :| Reached(w, base.absolute, dir, References(root), last, r.why.key);
      ReachedMore(w, base.absolute, dir, References(root), root, last, r.why.key);
    }
  }

  // ---------- Files ----------

  /** The references `cs` lead from document `doc` in directory `dir` to the file `p`. */
  ghost predicate FileWalk(w: World, dir: seq<string>, doc: Document, cs: seq<Child>, p: seq<string>)
    decreases |cs|
  {
    && cs != [] && cs[0] in doc && IsReference(cs[0])
    && var next := FileOf(dir, cs[0].location.value);
       if |cs| == 1 then p == next else next in w.files && FileWalk(w, DirOf(next), w.files[next], cs[1..], p)
  }

  ghost predicate CanReach(w: World, dir: seq<string>, doc: Document, p: seq<string>) {
    exists cs :: FileWalk(w, dir, doc, cs, p)
  }

  /** Every file that the references lead to exists. */
  ghost predicate AllPresent(w: World, dir: seq<string>, doc: Document) {
    forall p :: CanReach(w, dir, doc, p) ==> p in w.files
  }

  /** How a document was located, as far as it matters for the locations below it: relatively, absolutely, or absolutely in a
    directory whose name is all slashes, so that `os.path.split` keeps them (mode `Flat`). */
  datatype Mode = Rel | Abs | Flat

  function ModeOf(absolute: bool, base: seq<string>): Mode { if !absolute then Rel else if AllEmpty(base) then Flat else Abs }

  function NextMode(mode: Mode, url: Path): Mode {
    if url.absolute then (if AllEmpty(DirOf(url.segs)) then Flat else Abs)
    else if mode == Flat && |url.segs| > 1 then Abs
    else mode
  }

  /** The mode at the end of the references `cs`. */
  function ModeAfter(mode: Mode, cs: seq<Child>): Mode
    decreases |cs|
  {
    if cs == [] then mode else ModeAfter(if IsReference(cs[0]) then NextMode(mode, cs[0].location.value) else mode, cs[1..])
  }

  /** The base of the next document has the mode that the file system's view predicts. */
  lemma ModeStep(absolute: bool, dir: seq<string>, url: Path)
    requires NamesFile(url) && DirOk(absolute, dir)
    ensures var k, a := NextKey(absolute, dir, url), absolute || url.absolute;
            ModeOf(a, BaseOf(a, k)) == NextMode(ModeOf(absolute, dir), url)
  {
    if url.absolute {
      var d := DirOf(url.segs);
      StripEnds(d);
      assert Stripped(d) != [] ==> Stripped(d)[|Stripped(d)| - 1] in Stripped(d);
    } else if absolute {
      HeadGrows(dir, url);
    }
  }

  /** The references lead to the file `p`, and there in mode `m`. */
  ghost predicate ReachedIn(w: World, mode: Mode, dir: seq<string>, doc: Document, m: Mode, p: seq<string>) {
    exists cs :: FileWalk(w, dir, doc, cs, p) && ModeAfter(mode, cs) == m
  }

  /** The directory of the root, as the file system sees it. */
  function RootDir(w: World, base: Path): seq<string> { Norm([], KeyOf(w.cwd, base)) }

  /** A base comes from `os.path.split`. */
  ghost predicate BaseOk(base: Path) { base.absolute ==> IsHead(base.segs) }

  lemma BaseDirOk(w: World, base: Path)
    requires WorldOk(w) && BaseOk(base)
    ensures DirOk(base.absolute, KeyOf(w.cwd, base))
  {
    NormIsNormal(w.cwd, base.segs);
  }

  lemma {:induction false} WalkOnFiles(w: World, absolute: bool, dir: seq<string>, doc: Document, cs: seq<Child>, last: bool, k: Key)
    requires WorldOk(w) && NamesFiles(doc) && DirOk(absolute, dir) && KeyWalk(w, absolute, dir, doc, cs, last, k)
    ensures FileWalk(w, Norm([], dir), doc, cs, Norm([], k)) && (!last ==> Normal(k)) && k != [] && Plain(k[|k| - 1])
    ensures DirOk(last, BaseOf(last, k)) && ModeOf(last, BaseOf(last, k)) == ModeAfter(ModeOf(absolute, dir), cs)
    decreases |cs|
  {
    var url := cs[0].location.value;
    var next, a := NextKey(absolute, dir, url), absolute || url.absolute;
    KeyMeansFile(absolute, dir, url);
    ModeStep(absolute, dir, url);
    if |cs| > 1 {
      WalkOnFiles(w, a, BaseOf(a, next), FileAt(w, next), cs[1..], last, k);
    } else {
      assert cs[1..] == [];
    }
  }

  lemma {:induction false} WalkOnKeys(w: World, absolute: bool, dir: seq<string>, doc: Document, cs: seq<Child>, p: seq<string>) returns (last: bool, k: Key)
    requires WorldOk(w) && NamesFiles(doc) && DirOk(absolute, dir) && FileWalk(w, Norm([], dir), doc, cs, p)
    ensures KeyWalk(w, absolute, dir, doc, cs, last, k) && Norm([], k) == p
    decreases |cs|
  {
    var url := cs[0].location.value;
    KeyMeansFile(absolute, dir, url);
    last, k := absolute || url.absolute, NextKey(absolute, dir, url);
    if |cs| > 1 {
      last, k := WalkOnKeys(w, last, BaseOf(last, k), FileAt(w, k), cs[1..], p);
    }
  }

  /** The base below a visited document is the directory of its file. */
  lemma VisitDir(absolute: bool, k: Key)
    requires k != [] && Plain(k[|k| - 1])
    ensures Norm([], BaseOf(absolute, k)) == DirOf(Norm([], k))
  {
    NormOfFile([], k);
    HeadIsDir([], absolute, k);
  }

  ghost function VisitedFiles(visits: seq<Visit>): set<seq<string>> { set v | v in visits :: Norm([], v.key) }

  /** A location that can be visited. */
  ghost predicate Sound(absolute: bool, k: Key) {
    DirOk(absolute, BaseOf(absolute, k)) && k != [] && Plain(k[|k| - 1]) && (!absolute ==> Normal(k))
  }

  /** Following references from a document whose references are all processed never leaves the visited files. */
  lemma {:induction false} WalkStaysVisited(w: World, absolute: bool, dir: seq<string>, doc: Document, cs: seq<Child>, p: seq<string>, visits: seq<Visit>)
    requires WorldOk(w) && NamesFiles(doc) && DirOk(absolute, dir) && FileWalk(w, Norm([], dir), doc, cs, p)
    requires Genuine(w, visits) && Exhausted(Keys(visits), visits) && Covers(absolute, Keys(visits), dir, doc)
    requires forall v :: v in visits ==> Sound(v.absolute, v.key)
    ensures p in VisitedFiles(visits)
    decreases |cs|
  {
    var url := cs[0].location.value;
    KeyMeansFile(absolute, dir, url);
    var next := NextKey(absolute, dir, url);
    assert next in Keys(visits);
    var v :| v in visits && v.key == next;
    if |cs| > 1 {
      VisitDir(v.absolute, v.key);
      WalkStaysVisited(w, v.absolute, BaseOf(v.absolute, v.key), v.doc, cs[1..], p, visits);
    }
  }

  lemma ReachedFile(w: World, absolute: bool, dir: seq<string>, root: Document, last: bool, k: Key)
    requires WorldOk(w) && NamesFiles(root) && DirOk(absolute, dir) && Reached(w, absolute, dir, root, last, k)
    ensures Sound(last, k)
    ensures ReachedIn(w, ModeOf(absolute, dir), Norm([], dir), root, ModeOf(last, BaseOf(last, k)), Norm([], k))
  {
    var cs :| KeyWalk(w, absolute, dir, root, cs, last, k);
    WalkOnFiles(w, absolute, dir, root, cs, last, k);
  }

  lemma VisitedCanBeReached(w: World, absolute: bool, dir: seq<string>, root: Document, visits: seq<Visit>)
    requires WorldOk(w) && NamesFiles(root) && DirOk(absolute, dir) && AllReached(w, absolute, dir, root, visits)
    ensures forall v :: v in visits ==> CanReach(w, Norm([], dir), root, Norm([], v.key)) && Sound(v.absolute, v.key)
  {
    forall v | v in visits
      ensures CanReach(w, Norm([], dir), root, Norm([], v.key)) && Sound(v.absolute, v.key)
    {
      ReachedFile(w, absolute, dir, root, v.absolute, v.key);
    }
  }

  lemma ReachableIsVisited(w: World, absolute: bool, dir: seq<string>, root: Document, processed: set<Key>, inserts: seq<Insert>, visits: seq<Visit>,
                           p: seq<string>)
    requires WorldOk(w) && NamesFiles(root) && DirOk(absolute, dir)
    requires Complete(w, absolute, dir, root, {}, processed, [], inserts, visits) && forall v :: v in visits ==> Sound(v.absolute, v.key)
    requires CanReach(w, Norm([], dir), root, p)
    ensures p in VisitedFiles(visits)
  {
    assert processed == Keys(visits);
    var cs :| FileWalk(w, Norm([], dir), root, cs, p);
    WalkStaysVisited(w, absolute, dir, root, cs, p, visits);
  }

  lemma VisitedIsReachable(w: World, absolute: bool, dir: seq<string>, root: Document, processed: set<Key>, inserts: seq<Insert>, visits: seq<Visit>)
    requires WorldOk(w) && NamesFiles(root) && DirOk(absolute, dir)
    requires Complete(w, absolute, dir, root, {}, processed, [], inserts, visits) == true && AllReached(w, absolute, dir, root, visits) == true
    ensures forall p :: p in VisitedFiles(visits) <==> CanReach(w, Norm([], dir), root, p)
  {
    VisitedCanBeReached(w, absolute, dir, root, visits);
    forall p | CanReach(w, Norm([], dir), root, p)
      ensures p in VisitedFiles(visits)
    {
      ReachableIsVisited(w, absolute, dir, root, processed, inserts, visits, p);
    }
  }

  /** A completed resolution visited exactly the files that the references lead to; a failed one names a file that they lead to
    and that does not exist. */
  lemma FilesExactly(w: World, base: Path, root: Document, depth: nat)
    requires WorldOk(w) && NamesFiles(root) && BaseOk(base)
    ensures var r := Resolution(w, base, root, depth);
            && (r.Done? ==> forall p :: p in VisitedFiles(r.visits) <==> CanReach(w, RootDir(w, base), root, p))
            && (r.Failed? && r.why.Missing? ==> Norm([], r.why.key) !in w.files && CanReach(w, RootDir(w, base), root, Norm([], r.why.key)))
  {
    var r, dir := Resolution(w, base, root, depth), KeyOf(w.cwd, base);
    ResolutionGood(w, base, root, depth);
    BaseDirOk(w, base);
    match r {
      case Done(processed, inserts, visits) =>
        VisitedIsReachable(w, base.absolute, dir, root, processed, inserts, visits);
      case Failed(Missing(k)) =>
        var last :| Reached(w, base.absolute, dir, root, last, k);
        ReachedFile(w, base.absolute, dir, root, last, k);
      case Failed(TooDeep) =>
    }
  }

  lemma CompletesMeansPresent(w: World, base: Path, root: Document)
    requires WorldOk(w) && NamesFiles(root) && BaseOk(base) && Completes(w, base, root)
    ensures AllPresent(w, RootDir(w, base), root)
  {
    var depth: nat :| Resolution(w, base, root, depth).Done?;
    FilesExactly(w, base, root, depth);
    ResolutionGood(w, base, root, depth);
  }

  // ---------- Locations ----------

  /** What a reference gives: a key, and whether the location is absolute. */
  datatype Location = Location(absolute: bool, key: Key)

  function Target(absolute: bool, dir: seq<string>, url: Path): Location {
    Location(absolute || url.absolute, NextKey(absolute, dir, url))
  }

  ghost predicate LeadsInto(absolute: bool, dir: seq<string>, doc: Document, s: set<Location>) {
    forall c :: c in doc && IsReference(c) ==> Target(absolute, dir, c.location.value) in s
  }

  /** The references of the documents at the locations in `s` lead to locations in `s`. */
  ghost predicate Closed(w: World, s: set<Location>) {
    forall l :: l in s && HasFile(w, l.key) ==> LeadsInto(l.absolute, BaseOf(l.absolute, l.key), FileAt(w, l.key), s)
  }

  /** A set of locations that the references of the root, and of everything in it, do not leave. */
  ghost predicate Encloses(w: World, absolute: bool, dir: seq<string>, root: Document, s: set<Location>) {
    Closed(w, s) && LeadsInto(absolute, dir, root, s)
  }

  ghost function Locations(visits: seq<Visit>): set<Location> { set v | v in visits :: Location(v.absolute, v.key) }

  /** No file is reached both by a relative and by an absolute location. */
  ghost predicate Separate(w: World, mode: Mode, dir: seq<string>, root: Document) {
    forall p, a, b :: ReachedIn(w, mode, dir, root, a, p) && ReachedIn(w, mode, dir, root, b, p) ==> (a == Rel <==> b == Rel)
  }

  /** The mode of the root. */
  function RootMode(w: World, base: Path): Mode { ModeOf(base.absolute, KeyOf(w.cwd, base)) }

  lemma {:induction false} WalkStaysInside(w: World, absolute: bool, dir: seq<string>, doc: Document, cs: seq<Child>, last: bool, k: Key, s: set<Location>)
    requires KeyWalk(w, absolute, dir, doc, cs, last, k) && Closed(w, s) && LeadsInto(absolute, dir, doc, s)
    ensures Location(last, k) in s
    decreases |cs|
  {
    var to := Target(absolute, dir, cs[0].location.value);
    if |cs| > 1 {
      WalkStaysInside(w, to.absolute, BaseOf(to.absolute, to.key), FileAt(w, to.key), cs[1..], last, k, s);
    }
  }

  lemma ReachedInside(w: World, absolute: bool, dir: seq<string>, root: Document, last: bool, k: Key, s: set<Location>)
    requires Reached(w, absolute, dir, root, last, k) && Encloses(w, absolute, dir, root, s)
    ensures Location(last, k) in s
  {
    var cs :| KeyWalk(w, absolute, dir, root, cs, last, k);
    WalkStaysInside(w, absolute, dir, root, cs, last, k, s);
  }

  lemma {:induction false} WalkExtend(w: World, absolute: bool, dir: seq<string>, doc: Document, cs: seq<Child>, last: bool, k: Key, c: Child)
    requires KeyWalk(w, absolute, dir, doc, cs, last, k) && HasFile(w, k) && c in FileAt(w, k) && IsReference(c)
    ensures KeyWalk(w, absolute, dir, doc, cs + [c], last || c.location.value.absolute, NextKey(last, BaseOf(last, k), c.location.value))
    decreases |cs|
  {
    assert (cs + [c])[1..] == cs[1..] + [c];
    if |cs| == 1 {
      assert (cs + [c])[1..] == [c];
    } else {
      var to := Target(absolute, dir, cs[0].location.value);
      WalkExtend(w, to.absolute, BaseOf(to.absolute, to.key), FileAt(w, to.key), cs[1..], last, k, c);
    }
  }

  lemma ReachedNext(w: World, absolute: bool, dir: seq<string>, root: Document, last: bool, k: Key, c: Child)
    requires Reached(w, absolute, dir, root, last, k) && HasFile(w, k) && c in FileAt(w, k) && IsReference(c)
    ensures Reached(w, absolute, dir, root, last || c.location.value.absolute, NextKey(last, BaseOf(last, k), c.location.value))
  {
    var cs :| KeyWalk(w, absolute, dir, root, cs, last, k);
    WalkExtend(w, absolute, dir, root, cs, last, k, c);
  }

  // Writing `== true` after the following predicate makes the verifier treat it as one fact and not as many.

  /** `visits` are those of a complete resolution, in a setting where a key has only one location. */
  ghost predicate Finished(w: World, absolute: bool, dir: seq<string>, root: Document, visits: seq<Visit>) {
    && WorldOk(w) && NamesFiles(root) && DirOk(absolute, dir) && Separate(w, ModeOf(absolute, dir), Norm([], dir), root)
    && Genuine(w, visits) && Exhausted(Keys(visits), visits) && Covers(absolute, Keys(visits), dir, root)
    && AllReached(w, absolute, dir, root, visits)
  }

  lemma OneKind(w: World, absolute: bool, dir: seq<string>, root: Document, last: bool, other: bool, k: Key)
    requires WorldOk(w) && NamesFiles(root) && DirOk(absolute, dir) && Separate(w, ModeOf(absolute, dir), Norm([], dir), root)
    requires Reached(w, absolute, dir, root, last, k) && Reached(w, absolute, dir, root, other, k)
    ensures last == other
  {
    ReachedFile(w, absolute, dir, root, last, k);
    ReachedFile(w, absolute, dir, root, other, k);
  }

  lemma IsVisited(w: World, absolute: bool, dir: seq<string>, root: Document, visits: seq<Visit>, l: Location)
    requires WorldOk(w) && NamesFiles(root) && DirOk(absolute, dir) && Separate(w, ModeOf(absolute, dir), Norm([], dir), root) == true
    requires AllReached(w, absolute, dir, root, visits)
    requires Reached(w, absolute, dir, root, l.absolute, l.key) == true && l.key in Keys(visits)
    ensures l in Locations(visits)
  {
    var v :| v in visits && v.key == l.key;
    OneKind(w, absolute, dir, root, l.absolute, v.absolute, v.key);
    assert l == Location(v.absolute, v.key);
  }

  lemma RootLeadsInto(w: World, absolute: bool, dir: seq<string>, root: Document, visits: seq<Visit>)
    requires Finished(w, absolute, dir, root, visits) == true
    ensures LeadsInto(absolute, dir, root, Locations(visits)) == true
  {
    forall c | c in root && IsReference(c)
      ensures Target(absolute, dir, c.location.value) in Locations(visits)
    {
      ReachedNow(w, absolute, dir, root, c);
      IsVisited(w, absolute, dir, root, visits, Target(absolute, dir, c.location.value));
    }
  }

  lemma VisitLeadsInto(w: World, absolute: bool, dir: seq<string>, root: Document, visits: seq<Visit>, v: Visit)
    requires Finished(w, absolute, dir, root, visits) == true && v in visits
    ensures v.doc == FileAt(w, v.key) && LeadsInto(v.absolute, BaseOf(v.absolute, v.key), v.doc, Locations(visits))
  {
    assert Covers(v.absolute, Keys(visits), BaseOf(v.absolute, v.key), v.doc);
    forall c | c in v.doc && IsReference(c)
      ensures Target(v.absolute, BaseOf(v.absolute, v.key), c.location.value) in Locations(visits)
    {
      ReachedNext(w, absolute, dir, root, v.absolute, v.key, c);
      IsVisited(w, absolute, dir, root, visits, Target(v.absolute, BaseOf(v.absolute, v.key), c.location.value));
    }
  }

  lemma LocationLeadsInto(w: World, absolute: bool, dir: seq<string>, root: Document, visits: seq<Visit>, l: Location)
    requires Finished(w, absolute, dir, root, visits) == true && l in Locations(visits) && HasFile(w, l.key)
    ensures LeadsInto(l.absolute, BaseOf(l.absolute, l.key), FileAt(w, l.key), Locations(visits)) == true
  {
    var v :| v in visits && Location(v.absolute, v.key) == l;
    VisitLeadsInto(w, absolute, dir, root, visits, v);
  }

  lemma VisitsEnclose(w: World, absolute: bool, dir: seq<string>, root: Document, visits: seq<Visit>)
    requires Finished(w, absolute, dir, root, visits) == true
    ensures Encloses(w, absolute, dir, root, Locations(visits)) == true
  {
    var s := Locations(visits);
    RootLeadsInto(w, absolute, dir, root, visits);
    if l :| l in s && HasFile(w, l.key) && !LeadsInto(l.absolute, BaseOf(l.absolute, l.key), FileAt(w, l.key), s) {
      LocationLeadsInto(w, absolute, dir, root, visits, l);
    }
  }

  lemma LocationReached(w: World, absolute: bool, dir: seq<string>, root: Document, visits: seq<Visit>, l: Location)
    requires AllReached(w, absolute, dir, root, visits) && l in Locations(visits)
    ensures Reached(w, absolute, dir, root, l.absolute, l.key) == true
  {
    var v :| v in visits && Location(v.absolute, v.key) == l;
  }

  /** What is visited is exactly what the references lead to. */
  lemma VisitedExactly(w: World, absolute: bool, dir: seq<string>, root: Document, visits: seq<Visit>, l: Location)
    requires AllReached(w, absolute, dir, root, visits) == true && Encloses(w, absolute, dir, root, Locations(visits)) == true
    ensures l in Locations(visits) <==> Reached(w, absolute, dir, root, l.absolute, l.key)
  {
    if l in Locations(visits) {
      LocationReached(w, absolute, dir, root, visits, l);
    } else if Reached(w, absolute, dir, root, l.absolute, l.key) {
      ReachedInside(w, absolute, dir, root, l.absolute, l.key, Locations(visits));
    }
  }

  /** No set that holds the root's references and is closed under references is smaller. */
  lemma VisitsAreLeast(w: World, absolute: bool, dir: seq<string>, root: Document, visits: seq<Visit>, s: set<Location>)
    requires Finished(w, absolute, dir, root, visits) == true && Encloses(w, absolute, dir, root, s) == true
    ensures Locations(visits) <= s
  {
    forall l | l in Locations(visits)
      ensures l in s
    {
      LocationReached(w, absolute, dir, root, visits, l);
      ReachedInside(w, absolute, dir, root, l.absolute, l.key, s);
    }
  }

  lemma DoneIsFinished(w: World, base: Path, root: Document, depth: nat)
    requires WorldOk(w) && NamesFiles(root) && BaseOk(base) && Separate(w, RootMode(w, base), RootDir(w, base), root)
    requires Resolution(w, base, root, depth).Done?
    ensures var r := Resolution(w, base, root, depth);
            && Finished(w, base.absolute, KeyOf(w.cwd, base), root, r.visits) == true
            && r.processed == Keys(r.visits) && Distinct(r.visits) && Genuine(w, r.visits)
  {
    ResolutionGood(w, base, root, depth);
    BaseDirOk(w, base);
    assert Resolution(w, base, root, depth).processed == {} + Keys(Resolution(w, base, root, depth).visits);
  }

  /** The visited locations are exactly those that the references lead to: the least set that holds the root's references and is
    closed under references.  Each was visited once, under a key of its own. */
  lemma ProcessedIsReachable(w: World, base: Path, root: Document, depth: nat)
    requires WorldOk(w) && NamesFiles(root) && BaseOk(base) && Separate(w, RootMode(w, base), RootDir(w, base), root)
    requires Resolution(w, base, root, depth).Done?
    ensures var r, a, dir := Resolution(w, base, root, depth), base.absolute, KeyOf(w.cwd, base);
            && Encloses(w, a, dir, root, Locations(r.visits))
            && (forall s :: Encloses(w, a, dir, root, s) ==> Locations(r.visits) <= s)
            && (forall l :: l in Locations(r.visits) <==> Reached(w, a, dir, root, l.absolute, l.key))
            && r.processed == Keys(r.visits) && |r.visits| == |r.processed| && AllExist(w, Locations(r.visits))
  {
    var r, a, dir := Resolution(w, base, root, depth), base.absolute, KeyOf(w.cwd, base);
    DoneIsFinished(w, base, root, depth);
    VisitsEnclose(w, a, dir, root, r.visits);
    VisitsExist(w, r.visits);
    forall l ensures l in Locations(r.visits) <==> Reached(w, a, dir, root, l.absolute, l.key) {
      VisitedExactly(w, a, dir, root, r.visits, l);
    }
    forall s | Encloses(w, a, dir, root, s)
      ensures Locations(r.visits) <= s
    {
      VisitsAreLeast(w, a, dir, root, r.visits, s);
    }
    CountKeys(r.visits);
  }

  ghost predicate AllExist(w: World, s: set<Location>) { forall l :: l in s ==> HasFile(w, l.key) }

  lemma VisitsExist(w: World, visits: seq<Visit>)
    requires Genuine(w, visits)
    ensures AllExist(w, Locations(visits))
  {
  }

  lemma {:induction false} CountKeys(visits: seq<Visit>)
    requires Distinct(visits)
    ensures |Keys(visits)| == |visits|
    decreases |visits|
  {
    if visits == [] {
      assert Keys(visits) == {};
    } else {
      var n := |visits| - 1;
      var init := visits[..n];
      CountKeys(init);
      assert visits == init + [visits[n]];
      KeysAppend(init, [visits[n]]);
      assert Keys([visits[n]]) == {visits[n].key} by { assert visits[n] in [visits[n]]; }
      assert visits[n].key !in Keys(init);
    }
  }

  /** By locations: it completes exactly when some finite set of locations of existing files is closed under references and
    holds the root's. */
  lemma LocationsExactly(w: World, base: Path, root: Document)
    requires WorldOk(w) && NamesFiles(root) && BaseOk(base) && Separate(w, RootMode(w, base), RootDir(w, base), root)
    ensures Completes(w, base, root) <==>
      exists s: set<Location> :: Encloses(w, base.absolute, KeyOf(w.cwd, base), root, s) && AllExist(w, s)
  {
    if Completes(w, base, root) {
      var depth: nat :| Resolution(w, base, root, depth).Done?;
      ProcessedIsReachable(w, base, root, depth);
    }
    if s: set<Location> :| Encloses(w, base.absolute, KeyOf(w.cwd, base), root, s) && AllExist(w, s) {
      ClosedCompletes(w, base, root, s);
    }
  }

  /** One half needs no separation. */
  lemma ClosedCompletes(w: World, base: Path, root: Document, s: set<Location>)
    requires WorldOk(w) && NamesFiles(root)
    requires Encloses(w, base.absolute, KeyOf(w.cwd, base), root, s) && AllExist(w, s)
    ensures Completes(w, base, root)
  {
    var a, dir := base.absolute, KeyOf(w.cwd, base);
    var u := set l | l in s :: l.key;
    forall last, k | Reached(w, a, dir, root, last, k)
      ensures k in u && HasFile(w, k)
    {
      ReachedInside(w, a, dir, root, last, k, s);
      assert Location(last, k) in s;
    }
    DeepEnough(w, base, root, |u|, u);
    ResolutionGood(w, base, root, |u|);
    var r := Resolution(w, base, root, |u|);
    NoneMissing(w, a, dir, root, r);
  }

  lemma NoneMissing(w: World, absolute: bool, dir: seq<string>, root: Document, r: Outcome)
    requires Good(w, absolute, dir, root, {}, [], r) == true
    requires forall last, k :: Reached(w, absolute, dir, root, last, k) ==> HasFile(w, k)
    ensures r.Done? || r == Failed(TooDeep)
  {
    assert r.Failed? && r.why.Missing? ==> MissingReached(w, absolute, dir, root, r.why.key);
    assert forall k :: !MissingReached(w, absolute, dir, root, k);
  }

  lemma DeepEnough(w: World, base: Path, root: Document, depth: nat, u: set<Key>)
    requires WorldOk(w) && NamesFiles(root) && Within(w, base.absolute, KeyOf(w.cwd, base), root, u) && |u| <= depth
    ensures Resolution(w, base, root, depth) != Failed(TooDeep)
  {
    WithinPart(w, base.absolute, KeyOf(w.cwd, base), References(root), root, u);
    assert u - {} == u;
    RunAllDeepEnough(w, base, References(root), {}, [], depth, u);
  }

  // ---------- What is taken over ----------

  /** How often a document holds a child that is to be taken over (all but comments and `include`s). */
  function Holds(doc: Document, c: Child): nat {
    if doc == [] then 0
    else (if doc[0] == c && !c.Comment? && !c.Include? then 1 else 0) + Holds(doc[1..], c)
  }

  function Copies(inserts: seq<Insert>, c: Child): nat {
    if inserts == [] then 0 else (if inserts[0] == Copy(c) then 1 else 0) + Copies(inserts[1..], c)
  }

  function HeldByAll(visits: seq<Visit>, c: Child): nat
    decreases |visits|
  {
    if visits == [] then 0 else HeldByAll(visits[..|visits| - 1], c) + Holds(visits[|visits| - 1].doc, c)
  }

  lemma {:induction false} CopiesAppend(a: seq<Insert>, b: seq<Insert>, c: Child)
    ensures Copies(a + b, c) == Copies(a, c) + Copies(b, c)
    decreases |a|
  {
    if a == [] {
      assert a + b == b;
    } else {
      CopiesAppend(a[1..], b, c);
      assert (a + b)[1..] == a[1..] + b;
    }
  }

  lemma {:induction false} CopiesOfOne(reference: Child, doc: Document, c: Child)
    ensures Copies(InsertsOf(reference, doc), c) == Holds(doc, c)
    decreases |doc|
  {
    if doc != [] {
      CopiesOfOne(reference, doc[1..], c);
      var head := if doc[0].Comment? || doc[0].Include? then [] else [Note(reference), Copy(doc[0])];
      CopiesAppend(head, InsertsOf(reference, doc[1..]), c);
      if head != [] {
        assert head[1..] == [Copy(doc[0])];
        assert Copies(head, c) == Copies([Copy(doc[0])], c);
      }
    }
  }

  /** Every such child of every visited document is taken over exactly once. */
  lemma {:induction false} TakenOverOnce(visits: seq<Visit>, c: Child)
    ensures Copies(AllInserts(visits), c) == HeldByAll(visits, c)
    decreases |visits|
  {
    if visits != [] {
      var n := |visits| - 1;
      TakenOverOnce(visits[..n], c);
      CopiesAppend(AllInserts(visits[..n]), InsertsOf(visits[n].reference, visits[n].doc), c);
      CopiesOfOne(visits[n].reference, visits[n].doc, c);
    }
  }

  /** The result of a completed resolution, for any root: documents are visited as the list of open references says, and what
    they add stands in the order of the visits and of the documents, each child behind a note of its reference. */
  lemma ResolutionInOrder(w: World, base: Path, root: Document, depth: nat)
    requires WorldOk(w) && NamesFiles(root) && Resolution(w, base, root, depth).Done?
    ensures var r := Resolution(w, base, root, depth);
            InOrder(r.inserts, r.visits) && Traversal(w, Opened(base, References(root)), {}, r.visits)
  {
    var r := Resolution(w, base, root, depth);
    ResolutionGood(w, base, root, depth);
    assert [] + AllInserts(r.visits) == AllInserts(r.visits);
    AllInOrder(r.visits);
    RunTraverses(w, base, References(root), {}, [], depth);
  }

  // ---------- Roots below an absolute base, and relative references below a relative one ----------

  lemma {:induction false} AbsoluteStays(mode: Mode, cs: seq<Child>)
    requires mode != Rel
    ensures ModeAfter(mode, cs) != Rel
    decreases |cs|
  {
    if cs != [] {
      AbsoluteStays(if IsReference(cs[0]) then NextMode(mode, cs[0].location.value) else mode, cs[1..]);
    }
  }

  lemma AbsoluteIsSeparate(w: World, mode: Mode, dir: seq<string>, root: Document)
    requires mode != Rel
    ensures Separate(w, mode, dir, root)
  {
    forall m, p | ReachedIn(w, mode, dir, root, m, p)
      ensures m != Rel
    {
      var cs :| FileWalk(w, dir, root, cs, p) && ModeAfter(mode, cs) == m;
      AbsoluteStays(mode, cs);
    }
  }

  ghost predicate NoAbsolute(doc: Document) { forall c :: c in doc && IsReference(c) ==> !c.location.value.absolute }

  ghost predicate AllRelative(w: World, root: Document) { NoAbsolute(root) && forall p :: p in w.files ==> NoAbsolute(w.files[p]) }

  lemma {:induction false} RelativeStays(w: World, dir: seq<string>, doc: Document, cs: seq<Child>, p: seq<string>)
    requires AllRelative(w, doc) && FileWalk(w, dir, doc, cs, p)
    ensures ModeAfter(Rel, cs) == Rel
    decreases |cs|
  {
    if |cs| > 1 {
      var next := FileOf(dir, cs[0].location.value);
      RelativeStays(w, DirOf(next), w.files[next], cs[1..], p);
    } else {
      assert cs[1..] == [];
    }
  }

  lemma RelativeIsSeparate(w: World, dir: seq<string>, root: Document)
    requires AllRelative(w, root)
    ensures Separate(w, Rel, dir, root) && forall m, p :: ReachedIn(w, Rel, dir, root, m, p) ==> m == Rel
  {
    forall m, p | ReachedIn(w, Rel, dir, root, m, p)
      ensures m == Rel
    {
      var cs :| FileWalk(w, dir, root, cs, p) && ModeAfter(Rel, cs) == m;
      RelativeStays(w, dir, root, cs, p);
    }
  }

  /** Relative locations are normalised: the key is the path of the file. */
  lemma RelativeKey(w: World, base: Path, root: Document, last: bool, k: Key)
    requires WorldOk(w) && NamesFiles(root) && !base.absolute && AllRelative(w, root)
    requires Reached(w, false, KeyOf(w.cwd, base), root, last, k)
    ensures Norm([], k) == k
  {
    BaseDirOk(w, base);
    RelativeIsSeparate(w, RootDir(w, base), root);
    ReachedFile(w, false, KeyOf(w.cwd, base), root, last, k);
    NormOfNormal([], k);
    assert [] + k == k;
  }

  /** So the files themselves bound the recursion. */
  lemma RelativeBounds(w: World, base: Path, root: Document)
    requires WorldOk(w) && NamesFiles(root) && !base.absolute && AllRelative(w, root)
    ensures Within(w, false, KeyOf(w.cwd, base), root, w.files.Keys)
  {
    forall last, k | Reached(w, false, KeyOf(w.cwd, base), root, last, k) && HasFile(w, k)
      ensures k in w.files.Keys
    {
      RelativeKey(w, base, root, last, k);
    }
  }

  /** It completes exactly when every file that the references lead to exists, whatever cycles there are; a stack as deep as
    there are files is enough. */
  lemma RelativeCompletesExactly(w: World, base: Path, root: Document)
    requires WorldOk(w) && NamesFiles(root) && !base.absolute && AllRelative(w, root)
    ensures Completes(w, base, root) <==> AllPresent(w, RootDir(w, base), root)
    ensures Resolution(w, base, root, |w.files|) != Failed(TooDeep)
  {
    RelativeBounds(w, base, root);
    assert |w.files| == |w.files.Keys|;
    DeepEnough(w, base, root, |w.files|, w.files.Keys);
    FilesExactly(w, base, root, |w.files|);
    if Completes(w, base, root) {
      CompletesMeansPresent(w, base, root);
    }
  }

  /** The whole resolution for a root given by a relative path. */
  method ResolveRelative(w: World, root: Document, base: Path) returns (inserts: seq<Insert>, visits: seq<Visit>, failure: Option<Failure>)
    requires WorldOk(w) && NamesFiles(root) && !base.absolute && AllRelative(w, root)
    ensures failure.None? <==> AllPresent(w, RootDir(w, base), root)
    ensures failure.None? ==>
      && Distinct(visits) && (forall p :: p in VisitedFiles(visits) <==> CanReach(w, RootDir(w, base), root, p))
      && (forall v :: v in visits ==> v.key in w.files && v.doc == w.files[v.key])
      && Traversal(w, Opened(base, References(root)), {}, visits)
      && InOrder(inserts, visits) && (forall c :: Copies(inserts, c) == HeldByAll(visits, c))
    ensures failure.Some? ==>
      failure.value.Missing? && failure.value.key !in w.files && CanReach(w, RootDir(w, base), root, failure.value.key)
  {
    var params := new Params(base);
    var resolver := new Resolver(w);
    inserts, visits, failure := resolver.CollectInserts(root, params, [], |w.files|);
    RelativeCompletesExactly(w, base, root);
    FilesExactly(w, base, root, |w.files|);
    if failure.None? {
      RelativeDone(w, base, root, params.processed, inserts, visits);
      ResolutionInOrder(w, base, root, |w.files|);
      assert Completes(w, base, root);
    } else {
      RelativeMissing(w, base, root, failure.value.key);
    }
  }

  /** Different relative keys are different files: a key is the path of its file. */
  lemma RelativeDone(w: World, base: Path, root: Document, processed: set<Key>, inserts: seq<Insert>, visits: seq<Visit>)
    requires WorldOk(w) && NamesFiles(root) && !base.absolute && AllRelative(w, root)
    requires exists depth :: Resolution(w, base, root, depth) == Done(processed, inserts, visits)
    ensures Distinct(visits) && forall v :: v in visits ==> v.key in w.files && v.doc == w.files[v.key]
    ensures inserts == AllInserts(visits) && forall c :: Copies(inserts, c) == HeldByAll(visits, c)
  {
    var depth :| Resolution(w, base, root, depth) == Done(processed, inserts, visits);
    ResolutionGood(w, base, root, depth);
    forall v | v in visits
      ensures Norm([], v.key) == v.key
    {
      RelativeKey(w, base, root, v.absolute, v.key);
    }
    assert [] + AllInserts(visits) == AllInserts(visits);
    forall c ensures Copies(inserts, c) == HeldByAll(visits, c) {
      TakenOverOnce(visits, c);
    }
  }

  lemma RelativeMissing(w: World, base: Path, root: Document, k: Key)
    requires WorldOk(w) && NamesFiles(root) && !base.absolute && AllRelative(w, root)
    requires exists depth :: Resolution(w, base, root, depth) == Failed(Missing(k))
    ensures Norm([], k) == k
  {
    var depth :| Resolution(w, base, root, depth) == Failed(Missing(k));
    ResolutionGood(w, base, root, depth);
    var last :| Reached(w, false, KeyOf(w.cwd, base), root, last, k);
    RelativeKey(w, base, root, last, k);
  }
}
