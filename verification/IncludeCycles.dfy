/** When include resolution cannot complete.  Absolute locations are not normalised, so some cycles of relative references give
  the same files ever longer names: those that go through "." or "..", and all of them in a directory whose name is all slashes,
  because `os.path.split` keeps such a name and joining adds a slash to it. */
module IncludeCycles {
  import opened Helpers
  import opened IncludePaths
  import opened IncludeResolver
  import opened IncludeRuns
  import opened IncludeResults

  // ---------- Cycles of relative references ----------

  /** The relative references `cs` lead from file `p` to file `q`. */
  ghost predicate RelWalk(w: World, p: seq<string>, cs: seq<Child>, q: seq<string>)
    decreases |cs|
  {
    if cs == [] then p == q
    else
      && p in w.files && cs[0] in w.files[p] && IsReference(cs[0]) && !cs[0].location.value.absolute
      && RelWalk(w, FileOf(DirOf(p), cs[0].location.value), cs[1..], q)
  }

  /** A segment is empty, "." or "..". */
  predicate Dotted(c: Child) { IsReference(c) && !Normal(c.location.value.segs) }

  /** A cycle of relative references through `p` that lengthens the names when `p` is met in mode `m`: in mode `Flat` any cycle,
    below another absolute base one that holds a dotted reference. */
  ghost predicate Harmful(w: World, m: Mode, p: seq<string>, cs: seq<Child>) {
    cs != [] && RelWalk(w, p, cs, p) && (m == Flat || (m == Abs && exists c :: c in cs && Dotted(c)))
  }

  /** The references of the root lead to such a cycle. */
  ghost predicate ReachesHarm(w: World, mode: Mode, dir: seq<string>, root: Document) {
    exists m, p, cs :: ReachedIn(w, mode, dir, root, m, p) && Harmful(w, m, p, cs)
  }

  /** How many segments a walk adds to a location that is not normalised. */
  function Growth(cs: seq<Child>): int {
    if cs == [] then 0
    else (if IsReference(cs[0]) then |cs[0].location.value.segs| - 1 else 0) + Growth(cs[1..])
  }

  lemma {:induction false} GrowthPositive(cs: seq<Child>)
    requires forall c :: c in cs ==> IsReference(c) && NamesFile(c.location.value)
    ensures Growth(cs) >= 0
    ensures (exists c :: c in cs && IsReference(c) && |c.location.value.segs| > 1) ==> Growth(cs) > 0
  {
    if cs != [] {
      assert cs[0] in cs && forall c :: c in cs[1..] ==> c in cs;
      GrowthPositive(cs[1..]);
      assert forall c :: c in cs ==> c == cs[0] || c in cs[1..];
    }
  }

  lemma {:induction false} RelWalkSane(w: World, p: seq<string>, cs: seq<Child>, q: seq<string>)
    requires WorldOk(w) && RelWalk(w, p, cs, q)
    ensures forall c :: c in cs ==> IsReference(c) && NamesFile(c.location.value)
    decreases |cs|
  {
    if cs != [] {
      RelWalkSane(w, FileOf(DirOf(p), cs[0].location.value), cs[1..], q);
      assert forall c :: c in cs ==> c == cs[0] || c in cs[1..];
    }
  }

  /** Without dotted segments a walk goes down by what it adds. */
  lemma {:induction false} PlainWalkGoesDown(w: World, p: seq<string>, cs: seq<Child>, q: seq<string>)
    requires WorldOk(w) && RelWalk(w, p, cs, q) && p != [] && forall c :: c in cs ==> !Dotted(c)
    ensures |q| == |p| + Growth(cs) && q != []
    decreases |cs|
  {
    if cs != [] {
      var next := FileOf(DirOf(p), cs[0].location.value);
      assert !Dotted(cs[0]) && forall c :: c in cs[1..] ==> c in cs;
      NormOfNormal(DirOf(p), cs[0].location.value.segs);
      PlainWalkGoesDown(w, next, cs[1..], q);
    }
  }

  lemma SingleIsPlain(url: Path)
    requires NamesFile(url)
    ensures |url.segs| == 1 ==> Normal(url.segs)
  {
  }

  /** On a cycle, something that adds segments means a dotted segment, and the other way round. */
  lemma GrowingCycleIsDotted(w: World, p: seq<string>, cs: seq<Child>)
    requires WorldOk(w) && RelWalk(w, p, cs, p) && p != []
    ensures Growth(cs) > 0 <==> exists c :: c in cs && Dotted(c)
  {
    RelWalkSane(w, p, cs, p);
    GrowthPositive(cs);
    if forall c :: c in cs ==> !Dotted(c) {
      PlainWalkGoesDown(w, p, cs, p);
    } else {
      var c :| c in cs && Dotted(c);
      SingleIsPlain(c.location.value);
    }
  }

  // ---------- A harmful cycle has no end ----------

  /** How the base below an absolute location moves with one relative reference. */
  lemma BaseMoves(k: Key, url: Path)
    requires k != [] && Plain(k[|k| - 1]) && NamesFile(url) && !url.absolute
    ensures var next := NextKey(true, BaseOf(true, k), url);
            var h, h' := BaseOf(true, k), BaseOf(true, next);
            && Norm([], next) == FileOf(DirOf(Norm([], k)), url)
            && |h| + (if |url.segs| > 1 || AllEmpty(h) then 1 else 0) <= |h'|
            && (AllEmpty(h') <==> AllEmpty(h) && |url.segs| == 1)
  {
    HeadIsDir([], true, k);
    VisitDir(true, k);
    KeyMeansFile(true, BaseOf(true, k), url);
    HeadGrows(BaseOf(true, k), url);
  }

  lemma GrowOnce(w: World, absolute: bool, dir: seq<string>, root: Document, k: Key, c: Child) returns (longer: Key)
    requires WorldOk(w) && NamesFiles(root) && DirOk(absolute, dir) && Reached(w, absolute, dir, root, true, k)
    requires HasFile(w, k) && c in FileAt(w, k) && IsReference(c) && !c.location.value.absolute
    ensures Reached(w, absolute, dir, root, true, longer) == true && Norm([], longer) == FileOf(DirOf(Norm([], k)), c.location.value)
    ensures var h, h', n := BaseOf(true, k), BaseOf(true, longer), |c.location.value.segs|;
            |h| + (if n > 1 || AllEmpty(h) then 1 else 0) <= |h'| && (AllEmpty(h') <==> AllEmpty(h) && n == 1)
  {
    longer := NextKey(true, BaseOf(true, k), c.location.value);
    ReachedNext(w, absolute, dir, root, true, k, c);
    ReachedFile(w, absolute, dir, root, true, k);
    assert NamesFiles(FileAt(w, k));
    BaseMoves(k, c.location.value);
  }

  /** Along relative references the base below an absolute location never gets shorter. */
  lemma {:induction false} BaseGrows(w: World, absolute: bool, dir: seq<string>, root: Document, k: Key, cs: seq<Child>, q: seq<string>)
    returns (longer: Key)
    requires WorldOk(w) && NamesFiles(root) && DirOk(absolute, dir)
    requires Reached(w, absolute, dir, root, true, k) == true && RelWalk(w, Norm([], k), cs, q)
    ensures Reached(w, absolute, dir, root, true, longer) == true && Norm([], longer) == q && |BaseOf(true, k)| <= |BaseOf(true, longer)|
    ensures Growth(cs) > 0 || (AllEmpty(BaseOf(true, k)) && cs != []) ==> |BaseOf(true, k)| < |BaseOf(true, longer)|
    ensures Growth(cs) <= 0 && AllEmpty(BaseOf(true, k)) ==> AllEmpty(BaseOf(true, longer))
    decreases |cs|
  {
    if cs == [] {
      longer := k;
    } else {
      RelWalkSane(w, Norm([], k), cs, q);
      assert cs[0] in cs && forall c :: c in cs[1..] ==> c in cs;
      GrowthPositive(cs[1..]);
      var next := GrowOnce(w, absolute, dir, root, k, cs[0]);
      longer := BaseGrows(w, absolute, dir, root, next, cs[1..], q);
    }
  }

  /** The location at which a file is met in a mode other than `Rel`. */
  lemma LocationIn(w: World, absolute: bool, dir: seq<string>, root: Document, m: Mode, p: seq<string>) returns (k: Key)
    requires WorldOk(w) && NamesFiles(root) && DirOk(absolute, dir) && m != Rel
    requires ReachedIn(w, ModeOf(absolute, dir), Norm([], dir), root, m, p)
    ensures Reached(w, absolute, dir, root, true, k) == true && Norm([], k) == p && (m == Flat ==> AllEmpty(BaseOf(true, k)))
  {
    var walk :| FileWalk(w, Norm([], dir), root, walk, p) && ModeAfter(ModeOf(absolute, dir), walk) == m;
    var last;
    last, k := WalkOnKeys(w, absolute, dir, root, walk, p);
    WalkOnFiles(w, absolute, dir, root, walk, last, k);
  }

  /** Round the cycle again and again. */
  lemma {:induction false} EverLonger(w: World, absolute: bool, dir: seq<string>, root: Document, m: Mode, p: seq<string>, cs: seq<Child>, n: nat)
    returns (k: Key)
    requires WorldOk(w) && NamesFiles(root) && DirOk(absolute, dir) && Harmful(w, m, p, cs) && p != []
    requires ReachedIn(w, ModeOf(absolute, dir), Norm([], dir), root, m, p) == true
    ensures Reached(w, absolute, dir, root, true, k) == true && Norm([], k) == p && |BaseOf(true, k)| >= n
    ensures Growth(cs) > 0 || AllEmpty(BaseOf(true, k))
    decreases n
  {
    if n == 0 {
      k := LocationIn(w, absolute, dir, root, m, p);
      GrowingCycleIsDotted(w, p, cs);
    } else {
      var shorter := EverLonger(w, absolute, dir, root, m, p, cs, n - 1);
      k := BaseGrows(w, absolute, dir, root, shorter, cs, p);
    }
  }

  lemma {:induction false} LengthBound(s: set<Key>) returns (n: nat)
    ensures forall k :: k in s ==> |k| < n
    decreases s
  {
    n := 0;
    if s != {} {
      var x :| x in s;
      var m := LengthBound(s - {x});
      n := if m <= |x| then |x| + 1 else m;
    }
  }

  lemma {:induction false} FileWalkEnd(w: World, dir: seq<string>, doc: Document, cs: seq<Child>, p: seq<string>)
    requires WorldOk(w) && NamesFiles(doc) && FileWalk(w, dir, doc, cs, p)
    ensures p != []
    decreases |cs|
  {
    var url := cs[0].location.value;
    if |cs| == 1 {
      NormOfFile(if url.absolute then [] else dir, url.segs);
    } else {
      FileWalkEnd(w, DirOf(FileOf(dir, url)), w.files[FileOf(dir, url)], cs[1..], p);
    }
  }

  lemma ReachedNotRoot(w: World, dir: seq<string>, root: Document, p: seq<string>)
    requires WorldOk(w) && NamesFiles(root) && CanReach(w, dir, root, p)
    ensures p != []
  {
    var cs :| FileWalk(w, dir, root, cs, p);
    FileWalkEnd(w, dir, root, cs, p);
  }

  /** No finite set holds all locations. */
  lemma NoBound(w: World, absolute: bool, dir: seq<string>, root: Document, s: set<Key>) returns (k: Key)
    requires WorldOk(w) && NamesFiles(root) && DirOk(absolute, dir) && ReachesHarm(w, ModeOf(absolute, dir), Norm([], dir), root)
    ensures Reached(w, absolute, dir, root, true, k) == true && k !in s
  {
    var m, p, cs :| ReachedIn(w, ModeOf(absolute, dir), Norm([], dir), root, m, p) && Harmful(w, m, p, cs);
    ReachedNotRoot(w, Norm([], dir), root, p);
    var n := LengthBound(s);
    k := EverLonger(w, absolute, dir, root, m, p, cs, n);
    ReachedFile(w, absolute, dir, root, true, k);
    HeadIsDir([], true, k);
  }

  lemma HarmfulNeverDone(w: World, base: Path, root: Document, depth: nat)
    requires WorldOk(w) && NamesFiles(root) && BaseOk(base) && Separate(w, RootMode(w, base), RootDir(w, base), root)
    requires ReachesHarm(w, RootMode(w, base), RootDir(w, base), root)
    ensures !Resolution(w, base, root, depth).Done?
  {
    if Resolution(w, base, root, depth).Done? {
      BaseDirOk(w, base);
      var k := NoBound(w, base.absolute, KeyOf(w.cwd, base), root, Resolution(w, base, root, depth).processed);
      VisitedKey(w, base, root, depth, k);
    }
  }

  lemma VisitedKey(w: World, base: Path, root: Document, depth: nat, k: Key)
    requires WorldOk(w) && NamesFiles(root) && BaseOk(base) && Separate(w, RootMode(w, base), RootDir(w, base), root)
    requires Resolution(w, base, root, depth).Done? && Reached(w, base.absolute, KeyOf(w.cwd, base), root, true, k)
    ensures k in Resolution(w, base, root, depth).processed
  {
    ProcessedIsReachable(w, base, root, depth);
    assert Reached(w, base.absolute, KeyOf(w.cwd, base), root, Location(true, k).absolute, Location(true, k).key);
  }

  /** Where no file is met both by a relative and by an absolute location, a harmful cycle rules out completion. */
  lemma HarmfulNeverCompletes(w: World, base: Path, root: Document)
    requires WorldOk(w) && NamesFiles(root) && BaseOk(base) && Separate(w, RootMode(w, base), RootDir(w, base), root)
    requires ReachesHarm(w, RootMode(w, base), RootDir(w, base), root)
    ensures !Completes(w, base, root)
  {
    forall depth: nat
      ensures !Resolution(w, base, root, depth).Done?
    {
      HarmfulNeverDone(w, base, root, depth);
    }
  }
}
