/** Without harmful cycles the locations are bounded, so that include resolution completes; and exactly when it completes. */
module IncludeBounds {
  import opened Helpers
  import opened IncludePaths
  import opened IncludeResolver
  import opened IncludeRuns
  import opened IncludeResults
  import opened IncludeCycles

  // ---------- Steps that lengthen the base ----------

  /** The files that a walk passes before its first absolute reference. */
  ghost function Sources(w: World, p: seq<string>, cs: seq<Child>): set<seq<string>>
    decreases |cs|
  {
    if cs == [] || !IsReference(cs[0]) then {}
    else if cs[0].location.value.absolute then {p}
    else {p} + Sources(w, FileOf(DirOf(p), cs[0].location.value), cs[1..])
  }

  /** A walk that passes `q` has a relative part that leads to `q`. */
  lemma {:induction false} BackTo(w: World, p: seq<string>, doc: Document, cs: seq<Child>, end: seq<string>, q: seq<string>) returns (ds: seq<Child>)
    requires p in w.files && doc == w.files[p] && FileWalk(w, DirOf(p), doc, cs, end) && q in Sources(w, p, cs)
    ensures RelWalk(w, p, ds, q)
    decreases |cs|
  {
    if p == q {
      ds := [];
    } else {
      var next := FileOf(DirOf(p), cs[0].location.value);
      assert |cs| > 1;
      var rest := BackTo(w, next, w.files[next], cs[1..], end, q);
      ds := [cs[0]] + rest;
      assert ds[1..] == rest;
    }
  }

  /** No reference has more than `m` segments. */
  ghost predicate Short(w: World, m: nat) {
    forall p, c :: p in w.files && c in w.files[p] && IsReference(c) ==> |c.location.value.segs| <= m
  }

  lemma {:induction false} FileWalkExtend(w: World, dir: seq<string>, doc: Document, cs: seq<Child>, p: seq<string>, c: Child)
    requires FileWalk(w, dir, doc, cs, p) && p in w.files && c in w.files[p] && IsReference(c)
    ensures FileWalk(w, dir, doc, cs + [c], FileOf(DirOf(p), c.location.value))
    decreases |cs|
  {
    assert (cs + [c])[1..] == cs[1..] + [c];
    if |cs| == 1 {
      assert (cs + [c])[1..] == [c];
    } else {
      var next := FileOf(dir, cs[0].location.value);
      FileWalkExtend(w, DirOf(next), w.files[next], cs[1..], p, c);
    }
  }

  lemma {:induction false} ModeAfterMore(mode: Mode, cs: seq<Child>, c: Child)
    requires IsReference(c)
    ensures ModeAfter(mode, cs + [c]) == NextMode(ModeAfter(mode, cs), c.location.value)
    decreases |cs|
  {
    if cs == [] {
      assert [] + [c] == [c] && [c][1..] == [];
    } else {
      assert (cs + [c])[1..] == cs[1..] + [c];
      ModeAfterMore(if IsReference(cs[0]) then NextMode(mode, cs[0].location.value) else mode, cs[1..], c);
    }
  }

  lemma ReachedInMore(w: World, mode: Mode, dir: seq<string>, root: Document, m: Mode, p: seq<string>, c: Child)
    requires ReachedIn(w, mode, dir, root, m, p) && p in w.files && c in w.files[p] && IsReference(c)
    ensures ReachedIn(w, mode, dir, root, NextMode(m, c.location.value), FileOf(DirOf(p), c.location.value))
  {
    var cs :| FileWalk(w, dir, root, cs, p) && ModeAfter(mode, cs) == m;
    FileWalkExtend(w, dir, root, cs, p, c);
    ModeAfterMore(mode, cs, c);
  }

  /** A reference found at an absolute location makes the base longer. */
  predicate Lengthens(m: Mode, c: Child)
    requires IsReference(c)
  {
    m == Flat || |c.location.value.segs| > 1
  }

  /** Such a reference is not passed twice between two absolute ones. */
  lemma NotTwice(w: World, mode: Mode, dir: seq<string>, root: Document, m: Mode, p: seq<string>, cs: seq<Child>, end: seq<string>)
    requires WorldOk(w) && NamesFiles(root) && ReachedIn(w, mode, dir, root, m, p) && p in w.files && !ReachesHarm(w, mode, dir, root)
    requires |cs| > 1 && FileWalk(w, DirOf(p), w.files[p], cs, end) && !cs[0].location.value.absolute && m != Rel && Lengthens(m, cs[0])
    ensures p !in Sources(w, FileOf(DirOf(p), cs[0].location.value), cs[1..])
  {
    var next := FileOf(DirOf(p), cs[0].location.value);
    if p in Sources(w, next, cs[1..]) {
      var ds := BackTo(w, next, w.files[next], cs[1..], end, p);
      LengtheningCycle(w, mode, dir, root, m, p, cs[0], ds);
    }
  }

  lemma LengtheningCycle(w: World, mode: Mode, dir: seq<string>, root: Document, m: Mode, p: seq<string>, c: Child, ds: seq<Child>)
    requires WorldOk(w) && NamesFiles(root) && ReachedIn(w, mode, dir, root, m, p) && m != Rel
    requires p in w.files && c in w.files[p] && IsReference(c) && !c.location.value.absolute && Lengthens(m, c)
    requires RelWalk(w, FileOf(DirOf(p), c.location.value), ds, p)
    ensures ReachesHarm(w, mode, dir, root)
  {
    var cycle := [c] + ds;
    assert cycle[1..] == ds && cycle[0] == c && c in cycle;
    RelWalkSane(w, p, cycle, p);
    GrowthPositive(cycle);
    ReachedNotRoot(w, dir, root, p);
    GrowingCycleIsDotted(w, p, cycle);
    assert Harmful(w, m, p, cycle);
  }

  // ---------- One step of a walk ----------

  /** A location of a file that the references lead to, in the right mode. */
  ghost predicate Stands(w: World, mode: Mode, dir: seq<string>, root: Document, l: Location) {
    && HasFile(w, l.key) && Sound(l.absolute, l.key)
    && ReachedIn(w, mode, dir, root, ModeOf(l.absolute, BaseOf(l.absolute, l.key)), Norm([], l.key))
  }

  /** The location of a reference in the document at `l`. */
  function Step(l: Location, c: Child): Location
    requires IsReference(c)
  {
    Target(l.absolute, BaseOf(l.absolute, l.key), c.location.value)
  }

  ghost predicate WalkFrom(w: World, l: Location, cs: seq<Child>, end: Location) {
    HasFile(w, l.key) && KeyWalk(w, l.absolute, BaseOf(l.absolute, l.key), FileAt(w, l.key), cs, end.absolute, end.key)
  }

  lemma StepStands(w: World, mode: Mode, dir: seq<string>, root: Document, l: Location, c: Child)
    requires WorldOk(w) && Stands(w, mode, dir, root, l) && c in FileAt(w, l.key) && IsReference(c)
    ensures var to := Step(l, c);
            && Norm([], to.key) == FileOf(DirOf(Norm([], l.key)), c.location.value) && Sound(to.absolute, to.key)
            && (HasFile(w, to.key) ==> Stands(w, mode, dir, root, to))
  {
    assert NamesFiles(FileAt(w, l.key));
    VisitDir(l.absolute, l.key);
    KeyMeansFile(l.absolute, BaseOf(l.absolute, l.key), c.location.value);
    ModeStep(l.absolute, BaseOf(l.absolute, l.key), c.location.value);
    ReachedInMore(w, mode, dir, root, ModeOf(l.absolute, BaseOf(l.absolute, l.key)), Norm([], l.key), c);
  }

  lemma FirstStep(w: World, mode: Mode, dir: seq<string>, root: Document, l: Location, cs: seq<Child>, end: Location)
    requires WorldOk(w) && Stands(w, mode, dir, root, l) && WalkFrom(w, l, cs, end)
    ensures cs[0] in FileAt(w, l.key) && IsReference(cs[0])
    ensures FileWalk(w, DirOf(Norm([], l.key)), FileAt(w, l.key), cs, Norm([], end.key))
    ensures if |cs| == 1 then end == Step(l, cs[0])
            else Stands(w, mode, dir, root, Step(l, cs[0])) == true && WalkFrom(w, Step(l, cs[0]), cs[1..], end) == true
  {
    VisitDir(l.absolute, l.key);
    StepStands(w, mode, dir, root, l, cs[0]);
    WalkOnFiles(w, l.absolute, BaseOf(l.absolute, l.key), FileAt(w, l.key), cs, end.absolute, end.key);
  }

  /** What one step does to the length of an absolute location and of the base below it. */
  lemma StepLength(k: Key, c: Child, m: nat)
    requires k != [] && Plain(k[|k| - 1]) && IsReference(c) && NamesFile(c.location.value) && |c.location.value.segs| <= m
    ensures var url, h, to := c.location.value, BaseOf(true, k), Step(Location(true, k), c);
            && |BaseOf(true, to.key)| <= |to.key|
            && (url.absolute ==> |to.key| <= m)
            && (!url.absolute ==> |to.key| <= |h| + m)
            && (!url.absolute ==> |BaseOf(true, to.key)| <= |h| + (if Lengthens(ModeOf(true, h), c) then m else 0))
  {
    HeadIsDir([], true, k);
    var to := Step(Location(true, k), c);
    HeadIsDir([], true, to.key);
    if !c.location.value.absolute {
      HeadGrows(BaseOf(true, k), c.location.value);
    }
  }

  // ---------- Without a harmful cycle the locations are bounded ----------

  lemma StepSources(w: World, p: seq<string>, cs: seq<Child>, s: set<seq<string>>)
    requires cs != [] && IsReference(cs[0]) && Sources(w, p, cs) <= s
    ensures p in s
    ensures !cs[0].location.value.absolute ==> Sources(w, FileOf(DirOf(p), cs[0].location.value), cs[1..]) <= s
  {
  }

  /** `n` times `m`. */
  function Room(n: nat, m: nat): nat { if n == 0 then 0 else m + Room(n - 1, m) }

  lemma OneLess(s: set<seq<string>>, p: seq<string>, m: nat)
    requires p in s
    ensures Room(|s|, m) == m + Room(|s - {p}|, m)
  {
    assert |s - {p}| == |s| - 1;
  }

  lemma {:induction false} PassedFiles(w: World, p: seq<string>, cs: seq<Child>, end: seq<string>)
    requires p in w.files && FileWalk(w, DirOf(p), w.files[p], cs, end)
    ensures Sources(w, p, cs) <= w.files.Keys
    decreases |cs|
  {
    if |cs| > 1 {
      PassedFiles(w, FileOf(DirOf(p), cs[0].location.value), cs[1..], end);
    } else {
      assert cs[1..] == [];
    }
  }

  lemma SourcesAreFiles(w: World, mode: Mode, dir: seq<string>, root: Document, l: Location, cs: seq<Child>, end: Location)
    requires WorldOk(w) && Stands(w, mode, dir, root, l) && WalkFrom(w, l, cs, end)
    ensures Sources(w, Norm([], l.key), cs) <= w.files.Keys
  {
    FirstStep(w, mode, dir, root, l, cs, end);
    PassedFiles(w, Norm([], l.key), cs, Norm([], end.key));
  }

  /** No reference has more than `m` segments, and there is no harmful cycle. */
  ghost predicate Setting(w: World, mode: Mode, dir: seq<string>, root: Document, m: nat) {
    WorldOk(w) && NamesFiles(root) && Short(w, m) && !ReachesHarm(w, mode, dir, root)
  }

  /** The walk `cs` leads from an absolute location to `end`, with only the files of `s` to pass before the next absolute
    reference. */
  ghost predicate OnItsWay(w: World, mode: Mode, dir: seq<string>, root: Document, l: Location, cs: seq<Child>, end: Location,
                           s: set<seq<string>>)
  {
    l.absolute && Stands(w, mode, dir, root, l) && WalkFrom(w, l, cs, end) && Sources(w, Norm([], l.key), cs) <= s <= w.files.Keys
  }

  /** After the first step: which files may still be passed. */
  ghost function StillToPass(w: World, l: Location, c: Child, s: set<seq<string>>): set<seq<string>>
    requires IsReference(c)
  {
    if c.location.value.absolute then w.files.Keys
    else if Lengthens(ModeOf(true, BaseOf(true, l.key)), c) then s - {Norm([], l.key)}
    else s
  }

  lemma NotPassedAgain(w: World, mode: Mode, dir: seq<string>, root: Document, l: Location, cs: seq<Child>, end: Location)
    requires WorldOk(w) && NamesFiles(root) && !ReachesHarm(w, mode, dir, root) && |cs| > 1
    requires l.absolute && Stands(w, mode, dir, root, l) && WalkFrom(w, l, cs, end)
    requires IsReference(cs[0]) && !cs[0].location.value.absolute && Lengthens(ModeOf(true, BaseOf(true, l.key)), cs[0])
    ensures Norm([], l.key) !in Sources(w, FileOf(DirOf(Norm([], l.key)), cs[0].location.value), cs[1..])
  {
    FirstStep(w, mode, dir, root, l, cs, end);
    NotTwice(w, mode, dir, root, ModeOf(true, BaseOf(true, l.key)), Norm([], l.key), cs, Norm([], end.key));
  }

  lemma StillPasses(w: World, mode: Mode, dir: seq<string>, root: Document, l: Location, cs: seq<Child>, end: Location, s: set<seq<string>>)
    requires WorldOk(w) && NamesFiles(root) && !ReachesHarm(w, mode, dir, root) == true && |cs| > 1
    requires OnItsWay(w, mode, dir, root, l, cs, end, s) && IsReference(cs[0])
    requires Stands(w, mode, dir, root, Step(l, cs[0])) && WalkFrom(w, Step(l, cs[0]), cs[1..], end)
    requires Norm([], Step(l, cs[0]).key) == FileOf(DirOf(Norm([], l.key)), cs[0].location.value)
    ensures Sources(w, Norm([], Step(l, cs[0]).key), cs[1..]) <= StillToPass(w, l, cs[0], s)
  {
    StepSources(w, Norm([], l.key), cs, s);
    if cs[0].location.value.absolute {
      SourcesAreFiles(w, mode, dir, root, Step(l, cs[0]), cs[1..], end);
    } else if Lengthens(ModeOf(true, BaseOf(true, l.key)), cs[0]) {
      NotPassedAgain(w, mode, dir, root, l, cs, end);
    }
  }

  lemma OneStepOn(w: World, mode: Mode, dir: seq<string>, root: Document, l: Location, cs: seq<Child>, end: Location, m: nat, s: set<seq<string>>)
    requires Setting(w, mode, dir, root, m) && OnItsWay(w, mode, dir, root, l, cs, end, s) && |cs| > 1
    ensures IsReference(cs[0])
    ensures OnItsWay(w, mode, dir, root, Step(l, cs[0]), cs[1..], end, StillToPass(w, l, cs[0], s)) == true
  {
    FirstStep(w, mode, dir, root, l, cs, end);
    StepStands(w, mode, dir, root, l, cs[0]);
    StillPasses(w, mode, dir, root, l, cs, end, s);
  }

  /** What one step adds. */
  lemma OneStepAdds(w: World, mode: Mode, dir: seq<string>, root: Document, l: Location, cs: seq<Child>, end: Location, m: nat, s: set<seq<string>>)
    requires Setting(w, mode, dir, root, m) && OnItsWay(w, mode, dir, root, l, cs, end, s)
    ensures IsReference(cs[0])
    ensures var h, to := BaseOf(true, l.key), Step(l, cs[0]);
            var h' := BaseOf(true, to.key);
            && (|h'| <= m || |h'| + Room(|StillToPass(w, l, cs[0], s)|, m) <= |h| + Room(|s|, m))
            && |to.key| <= |h| + m && (|cs| == 1 ==> to == end)
  {
    FirstStep(w, mode, dir, root, l, cs, end);
    StepSources(w, Norm([], l.key), cs, s);
    OneLess(s, Norm([], l.key), m);
    assert NamesFiles(FileAt(w, l.key)) && |cs[0].location.value.segs| <= m;
    StepLength(l.key, cs[0], m);
  }

  lemma OneStep(w: World, mode: Mode, dir: seq<string>, root: Document, l: Location, cs: seq<Child>, end: Location, m: nat, s: set<seq<string>>)
    returns (next: Location, rest: seq<Child>, left: set<seq<string>>)
    requires Setting(w, mode, dir, root, m) && OnItsWay(w, mode, dir, root, l, cs, end, s)
    ensures var h, h' := BaseOf(true, l.key), BaseOf(true, next.key);
            (|h'| <= m || |h'| + Room(|left|, m) <= |h| + Room(|s|, m)) && |next.key| <= |h| + m
    ensures if |cs| == 1 then end == next else |rest| < |cs| && OnItsWay(w, mode, dir, root, next, rest, end, left) == true
    ensures |left| <= |w.files.Keys|
  {
    OneStepAdds(w, mode, dir, root, l, cs, end, m, s);
    next, rest, left := Step(l, cs[0]), cs[1..], StillToPass(w, l, cs[0], s);
    if |cs| > 1 {
      OneStepOn(w, mode, dir, root, l, cs, end, m, s);
    }
    SubsetSize(left, w.files.Keys);
  }

  lemma {:induction false} RoomGrows(a: nat, b: nat, m: nat)
    requires a <= b
    ensures Room(a, m) <= Room(b, m)
    decreases b
  {
    if a < b {
      RoomGrows(a, b - 1, m);
    }
  }

  /** The length of the location at the end of a walk. */
  lemma {:induction false} LocationBounded(w: World, mode: Mode, dir: seq<string>, root: Document, l: Location, cs: seq<Child>, end: Location,
                                           m: nat, s: set<seq<string>>)
    requires Setting(w, mode, dir, root, m) == true && OnItsWay(w, mode, dir, root, l, cs, end, s) == true
    ensures |end.key| <= |BaseOf(true, l.key)| + Room(|s|, m) + m || |end.key| <= m + Room(|w.files.Keys|, m) + m
    decreases |cs|
  {
    var next, rest, left := OneStep(w, mode, dir, root, l, cs, end, m, s);
    RoomGrows(|left|, |w.files.Keys|, m);
    if |cs| > 1 {
      LocationBounded(w, mode, dir, root, next, rest, end, m, left);
    }
  }

  /** The same from a relative location, until an absolute reference comes. */
  ghost predicate OnItsRelativeWay(w: World, mode: Mode, dir: seq<string>, root: Document, l: Location, cs: seq<Child>, end: Location) {
    !l.absolute && Stands(w, mode, dir, root, l) && WalkFrom(w, l, cs, end) && end.absolute
  }

  lemma OneRelativeStep(w: World, mode: Mode, dir: seq<string>, root: Document, l: Location, cs: seq<Child>, end: Location, m: nat)
    returns (next: Location, rest: seq<Child>)
    requires Setting(w, mode, dir, root, m) && OnItsRelativeWay(w, mode, dir, root, l, cs, end)
    ensures next.absolute ==> |next.key| <= m && |BaseOf(true, next.key)| <= m
    ensures if |cs| == 1 then end == next
            else if next.absolute then OnItsWay(w, mode, dir, root, next, rest, end, w.files.Keys) == true
            else |rest| < |cs| && OnItsRelativeWay(w, mode, dir, root, next, rest, end) == true
  {
    FirstStep(w, mode, dir, root, l, cs, end);
    assert NamesFiles(FileAt(w, l.key)) && |cs[0].location.value.segs| <= m;
    next, rest := Step(l, cs[0]), cs[1..];
    HeadIsDir([], true, next.key);
    if |cs| > 1 && next.absolute {
      SourcesAreFiles(w, mode, dir, root, next, rest, end);
    }
  }

  lemma {:induction false} LaterBounded(w: World, mode: Mode, dir: seq<string>, root: Document, l: Location, cs: seq<Child>, end: Location, m: nat)
    requires Setting(w, mode, dir, root, m) == true && OnItsRelativeWay(w, mode, dir, root, l, cs, end) == true
    ensures |end.key| <= m + Room(|w.files.Keys|, m) + m
    decreases |cs|
  {
    var next, rest := OneRelativeStep(w, mode, dir, root, l, cs, end, m);
    if |cs| == 1 {
      assert end.absolute;
    } else if next.absolute {
      LocationBounded(w, mode, dir, root, next, rest, end, m, w.files.Keys);
    } else {
      LaterBounded(w, mode, dir, root, next, rest, end, m);
    }
  }

  ghost predicate ShortRoot(root: Document, m: nat) {
    forall c :: c in root && IsReference(c) ==> |c.location.value.segs| <= m
  }

  lemma FirstFromRoot(w: World, absolute: bool, dir: seq<string>, root: Document, cs: seq<Child>, end: Location, m: nat)
    returns (next: Location, rest: seq<Child>)
    requires Setting(w, ModeOf(absolute, dir), Norm([], dir), root, m) && ShortRoot(root, m) && DirOk(absolute, dir)
    requires KeyWalk(w, absolute, dir, root, cs, end.absolute, end.key) && end.absolute
    ensures next.absolute ==> |BaseOf(true, next.key)| <= |next.key| <= |dir| + m
    ensures if |cs| == 1 then end == next
            else if next.absolute then OnItsWay(w, ModeOf(absolute, dir), Norm([], dir), root, next, rest, end, w.files.Keys) == true
            else OnItsRelativeWay(w, ModeOf(absolute, dir), Norm([], dir), root, next, rest, end) == true
  {
    var url := cs[0].location.value;
    next, rest := Target(absolute, dir, url), cs[1..];
    HeadIsDir([], true, next.key);
    if |cs| > 1 {
      RootStepStands(w, absolute, dir, root, cs[0]);
      if next.absolute {
        SourcesAreFiles(w, ModeOf(absolute, dir), Norm([], dir), root, next, rest, end);
      }
    }
  }

  lemma RootStepStands(w: World, absolute: bool, dir: seq<string>, root: Document, c: Child)
    requires WorldOk(w) && NamesFiles(root) && DirOk(absolute, dir) && c in root && IsReference(c)
    requires HasFile(w, Target(absolute, dir, c.location.value).key)
    ensures Stands(w, ModeOf(absolute, dir), Norm([], dir), root, Target(absolute, dir, c.location.value)) == true
  {
    var to := Target(absolute, dir, c.location.value);
    ReachedNow(w, absolute, dir, root, c);
    ReachedFile(w, absolute, dir, root, to.absolute, to.key);
  }

  /** Every absolute location that the references of the root lead to. */
  lemma FromRootBounded(w: World, absolute: bool, dir: seq<string>, root: Document, cs: seq<Child>, end: Location, m: nat)
    requires Setting(w, ModeOf(absolute, dir), Norm([], dir), root, m) == true && ShortRoot(root, m) && DirOk(absolute, dir)
    requires KeyWalk(w, absolute, dir, root, cs, end.absolute, end.key) && end.absolute
    ensures |end.key| <= |dir| + m + Room(|w.files.Keys|, m) + m
  {
    var mode, fileDir := ModeOf(absolute, dir), Norm([], dir);
    var next, rest := FirstFromRoot(w, absolute, dir, root, cs, end, m);
    if |cs| != 1 {
      if next.absolute {
        LocationBounded(w, mode, fileDir, root, next, rest, end, m, w.files.Keys);
      } else {
        LaterBounded(w, mode, fileDir, root, next, rest, end, m);
      }
    }
  }

  // ---------- Finitely many locations ----------

  ghost predicate Spelled(s: seq<string>, letters: set<string>) { forall x :: x in s ==> x in letters }

  ghost predicate DocSpelled(doc: Document, letters: set<string>) {
    forall c :: c in doc && IsReference(c) ==> Spelled(c.location.value.segs, letters)
  }

  lemma {:induction false} WalkSpelled(w: World, absolute: bool, dir: seq<string>, doc: Document, cs: seq<Child>, k: Key, letters: set<string>)
    requires KeyWalk(w, absolute, dir, doc, cs, true, k) && DocSpelled(doc, letters) && forall p :: p in w.files ==> DocSpelled(w.files[p], letters)
    requires "" in letters && (absolute ==> Spelled(dir, letters))
    ensures Spelled(k, letters)
    decreases |cs|
  {
    var url := cs[0].location.value;
    var to := Target(absolute, dir, url);
    assert Spelled(url.segs, letters);
    assert to.absolute ==> Spelled(to.key, letters) && Spelled(BaseOf(true, to.key), letters);
    if |cs| > 1 {
      WalkSpelled(w, to.absolute, BaseOf(to.absolute, to.key), FileAt(w, to.key), cs[1..], k, letters);
    }
  }

  /** All locations of at most `n` segments. */
  ghost function Spellings(letters: set<string>, n: nat): set<Key> {
    if n == 0 then {[]} else Spellings(letters, n - 1) + set s, x | s in Spellings(letters, n - 1) && x in letters :: s + [x]
  }

  lemma {:induction false} IsSpelling(k: Key, letters: set<string>, n: nat)
    requires Spelled(k, letters) && |k| <= n
    ensures k in Spellings(letters, n)
    decreases n
  {
    if |k| < n {
      IsSpelling(k, letters, n - 1);
    } else if n > 0 {
      var s, x := k[..n - 1], k[n - 1];
      assert k == s + [x];
      IsSpelling(s, letters, n - 1);
    }
  }

  /** The segments that occur, and the empty one that joining can add. */
  ghost function Letters(w: World, dir: seq<string>, root: Document): (letters: set<string>)
    ensures Spelled(dir, letters) && DocSpelled(root, letters) && forall p :: p in w.files ==> DocSpelled(w.files[p], letters)
    ensures "" in letters
  {
    {""} + (set x | x in dir)
    + (set c, x | c in root && IsReference(c) && x in c.location.value.segs :: x)
    + (set p, c, x | p in w.files && c in w.files[p] && IsReference(c) && x in c.location.value.segs :: x)
  }

  lemma ShortEnough(w: World, root: Document) returns (m: nat)
    ensures Short(w, m) && ShortRoot(root, m)
  {
    var inRoot := set c | c in root && IsReference(c) :: c.location.value.segs;
    var inFiles := set p, c | p in w.files && c in w.files[p] && IsReference(c) :: c.location.value.segs;
    m := LengthBound(inRoot + inFiles);
    forall c | c in root && IsReference(c)
      ensures |c.location.value.segs| <= m
    {
      assert c.location.value.segs in inRoot;
    }
    forall p, c | p in w.files && c in w.files[p] && IsReference(c)
      ensures |c.location.value.segs| <= m
    {
      assert c.location.value.segs in inFiles;
    }
  }

  lemma LocationWithin(w: World, absolute: bool, dir: seq<string>, root: Document, m: nat, letters: set<string>, n: nat, last: bool, k: Key)
    requires Setting(w, ModeOf(absolute, dir), Norm([], dir), root, m) && ShortRoot(root, m) && DirOk(absolute, dir)
    requires n == |dir| + m + Room(|w.files.Keys|, m) + m && "" in letters
    requires Spelled(dir, letters) && DocSpelled(root, letters) && forall p :: p in w.files ==> DocSpelled(w.files[p], letters)
    requires Reached(w, absolute, dir, root, last, k) && HasFile(w, k)
    ensures k in w.files.Keys + Spellings(letters, n)
  {
    var cs :| KeyWalk(w, absolute, dir, root, cs, last, k);
    if last {
      FromRootBounded(w, absolute, dir, root, cs, Location(true, k), m);
      WalkSpelled(w, absolute, dir, root, cs, k, letters);
      IsSpelling(k, letters, n);
    } else {
      WalkOnFiles(w, absolute, dir, root, cs, last, k);
      NormOfNormal([], k);
      assert [] + k == k;
    }
  }

  lemma BoundedLocations(w: World, absolute: bool, dir: seq<string>, root: Document) returns (u: set<Key>)
    requires WorldOk(w) && NamesFiles(root) && DirOk(absolute, dir) && !ReachesHarm(w, ModeOf(absolute, dir), Norm([], dir), root)
    ensures Within(w, absolute, dir, root, u)
  {
    var m := ShortEnough(w, root);
    var letters, n := Letters(w, dir, root), |dir| + m + Room(|w.files.Keys|, m) + m;
    u := w.files.Keys + Spellings(letters, n);
    forall last, k | Reached(w, absolute, dir, root, last, k) && HasFile(w, k)
      ensures k in u
    {
      LocationWithin(w, absolute, dir, root, m, letters, n, last, k);
    }
  }

  // ---------- When it completes ----------

  /** For any root and any mixture of references: if every file is there and no harmful cycle is reached, it completes. */
  lemma HarmlessCompletes(w: World, base: Path, root: Document)
    requires WorldOk(w) && NamesFiles(root) && BaseOk(base)
    requires AllPresent(w, RootDir(w, base), root) && !ReachesHarm(w, RootMode(w, base), RootDir(w, base), root)
    ensures Completes(w, base, root)
  {
    BaseDirOk(w, base);
    var u := BoundedLocations(w, base.absolute, KeyOf(w.cwd, base), root);
    DeepEnough(w, base, root, |u|, u);
    NothingMissing(w, base, root, |u|);
  }

  lemma NothingMissing(w: World, base: Path, root: Document, depth: nat)
    requires WorldOk(w) && NamesFiles(root) && BaseOk(base) && AllPresent(w, RootDir(w, base), root)
    ensures Resolution(w, base, root, depth).Done? || Resolution(w, base, root, depth) == Failed(TooDeep)
  {
    FilesExactly(w, base, root, depth);
  }

  /** Where no file is met both by a relative and by an absolute location it completes exactly when every file that the references
    lead to exists and they lead to no harmful cycle. */
  lemma CompletesExactly(w: World, base: Path, root: Document)
    requires WorldOk(w) && NamesFiles(root) && BaseOk(base) && Separate(w, RootMode(w, base), RootDir(w, base), root)
    ensures Completes(w, base, root) <==> AllPresent(w, RootDir(w, base), root) && !ReachesHarm(w, RootMode(w, base), RootDir(w, base), root)
  {
    if ReachesHarm(w, RootMode(w, base), RootDir(w, base), root) {
      HarmfulNeverCompletes(w, base, root);
    } else if AllPresent(w, RootDir(w, base), root) {
      HarmlessCompletes(w, base, root);
    }
    if Completes(w, base, root) {
      CompletesMeansPresent(w, base, root);
    }
  }

  /** So it is for every root below an absolute base. */
  lemma AbsoluteCompletesExactly(w: World, base: Path, root: Document)
    requires WorldOk(w) && NamesFiles(root) && BaseOk(base) && base.absolute
    ensures Completes(w, base, root) <==> AllPresent(w, RootDir(w, base), root) && !ReachesHarm(w, RootMode(w, base), RootDir(w, base), root)
  {
    AbsoluteIsSeparate(w, RootMode(w, base), RootDir(w, base), root);
    CompletesExactly(w, base, root);
  }

  /** With a harmful cycle in reach and all files there, every stack is too small. */
  lemma AlwaysTooDeep(w: World, base: Path, root: Document, depth: nat)
    requires WorldOk(w) && NamesFiles(root) && BaseOk(base) && Separate(w, RootMode(w, base), RootDir(w, base), root)
    requires AllPresent(w, RootDir(w, base), root) && ReachesHarm(w, RootMode(w, base), RootDir(w, base), root)
    ensures Resolution(w, base, root, depth) == Failed(TooDeep)
  {
    HarmfulNeverDone(w, base, root, depth);
    NothingMissing(w, base, root, depth);
  }
}
