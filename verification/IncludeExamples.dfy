/** Include graphs that the code does not resolve. */
module IncludeExamples {
  import opened Helpers
  import opened IncludePaths
  import opened IncludeResolver
  import opened IncludeRuns
  import opened IncludeResults
  import opened IncludeCycles
  import opened IncludeBounds

  // ---------- A cycle through ".." ----------

  /** Two files that include each other through "..". */
  const UP_AND_OVER := World(map[["x", "a.xsd"] := [Include(Some(Path(false, ["..", "y", "b.xsd"])))],
                                 ["y", "b.xsd"] := [Include(Some(Path(false, ["..", "x", "a.xsd"])))]], [])

  const UP_AND_OVER_ROOT: Document := [Include(Some(Path(false, ["a.xsd"])))]

  lemma UpAndOver(here: string, there: string, name: string)
    requires Plain(there) && Plain(name)
    ensures Norm([here], ["..", there, name]) == [there, name]
  {
    assert ["..", there, name][1..] == [there, name];
    assert Push([here], "..") == [];
    NormOfNormal([], [there, name]);
    assert [] + [there, name] == [there, name];
  }

  lemma InDirectory(here: string, name: string)
    requires Plain(here) && Plain(name)
    ensures Norm([here], [name]) == [here, name] && Norm([], [here, name]) == [here, name] && Norm([], [here]) == [here]
  {
    NormOfNormal([here], [name]);
    NormOfNormal([], [here, name]);
    NormOfNormal([], [here]);
    assert [here] + [name] == [here, name] && [] + [here, name] == [here, name] && [] + [here] == [here];
  }

  /** Two files that refer to each other. */
  lemma ThereAndBack(w: World, p: seq<string>, there: Child, q: seq<string>, back: Child)
    requires p in w.files && there in w.files[p] && IsReference(there) && !there.location.value.absolute
    requires q in w.files && back in w.files[q] && IsReference(back) && !back.location.value.absolute
    requires FileOf(DirOf(p), there.location.value) == q && FileOf(DirOf(q), back.location.value) == p
    ensures RelWalk(w, p, [there, back], p)
  {
    assert [there, back][1..] == [back] && [back][1..] == [];
    assert RelWalk(w, p, [], p);
    assert RelWalk(w, q, [back], p);
  }

  lemma UpAndOverHarm()
    ensures ReachesHarm(UP_AND_OVER, Abs, ["x"], UP_AND_OVER_ROOT)
  {
    var w, a, b := UP_AND_OVER, ["x", "a.xsd"], ["y", "b.xsd"];
    var toB, toA := w.files[a][0], w.files[b][0];
    assert toB in w.files[a] && toA in w.files[b] && UP_AND_OVER_ROOT[0] in UP_AND_OVER_ROOT;
    UpAndOver("x", "y", "b.xsd");
    UpAndOver("y", "x", "a.xsd");
    InDirectory("x", "a.xsd");
    StartsAt(w, Abs, ["x"], UP_AND_OVER_ROOT[0], a);
    ThereAndBack(w, a, toB, b, toA);
    assert toB in [toB, toA] && ".." in toB.location.value.segs;
    assert Harmful(w, Abs, a, [toB, toA]);
  }

  /** A single reference with a relative location. */
  lemma StartsAt(w: World, mode: Mode, dir: seq<string>, c: Child, p: seq<string>)
    requires IsReference(c) && FileOf(dir, c.location.value) == p
    ensures ReachedIn(w, mode, dir, [c], NextMode(mode, c.location.value), p)
  {
    assert [c][1..] == [];
    assert FileWalk(w, dir, [c], [c], p);
    assert ModeAfter(mode, [c]) == NextMode(mode, c.location.value);
  }

  lemma UpAndOverOk()
    ensures WorldOk(UP_AND_OVER) && NamesFiles(UP_AND_OVER_ROOT) && BaseOk(Path(true, ["x"]))
    ensures RootDir(UP_AND_OVER, Path(true, ["x"])) == ["x"] && RootMode(UP_AND_OVER, Path(true, ["x"])) == Abs
  {
    InDirectory("x", "a.xsd");
    assert "x" in ["x"];
  }

  /** Below the absolute base "/x" their resolution never completes, however deep the stack: "/x/a.xsd", "/x/../y/b.xsd",
    "/x/../y/../x/a.xsd", ... are all different names. */
  lemma AbsoluteCycleNeverCompletes(depth: nat)
    ensures Resolution(UP_AND_OVER, Path(true, ["x"]), UP_AND_OVER_ROOT, depth) == Failed(TooDeep)
  {
    UpAndOverOk();
    UpAndOverHarm();
    UpAndOverPresent();
    AbsoluteIsSeparate(UP_AND_OVER, Abs, ["x"], UP_AND_OVER_ROOT);
    AlwaysTooDeep(UP_AND_OVER, Path(true, ["x"]), UP_AND_OVER_ROOT, depth);
  }

  lemma {:induction false} UpAndOverWalks(dir: seq<string>, doc: Document, cs: seq<Child>, p: seq<string>)
    requires dir == ["x"] || dir == ["y"]
    requires forall c :: c in doc && IsReference(c) ==> FileOf(dir, c.location.value) in UP_AND_OVER.files
    requires FileWalk(UP_AND_OVER, dir, doc, cs, p)
    ensures p in UP_AND_OVER.files
    decreases |cs|
  {
    if |cs| > 1 {
      var next := FileOf(dir, cs[0].location.value);
      UpAndOver("x", "y", "b.xsd");
      UpAndOver("y", "x", "a.xsd");
      UpAndOverWalks(DirOf(next), UP_AND_OVER.files[next], cs[1..], p);
    }
  }

  lemma UpAndOverPresent()
    ensures AllPresent(UP_AND_OVER, ["x"], UP_AND_OVER_ROOT)
  {
    InDirectory("x", "a.xsd");
    forall p | CanReach(UP_AND_OVER, ["x"], UP_AND_OVER_ROOT, p)
      ensures p in UP_AND_OVER.files
    {
      var cs :| FileWalk(UP_AND_OVER, ["x"], UP_AND_OVER_ROOT, cs, p);
      UpAndOverWalks(["x"], UP_AND_OVER_ROOT, cs, p);
    }
  }

  // ---------- A plain cycle in the root directory ----------

  /** Two files in the root directory that include each other by their names. */
  const IN_ROOT := World(map[["a.xsd"] := [Include(Some(Path(false, ["b.xsd"])))], ["b.xsd"] := [Include(Some(Path(false, ["a.xsd"])))]], [])

  const IN_ROOT_START: Document := [Include(Some(Path(false, ["a.xsd"])))]

  /** `os.path.split("/start.xsd")[0]`. */
  const SLASH := Path(true, [""])

  lemma InRootOk()
    ensures WorldOk(IN_ROOT) && NamesFiles(IN_ROOT_START) && BaseOk(SLASH) && Head(true, ["start.xsd"]) == SLASH.segs
    ensures RootDir(IN_ROOT, SLASH) == [] && RootMode(IN_ROOT, SLASH) == Flat
    ensures Norm([], ["a.xsd"]) == ["a.xsd"] && Norm([], ["b.xsd"]) == ["b.xsd"]
  {
    assert [""][1..] == [] && ["a.xsd"][1..] == [] && ["b.xsd"][1..] == [];
    assert DirOf(["start.xsd"]) == [];
  }

  lemma InRootHarm()
    ensures ReachesHarm(IN_ROOT, Flat, [], IN_ROOT_START)
  {
    InRootOk();
    var w, a, b := IN_ROOT, ["a.xsd"], ["b.xsd"];
    var toB, toA := w.files[a][0], w.files[b][0];
    assert toB in w.files[a] && toA in w.files[b];
    StartsAt(w, Flat, [], IN_ROOT_START[0], a);
    ThereAndBack(w, a, toB, b, toA);
    assert Harmful(w, Flat, a, [toB, toA]);
  }

  lemma {:induction false} InRootWalks(doc: Document, cs: seq<Child>, p: seq<string>)
    requires forall c :: c in doc && IsReference(c) ==> FileOf([], c.location.value) in IN_ROOT.files
    requires FileWalk(IN_ROOT, [], doc, cs, p)
    ensures p in IN_ROOT.files
    decreases |cs|
  {
    if |cs| > 1 {
      InRootOk();
      InRootWalks(IN_ROOT.files[FileOf([], cs[0].location.value)], cs[1..], p);
    }
  }

  lemma InRootPresent()
    ensures AllPresent(IN_ROOT, [], IN_ROOT_START)
  {
    InRootOk();
    forall p | CanReach(IN_ROOT, [], IN_ROOT_START, p)
      ensures p in IN_ROOT.files
    {
      var cs :| FileWalk(IN_ROOT, [], IN_ROOT_START, cs, p);
      InRootWalks(IN_ROOT_START, cs, p);
    }
  }

  /** A plain cycle is enough for files in the root directory: "//a.xsd", "///b.xsd", "////a.xsd", ... are all different names. */
  lemma RootDirectoryNeverCompletes(depth: nat)
    ensures Resolution(IN_ROOT, SLASH, IN_ROOT_START, depth) == Failed(TooDeep)
  {
    InRootOk();
    InRootHarm();
    InRootPresent();
    AbsoluteIsSeparate(IN_ROOT, Flat, [], IN_ROOT_START);
    AlwaysTooDeep(IN_ROOT, SLASH, IN_ROOT_START, depth);
  }

  // ---------- The same file by a relative and by an absolute location ----------

  lemma FirstAbsoluteNotDone(w: World, base: Path, c: Child, rest: Document, depth: nat)
    requires WorldOk(w) && NamesFiles([c]) && c.Include? && IsReference(c) && c.location.value.absolute
    requires RootDir(w, SLASH) == [] && Separate(w, Flat, [], [c]) == true && ReachesHarm(w, Flat, [], [c]) == true
    ensures !Resolution(w, base, [c] + rest, depth).Done?
  {
    assert [c] + [] == [c] && References([]) == [];
    IncludesFirst(c, rest);
    IncludesFirst(c, []);
    HarmfulNeverDone(w, SLASH, [c], depth);
    OneOf(w, SLASH, c, depth);
    FirstOf(w, base, References([c] + rest), depth);
    assert RunOne(w, base, c, {}, [], depth) == RunOne(w, SLASH, c, {}, [], depth);
  }

  /** An absolute reference that comes first is resolved as below an absolute base. */
  lemma FirstAbsoluteNeverCompletes(w: World, base: Path, c: Child, rest: Document)
    requires WorldOk(w) && NamesFiles([c]) && c.Include? && IsReference(c) && c.location.value.absolute
    requires ReachesHarm(w, Flat, [], [c])
    ensures !Completes(w, base, [c] + rest)
  {
    assert RootDir(w, SLASH) == [] by { assert [""][1..] == []; }
    AbsoluteIsSeparate(w, Flat, [], [c]);
    forall depth: nat
      ensures !Resolution(w, base, [c] + rest, depth).Done?
    {
      FirstAbsoluteNotDone(w, base, c, rest, depth);
    }
  }

  lemma IncludesFirst(c: Child, rest: Document)
    requires c.Include?
    ensures References([c] + rest) == [c] + References(rest)
  {
    assert ([c] + rest)[1..] == rest;
    assert [c] + (Includes(rest) + Imports(rest)) == ([c] + Includes(rest)) + Imports(rest);
    assert [] + Imports(rest) == Imports(rest);
  }

  lemma OneOf(w: World, base: Path, c: Child, depth: nat)
    ensures RunAll(w, base, [c], {}, [], depth).Done? <==> RunOne(w, base, c, {}, [], depth).Done?
  {
    assert [c][1..] == [];
  }

  lemma FirstOf(w: World, base: Path, refs: seq<Child>, depth: nat)
    requires refs != []
    ensures RunAll(w, base, refs, {}, [], depth).Done? ==> RunOne(w, base, refs[0], {}, [], depth).Done?
  {
  }

  /** A file that includes itself through "..". */
  const SELF: Document := [Include(Some(Path(false, ["..", "x", "a.xsd"])))]
  const SELF_WORLD := World(map[["x", "a.xsd"] := SELF], ["x"])
  const BY_NAME := Include(Some(Path(false, ["a.xsd"])))
  const BY_PATH := Include(Some(Path(true, ["x", "a.xsd"])))

  lemma SelfOk()
    ensures WorldOk(SELF_WORLD) && NamesFiles([BY_PATH, BY_NAME])
    ensures Norm(["x"], ["a.xsd"]) == ["x", "a.xsd"] && Norm([], ["x", "a.xsd"]) == ["x", "a.xsd"]
    ensures Norm(["x"], ["..", "x", "a.xsd"]) == ["x", "a.xsd"]
  {
    UpAndOver("x", "x", "a.xsd");
    InDirectory("x", "a.xsd");
  }

  lemma SelfHarm()
    ensures ReachesHarm(SELF_WORLD, Flat, [], [BY_PATH])
  {
    SelfOk();
    var p, toSelf := ["x", "a.xsd"], SELF[0];
    assert toSelf in SELF_WORLD.files[p];
    assert DirOf(p) == ["x"] && "x" in ["x"] && [toSelf][1..] == [];
    StartsAt(SELF_WORLD, Flat, [], BY_PATH, p);
    assert RelWalk(SELF_WORLD, p, [], p);
    assert RelWalk(SELF_WORLD, p, [toSelf], p);
    assert toSelf in [toSelf] && ".." in toSelf.location.value.segs;
    assert Harmful(SELF_WORLD, Abs, p, [toSelf]);
  }

  lemma OneMoreDone(w: World, base: Path, c: Child, rest: seq<Child>, processed: set<Key>, inserts: seq<Insert>, depth: nat)
    requires RunOne(w, base, c, processed, inserts, depth).Done?
    requires var r := RunOne(w, base, c, processed, inserts, depth); RunAll(w, base, rest, r.processed, r.inserts, depth).Done?
    ensures RunAll(w, base, [c] + rest, processed, inserts, depth).Done?
    ensures var r := RunOne(w, base, c, processed, inserts, depth);
            RunAll(w, base, [c] + rest, processed, inserts, depth).processed == RunAll(w, base, rest, r.processed, r.inserts, depth).processed
  {
    assert ([c] + rest)[1..] == rest;
  }

  /** References that are processed already are passed over. */
  lemma PassedOver(w: World, base: Path, c: Child, processed: set<Key>, inserts: seq<Insert>, depth: nat)
    requires IsReference(c) && KeyOf(w.cwd, Locate(base, c.location.value)) in processed
    ensures RunAll(w, base, [c], processed, inserts, depth) == Done(processed, inserts, [])
  {
    assert [c][1..] == [];
  }

  lemma NameThenPath(w: World, base: Path, byName: Child, byPath: Child, self: Child, locn: Path, p: Key)
    requires byName.Include? && byPath.Include? && self.Include? && IsReference(byName) && IsReference(byPath) && IsReference(self)
    requires locn == Locate(base, byName.location.value) && KeyOf(w.cwd, locn) == p && FileAtLocation(w, locn) in w.files
    requires w.files[FileAtLocation(w, locn)] == [self]
    requires KeyOf(w.cwd, Locate(Path(locn.absolute, Head(locn.absolute, locn.segs)), self.location.value)) == p
    requires KeyOf(w.cwd, Locate(base, byPath.location.value)) == p
    ensures Resolution(w, base, [byName, byPath], 1).Done?
  {
    IncludesFirst(self, []);
    IncludesFirst(byPath, []);
    IncludesFirst(byName, [byPath]);
    assert [self] + [] == [self] && [byPath] + [] == [byPath] && [byName] + [byPath] == [byName, byPath] && References([]) == [];
    PassedOver(w, Path(locn.absolute, Head(locn.absolute, locn.segs)), self, {} + {p}, [] + InsertsOf(byName, [self]), 0);
    var first := RunOne(w, base, byName, {}, [], 1);
    assert first.Done? && p in first.processed;
    PassedOver(w, base, byPath, first.processed, first.inserts, 1);
    OneMoreDone(w, base, byName, [byPath], {}, [], 1);
  }

  lemma ByNameCompletes()
    ensures Completes(SELF_WORLD, Path(false, []), [BY_NAME, BY_PATH])
  {
    SelfOk();
    var p := ["x", "a.xsd"];
    assert [] + ["a.xsd"] == ["a.xsd"] && Head(false, ["a.xsd"]) == [] && [] + ["..", "x", "a.xsd"] == ["..", "x", "a.xsd"];
    NameThenPath(SELF_WORLD, Path(false, []), BY_NAME, BY_PATH, SELF[0], Path(false, ["a.xsd"]), p);
    DoneCompletes(SELF_WORLD, Path(false, []), [BY_NAME, BY_PATH], 1);
  }

  lemma DoneCompletes(w: World, base: Path, root: Document, depth: nat)
    requires Resolution(w, base, root, depth).Done?
    ensures Completes(w, base, root)
  {
  }

  lemma ByPathNever()
    ensures !Completes(SELF_WORLD, Path(false, []), [BY_PATH] + [BY_NAME])
  {
    SelfOk();
    SelfHarm();
    FirstAbsoluteNeverCompletes(SELF_WORLD, Path(false, []), BY_PATH, [BY_NAME]);
  }

  /** When a file is met both by a relative and by an absolute location the order of the references decides: the name under which it
    is met first is the one that counts.  So there the files and references alone cannot tell, and `CompletesExactly` needs the
    locations to be separate. */
  lemma OrderDecides()
    ensures Completes(SELF_WORLD, Path(false, []), [BY_NAME, BY_PATH])
    ensures !Completes(SELF_WORLD, Path(false, []), [BY_PATH, BY_NAME])
  {
    ByNameCompletes();
    ByPathNever();
    assert [BY_PATH] + [BY_NAME] == [BY_PATH, BY_NAME];
  }
}
