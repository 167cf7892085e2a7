/** Paths as art/generateDS/process_includes.py handles them: joined with the base of the including file, and
  normalised (`os.path.abspath`) only when they are relative. */
module IncludePaths {

  /** A path split at "/"; `absolute` says that it starts with "/", which is not split off again: "/" is one empty segment. */
  datatype Path = Path(absolute: bool, segs: seq<string>)

  type Key = seq<string>

  predicate Plain(s: string) { s != "" && s != "." && s != ".." }

  predicate Normal(p: seq<string>) { forall s :: s in p ==> Plain(s) }

  /** A location names a file: its last segment is a plain name.  A relative path does not start with "/". */
  predicate NamesFile(p: Path) { p.segs != [] && Plain(p.segs[|p.segs| - 1]) && (p.absolute || p.segs[0] != "") }

  function Push(acc: seq<string>, s: string): seq<string> {
    if s == "" || s == "." then acc
    else if s == ".." then (if acc == [] then [] else acc[..|acc| - 1])
    else acc + [s]
  }

  /** `os.path.normpath` of `segs` below the normal path `start`. */
  function Norm(start: seq<string>, segs: seq<string>): seq<string>
    decreases segs
  {
    if segs == [] then start else Norm(Push(start, segs[0]), segs[1..])
  }

  lemma {:induction false} NormAppend(start: seq<string>, a: seq<string>, b: seq<string>)
    ensures Norm(start, a + b) == Norm(Norm(start, a), b)
    decreases a
  {
    if a == [] {
      assert a + b == b;
    } else {
      NormAppend(Push(start, a[0]), a[1..], b);
      assert (a + b)[1..] == a[1..] + b;
    }
  }

  lemma {:induction false} NormIsNormal(start: seq<string>, segs: seq<string>)
    requires Normal(start)
    ensures Normal(Norm(start, segs))
    decreases segs
  {
    if segs != [] {
      NormIsNormal(Push(start, segs[0]), segs[1..]);
    }
  }

  lemma {:induction false} NormOfNormal(start: seq<string>, segs: seq<string>)
    requires Normal(segs)
    ensures Norm(start, segs) == start + segs
    decreases segs
  {
    if segs != [] {
      assert Plain(segs[0]);
      NormOfNormal(start + [segs[0]], segs[1..]);
      assert start + [segs[0]] + segs[1..] == start + segs;
    }
  }

  /** The rules by which a path is normalised: empty segments and "." say nothing, ".." takes back the name before it, and at the
    root it says nothing either.  What no rule applies to stays. */
  lemma NormRules(start: seq<string>, a: seq<string>, name: string, b: seq<string>)
    requires Plain(name)
    ensures Norm(start, a + [""] + b) == Norm(start, a + b) && Norm(start, a + ["."] + b) == Norm(start, a + b)
    ensures Norm(start, a + [name, ".."] + b) == Norm(start, a + b)
    ensures Norm([], [".."] + b) == Norm([], b)
    ensures Normal(a) ==> Norm(start, a) == start + a
  {
    var n := Norm(start, a);
    assert [""][1..] == [] && ["."][1..] == [] && [name, ".."][1..] == [".."] && [".."][1..] == [];
    assert Push(Push(n, name), "..") == n;
    NormAppend(start, a, b);
    NormAppend(start, a, [""]);
    NormAppend(start, a + [""], b);
    NormAppend(start, a, ["."]);
    NormAppend(start, a + ["."], b);
    NormAppend(start, a, [name, ".."]);
    NormAppend(start, a + [name, ".."], b);
    NormAppend([], [".."], b);
    if Normal(a) {
      NormOfNormal(start, a);
    }
  }

  function DirOf(p: seq<string>): seq<string> { if p == [] then [] else p[..|p| - 1] }

  predicate AllEmpty(d: seq<string>) { forall s :: s in d ==> s == "" }

  /** Without slashes at the end. */
  function Stripped(d: seq<string>): (r: seq<string>)
    ensures r <= d
  {
    if d == [] || d[|d| - 1] != "" then d else Stripped(d[..|d| - 1])
  }

  /** `os.path.split(path)[0]`: slashes at the end are dropped unless there is nothing else.  So the head of "/a" is "/", which has
    an empty segment more than the directory, and the head of "//a" is "//". */
  function Head(absolute: bool, segs: seq<string>): seq<string> {
    var d := DirOf(segs);
    if absolute && AllEmpty(d) then d + [""] else Stripped(d)
  }

  /** What `os.path.split` can give for an absolute path. */
  predicate IsHead(h: seq<string>) { h != [] && (AllEmpty(h) || h[|h| - 1] != "") }

  lemma {:induction false} StripKeeps(d: seq<string>, start: seq<string>)
    ensures Norm(start, Stripped(d)) == Norm(start, d)
    decreases |d|
  {
    if d != [] && d[|d| - 1] == "" {
      var init := d[..|d| - 1];
      StripKeeps(init, start);
      assert d == init + [""];
      NormAppend(start, init, [""]);
      assert [""][1..] == [];
    }
  }

  lemma {:induction false} StripEnds(d: seq<string>)
    ensures AllEmpty(d) <==> Stripped(d) == []
    ensures Stripped(d) == [] || Stripped(d)[|Stripped(d)| - 1] != ""
    decreases |d|
  {
    if d != [] && d[|d| - 1] == "" {
      var init := d[..|d| - 1];
      StripEnds(init);
      assert Stripped(d) == Stripped(init);
      assert forall x :: x in d <==> x in init || x == "";
    } else if d != [] {
      assert d[|d| - 1] in d;
    }
  }

  /** As a directory the head is what is left without the last segment. */
  lemma HeadIsDir(start: seq<string>, absolute: bool, segs: seq<string>)
    ensures Norm(start, Head(absolute, segs)) == Norm(start, DirOf(segs))
    ensures absolute ==> IsHead(Head(absolute, segs))
    ensures segs != [] ==> |Head(absolute, segs)| <= |segs|
  {
    var d := DirOf(segs);
    StripKeeps(d, start);
    StripEnds(d);
    NormAppend(start, d, [""]);
    assert [""][1..] == [];
  }

  /** One reference on, the head has grown: by nothing only when the reference is a single name and the head is not all
    slashes. */
  lemma HeadGrows(head: seq<string>, url: Path)
    requires IsHead(head) && NamesFile(url) && !url.absolute
    ensures var next := Head(true, head + url.segs);
            if |url.segs| == 1 then next == (if AllEmpty(head) then head + [""] else head)
            else |head| < |next| < |head| + |url.segs| && !AllEmpty(next)
  {
    var d := head + url.segs[..|url.segs| - 1];
    assert DirOf(head + url.segs) == d;
    if |url.segs| == 1 {
      assert d == head;
      assert !AllEmpty(head) ==> Stripped(head) == head;
    } else {
      assert d[|head|] == url.segs[0] && d[|head|] in d;
      StripBelow(d, |head|);
    }
  }

  lemma {:induction false} StripBelow(d: seq<string>, i: nat)
    requires i < |d| && d[i] != ""
    ensures i < |Stripped(d)| <= |d| && !AllEmpty(Stripped(d))
    decreases |d|
  {
    if d[|d| - 1] == "" {
      StripBelow(d[..|d| - 1], i);
    } else {
      assert d[|d| - 1] in d;
    }
  }

  /** The directory of a normalised file location is the normalised directory. */
  lemma NormOfFile(start: seq<string>, segs: seq<string>)
    requires segs != [] && Plain(segs[|segs| - 1])
    ensures Norm(start, segs) == Norm(start, DirOf(segs)) + [segs[|segs| - 1]]
    ensures DirOf(Norm(start, segs)) == Norm(start, DirOf(segs))
  {
    var last := segs[|segs| - 1];
    NormAppend(start, DirOf(segs), [last]);
    assert segs == DirOf(segs) + [last];
    assert [last][1..] == [];
    assert Norm(Norm(start, DirOf(segs)), [last]) == Push(Norm(start, DirOf(segs)), last);
  }

  /** `'%s/%s' % (base, url)` unless the reference is absolute. */
  function Locate(base: Path, url: Path): Path {
    if url.absolute then url else Path(base.absolute, base.segs + url.segs)
  }

  /** The name under which a location is remembered as processed: normalised only if it is relative. */
  function KeyOf(cwd: seq<string>, locn: Path): Key {
    if locn.absolute then locn.segs else Norm(cwd, locn.segs)
  }

  /** The base below a document with key `k`, as a key. */
  function BaseOf(absolute: bool, k: Key): seq<string> { if absolute then Head(true, k) else DirOf(k) }

  /** The same, one reference at a time: the key of a reference found in a document with the base `dir`; `absolute` says that the
    document was located by an absolute path. */
  function NextKey(absolute: bool, dir: seq<string>, url: Path): Key {
    if url.absolute then url.segs else if absolute then dir + url.segs else Norm(dir, url.segs)
  }

  /** What a reference resolves to depends only on the including file's key and on how that file was located. */
  lemma KeysCompose(cwd: seq<string>, base: Path, url: Path)
    requires Normal(cwd) && NamesFile(url)
    ensures Locate(base, url).absolute == (base.absolute || url.absolute)
    ensures var locn := Locate(base, url);
            KeyOf(cwd, locn) == NextKey(base.absolute, KeyOf(cwd, base), url) &&
            KeyOf(cwd, Path(locn.absolute, Head(locn.absolute, locn.segs))) == BaseOf(locn.absolute, KeyOf(cwd, locn)) &&
            Norm(if locn.absolute then [] else cwd, locn.segs) == Norm([], KeyOf(cwd, locn))
  {
    var locn := Locate(base, url);
    assert locn.segs[|locn.segs| - 1] == url.segs[|url.segs| - 1];
    if !locn.absolute {
      NormAppend(cwd, base.segs, url.segs);
      NormOfFile(cwd, locn.segs);
      HeadIsDir(cwd, false, locn.segs);
      NormIsNormal(cwd, locn.segs);
      NormOfNormal([], KeyOf(cwd, locn));
      assert [] + KeyOf(cwd, locn) == KeyOf(cwd, locn);
    }
  }

  /** The file that a reference means, from the directory of the file that holds it. */
  function FileOf(dir: seq<string>, url: Path): seq<string> {
    Norm(if url.absolute then [] else dir, url.segs)
  }

  /** What a directory must be like to be the base below a document. */
  ghost predicate DirOk(absolute: bool, dir: seq<string>) { if absolute then IsHead(dir) else Normal(dir) }

  /** The key of a reference stands for that file, and the base below it for the directory of that file. */
  lemma KeyMeansFile(absolute: bool, dir: seq<string>, url: Path)
    requires NamesFile(url) && DirOk(absolute, dir)
    ensures var k, a := NextKey(absolute, dir, url), absolute || url.absolute;
            && k != [] && Plain(k[|k| - 1])
            && Norm([], k) == FileOf(Norm([], dir), url)
            && Norm([], BaseOf(a, k)) == DirOf(FileOf(Norm([], dir), url))
            && DirOk(a, BaseOf(a, k)) && (!a ==> Normal(k))
  {
    var k := NextKey(absolute, dir, url);
    HeadIsDir([], true, k);
    if url.absolute {
      NormOfFile([], url.segs);
    } else if absolute {
      assert k[|k| - 1] == url.segs[|url.segs| - 1];
      NormAppend([], dir, url.segs);
      NormOfFile([], k);
    } else {
      NormIsNormal(dir, url.segs);
      NormOfNormal([], dir);
      assert [] + dir == dir;
      NormOfFile(dir, url.segs);
      NormOfNormal([], k);
      assert [] + k == k;
      NormOfFile([], k);
    }
  }
}
