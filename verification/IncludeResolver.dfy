/** Resolution of `include` and `import` references, art/generateDS/process_includes.py. */
module IncludeResolver {
  import opened Helpers
  import opened IncludePaths

  /** A child of a schema element.  A reference without a location is reported and skipped. */
  datatype Child = Comment | Include(location: Option<Path>) | Import(location: Option<Path>) | Other(id: nat)

  type Document = seq<Child>

  /** What is appended to the root: the reference that brought a document in, as a comment, before each child that is taken
    over. */
  datatype Insert = Note(reference: Child) | Copy(child: Child)

  /** A document that was read: its key and whether it was located by an absolute path, the reference that led there, its
    content. */
  datatype Visit = Visit(absolute: bool, key: Key, reference: Child, doc: Document)

  /** The file system, by normalised path, and the working directory. */
  datatype World = World(files: map<seq<string>, Document>, cwd: seq<string>)

  /** A SchemaIOError, or more nested documents than the interpreter's stack admits. */
  datatype Failure = Missing(key: Key) | TooDeep

  datatype Outcome = Failed(why: Failure) | Done(processed: set<Key>, inserts: seq<Insert>, visits: seq<Visit>)

  predicate IsReference(c: Child) { (c.Include? || c.Import?) && c.location.Some? }

  /** All `include` children, then all `import` children. */
  function References(doc: Document): (r: seq<Child>)
    ensures forall c :: c in r <==> c in doc && (c.Include? || c.Import?)
  {
    Includes(doc) + Imports(doc)
  }

  function Includes(doc: Document): (r: seq<Child>)
    ensures forall c :: c in r <==> c in doc && c.Include?
  {
    if doc == [] then [] else (if doc[0].Include? then [doc[0]] else []) + Includes(doc[1..])
  }

  function Imports(doc: Document): (r: seq<Child>)
    ensures forall c :: c in r <==> c in doc && c.Import?
  {
    if doc == [] then [] else (if doc[0].Import? then [doc[0]] else []) + Imports(doc[1..])
  }

  /** The children of one document that are taken over: all but comments and `include`s. */
  function InsertsOf(reference: Child, doc: Document): seq<Insert> {
    if doc == [] then []
    else (if doc[0].Comment? || doc[0].Include? then [] else [Note(reference), Copy(doc[0])]) + InsertsOf(reference, doc[1..])
  }

  // ---------- The recursion as a function ----------

  /** The file that `open` reads for a location; directories that ".." leaves again are taken to exist. */
  function FileAtLocation(w: World, locn: Path): seq<string> { Norm(if locn.absolute then [] else w.cwd, locn.segs) }

  /** `collect_inserts` for the references `refs` of a document with base `base`; `depth` is what the stack has left. */
  function RunAll(w: World, base: Path, refs: seq<Child>, processed: set<Key>, inserts: seq<Insert>, depth: nat): Outcome
    decreases depth, 1 + |refs|
  {
    if refs == [] then Done(processed, inserts, [])
    else
      match RunOne(w, base, refs[0], processed, inserts, depth)
      case Failed(why) => Failed(why)
      case Done(p, i, v) => After(v, RunAll(w, base, refs[1..], p, i, depth))
  }

  /** `collect_inserts_aux` with `resolve_ref`. */
  function RunOne(w: World, base: Path, child: Child, processed: set<Key>, inserts: seq<Insert>, depth: nat): Outcome
    decreases depth, 0
  {
    if !IsReference(child) then Done(processed, inserts, [])
    else
      var locn := Locate(base, child.location.value);
      var key := KeyOf(w.cwd, locn);
      if key in processed then Done(processed, inserts, [])
      else if FileAtLocation(w, locn) !in w.files then Failed(Missing(key))
      else if depth == 0 then Failed(TooDeep)
      else
        var doc := w.files[FileAtLocation(w, locn)];
        After([Visit(locn.absolute, key, child, doc)],
              RunAll(w, Path(locn.absolute, Head(locn.absolute, locn.segs)), References(doc), processed + {key}, inserts + InsertsOf(child, doc), depth - 1))
  }

  function After(visits: seq<Visit>, r: Outcome): Outcome { if r.Done? then r.(visits := visits + r.visits) else r }

  lemma AfterAfter(a: seq<Visit>, b: seq<Visit>, r: Outcome)
    ensures After(a, After(b, r)) == After(a + b, r)
  {
    if r.Done? {
      assert a + (b + r.visits) == (a + b) + r.visits;
    }
  }

  // ---------- The code ----------

  class Params {
    var base: Path
    var processed: set<Key>

    constructor (base: Path)
      ensures this.base == base && processed == {}
    {
      this.base, processed := base, {};
    }
  }

  class Resolver {
    const w: World

    constructor (w: World)
      ensures this.w == w
    {
      this.w := w;
    }

    /** `resolve_ref`: the content of a location that was not processed before.  `missing` is the location of a
      SchemaIOError. */
    method ResolveRef(child: Child, params: Params) returns (content: Option<Document>, missing: Option<Key>, locn: Path)
      modifies params
      ensures !IsReference(child) ==>
        content == None && missing == None && params.base == old(params.base) && params.processed == old(params.processed)
      ensures IsReference(child) ==>
        var key, file := KeyOf(w.cwd, locn), FileAtLocation(w, locn);
        && locn == Locate(old(params.base), child.location.value)
        && params.processed == old(params.processed) + {key}
        && (missing == if key !in old(params.processed) && file !in w.files then Some(key) else None)
        && (content == if key !in old(params.processed) && file in w.files then Some(w.files[file]) else None)
        && (params.base == if content.Some? then Path(locn.absolute, Head(locn.absolute, locn.segs)) else old(params.base))
    {
      content, missing, locn := None, None, params.base;
      if !IsReference(child) {
        return;
      }
      locn := Locate(params.base, child.location.value);
      var schemaName := KeyOf(w.cwd, locn);
      if schemaName !in params.processed {
        params.processed := params.processed + {schemaName};
        var file := FileAtLocation(w, locn);
        if file in w.files {
          content := Some(w.files[file]);
          params.base := Path(locn.absolute, Head(locn.absolute, locn.segs));
        } else {
          missing := Some(schemaName);
        }
      }
    }

    /** `collect_inserts`, for any files and any references. */
    method CollectInserts(node: Document, params: Params, inserts: seq<Insert>, depth: nat)
      returns (inserts': seq<Insert>, roots: seq<Visit>, failure: Option<Failure>)
      modifies params
      decreases depth, 1
      ensures var r := RunAll(w, old(params.base), References(node), old(params.processed), inserts, depth);
              if failure.Some? then r == Failed(failure.value)
              else r == Done(params.processed, inserts', roots) && params.base == old(params.base)
    {
      var refs := References(node);
      ghost var base, whole := params.base, RunAll(w, params.base, refs, params.processed, inserts, depth);
      inserts', roots, failure := inserts, [], None;
      var i := 0;
      assert refs[0..] == refs && After([], whole) == whole by {
        assert whole.Done? ==> [] + whole.visits == whole.visits;
      }
      while i < |refs|
        invariant i <= |refs| && failure.None? && params.base == base
        invariant whole == After(roots, RunAll(w, base, refs[i..], params.processed, inserts', depth))
      {
        assert refs[i..][0] == refs[i] && refs[i..][1..] == refs[i + 1..];
        ghost var before := roots;
        var more;
        inserts', more, failure := CollectInsertsAux(refs[i], params, inserts', depth);
        if failure.Some? {
          return;
        }
        roots := roots + more;
        AfterAfter(before, more, RunAll(w, base, refs[i + 1..], params.processed, inserts', depth));
        i := i + 1;
      }
      assert roots + [] == roots;
    }

    /** `collect_inserts_aux`: one reference, with the base saved and restored. */
    method CollectInsertsAux(child: Child, params: Params, inserts: seq<Insert>, depth: nat)
      returns (inserts': seq<Insert>, roots: seq<Visit>, failure: Option<Failure>)
      modifies params
      decreases depth, 0
      ensures var r := RunOne(w, old(params.base), child, old(params.processed), inserts, depth);
              if failure.Some? then r == Failed(failure.value)
              else r == Done(params.processed, inserts', roots) && params.base == old(params.base)
    {
      inserts', roots, failure := inserts, [], None;
      var saveBase := params.base;
      var content, missing, locn := ResolveRef(child, params);
      if missing.Some? {
        failure := Some(Missing(missing.value));
        return;
      }
      if content.Some? {
        if depth == 0 {
          failure := Some(TooDeep);
          return;
        }
        var root := content.value;
        inserts' := TakeOver(child, root, inserts');
        var more;
        inserts', more, failure := CollectInserts(root, params, inserts', depth - 1);
        if failure.Some? {
          return;
        }
        roots := [Visit(locn.absolute, KeyOf(w.cwd, locn), child, root)] + more;
      } else {
        assert IsReference(child) ==> params.processed == old(params.processed);
      }
      params.base := saveBase;
    }

    /** The loop over the children of a document that was read. */
    method TakeOver(reference: Child, root: Document, inserts: seq<Insert>) returns (inserts': seq<Insert>)
      ensures inserts' == inserts + InsertsOf(reference, root)
    {
      inserts' := inserts;
      for i := 0 to |root|
        invariant inserts' + InsertsOf(reference, root[i..]) == inserts + InsertsOf(reference, root)
      {
        assert root[i..][0] == root[i] && root[i..][1..] == root[i + 1..];
        if !root[i].Comment? && !root[i].Include? {
          inserts' := inserts' + [Note(reference), Copy(root[i])];
        }
      }
    }
  }
}
