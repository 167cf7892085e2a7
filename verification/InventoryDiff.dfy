/** The inventory diff of art/rhevm_api/utils/inventory.py: `find_resources_diff`, `find_params_changed` and
  `compare_ge_state`. */
module InventoryDiff {

  /** The attributes of a resource. */
  type Resource = map<string, string>

  datatype Error = KeyError | ValueError

  datatype Result<T> = Ok(value: T) | Err(error: Error)

  /** An old and a new value. */
  datatype Change = Change(was: string, now: string)

  datatype Changed = Changed(name: string, values: map<string, Change>)

  datatype Diff = Diff(changed: seq<Changed>, added: seq<string>, removed: seq<string>)

  const IGNORED_NAMES: set<string> := {"OVF_STORE"}

  // ---------- The code, as functions ----------

  /** `cur[param]` fails for an attribute that only the old resource has; attributes that only the new one has are not seen. */
  function ParamsChanged(before: Resource, cur: Resource): Result<map<string, Change>> {
    if exists p :: p in before && p !in cur then Err(KeyError)
    else Ok(map p | p in before && p in cur && before[p] != cur[p] :: Change(before[p], cur[p]))
  }

  datatype Match = Found(at: nat) | NoMatch | NoId

  /** The first current resource from place `n` on with the given id. */
  function FindId(cur: seq<Resource>, id: string, n: nat): (m: Match)
    requires n <= |cur|
    ensures m.Found? ==> n <= m.at < |cur| && "id" in cur[m.at] && cur[m.at]["id"] == id
    ensures m.Found? ==> forall i :: n <= i < m.at ==> "id" in cur[i] && cur[i]["id"] != id
    ensures m.NoMatch? ==> forall i :: n <= i < |cur| ==> "id" in cur[i] && cur[i]["id"] != id
    ensures m.NoId? ==> exists i :: n <= i < |cur| && "id" !in cur[i]
    decreases |cur| - n
  {
    if n == |cur| then NoMatch
    else if "id" !in cur[n] then NoId
    else if cur[n]["id"] == id then Found(n)
    else FindId(cur, id, n + 1)
  }

  /** `list.remove`: the first equal element, or a ValueError. */
  function Remove(s: seq<Resource>, x: Resource): Result<seq<Resource>> {
    if s == [] then Err(ValueError)
    else if s[0] == x then Ok(s[1..])
    else
      match Remove(s[1..], x)
      case Ok(t) => Ok([s[0]] + t)
      case Err(e) => Err(e)
  }

  /** The lists that the loop over the old resources grows and shrinks. */
  datatype Progress = Progress(left: seq<Resource>, changed: seq<Changed>, removed: seq<string>)

  /** One old resource. */
  function Step(p: Progress, r: Resource, cur: seq<Resource>): Result<Progress> {
    if "id" !in r || "name" !in r then Err(KeyError)
    else
      match FindId(cur, r["id"], 0)
      case NoId => Err(KeyError)
      case NoMatch => Ok(p.(removed := p.removed + [r["name"]]))
      case Found(i) =>
        match Remove(p.left, cur[i])
        case Err(e) => Err(e)
        case Ok(left) =>
          if cur[i] == r then Ok(p.(left := left))
          else
            match ParamsChanged(r, cur[i])
            case Err(e) => Err(e)
            case Ok(values) =>
              if values == map[] then Ok(p.(left := left))
              else Ok(p.(left := left, changed := p.changed + [Changed(r["name"], values)]))
  }

  function Steps(olds: seq<Resource>, cur: seq<Resource>): Result<Progress> {
    if olds == [] then Ok(Progress(cur, [], []))
    else
      match Steps(olds[..|olds| - 1], cur)
      case Err(e) => Err(e)
      case Ok(p) => Step(p, olds[|olds| - 1], cur)
  }

  /** The names that are not ignored. */
  function Names(s: seq<Resource>): Result<seq<string>> {
    if s == [] then Ok([])
    else
      match Names(s[..|s| - 1])
      case Err(e) => Err(e)
      case Ok(names) =>
        var r := s[|s| - 1];
        if "name" !in r then Err(KeyError)
        else Ok(if r["name"] in IGNORED_NAMES then names else names + [r["name"]])
  }

  function ResourcesDiff(olds: seq<Resource>, cur: seq<Resource>): Result<Diff> {
    match Steps(olds, cur)
    case Err(e) => Err(e)
    case Ok(p) =>
      match Names(p.left)
      case Err(e) => Err(e)
      case Ok(added) => Ok(Diff(p.changed, added, p.removed))
  }

  // ---------- The code ----------

  method FindParamsChanged(before: Resource, cur: Resource) returns (r: Result<map<string, Change>>)
    ensures r == ParamsChanged(before, cur)
  {
    var values: map<string, Change> := map[];
    var todo := before.Keys;
    while todo != {}
      invariant todo <= before.Keys
      invariant forall p :: p in before && p !in todo ==> p in cur
      invariant values == map p | p in before && p in cur && p !in todo && before[p] != cur[p] :: Change(before[p], cur[p])
    {
      var p :| p in todo;
      if p !in cur {
        assert p in before;
        assert ParamsChanged(before, cur) == Err(KeyError);
        return Err(KeyError);
      }
      if before[p] != cur[p] {
        values := values[p := Change(before[p], cur[p])];
      }
      todo := todo - {p};
    }
    assert !exists p :: p in before && p !in cur;
    assert values == map p | p in before && p in cur && before[p] != cur[p] :: Change(before[p], cur[p]);
    r := Ok(values);
  }

  method FindResourcesDiff(olds: seq<Resource>, cur: seq<Resource>) returns (r: Result<Diff>)
    ensures r == ResourcesDiff(olds, cur)
  {
    var removed: seq<string>, changed: seq<Changed>, left := [], [], cur;
    for n := 0 to |olds|
      invariant Steps(olds[..n], cur) == Ok(Progress(left, changed, removed))
    {
      assert olds[..n + 1][..n] == olds[..n];
      var resource := olds[n];
      if "id" !in resource || "name" !in resource {
        StepsFail(olds, n + 1, cur);
        return Err(KeyError);
      }
      var i := 0;
      while i < |cur| && "id" in cur[i] && cur[i]["id"] != resource["id"]
        invariant i <= |cur| && FindId(cur, resource["id"], 0) == FindId(cur, resource["id"], i)
      {
        i := i + 1;
      }
      if i == |cur| {
        removed := removed + [resource["name"]];
      } else if "id" !in cur[i] {
        StepsFail(olds, n + 1, cur);
        return Err(KeyError);
      } else {
        var rest := Remove(left, cur[i]);
        if rest.Err? {
          StepsFail(olds, n + 1, cur);
          return Err(rest.error);
        }
        left := rest.value;
        if cur[i] != resource {
          var values := FindParamsChanged(resource, cur[i]);
          if values.Err? {
            StepsFail(olds, n + 1, cur);
            return Err(values.error);
          }
          if values.value != map[] {
            changed := changed + [Changed(resource["name"], values.value)];
          }
        }
      }
    }
    assert olds[..|olds|] == olds;
    match Names(left) {
      case Err(e) => r := Err(e);
      case Ok(added) => r := Ok(Diff(changed, added, removed));
    }
  }

  /** Once it fails it stays failed. */
  lemma {:induction false} StepsFail(olds: seq<Resource>, n: nat, cur: seq<Resource>)
    requires n <= |olds| && Steps(olds[..n], cur).Err?
    ensures Steps(olds, cur) == Steps(olds[..n], cur)
    decreases |olds| - n
  {
    if n == |olds| {
      assert olds[..n] == olds;
    } else {
      assert olds[..n + 1][..n] == olds[..n];
      StepsFail(olds, n + 1, cur);
    }
  }

  // ---------- What the diff means ----------

  predicate Proper(s: seq<Resource>) { forall r :: r in s ==> "id" in r && "name" in r }

  predicate Distinct(s: seq<Resource>)
    requires Proper(s)
  {
    forall i, j :: 0 <= i < j < |s| ==> s[i]["id"] != s[j]["id"]
  }

  /** No id that a current resource has occurs twice among the old ones. */
  predicate MatchedOnce(olds: seq<Resource>, cur: seq<Resource>)
    requires Proper(olds) && Proper(cur)
  {
    forall i, j :: 0 <= i < j < |olds| && olds[i]["id"] == olds[j]["id"] ==> olds[i]["id"] !in Ids(cur)
  }

  function Ids(s: seq<Resource>): set<string>
    requires Proper(s)
  {
    set r | r in s :: r["id"]
  }

  /** The resources whose id is not among `ids`, in their order. */
  function Without(s: seq<Resource>, ids: set<string>): (t: seq<Resource>)
    requires Proper(s)
    ensures Proper(t) && forall r :: r in t <==> r in s && r["id"] !in ids
  {
    if s == [] then []
    else
      assert forall r :: r in s[1..] ==> r in s;
      assert forall r :: r in s ==> r == s[0] || r in s[1..];
      if s[0]["id"] in ids then Without(s[1..], ids) else [s[0]] + Without(s[1..], ids)
  }

  /** The attributes of `o` on which the two resources differ. */
  function Differences(o: Resource, c: Resource): map<string, Change>
    requires o.Keys <= c.Keys
  {
    map p | p in o && o[p] != c[p] :: Change(o[p], c[p])
  }

  /** Resources with the same id can be compared: the current one has every attribute of the old one. */
  predicate Comparable(olds: seq<Resource>, cur: seq<Resource>)
    requires Proper(olds) && Proper(cur)
  {
    forall o, c :: o in olds && c in cur && o["id"] == c["id"] ==> o.Keys <= c.Keys
  }

  /** The first resource with the id. */
  function FirstWith(id: string, cur: seq<Resource>): (c: Resource)
    requires Proper(cur) && id in Ids(cur)
    ensures c in cur && c["id"] == id
  {
    if cur[0]["id"] == id then cur[0]
    else
      assert forall r :: r in cur ==> r == cur[0] || r in cur[1..];
      FirstWith(id, cur[1..])
  }

  /** The current resource with the id of `o`; if there are several, the first. */
  function Partner(o: Resource, cur: seq<Resource>): (c: Resource)
    requires Proper(cur) && "id" in o && o["id"] in Ids(cur)
    ensures c in cur && c["id"] == o["id"]
  {
    FirstWith(o["id"], cur)
  }

  /** The old resources that have a current partner with other values, in their order. */
  function ChangedOf(olds: seq<Resource>, cur: seq<Resource>): seq<Changed>
    requires Proper(olds) && Proper(cur) && Comparable(olds, cur)
  {
    if olds == [] then []
    else
      var init, o := olds[..|olds| - 1], olds[|olds| - 1];
      assert o in olds && forall r :: r in init ==> r in olds;
      var rest := ChangedOf(init, cur);
      if o["id"] in Ids(cur) && Differences(o, Partner(o, cur)) != map[]
      then rest + [Changed(o["name"], Differences(o, Partner(o, cur)))] else rest
  }

  function AllNames(s: seq<Resource>): (names: seq<string>)
    requires Proper(s)
    ensures |names| == |s|
  {
    if s == [] then []
    else
      assert s[|s| - 1] in s && forall r :: r in s[..|s| - 1] ==> r in s;
      AllNames(s[..|s| - 1]) + [s[|s| - 1]["name"]]
  }

  function KeptNames(names: seq<string>): seq<string> {
    if names == [] then []
    else
      var rest, name := KeptNames(names[..|names| - 1]), names[|names| - 1];
      if name in IGNORED_NAMES then rest else rest + [name]
  }

  /** The one ignored name is left out, every other one stays, in order. */
  lemma {:induction false} KeptExactly(names: seq<string>)
    ensures forall x :: multiset(KeptNames(names))[x] == if x == "OVF_STORE" then 0 else multiset(names)[x]
    ensures "OVF_STORE" !in names ==> KeptNames(names) == names
  {
    if names != [] {
      var init, name := names[..|names| - 1], names[|names| - 1];
      assert names == init + [name];
      KeptExactly(init);
    }
  }

  lemma {:induction false} KeptAppend(a: seq<string>, b: seq<string>)
    ensures KeptNames(a + b) == KeptNames(a) + KeptNames(b)
    decreases |b|
  {
    if b == [] {
      assert a + b == a;
    } else {
      KeptAppend(a, b[..|b| - 1]);
      assert (a + b)[..|a + b| - 1] == a + b[..|b| - 1];
    }
  }

  lemma {:induction false} NamesAreKept(s: seq<Resource>)
    requires Proper(s)
    ensures Names(s) == Ok(KeptNames(AllNames(s)))
  {
    if s != [] {
      assert s[|s| - 1] in s && forall r :: r in s[..|s| - 1] ==> r in s;
      NamesAreKept(s[..|s| - 1]);
      assert AllNames(s)[..|s| - 1] == AllNames(s[..|s| - 1]);
    }
  }

  // ---------- The diff against its meaning ----------

  lemma {:induction false} WithoutMore(s: seq<Resource>, ids: set<string>, id: string)
    requires Proper(s) && id !in Ids(s)
    ensures Without(s, ids + {id}) == Without(s, ids)
  {
    if s != [] {
      assert s[0] in s && forall r :: r in s[1..] ==> r in s;
      WithoutMore(s[1..], ids, id);
    }
  }

  /** Taking out a resource takes out its id. */
  lemma {:induction false} RemoveTakesOut(s: seq<Resource>, ids: set<string>, i: nat)
    requires Proper(s) && Distinct(s) && i < |s| && s[i]["id"] !in ids
    ensures Remove(Without(s, ids), s[i]) == Ok(Without(s, ids + {s[i]["id"]}))
  {
    var tail := s[1..];
    assert Proper(tail) by {
      assert forall r :: r in tail ==> r in s;
    }
    if i == 0 {
      assert s[0]["id"] !in Ids(tail);
      WithoutMore(tail, ids, s[0]["id"]);
    } else {
      assert Distinct(tail) by {
        assert forall j :: 0 <= j < |tail| ==> tail[j] == s[j + 1];
      }
      assert s[0]["id"] != s[i]["id"];
      RemoveTakesOut(tail, ids, i - 1);
    }
  }

  lemma ProperAppend(s: seq<Resource>, r: Resource)
    requires s != [] && Proper(s + [r])
    ensures (s + [r])[1..] == s[1..] + [r] && (s + [r])[0] == s[0]
    ensures Proper(s[1..] + [r]) && Proper(s[1..]) && Proper(s)
  {
    assert (s + [r])[1..] == s[1..] + [r];
    assert forall x :: x in s[1..] + [r] ==> x in s + [r];
    assert forall x :: x in s ==> x in s + [r];
    assert forall x :: x in s[1..] ==> x in s;
  }

  lemma {:induction false} WithoutAppend(s: seq<Resource>, r: Resource, ids: set<string>)
    requires Proper(s + [r]) && Proper(s)
    ensures Without(s + [r], ids) == if r["id"] in ids then Without(s, ids) else Without(s, ids) + [r]
  {
    if s == [] {
      assert (s + [r])[1..] == [];
    } else {
      ProperAppend(s, r);
      WithoutAppend(s[1..], r, ids);
    }
  }

  lemma {:induction false} WithoutNothing(s: seq<Resource>)
    requires Proper(s)
    ensures Without(s, {}) == s
  {
    if s != [] {
      assert forall x :: x in s[1..] ==> x in s;
      WithoutNothing(s[1..]);
    }
  }

  lemma AllNamesAppend(s: seq<Resource>, r: Resource)
    requires Proper(s + [r]) && Proper(s)
    ensures AllNames(s + [r]) == AllNames(s) + [r["name"]]
  {
    assert (s + [r])[..|s|] == s;
  }

  lemma OneId(s: seq<Resource>, a: Resource, b: Resource)
    requires Proper(s) && Distinct(s) && a in s && b in s && a["id"] == b["id"]
    ensures a == b
  {
    var i :| 0 <= i < |s| && s[i] == a;
    var j :| 0 <= j < |s| && s[j] == b;
  }

  lemma FindsPartner(o: Resource, cur: seq<Resource>)
    requires Proper(cur) && Distinct(cur) && "id" in o
    ensures o["id"] !in Ids(cur) ==> FindId(cur, o["id"], 0) == NoMatch
    ensures o["id"] in Ids(cur) ==> FindId(cur, o["id"], 0).Found? && cur[FindId(cur, o["id"], 0).at] == Partner(o, cur)
  {
    match FindId(cur, o["id"], 0) {
      case NoMatch =>
        assert o["id"] !in Ids(cur);
      case NoId =>
      case Found(i) =>
        assert cur[i] in cur;
        OneId(cur, cur[i], Partner(o, cur));
    }
  }

  lemma ParamsMean(o: Resource, c: Resource)
    ensures ParamsChanged(o, c) == if o.Keys <= c.Keys then Ok(Differences(o, c)) else Err(KeyError)
    ensures o == c ==> Differences(o, c) == map[]
  {
    if o.Keys <= c.Keys {
      var m := map p | p in o && p in c && o[p] != c[p] :: Change(o[p], c[p]);
      assert m == Differences(o, c);
    } else {
      assert exists q :: q in o && q !in c;
    }
  }

  /** What the progress becomes when the partner is `c` and `left` remains. */
  function Matched(p: Progress, o: Resource, c: Resource, left: seq<Resource>): Result<Progress>
    requires "name" in o
  {
    if !(o.Keys <= c.Keys) then Err(KeyError)
    else if Differences(o, c) == map[] then Ok(p.(left := left))
    else Ok(p.(left := left, changed := p.changed + [Changed(o["name"], Differences(o, c))]))
  }

  lemma StepFound(p: Progress, o: Resource, cur: seq<Resource>, i: nat, left: seq<Resource>)
    requires "id" in o && "name" in o && FindId(cur, o["id"], 0) == Found(i) && Remove(p.left, cur[i]) == Ok(left)
    ensures Step(p, o, cur) == Matched(p, o, cur[i], left)
  {
    ParamsMean(o, cur[i]);
  }

  /** What one old resource adds to the removed and to the changed ones. */
  lemma StepMeans(p: Progress, ids: set<string>, o: Resource, cur: seq<Resource>)
    requires Proper(cur) && Distinct(cur) && "id" in o && "name" in o && p.left == Without(cur, ids)
    requires o["id"] in Ids(cur) ==> o["id"] !in ids
    ensures o["id"] !in Ids(cur) ==> Step(p, o, cur) == Ok(p.(removed := p.removed + [o["name"]]))
    ensures o["id"] in Ids(cur) ==> Step(p, o, cur) == Matched(p, o, Partner(o, cur), Without(cur, ids + {o["id"]}))
  {
    FindsPartner(o, cur);
    if o["id"] in Ids(cur) {
      var i := FindId(cur, o["id"], 0).at;
      RemoveTakesOut(cur, ids, i);
      StepFound(p, o, cur, i, Without(cur, ids + {o["id"]}));
    }
  }

  lemma ChangedOfAppend(init: seq<Resource>, o: Resource, cur: seq<Resource>)
    requires Proper(init + [o]) && Proper(init) && Proper(cur) && Comparable(init + [o], cur) && Comparable(init, cur)
    requires o in init + [o]
    ensures ChangedOf(init + [o], cur)
         == if o["id"] in Ids(cur) && Differences(o, Partner(o, cur)) != map[]
            then ChangedOf(init, cur) + [Changed(o["name"], Differences(o, Partner(o, cur)))] else ChangedOf(init, cur)
  {
    assert (init + [o])[..|init|] == init;
  }

  lemma ComparableAppend(init: seq<Resource>, o: Resource, cur: seq<Resource>)
    requires Proper(init + [o]) && Proper(init) && Proper(cur) && Distinct(cur) && o in init + [o]
    ensures Comparable(init + [o], cur) <==> Comparable(init, cur) && (o["id"] in Ids(cur) ==> o.Keys <= Partner(o, cur).Keys)
  {
    assert forall r :: r in init + [o] <==> r in init || r == o;
    forall c | c in cur && c["id"] == o["id"]
      ensures c == Partner(o, cur)
    {
      OneId(cur, c, Partner(o, cur));
    }
  }

  lemma LastOld(olds: seq<Resource>, cur: seq<Resource>)
    requires Proper(olds) && Proper(cur) && MatchedOnce(olds, cur) && olds != []
    ensures var init, o := olds[..|olds| - 1], olds[|olds| - 1];
            && olds == init + [o] && o in olds && Proper(init) && MatchedOnce(init, cur)
            && Ids(olds) == Ids(init) + {o["id"]} && (o["id"] in Ids(cur) ==> o["id"] !in Ids(init))
  {
    var init, o := olds[..|olds| - 1], olds[|olds| - 1];
    assert olds == init + [o];
    assert forall r :: r in init ==> r in olds;
    assert forall r :: r in olds ==> r in init || r == o;
    assert forall i :: 0 <= i < |init| ==> init[i] == olds[i];
  }

  lemma {:induction false} StepsMean(olds: seq<Resource>, cur: seq<Resource>)
    requires Proper(olds) && Proper(cur) && MatchedOnce(olds, cur) && Distinct(cur)
    ensures Steps(olds, cur)
         == if Comparable(olds, cur)
            then Ok(Progress(Without(cur, Ids(olds)), ChangedOf(olds, cur), AllNames(Without(olds, Ids(cur)))))
            else Err(KeyError)
  {
    if olds == [] {
      assert Ids(olds) == {};
      WithoutNothing(cur);
    } else {
      var init, o := olds[..|olds| - 1], olds[|olds| - 1];
      LastOld(olds, cur);
      StepsMean(init, cur);
      ComparableAppend(init, o, cur);
      if Comparable(init, cur) {
        StepMeans(Steps(init, cur).value, Ids(init), o, cur);
        WithoutAppend(init, o, Ids(cur));
        if Comparable(olds, cur) {
          ChangedOfAppend(init, o, cur);
          if o["id"] !in Ids(cur) {
            WithoutMore(cur, Ids(init), o["id"]);
            AllNamesAppend(Without(init, Ids(cur)), o);
          }
        }
      }
    }
  }

  /** When no matched id is repeated the diff fails exactly when some current resource lacks an attribute that the old one with its id has.
    Otherwise the removed ones are the old resources without a partner, the added ones the current resources without a partner
    whose names are not ignored, and the changed ones the partners with differing values. */
  lemma DiffExactly(olds: seq<Resource>, cur: seq<Resource>)
    requires Proper(olds) && Proper(cur) && MatchedOnce(olds, cur) && Distinct(cur)
    ensures ResourcesDiff(olds, cur)
         == if Comparable(olds, cur)
            then Ok(Diff(ChangedOf(olds, cur), KeptNames(AllNames(Without(cur, Ids(olds)))), AllNames(Without(olds, Ids(cur)))))
            else Err(KeyError)
  {
    StepsMean(olds, cur);
    NamesAreKept(Without(cur, Ids(olds)));
  }

  /** `changed` holds exactly the pairs with a difference, and for each exactly the attributes that differ. */
  lemma {:induction false} ChangedExactly(olds: seq<Resource>, cur: seq<Resource>, x: Changed)
    requires Proper(olds) && Proper(cur) && Distinct(cur) && Comparable(olds, cur)
    ensures x in ChangedOf(olds, cur) <==>
      exists o, c :: o in olds && c in cur && o["id"] == c["id"] && x == Changed(o["name"], Differences(o, c)) && x.values != map[]
  {
    if olds != [] {
      var init, o := olds[..|olds| - 1], olds[|olds| - 1];
      assert forall r :: r in init ==> r in olds;
      assert forall r :: r in olds ==> r in init || r == o;
      ChangedExactly(init, cur, x);
      if o["id"] in Ids(cur) {
        forall c | c in cur && c["id"] == o["id"]
          ensures c == Partner(o, cur)
        {
          OneId(cur, c, Partner(o, cur));
        }
      }
    }
  }

  // ---------- Every resource is accounted for ----------

  lemma HeadAndTail(s: seq<Resource>)
    requires Proper(s) && Distinct(s) && s != []
    ensures Proper(s[1..]) && Distinct(s[1..])
    ensures Ids(s) == Ids(s[1..]) + {s[0]["id"]} && s[0]["id"] !in Ids(s[1..])
  {
    var tail := s[1..];
    assert forall r :: r in tail ==> r in s;
    assert forall r :: r in s ==> r == s[0] || r in tail;
    assert forall j :: 0 <= j < |tail| ==> tail[j] == s[j + 1];
  }

  lemma CountOneMore(a: set<string>, ids: set<string>, id: string)
    requires id !in a
    ensures |(a + {id}) * ids| == |a * ids| + (if id in ids then 1 else 0)
  {
    assert (a + {id}) * ids == if id in ids then a * ids + {id} else a * ids;
  }

  lemma {:induction false} WithoutCounts(s: seq<Resource>, ids: set<string>)
    requires Proper(s) && Distinct(s)
    ensures |Without(s, ids)| + |Ids(s) * ids| == |s|
  {
    if s == [] {
      assert Ids(s) * ids == {};
    } else {
      HeadAndTail(s);
      WithoutCounts(s[1..], ids);
      CountOneMore(Ids(s[1..]), ids, s[0]["id"]);
    }
  }

  /** Each old resource is removed or matched, each current one is left over or matched, by the same number of matches. */
  lemma Accounting(olds: seq<Resource>, cur: seq<Resource>)
    requires Proper(olds) && Proper(cur) && Distinct(olds) && Distinct(cur)
    ensures |AllNames(Without(olds, Ids(cur)))| + |Ids(olds) * Ids(cur)| == |olds|
    ensures |AllNames(Without(cur, Ids(olds)))| + |Ids(olds) * Ids(cur)| == |cur|
  {
    WithoutCounts(olds, Ids(cur));
    WithoutCounts(cur, Ids(olds));
    assert Ids(olds) * Ids(cur) == Ids(cur) * Ids(olds);
  }

  lemma {:induction false} NoneWithout(s: seq<Resource>, ids: set<string>)
    requires Proper(s) && Ids(s) <= ids
    ensures Without(s, ids) == []
  {
    if s != [] {
      assert s[0]["id"] in Ids(s) && forall r :: r in s[1..] ==> r in s;
      NoneWithout(s[1..], ids);
    }
  }

  /** A state does not differ from itself. */
  lemma SelfDiffIsEmpty(s: seq<Resource>)
    requires Proper(s) && Distinct(s)
    ensures ResourcesDiff(s, s) == Ok(Diff([], [], []))
  {
    forall o, c | o in s && c in s && o["id"] == c["id"]
      ensures o == c
    {
      OneId(s, o, c);
    }
    DiffExactly(s, s);
    NoneWithout(s, Ids(s));
    if ChangedOf(s, s) != [] {
      ChangedExactly(s, s, ChangedOf(s, s)[0]);
      assert false;
    }
  }

  lemma {:induction false} RemoveAbsent(s: seq<Resource>, x: Resource)
    requires x !in s
    ensures Remove(s, x) == Err(ValueError)
  {
    if s != [] {
      RemoveAbsent(s[1..], x);
    }
  }

  /** A second old resource with a matched id finds its partner taken out already. */
  lemma StepRepeats(p: Progress, ids: set<string>, o: Resource, cur: seq<Resource>)
    requires Proper(cur) && Distinct(cur) && "id" in o && "name" in o && o["id"] in ids && o["id"] in Ids(cur) && p.left == Without(cur, ids)
    ensures Step(p, o, cur) == Err(ValueError)
  {
    FindsPartner(o, cur);
    RemoveAbsent(p.left, Partner(o, cur));
  }

  /** The repeated id is that of the last old resource when the others have none. */
  lemma RepeatedLast(olds: seq<Resource>, cur: seq<Resource>)
    requires Proper(olds) && Proper(cur) && olds != [] && !MatchedOnce(olds, cur)
    requires Proper(olds[..|olds| - 1]) && MatchedOnce(olds[..|olds| - 1], cur)
    ensures olds[|olds| - 1]["id"] in Ids(cur) && olds[|olds| - 1]["id"] in Ids(olds[..|olds| - 1])
  {
    var init := olds[..|olds| - 1];
    var i, j :| 0 <= i < j < |olds| && olds[i]["id"] == olds[j]["id"] && olds[i]["id"] in Ids(cur);
    assert init[i] == olds[i] && init[i] in init;
    assert j == |init|;
  }

  lemma ProperInit(olds: seq<Resource>, cur: seq<Resource>)
    requires Proper(olds) && Proper(cur) && olds != []
    ensures Proper(olds[..|olds| - 1]) && olds[|olds| - 1] in olds
    ensures Comparable(olds, cur) ==> Comparable(olds[..|olds| - 1], cur)
  {
    assert forall r :: r in olds[..|olds| - 1] ==> r in olds;
  }

  lemma {:induction false} RepeatedSteps(olds: seq<Resource>, cur: seq<Resource>)
    requires Proper(olds) && Proper(cur) && Distinct(cur) && !MatchedOnce(olds, cur)
    ensures Steps(olds, cur).Err? && (Comparable(olds, cur) ==> Steps(olds, cur) == Err(ValueError))
  {
    var init, o := olds[..|olds| - 1], olds[|olds| - 1];
    ProperInit(olds, cur);
    if MatchedOnce(init, cur) {
      StepsMean(init, cur);
      RepeatedLast(olds, cur);
      if Comparable(init, cur) {
        StepRepeats(Steps(init, cur).value, Ids(init), o, cur);
      }
    } else {
      RepeatedSteps(init, cur);
    }
  }

  /** With distinct current ids the diff succeeds exactly when no matched id is repeated and partners can be compared; a
    repeated matched id alone is a ValueError. */
  lemma DiffSucceedsExactly(olds: seq<Resource>, cur: seq<Resource>)
    requires Proper(olds) && Proper(cur) && Distinct(cur)
    ensures ResourcesDiff(olds, cur).Ok? <==> MatchedOnce(olds, cur) && Comparable(olds, cur)
    ensures !MatchedOnce(olds, cur) && Comparable(olds, cur) ==> ResourcesDiff(olds, cur) == Err(ValueError)
  {
    if MatchedOnce(olds, cur) {
      DiffExactly(olds, cur);
    } else {
      RepeatedSteps(olds, cur);
    }
  }

  // ---------- Whether it succeeds, when current ids are repeated too ----------

  function CountId(s: seq<Resource>, id: string): nat
    requires Proper(s)
  {
    if s == [] then 0
    else
      assert s[|s| - 1] in s && forall r :: r in s[..|s| - 1] ==> r in s;
      CountId(s[..|s| - 1], id) + (if s[|s| - 1]["id"] == id then 1 else 0)
  }

  predicate IsFirst(c: Resource, cur: seq<Resource>)
    requires Proper(cur)
  {
    c in cur && FirstWith(c["id"], cur) == c
  }

  /** The old resources with an id are no more than the copies, in the current state, of the first current one with that id. */
  predicate EnoughCopies(olds: seq<Resource>, cur: seq<Resource>)
    requires Proper(olds) && Proper(cur)
  {
    forall c :: c in cur && IsFirst(c, cur) ==> CountId(olds, c["id"]) <= multiset(cur)[c]
  }

  /** The first current resource with an id has every attribute of the old ones with that id. */
  predicate PartnersComparable(olds: seq<Resource>, cur: seq<Resource>)
    requires Proper(olds) && Proper(cur)
  {
    forall o :: o in olds && o["id"] in Ids(cur) ==> o.Keys <= Partner(o, cur).Keys
  }

  lemma {:induction false} FirstPlace(id: string, cur: seq<Resource>) returns (i: nat)
    requires Proper(cur) && id in Ids(cur)
    ensures i < |cur| && cur[i] == FirstWith(id, cur) && forall k :: 0 <= k < i ==> cur[k]["id"] != id
    decreases |cur|
  {
    i := 0;
    if cur[0]["id"] != id {
      assert forall r :: r in cur ==> r == cur[0] || r in cur[1..];
      var before := FirstPlace(id, cur[1..]);
      i := before + 1;
      forall k | 0 <= k < i
        ensures cur[k]["id"] != id
      {
        if k > 0 {
          assert cur[k] == cur[1..][k - 1];
        }
      }
    }
  }

  lemma FindsFirst(o: Resource, cur: seq<Resource>)
    requires Proper(cur) && "id" in o
    ensures o["id"] !in Ids(cur) ==> FindId(cur, o["id"], 0) == NoMatch
    ensures o["id"] in Ids(cur) ==> FindId(cur, o["id"], 0).Found? && cur[FindId(cur, o["id"], 0).at] == Partner(o, cur)
  {
    if o["id"] in Ids(cur) {
      var i := FirstPlace(o["id"], cur);
    }
  }

  lemma {:induction false} RemoveCounts(s: seq<Resource>, x: Resource)
    requires x in s
    ensures Remove(s, x).Ok? && multiset(Remove(s, x).value) == multiset(s) - multiset{x}
  {
    assert s == [s[0]] + s[1..];
    if s[0] != x {
      RemoveCounts(s[1..], x);
    }
  }

  /** One old resource: it fails when all copies of its partner have been taken out, or when the partner lacks an attribute. */
  lemma StepCounts(p: Progress, o: Resource, cur: seq<Resource>)
    requires Proper(cur) && "id" in o && "name" in o
    ensures o["id"] !in Ids(cur) ==> Step(p, o, cur).Ok? && Step(p, o, cur).value.left == p.left
    ensures o["id"] in Ids(cur) ==>
      var c, q := Partner(o, cur), Step(p, o, cur);
      && (q.Ok? <==> c in p.left && o.Keys <= c.Keys) && (c !in p.left ==> q == Err(ValueError))
      && (q.Ok? ==> multiset(q.value.left) == multiset(p.left) - multiset{c})
  {
    FindsFirst(o, cur);
    if o["id"] in Ids(cur) {
      var c := Partner(o, cur);
      if c in p.left {
        RemoveCounts(p.left, c);
        StepFound(p, o, cur, FindId(cur, o["id"], 0).at, Remove(p.left, c).value);
      } else {
        RemoveAbsent(p.left, c);
      }
    }
  }

  /** How often `x` has been taken out. */
  function TakenOut(olds: seq<Resource>, cur: seq<Resource>, x: Resource): nat
    requires Proper(olds) && Proper(cur)
  {
    if IsFirst(x, cur) then CountId(olds, x["id"]) else 0
  }

  ghost predicate LeftOver(left: seq<Resource>, olds: seq<Resource>, cur: seq<Resource>)
    requires Proper(olds) && Proper(cur)
  {
    forall x :: multiset(left)[x] == multiset(cur)[x] - TakenOut(olds, cur, x)
  }

  lemma CountLast(olds: seq<Resource>, cur: seq<Resource>, id: string)
    requires Proper(olds) && Proper(cur) && olds != []
    ensures Proper(olds[..|olds| - 1]) && "id" in olds[|olds| - 1] && "name" in olds[|olds| - 1]
    ensures CountId(olds, id) == CountId(olds[..|olds| - 1], id) + (if olds[|olds| - 1]["id"] == id then 1 else 0)
  {
    ProperInit(olds, cur);
  }

  lemma ComparableLast(olds: seq<Resource>, cur: seq<Resource>)
    requires Proper(olds) && Proper(cur) && olds != [] && Proper(olds[..|olds| - 1])
    ensures var init, o := olds[..|olds| - 1], olds[|olds| - 1];
            o in olds && (PartnersComparable(olds, cur)
                          <==> PartnersComparable(init, cur) && (o["id"] in Ids(cur) ==> o.Keys <= Partner(o, cur).Keys))
  {
    var init, o := olds[..|olds| - 1], olds[|olds| - 1];
    assert forall r :: r in olds <==> r in init || r == o;
  }

  /** Only the partner of the last old resource can have too few copies now. */
  lemma CopiesLast(olds: seq<Resource>, cur: seq<Resource>)
    requires Proper(olds) && Proper(cur) && olds != [] && Proper(olds[..|olds| - 1]) && olds[|olds| - 1] in olds
    ensures var init, o := olds[..|olds| - 1], olds[|olds| - 1];
            EnoughCopies(olds, cur)
            <==> EnoughCopies(init, cur) && (o["id"] in Ids(cur) ==> CountId(init, o["id"]) < multiset(cur)[Partner(o, cur)])
  {
    var init, o := olds[..|olds| - 1], olds[|olds| - 1];
    forall c | c in cur
      ensures CountId(olds, c["id"]) == CountId(init, c["id"]) + (if o["id"] == c["id"] then 1 else 0)
    {
      CountLast(olds, cur, c["id"]);
    }
    if o["id"] in Ids(cur) {
      assert IsFirst(Partner(o, cur), cur);
    }
  }

  lemma TakenLast(olds: seq<Resource>, cur: seq<Resource>, x: Resource)
    requires Proper(olds) && Proper(cur) && olds != [] && Proper(olds[..|olds| - 1]) && olds[|olds| - 1] in olds
    ensures var init, o := olds[..|olds| - 1], olds[|olds| - 1];
            TakenOut(olds, cur, x) == TakenOut(init, cur, x) + (if o["id"] in Ids(cur) && x == Partner(o, cur) then 1 else 0)
  {
    if IsFirst(x, cur) {
      CountLast(olds, cur, x["id"]);
    }
  }

  lemma StepLeaves(olds: seq<Resource>, cur: seq<Resource>, p: Progress)
    requires Proper(olds) && Proper(cur) && olds != [] && Proper(olds[..|olds| - 1]) && LeftOver(p.left, olds[..|olds| - 1], cur)
    requires olds[|olds| - 1] in olds && Step(p, olds[|olds| - 1], cur).Ok?
    ensures LeftOver(Step(p, olds[|olds| - 1], cur).value.left, olds, cur)
  {
    var init, o := olds[..|olds| - 1], olds[|olds| - 1];
    StepCounts(p, o, cur);
    var left := Step(p, o, cur).value.left;
    forall x ensures multiset(left)[x] == multiset(cur)[x] - TakenOut(olds, cur, x) {
      TakenLast(olds, cur, x);
    }
  }

  lemma {:induction false} StepsCount(olds: seq<Resource>, cur: seq<Resource>)
    requires Proper(olds) && Proper(cur)
    ensures Steps(olds, cur).Ok? <==> EnoughCopies(olds, cur) && PartnersComparable(olds, cur)
    ensures Steps(olds, cur).Ok? ==> LeftOver(Steps(olds, cur).value.left, olds, cur) == true
    ensures PartnersComparable(olds, cur) && !EnoughCopies(olds, cur) ==> Steps(olds, cur) == Err(ValueError)
    decreases |olds|
  {
    if olds != [] {
      var init, o := olds[..|olds| - 1], olds[|olds| - 1];
      ProperInit(olds, cur);
      StepsCount(init, cur);
      ComparableLast(olds, cur);
      CopiesLast(olds, cur);
      match Steps(init, cur) {
        case Err(_) =>
        case Ok(p) =>
          StepCounts(p, o, cur);
          CopiesLeft(p.left, init, cur, o);
          if Step(p, o, cur).Ok? {
            StepLeaves(olds, cur, p);
          }
      }
    }
  }

  lemma CopiesLeft(left: seq<Resource>, init: seq<Resource>, cur: seq<Resource>, o: Resource)
    requires Proper(init) && Proper(cur) && "id" in o && LeftOver(left, init, cur)
    ensures o["id"] in Ids(cur) ==> (Partner(o, cur) in left <==> CountId(init, o["id"]) < multiset(cur)[Partner(o, cur)])
  {
    if o["id"] in Ids(cur) {
      var c := Partner(o, cur);
      assert IsFirst(c, cur);
      assert multiset(left)[c] == multiset(cur)[c] - TakenOut(init, cur, c);
      assert c in left <==> multiset(left)[c] > 0;
    }
  }

  lemma LeftIsProper(left: seq<Resource>, olds: seq<Resource>, cur: seq<Resource>)
    requires Proper(olds) && Proper(cur) && LeftOver(left, olds, cur)
    ensures Proper(left)
  {
    forall x | x in left
      ensures x in cur
    {
      assert multiset(left)[x] > 0;
      assert multiset(cur)[x] > 0;
    }
  }

  /** For any ids, repeated or not: the diff succeeds exactly when the old resources with an id are no more than the copies of the
    first current one with that id, and that one has all their attributes.  Too few copies alone are a ValueError. */
  lemma DiffSucceedsGenerally(olds: seq<Resource>, cur: seq<Resource>)
    requires Proper(olds) && Proper(cur)
    ensures ResourcesDiff(olds, cur).Ok? <==> EnoughCopies(olds, cur) && PartnersComparable(olds, cur)
    ensures PartnersComparable(olds, cur) && !EnoughCopies(olds, cur) ==> ResourcesDiff(olds, cur) == Err(ValueError)
  {
    StepsCount(olds, cur);
    if Steps(olds, cur).Ok? {
      LeftIsProper(Steps(olds, cur).value.left, olds, cur);
      NamesAreKept(Steps(olds, cur).value.left);
    }
  }

  // ---------- Resources that lack an attribute every resource should have ----------

  /** In the search for `id` a current resource without an id is met before one with that id. */
  ghost predicate MeetsNoId(cur: seq<Resource>, id: string) {
    exists i :: 0 <= i < |cur| && "id" !in cur[i] && forall k :: 0 <= k < i ==> "id" in cur[k] && cur[k]["id"] != id
  }

  /** What makes one old resource a KeyError at once. */
  ghost predicate Unusable(o: Resource, cur: seq<Resource>) { "id" !in o || "name" !in o || MeetsNoId(cur, o["id"]) }

  lemma {:induction false} FindsNoId(cur: seq<Resource>, id: string, n: nat)
    requires n <= |cur| && forall k :: 0 <= k < n ==> "id" in cur[k] && cur[k]["id"] != id
    ensures FindId(cur, id, n).NoId? <==> MeetsNoId(cur, id)
    decreases |cur| - n
  {
    if n < |cur| {
      if "id" in cur[n] && cur[n]["id"] != id {
        FindsNoId(cur, id, n + 1);
      }
    }
  }

  lemma UnusableFails(p: Progress, o: Resource, cur: seq<Resource>)
    requires Unusable(o, cur)
    ensures Step(p, o, cur) == Err(KeyError)
  {
    if "id" in o && "name" in o {
      FindsNoId(cur, o["id"], 0);
    }
  }

  /** An old resource without an id or a name, or one whose search meets a current resource without an id, makes the diff fail; with
    a KeyError if nothing failed before. */
  lemma {:induction false} UnusableOldFails(olds: seq<Resource>, cur: seq<Resource>, i: nat)
    requires i < |olds| && Unusable(olds[i], cur)
    ensures ResourcesDiff(olds, cur).Err?
    ensures Steps(olds[..i], cur).Ok? ==> ResourcesDiff(olds, cur) == Err(KeyError)
    decreases |olds| - i
  {
    assert olds[..i + 1][..i] == olds[..i];
    if Steps(olds[..i], cur).Ok? {
      UnusableFails(Steps(olds[..i], cur).value, olds[i], cur);
    }
    StepsFail(olds, i + 1, cur);
  }

  lemma {:induction false} NamesNeeded(s: seq<Resource>)
    ensures Names(s).Ok? <==> forall r :: r in s ==> "name" in r
    ensures Names(s).Err? ==> Names(s) == Err(KeyError)
  {
    if s != [] {
      NamesNeeded(s[..|s| - 1]);
      assert forall r :: r in s <==> r in s[..|s| - 1] || r == s[|s| - 1];
    }
  }

  /** Of the current resources that are left over each needs a name. */
  lemma LeftOverNeedName(olds: seq<Resource>, cur: seq<Resource>)
    requires Steps(olds, cur).Ok?
    ensures ResourcesDiff(olds, cur).Ok? <==> forall r :: r in Steps(olds, cur).value.left ==> "name" in r
    ensures ResourcesDiff(olds, cur).Err? ==> ResourcesDiff(olds, cur) == Err(KeyError)
  {
    NamesNeeded(Steps(olds, cur).value.left);
  }

  // ---------- The whole state ----------

  type State = map<string, seq<Resource>>

  const RESOURCE_TYPES: seq<string> :=
    ["storagedomains", "hosts", "clusters", "datacenters", "vms", "networks", "macpools", "templates", "disks", "vnicprofiles"]

  /** Ten types, each once. */
  lemma TypesAreDistinct()
    ensures |RESOURCE_TYPES| == 10 && forall i, k :: 0 <= i < k < 10 ==> RESOURCE_TYPES[i] != RESOURCE_TYPES[k]
    ensures forall t :: t in RESOURCE_TYPES <==>
      t in {"clusters", "datacenters", "disks", "hosts", "macpools", "networks", "storagedomains", "templates", "vms", "vnicprofiles"}
  {
  }

  const NO_DIFF: Diff := Diff([], [], [])

  /** The diff of one type; a state without the type is a KeyError. */
  function TypeDiff(olds: State, cur: State, t: string): Result<Diff> {
    if t !in olds || t !in cur then Err(KeyError) else ResourcesDiff(olds[t], cur[t])
  }

  /** `compare_ge_state`: a type is in the result when one of its lists is not empty. An empty list stands for a section that
    the dictionary does not have. */
  method CompareStates(olds: State, cur: State) returns (r: Result<map<string, Diff>>)
    ensures r.Ok? <==> forall t :: t in RESOURCE_TYPES ==> TypeDiff(olds, cur, t).Ok?
    ensures r.Ok? ==> forall t :: t in r.value <==> t in RESOURCE_TYPES && TypeDiff(olds, cur, t) != Ok(NO_DIFF)
    ensures r.Ok? ==> forall t :: t in r.value ==> Ok(r.value[t]) == TypeDiff(olds, cur, t)
    ensures r.Err? ==> exists i :: (0 <= i < |RESOURCE_TYPES| && TypeDiff(olds, cur, RESOURCE_TYPES[i]) == Err(r.error)
                                    && forall j :: 0 <= j < i ==> TypeDiff(olds, cur, RESOURCE_TYPES[j]).Ok?)
  {
    r := CompareTypes(olds, cur, RESOURCE_TYPES);
  }

  /** The same for any list of types. */
  method CompareTypes(olds: State, cur: State, types: seq<string>) returns (r: Result<map<string, Diff>>)
    ensures r.Ok? <==> forall t :: t in types ==> TypeDiff(olds, cur, t).Ok?
    ensures r.Ok? ==> forall t :: t in r.value <==> t in types && TypeDiff(olds, cur, t) != Ok(NO_DIFF)
    ensures r.Ok? ==> forall t :: t in r.value ==> Ok(r.value[t]) == TypeDiff(olds, cur, t)
    ensures r.Err? ==> exists i :: (0 <= i < |types| && TypeDiff(olds, cur, types[i]) == Err(r.error)
                                    && forall j :: 0 <= j < i ==> TypeDiff(olds, cur, types[j]).Ok?)
  {
    var diff: map<string, Diff> := map[];
    for n := 0 to |types|
      invariant forall i :: 0 <= i < n ==> TypeDiff(olds, cur, types[i]).Ok?
      invariant forall t :: t in diff <==> t in types[..n] && TypeDiff(olds, cur, t) != Ok(NO_DIFF)
      invariant forall t :: t in diff ==> Ok(diff[t]) == TypeDiff(olds, cur, t)
    {
      var t := types[n];
      if t !in olds || t !in cur {
        assert TypeDiff(olds, cur, types[n]) == Err(KeyError);
        return Err(KeyError);
      }
      var d := FindResourcesDiff(olds[t], cur[t]);
      if d.Err? {
        assert TypeDiff(olds, cur, types[n]) == Err(d.error);
        return Err(d.error);
      }
      if d.value != NO_DIFF {
        diff := diff[t := d.value];
      }
      assert types[..n + 1] == types[..n] + [t];
    }
    assert types[..|types|] == types;
    r := Ok(diff);
  }
}
