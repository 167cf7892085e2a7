/** The order in which classes are generated: `generate`, `generateFromTree` and the ordering part of
  `generateClasses` in art/generateDS/generateDS.py. */
module ClassOrder {
  import opened Helpers

  /** `mixedError` is what `getMixedExtensionError` reports. */
  datatype Element = Element(name: string, base: Option<string>, explicit: bool, mixedError: bool)

  /** What stays fixed during generation: the names in `ElementDict` and in `SimpleTypeDict`. */
  datatype Dicts = Dicts(elements: set<string>, simple: set<string>)

  /** `already` is AlreadyGenerated, `emitted` is ElementsForSubclasses (the classes written, in order). */
  datatype State = State(already: seq<string>, emitted: seq<Element>, postponed: seq<Element>)

  /** `cleanupName`. */
  function Clean(name: string): string {
    seq(|name|, i requires 0 <= i < |name| => if name[i] in ":-." then '_' else name[i])
  }

  /** `getParentName`, for extension bases. */
  function ParentName(d: Dicts, e: Element): Option<string> {
    if e.base.Some? && e.base.value in d.elements then Some(Clean(e.base.value)) else None
  }

  predicate Available(d: Dicts, s: State, name: string) { name in s.already || name in d.simple }

  /** The element's base, if it has one, has been generated. */
  predicate IsReady(d: Dicts, s: State, e: Element) {
    ParentName(d, e).Some? ==> Available(d, s, ParentName(d, e).value)
  }

  function GenerateOne(d: Dicts, s: State, e: Element): State {
    if !e.explicit then s
    else if !IsReady(d, s, e) then s.(postponed := s.postponed + [e])
    else if e.name in s.already then s
    else s.(already := s.already + [e.name], emitted := if e.mixedError then s.emitted else s.emitted + [e])
  }

  function GenerateAll(d: Dicts, s: State, elements: seq<Element>): State
    decreases |elements|
  {
    if elements == [] then s
    else GenerateOne(d, GenerateAll(d, s, elements[..|elements| - 1]), elements[|elements| - 1])
  }

  /** One round of the loop over the postponed elements: the last one is generated, or moved to the front. */
  function Round(d: Dicts, s: State): State {
    if s.postponed == [] then s
    else
      var n := |s.postponed| - 1;
      var e := s.postponed[n];
      var popped := s.(postponed := s.postponed[..n]);
      if ParentName(d, e).None? then popped
      else if IsReady(d, s, e) then GenerateOne(d, popped, e)
      else popped.(postponed := [e] + popped.postponed)
  }

  function Rounds(d: Dicts, s: State, n: nat): State
    decreases n
  {
    if n == 0 then s else Rounds(d, Round(d, s), n - 1)
  }

  // ---------- What holds at every moment ----------

  ghost predicate Distinct(names: seq<string>) { forall i, k :: 0 <= i < k < |names| ==> names[i] != names[k] }

  ghost predicate EmittedOnce(s: State) { forall i, k :: 0 <= i < k < |s.emitted| ==> s.emitted[i].name != s.emitted[k].name }

  /** Some class written before position `i` has that name. */
  ghost predicate WrittenBefore(s: State, i: nat, name: string)
    requires i <= |s.emitted|
  {
    exists k :: 0 <= k < i && s.emitted[k].name == name
  }

  /** A class is written after its base, unless the base is a simple type or was refused for mixed content. */
  ghost predicate BasesFirst(d: Dicts, s: State, refused: set<string>) {
    forall i :: 0 <= i < |s.emitted| && ParentName(d, s.emitted[i]).Some? ==>
      var p := ParentName(d, s.emitted[i]).value;
      p in d.simple || p in refused || WrittenBefore(s, i, p)
  }

  ghost predicate Inv(d: Dicts, s: State, refused: set<string>) {
    && Distinct(s.already) && EmittedOnce(s)
    && (forall e :: e in s.emitted ==> e.name in s.already && e.explicit && !e.mixedError)
    && (forall name :: name in s.already ==> name in refused || WrittenBefore(s, |s.emitted|, name))
    && BasesFirst(d, s, refused)
    && (forall e :: e in s.postponed ==> e.explicit && e.base.Some? && e.base.value in d.elements)
  }

  ghost function Refused(s: State, e: Element, refused: set<string>): set<string> {
    if e.mixedError then refused + {e.name} else refused
  }

  lemma WrittenStays(s: State, t: State, i: nat, name: string)
    requires s.emitted <= t.emitted && i <= |s.emitted| && WrittenBefore(s, i, name)
    ensures WrittenBefore(t, i, name) && forall k :: i <= k <= |t.emitted| ==> WrittenBefore(t, k, name)
  {
    var k :| 0 <= k < i && s.emitted[k].name == name;
    assert t.emitted[k].name == name;
  }

  lemma GenerateKeepsInv(d: Dicts, s: State, e: Element, refused: set<string>)
    requires Inv(d, s, refused)
    ensures Inv(d, GenerateOne(d, s, e), Refused(s, e, refused))
  {
    var t := GenerateOne(d, s, e);
    if !e.mixedError && t.already != s.already {
      assert t.emitted[|s.emitted|] == e;
      assert WrittenBefore(t, |t.emitted|, e.name);
    }
    forall name | name in t.already ensures name in Refused(s, e, refused) || WrittenBefore(t, |t.emitted|, name) {
      if name in s.already && name !in refused {
        WrittenStays(s, t, |s.emitted|, name);
      }
    }
    forall i | 0 <= i < |t.emitted| && ParentName(d, t.emitted[i]).Some?
      ensures var p := ParentName(d, t.emitted[i]).value;
              p in d.simple || p in Refused(s, e, refused) || WrittenBefore(t, i, p)
    {
      var p := ParentName(d, t.emitted[i]).value;
      if p !in d.simple && p !in refused {
        if i < |s.emitted| {
          assert t.emitted[i] == s.emitted[i];
        } else {
          assert p in s.already;
        }
        WrittenStays(s, t, i, p);
      }
    }
  }

  lemma RoundKeepsInv(d: Dicts, s: State, refused: set<string>)
    requires Inv(d, s, refused)
    ensures Inv(d, Round(d, s), if s.postponed == [] then refused else Refused(s, s.postponed[|s.postponed| - 1], refused))
  {
    if s.postponed != [] {
      var n := |s.postponed| - 1;
      GenerateKeepsInv(d, s.(postponed := s.postponed[..n]), s.postponed[n], refused);
    }
  }

  /** The names that are generated or will be. */
  ghost function Names(s: State): set<string> {
    (set name | name in s.already) + (set e | e in s.postponed :: e.name)
  }

  lemma GenerateNames(d: Dicts, s: State, e: Element)
    ensures Names(GenerateOne(d, s, e)) == Names(s) + if e.explicit then {e.name} else {}
  {
    var t := GenerateOne(d, s, e);
    assert e.explicit ==> e in t.postponed || e.name in t.already;
    forall f | f in s.postponed ensures f in t.postponed {
    }
  }

  /** No class is forgotten on the way. */
  lemma RoundKeepsNames(d: Dicts, s: State, refused: set<string>)
    requires Inv(d, s, refused)
    ensures Names(Round(d, s)) == Names(s)
  {
    if s.postponed != [] {
      var n := |s.postponed| - 1;
      var last := s.postponed[n];
      var popped := s.(postponed := s.postponed[..n]);
      assert s.postponed == s.postponed[..n] + [last];
      assert last in s.postponed;
      assert Names(s) == Names(popped) + {last.name};
      if IsReady(d, s, last) {
        GenerateNames(d, popped, last);
      } else {
        var t := Round(d, s);
        assert t.postponed == [last] + s.postponed[..n];
        assert forall f :: f in t.postponed <==> f in s.postponed;
      }
    }
  }

  ghost function RefusedNames(elements: seq<Element>): set<string> { set e | e in elements && e.mixedError :: e.name }

  ghost function ExplicitNames(elements: seq<Element>): set<string> { set e | e in elements && e.explicit :: e.name }

  lemma OneMoreElement(elements: seq<Element>)
    requires elements != []
    ensures var n := |elements| - 1;
            && RefusedNames(elements) == RefusedNames(elements[..n]) + (if elements[n].mixedError then {elements[n].name} else {})
            && ExplicitNames(elements) == ExplicitNames(elements[..n]) + (if elements[n].explicit then {elements[n].name} else {})
  {
    var init, last := elements[..|elements| - 1], elements[|elements| - 1];
    assert elements == init + [last];
    assert forall e :: e in elements <==> e in init || e == last;
  }

  // Writing `Inv(..) == true` instead of `Inv(..)`, here and below, makes the verifier treat the invariant as one fact and not
  // as many.

  /** The state after the walk over the tree, where the loop starts. */
  lemma {:induction false} WalkKeepsInv(d: Dicts, s: State, elements: seq<Element>, refused: set<string>)
    requires Inv(d, s, refused) == true
    ensures Inv(d, GenerateAll(d, s, elements), refused + RefusedNames(elements)) == true
    ensures Names(GenerateAll(d, s, elements)) == Names(s) + ExplicitNames(elements)
    decreases |elements|
  {
    if elements == [] {
      assert RefusedNames(elements) == {} && ExplicitNames(elements) == {};
      assert refused + {} == refused;
    } else {
      var n := |elements| - 1;
      var init, last := elements[..n], elements[n];
      var t := GenerateAll(d, s, init);
      WalkKeepsInv(d, s, init, refused);
      GenerateKeepsInv(d, t, last, refused + RefusedNames(init));
      GenerateNames(d, t, last);
      OneMoreElement(elements);
      assert Refused(t, last, refused + RefusedNames(init)) == refused + RefusedNames(elements);
    }
  }

  // ---------- The same in terms of the schema's own names ----------

  /** `cleanupName` leaves the name as it is. */
  predicate IsClean(name: string) { ':' !in name && '-' !in name && '.' !in name }

  /** Cleaning replaces the three characters and nothing else. */
  lemma CleanExactly(name: string)
    ensures |Clean(name)| == |name| && IsClean(Clean(name)) && (Clean(name) == name <==> IsClean(name))
    ensures forall i :: 0 <= i < |name| ==> Clean(name)[i] == name[i] || (Clean(name)[i] == '_' && name[i] in [':', '-', '.'])
  {
    if IsClean(name) {
      assert forall i :: 0 <= i < |name| ==> name[i] in name;
    }
    if Clean(name) == name {
      assert forall i :: 0 <= i < |name| ==> Clean(name)[i] == name[i];
    }
  }

  /** A class whose base is defined, under a name that needs no cleaning, comes after the class of that base, unless the base is a
    simple type or was refused for mixed content. */
  ghost predicate BasesWrittenFirst(d: Dicts, emitted: seq<Element>, refused: set<string>) {
    forall i :: 0 <= i < |emitted| && emitted[i].base.Some? && emitted[i].base.value in d.elements && IsClean(emitted[i].base.value) ==>
      var b := emitted[i].base.value;
      b in d.simple || b in refused || exists k :: 0 <= k < i && emitted[k].name == b
  }

  lemma InvMeansBasesFirst(d: Dicts, s: State, refused: set<string>)
    requires Inv(d, s, refused)
    ensures BasesWrittenFirst(d, s.emitted, refused)
  {
    forall i | 0 <= i < |s.emitted| && s.emitted[i].base.Some? && s.emitted[i].base.value in d.elements && IsClean(s.emitted[i].base.value)
      ensures ParentName(d, s.emitted[i]) == Some(s.emitted[i].base.value)
    {
      CleanExactly(s.emitted[i].base.value);
    }
  }

  /** The element has a base that is defined and, under the name `cleaned`, neither a simple type nor generated. */
  ghost predicate MustWait(d: Dicts, s: State, e: Element, cleaned: string) {
    e.base.Some? && e.base.value in d.elements && cleaned !in d.simple && cleaned !in s.already
  }

  /** What one element does, when its base needs no cleaning: it waits exactly when its base is defined, not simple and not
    generated; otherwise its name is recorded, and its class written unless it was there before or is refused. */
  lemma GenerateExactly(d: Dicts, s: State, e: Element)
    requires e.base.Some? ==> IsClean(e.base.value)
    ensures var t := GenerateOne(d, s, e);
            var waits := e.explicit && MustWait(d, s, e, if e.base.Some? then e.base.value else "");
            var isNew := e.explicit && !waits && e.name !in s.already;
            && t.postponed == s.postponed + (if waits then [e] else [])
            && t.already == s.already + (if isNew then [e.name] else [])
            && t.emitted == s.emitted + (if isNew && !e.mixedError then [e] else [])
  {
    if e.base.Some? {
      CleanExactly(e.base.value);
    }
  }

  /** Everything written or postponed comes from `given`. */
  ghost predicate Only(s: State, given: set<Element>) {
    (forall e :: e in s.emitted ==> e in given) && (forall e :: e in s.postponed ==> e in given)
  }

  lemma {:induction false} WalkOnly(d: Dicts, s: State, elements: seq<Element>, given: set<Element>)
    requires Only(s, given) && forall e :: e in elements ==> e in given
    ensures Only(GenerateAll(d, s, elements), given)
    decreases |elements|
  {
    if elements != [] {
      WalkOnly(d, s, elements[..|elements| - 1], given);
    }
  }

  lemma {:induction false} RoundsOnly(d: Dicts, s: State, n: nat, given: set<Element>)
    requires Only(s, given)
    ensures Only(Rounds(d, s, n), given)
    decreases n
  {
    if n > 0 {
      RoundsOnly(d, Round(d, s), n - 1, given);
    }
  }

  // ---------- In which order the loop takes the postponed elements ----------

  lemma TurnOne(d: Dicts, s: State, front: seq<Element>, back: seq<Element>, e: Element)
    requires s.postponed == front + (back + [e]) && !IsReady(d, s, e)
    ensures Round(d, s) == s.(postponed := ([e] + front) + back)
  {
    var n := |s.postponed| - 1;
    assert s.postponed[n] == e && s.postponed[..n] == front + back;
    assert [e] + (front + back) == ([e] + front) + back;
  }

  /** While nobody can be generated the list turns: the last element goes to the front. */
  lemma {:induction false} NobodyReadyTurns(d: Dicts, s: State, n: nat)
    requires n <= |s.postponed| && forall e :: e in s.postponed ==> !IsReady(d, s, e)
    ensures var m := |s.postponed| - n; Rounds(d, s, n) == s.(postponed := s.postponed[m..] + s.postponed[..m])
    decreases n
  {
    var all := s.postponed;
    if n == 0 {
      assert all[|all|..] + all[..|all|] == all;
    } else {
      var m := |all| - n;
      NobodyReadyTurns(d, s, n - 1);
      RoundsOneMore(d, s, n - 1);
      assert all[..m + 1] == all[..m] + [all[m]] && [all[m]] + all[m + 1..] == all[m..] && all[m] in all;
      TurnOne(d, s.(postponed := all[m + 1..] + all[..m + 1]), all[m + 1..], all[..m], all[m]);
    }
  }

  function Reversed(elements: seq<Element>): (r: seq<Element>)
    ensures |r| == |elements| && forall i :: 0 <= i < |r| ==> r[i] == elements[|elements| - 1 - i]
  {
    seq(|elements|, i requires 0 <= i < |elements| => elements[|elements| - 1 - i])
  }

  /** All postponed elements can be generated at once, under different new names. */
  ghost predicate AllCanGo(d: Dicts, s: State) {
    && (forall e :: e in s.postponed ==> e.explicit && !e.mixedError && ParentName(d, e).Some? && IsReady(d, s, e) && e.name !in s.already)
    && (forall i, k :: 0 <= i < k < |s.postponed| ==> s.postponed[i].name != s.postponed[k].name)
  }

  lemma LastGoes(d: Dicts, s: State) returns (t: State)
    requires AllCanGo(d, s) && s.postponed != []
    ensures t == Round(d, s) && AllCanGo(d, t) == true
    ensures t.postponed == s.postponed[..|s.postponed| - 1] && t.emitted == s.emitted + [s.postponed[|s.postponed| - 1]]
  {
    var n := |s.postponed| - 1;
    var e := s.postponed[n];
    t := Round(d, s);
    assert e in s.postponed;
    forall f | f in t.postponed
      ensures f in s.postponed && f.name != e.name
    {
      var i :| 0 <= i < n && s.postponed[..n][i] == f;
      assert s.postponed[i] == f;
    }
  }

  /** They are written from the last to the first. */
  lemma {:induction false} AllReadyReversed(d: Dicts, s: State)
    requires AllCanGo(d, s) == true
    ensures Rounds(d, s, |s.postponed|).emitted == s.emitted + Reversed(s.postponed)
    decreases |s.postponed|
  {
    if s.postponed == [] {
      assert s.emitted + Reversed([]) == s.emitted;
    } else {
      var n := |s.postponed| - 1;
      var t := LastGoes(d, s);
      AllReadyReversed(d, t);
      assert Reversed(s.postponed) == [s.postponed[n]] + Reversed(s.postponed[..n]);
    }
  }

  lemma {:induction false} RoundsOneMore(d: Dicts, s: State, n: nat)
    ensures Rounds(d, s, n + 1) == Round(d, Rounds(d, s, n))
    decreases n
  {
    if n > 0 {
      RoundsOneMore(d, Round(d, s), n - 1);
    }
  }

  // ---------- When the loop over the postponed elements ends ----------

  /** A set of postponed elements that wait for each other, or for a name that nobody generates. */
  ghost predicate Blocked(d: Dicts, s: State, b: set<Element>) {
    b != {} && forall e :: e in b ==> WaitsIn(d, s, b, e)
  }

  ghost predicate WaitsIn(d: Dicts, s: State, b: set<Element>, e: Element) {
    e in s.postponed && !IsReady(d, s, e) &&
    forall f :: f in s.postponed && f.name == ParentName(d, e).value ==> f in b
  }

  lemma BlockedStaysBlocked(d: Dicts, s: State, b: set<Element>)
    requires Blocked(d, s, b)
    ensures Blocked(d, Round(d, s), b)
  {
    var t := Round(d, s);
    var n := |s.postponed| - 1;
    if s.postponed != [] {
      var last := s.postponed[n];
      assert s.postponed == s.postponed[..n] + [last];
      forall e | e in b ensures WaitsIn(d, t, b, e) {
        assert WaitsIn(d, s, b, e);
        if last.name == ParentName(d, e).value {
          assert WaitsIn(d, s, b, last);
        }
      }
    }
  }

  lemma {:induction false} BlockedForever(d: Dicts, s: State, b: set<Element>, n: nat)
    requires Blocked(d, s, b)
    ensures Rounds(d, s, n).postponed != []
    decreases n
  {
    if n == 0 {
      var e :| e in b;
      assert WaitsIn(d, s, b, e);
    } else {
      BlockedStaysBlocked(d, s, b);
      BlockedForever(d, Round(d, s), b, n - 1);
    }
  }

  ghost predicate Unblocked(d: Dicts, s: State) {
    forall b: set<Element> :: !Blocked(d, s, b)
  }

  ghost function Members(s: State): set<Element> { set e | e in s.postponed }

  /** Without a blocked set some postponed element can be generated now. */
  lemma SomeReady(d: Dicts, s: State) returns (i: nat)
    requires Unblocked(d, s) && s.postponed != []
    ensures i < |s.postponed| && IsReady(d, s, s.postponed[i])
    ensures forall k :: i < k < |s.postponed| ==> !IsReady(d, s, s.postponed[k])
  {
    assert s.postponed[0] in Members(s) && !Blocked(d, s, Members(s));
    var e :| e in Members(s) && !WaitsIn(d, s, Members(s), e);
    assert e in s.postponed && IsReady(d, s, e);
    i := |s.postponed| - 1;
    while !IsReady(d, s, s.postponed[i])
      invariant i < |s.postponed|
      invariant forall k :: i < k < |s.postponed| ==> !IsReady(d, s, s.postponed[k])
      decreases i
    {
      assert i > 0;
      i := i - 1;
    }
  }

  /** Generating an element can block nobody. */
  lemma StaysUnblocked(d: Dicts, s: State, refused: set<string>)
    requires Inv(d, s, refused) && Unblocked(d, s)
    ensures Unblocked(d, Round(d, s))
  {
    var t := Round(d, s);
    if s.postponed != [] {
      var n := |s.postponed| - 1;
      var last := s.postponed[n];
      assert s.postponed == s.postponed[..n] + [last];
      assert last in s.postponed;
      forall b: set<Element> ensures !Blocked(d, t, b) {
        if Blocked(d, t, b) {
          forall e | e in b ensures WaitsIn(d, s, b, e) {
            assert WaitsIn(d, t, b, e);
            if IsReady(d, s, last) {
              assert last.name in t.already;
            }
          }
          assert Blocked(d, s, b);
        }
      }
    }
  }

  /** Distance of the last ready element from the end of the list. */
  ghost function Distance(d: Dicts, s: State): (k: nat)
    ensures k <= |s.postponed|
    decreases |s.postponed|
  {
    if s.postponed == [] || IsReady(d, s, s.postponed[|s.postponed| - 1]) then 0
    else 1 + Distance(d, s.(postponed := s.postponed[..|s.postponed| - 1]))
  }

  lemma {:induction false} DistanceAfterRotation(d: Dicts, s: State, e: Element)
    requires exists i :: 0 <= i < |s.postponed| && IsReady(d, s, s.postponed[i])
    ensures Distance(d, s.(postponed := [e] + s.postponed)) == Distance(d, s)
    decreases |s.postponed|
  {
    var n := |s.postponed| - 1;
    if !IsReady(d, s, s.postponed[n]) {
      var i :| 0 <= i < |s.postponed| && IsReady(d, s, s.postponed[i]);
      var init := s.(postponed := s.postponed[..n]);
      assert IsReady(d, init, init.postponed[i]);
      DistanceAfterRotation(d, init, e);
      assert ([e] + s.postponed)[..n + 1] == [e] + s.postponed[..n];
    }
  }

  /** A round shortens the list or brings a ready element closer to its end. */
  lemma RoundProgress(d: Dicts, s: State, refused: set<string>)
    requires Inv(d, s, refused) && Unblocked(d, s) && s.postponed != []
    ensures var t := Round(d, s);
            |t.postponed| < |s.postponed| || (|t.postponed| == |s.postponed| && Distance(d, t) < Distance(d, s))
  {
    var n := |s.postponed| - 1;
    var last := s.postponed[n];
    if !IsReady(d, s, last) {
      var i := SomeReady(d, s);
      var popped := s.(postponed := s.postponed[..n]);
      assert IsReady(d, popped, popped.postponed[i]);
      DistanceAfterRotation(d, popped, last);
    }
  }

  ghost predicate CanFinish(d: Dicts, s: State, refused: set<string>) { Inv(d, s, refused) && Unblocked(d, s) }

  lemma RoundCanFinish(d: Dicts, s: State, refused: set<string>) returns (t: State, refused': set<string>)
    requires CanFinish(d, s, refused) == true && s.postponed != []
    ensures t == Round(d, s) && CanFinish(d, t, refused') == true && Names(t) == Names(s)
    ensures refused' == Refused(s, s.postponed[|s.postponed| - 1], refused)
    ensures |t.postponed| < |s.postponed| || (|t.postponed| == |s.postponed| && Distance(d, t) < Distance(d, s))
    ensures forall e :: e in t.postponed ==> e in s.postponed
  {
    t, refused' := Round(d, s), Refused(s, s.postponed[|s.postponed| - 1], refused);
    assert s.postponed == s.postponed[..|s.postponed| - 1] + [s.postponed[|s.postponed| - 1]];
    RoundProgress(d, s, refused);
    RoundKeepsInv(d, s, refused);
    RoundKeepsNames(d, s, refused);
    StaysUnblocked(d, s, refused);
  }

  ghost predicate EndsAfter(d: Dicts, s: State, n: nat) { Rounds(d, s, n).postponed == [] }

  lemma EndsOneLater(d: Dicts, s: State, t: State, n: nat)
    requires t == Round(d, s) && EndsAfter(d, t, n)
    ensures EndsAfter(d, s, n + 1)
  {
  }

  lemma {:induction false} UnblockedEnds(d: Dicts, s: State, refused: set<string>) returns (n: nat)
    requires CanFinish(d, s, refused) == true
    ensures EndsAfter(d, s, n) == true
    decreases |s.postponed|, Distance(d, s)
  {
    if s.postponed == [] {
      n := 0;
    } else {
      var t, refused' := RoundCanFinish(d, s, refused);
      n := UnblockedEnds(d, t, refused');
      EndsOneLater(d, s, t, n);
      n := n + 1;
    }
  }

  /** The loop ends exactly when no set of postponed elements is blocked. */
  lemma LoopEndsExactly(d: Dicts, s: State, refused: set<string>)
    requires Inv(d, s, refused)
    ensures (exists n: nat :: EndsAfter(d, s, n)) <==> Unblocked(d, s)
  {
    if Unblocked(d, s) {
      var n := UnblockedEnds(d, s, refused);
      assert EndsAfter(d, s, n);
    } else {
      var b :| Blocked(d, s, b);
      forall n: nat ensures !EndsAfter(d, s, n) {
        BlockedForever(d, s, b, n);
      }
    }
  }

  // ---------- Two conditions on the schema ----------

  /** Acyclic bases, each generated or itself postponed under that very name: the loop ends. */
  lemma AcyclicIsUnblocked(d: Dicts, s: State, rank: Element -> nat)
    requires forall e :: e in s.postponed && !IsReady(d, s, e) ==>
               exists f :: f in s.postponed && f.name == ParentName(d, e).value && rank(f) < rank(e)
    ensures Unblocked(d, s)
  {
    forall b: set<Element> ensures !Blocked(d, s, b) {
      if b != {} {
        var e := Lowest(b, rank);
        LowestDoesNotWait(d, s, b, e, rank);
      }
    }
  }

  lemma LowestDoesNotWait(d: Dicts, s: State, b: set<Element>, e: Element, rank: Element -> nat)
    requires e in b && forall f :: f in b ==> rank(e) <= rank(f)
    requires forall e :: e in s.postponed && !IsReady(d, s, e) ==>
               exists f :: f in s.postponed && f.name == ParentName(d, e).value && rank(f) < rank(e)
    ensures !WaitsIn(d, s, b, e)
  {
  }

  lemma {:induction false} Lowest(b: set<Element>, rank: Element -> nat) returns (e: Element)
    requires b != {}
    ensures e in b && forall f :: f in b ==> rank(e) <= rank(f)
    decreases b
  {
    e :| e in b;
    if b != {e} {
      var f := Lowest(b - {e}, rank);
      if rank(f) < rank(e) {
        e := f;
      }
    }
  }

  /** A base whose name needs cleaning up is looked for under the cleaned name but was recorded under its
      own: unless another element happens to have the cleaned name, the loop never ends. */
  lemma UncleanBaseHangs(d: Dicts, s: State, e: Element, refused: set<string>, n: nat)
    requires Inv(d, s, refused) && e in s.postponed && e.base.Some? && e.base.value in d.elements
    requires e.base.value in s.already && Clean(e.base.value) != e.base.value
    requires !Available(d, s, Clean(e.base.value))
    requires forall f :: f in s.postponed ==> f.name != Clean(e.base.value)
    ensures Rounds(d, s, n).postponed != []
  {
    assert WaitsIn(d, s, {e}, e);
    BlockedForever(d, s, {e}, n);
  }

  const DASHED := Element("a-b", None, true, false)
  const EXTENDING := Element("c", Some("a-b"), true, false)
  const TWO_CLASSES := Dicts({"a-b", "c"}, {})

  /** Such a schema: "c" extends "a-b". The walk generates "a-b" and postpones "c", which stays postponed for ever. */
  lemma UncleanSchemaHangs(n: nat)
    ensures var s := GenerateAll(TWO_CLASSES, State([], [], []), [DASHED, EXTENDING]);
            s == State(["a-b"], [DASHED], [EXTENDING]) && Rounds(TWO_CLASSES, s, n).postponed != []
  {
    var d, s0, both := TWO_CLASSES, State([], [], []), [DASHED, EXTENDING];
    var s := State(["a-b"], [DASHED], [EXTENDING]);
    assert both[..1] == [DASHED] && [DASHED][..0] == [];
    assert Clean("a-b") == "a_b" && "a_b" != "a-b";
    assert GenerateAll(d, s0, [DASHED]) == State(["a-b"], [DASHED], []);
    assert GenerateAll(d, s0, both) == s;
    WalkKeepsInv(d, s0, both, {});
    UncleanBaseHangs(d, s, EXTENDING, {} + RefusedNames(both), n);
  }

  // ---------- The generator ----------

  lemma AllWritten(d: Dicts, s: State, refused: set<string>, elements: seq<Element>)
    requires Inv(d, s, refused) && ExplicitNames(elements) <= (set name | name in s.already)
    ensures forall e :: e in elements && e.explicit ==> e.name in refused || exists f :: f in s.emitted && f.name == e.name
  {
    forall e | e in elements && e.explicit && e.name !in refused
      ensures exists f :: f in s.emitted && f.name == e.name
    {
      assert e.name in ExplicitNames(elements);
      assert WrittenBefore(s, |s.emitted|, e.name);
      var k :| 0 <= k < |s.emitted| && s.emitted[k].name == e.name;
      assert s.emitted[k] in s.emitted;
    }
  }

  class Generator {
    const d: Dicts
    var already: seq<string>
    var emitted: seq<Element>
    var postponed: seq<Element>

    constructor (d: Dicts)
      ensures this.d == d && Now() == State([], [], []) && Inv(d, Now(), {})
    {
      this.d, already, emitted, postponed := d, [], [], [];
    }

    function Now(): State
      reads this
    {
      State(already, emitted, postponed)
    }

    method GenerateClasses(e: Element)
      modifies this
      ensures Now() == GenerateOne(d, old(Now()), e)
    {
      var parentName := ParentName(d, e);
      if !e.explicit {
        return;
      }
      if parentName.Some? {
        if parentName.value !in already && parentName.value !in d.simple {
          postponed := postponed + [e];
          return;
        }
      }
      if e.name in already {
        return;
      }
      already := already + [e.name];
      if e.mixedError {
        return;
      }
      emitted := emitted + [e];
    }

    /** The walk of `generateFromTree`, for the elements in the order in which it meets them. */
    method GenerateFromTree(elements: seq<Element>)
      modifies this
      ensures Now() == GenerateAll(d, old(Now()), elements)
      ensures forall refused :: Inv(d, old(Now()), refused) ==> BasesWrittenFirst(d, emitted, refused + RefusedNames(elements))
    {
      for i := 0 to |elements|
        invariant Now() == GenerateAll(d, old(Now()), elements[..i])
      {
        GenerateClasses(elements[i]);
        assert elements[..i + 1][..i] == elements[..i];
      }
      assert elements[..|elements|] == elements;
      forall refused | Inv(d, old(Now()), refused) == true
        ensures BasesWrittenFirst(d, emitted, refused + RefusedNames(elements))
      {
        WalkKeepsInv(d, old(Now()), elements, refused);
        InvMeansBasesFirst(d, Now(), refused + RefusedNames(elements));
      }
    }

    /** The body of the loop over the postponed elements. */
    method DrainOne()
      requires postponed != []
      modifies this
      ensures Now() == Round(d, old(Now()))
    {
      var e := postponed[|postponed| - 1];
      postponed := postponed[..|postponed| - 1];
      var parentName := ParentName(d, e);
      if parentName.Some? {
        if parentName.value in already || parentName.value in d.simple {
          GenerateClasses(e);
        } else {
          postponed := [e] + postponed;
        }
      }
    }

    /** The loop over the postponed elements. */
    method Drain(ghost refused: set<string>) returns (ghost n: nat, ghost refused': set<string>)
      requires CanFinish(d, Now(), refused)
      modifies this
      ensures Now() == Rounds(d, old(Now()), n) && postponed == []
      ensures Inv(d, Now(), refused') && (set name | name in already) == old(Names(Now()))
      ensures refused <= refused' <= refused + RefusedNames(old(postponed)) && BasesWrittenFirst(d, emitted, refused')
    {
      n, refused' := 0, refused;
      while |postponed| > 0
        invariant CanFinish(d, Now(), refused') == true
        invariant Names(Now()) == old(Names(Now()))
        invariant Now() == Rounds(d, old(Now()), n)
        invariant forall e :: e in postponed ==> e in old(postponed)
        invariant refused <= refused' <= refused + RefusedNames(old(postponed))
        decreases |postponed|, Distance(d, Now())
      {
        ghost var last := postponed[|postponed| - 1];
        ghost var next;
        next, refused' := RoundCanFinish(d, Now(), refused');
        RoundsOneMore(d, old(Now()), n);
        n := n + 1;
        DrainOne();
      }
      InvMeansBasesFirst(d, Now(), refused');
    }

    /** `generate`: the walk, and then the loop, when it ends.  Every explicit element's name is written once or refused, what is
      written is one of the given elements, and bases come first. */
    method Generate(elements: seq<Element>)
      requires Now() == State([], [], []) && Unblocked(d, GenerateAll(d, Now(), elements))
      modifies this
      ensures postponed == [] && BasesWrittenFirst(d, emitted, RefusedNames(elements))
      ensures forall e :: e in emitted ==> e in elements && e.explicit && !e.mixedError
      ensures forall i, k :: 0 <= i < k < |emitted| ==> emitted[i].name != emitted[k].name
      ensures forall e :: e in elements && e.explicit ==> e.name in RefusedNames(elements) || exists f :: f in emitted && f.name == e.name
    {
      ghost var given := set e | e in elements;
      WalkKeepsInv(d, Now(), elements, {});
      WalkOnly(d, Now(), elements, given);
      assert {} + RefusedNames(elements) == RefusedNames(elements) && Names(Now()) == {};
      GenerateFromTree(elements);
      ghost var s := Now();
      ghost var n, refused;
      n, refused := Drain(RefusedNames(elements));
      RoundsOnly(d, s, n, given);
      assert RefusedNames(s.postponed) <= RefusedNames(elements);
      AllWritten(d, Now(), refused, elements);
    }
  }
}
