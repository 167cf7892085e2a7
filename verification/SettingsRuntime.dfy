/** The settings of a run: the defaults with the command-line definitions `section.var=value` merged over them
  (art/test_handler/settings.py, `set_cmd_line_params_in_dict` and the merges of `create_runtime_config`). */
module SettingsRuntime {
  import opened Helpers
  import opened SettingsMerge
  import opened SettingsDicts

  datatype Param = Param(section: string, variable: string, value: Value)

  // ---------- Texts ----------

  /** `s.split(sep)`: the parts between the separators; one empty part for the empty text. */
  function Split(s: string, sep: char): (parts: seq<string>)
    ensures |parts| > 0
  {
    if s == "" then [""]
    else
      var rest := Split(s[1..], sep);
      if s[0] == sep then [""] + rest else [[s[0]] + rest[0]] + rest[1..]
  }

  function Join(parts: seq<string>, sep: char): string
    requires |parts| > 0
  {
    if |parts| == 1 then parts[0] else parts[0] + [sep] + Join(parts[1..], sep)
  }

  lemma {:induction false} SplitInverts(s: string, sep: char)
    ensures Join(Split(s, sep), sep) == s
    ensures forall part :: part in Split(s, sep) ==> sep !in part
  {
    if s != "" {
      var rest := Split(s[1..], sep);
      SplitInverts(s[1..], sep);
      assert s == [s[0]] + s[1..];
      if s[0] == sep {
        assert ([""] + rest)[1..] == rest;
      } else {
        assert ([[s[0]] + rest[0]] + rest[1..])[1..] == rest[1..];
      }
    }
  }

  lemma {:induction false} SplitOfJoin(x: string, y: string, sep: char)
    requires sep !in x && sep !in y
    ensures Split(x, sep) == [x] && Split(x + [sep] + y, sep) == [x, y]
  {
    var s := x + [sep] + y;
    if x == "" {
      assert s[1..] == y;
      SplitAbsent(y, sep);
    } else {
      SplitOfJoin(x[1..], y, sep);
      assert s[1..] == x[1..] + [sep] + y;
      assert x == [x[0]] + x[1..];
    }
  }

  lemma {:induction false} SplitAbsent(s: string, sep: char)
    requires sep !in s
    ensures Split(s, sep) == [s]
  {
    if s != "" {
      SplitAbsent(s[1..], sep);
      assert s == [s[0]] + s[1..];
    }
  }

  /** The place of the first `c`. */
  function IndexOf(s: string, c: char): (i: nat)
    ensures i <= |s| && c !in s[..i] && (i < |s| ==> s[i] == c) && (i < |s| <==> c in s)
  {
    if s == "" || s[0] == c then 0
    else
      var i := IndexOf(s[1..], c) + 1;
      assert s[..i] == [s[0]] + s[1..][..i - 1] && s == [s[0]] + s[1..];
      i
  }

  lemma {:induction false} IndexIs(s: string, c: char, n: nat)
    requires n < |s| && s[n] == c && c !in s[..n]
    ensures IndexOf(s, c) == n
  {
    if n > 0 {
      assert s[0] in s[..n] && s[1..][..n - 1] == s[..n][1..];
      IndexIs(s[1..], c, n - 1);
    }
  }

  /** Variables that hold comma-separated lists. */
  function ValueOf(variable: string, text: string): Value {
    if variable == "engines" || variable == "storages" then Items(Split(text, ',')) else Text(text)
  }

  /** One definition; none is the exception for a text without `=` or a key that is not of the form `section.var`. */
  function ParseParam(s: string): Option<Param> {
    var i := IndexOf(s, '=');
    if i == |s| then None
    else
      var parts := Split(s[..i], '.');
      if |parts| != 2 then None else Some(Param(parts[0], parts[1], ValueOf(parts[1], s[i + 1..])))
  }

  lemma JoinTwo(parts: seq<string>, sep: char)
    requires |parts| == 2
    ensures Join(parts, sep) == parts[0] + [sep] + parts[1]
  {
  }

  /** What a definition means: of "engines" and "storages" the text is a list with commas between its items, of any other variable
    it is the value itself. */
  ghost predicate Means(variable: string, text: string, value: Value) {
    if variable == "engines" || variable == "storages"
    then value.Items? && value.items != [] && Join(value.items, ',') == text && forall item :: item in value.items ==> ',' !in item
    else value == Text(text)
  }

  lemma {:induction false} OneSplit(a: seq<string>, b: seq<string>, sep: char)
    requires a != [] && b != [] && Join(a, sep) == Join(b, sep)
    requires (forall x :: x in a ==> sep !in x) && (forall x :: x in b ==> sep !in x)
    ensures a == b
    decreases |a|
  {
    FirstPart(a, sep);
    FirstPart(b, sep);
    assert a == [a[0]] + a[1..] && b == [b[0]] + b[1..];
    if |a| > 1 && |b| > 1 {
      assert Join(a, sep)[|a[0]| + 1..] == Join(a[1..], sep) && Join(b, sep)[|b[0]| + 1..] == Join(b[1..], sep);
      OneSplit(a[1..], b[1..], sep);
    }
  }

  /** The first part of a joined text is what stands before the first separator. */
  lemma FirstPart(a: seq<string>, sep: char)
    requires a != [] && forall x :: x in a ==> sep !in x
    ensures var s := Join(a, sep);
            a[0] == s[..IndexOf(s, sep)] && (|a| == 1 <==> IndexOf(s, sep) == |s|)
  {
    var s := Join(a, sep);
    if |a| > 1 {
      assert s[..|a[0]|] == a[0] && s[|a[0]|] == sep;
      IndexIs(s, sep, |a[0]|);
    } else {
      assert IndexOf(s, sep) == |s|;
    }
  }

  /** A definition means one value, and that is the one it is given. */
  lemma MeansExactly(variable: string, text: string, value: Value)
    ensures Means(variable, text, value) <==> value == ValueOf(variable, text)
  {
    SplitInverts(text, ',');
    if (variable == "engines" || variable == "storages") && Means(variable, text, value) {
      OneSplit(value.items, Split(text, ','), ',');
    }
  }

  /** Exactly the texts `section.var=value` are read, where neither name holds a dot or an equals sign. */
  lemma ParseParamReads(section: string, variable: string, text: string)
    requires '.' !in section && '.' !in variable && '=' !in section && '=' !in variable
    ensures var p := ParseParam(section + "." + variable + "=" + text);
            p.Some? && p.value.section == section && p.value.variable == variable && Means(variable, text, p.value.value)
  {
    MeansExactly(variable, text, ValueOf(variable, text));
    var key := section + "." + variable;
    var s := key + "=" + text;
    assert '=' !in key;
    assert s[..|key|] == key && s[|key| + 1..] == text;
    IndexIs(s, '=', |key|);
    SplitOfJoin(section, variable, '.');
  }

  lemma ParseParamOnlyReads(s: string)
    requires ParseParam(s).Some?
    ensures var p := ParseParam(s).value;
            && '.' !in p.section && '.' !in p.variable && '=' !in p.section && '=' !in p.variable
            && exists text :: s == p.section + "." + p.variable + "=" + text && Means(p.variable, text, p.value)
  {
    var i, p := IndexOf(s, '='), ParseParam(s).value;
    var parts := Split(s[..i], '.');
    SplitInverts(s[..i], '.');
    JoinTwo(parts, '.');
    assert s == s[..i] + "=" + s[i + 1..];
    assert s[..i] == p.section + "." + p.variable;
    assert forall c :: c in p.section ==> c in s[..i];
    assert forall c :: c in p.variable ==> c in s[..i];
    assert s == p.section + "." + p.variable + "=" + s[i + 1..];
    MeansExactly(p.variable, s[i + 1..], p.value);
  }

  // ---------- The command line ----------

  /** `{section: {var: value}}`. */
  function Single(p: Param): Tree { Node(map[p.section := Node(map[p.variable := Leaf(p.value)])]) }

  /** Sections of variables, and nothing deeper. */
  predicate TwoLevel(t: Tree) {
    t.Node? && forall k :: k in t.entries ==> t.entries[k].Node? && forall j :: j in t.entries[k].entries ==> t.entries[k].entries[j].Leaf?
  }

  /** Merging one definition sets one variable of one section. */
  lemma MergeSingle(t: Tree, p: Param)
    requires TwoLevel(t)
    ensures Fits(t, Single(p)) && TwoLevel(Merge(t, Single(p)))
    ensures Merge(t, Single(p)) == Node(t.entries[p.section := Node(At(t, p.section).entries[p.variable := Leaf(p.value)])])
  {
    var sub, section := Node(map[p.variable := Leaf(p.value)]), At(t, p.section);
    assert Fits(section, sub);
    assert Merge(section, sub).entries == section.entries[p.variable := Leaf(p.value)];
    var m := Merge(t, Single(p));
    assert m.entries[p.section] == Merge(section, sub);
    assert m.entries == t.entries[p.section := Merge(section, sub)];
  }

  /** `set_cmd_line_params_in_dict`. */
  function CmdLine(params: seq<string>): (r: Option<Tree>)
    ensures r.Some? ==> TwoLevel(r.value)
    ensures r.Some? <==> forall i :: 0 <= i < |params| ==> ParseParam(params[i]).Some?
  {
    if params == [] then Some(EMPTY)
    else
      var n := |params| - 1;
      var r, p := CmdLine(params[..n]), ParseParam(params[n]);
      assert forall i :: 0 <= i < n ==> params[..n][i] == params[i];
      if r.None? || p.None? then None
      else
        MergeSingle(r.value, p.value);
        Some(Merge(r.value, Single(p.value)))
  }

  /** The value that the last definition of `section.variable` gives. */
  function Last(params: seq<string>, section: string, variable: string): Option<Value> {
    if params == [] then None
    else
      var p := ParseParam(params[|params| - 1]);
      if p.Some? && p.value.section == section && p.value.variable == variable then Some(p.value.value)
      else Last(params[..|params| - 1], section, variable)
  }

  function FoundOf(v: Option<Value>): Found { if v.Some? then Scalar(v.value) else Absent }

  lemma FindTwo(t: Tree, j: string, k: string)
    ensures Find(t, [j, k]) == (if t.Leaf? || j !in t.entries then Absent else Find(t.entries[j], [k]))
    ensures Cut(t, [j, k]) <==> t.Leaf? || (j in t.entries && t.entries[j].Leaf?)
  {
    assert [j, k][1..] == [k] && [k][1..] == [];
    if t.Node? && j in t.entries {
      var sub := t.entries[j];
      assert Cut(sub, [k]) <==> sub.Leaf? || (k in sub.entries && Cut(sub.entries[k], []));
    }
  }

  /** A section is there when some definition names it, and is then not empty. */
  lemma {:induction false} NamedSections(params: seq<string>, section: string)
    requires CmdLine(params).Some?
    ensures section in CmdLine(params).value.entries <==> exists i :: 0 <= i < |params| && ParseParam(params[i]).value.section == section
    ensures section in CmdLine(params).value.entries ==> CmdLine(params).value.entries[section] != EMPTY
  {
    if params != [] {
      var n := |params| - 1;
      var t, p := CmdLine(params[..n]).value, ParseParam(params[n]).value;
      assert forall i :: 0 <= i < n ==> params[..n][i] == params[i];
      NamedSections(params[..n], section);
      MergeSingle(t, p);
      assert p.section == section ==> p.variable in Merge(t, Single(p)).entries[section].entries;
    }
  }

  /** What a section holds are the last definitions. */
  lemma {:induction false} LastDefinitions(params: seq<string>, section: string, variable: string)
    requires CmdLine(params).Some?
    ensures Last(params, section, variable)
         == (var t := CmdLine(params).value;
             if section in t.entries && variable in t.entries[section].entries then Some(t.entries[section].entries[variable].value) else None)
  {
    if params != [] {
      var n := |params| - 1;
      LastDefinitions(params[..n], section, variable);
      MergeSingle(CmdLine(params[..n]).value, ParseParam(params[n]).value);
    }
  }

  /** The last definition of a variable wins; without one it is not there. */
  lemma LastDefinitionWins(params: seq<string>, section: string, variable: string)
    requires CmdLine(params).Some?
    ensures Find(CmdLine(params).value, [section, variable]) == FoundOf(Last(params, section, variable))
  {
    var t := CmdLine(params).value;
    LastDefinitions(params, section, variable);
    FindTwo(t, section, variable);
    if section in t.entries {
      FindOne(t.entries[section], variable);
    }
  }

  // ---------- The whole configuration ----------

  /** The defaults merged into an empty dictionary, then the command line over them. */
  function Context(defaults: Tree, params: seq<string>): Option<Tree>
    requires defaults.Node?
  {
    MergeIntoEmpty(defaults);
    var cmd := CmdLine(params);
    if cmd.None? || !Fits(Merge(EMPTY, defaults), cmd.value) then None else Some(Merge(Merge(EMPTY, defaults), cmd.value))
  }

  /** It fails exactly when a definition cannot be read, or names a section that is a plain value in the defaults. */
  lemma ContextExactly(defaults: Tree, params: seq<string>)
    requires defaults.Node?
    ensures Context(defaults, params).Some? <==>
      forall i :: 0 <= i < |params| ==>
        ParseParam(params[i]).Some? && !Find(defaults, [ParseParam(params[i]).value.section]).Scalar?
  {
    MergeIntoEmpty(defaults);
    if CmdLine(params).Some? {
      var cmd := CmdLine(params).value;
      forall k: string
        ensures k in cmd.entries <==> exists i :: 0 <= i < |params| && ParseParam(params[i]).value.section == k
        ensures k in cmd.entries ==> (Fits(At(defaults, k), cmd.entries[k]) <==> !Find(defaults, [k]).Scalar?)
      {
        NamedSections(params, k);
        FindOne(defaults, k);
        if k in cmd.entries {
          SectionFits(At(defaults, k), cmd.entries[k]);
        }
      }
    }
  }

  lemma SectionFits(a: Tree, section: Tree)
    requires section.Node? && section != EMPTY && forall j :: j in section.entries ==> section.entries[j].Leaf?
    ensures Fits(a, section) <==> a.Node?
  {
  }

  /** The value in force: the last definition, otherwise the default. */
  lemma ContextByPath(defaults: Tree, params: seq<string>, section: string, variable: string)
    requires defaults.Node? && Context(defaults, params).Some?
    ensures Find(Context(defaults, params).value, [section, variable])
         == match Last(params, section, variable) { case Some(v) => Scalar(v) case None => Find(defaults, [section, variable]) }
  {
    MergeIntoEmpty(defaults);
    var cmd := CmdLine(params).value;
    MergeByPath(defaults, cmd, [section, variable]);
    LastDefinitionWins(params, section, variable);
    FindTwo(cmd, section, variable);
  }

  // ---------- In place ----------

  /** A fresh `{section: {var: value}}`. */
  method NewSingle(p: Param) returns (d: Dict)
    ensures fresh(d.Repr) && d.Holds(Single(p))
  {
    var inner := new Dict();
    inner.PutPlain(p.variable, p.value, {}, map[]);
    d := new Dict();
    d.PutSub(p.section, inner, Node(map[p.variable := Leaf(p.value)]), {}, map[]);
  }

  /** `set_cmd_line_params_in_dict`: `ok` is false when a definition cannot be read. */
  method SetCmdLine(params: seq<string>) returns (ok: bool, args: Dict)
    ensures fresh(args.Repr) && args.Valid() && args.Unshared()
    ensures ok == CmdLine(params).Some?
    ensures ok ==> args.Contents() == CmdLine(params).value
  {
    args := new Dict();
    ok := true;
    for i := 0 to |params|
      invariant ok && fresh(args.Repr) && args.Valid() && args.Unshared()
      invariant CmdLine(params[..i]) == Some(args.Contents())
    {
      assert params[..i + 1][..i] == params[..i] && params[..i + 1][i] == params[i];
      var p := ParseParam(params[i]);
      if p.None? {
        assert ParseParam(params[i]).None?;
        ok := false;
        return;
      }
      MergeSingle(args.Contents(), p.value);
      var single := NewSingle(p.value);
      ok := args.Update(single);
    }
    assert params[..|params|] == params;
  }

  /** `update_dict` of an empty dictionary with the defaults: a copy that shares nothing with them. */
  method Copy(defaults: Dict) returns (context: Dict)
    requires defaults.Valid()
    ensures fresh(context.Repr) && context.Holds(defaults.Contents())
  {
    MergeIntoEmpty(defaults.Contents());
    context := new Dict();
    var ok := context.Update(defaults);
  }

  /** The merges of `create_runtime_config`: the context has the contents of `Context`. The defaults are not written, and as
    the context is all new, later writes to it do not reach them. */
  method CreateContext(defaults: Dict, params: seq<string>) returns (ok: bool, context: Dict)
    requires defaults.Valid()
    ensures fresh(context.Repr) && context.Valid() && context.Unshared()
    ensures ok == Context(old(defaults.Contents()), params).Some?
    ensures ok ==> Some(context.Contents()) == Context(old(defaults.Contents()), params)
  {
    ghost var d := defaults.Contents();
    MergeIntoEmpty(d);
    context := Copy(defaults);
    var args;
    ok, args := SetCmdLine(params);
    assert context.Holds(d);
    if ok {
      ok := context.Update(args);
    }
  }
}
