/** Cutting a received byte stream into lines, as `SSHProducer.parse` of art/rhevm_api/utils/mac2ip.py does. */
module LeaseStream {

  /** Length of the first line with its terminator: "\n", "\r" or "\r\n". */
  function FirstLine(s: string): (n: nat)
    requires s != ""
    ensures 1 <= n <= |s|
  {
    if s[0] == '\n' then 1
    else if s[0] == '\r' then (if |s| > 1 && s[1] == '\n' then 2 else 1)
    else if |s| == 1 then 1
    else 1 + FirstLine(s[1..])
  }

  /** `str.splitlines(True)`. */
  function SplitLines(s: string): seq<string> {
    if s == "" then [] else [s[..FirstLine(s)]] + SplitLines(s[FirstLine(s)..])
  }

  predicate EndsWithNewline(line: string) {
    line != "" && line[|line| - 1] == '\n'
  }

  /** The lines to deliver and the text to keep. */
  datatype Cutting = Cutting(lines: seq<string>, tail: string)

  function Cut(s: string): Cutting {
    if s == "" then Cutting([], "")
    else
      var n := FirstLine(s);
      if n < |s| then
        var rest := Cut(s[n..]);
        Cutting([s[..n]] + rest.lines, rest.tail)
      else if EndsWithNewline(s) then Cutting([s], "")
      else Cutting([], s)
  }

  /** What `parse` computes from `splitlines`: the last line is kept back unless it ends in "\n". */
  lemma {:induction false} CutFromSplit(s: string)
    requires s != ""
    ensures var d := SplitLines(s);
            d != [] && d[|d| - 1] != "" &&
            Cut(s) == if EndsWithNewline(d[|d| - 1]) then Cutting(d, "") else Cutting(d[..|d| - 1], d[|d| - 1])
  {
    var n := FirstLine(s);
    if n < |s| {
      CutFromSplit(s[n..]);
      var d := SplitLines(s[n..]);
      assert ([s[..n]] + d)[..|d|] == [s[..n]] + d[..|d| - 1];
    } else {
      assert s[..n] == s && s[n..] == "";
      assert SplitLines(s) == [s];
      assert [s][..0] == [];
    }
  }

  /** A line that is followed by more text, or that ends in "\n", is not changed by later text. */
  lemma {:induction false} FirstLineStable(s: string, t: string)
    requires s != "" && (FirstLine(s) < |s| || EndsWithNewline(s))
    ensures FirstLine(s + t) == FirstLine(s)
  {
    if s[0] != '\n' && s[0] != '\r' && |s| > 1 {
      FirstLineStable(s[1..], t);
      assert (s + t)[1..] == s[1..] + t;
    }
  }

  /** Cutting the kept text together with what arrives next is cutting the whole stream; a split inside
      "\r\n" makes no difference. */
  lemma {:induction false} CutAppend(s: string, t: string)
    ensures var later := Cut(Cut(s).tail + t);
            Cut(s + t) == Cutting(Cut(s).lines + later.lines, later.tail)
    decreases |s|
  {
    if s == "" {
      assert s + t == t && "" + t == t;
    } else {
      var n := FirstLine(s);
      if n < |s| {
        FirstLineStable(s, t);
        CutAppend(s[n..], t);
        assert (s + t)[n..] == s[n..] + t && (s + t)[..n] == s[..n];
      } else if EndsWithNewline(s) {
        FirstLineStable(s, t);
        assert (s + t)[n..] == t && (s + t)[..n] == s && "" + t == t;
        if t == "" {
          assert s + t == s;
        }
      }
    }
  }

  /** No text is lost or invented. */
  function Concat(parts: seq<string>): string {
    if parts == [] then "" else parts[0] + Concat(parts[1..])
  }

  lemma {:induction false} CutKeepsText(s: string)
    ensures Concat(Cut(s).lines) + Cut(s).tail == s
    ensures !EndsWithNewline(Cut(s).tail)
  {
    if s != "" {
      var n := FirstLine(s);
      if n < |s| {
        var rest := Cut(s[n..]);
        CutKeepsText(s[n..]);
        ConcatCons(s[..n], rest.lines);
        assert Concat(Cut(s).lines) + Cut(s).tail == s[..n] + (Concat(rest.lines) + rest.tail);
        assert s == s[..n] + s[n..];
      } else {
        ConcatCons(s, []);
      }
    }
  }

  lemma ConcatCons(first: string, parts: seq<string>)
    ensures Concat([first] + parts) == first + Concat(parts)
  {
    assert ([first] + parts)[1..] == parts;
  }

  lemma {:induction false} ConcatAppend(parts: seq<string>, last: string)
    ensures Concat(parts + [last]) == Concat(parts) + last
  {
    if parts == [] {
      assert [last][1..] == [];
    } else {
      ConcatAppend(parts[1..], last);
      assert (parts + [last])[1..] == parts[1..] + [last];
    }
  }

  // ---------- What the lines are, without the code ----------

  /** A finished line: it ends in a line end, "\n", "\r" or "\r\n", and holds none before. */
  predicate IsLine(l: string) {
    && l != "" && (l[|l| - 1] == '\n' || l[|l| - 1] == '\r')
    && forall i :: 0 <= i < |l| - 1 ==> l[i] != '\n' && (l[i] == '\r' ==> i == |l| - 2 && l[|l| - 1] == '\n')
  }

  /** A text without a finished line; a "\r" at its end may still become a "\r\n". */
  predicate IsOpen(t: string) { forall i :: 0 <= i < |t| ==> t[i] != '\n' && (t[i] == '\r' ==> i == |t| - 1) }

  /** What may follow a line: after a "\r" there is something, and it does not start with "\n". */
  predicate MayFollow(l: string, next: string) {
    l != "" && l[|l| - 1] == '\r' ==> next != "" && next[0] != '\n'
  }

  /** `s` is made of the finished lines `lines` and the rest `tail`. */
  ghost predicate IsCutting(s: string, lines: seq<string>, tail: string) {
    && Concat(lines) + tail == s && IsOpen(tail)
    && forall k :: 0 <= k < |lines| ==> IsLine(lines[k]) && MayFollow(lines[k], Next(lines, tail, k))
  }

  /** What comes behind line `k`. */
  function Next(lines: seq<string>, tail: string, k: nat): string { if k + 1 < |lines| then lines[k + 1] else tail }

  lemma {:induction false} LineIsFirst(l: string, rest: string)
    requires IsLine(l) && MayFollow(l, rest)
    ensures FirstLine(l + rest) == |l|
    decreases |l|
  {
    assert (l + rest)[0] == l[0];
    if |l| > 1 {
      assert (l + rest)[1..] == l[1..] + rest && (l + rest)[1] == l[1];
      if l[0] != '\r' {
        LineIsFirst(l[1..], rest);
      }
    } else if rest != "" {
      assert (l + rest)[1] == rest[0];
    }
  }

  lemma {:induction false} OpenIsUnfinished(t: string)
    requires IsOpen(t) && t != ""
    ensures FirstLine(t) == |t| && !EndsWithNewline(t)
    decreases |t|
  {
    if |t| > 1 {
      assert t[0] != '\r';
      OpenIsUnfinished(t[1..]);
    }
  }

  lemma {:induction false} FirstIsLine(s: string)
    requires s != ""
    ensures var n := FirstLine(s);
            if n < |s| || EndsWithNewline(s) then IsLine(s[..n]) && MayFollow(s[..n], s[n..]) else IsOpen(s)
    decreases |s|
  {
    var n := FirstLine(s);
    if s[0] != '\n' && s[0] != '\r' && |s| > 1 {
      FirstIsLine(s[1..]);
      assert s[..n] == [s[0]] + s[1..][..n - 1] && s[n..] == s[1..][n - 1..];
    }
  }

  lemma Followed(parts: seq<string>, tail: string)
    requires forall k :: 0 <= k < |parts| ==> parts[k] != ""
    ensures var next, s := if parts != [] then parts[0] else tail, Concat(parts) + tail;
            (next == "" <==> s == "") && (next != "" ==> next[0] == s[0])
  {
    if parts != [] {
      assert (Concat(parts) + tail)[0] == parts[0][0];
    }
  }

  /** One more line in front. */
  lemma CuttingCons(l: string, rest: string, more: seq<string>, tail: string)
    requires IsLine(l) && MayFollow(l, rest) && IsCutting(rest, more, tail)
    ensures IsCutting(l + rest, [l] + more, tail)
  {
    var lines := [l] + more;
    ConcatCons(l, more);
    assert Concat(lines) + tail == l + (Concat(more) + tail);
    Followed(more, tail);
    forall k | 0 <= k < |lines|
      ensures IsLine(lines[k]) && MayFollow(lines[k], Next(lines, tail, k))
    {
      if k > 0 {
        assert MayFollow(more[k - 1], Next(more, tail, k - 1)) && Next(lines, tail, k) == Next(more, tail, k - 1);
      }
    }
  }

  lemma CuttingTail(s: string, lines: seq<string>, tail: string) returns (l: string, rest: string)
    requires IsCutting(s, lines, tail) && lines != []
    ensures l == lines[0] && s == l + rest && IsLine(l) && MayFollow(l, rest) && IsCutting(rest, lines[1..], tail)
  {
    var more := lines[1..];
    l, rest := lines[0], Concat(more) + tail;
    forall k | 0 <= k < |more|
      ensures IsLine(more[k]) && MayFollow(more[k], Next(more, tail, k))
    {
      assert IsLine(lines[k + 1]) && MayFollow(lines[k + 1], Next(lines, tail, k + 1));
    }
    Followed(more, tail);
    assert MayFollow(lines[0], Next(lines, tail, 0));
  }

  /** The code's cutting is the only way to cut a text into finished lines and a rest. */
  lemma {:induction false} OnlyCutting(s: string, lines: seq<string>, tail: string)
    requires IsCutting(s, lines, tail)
    ensures Cut(s) == Cutting(lines, tail)
    decreases |lines|
  {
    if lines == [] {
      assert s == tail;
      if s != "" {
        OpenIsUnfinished(s);
      }
    } else {
      var l, rest := CuttingTail(s, lines, tail);
      LineIsFirst(l, rest);
      assert s[..|l|] == l && s[|l|..] == rest;
      OnlyCutting(rest, lines[1..], tail);
      assert lines == [l] + lines[1..];
      if rest == "" {
        assert s == l;
      }
    }
  }

  lemma {:induction false} CutIsCutting(s: string)
    ensures IsCutting(s, Cut(s).lines, Cut(s).tail)
    decreases |s|
  {
    if s != "" {
      var n := FirstLine(s);
      FirstIsLine(s);
      if n < |s| {
        var rest := Cut(s[n..]);
        CutIsCutting(s[n..]);
        CuttingCons(s[..n], s[n..], rest.lines, rest.tail);
        assert s == s[..n] + s[n..];
      } else {
        assert s[..n] == s && s[n..] == "";
        if EndsWithNewline(s) {
          assert IsCutting("", [], "");
          CuttingCons(s, "", [], "");
          assert s + "" == s && [s] + [] == [s];
        }
      }
    }
  }

  /** What is delivered and what is kept, whatever the text: finished lines, all of them, and a rest without one. */
  lemma CutExactly(s: string, lines: seq<string>, tail: string)
    ensures Cut(s) == Cutting(lines, tail) <==> IsCutting(s, lines, tail)
  {
    CutIsCutting(s);
    if IsCutting(s, lines, tail) {
      OnlyCutting(s, lines, tail);
    }
  }
}
