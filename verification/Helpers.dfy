/** Shared by the models: optional values, sizes of subsets, and places in a filtered list. */
module Helpers {
  datatype Option<T> = None | Some(value: T)

  lemma {:induction false} SubsetSize<T>(a: set<T>, b: set<T>)
    requires a <= b
    ensures |a| <= |b| && (a != b ==> |a| < |b|)
    decreases a
  {
    if a != {} {
      var x :| x in a;
      SubsetSize(a - {x}, b - {x});
    }
  }

  /** How many of the elements before place `p` satisfy `f`. */
  ghost function Rank<T>(s: seq<T>, f: T -> bool, p: nat): nat
    requires p <= |s|
  {
    |set i | 0 <= i < p && f(s[i])|
  }

  lemma RankNext<T>(s: seq<T>, f: T -> bool, p: nat)
    requires p < |s|
    ensures Rank(s, f, p + 1) == Rank(s, f, p) + (if f(s[p]) then 1 else 0)
  {
    var before := set i | 0 <= i < p && f(s[i]);
    var after := set i | 0 <= i < p + 1 && f(s[i]);
    assert after == if f(s[p]) then before + {p} else before;
  }
}
