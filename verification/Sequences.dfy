/** Texts inside longer texts: what a reader finds at a position. */
module Sequences {

  lemma {:induction false} Assoc<T>(a: seq<T>, b: seq<T>, c: seq<T>)
    ensures a + (b + c) == a + b + c
  {
  }

  /** x stands in s from position p on. */
  ghost predicate At<T>(s: seq<T>, p: nat, x: seq<T>)
    decreases |x|
  {
    p + |x| <= |s| && (x == [] || (s[p] == x[0] && At(s, p + 1, x[1..])))
  }

  lemma {:induction false} AtBound<T>(s: seq<T>, p: nat, x: seq<T>)
    requires At(s, p, x)
    ensures p + |x| <= |s| && s[p..p + |x|] == x
    decreases |x|
  {
    if x != [] { AtBound(s, p + 1, x[1..]); }
  }

  lemma {:induction false} AtSplit<T>(s: seq<T>, p: nat, x: seq<T>, y: seq<T>)
    ensures At(s, p, x + y) <==> At(s, p, x) && At(s, p + |x|, y)
    decreases |x|
  {
    if x == [] {
      assert x + y == y;
    } else {
      AtSplit(s, p + 1, x[1..], y);
      assert (x + y)[1..] == x[1..] + y;
    }
  }

  lemma {:induction false} AtParts<T>(s: seq<T>, p: nat, x: seq<T>, y: seq<T>)
    requires At(s, p, x + y)
    ensures At(s, p, x) && At(s, p + |x|, y) && p + |x| + |y| <= |s|
    ensures x != [] ==> s[p] == x[0]
  {
    AtSplit(s, p, x, y);
    AtBound(s, p, x + y);
  }

  lemma {:induction false} AtSlice<T>(s: seq<T>, p: nat, q: nat)
    requires p <= q <= |s|
    ensures At(s, p, s[p..q])
  {
    AtWhole(s, p);
    assert s[p..] == s[p..q] + s[q..];
    AtSplit(s, p, s[p..q], s[q..]);
  }

  lemma {:induction false} AtIndex<T>(s: seq<T>, p: nat, x: seq<T>, k: nat)
    requires At(s, p, x) && k < |x|
    ensures p + k < |s| && s[p + k] == x[k]
    decreases k
  {
    if k > 0 { AtIndex(s, p + 1, x[1..], k - 1); }
  }

  lemma {:induction false} AtWhole<T>(s: seq<T>, p: nat)
    requires p <= |s|
    ensures At(s, p, s[p..])
    decreases |s| - p
  {
    if p < |s| {
      AtWhole(s, p + 1);
      assert s[p..][1..] == s[p + 1..];
    }
  }

  lemma {:induction false} AtMiddle<T>(a: seq<T>, x: seq<T>, b: seq<T>)
    ensures At(a + x + b, |a|, x)
  {
    var s := a + x + b;
    AtWhole(s, |a|);
    assert s[|a|..] == x + b;
    AtSplit(s, |a|, x, b);
  }
}
