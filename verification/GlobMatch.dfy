/**
 * Pattern matching of bin/csh/glob.c: Gmatch expands braces and calls pmatch, whose star case goes
 * back through Gmatch.
 */
module GlobMatch {
  import opened Wrappers
  import opened GlobBraces
  import opened GlobWorklist

  const STAR: Char := 42
  const ANY: Char := 63
  const CARET: Char := 94
  const DASH: Char := 45

  /** A character without its quote bit. */
  function Trim(c: Char): (r: int)
    ensures 0 < r < 0x8000 && (c == r || c == r + 0x8000)
  {
    c % 0x8000
  }

  /** Why a match has no answer: something is missing in the pattern, or a negated class accepted the
      terminator of the string and the scan went on past it. */
  datatype Trouble = Lacks(m: Missing) | Overrun
  type Answer = Result<bool, Trouble>

  /** Where the body of the class that starts the pattern begins, and where its bracket closes. */
  function BodyFrom(p: Word): (r: nat)
    requires p != []
    ensures r <= |p|
  {
    if |p| > 1 && p[1] == CARET then 2 else 1
  }

  function BodyTo(p: Word): (r: nat)
    requires p != []
    ensures BodyFrom(p) <= r <= |p|
  {
    Find(p, BodyFrom(p), RBRK)
  }

  /** The class loop of pmatch over what is left of a body; prev is the pattern character before it. */
  predicate InBody(body: Word, prev: Char, c: int)
  {
    if body == [] then false
    else if body[0] == DASH && prev != LBRK && |body| > 1 then
      (c <= Trim(body[1]) && Trim(prev) <= c) || InBody(body[2..], body[1], c)
    else c == Trim(body[0]) || InBody(body[1..], body[0], c)
  }

  // ---------- the functions ----------

  function PMatch(s: Word, p: Word): Answer
    decreases |p|, 0, 0
  {
    if p == [] then Ok(s == [])
    else if p[0] == ANY then if s == [] then Ok(false) else PMatch(s[1..], p[1..])
    else if p[0] == STAR then if |p| == 1 then Ok(true) else TrySuffixes(s, p[1..])
    else if p[0] == LBRK then
      var to := BodyTo(p);
      if to == |p| then Err(Lacks(MissingBracket))
      else
        var c := if s == [] then 0 else Trim(s[0]);
        if InBody(p[BodyFrom(p)..to], p[BodyFrom(p) - 1], c) == (BodyFrom(p) == 2) then Ok(false)
        else if s == [] then Err(Overrun)
        else PMatch(s[1..], p[to + 1..])
    else if s == [] || Trim(s[0]) != Trim(p[0]) then Ok(false)
    else PMatch(s[1..], p[1..])
  }

  /** The star: some non-empty suffix of s matches the rest of the pattern. */
  function TrySuffixes(s: Word, p: Word): Answer
    decreases |p|, 3, |s|
  {
    if s == [] then Ok(false)
    else
      var r := GMatch(s, p);
      if r.Err? || r.value then r else TrySuffixes(s[1..], p)
  }

  function GMatch(s: Word, p: Word): Answer
    decreases |p|, 2, 0
  {
    var neg := p != [] && p[0] == CARET;
    var q := if neg then p[1..] else p;
    match Expand(q)
    case Err(e) => Err(Lacks(e))
    case Ok(vs) =>
      ExpandFinal(q);
      var r := SomeMatch(s, vs, |p|);
      if r.Err? then r else Ok(r.value != neg)
  }

  function SomeMatch(s: Word, vs: seq<Word>, n: nat): Answer
    requires forall v | v in vs :: |v| <= n
    decreases n, 1, |vs|
  {
    if vs == [] then Ok(false)
    else
      var a := PMatch(s, vs[0]);
      if a.Err? then a
      else
        var b := SomeMatch(s, vs[1..], n);
        if b.Err? then b else Ok(a.value || b.value)
  }

  // ---------- the code ----------

  /** The loop of pmatch over a class body from position j; c is the current string character. */
  method ScanClass(p: Word, c: int) returns (found: bool, next: Option<nat>)
    requires p != [] && p[0] == LBRK
    ensures next == if BodyTo(p) == |p| then None else Some(BodyTo(p) + 1)
    ensures next.Some? ==> found == InBody(p[BodyFrom(p)..BodyTo(p)], p[BodyFrom(p) - 1], c)
  {
    var from := if |p| > 1 && p[1] == CARET then 2 else 1;
    var j := from;
    found := false;
    ghost var to := BodyTo(p);
    ghost var all := InBody(p[from..to], p[from - 1], c);
    while j < |p| && p[j] != RBRK
      invariant from <= j <= to && Find(p, j, RBRK) == to
      invariant if found then all else all == InBody(p[j..to], p[j - 1], c)
      decreases |p| - j
    {
      ghost var rest := p[j..to];
      assert rest[1..] == p[j + 1..to];
      if found {
        j := j + 1;
      } else if p[j] == DASH && p[j - 1] != LBRK && j + 1 < |p| && p[j + 1] != RBRK {
        assert rest[2..] == p[j + 2..to];
        found := c <= Trim(p[j + 1]) && Trim(p[j - 1]) <= c;
        j := j + 2;
      } else {
        found := c == Trim(p[j]);
        j := j + 1;
      }
    }
    next := if j == |p| then None else Some(j + 1);
  }

  /** pmatch: both pointers move along until the pattern is used up or something differs. */
  method MatchWord(s: Word, p: Word) returns (r: Answer)
    ensures r == PMatch(s, p)
    decreases |p|, 0, 0
  {
    hide InBody, TrySuffixes, BodyTo;
    var i, j := 0, 0;
    while j < |p|
      invariant i <= |s| && j <= |p| && PMatch(s, p) == PMatch(s[i..], p[j..])
    {
      ghost var s', p' := s[i..], p[j..];
      assert s' != [] ==> s'[1..] == s[i + 1..];
      assert p'[1..] == p[j + 1..];
      if p[j] == ANY {
        if i == |s| { return Ok(false); }
        j := j + 1;
      } else if p[j] == STAR {
        if j + 1 == |p| { return Ok(true); }
        r := MatchStar(s[i..], p[j + 1..]);
        return;
      } else if p[j] == LBRK {
        var found, next := ScanClass(p[j..], if i == |s| then 0 else Trim(s[i]));
        if next.None? { return Err(Lacks(MissingBracket)); }
        if found == (j + 1 < |p| && p[j + 1] == CARET) { return Ok(false); }
        if i == |s| { return Err(Overrun); }
        assert p'[next.value..] == p[j + next.value..];
        j := j + next.value;
      } else {
        if i == |s| || Trim(p[j]) != Trim(s[i]) { return Ok(false); }
        j := j + 1;
      }
      i := i + 1;
    }
    return Ok(i == |s|);
  }

  method MatchStar(s: Word, p: Word) returns (r: Answer)
    ensures r == TrySuffixes(s, p)
    decreases |p|, 2
  {
    var i := 0;
    while i < |s|
      invariant i <= |s| && TrySuffixes(s, p) == TrySuffixes(s[i..], p)
    {
      assert s[i..][1..] == s[i + 1..];
      r := Match(s[i..], p);
      if r.Err? || r.value { return; }
      i := i + 1;
    }
    return Ok(false);
  }

  /** Gmatch: every word of the expansion is tried; a leading caret inverts the answer. */
  method Match(s: Word, p: Word) returns (r: Answer)
    ensures r == GMatch(s, p)
    decreases |p|, 1
  {
    hide SomeMatch, Expand;
    var neg := p != [] && p[0] == CARET;
    var q := if neg then p[1..] else p;
    var blk := new Option<Word>[GLOBSPACE](_ => None);
    blk[0] := Some(q);
    assert blk[..2] == Terminated([q]);
    ExpandOne(q);
    var nv, ex, err := ExpBrace(blk, None, [q]);
    if err.Some? { return Err(Lacks(err.value)); }
    ExpandFinal(q);
    r := MatchAny(s, nv, ex, Expand(q).value, |p|);
    if r.Ok? { r := Ok(r.value != neg); }
  }

  method MatchAny(s: Word, nv: array<Option<Word>>, ex: nat, ghost vs: seq<Word>, n: nat) returns (r: Answer)
    requires Holds(nv, vs) && ex == |vs| && forall v | v in vs :: |v| <= n
    ensures r == SomeMatch(s, vs, n)
    decreases n, 0, 1
  {
    hide PMatch;
    assert forall k | 0 <= k < |vs| :: nv[k] == nv[..|vs| + 1][k] == Some(vs[k]);
    var i, res := 0, false;
    assert vs[0..] == vs;
    while i < ex
      invariant i <= ex && forall k | 0 <= k < |vs| :: nv[k] == Some(vs[k])
      invariant SomeMatch(s, vs, n) == OrElse(res, SomeMatch(s, vs[i..], n))
    {
      assert vs[i] in vs && vs[i..][0] == vs[i] && vs[i..][1..] == vs[i + 1..];
      var a := MatchWord(s, nv[i].value);
      if a.Err? { return a; }
      res := res || a.value;
      i := i + 1;
    }
    return Ok(res);
  }

  function OrElse(a: bool, r: Answer): Answer { if r.Err? then r else Ok(a || r.value) }

  lemma {:induction false} ExpandOne(q: Word)
    ensures ExpandAll([q]) == Expand(q)
  {
    assert [q][1..] == [] && ExpandAll([]) == Ok([]);
    if Expand(q).Ok? { assert Expand(q).value + [] == Expand(q).value; }
  }

  lemma {:induction false} FinalRest(p: Word, n: nat)
    requires Final(p) && 0 < n <= |p|
    ensures Final(p[n..])
  {
  }

  /** Once braces are gone, Gmatch adds nothing but the reading of a leading caret. */
  lemma {:induction false} GMatchFinal(s: Word, p: Word)
    requires Final(p) && (p != [] ==> p[0] != CARET)
    ensures GMatch(s, p) == PMatch(s, p)
  {
    var one := [p];
    assert Expand(p) == Ok(one);
    assert one[1..] == [];
    assert SomeMatch(s, one[1..], |p|) == Ok(false);
    assert SomeMatch(s, one, |p|) == PMatch(s, p);
  }

  lemma {:induction false} NothingInBody(body: Word, prev: Char)
    ensures !InBody(body, prev, 0)
    decreases |body|
  {
    if |body| > 1 { NothingInBody(body[2..], body[1]); }
    if body != [] { NothingInBody(body[1..], body[0]); }
  }

  // ---------- quoting ----------

  function Quoted(t: Word): (r: Word)
    ensures |r| == |t| && forall k | 0 <= k < |t| :: r[k] == Trim(t[k]) + 0x8000
  {
    seq(|t|, k requires 0 <= k < |t| => Trim(t[k]) + 0x8000)
  }

  predicate SameText(s: Word, t: Word)
  {
    |s| == |t| && forall k | 0 <= k < |s| :: Trim(s[k]) == Trim(t[k])
  }

  lemma {:induction false} PMatchQuoted(s: Word, t: Word)
    ensures PMatch(s, Quoted(t)) == Ok(SameText(s, t))
    decreases |t|
  {
    if t != [] && s != [] {
      PMatchQuoted(s[1..], t[1..]);
      assert Quoted(t)[1..] == Quoted(t[1..]);
      SameTextStep(s, t);
    }
  }

  lemma {:induction false} SameTextStep(s: Word, t: Word)
    requires s != [] && t != []
    ensures SameText(s, t) <==> Trim(s[0]) == Trim(t[0]) && SameText(s[1..], t[1..])
  {
    if Trim(s[0]) == Trim(t[0]) && SameText(s[1..], t[1..]) {
      forall k | 0 <= k < |s| ensures Trim(s[k]) == Trim(t[k]) {
        if k > 0 { assert s[k] == s[1..][k - 1] && t[k] == t[1..][k - 1]; }
      }
    }
  }

  /** A pattern all of whose characters are quoted matches its own text and nothing else. */
  lemma {:induction false} QuotedMatchesItself(s: Word, t: Word)
    ensures GMatch(s, Quoted(t)) == Ok(SameText(s, t))
  {
    var q := Quoted(t);
    assert LBRC !in q && (q != [] ==> q[0] != CARET);
    GMatchFinal(s, q);
    PMatchQuoted(s, t);
  }

  // ---------- classes ----------

  datatype Item = Single(c: Char) | Range(lo: Char, hi: Char)

  function Body(items: seq<Item>): Word
  {
    if items == [] then []
    else (if items[0].Single? then [items[0].c] else [items[0].lo, DASH, items[0].hi]) + Body(items[1..])
  }

  /** A dash stands for itself only first or last; a range is in order and does not start at a bracket. */
  predicate FineItems(items: seq<Item>, prev: Char)
  {
    items == [] ||
    match items[0]
    case Single(c) => c != RBRK && (c == DASH ==> prev == LBRK || |items| == 1) && FineItems(items[1..], c)
    case Range(lo, hi) =>
      lo != RBRK && hi != RBRK && lo != LBRK && (lo == DASH ==> prev == LBRK) && Trim(lo) <= Trim(hi) &&
      FineItems(items[1..], hi)
  }

  predicate InItem(i: Item, c: int)
  {
    if i.Single? then c == Trim(i.c) else Trim(i.lo) <= c <= Trim(i.hi)
  }

  /** The class loop accepts exactly the listed characters and ranges. */
  lemma {:induction false} ClassMeaning(items: seq<Item>, prev: Char, c: int)
    requires FineItems(items, prev)
    ensures InBody(Body(items), prev, c) <==> exists i | i in items :: InItem(i, c)
    decreases |items|
  {
    if items != [] {
      hide InItem;
      var b, rest := Body(items), Body(items[1..]);
      assert (exists i | i in items :: InItem(i, c)) <==>
             InItem(items[0], c) || exists i | i in items[1..] :: InItem(i, c);
      match items[0]
      case Single(x) =>
        ClassMeaning(items[1..], x, c);
        SingleStep(b, rest, prev, x, c);
      case Range(lo, hi) =>
        ClassMeaning(items[1..], hi, c);
        RangeStep(b, rest, prev, lo, hi, c);
    }
  }

  lemma {:induction false} SingleStep(b: Word, rest: Word, prev: Char, x: Char, c: int)
    requires b == [x] + rest && (x == DASH ==> prev == LBRK || rest == [])
    ensures InBody(b, prev, c) <==> InItem(Single(x), c) || InBody(rest, x, c)
  {
    assert b[0] == x && b[1..] == rest;
  }

  lemma {:induction false} RangeStep(b: Word, rest: Word, prev: Char, lo: Char, hi: Char, c: int)
    requires b == [lo, DASH, hi] + rest && lo != LBRK && (lo == DASH ==> prev == LBRK) && Trim(lo) <= Trim(hi)
    ensures InBody(b, prev, c) <==> InItem(Range(lo, hi), c) || InBody(rest, hi, c)
  {
    var b1 := b[1..];
    assert b1[0] == DASH && b1[1] == hi && b1[2..] == rest;
  }
}
