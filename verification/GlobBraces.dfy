/**
 * Brace expansion of bin/csh/glob.c: what globbrace and expbrace compute on values.
 *
 * A word is a sequence of 16-bit characters; a quoted character has its high bit set and so is
 * never one of the special characters below.
 */
module GlobBraces {
  import opened Wrappers

  /** A non-NUL character, possibly quoted. The bare quote bit is not a character. */
  type Char = c: int | 0 < c < 0x10000 && c != 0x8000 witness 1
  type Word = seq<Char>

  const LBRC: Char := 123
  const RBRC: Char := 125
  const LBRK: Char := 91
  const RBRK: Char := 93
  const COMMA: Char := 44

  /** What stderror reports as missing. */
  datatype Missing = MissingBracket | MissingBrace

  /** First position at or after p holding c, or the end of the word. */
  function Find(w: Word, p: nat, c: Char): (r: nat)
    requires p <= |w|
    ensures p <= r <= |w| && (r < |w| ==> w[r] == c) && c !in w[p..r]
    decreases |w| - p
  {
    if p == |w| || w[p] == c then p else Find(w, p + 1, c)
  }

  /** The first loop of globbrace: the brace closing the one before p, with i more open in between. */
  function Balance(w: Word, p: nat, i: nat): (r: Result<nat, Missing>)
    requires p <= |w|
    ensures r.Ok? ==> p <= r.value < |w| && w[r.value] == RBRC
    decreases |w| - p
  {
    if p == |w| then Err(MissingBrace)
    else if w[p] == LBRK then
      var q := Find(w, p + 1, RBRK);
      if q == |w| then Err(MissingBracket) else Balance(w, q + 1, i)
    else if w[p] == LBRC then Balance(w, p + 1, i + 1)
    else if w[p] == RBRC then if i == 0 then Ok(p) else Balance(w, p + 1, i - 1)
    else Balance(w, p + 1, i)
  }

  /** The second loop of globbrace: the alternatives of the group closed at pe; one began at pl. */
  function Pieces(w: Word, pm: nat, pe: nat, pl: nat, i: nat): (r: Result<seq<Word>, Missing>)
    requires pl <= pm && pe < |w|
    decreases |w| - pm
  {
    if pm > pe then Ok([])
    else if w[pm] == LBRK then
      var q := Find(w, pm + 1, RBRK);
      if q == |w| then Err(MissingBracket) else Pieces(w, q + 1, pe, pl, i)
    else if w[pm] == LBRC then Pieces(w, pm + 1, pe, pl, i + 1)
    else if w[pm] == RBRC && i > 0 then Pieces(w, pm + 1, pe, pl, i - 1)
    else if w[pm] == RBRC || (w[pm] == COMMA && i == 0) then
      var rest := Pieces(w, pm + 1, pe, pm + 1, i);
      if rest.Err? then rest else Ok([w[pl..pm]] + rest.value)
    else Pieces(w, pm + 1, pe, pl, i)
  }

  /** Each alternative between what comes before and after the group. */
  function Around(pre: Word, mids: seq<Word>, post: Word): (r: seq<Word>)
    ensures |r| == |mids| && forall k | 0 <= k < |mids| :: r[k] == pre + mids[k] + post
  {
    seq(|mids|, k requires 0 <= k < |mids| => pre + mids[k] + post)
  }

  /** globbrace on a word that has an open brace. */
  function GlobBrace(w: Word): (r: Result<seq<Word>, Missing>)
    requires LBRC in w
  {
    var b := Find(w, 0, LBRC);
    assert b < |w|;
    match Balance(w, b + 1, 0)
    case Err(e) => Err(e)
    case Ok(pe) =>
      match Pieces(w, b + 1, pe, b + 1, 0)
      case Err(e) => Err(e)
      case Ok(mids) => Ok(Around(w[..b], mids, w[pe + 1..]))
  }

  /** Words left alone: the two that find uses, and those without an open brace. */
  predicate Untouched(w: Word) { w == [LBRC] || w == [LBRC, RBRC] }
  predicate Final(w: Word) { Untouched(w) || LBRC !in w }

  // ---------- every expansion step lowers the number of open braces ----------

  function Opens(w: Word): nat { if w == [] then 0 else (if w[0] == LBRC then 1 else 0) + Opens(w[1..]) }

  lemma {:induction false} OpensAppend(a: Word, b: Word)
    ensures Opens(a + b) == Opens(a) + Opens(b)
  {
    if a == [] {
      assert a + b == b;
    } else {
      OpensAppend(a[1..], b);
      assert (a + b)[1..] == a[1..] + b;
    }
  }

  /** Both loops of globbrace walk in step, so the second one never misses a bracket and always
      closes at least one alternative; each lies inside the group. */
  lemma {:induction false} PiecesInside(w: Word, p: nat, pe: nat, pl: nat, i: nat)
    requires pl <= p <= |w| && Balance(w, p, i) == Ok(pe)
    ensures var r := Pieces(w, p, pe, pl, i);
            r.Ok? && r.value != [] && forall m | m in r.value :: Inside(w, pl, pe, m)
    decreases |w| - p
  {
    if w[p] == LBRK {
      PiecesInside(w, Find(w, p + 1, RBRK) + 1, pe, pl, i);
    } else if w[p] == LBRC {
      PiecesInside(w, p + 1, pe, pl, i + 1);
    } else if w[p] == RBRC && i > 0 {
      PiecesInside(w, p + 1, pe, pl, i - 1);
    } else if w[p] == RBRC {
      assert pe == p && Pieces(w, p + 1, pe, p + 1, i) == Ok([]);
      assert [w[pl..p]] + [] == [w[pl..p]];
      IsInside(w, pl, pe, pl, p);
    } else if w[p] == COMMA && i == 0 {
      PiecesInside(w, p + 1, pe, p + 1, i);
      IsInside(w, pl, pe, pl, p);
      forall m | m in Pieces(w, p + 1, pe, p + 1, i).value ensures Inside(w, pl, pe, m) {
        InsideMore(w, pl, p + 1, pe, m);
      }
    } else {
      PiecesInside(w, p + 1, pe, pl, i);
    }
  }

  ghost predicate Inside(w: Word, lo: nat, hi: nat, m: Word)
    requires hi < |w|
  {
    exists a: nat, z: nat :: lo <= a <= z <= hi && m == w[a..z]
  }

  lemma {:induction false} IsInside(w: Word, lo: nat, hi: nat, a: nat, z: nat)
    requires hi < |w| && lo <= a <= z <= hi
    ensures Inside(w, lo, hi, w[a..z])
  {
  }

  lemma {:induction false} InsideMore(w: Word, lo: nat, lo': nat, hi: nat, m: Word)
    requires lo <= lo' && hi < |w| && Inside(w, lo', hi, m)
    ensures Inside(w, lo, hi, m)
  {
  }

  lemma {:induction false} InsideLess(w: Word, b: nat, pe: nat, m: Word)
    requires b < pe < |w| && w[b] == LBRC && Inside(w, b + 1, pe, m)
    ensures Opens(w[..b] + m + w[pe + 1..]) < Opens(w)
    ensures |w[..b] + m + w[pe + 1..]| < |w|
  {
    hide Opens;
    var a: nat, z: nat :| b + 1 <= a <= z <= pe && m == w[a..z];
    OpensWhole(w, b, pe);
    OpensSplit(w, b + 1, a, pe + 1);
    OpensSplit(w, a, z, pe + 1);
    OpensAppend(w[..b], m);
    OpensAppend(w[..b] + m, w[pe + 1..]);
  }

  lemma {:induction false} OpensSplit(w: Word, i: nat, j: nat, k: nat)
    requires i <= j <= k <= |w|
    ensures Opens(w[i..k]) == Opens(w[i..j]) + Opens(w[j..k])
  {
    hide Opens;
    assert w[i..k] == w[i..j] + w[j..k];
    OpensAppend(w[i..j], w[j..k]);
  }

  /** Before the brace at b, the brace, the rest of its group, and behind it. */
  lemma {:induction false} OpensWhole(w: Word, b: nat, pe: nat)
    requires b < pe < |w| && w[b] == LBRC
    ensures Opens(w) == Opens(w[..b]) + 1 + Opens(w[b + 1..pe + 1]) + Opens(w[pe + 1..])
  {
    var g := [LBRC] + w[b + 1..pe + 1];
    assert g[1..] == w[b + 1..pe + 1];
    assert Opens(g) == 1 + Opens(w[b + 1..pe + 1]);
    hide Opens;
    assert w == w[..b] + g + w[pe + 1..];
    OpensAppend(w[..b], g);
    OpensAppend(w[..b] + g, w[pe + 1..]);
  }

  lemma {:induction false} GroupShrinks(w: Word, b: nat, pe: nat, mids: seq<Word>)
    requires b < pe < |w| && w[b] == LBRC && forall m | m in mids :: Inside(w, b + 1, pe, m)
    ensures forall v | v in Around(w[..b], mids, w[pe + 1..]) :: Opens(v) < Opens(w) && |v| < |w|
  {
    hide Opens, Inside;
    forall k | 0 <= k < |mids|
      ensures Opens(w[..b] + mids[k] + w[pe + 1..]) < Opens(w) && |w[..b] + mids[k] + w[pe + 1..]| < |w|
    {
      assert mids[k] in mids;
      InsideLess(w, b, pe, mids[k]);
    }
  }

  /** globbrace yields at least one word, and each has fewer open braces and is shorter. */
  lemma {:induction false} GlobBraceShrinks(w: Word)
    requires LBRC in w && GlobBrace(w).Ok?
    ensures GlobBrace(w).value != []
    ensures forall v | v in GlobBrace(w).value :: Opens(v) < Opens(w) && |v| < |w|
  {
    hide Opens, Pieces, Balance, Inside, Find, Around;
    var b := Find(w, 0, LBRC);
    assert b < |w|;
    var pe := Balance(w, b + 1, 0).value;
    PiecesInside(w, b + 1, pe, b + 1, 0);
    var mids := Pieces(w, b + 1, pe, b + 1, 0).value;
    assert GlobBrace(w).value == Around(w[..b], mids, w[pe + 1..]);
    GroupShrinks(w, b, pe, mids);
  }

  // ---------- full expansion ----------

  /** The word expanded until nothing but final words is left, in order; or the first thing missing. */
  function Expand(w: Word): Result<seq<Word>, Missing>
    decreases Opens(w), 1, 0
  {
    if Final(w) then Ok([w])
    else
      match GlobBrace(w)
      case Err(e) => Err(e)
      case Ok(vs) =>
        GlobBraceShrinks(w);
        ExpandUnder(vs, Opens(w))
  }

  /** Expansion of words that all have fewer than n open braces. */
  function ExpandUnder(vs: seq<Word>, n: nat): Result<seq<Word>, Missing>
    requires forall v | v in vs :: Opens(v) < n
    decreases n, 0, |vs|
  {
    if vs == [] then Ok([]) else Then(Expand(vs[0]), ExpandUnder(vs[1..], n))
  }

  /** Sequential composition: the first error wins. */
  function Then(a: Result<seq<Word>, Missing>, b: Result<seq<Word>, Missing>): Result<seq<Word>, Missing>
  {
    if a.Err? then a else if b.Err? then b else Ok(a.value + b.value)
  }

  /** expbrace on a whole vector. */
  function ExpandAll(vs: seq<Word>): Result<seq<Word>, Missing>
  {
    if vs == [] then Ok([]) else Then(Expand(vs[0]), ExpandAll(vs[1..]))
  }

  lemma {:induction false} UnderIsAll(vs: seq<Word>, n: nat)
    requires forall v | v in vs :: Opens(v) < n
    ensures ExpandUnder(vs, n) == ExpandAll(vs)
  {
    if vs != [] { UnderIsAll(vs[1..], n); }
  }

  /** One step: a word with an open brace stands for the words globbrace makes of it. */
  lemma {:induction false} ExpandStep(w: Word)
    requires !Final(w)
    ensures Expand(w) == if GlobBrace(w).Err? then Err(GlobBrace(w).error) else ExpandAll(GlobBrace(w).value)
  {
    if GlobBrace(w).Ok? {
      GlobBraceShrinks(w);
      UnderIsAll(GlobBrace(w).value, Opens(w));
    }
  }

  lemma {:induction false} ExpandAllAppend(a: seq<Word>, b: seq<Word>)
    ensures ExpandAll(a + b) == Then(ExpandAll(a), ExpandAll(b))
  {
    hide Expand;
    if a == [] {
      assert a + b == b;
      if ExpandAll(b).Ok? { assert [] + ExpandAll(b).value == ExpandAll(b).value; }
    } else {
      ExpandAllAppend(a[1..], b);
      assert (a + b)[1..] == a[1..] + b;
      var x, y, z := Expand(a[0]), ExpandAll(a[1..]), ExpandAll(b);
      if x.Ok? && y.Ok? && z.Ok? { assert x.value + y.value + z.value == x.value + (y.value + z.value); }
    }
  }

  /** Everything expansion returns is final, and no longer than the word it came from. */
  lemma {:induction false} ExpandFinal(w: Word)
    requires Expand(w).Ok?
    ensures forall v | v in Expand(w).value :: Final(v) && |v| <= |w|
    decreases Opens(w), 1, 0
  {
    if !Final(w) {
      var vs := GlobBrace(w).value;
      GlobBraceShrinks(w);
      ExpandUnderFinal(vs, Opens(w), |w|);
    }
  }

  lemma {:induction false} ExpandUnderFinal(vs: seq<Word>, n: nat, len: nat)
    requires forall v | v in vs :: Opens(v) < n && |v| <= len
    requires ExpandUnder(vs, n).Ok?
    ensures forall v | v in ExpandUnder(vs, n).value :: Final(v) && |v| <= len
    decreases n, 0, |vs|
  {
    if vs != [] {
      ExpandFinal(vs[0]);
      ExpandUnderFinal(vs[1..], n, len);
    }
  }

  // ---------- the termination measure of the worklist ----------

  /** How often expbrace looks at a word and at what it makes of it. */
  function Steps(w: Word): (r: nat)
    ensures r > 0
    decreases Opens(w), 1, 0
  {
    if Final(w) || GlobBrace(w).Err? then 1
    else
      GlobBraceShrinks(w);
      1 + StepsUnder(GlobBrace(w).value, Opens(w))
  }

  function StepsUnder(vs: seq<Word>, n: nat): nat
    requires forall v | v in vs :: Opens(v) < n
    decreases n, 0, |vs|
  {
    if vs == [] then 0 else Steps(vs[0]) + StepsUnder(vs[1..], n)
  }

  function TotalSteps(vs: seq<Word>): nat { if vs == [] then 0 else Steps(vs[0]) + TotalSteps(vs[1..]) }

  lemma {:induction false} UnderIsTotal(vs: seq<Word>, n: nat)
    requires forall v | v in vs :: Opens(v) < n
    ensures StepsUnder(vs, n) == TotalSteps(vs)
  {
    if vs != [] { UnderIsTotal(vs[1..], n); }
  }

  lemma {:induction false} TotalAppend(a: seq<Word>, b: seq<Word>)
    ensures TotalSteps(a + b) == TotalSteps(a) + TotalSteps(b)
  {
    hide Steps;
    if a == [] {
      assert a + b == b;
    } else {
      TotalAppend(a[1..], b);
      assert (a + b)[1..] == a[1..] + b;
    }
  }

  /** The worklist's measure goes down when a word is replaced by what globbrace makes of it. */
  lemma {:induction false} StepsDown(w: Word, rest: seq<Word>)
    requires !Final(w) && GlobBrace(w).Ok?
    ensures TotalSteps(GlobBrace(w).value + rest) < TotalSteps([w] + rest)
  {
    GlobBraceShrinks(w);
    UnderIsTotal(GlobBrace(w).value, Opens(w));
    TotalAppend(GlobBrace(w).value, rest);
    assert ([w] + rest)[1..] == rest;
  }
}
