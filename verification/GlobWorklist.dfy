/**
 * globbrace and expbrace of bin/csh/glob.c as they run: pointer loops over a word, and a worklist
 * over a NULL-terminated vector that is shifted and grown in place.
 */
module GlobWorklist {
  import opened Wrappers
  import opened Sequences
  import opened GlobBraces

  const GLOBSPACE := 100

  /** What a loop has collected so far, followed by what is still to come. */
  function Cat(done: seq<Word>, r: Result<seq<Word>, Missing>): Result<seq<Word>, Missing>
  {
    if r.Err? then r else Ok(done + r.value)
  }

  method SkipTo(w: Word, p: nat, c: Char) returns (q: nat)
    requires p <= |w|
    ensures q == Find(w, p, c)
  {
    q := p;
    while q < |w| && w[q] != c
      invariant p <= q <= |w| && Find(w, p, c) == Find(w, q, c)
    {
      q := q + 1;
    }
  }

  method FindClose(w: Word, p: nat) returns (r: Result<nat, Missing>)
    requires p <= |w|
    ensures r == Balance(w, p, 0)
  {
    var i, pe := 0, p;
    while pe < |w| && !(w[pe] == RBRC && i == 0)
      invariant p <= pe <= |w| && 0 <= i && Balance(w, p, 0) == Balance(w, pe, i)
      decreases |w| - pe
    {
      if w[pe] == LBRK {
        // everything between [] is ignored
        pe := SkipTo(w, pe + 1, RBRK);
        if pe == |w| { return Err(MissingBracket); }
      } else if w[pe] == LBRC {
        i := i + 1;
      } else if w[pe] == RBRC {
        i := i - 1;
      }
      pe := pe + 1;
    }
    if pe == |w| { return Err(MissingBrace); }
    return Ok(pe);
  }

  /** globbrace: the words that replace w, or what is missing in it. */
  method SplitGroup(w: Word) returns (r: Result<seq<Word>, Missing>)
    requires LBRC in w
    ensures r == GlobBrace(w)
  {
    var b := SkipTo(w, 0, LBRC);
    var close := FindClose(w, b + 1);
    if close.Err? { return Err(close.error); }
    r := Alternatives(w, b, close.value);
  }

  /** The second loop of globbrace, over the group opened at b and closed at pe. */
  method Alternatives(w: Word, b: nat, pe: nat) returns (r: Result<seq<Word>, Missing>)
    requires b < pe < |w|
    ensures var mids := Pieces(w, b + 1, pe, b + 1, 0);
            r == if mids.Err? then mids else Ok(Around(w[..b], mids.value, w[pe + 1..]))
  {
    hide Around, Cat;
    var pre, post := w[..b], w[pe + 1..];
    var nv: seq<Word>, i: nat, pl, pm := [], 0, b + 1, b + 1;
    ghost var mids: seq<Word> := [];
    CatNothing(Pieces(w, b + 1, pe, b + 1, 0));
    while pm <= pe
      invariant b + 1 <= pl <= pm && nv == Around(pre, mids, post)
      invariant Pieces(w, b + 1, pe, b + 1, 0) == Cat(mids, Pieces(w, pm, pe, pl, i))
      decreases |w| - pm
    {
      if w[pm] == LBRK {
        pm := SkipTo(w, pm + 1, RBRK);
        if pm == |w| {
          CatError(mids, MissingBracket);
          return Err(MissingBracket);
        }
      } else if w[pm] == LBRC {
        i := i + 1;
      } else if w[pm] == RBRC && i > 0 {
        i := i - 1;
      } else if w[pm] == RBRC || (w[pm] == COMMA && i == 0) {
        CatPiece(mids, w[pl..pm], Pieces(w, pm + 1, pe, pm + 1, i));
        AroundPush(pre, mids, w[pl..pm], post);
        nv := nv + [pre + w[pl..pm] + post];
        mids := mids + [w[pl..pm]];
        pl := pm + 1;
      }
      pm := pm + 1;
    }
    CatDone(mids);
    return Ok(nv);
  }

  lemma {:induction false} AroundPush(pre: Word, mids: seq<Word>, m: Word, post: Word)
    ensures Around(pre, mids + [m], post) == Around(pre, mids, post) + [pre + m + post]
  {
  }

  lemma {:induction false} CatError(done: seq<Word>, e: Missing)
    ensures Cat(done, Err(e)) == Err(e)
  {
  }

  lemma {:induction false} CatDone(done: seq<Word>)
    ensures Cat(done, Ok([])) == Ok(done)
  {
    assert done + [] == done;
  }

  lemma {:induction false} CatPiece(done: seq<Word>, m: Word, r: Result<seq<Word>, Missing>)
    ensures Cat(done, if r.Err? then r else Ok([m] + r.value)) == Cat(done + [m], r)
  {
    if r.Ok? { Assoc(done, [m], r.value); }
  }

  lemma {:induction false} CatNothing(r: Result<seq<Word>, Missing>)
    ensures Cat([], r) == r
  {
    if r.Ok? { assert [] + r.value == r.value; }
  }

  /** A vector: its words, then NULL. */
  function Terminated(ws: seq<Word>): (r: seq<Option<Word>>)
    ensures |r| == |ws| + 1 && r[|ws|] == None && forall k | 0 <= k < |ws| :: r[k] == Some(ws[k])
  {
    seq(|ws|, k requires 0 <= k < |ws| => Some(ws[k])) + [None]
  }

  ghost predicate Holds(nv: array<Option<Word>>, ws: seq<Word>)
    reads nv
  {
    |ws| < nv.Length && nv[..|ws| + 1] == Terminated(ws)
  }

  /** xrealloc: a larger vector with the same contents up to the terminator. */
  method Grow(nv: array<Option<Word>>, size: nat, ghost ws: seq<Word>) returns (r: array<Option<Word>>)
    requires Holds(nv, ws) && nv.Length <= size
    ensures fresh(r) && r.Length == size && Holds(r, ws)
  {
    r := new Option<Word>[size](_ => None);
    var i := 0;
    while i < nv.Length
      invariant 0 <= i <= nv.Length && r[..i] == nv[..i]
    {
      r[i] := nv[i];
      i := i + 1;
    }
    assert r[..|ws| + 1] == r[..i][..|ws| + 1];
  }

  /** Moves everything after vp, terminator included, up by len. */
  method Shift(nv: array<Option<Word>>, vp: nat, ex: nat, len: nat)
    requires vp <= ex && ex + len < nv.Length
    modifies nv
    ensures forall k | 0 <= k <= vp :: nv[k] == old(nv[k])
    ensures forall k | vp + len < k <= ex + len :: nv[k] == old(nv[..])[k - len]
  {
    ghost var was := nv[..];
    var bp := ex;
    while bp != vp
      invariant vp <= bp <= ex
      invariant forall k | 0 <= k <= bp :: nv[k] == was[k]
      invariant forall k | bp + len < k <= ex + len :: nv[k] == was[k - len]
      decreases bp
    {
      nv[bp + len] := nv[bp];
      bp := bp - 1;
    }
  }

  method Store(nv: array<Option<Word>>, vp: nat, bl: seq<Word>)
    requires vp + |bl| <= nv.Length
    modifies nv
    ensures forall k | 0 <= k < |bl| :: nv[vp + k] == Some(bl[k])
    ensures forall k | 0 <= k < nv.Length && !(vp <= k < vp + |bl|) :: nv[k] == old(nv[k])
  {
    var i := 0;
    while i < |bl|
      invariant 0 <= i <= |bl|
      invariant forall k | 0 <= k < i :: nv[vp + k] == Some(bl[k])
      invariant forall k | 0 <= k < nv.Length && !(vp <= k < vp + i) :: nv[k] == old(nv[k])
    {
      nv[vp + i] := Some(bl[i]);
      i := i + 1;
    }
  }

  /** The word at vp gives way to the words bl; what follows moves up to make room. */
  method Splice(nv: array<Option<Word>>, vp: nat, ex: nat, bl: seq<Word>, ghost done: seq<Word>,
                ghost rest: seq<Word>)
    requires vp == |done| && rest != [] && ex == |done| + |rest| && Holds(nv, done + rest)
    requires bl != [] && ex + |bl| - 1 < nv.Length
    modifies nv
    ensures Holds(nv, done + (bl + rest[1..]))
  {
    ghost var was := nv[..];
    assert was[..ex + 1] == nv[..ex + 1];
    Shift(nv, vp, ex, |bl| - 1);
    assert forall k | 0 <= k < vp :: nv[k] == was[k];
    Store(nv, vp, bl);
    SplicedAll(was, nv, done, bl, rest);
  }

  lemma {:induction false} SplicedAll(was: seq<Option<Word>>, nv: array<Option<Word>>, done: seq<Word>, bl: seq<Word>,
                                      rest: seq<Word>)
    requires bl != [] && rest != [] && nv.Length == |was| >= |done| + |bl| + |rest|
    requires was[..|done| + |rest| + 1] == Terminated(done + rest)
    requires forall k | 0 <= k < |done| :: nv[k] == was[k]
    requires forall k | 0 <= k < |bl| :: nv[|done| + k] == Some(bl[k])
    requires forall k | |done| + |bl| <= k < |done| + |bl| + |rest| :: nv[k] == was[k - (|bl| - 1)]
    ensures Holds(nv, done + (bl + rest[1..]))
  {
    hide Terminated;
    var before, after := Terminated(done + rest), Terminated(done + (bl + rest[1..]));
    assert forall k | 0 <= k <= |done| + |rest| :: was[k] == before[k];
    forall k | 0 <= k < |after| ensures nv[k] == after[k] {
      Spliced(done, bl, rest, k);
      if |done| <= k < |done| + |bl| { assert nv[|done| + (k - |done|)] == Some(bl[k - |done|]); }
    }
    assert nv[..|after|] == after;
  }

  /** The vector with the first of the pending words replaced by bl, cell by cell. */
  lemma {:induction false} Spliced(done: seq<Word>, bl: seq<Word>, rest: seq<Word>, k: nat)
    requires bl != [] && rest != [] && k <= |done| + |bl| + |rest| - 1
    ensures var now, was := Terminated(done + (bl + rest[1..])), Terminated(done + rest);
            now[k] == if k < |done| then was[k]
                      else if k < |done| + |bl| then Some(bl[k - |done|])
                      else was[k - (|bl| - 1)]
  {
    var ws := done + (bl + rest[1..]);
    if k < |ws| && k >= |done| + |bl| { assert ws[k] == rest[1..][k - |done| - |bl|]; }
  }

  method Replace(nv: array<Option<Word>>, vp: nat, w: Word, ghost done: seq<Word>, ghost rest: seq<Word>)
    requires vp == |done| && rest != [] && Holds(nv, done + rest)
    modifies nv
    ensures Holds(nv, done + ([w] + rest[1..]))
  {
    ghost var was := nv[..];
    nv[vp] := Some(w);
    ghost var ws := done + ([w] + rest[1..]);
    forall k | 0 <= k <= |ws| ensures nv[k] == Terminated(ws)[k] {
      assert k != vp ==> nv[k] == was[k] == was[..|ws| + 1][k] == Terminated(done + rest)[k];
    }
    assert nv[..|ws| + 1] == Terminated(ws);
  }

  method FindEnd(v: array<Option<Word>>, ghost words: seq<Word>) returns (ex: nat)
    requires Holds(v, words)
    ensures ex == |words|
  {
    ex := 0;
    assert forall k | 0 <= k <= |words| :: v[k] == v[..|words| + 1][k];
    while v[ex].Some?
      invariant ex <= |words|
      decreases |words| - ex
    {
      ex := ex + 1;
    }
  }

  /** What the worklist pointer sees: the first pending word, or the terminator when there is none. */
  lemma {:induction false} AtPointer(nv: array<Option<Word>>, done: seq<Word>, rest: seq<Word>)
    requires Holds(nv, done + rest)
    ensures nv[|done|] == if rest == [] then None else Some(rest[0])
  {
    assert nv[|done|] == nv[..|done + rest| + 1][|done|];
  }

  lemma {:induction false} KeepTurn(done: seq<Word>, rest: seq<Word>)
    requires rest != [] && Final(rest[0])
    ensures Cat(done, ExpandAll(rest)) == Cat(done + [rest[0]], ExpandAll(rest[1..]))
    ensures TotalSteps(rest[1..]) < TotalSteps(rest)
    ensures done + [rest[0]] + rest[1..] == done + rest
  {
    hide ExpandAll;
    assert ExpandAll(rest) == Then(Ok([rest[0]]), ExpandAll(rest[1..])) by { ExpandHead(rest); }
    CatPiece(done, rest[0], ExpandAll(rest[1..]));
  }

  lemma {:induction false} ExpandHead(rest: seq<Word>)
    requires rest != []
    ensures ExpandAll(rest) == Then(Expand(rest[0]), ExpandAll(rest[1..]))
  {
  }

  lemma {:induction false} SplitTurn(rest: seq<Word>)
    requires rest != [] && !Final(rest[0])
    ensures var g := GlobBrace(rest[0]);
            if g.Err? then ExpandAll(rest) == Err(g.error)
            else g.value != [] && ExpandAll(rest) == ExpandAll(g.value + rest[1..]) &&
                 TotalSteps(g.value + rest[1..]) < TotalSteps(rest)
  {
    hide ExpandAll, Expand, GlobBrace, TotalSteps;
    var g := GlobBrace(rest[0]);
    ExpandStep(rest[0]);
    ExpandHead(rest);
    if g.Ok? {
      GlobBraceShrinks(rest[0]);
      ExpandAllAppend(g.value, rest[1..]);
      StepsDown(rest[0], rest[1..]);
      assert [rest[0]] + rest[1..] == rest;
    }
  }

  /**
   * expbrace: the vector ends up holding exactly the expansion of every word in order, whatever the
   * capacity was, and all writes stay inside it; on an error the first missing character is reported.
   * elp is the index of the terminator when the caller knows it.
   */
  method ExpBrace(v: array<Option<Word>>, elp: Option<nat>, ghost words: seq<Word>)
    returns (nv: array<Option<Word>>, ex: nat, err: Option<Missing>)
    requires Holds(v, words) && (elp.Some? ==> elp.value == |words|)
    modifies v
    ensures err.Some? ==> ExpandAll(words) == Err(err.value)
    ensures err.None? ==> ExpandAll(words).Ok? && Holds(nv, ExpandAll(words).value) &&
                          ex == |ExpandAll(words).value|
  {
    hide ExpandAll, Expand, GlobBrace, TotalSteps;
    nv, err := v, None;
    if elp.Some? { ex := elp.value; } else { ex := FindEnd(v, words); }
    var vl: nat := 0;
    ghost var done: seq<Word>, rest := [], words;
    assert [] + words == words;
    CatNothing(ExpandAll(words));
    while nv[vl].Some?
      invariant (nv == v || fresh(nv)) && Holds(nv, done + rest)
      invariant vl == |done| && ex == |done| + |rest| && vl < nv.Length
      invariant ExpandAll(words) == Cat(done, ExpandAll(rest))
      decreases TotalSteps(rest)
    {
      AtPointer(nv, done, rest);
      var s := nv[vl].value;
      if s == [LBRC] || s == [LBRC, RBRC] || LBRC !in s {
        KeepTurn(done, rest);
        done, rest := done + [s], rest[1..];
        vl := vl + 1;
      } else {
        SplitTurn(rest);
        var g := SplitGroup(s);
        if g.Err? { return nv, ex, Some(g.error); }
        var bl := g.value;
        if |bl| == 1 {
          Replace(nv, vl, bl[0], done, rest);
          assert bl == [bl[0]];
        } else {
          if ex + |bl| >= nv.Length {
            var l := ex + |bl| - nv.Length;
            nv := Grow(nv, nv.Length + (if GLOBSPACE > l then GLOBSPACE else l), done + rest);
          }
          Splice(nv, vl, ex, bl, done, rest);
          ex := ex + |bl| - 1;
        }
        // the first of the new words is looked at next
        rest := bl + rest[1..];
      }
    }
    AtPointer(nv, done, rest);
    assert done + rest == done && done + [] == done;
    assert ExpandAll([]) == Ok([]) by { NothingLeft(); }
  }

  lemma {:induction false} NothingLeft()
    ensures ExpandAll([]) == Ok([])
  {
  }
}
