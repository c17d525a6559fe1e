/** Words whose braces or brackets are not closed, and the two that expansion leaves alone. */
module GlobErrors {
  import opened Wrappers
  import opened Sequences
  import opened GlobBraces
  import opened GlobProduct

  /** Braces that open and are never closed, each with alternatives behind it. */
  function Unclosed(ts: seq<seq<Alt>>): Word
  {
    if ts == [] then [] else [LBRC] + PrintAlts(ts[0]) + Unclosed(ts[1..])
  }

  predicate FineTails(ts: seq<seq<Alt>>) { forall k | 0 <= k < |ts| :: ts[k] != [] && FineAlts(ts[k]) }

  /** The first loop of globbrace passes over parts, complete groups and commas. */
  lemma {:induction false} PassParts(w: Word, p: nat, parts: seq<Part>, i: nat)
    requires Fine(parts, true) && At(w, p, Print(parts)) && p + |Print(parts)| <= |w|
    ensures Balance(w, p, i) == Balance(w, p + |Print(parts)|, i)
    decreases parts
  {
    hide Balance, At;
    if parts != [] {
      AtSplit(w, p, PrintPart(parts[0]), Print(parts[1..]));
      PassPart(w, p, parts[0], i);
      PassParts(w, p + |PrintPart(parts[0])|, parts[1..], i);
    }
  }

  lemma {:induction false} PassPart(w: Word, p: nat, x: Part, i: nat)
    requires FinePart(x, true) && At(w, p, PrintPart(x)) && p + |PrintPart(x)| <= |w|
    ensures Balance(w, p, i) == Balance(w, p + |PrintPart(x)|, i)
    decreases x
  {
    match x
    case Lit(c) => assert w[p] == c;
    case Class(b) => PassClass(w, p, b, i);
    case Group(alts) => PassGroup(w, p, alts, i);
  }

  lemma {:induction false} PassClass(w: Word, p: nat, b: Word, i: nat)
    requires RBRK !in b && At(w, p, [LBRK] + b + [RBRK]) && p + |b| + 2 <= |w|
    ensures Balance(w, p, i) == Balance(w, p + |b| + 2, i)
  {
    AtSplit(w, p, [LBRK] + b, [RBRK]);
    AtSplit(w, p, [LBRK], b);
    assert w[p] == LBRK && w[p + 1 + |b|] == RBRK;
    FindAt(w, p + 1, b, RBRK);
  }

  lemma {:induction false} PassGroup(w: Word, p: nat, alts: seq<Alt>, i: nat)
    requires alts != [] && FineAlts(alts) && At(w, p, [LBRC] + PrintAlts(alts) + [RBRC])
    requires p + |PrintAlts(alts)| + 2 <= |w|
    ensures Balance(w, p, i) == Balance(w, p + |PrintAlts(alts)| + 2, i)
    decreases alts, 1
  {
    hide PrintAlts, FineAlts;
    var z := p + 1 + |PrintAlts(alts)|;
    AtSplit(w, p, [LBRC] + PrintAlts(alts), [RBRC]);
    AtSplit(w, p, [LBRC], PrintAlts(alts));
    assert w[p] == LBRC && w[z] == RBRC;
    hide At;
    PassAlts(w, p + 1, alts, i + 1);
  }

  lemma {:induction false} PassAlts(w: Word, p: nat, alts: seq<Alt>, i: nat)
    requires alts != [] && FineAlts(alts) && At(w, p, PrintAlts(alts)) && p + |PrintAlts(alts)| <= |w|
    ensures Balance(w, p, i) == Balance(w, p + |PrintAlts(alts)|, i)
    decreases alts, 0
  {
    hide Balance, At, Print;
    var a := alts[0].parts;
    if |alts| == 1 {
      PassParts(w, p, a, i);
    } else {
      var q := p + |Print(a)|;
      AtSplit(w, p, Print(a) + [COMMA], PrintAlts(alts[1..]));
      AtSplit(w, p, Print(a), [COMMA]);
      PassParts(w, p, a, i);
      PassComma(w, q, i);
      PassAlts(w, q + 1, alts[1..], i);
    }
  }

  lemma {:induction false} PassComma(w: Word, q: nat, i: nat)
    requires At(w, q, [COMMA]) && q < |w|
    ensures Balance(w, q, i) == Balance(w, q + 1, i)
  {
  }

  /** Over braces that stay open. */
  lemma {:induction false} PassOpen(w: Word, p: nat, ts: seq<seq<Alt>>, i: nat)
    requires FineTails(ts) && At(w, p, Unclosed(ts)) && p + |Unclosed(ts)| <= |w|
    ensures Balance(w, p, i) == Balance(w, p + |Unclosed(ts)|, i + |ts|)
    decreases |ts|
  {
    if ts != [] {
      var m, rest := PrintAlts(ts[0]), Unclosed(ts[1..]);
      AtSplit(w, p, [LBRC] + m, rest);
      AtSplit(w, p, [LBRC], m);
      assert w[p] == LBRC;
      hide At, PrintAlts, Unclosed;
      PassAlts(w, p + 1, ts[0], i + 1);
      PassOpen(w, p + 1 + |m|, ts[1..], i + 1);
    }
  }

  /** What is left open behind the braces: a bracket with what follows it, or nothing. */
  function Ending(bracket: Option<Word>): Word { if bracket.Some? then [LBRK] + bracket.value else [] }

  function Lacking(bracket: Option<Word>): Missing { if bracket.Some? then MissingBracket else MissingBrace }

  lemma {:induction false} OpenScan(w: Word, a: Word, ts: seq<seq<Alt>>, bracket: Option<Word>)
    requires FineTails(ts) && ts != [] && (bracket.Some? ==> RBRK !in bracket.value)
    requires w == a + (PrintAlts(ts[0]) + (Unclosed(ts[1..]) + Ending(bracket)))
    ensures Balance(w, |a|, 0) == Err(Lacking(bracket))
  {
    hide At, Unclosed, Ending, Balance, PrintAlts, Lacking;
    var m, u, end := PrintAlts(ts[0]), Unclosed(ts[1..]), Ending(bracket);
    assert w == a + m + (u + end) && w == (a + m) + u + end && w == a + m + u + end;
    AtMiddle(a, m, u + end);
    AtMiddle(a + m, u, end);
    PassAlts(w, |a|, ts[0], 0);
    PassOpen(w, |a + m|, ts[1..], 0);
    AtLast(w, a + m + u, bracket, |ts| - 1);
  }

  /** What is reported: the bracket if one is left open behind the braces, the brace otherwise. */
  lemma {:induction false} UnclosedReported(pre: seq<Part>, ts: seq<seq<Alt>>, bracket: Option<Word>)
    requires NoGroup(pre) && Fine(pre, false) && FineTails(ts) && ts != []
    requires bracket.Some? ==> RBRK !in bracket.value
    requires Print(pre) + Unclosed(ts) + Ending(bracket) !in {[LBRC], [LBRC, RBRC]}
    ensures Expand(Print(pre) + Unclosed(ts) + Ending(bracket)) == Err(Lacking(bracket))
  {
    hide Unclosed, Print, PrintAlts, Ending, Lacking, Fine, Expand, Balance, Find;
    var a, m, u, end := Print(pre), PrintAlts(ts[0]), Unclosed(ts[1..]), Ending(bracket);
    PlainPrint(pre);
    UnclosedHead(ts);
    Regroup(a, [LBRC], m, u, end);
    OpenScan(a + Unclosed(ts) + end, a + [LBRC], ts, bracket);
    StartsGroup(a + Unclosed(ts) + end, a, [LBRC] + (m + (u + end)));
    Fails(a + Unclosed(ts) + end, |a|, Lacking(bracket));
  }

  lemma {:induction false} UnclosedHead(ts: seq<seq<Alt>>)
    requires ts != []
    ensures Unclosed(ts) == [LBRC] + PrintAlts(ts[0]) + Unclosed(ts[1..])
  {
  }

  lemma {:induction false} Regroup(a: Word, l: Word, m: Word, u: Word, e: Word)
    ensures a + (l + m + u) + e == (a + l) + (m + (u + e)) == a + (l + (m + (u + e)))
  {
  }

  lemma {:induction false} StartsGroup(w: Word, a: Word, z: Word)
    requires LBRC !in a && z != [] && z[0] == LBRC && w == a + z
    ensures |a| < |w| && Find(w, 0, LBRC) == |a| && LBRC in w
  {
    assert w[|a|] == LBRC;
    assert [] + a + z == w;
    AtMiddle([], a, z);
    FindAt(w, 0, a, LBRC);
  }

  lemma {:induction false} AtLast(w: Word, a: Word, bracket: Option<Word>, i: nat)
    requires w == a + Ending(bracket) && (bracket.Some? ==> RBRK !in bracket.value)
    ensures Balance(w, |a|, i) == Err(Lacking(bracket))
  {
    if bracket.Some? {
      assert w[|a|] == LBRK && w[|a| + 1..] == bracket.value;
      NotThere(w, |a| + 1, RBRK);
    }
  }

  lemma {:induction false} NotThere(w: Word, p: nat, c: Char)
    requires p <= |w| && c !in w[p..]
    ensures Find(w, p, c) == |w|
    decreases |w| - p
  {
    if p < |w| {
      assert w[p..][0] == w[p] && w[p..][1..] == w[p + 1..];
      NotThere(w, p + 1, c);
    }
  }

  lemma {:induction false} Fails(w: Word, b: nat, e: Missing)
    requires LBRC in w && w !in {[LBRC], [LBRC, RBRC]} && Find(w, 0, LBRC) == b < |w| && Balance(w, b + 1, 0) == Err(e)
    ensures Expand(w) == Err(e)
  {
    hide Balance, Find, Pieces;
  }

  /** The words { and {} are left as they are. */
  lemma {:induction false} BareWords()
    ensures Expand([LBRC]) == Ok([[LBRC]]) && Expand([LBRC, RBRC]) == Ok([[LBRC, RBRC]])
  {
  }

  /** Of several words the first that fails gives the error, whatever the others are. */
  lemma {:induction false} FirstFails(done: seq<Word>, v: Word, rest: seq<Word>, e: Missing)
    requires (forall x | x in done :: Expand(x).Ok?) && Expand(v) == Err(e)
    ensures ExpandAll(done + [v] + rest) == Err(e)
    decreases |done|
  {
    hide Expand;
    var vs := done + [v] + rest;
    if done == [] {
      assert vs[0] == v;
    } else {
      assert vs[0] == done[0] && vs[1..] == done[1..] + [v] + rest;
      FirstFails(done[1..], v, rest, e);
    }
  }
}
