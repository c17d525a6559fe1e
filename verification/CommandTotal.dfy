/**
 * syn3 hands syn0 the range between two parentheses it has seen. On words whose parentheses never close
 * more than they opened both ends are always there; only such words get through the alias pass.
 */
module CommandTotal {
  import opened Wrappers
  import opened CommandSyntax
  import opened CommandGrammar
  import opened CommandQuiet

  ghost predicate Fit(err: Option<Error>) { err != Some(Stuck) }

  lemma {:induction false} WalkSlice(toks: seq<Token>, p: nat, q: nat, l: int)
    requires p <= q <= |toks| && Walk(toks[p..], l).Some?
    ensures var d := Walk(toks[p..q], l); d.Some? && d.value >= 0 && Walk(toks[q..], d.value) == Walk(toks[p..], l)
  {
    assert toks[p..] == toks[p..q] + toks[q..];
    WalkAppend(toks[p..q], toks[q..], l);
    if Walk(toks[p..q], l).Some? { WalkEnds(toks[p..q], l); }
  }

  lemma {:induction false} WalkEnds(toks: seq<Token>, l: int)
    requires Walk(toks, l).Some?
    ensures Walk(toks, l).value >= 0
    decreases |toks|
  {
    if toks != [] { WalkEnds(toks[1..], ParenStep(toks[0], l)); }
  }

  lemma {:induction false} WalkOne(toks: seq<Token>, p: nat, q: nat, l: int)
    requires p <= q < |toks| && Walk(toks[p..q], l).Some?
    ensures Walk(toks[p..q + 1], l) ==
            var d := ParenStep(toks[q], Walk(toks[p..q], l).value); if d < 0 then None else Some(d)
  {
    assert toks[p..q + 1] == toks[p..q] + [toks[q]];
    WalkAppend(toks[p..q], [toks[q]], l);
    WalkEnds(toks[p..q], l);
    assert [toks[q]][1..] == [];
  }

  // ---------- the scans ----------

  /** An operator found at depth 0 leaves balanced words on both sides. */
  lemma {:induction false} ScanWalk(op: Op, toks: seq<Token>, p: nat, l: int)
    requires p <= |toks| && l >= 0 && Walk(toks[p..], l) == Some(0)
    ensures var q := Scan(op, toks, p, l);
            q.Some? ==> Walk(toks[p..q.value], l) == Some(0) && Balanced(toks[q.value + 1..])
    decreases |toks| - p
  {
    if p < |toks| {
      var rest := toks[p..];
      assert rest[1..] == toks[p + 1..];
      if OpHere(op, toks[p]) && l == 0 {
        assert toks[p..p] == [];
      } else {
        hide OpHere, Balanced;
        var d := ParenStep(toks[p], l);
        assert d >= 0 && Walk(toks[p + 1..], d) == Some(0);
        ScanWalk(op, toks, p + 1, d);
        var q := Scan(op, toks, p, l);
        if q.Some? { assert toks[p..q.value][1..] == toks[p + 1..q.value]; }
      }
    }
  }

  lemma {:induction false} ScanAmpWalk(toks: seq<Token>, p: nat, d: Depth, err: Option<Error>)
    requires p <= |toks| && d.l >= 0 && Walk(toks[p..], d.l).Some?
    ensures match ScanAmp(toks, p, d, err)
            case Over(l, e) => e == err && Some(l) == Walk(toks[p..], d.l)
            case Hit(q, e) => e == err && Walk(toks[p..q], d.l) == Some(0) && Walk(toks[q..], 0).Some?
    decreases |toks| - p
  {
    if p < |toks| {
      var rest := toks[p..];
      assert rest[1..] == toks[p + 1..];
      if AmpHere(toks[p], d) {
        assert toks[p..p] == [];
      } else {
        var d' := DepthAfter(toks[p], d);
        assert d'.l == ParenStep(toks[p], d.l);
        ScanAmpWalk(toks, p + 1, d', err);
        match ScanAmp(toks, p, d, err)
        case Hit(q, e) => assert toks[p..q][1..] == toks[p + 1..q];
        case Over(l, e) =>
      }
    }
  }

  // ---------- syn3's second loop ----------

  /** The group seen so far: still open with l - 1 parentheses inside it, or closed and balanced. */
  ghost predicate Grouped(toks: seq<Token>, p: nat, g: Gather)
    requires p <= |toks|
  {
    && (g.l >= 1 ==> g.lp.Some? && g.lp.value <= p && Walk(toks[g.lp.value..p], 0) == Some(g.l - 1))
    && (g.l < 1 && g.lp.Some? ==>
          g.rp.Some? && g.lp.value <= g.rp.value < p && Balanced(toks[g.lp.value..g.rp.value]))
  }

  lemma {:induction false} ParenGrouped(toks: seq<Token>, p: nat, special: bool, g: Gather)
    requires p < |toks| && (C0(toks[p]) == '(' || C0(toks[p]) == ')') && Grouped(toks, p, g) && Fit(g.err)
    ensures var g' := GatherParen(toks, p, special, g);
            Grouped(toks, p + 1, g') && Fit(g'.err) && g'.l == ParenStep(toks[p], g.l)
  {
    if g.l >= 1 {
      WalkOne(toks, g.lp.value, p, 0);
    } else if g.l == 0 && C0(toks[p]) == '(' {
      assert toks[p + 1..p + 1] == [];
    }
  }

  lemma {:induction false} OtherGrouped(toks: seq<Token>, p: nat, q: nat, g: Gather, g': Gather)
    requires p <= q < |toks| && Grouped(toks, p, g)
    requires g'.l == g.l && g'.lp == g.lp && g'.rp == g.rp
    requires g.l >= 1 ==> q == p && ParenStep(toks[p], 0) == 0
    ensures Grouped(toks, q + 1, g')
  {
    if g.l >= 1 { WalkOne(toks, g.lp.value, p, 0); }
  }

  lemma {:induction false} RedirectFit(toks: seq<Token>, p: nat, m: Mode, g: Gather)
    requires p < |toks| && Fit(g.err)
    ensures Fit(GatherOut(toks, p, m, g).1.err) && Fit(GatherIn(toks, p, m, g).1.err)
  {
    hide GatherFile;
    var h := if C1(toks[p]) == '>' then g.(flags := g.flags + {Append}) else g;
    FileFit(toks, p, m, h);
    if p + 1 < |toks| { FileFit(toks, p + 1, m, h.(flags := h.flags + {Stderr})); }
  }

  lemma {:induction false} FileFit(toks: seq<Token>, p: nat, m: Mode, g: Gather)
    requires p < |toks| && Fit(g.err)
    ensures Fit(GatherFile(toks, p, m, g).1.err)
  {
  }

  /** d is the true depth; it is never below the one syn3 counts inside a group. */
  /** What a turn from p that used the words up to r.0 leaves, where d parentheses are open at p. */
  ghost predicate TurnLeaves(toks: seq<Token>, p: nat, d: int, r: (nat, Gather))
  {
    && p <= r.0 < |toks|
    && var d' := Walk(toks[p..r.0 + 1], d);
       && Grouped(toks, r.0 + 1, r.1) && Fit(r.1.err) && d'.Some? && d'.value >= 0
       && (r.1.l >= 1 ==> r.1.l <= d'.value) && Walk(toks[r.0 + 1..], d'.value) == Some(0)
  }

  lemma {:induction false} TurnGrouped(toks: seq<Token>, p: nat, m: Mode, special: bool, g: Gather, d: int)
    requires p < |toks| && Grouped(toks, p, g) && Fit(g.err) && d >= 0 && (g.l >= 1 ==> g.l <= d)
    requires Walk(toks[p..], d) == Some(0)
    ensures TurnLeaves(toks, p, d, GatherOne(toks, p, m, special, g))
  {
    hide Grouped, GatherParen, GatherOut, GatherIn, Walk;
    var (q, g') := GatherOne(toks, p, m, special, g);
    WalkSlice(toks, p, q + 1, d);
    if q == p { WalkWord(toks, p, d); }
    if C0(toks[p]) == '(' || C0(toks[p]) == ')' {
      ParenGrouped(toks, p, special, g);
    } else {
      RedirectFit(toks, p, m, g);
      OtherGrouped(toks, p, q, g, g');
    }
  }

  lemma {:induction false} WalkWord(toks: seq<Token>, p: nat, d: int)
    requires p < |toks| && d >= 0 && Walk(toks[p..p + 1], d).Some?
    ensures Walk(toks[p..p + 1], d) == Some(ParenStep(toks[p], d))
  {
    assert toks[p..p + 1][0] == toks[p] && toks[p..p + 1][1..] == [];
  }

  lemma {:induction false} AllGrouped(toks: seq<Token>, p: nat, m: Mode, special: bool, g: Gather, d: int)
    requires p <= |toks| && Grouped(toks, p, g) && Fit(g.err) && d >= 0 && (g.l >= 1 ==> g.l <= d)
    requires Walk(toks[p..], d) == Some(0)
    ensures var r := GatherAll(toks, p, m, special, g); Grouped(toks, |toks|, r) && Fit(r.err) && r.l < 1
    decreases |toks| - p
  {
    hide GatherOne, Grouped;
    if p < |toks| {
      TurnGrouped(toks, p, m, special, g, d);
      var (q, g') := GatherOne(toks, p, m, special, g);
      AllGrouped(toks, q + 1, m, special, g', Walk(toks[p..q + 1], d).value);
    } else {
      assert toks[p..] == [];
    }
  }

  // ---------- the grammar ----------

  lemma {:induction false} Fit3(toks: seq<Token>, nxt: char, m: Mode, err: Option<Error>)
    requires Balanced(toks) && Fit(err)
    ensures Fit(Syn3(toks, nxt, m, err).err)
    decreases |toks|, 1
  {
    hide GatherAll, Syn0;
    var special, start := Special(toks), Fresh(nxt, err);
    var g := GatherAll(toks, 0, m, special, start);
    assert toks[0..] == toks;
    AllGrouped(toks, 0, m, special, start, 0);
    if g.lp.Some? && !special {
      var e := if g.n != 0 then Report(g.err, BadPlps) else g.err;
      Fit0(toks[g.lp.value..g.rp.value], ')', Mode(true, false, false, false), e);
    }
  }

  lemma {:induction false} Fit2(toks: seq<Token>, nxt: char, m: Mode, err: Option<Error>)
    requires Balanced(toks) && Fit(err)
    ensures Fit(Syn2(toks, nxt, m, err).err)
    decreases |toks|, 2
  {
    hide Scan, Syn3, Balanced;
    ScanBalanced(OpPipe, toks);
    match Scan(OpPipe, toks, 0, 0)
    case None => Fit3(toks, nxt, m, err);
    case Some(p) =>
      var both := p + 1 < |toks| && C0(toks[p + 1]) == '&';
      var m1 := m.(pout := true, perr := m.perr || both);
      Fit3(toks[..p], '|', m1, err);
      if both { DropAmp(toks, p); }
      Fit2(toks[if both then p + 2 else p + 1..], nxt, m.(pin := true), Syn3(toks[..p], '|', m1, err).err);
  }

  lemma {:induction false} DropAmp(toks: seq<Token>, p: nat)
    requires p + 1 < |toks| && C0(toks[p + 1]) == '&' && Balanced(toks[p + 1..])
    ensures Balanced(toks[p + 2..])
  {
    assert toks[p + 1..][1..] == toks[p + 2..];
  }

  lemma {:induction false} ScanBalanced(op: Op, toks: seq<Token>)
    requires Balanced(toks)
    ensures var q := Scan(op, toks, 0, 0); q.Some? ==> Balanced(toks[..q.value]) && Balanced(toks[q.value + 1..])
  {
    assert toks[0..] == toks;
    ScanWalk(op, toks, 0, 0);
    var q := Scan(op, toks, 0, 0);
    if q.Some? { assert toks[0..q.value] == toks[..q.value]; }
  }

  lemma {:induction false} Fit1b(toks: seq<Token>, nxt: char, m: Mode, err: Option<Error>)
    requires Balanced(toks) && Fit(err)
    ensures Fit(Syn1b(toks, nxt, m, err).err)
    decreases |toks|, 3
  {
    hide Scan, Syn2, Balanced;
    ScanBalanced(OpAnd, toks);
    match Scan(OpAnd, toks, 0, 0)
    case None => Fit2(toks, nxt, m, err);
    case Some(p) =>
      Fit2(toks[..p], '&', m, err);
      Fit1b(toks[p + 1..], nxt, m, Syn2(toks[..p], '&', m, err).err);
  }

  lemma {:induction false} Fit1a(toks: seq<Token>, nxt: char, m: Mode, err: Option<Error>)
    requires Balanced(toks) && Fit(err)
    ensures Fit(Syn1a(toks, nxt, m, err).err)
    decreases |toks|, 4
  {
    hide Scan, Syn1b, Balanced;
    ScanBalanced(OpOr, toks);
    match Scan(OpOr, toks, 0, 0)
    case None => Fit1b(toks, nxt, m, err);
    case Some(p) =>
      Fit1b(toks[..p], '|', m, err);
      Fit1a(toks[p + 1..], nxt, m, Syn1b(toks[..p], '|', m, err).err);
  }

  lemma {:induction false} Fit1(toks: seq<Token>, nxt: char, m: Mode, err: Option<Error>)
    requires Balanced(toks) && Fit(err)
    ensures Fit(Syn1(toks, nxt, m, err).err)
    decreases |toks|, 5
  {
    hide Scan, Syn1a, Syntax;
    ScanBalanced(OpSemi, toks);
    match Scan(OpSemi, toks, 0, 0)
    case None => Fit1a(toks, nxt, m, err);
    case Some(p) =>
      Fit1a(toks[..p], C0(toks[p]), m, err);
      NeverStuck(toks[p + 1..], nxt, m, Syn1a(toks[..p], C0(toks[p]), m, err).err);
  }

  lemma {:induction false} Fit0(toks: seq<Token>, nxt: char, m: Mode, err: Option<Error>)
    requires Walk(toks, 0).Some? && Fit(err)
    ensures Fit(Syn0(toks, nxt, m, err).err)
    decreases |toks|, 6
  {
    hide ScanAmp, Syn1, Syntax;
    assert toks[0..] == toks;
    ScanAmpWalk(toks, 0, Depth(0, false), err);
    match ScanAmp(toks, 0, Depth(0, false), err)
    case Over(l, e) => if l == 0 { Fit1(toks, nxt, m, e); }
    case Hit(p, e) =>
      assert toks[0..p] == toks[..p];
      Fit1(toks[..p], '&', m, e);
      assert |Trim(toks[p..])| < |toks|;
      NeverStuck(toks[p..], nxt, m, Syn1(toks[..p], '&', m, e).err);
  }

  lemma {:induction false} TrimWalk(toks: seq<Token>)
    requires Walk(toks, 0).Some?
    ensures Walk(Trim(toks), 0).Some?
  {
    if toks != [] && IsSep(toks[0]) { TrimWalk(toks[1..]); }
  }

  /** On such words the parser never loses the end of a group. */
  lemma {:induction false} NeverStuck(toks: seq<Token>, nxt: char, m: Mode, err: Option<Error>)
    requires Walk(toks, 0).Some? && Fit(err)
    ensures Fit(Syntax(toks, nxt, m, err).err)
    decreases |Trim(toks)|, 7
  {
    hide Syn0;
    TrimWalk(toks);
    if Trim(toks) != [] { Fit0(Trim(toks), nxt, m, err); }
  }

  /** syn3 called on other words can: a redirection swallows the parenthesis that closes too much. The
      alias pass stops these words, so no command line leads to this call. */
  lemma {:induction false} StrayCloseSticks(m: Mode)
    ensures Syn3([">", ")", "("], NUL, m, None).err == Some(Stuck)
  {
    var toks: seq<Token> := [">", ")", "("];
    var g := Fresh(NUL, None);
    var (q, g1) := GatherOne(toks, 0, m, false, g);
    assert q == 1;
    var g2 := GatherOne(toks, 2, m, false, g1).1;
    assert GatherAll(toks, 3, m, false, g2) == g2;
    assert GatherAll(toks, 2, m, false, g1) == g2;
    assert GatherAll(toks, 0, m, false, g) == g2;
  }
}
