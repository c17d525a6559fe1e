/**
 * Exactly which words the alias pass lets through: words and groups as a tree, of which a command that starts
 * with a group may have no other.
 */
module CommandPieces {
  import opened Wrappers
  import opened CommandSyntax
  import opened CommandGrammar
  import opened CommandQuiet
  import opened CommandAlias

  datatype Piece = Tok(w: Token) | Nest(open: Token, inner: seq<Piece>, close: Token)

  function Flat(ps: seq<Piece>): seq<Token> { if ps == [] then [] else One(ps[0]) + Flat(ps[1..]) }

  function One(p: Piece): seq<Token>
  {
    match p
    case Tok(w) => [w]
    case Nest(open, inner, close) => [open] + Flat(inner) + [close]
  }

  predicate Begins(w: Token, c: char) { |w| > 0 && w[0] == c }

  predicate Paired(ps: seq<Piece>) { forall k | 0 <= k < |ps| :: PairedOne(ps[k]) }

  predicate PairedOne(p: Piece)
  {
    match p
    case Tok(w) => !Begins(w, '(') && !Begins(w, ')')
    case Nest(open, inner, close) => Begins(open, '(') && Begins(close, ')') && Paired(inner)
  }

  /** A word that ends a command; the & of a >& does not. */
  predicate CutAt(ps: seq<Piece>, k: nat)
    requires k < |ps|
  {
    ps[k].Tok? && |ps[k].w| > 0 && ps[k].w[0] in {'&', '|', ';', '\n'} && !Joined(ps, k)
  }

  predicate Joined(ps: seq<Piece>, k: nat)
    requires k < |ps|
  {
    k > 0 && ps[k] == Tok("&") && ps[k - 1].Tok? && Begins(ps[k - 1].w, '>')
  }

  predicate Starts(ps: seq<Piece>, i: nat)
    requires i < |ps|
  {
    i == 0 || CutAt(ps, i - 1)
  }

  /** Between two groups a command ends. */
  predicate Parted(ps: seq<Piece>, i: nat, j: nat)
    requires i < j < |ps|
  {
    exists k | i < k < j :: CutAt(ps, k)
  }

  ghost predicate Passes(ps: seq<Piece>)
  {
    forall i | 0 <= i < |ps| && ps[i].Nest? && Starts(ps, i) :: Passes(ps[i].inner) && Lonely(ps, i)
  }

  ghost predicate Lonely(ps: seq<Piece>, i: nat)
    requires i < |ps|
  {
    forall j | i < j < |ps| && ps[j].Nest? :: Parted(ps, i, j)
  }

  // ---------- positions ----------

  function First(ps: seq<Piece>, i: nat): (c: nat)
    requires i <= |ps|
    ensures i <= c <= |ps| && (c < |ps| ==> CutAt(ps, c)) && forall k | i <= k < c :: !CutAt(ps, k)
    decreases |ps| - i
  {
    if i == |ps| || CutAt(ps, i) then i else First(ps, i + 1)
  }

  lemma {:induction false} FlatAppend(a: seq<Piece>, b: seq<Piece>)
    ensures Flat(a + b) == Flat(a) + Flat(b)
    decreases |a|
  {
    if a == [] {
      assert a + b == b;
    } else {
      assert (a + b)[1..] == a[1..] + b;
      FlatAppend(a[1..], b);
    }
  }

  function Pos(ps: seq<Piece>, i: nat): nat
    requires i <= |ps|
  {
    |Flat(ps[..i])|
  }

  /** The words of one piece, in their place. */
  lemma {:induction false} PieceAt(ps: seq<Piece>, i: nat)
    requires i < |ps|
    ensures var p, w := Pos(ps, i), One(ps[i]);
            w != [] && Pos(ps, i + 1) == p + |w| <= |Flat(ps)| && Flat(ps)[p..p + |w|] == w && Flat(ps)[p] == w[0]
  {
    hide Flat, One;
    FlatOne(ps[i]);
    assert ps[..i + 1] == ps[..i] + [ps[i]] && ps == ps[..i + 1] + ps[i + 1..];
    FlatAppend(ps[..i], [ps[i]]);
    FlatAppend(ps[..i + 1], ps[i + 1..]);
    var a, w, b := Flat(ps[..i]), One(ps[i]), Flat(ps[i + 1..]);
    assert Flat(ps) == a + w + b;
    assert Flat(ps)[|a|..|a| + |w|] == w;
  }

  lemma {:induction false} FlatOne(p: Piece)
    ensures Flat([p]) == One(p) && One(p) != []
  {
    assert [p][1..] == [];
    assert One(p) + Flat([]) == One(p);
  }

  lemma {:induction false} Whole(ps: seq<Piece>)
    ensures Pos(ps, 0) == 0 && Pos(ps, |ps|) == |Flat(ps)|
  {
    assert ps[..0] == [] && ps[..|ps|] == ps;
  }

  // ---------- the loop of asyn0 over pieces ----------

  /** The pieces stand at base, and what stands behind them is no &. */
  ghost predicate Stand(toks: seq<Token>, base: nat, ps: seq<Piece>)
  {
    var e := base + |Flat(ps)|;
    e <= |toks| && toks[base..e] == Flat(ps) && (e < |toks| ==> toks[e] != "&")
  }

  /** From piece i on: to the next cut outside parentheses, or over all of them. */
  lemma {:induction false} WalksPieces(toks: seq<Token>, base: nat, ps: seq<Piece>, i: nat, l: nat)
    requires Paired(ps) && Stand(toks, base, ps) && i <= |ps| && (i < |ps| ==> !Joined(ps, i))
    ensures base + Pos(ps, i) <= |toks|
    ensures var c := First(ps, i);
            NextCut(toks, base + Pos(ps, i), l) ==
            if l == 0 && c < |ps| then Upto(base + Pos(ps, c)) else NextCut(toks, base + |Flat(ps)|, l)
    decreases ps, |ps| - i
  {
    hide Flat, One, NextCut;
    Whole(ps);
    if i < |ps| {
      PieceAt(ps, i);
      var p := base + Pos(ps, i);
      assert toks[p] == Flat(ps)[Pos(ps, i)] by { InPlace(toks, base, ps, Pos(ps, i)); }
      match ps[i]
      case Nest(open, inner, close) => WalksNest(toks, base, ps, i, l);
      case Tok(w) => WalksTok(toks, base, ps, i, l);
    }
  }

  lemma {:induction false} InPlace(toks: seq<Token>, base: nat, ps: seq<Piece>, k: nat)
    requires Stand(toks, base, ps) && k < |Flat(ps)|
    ensures base + k < |toks| && toks[base + k] == Flat(ps)[k]
  {
    hide Flat;
  }

  lemma {:induction false} WalksNest(toks: seq<Token>, base: nat, ps: seq<Piece>, i: nat, l: nat)
    requires Paired(ps) && Stand(toks, base, ps) && i < |ps| && ps[i].Nest?
    ensures base + Pos(ps, i) <= |toks|
    ensures var c := First(ps, i);
            NextCut(toks, base + Pos(ps, i), l) ==
            if l == 0 && c < |ps| then Upto(base + Pos(ps, c)) else NextCut(toks, base + |Flat(ps)|, l)
    decreases ps, |ps| - i, 0
  {
    hide Flat, One, NextCut;
    var p, inner := base + Pos(ps, i), ps[i].inner;
    PieceAt(ps, i);
    NestAt(toks, base, ps, i);
    var q := p + 1 + |Flat(inner)|;
    Whole(inner);
    WalksPieces(toks, p + 1, inner, 0, l + 1);
    NextOpens(toks, p, l);
    NextCloses(toks, q, l + 1);
    WalksPieces(toks, base, ps, i + 1, l);
  }

  lemma {:induction false} NestAt(toks: seq<Token>, base: nat, ps: seq<Piece>, i: nat)
    requires Stand(toks, base, ps) && i < |ps| && ps[i].Nest? && Begins(ps[i].close, ')')
    ensures var p, e := base + Pos(ps, i), |Flat(ps[i].inner)|;
            && p + 1 + e < |toks| && toks[p] == ps[i].open && toks[p + 1 + e] == ps[i].close
            && Stand(toks, p + 1, ps[i].inner) && Pos(ps, i + 1) == Pos(ps, i) + e + 2
  {
    hide Flat, One, Pos, Stand;
    PieceSlice(toks, base, ps, i);
    OneNest(ps[i]);
    var p, inner := base + Pos(ps, i), Flat(ps[i].inner);
    InBrackets(toks, p, ps[i].open, inner, ps[i].close);
    StandInside(toks, p + 1, ps[i].inner);
  }

  lemma {:induction false} PieceSlice(toks: seq<Token>, base: nat, ps: seq<Piece>, i: nat)
    requires Stand(toks, base, ps) && i < |ps|
    ensures var p, w := base + Pos(ps, i), One(ps[i]);
            p + |w| <= |toks| && toks[p..p + |w|] == w && Pos(ps, i + 1) == Pos(ps, i) + |w|
  {
    PieceAt(ps, i);
    hide Flat, One, Pos;
    var k, w := Pos(ps, i), One(ps[i]);
    SliceOfSlice(toks, base, base + |Flat(ps)|, k, k + |w|);
  }

  lemma {:induction false} StandInside(toks: seq<Token>, b: nat, ps: seq<Piece>)
    requires b + |Flat(ps)| < |toks| && toks[b..b + |Flat(ps)|] == Flat(ps) && Begins(toks[b + |Flat(ps)|], ')')
    ensures Stand(toks, b, ps)
  {
    hide Flat;
  }

  lemma {:induction false} OneNest(p: Piece)
    requires p.Nest?
    ensures One(p) == [p.open] + Flat(p.inner) + [p.close] && |One(p)| == |Flat(p.inner)| + 2
  {
  }

  lemma {:induction false} SliceOfSlice(toks: seq<Token>, a: nat, b: nat, i: nat, j: nat)
    requires a <= b <= |toks| && i <= j <= b - a
    ensures toks[a..b][i..j] == toks[a + i..a + j]
  {
    var x, y := toks[a..b][i..j], toks[a + i..a + j];
    forall k | 0 <= k < j - i ensures x[k] == y[k] { assert x[k] == toks[a..b][i + k] == toks[a + (i + k)]; }
  }

  lemma {:induction false} InBrackets(toks: seq<Token>, p: nat, open: Token, inner: seq<Token>, close: Token)
    requires p + |inner| + 2 <= |toks| && toks[p..p + |inner| + 2] == [open] + inner + [close]
    ensures toks[p] == open && toks[p + 1..p + 1 + |inner|] == inner && toks[p + 1 + |inner|] == close
  {
    var w, n := [open] + inner + [close], |inner|;
    assert toks[p] == toks[p..p + n + 2][0] == w[0];
    assert toks[p + 1 + n] == toks[p..p + n + 2][n + 1] == w[n + 1];
    SliceOfSlice(toks, p, p + n + 2, 1, 1 + n);
    assert w[1..1 + n] == inner;
  }

  lemma {:induction false} NextOpens(toks: seq<Token>, p: nat, l: nat)
    requires p < |toks| && Begins(toks[p], '(')
    ensures NextCut(toks, p, l) == NextCut(toks, p + 1, l + 1)
  {
  }

  lemma {:induction false} NextCloses(toks: seq<Token>, p: nat, l: nat)
    requires p < |toks| && Begins(toks[p], ')') && l > 0
    ensures NextCut(toks, p, l) == NextCut(toks, p + 1, l - 1)
  {
  }

  lemma {:induction false} WalksTok(toks: seq<Token>, base: nat, ps: seq<Piece>, i: nat, l: nat)
    requires Paired(ps) && Stand(toks, base, ps) && i < |ps| && ps[i].Tok? && !Joined(ps, i)
    ensures base + Pos(ps, i) <= |toks|
    ensures var c := First(ps, i);
            NextCut(toks, base + Pos(ps, i), l) ==
            if l == 0 && c < |ps| then Upto(base + Pos(ps, c)) else NextCut(toks, base + |Flat(ps)|, l)
    decreases ps, |ps| - i, 0
  {
    hide Flat, One, NextCut, Joined, Stand, Pos, CutAt, First, Cuts;
    var p, w := base + Pos(ps, i), ps[i].w;
    PieceSlice(toks, base, ps, i);
    OneTok(w);
    assert toks[p] == toks[p..p + 1][0] == w;
    CutHere(ps, i);
    FirstStep(ps, i);
    assert PairedOne(ps[i]);
    var skips := Begins(w, '>') && i + 1 < |ps| && ps[i + 1] == Tok("&");
    NextWord(toks, base, ps, i);
    NextTok(toks, p, l);
    if CutAt(ps, i) && l == 0 {
    } else if skips {
      JoinedNext(ps, i);
      FirstStep(ps, i + 1);
      PieceSlice(toks, base, ps, i + 1);
      OneTok("&");
      if i + 2 < |ps| { NotJoined(ps, i + 2); }
      WalksPieces(toks, base, ps, i + 2, l);
    } else {
      if i + 1 < |ps| { NotJoined(ps, i + 1); }
      WalksPieces(toks, base, ps, i + 1, l);
    }
  }

  lemma {:induction false} OneTok(w: Token)
    ensures One(Tok(w)) == [w]
  {
  }

  lemma {:induction false} CutHere(ps: seq<Piece>, i: nat)
    requires i < |ps| && ps[i].Tok? && !Joined(ps, i)
    ensures CutAt(ps, i) <==> Cuts(ps[i].w)
    ensures Cuts(ps[i].w) ==> !Begins(ps[i].w, '>')
  {
  }

  lemma {:induction false} FirstStep(ps: seq<Piece>, i: nat)
    requires i < |ps|
    ensures First(ps, i) == if CutAt(ps, i) then i else First(ps, i + 1)
  {
  }

  lemma {:induction false} JoinedNext(ps: seq<Piece>, i: nat)
    requires i + 1 < |ps| && ps[i].Tok? && Begins(ps[i].w, '>') && ps[i + 1] == Tok("&")
    ensures Joined(ps, i + 1) && !CutAt(ps, i + 1)
  {
  }

  lemma {:induction false} NotJoined(ps: seq<Piece>, k: nat)
    requires 0 < k < |ps| && (ps[k] != Tok("&") || ps[k - 1].Nest? || !Begins(ps[k - 1].w, '>'))
    ensures !Joined(ps, k)
  {
  }

  /** What follows piece i. */
  lemma {:induction false} NextWord(toks: seq<Token>, base: nat, ps: seq<Piece>, i: nat)
    requires Paired(ps) && Stand(toks, base, ps) && i < |ps|
    ensures var e := base + Pos(ps, i + 1);
            e <= |toks| && (e < |toks| && toks[e] == "&" <==> i + 1 < |ps| && ps[i + 1] == Tok("&"))
  {
    hide Flat;
    Whole(ps);
    PieceAt(ps, i);
    if i + 1 < |ps| {
      PieceAt(ps, i + 1);
      InPlace(toks, base, ps, Pos(ps, i + 1));
    }
  }

  /** One word that is no parenthesis. */
  lemma {:induction false} NextTok(toks: seq<Token>, p: nat, l: nat)
    requires p < |toks| && !Begins(toks[p], '(') && !Begins(toks[p], ')')
    ensures NextCut(toks, p, l) ==
            if Begins(toks[p], '>') && p + 1 < |toks| && toks[p + 1] == "&" then NextCut(toks, p + 2, l)
            else if Cuts(toks[p]) && l == 0 then Upto(p)
            else NextCut(toks, p + 1, l)
  {
  }

  // ---------- one command ----------

  lemma {:induction false} FlatWalks(ps: seq<Piece>, l: nat)
    requires Paired(ps)
    ensures Walk(Flat(ps), l) == Some(l)
    decreases ps
  {
    if ps != [] {
      var p, rest := ps[0], ps[1..];
      assert PairedOne(p) && Paired(rest);
      FlatWalks(rest, l);
      WalkAppend(One(p), Flat(rest), l);
      match p
      case Tok(w) => assert [w][1..] == [];
      case Nest(open, inner, close) =>
        FlatWalks(inner, l + 1);
        WalkAppend([open], Flat(inner) + [close], l);
        WalkAppend(Flat(inner), [close], l + 1);
        assert [open][1..] == [] && [close][1..] == [];
        assert [open] + Flat(inner) + [close] == [open] + (Flat(inner) + [close]);
    }
  }

  lemma {:induction false} NoClose(ps: seq<Piece>)
    requires Paired(ps) && forall k | 0 <= k < |ps| :: ps[k].Tok?
    ensures forall w | w in Flat(ps) :: !Begins(w, ')')
  {
    if ps != [] {
      assert PairedOne(ps[0]);
      NoClose(ps[1..]);
    }
  }

  lemma {:induction false} LastCloseIs(toks: seq<Token>, q: nat)
    requires 0 < q < |toks| && Begins(toks[q], ')') && forall k | q < k < |toks| :: !Begins(toks[k], ')')
    ensures LastClose(toks) == q
    decreases |toks|
  {
    var n := |toks| - 1;
    if q < n { LastCloseIs(toks[..n], q); }
  }

  lemma {:induction false} LastCloseFrom(toks: seq<Token>, q: nat)
    requires 0 < q < |toks| && Begins(toks[q], ')')
    ensures q <= LastClose(toks)
    decreases |toks|
  {
    var n := |toks| - 1;
    if q < n && C0(toks[n]) != ')' { LastCloseFrom(toks[..n], q); }
  }

  /** Pieces without a cut are one command. */
  ghost predicate OneCommand(ps: seq<Piece>) { forall k | 0 <= k < |ps| :: !CutAt(ps, k) }

  /** A command that starts with its only group. */
  lemma {:induction false} OnlyGroup(ps: seq<Piece>)
    requires Paired(ps) && ps != [] && ps[0].Nest? && forall k | 0 < k < |ps| :: ps[k].Tok?
    ensures Pass3(Flat(ps)) <==> ps[0].inner == [] || Pass0(Flat(ps[0].inner))
  {
    hide Pass0, LastClose, Flat;
    var g, rest := ps[0], ps[1..];
    var inner, toks, tail := Flat(g.inner), Flat(ps), Flat(rest);
    assert PairedOne(g) && forall k | 0 <= k < |rest| :: rest[k] == ps[k + 1] && PairedOne(rest[k]);
    NoClose(rest);
    GroupFirst(ps);
    var q := |inner| + 1;
    forall k | q < k < |toks| ensures !Begins(toks[k], ')') { assert toks[k] == tail[k - q - 1]; }
    LastCloseIs(toks, q);
    if g.inner != [] { FlatSome(g.inner); } else { assert inner == [] by { FlatNone(); } }
  }

  lemma {:induction false} FlatNone()
    ensures Flat([]) == []
  {
  }

  /** A command that starts with a group and has another one. */
  lemma {:induction false} TwoGroups(ps: seq<Piece>, j: nat)
    requires Paired(ps) && 0 < j < |ps| && ps[0].Nest? && ps[j].Nest?
    ensures !Pass3(Flat(ps))
  {
    hide Pass0, LastClose, Walk, Flat;
    var g, inner, toks := ps[0], Flat(ps[0].inner), Flat(ps);
    assert PairedOne(g) && PairedOne(ps[j]);
    GroupFirst(ps);
    assert toks[0..] == toks && Stand(toks, 0, ps);
    NestAt(toks, 0, ps, j);
    var q := Pos(ps, j) + 1 + |Flat(ps[j].inner)|;
    LaterPos(ps, 1, j);
    LastCloseFrom(toks, q);
    var e := LastClose(toks);
    var part := toks[1..e];
    assert part == inner + ([g.close] + toks[|inner| + 2..e]);
    FlatWalks(g.inner, 0);
    WalkAppend(inner, [g.close] + toks[|inner| + 2..e], 0);
    CloseFails([g.close] + toks[|inner| + 2..e]);
    if Pass0(part) { ListWalks(part); }
  }

  lemma {:induction false} GroupFirst(ps: seq<Piece>)
    requires ps != [] && ps[0].Nest?
    ensures var inner, toks := Flat(ps[0].inner), Flat(ps);
            |toks| >= |inner| + 2 && toks[0] == ps[0].open && toks[1..|inner| + 1] == inner &&
            toks[|inner| + 1] == ps[0].close && Pos(ps, 1) == |inner| + 2 && toks[|inner| + 2..] == Flat(ps[1..])
  {
    assert ps[..1] == [ps[0]];
    FlatOne(ps[0]);
    var inner, tail := Flat(ps[0].inner), Flat(ps[1..]);
    assert Flat(ps) == One(ps[0]) + tail && One(ps[0]) == [ps[0].open] + inner + [ps[0].close];
    hide Flat, One;
    Laid([ps[0].open], inner, [ps[0].close], tail);
  }

  lemma {:induction false} Laid(a: seq<Token>, m: seq<Token>, b: seq<Token>, z: seq<Token>)
    requires |a| == 1 && |b| == 1
    ensures var t := a + m + b + z;
            t[0] == a[0] && t[1..|m| + 1] == m && t[|m| + 1] == b[0] && t[|m| + 2..] == z
  {
  }

  lemma {:induction false} LaterPos(ps: seq<Piece>, i: nat, j: nat)
    requires i <= j <= |ps|
    ensures Pos(ps, i) <= Pos(ps, j)
    decreases j
  {
    if i < j {
      LaterPos(ps, i, j - 1);
      PieceAt(ps, j - 1);
    }
  }

  lemma {:induction false} CloseFails(toks: seq<Token>)
    requires toks != [] && Begins(toks[0], ')')
    ensures Walk(toks, 0).None?
  {
  }

  // ---------- whole lines ----------

  /** Leading separators aside, both entries of the pass do the same. */
  lemma {:induction false} PassEither(toks: seq<Token>)
    requires toks != []
    ensures Pass0(toks) == PassAll(toks)
  {
    if IsSep(toks[0]) {
      assert NextCut(toks, 0, 0) == Upto(0);
      assert toks[..0] == [];
    }
  }

  /** The line up to its first cut, and the rest. */
  lemma {:induction false} PassSplits(ps: seq<Piece>)
    requires Paired(ps) && ps != []
    ensures var c := First(ps, 0);
            PassAll(Flat(ps)) == (Pass3(Flat(ps[..c])) && (c < |ps| ==> PassAll(Flat(ps[c + 1..]))))
  {
    hide Flat, Pass3, NextCut, PassAll, First, CutAt, One, Joined, Paired;
    var c, toks := First(ps, 0), Flat(ps);
    Whole(ps);
    PieceAt(ps, 0);
    assert toks[0..] == toks;
    NoneBefore(ps);
    WalksPieces(toks, 0, ps, 0, 0);
    PassEither(toks);
    if c < |ps| {
      AroundCut(ps, c);
      PassAt(toks, Pos(ps, c));
    } else {
      assert ps[..c] == ps;
      NextDone(toks);
      PassDone(toks);
    }
  }

  lemma {:induction false} NoneBefore(ps: seq<Piece>)
    requires ps != []
    ensures !Joined(ps, 0)
  {
  }

  lemma {:induction false} AroundCut(ps: seq<Piece>, c: nat)
    requires c < |ps| && CutAt(ps, c)
    ensures Pos(ps, c) < |Flat(ps)| && Flat(ps)[..Pos(ps, c)] == Flat(ps[..c])
    ensures Flat(ps)[Pos(ps, c) + 1..] == Flat(ps[c + 1..])
  {
    hide Flat;
    CutIsTok(ps, c);
    var a, w, b := Flat(ps[..c]), ps[c].w, Flat(ps[c + 1..]);
    assert ps == ps[..c] + ps[c..] && ps[c..] == [ps[c]] + ps[c + 1..];
    FlatAppend(ps[..c], ps[c..]);
    FlatAppend([ps[c]], ps[c + 1..]);
    FlatOne(ps[c]);
    OneTok(w);
    assert Flat(ps) == a + ([w] + b);
  }

  lemma {:induction false} PassAt(toks: seq<Token>, p: nat)
    requires p < |toks| && NextCut(toks, 0, 0) == Upto(p)
    ensures Pass0(toks) == (Pass3(toks[..p]) && PassAll(toks[p + 1..]))
  {
    hide NextCut, Pass3, PassAll;
  }

  lemma {:induction false} PassDone(toks: seq<Token>)
    requires NextCut(toks, 0, 0) == Done(0)
    ensures Pass0(toks) == Pass3(toks)
  {
    hide NextCut, Pass3;
  }

  lemma {:induction false} NextDone(toks: seq<Token>)
    ensures NextCut(toks, |toks|, 0) == Done(0)
  {
  }

  /** A cut parts the conditions too. */
  lemma {:induction false} PassesSplits(ps: seq<Piece>, c: nat)
    requires c < |ps| && CutAt(ps, c)
    ensures Passes(ps) <==> Passes(ps[..c]) && Passes(ps[c + 1..])
  {
    var a, b := ps[..c], ps[c + 1..];
    forall k | 0 <= k < |b| ensures CutAt(b, k) <==> CutAt(ps, k + c + 1) { CutLater(ps, c, k); }
    forall k | 0 <= k < |a| ensures CutAt(a, k) <==> CutAt(ps, k) { }
    forall i | 0 <= i < |b|
      ensures (Starts(b, i) <==> Starts(ps, i + c + 1)) && (Lonely(b, i) <==> Lonely(ps, i + c + 1))
    {
      LonelyLater(ps, c, i);
    }
    forall i | 0 <= i < |a| ensures (Starts(a, i) <==> Starts(ps, i)) && (Lonely(a, i) <==> Lonely(ps, i)) {
      LonelyEarlier(ps, c, i);
    }
    hide Lonely, Starts, CutAt;
    if Passes(a) && Passes(b) {
      forall i | 0 <= i < |ps| && ps[i].Nest? && Starts(ps, i) ensures Passes(ps[i].inner) && Lonely(ps, i) {
        if i < c { assert a[i] == ps[i]; }
        if i > c { assert b[i - c - 1] == ps[i]; }
        assert i != c by { CutIsTok(ps, c); }
      }
    }
    if Passes(ps) {
      forall i | 0 <= i < |a| && a[i].Nest? && Starts(a, i) ensures Passes(a[i].inner) && Lonely(a, i) {
        assert a[i] == ps[i];
      }
      forall i | 0 <= i < |b| && b[i].Nest? && Starts(b, i) ensures Passes(b[i].inner) && Lonely(b, i) {
        assert b[i] == ps[i + c + 1];
      }
    }
  }

  lemma {:induction false} CutIsTok(ps: seq<Piece>, c: nat)
    requires c < |ps| && CutAt(ps, c)
    ensures ps[c].Tok?
  {
  }

  lemma {:induction false} CutLater(ps: seq<Piece>, c: nat, k: nat)
    requires c < |ps| && CutAt(ps, c) && k < |ps| - c - 1
    ensures CutAt(ps[c + 1..], k) <==> CutAt(ps, k + c + 1)
  {
    var b := ps[c + 1..];
    assert b[k] == ps[k + c + 1];
    if k > 0 { assert b[k - 1] == ps[k + c]; }
  }

  lemma {:induction false} PartedLater(ps: seq<Piece>, c: nat, i: nat, j: nat)
    requires c < |ps| && CutAt(ps, c) && i < j < |ps| - c - 1
    ensures Parted(ps[c + 1..], i, j) <==> Parted(ps, i + c + 1, j + c + 1)
  {
    var b := ps[c + 1..];
    forall k | 0 <= k < |b| ensures CutAt(b, k) <==> CutAt(ps, k + c + 1) { CutLater(ps, c, k); }
    hide CutAt;
    if k :| i < k < j && CutAt(b, k) { assert CutAt(ps, k + c + 1); }
    if k :| i + c + 1 < k < j + c + 1 && CutAt(ps, k) { assert CutAt(b, k - c - 1); }
  }

  lemma {:induction false} LonelyLater(ps: seq<Piece>, c: nat, i: nat)
    requires c < |ps| && CutAt(ps, c) && i < |ps| - c - 1
    ensures var b := ps[c + 1..];
            (Starts(b, i) <==> Starts(ps, i + c + 1)) && (Lonely(b, i) <==> Lonely(ps, i + c + 1))
  {
    var b := ps[c + 1..];
    if i > 0 { CutLater(ps, c, i - 1); }
    forall j | i < j < |b| ensures Parted(b, i, j) <==> Parted(ps, i + c + 1, j + c + 1) { PartedLater(ps, c, i, j); }
    hide CutAt, Parted;
    if Lonely(b, i) {
      forall j | i + c + 1 < j < |ps| && ps[j].Nest? ensures Parted(ps, i + c + 1, j) {
        assert b[j - c - 1] == ps[j] && Parted(b, i, j - c - 1);
      }
    }
    if Lonely(ps, i + c + 1) {
      forall j | i < j < |b| && b[j].Nest? ensures Parted(b, i, j) { assert ps[j + c + 1] == b[j]; }
    }
  }

  lemma {:induction false} LonelyEarlier(ps: seq<Piece>, c: nat, i: nat)
    requires i < c < |ps| && CutAt(ps, c)
    ensures var a := ps[..c]; (Starts(a, i) <==> Starts(ps, i)) && (Lonely(a, i) <==> Lonely(ps, i))
  {
    var a := ps[..c];
    assert forall k | 0 <= k < c :: CutAt(a, k) <==> CutAt(ps, k);
    hide CutAt;
    forall j | i < j < c ensures Parted(a, i, j) <==> Parted(ps, i, j) {
      if k :| i < k < j && CutAt(a, k) { assert CutAt(ps, k); }
      if k :| i < k < j && CutAt(ps, k) { assert CutAt(a, k); }
    }
    if Lonely(a, i) {
      forall j | i < j < |ps| && ps[j].Nest? ensures Parted(ps, i, j) {
        if j < c { assert a[j] == ps[j]; }
        CutIsTok(ps, c);
      }
    }
    if Lonely(ps, i) {
      forall j | i < j < c && a[j].Nest? ensures Parted(a, i, j) { assert ps[j] == a[j]; }
    }
  }

  lemma {:induction false} CommandPasses(ps: seq<Piece>)
    requires Paired(ps) && OneCommand(ps)
    requires ps != [] && ps[0].Nest? && ps[0].inner != [] ==> (Pass0(Flat(ps[0].inner)) <==> Passes(ps[0].inner))
    ensures Pass3(Flat(ps)) <==> Passes(ps)
  {
    hide Flat, Pass3, Pass0, CutAt;
    if ps == [] {
      assert Pass3(Flat(ps)) by { PassNone(); }
    } else if ps[0].Tok? {
      assert Pass3(Flat(ps)) by { PassWord(ps); }
    } else if j :| 0 < j < |ps| && ps[j].Nest? {
      TwoGroups(ps, j);
      assert Starts(ps, 0) && !Parted(ps, 0, j);
    } else {
      OnlyGroup(ps);
      assert Lonely(ps, 0) && Starts(ps, 0);
    }
  }

  lemma {:induction false} PassNone()
    ensures Pass3(Flat([]))
  {
  }

  lemma {:induction false} PassWord(ps: seq<Piece>)
    requires Paired(ps) && ps != [] && ps[0].Tok?
    ensures Pass3(Flat(ps))
  {
    assert PairedOne(ps[0]) && Flat(ps) == [ps[0].w] + Flat(ps[1..]);
  }

  /** The pass lets a line through exactly when no command in it, at any depth the pass looks into, starts with a
      group and has another. */
  lemma {:induction false} PassesExactly(ps: seq<Piece>)
    requires Paired(ps)
    ensures PassAll(Flat(ps)) <==> Passes(ps)
    decreases ps, |ps|
  {
    hide Flat, PassAll, Pass3, CutAt, Pass0, Passes;
    if ps == [] {
      assert PassAll(Flat(ps)) && Passes(ps) by { NonePasses(); }
    } else {
      var c := First(ps, 0);
      var a := ps[..c];
      forall k | 0 <= k < c ensures !CutAt(a, k) { CutEarlier(ps, c, k); }
      assert Paired(a) by { forall k | 0 <= k < c ensures PairedOne(a[k]) { assert a[k] == ps[k]; } }
      if a != [] && a[0].Nest? && a[0].inner != [] {
        assert a[0] == ps[0] && PairedOne(ps[0]);
        PassesExactly(ps[0].inner);
        FlatSome(ps[0].inner);
        PassEither(Flat(ps[0].inner));
      }
      CommandPasses(a);
      PassSplits(ps);
      if c < |ps| {
        PairedRest(ps, c + 1);
        PassesExactly(ps[c + 1..]);
        PassesSplits(ps, c);
      } else {
        assert a == ps;
      }
    }
  }

  lemma {:induction false} PairedRest(ps: seq<Piece>, n: nat)
    requires Paired(ps) && n <= |ps|
    ensures Paired(ps[n..])
  {
    var b := ps[n..];
    forall k | 0 <= k < |b| ensures PairedOne(b[k]) { assert b[k] == ps[k + n]; }
  }

  lemma {:induction false} FlatSome(ps: seq<Piece>)
    requires ps != []
    ensures Flat(ps) != []
  {
    FlatOne(ps[0]);
  }

  lemma {:induction false} NonePasses()
    ensures PassAll(Flat([])) && Passes([])
  {
  }

  lemma {:induction false} CutEarlier(ps: seq<Piece>, c: nat, k: nat)
    requires k < c <= |ps| && !CutAt(ps, k)
    ensures !CutAt(ps[..c], k)
  {
  }

  /** A last command whose parenthesis stays open is let through unseen. */
  lemma {:induction false} OpenPasses(ps: seq<Piece>, open: Token, rest: seq<Token>)
    requires Paired(ps) && OneCommand(ps) && Begins(open, '(') && Walk(rest, 0).Some?
    ensures PassAll(Flat(ps) + ([open] + rest))
  {
    hide Flat, NextCut, Walk, Pass3, PassAll;
    var toks, e := Flat(ps) + ([open] + rest), |Flat(ps)|;
    Whole(ps);
    assert toks[0..e] == Flat(ps) && toks[e] == open;
    WalksPieces(toks, 0, ps, 0, 0);
    NextOpens(toks, e, 0);
    assert toks[e + 1..] == rest;
    StaysOpen(toks, e + 1, 1);
    PassEither(toks);
    assert Pass0(toks);
  }

  lemma {:induction false} StaysOpen(toks: seq<Token>, p: nat, l: nat)
    requires p <= |toks| && l > 0 && Walk(toks[p..], l - 1).Some?
    ensures NextCut(toks, p, l).Done? && NextCut(toks, p, l).l > 0
    decreases |toks| - p
  {
    if p < |toks| {
      var rest := toks[p..];
      assert rest[1..] == toks[p + 1..] && rest[0] == toks[p];
      if C0(toks[p]) == '>' && p + 1 < |toks| && toks[p + 1] == "&" {
        assert rest[1..][1..] == toks[p + 2..] && rest[1] == "&";
        StaysOpen(toks, p + 2, l);
      } else {
        StaysOpen(toks, p + 1, ParenStep(toks[p], l));
      }
    }
  }
}
