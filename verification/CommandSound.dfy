/**
 * The parser accepts nothing but the grammar: words it parses without an error are those of a
 * well-formed grammar tree, after any separators.
 */
module CommandSound {
  import opened Wrappers
  import opened Sequences
  import opened CommandSyntax
  import opened CommandGrammar
  import opened CommandQuiet
  import opened CommandRoundTrip
  import opened CommandParser

  /** Words as lex makes them: what starts with an operator character is an operator. */
  predicate Operator(w: Token)
  {
    || w == "(" || w == ")" || w == "<" || w == "<<" || w == ">" || w == ">>"
    || w == "|" || w == "||" || w == "&" || w == "&&" || w == ";" || w == "\n"
  }

  predicate Lexed(toks: seq<Token>) { forall w | w in toks :: Plain(w) || Operator(w) }

  lemma {:induction false} LexedSlice(toks: seq<Token>, p: nat, q: nat)
    requires Lexed(toks) && p <= q <= |toks|
    ensures Lexed(toks[p..q])
  {
  }

  // ---------- the first error stays ----------

  /** The first error is the one reported, unless the end of a group gets lost. */
  ghost predicate Stays(err: Option<Error>, after: Option<Error>)
  {
    err.Some? ==> after == err || after == Some(Stuck)
  }

  lemma {:induction false} KeptAmp(toks: seq<Token>, p: nat, d: Depth, err: Option<Error>)
    requires p <= |toks| && err.Some?
    ensures ScanAmp(toks, p, d, err).err == err
    decreases |toks| - p
  {
    if p < |toks| && !AmpHere(toks[p], d) { KeptAmp(toks, p + 1, DepthAfter(toks[p], d), err); }
  }

  lemma {:induction false} Kept3(toks: seq<Token>, nxt: char, m: Mode, err: Option<Error>)
    requires err.Some?
    ensures Stays(err, Syn3(toks, nxt, m, err).err)
    decreases |toks|, 1
  {
    hide GatherAll, Syn0;
    var special := Special(toks);
    var g := GatherAll(toks, 0, m, special, Fresh(nxt, err));
    NoMoreWords(toks, 0, m, special, Fresh(nxt, err));
    if g.lp.Some? && !special && GroupOk(toks, g) {
      Kept0(toks[g.lp.value..g.rp.value], ')', Mode(true, false, false, false),
            if g.n != 0 then Report(g.err, BadPlps) else g.err);
    }
  }

  lemma {:induction false} Kept2(toks: seq<Token>, nxt: char, m: Mode, err: Option<Error>)
    requires err.Some?
    ensures Stays(err, Syn2(toks, nxt, m, err).err)
    decreases |toks|, 2
  {
    hide Scan, Syn3;
    match Scan(OpPipe, toks, 0, 0)
    case None => Kept3(toks, nxt, m, err);
    case Some(p) =>
      var both := p + 1 < |toks| && C0(toks[p + 1]) == '&';
      var m1 := m.(pout := true, perr := m.perr || both);
      Kept3(toks[..p], '|', m1, err);
      Kept2(toks[if both then p + 2 else p + 1..], nxt, m.(pin := true), Syn3(toks[..p], '|', m1, err).err);
  }

  lemma {:induction false} Kept1b(toks: seq<Token>, nxt: char, m: Mode, err: Option<Error>)
    requires err.Some?
    ensures Stays(err, Syn1b(toks, nxt, m, err).err)
    decreases |toks|, 3
  {
    hide Scan, Syn2;
    match Scan(OpAnd, toks, 0, 0)
    case None => Kept2(toks, nxt, m, err);
    case Some(p) =>
      Kept2(toks[..p], '&', m, err);
      Kept1b(toks[p + 1..], nxt, m, Syn2(toks[..p], '&', m, err).err);
  }

  lemma {:induction false} Kept1a(toks: seq<Token>, nxt: char, m: Mode, err: Option<Error>)
    requires err.Some?
    ensures Stays(err, Syn1a(toks, nxt, m, err).err)
    decreases |toks|, 4
  {
    hide Scan, Syn1b;
    match Scan(OpOr, toks, 0, 0)
    case None => Kept1b(toks, nxt, m, err);
    case Some(p) =>
      Kept1b(toks[..p], '|', m, err);
      Kept1a(toks[p + 1..], nxt, m, Syn1b(toks[..p], '|', m, err).err);
  }

  lemma {:induction false} Kept1(toks: seq<Token>, nxt: char, m: Mode, err: Option<Error>)
    requires err.Some?
    ensures Stays(err, Syn1(toks, nxt, m, err).err)
    decreases |toks|, 5
  {
    hide Scan, Syn1a, Syntax;
    match Scan(OpSemi, toks, 0, 0)
    case None => Kept1a(toks, nxt, m, err);
    case Some(p) =>
      Kept1a(toks[..p], C0(toks[p]), m, err);
      Kept(toks[p + 1..], nxt, m, Syn1a(toks[..p], C0(toks[p]), m, err).err);
  }

  lemma {:induction false} Kept0(toks: seq<Token>, nxt: char, m: Mode, err: Option<Error>)
    requires err.Some?
    ensures Stays(err, Syn0(toks, nxt, m, err).err)
    decreases |toks|, 6
  {
    hide ScanAmp, Syn1, Syntax;
    KeptAmp(toks, 0, Depth(0, false), err);
    match ScanAmp(toks, 0, Depth(0, false), err)
    case Over(l, e) => if l == 0 { Kept1(toks, nxt, m, e); }
    case Hit(p, e) =>
      Kept1(toks[..p], '&', m, e);
      assert |Trim(toks[p..])| < |toks|;
      Kept(toks[p..], nxt, m, Syn1(toks[..p], '&', m, e).err);
  }

  lemma {:induction false} Kept(toks: seq<Token>, nxt: char, m: Mode, err: Option<Error>)
    requires err.Some?
    ensures Stays(err, Syntax(toks, nxt, m, err).err)
    decreases |Trim(toks)|, 7
  {
    hide Syn0;
    if Trim(toks) != [] { Kept0(Trim(toks), nxt, m, err); }
  }

  // ---------- what the scans leave ----------

  /** Balanced, and no & but those that belong to the word before. */
  ghost predicate Calm(toks: seq<Token>)
  {
    PassAmp(toks, Depth(0, false)).Some? && PassAmp(toks, Depth(0, false)).value.l == 0
  }

  /** syn0's loop without an error. */
  lemma {:induction false} AmpFound(toks: seq<Token>, p: nat, d: Depth)
    requires p <= |toks| && d.l >= 0 && ScanAmp(toks, p, d, None).err.None?
    ensures match ScanAmp(toks, p, d, None)
            case Over(l, _) => PassAmp(toks[p..], d).Some? && PassAmp(toks[p..], d).value.l == l
            case Hit(q, _) => PassAmp(toks[p..q], d).Some? && PassAmp(toks[p..q], d).value.l == 0 &&
                              C0(toks[q]) == '&' && C1(toks[q]) != '&'
    decreases |toks| - p
  {
    if p < |toks| && !AmpHere(toks[p], d) {
      var d' := DepthAfter(toks[p], d);
      if d'.l < 0 { KeptAmp(toks, p + 1, d', Some(TooManyRp)); }
      AmpFound(toks, p + 1, d');
      assert toks[p..][1..] == toks[p + 1..];
      match ScanAmp(toks, p, d, None)
      case Over(_, _) =>
      case Hit(q, _) => assert toks[p..q][0] == toks[p] && toks[p..q][1..] == toks[p + 1..q];
    }
  }

  lemma {:induction false} OpFound(op: Op, toks: seq<Token>, p: nat, l: int)
    requires p <= |toks| && l >= 0 && Walk(toks[p..], l).Some?
    ensures match Scan(op, toks, p, l)
            case None => Pass(op, toks[p..], l) == Walk(toks[p..], l)
            case Some(q) => Pass(op, toks[p..q], l) == Some(0)
    decreases |toks| - p
  {
    if p < |toks| && !(OpHere(op, toks[p]) && l == 0) {
      assert toks[p..][1..] == toks[p + 1..];
      var l' := ParenStep(toks[p], l);
      assert l' >= 0;
      OpFound(op, toks, p + 1, l');
      match Scan(op, toks, p, l)
      case None =>
      case Some(q) => assert toks[p..q][0] == toks[p] && toks[p..q][1..] == toks[p + 1..q];
    }
  }

  /** A word that is neither a parenthesis nor an operator of another kind parts the words in two. */
  lemma {:induction false} QuietParts(op: Op, toks: seq<Token>, p: nat)
    requires p < |toks| && Quiet(op, toks) && Balanced(toks[..p]) && ParenStep(toks[p], 0) == 0
    ensures Quiet(op, toks[..p]) && Quiet(op, toks[p + 1..])
  {
    hide Pass, Walk;
    assert toks == toks[..p] + ([toks[p]] + toks[p + 1..]);
    PassAppend(op, toks[..p], [toks[p]] + toks[p + 1..], 0);
    PassAppend(op, [toks[p]], toks[p + 1..], 0);
    if Pass(op, toks[..p], 0).Some? { PassIsWalk(op, toks[..p], 0); }
    PassOne(op, toks[p]);
  }

  lemma {:induction false} PassOne(op: Op, w: Token)
    requires ParenStep(w, 0) == 0
    ensures Pass(op, [w], 0).Some? ==> Pass(op, [w], 0) == Some(0)
  {
    assert [w][1..] == [];
  }

  lemma {:induction false} PassIsWalk(op: Op, toks: seq<Token>, l: int)
    requires Pass(op, toks, l).Some?
    ensures Walk(toks, l) == Pass(op, toks, l)
    decreases |toks|
  {
    if toks != [] { PassIsWalk(op, toks[1..], ParenStep(toks[0], l)); }
  }

  lemma {:induction false} CalmParts(toks: seq<Token>, p: nat)
    requires p < |toks| && Calm(toks) && Balanced(toks[..p])
    requires toks[p] == ";" || toks[p] == "\n" || toks[p] == "||" || toks[p] == "&&"
    ensures Calm(toks[..p]) && Calm(toks[p + 1..])
  {
    hide PassAmp, Walk;
    var d := CalmUpTo(toks, p);
    CalmStep(toks[p..], d);
    assert toks[p..][1..] == toks[p + 1..];
  }

  /** The state of syn0's loop at depth 0. */
  lemma {:induction false} CalmUpTo(toks: seq<Token>, p: nat) returns (d: Depth)
    requires p <= |toks| && Calm(toks) && Balanced(toks[..p])
    ensures Calm(toks[..p]) && d.l == 0 && PassAmp(toks[p..], d) == PassAmp(toks, Depth(0, false))
    ensures PassAmp(toks[p..], d).Some? && PassAmp(toks[p..], d).value.l == 0
  {
    hide PassAmp, Walk;
    assert toks == toks[..p] + toks[p..];
    PassAmpAppend(toks[..p], toks[p..], Depth(0, false));
    AmpWalks(toks[..p], Depth(0, false));
    d := PassAmp(toks[..p], Depth(0, false)).value;
  }

  lemma {:induction false} CalmStep(toks: seq<Token>, d: Depth)
    requires toks != [] && d.l == 0 && PassAmp(toks, d).Some?
    requires toks[0] == ";" || toks[0] == "\n" || toks[0] == "||" || toks[0] == "&&"
    ensures PassAmp(toks[1..], Depth(0, false)) == PassAmp(toks, d)
  {
  }

  lemma {:induction false} CalmBalanced(toks: seq<Token>)
    requires Calm(toks)
    ensures Balanced(toks)
  {
    AmpWalks(toks, Depth(0, false));
  }

  /** Leading separators and the rest. */
  lemma {:induction false} TrimParts(toks: seq<Token>) returns (n: nat)
    ensures n <= |toks| && Trim(toks) == toks[n..] && forall k | 0 <= k < n :: IsSep(toks[k])
  {
    if toks != [] && IsSep(toks[0]) {
      n := TrimParts(toks[1..]);
      assert toks[1..][n..] == toks[n + 1..];
      forall k | 0 <= k < n + 1 ensures IsSep(toks[k]) { if k > 0 { assert toks[k] == toks[1..][k - 1]; } }
      n := n + 1;
    } else {
      n := 0;
    }
  }

  lemma {:induction false} SepsCalm(toks: seq<Token>, n: nat)
    requires Lexed(toks) && Calm(toks) && n <= |toks| && forall k | 0 <= k < n :: IsSep(toks[k])
    ensures Calm(toks[n..]) && forall k | 0 <= k < n :: Skipped(toks[k])
    decreases n
  {
    if n > 0 {
      assert toks[0] in toks && IsSep(toks[0]);
      assert Skipped(toks[0]);
      assert PassAmp(toks[1..], Depth(0, false)) == PassAmp(toks, Depth(0, false));
      assert forall k | 0 <= k < n - 1 :: toks[1..][k] == toks[k + 1];
      SepsCalm(toks[1..], n - 1);
      assert toks[1..][n - 1..] == toks[n..];
      forall k | 0 <= k < n ensures Skipped(toks[k]) { if k > 0 { assert toks[k] == toks[1..][k - 1]; } }
    }
  }

  // ---------- the items of a simple command ----------

  /** What syn3 is given: no operator at depth 0 but redirections. */
  ghost predicate Tidy(toks: seq<Token>) { Lexed(toks) && Calm(toks) && forall op :: Quiet(op, toks) }

  lemma {:induction false} TidyAfter(a: seq<Token>, b: seq<Token>)
    requires Tidy(a + b) && QuietAll(a)
    ensures Tidy(b)
  {
    hide Pass, PassAmp;
    forall op ensures Quiet(op, b) { assert Quiet(op, a); PassAppend(op, a, b, 0); assert Quiet(op, a + b); }
    PassAmpAppend(a, b, Depth(0, false));
    forall w | w in b ensures Plain(w) || Operator(w) { assert w in a + b; }
  }

  /** At depth 0 a tidy word is plain, a redirection or an open parenthesis. */
  lemma {:induction false} TidyFirst(toks: seq<Token>)
    requires Tidy(toks) && toks != []
    ensures var w := toks[0]; Plain(w) || w == "(" || w == "<" || w == "<<" || w == ">" || w == ">>"
  {
    assert toks[0] in toks;
    assert Quiet(OpSemi, toks) && Quiet(OpOr, toks) && Quiet(OpAnd, toks) && Quiet(OpPipe, toks);
    assert Pass(OpSemi, toks[1..], ParenStep(toks[0], 0)).Some?;
  }

  /** So is the word after one of the first and the last kind, unless it is the & of >&. */
  lemma {:induction false} TidySecond(toks: seq<Token>)
    requires Tidy(toks) && |toks| > 1 && C0(toks[0]) in {'<', '>'} && !RelPar(toks[1])
    ensures Plain(toks[1]) || (toks[1] == "&" && C0(toks[0]) == '>' && |toks[0]| > 0)
  {
    assert toks[0] in toks && toks[1] in toks && toks[1..][0] == toks[1];
    forall op ensures Pass(op, toks[1..], 0).Some? { assert Quiet(op, toks); }
    assert PassAmp(toks[1..], Depth(0, C0(toks[0]) == '>')).Some?;
    assert Pass(OpSemi, toks[1..], 0).Some? && Pass(OpOr, toks[1..], 0).Some?;
    assert Pass(OpAnd, toks[1..], 0).Some? && Pass(OpPipe, toks[1..], 0).Some?;
  }

  /** After >& no operator follows either. */
  lemma {:induction false} TidyThird(toks: seq<Token>, k: nat)
    requires Tidy(toks) && 0 < k < |toks| && C0(toks[0]) == '>' && !RelPar(toks[k])
    requires (k == 2 && (toks[1] == "&" || toks[1] == "!")) || (k == 3 && toks[1] == "&" && toks[2] == "!")
    ensures Plain(toks[k])
  {
    assert toks[0] in toks && toks[k] in toks;
    assert toks[1..][1..] == toks[2..] && toks[2..][1..] == toks[3..];
    forall op ensures Pass(op, toks[k..], 0).Some? {
      assert Quiet(op, toks);
      assert Pass(op, toks[1..], 0).Some?;
      assert Pass(op, toks[2..], 0).Some?;
    }
    assert PassAmp(toks[1..], Depth(0, true)).Some?;
    assert PassAmp(toks[2..], Depth(0, false)).Some?;
    assert PassAmp(toks[k..], Depth(0, false)).Some?;
    assert Pass(OpSemi, toks[k..], 0).Some? && Pass(OpOr, toks[k..], 0).Some?;
    assert Pass(OpAnd, toks[k..], 0).Some? && Pass(OpPipe, toks[k..], 0).Some?;
  }

  /** The parenthesis that closes the one before p. */
  lemma {:induction false} Closing(toks: seq<Token>, p: nat, l: nat) returns (r: nat)
    requires p <= |toks| && Walk(toks[p..], l + 1) == Some(0) && Lexed(toks)
    ensures p <= r < |toks| && toks[r] == ")" && Walk(toks[p..r], l) == Some(0)
    decreases |toks| - p
  {
    assert toks[p..] != [];
    assert toks[p] in toks && toks[p..][1..] == toks[p + 1..];
    var l' := ParenStep(toks[p], l + 1);
    if l' == 0 {
      r := p;
    } else {
      assert l' > 0;
      r := Closing(toks, p + 1, l' - 1);
      assert toks[p..r][0] == toks[p] && toks[p..r][1..] == toks[p + 1..r];
    }
  }

  /** An error in one turn is an error of the whole loop. */
  lemma {:induction false} TurnFine(toks: seq<Token>, p: nat, m: Mode, special: bool, g: Gather)
    requires p < |toks| && GatherAll(toks, p, m, special, g).err.None?
    ensures GatherOne(toks, p, m, special, g).1.err.None?
  {
    hide GatherOne;
    var (q, g') := GatherOne(toks, p, m, special, g);
    if g'.err.Some? { NoMoreWords(toks, q + 1, m, special, g'); }
  }

  lemma {:induction false} FindIn(toks: seq<Token>, p: nat, m: Mode, special: bool, g: Gather, a: Acc) returns (i: Item)
    requires p < |toks| && Tidy(toks[p..]) && Holds(g, a) && (toks[p] == "<" || toks[p] == "<<")
    requires GatherOne(toks, p, m, special, g).1.err.None?
    ensures At(toks, p, PrintItem(i)) && ItemOk(i, m, special, a)
  {
    var rest := toks[p..];
    assert p + 1 < |toks| && !RelPar(toks[p + 1]);
    assert rest[0] == toks[p] && rest[1] == toks[p + 1];
    TidySecond(rest);
    i := In(toks[p] == "<<", toks[p + 1]);
    assert toks[p..p + 2] == [toks[p], toks[p + 1]];
  }

  lemma {:induction false} FindOut(toks: seq<Token>, p: nat, m: Mode, special: bool, g: Gather, a: Acc)
    returns (i: Item)
    requires p < |toks| && Tidy(toks[p..]) && Holds(g, a) && (toks[p] == ">" || toks[p] == ">>")
    requires GatherOne(toks, p, m, special, g).1.err.None?
    ensures At(toks, p, PrintItem(i)) && ItemOk(i, m, special, a)
  {
    hide Tidy, At;
    var rest := toks[p..];
    var stderr := p + 1 < |toks| && toks[p + 1] == "&";
    var q := if stderr then p + 1 else p;
    var bang := q + 1 < |toks| && toks[q + 1] == "!";
    var f := if bang then q + 2 else q + 1;
    assert f < |toks| && !RelPar(toks[f]);
    assert rest[0] == toks[p] && rest[1] == toks[p + 1] && rest[f - p] == toks[f];
    if f == p + 1 {
      TidySecond(rest);
    } else {
      assert f == p + 3 ==> rest[2] == toks[p + 2];
      TidyThird(rest, f - p);
    }
    i := Out(toks[p] == ">>", stderr, bang, toks[f]);
    OutAt(toks, p, stderr, bang, f);
  }

  lemma {:induction false} OutAt(toks: seq<Token>, p: nat, stderr: bool, bang: bool, f: nat)
    requires p < f < |toks| && (toks[p] == ">" || toks[p] == ">>") && (stderr ==> toks[p + 1] == "&")
    requires f == p + 1 + (if stderr then 1 else 0) + (if bang then 1 else 0) && (bang ==> toks[f - 1] == "!")
    ensures At(toks, p, PrintItem(Out(toks[p] == ">>", stderr, bang, toks[f])))
  {
    hide At;
    var printed := PrintItem(Out(toks[p] == ">>", stderr, bang, toks[f]));
    var s, op := toks[p..f + 1], toks[p];
    assert op == if op == ">>" then ">>" else ">";
    if stderr && bang {
      assert printed == [op, "&", "!", toks[f]] && s[1] == "&" && s[2] == "!";
    } else if stderr {
      assert printed == [op, "&", toks[f]] && s[1] == "&";
    } else if bang {
      assert printed == [op, "!", toks[f]] && s[1] == "!";
    } else {
      assert printed == [op, toks[f]];
    }
    assert s[0] == op && s[|s| - 1] == toks[f] && |s| == |printed|;
    assert printed == s;
    AtSlice(toks, p, f + 1);
  }

  lemma {:induction false} FindArgs(toks: seq<Token>, p: nat) returns (i: Item)
    requires p < |toks| && Tidy(toks[p..]) && toks[p] == "("
    ensures i.Args? && At(toks, p, PrintItem(i)) && Balanced(i.inner)
  {
    var rest := toks[p..];
    CalmBalanced(rest);
    assert rest[0] == "(" && Walk(rest[1..], 1) == Some(0);
    var r := Closing(rest, 1, 0);
    i := Args(rest[1..r]);
    assert toks[p..p + r + 1] == ["("] + rest[1..r] + [")"];
    AtSlice(toks, p, p + r + 1);
  }

  lemma {:induction false} NextItem(toks: seq<Token>, p: nat, m: Mode, special: bool, g: Gather, a: Acc)
    returns (i: Item)
    requires p < |toks| && Tidy(toks[p..]) && Holds(g, a) && (special || toks[p] != "(")
    requires GatherOne(toks, p, m, special, g).1.err.None?
    ensures At(toks, p, PrintItem(i)) && ItemOk(i, m, special, a) && PrintItem(i) != []
  {
    hide Tidy, At, GatherOne, Holds;
    TidyFirst(toks[p..]);
    assert toks[p..][0] == toks[p];
    if Plain(toks[p]) {
      i := Word(toks[p]);
      WordAt(toks, p);
    } else if toks[p] == "(" {
      i := FindArgs(toks, p);
    } else if toks[p] == "<" || toks[p] == "<<" {
      i := FindIn(toks, p, m, special, g, a);
    } else {
      i := FindOut(toks, p, m, special, g, a);
    }
  }

  /** The next item, given that syn3's loop meets no error. */
  lemma {:induction false} FindItem(toks: seq<Token>, p: nat, m: Mode, special: bool, g: Gather, a: Acc)
    returns (i: Item)
    requires p < |toks| && Tidy(toks[p..]) && Holds(g, a) && (special || toks[p] != "(")
    requires GatherAll(toks, p, m, special, g).err.None?
    ensures At(toks, p, PrintItem(i)) && ItemOk(i, m, special, a) && PrintItem(i) != []
    ensures p + |PrintItem(i)| <= |toks| && Tidy(toks[p + |PrintItem(i)|..])
  {
    hide Tidy, GatherAll, At, GatherOne, Holds, PrintItem, ItemOk, QuietAll;
    TurnFine(toks, p, m, special, g);
    i := NextItem(toks, p, m, special, g, a);
    QuietItem(i, m, special, a);
    AtBound(toks, p, PrintItem(i));
    var n := |PrintItem(i)|;
    assert toks[p..] == toks[p..p + n] + toks[p + n..];
    TidyAfter(PrintItem(i), toks[p + n..]);
  }

  lemma {:induction false} WordAt(toks: seq<Token>, p: nat)
    requires p < |toks|
    ensures At(toks, p, [toks[p]])
  {
    assert toks[p..p + 1] == [toks[p]];
    AtSlice(toks, p, p + 1);
  }

  /** All items up to the end, or up to the parenthesis that opens a list. */
  lemma {:induction false} FindItems(toks: seq<Token>, p: nat, m: Mode, special: bool, g: Gather, a: Acc)
    returns (items: seq<Item>, q: nat, g': Gather)
    requires p <= |toks| && Tidy(toks[p..]) && Holds(g, a) && GatherAll(toks, p, m, special, g).err.None?
    ensures p <= q <= |toks| && toks[p..q] == PrintItems(items) && ItemsOk(items, m, special, a)
    ensures Holds(g', AddItems(a, items)) && (!special ==> g'.lp == g.lp && g'.rp == g.rp)
    ensures GatherAll(toks, p, m, special, g) == GatherAll(toks, q, m, special, g')
    ensures Tidy(toks[q..]) && (q < |toks| ==> !special && toks[q] == "(")
    decreases |toks| - p
  {
    hide Tidy, GatherAll, At, Holds, PrintItem, ItemOk, AddItem, PrintItems, ItemsOk, AddItems;
    if p == |toks| || (!special && toks[p] == "(") {
      items, q, g' := [], p, g;
      NoItems(m, special, a);
      assert toks[p..p] == [];
    } else {
      var i := FindItem(toks, p, m, special, g, a);
      var n := p + |PrintItem(i)|;
      var g1 := GatherItem(toks, p, i, m, special, g, a);
      AtBound(toks, p, PrintItem(i));
      items, q, g' := FindItems(toks, n, m, special, g1, AddItem(a, i));
      assert toks[p..q] == toks[p..n] + toks[n..q];
      ItemsCons(i, items, m, special, a);
      items := [i] + items;
    }
  }

  lemma {:induction false} NoItems(m: Mode, special: bool, a: Acc)
    ensures PrintItems([]) == [] && AddItems(a, []) == a && ItemsOk([], m, special, a)
  {
  }

  lemma {:induction false} ItemsCons(i: Item, items: seq<Item>, m: Mode, special: bool, a: Acc)
    ensures PrintItems([i] + items) == PrintItem(i) + PrintItems(items)
    ensures AddItems(a, [i] + items) == AddItems(AddItem(a, i), items)
    ensures ItemsOk([i] + items, m, special, a) <==>
            ItemOk(i, m, special, a) && ItemsOk(items, m, special, AddItem(a, i))
  {
    assert ([i] + items)[1..] == items;
  }

  // ---------- the levels ----------

  lemma {:induction false} WordFound(items: seq<Item>, a: Acc)
    requires a.words == [] && AddItems(a, items).words != []
    ensures exists k | 0 <= k < |items| :: IsWord(items[k])
  {
    SomeWord(items, a);
  }

  lemma {:induction false} NoWordFound(items: seq<Item>, a: Acc)
    requires |AddItems(a, items).words| == 0
    ensures forall k | 0 <= k < |items| :: !IsWord(items[k])
  {
    SomeWord(items, a);
  }

  /** syn3 on a tidy range. */
  lemma {:induction false} Find3(toks: seq<Token>, nxt: char, m: Mode) returns (c: Cmd3)
    requires Tidy(toks) && Syn3(toks, nxt, m, None).err.None?
    ensures Ok3(c, m) && Print3(c) == toks
    decreases |toks|, 1
  {
    hide Tidy, GatherAll, PrintItems, ItemsOk, AddItems, Holds, Syn0, Ok0, Print0;
    var special, a := Special(toks), Start(nxt == ')');
    var g0 := Fresh(nxt, None);
    Gathered(toks, nxt, m);
    assert toks[0..] == toks;
    assert Holds(g0, a) by { FreshHolds(nxt); }
    var pre, q, g := FindItems(toks, 0, m, special, g0, a);
    if q == |toks| {
      GatherEnd(toks, m, special, g);
      assert toks[0..q] == toks;
      HoldsCounts(g, AddItems(a, pre));
      WordFound(pre, a);
      LeadsIsSpecial(pre);
      ItemsOkSame(pre, m, special, a, Start(false));
      c := Words(pre);
    } else {
      assert Lexed(toks) by { TidyLexed(toks); }
      assert toks[0..q] == toks[..q];
      c := FindGroup(toks, nxt, m, pre, q, g);
    }
  }

  lemma {:induction false} TidyLexed(toks: seq<Token>)
    requires Tidy(toks)
    ensures Lexed(toks)
  {
  }

  lemma {:induction false} FreshHolds(nxt: char)
    ensures Holds(Fresh(nxt, None), Start(nxt == ')'))
  {
  }

  lemma {:induction false} HoldsCounts(g: Gather, a: Acc)
    requires Holds(g, a)
    ensures g.n == |a.words| && g.l == 0 && g.err.None?
  {
  }

  lemma {:induction false} Gathered(toks: seq<Token>, nxt: char, m: Mode)
    requires Syn3(toks, nxt, m, None).err.None?
    ensures GatherAll(toks, 0, m, Special(toks), Fresh(nxt, None)).err.None?
  {
    hide GatherAll, Syn0;
    var special := Special(toks);
    var g := GatherAll(toks, 0, m, special, Fresh(nxt, None));
    if g.err.Some? && g.lp.Some? && !special && GroupOk(toks, g) {
      Kept0(toks[g.lp.value..g.rp.value], ')', Mode(true, false, false, false),
            if g.n != 0 then Report(g.err, BadPlps) else g.err);
    }
  }

  /** The group that starts at q, between the items pre and those that follow it. */
  lemma {:induction false} FindGroup(toks: seq<Token>, nxt: char, m: Mode, pre: seq<Item>, q: nat, g: Gather)
    returns (c: Cmd3)
    requires q < |toks| && toks[q] == "(" && Lexed(toks) && Tidy(toks[q..]) && toks[..q] == PrintItems(pre)
    requires ItemsOk(pre, m, false, Start(nxt == ')')) && Holds(g, AddItems(Start(nxt == ')'), pre)) && g.lp.None?
    requires !Special(toks) && Syn3(toks, nxt, m, None).err.None?
    requires GatherAll(toks, 0, m, false, Fresh(nxt, None)) == GatherAll(toks, q, m, false, g)
    ensures Ok3(c, m) && Print3(c) == toks
    decreases |toks|, 0
  {
    hide Tidy, GatherAll, PrintItems, ItemsOk, AddItems, Syn0, Ok0, Print0, At, Balanced, Lexed;
    var a, here := Start(nxt == ')'), Mode(true, false, false, false);
    Gathered(toks, nxt, m);
    var inner := GroupBody(toks, q);
    var r := q + 1 + |inner|;
    var g2 := GatherGroupBody(toks, q, inner, m, g);
    var post, q2, g3 := FindItems(toks, r + 1, m, false, g2, AddItems(a, pre));
    OneGroup(toks, q2, m, g3);
    GatherEnd(toks, m, false, g3);
    GroupErrs(toks, inner, nxt, m, g3);
    NoWordFound(post, AddItems(a, pre));
    assert AddItems(a, pre).words == [] by { SomeWord(post, AddItems(a, pre)); }
    NoWordFound(pre, a);
    LexedSlice(toks, q + 1, r);
    var body := Find0(inner, ')', here);
    c := Group(pre, body, post);
    ItemsOkSame(pre, m, false, a, Start(false));
    AddItemsSame(pre, a, Start(false));
    ItemsOkSame(post, m, false, AddItems(a, pre), AddItems(Start(false), pre));
    GroupPrinted(toks, q, r);
    assert toks[r + 1..q2] == toks[r + 1..];
  }

  lemma {:induction false} GroupPrinted(toks: seq<Token>, q: nat, r: nat)
    requires q < r < |toks| && toks[q] == "(" && toks[r] == ")"
    ensures toks[..q] + (["("] + (toks[q + 1..r] + ([")"] + toks[r + 1..]))) == toks
  {
  }

  lemma {:induction false} GroupBody(toks: seq<Token>, q: nat) returns (inner: seq<Token>)
    requires q < |toks| && toks[q] == "(" && Tidy(toks[q..])
    ensures var r := q + 1 + |inner|;
            && Balanced(inner) && r < |toks| && inner == toks[q + 1..r] && toks[r] == ")"
            && At(toks, q + 1, inner) && Tidy(toks[r + 1..])
  {
    hide Tidy, At, QuietAll, Balanced;
    var i := FindArgs(toks, q);
    inner := i.inner;
    var printed, e := PrintItem(i), q + 2 + |inner|;
    assert QuietAll(printed) by { QuietParensAll(inner); }
    InParens(toks, q, inner);
    AtBound(toks, q, printed);
    assert toks[q..] == toks[q..e] + toks[e..];
    TidyAfter(printed, toks[e..]);
  }

  lemma {:induction false} InParens(toks: seq<Token>, q: nat, inner: seq<Token>)
    requires At(toks, q, ["("] + inner + [")"])
    ensures var r := q + 1 + |inner|;
            r < |toks| && inner == toks[q + 1..r] && toks[r] == ")" && At(toks, q + 1, inner)
  {
    hide At;
    assert ["("] + inner + [")"] == ["("] + inner + [")"] + [];
    AtParens(toks, q, inner, []);
    AtBound(toks, q + 1, inner);
  }

  lemma {:induction false} QuietParensAll(inner: seq<Token>)
    requires Balanced(inner)
    ensures QuietAll(["("] + inner + [")"])
  {
    QuietParens(inner);
  }

  /** A second list is an error. */
  lemma {:induction false} OneGroup(toks: seq<Token>, q: nat, m: Mode, g: Gather)
    requires q <= |toks| && g.lp.Some? && g.l == 0 && GatherAll(toks, q, m, false, g).err.None?
    requires q < |toks| ==> toks[q] == "("
    ensures q == |toks|
  {
    hide GatherAll;
    if q < |toks| { TurnFine(toks, q, m, false, g); }
  }

  lemma {:induction false} GroupErrs(toks: seq<Token>, inner: seq<Token>, nxt: char, m: Mode, g: Gather)
    requires g == GatherAll(toks, 0, m, false, Fresh(nxt, None)) && !Special(toks) && g.err.None?
    requires GroupOk(toks, g) && toks[g.lp.value..g.rp.value] == inner && Syn3(toks, nxt, m, None).err.None?
    ensures g.n == 0 && Syn0(inner, ')', Mode(true, false, false, false), None).err.None?
  {
    hide GatherAll, Syn0;
    if g.n != 0 { Kept0(inner, ')', Mode(true, false, false, false), Some(BadPlps)); }
  }

  /** An operator of one word: what it leaves on its left, and behind it. */
  lemma {:induction false} Cut(op: Op, toks: seq<Token>) returns (p: nat)
    requires Lexed(toks) && Calm(toks) && Scan(op, toks, 0, 0).Some?
    ensures Scan(op, toks, 0, 0) == Some(p) && p < |toks| && OpHere(op, toks[p]) && Operator(toks[p])
    ensures Lexed(toks[..p]) && Lexed(toks[p + 1..]) && Balanced(toks[..p]) && Quiet(op, toks[..p])
  {
    hide Walk, Pass, Scan;
    CalmBalanced(toks);
    assert toks[0..] == toks;
    OpFound(op, toks, 0, 0);
    p := Scan(op, toks, 0, 0).value;
    assert toks[0..p] == toks[..p] && toks[p] in toks;
    PassIsWalk(op, toks[..p], 0);
  }

  lemma {:induction false} Uncut(op: Op, toks: seq<Token>)
    requires Calm(toks) && Scan(op, toks, 0, 0).None?
    ensures Quiet(op, toks)
  {
    hide Walk, Pass, Scan;
    CalmBalanced(toks);
    assert toks[0..] == toks;
    OpFound(op, toks, 0, 0);
  }

  lemma {:induction false} Find2(toks: seq<Token>, nxt: char, m: Mode) returns (c: Cmd2)
    requires Lexed(toks) && Calm(toks) && Quiet(OpSemi, toks) && Quiet(OpOr, toks) && Quiet(OpAnd, toks)
    requires Syn2(toks, nxt, m, None).err.None?
    ensures Ok2(c, m) && Print2(c) == toks
    decreases |toks|, 2
  {
    hide Scan, Syn3, Lexed, Calm, Quiet, Ok3, Print3;
    if Scan(OpPipe, toks, 0, 0).None? {
      Uncut(OpPipe, toks);
      assert Tidy(toks) by { AllQuiet(toks); }
      var a := Find3(toks, nxt, m);
      c := Only3(a);
    } else {
      var p := Cut(OpPipe, toks);
      var both, b := AfterPipe(toks, p);
      var m1 := m.(pout := true, perr := m.perr || both);
      var left := Syn3(toks[..p], '|', m1, None);
      if left.err.Some? { Kept2(b, nxt, m.(pin := true), left.err); }
      var a := Find3(toks[..p], '|', m1);
      var rest := Find2(b, nxt, m.(pin := true));
      c := PipeTo(a, both, rest);
    }
  }

  lemma {:induction false} AllQuiet(toks: seq<Token>)
    requires Lexed(toks) && Calm(toks)
    requires Quiet(OpSemi, toks) && Quiet(OpOr, toks) && Quiet(OpAnd, toks) && Quiet(OpPipe, toks)
    ensures Tidy(toks)
  {
    forall op ensures Quiet(op, toks) { match op { case OpSemi => case OpOr => case OpAnd => case OpPipe => } }
  }

  /** Both sides of a pipe, with or without its &. */
  lemma {:induction false} AfterPipe(toks: seq<Token>, p: nat) returns (both: bool, b: seq<Token>)
    requires p < |toks| && Lexed(toks) && Calm(toks) && Quiet(OpSemi, toks) && Quiet(OpOr, toks) && Quiet(OpAnd, toks)
    requires Balanced(toks[..p]) && Quiet(OpPipe, toks[..p]) && C0(toks[p]) == '|' && Operator(toks[p])
    ensures both == (p + 1 < |toks| && C0(toks[p + 1]) == '&')
    ensures b == toks[if both then p + 2 else p + 1..] && |b| < |toks|
    ensures toks == toks[..p] + ((if both then ["|", "&"] else ["|"]) + b)
    ensures Tidy(toks[..p])
    ensures Lexed(b) && Calm(b) && Quiet(OpSemi, b) && Quiet(OpOr, b) && Quiet(OpAnd, b)
  {
    hide Lexed, Calm, Quiet, Walk;
    QuietParts(OpSemi, toks, p);
    QuietParts(OpOr, toks, p);
    QuietParts(OpAnd, toks, p);
    var d := CalmUpTo(toks, p);
    LexedSlice(toks, 0, p);
    LexedSlice(toks, p + 1, |toks|);
    assert toks[0..p] == toks[..p] && toks[p + 1..|toks|] == toks[p + 1..];
    AllQuiet(toks[..p]);
    OrIsNot(toks, p);
    both := p + 1 < |toks| && C0(toks[p + 1]) == '&';
    b := toks[if both then p + 2 else p + 1..];
    var r := toks[p + 1..];
    assert toks[p..][1..] == r && (both ==> r[0] == toks[p + 1] && r[1..] == b);
    PipeAmp(toks[p..], d, both);
    if both { AfterAmp(r, b); }
  }

  lemma {:induction false} OrIsNot(toks: seq<Token>, p: nat)
    requires p < |toks| && Quiet(OpOr, toks) && Balanced(toks[..p]) && C0(toks[p]) == '|' && Operator(toks[p])
    ensures toks[p] == "|"
  {
    assert toks == toks[..p] + toks[p..];
    PassAppend(OpOr, toks[..p], toks[p..], 0);
    if Pass(OpOr, toks[..p], 0).Some? { PassIsWalk(OpOr, toks[..p], 0); }
  }

  /** What syn0's loop makes of a pipe: the & that may follow is skipped. */
  lemma {:induction false} PipeAmp(toks: seq<Token>, d: Depth, both: bool)
    requires toks != [] && toks[0] == "|" && d.l == 0 && PassAmp(toks, d).Some? && PassAmp(toks, d).value.l == 0
    requires Lexed(toks[1..]) && Quiet(OpAnd, toks[1..]) && both == (|toks| > 1 && C0(toks[1]) == '&')
    ensures both ==> toks[1] == "&"
    ensures Calm(toks[1..][if both then 1 else 0..])
  {
    var r := toks[1..];
    assert PassAmp(r, Depth(0, true)) == PassAmp(toks, d);
    if r != [] {
      assert r[0] in r && r[0] == toks[1];
      assert both ==> r[0] != "&&";
    }
    if !both { assert r[0..] == r; }
  }

  lemma {:induction false} AfterAmp(r: seq<Token>, b: seq<Token>)
    requires r != [] && r[0] == "&" && b == r[1..] && Lexed(r) && Quiet(OpSemi, r) && Quiet(OpOr, r) && Quiet(OpAnd, r)
    ensures Lexed(b) && Quiet(OpSemi, b) && Quiet(OpOr, b) && Quiet(OpAnd, b)
  {
  }

  /** Both sides of ||, && and ;. */
  lemma {:induction false} Sides(op: Op, other: Op, toks: seq<Token>, p: nat)
    requires p < |toks| && Quiet(other, toks) && Balanced(toks[..p]) && OpHere(op, toks[p]) && Operator(toks[p])
    requires op != OpPipe
    ensures Quiet(other, toks[..p]) && Quiet(other, toks[p + 1..])
  {
    QuietParts(other, toks, p);
  }

  lemma {:induction false} Find1b(toks: seq<Token>, nxt: char, m: Mode) returns (c: Cmd1b)
    requires Lexed(toks) && Calm(toks) && Quiet(OpSemi, toks) && Quiet(OpOr, toks)
    requires Syn1b(toks, nxt, m, None).err.None?
    ensures Ok1b(c, m) && Print1b(c) == toks
    decreases |toks|, 3
  {
    hide Scan, Syn2, Lexed, Calm, Quiet, Ok2, Print2, Balanced;
    if Scan(OpAnd, toks, 0, 0).None? {
      Uncut(OpAnd, toks);
      var a := Find2(toks, nxt, m);
      c := Only2(a);
    } else {
      var p := Cut(OpAnd, toks);
      CalmParts(toks, p);
      Sides(OpAnd, OpSemi, toks, p);
      Sides(OpAnd, OpOr, toks, p);
      var left := Syn2(toks[..p], '&', m, None);
      if left.err.Some? { Kept1b(toks[p + 1..], nxt, m, left.err); }
      var a := Find2(toks[..p], '&', m);
      var rest := Find1b(toks[p + 1..], nxt, m);
      c := AndThen(a, rest);
      assert toks == toks[..p] + (["&&"] + toks[p + 1..]);
    }
  }

  lemma {:induction false} Find1a(toks: seq<Token>, nxt: char, m: Mode) returns (c: Cmd1a)
    requires Lexed(toks) && Calm(toks) && Quiet(OpSemi, toks) && Syn1a(toks, nxt, m, None).err.None?
    ensures Ok1a(c, m) && Print1a(c) == toks
    decreases |toks|, 4
  {
    hide Scan, Syn1b, Lexed, Calm, Quiet, Ok1b, Print1b, Balanced;
    if Scan(OpOr, toks, 0, 0).None? {
      Uncut(OpOr, toks);
      var a := Find1b(toks, nxt, m);
      c := Only1b(a);
    } else {
      var p := Cut(OpOr, toks);
      CalmParts(toks, p);
      Sides(OpOr, OpSemi, toks, p);
      var left := Syn1b(toks[..p], '|', m, None);
      if left.err.Some? { Kept1a(toks[p + 1..], nxt, m, left.err); }
      var a := Find1b(toks[..p], '|', m);
      var rest := Find1a(toks[p + 1..], nxt, m);
      c := OrElse(a, rest);
      assert toks == toks[..p] + (["||"] + toks[p + 1..]);
    }
  }

  /** syntax on a calm range goes straight to syn1. */
  lemma {:induction false} CalmSyntax(toks: seq<Token>, nxt: char, m: Mode)
    requires Calm(toks) && Trim(toks) == toks && toks != []
    ensures Syntax(toks, nxt, m, None).err == Syn1(toks, nxt, m, None).err
  {
    hide Syn1, PassAmp;
    assert toks[0..|toks|] == toks;
    AmpPasses(toks, 0, |toks|, Depth(0, false), None);
    assert ScanAmp(toks, 0, Depth(0, false), None) == Over(0, None) by { AmpAtEnd(toks); }
  }

  lemma {:induction false} AmpAtEnd(toks: seq<Token>)
    ensures forall d: Depth :: ScanAmp(toks, |toks|, d, None) == Over(d.l, None)
  {
  }

  lemma {:induction false} Find1(toks: seq<Token>, nxt: char, m: Mode) returns (c: Cmd1)
    requires Lexed(toks) && Calm(toks) && Syn1(toks, nxt, m, None).err.None?
    ensures Ok1(c, m) && Print1(c) == toks
    decreases |toks|, 5
  {
    hide Scan, Syn1a, Syntax, Lexed, Calm, Quiet, Ok1a, Print1a, Balanced, Trim;
    if Scan(OpSemi, toks, 0, 0).None? {
      Uncut(OpSemi, toks);
      var a := Find1a(toks, nxt, m);
      c := Only1a(a);
    } else {
      var p := Cut(OpSemi, toks);
      CalmParts(toks, p);
      var left := Syn1a(toks[..p], C0(toks[p]), m, None);
      if left.err.Some? { Kept(toks[p + 1..], nxt, m, left.err); }
      var a := Find1a(toks[..p], C0(toks[p]), m);
      var rest, n := FindRest1(toks[p + 1..], nxt, m);
      var seps := [toks[p]] + toks[p + 1..][..n];
      c := Then(a, seps, rest);
      ThenPrinted(toks, p, n);
    }
  }

  lemma {:induction false} ThenPrinted(toks: seq<Token>, p: nat, n: nat)
    requires p < |toks| && n <= |toks| - p - 1
    ensures var rest := toks[p + 1..]; toks == toks[..p] + (([toks[p]] + rest[..n]) + rest[n..])
  {
  }

  /** What follows a separator: more separators, and perhaps a command. */
  lemma {:induction false} FindRest1(toks: seq<Token>, nxt: char, m: Mode) returns (rest: Option<Cmd1>, n: nat)
    requires Lexed(toks) && Calm(toks) && Syntax(toks, nxt, m, None).err.None?
    ensures n <= |toks| && (forall k | 0 <= k < n :: Skipped(toks[k]))
    ensures rest.Some? ==> Ok1(rest.value, m)
    ensures toks[n..] == if rest.None? then [] else Print1(rest.value)
    decreases |toks|, 6
  {
    hide Lexed, Calm, Syntax, Trim, Ok1, Print1, Syn1;
    n := TrimParts(toks);
    SepsCalm(toks, n);
    var more := toks[n..];
    LexedSlice(toks, n, |toks|);
    assert toks[n..|toks|] == more;
    if more == [] {
      rest := None;
    } else {
      TrimTwice(toks, nxt, m);
      CalmSyntax(more, nxt, m);
      var c := Find1(more, nxt, m);
      rest := Some(c);
    }
  }

  lemma {:induction false} TrimTwice(toks: seq<Token>, nxt: char, m: Mode)
    ensures Trim(Trim(toks)) == Trim(toks) && Syntax(Trim(toks), nxt, m, None) == Syntax(toks, nxt, m, None)
  {
    var t := Trim(toks);
    assert t == [] || !IsSep(t[0]);
  }

  /** syn0: whatever it accepts is printed by some well-formed tree. */
  lemma {:induction false} Find0(toks: seq<Token>, nxt: char, m: Mode) returns (c: Cmd0)
    requires Lexed(toks) && Syn0(toks, nxt, m, None).err.None?
    ensures Ok0(c, m) && Print0(c) == toks
    decreases |toks|, 6
  {
    hide ScanAmp, Syn1, Syntax, Ok1, Print1, Trim, PassAmp, Lexed;
    var d := Depth(0, false);
    NoErr0(toks, nxt, m);
    AmpFound(toks, 0, d);
    assert toks[0..] == toks;
    match ScanAmp(toks, 0, d, None)
    case Over(l, e) =>
      var a := Find1(toks, nxt, m);
      c := Only1(a);
    case Hit(p, e) =>
      assert toks[0..p] == toks[..p];
      LexedSlice(toks, 0, p);
      var left := Syn1(toks[..p], '&', m, None);
      if left.err.Some? { Kept(toks[p..], nxt, m, left.err); }
      var a := Find1(toks[..p], '&', m);
      var seps, rest := FindRest0(toks, p, nxt, m);
      c := Amp(a, seps, rest);
      assert toks == toks[..p] + toks[p..];
  }

  lemma {:induction false} NoErr0(toks: seq<Token>, nxt: char, m: Mode)
    requires Syn0(toks, nxt, m, None).err.None?
    ensures ScanAmp(toks, 0, Depth(0, false), None).err.None?
  {
    hide ScanAmp, Syn1, Syntax;
    match ScanAmp(toks, 0, Depth(0, false), None)
    case Over(l, e) => if l == 0 && e.Some? { Kept1(toks, nxt, m, e); }
    case Hit(p, e) =>
      if e.Some? {
        Kept1(toks[..p], '&', m, e);
        Kept(toks[p..], nxt, m, Syn1(toks[..p], '&', m, e).err);
      }
  }

  lemma {:induction false} FindRest0(toks: seq<Token>, p: nat, nxt: char, m: Mode)
    returns (seps: seq<Token>, rest: Option<Cmd0>)
    requires Lexed(toks) && p < |toks| && C0(toks[p]) == '&' && C1(toks[p]) != '&'
    requires Syntax(toks[p..], nxt, m, None).err.None?
    ensures (forall k | 0 <= k < |seps| :: Skipped(seps[k]) || seps[k] == "&") && (rest.Some? ==> Ok0(rest.value, m))
    ensures toks[p..] == (["&"] + seps) + (if rest.None? then [] else Print0(rest.value))
    decreases |toks|, 5
  {
    hide Syn0, Ok0, Print0;
    var t := toks[p..];
    assert toks[p] in toks && t[0] == toks[p] == "&";
    LexedSlice(toks, p, |toks|);
    assert toks[p..|toks|] == t;
    var n := TrimParts(t);
    assert n > 0;
    seps := t[1..n];
    forall k | 0 <= k < |seps| ensures Skipped(seps[k]) || seps[k] == "&" {
      assert seps[k] == t[k + 1] && t[k + 1] in t;
    }
    assert t == (["&"] + seps) + t[n..];
    if t[n..] == [] {
      rest := None;
    } else {
      LexedSlice(t, n, |t|);
      var c := Find0(t[n..], nxt, m);
      rest := Some(c);
    }
  }

  /** Which words of lex the parser accepts: separators alone, or separators and a well-formed command. */
  lemma {:induction false} ParsesExactly(toks: seq<Token>, nxt: char, m: Mode)
    requires Lexed(toks)
    ensures Syntax(toks, nxt, m, None).err.None? <==>
            Trim(toks) == [] || exists c :: Ok0(c, m) && Print0(c) == Trim(toks)
    ensures forall c | Ok0(c, m) && Print0(c) == Trim(toks) ::
              Syntax(toks, nxt, m, None) == Parsed(Some(Tree0(c, nxt == ')')), None)
  {
    hide Syn0, Ok0, Print0, Lexed, Trim;
    var n := TrimParts(toks);
    if Trim(toks) != [] && Syn0(Trim(toks), nxt, m, None).err.None? {
      LexedSlice(toks, n, |toks|);
      assert toks[n..|toks|] == Trim(toks);
      var c := Find0(Trim(toks), nxt, m);
    }
    forall c | Ok0(c, m) && Print0(c) == Trim(toks)
      ensures Syntax(toks, nxt, m, None) == Parsed(Some(Tree0(c, nxt == ')')), None)
    {
      Opens0(c, m);
      Parse0(c, nxt, m);
    }
  }

  /** test is no keyword: its parentheses are a list, which no word may stand beside. */
  lemma {:induction false} TestIsNoKeyword(nxt: char, m: Mode)
    ensures !Special(["test", "(", "a", ")"]) && Syn3(["test", "(", "a", ")"], nxt, m, None).err.Some?
  {
    var toks: seq<Token> := ["test", "(", "a", ")"];
    var g1 := Keep(Fresh(nxt, None), "test", false);
    var g2 := GatherParen(toks, 1, false, g1);
    var g3 := GatherParen(toks, 3, false, g2);
    assert GatherAll(toks, 4, m, false, g3) == g3;
    assert GatherAll(toks, 2, m, false, g2) == GatherAll(toks, 3, m, false, g2) == g3;
    assert GatherAll(toks, 0, m, false, Fresh(nxt, None)) == GatherAll(toks, 1, m, false, g1) == g3;
    hide GatherAll, Syn0;
    Kept0(toks[2..3], ')', Mode(true, false, false, false), Some(BadPlps));
  }

  /** A && right after a separator is skipped like one: a ; && b is a ; b. */
  lemma {:induction false} SkippedAnd(nxt: char, m: Mode)
    ensures Syntax(["a", ";", "&&", "b"], nxt, m, None) == Syntax(["a", ";", "b"], nxt, m, None)
    ensures Syntax(["a", ";", "&&", "b"], nxt, m, None).err.None?
  {
    hide Syntax, Tree0;
    SkippedOne([";", "&&"], nxt, m);
    SkippedOne([";"], nxt, m);
    assert ["a"] + ([";", "&&"] + ["b"]) == ["a", ";", "&&", "b"] && ["a"] + ([";"] + ["b"]) == ["a", ";", "b"];
  }

  function OneWord(w: Token): Cmd1a { Only1b(Only2(Only3(Words([Word(w)])))) }

  lemma {:induction false} SkippedOne(seps: seq<Token>, nxt: char, m: Mode)
    requires seps == [";"] || seps == [";", "&&"]
    ensures Syntax(["a"] + (seps + ["b"]), nxt, m, None) ==
            Parsed(Some(List(Some(Tree1a(OneWord("a"), false)), Some(Tree1a(OneWord("b"), nxt == ')')), {})), None)
  {
    hide Syn0, Ok1a, Print1a, Tree1a, OneWord;
    var rest := Only1a(OneWord("b"));
    var c := Only1(Then(OneWord("a"), seps, Some(rest)));
    OneWordPrints("a", m);
    OneWordPrints("b", m);
    assert forall k | 0 <= k < |seps| :: Skipped(seps[k]);
    assert Ok1(rest, m) && Print1(rest) == ["b"];
    assert Ok1(c.c, m) && Print1(c.c) == ["a"] + (seps + ["b"]);
    assert Ok0(c, m) && Print0(c) == ["a"] + (seps + ["b"]);
    assert Tree1(rest, nxt == ')') == Tree1a(OneWord("b"), nxt == ')');
    Parse0(c, nxt, m);
    assert Trim(["a"] + (seps + ["b"])) == ["a"] + (seps + ["b"]);
  }

  lemma {:induction false} OneWordPrints(w: Token, m: Mode)
    requires Plain(w)
    ensures Ok1a(OneWord(w), m) && Print1a(OneWord(w)) == [w]
  {
    var items := [Word(w)];
    assert items == [Word(w)] + [] && IsWord(items[0]);
    ItemsCons(Word(w), [], m, Leads(items), Start(false));
    assert PrintItems([]) == [] && [w] + [] == [w];
    var c := Only3(Words(items));
    assert Ok3(c.c, m) && Print3(c.c) == [w];
    assert Ok2(c, m) && Print2(c) == [w];
    assert Ok1b(Only2(c), m) && Print1b(Only2(c)) == [w];
  }
}
