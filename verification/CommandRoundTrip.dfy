/** Printing a well-formed grammar tree and parsing the words gives back its command tree. */
module CommandRoundTrip {
  import opened Wrappers
  import opened Sequences
  import opened CommandSyntax
  import opened CommandGrammar
  import opened CommandQuiet

  // ---------- scans over printed words ----------

  lemma {:induction false} ScanPasses(op: Op, toks: seq<Token>, p: nat, q: nat, l: int)
    requires p <= q <= |toks| && Pass(op, toks[p..q], l).Some?
    ensures Scan(op, toks, p, l) == Scan(op, toks, q, Pass(op, toks[p..q], l).value)
    decreases q - p
  {
    if p < q {
      assert toks[p..q][0] == toks[p] && toks[p..q][1..] == toks[p + 1..q];
      ScanPasses(op, toks, p + 1, q, ParenStep(toks[p], l));
    }
  }

  lemma {:induction false} ScanNone(op: Op, a: seq<Token>)
    requires Quiet(op, a)
    ensures Scan(op, a, 0, 0) == None
  {
    assert a[0..|a|] == a;
    ScanPasses(op, a, 0, |a|, 0);
  }

  lemma {:induction false} ScanHits(op: Op, a: seq<Token>, w: Token, b: seq<Token>)
    requires Quiet(op, a) && OpHere(op, w)
    ensures Scan(op, a + ([w] + b), 0, 0) == Some(|a|)
    ensures (a + ([w] + b))[..|a|] == a && (a + ([w] + b))[|a| + 1..] == b && (a + ([w] + b))[|a|] == w
  {
    var toks := a + ([w] + b);
    assert toks[0..|a|] == a;
    ScanPasses(op, toks, 0, |a|, 0);
  }

  lemma {:induction false} AmpPasses(toks: seq<Token>, p: nat, q: nat, d: Depth, err: Option<Error>)
    requires p <= q <= |toks| && PassAmp(toks[p..q], d).Some?
    ensures ScanAmp(toks, p, d, err) == ScanAmp(toks, q, PassAmp(toks[p..q], d).value, err)
    decreases q - p
  {
    if p < q {
      assert toks[p..q][0] == toks[p] && toks[p..q][1..] == toks[p + 1..q];
      AmpPasses(toks, p + 1, q, DepthAfter(toks[p], d), err);
    }
  }

  lemma {:induction false} AmpNone(a: seq<Token>, err: Option<Error>)
    requires QuietAmp(a)
    ensures ScanAmp(a, 0, Depth(0, false), err) == Over(0, err)
  {
    assert a[0..|a|] == a;
    AmpPasses(a, 0, |a|, Depth(0, false), err);
  }

  lemma {:induction false} AmpHits(a: seq<Token>, b: seq<Token>, err: Option<Error>)
    requires QuietAmp(a)
    ensures ScanAmp(a + (["&"] + b), 0, Depth(0, false), err) == Hit(|a|, err)
    ensures (a + (["&"] + b))[..|a|] == a && (a + (["&"] + b))[|a|..] == ["&"] + b
  {
    var toks := a + (["&"] + b);
    assert toks[0..|a|] == a;
    AmpPasses(toks, 0, |a|, Depth(0, false), err);
  }

  // ---------- syn3's loop over printed items ----------

  /** The loop state g stands for the items added up in a. */
  ghost predicate Holds(g: Gather, a: Acc)
  {
    && g.l == 0 && g.err.None? && g.words == a.words && g.n == |a.words|
    && g.lef == a.lef && g.rit == a.rit && g.flags == a.flags && (Read in g.flags ==> g.lef.Some?)
  }

  lemma {:induction false} InnerTurn(toks: seq<Token>, p: nat, m: Mode, g: Gather) returns (g': Gather)
    requires p < |toks| && g.l >= 1 && g.err.None? && ParenStep(toks[p], g.l) >= 1
    ensures g' == g.(l := ParenStep(toks[p], g.l), words := g.words + [toks[p]], n := g.n + 1)
    ensures GatherAll(toks, p, m, true, g) == GatherAll(toks, p + 1, m, true, g')
  {
    g' := g.(l := ParenStep(toks[p], g.l), words := g.words + [toks[p]], n := g.n + 1);
    assert GatherOne(toks, p, m, true, g) == (p, g');
  }

  /** Inside the parentheses of a keyword's arguments every word is kept. */
  lemma {:induction false} GatherInner(toks: seq<Token>, p: nat, ls: seq<Token>, m: Mode, g: Gather)
    requires At(toks, p, ls) && g.l >= 1 && g.err.None? && Walk(ls, g.l - 1).Some?
    ensures GatherAll(toks, p, m, true, g) ==
            GatherAll(toks, p + |ls|, m, true,
                      g.(l := Walk(ls, g.l - 1).value + 1, words := g.words + ls, n := g.n + |ls|))
    decreases |ls|
  {
    hide GatherAll;
    if ls == [] {
      assert g.words + ls == g.words;
    } else {
      AtParts(toks, p, [ls[0]], ls[1..]);
      assert ls == [ls[0]] + ls[1..];
      AtIndex(toks, p, ls, 0);
      var g' := InnerTurn(toks, p, m, g);
      GatherInner(toks, p + 1, ls[1..], m, g');
      assert g.words + [ls[0]] + ls[1..] == g.words + ls;
    }
  }

  lemma {:induction false} BodyTurn(toks: seq<Token>, p: nat, m: Mode, g: Gather) returns (g': Gather)
    requires p < |toks| && g.l >= 1 && g.err.None? && ParenStep(toks[p], g.l) >= 1
    ensures g' == g.(l := ParenStep(toks[p], g.l))
    ensures GatherAll(toks, p, m, false, g) == GatherAll(toks, p + 1, m, false, g')
  {
    g' := g.(l := ParenStep(toks[p], g.l));
    assert GatherOne(toks, p, m, false, g) == (p, g');
  }

  /** Inside a parenthesised list nothing is kept. */
  lemma {:induction false} GatherBody(toks: seq<Token>, p: nat, ls: seq<Token>, m: Mode, g: Gather)
    requires At(toks, p, ls) && g.l >= 1 && g.err.None? && Walk(ls, g.l - 1).Some?
    ensures GatherAll(toks, p, m, false, g) ==
            GatherAll(toks, p + |ls|, m, false, g.(l := Walk(ls, g.l - 1).value + 1))
    decreases |ls|
  {
    hide GatherAll;
    if ls != [] {
      AtParts(toks, p, [ls[0]], ls[1..]);
      assert ls == [ls[0]] + ls[1..];
      AtIndex(toks, p, ls, 0);
      var g' := BodyTurn(toks, p, m, g);
      GatherBody(toks, p + 1, ls[1..], m, g');
    }
  }

  lemma {:induction false} AtParens(toks: seq<Token>, p: nat, inner: seq<Token>, rest: seq<Token>)
    requires At(toks, p, ["("] + inner + [")"] + rest)
    ensures At(toks, p + 1, inner) && At(toks, p + 1 + |inner| + 1, rest)
    ensures p + 1 + |inner| < |toks| && toks[p] == "(" && toks[p + 1 + |inner|] == ")"
  {
    assert ["("] + inner + [")"] + rest == ["("] + (inner + ([")"] + rest));
    AtParts(toks, p, ["("], inner + ([")"] + rest));
    AtParts(toks, p + 1, inner, [")"] + rest);
    AtParts(toks, p + 1 + |inner|, [")"], rest);
    AtIndex(toks, p, ["("], 0);
    AtIndex(toks, p + 1 + |inner|, [")"], 0);
  }

  lemma {:induction false} GatherArgs(toks: seq<Token>, p: nat, inner: seq<Token>, m: Mode, g: Gather,
                                      a: Acc) returns (g': Gather)
    requires At(toks, p, PrintItem(Args(inner))) && Balanced(inner) && Holds(g, a)
    ensures Holds(g', AddItem(a, Args(inner)))
    ensures GatherAll(toks, p, m, true, g) == GatherAll(toks, p + |inner| + 2, m, true, g')
  {
    hide GatherAll, Walk, At, Balanced;
    assert PrintItem(Args(inner)) == ["("] + inner + [")"] + [];
    AtParens(toks, p, inner, []);
    assert Walk(inner, 0) == Some(0) by { BalancedWalks(inner); }
    var q := p + 1 + |inner|;
    var g1 := ArgsOpen(toks, p, m, g);
    GatherInner(toks, p + 1, inner, m, g1);
    g' := ArgsClose(toks, q, m, g1.(words := g1.words + inner, n := g1.n + |inner|));
    ArgsWords(a.words, inner);
  }

  lemma {:induction false} BalancedWalks(toks: seq<Token>)
    requires Balanced(toks)
    ensures Walk(toks, 0) == Some(0)
  {
  }

  lemma {:induction false} ArgsWords(ws: seq<Token>, inner: seq<Token>)
    ensures ws + ["("] + inner + [")"] == ws + (["("] + inner + [")"])
    ensures |ws + (["("] + inner + [")"])| == |ws| + 1 + |inner| + 1
  {
  }

  lemma {:induction false} ArgsOpen(toks: seq<Token>, p: nat, m: Mode, g: Gather) returns (g': Gather)
    requires p < |toks| && toks[p] == "(" && g.l == 0 && g.err.None?
    ensures g' == g.(l := 1, lp := Some(p + 1), words := g.words + ["("], n := g.n + 1)
    ensures GatherAll(toks, p, m, true, g) == GatherAll(toks, p + 1, m, true, g')
  {
    hide GatherAll;
    g' := g.(l := 1, lp := Some(p + 1), words := g.words + ["("], n := g.n + 1);
    OneTurn(toks, p, m, true, g, p, g');
  }

  lemma {:induction false} ArgsClose(toks: seq<Token>, q: nat, m: Mode, g: Gather) returns (g': Gather)
    requires q < |toks| && toks[q] == ")" && g.l == 1 && g.err.None?
    ensures g' == g.(l := 0, rp := Some(q), words := g.words + [")"], n := g.n + 1)
    ensures GatherAll(toks, q, m, true, g) == GatherAll(toks, q + 1, m, true, g')
  {
    hide GatherAll;
    g' := g.(l := 0, rp := Some(q), words := g.words + [")"], n := g.n + 1);
    OneTurn(toks, q, m, true, g, q, g');
  }

  lemma {:induction false} OneTurn(toks: seq<Token>, p: nat, m: Mode, special: bool, g: Gather, q: nat, g': Gather)
    requires p < |toks| && GatherOne(toks, p, m, special, g) == (q, g')
    ensures GatherAll(toks, p, m, special, g) == GatherAll(toks, q + 1, m, special, g')
  {
  }

  lemma {:induction false} GatherWord(toks: seq<Token>, p: nat, m: Mode, special: bool, g: Gather, a: Acc)
    returns (g': Gather)
    requires p < |toks| && Plain(toks[p]) && Holds(g, a)
    ensures Holds(g', AddItem(a, Word(toks[p]))) && g'.lp == g.lp && g'.rp == g.rp
    ensures GatherAll(toks, p, m, special, g) == GatherAll(toks, p + 1, m, special, g')
  {
    g' := g.(words := g.words + [toks[p]], n := g.n + 1);
    OneTurn(toks, p, m, special, g, p, g');
  }

  lemma {:induction false} GatherRedirectIn(toks: seq<Token>, p: nat, i: Item, m: Mode, special: bool, g: Gather,
                                            a: Acc)
    returns (g': Gather)
    requires i.In? && At(toks, p, PrintItem(i)) && ItemOk(i, m, special, a) && Holds(g, a)
    ensures Holds(g', AddItem(a, i)) && g'.lp == g.lp && g'.rp == g.rp
    ensures GatherAll(toks, p, m, special, g) == GatherAll(toks, p + |PrintItem(i)|, m, special, g')
  {
    AtIndex(toks, p, PrintItem(i), 0);
    AtIndex(toks, p, PrintItem(i), 1);
    g' := g.(lef := Some(i.file), flags := g.flags + if i.twice then {Read} else {});
    assert i.twice || g.flags + {} == g.flags;
    OneTurn(toks, p, m, special, g, p + 1, g');
  }

  lemma {:induction false} GatherRedirectOut(toks: seq<Token>, p: nat, i: Item, m: Mode, special: bool, g: Gather,
                                             a: Acc)
    returns (g': Gather)
    requires i.Out? && At(toks, p, PrintItem(i)) && ItemOk(i, m, special, a) && Holds(g, a)
    ensures Holds(g', AddItem(a, i)) && g'.lp == g.lp && g'.rp == g.rp
    ensures GatherAll(toks, p, m, special, g) == GatherAll(toks, p + |PrintItem(i)|, m, special, g')
  {
    hide GatherAll, GatherFile, GatherOut, At, PrintItem, Holds, AddItem;
    OutLayout(toks, p, i);
    var h := g.(flags := g.flags + (if i.twice then {Append} else {}) + (if i.stderr then {Stderr} else {}));
    g' := h.(rit := Some(i.file), flags := h.flags + if i.bang then {Overwrite} else {});
    OutAdds(g, a, i, h);
    var q := if i.stderr then p + 1 else p;
    FileEnd(toks, q, i.bang, i.file, m, h);
    OutHead(toks, p, i, m, g, h, q);
    OneTurn(toks, p, m, special, g, if i.bang then q + 2 else q + 1, g');
  }

  /** What an output redirection adds up to. */
  lemma {:induction false} OutAdds(g: Gather, a: Acc, i: Item, h: Gather)
    requires i.Out? && Holds(g, a)
    requires h == g.(flags := g.flags + (if i.twice then {Append} else {}) + (if i.stderr then {Stderr} else {}))
    ensures g.l == 0 && g.err.None? && g.rit == a.rit
    ensures Holds(h.(rit := Some(i.file), flags := h.flags + if i.bang then {Overwrite} else {}), AddItem(a, i))
  {
  }

  lemma {:induction false} OutLayout(toks: seq<Token>, p: nat, i: Item)
    requires i.Out? && At(toks, p, PrintItem(i)) && Plain(i.file)
    ensures var q := if i.stderr then p + 1 else p;
            && q + 1 < |toks| && C0(toks[p]) == '>' && (C1(toks[p]) == '>' <==> i.twice)
            && (toks[p + 1] == "&" <==> i.stderr)
            && At(toks, q + 1, (if i.bang then ["!"] else []) + [i.file])
            && p + |PrintItem(i)| == (if i.bang then q + 3 else q + 2) <= |toks|
  {
    hide At;
    var mark := (if i.bang then ["!"] else []) + [i.file];
    var head := [if i.twice then ">>" else ">"] + (if i.stderr then ["&"] else []);
    assert PrintItem(i) == head + mark;
    AtParts(toks, p, head, mark);
    AtIndex(toks, p, head, 0);
    AtIndex(toks, p + |head|, mark, 0);
    if i.stderr { AtIndex(toks, p, head, 1); }
  }

  /** The >, >> or >& in front of the file name. */
  lemma {:induction false} OutHead(toks: seq<Token>, p: nat, i: Item, m: Mode, g: Gather, h: Gather, q: nat)
    requires i.Out? && p + 1 < |toks| && (C1(toks[p]) == '>' <==> i.twice) && (toks[p + 1] == "&" <==> i.stderr)
    requires q == (if i.stderr then p + 1 else p) && q < |toks| && (m.pout || m.perr ==> !i.stderr)
    requires h == g.(flags := g.flags + (if i.twice then {Append} else {}) + (if i.stderr then {Stderr} else {}))
    ensures GatherOut(toks, p, m, g) == GatherFile(toks, q, m, h)
  {
    hide GatherFile;
    var g1 := if i.twice then g.(flags := g.flags + {Append}) else g;
    assert g1.flags == g.flags + (if i.twice then {Append} else {});
    assert h == if i.stderr then g1.(flags := g1.flags + {Stderr}) else g1;
  }

  lemma {:induction false} FileEnd(toks: seq<Token>, q: nat, bang: bool, file: Token, m: Mode, h: Gather)
    requires At(toks, q + 1, (if bang then ["!"] else []) + [file]) && Plain(file) && (file != "!" || bang)
    requires h.err.None? && (m.pout ==> m.perr && h.rit.None?)
    ensures GatherFile(toks, q, m, h) ==
            (if bang then q + 2 else q + 1,
             h.(rit := Some(file), flags := h.flags + if bang then {Overwrite} else {}))
  {
    var ls := (if bang then ["!"] else []) + [file];
    AtIndex(toks, q + 1, ls, 0);
    if bang { AtIndex(toks, q + 1, ls, 1); } else { assert h.flags + {} == h.flags; }
  }

  lemma {:induction false} GatherItem(toks: seq<Token>, p: nat, i: Item, m: Mode, special: bool, g: Gather,
                                      a: Acc) returns (g': Gather)
    requires At(toks, p, PrintItem(i)) && ItemOk(i, m, special, a) && Holds(g, a)
    ensures Holds(g', AddItem(a, i)) && (!special ==> g'.lp == g.lp && g'.rp == g.rp)
    ensures GatherAll(toks, p, m, special, g) == GatherAll(toks, p + |PrintItem(i)|, m, special, g')
  {
    hide GatherAll, Holds;
    match i
    case Word(w) =>
      AtIndex(toks, p, [w], 0);
      g' := GatherWord(toks, p, m, special, g, a);
    case Args(inner) => g' := GatherArgs(toks, p, inner, m, g, a);
    case In(_, _) => g' := GatherRedirectIn(toks, p, i, m, special, g, a);
    case Out(_, _, _, _) => g' := GatherRedirectOut(toks, p, i, m, special, g, a);
  }

  lemma {:induction false} GatherItems(toks: seq<Token>, p: nat, items: seq<Item>, m: Mode, special: bool,
                                       g: Gather, a: Acc)
    returns (g': Gather)
    requires At(toks, p, PrintItems(items)) && ItemsOk(items, m, special, a) && Holds(g, a)
    ensures Holds(g', AddItems(a, items)) && (!special ==> g'.lp == g.lp && g'.rp == g.rp)
    ensures GatherAll(toks, p, m, special, g) == GatherAll(toks, p + |PrintItems(items)|, m, special, g')
    decreases |items|
  {
    hide GatherAll, Holds, PrintItem, ItemOk, AddItem;
    if items == [] { return g; }
    AtParts(toks, p, PrintItem(items[0]), PrintItems(items[1..]));
    var g1 := GatherItem(toks, p, items[0], m, special, g, a);
    g' := GatherItems(toks, p + |PrintItem(items[0])|, items[1..], m, special, g1, AddItem(a, items[0]));
  }

  /** The redirection rules look only at the redirections so far. */
  lemma {:induction false} ItemsOkSame(items: seq<Item>, m: Mode, special: bool, a: Acc, b: Acc)
    requires ItemsOk(items, m, special, a) && a.lef == b.lef && a.rit == b.rit
    ensures ItemsOk(items, m, special, b)
    decreases |items|
  {
    if items != [] {
      ItemsOkSame(items[1..], m, special, AddItem(a, items[0]), AddItem(b, items[0]));
    }
  }

  lemma {:induction false} AddItemsSame(items: seq<Item>, a: Acc, b: Acc)
    requires a.lef == b.lef && a.rit == b.rit
    ensures AddItems(a, items).lef == AddItems(b, items).lef && AddItems(a, items).rit == AddItems(b, items).rit
    decreases |items|
  {
    if items != [] { AddItemsSame(items[1..], AddItem(a, items[0]), AddItem(b, items[0])); }
  }

  lemma {:induction false} SomeWord(items: seq<Item>, a: Acc)
    ensures |AddItems(a, items).words| >= |a.words|
    ensures (exists k | 0 <= k < |items| :: IsWord(items[k])) ==> AddItems(a, items).words != []
    ensures (forall k | 0 <= k < |items| :: !IsWord(items[k])) ==> AddItems(a, items).words == a.words
    decreases |items|
  {
    if items != [] { SomeWord(items[1..], AddItem(a, items[0])); }
  }

  // ---------- the levels ----------

  lemma {:induction false} ParseWords(items: seq<Item>, nxt: char, m: Mode)
    requires Ok3(Words(items), m)
    ensures Syn3(PrintItems(items), nxt, m, None) == Node(Tree3(Words(items), nxt == ')'), None)
  {
    LeadsIsSpecial(items);
    hide GatherAll, PrintItems, ItemsOk, Syn0, Leads, Special;
    var toks := PrintItems(items);
    var a := Start(nxt == ')');
    ItemsOkSame(items, m, Special(toks), Start(false), a);
    AtWhole(toks, 0);
    assert toks[0..] == toks;
    var g := GatherItems(toks, 0, items, m, Special(toks), Fresh(nxt, None), a);
    GatherEnd(toks, m, Special(toks), g);
    SomeWord(items, a);
  }

  lemma {:induction false} LeadsIsSpecial(items: seq<Item>)
    ensures Leads(items) == Special(PrintItems(items))
    decreases |items|
  {
    if items != [] {
      var toks := PrintItems(items);
      assert toks[0] == PrintItem(items[0])[0];
      if items[0].Word? {
        assert toks[1..] == PrintItems(items[1..]);
        if items[0].w == "else" { LeadsIsSpecial(items[1..]); }
      }
    }
  }

  /** Whether c is one command, group or pipeline, and its tree. */
  lemma {:induction false} SingleTree(c: Cmd1)
    ensures var t := Tree1(c, false);
            if c.Only1a? && c.c.Only1b? && c.c.c.Only2? then
              t == Tree2(c.c.c.c, false) && (t.Simple? || t.Paren? || t.Pipe?)
            else t.List? || t.Or? || t.And?
  {
    if c.Only1a? {
      assert Tree1(c, false) == Tree1a(c.c, false);
      if c.c.Only1b? {
        assert Tree1a(c.c, false) == Tree1b(c.c.c, false);
        if c.c.c.Only2? {
          assert Tree1b(c.c.c, false) == Tree2(c.c.c.c, false);
          if c.c.c.c.Only3? { assert Tree2(c.c.c.c, false) == Tree3(c.c.c.c.c, false); }
        }
      }
    }
  }

  /** The parser's marking is the grammar's. */
  lemma {:induction false} AmpIsBackground(c: Cmd1)
    ensures AmpTree(c) == Background(Tree1(c, false))
  {
    SingleTree(c);
    hide Tree1, Tree0;
    if c.Only1a? && c.c.Only1b? && c.c.c.Only2? && c.c.c.c.Only3? {
      assert Tree2(c.c.c.c, false) == Tree3(c.c.c.c.c, false);
    }
  }

  /** t is u with the marks of the background. */
  ghost predicate Marked(t: Command, u: Command)
  {
    var marks := {Ampersand, NoInterrupt};
    match (t, u)
    case (Simple(w, l, r, f), Simple(w', l', r', f')) => w == w' && l == l' && r == r' && f == f' + marks
    case (Paren(s, l, r, f), Paren(s', l', r', f')) => s == s' && l == l' && r == r' && f == f' + marks
    case (Pipe(a, b, f), Pipe(a', b', f')) => a == a' && b == b' && f == f' + marks
    case _ => false
  }

  /** What runs in the background is marked and otherwise unchanged. */
  lemma {:induction false} AmpMarks(c: Cmd1)
    ensures Ampersand in AmpTree(c).flags && NoInterrupt in AmpTree(c).flags
    ensures var t, u := AmpTree(c), Tree1(c, false);
            t == Paren(Some(u), None, None, {Ampersand, NoInterrupt}) || Marked(t, u)
  {
    SingleTree(c);
    hide Tree1, Tree0;
    if c.Only1a? && c.c.Only1b? && c.c.c.Only2? && c.c.c.c.Only3? {
      assert Tree2(c.c.c.c, false) == Tree3(c.c.c.c.c, false);
    }
  }

  /** syn3's loop over a parenthesised list with its redirections. */
  lemma {:induction false} GatherGroup(pre: seq<Item>, inner: seq<Token>, post: seq<Item>, nxt: char,
                                       m: Mode) returns (g: Gather)
    requires ItemsOk(pre, m, false, Start(false)) && ItemsOk(post, m, false, AddItems(Start(false), pre))
    requires Balanced(inner)
    ensures var toks := PrintItems(pre) + (["("] + (inner + ([")"] + PrintItems(post))));
            && g == GatherAll(toks, 0, m, false, Fresh(nxt, None))
            && Holds(g, AddItems(AddItems(Start(nxt == ')'), pre), post))
            && GroupOk(toks, g) && toks[g.lp.value..g.rp.value] == inner
  {
    hide GatherAll, PrintItems, ItemsOk, Walk, AddItems, At;
    var toks := GroupLayout(PrintItems(pre), inner, PrintItems(post));
    var a := Start(nxt == ')');
    ItemsOkSame(pre, m, false, Start(false), a);
    AddItemsSame(pre, Start(false), a);
    ItemsOkSame(post, m, false, AddItems(Start(false), pre), AddItems(a, pre));
    var p := |PrintItems(pre)|;
    var q := p + 1 + |inner|;
    var g1 := GatherItems(toks, 0, pre, m, false, Fresh(nxt, None), a);
    var g2 := GatherGroupBody(toks, p, inner, m, g1);
    g := GatherItems(toks, q + 1, post, m, false, g2, AddItems(a, pre));
    GatherEnd(toks, m, false, g);
  }

  lemma {:induction false} GroupLayout(a: seq<Token>, inner: seq<Token>, b: seq<Token>) returns (toks: seq<Token>)
    ensures toks == a + (["("] + (inner + ([")"] + b)))
    ensures var p := |a|;
            var q := p + 1 + |inner|;
            && At(toks, 0, a) && At(toks, p + 1, inner) && At(toks, q + 1, b) && q + 1 + |b| == |toks|
            && toks[p] == "(" && toks[q] == ")" && toks[p + 1..q] == inner
  {
    hide At;
    toks := a + (["("] + (inner + ([")"] + b)));
    var rest := ["("] + inner + [")"] + b;
    assert ["("] + (inner + ([")"] + b)) == rest;
    AtWhole(toks, 0);
    assert toks[0..] == toks;
    AtParts(toks, 0, a, rest);
    AtParens(toks, |a|, inner, b);
    AtBound(toks, |a| + 1, inner);
  }

  lemma {:induction false} GatherGroupBody(toks: seq<Token>, p: nat, inner: seq<Token>, m: Mode, g: Gather)
    returns (g': Gather)
    requires At(toks, p + 1, inner) && p + 1 + |inner| < |toks| && toks[p] == "(" && toks[p + 1 + |inner|] == ")"
    requires Balanced(inner) && g.l == 0 && g.err.None? && g.lp.None?
    ensures g' == g.(lp := Some(p + 1), rp := Some(p + 1 + |inner|))
    ensures GatherAll(toks, p, m, false, g) == GatherAll(toks, p + 1 + |inner| + 1, m, false, g')
  {
    hide GatherAll, Walk, At;
    var q := p + 1 + |inner|;
    var g1 := g.(l := 1, lp := Some(p + 1));
    OneTurn(toks, p, m, false, g, p, g1);
    GatherBody(toks, p + 1, inner, m, g1);
    g' := g1.(l := 0, rp := Some(q));
    OneTurn(toks, q, m, false, g1, q, g');
  }

  lemma {:induction false} NotSpecial(toks: seq<Token>)
    requires toks != [] && C0(toks[0]) in {'<', '>', '('}
    ensures !Special(toks)
  {
  }

  lemma {:induction false} Parse3(c: Cmd3, nxt: char, m: Mode)
    requires Ok3(c, m)
    ensures Syn3(Print3(c), nxt, m, None) == Node(Tree3(c, nxt == ')'), None)
    decreases c
  {
    match c
    case Words(items) => ParseWords(items, nxt, m);
    case Group(pre, body, post) =>
      var here := Mode(true, false, false, false);
      Balanced0(body, here);
      var g := GatherGroup(pre, Print0(body), post, nxt, m);
      GroupNotSpecial(pre, body, post, m);
      SomeWord(pre, Start(nxt == ')'));
      SomeWord(post, AddItems(Start(nxt == ')'), pre));
      Parse0(body, ')', here);
      hide GatherAll, AddItems, Syn0, Print0;
  }

  lemma {:induction false} GroupNotSpecial(pre: seq<Item>, body: Cmd0, post: seq<Item>, m: Mode)
    requires Ok3(Group(pre, body, post), m)
    ensures !Special(Print3(Group(pre, body, post)))
  {
    var toks := Print3(Group(pre, body, post));
    if pre == [] {
      assert toks[0] == "(";
    } else {
      assert !IsWord(pre[0]);
      assert toks[0] == PrintItems(pre)[0] == PrintItem(pre[0])[0];
    }
    NotSpecial(toks);
  }

  lemma {:induction false} Parse2(c: Cmd2, nxt: char, m: Mode)
    requires Ok2(c, m)
    ensures Syn2(Print2(c), nxt, m, None) == Node(Tree2(c, nxt == ')'), None)
    decreases c
  {
    hide Syn2, Syn3, Print3, Scan, Ok3, Quiet, QuietAmp, Opens;
    match c
    case Only3(a) =>
      Quiet3(a, m);
      ScanNone(OpPipe, Print3(a));
      Syn2Only(Print3(a), nxt, m);
      Parse3(a, nxt, m);
    case PipeTo(a, both, rest) =>
      var m1 := m.(pout := true, perr := m.perr || both);
      Quiet3(a, m1);
      Opens2(rest, m.(pin := true));
      PipeLayout(Print3(a), both, Print2(rest));
      Syn2Pipe(Print2(c), |Print3(a)|, both, nxt, m);
      Parse3(a, '|', m1);
      Parse2(rest, nxt, m.(pin := true));
  }

  lemma {:induction false} Syn2Only(toks: seq<Token>, nxt: char, m: Mode)
    requires Scan(OpPipe, toks, 0, 0) == None
    ensures Syn2(toks, nxt, m, None) == Syn3(toks, nxt, m, None)
  {
  }

  lemma {:induction false} Syn2Pipe(toks: seq<Token>, p: nat, both: bool, nxt: char, m: Mode)
    requires p + 1 < |toks| && Scan(OpPipe, toks, 0, 0) == Some(p) && (C0(toks[p + 1]) == '&' <==> both)
    ensures (if both then p + 2 else p + 1) <= |toks|
    ensures var a := Syn3(toks[..p], '|', m.(pout := true, perr := m.perr || both), None);
            var b := Syn2(toks[if both then p + 2 else p + 1..], nxt, m.(pin := true), a.err);
            Syn2(toks, nxt, m, None) == Node(Pipe(a.tree, b.tree, if both then {Stderr} else {}), b.err)
  {
    hide Scan, Syn3;
  }

  /** Where syn2 cuts a pipe: the left command, the bar with its &, and the rest. */
  lemma {:induction false} PipeLayout(a: seq<Token>, both: bool, b: seq<Token>)
    requires Quiet(OpPipe, a) && Opens(b)
    ensures var toks := a + ((if both then ["|", "&"] else ["|"]) + b);
            && Scan(OpPipe, toks, 0, 0) == Some(|a|) && toks[..|a|] == a && |a| + 1 < |toks|
            && (C0(toks[|a| + 1]) == '&' <==> both)
            && toks[if both then |a| + 2 else |a| + 1..] == b
  {
    hide Scan, Quiet;
    var tail := (if both then ["&"] else []) + b;
    assert a + ((if both then ["|", "&"] else ["|"]) + b) == a + (["|"] + tail);
    ScanHits(OpPipe, a, "|", tail);
  }

  lemma {:induction false} Parse1b(c: Cmd1b, nxt: char, m: Mode)
    requires Ok1b(c, m)
    ensures Syn1b(Print1b(c), nxt, m, None) == Node(Tree1b(c, nxt == ')'), None)
    decreases c
  {
    hide Syn2, Print2, Scan;
    Quiet2(c.c, m);
    match c
    case Only2(a) =>
      ScanNone(OpAnd, Print2(a));
      Parse2(a, nxt, m);
    case AndThen(a, rest) =>
      ScanHits(OpAnd, Print2(a), "&&", Print1b(rest));
      Parse2(a, '&', m);
      Parse1b(rest, nxt, m);
  }

  lemma {:induction false} Parse1a(c: Cmd1a, nxt: char, m: Mode)
    requires Ok1a(c, m)
    ensures Syn1a(Print1a(c), nxt, m, None) == Node(Tree1a(c, nxt == ')'), None)
    decreases c
  {
    hide Syn1b, Print1b, Scan;
    Quiet1b(c.c, m);
    match c
    case Only1b(a) =>
      ScanNone(OpOr, Print1b(a));
      Parse1b(a, nxt, m);
    case OrElse(a, rest) =>
      ScanHits(OpOr, Print1b(a), "||", Print1a(rest));
      Parse1b(a, '|', m);
      Parse1a(rest, nxt, m);
  }

  lemma {:induction false} TrimSeps(seps: seq<Token>, rest: seq<Token>)
    requires (forall k | 0 <= k < |seps| :: IsSep(seps[k])) && (rest == [] || Opens(rest))
    ensures Trim(seps + rest) == rest
    decreases |seps|
  {
    if seps == [] {
      assert seps + rest == rest;
    } else {
      assert (seps + rest)[1..] == seps[1..] + rest;
      TrimSeps(seps[1..], rest);
    }
  }

  lemma {:induction false} Parse1(c: Cmd1, nxt: char, m: Mode)
    requires Ok1(c, m)
    ensures Syn1(Print1(c), nxt, m, None) == Node(Tree1(c, nxt == ')'), None)
    decreases c
  {
    hide Syn1, Syn1a, Print1a, Scan, Syntax;
    Quiet1a(c.c, m);
    match c
    case Only1a(a) =>
      ScanNone(OpSemi, Print1a(a));
      Syn1Only(Print1a(a), nxt, m);
      Parse1a(a, nxt, m);
    case Then(a, seps, rest) =>
      ThenLayout(Print1a(a), seps, if rest.None? then [] else Print1(rest.value));
      Parse1a(a, seps[0][0], m);
      if rest.Some? {
        Parse1(rest.value, nxt, m);
      }
      ParseRest1(seps[1..], rest, nxt, m);
      Syn1Then(Print1(c), |Print1a(a)|, nxt, m);
  }

  lemma {:induction false} ThenLayout(a: seq<Token>, seps: seq<Token>, more: seq<Token>)
    requires Quiet(OpSemi, a) && seps != [] && OpHere(OpSemi, seps[0])
    ensures var toks := a + (seps + more);
            && |a| < |toks| && Scan(OpSemi, toks, 0, 0) == Some(|a|) && toks[..|a|] == a
            && toks[|a|] == seps[0] && toks[|a| + 1..] == seps[1..] + more
  {
    hide Scan, Quiet;
    assert a + (seps + more) == a + ([seps[0]] + (seps[1..] + more));
    ScanHits(OpSemi, a, seps[0], seps[1..] + more);
  }

  lemma {:induction false} Syn1Only(toks: seq<Token>, nxt: char, m: Mode)
    requires Scan(OpSemi, toks, 0, 0) == None
    ensures Syn1(toks, nxt, m, None) == Syn1a(toks, nxt, m, None)
  {
  }

  lemma {:induction false} Syn1Then(toks: seq<Token>, p: nat, nxt: char, m: Mode)
    requires p < |toks| && Scan(OpSemi, toks, 0, 0) == Some(p)
    ensures var a := Syn1a(toks[..p], C0(toks[p]), m, None);
            var b := Syntax(toks[p + 1..], nxt, m, a.err);
            Syn1(toks, nxt, m, None) ==
            Node(if b.tree.None? then List(None, Some(a.tree), {}) else List(Some(a.tree), b.tree, {}), b.err)
  {
    hide Scan, Syn1a, Syntax;
  }

  /** What follows the first separator. */
  lemma {:induction false} ParseRest1(seps: seq<Token>, rest: Option<Cmd1>, nxt: char, m: Mode)
    requires forall k | 0 <= k < |seps| :: Skipped(seps[k])
    requires rest.Some? ==> Ok1(rest.value, m) &&
                            Syn1(Print1(rest.value), nxt, m, None) == Node(Tree1(rest.value, nxt == ')'), None)
    ensures Syntax(seps + (if rest.None? then [] else Print1(rest.value)), nxt, m, None) ==
            Parsed(if rest.None? then None else Some(Tree1(rest.value, nxt == ')')), None)
  {
    hide Syn1, Print1, ScanAmp, Trim;
    var more := if rest.None? then [] else Print1(rest.value);
    if rest.Some? {
      Opens1(rest.value, m);
      Quiet1(rest.value, m);
      AmpNone(more, None);
    }
    TrimSeps(seps, more);
  }

  lemma {:induction false} Parse0(c: Cmd0, nxt: char, m: Mode)
    requires Ok0(c, m)
    ensures Syn0(Print0(c), nxt, m, None) == Parsed(Some(Tree0(c, nxt == ')')), None)
    decreases c
  {
    hide Syn1, Print1, ScanAmp, Trim, Tree1, Background, AmpTree;
    AmpIsBackground(c.c);
    Quiet1(c.c, m);
    match c
    case Only1(a) =>
      AmpNone(Print1(a), None);
      Parse1(a, nxt, m);
    case Amp(a, seps, rest) =>
      var more := if rest.None? then [] else Print0(rest.value);
      assert (["&"] + seps) + more == ["&"] + (seps + more);
      AmpHits(Print1(a), seps + more, None);
      Parse1(a, '&', m);
      if rest.Some? {
        Opens0(rest.value, m);
        Parse0(rest.value, nxt, m);
      }
      TrimSeps(["&"] + seps, more);
  }

  // ---------- whole lines ----------

  /** The tree of a line: the final newline is one more separator. */
  function Line1(c: Cmd1): Cmd1
  {
    match c
    case Only1a(a) => Then(a, ["\n"], None)
    case Then(a, seps, rest) =>
      if rest.None? then Then(a, seps + ["\n"], None) else Then(a, seps, Some(Line1(rest.value)))
  }

  function Line0(c: Cmd0): Cmd0
  {
    match c
    case Only1(a) => Only1(Line1(a))
    case Amp(a, seps, rest) =>
      if rest.None? then Amp(a, seps + ["\n"], None) else Amp(a, seps, Some(Line0(rest.value)))
  }

  lemma {:induction false} Line1Prints(c: Cmd1, m: Mode)
    requires Ok1(c, m)
    ensures Print1(Line1(c)) == Print1(c) + ["\n"] && Ok1(Line1(c), m)
    decreases c
  {
    match c
    case Only1a(a) => assert ["\n"] + [] == ["\n"];
    case Then(a, seps, rest) =>
      if rest.None? {
        assert Print1a(a) + ((seps + ["\n"]) + []) == (Print1a(a) + (seps + [])) + ["\n"];
      } else {
        Line1Prints(rest.value, m);
        var r := Print1(rest.value);
        assert Print1a(a) + (seps + (r + ["\n"])) == (Print1a(a) + (seps + r)) + ["\n"];
      }
  }

  lemma {:induction false} Line0Prints(c: Cmd0, m: Mode)
    requires Ok0(c, m)
    ensures Print0(Line0(c)) == Print0(c) + ["\n"] && Ok0(Line0(c), m)
    decreases c
  {
    match c
    case Only1(a) => Line1Prints(a, m);
    case Amp(a, seps, rest) =>
      if rest.None? {
        assert Print1(a) + ((["&"] + (seps + ["\n"])) + []) == (Print1(a) + ((["&"] + seps) + [])) + ["\n"];
      } else {
        Line0Prints(rest.value, m);
        var r := Print0(rest.value);
        assert Print1(a) + ((["&"] + seps) + (r + ["\n"])) == (Print1(a) + ((["&"] + seps) + r)) + ["\n"];
      }
  }

  /**
   * Round trip: the words of any well-formed tree, after any leading separators and followed by the
   * newline that ends every line, parse without error to the command tree of that line.
   */
  lemma {:induction false} PrintThenParse(lead: seq<Token>, c: Cmd0)
    requires Ok0(c, Mode(false, false, false, false)) && forall k | 0 <= k < |lead| :: IsSep(lead[k])
    ensures Syntax(lead + (Print0(c) + ["\n"]), NUL, Mode(false, false, false, false), None) ==
            Parsed(Some(Tree0(Line0(c), false)), None)
  {
    var m := Mode(false, false, false, false);
    Line0Prints(c, m);
    Opens0(Line0(c), m);
    TrimSeps(lead, Print0(Line0(c)));
    Parse0(Line0(c), NUL, m);
  }
}
