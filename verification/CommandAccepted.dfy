/** Every well-formed command line gets through the alias pass. */
module CommandAccepted {
  import opened Wrappers
  import opened CommandSyntax
  import opened CommandGrammar
  import opened CommandAlias
  import opened CommandPieces

  // ---------- balanced words are pieces ----------

  /** The word that closes the parenthesis before p. */
  lemma {:induction false} Closer(toks: seq<Token>, p: nat, l: nat) returns (r: nat)
    requires p <= |toks| && Walk(toks[p..], l + 1) == Some(0)
    ensures p <= r < |toks| && Begins(toks[r], ')') && Walk(toks[p..r], l) == Some(0) && Balanced(toks[r + 1..])
    decreases |toks| - p
  {
    assert toks[p..] != [];
    assert toks[p..][0] == toks[p] && toks[p..][1..] == toks[p + 1..];
    var l' := ParenStep(toks[p], l + 1);
    if l' == 0 {
      r := p;
      assert toks[p..r] == [];
    } else {
      r := Closer(toks, p + 1, l' - 1);
      assert toks[p..r][0] == toks[p] && toks[p..r][1..] == toks[p + 1..r];
    }
  }

  lemma {:induction false} PiecesOf(toks: seq<Token>) returns (ps: seq<Piece>)
    requires Balanced(toks)
    ensures Paired(ps) && Flat(ps) == toks
    decreases |toks|
  {
    if toks == [] { return []; }
    if Begins(toks[0], '(') {
      var r := Closer(toks, 1, 0);
      var inner := PiecesOf(toks[1..r]);
      var rest := PiecesOf(toks[r + 1..]);
      ps := [Nest(toks[0], inner, toks[r])] + rest;
      assert ps[1..] == rest;
      assert toks == [toks[0]] + toks[1..r] + [toks[r]] + toks[r + 1..];
    } else {
      assert Walk(toks, 0) == Walk(toks[1..], ParenStep(toks[0], 0));
      assert !Begins(toks[0], ')');
      var rest := PiecesOf(toks[1..]);
      ps := [Tok(toks[0])] + rest;
      assert ps[1..] == rest && toks == [toks[0]] + toks[1..];
    }
  }

  // ---------- joining ----------

  /** The pieces of these words; the last one does not wait for an &. */
  ghost predicate Made(ps: seq<Piece>, toks: seq<Token>)
  {
    Paired(ps) && Flat(ps) == toks && (ps != [] ==> !Waits(ps[|ps| - 1]))
  }

  ghost predicate Waits(p: Piece) { p.Tok? && Begins(p.w, '>') }

  lemma {:induction false} MadeAppend(a: seq<Piece>, x: seq<Token>, b: seq<Piece>, y: seq<Token>)
    requires Made(a, x) && Made(b, y)
    ensures Made(a + b, x + y)
  {
    FlatAppend(a, b);
  }

  predicate Mark(w: Token) { |w| > 0 && w[0] in {'&', '|', ';', '\n'} }

  /** Words that end commands, and pieces behind them. */
  lemma {:induction false} AfterMarks(marks: seq<Token>, b: seq<Piece>, y: seq<Token>) returns (ps: seq<Piece>)
    requires (forall k | 0 <= k < |marks| :: Mark(marks[k])) && Made(b, y) && Passes(b)
    ensures Made(ps, marks + y) && Passes(ps)
    decreases |marks|
  {
    if marks == [] {
      assert marks + y == y;
      return b;
    }
    var rest := AfterMarks(marks[1..], b, y);
    var t := Tok(marks[0]);
    ps := [t] + rest;
    MarkMade(marks[0]);
    MadeAppend([t], [marks[0]], rest, marks[1..] + y);
    assert [marks[0]] + (marks[1..] + y) == marks + y;
    assert ps[1..] == rest && ps[..0] == [] && CutAt(ps, 0);
    hide CutAt, Flat, Passes, Made;
    assert Passes([]) by { NonePasses(); }
    PassesSplits(ps, 0);
  }

  lemma {:induction false} MarkMade(w: Token)
    requires Mark(w)
    ensures Made([Tok(w)], [w])
  {
    FlatOne(Tok(w));
    OneTok(w);
  }

  /** Two parts of a line with marks between them. */
  lemma {:induction false} JoinPasses(a: seq<Piece>, x: seq<Token>, marks: seq<Token>, b: seq<Piece>, y: seq<Token>)
    returns (ps: seq<Piece>)
    requires Made(a, x) && Passes(a) && marks != [] && forall k | 0 <= k < |marks| :: Mark(marks[k])
    requires Made(b, y) && Passes(b)
    ensures Made(ps, x + (marks + y)) && Passes(ps)
  {
    hide Flat, Passes;
    var rest := AfterMarks(marks[1..], b, y);
    var t := Tok(marks[0]);
    ps := a + ([t] + rest);
    MarkMade(marks[0]);
    MadeAppend([t], [marks[0]], rest, marks[1..] + y);
    MadeAppend(a, x, [t] + rest, [marks[0]] + (marks[1..] + y));
    assert [marks[0]] + (marks[1..] + y) == marks + y;
    assert ps[..|a|] == a && ps[|a| + 1..] == rest && ps[|a|] == t;
    if |a| > 0 { assert ps[|a| - 1] == a[|a| - 1]; }
    assert CutAt(ps, |a|);
    hide CutAt, Made;
    PassesSplits(ps, |a|);
  }

  // ---------- one command ----------

  lemma {:induction false} OneAppend(a: seq<Piece>, b: seq<Piece>)
    requires OneCommand(a) && OneCommand(b)
    ensures OneCommand(a + b)
  {
    var ps := a + b;
    forall k | 0 <= k < |ps| ensures !CutAt(ps, k) {
      if k < |a| {
        assert !CutAt(a, k) && ps[k] == a[k] && (k > 0 ==> ps[k - 1] == a[k - 1]);
      } else {
        assert !CutAt(b, k - |a|) && ps[k] == b[k - |a|];
        if k > |a| { assert ps[k - 1] == b[k - |a| - 1]; }
      }
    }
  }

  lemma {:induction false} ItemPieces(i: Item, m: Mode, special: bool, a: Acc) returns (ps: seq<Piece>)
    requires ItemOk(i, m, special, a)
    ensures Made(ps, PrintItem(i)) && OneCommand(ps) && ps != []
    ensures !i.Args? ==> forall k | 0 <= k < |ps| :: ps[k].Tok?
  {
    hide Flat, Made, OneCommand;
    match i
    case Word(w) =>
      ps := Toks([w]);
      ToksMade([w]);
      PlainOne([w]);
    case Args(inner) =>
      var inside := PiecesOf(inner);
      ps := [Nest("(", inside, ")")];
      OneGroup(ps[0], inner);
    case In(twice, file) =>
      ps := Toks([if twice then "<<" else "<", file]);
      ToksMade([if twice then "<<" else "<", file]);
      PlainOne([if twice then "<<" else "<", file]);
    case Out(twice, stderr, bang, file) =>
      ps := Toks(PrintItem(i));
      ToksMade(PrintItem(i));
      OutOne(i);
  }

  /** Words without parentheses, not ending in an output redirection. */
  lemma {:induction false} ToksMade(ws: seq<Token>)
    requires ws != [] && !Begins(ws[|ws| - 1], '>')
    requires forall k | 0 <= k < |ws| :: !Begins(ws[k], '(') && !Begins(ws[k], ')')
    ensures Made(Toks(ws), ws)
  {
    hide Flat;
    var ps := Toks(ws);
    forall k | 0 <= k < |ps| ensures PairedOne(ps[k]) { assert ps[k] == Tok(ws[k]); }
  }

  lemma {:induction false} PlainOne(ws: seq<Token>)
    requires forall k | 0 <= k < |ws| :: !Mark(ws[k])
    ensures OneCommand(Toks(ws))
  {
    hide Flat;
    var ps := Toks(ws);
    forall k | 0 <= k < |ps| ensures !CutAt(ps, k) { assert ps[k] == Tok(ws[k]); }
  }

  /** The & of an output redirection ends no command. */
  lemma {:induction false} OutOne(i: Item)
    requires i.Out? && Plain(i.file)
    ensures OneCommand(Toks(PrintItem(i)))
  {
    hide Flat;
    var w, ps := PrintItem(i), Toks(PrintItem(i));
    forall k | 0 <= k < |ps| ensures !CutAt(ps, k) {
      assert ps[k] == Tok(w[k]);
      if i.stderr && k == 1 { assert ps[0] == Tok(w[0]) && Joined(ps, 1); }
    }
  }

  function Toks(ws: seq<Token>): (ps: seq<Piece>)
    ensures |ps| == |ws| && forall k | 0 <= k < |ws| :: ps[k] == Tok(ws[k])
    ensures Flat(ps) == ws
    decreases |ws|
  {
    if ws == [] then [] else
      var rest := Toks(ws[1..]);
      assert ([Tok(ws[0])] + rest)[1..] == rest;
      [Tok(ws[0])] + rest
  }

  lemma {:induction false} ItemsPieces(items: seq<Item>, m: Mode, special: bool, a: Acc) returns (ps: seq<Piece>)
    requires ItemsOk(items, m, special, a)
    ensures Made(ps, PrintItems(items)) && OneCommand(ps) && (ps == [] <==> items == [])
    ensures items != [] && !items[0].Args? ==> ps[0].Tok?
    ensures (forall k | 0 <= k < |items| :: !items[k].Args?) ==> forall k | 0 <= k < |ps| :: ps[k].Tok?
    decreases |items|
  {
    hide ItemOk, PrintItem, AddItem, CutAt, Flat;
    if items == [] {
      ps := [];
      FlatNone();
    } else {
      var one := ItemPieces(items[0], m, special, a);
      var rest := ItemsPieces(items[1..], m, special, AddItem(a, items[0]));
      MadeAppend(one, PrintItem(items[0]), rest, PrintItems(items[1..]));
      OneAppend(one, rest);
      ps := one + rest;
    }
  }

  /** A command that starts with a word passes. */
  lemma {:induction false} WordFirst(ps: seq<Piece>)
    requires OneCommand(ps) && (ps != [] ==> ps[0].Tok?)
    ensures Passes(ps)
  {
    forall i | 0 <= i < |ps| && ps[i].Nest? ensures !Starts(ps, i) { assert i > 0 && !CutAt(ps, i - 1); }
  }

  lemma {:induction false} GroupFirst(g: Piece, post: seq<Piece>)
    requires g.Nest? && Passes(g.inner) && OneCommand([g] + post) && forall k | 0 <= k < |post| :: post[k].Tok?
    ensures Passes([g] + post)
  {
    var ps := [g] + post;
    forall j | 0 < j < |ps| ensures ps[j].Tok? { assert ps[j] == post[j - 1]; }
  }

  lemma {:induction false} Pieces3(c: Cmd3, m: Mode) returns (ps: seq<Piece>)
    requires Ok3(c, m)
    ensures Made(ps, Print3(c)) && Passes(ps)
    decreases c, 0
  {
    match c
    case Words(items) =>
      hide ItemsOk;
      ps := ItemsPieces(items, m, Leads(items), Start(false));
      FirstIsWord(items, m);
      WordFirst(ps);
    case Group(pre, body, post) =>
      var inner := Pieces0(body, Mode(true, false, false, false));
      ps := GroupPieces(pre, Print0(body), post, m, inner);
  }

  lemma {:induction false} FirstIsWord(items: seq<Item>, m: Mode)
    requires Ok3(Words(items), m)
    ensures items != [] && !items[0].Args?
  {
    assert ItemOk(items[0], m, Leads(items), Start(false));
  }

  lemma {:induction false} GroupPieces(pre: seq<Item>, body: seq<Token>, post: seq<Item>, m: Mode, inner: seq<Piece>)
    returns (ps: seq<Piece>)
    requires (forall k | 0 <= k < |pre| :: !IsWord(pre[k])) && (forall k | 0 <= k < |post| :: !IsWord(post[k]))
    requires ItemsOk(pre, m, false, Start(false)) && ItemsOk(post, m, false, AddItems(Start(false), pre))
    requires Made(inner, body) && Passes(inner)
    ensures Made(ps, PrintItems(pre) + (["("] + (body + ([")"] + PrintItems(post))))) && Passes(ps)
  {
    hide ItemsOk, Passes, PrintItems, AddItems, Flat, CutAt;
    var a := ItemsPieces(pre, m, false, Start(false));
    var b := ItemsPieces(post, m, false, AddItems(Start(false), pre));
    var g := Nest("(", inner, ")");
    var mid := [g];
    assert Made(mid, ["("] + body + [")"]) && OneCommand(mid) by { OneGroup(g, body); }
    MadeAppend(mid, ["("] + body + [")"], b, PrintItems(post));
    OneAppend(mid, b);
    MadeAppend(a, PrintItems(pre), mid + b, ["("] + body + [")"] + PrintItems(post));
    OneAppend(a, mid + b);
    ps := a + (mid + b);
    assert ["("] + body + [")"] + PrintItems(post) == ["("] + (body + ([")"] + PrintItems(post)));
    if pre == [] {
      assert ps == [g] + b;
      GroupFirst(g, b);
    } else {
      assert ps[0] == a[0];
      WordFirst(ps);
    }
  }

  lemma {:induction false} OneGroup(g: Piece, body: seq<Token>)
    requires g.Nest? && g.open == "(" && g.close == ")" && Paired(g.inner) && Flat(g.inner) == body
    ensures Made([g], ["("] + body + [")"]) && OneCommand([g])
  {
    FlatOne(g);
  }

  // ---------- the levels ----------

  lemma {:induction false} Pieces2(c: Cmd2, m: Mode) returns (ps: seq<Piece>)
    requires Ok2(c, m)
    ensures Made(ps, Print2(c)) && Passes(ps)
    decreases c, 0
  {
    hide Made, Passes;
    match c
    case Only3(a) => ps := Pieces3(a, m);
    case PipeTo(a, both, rest) =>
      var l := Pieces3(a, m.(pout := true, perr := m.perr || both));
      var r := Pieces2(rest, m.(pin := true));
      ps := JoinPasses(l, Print3(a), if both then ["|", "&"] else ["|"], r, Print2(rest));
  }

  lemma {:induction false} Pieces1b(c: Cmd1b, m: Mode) returns (ps: seq<Piece>)
    requires Ok1b(c, m)
    ensures Made(ps, Print1b(c)) && Passes(ps)
    decreases c, 0
  {
    hide Made, Passes;
    match c
    case Only2(a) => ps := Pieces2(a, m);
    case AndThen(a, rest) =>
      var l := Pieces2(a, m);
      var r := Pieces1b(rest, m);
      ps := JoinPasses(l, Print2(a), ["&&"], r, Print1b(rest));
  }

  lemma {:induction false} Pieces1a(c: Cmd1a, m: Mode) returns (ps: seq<Piece>)
    requires Ok1a(c, m)
    ensures Made(ps, Print1a(c)) && Passes(ps)
    decreases c, 0
  {
    hide Made, Passes;
    match c
    case Only1b(a) => ps := Pieces1b(a, m);
    case OrElse(a, rest) =>
      var l := Pieces1b(a, m);
      var r := Pieces1a(rest, m);
      ps := JoinPasses(l, Print1b(a), ["||"], r, Print1a(rest));
  }

  lemma {:induction false} NoPieces()
    ensures Made([], []) && Passes([])
  {
  }

  lemma {:induction false} Pieces1(c: Cmd1, m: Mode) returns (ps: seq<Piece>)
    requires Ok1(c, m)
    ensures Made(ps, Print1(c)) && Passes(ps)
    decreases c, 0
  {
    hide Made, Passes;
    match c
    case Only1a(a) => ps := Pieces1a(a, m);
    case Then(a, seps, rest) =>
      var l := Pieces1a(a, m);
      var r := [];
      NoPieces();
      if rest.Some? { r := Pieces1(rest.value, m); }
      ps := JoinPasses(l, Print1a(a), seps, r, if rest.None? then [] else Print1(rest.value));
  }

  lemma {:induction false} Pieces0(c: Cmd0, m: Mode) returns (ps: seq<Piece>)
    requires Ok0(c, m)
    ensures Made(ps, Print0(c)) && Passes(ps)
    decreases c, 0
  {
    hide Made, Passes;
    match c
    case Only1(a) => ps := Pieces1(a, m);
    case Amp(a, seps, rest) =>
      var l := Pieces1(a, m);
      var r := [];
      NoPieces();
      if rest.Some? { r := Pieces0(rest.value, m); }
      var marks := ["&"] + seps;
      assert forall k | 0 <= k < |marks| :: Mark(marks[k]);
      ps := JoinPasses(l, Print1(a), marks, r, if rest.None? then [] else Print0(rest.value));
  }

  /** The words of every well-formed line, after any separators and with the newline, get through. */
  lemma {:induction false} WellFormedPasses(lead: seq<Token>, c: Cmd0)
    requires Ok0(c, Mode(false, false, false, false)) && forall k | 0 <= k < |lead| :: IsSep(lead[k])
    ensures PassAll(lead + (Print0(c) + ["\n"]))
  {
    hide Passes, Ok0, Print0, PassAll;
    var l := Pieces0(c, Mode(false, false, false, false));
    NoPieces();
    var r := JoinPasses(l, Print0(c), ["\n"], [], []);
    assert Print0(c) + (["\n"] + []) == Print0(c) + ["\n"];
    assert forall k | 0 <= k < |lead| :: Mark(lead[k]);
    var ps := AfterMarks(lead, r, Print0(c) + ["\n"]);
    PassesExactly(ps);
  }
}
