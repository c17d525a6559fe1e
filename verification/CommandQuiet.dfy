/** What a well-formed grammar tree prints hides its operators from the scans for looser ones. */
module CommandQuiet {
  import opened Wrappers
  import opened CommandSyntax
  import opened CommandGrammar

  // ---------- walking over words without meeting an operator ----------

  /** Like Walk, but also None when the operator shows up at depth 0. */
  function Pass(op: Op, toks: seq<Token>, l: int): Option<int>
  {
    if l < 0 then None
    else if toks == [] then Some(l)
    else if OpHere(op, toks[0]) && l == 0 then None
    else Pass(op, toks[1..], ParenStep(toks[0], l))
  }

  /** The same for syn0's loop. */
  function PassAmp(toks: seq<Token>, d: Depth): Option<Depth>
  {
    if d.l < 0 then None
    else if toks == [] then Some(d)
    else if AmpHere(toks[0], d) then None
    else PassAmp(toks[1..], DepthAfter(toks[0], d))
  }

  ghost predicate Quiet(op: Op, toks: seq<Token>) { Pass(op, toks, 0) == Some(0) }
  ghost predicate QuietAmp(toks: seq<Token>) { PassAmp(toks, Depth(0, false)) == Some(Depth(0, false)) }

  lemma {:induction false} PassAppend(op: Op, a: seq<Token>, b: seq<Token>, l: int)
    ensures Pass(op, a + b, l) == if Pass(op, a, l).None? then None else Pass(op, b, Pass(op, a, l).value)
    decreases |a|
  {
    if a == [] {
      assert a + b == b;
    } else {
      assert (a + b)[1..] == a[1..] + b;
      PassAppend(op, a[1..], b, ParenStep(a[0], l));
    }
  }

  lemma {:induction false} PassAmpAppend(a: seq<Token>, b: seq<Token>, d: Depth)
    ensures PassAmp(a + b, d) == if PassAmp(a, d).None? then None else PassAmp(b, PassAmp(a, d).value)
    decreases |a|
  {
    if a == [] {
      assert a + b == b;
    } else {
      assert (a + b)[1..] == a[1..] + b;
      PassAmpAppend(a[1..], b, DepthAfter(a[0], d));
    }
  }

  lemma {:induction false} WalkAppend(a: seq<Token>, b: seq<Token>, l: int)
    ensures Walk(a + b, l) == if Walk(a, l).None? then None else Walk(b, Walk(a, l).value)
    decreases |a|
  {
    if a == [] {
      assert a + b == b;
    } else {
      assert (a + b)[1..] == a[1..] + b;
      WalkAppend(a[1..], b, ParenStep(a[0], l));
    }
  }

  /** Inside parentheses no operator counts. */
  lemma {:induction false} PassInside(op: Op, toks: seq<Token>, l: int)
    requires Walk(toks, l).Some? && l >= 0
    ensures Pass(op, toks, l + 1) == Some(Walk(toks, l).value + 1)
    decreases |toks|
  {
    if toks != [] {
      PassInside(op, toks[1..], ParenStep(toks[0], l));
    }
  }

  lemma {:induction false} PassAmpInside(toks: seq<Token>, l: int, skip: bool)
    requires Walk(toks, l).Some? && l >= 0
    ensures var r := PassAmp(toks, Depth(l + 1, skip)); r.Some? && r.value.l == Walk(toks, l).value + 1
    decreases |toks|
  {
    if toks != [] {
      var d := DepthAfter(toks[0], Depth(l + 1, skip));
      PassAmpInside(toks[1..], d.l - 1, d.skip);
    }
  }

  lemma {:induction false} QuietAppend(op: Op, a: seq<Token>, b: seq<Token>)
    requires Quiet(op, a) && Quiet(op, b)
    ensures Quiet(op, a + b)
  {
    PassAppend(op, a, b, 0);
  }

  lemma {:induction false} QuietAmpAppend(a: seq<Token>, b: seq<Token>)
    requires QuietAmp(a) && QuietAmp(b)
    ensures QuietAmp(a + b)
  {
    PassAmpAppend(a, b, Depth(0, false));
  }

  /** A balanced run of words in parentheses is quiet. */
  lemma {:induction false} QuietParens(toks: seq<Token>)
    requires Balanced(toks)
    ensures forall op :: Quiet(op, ["("] + toks + [")"])
    ensures QuietAmp(["("] + toks + [")"])
  {
    forall op ensures Quiet(op, ["("] + toks + [")"]) {
      PassInside(op, toks, 0);
      PassAppend(op, toks, [")"], 1);
      assert ["("] + toks + [")"] == ["("] + (toks + [")"]);
      assert (["("] + (toks + [")"]))[1..] == toks + [")"];
      assert Pass(op, [")"], 1) == Some(0) by { assert [")"][1..] == []; }
    }
    PassAmpInside(toks, 0, false);
    PassAmpAppend(toks, [")"], Depth(1, false));
    assert ["("] + toks + [")"] == ["("] + (toks + [")"]);
    assert (["("] + (toks + [")"]))[1..] == toks + [")"];
    var d := PassAmp(toks, Depth(1, false)).value;
    assert PassAmp([")"], d) == Some(Depth(0, false)) by { assert [")"][1..] == []; }
  }

  // ---------- what is printed is quiet for the looser operators ----------

  ghost predicate QuietAll(toks: seq<Token>)
  {
    QuietAmp(toks) && forall op :: Quiet(op, toks)
  }

  lemma {:induction false} QuietAllAppend(a: seq<Token>, b: seq<Token>)
    requires QuietAll(a) && QuietAll(b)
    ensures QuietAll(a + b)
  {
    forall op ensures Quiet(op, a + b) { QuietAppend(op, a, b); }
    QuietAmpAppend(a, b);
  }

  lemma {:induction false} QuietPlain(w: Token)
    requires Plain(w)
    ensures QuietAll([w])
  {
    var rest: seq<Token> := [];
    assert [w][1..] == rest;
    forall op ensures Quiet(op, [w]) { assert Pass(op, [w], 0) == Pass(op, rest, 0); }
  }

  lemma {:induction false} QuietItem(i: Item, m: Mode, special: bool, a: Acc)
    requires ItemOk(i, m, special, a)
    ensures QuietAll(PrintItem(i))
  {
    match i
    case Word(w) => QuietPlain(w);
    case Args(inner) => QuietParens(inner);
    case In(twice, file) =>
      var op := if twice then "<<" else "<";
      QuietRedirect(op);
      QuietPlain(file);
      QuietAllAppend([op], [file]);
      assert [op, file] == [op] + [file];
    case Out(twice, stderr, bang, file) =>
      var op := if twice then ">>" else ">";
      var mark := if bang then ["!"] else [];
      QuietPlain(file);
      if bang {
        QuietPlain("!");
        QuietAllAppend(["!"], [file]);
      } else {
        assert mark + [file] == [file];
      }
      QuietOut(op, stderr, mark + [file]);
      assert [op] + (if stderr then ["&"] else []) + mark + [file] ==
             [op] + ((if stderr then ["&"] else []) + (mark + [file]));
  }

  lemma {:induction false} QuietRedirect(op: Token)
    requires op == "<" || op == "<<"
    ensures QuietAll([op])
  {
    var rest: seq<Token> := [];
    assert [op][1..] == rest;
    forall o ensures Quiet(o, [op]) { assert Pass(o, [op], 0) == Pass(o, rest, 0); }
  }

  lemma {:induction false} QuietOut(op: Token, stderr: bool, rest: seq<Token>)
    requires (op == ">" || op == ">>") && QuietAll(rest) && rest != [] && Plain(rest[0])
    ensures QuietAll([op] + ((if stderr then ["&"] else []) + rest))
  {
    var amp := if stderr then ["&"] else [];
    var toks := [op] + (amp + rest);
    assert toks[1..] == amp + rest;
    if stderr {
      assert (amp + rest)[1..] == rest && (amp + rest)[0] == "&";
    } else {
      assert amp + rest == rest;
    }
    forall o ensures Quiet(o, toks) {
      assert Quiet(o, rest);
      assert Pass(o, amp + rest, 0) == Some(0);
    }
    assert PassAmp(rest, Depth(0, true)) == PassAmp(rest, Depth(0, false));
    assert PassAmp(amp + rest, Depth(0, true)) == Some(Depth(0, false));
  }

  lemma {:induction false} QuietItems(items: seq<Item>, m: Mode, special: bool, a: Acc)
    requires ItemsOk(items, m, special, a)
    ensures QuietAll(PrintItems(items))
    decreases |items|
  {
    if items != [] {
      QuietItem(items[0], m, special, a);
      QuietItems(items[1..], m, special, AddItem(a, items[0]));
      QuietAllAppend(PrintItem(items[0]), PrintItems(items[1..]));
    }
  }

  /** The first word of a command is no separator and no operator. */
  ghost predicate Opens(toks: seq<Token>)
  {
    toks != [] && C0(toks[0]) !in {';', '&', '\n', '|', ')'}
  }

  lemma {:induction false} OpensItems(items: seq<Item>, m: Mode, special: bool, a: Acc)
    requires ItemsOk(items, m, special, a) && items != []
    ensures Opens(PrintItems(items))
  {
    assert ItemOk(items[0], m, special, a);
    assert PrintItems(items)[0] == PrintItem(items[0])[0];
  }

  lemma {:induction false} Opens3(c: Cmd3, m: Mode)
    requires Ok3(c, m)
    ensures Opens(Print3(c))
  {
    match c
    case Words(items) => OpensItems(items, m, Leads(items), Start(false));
    case Group(pre, body, post) =>
      if pre == [] {
        assert Print3(c)[0] == "(";
      } else {
        OpensItems(pre, m, false, Start(false));
        assert Print3(c)[0] == PrintItems(pre)[0];
      }
  }

  lemma {:induction false} Opens2(c: Cmd2, m: Mode)
    requires Ok2(c, m)
    ensures Opens(Print2(c))
  {
    match c
    case Only3(a) => Opens3(a, m);
    case PipeTo(a, both, _) =>
      Opens3(a, m.(pout := true, perr := m.perr || both));
      assert Print2(c)[0] == Print3(a)[0];
  }

  lemma {:induction false} Opens1b(c: Cmd1b, m: Mode)
    requires Ok1b(c, m)
    ensures Opens(Print1b(c))
  {
    Opens2(c.c, m);
    assert Print1b(c)[0] == Print2(c.c)[0];
  }

  lemma {:induction false} Opens1a(c: Cmd1a, m: Mode)
    requires Ok1a(c, m)
    ensures Opens(Print1a(c))
  {
    Opens1b(c.c, m);
    assert Print1a(c)[0] == Print1b(c.c)[0];
  }

  lemma {:induction false} Opens1(c: Cmd1, m: Mode)
    requires Ok1(c, m)
    ensures Opens(Print1(c))
  {
    Opens1a(c.c, m);
    assert Print1(c)[0] == Print1a(c.c)[0];
  }

  lemma {:induction false} Opens0(c: Cmd0, m: Mode)
    requires Ok0(c, m)
    ensures Opens(Print0(c))
  {
    Opens1(c.c, m);
    assert Print0(c)[0] == Print1(c.c)[0];
  }

  lemma {:induction false} QuietGroup(a: seq<Token>, inner: seq<Token>, b: seq<Token>)
    requires QuietAll(a) && QuietAll(b) && Balanced(inner)
    ensures QuietAll(a + (["("] + (inner + ([")"] + b))))
  {
    hide Quiet, QuietAmp;
    QuietParens(inner);
    QuietAllAppend(["("] + inner + [")"], b);
    QuietAllAppend(a, (["("] + inner + [")"]) + b);
    assert a + (["("] + (inner + ([")"] + b))) == a + ((["("] + inner + [")"]) + b);
  }

  lemma {:induction false} Quiet3(c: Cmd3, m: Mode)
    requires Ok3(c, m)
    ensures QuietAll(Print3(c))
    decreases c
  {
    match c
    case Words(items) => QuietItems(items, m, Leads(items), Start(false));
    case Group(pre, body, post) =>
      hide QuietAll, PrintItems, Print0, AddItems, Balanced;
      QuietItems(pre, m, false, Start(false));
      QuietItems(post, m, false, AddItems(Start(false), pre));
      Balanced0(body, Mode(true, false, false, false));
      QuietGroup(PrintItems(pre), Print0(body), PrintItems(post));
  }

  lemma {:induction false} Quiet2(c: Cmd2, m: Mode)
    requires Ok2(c, m)
    ensures QuietAmp(Print2(c)) && forall op | op != OpPipe :: Quiet(op, Print2(c))
    decreases c
  {
    match c
    case Only3(a) => Quiet3(a, m);
    case PipeTo(a, both, rest) =>
      var bar := if both then ["|", "&"] else ["|"];
      Quiet3(a, m.(pout := true, perr := m.perr || both));
      Quiet2(rest, m.(pin := true));
      Opens2(rest, m.(pin := true));
      QuietBar(both, Print2(rest));
      forall op | op != OpPipe ensures Quiet(op, Print2(c)) {
        QuietAppend(op, Print3(a), bar + Print2(rest));
      }
      QuietAmpAppend(Print3(a), bar + Print2(rest));
  }

  lemma {:induction false} QuietBar(both: bool, rest: seq<Token>)
    requires QuietAmp(rest) && (forall op | op != OpPipe :: Quiet(op, rest)) && Opens(rest)
    ensures var bar := if both then ["|", "&"] else ["|"];
            QuietAmp(bar + rest) && forall op | op != OpPipe :: Quiet(op, bar + rest)
  {
    var bar := if both then ["|", "&"] else ["|"];
    var toks := bar + rest;
    var amp := if both then ["&"] else [];
    assert toks[1..] == amp + rest;
    if both {
      assert (amp + rest)[1..] == rest && (amp + rest)[0] == "&";
    } else {
      assert amp + rest == rest;
    }
    forall o | o != OpPipe ensures Quiet(o, toks) {
      assert Quiet(o, rest);
      assert Pass(o, amp + rest, 0) == Some(0);
    }
    assert PassAmp(rest, Depth(0, true)).Some? && PassAmp(rest, Depth(0, true)) == Some(Depth(0, false)) by {
      assert DepthAfter(rest[0], Depth(0, true)) == DepthAfter(rest[0], Depth(0, false));
    }
    assert PassAmp(amp + rest, Depth(0, true)) == Some(Depth(0, false));
  }

  /** A word that is an operator of no concern to op. */
  lemma {:induction false} QuietMark(op: Op, w: Token)
    requires (w == "&&" && op != OpAnd) || (w == "||" && op != OpPipe && op != OpOr)
    ensures Quiet(op, [w])
  {
    var rest: seq<Token> := [];
    assert [w][1..] == rest;
  }

  lemma {:induction false} QuietAmpMark(w: Token)
    requires w == "&&" || w == "||" || w == ";" || w == "\n"
    ensures QuietAmp([w])
  {
    var rest: seq<Token> := [];
    assert [w][1..] == rest;
  }

  lemma {:induction false} Quiet1b(c: Cmd1b, m: Mode)
    requires Ok1b(c, m)
    ensures QuietAmp(Print1b(c)) && Quiet(OpOr, Print1b(c)) && Quiet(OpSemi, Print1b(c))
    decreases c
  {
    Quiet2(c.c, m);
    if c.AndThen? {
      Quiet1b(c.rest, m);
      QuietMark(OpOr, "&&");
      QuietMark(OpSemi, "&&");
      QuietAmpMark("&&");
      QuietAppend(OpOr, ["&&"], Print1b(c.rest));
      QuietAppend(OpSemi, ["&&"], Print1b(c.rest));
      QuietAmpAppend(["&&"], Print1b(c.rest));
      QuietAppend(OpOr, Print2(c.c), ["&&"] + Print1b(c.rest));
      QuietAppend(OpSemi, Print2(c.c), ["&&"] + Print1b(c.rest));
      QuietAmpAppend(Print2(c.c), ["&&"] + Print1b(c.rest));
    }
  }

  lemma {:induction false} Quiet1a(c: Cmd1a, m: Mode)
    requires Ok1a(c, m)
    ensures QuietAmp(Print1a(c)) && Quiet(OpSemi, Print1a(c))
    decreases c
  {
    Quiet1b(c.c, m);
    if c.OrElse? {
      Quiet1a(c.rest, m);
      QuietMark(OpSemi, "||");
      QuietAmpMark("||");
      QuietAppend(OpSemi, ["||"], Print1a(c.rest));
      QuietAmpAppend(["||"], Print1a(c.rest));
      QuietAppend(OpSemi, Print1b(c.c), ["||"] + Print1a(c.rest));
      QuietAmpAppend(Print1b(c.c), ["||"] + Print1a(c.rest));
    }
  }

  lemma {:induction false} QuietSeps(seps: seq<Token>)
    requires forall k | 0 <= k < |seps| :: Skipped(seps[k])
    ensures QuietAmp(seps)
    decreases |seps|
  {
    if seps != [] {
      QuietAmpMark(seps[0]);
      QuietSeps(seps[1..]);
      QuietAmpAppend([seps[0]], seps[1..]);
      assert seps == [seps[0]] + seps[1..];
    }
  }

  lemma {:induction false} Quiet1(c: Cmd1, m: Mode)
    requires Ok1(c, m)
    ensures QuietAmp(Print1(c))
    decreases c
  {
    Quiet1a(c.c, m);
    if c.Then? {
      var rest := if c.rest.None? then [] else Print1(c.rest.value);
      if c.rest.Some? { Quiet1(c.rest.value, m); }
      QuietSeps(c.seps);
      QuietAmpAppend(c.seps, rest);
      QuietAmpAppend(Print1a(c.c), c.seps + rest);
    }
  }

  /** Parentheses balance in everything that is printed. */
  lemma {:induction false} Balanced0(c: Cmd0, m: Mode)
    requires Ok0(c, m)
    ensures Balanced(Print0(c))
    decreases c
  {
    Quiet1(c.c, m);
    AmpWalks(Print1(c.c), Depth(0, false));
    if c.Amp? {
      var rest := if c.rest.None? then [] else Print0(c.rest.value);
      if c.rest.Some? { Balanced0(c.rest.value, m); }
      WalkSeps(["&"] + c.seps);
      WalkAppend(["&"] + c.seps, rest, 0);
      WalkAppend(Print1(c.c), (["&"] + c.seps) + rest, 0);
    }
  }

  lemma {:induction false} WalkSeps(seps: seq<Token>)
    requires forall k | 0 <= k < |seps| :: Skipped(seps[k]) || seps[k] == "&"
    ensures Balanced(seps)
    decreases |seps|
  {
    if seps != [] { WalkSeps(seps[1..]); }
  }

  lemma {:induction false} AmpWalks(toks: seq<Token>, d: Depth)
    requires PassAmp(toks, d).Some?
    ensures Walk(toks, d.l) == Some(PassAmp(toks, d).value.l)
    decreases |toks|
  {
    if toks != [] { AmpWalks(toks[1..], DepthAfter(toks[0], d)); }
  }
}
