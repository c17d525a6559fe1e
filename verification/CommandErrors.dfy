/** Which error a malformed command is reported with. */
module CommandErrors {
  import opened Wrappers
  import opened Sequences
  import opened CommandSyntax
  import opened CommandGrammar
  import opened CommandParser
  import opened CommandRoundTrip
  import opened CommandTotal
  import opened CommandSound

  // ---------- redirections ----------

  datatype Fault =
    | NoInput(twice: bool)                                // < without a name
    | NoOutput(twice: bool, stderr: bool, bang: bool)     // > without a name
    | HereInside(file: Token)                             // << in parentheses
    | SecondInput(twice: bool, file: Token)               // a second <, or one behind a pipe
    | PipedOutput(twice: bool, bang: bool, file: Token)   // > before a pipe
    | PipedBoth(twice: bool)                              // >& before a pipe

  function Written(f: Fault): seq<Token>
  {
    match f
    case NoInput(twice) => [if twice then "<<" else "<"]
    case NoOutput(twice, stderr, bang) =>
      [if twice then ">>" else ">"] + (if stderr then ["&"] else []) + (if bang then ["!"] else [])
    case HereInside(file) => ["<<", file]
    case SecondInput(twice, file) => [if twice then "<<" else "<", file]
    case PipedOutput(twice, bang, file) => [if twice then ">>" else ">"] + (if bang then ["!"] else []) + [file]
    case PipedBoth(twice) => [if twice then ">>" else ">", "&"]
  }

  function ErrorOf(f: Fault): Error
  {
    match f
    case NoInput(_) => MisRed
    case NoOutput(_, _, _) => MisRed
    case HereInside(_) => RedPar
    case SecondInput(_, _) => InRed
    case PipedOutput(_, _, _) => OutRed
    case PipedBoth(_) => OutRed
  }

  /** No file name follows. */
  predicate NoName(rest: seq<Token>)
  {
    rest == [] || (|rest[0]| > 0 && rest[0][0] in {'<', '>', '(', ')'})
  }

  /** The fault is one where it stands: behind the items added up in a, in mode m, before rest. */
  predicate Happens(f: Fault, m: Mode, a: Acc, rest: seq<Token>)
  {
    match f
    case NoInput(_) => NoName(rest)
    case NoOutput(_, stderr, _) => NoName(rest) && (stderr ==> !m.pout && !m.perr)
    case HereInside(file) => Plain(file) && m.here
    case SecondInput(twice, file) => Plain(file) && !(m.here && twice) && (m.pin || a.lef.Some?)
    case PipedOutput(_, bang, file) => Plain(file) && (file != "!" || bang) && m.pout && (!m.perr || a.rit.Some?)
    case PipedBoth(_) => m.pout || m.perr
  }

  /** In parentheses there is no here-document among the items. */
  lemma {:induction false} NoReadInside(items: seq<Item>, m: Mode, special: bool, a: Acc)
    requires m.here && Read !in a.flags && ItemsOk(items, m, special, a)
    ensures Read !in AddItems(a, items).flags
    decreases |items|
  {
    if items != [] { NoReadInside(items[1..], m, special, AddItem(a, items[0])); }
  }

  lemma {:induction false} FaultIn(toks: seq<Token>, p: nat, f: Fault, rest: seq<Token>, m: Mode, g: Gather, a: Acc)
    requires p <= |toks| && toks[p..] == Written(f) + rest && Holds(g, a) && Happens(f, m, a, rest)
    requires f.NoInput? || f.HereInside? || f.SecondInput?
    requires m.here ==> Read !in g.flags
    ensures p < |toks| && C0(toks[p]) == '<' && GatherIn(toks, p, m, g).1.err == Some(ErrorOf(f))
  {
    var w := toks[p..];
    assert w[0] == toks[p];
    if |w| > 1 { assert w[1] == toks[p + 1]; }
  }

  lemma {:induction false} FaultOut(toks: seq<Token>, p: nat, f: Fault, rest: seq<Token>, m: Mode, g: Gather, a: Acc)
    requires p <= |toks| && toks[p..] == Written(f) + rest && Holds(g, a) && Happens(f, m, a, rest)
    requires f.NoOutput? || f.PipedOutput? || f.PipedBoth?
    ensures p < |toks| && C0(toks[p]) == '>' && GatherOut(toks, p, m, g).1.err == Some(ErrorOf(f))
  {
    hide GatherOut;
    var w, n := toks[p..], |Written(f)|;
    assert w[0] == toks[p] && |toks| == p + n + |rest|;
    forall k | 0 <= k < n ensures toks[p + k] == Written(f)[k] { assert toks[p + k] == w[k]; }
    if rest != [] { assert toks[p + n] == w[n] == rest[0]; }
    match f
    case NoOutput(twice, stderr, bang) =>
      if rest != [] { assert rest[0] != "&" && rest[0] != "!" && RelPar(rest[0]); }
      FaultFile(toks, p, f, rest, m, g);
    case PipedOutput(_, _, _) => FaultPiped(toks, p, f, m, g);
    case PipedBoth(_) => FaultBoth(toks, p, m, g);
  }

  lemma {:induction false} FaultBoth(toks: seq<Token>, p: nat, m: Mode, g: Gather)
    requires p + 1 < |toks| && toks[p + 1] == "&" && g.err.None? && (m.pout || m.perr)
    ensures GatherOut(toks, p, m, g).1.err == Some(OutRed)
  {
  }

  lemma {:induction false} FaultPiped(toks: seq<Token>, p: nat, f: Fault, m: Mode, g: Gather)
    requires f.PipedOutput? && g.err.None? && Plain(f.file) && (f.file != "!" || f.bang)
    requires m.pout && (!m.perr || g.rit.Some?)
    requires |toks| >= p + |Written(f)| && forall k | 0 <= k < |Written(f)| :: toks[p + k] == Written(f)[k]
    ensures GatherOut(toks, p, m, g).1.err == Some(OutRed)
  {
    assert f.file != "&" && !RelPar(f.file);
    var w := Written(f);
    assert toks[p + 1] == w[1] && (f.bang ==> toks[p + 2] == w[2]);
  }

  lemma {:induction false} FaultFile(toks: seq<Token>, p: nat, f: Fault, rest: seq<Token>, m: Mode, g: Gather)
    requires f.NoOutput? && g.err.None? && (f.stderr ==> !m.pout && !m.perr)
    requires |toks| == p + |Written(f)| + |rest| && forall k | 0 <= k < |Written(f)| :: toks[p + k] == Written(f)[k]
    requires rest != [] ==> toks[p + |Written(f)|] == rest[0] && rest[0] != "&" && rest[0] != "!" && RelPar(rest[0])
    ensures GatherOut(toks, p, m, g).1.err == Some(MisRed)
  {
    var q := if f.stderr then p + 1 else p;
    assert toks[q] == Written(f)[q - p];
    assert f.bang ==> toks[q + 1] == Written(f)[q - p + 1];
    assert f.stderr <==> p + 1 < |toks| && toks[p + 1] == "&";
    assert f.bang <==> q + 1 < |toks| && toks[q + 1] == "!";
  }

  /** The first faulty redirection of a command gives its error, whatever comes after it. */
  lemma {:induction false} FaultReported(items: seq<Item>, f: Fault, rest: seq<Token>, nxt: char, m: Mode)
    requires var toks := PrintItems(items) + (Written(f) + rest);
             ItemsOk(items, m, Special(toks), Start(false)) && Balanced(toks)
    requires Happens(f, m, AddItems(Start(false), items), rest)
    ensures Syn3(PrintItems(items) + (Written(f) + rest), nxt, m, None).err == Some(ErrorOf(f))
  {
    hide GatherAll, ItemsOk, AddItems, Happens, Written, Walk, Syn3, Holds, PrintItems, Special, At;
    hide GatherIn, GatherOut;
    var toks := PrintItems(items) + (Written(f) + rest);
    var special, p, a := Special(toks), |PrintItems(items)|, Start(nxt == ')');
    AtWhole(toks, 0);
    AtParts(toks, 0, PrintItems(items), Written(f) + rest);
    ItemsOkSame(items, m, special, Start(false), a);
    AddItemsSame(items, Start(false), a);
    FreshHolds(nxt);
    var g := GatherItems(toks, 0, items, m, special, Fresh(nxt, None), a);
    assert toks[p..] == Written(f) + rest;
    HappensSame(f, m, AddItems(Start(false), items), AddItems(a, items), rest);
    if m.here { NoReadInside(items, m, special, a); }
    HoldsFlags(g, AddItems(a, items));
    if f.NoInput? || f.HereInside? || f.SecondInput? {
      FaultIn(toks, p, f, rest, m, g, AddItems(a, items));
    } else {
      FaultOut(toks, p, f, rest, m, g, AddItems(a, items));
    }
    assert GatherOne(toks, p, m, special, g).1.err == Some(ErrorOf(f));
    hide GatherOne, ErrorOf;
    FaultStays(toks, p, nxt, m, g, ErrorOf(f));
  }

  lemma {:induction false} HappensSame(f: Fault, m: Mode, a: Acc, b: Acc, rest: seq<Token>)
    requires Happens(f, m, a, rest) && a.lef == b.lef && a.rit == b.rit
    ensures Happens(f, m, b, rest)
  {
  }

  lemma {:induction false} HoldsFlags(g: Gather, a: Acc)
    requires Holds(g, a)
    ensures g.flags == a.flags && g.l == 0 && g.err.None?
  {
  }

  /** An error met at position p is the command's error. */
  lemma {:induction false} FaultStays(toks: seq<Token>, p: nat, nxt: char, m: Mode, g: Gather, e: Error)
    requires p < |toks| && Balanced(toks) && GatherAll(toks, 0, m, Special(toks), Fresh(nxt, None)) ==
                                             GatherAll(toks, p, m, Special(toks), g)
    requires GatherOne(toks, p, m, Special(toks), g).1.err == Some(e) && e != Stuck
    ensures Syn3(toks, nxt, m, None).err == Some(e)
  {
    hide GatherOne, Syn0, Walk;
    var special := Special(toks);
    var (q, g1) := GatherOne(toks, p, m, special, g);
    NoMoreWords(toks, q + 1, m, special, g1);
    Fit3(toks, nxt, m, None);
    var all := GatherAll(toks, p, m, special, g);
    assert all == GatherAll(toks, q + 1, m, special, g1) && all.err == Some(e);
    if all.lp.Some? && !special && GroupOk(toks, all) {
      Kept0(toks[all.lp.value..all.rp.value], ')', Mode(true, false, false, false), Some(e));
    }
  }

  // ---------- words and groups ----------

  /** Redirections alone, or nothing at all, are no command. */
  lemma {:induction false} NothingToRun(items: seq<Item>, nxt: char, m: Mode)
    requires ItemsOk(items, m, false, Start(false)) && forall k | 0 <= k < |items| :: !IsWord(items[k])
    ensures Syn3(PrintItems(items), nxt, m, None).err == Some(NullCom)
  {
    hide GatherAll, AddItems, ItemsOk, PrintItems, Special, At, Holds;
    var toks, a := PrintItems(items), Start(nxt == ')');
    RedirectFirst(items);
    AtWhole(toks, 0);
    assert toks[0..] == toks;
    ItemsOkSame(items, m, false, Start(false), a);
    FreshHolds(nxt);
    var g := GatherItems(toks, 0, items, m, false, Fresh(nxt, None), a);
    SomeWord(items, a);
    GatherEnd(toks, m, false, g);
    HoldsNone(g, AddItems(a, items));
  }

  lemma {:induction false} RedirectFirst(items: seq<Item>)
    requires forall k | 0 <= k < |items| :: !IsWord(items[k])
    ensures !Special(PrintItems(items))
  {
    if items != [] {
      var toks := PrintItems(items);
      assert !IsWord(items[0]) && toks[0] == PrintItem(items[0])[0];
      NotSpecial(toks);
    }
  }

  lemma {:induction false} HoldsNone(g: Gather, a: Acc)
    requires Holds(g, a) && a.words == []
    ensures g.n == 0 && g.err.None?
  {
  }

  /** A word next to a group. */
  lemma {:induction false} WordsByGroup(pre: seq<Item>, inner: seq<Token>, post: seq<Item>, nxt: char, m: Mode)
    requires ItemsOk(pre, m, false, Start(false)) && ItemsOk(post, m, false, AddItems(Start(false), pre))
    requires Balanced(inner) && exists k | 0 <= k < |pre + post| :: IsWord((pre + post)[k])
    requires !Special(PrintItems(pre) + (["("] + (inner + ([")"] + PrintItems(post)))))
    requires Balanced(PrintItems(pre) + (["("] + (inner + ([")"] + PrintItems(post)))))
    ensures Syn3(PrintItems(pre) + (["("] + (inner + ([")"] + PrintItems(post)))), nxt, m, None).err == Some(BadPlps)
  {
    hide GatherAll, AddItems, ItemsOk, PrintItems, Walk, Syn0;
    var toks := PrintItems(pre) + (["("] + (inner + ([")"] + PrintItems(post))));
    var a := Start(nxt == ')');
    var g := GatherGroup(pre, inner, post, nxt, m);
    var k :| 0 <= k < |pre + post| && IsWord((pre + post)[k]);
    SomeWord(pre, a);
    SomeWord(post, AddItems(a, pre));
    if k < |pre| { assert IsWord(pre[k]); } else { assert IsWord(post[k - |pre|]); }
    assert g.n > 0;
    Fit3(toks, nxt, m, None);
    Kept0(inner, ')', Mode(true, false, false, false), Some(BadPlps));
  }

  /** A second group. */
  lemma {:induction false} SecondGroup(pre: seq<Item>, inner: seq<Token>, post: seq<Item>, rest: seq<Token>, nxt: char,
                                       m: Mode)
    requires ItemsOk(pre, m, false, Start(false)) && ItemsOk(post, m, false, AddItems(Start(false), pre))
    requires Balanced(inner)
    requires var toks := PrintItems(pre) + (["("] + (inner + ([")"] + (PrintItems(post) + (["("] + rest)))));
             !Special(toks) && Balanced(toks)
    ensures var toks := PrintItems(pre) + (["("] + (inner + ([")"] + (PrintItems(post) + (["("] + rest)))));
            Syn3(toks, nxt, m, None).err == Some(BadPlp)
  {
    hide GatherAll, PrintItems, ItemsOk, Walk, AddItems, At, Syn3, Special;
    var toks := GroupLayout(PrintItems(pre), inner, PrintItems(post) + (["("] + rest));
    var a := Start(nxt == ')');
    ItemsOkSame(pre, m, false, Start(false), a);
    AddItemsSame(pre, Start(false), a);
    ItemsOkSame(post, m, false, AddItems(Start(false), pre), AddItems(a, pre));
    var p := |PrintItems(pre)|;
    var q := p + 1 + |inner|;
    FreshHolds(nxt);
    var g1 := GatherItems(toks, 0, pre, m, false, Fresh(nxt, None), a);
    var g2 := GatherGroupBody(toks, p, inner, m, g1);
    AtParts(toks, q + 1, PrintItems(post), ["("] + rest);
    var g3 := GatherItems(toks, q + 1, post, m, false, g2, AddItems(a, pre));
    var at := q + 1 + |PrintItems(post)|;
    AtIndex(toks, at, ["("] + rest, 0);
    assert GatherOne(toks, at, m, false, g3).1.err == Some(BadPlp);
    FaultStays(toks, at, nxt, m, g3, BadPlp);
  }

  // ---------- parentheses ----------

  predicate NoAmp(toks: seq<Token>) { forall w | w in toks :: |w| == 0 || w[0] != '&' }

  /** How the loop of syn0 counts. */
  lemma {:induction false} CountsOver(toks: seq<Token>, p: nat, d: Depth, err: Option<Error>)
    requires p <= |toks| && NoAmp(toks) && d.l >= 0
    ensures ScanAmp(toks, p, d, err).Over?
    ensures match Walk(toks[p..], d.l)
            case Some(l) => ScanAmp(toks, p, d, err) == Over(l, err)
            case None => err.None? ==> ScanAmp(toks, p, d, err).err == Some(TooManyRp)
    decreases |toks| - p
  {
    if p == |toks| {
      assert toks[p..] == [];
    } else {
      var rest, d' := toks[p..], DepthAfter(toks[p], d);
      assert toks[p] in toks && rest[1..] == toks[p + 1..] && rest[0] == toks[p];
      assert d'.l == ParenStep(toks[p], d.l);
      if d'.l >= 0 {
        CountsOver(toks, p + 1, d', err);
      } else {
        OverAfter(toks, p + 1, d', Report(err, TooManyRp));
      }
    }
  }

  lemma {:induction false} OverAfter(toks: seq<Token>, p: nat, d: Depth, err: Option<Error>)
    requires p <= |toks| && NoAmp(toks) && err.Some?
    ensures ScanAmp(toks, p, d, err).Over? && ScanAmp(toks, p, d, err).err == err
    decreases |toks| - p
  {
    if p < |toks| {
      assert toks[p] in toks;
      OverAfter(toks, p + 1, DepthAfter(toks[p], d), err);
    }
  }

  /** A line without &: parentheses left open are reported as such, and no tree is made. One that closes too
      many is reported as that. */
  lemma {:induction false} ParensReported(toks: seq<Token>, nxt: char, m: Mode)
    requires toks != [] && !IsSep(toks[0]) && NoAmp(toks) && !Balanced(toks)
    ensures var r := Syntax(toks, nxt, m, None);
            match Walk(toks, 0)
            case Some(_) => r == Parsed(None, Some(TooManyLp))
            case None => r.err == Some(TooManyRp) || r.err == Some(Stuck)
  {
    hide ScanAmp, Syn1, Walk;
    assert toks[0..] == toks && Trim(toks) == toks;
    CountsOver(toks, 0, Depth(0, false), None);
    if Walk(toks, 0).None? { Kept1(toks, nxt, m, Some(TooManyRp)); }
  }
}
