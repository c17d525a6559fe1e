/**
 * The alias pass of bin/csh/parse.c over words of which none is aliased: what it lets through to the
 * parser. A pass that does replace an alias starts over, so the last one is of this kind.
 */
module CommandAlias {
  import opened Wrappers
  import opened CommandSyntax
  import opened CommandGrammar
  import opened CommandQuiet
  import opened CommandTotal

  /** How asyn0's loop ends: too many closing parentheses, a command up to p, or the end of the words. */
  datatype Cut = TooMany | Upto(p: nat) | Done(l: int)

  predicate Cuts(w: Token) { C0(w) == '&' || C0(w) == '|' || C0(w) == ';' || C0(w) == '\n' }

  function NextCut(toks: seq<Token>, p: nat, l: int): (r: Cut)
    requires p <= |toks|
    ensures r.Upto? ==> p <= r.p < |toks|
    decreases |toks| - p
  {
    if p == |toks| then Done(l)
    else if C0(toks[p]) == ')' && l <= 0 then TooMany
    else if C0(toks[p]) == '>' && p + 1 < |toks| && toks[p + 1] == "&" then NextCut(toks, p + 2, l)
    else if Cuts(toks[p]) && l == 0 then Upto(p)
    else NextCut(toks, p + 1, ParenStep(toks[p], l))
  }

  /** The last word that starts with a closing parenthesis; 0 if there is none behind the first word. */
  function LastClose(toks: seq<Token>): (q: nat)
    requires toks != []
    ensures q < |toks| && (q > 0 ==> C0(toks[q]) == ')')
  {
    var n := |toks| - 1;
    if n == 0 || C0(toks[n]) == ')' then n else LastClose(toks[..n])
  }

  function Pass3(toks: seq<Token>): bool
    decreases |toks|, 0
  {
    toks == [] || C0(toks[0]) != '(' || LastClose(toks) <= 1 || Pass0(toks[1..LastClose(toks)])
  }

  function Pass0(toks: seq<Token>): bool
    decreases |toks|, 1
  {
    match NextCut(toks, 0, 0)
    case TooMany => false
    case Upto(p) => Pass3(toks[..p]) && PassAll(toks[p + 1..])
    case Done(l) => l != 0 || Pass3(toks)
  }

  /** Whether the pass ends without an error. */
  function PassAll(toks: seq<Token>): bool
    decreases |toks|, 2
  {
    toks == [] || if IsSep(toks[0]) then PassAll(toks[1..]) else Pass0(toks)
  }

  // ---------- the code ----------

  method FindLastClose(toks: seq<Token>) returns (q: nat)
    requires toks != []
    ensures q == LastClose(toks)
  {
    q := |toks| - 1;
    assert toks == toks[..q + 1];
    while q > 0 && C0(toks[q]) != ')'
      invariant q < |toks| && LastClose(toks) == LastClose(toks[..q + 1])
    {
      assert toks[..q + 1][..q] == toks[..q];
      q := q - 1;
    }
  }

  method AliasOne(toks: seq<Token>) returns (ok: bool)
    ensures ok == Pass3(toks)
    decreases |toks|, 0
  {
    if toks == [] || C0(toks[0]) != '(' { return true; }
    var q := FindLastClose(toks);
    if q <= 1 { return true; }
    ok := AliasList(toks[1..q]);
  }

  method AliasList(toks: seq<Token>) returns (ok: bool)
    ensures ok == Pass0(toks)
    decreases |toks|, 1
  {
    var p, l := 0, 0;
    while p < |toks|
      invariant p <= |toks| && NextCut(toks, p, l) == NextCut(toks, 0, 0)
    {
      if C0(toks[p]) == '(' {
        l := l + 1;
      } else if C0(toks[p]) == ')' {
        l := l - 1;
        if l < 0 { return false; }
      } else if C0(toks[p]) == '>' {
        if p + 1 < |toks| && toks[p + 1] == "&" { p := p + 1; }
      } else if Cuts(toks[p]) && l == 0 {
        ok := AliasOne(toks[..p]);
        if ok { ok := AliasAll(toks[p + 1..]); }
        return;
      }
      p := p + 1;
    }
    if l != 0 { return true; }
    ok := AliasOne(toks);
  }

  method AliasAll(toks: seq<Token>) returns (ok: bool)
    ensures ok == PassAll(toks)
    decreases |toks|, 2
  {
    var p := 0;
    assert toks[0..] == toks;
    while p < |toks|
      invariant p <= |toks| && PassAll(toks) == PassAll(toks[p..])
    {
      if !IsSep(toks[p]) {
        ok := AliasList(toks[p..]);
        return;
      }
      assert toks[p..][1..] == toks[p + 1..];
      p := p + 1;
    }
    return true;
  }

  // ---------- what gets through ----------

  lemma {:induction false} CutWalk(toks: seq<Token>, p: nat, l: int)
    requires p <= |toks| && l >= 0
    ensures match NextCut(toks, p, l)
            case TooMany => Walk(toks[p..], l).None?
            case Upto(q) => Walk(toks[p..q], l) == Some(0)
            case Done(d) => Walk(toks[p..], l) == Some(d)
    decreases |toks| - p
  {
    hide Walk;
    if p == |toks| {
      WalkNil(l);
    } else if C0(toks[p]) == ')' && l <= 0 {
      WalkNext(toks[p..], l);
      WalkNegative(toks[p..][1..], l - 1);
    } else if C0(toks[p]) == '>' && p + 1 < |toks| && toks[p + 1] == "&" {
      CutWalk(toks, p + 2, l);
      WalkOver(toks, p, l, NextCut(toks, p, l));
      WalkOver(toks, p + 1, l, NextCut(toks, p, l));
    } else if Cuts(toks[p]) && l == 0 {
      WalkNil(0);
      assert toks[p..p] == [];
    } else {
      CutWalk(toks, p + 1, ParenStep(toks[p], l));
      WalkOver(toks, p, l, NextCut(toks, p, l));
    }
  }

  lemma {:induction false} WalkNil(l: int)
    requires l >= 0
    ensures Walk([], l) == Some(l)
  {
  }

  lemma {:induction false} WalkNegative(toks: seq<Token>, l: int)
    requires l < 0
    ensures Walk(toks, l).None?
  {
  }

  lemma {:induction false} WalkNext(toks: seq<Token>, l: int)
    requires toks != [] && l >= 0
    ensures Walk(toks, l) == Walk(toks[1..], ParenStep(toks[0], l))
  {
  }

  /** One word of a walk to the end or to a cut. */
  lemma {:induction false} WalkOver(toks: seq<Token>, p: nat, l: int, cut: Cut)
    requires p < |toks| && l >= 0 && (cut.Upto? ==> p < cut.p < |toks|)
    ensures Walk(toks[p..], l) == Walk(toks[p + 1..], ParenStep(toks[p], l))
    ensures cut.Upto? ==> Walk(toks[p..cut.p], l) == Walk(toks[p + 1..cut.p], ParenStep(toks[p], l))
  {
    hide Walk;
    WalkNext(toks[p..], l);
    assert toks[p..][1..] == toks[p + 1..];
    if cut.Upto? {
      WalkNext(toks[p..cut.p], l);
      assert toks[p..cut.p][1..] == toks[p + 1..cut.p];
    }
  }

  /** Words that pass never close more parentheses than they opened. */
  lemma {:induction false} PassWalks(toks: seq<Token>)
    requires PassAll(toks)
    ensures Walk(toks, 0).Some?
    decreases |toks|, 1
  {
    if toks == [] {
    } else if IsSep(toks[0]) {
      PassWalks(toks[1..]);
    } else {
      ListWalks(toks);
    }
  }

  lemma {:induction false} ListWalks(toks: seq<Token>)
    requires Pass0(toks)
    ensures Walk(toks, 0).Some?
    decreases |toks|, 0
  {
    hide Walk, NextCut;
    CutWalk(toks, 0, 0);
    assert toks[0..] == toks;
    match NextCut(toks, 0, 0)
    case TooMany =>
    case Done(l) =>
    case Upto(p) =>
      CutIsCut(toks, 0, 0);
      PassWalks(toks[p + 1..]);
      assert toks == toks[0..p] + toks[p..] && toks[p..][1..] == toks[p + 1..];
      WalkAppend(toks[0..p], toks[p..], 0);
      WalkNext(toks[p..], 0);
  }

  lemma {:induction false} CutIsCut(toks: seq<Token>, p: nat, l: int)
    requires p <= |toks| && NextCut(toks, p, l).Upto?
    ensures Cuts(toks[NextCut(toks, p, l).p])
    decreases |toks| - p
  {
    if Cuts(toks[p]) && l == 0 {
    } else if C0(toks[p]) == '>' && p + 1 < |toks| && toks[p + 1] == "&" {
      CutIsCut(toks, p + 2, l);
    } else {
      CutIsCut(toks, p + 1, ParenStep(toks[p], l));
    }
  }

  /** So the parser never loses the end of a group on words that pass. */
  lemma {:induction false} PassedNeverStuck(toks: seq<Token>, m: Mode)
    requires PassAll(toks)
    ensures Fit(Syntax(toks, NUL, m, None).err)
  {
    PassWalks(toks);
    NeverStuck(toks, NUL, m, None);
  }

  /** The words of StrayCloseSticks do not pass. */
  lemma {:induction false} StrayCloseStopped()
    ensures !PassAll([">", ")", "("])
  {
    var toks: seq<Token> := [">", ")", "("];
    assert NextCut(toks, 1, 0) == TooMany;
    assert NextCut(toks, 0, 0) == TooMany;
  }

  /** The pass is stricter than that: it takes two groups in a row for a group around `a ) ( b`. */
  lemma {:induction false} TwoGroupsStopped()
    ensures Walk(["(", "a", ")", "(", "b", ")"], 0) == Some(0) && !PassAll(["(", "a", ")", "(", "b", ")"])
  {
    var toks: seq<Token> := ["(", "a", ")", "(", "b", ")"];
    var inner: seq<Token> := ["a", ")", "(", "b"];
    assert toks[1..5] == inner && LastClose(toks) == 5;
    assert NextCut(inner, 1, 0) == TooMany;
    assert NextCut(inner, 0, 0) == TooMany;
    assert !Pass0(inner) && !Pass3(toks);
    TwoGroupsWalk(toks);
    assert NextCut(toks, 6, 0) == Done(0);
    assert NextCut(toks, 5, 1) == NextCut(toks, 4, 1) == NextCut(toks, 3, 0) == Done(0);
    assert NextCut(toks, 2, 1) == NextCut(toks, 1, 1) == NextCut(toks, 0, 0) == Done(0);
  }

  lemma {:induction false} TwoGroupsWalk(toks: seq<Token>)
    requires toks == ["(", "a", ")", "(", "b", ")"]
    ensures Walk(toks, 0) == Some(0)
  {
    assert toks[3..] == ["(", "b", ")"] && toks[3..][1..] == ["b", ")"] && ["b", ")"][1..] == [")"] && [")"][1..] == [];
    assert Walk(["b", ")"], 1) == Walk([")"], 1) == Some(0);
    assert Walk(toks[3..], 0) == Some(0);
    assert toks[1..] == ["a", ")", "(", "b", ")"] && toks[1..][1..] == toks[2..] && toks[2..][1..] == toks[3..];
    assert Walk(toks[2..], 1) == Walk(toks[3..], 0);
    assert Walk(toks[1..], 1) == Walk(toks[2..], 1);
  }
}
