/**
 * Brace expansion against its meaning: the ordered cross product of nested groups.
 */
module GlobProduct {
  import opened Wrappers
  import opened Sequences
  import opened GlobBraces

  /** A character, a bracketed class, or a brace group of alternatives. */
  datatype Part = Lit(c: Char) | Class(body: Word) | Group(alts: seq<Alt>)
  datatype Alt = Alt(parts: seq<Part>)

  /** Printable: nothing in the text can be taken for a bracket, brace or comma that is not there. */
  predicate Fine(parts: seq<Part>, inside: bool)
    decreases parts
  {
    parts == [] || (FinePart(parts[0], inside) && Fine(parts[1..], inside))
  }

  predicate FinePart(p: Part, inside: bool)
    decreases p
  {
    match p
    case Lit(c) => c != LBRC && (inside ==> c != RBRC && c != COMMA && c != LBRK)
    case Class(b) => RBRK !in b && LBRC !in b
    case Group(alts) => alts != [] && FineAlts(alts)
  }

  predicate FineAlts(alts: seq<Alt>)
    decreases alts
  {
    alts == [] || (Fine(alts[0].parts, true) && FineAlts(alts[1..]))
  }

  function Print(parts: seq<Part>): Word
    decreases parts
  {
    if parts == [] then [] else PrintPart(parts[0]) + Print(parts[1..])
  }

  function PrintPart(p: Part): Word
    decreases p
  {
    match p
    case Lit(c) => [c]
    case Class(b) => [91] + b + [93]
    case Group(alts) => [123] + PrintAlts(alts) + [125]
  }

  function PrintAlts(alts: seq<Alt>): Word
    decreases alts
  {
    if alts == [] then []
    else if |alts| == 1 then Print(alts[0].parts)
    else Print(alts[0].parts) + [44] + PrintAlts(alts[1..])
  }

  // ---------- the meaning ----------

  function Before(a: Word, bs: seq<Word>): (r: seq<Word>)
    ensures |r| == |bs| && forall k | 0 <= k < |bs| :: r[k] == a + bs[k]
  {
    seq(|bs|, k requires 0 <= k < |bs| => a + bs[k])
  }

  /** Every word of the first list with every word of the second; the first is most significant. */
  function Product(xs: seq<Word>, ys: seq<Word>): seq<Word>
  {
    if xs == [] then [] else Before(xs[0], ys) + Product(xs[1..], ys)
  }

  function Cross(parts: seq<Part>): seq<Word>
    decreases parts
  {
    if parts == [] then [[]] else Product(Choices(parts[0]), Cross(parts[1..]))
  }

  function Choices(p: Part): seq<Word>
    decreases p
  {
    match p
    case Lit(c) => [[c]]
    case Class(b) => [[LBRK] + b + [RBRK]]
    case Group(alts) => ChoicesOf(alts)
  }

  function ChoicesOf(alts: seq<Alt>): seq<Word>
    decreases alts
  {
    if alts == [] then [] else Cross(alts[0].parts) + ChoicesOf(alts[1..])
  }

  // ---------- when the rewriting meets the word {} ----------

  predicate CanEmpty(parts: seq<Part>)
    decreases parts
  {
    parts == [] || (parts[0].Group? && SomeEmpty(parts[0].alts) && CanEmpty(parts[1..]))
  }

  predicate SomeEmpty(alts: seq<Alt>)
    decreases alts
  {
    alts != [] && (CanEmpty(alts[0].parts) || SomeEmpty(alts[1..]))
  }

  /** The last part is a group that is {} or has such an alternative, and all before it can vanish. */
  predicate EndsBare(parts: seq<Part>)
    decreases parts
  {
    parts != [] &&
    if |parts| > 1 then parts[0].Group? && SomeEmpty(parts[0].alts) && EndsBare(parts[1..])
    else parts[0].Group? && (parts[0].alts == [Alt([])] || SomeBare(parts[0].alts))
  }

  predicate SomeBare(alts: seq<Alt>)
    decreases alts
  {
    alts != [] && (EndsBare(alts[0].parts) || SomeBare(alts[1..]))
  }

  // ---------- algebra of the product ----------

  lemma {:induction false} ProductHead(xs: seq<Word>, ys: seq<Word>)
    requires xs != []
    ensures Product(xs, ys) == Before(xs[0], ys) + Product(xs[1..], ys)
  {
  }

  lemma {:induction false} ProductPlus(xs: seq<Word>, xs': seq<Word>, ys: seq<Word>)
    ensures Product(xs + xs', ys) == Product(xs, ys) + Product(xs', ys)
  {
    hide Before, Product;
    if xs == [] {
      assert xs + xs' == xs';
      NoProduct(ys);
    } else {
      ProductPlus(xs[1..], xs', ys);
      ProductHead(xs + xs', ys);
      ProductHead(xs, ys);
      assert (xs + xs')[1..] == xs[1..] + xs';
      Assoc(Before(xs[0], ys), Product(xs[1..], ys), Product(xs', ys));
    }
  }

  lemma {:induction false} ProductOne(a: Word, ys: seq<Word>)
    ensures Product([a], ys) == Before(a, ys)
  {
    assert [a][1..] == [] && Product([], ys) == [];
  }

  lemma {:induction false} ProductLeftUnit(ys: seq<Word>)
    ensures Product([[]], ys) == ys
  {
    hide Product;
    ProductOne([], ys);
    forall k | 0 <= k < |ys| ensures Before([], ys)[k] == ys[k] { assert [] + ys[k] == ys[k]; }
  }

  lemma {:induction false} ProductRightUnit(xs: seq<Word>)
    ensures Product(xs, [[]]) == xs
  {
    hide Before;
    if xs != [] {
      ProductRightUnit(xs[1..]);
      assert Before(xs[0], [[]])[0] == xs[0] + [] == xs[0];
      assert Before(xs[0], [[]]) == [xs[0]];
    }
  }

  lemma {:induction false} BeforeProduct(a: Word, ys: seq<Word>, zs: seq<Word>)
    ensures Product(Before(a, ys), zs) == Before(a, Product(ys, zs))
  {
    if ys != [] {
      BeforeProduct(a, ys[1..], zs);
      assert Before(a, ys)[1..] == Before(a, ys[1..]);
      forall k | 0 <= k < |zs| ensures Before(a + ys[0], zs)[k] == Before(a, Before(ys[0], zs))[k] {
        assert a + ys[0] + zs[k] == a + (ys[0] + zs[k]);
      }
      assert Before(a + ys[0], zs) == Before(a, Before(ys[0], zs));
      BeforePlus(a, Before(ys[0], zs), Product(ys[1..], zs));
    }
  }

  lemma {:induction false} BeforePlus(a: Word, ys: seq<Word>, zs: seq<Word>)
    ensures Before(a, ys + zs) == Before(a, ys) + Before(a, zs)
  {
  }

  lemma {:induction false} ProductAssoc(xs: seq<Word>, ys: seq<Word>, zs: seq<Word>)
    ensures Product(Product(xs, ys), zs) == Product(xs, Product(ys, zs))
  {
    if xs != [] {
      ProductAssoc(xs[1..], ys, zs);
      ProductPlus(Before(xs[0], ys), Product(xs[1..], ys), zs);
      BeforeProduct(xs[0], ys, zs);
    }
  }

  lemma {:induction false} CrossHead(parts: seq<Part>)
    requires parts != []
    ensures Cross(parts) == Product(Choices(parts[0]), Cross(parts[1..]))
  {
  }

  lemma {:induction false} CrossAppend(a: seq<Part>, b: seq<Part>)
    ensures Cross(a + b) == Product(Cross(a), Cross(b))
  {
    if a == [] {
      assert a + b == b;
      ProductLeftUnit(Cross(b));
    } else {
      hide Cross, Choices, Product;
      CrossAppend(a[1..], b);
      CrossHead(a);
      CrossHead(a + b);
      assert (a + b)[1..] == a[1..] + b;
      ProductAssoc(Choices(a[0]), Cross(a[1..]), Cross(b));
    }
  }

  /** The words of each alternative in its place, one alternative after the other. */
  function InPlace(pre: seq<Part>, alts: seq<Alt>, rest: seq<Part>): seq<Word>
  {
    if alts == [] then [] else Cross(pre + alts[0].parts + rest) + InPlace(pre, alts[1..], rest)
  }

  predicate NoGroup(parts: seq<Part>) { forall p | p in parts :: !p.Group? }

  lemma {:induction false} CrossPlain(parts: seq<Part>)
    requires NoGroup(parts)
    ensures Cross(parts) == [Print(parts)]
  {
    if parts != [] {
      CrossPlain(parts[1..]);
      ProductOne(PrintPart(parts[0]), [Print(parts[1..])]);
    }
  }

  /** Choosing an alternative of the first group first gives the words in cross-product order. */
  lemma {:induction false} CrossFirstGroup(pre: seq<Part>, alts: seq<Alt>, rest: seq<Part>)
    requires NoGroup(pre)
    ensures Cross(pre + [Group(alts)] + rest) == InPlace(pre, alts, rest)
  {
    hide Product, Cross;
    var f, r := Print(pre), Cross(rest);
    CrossPlain(pre);
    CrossAppend(pre + [Group(alts)], rest);
    CrossAppend(pre, [Group(alts)]);
    CrossGroup(alts);
    ProductOne(f, ChoicesOf(alts));
    BeforeProduct(f, ChoicesOf(alts), r);
    InPlaceIs(pre, alts, rest);
  }

  lemma {:induction false} CrossGroup(alts: seq<Alt>)
    ensures Cross([Group(alts)]) == ChoicesOf(alts)
  {
    assert [Group(alts)][1..] == [];
    ProductRightUnit(ChoicesOf(alts));
  }

  lemma {:induction false} InPlaceIs(pre: seq<Part>, alts: seq<Alt>, rest: seq<Part>)
    requires NoGroup(pre)
    ensures InPlace(pre, alts, rest) == Before(Print(pre), Product(ChoicesOf(alts), Cross(rest)))
  {
    hide Product, Cross, Print;
    var f, r := Print(pre), Cross(rest);
    if alts == [] {
      assert Product([], r) == [] by { NoProduct(r); }
    } else {
      InPlaceIs(pre, alts[1..], rest);
      var a := alts[0].parts;
      CrossPlain(pre);
      CrossAppend(pre + a, rest);
      CrossAppend(pre, a);
      ProductOne(f, Cross(a));
      BeforeProduct(f, Cross(a), r);
      ProductPlus(Cross(a), ChoicesOf(alts[1..]), r);
      BeforePlus(f, Product(Cross(a), r), Product(ChoicesOf(alts[1..]), r));
    }
  }

  lemma {:induction false} NoProduct(ys: seq<Word>)
    ensures Product([], ys) == []
  {
  }

  // ---------- the product has no brace left ----------

  predicate Closed(ws: seq<Word>) { forall w | w in ws :: LBRC !in w }

  lemma {:induction false} ProductClosed(xs: seq<Word>, ys: seq<Word>)
    requires Closed(xs) && Closed(ys)
    ensures Closed(Product(xs, ys))
  {
    if xs != [] {
      ProductClosed(xs[1..], ys);
      forall w | w in Before(xs[0], ys) ensures LBRC !in w {
        var k :| 0 <= k < |ys| && w == xs[0] + ys[k];
        assert ys[k] in ys && xs[0] in xs;
      }
    }
  }

  lemma {:induction false} CrossClosed(parts: seq<Part>, inside: bool)
    requires Fine(parts, inside)
    ensures Closed(Cross(parts))
    decreases parts
  {
    if parts != [] {
      CrossClosed(parts[1..], inside);
      if parts[0].Group? { ChoicesClosed(parts[0].alts); }
      ProductClosed(Choices(parts[0]), Cross(parts[1..]));
    }
  }

  lemma {:induction false} ChoicesClosed(alts: seq<Alt>)
    requires FineAlts(alts)
    ensures Closed(ChoicesOf(alts))
    decreases alts
  {
    if alts != [] {
      CrossClosed(alts[0].parts, true);
      ChoicesClosed(alts[1..]);
    }
  }

  // ---------- reading the printed group back ----------

  /** Neither loop of globbrace notices a class. */
  lemma {:induction false} SkipClass(w: Word, p: nat, b: Word, pe: nat, pl: nat, i: nat)
    requires RBRK !in b && At(w, p, [LBRK] + b + [RBRK]) && pl <= p && p + |b| + 2 <= pe < |w|
    ensures Balance(w, p, i) == Balance(w, p + |b| + 2, i)
    ensures Pieces(w, p, pe, pl, i) == Pieces(w, p + |b| + 2, pe, pl, i)
  {
    AtSplit(w, p, [LBRK] + b, [RBRK]);
    AtSplit(w, p, [LBRK], b);
    assert w[p] == LBRK && w[p + 1 + |b|] == RBRK;
    FindAt(w, p + 1, b, RBRK);
  }

  lemma {:induction false} FindAt(w: Word, p: nat, b: Word, c: Char)
    requires c !in b && At(w, p, b) && p + |b| < |w| && w[p + |b|] == c
    ensures Find(w, p, c) == p + |b|
    decreases |b|
  {
    if b != [] { FindAt(w, p + 1, b[1..], c); }
  }

  /** Nor does either loop stop inside the parts of one alternative. */
  lemma {:induction false} SkipParts(w: Word, p: nat, parts: seq<Part>, pe: nat, pl: nat, i: nat)
    requires Fine(parts, true) && At(w, p, Print(parts)) && pl <= p && p + |Print(parts)| <= pe < |w|
    ensures Balance(w, p, i) == Balance(w, p + |Print(parts)|, i)
    ensures Pieces(w, p, pe, pl, i) == Pieces(w, p + |Print(parts)|, pe, pl, i)
    decreases parts
  {
    hide Balance, Pieces, At;
    if parts != [] {
      AtSplit(w, p, PrintPart(parts[0]), Print(parts[1..]));
      SkipPart(w, p, parts[0], pe, pl, i);
      SkipParts(w, p + |PrintPart(parts[0])|, parts[1..], pe, pl, i);
    }
  }

  lemma {:induction false} SkipPart(w: Word, p: nat, x: Part, pe: nat, pl: nat, i: nat)
    requires FinePart(x, true) && At(w, p, PrintPart(x)) && pl <= p && p + |PrintPart(x)| <= pe < |w|
    ensures Balance(w, p, i) == Balance(w, p + |PrintPart(x)|, i)
    ensures Pieces(w, p, pe, pl, i) == Pieces(w, p + |PrintPart(x)|, pe, pl, i)
    decreases x
  {
    match x
    case Lit(c) => assert w[p] == c;
    case Class(b) => SkipClass(w, p, b, pe, pl, i);
    case Group(alts) => SkipGroup(w, p, alts, pe, pl, i);
  }

  lemma {:induction false} SkipGroup(w: Word, p: nat, alts: seq<Alt>, pe: nat, pl: nat, i: nat)
    requires alts != [] && FineAlts(alts) && At(w, p, [LBRC] + PrintAlts(alts) + [RBRC])
    requires pl <= p && p + |PrintAlts(alts)| + 2 <= pe < |w|
    ensures Balance(w, p, i) == Balance(w, p + |PrintAlts(alts)| + 2, i)
    ensures Pieces(w, p, pe, pl, i) == Pieces(w, p + |PrintAlts(alts)| + 2, pe, pl, i)
    decreases alts, 1
  {
    hide PrintAlts, FineAlts;
    var z := p + 1 + |PrintAlts(alts)|;
    AtSplit(w, p, [LBRC] + PrintAlts(alts), [RBRC]);
    AtSplit(w, p, [LBRC], PrintAlts(alts));
    assert w[p] == LBRC && w[z] == RBRC;
    hide At;
    SkipAlts(w, p + 1, alts, pe, pl, i + 1);
  }

  lemma {:induction false} SkipAlts(w: Word, p: nat, alts: seq<Alt>, pe: nat, pl: nat, i: nat)
    requires alts != [] && FineAlts(alts) && i > 0
    requires At(w, p, PrintAlts(alts)) && pl <= p && p + |PrintAlts(alts)| <= pe < |w|
    ensures Balance(w, p, i) == Balance(w, p + |PrintAlts(alts)|, i)
    ensures Pieces(w, p, pe, pl, i) == Pieces(w, p + |PrintAlts(alts)|, pe, pl, i)
    decreases alts, 0
  {
    hide Balance, Pieces, At, Print;
    var a := alts[0].parts;
    if |alts| == 1 {
      SkipParts(w, p, a, pe, pl, i);
    } else {
      var q := p + |Print(a)|;
      AtSplit(w, p, Print(a) + [COMMA], PrintAlts(alts[1..]));
      AtSplit(w, p, Print(a), [COMMA]);
      SkipParts(w, p, a, pe, pl, i);
      SkipComma(w, q, pe, pl, i);
      SkipAlts(w, q + 1, alts[1..], pe, pl, i);
    }
  }

  lemma {:induction false} SkipComma(w: Word, q: nat, pe: nat, pl: nat, i: nat)
    requires At(w, q, [COMMA]) && i > 0 && pl <= q <= pe < |w|
    ensures Balance(w, q, i) == Balance(w, q + 1, i)
    ensures Pieces(w, q, pe, pl, i) == Pieces(w, q + 1, pe, pl, i)
  {
  }

  function PrintEach(alts: seq<Alt>): (r: seq<Word>)
    ensures |r| == |alts| && forall k | 0 <= k < |alts| :: r[k] == Print(alts[k].parts)
  {
    seq(|alts|, k requires 0 <= k < |alts| => Print(alts[k].parts))
  }

  /** The outermost group falls apart into exactly its alternatives. */
  lemma {:induction false} SplitAlts(w: Word, p: nat, alts: seq<Alt>, pe: nat)
    requires alts != [] && FineAlts(alts) && At(w, p, PrintAlts(alts))
    requires pe == p + |PrintAlts(alts)| < |w| && w[pe] == RBRC
    ensures Balance(w, p, 0) == Ok(pe)
    ensures Pieces(w, p, pe, p, 0) == Ok(PrintEach(alts))
    decreases alts
  {
    hide Print, Fine, At, Balance, Pieces;
    var a := alts[0].parts;
    var q := p + |Print(a)|;
    if |alts| == 1 {
      SkipParts(w, p, a, pe, p, 0);
      AtBound(w, p, Print(a));
      LastPiece(w, p, q);
      assert [Print(a)] + [] == PrintEach(alts);
    } else {
      AtParts(w, p, Print(a) + [COMMA], PrintAlts(alts[1..]));
      AtParts(w, p, Print(a), [COMMA]);
      AtBound(w, p, Print(a));
      SkipParts(w, p, a, pe, p, 0);
      AtIndex(w, q, [COMMA], 0);
      SplitAlts(w, q + 1, alts[1..], pe);
      CommaPiece(w, p, q, pe);
      assert [Print(a)] + PrintEach(alts[1..]) == PrintEach(alts);
    }
  }

  lemma {:induction false} LastPiece(w: Word, p: nat, q: nat)
    requires p <= q < |w| && w[q] == RBRC
    ensures Balance(w, q, 0) == Ok(q) && Pieces(w, q, q, p, 0) == Ok([w[p..q]] + [])
  {
    assert Pieces(w, q + 1, q, q + 1, 0) == Ok([]);
  }

  lemma {:induction false} CommaPiece(w: Word, p: nat, q: nat, pe: nat)
    requires p <= q < pe < |w| && w[q] == COMMA
    ensures Balance(w, q, 0) == Balance(w, q + 1, 0)
    ensures var rest := Pieces(w, q + 1, pe, q + 1, 0);
            Pieces(w, q, pe, p, 0) == if rest.Err? then rest else Ok([w[p..q]] + rest.value)
  {
  }

  // ---------- the theorem ----------

  lemma {:induction false} PrintHead(parts: seq<Part>)
    requires parts != []
    ensures Print(parts) == PrintPart(parts[0]) + Print(parts[1..])
  {
  }

  lemma {:induction false} PrintAppend(a: seq<Part>, b: seq<Part>)
    ensures Print(a + b) == Print(a) + Print(b)
  {
    if a == [] {
      assert a + b == b;
    } else {
      hide Print, PrintPart;
      PrintAppend(a[1..], b);
      PrintHead(a + b);
      PrintHead(a);
      assert (a + b)[1..] == a[1..] + b;
      Assoc(PrintPart(a[0]), Print(a[1..]), Print(b));
    }
  }

  lemma {:induction false} FineAppend(a: seq<Part>, b: seq<Part>, inside: bool)
    ensures Fine(a + b, inside) <==> Fine(a, inside) && Fine(b, inside)
  {
    if a == [] {
      assert a + b == b;
    } else {
      FineAppend(a[1..], b, inside);
      assert (a + b)[1..] == a[1..] + b;
    }
  }

  lemma {:induction false} FineOutside(parts: seq<Part>)
    requires Fine(parts, true)
    ensures Fine(parts, false)
  {
    if parts != [] { FineOutside(parts[1..]); }
  }

  lemma {:induction false} PlainPrint(parts: seq<Part>)
    requires Fine(parts, false) && NoGroup(parts)
    ensures LBRC !in Print(parts) && (parts != [] ==> Print(parts) != [])
  {
    if parts != [] { PlainPrint(parts[1..]); }
  }

  lemma {:induction false} PrintEmpty(parts: seq<Part>)
    ensures Print(parts) == [] <==> parts == []
  {
    if parts != [] { assert PrintPart(parts[0]) != []; }
  }

  /** The parts before the first group, if there is one. */
  function FirstGroup(parts: seq<Part>): (k: nat)
    ensures k <= |parts| && NoGroup(parts[..k]) && (k < |parts| ==> parts[k].Group?)
  {
    if parts == [] || parts[0].Group? then 0
    else
      var k := FirstGroup(parts[1..]);
      assert parts[..k + 1] == [parts[0]] + parts[1..][..k];
      k + 1
  }

  lemma {:induction false} Layout(a: Word, m: Word, z: Word, w: Word)
    requires LBRC !in a && w == a + ([LBRC] + m + [RBRC]) + z
    ensures |w| == |a| + |m| + |z| + 2 && LBRC in w && Find(w, 0, LBRC) == |a|
    ensures At(w, |a| + 1, m) && w[|a| + 1 + |m|] == RBRC
    ensures w[..|a|] == a && w[|a| + 1 + |m| + 1..] == z
  {
    hide At;
    assert w[|a|] == LBRC;
    assert [] + a + ([LBRC] + m + [RBRC] + z) == w;
    AtMiddle([], a, [LBRC] + m + [RBRC] + z);
    FindAt(w, 0, a, LBRC);
    assert a + [LBRC] + m + ([RBRC] + z) == w;
    AtMiddle(a + [LBRC], m, [RBRC] + z);
  }

  /** globbrace on a printed word takes its first group apart and touches nothing else. */
  lemma {:induction false} GlobBracePrinted(pre: seq<Part>, alts: seq<Alt>, rest: seq<Part>)
    requires NoGroup(pre) && Fine(pre, false) && alts != [] && FineAlts(alts)
    ensures var w := Print(pre) + ([LBRC] + PrintAlts(alts) + [RBRC]) + Print(rest);
            LBRC in w && GlobBrace(w) == Ok(Around(Print(pre), PrintEach(alts), Print(rest)))
  {
    hide Balance, Pieces, Print, PrintAlts, PrintEach, At, Find, Around;
    var a, m, z := Print(pre), PrintAlts(alts), Print(rest);
    var w := a + ([LBRC] + m + [RBRC]) + z;
    PlainPrint(pre);
    Layout(a, m, z, w);
    SplitAlts(w, |a| + 1, alts, |a| + 1 + |m|);
  }

  predicate SomeBareIn(pre: seq<Part>, alts: seq<Alt>, rest: seq<Part>)
  {
    alts != [] && (EndsBare(pre + alts[0].parts + rest) || SomeBareIn(pre, alts[1..], rest))
  }

  lemma {:induction false} BareAppend(a: seq<Part>, rest: seq<Part>)
    requires rest != []
    ensures EndsBare(a + rest) <==> CanEmpty(a) && EndsBare(rest)
  {
    if a == [] {
      assert a + rest == rest;
    } else {
      BareAppend(a[1..], rest);
      assert (a + rest)[1..] == a[1..] + rest;
    }
  }

  lemma {:induction false} BareInPlace(pre: seq<Part>, alts: seq<Alt>, rest: seq<Part>)
    requires NoGroup(pre)
    ensures SomeBareIn(pre, alts, rest) <==>
            pre == [] && if rest == [] then SomeBare(alts) else SomeEmpty(alts) && EndsBare(rest)
  {
    if alts != [] {
      BareInPlace(pre, alts[1..], rest);
      var a := alts[0].parts;
      if pre == [] {
        assert pre + a + rest == a + rest;
        if rest == [] { assert a + rest == a; } else { BareAppend(a, rest); }
      } else {
        assert (pre + a + rest)[0] == pre[0] && pre[0] in pre;
      }
    }
  }

  lemma {:induction false} BareFirstGroup(pre: seq<Part>, alts: seq<Alt>, rest: seq<Part>)
    requires NoGroup(pre)
    ensures EndsBare(pre + [Group(alts)] + rest) <==>
            (pre == [] && rest == [] && alts == [Alt([])]) || SomeBareIn(pre, alts, rest)
  {
    BareInPlace(pre, alts, rest);
    var parts := pre + [Group(alts)] + rest;
    if pre == [] {
      assert parts == [Group(alts)] + rest && parts[1..] == rest;
    } else {
      assert parts[0] == pre[0] && pre[0] in pre;
    }
  }

  /**
   * Expanding a printed word never fails. It gives the ordered cross product of the groups, leftmost
   * most significant, unless the rewriting runs into the word {}, which it leaves in the result.
   */
  lemma {:induction false} ExpandPrinted(parts: seq<Part>)
    requires Fine(parts, false)
    ensures var r := Expand(Print(parts));
            r.Ok? && if EndsBare(parts) then [LBRC, RBRC] in r.value else r.value == Cross(parts)
    decreases Opens(Print(parts)), 1, 0
  {
    hide Cross, Opens, GlobBrace, Expand, EndsBare;
    var k := FirstGroup(parts);
    var w := Print(parts);
    if k == |parts| {
      assert parts[..k] == parts;
      PlainPrint(parts);
      CrossPlain(parts);
      NotBare(parts);
      ExpandDone(w);
    } else {
      var pre, alts, rest := parts[..k], parts[k].alts, parts[k + 1..];
      assert parts == pre + [Group(alts)] + rest;
      FineSplit(parts, pre, alts, rest);
      BareFirstGroup(pre, alts, rest);
      if pre == [] && rest == [] && alts == [Alt([])] {
        assert w == [LBRC, RBRC] by { PrintBare(); }
        ExpandDone(w);
      } else {
        NotUntouched(pre, alts, rest);
        GlobBracePrinted(pre, alts, rest);
        GlobBraceShrinks(w);
        ExpandStep(w);
        ExpandAlts(pre, alts, rest, Opens(w));
        CrossFirstGroup(pre, alts, rest);
      }
    }
  }

  lemma {:induction false} ExpandDone(w: Word)
    requires Final(w)
    ensures Expand(w) == Ok([w])
  {
  }

  lemma {:induction false} NotBare(parts: seq<Part>)
    requires NoGroup(parts)
    ensures !EndsBare(parts)
  {
    if parts != [] { assert parts[0] in parts; }
  }

  lemma {:induction false} PrintBare()
    ensures Print([Group([Alt([])])]) == [LBRC, RBRC]
  {
    assert [Group([Alt([])])][1..] == [];
    assert PrintPart(Group([Alt([])])) == [LBRC] + [] + [RBRC];
  }

  lemma {:induction false} FineSplit(parts: seq<Part>, pre: seq<Part>, alts: seq<Alt>, rest: seq<Part>)
    requires parts == pre + [Group(alts)] + rest && Fine(parts, false)
    ensures Fine(pre, false) && alts != [] && FineAlts(alts) && Fine(rest, false)
    ensures Print(parts) == Print(pre) + ([LBRC] + PrintAlts(alts) + [RBRC]) + Print(rest)
  {
    FineAppend(pre + [Group(alts)], rest, false);
    FineAppend(pre, [Group(alts)], false);
    PrintAppend(pre + [Group(alts)], rest);
    PrintAppend(pre, [Group(alts)]);
    assert [Group(alts)][1..] == [];
  }

  lemma {:induction false} NotUntouched(pre: seq<Part>, alts: seq<Alt>, rest: seq<Part>)
    requires alts != [] && !(pre == [] && rest == [] && alts == [Alt([])])
    ensures var w := Print(pre) + ([LBRC] + PrintAlts(alts) + [RBRC]) + Print(rest);
            LBRC in w && !Untouched(w)
  {
    PrintEmpty(pre);
    PrintEmpty(rest);
    var w := Print(pre) + ([LBRC] + PrintAlts(alts) + [RBRC]) + Print(rest);
    assert w[|Print(pre)|] == LBRC;
    if pre == [] && rest == [] {
      PrintEmpty(alts[0].parts);
      assert |alts| == 1 ==> alts == [alts[0]];
      assert PrintAlts(alts) != [];
    }
  }

  lemma {:induction false} ExpandAlts(pre: seq<Part>, alts: seq<Alt>, rest: seq<Part>, n: nat)
    requires Fine(pre, false) && FineAlts(alts) && Fine(rest, false)
    requires forall v | v in Around(Print(pre), PrintEach(alts), Print(rest)) :: Opens(v) < n
    ensures var r := ExpandAll(Around(Print(pre), PrintEach(alts), Print(rest)));
            r.Ok? && if SomeBareIn(pre, alts, rest) then [LBRC, RBRC] in r.value
                     else r.value == InPlace(pre, alts, rest)
    decreases n, 0, |alts|
  {
    hide Cross, Opens, Expand, EndsBare, Print;
    if alts != [] {
      var parts := pre + alts[0].parts + rest;
      var vs := Around(Print(pre), PrintEach(alts), Print(rest));
      assert vs[0] == Print(parts) by {
        PrintAppend(pre + alts[0].parts, rest);
        PrintAppend(pre, alts[0].parts);
      }
      assert vs[0] in vs;
      FineOutside(alts[0].parts);
      FineAppend(pre + alts[0].parts, rest, false);
      FineAppend(pre, alts[0].parts, false);
      ExpandPrinted(parts);
      assert vs[1..] == Around(Print(pre), PrintEach(alts[1..]), Print(rest));
      assert forall v | v in vs[1..] :: v in vs;
      ExpandAlts(pre, alts[1..], rest, n);
    }
  }

  /**
   * The exact law: the expansion is the ordered cross product if and only if the word does not end in
   * a bare {} group behind parts that can all become empty.
   */
  lemma {:induction false} ExpansionIsCrossProduct(parts: seq<Part>)
    requires Fine(parts, false)
    ensures Expand(Print(parts)) == Ok(Cross(parts)) <==> !EndsBare(parts)
  {
    hide Expand, Cross, EndsBare, Print;
    ExpandPrinted(parts);
    CrossClosed(parts, false);
    assert LBRC in [LBRC, RBRC];
  }

  /** In particular it is the cross product for every nesting of groups none of which is exactly {}. */
  predicate NoBareGroup(parts: seq<Part>)
    decreases parts
  {
    parts == [] || ((parts[0].Group? ==> parts[0].alts != [Alt([])] && NoBareAlts(parts[0].alts)) &&
                    NoBareGroup(parts[1..]))
  }

  predicate NoBareAlts(alts: seq<Alt>)
    decreases alts
  {
    alts == [] || (NoBareGroup(alts[0].parts) && NoBareAlts(alts[1..]))
  }

  lemma {:induction false} NoBareEnds(parts: seq<Part>)
    requires NoBareGroup(parts)
    ensures !EndsBare(parts)
    decreases parts
  {
    if |parts| > 1 { NoBareEnds(parts[1..]); }
    else if parts != [] && parts[0].Group? { NoBareSome(parts[0].alts); }
  }

  lemma {:induction false} NoBareSome(alts: seq<Alt>)
    requires NoBareAlts(alts)
    ensures !SomeBare(alts)
    decreases alts
  {
    if alts != [] {
      NoBareEnds(alts[0].parts);
      NoBareSome(alts[1..]);
    }
  }

  lemma {:induction false} NestedGroupsExpand(parts: seq<Part>)
    requires Fine(parts, false) && NoBareGroup(parts)
    ensures Expand(Print(parts)) == Ok(Cross(parts))
  {
    NoBareEnds(parts);
    ExpansionIsCrossProduct(parts);
  }

  /** A bare group that the rewriting leaves or uncovers: {{}} and {}{} both give {}. */
  lemma {:induction false} BareGroupsStay()
    ensures Expand([LBRC, LBRC, RBRC, RBRC]) == Ok([[LBRC, RBRC]])
    ensures Expand([LBRC, RBRC, LBRC, RBRC]) == Ok([[LBRC, RBRC]])
  {
    var w, v, bare: Word := [LBRC, LBRC, RBRC, RBRC], [LBRC, RBRC, LBRC, RBRC], [LBRC, RBRC];
    BareInside(w, bare);
    BareBehind(v, bare);
    hide GlobBrace;
    ExpandStep(w);
    ExpandStep(v);
    assert [bare][1..] == [] && ExpandAll([]) == Ok([]) && [bare] + [] == [bare];
    assert Expand(bare) == Ok([bare]);
  }

  lemma {:induction false} BareInside(w: Word, bare: Word)
    requires w == [LBRC, LBRC, RBRC, RBRC] && bare == [LBRC, RBRC]
    ensures GlobBrace(w) == Ok([bare])
  {
    assert Find(w, 0, LBRC) == 0;
    assert Balance(w, 2, 1) == Balance(w, 3, 0) == Ok(3);
    assert Pieces(w, 4, 3, 4, 0) == Ok([]) && w[1..3] == bare && [bare] + [] == [bare];
    assert Pieces(w, 3, 3, 1, 0) == Ok([bare]);
    assert Pieces(w, 2, 3, 1, 1) == Ok([bare]);
    assert w[..0] == [] && w[4..] == [] && [] + bare + [] == bare;
    assert Around(w[..0], [bare], w[4..]) == [bare];
  }

  lemma {:induction false} BareBehind(w: Word, bare: Word)
    requires w == [LBRC, RBRC, LBRC, RBRC] && bare == [LBRC, RBRC]
    ensures GlobBrace(w) == Ok([bare])
  {
    var none: Word := [];
    assert Find(w, 0, LBRC) == 0;
    assert Balance(w, 1, 0) == Ok(1);
    assert Pieces(w, 2, 1, 2, 0) == Ok([]) && w[1..1] == none && [none] + [] == [none];
    assert Pieces(w, 1, 1, 1, 0) == Ok([none]);
    assert w[..0] == none && w[2..] == bare && none + none + bare == bare;
    assert Around(w[..0], [none], w[2..]) == [bare];
  }
}
