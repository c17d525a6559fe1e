/**
 * Patterns written out piece by piece: what the written pattern matches is what its pieces stand for.
 * Nothing here depends on how the code finds classes or takes quote bits off.
 */
module GlobPattern {
  import opened Wrappers
  import opened GlobBraces
  import opened GlobMatch
  import opened GlobReading
  import opened GlobLanguage

  datatype Piece = Letter(c: Char) | Question | Asterisk | Class(neg: bool, items: seq<Item>)

  function Written(p: Piece): Word
  {
    match p
    case Letter(c) => [c]
    case Question => [63]
    case Asterisk => [42]
    case Class(neg, items) => [91] + (if neg then [94] else []) + Body(items) + [93]
  }

  function Text(ps: seq<Piece>): Word { if ps == [] then [] else Written(ps[0]) + Text(ps[1..]) }

  /** Special characters are quoted, and a class that is not negated does not start with a caret. */
  predicate PieceOk(p: Piece)
  {
    match p
    case Letter(c) => c !in {42, 63, 91, 123}
    case Class(neg, items) =>
      && FineItems(items, if neg then 94 else 91) && 123 !in Body(items)
      && (neg || items == [] || Body(items)[0] != 94)
    case _ => true
  }

  predicate PiecesOk(ps: seq<Piece>)
  {
    && (forall p | p in ps :: PieceOk(p))
    && forall k | 0 < k < |ps| :: ps[k - 1].Asterisk? ==> ps[k] != Letter(94)
  }

  // ---------- what the pieces stand for ----------

  function Plain(c: Char): int { if c < 0x8000 then c else c - 0x8000 }

  predicate Listed(i: Item, v: int)
  {
    match i
    case Single(c) => v == Plain(c)
    case Range(lo, hi) => Plain(lo) <= v <= Plain(hi)
  }

  predicate Admits(p: Piece, c: Char)
  {
    match p
    case Letter(x) => Plain(c) == Plain(x)
    case Question => true
    case Asterisk => false
    case Class(neg, items) => neg != exists i | i in items :: Listed(i, Plain(c))
  }

  ghost predicate Fits(ps: seq<Piece>, s: Word)
    decreases |ps|
  {
    if ps == [] then s == []
    else if ps[0].Asterisk? then exists k | 0 <= k <= |s| :: Fits(ps[1..], s[k..])
    else s != [] && Admits(ps[0], s[0]) && Fits(ps[1..], s[1..])
  }

  // ---------- the code's reading of the written pattern ----------

  function AtomOf(p: Piece): Atom
  {
    match p
    case Letter(c) => One(Trim(c))
    case Question => AnyOne
    case Asterisk => Star
    case Class(neg, items) => Among(neg, Body(items), if neg then 94 else 91)
  }

  function AtomsOf(ps: seq<Piece>): seq<Atom> { if ps == [] then [] else [AtomOf(ps[0])] + AtomsOf(ps[1..]) }

  lemma {:induction false} AtomsAt(ps: seq<Piece>)
    ensures |AtomsOf(ps)| == |ps| && forall k | 0 <= k < |ps| :: AtomsOf(ps)[k] == AtomOf(ps[k])
    decreases |ps|
  {
    if ps != [] { AtomsAt(ps[1..]); }
  }

  /** No closing bracket stands in a body. */
  lemma {:induction false} NoBracket(items: seq<Item>, prev: Char)
    requires FineItems(items, prev)
    ensures 93 !in Body(items)
    decreases |items|
  {
    if items != [] {
      match items[0]
      case Single(c) => NoBracket(items[1..], c);
      case Range(_, hi) => NoBracket(items[1..], hi);
    }
  }

  lemma {:induction false} FindsAt(w: Word, from: nat, at: nat, c: Char)
    requires from <= at < |w| && w[at] == c && forall k | from <= k < at :: w[k] != c
    ensures Find(w, from, c) == at
    decreases at - from
  {
    if from < at { FindsAt(w, from + 1, at, c); }
  }

  /** A written class is read as the class it is. */
  lemma {:induction false} ClassRead(neg: bool, items: seq<Item>, rest: Word)
    requires PieceOk(Class(neg, items))
    ensures var p := Written(Class(neg, items)) + rest;
            && p[0] == LBRK && BodyFrom(p) == (if neg then 2 else 1) && BodyTo(p) == |Written(Class(neg, items))| - 1
            && p[BodyFrom(p)..BodyTo(p)] == Body(items) && p[BodyTo(p) + 1..] == rest
            && p[BodyFrom(p) - 1] == (if neg then 94 else 91)
  {
    var b, w := Body(items), Written(Class(neg, items));
    var p, from := w + rest, if neg then 2 else 1;
    NoBracket(items, if neg then 94 else 91);
    assert w[from..|w| - 1] == b && p[from..|w| - 1] == b && w[|w| - 1] == 93;
    assert b == [] ==> items == [] by { if items != [] { assert |b| >= 1; } }
    assert BodyFrom(p) == from by { if !neg { assert p[1] == if b == [] then 93 else b[0]; } }
    forall k | from <= k < |w| - 1 ensures p[k] != 93 { assert p[k] == b[k - from]; }
    FindsAt(p, from, |w| - 1, 93);
  }

  lemma {:induction false} AtomsOfText(ps: seq<Piece>)
    requires forall p | p in ps :: PieceOk(p)
    ensures Atoms(Text(ps)) == AtomsOf(ps)
    decreases |ps|
  {
    if ps != [] {
      assert ps[0] in ps;
      var rest := Text(ps[1..]);
      AtomsOfText(ps[1..]);
      match ps[0]
      case Class(neg, items) =>
        hide PieceOk, Written;
        ClassRead(neg, items, rest);
      case _ =>
        assert (Written(ps[0]) + rest)[1..] == rest;
    }
  }

  lemma {:induction false} ItemSame(i: Item, c: Char)
    ensures InItem(i, Trim(c)) <==> Listed(i, Plain(c))
  {
  }

  lemma {:induction false} TakesAdmits(p: Piece, c: Char)
    requires PieceOk(p)
    ensures Takes(AtomOf(p), c) <==> Admits(p, c)
  {
    if p.Class? {
      hide InItem, Listed, InBody;
      ClassMeaning(p.items, if p.neg then 94 else 91, Trim(c));
      forall i | i in p.items ensures InItem(i, Trim(c)) <==> Listed(i, Plain(c)) { ItemSame(i, c); }
    }
  }

  lemma {:induction false} LangFits(ps: seq<Piece>, s: Word)
    requires forall p | p in ps :: PieceOk(p)
    ensures InLang(AtomsOf(ps), s) <==> Fits(ps, s)
    decreases |ps|
  {
    if ps != [] {
      hide PieceOk, Takes, Admits;
      var atoms, rest := AtomsOf(ps), ps[1..];
      assert ps[0] in ps && atoms[1..] == AtomsOf(rest);
      if ps[0].Asterisk? {
        forall k | 0 <= k <= |s| ensures InLang(AtomsOf(rest), s[k..]) <==> Fits(rest, s[k..]) {
          LangFits(rest, s[k..]);
        }
      } else if s != [] {
        TakesAdmits(ps[0], s[0]);
        LangFits(rest, s[1..]);
      }
    }
  }

  lemma {:induction false} TextStart(ps: seq<Piece>)
    requires (forall p | p in ps :: PieceOk(p)) && ps != []
    ensures Text(ps) != [] && (Text(ps)[0] == 94 <==> ps[0] == Letter(94))
  {
    assert ps[0] in ps;
  }

  lemma {:induction false} TextNoStarCaret(ps: seq<Piece>)
    requires PiecesOk(ps)
    ensures NoStarCaret(Text(ps)) && 123 !in Text(ps)
    decreases |ps|
  {
    if ps != [] {
      var rest, p := Text(ps[1..]), Written(ps[0]) + Text(ps[1..]);
      assert ps[0] in ps;
      forall k | 0 < k < |ps| - 1 ensures ps[1..][k - 1].Asterisk? ==> ps[1..][k] != Letter(94) {
        assert ps[1..][k] == ps[k + 1] && ps[1..][k - 1] == ps[k];
      }
      TextNoStarCaret(ps[1..]);
      if ps[0].Class? {
        ClassRead(ps[0].neg, ps[0].items, rest);
      } else {
        assert p[1..] == rest;
        if |ps| > 1 { TextStart(ps[1..]); }
      }
    }
  }

  /** Every negated class stands directly behind an asterisk. */
  predicate Sheltered(ps: seq<Piece>)
  {
    forall k | 0 <= k < |ps| :: ps[k].Class? && ps[k].neg ==> k > 0 && ps[k - 1].Asterisk?
  }

  predicate TwoAtEnd(ps: seq<Piece>)
  {
    |ps| >= 2 && ps[|ps| - 1].Asterisk? && ps[|ps| - 2].Asterisk?
  }

  /**
   * Gmatch of a written pattern: true of exactly the strings its pieces stand for, inverted by a caret in
   * front. A pattern whose negated classes stand behind asterisks is answered on every string; any other is
   * answered so whenever it is answered.
   */
  lemma {:induction false} PatternMeans(ps: seq<Piece>, s: Word, inverted: bool)
    requires PiecesOk(ps) && !TwoAtEnd(ps) && (inverted || ps == [] || ps[0] != Letter(94))
    ensures var r := GMatch(s, if inverted then [94] + Text(ps) else Text(ps));
            && (r.Ok? ==> r.value == (Fits(ps, s) != inverted))
            && (Sheltered(ps) ==> r.Ok?)
  {
    hide Fits, InLang, Accepts, TroubleOf, Text, AtomsOf, Reading, Atoms, Takes, NoStarCaret, GMatch, PMatch, PieceOk;
    var t, atoms := Text(ps), AtomsOf(ps);
    TextNoStarCaret(ps);
    AtomsOfText(ps);
    ReadAsMeant(t);
    AtomsAt(ps);
    if ps != [] { TextStart(ps); } else { assert t == [] by { NoPieces(); } }
    if inverted { GMatchCaret(s, t); } else { GMatchFinal(s, t); }
    PMatchLaw(s, t);
    StrictSame(atoms);
    AcceptsStrict(atoms, s);
    LangFits(ps, s);
    if Sheltered(ps) {
      forall a | a in atoms ensures !a.Never? { var k :| 0 <= k < |atoms| && atoms[k] == a; assert a == AtomOf(ps[k]); }
      forall k | 0 <= k < |atoms| && Negated(atoms[k]) ensures k > 0 && AnyStar(atoms[k - 1]) {
        assert atoms[k] == AtomOf(ps[k]) && ps[k].Class? && ps[k].neg;
        assert atoms[k - 1] == AtomOf(ps[k - 1]);
      }
      GuardedAnswers(atoms, s);
    }
  }

  lemma {:induction false} NoPieces()
    ensures Text([]) == []
  {
  }

  // ---------- plain strings ----------

  predicate Unquoted(s: Word) { forall k | 0 <= k < |s| :: s[k] < 0x8000 }

  /** Text in quotes matches itself, character for character. */
  lemma {:induction false} QuotedText(s: Word, t: Word, q: Word)
    requires Unquoted(s) && Unquoted(t) && |q| == |t| && forall k | 0 <= k < |t| :: q[k] == t[k] + 0x8000
    ensures GMatch(s, q) == Ok(s == t)
  {
    var quoted := Quoted(t);
    assert quoted == q;
    QuotedMatchesItself(s, t);
    if SameText(s, t) {
      forall k | 0 <= k < |s| ensures s[k] == t[k] { assert Trim(s[k]) == Trim(t[k]); }
    }
  }

  /** So does a pattern without special characters. */
  lemma {:induction false} LiteralText(s: Word, p: Word)
    requires Unquoted(s) && Unquoted(p) && (p == [] || p[0] != 94)
    requires forall k | 0 <= k < |p| :: p[k] !in {42, 63, 91, 123}
    ensures GMatch(s, p) == Ok(s == p)
  {
    LiteralWord(s, p);
    GMatchFinal(s, p);
  }

  lemma {:induction false} LiteralWord(s: Word, p: Word)
    requires Unquoted(s) && Unquoted(p) && forall k | 0 <= k < |p| :: p[k] !in {42, 63, 91, 123}
    ensures PMatch(s, p) == Ok(s == p)
    decreases |p|
  {
    if p != [] && s != [] && s[0] == p[0] {
      LiteralWord(s[1..], p[1..]);
      assert s == [s[0]] + s[1..] && p == [p[0]] + p[1..];
    }
  }

  /** A single class is answered on every string of one character. */
  lemma {:induction false} ClassAnswers(ps: seq<Piece>, s: Word)
    requires |ps| == 1 && ps[0].Class? && PieceOk(ps[0]) && |s| == 1
    ensures GMatch(s, Text(ps)).Ok?
  {
    hide Accepts, Takes, GMatch, PMatch, PieceOk, InBody, Atoms, Reading, NoStarCaret;
    var t, atoms := Text(ps), [AtomOf(ps[0])];
    TextNoStarCaret(ps);
    AtomsOfText(ps);
    ReadAsMeant(t);
    TextStart(ps);
    GMatchFinal(s, t);
    PMatchLaw(s, t);
    assert AtomsOf(ps) == atoms == [AtomOf(ps[0])] + [];
    LawHead(AtomOf(ps[0]), [], s);
    assert Law([], s[1..]) == Ok(Accepts([], s[1..]));
  }

  /** A class of one range takes exactly the characters between its ends. */
  lemma {:induction false} RangeText(c: Char, lo: Char, hi: Char, neg: bool)
    requires c < 0x8000 && lo <= hi < 0x8000 && 123 !in {lo, hi} && 91 != lo && 93 !in {lo, hi}
    requires if neg then lo != 45 else lo != 94
    ensures GMatch([c], [91] + (if neg then [94] else []) + [lo, 45, hi, 93]) == Ok((lo <= c <= hi) != neg)
  {
    var items, one := [Range(lo, hi)], [c];
    var ps := [Class(neg, items)];
    assert items[1..] == [] && Body(items) == [lo, 45, hi] + Body([]) == [lo, 45, hi];
    assert ps[1..] == [] && Text(ps) == Written(ps[0]) == [91] + (if neg then [94] else []) + [lo, 45, hi, 93];
    assert FineItems(items, if neg then 94 else 91);
    PatternMeans(ps, one, false);
    assert one[1..] == [] && (Fits(ps, one) <==> Admits(ps[0], c));
    assert Listed(items[0], c) <==> lo <= c <= hi;
    ClassAnswers(ps, one);
  }
}
