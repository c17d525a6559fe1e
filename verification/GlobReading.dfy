/**
 * How the code reads a pattern: pmatch and Gmatch on every string and every expanded pattern, with the
 * exact strings on which the scan fails.
 */
module GlobReading {
  import opened Wrappers
  import opened GlobBraces
  import opened GlobProduct
  import opened GlobMatch

  /** A star whose rest starts with a caret is a StarNot; a class that is never closed is Never. */
  datatype Atom = One(c: int) | AnyOne | Star | StarNot | Among(neg: bool, body: Word, prev: Char) | Never

  function Reading(p: Word): seq<Atom>
    decreases |p|
  {
    if p == [] then []
    else if p[0] == ANY then [AnyOne] + Reading(p[1..])
    else if p[0] == STAR then
      if |p| > 1 && p[1] == CARET then [StarNot] + Reading(p[2..]) else [Star] + Reading(p[1..])
    else if p[0] == LBRK then
      var to := BodyTo(p);
      if to == |p| then [Never]
      else [Among(BodyFrom(p) == 2, p[BodyFrom(p)..to], p[BodyFrom(p) - 1])] + Reading(p[to + 1..])
    else [One(Trim(p[0]))] + Reading(p[1..])
  }

  predicate AnyStar(a: Atom) { a.Star? || a.StarNot? }
  predicate Negated(a: Atom) { a.Among? && a.neg }

  predicate Takes(a: Atom, c: Char)
  {
    match a
    case One(x) => Trim(c) == x
    case AnyOne => true
    case Star => false
    case StarNot => false
    case Among(neg, body, prev) => InBody(body, prev, Trim(c)) != neg
    case Never => false
  }

  /** The answer when there is one. A star hands on only non-empty suffixes, unless nothing follows it; a
      StarNot wants one that the rest does not accept. */
  ghost predicate Accepts(atoms: seq<Atom>, s: Word)
    decreases |atoms|
  {
    if atoms == [] then s == []
    else if atoms[0].Star? then
      |atoms| == 1 || exists k | 0 <= k < |s| :: Accepts(atoms[1..], s[k..])
    else if atoms[0].StarNot? then exists k | 0 <= k < |s| :: !Accepts(atoms[1..], s[k..])
    else s != [] && Takes(atoms[0], s[0]) && Accepts(atoms[1..], s[1..])
  }

  /** The failure the scan runs into: an open class is reached, or a negated one with the string used up. */
  ghost function TroubleOf(atoms: seq<Atom>, s: Word): Option<Trouble>
    decreases |atoms|, 0
  {
    if atoms == [] then None
    else if atoms[0].Never? then Some(Lacks(MissingBracket))
    else if AnyStar(atoms[0]) then
      if atoms[0].Star? && |atoms| == 1 then None else SuffixTrouble(atoms[1..], s, atoms[0].Star?)
    else if s == [] then if Negated(atoms[0]) then Some(Overrun) else None
    else if Takes(atoms[0], s[0]) then TroubleOf(atoms[1..], s[1..])
    else None
  }

  /** Of the first non-empty suffix in trouble, unless a longer one already gave the wanted answer. */
  ghost function SuffixTrouble(atoms: seq<Atom>, s: Word, want: bool): Option<Trouble>
    decreases |atoms|, 1, |s|
  {
    if s == [] then None
    else if TroubleOf(atoms, s).Some? then TroubleOf(atoms, s)
    else if Accepts(atoms, s) == want then None
    else SuffixTrouble(atoms, s[1..], want)
  }

  ghost function Law(atoms: seq<Atom>, s: Word): Answer
  {
    match TroubleOf(atoms, s)
    case Some(e) => Err(e)
    case None => Ok(Accepts(atoms, s))
  }

  // ---------- pmatch ----------

  function Not(r: Answer): Answer { if r.Err? then r else Ok(!r.value) }

  /** A leading caret inverts the answer, and does nothing else to an expanded word. */
  lemma {:induction false} GMatchCaret(s: Word, r: Word)
    requires Final(r)
    ensures GMatch(s, [CARET] + r) == Not(PMatch(s, r))
  {
    hide PMatch;
    var p, one := [CARET] + r, [r];
    assert p[1..] == r && Expand(r) == Ok(one) && one[1..] == [];
    assert SomeMatch(s, one[1..], |p|) == Ok(false);
    assert SomeMatch(s, one, |p|) == PMatch(s, r);
  }

  lemma {:induction false} LawHead(a: Atom, rest: seq<Atom>, s: Word)
    requires !AnyStar(a) && !a.Never?
    ensures Law([a] + rest, s) ==
            if s == [] then if Negated(a) then Err(Overrun) else Ok(false)
            else if Takes(a, s[0]) then Law(rest, s[1..]) else Ok(false)
  {
    assert ([a] + rest)[1..] == rest;
  }

  /** pmatch on every string and every expanded word: the failure, or the answer. */
  lemma {:induction false} PMatchLaw(s: Word, p: Word)
    requires Final(p)
    ensures PMatch(s, p) == Law(Reading(p), s)
    decreases |p|, 2, 0
  {
    if p == [] {
    } else if p[0] == STAR {
      StarLaw(s, p);
    } else if p[0] == LBRK {
      ClassLaw(s, p);
    } else {
      OneLaw(s, p);
    }
  }

  lemma {:induction false} OneLaw(s: Word, p: Word)
    requires p != [] && p[0] != STAR && p[0] != LBRK && Final(p)
    ensures PMatch(s, p) == Law(Reading(p), s)
    decreases |p|, 1, 0
  {
    hide Law;
    var a := if p[0] == ANY then AnyOne else One(Trim(p[0]));
    LawHead(a, Reading(p[1..]), s);
    FinalRest(p, 1);
    if s != [] { PMatchLaw(s[1..], p[1..]); }
  }

  lemma {:induction false} ClassLaw(s: Word, p: Word)
    requires p != [] && p[0] == LBRK && Final(p)
    ensures PMatch(s, p) == Law(Reading(p), s)
    decreases |p|, 1, 0
  {
    var to := BodyTo(p);
    if to == |p| {
      assert Reading(p) == [Never];
    } else {
      hide Law, InBody;
      var a := Among(BodyFrom(p) == 2, p[BodyFrom(p)..to], p[BodyFrom(p) - 1]);
      LawHead(a, Reading(p[to + 1..]), s);
      NothingInBody(a.body, a.prev);
      FinalRest(p, to + 1);
      if s != [] { PMatchLaw(s[1..], p[to + 1..]); }
    }
  }

  lemma {:induction false} StarLaw(s: Word, p: Word)
    requires p != [] && p[0] == STAR && Final(p)
    ensures PMatch(s, p) == Law(Reading(p), s)
    decreases |p|, 1, 0
  {
    FinalRest(p, 1);
    if |p| == 1 {
      assert Reading(p) == [Star] + [];
    } else if p[1] == CARET {
      var r := p[2..];
      assert p[1..] == [CARET] + r;
      FinalRest(p, 2);
      SuffixesLaw(s, p[1..], r, false);
      SuffixesFound(Reading(r), s, false);
      StarUnfold(StarNot, Reading(r), s);
    } else {
      ReadingNonEmpty(p[1..]);
      SuffixesLaw(s, p[1..], p[1..], true);
      SuffixesFound(Reading(p[1..]), s, true);
      StarUnfold(Star, Reading(p[1..]), s);
    }
  }

  lemma {:induction false} ReadingNonEmpty(p: Word)
    requires p != []
    ensures Reading(p) != []
  {
  }

  lemma {:induction false} StarUnfold(a: Atom, rest: seq<Atom>, s: Word)
    requires AnyStar(a) && (a.Star? ==> rest != [])
    ensures TroubleOf([a] + rest, s) == SuffixTrouble(rest, s, a.Star?)
    ensures Accepts([a] + rest, s) <==> exists k | 0 <= k < |s| :: Accepts(rest, s[k..]) == a.Star?
  {
    assert ([a] + rest)[1..] == rest;
  }

  /** Whether the suffixes of s, tried in turn, come to the wanted answer. */
  ghost predicate Found(atoms: seq<Atom>, s: Word, want: bool)
    decreases |s|
  {
    s != [] && (Accepts(atoms, s) == want || Found(atoms, s[1..], want))
  }

  lemma {:induction false} SuffixesFound(atoms: seq<Atom>, s: Word, want: bool)
    ensures Found(atoms, s, want) <==> exists k | 0 <= k < |s| :: Accepts(atoms, s[k..]) == want
    decreases |s|
  {
    hide Accepts;
    if s != [] {
      SuffixesFound(atoms, s[1..], want);
      assert s[0..] == s;
      if k :| 0 <= k < |s| - 1 && Accepts(atoms, s[1..][k..]) == want {
        assert s[1..][k..] == s[k + 1..];
      }
      if k :| 0 <= k < |s| && Accepts(atoms, s[k..]) == want {
        if k > 0 { assert s[1..][k - 1..] == s[k..]; }
      }
    }
  }

  /** The loop over suffixes; q is what a suffix is matched against, its answer wanted or not. */
  lemma {:induction false} SuffixesLaw(s: Word, p: Word, q: Word, want: bool)
    requires Final(q) && p != [] && (if want then p == q && p[0] != CARET else p == [CARET] + q)
    ensures TrySuffixes(s, p) == match SuffixTrouble(Reading(q), s, want)
                                 case Some(e) => Err(e)
                                 case None => Ok(Found(Reading(q), s, want))
    decreases |p|, 3, |s|
  {
    hide PMatch, GMatch, Reading, TroubleOf, Accepts;
    if s != [] {
      PMatchLaw(s, q);
      if want { GMatchFinal(s, q); } else { GMatchCaret(s, q); }
      SuffixesLaw(s[1..], p, q, want);
    }
  }

  // ---------- Gmatch ----------

  /** The first expansion in trouble decides. */
  ghost function FirstTrouble(vs: seq<Word>, s: Word): Option<Trouble>
  {
    if vs == [] then None
    else
      var t := TroubleOf(Reading(vs[0]), s);
      if t.Some? then t else FirstTrouble(vs[1..], s)
  }

  lemma {:induction false} SomeMatchLaw(s: Word, vs: seq<Word>, n: nat)
    requires forall v | v in vs :: |v| <= n && Final(v)
    ensures SomeMatch(s, vs, n) == match FirstTrouble(vs, s)
                                   case Some(e) => Err(e)
                                   case None => Ok(exists v | v in vs :: Accepts(Reading(v), s))
    decreases |vs|
  {
    hide PMatch, Reading, TroubleOf, Accepts;
    if vs != [] {
      PMatchLaw(s, vs[0]);
      SomeMatchLaw(s, vs[1..], n);
      assert forall v | v in vs :: v == vs[0] || v in vs[1..];
    }
  }

  /** Gmatch on every string and every pattern: what is missing in its braces, the first failure among its
      expansions, or whether some expansion accepts, inverted by a leading caret. */
  lemma {:induction false} GMatchLaw(s: Word, p: Word)
    ensures var neg := p != [] && p[0] == CARET;
            GMatch(s, p) == match Expand(if neg then p[1..] else p)
                            case Err(e) => Err(Lacks(e))
                            case Ok(vs) =>
                              match FirstTrouble(vs, s)
                              case Some(e) => Err(e)
                              case None => Ok((exists v | v in vs :: Accepts(Reading(v), s)) != neg)
  {
    hide Reading, TroubleOf, Accepts, PMatch, Expand, FirstTrouble;
    var neg := p != [] && p[0] == CARET;
    var q := if neg then p[1..] else p;
    if Expand(q).Ok? {
      ExpandFinal(q);
      SomeMatchLaw(s, Expand(q).value, |p|);
    }
  }

  /** With the groups written out: the expansions are the choices of alternatives. */
  lemma {:induction false} GMatchGroups(s: Word, parts: seq<Part>, neg: bool)
    requires Fine(parts, false) && !EndsBare(parts)
    requires neg || Print(parts) == [] || Print(parts)[0] != CARET
    ensures GMatch(s, if neg then [CARET] + Print(parts) else Print(parts)) ==
            match FirstTrouble(Cross(parts), s)
            case Some(e) => Err(e)
            case None => Ok((exists v | v in Cross(parts) :: Accepts(Reading(v), s)) != neg)
  {
    hide Reading, TroubleOf, Accepts, GMatch, Expand, Cross, Print, Fine, EndsBare, FirstTrouble;
    ExpansionIsCrossProduct(parts);
    var p := if neg then [CARET] + Print(parts) else Print(parts);
    assert neg ==> p[1..] == Print(parts);
    GMatchLaw(s, p);
  }

  // ---------- which patterns and strings fail ----------

  predicate ClosedAtoms(atoms: seq<Atom>) { forall a | a in atoms :: !a.Never? }
  predicate StarFree(atoms: seq<Atom>) { forall a | a in atoms :: !AnyStar(a) }

  /** Every atom takes its character, and there are no others. */
  ghost predicate Spells(atoms: seq<Atom>, s: Word)
  {
    |atoms| == |s| && forall k | 0 <= k < |s| :: Takes(atoms[k], s[k])
  }

  /** Without stars: the scan overruns exactly when what stands before some negated class uses the string
      up; otherwise it answers. */
  lemma {:induction false} StarFreeOverruns(atoms: seq<Atom>, s: Word)
    requires StarFree(atoms) && ClosedAtoms(atoms)
    ensures TroubleOf(atoms, s) ==
            if |s| < |atoms| && Negated(atoms[|s|]) && Spells(atoms[..|s|], s) then Some(Overrun) else None
    decreases |atoms|
  {
    if atoms != [] {
      assert atoms[0] in atoms && !AnyStar(atoms[0]);
      if s != [] {
        var n := |s|;
        StarFreeOverruns(atoms[1..], s[1..]);
        if n < |atoms| {
          assert atoms[1..][n - 1] == atoms[n] && atoms[1..][..n - 1] == atoms[..n][1..];
          SpellsStep(atoms[..n], s);
        }
      }
    }
  }

  lemma {:induction false} SpellsStep(atoms: seq<Atom>, s: Word)
    requires atoms != [] && s != []
    ensures Spells(atoms, s) <==> Takes(atoms[0], s[0]) && Spells(atoms[1..], s[1..])
  {
    if Takes(atoms[0], s[0]) && Spells(atoms[1..], s[1..]) {
      forall k | 0 <= k < |s| ensures Takes(atoms[k], s[k]) {
        if k > 0 { assert atoms[k] == atoms[1..][k - 1] && s[k] == s[1..][k - 1]; }
      }
    }
    if Spells(atoms, s) {
      forall k | 0 <= k < |s[1..]| ensures Takes(atoms[1..][k], s[1..][k]) { assert s[k + 1] == s[1..][k]; }
    }
  }

  /** After a star: exactly when some non-empty suffix fails before a longer one gave the wanted answer. */
  lemma {:induction false} SuffixFails(atoms: seq<Atom>, s: Word, want: bool, e: Trouble)
    ensures SuffixTrouble(atoms, s, want) == Some(e) <==>
            exists k | 0 <= k < |s| :: TroubleOf(atoms, s[k..]) == Some(e) &&
              forall j | 0 <= j < k :: TroubleOf(atoms, s[j..]).None? && Accepts(atoms, s[j..]) != want
    decreases |s|
  {
    hide TroubleOf, Accepts;
    if s != [] {
      SuffixFails(atoms, s[1..], want, e);
      assert s[0..] == s;
      if TroubleOf(atoms, s).None? && Accepts(atoms, s) != want {
        if k :| 0 <= k < |s[1..]| && TroubleOf(atoms, s[1..][k..]) == Some(e) &&
                (forall j | 0 <= j < k :: TroubleOf(atoms, s[1..][j..]).None? && Accepts(atoms, s[1..][j..]) != want) {
          assert s[1..][k..] == s[k + 1..];
          forall j | 0 <= j < k + 1 ensures TroubleOf(atoms, s[j..]).None? && Accepts(atoms, s[j..]) != want {
            if j > 0 { assert s[1..][j - 1..] == s[j..]; }
          }
        }
        if k :| 0 <= k < |s| && TroubleOf(atoms, s[k..]) == Some(e) &&
                (forall j | 0 <= j < k :: TroubleOf(atoms, s[j..]).None? && Accepts(atoms, s[j..]) != want) {
          assert k > 0 && s[1..][k - 1..] == s[k..];
          forall j | 0 <= j < k - 1 ensures TroubleOf(atoms, s[1..][j..]).None? && Accepts(atoms, s[1..][j..]) != want {
            assert s[1..][j..] == s[j + 1..];
          }
        }
      }
    }
  }

  /** Every negated class stands directly behind a star. */
  predicate Guarded(atoms: seq<Atom>)
  {
    forall k | 0 <= k < |atoms| :: Negated(atoms[k]) ==> k > 0 && AnyStar(atoms[k - 1])
  }

  /** Then the scan never fails: a star never hands its next atom the empty suffix. */
  lemma {:induction false} GuardedAnswers(atoms: seq<Atom>, s: Word)
    requires ClosedAtoms(atoms) && (Guarded(atoms) || (s != [] && atoms != [] && Guarded([Star] + atoms)))
    ensures TroubleOf(atoms, s).None?
    decreases |atoms|, 0
  {
    if atoms != [] {
      assert atoms[0] in atoms;
      var rest := atoms[1..];
      if AnyStar(atoms[0]) {
        if rest != [] || atoms[0].StarNot? {
          assert rest != [] ==> Guarded([Star] + rest) by { GuardedRest(atoms); }
          GuardedSuffixes(rest, s, atoms[0].Star?);
        }
      } else if s == [] {
        assert !Negated(atoms[0]);
      } else if Takes(atoms[0], s[0]) {
        GuardedRest(atoms);
        GuardedAnswers(rest, s[1..]);
      }
    }
  }

  lemma {:induction false} GuardedRest(atoms: seq<Atom>)
    requires atoms != [] && (Guarded(atoms) || Guarded([Star] + atoms))
    ensures if AnyStar(atoms[0]) then Guarded([Star] + atoms[1..]) else Guarded(atoms[1..])
  {
    var rest, starred := atoms[1..], [Star] + atoms;
    forall k | 0 <= k < |rest| && Negated(rest[k]) ensures AnyStar(atoms[k]) {
      assert rest[k] == atoms[k + 1] == starred[k + 2] && starred[k + 1] == atoms[k];
    }
  }

  lemma {:induction false} GuardedSuffixes(atoms: seq<Atom>, s: Word, want: bool)
    requires ClosedAtoms(atoms) && (atoms != [] ==> Guarded([Star] + atoms))
    ensures SuffixTrouble(atoms, s, want).None?
    decreases |atoms|, 1, |s|
  {
    if s != [] {
      if atoms != [] { GuardedAnswers(atoms, s); }
      GuardedSuffixes(atoms, s[1..], want);
    }
  }
}
