/**
 * What a pattern is meant to match, and the exact patterns on which the code matches just that.
 */
module GlobLanguage {
  import opened Wrappers
  import opened Sequences
  import opened GlobBraces
  import opened GlobMatch
  import opened GlobReading

  /** The pattern as documented: a star stands for any string, whatever follows it. */
  function Atoms(p: Word): seq<Atom>
    decreases |p|
  {
    if p == [] then []
    else if p[0] == ANY then [AnyOne] + Atoms(p[1..])
    else if p[0] == STAR then [Star] + Atoms(p[1..])
    else if p[0] == LBRK then
      var to := BodyTo(p);
      if to == |p| then [Never]
      else [Among(BodyFrom(p) == 2, p[BodyFrom(p)..to], p[BodyFrom(p) - 1])] + Atoms(p[to + 1..])
    else [One(Trim(p[0]))] + Atoms(p[1..])
  }

  /** s is a concatenation of one character per atom, and any string per star. */
  ghost predicate InLang(atoms: seq<Atom>, s: Word)
    decreases |atoms|
  {
    if atoms == [] then s == []
    else if atoms[0].Star? then exists k | 0 <= k <= |s| :: InLang(atoms[1..], s[k..])
    else s != [] && Takes(atoms[0], s[0]) && InLang(atoms[1..], s[1..])
  }

  predicate Plain(atoms: seq<Atom>) { forall a | a in atoms :: !a.StarNot? }

  /** No star is directly followed by a caret. */
  predicate NoStarCaret(p: Word)
    decreases |p|
  {
    p == [] ||
    if p[0] == LBRK then BodyTo(p) == |p| || NoStarCaret(p[BodyTo(p) + 1..])
    else (p[0] == STAR && |p| > 1 ==> p[1] != CARET) && NoStarCaret(p[1..])
  }

  /** Then the code reads the pattern as documented. */
  lemma {:induction false} ReadAsMeant(p: Word)
    requires NoStarCaret(p)
    ensures Reading(p) == Atoms(p) && Plain(Atoms(p))
    decreases |p|
  {
    if p != [] {
      var to := BodyTo(p);
      if p[0] == LBRK && to < |p| { ReadAsMeant(p[to + 1..]); }
      if p[0] != LBRK { ReadAsMeant(p[1..]); }
    }
  }

  // ---------- without star-carets: the language that is accepted ----------

  predicate AllStars(atoms: seq<Atom>) { forall a | a in atoms :: a.Star? }

  /** What the code makes of two or more stars at the end: at least one character. */
  function Strict(atoms: seq<Atom>): seq<Atom>
  {
    if |atoms| >= 2 && AllStars(atoms) then [AnyOne, Star]
    else if atoms == [] then []
    else [atoms[0]] + Strict(atoms[1..])
  }

  lemma {:induction false} StarsTakeAll(s: Word)
    ensures InLang([Star], s) && (InLang([AnyOne, Star], s) <==> s != [])
  {
    assert [Star][1..] == [] && [AnyOne, Star][1..] == [Star];
    assert InLang([], s[|s|..]);
    if s != [] { assert InLang([], s[1..][|s[1..]|..]); }
  }

  /** A pattern with something other than stars does not match the empty string. */
  lemma {:induction false} NeedsCharacter(atoms: seq<Atom>)
    requires !AllStars(atoms)
    ensures !InLang(Strict(atoms), [])
    decreases |atoms|
  {
    var st := Strict(atoms);
    assert st[0] == atoms[0] && st[1..] == Strict(atoms[1..]);
    if atoms[0].Star? {
      assert atoms == [atoms[0]] + atoms[1..];
      assert !AllStars(atoms[1..]);
      NeedsCharacter(atoms[1..]);
    }
  }

  lemma {:induction false} StarsAfterStar(s: Word, atoms: seq<Atom>)
    requires |atoms| >= 2 && AllStars(atoms)
    ensures (exists k | 0 <= k < |s| :: InLang(Strict(atoms[1..]), s[k..])) <==> s != []
  {
    hide InLang, Strict;
    StrictStars(atoms[1..]);
    StarsTakeAll(s);
    if s != [] {
      assert s[0..] == s;
      assert InLang(Strict(atoms[1..]), s[0..]);
    }
  }

  lemma {:induction false} StrictStars(atoms: seq<Atom>)
    requires atoms != [] && AllStars(atoms)
    ensures Strict(atoms) == if |atoms| == 1 then [Star] else [AnyOne, Star]
  {
    if |atoms| == 1 {
      assert atoms[0] in atoms && atoms == [Star];
      assert Strict([Star]) == [Star] + Strict([]);
    }
  }

  /** The accepted language, two stars at the end taking a character at least. */
  lemma {:induction false} AcceptsStrict(atoms: seq<Atom>, s: Word)
    requires Plain(atoms)
    ensures Accepts(atoms, s) <==> InLang(Strict(atoms), s)
    decreases |atoms|
  {
    if atoms != [] {
      var st, rest := Strict(atoms), atoms[1..];
      assert !atoms[0].StarNot?;
      if |atoms| >= 2 && AllStars(atoms) {
        StarsTakeAll(s);
        StarsAfterStar(s, atoms);
        forall k | 0 <= k < |s| ensures Accepts(rest, s[k..]) <==> InLang(Strict(rest), s[k..]) {
          AcceptsStrict(rest, s[k..]);
        }
      } else if atoms[0].Star? {
        assert st[1..] == Strict(rest);
        if rest == [] {
          assert InLang(Strict(rest), s[|s|..]);
        } else {
          assert !AllStars(rest) by { assert atoms == [atoms[0]] + rest; }
          NeedsCharacter(rest);
          assert s[|s|..] == [];
          forall k | 0 <= k < |s| ensures Accepts(rest, s[k..]) <==> InLang(Strict(rest), s[k..]) {
            AcceptsStrict(rest, s[k..]);
          }
        }
      } else {
        assert st[1..] == Strict(rest);
        if s != [] { AcceptsStrict(rest, s[1..]); }
      }
    }
  }

  predicate EndsTwoStars(atoms: seq<Atom>)
  {
    |atoms| >= 2 && atoms[|atoms| - 1].Star? && atoms[|atoms| - 2].Star?
  }

  lemma {:induction false} StrictSame(atoms: seq<Atom>)
    requires !EndsTwoStars(atoms)
    ensures Strict(atoms) == atoms
  {
    if |atoms| >= 2 {
      assert atoms[|atoms| - 1] in atoms && atoms[|atoms| - 2] in atoms;
      assert !AllStars(atoms);
    }
    if atoms != [] { StrictSame(atoms[1..]); }
  }

  // ---------- lengths ----------

  /** The least number of characters the pattern can match. */
  function Fixed(atoms: seq<Atom>): nat
  {
    if atoms == [] then 0 else (if AnyStar(atoms[0]) then 0 else 1) + Fixed(atoms[1..])
  }

  lemma {:induction false} FixedAppend(a: seq<Atom>, b: seq<Atom>)
    ensures Fixed(a + b) == Fixed(a) + Fixed(b)
    decreases |a|
  {
    if a == [] {
      assert a + b == b;
    } else {
      assert (a + b)[1..] == a[1..] + b;
      FixedAppend(a[1..], b);
    }
  }

  lemma {:induction false} NoFixed(atoms: seq<Atom>)
    requires Plain(atoms)
    ensures Fixed(atoms) == 0 <==> AllStars(atoms)
  {
    if atoms != [] {
      assert atoms == [atoms[0]] + atoms[1..];
      NoFixed(atoms[1..]);
    }
  }

  lemma {:induction false} LangLong(atoms: seq<Atom>, s: Word)
    requires InLang(atoms, s)
    ensures |s| >= Fixed(atoms)
    decreases |atoms|
  {
    if atoms != [] {
      if atoms[0].Star? {
        var k :| 0 <= k <= |s| && InLang(atoms[1..], s[k..]);
        LangLong(atoms[1..], s[k..]);
      } else {
        LangLong(atoms[1..], s[1..]);
      }
    }
  }

  lemma {:induction false} StrictNeedsMore(atoms: seq<Atom>, s: Word)
    requires Plain(atoms) && EndsTwoStars(atoms) && InLang(Strict(atoms), s)
    ensures |s| > Fixed(atoms)
    decreases |atoms|
  {
    if AllStars(atoms) {
      StarsTakeAll(s);
      NoFixed(atoms);
    } else {
      var st := Strict(atoms);
      assert st[0] == atoms[0] && st[1..] == Strict(atoms[1..]);
      assert |atoms| > 2;
      if atoms[0].Star? {
        var k :| 0 <= k <= |s| && InLang(Strict(atoms[1..]), s[k..]);
        StrictNeedsMore(atoms[1..], s[k..]);
      } else {
        StrictNeedsMore(atoms[1..], s[1..]);
      }
    }
  }

  /** Every atom but the stars takes some character: no class is empty or open. */
  ghost predicate Hopeful(atoms: seq<Atom>)
  {
    forall k | 0 <= k < |atoms| :: AnyStar(atoms[k]) || exists c :: Takes(atoms[k], c)
  }

  lemma {:induction false} Witness(atoms: seq<Atom>) returns (t: Word)
    requires Plain(atoms) && Hopeful(atoms)
    ensures InLang(atoms, t) && |t| == Fixed(atoms)
    decreases |atoms|
  {
    if atoms == [] {
      t := [];
    } else {
      var rest := atoms[1..];
      forall k | 0 <= k < |rest| ensures AnyStar(rest[k]) || exists c :: Takes(rest[k], c) {
        assert rest[k] == atoms[k + 1];
      }
      t := Witness(rest);
      assert !atoms[0].StarNot?;
      if atoms[0].Star? {
        assert t[0..] == t;
      } else {
        var c :| Takes(atoms[0], c);
        t := [c] + t;
      }
    }
  }

  lemma {:induction false} HopelessLang(atoms: seq<Atom>, s: Word)
    requires !Hopeful(atoms)
    ensures !InLang(atoms, s)
    decreases |atoms|
  {
    var k :| 0 <= k < |atoms| && !AnyStar(atoms[k]) && !exists c :: Takes(atoms[k], c);
    if k > 0 {
      assert atoms[1..][k - 1] == atoms[k];
      assert !Hopeful(atoms[1..]);
      forall j | 0 <= j <= |s| ensures !InLang(atoms[1..], s[j..]) { HopelessLang(atoms[1..], s[j..]); }
    }
  }

  // ---------- agreement without star-carets ----------

  ghost predicate Agree(a: seq<Atom>, b: seq<Atom>) { forall s: Word :: Accepts(a, s) <==> InLang(b, s) }

  /** The code accepts the language exactly when no two stars end the pattern, or nothing is in it. */
  lemma {:induction false} StarsAtEnd(atoms: seq<Atom>)
    requires Plain(atoms)
    ensures Agree(atoms, atoms) <==> !EndsTwoStars(atoms) || !Hopeful(atoms)
  {
    hide InLang, Strict, Accepts, Hopeful, Plain;
    if !EndsTwoStars(atoms) {
      StrictSame(atoms);
      forall s: Word ensures Accepts(atoms, s) <==> InLang(atoms, s) { AcceptsStrict(atoms, s); }
    } else if Hopeful(atoms) {
      var t := Witness(atoms);
      AcceptsStrict(atoms, t);
      if Accepts(atoms, t) { StrictNeedsMore(atoms, t); }
    } else {
      forall s: Word ensures Accepts(atoms, s) <==> InLang(atoms, s) {
        HopelessLang(atoms, s);
        AcceptsHopeless(atoms, s);
      }
    }
  }

  lemma {:induction false} AcceptsHopeless(atoms: seq<Atom>, s: Word)
    requires Plain(atoms) && !Hopeful(atoms)
    ensures !Accepts(atoms, s)
    decreases |atoms|
  {
    var k :| 0 <= k < |atoms| && !AnyStar(atoms[k]) && !exists c :: Takes(atoms[k], c);
    assert !atoms[0].StarNot?;
    if k > 0 {
      assert atoms[1..][k - 1] == atoms[k];
      assert !Hopeful(atoms[1..]);
      forall j | 0 <= j <= |s| ensures !Accepts(atoms[1..], s[j..]) { AcceptsHopeless(atoms[1..], s[j..]); }
    }
  }

  // ---------- what a reading does on all strings at once ----------

  predicate Ends(atoms: seq<Atom>) { atoms == [] || atoms == [Star] }

  lemma {:induction false} AcceptsEmpty(atoms: seq<Atom>)
    ensures Accepts(atoms, []) <==> Ends(atoms)
  {
    if atoms != [] && atoms[0].Star? && |atoms| == 1 { assert atoms == [Star]; }
  }

  /** Every string of one character gets the answer `want`. */
  ghost predicate EveryOne(atoms: seq<Atom>, want: bool)
  {
    if atoms == [] then !want
    else if atoms[0].Star? then if |atoms| == 1 then want else EveryOne(atoms[1..], want)
    else if atoms[0].StarNot? then EveryOne(atoms[1..], !want)
    else if Ends(atoms[1..]) then forall c :: Takes(atoms[0], c) == want
    else !want
  }

  /** Every non-empty string is accepted. */
  ghost predicate AcceptsMore(atoms: seq<Atom>)
  {
    atoms != [] &&
    if atoms[0].Star? then |atoms| == 1 || EveryOne(atoms[1..], true)
    else if atoms[0].StarNot? then EveryOne(atoms[1..], false)
    else atoms[1..] == [Star] && forall c :: Takes(atoms[0], c)
  }

  /** No non-empty string is. */
  ghost predicate RejectsMore(atoms: seq<Atom>)
  {
    atoms == [] ||
    if atoms[0].Star? then |atoms| > 1 && RejectsMore(atoms[1..])
    else if atoms[0].StarNot? then AcceptsMore(atoms[1..])
    else (RejectsMore(atoms[1..]) && !Ends(atoms[1..])) || forall c :: !Takes(atoms[0], c)
  }

  lemma {:induction false} AcceptsOne(atoms: seq<Atom>, x: Char)
    requires atoms != []
    ensures Accepts(atoms, [x]) <==>
            if atoms[0].Star? then |atoms| == 1 || Accepts(atoms[1..], [x])
            else if atoms[0].StarNot? then !Accepts(atoms[1..], [x])
            else Takes(atoms[0], x) && Ends(atoms[1..])
  {
    var s := [x];
    assert s[0..] == s && s[1..] == [];
    AcceptsEmpty(atoms[1..]);
  }

  lemma {:induction false} EveryOneMeans(atoms: seq<Atom>, want: bool)
    ensures EveryOne(atoms, want) <==> forall x :: Accepts(atoms, [x]) == want
    decreases |atoms|
  {
    hide Accepts;
    if atoms == [] {
      assert forall x :: !Accepts(atoms, [x]) by { Nothing(); }
      assert Accepts(atoms, [1]) == false;
    } else {
      forall x ensures Accepts(atoms, [x]) <==>
            if atoms[0].Star? then |atoms| == 1 || Accepts(atoms[1..], [x])
            else if atoms[0].StarNot? then !Accepts(atoms[1..], [x])
            else Takes(atoms[0], x) && Ends(atoms[1..]) { AcceptsOne(atoms, x); }
      if AnyStar(atoms[0]) {
        EveryOneMeans(atoms[1..], if atoms[0].Star? then want else !want);
      }
      assert Accepts(atoms, [1]) || !Accepts(atoms, [1]);
    }
  }

  lemma {:induction false} Nothing()
    ensures forall s: Word :: Accepts([], s) <==> s == []
  {
  }

  lemma {:induction false} AcceptsMoreMeans(atoms: seq<Atom>)
    ensures AcceptsMore(atoms) <==> forall s: Word | s != [] :: Accepts(atoms, s)
  {
    if atoms == [] {
      assert !Accepts(atoms, [1]);
    } else {
      hide EveryOne, Takes;
      if AcceptsMore(atoms) {
        forall s: Word | s != [] ensures Accepts(atoms, s) { MoreAccepted(atoms, s); }
      } else if !AnyStar(atoms[0]) {
        var s := MoreRefused(atoms);
      } else {
        EveryOneMeans(atoms[1..], atoms[0].Star?);
        var x :| Accepts(atoms[1..], [x]) != atoms[0].Star?;
        AcceptsOne(atoms, x);
      }
    }
  }

  lemma {:induction false} MoreAccepted(atoms: seq<Atom>, s: Word)
    requires AcceptsMore(atoms) && s != []
    ensures Accepts(atoms, s)
  {
    hide EveryOne;
    var rest, n := atoms[1..], |s| - 1;
    if AnyStar(atoms[0]) {
      if rest != [] || atoms[0].StarNot? {
        EveryOneMeans(rest, atoms[0].Star?);
        assert s[n..] == [s[n]];
      }
    } else {
      assert Accepts(rest, s[1..]);
    }
  }

  /** A string that an atom and its rest do not accept. */
  lemma {:induction false} MoreRefused(atoms: seq<Atom>) returns (s: Word)
    requires atoms != [] && !AnyStar(atoms[0]) && !AcceptsMore(atoms)
    ensures s != [] && !Accepts(atoms, s)
  {
    var rest := atoms[1..];
    if c :| !Takes(atoms[0], c) {
      s := [c];
    } else if rest == [] {
      s := [1, 1];
      assert s[1..] == [1];
    } else {
      s := [1];
      assert s[1..] == [];
      AcceptsEmpty(rest);
    }
  }

  lemma {:induction false} RejectsMoreMeans(atoms: seq<Atom>)
    ensures RejectsMore(atoms) <==> forall s: Word | s != [] :: !Accepts(atoms, s)
    decreases |atoms|
  {
    if atoms != [] {
      hide Takes, AcceptsMore;
      var rest := atoms[1..];
      RejectsMoreMeans(rest);
      AcceptsMoreMeans(rest);
      AcceptsEmpty(rest);
      if RejectsMore(atoms) {
        forall s: Word | s != [] ensures !Accepts(atoms, s) { MoreRejected(atoms, s); }
      } else {
        var s := MoreFound(atoms);
      }
    }
  }

  lemma {:induction false} MoreRejected(atoms: seq<Atom>, s: Word)
    requires atoms != [] && RejectsMore(atoms) && s != []
    requires RejectsMore(atoms[1..]) <==> forall s: Word | s != [] :: !Accepts(atoms[1..], s)
    requires AcceptsMore(atoms[1..]) <==> forall s: Word | s != [] :: Accepts(atoms[1..], s)
    ensures !Accepts(atoms, s)
  {
    hide AcceptsMore;
    var rest := atoms[1..];
    if AnyStar(atoms[0]) {
      forall k | 0 <= k < |s| ensures Accepts(rest, s[k..]) != atoms[0].Star? { assert s[k..] != []; }
    } else if RejectsMore(rest) && !Ends(rest) {
      AcceptsEmpty(rest);
      assert !Accepts(rest, s[1..]);
    } else {
      assert !Takes(atoms[0], s[0]);
    }
  }

  /** A non-empty string that is accepted, when there is one. */
  lemma {:induction false} MoreFound(atoms: seq<Atom>) returns (s: Word)
    requires atoms != [] && !RejectsMore(atoms)
    requires RejectsMore(atoms[1..]) <==> forall s: Word | s != [] :: !Accepts(atoms[1..], s)
    requires AcceptsMore(atoms[1..]) <==> forall s: Word | s != [] :: Accepts(atoms[1..], s)
    ensures s != [] && Accepts(atoms, s)
  {
    hide AcceptsMore;
    var rest := atoms[1..];
    if atoms[0].Star? {
      if rest == [] {
        s := [1];
      } else {
        s :| s != [] && Accepts(rest, s);
        assert s[0..] == s;
      }
    } else if atoms[0].StarNot? {
      s :| s != [] && !Accepts(rest, s);
      assert s[0..] == s;
    } else {
      var c :| Takes(atoms[0], c);
      AcceptsEmpty(rest);
      if Ends(rest) {
        s := [c];
        assert s[1..] == [];
      } else {
        var u :| u != [] && Accepts(rest, u);
        s := [c] + u;
        assert s[1..] == u;
      }
    }
  }

  // ---------- agreement with star-carets ----------

  predicate StarCaret(p: Word) { |p| > 1 && p[0] == STAR && p[1] == CARET }

  lemma {:induction false} SameHead(p: Word) returns (a: Atom, n: nat)
    requires !NoStarCaret(p) && !StarCaret(p)
    ensures 0 < n <= |p| && !a.StarNot? && !NoStarCaret(p[n..])
    ensures Reading(p) == [a] + Reading(p[n..]) && Atoms(p) == [a] + Atoms(p[n..])
  {
    n := if p[0] == LBRK then BodyTo(p) + 1 else 1;
    a := Atoms(p)[0];
  }

  /** The first star that a caret follows: where the two readings part. */
  lemma {:induction false} FirstStarCaret(p: Word) returns (q: seq<Atom>, r: Word)
    requires !NoStarCaret(p)
    ensures Plain(q) && Reading(p) == q + ([StarNot] + Reading(r))
    ensures Atoms(p) == q + ([Star, One(94)] + Atoms(r))
    decreases |p|
  {
    hide Reading, Atoms, NoStarCaret;
    if StarCaret(p) {
      q, r := [], p[2..];
      ReadStarCaret(p);
    } else {
      var a, n := SameHead(p);
      var q';
      q', r := FirstStarCaret(p[n..]);
      q := [a] + q';
      Assoc([a], q', [StarNot] + Reading(r));
      Assoc([a], q', [Star, One(94)] + Atoms(r));
    }
  }

  lemma {:induction false} ReadStarCaret(p: Word)
    requires StarCaret(p)
    ensures Reading(p) == [] + ([StarNot] + Reading(p[2..]))
    ensures Atoms(p) == [] + ([Star, One(94)] + Atoms(p[2..]))
  {
    assert p[1..][1..] == p[2..] && Atoms(p[1..]) == [One(94)] + Atoms(p[2..]);
  }

  lemma {:induction false} AcceptsStep(atoms: seq<Atom>, s: Word, k: nat)
    requires |atoms| > 1 && k < |s| && Accepts(atoms[1..], s[k..])
    requires atoms[0].Star? || (!AnyStar(atoms[0]) && k == 1 && Takes(atoms[0], s[0]))
    ensures Accepts(atoms, s)
  {
  }

  /** What a plain prefix accepts, followed by what the rest accepts. */
  lemma {:induction false} AcceptsBoth(q: seq<Atom>, r: seq<Atom>, t: Word, u: Word)
    requires Plain(q) && InLang(q, t) && u != [] && r != [] && Accepts(r, u)
    ensures Accepts(q + r, t + u)
    decreases |q|
  {
    hide Accepts, Takes;
    if q == [] {
      assert q + r == r && t + u == u;
    } else {
      assert (q + r)[1..] == q[1..] + r && !q[0].StarNot?;
      var k := 1;
      if q[0].Star? { k :| 0 <= k <= |t| && InLang(q[1..], t[k..]); }
      assert (t + u)[k..] == t[k..] + u;
      AcceptsBoth(q[1..], r, t[k..], u);
      AcceptsStep(q + r, t + u, k);
    }
  }

  lemma {:induction false} RejectsBoth(q: seq<Atom>, r: seq<Atom>, s: Word)
    requires Plain(q) && r != [] && forall u: Word :: !Accepts(r, u)
    ensures !Accepts(q + r, s)
    decreases |q|
  {
    if q == [] {
      assert q + r == r;
    } else {
      assert (q + r)[1..] == q[1..] + r && !q[0].StarNot?;
      forall k | 0 <= k <= |s| ensures !Accepts(q[1..] + r, s[k..]) { RejectsBoth(q[1..], r, s[k..]); }
    }
  }

  /** A string of least length leaves no choice: the caret stands where the star takes nothing. */
  lemma {:induction false} CaretTight(q: seq<Atom>, r: seq<Atom>, s: Word)
    requires InLang(q + ([Star, One(94)] + r), s) && |s| == Fixed(q) + 1 + Fixed(r)
    ensures Trim(s[Fixed(q)]) == 94
    decreases |q|
  {
    var tail := [Star, One(94)] + r;
    var after := [One(94)] + r;
    var atoms := q + tail;
    assert tail[1..] == after && after[1..] == r;
    FixedAppend(q, tail);
    if q == [] {
      assert atoms == tail;
      var k :| 0 <= k <= |s| && InLang(after, s[k..]);
      LangLong(after, s[k..]);
      assert s[0..] == s;
    } else {
      assert atoms[1..] == q[1..] + tail;
      FixedAppend(q[1..], tail);
      if q[0].Star? {
        var k :| 0 <= k <= |s| && InLang(atoms[1..], s[k..]);
        LangLong(atoms[1..], s[k..]);
        assert s[k..] == s;
        CaretTight(q[1..], r, s);
      } else {
        LangLong(atoms[1..], s[1..]);
        CaretTight(q[1..], r, s[1..]);
      }
    }
  }

  lemma {:induction false} StarsRead(p: Word)
    requires AllStars(Atoms(p))
    ensures Reading(p) == Atoms(p)
    decreases |p|
  {
    if p != [] {
      var a := Atoms(p);
      assert a[0] in a && a[0].Star? && a == [a[0]] + a[1..];
      assert AllStars(a[1..]);
      if |p| > 1 { assert a[1] in a && a[1] == Atoms(p[1..])[0]; }
      StarsRead(p[1..]);
    }
  }

  lemma {:induction false} OneRead(p: Word)
    requires |Reading(p)| == 1 && !AnyStar(Reading(p)[0])
    ensures Atoms(p) == Reading(p)
  {
    var n := if p[0] == LBRK && BodyTo(p) < |p| then BodyTo(p) + 1 else 1;
    if p[0] != LBRK || BodyTo(p) < |p| {
      assert Reading(p) == [Reading(p)[0]] + Reading(p[n..]);
      assert Reading(p[n..]) == [];
      if p[n..] != [] { ReadingNonEmpty(p[n..]); }
    }
  }

  lemma {:induction false} AtomsPlain(p: Word)
    ensures Plain(Atoms(p))
    decreases |p|
  {
    if p != [] {
      if p[0] == LBRK && BodyTo(p) < |p| { AtomsPlain(p[BodyTo(p) + 1..]); }
      if p[0] != LBRK { AtomsPlain(p[1..]); }
    }
  }

  lemma {:induction false} HopefulPart(q: seq<Atom>, r: seq<Atom>)
    requires Hopeful(q + r)
    ensures Hopeful(q)
  {
    hide Takes;
    forall k | 0 <= k < |q| ensures AnyStar(q[k]) || exists c :: Takes(q[k], c) { assert (q + r)[k] == q[k]; }
  }

  /** Every single character accepted, but not every string: one atom that takes anything. */
  lemma {:induction false} OneLeft(atoms: seq<Atom>)
    requires EveryOne(atoms, true) && !AcceptsMore(atoms)
    ensures |atoms| == 1 && !AnyStar(atoms[0])
  {
    hide Takes;
  }

  lemma {:induction false} StarsEvery(atoms: seq<Atom>)
    requires AllStars(atoms) && atoms != []
    ensures EveryOne(atoms, true)
  {
    assert atoms[0] in atoms;
    if |atoms| > 1 { StarsEvery(atoms[1..]); }
  }

  /** A star-caret whose rest refuses some character: the code accepts a string that is too short for the
      language, or that has another character in place of the caret. */
  lemma {:induction false} CaretShort(q: seq<Atom>, r: Word, t: Word)
    requires Plain(q) && InLang(q, t) && |t| == Fixed(q) && !EveryOne(Reading(r), true)
    ensures !Agree(q + ([StarNot] + Reading(r)), q + ([Star, One(94)] + Atoms(r)))
  {
    hide InLang, Accepts, EveryOne, Reading, Atoms, Agree;
    var ra, la := Reading(r), Atoms(r);
    EveryOneMeans(ra, true);
    var x :| !Accepts(ra, [x]);
    if ra == [] { x := 1; Nothing(); }
    AcceptsOne([StarNot] + ra, x);
    assert ([StarNot] + ra)[1..] == ra;
    AcceptsBoth(q, [StarNot] + ra, t, [x]);
    var s, atoms := t + [x], q + ([Star, One(94)] + la);
    if InLang(atoms, s) {
      LangLong(atoms, s);
      CaretFixed(q, la);
      AtomsPlain(r);
      NoFixed(la);
      StarsRead(r);
      if ra != [] { StarsEvery(ra); }
      CaretTight(q, la, s);
    }
    Differ(q + ([StarNot] + ra), atoms, s);
  }

  lemma {:induction false} CaretFixed(q: seq<Atom>, la: seq<Atom>)
    ensures Fixed(q + ([Star, One(94)] + la)) == Fixed(q) + 1 + Fixed(la)
  {
    var tail := [Star, One(94)] + la;
    FixedAppend(q, tail);
    assert tail[1..] == [One(94)] + la && tail[1..][1..] == la;
  }

  lemma {:induction false} Differ(a: seq<Atom>, b: seq<Atom>, s: Word)
    requires Accepts(a, s) != InLang(b, s)
    ensures !Agree(a, b)
  {
  }

  /** A rest of one atom that takes anything: two characters, neither of them a caret. */
  lemma {:induction false} CaretLong(q: seq<Atom>, r: Word, t: Word)
    requires Plain(q) && InLang(q, t) && |t| == Fixed(q)
    requires |Reading(r)| == 1 && !AnyStar(Reading(r)[0])
    ensures !Agree(q + ([StarNot] + Reading(r)), q + ([Star, One(94)] + Atoms(r)))
  {
    hide InLang, Reading, Atoms, Agree, Takes;
    var ra, u: Word := Reading(r), [1, 1];
    var code := [StarNot] + ra;
    OneRead(r);
    assert u[1..] == [1] && ra[1..] == [] && code[1..] == ra && u[0..] == u;
    assert !Accepts(ra, u);
    assert Accepts(code, u);
    AcceptsBoth(q, code, t, u);
    var s, atoms := t + u, q + ([Star, One(94)] + ra);
    if InLang(atoms, s) {
      assert Fixed(ra) == 1;
      CaretTight(q, ra, s);
    }
    Differ(q + code, atoms, s);
  }

  /** The rest accepts every string: the code accepts none. */
  lemma {:induction false} CaretNone(q: seq<Atom>, r: Word, t: Word)
    requires Plain(q) && AcceptsMore(Reading(r)) && InLang(q + ([Star, One(94)] + Atoms(r)), t)
    ensures !Agree(q + ([StarNot] + Reading(r)), q + ([Star, One(94)] + Atoms(r)))
  {
    hide InLang, Reading, Atoms, Agree, AcceptsMore;
    var code := [StarNot] + Reading(r);
    AcceptsMoreMeans(Reading(r));
    forall u: Word ensures !Accepts(code, u) {
      StarUnfold(StarNot, Reading(r), u);
      forall k | 0 <= k < |u| ensures Accepts(Reading(r), u[k..]) { assert u[k..] != []; }
    }
    RejectsBoth(q, code, t);
    Differ(q + code, q + ([Star, One(94)] + Atoms(r)), t);
  }

  lemma {:induction false} CaretDisagrees(p: Word)
    requires !NoStarCaret(p) && Hopeful(Atoms(p))
    ensures !Agree(Reading(p), Atoms(p))
  {
    hide InLang, Reading, Atoms, Agree, AcceptsMore, EveryOne, Hopeful, NoStarCaret, Plain;
    var q, r := FirstStarCaret(p);
    HopefulPart(q, [Star, One(94)] + Atoms(r));
    var t := Witness(q);
    if !EveryOne(Reading(r), true) {
      CaretShort(q, r, t);
    } else if AcceptsMore(Reading(r)) {
      AtomsPlain(p);
      var all := Witness(Atoms(p));
      CaretNone(q, r, all);
    } else {
      OneLeft(Reading(r));
      CaretLong(q, r, t);
    }
  }

  /** When the answers are those of the language, for every pattern. */
  lemma {:induction false} AnswersAgree(p: Word)
    ensures Agree(Reading(p), Atoms(p)) <==>
            if Hopeful(Atoms(p)) then NoStarCaret(p) && !EndsTwoStars(Atoms(p))
            else RejectsMore(Reading(p)) && !Ends(Reading(p))
  {
    hide InLang, Accepts, Reading, Atoms, Hopeful, NoStarCaret, Plain, RejectsMore, Ends;
    var ra, la := Reading(p), Atoms(p);
    if Hopeful(la) {
      if NoStarCaret(p) {
        ReadAsMeant(p);
        StarsAtEnd(la);
      } else {
        CaretDisagrees(p);
      }
    } else {
      forall s: Word ensures !InLang(la, s) { HopelessLang(la, s); }
      RejectsMoreMeans(ra);
      AcceptsEmpty(ra);
      if RejectsMore(ra) && !Ends(ra) {
        forall s: Word ensures !Accepts(ra, s) { if s == [] { assert !Accepts(ra, []); } }
      } else if Ends(ra) {
        Differ(ra, la, []);
      }
    }
  }

  // ---------- and when there always is an answer ----------

  /** Whether every string, or every non-empty one if `more`, gets an answer. */
  ghost predicate Sound(atoms: seq<Atom>, more: bool)
  {
    atoms == [] ||
    (!atoms[0].Never? &&
     if AnyStar(atoms[0]) then Sound(atoms[1..], true)
     else (more || !Negated(atoms[0])) && (Sound(atoms[1..], false) || forall c :: !Takes(atoms[0], c)))
  }

  lemma {:induction false} SoundAnswers(atoms: seq<Atom>, more: bool, s: Word)
    requires Sound(atoms, more) && (more ==> s != [])
    ensures TroubleOf(atoms, s).None?
    decreases |atoms|, 0
  {
    hide Takes;
    if atoms != [] {
      if AnyStar(atoms[0]) {
        SoundSuffixes(atoms[1..], s, atoms[0].Star?);
      } else if s != [] && Takes(atoms[0], s[0]) {
        SoundAnswers(atoms[1..], false, s[1..]);
      }
    }
  }

  lemma {:induction false} SoundSuffixes(atoms: seq<Atom>, s: Word, want: bool)
    requires Sound(atoms, true)
    ensures SuffixTrouble(atoms, s, want).None?
    decreases |atoms|, 1, |s|
  {
    hide Sound, Accepts;
    if s != [] {
      SoundAnswers(atoms, true, s);
      SoundSuffixes(atoms, s[1..], want);
    }
  }

  /** A string without an answer. */
  lemma {:induction false} Stopped(atoms: seq<Atom>, more: bool) returns (s: Word)
    requires !Sound(atoms, more)
    ensures (more ==> s != []) && TroubleOf(atoms, s).Some?
    decreases |atoms|
  {
    hide Takes;
    if atoms[0].Never? {
      s := [1];
    } else if AnyStar(atoms[0]) {
      s := Stopped(atoms[1..], true);
    } else if !more && Negated(atoms[0]) {
      s := [];
    } else {
      var c :| Takes(atoms[0], c);
      var u := Stopped(atoms[1..], false);
      s := [c] + u;
      assert s[1..] == u;
    }
  }

  /** The class at k is open, or negated with no star before it, and what stands before it can be matched. */
  ghost predicate Stops(atoms: seq<Atom>, k: nat, more: bool)
    requires k < |atoms|
  {
    && Hopeful(atoms[..k])
    && (atoms[k].Never? || (Negated(atoms[k]) && if k == 0 then !more else !AnyStar(atoms[k - 1])))
  }

  lemma {:induction false} StopsLater(atoms: seq<Atom>, k: nat, more: bool)
    requires k + 1 < |atoms|
    ensures Stops(atoms, k + 1, more) <==>
            (AnyStar(atoms[0]) || exists c :: Takes(atoms[0], c)) && Stops(atoms[1..], k, AnyStar(atoms[0]))
  {
    hide Hopeful;
    assert atoms[1..][..k] == atoms[..k + 1][1..] && atoms[..k + 1][0] == atoms[0];
    HopefulHead(atoms[..k + 1]);
    assert k > 0 ==> atoms[1..][k - 1] == atoms[k];
  }

  lemma {:induction false} HopefulHead(atoms: seq<Atom>)
    requires atoms != []
    ensures Hopeful(atoms) <==> (AnyStar(atoms[0]) || exists c :: Takes(atoms[0], c)) && Hopeful(atoms[1..])
  {
    hide Takes;
    if (AnyStar(atoms[0]) || exists c :: Takes(atoms[0], c)) && Hopeful(atoms[1..]) {
      forall k | 0 <= k < |atoms| ensures AnyStar(atoms[k]) || exists c :: Takes(atoms[k], c) {
        if k > 0 { assert atoms[k] == atoms[1..][k - 1]; }
      }
    }
    if Hopeful(atoms) {
      assert AnyStar(atoms[0]) || exists c :: Takes(atoms[0], c);
      forall k | 0 <= k < |atoms[1..]| ensures AnyStar(atoms[1..][k]) || exists c :: Takes(atoms[1..][k], c) {
        assert atoms[1..][k] == atoms[k + 1];
      }
    }
  }

  lemma {:induction false} SoundStops(atoms: seq<Atom>, more: bool)
    ensures Sound(atoms, more) <==> forall k: nat | k < |atoms| :: !Stops(atoms, k, more)
    decreases |atoms|
  {
    if atoms != [] {
      hide Stops;
      var later := AnyStar(atoms[0]);
      SoundStops(atoms[1..], later);
      StopsFirst(atoms, more);
      forall k: nat | k + 1 < |atoms|
        ensures Stops(atoms, k + 1, more) <==>
                (later || exists c :: Takes(atoms[0], c)) && Stops(atoms[1..], k, later) { StopsLater(atoms, k, more); }
      if forall k: nat | k < |atoms| :: !Stops(atoms, k, more) {
        assert !Stops(atoms, 0, more);
        if later || exists c :: Takes(atoms[0], c) {
          forall k: nat | k < |atoms[1..]| ensures !Stops(atoms[1..], k, later) { assert !Stops(atoms, k + 1, more); }
        }
      } else {
        var k: nat :| k < |atoms| && Stops(atoms, k, more);
        if k > 0 { assert Stops(atoms[1..], k - 1, later); }
      }
    }
  }

  lemma {:induction false} StopsFirst(atoms: seq<Atom>, more: bool)
    requires atoms != []
    ensures Stops(atoms, 0, more) <==> atoms[0].Never? || (Negated(atoms[0]) && !more)
  {
  }

  ghost predicate Answers(atoms: seq<Atom>) { forall s: Word :: TroubleOf(atoms, s).None? }
  ghost predicate NeverStops(atoms: seq<Atom>) { forall k: nat | k < |atoms| :: !Stops(atoms, k, false) }

  /** For every pattern: all strings get an answer exactly when no open class, and no negated one without a
      star directly before it, stands behind a prefix that can be matched. */
  lemma {:induction false} AlwaysAnswers(atoms: seq<Atom>)
    ensures Answers(atoms) <==> NeverStops(atoms)
  {
    hide TroubleOf, Sound, Stops;
    SoundStops(atoms, false);
    if Sound(atoms, false) {
      forall s: Word ensures TroubleOf(atoms, s).None? { SoundAnswers(atoms, false, s); }
    } else {
      var s := Stopped(atoms, false);
    }
  }

  /** When every class takes some character, no prefix matters. */
  lemma {:induction false} HopefulStops(atoms: seq<Atom>)
    requires Hopeful(atoms)
    ensures NeverStops(atoms) <==> Guarded(atoms)
  {
    hide Hopeful, Stops;
    if Guarded(atoms) {
      forall k: nat | k < |atoms| ensures !Stops(atoms, k, false) { StopsHopeful(atoms, k); }
    } else {
      var k :| 0 <= k < |atoms| && Negated(atoms[k]) && !(k > 0 && AnyStar(atoms[k - 1]));
      StopsHopeful(atoms, k);
    }
  }

  lemma {:induction false} StopsHopeful(atoms: seq<Atom>, k: nat)
    requires Hopeful(atoms) && k < |atoms|
    ensures Stops(atoms, k, false) <==> Negated(atoms[k]) && (k == 0 || !AnyStar(atoms[k - 1]))
  {
    assert atoms == atoms[..k] + atoms[k..];
    HopefulPart(atoms[..k], atoms[k..]);
    HopefulClosed(atoms, atoms[k]);
  }

  lemma {:induction false} HopefulClosed(atoms: seq<Atom>, a: Atom)
    requires Hopeful(atoms) && a in atoms
    ensures !a.Never?
  {
    var k :| 0 <= k < |atoms| && atoms[k] == a;
    assert AnyStar(atoms[k]) || exists c :: Takes(atoms[k], c);
  }

  ghost predicate Decides(p: Word) { forall s: Word :: PMatch(s, p) == Ok(InLang(Atoms(p), s)) }

  /** pmatch decides the language on every string exactly when it always answers and its answers agree. When
      every class takes some character: when no star is followed by a caret, no two stars end the pattern,
      and a star stands directly before every negated class. */
  lemma {:induction false} MatchesLanguage(p: Word)
    requires Final(p)
    ensures Decides(p) <==>
            NeverStops(Reading(p)) &&
            if Hopeful(Atoms(p)) then NoStarCaret(p) && !EndsTwoStars(Atoms(p))
            else RejectsMore(Reading(p)) && !Ends(Reading(p))
    ensures Hopeful(Atoms(p)) ==>
            (Decides(p) <==> NoStarCaret(p) && !EndsTwoStars(Atoms(p)) && Guarded(Atoms(p)))
  {
    hide InLang, Accepts, TroubleOf, PMatch, Reading, Atoms, Hopeful, NoStarCaret, Plain, Guarded, EndsTwoStars;
    hide RejectsMore, Ends, NeverStops;
    var ra, la := Reading(p), Atoms(p);
    forall s: Word
      ensures PMatch(s, p) == Ok(InLang(la, s)) <==>
              TroubleOf(ra, s).None? && (Accepts(ra, s) <==> InLang(la, s)) { PMatchLaw(s, p); }
    assert Decides(p) ==> Answers(ra) && Agree(ra, la);
    assert Answers(ra) && Agree(ra, la) ==> Decides(p);
    AnswersAgree(p);
    AlwaysAnswers(ra);
    if NoStarCaret(p) {
      ReadAsMeant(p);
      if Hopeful(la) { HopefulStops(la); }
    }
  }

  // ---------- Gmatch ----------

  /** Gmatch decides the language of its expansions on every string that none of them fails on. */
  lemma {:induction false} GMatchIsLanguage(s: Word, p: Word, neg: bool, vs: seq<Word>)
    requires Expand(p) == Ok(vs) && (neg || p == [] || p[0] != CARET)
    requires forall v | v in vs :: NoStarCaret(v) && TroubleOf(Atoms(v), s).None?
    ensures GMatch(s, if neg then [CARET] + p else p) ==
            Ok((exists v | v in vs :: InLang(Strict(Atoms(v)), s)) != neg)
  {
    hide InLang, Accepts, TroubleOf, Reading, Atoms, NoStarCaret, Plain, Strict, GMatch, Expand;
    GMatchLaw(s, if neg then [CARET] + p else p);
    assert neg ==> ([CARET] + p)[1..] == p;
    forall v | v in vs
      ensures TroubleOf(Reading(v), s).None? && (Accepts(Reading(v), s) <==> InLang(Strict(Atoms(v)), s)) {
      ReadAsMeant(v);
      AcceptsStrict(Atoms(v), s);
    }
    NoTrouble(vs, s);
  }

  lemma {:induction false} NoTrouble(vs: seq<Word>, s: Word)
    ensures FirstTrouble(vs, s).None? <==> forall v | v in vs :: TroubleOf(Reading(v), s).None?
  {
    hide TroubleOf, Reading;
    if vs != [] {
      NoTrouble(vs[1..], s);
      assert vs[0] in vs && (forall v | v in vs :: v == vs[0] || v in vs[1..]) && forall v | v in vs[1..] :: v in vs;
    }
  }

  ghost predicate AllAnswer(p: Word) { forall s: Word :: GMatch(s, p).Ok? }

  lemma {:induction false} NotAll(p: Word, s: Word)
    requires !GMatch(s, p).Ok?
    ensures !AllAnswer(p)
  {
  }

  lemma {:induction false} DecidesAnswers(p: Word, neg: bool, vs: seq<Word>)
    requires DecidesStrict(p, neg, vs) || DecidesLang(p, neg, vs)
    ensures AllAnswer(if neg then [CARET] + p else p)
  {
    var w := if neg then [CARET] + p else p;
    forall s: Word ensures GMatch(s, w).Ok? {
      if DecidesStrict(p, neg, vs) {
        assert GMatch(s, w) == Ok(AnyStrict(vs, s) != neg);
      } else {
        assert GMatch(s, w) == Ok(AnyLang(vs, s) != neg);
      }
    }
  }

  /** No expansion stops. */
  ghost predicate Steady(vs: seq<Word>) { forall v | v in vs :: NeverStops(Reading(v)) }

  function Braced(p: Word): Word { if p != [] && p[0] == CARET then p[1..] else p }

  /** Gmatch answers on every string exactly when the braces are closed and each expansion always answers. */
  lemma {:induction false} GMatchAnswers(p: Word)
    ensures AllAnswer(p) <==> Expand(Braced(p)).Ok? && Steady(Expand(Braced(p)).value)
  {
    hide TroubleOf, Accepts, NeverStops, FirstTrouble;
    GMatchLaw([], p);
    if Expand(Braced(p)).Ok? {
      var vs := Expand(Braced(p)).value;
      if Steady(vs) {
        forall s: Word ensures GMatch(s, p).Ok? { SteadyAnswers(p, vs, s); }
      } else {
        var v :| v in vs && !NeverStops(Reading(v));
        StoppedAnswers(p, vs, v);
      }
    } else {
      NotAll(p, []);
    }
  }

  lemma {:induction false} SteadyAnswers(p: Word, vs: seq<Word>, s: Word)
    requires Expand(Braced(p)) == Ok(vs) && Steady(vs)
    ensures GMatch(s, p).Ok?
  {
    hide TroubleOf, Accepts, NeverStops, FirstTrouble;
    forall v | v in vs ensures TroubleOf(Reading(v), s).None? { AlwaysAnswers(Reading(v)); }
    NoTrouble(vs, s);
    GMatchLaw(s, p);
  }

  lemma {:induction false} StoppedAnswers(p: Word, vs: seq<Word>, v: Word)
    requires Expand(Braced(p)) == Ok(vs) && v in vs && !NeverStops(Reading(v))
    ensures !AllAnswer(p)
  {
    hide TroubleOf, Accepts, NeverStops, FirstTrouble;
    AlwaysAnswers(Reading(v));
    var s: Word :| TroubleOf(Reading(v), s).Some?;
    NoTrouble(vs, s);
    GMatchLaw(s, p);
    NotAll(p, s);
  }

  ghost predicate AnyStrict(vs: seq<Word>, s: Word) { exists v | v in vs :: InLang(Strict(Atoms(v)), s) }
  ghost predicate AnyLang(vs: seq<Word>, s: Word) { exists v | v in vs :: InLang(Atoms(v), s) }

  /** Gmatch gives the answers of these languages, inverted by neg. */
  ghost predicate DecidesStrict(p: Word, neg: bool, vs: seq<Word>)
  {
    forall s: Word :: GMatch(s, if neg then [CARET] + p else p) == Ok(AnyStrict(vs, s) != neg)
  }

  ghost predicate DecidesLang(p: Word, neg: bool, vs: seq<Word>)
  {
    forall s: Word :: GMatch(s, if neg then [CARET] + p else p) == Ok(AnyLang(vs, s) != neg)
  }

  /** Without star-carets, Gmatch gives the answers of the strict languages on every string exactly when no
      open class, and no negated one without a star directly before it, can be reached in an expansion. */
  lemma {:induction false} GMatchDecides(p: Word, neg: bool, vs: seq<Word>)
    requires Expand(p) == Ok(vs) && (neg || p == [] || p[0] != CARET) && forall v | v in vs :: NoStarCaret(v)
    ensures DecidesStrict(p, neg, vs) <==> Steady(vs)
  {
    hide InLang, TroubleOf, NoStarCaret, Strict, NeverStops;
    var w := if neg then [CARET] + p else p;
    assert Braced(w) == p;
    GMatchAnswers(w);
    if Steady(vs) {
      forall s: Word ensures GMatch(s, w) == Ok(AnyStrict(vs, s) != neg) {
        forall v | v in vs ensures TroubleOf(Atoms(v), s).None? { ReadAsMeant(v); AlwaysAnswers(Atoms(v)); }
        GMatchIsLanguage(s, p, neg, vs);
      }
    } else if DecidesStrict(p, neg, vs) {
      DecidesAnswers(p, neg, vs);
    }
  }

  /** What is left of a pattern without its last stars. */
  function Core(atoms: seq<Atom>): seq<Atom>
  {
    if AllStars(atoms) then [] else [atoms[0]] + Core(atoms[1..])
  }

  lemma {:induction false} StarsTakeAny(atoms: seq<Atom>, s: Word)
    requires AllStars(atoms) && atoms != []
    ensures InLang(atoms, s)
    decreases |atoms|
  {
    assert atoms[0] in atoms;
    if |atoms| == 1 {
      assert InLang(atoms[1..], s[|s|..]);
    } else {
      StarsTakeAny(atoms[1..], s[0..]);
    }
  }

  /** Two stars at the end lose only strings that the rest of the pattern matches by itself. */
  lemma {:induction false} TwoStarsLose(atoms: seq<Atom>, s: Word)
    requires Plain(atoms) && EndsTwoStars(atoms)
    ensures InLang(atoms, s) <==> InLang(Strict(atoms), s) || InLang(Core(atoms), s)
    decreases |atoms|
  {
    if AllStars(atoms) {
      StarsTakeAll(s);
      StarsTakeAny(atoms, s);
    } else {
      var st, co, rest := Strict(atoms), Core(atoms), atoms[1..];
      assert st[0] == co[0] == atoms[0] && st[1..] == Strict(rest) && co[1..] == Core(rest);
      assert |atoms| > 2;
      forall k | 0 <= k <= |s|
        ensures InLang(rest, s[k..]) <==> InLang(Strict(rest), s[k..]) || InLang(Core(rest), s[k..]) {
        TwoStarsLose(rest, s[k..]);
      }
    }
  }

  /** Every string of a is in the strict language of some expansion. */
  ghost predicate Covered(a: seq<Atom>, vs: seq<Word>) { forall s: Word | InLang(a, s) :: AnyStrict(vs, s) }

  ghost predicate AllCovered(vs: seq<Word>)
  {
    forall v | v in vs && EndsTwoStars(Atoms(v)) :: Covered(Core(Atoms(v)), vs)
  }

  lemma {:induction false} StrictOrLost(vs: seq<Word>, s: Word)
    requires forall v | v in vs :: NoStarCaret(v)
    ensures AnyLang(vs, s) <==>
            AnyStrict(vs, s) || exists v | v in vs && EndsTwoStars(Atoms(v)) :: InLang(Core(Atoms(v)), s)
  {
    hide InLang, Atoms, NoStarCaret, Strict, Core, EndsTwoStars, Plain;
    forall v | v in vs
      ensures InLang(Atoms(v), s) <==>
              InLang(Strict(Atoms(v)), s) || (EndsTwoStars(Atoms(v)) && InLang(Core(Atoms(v)), s)) {
      ReadAsMeant(v);
      if EndsTwoStars(Atoms(v)) { TwoStarsLose(Atoms(v), s); } else { StrictSame(Atoms(v)); }
    }
  }

  /** Without star-carets, Gmatch decides the language of the expansions on every string exactly when it
      always answers and whatever an expansion with two stars at its end may lose, some expansion accepts. */
  lemma {:induction false} GMatchesLanguage(p: Word, neg: bool, vs: seq<Word>)
    requires Expand(p) == Ok(vs) && (neg || p == [] || p[0] != CARET) && forall v | v in vs :: NoStarCaret(v)
    ensures DecidesLang(p, neg, vs) <==> Steady(vs) && AllCovered(vs)
  {
    hide AnyStrict, AnyLang, NoStarCaret, NeverStops, EndsTwoStars, Core, InLang;
    GMatchDecides(p, neg, vs);
    var w := if neg then [CARET] + p else p;
    assert Braced(w) == p;
    forall s: Word
      ensures AnyLang(vs, s) <==>
              AnyStrict(vs, s) || exists v | v in vs && EndsTwoStars(Atoms(v)) :: InLang(Core(Atoms(v)), s) {
      StrictOrLost(vs, s);
    }
    if Steady(vs) {
      assert forall s: Word :: GMatch(s, w) == Ok(AnyStrict(vs, s) != neg);
      if AllCovered(vs) {
        forall s: Word ensures AnyLang(vs, s) == AnyStrict(vs, s) { }
      } else {
        var v :| v in vs && EndsTwoStars(Atoms(v)) && !Covered(Core(Atoms(v)), vs);
        var s: Word :| InLang(Core(Atoms(v)), s) && !AnyStrict(vs, s);
        assert AnyLang(vs, s);
        assert GMatch(s, w) != Ok(AnyLang(vs, s) != neg);
      }
    } else if DecidesLang(p, neg, vs) {
      DecidesAnswers(p, neg, vs);
      GMatchAnswers(w);
    }
  }

  // ---------- where the plain reading fails ----------

  /** a** does not match a. */
  lemma {:induction false} TwoStarsFail()
    ensures GMatch([97], [97, STAR, STAR]) == Ok(false) && InLang(Atoms([97, STAR, STAR]), [97])
  {
    var p, q, t, s, e: Word := [97, STAR, STAR], [STAR, STAR], [STAR], [97], [];
    assert p[1..] == q && q[1..] == t && t[1..] == [] && s[1..] == e && e[0..] == e;
    GMatchFinal(s, p);
    assert TrySuffixes([], t) == Ok(false);
    assert PMatch([], q) == Ok(false);
    assert Atoms(t) == [Star] + [] == [Star];
    assert Atoms(q) == [Star] + [Star];
    assert Atoms(p) == [One(97)] + Atoms(q);
    StarsTakeAll([]);
    assert ([Star] + [Star])[1..] == [Star] && Atoms(p)[1..] == Atoms(q);
    assert InLang([Star] + [Star], e);
  }

  /** *^a matches b: what follows the star is read as a negated pattern. */
  lemma {:induction false} StarCaretNegates()
    ensures GMatch([98], [STAR, CARET, 97]) == Ok(true) && !InLang(Atoms([STAR, CARET, 97]), [98])
  {
    var p, q, r, s: Word := [STAR, CARET, 97], [CARET, 97], [97], [98];
    assert p[1..] == q == [CARET] + r && q[1..] == r && r[1..] == [] && s[1..] == [];
    GMatchFinal(s, p);
    GMatchCaret(s, r);
    assert PMatch(s, r) == Ok(false);
    assert TrySuffixes(s, q) == Ok(true);
    assert Atoms(r) == [One(97)] + [] && Atoms(q) == [One(94)] + [One(97)] && Atoms(p) == [Star] + Atoms(q);
    assert Atoms(p)[1..] == Atoms(q);
    forall k | 0 <= k <= 1 ensures !InLang(Atoms(q), s[k..]) { }
  }

  /** A negated class takes the end of the string for a character; behind a star it never sees it. */
  lemma {:induction false} NegatedClassOverruns(s: Word)
    ensures PMatch([], [LBRK, CARET, 97, RBRK]) == Err(Overrun)
    ensures PMatch(s, [STAR, LBRK, CARET, 97, RBRK]).Ok?
  {
    var p: Word := [LBRK, CARET, 97, RBRK];
    var q, a := [STAR] + p, Among(true, [97], CARET);
    NotAReads(p, a);
    hide Reading, PMatch;
    assert q == [STAR, LBRK, CARET, 97, RBRK];
    PMatchLaw(s, q);
    PMatchLaw([], p);
    GuardedAnswers([Star] + [a], s);
    LawHead(a, [], []);
    assert [a] + [] == [a];
  }

  lemma {:induction false} NotAReads(p: Word, a: Atom)
    requires p == [LBRK, CARET, 97, RBRK] && a == Among(true, [97], CARET)
    ensures Reading(p) == [a] && Reading([STAR] + p) == [Star] + [a]
  {
    assert ([STAR] + p)[1..] == p && p[2..3] == [97] && p[4..] == [];
    assert Find(p, 2, RBRK) == Find(p, 3, RBRK) == 3;
    assert Reading(p) == [a] + Reading([]);
  }
}
