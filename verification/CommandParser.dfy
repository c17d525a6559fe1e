/**
 * The recursive-descent parser of bin/csh/parse.c in its own form: every level scans a token
 * range with a loop and recurses on subranges of the same token list. The words of a simple
 * command go into an array sized by a first counting pass.
 */
module CommandParser {
  import opened Wrappers
  import opened CommandSyntax

  /** The word at position j, or the list header. */
  function Next(ws: seq<Token>, j: nat): char
  {
    if j < |ws| then C0(ws[j]) else NUL
  }

  // ---------- the counting pass of syn3 ----------

  /** What one word adds to the count; `follows` says that a word that can be a file name comes next. */
  function CountOne(toks: seq<Token>, p: nat, l: int, special: bool): int
    requires p < |toks|
  {
    var c := C0(toks[p]);
    if c == '(' || c == ')' then (if special then 1 else 0)
    else if c == '>' || c == '<' then
      if l != 0 then (if special then 1 else 0)
      else if p + 1 == |toks| || RelPar(toks[p + 1]) then 0
      else -1
    else if !special && l != 0 then 0
    else 1
  }

  function CountFrom(toks: seq<Token>, p: nat, l: int, special: bool): int
    requires p <= |toks|
    decreases |toks| - p
  {
    if p == |toks| then 0
    else CountOne(toks, p, l, special) + CountFrom(toks, p + 1, ParenStep(toks[p], l), special)
  }

  /** A redirection at depth 0 whose file name the count already took off. */
  predicate Owes(toks: seq<Token>, p: nat, l: int)
    requires p <= |toks|
  {
    0 < p < |toks| && l == 0 && (C0(toks[p - 1]) == '>' || C0(toks[p - 1]) == '<') && !RelPar(toks[p])
  }

  /** The count over any rest of a range is not negative; it covers a file name that is still owed. */
  lemma {:induction false} CountNotNegative(toks: seq<Token>, p: nat, l: int, special: bool)
    requires p <= |toks|
    ensures CountFrom(toks, p, l, special) >= if Owes(toks, p, l) then 1 else 0
    decreases |toks| - p
  {
    if p < |toks| {
      CountNotNegative(toks, p + 1, ParenStep(toks[p], l), special);
    }
  }

  /**
   * The words kept so far fit the count: as long as no error was reported, the gathering loop is at
   * the same depth as the counting loop was, and the rest of the count plus the words already kept
   * never exceeds the total.
   */
  lemma {:induction false} KeptFits(toks: seq<Token>, p: nat, m: Mode, special: bool, g: Gather)
    requires p <= |toks| && g.err.None?
    ensures |GatherAll(toks, p, m, special, g).words| <= |g.words| + CountFrom(toks, p, g.l, special)
    decreases |toks| - p
  {
    hide RelPar, GatherOne;
    if p < |toks| {
      var (q, g') := GatherOne(toks, p, m, special, g);
      CountNotNegative(toks, p, g.l, special);
      if g'.err.None? {
        StepFits(toks, p, m, special, g);
        KeptFits(toks, q + 1, m, special, g');
      } else {
        assert |g'.words| == |g.words| by { StepError(toks, p, m, special, g); }
        NoMoreWords(toks, q + 1, m, special, g');
      }
    }
  }

  lemma {:induction false} StepError(toks: seq<Token>, p: nat, m: Mode, special: bool, g: Gather)
    requires p < |toks| && g.err.None? && GatherOne(toks, p, m, special, g).1.err.Some?
    ensures |GatherOne(toks, p, m, special, g).1.words| == |g.words|
  {
  }

  /** Once an error is set, no word is kept any more. */
  lemma {:induction false} NoMoreWords(toks: seq<Token>, p: nat, m: Mode, special: bool, g: Gather)
    requires p <= |toks| && g.err.Some?
    ensures GatherAll(toks, p, m, special, g).words == g.words && GatherAll(toks, p, m, special, g).err == g.err
    decreases |toks| - p
  {
    hide GatherOne;
    if p < |toks| {
      var (q, g') := GatherOne(toks, p, m, special, g);
      NoMoreWords(toks, q + 1, m, special, g');
    }
  }

  /** The count over a redirection at depth 0 and the words it uses up is not negative. */
  lemma {:induction false} RedirectFits(toks: seq<Token>, p: nat, q: nat, special: bool)
    requires p < q < |toks| && (C0(toks[p]) == '>' || C0(toks[p]) == '<')
    requires forall k | p < k <= q :: !RelPar(toks[k])
    ensures CountFrom(toks, q + 1, 0, special) <= CountFrom(toks, p, 0, special)
  {
    PlainRun(toks, p + 1, q + 1, special);
    assert !RelPar(toks[p + 1]);
  }

  lemma {:induction false} PlainRun(toks: seq<Token>, p: nat, q: nat, special: bool)
    requires p <= q <= |toks| && forall k | p <= k < q :: !RelPar(toks[k])
    ensures CountFrom(toks, p, 0, special) == (q - p) + CountFrom(toks, q, 0, special)
    decreases q - p
  {
    if p < q {
      assert !RelPar(toks[p]);
      PlainRun(toks, p + 1, q, special);
    }
  }

  lemma {:induction false} OutSpan(toks: seq<Token>, p: nat, m: Mode, g: Gather)
    requires p < |toks| && g.err.None? && GatherOut(toks, p, m, g).1.err.None?
    ensures var q := GatherOut(toks, p, m, g).0;
            p < q && forall k | p < k <= q :: !RelPar(toks[k])
  {
  }

  lemma {:induction false} StepFits(toks: seq<Token>, p: nat, m: Mode, special: bool, g: Gather)
    requires p < |toks| && g.err.None? && GatherOne(toks, p, m, special, g).1.err.None?
    ensures var (q, g') := GatherOne(toks, p, m, special, g);
            |g'.words| + CountFrom(toks, q + 1, g'.l, special) <= |g.words| + CountFrom(toks, p, g.l, special)
  {
    hide GatherOut, RelPar;
    var (q, g') := GatherOne(toks, p, m, special, g);
    if C0(toks[p]) == '>' && g.l == 0 {
      OutSpan(toks, p, m, g);
      RedirectFits(toks, p, q, special);
    } else if C0(toks[p]) == '<' && g.l == 0 {
      RedirectFits(toks, p, q, special);
    }
  }

  // ---------- the parser ----------

  /** syntax */
  method ParseSyntax(ws: seq<Token>, i: nat, j: nat, m: Mode, err0: Option<Error>)
    returns (t: Option<Command>, err: Option<Error>)
    requires i <= j <= |ws|
    ensures Parsed(t, err) == Syntax(ws[i..j], Next(ws, j), m, err0)
    decreases |Trim(ws[i..j])|, 7
  {
    var p1 := i;
    while p1 != j && IsSep(ws[p1])
      invariant i <= p1 <= j && Trim(ws[i..j]) == Trim(ws[p1..j])
    {
      assert ws[p1..j][1..] == ws[p1 + 1..j];
      p1 := p1 + 1;
    }
    if p1 == j {
      return None, err0;
    }
    t, err := ParseSyn0(ws, p1, j, m, err0);
  }

  /** The loop of syn0: the first & outside parentheses, or the depth at the end. */
  method FindAmp(ws: seq<Token>, i: nat, j: nat, err0: Option<Error>) returns (p: nat, l: int, err: Option<Error>)
    requires i <= j <= |ws|
    ensures i <= p <= j
    ensures ScanAmp(ws[i..j], 0, Depth(0, false), err0) == if p == j then Over(l, err) else Hit(p - i, err)
  {
    ghost var toks := ws[i..j];
    ghost var scan := ScanAmp(toks, 0, Depth(0, false), err0);
    l, p, err := 0, i, err0;
    while p != j
      invariant i <= p <= j && scan == ScanAmp(toks, p - i, Depth(l, false), err)
      decreases j - p
    {
      assert toks[p - i] == ws[p] && (p + 1 != j ==> toks[p + 1 - i] == ws[p + 1]);
      var c := C0(ws[p]);
      if c == '(' {
        l := l + 1;
      } else if c == ')' {
        l := l - 1;
        if l < 0 { err := Report(err, TooManyRp); }
      } else if c == '>' || (c == '|' && C1(ws[p]) != '|') {
        SkipAmp(toks, p + 1 - i, l, err);
        if p + 1 != j && ws[p + 1] == "&" {
          p := p + 1;
        }
      } else if c == '&' && l == 0 && C1(ws[p]) != '&' {
        return;
      }
      p := p + 1;
    }
  }

  method ParseSyn0(ws: seq<Token>, i: nat, j: nat, m: Mode, err0: Option<Error>)
    returns (t: Option<Command>, err: Option<Error>)
    requires i <= j <= |ws|
    ensures Parsed(t, err) == Syn0(ws[i..j], Next(ws, j), m, err0)
    decreases j - i, 6
  {
    var p, l;
    p, l, err := FindAmp(ws, i, j, err0);
    var a, rest;
    if p != j {
      assert ws[i..j][..p - i] == ws[i..p] && ws[i..j][p - i..] == ws[p..j] && ws[i..j][p - i] == ws[p];
      a, err := ParseSyn1(ws, i, p, m, err);
      assert |Trim(ws[p..j])| < |ws[p..j]|;
      rest, err := ParseSyntax(ws, p, j, m, err);
      t := Some(List(Some(Background(a)), rest, {}));
    } else if l == 0 {
      a, err := ParseSyn1(ws, i, j, m, err);
      t := Some(a);
    } else {
      t, err := None, Report(err, TooManyLp);
    }
  }

  /** Looking ahead past an & and remembering to skip it are the same. */
  lemma {:induction false} SkipAmp(toks: seq<Token>, p: nat, l: int, err: Option<Error>)
    requires p <= |toks|
    ensures ScanAmp(toks, p, Depth(l, true), err) ==
            if p < |toks| && toks[p] == "&" then ScanAmp(toks, p + 1, Depth(l, false), err)
            else ScanAmp(toks, p, Depth(l, false), err)
  {
  }

  /** The loop shared by syn1, syn1a, syn1b and syn2. */
  method FindOp(op: Op, ws: seq<Token>, i: nat, j: nat) returns (p: nat)
    requires i <= j <= |ws|
    ensures i <= p <= j
    ensures Scan(op, ws[i..j], 0, 0) == if p == j then None else Some(p - i)
  {
    ghost var toks := ws[i..j];
    var l := 0;
    p := i;
    while p != j
      invariant i <= p <= j && Scan(op, toks, 0, 0) == Scan(op, toks, p - i, l)
      decreases j - p
    {
      assert toks[p - i] == ws[p];
      if C0(ws[p]) == '(' {
        l := l + 1;
      } else if C0(ws[p]) == ')' {
        l := l - 1;
      } else if OpHere(op, ws[p]) && l == 0 {
        return;
      }
      p := p + 1;
    }
  }

  /** The two sides of the word at p. */
  lemma {:induction false} PartedAt(ws: seq<Token>, i: nat, p: nat, j: nat)
    requires i <= p < j <= |ws|
    ensures ws[i..j][p - i] == ws[p] && ws[i..j][..p - i] == ws[i..p] && ws[i..j][p - i + 1..] == ws[p + 1..j]
  {
    SliceOfSlice(ws, i, j, 0, p - i);
    SliceOfSlice(ws, i, j, p - i + 1, j - i);
    var r := ws[i..j];
    assert r[..p - i] == r[0..p - i] && r[p - i + 1..] == r[p - i + 1..j - i];
  }

  method ParseSyn1(ws: seq<Token>, i: nat, j: nat, m: Mode, err0: Option<Error>)
    returns (t: Command, err: Option<Error>)
    requires i <= j <= |ws|
    ensures Node(t, err) == Syn1(ws[i..j], Next(ws, j), m, err0)
    decreases j - i, 5
  {
    hide Scan, Syn1a, Syntax;
    var p := FindOp(OpSemi, ws, i, j);
    if p == j {
      t, err := ParseSyn1a(ws, i, j, m, err0);
      return;
    }
    PartedAt(ws, i, p, j);
    var a, rest;
    a, err := ParseSyn1a(ws, i, p, m, err0);
    rest, err := ParseSyntax(ws, p + 1, j, m, err);
    if rest.None? {
      t := List(None, Some(a), {});
    } else {
      t := List(Some(a), rest, {});
    }
  }

  method ParseSyn1a(ws: seq<Token>, i: nat, j: nat, m: Mode, err0: Option<Error>)
    returns (t: Command, err: Option<Error>)
    requires i <= j <= |ws|
    ensures Node(t, err) == Syn1a(ws[i..j], Next(ws, j), m, err0)
    decreases j - i, 4
  {
    hide Scan, Syn1b;
    var p := FindOp(OpOr, ws, i, j);
    if p == j {
      t, err := ParseSyn1b(ws, i, j, m, err0);
      return;
    }
    PartedAt(ws, i, p, j);
    var a, b;
    a, err := ParseSyn1b(ws, i, p, m, err0);
    b, err := ParseSyn1a(ws, p + 1, j, m, err);
    t := Or(a, b, {});
  }

  method ParseSyn1b(ws: seq<Token>, i: nat, j: nat, m: Mode, err0: Option<Error>)
    returns (t: Command, err: Option<Error>)
    requires i <= j <= |ws|
    ensures Node(t, err) == Syn1b(ws[i..j], Next(ws, j), m, err0)
    decreases j - i, 3
  {
    hide Scan, Syn2;
    var p := FindOp(OpAnd, ws, i, j);
    if p == j {
      t, err := ParseSyn2(ws, i, j, m, err0);
      return;
    }
    PartedAt(ws, i, p, j);
    var a, b;
    a, err := ParseSyn2(ws, i, p, m, err0);
    b, err := ParseSyn1b(ws, p + 1, j, m, err);
    t := And(a, b, {});
  }

  method ParseSyn2(ws: seq<Token>, i: nat, j: nat, m: Mode, err0: Option<Error>)
    returns (t: Command, err: Option<Error>)
    requires i <= j <= |ws|
    ensures Node(t, err) == Syn2(ws[i..j], Next(ws, j), m, err0)
    decreases j - i, 2
  {
    hide Scan, Syn3;
    var p := FindOp(OpPipe, ws, i, j);
    if p == j {
      t, err := ParseSyn3(ws, i, j, m, err0);
      return;
    }
    var pn := p + 1;
    var both := pn != j && C0(ws[pn]) == '&';
    PartedAt(ws, i, p, j);
    if pn != j { PartedAt(ws, i, pn, j); }
    var a, b;
    a, err := ParseSyn3(ws, i, p, m.(pout := true, perr := m.perr || both), err0);
    if both { pn := pn + 1; }
    b, err := ParseSyn2(ws, pn, j, m.(pin := true), err);
    t := Pipe(a, b, if both then {Stderr} else {});
  }

  /** The head of syn3: whether parentheses are arguments of this command. */
  method IsSpecial(ws: seq<Token>, i: nat, j: nat) returns (special: bool)
    requires i <= j <= |ws|
    ensures special == Special(ws[i..j])
  {
    var p := i;
    while p != j && ws[p] == "else"
      invariant i <= p <= j && Special(ws[i..j]) == Special(ws[p..j])
    {
      assert ws[p..j][1..] == ws[p + 1..j];
      p := p + 1;
    }
    special := p != j && Keyword(ws[p]);
  }

  /** The counting loop of syn3. */
  method CountWords(ws: seq<Token>, i: nat, j: nat, special: bool) returns (n: nat)
    requires i <= j <= |ws|
    ensures n == CountFrom(ws[i..j], 0, 0, special)
  {
    ghost var toks := ws[i..j];
    var k, l, p := 0, 0, i;
    while p != j
      invariant i <= p <= j
      invariant k + CountFrom(toks, p - i, l, special) == CountFrom(toks, 0, 0, special)
      decreases j - p
    {
      assert toks[p - i] == ws[p] && (p + 1 != j ==> toks[p + 1 - i] == ws[p + 1]);
      var c := C0(ws[p]);
      if c == '(' {
        if special { k := k + 1; }
        l := l + 1;
      } else if c == ')' {
        if special { k := k + 1; }
        l := l - 1;
      } else if c == '>' || c == '<' {
        if l != 0 {
          if special { k := k + 1; }
        } else if p + 1 != j && !RelPar(ws[p + 1]) {
          k := k - 1;
        }
      } else if special || l == 0 {
        k := k + 1;
      }
      p := p + 1;
    }
    CountNotNegative(toks, 0, 0, special);
    n := k;
  }

  /** The node syn3 fills in, with the locals of its second loop. */
  class Builder {
    const av: array<Token>
    var n: nat          // words met
    var kept: nat       // words stored
    var l: int
    var lp: Option<nat>
    var rp: Option<nat>
    var flags: set<Flag>
    var lef: Option<Token>
    var rit: Option<Token>
    var err: Option<Error>

    ghost predicate Valid() reads this { kept < av.Length && (err.None? ==> n == kept) }

    function View(): Gather
      requires kept <= av.Length
      reads this, av
    {
      Gather(l, lp, rp, av[..kept], n, flags, lef, rit, err)
    }

    constructor (size: nat, nxt: char, err: Option<Error>)
      ensures Valid() && fresh(av) && av.Length == size + 1 && View() == Fresh(nxt, err)
    {
      av := new Token[size + 1](_ => "");
      n, kept, l, lp, rp := 0, 0, 0, None, None;
      flags := if nxt == ')' then {NoFork} else {};
      lef, rit := None, None;
      this.err := err;
    }

    method Complain(e: Error)
      requires Valid()
      modifies this`err
      ensures Valid() && err == Report(old(err), e)
    {
      if err.None? { err := Some(e); }
    }

    /** The end of the '>' case: an optional ! and the file name. */
    method RedirectFile(ws: seq<Token>, i: nat, j: nat, p0: nat, m: Mode) returns (p: nat)
      requires Valid() && i <= p0 < j <= |ws|
      modifies this`flags, this`rit, this`err
      ensures p0 <= p < j && Valid()
      ensures GatherFile(ws[i..j], p0 - i, m, old(View())) == (p - i, View())
    {
      ghost var toks := ws[i..j];
      assert forall k | p0 <= k < j :: toks[k - i] == ws[k];
      p := p0;
      if p + 1 != j && ws[p + 1] == "!" {
        flags := flags + {Overwrite};
        p := p + 1;
      }
      if p + 1 == j {
        Complain(MisRed);
        return;
      }
      p := p + 1;
      if RelPar(ws[p]) {
        Complain(MisRed);
      } else if m.pout && (!m.perr || rit.Some?) {
        Complain(OutRed);
      } else {
        rit := Some(ws[p]);
      }
    }

    /** The '>' case. */
    method RedirectOut(ws: seq<Token>, i: nat, j: nat, p0: nat, m: Mode) returns (p: nat)
      requires Valid() && i <= p0 < j <= |ws|
      modifies this`flags, this`rit, this`err
      ensures p0 <= p < j && Valid()
      ensures GatherOut(ws[i..j], p0 - i, m, old(View())) == (p - i, View())
    {
      hide GatherFile;
      ghost var toks := ws[i..j];
      assert forall k | p0 <= k < j :: toks[k - i] == ws[k];
      p := p0;
      if C1(ws[p]) == '>' { flags := flags + {Append}; }
      if p + 1 != j && ws[p + 1] == "&" {
        flags := flags + {Stderr};
        p := p + 1;
        if m.pout || m.perr {
          Complain(OutRed);
          return;
        }
      }
      p := RedirectFile(ws, i, j, p, m);
    }

    /** The '<' case. */
    method RedirectIn(ws: seq<Token>, i: nat, j: nat, p0: nat, m: Mode) returns (p: nat)
      requires Valid() && i <= p0 < j <= |ws|
      modifies this`flags, this`lef, this`err
      ensures p0 <= p < j && Valid()
      ensures GatherIn(ws[i..j], p0 - i, m, old(View())) == (p - i, View())
    {
      ghost var toks := ws[i..j];
      assert forall k | p0 <= k < j :: toks[k - i] == ws[k];
      p := p0;
      if C1(ws[p]) == '<' { flags := flags + {Read}; }
      if p + 1 == j {
        Complain(MisRed);
        return;
      }
      p := p + 1;
      if RelPar(ws[p]) {
        Complain(MisRed);
      } else if m.here && Read in flags {
        Complain(RedPar);
      } else if m.pin || lef.Some? {
        Complain(InRed);
      } else {
        lef := Some(ws[p]);
      }
    }

    /** Stores a word unless an error was reported; the position is counted either way. */
    method Store(w: Token)
      requires Valid() && (err.None? ==> n + 1 < av.Length)
      modifies this`n, this`kept, av
      ensures Valid() && View() == old(View()).(words := if err.None? then old(View()).words + [w] else old(View()).words,
                                                n := old(n) + 1)
    {
      if err.None? {
        av[n] := w;
        kept := n + 1;
      }
      n := n + 1;
    }

    /** The parenthesis cases. */
    method NoteParen(left: bool, k: nat, special: bool)
      requires Valid()
      modifies this`l, this`lp, this`rp, this`err
      ensures Valid()
      ensures View() == old(View()).(
                          l := if left then old(l) + 1 else old(l) - 1,
                          lp := if left && old(l) == 0 then Some(k + 1) else old(lp),
                          rp := if !left && old(l) == 1 then Some(k) else old(rp),
                          err := if left && old(l) == 0 && old(lp).Some? && !special then Report(old(err), BadPlp)
                                 else old(err))
    {
      if left {
        if l == 0 {
          if lp.Some? && !special { Complain(BadPlp); }
          lp := Some(k + 1);
        }
        l := l + 1;
      } else {
        l := l - 1;
        if l == 0 { rp := Some(k); }
      }
    }

    /** One turn of the second loop at word p; returns the last word it used. */
    method Turn(ws: seq<Token>, i: nat, j: nat, p: nat, m: Mode, special: bool) returns (q: nat)
      requires Valid() && i <= p < j <= |ws|
      requires |GatherOne(ws[i..j], p - i, m, special, View()).1.words| < av.Length
      modifies this, av
      ensures Valid() && p <= q < j
      ensures GatherOne(ws[i..j], p - i, m, special, old(View())) == (q - i, View())
    {
      hide GatherOut, GatherIn;
      assert ws[i..j][p - i] == ws[p];
      q := p;
      var c := C0(ws[p]);
      if c == '(' || c == ')' {
        NoteParen(c == '(', p - i, special);
        if special { Store(ws[p]); }
      } else if c == '>' && l == 0 {
        q := RedirectOut(ws, i, j, p, m);
      } else if c == '<' && l == 0 {
        q := RedirectIn(ws, i, j, p, m);
      } else if special || (l == 0 && c != '<' && c != '>') {
        Store(ws[p]);
      }
    }
  }

  /** The second loop of syn3. The array is sized by the first loop and never overrun. */
  method GatherWords(ws: seq<Token>, i: nat, j: nat, m: Mode, special: bool, err0: Option<Error>) returns (g: Gather)
    requires i <= j <= |ws|
    ensures g == GatherAll(ws[i..j], 0, m, special, Fresh(Next(ws, j), err0))
    ensures (g.lp.Some? ==> g.lp.value <= j - i) && (g.rp.Some? ==> g.rp.value < j - i)
  {
    hide GatherAll, GatherOne, CountFrom;
    ghost var toks := ws[i..j];
    var size := CountWords(ws, i, j, special);
    var t := new Builder(size, Next(ws, j), err0);
    var p := i;
    while p != j
      invariant i <= p <= j && t.Valid() && t.av.Length == size + 1 && fresh(t) && fresh(t.av)
      invariant t.err.None? ==> t.n + CountFrom(toks, p - i, t.l, special) <= size
      invariant (t.lp.Some? ==> t.lp.value <= p - i) && (t.rp.Some? ==> t.rp.value < p - i)
      invariant GatherAll(toks, 0, m, special, Fresh(Next(ws, j), err0)) == GatherAll(toks, p - i, m, special, t.View())
      decreases j - p
    {
      KeptStep(toks, p - i, m, special, t.View(), size);
      GatherTurn(toks, p - i, m, special, t.View());
      p := t.Turn(ws, i, j, p, m, special);
      p := p + 1;
    }
    GatherEnd(toks, m, special, t.View());
    g := t.View();
  }

  lemma {:induction false} GatherTurn(toks: seq<Token>, p: nat, m: Mode, special: bool, g: Gather)
    requires p < |toks|
    ensures var (q, g') := GatherOne(toks, p, m, special, g);
            && GatherAll(toks, p, m, special, g) == GatherAll(toks, q + 1, m, special, g')
            && (g'.lp == g.lp || g'.lp == Some(p + 1)) && (g'.rp == g.rp || g'.rp == Some(p))
  {
  }

  lemma {:induction false} SliceOfSlice(ws: seq<Token>, i: nat, j: nat, a: nat, b: nat)
    requires i <= j <= |ws| && a <= b <= j - i
    ensures ws[i..j][a..b] == ws[i + a..i + b]
  {
    var r := ws[i..j];
    assert forall k | a <= k < b :: r[k] == ws[i + k];
  }

  /** What the loop above needs to know before each turn: there is room for the word it may keep. */
  lemma {:induction false} KeptStep(toks: seq<Token>, p: nat, m: Mode, special: bool, g: Gather, size: nat)
    requires p < |toks| && (g.err.None? ==> |g.words| + CountFrom(toks, p, g.l, special) <= size)
    requires |g.words| <= size
    ensures var (q, g') := GatherOne(toks, p, m, special, g);
            && |g'.words| <= size
            && (g'.err.None? ==> g.err.None? && |g'.words| + CountFrom(toks, q + 1, g'.l, special) <= size)
            && (g.err.None? && g'.err.Some? ==> |g'.words| == |g.words|)
  {
    var (q, g') := GatherOne(toks, p, m, special, g);
    CountNotNegative(toks, q + 1, g'.l, special);
    if g.err.None? && g'.err.None? { StepFits(toks, p, m, special, g); }
    if g.err.None? && g'.err.Some? { StepError(toks, p, m, special, g); }
  }

  /** syn3 */
  method ParseSyn3(ws: seq<Token>, i: nat, j: nat, m: Mode, err0: Option<Error>)
    returns (t: Command, err: Option<Error>)
    requires i <= j <= |ws|
    ensures Node(t, err) == Syn3(ws[i..j], Next(ws, j), m, err0)
    decreases j - i, 1
  {
    hide GatherAll;
    var special := IsSpecial(ws, i, j);
    var g := GatherWords(ws, i, j, m, special, err0);
    err := g.err;
    if g.lp.Some? && !special {
      if g.n != 0 { err := Report(err, BadPlps); }
      if g.rp.None? || g.rp.value < g.lp.value {
        return Paren(None, g.lef, g.rit, g.flags), Some(Stuck);
      }
      SliceOfSlice(ws, i, j, g.lp.value, g.rp.value);
      var sub;
      GroupEnds(ws[i..j], m, special, Fresh(Next(ws, j), err0));
      sub, err := ParseSyn0(ws, i + g.lp.value, i + g.rp.value, Mode(true, false, false, false), err);
      t := Paren(sub, g.lef, g.rit, g.flags);
    } else {
      if g.n == 0 { err := Report(err, NullCom); }
      t := Simple(g.words, g.lef, g.rit, g.flags);
    }
  }

  /** rp is the position of a closing parenthesis. */
  lemma {:induction false} GroupEnds(toks: seq<Token>, m: Mode, special: bool, g: Gather)
    requires g.rp.None?
    ensures var r := GatherAll(toks, 0, m, special, g);
            r.rp.Some? && r.rp.value < |toks| ==> C0(toks[r.rp.value]) == ')'
  {
    GroupEndsFrom(toks, 0, m, special, g);
  }

  lemma {:induction false} GroupEndsFrom(toks: seq<Token>, p: nat, m: Mode, special: bool, g: Gather)
    requires p <= |toks| && (g.rp.Some? ==> g.rp.value < |toks| && C0(toks[g.rp.value]) == ')')
    ensures var r := GatherAll(toks, p, m, special, g);
            r.rp.Some? ==> r.rp.value < |toks| && C0(toks[r.rp.value]) == ')'
    decreases |toks| - p
  {
    if p < |toks| {
      var (q, g') := GatherOne(toks, p, m, special, g);
      assert g'.rp == g.rp || (g'.rp == Some(p) && C0(toks[p]) == ')');
      GroupEndsFrom(toks, q + 1, m, special, g');
    }
  }
}
