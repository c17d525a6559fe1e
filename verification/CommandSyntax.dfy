/**
 * What the parser of bin/csh/parse.c computes, as functions over token ranges.
 *
 * A range is a sequence of words together with the first character `nxt` of the word that
 * follows it (0 for the list header), because syn3 looks at that word.
 */
module CommandSyntax {
  import opened Wrappers

  type Token = string

  const NUL: char := '\0'

  function C0(w: Token): char { if |w| > 0 then w[0] else NUL }
  function C1(w: Token): char { if |w| > 1 then w[1] else NUL }

  /** PHERE, PIN, POUT, PERR */
  datatype Mode = Mode(here: bool, pin: bool, pout: bool, perr: bool)

  datatype Flag = Ampersand | Append | PipeIn | PipeOut | NoFork | NoInterrupt | Stderr | Overwrite | Read

  datatype Error = TooManyRp | TooManyLp | BadPlp | BadPlps | OutRed | MisRed | RedPar | InRed | NullCom
                 | Stuck    // syn3 hands syn0 a range whose end is not ahead of its start

  /** struct command */
  datatype Command =
    | Simple(words: seq<Token>, lef: Option<Token>, rit: Option<Token>, flags: set<Flag>)
    | Paren(sub: Option<Command>, lef: Option<Token>, rit: Option<Token>, flags: set<Flag>)
    | Pipe(car: Command, cdr: Command, flags: set<Flag>)
    | List(first: Option<Command>, rest: Option<Command>, flags: set<Flag>)
    | Or(car: Command, cdr: Command, flags: set<Flag>)
    | And(car: Command, cdr: Command, flags: set<Flag>)

  /** A tree and seterr, which keeps the first error only. */
  datatype Parsed = Parsed(tree: Option<Command>, err: Option<Error>)
  datatype Node = Node(tree: Command, err: Option<Error>)

  function Report(err: Option<Error>, e: Error): (r: Option<Error>)
    ensures r.Some? && (err.Some? ==> r == err)
  {
    if err.Some? then err else Some(e)
  }

  predicate IsSep(w: Token) { C0(w) == ';' || C0(w) == '&' || C0(w) == '\n' }

  /** Leading separators dropped. */
  function Trim(toks: seq<Token>): (r: seq<Token>)
    ensures |r| <= |toks| && (r != [] ==> !IsSep(r[0]))
  {
    if toks != [] && IsSep(toks[0]) then Trim(toks[1..]) else toks
  }

  // ---------- scanning for an operator outside parentheses ----------

  /** Paren depth, and whether an immediately following & belongs to the previous word. */
  datatype Depth = Depth(l: int, skip: bool)
  datatype AmpScan = Hit(p: nat, err: Option<Error>) | Over(l: int, err: Option<Error>)

  predicate AmpHere(w: Token, d: Depth)
  {
    C0(w) == '&' && !(d.skip && w == "&") && d.l == 0 && C1(w) != '&'
  }

  function DepthAfter(w: Token, d: Depth): Depth
  {
    if d.skip && w == "&" then Depth(d.l, false)
    else if C0(w) == '(' then Depth(d.l + 1, false)
    else if C0(w) == ')' then Depth(d.l - 1, false)
    else Depth(d.l, C0(w) == '>' || (C0(w) == '|' && C1(w) != '|'))
  }

  /** The loop of syn0. */
  function ScanAmp(toks: seq<Token>, p: nat, d: Depth, err: Option<Error>): (r: AmpScan)
    requires p <= |toks|
    ensures r.Hit? ==> p <= r.p < |toks| && C0(toks[r.p]) == '&'
    decreases |toks| - p
  {
    if p == |toks| then Over(d.l, err)
    else if AmpHere(toks[p], d) then Hit(p, err)
    else
      var d' := DepthAfter(toks[p], d);
      ScanAmp(toks, p + 1, d', if d'.l < d.l && d'.l < 0 then Report(err, TooManyRp) else err)
  }

  datatype Op = OpSemi | OpOr | OpAnd | OpPipe

  predicate OpHere(op: Op, w: Token)
  {
    match op
    case OpSemi => C0(w) == ';' || C0(w) == '\n'
    case OpOr => C0(w) == '|' && C1(w) == '|'
    case OpAnd => C0(w) == '&' && C1(w) == '&'
    case OpPipe => C0(w) == '|'
  }

  function ParenStep(w: Token, l: int): int
  {
    if C0(w) == '(' then l + 1 else if C0(w) == ')' then l - 1 else l
  }

  /** The loops of syn1, syn1a, syn1b and syn2: the first operator at depth 0. */
  function Scan(op: Op, toks: seq<Token>, p: nat, l: int): (r: Option<nat>)
    requires p <= |toks|
    ensures r.Some? ==> p <= r.value < |toks| && OpHere(op, toks[r.value])
    decreases |toks| - p
  {
    if p == |toks| then None
    else if OpHere(op, toks[p]) && l == 0 then Some(p)
    else Scan(op, toks, p + 1, ParenStep(toks[p], l))
  }

  // ---------- simple commands ----------

  predicate Keyword(w: Token)
  {
    w == "exit" || w == "foreach" || w == "if" || w == "@" || w == "set" || w == "switch" || w == "while"
  }

  /** specp: the command starts, after any else, with a word whose parentheses are arguments. */
  predicate Special(toks: seq<Token>)
  {
    toks != [] && if toks[0] == "else" then Special(toks[1..]) else Keyword(toks[0])
  }

  predicate RelPar(w: Token) { C0(w) == '<' || C0(w) == '>' || C0(w) == '(' || C0(w) == ')' }

  /** The state of syn3's second loop. lp and rp are word positions. */
  datatype Gather = Gather(l: int, lp: Option<nat>, rp: Option<nat>, words: seq<Token>, n: nat,
                           flags: set<Flag>, lef: Option<Token>, rit: Option<Token>, err: Option<Error>)

  function Keep(g: Gather, w: Token, special: bool): (r: Gather)
    ensures r.err == g.err && r.l == g.l && (g.err.Some? ==> r.words == g.words)
  {
    if g.l != 0 && !special then g
    else g.(words := if g.err.None? then g.words + [w] else g.words, n := g.n + 1)
  }

  /** An open or close parenthesis at position p. */
  function GatherParen(toks: seq<Token>, p: nat, special: bool, g: Gather): (r: Gather)
    requires p < |toks|
    ensures g.err.Some? ==> r.err == g.err && r.words == g.words
  {
    var g' :=
      if C0(toks[p]) == '(' then
        var h := if g.l != 0 then g
                 else g.(err := if g.lp.Some? && !special then Report(g.err, BadPlp) else g.err, lp := Some(p + 1));
        h.(l := g.l + 1)
      else g.(l := g.l - 1, rp := if g.l == 1 then Some(p) else g.rp);
    if special then Keep(g', toks[p], special) else g'
  }

  /** The optional ! and the file name of an output redirection whose last word so far is at p. */
  function GatherFile(toks: seq<Token>, p: nat, m: Mode, g: Gather): (r: (nat, Gather))
    requires p < |toks|
    ensures p <= r.0 < |toks| && r.1.words == g.words && r.1.l == g.l && r.1.n == g.n
    ensures r.1.lp == g.lp && r.1.rp == g.rp && (g.err.Some? ==> r.1.err == g.err)
  {
    var bang := p + 1 < |toks| && toks[p + 1] == "!";
    var q := if bang then p + 1 else p;
    var h := if bang then g.(flags := g.flags + {Overwrite}) else g;
    if q + 1 == |toks| then (q, h.(err := Report(h.err, MisRed)))
    else if RelPar(toks[q + 1]) then (q + 1, h.(err := Report(h.err, MisRed)))
    else if m.pout && (!m.perr || h.rit.Some?) then (q + 1, h.(err := Report(h.err, OutRed)))
    else (q + 1, h.(rit := Some(toks[q + 1])))
  }

  /** An output redirection at position p; also returns the last position it uses. */
  function GatherOut(toks: seq<Token>, p: nat, m: Mode, g: Gather): (r: (nat, Gather))
    requires p < |toks|
    ensures p <= r.0 < |toks| && r.1.words == g.words && r.1.l == g.l && r.1.n == g.n
    ensures r.1.lp == g.lp && r.1.rp == g.rp && (g.err.Some? ==> r.1.err == g.err)
  {
    var h := if C1(toks[p]) == '>' then g.(flags := g.flags + {Append}) else g;
    if p + 1 < |toks| && toks[p + 1] == "&" then
      var h' := h.(flags := h.flags + {Stderr});
      if m.pout || m.perr then (p + 1, h'.(err := Report(h'.err, OutRed)))
      else GatherFile(toks, p + 1, m, h')
    else GatherFile(toks, p, m, h)
  }

  function GatherIn(toks: seq<Token>, p: nat, m: Mode, g: Gather): (r: (nat, Gather))
    requires p < |toks|
    ensures p <= r.0 < |toks| && r.1.words == g.words && r.1.l == g.l && r.1.n == g.n
    ensures r.1.lp == g.lp && r.1.rp == g.rp && (g.err.Some? ==> r.1.err == g.err)
  {
    var g1 := if C1(toks[p]) == '<' then g.(flags := g.flags + {Read}) else g;
    if p + 1 == |toks| then (p, g1.(err := Report(g1.err, MisRed)))
    else if RelPar(toks[p + 1]) then (p + 1, g1.(err := Report(g1.err, MisRed)))
    else if m.here && Read in g1.flags then (p + 1, g1.(err := Report(g1.err, RedPar)))
    else if m.pin || g1.lef.Some? then (p + 1, g1.(err := Report(g1.err, InRed)))
    else (p + 1, g1.(lef := Some(toks[p + 1])))
  }

  /** One turn of syn3's second loop at position p, with the last position it uses. */
  function GatherOne(toks: seq<Token>, p: nat, m: Mode, special: bool, g: Gather): (r: (nat, Gather))
    requires p < |toks|
    ensures p <= r.0 < |toks| && (g.err.Some? ==> r.1.err == g.err && r.1.words == g.words)
  {
    if C0(toks[p]) == '(' || C0(toks[p]) == ')' then (p, GatherParen(toks, p, special, g))
    else if C0(toks[p]) == '>' && g.l == 0 then GatherOut(toks, p, m, g)
    else if C0(toks[p]) == '<' && g.l == 0 then GatherIn(toks, p, m, g)
    else if C0(toks[p]) == '>' || C0(toks[p]) == '<' then (p, if special then Keep(g, toks[p], special) else g)
    else (p, Keep(g, toks[p], special))
  }

  function GatherAll(toks: seq<Token>, p: nat, m: Mode, special: bool, g: Gather): Gather
    requires p <= |toks|
    decreases |toks| - p
  {
    if p == |toks| then g
    else
      var (q, g') := GatherOne(toks, p, m, special, g);
      GatherAll(toks, q + 1, m, special, g')
  }

  lemma {:induction false} GatherEnd(toks: seq<Token>, m: Mode, special: bool, g: Gather)
    ensures GatherAll(toks, |toks|, m, special, g) == g
  {
  }

  function Fresh(nxt: char, err: Option<Error>): Gather
  {
    Gather(0, None, None, [], 0, if nxt == ')' then {NoFork} else {}, None, None, err)
  }

  /** The range of a parenthesised list, when syn3 has seen both of its ends. */
  predicate GroupOk(toks: seq<Token>, g: Gather)
  {
    g.lp.Some? && g.rp.Some? && g.lp.value <= g.rp.value < |toks|
  }

  // ---------- the grammar ----------

  function Syn3(toks: seq<Token>, nxt: char, m: Mode, err: Option<Error>): Node
    decreases |toks|, 1
  {
    var special := Special(toks);
    var g := GatherAll(toks, 0, m, special, Fresh(nxt, err));
    if g.lp.Some? && !special then
      var e := if g.n != 0 then Report(g.err, BadPlps) else g.err;
      if GroupOk(toks, g) then
        var r := Syn0(toks[g.lp.value..g.rp.value], ')', Mode(true, false, false, false), e);
        Node(Paren(r.tree, g.lef, g.rit, g.flags), r.err)
      else Node(Paren(None, g.lef, g.rit, g.flags), Some(Stuck))
    else
      Node(Simple(g.words, g.lef, g.rit, g.flags), if g.n == 0 then Report(g.err, NullCom) else g.err)
  }

  function Syn2(toks: seq<Token>, nxt: char, m: Mode, err: Option<Error>): Node
    decreases |toks|, 2
  {
    match Scan(OpPipe, toks, 0, 0)
    case None => Syn3(toks, nxt, m, err)
    case Some(p) =>
      var both := p + 1 < |toks| && C0(toks[p + 1]) == '&';
      var a := Syn3(toks[..p], '|', m.(pout := true, perr := m.perr || both), err);
      var b := Syn2(toks[if both then p + 2 else p + 1..], nxt, m.(pin := true), a.err);
      Node(Pipe(a.tree, b.tree, if both then {Stderr} else {}), b.err)
  }

  function Syn1b(toks: seq<Token>, nxt: char, m: Mode, err: Option<Error>): Node
    decreases |toks|, 3
  {
    match Scan(OpAnd, toks, 0, 0)
    case None => Syn2(toks, nxt, m, err)
    case Some(p) =>
      var a := Syn2(toks[..p], '&', m, err);
      var b := Syn1b(toks[p + 1..], nxt, m, a.err);
      Node(And(a.tree, b.tree, {}), b.err)
  }

  function Syn1a(toks: seq<Token>, nxt: char, m: Mode, err: Option<Error>): Node
    decreases |toks|, 4
  {
    match Scan(OpOr, toks, 0, 0)
    case None => Syn1b(toks, nxt, m, err)
    case Some(p) =>
      var a := Syn1b(toks[..p], '|', m, err);
      var b := Syn1a(toks[p + 1..], nxt, m, a.err);
      Node(Or(a.tree, b.tree, {}), b.err)
  }

  function Syn1(toks: seq<Token>, nxt: char, m: Mode, err: Option<Error>): Node
    decreases |toks|, 5
  {
    match Scan(OpSemi, toks, 0, 0)
    case None => Syn1a(toks, nxt, m, err)
    case Some(p) =>
      var a := Syn1a(toks[..p], C0(toks[p]), m, err);
      var b := Syntax(toks[p + 1..], nxt, m, a.err);
      Node(if b.tree.None? then List(None, Some(a.tree), {}) else List(Some(a.tree), b.tree, {}), b.err)
  }

  /** Marks a command as running in the background; lists are wrapped in parentheses. */
  function Background(t: Command): Command
  {
    match t
    case Simple(w, l, r, f) => Simple(w, l, r, f + {Ampersand, NoInterrupt})
    case Paren(s, l, r, f) => Paren(s, l, r, f + {Ampersand, NoInterrupt})
    case Pipe(a, b, f) => Pipe(a, b, f + {Ampersand, NoInterrupt})
    case _ => Paren(Some(t), None, None, {Ampersand, NoInterrupt})
  }

  function Syn0(toks: seq<Token>, nxt: char, m: Mode, err: Option<Error>): Parsed
    decreases |toks|, 6
  {
    match ScanAmp(toks, 0, Depth(0, false), err)
    case Over(l, e) =>
      if l == 0 then var r := Syn1(toks, nxt, m, e); Parsed(Some(r.tree), r.err)
      else Parsed(None, Report(e, TooManyLp))
    case Hit(p, e) =>
      var a := Syn1(toks[..p], '&', m, e);
      var b := Syntax(toks[p..], nxt, m, a.err);
      Parsed(Some(List(Some(Background(a.tree)), b.tree, {})), b.err)
  }

  function Syntax(toks: seq<Token>, nxt: char, m: Mode, err: Option<Error>): Parsed
    decreases |Trim(toks)|, 7
  {
    var rest := Trim(toks);
    if rest == [] then Parsed(None, err) else Syn0(rest, nxt, m, err)
  }
}
