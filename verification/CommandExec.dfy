/**
 * The tree walk of execute (bin/csh/sem.c): flags flow down the tree, a command is forked
 * unless it carries NoFork, and an external command or parenthesised list that is not forked
 * takes the running process with it.
 */
module CommandExec {
  import opened Wrappers
  import opened CommandSyntax

  /** A command that was started, with its redirections and the flags that describe its plumbing. */
  datatype Event = Event(words: seq<Token>, lef: Option<Token>, rit: Option<Token>, flags: set<Flag>)

  /** Which names are builtins, and the exit status of a command given everything run before it. */
  datatype World = World(builtin: Token -> bool, status: (Event, seq<Event>) -> int)

  /** What has run, $status, and whether this process has been replaced or has exited. */
  datatype Shell = Shell(log: seq<Event>, status: int, gone: bool)

  /** sem.c:191-198 without time, nice, nohup and eval. */
  predicate Forks(builtin: bool, f: set<Flag>)
  {
    NoFork !in f && (!builtin || PipeOut in f || Ampersand in f)
  }

  /** After a fork the shell waits for the last command of a foreground job. */
  function AfterFork(log: seq<Event>, status: int, f: set<Flag>): Shell
  {
    Shell(log, if PipeOut !in f && Ampersand !in f then status else 0, false)
  }

  /** execute: `inh` are the flags the parent or-ed into this node. */
  function Exec(w: World, t: Command, inh: set<Flag>, s: Shell): Shell
    decreases t
  {
    var f := t.flags + inh;
    if s.gone then s
    else
      match t
      case Simple(words, lef, rit, _) =>
        if words == [] then s
        else
          var ev := Event(words, lef, rit, f - {NoFork});
          var st := w.status(ev, s.log);
          if Forks(w.builtin(words[0]), f) then AfterFork(s.log + [ev], st, f)
          else Shell(s.log + [ev], st, !w.builtin(words[0]))
      case Paren(sub, _, _, _) =>
        var child := if sub.None? then Shell(s.log, 0, false)
                     else Exec(w, sub.value, f * {NoInterrupt}, Shell(s.log, 0, false));
        if Forks(false, f) then AfterFork(child.log, child.status, f)
        else Shell(child.log, child.status, true)
      case Pipe(car, cdr, _) =>
        var s1 := Exec(w, car, {PipeOut} + f * {PipeIn, Ampersand, Stderr, NoInterrupt}, s);
        Exec(w, cdr, {PipeIn} + f * {PipeOut, Ampersand, NoFork, NoInterrupt}, s1)
      case List(first, rest, _) =>
        var s1 := if first.None? then s else Exec(w, first.value, f * {NoInterrupt}, s);
        if rest.None? then s1 else Exec(w, rest.value, f * {NoFork, NoInterrupt}, s1)
      case Or(car, cdr, _) =>
        var s1 := Exec(w, car, f * {NoInterrupt}, s);
        if s1.status == 0 then s1 else Exec(w, cdr, f * {NoFork, NoInterrupt}, s1)
      case And(car, cdr, _) =>
        var s1 := Exec(w, car, f * {NoInterrupt}, s);
        if s1.status != 0 then s1 else Exec(w, cdr, f * {NoFork, NoInterrupt}, s1)
  }

  /** The same tree with every NoFork taken out: each external command gets its own process. */
  function AllFork(t: Command): (r: Command)
    ensures r.flags == t.flags - {NoFork}
  {
    var f := t.flags - {NoFork};
    match t
    case Simple(words, lef, rit, _) => Simple(words, lef, rit, f)
    case Paren(sub, lef, rit, _) => Paren(if sub.None? then None else Some(AllFork(sub.value)), lef, rit, f)
    case Pipe(car, cdr, _) => Pipe(AllFork(car), AllFork(cdr), f)
    case List(first, rest, _) =>
      List(if first.None? then None else Some(AllFork(first.value)),
           if rest.None? then None else Some(AllFork(rest.value)), f)
    case Or(car, cdr, _) => Or(AllFork(car), AllFork(cdr), f)
    case And(car, cdr, _) => And(AllFork(car), AllFork(cdr), f)
  }

  /** NoFork stands only where nothing is left to run afterwards: `last` says that t is such a place.
      A last command is not in the background. */
  predicate TailOnly(t: Command, last: bool)
  {
    && (NoFork in t.flags ==> last) && (last ==> Ampersand !in t.flags) && PipeOut !in t.flags
    && match t
       case Simple(_, _, _, _) => true
       case Paren(sub, _, _, _) => sub.None? || TailOnly(sub.value, true)
       case Pipe(car, cdr, _) => TailOnly(car, false) && TailOnly(cdr, last)
       case List(first, rest, _) =>
         (first.None? || TailOnly(first.value, false)) && (rest.None? || TailOnly(rest.value, last))
       case Or(car, cdr, _) => TailOnly(car, false) && TailOnly(cdr, last)
       case And(car, cdr, _) => TailOnly(car, false) && TailOnly(cdr, last)
  }

  /**
   * Leaving out forks is invisible: on a tree whose NoFork flags are all in last position, the
   * commands run, their plumbing and the final status are those of the tree in which everything is
   * forked, and the process survives unless the tree itself was in last position.
   */
  lemma {:induction false} NoForkIsInvisible(w: World, t: Command, inh: set<Flag>, s: Shell, last: bool)
    requires TailOnly(t, last) && !s.gone && (NoFork in inh ==> last)
    requires last ==> Ampersand !in inh && PipeOut !in inh
    ensures var a, b := Exec(w, t, inh, s), Exec(w, AllFork(t), inh - {NoFork}, s);
            a.log == b.log && a.status == b.status && !b.gone && (a.gone ==> last)
    decreases t
  {
    var f, f' := t.flags + inh, t.flags - {NoFork} + (inh - {NoFork});
    assert f - {NoFork} == f' && f' - {NoFork} == f';
    match t
    case Simple(_, _, _, _) =>
    case Paren(sub, _, _, _) =>
      assert f * {NoInterrupt} == f' * {NoInterrupt} == f' * {NoInterrupt} - {NoFork};
      if sub.Some? {
        NoForkIsInvisible(w, sub.value, f * {NoInterrupt}, Shell(s.log, 0, false), true);
      }
    case Pipe(car, cdr, _) =>
      var i1, i2 := {PipeOut} + f * {PipeIn, Ampersand, Stderr, NoInterrupt},
                    {PipeIn} + f * {PipeOut, Ampersand, NoFork, NoInterrupt};
      assert {PipeOut} + f' * {PipeIn, Ampersand, Stderr, NoInterrupt} == i1 == i1 - {NoFork};
      assert {PipeIn} + f' * {PipeOut, Ampersand, NoFork, NoInterrupt} == i2 - {NoFork};
      NoForkIsInvisible(w, car, i1, s, false);
      NoForkIsInvisible(w, cdr, i2, Exec(w, car, i1, s), last);
      Same(Exec(w, car, i1, s), Exec(w, AllFork(car), i1, s));
    case List(first, rest, _) =>
      var i1, i2 := f * {NoInterrupt}, f * {NoFork, NoInterrupt};
      assert f' * {NoInterrupt} == i1 == i1 - {NoFork} && f' * {NoFork, NoInterrupt} == i2 - {NoFork};
      if first.Some? { NoForkIsInvisible(w, first.value, i1, s, false); }
      var s1 := if first.None? then s else Exec(w, first.value, i1, s);
      if rest.Some? { NoForkIsInvisible(w, rest.value, i2, s1, last); }
    case Or(car, cdr, _) =>
      NoForkInPair(w, t, car, cdr, inh, s, last);
    case And(car, cdr, _) =>
      NoForkInPair(w, t, car, cdr, inh, s, last);
  }

  lemma {:induction false} Same(a: Shell, b: Shell)
    requires a.log == b.log && a.status == b.status && a.gone == b.gone
    ensures a == b
  {
  }

  lemma {:induction false} NoForkInPair(w: World, t: Command, car: Command, cdr: Command, inh: set<Flag>, s: Shell,
                                        last: bool)
    requires (t == Or(car, cdr, t.flags) || t == And(car, cdr, t.flags)) && car < t && cdr < t
    requires TailOnly(t, last) && !s.gone && (NoFork in inh ==> last)
    requires last ==> Ampersand !in inh && PipeOut !in inh
    ensures var a, b := Exec(w, t, inh, s), Exec(w, AllFork(t), inh - {NoFork}, s);
            a.log == b.log && a.status == b.status && !b.gone && (a.gone ==> last)
    decreases t, 0
  {
    var f, f' := t.flags + inh, t.flags - {NoFork} + (inh - {NoFork});
    var i1, i2 := f * {NoInterrupt}, f * {NoFork, NoInterrupt};
    assert f' * {NoInterrupt} == i1 == i1 - {NoFork} && f' * {NoFork, NoInterrupt} == i2 - {NoFork};
    NoForkIsInvisible(w, car, i1, s, false);
    NoForkIsInvisible(w, cdr, i2, Exec(w, car, i1, s), last);
    Same(Exec(w, car, i1, s), Exec(w, AllFork(car), i1, s));
  }

  // ---------- the trees the parser makes ----------

  ghost predicate SameTail(f: set<Flag>, g: set<Flag>)
  {
    (NoFork in f <==> NoFork in g) && (Ampersand in f <==> Ampersand in g) && (PipeOut in f <==> PipeOut in g)
  }

  lemma {:induction false} TurnFlags(toks: seq<Token>, p: nat, m: Mode, special: bool, g: Gather)
    requires p < |toks|
    ensures SameTail(g.flags, GatherOne(toks, p, m, special, g).1.flags)
  {
    hide GatherOut, GatherIn;
    OutFlags(toks, p, m, g);
    InFlags(toks, p, m, g);
  }

  lemma {:induction false} OutFlags(toks: seq<Token>, p: nat, m: Mode, g: Gather)
    requires p < |toks|
    ensures SameTail(g.flags, GatherOut(toks, p, m, g).1.flags)
  {
    hide GatherFile;
    var h := if C1(toks[p]) == '>' then g.(flags := g.flags + {Append}) else g;
    FileFlags(toks, p, m, h);
    if p + 1 < |toks| { FileFlags(toks, p + 1, m, h.(flags := h.flags + {Stderr})); }
  }

  lemma {:induction false} InFlags(toks: seq<Token>, p: nat, m: Mode, g: Gather)
    requires p < |toks|
    ensures SameTail(g.flags, GatherIn(toks, p, m, g).1.flags)
  {
  }

  lemma {:induction false} FileFlags(toks: seq<Token>, p: nat, m: Mode, g: Gather)
    requires p < |toks|
    ensures SameTail(g.flags, GatherFile(toks, p, m, g).1.flags)
  {
  }

  /** Gathering a simple command adds no flag that matters here. */
  lemma {:induction false} GatherFlags(toks: seq<Token>, p: nat, m: Mode, special: bool, g: Gather)
    requires p <= |toks|
    ensures SameTail(g.flags, GatherAll(toks, p, m, special, g).flags)
    decreases |toks| - p
  {
    hide GatherOne;
    if p < |toks| {
      var (q, g') := GatherOne(toks, p, m, special, g);
      TurnFlags(toks, p, m, special, g);
      GatherFlags(toks, q + 1, m, special, g');
    }
  }

  /** NoFork goes to the last command of a parenthesised range and to no other; nothing last is in
      the background. */
  ghost predicate GoodTree(t: Command, nxt: char)
  {
    TailOnly(t, nxt == ')') && TailOnly(t, true)
  }

  lemma {:induction false} Good3(toks: seq<Token>, nxt: char, m: Mode, err: Option<Error>)
    ensures GoodTree(Syn3(toks, nxt, m, err).tree, nxt)
    decreases |toks|, 1
  {
    hide Syn0, GatherAll;
    var special := Special(toks);
    var g := GatherAll(toks, 0, m, special, Fresh(nxt, err));
    GatherFlags(toks, 0, m, special, Fresh(nxt, err));
    if g.lp.Some? && !special && GroupOk(toks, g) {
      var e := if g.n != 0 then Report(g.err, BadPlps) else g.err;
      Good0(toks[g.lp.value..g.rp.value], ')', Mode(true, false, false, false), e);
    }
  }

  lemma {:induction false} Good2(toks: seq<Token>, nxt: char, m: Mode, err: Option<Error>)
    ensures GoodTree(Syn2(toks, nxt, m, err).tree, nxt)
    decreases |toks|, 2
  {
    hide Syn3, Scan;
    match Scan(OpPipe, toks, 0, 0)
    case None => Good3(toks, nxt, m, err);
    case Some(p) =>
      var both := p + 1 < |toks| && C0(toks[p + 1]) == '&';
      var m1 := m.(pout := true, perr := m.perr || both);
      Good3(toks[..p], '|', m1, err);
      Good2(toks[if both then p + 2 else p + 1..], nxt, m.(pin := true), Syn3(toks[..p], '|', m1, err).err);
  }

  lemma {:induction false} Good1b(toks: seq<Token>, nxt: char, m: Mode, err: Option<Error>)
    ensures GoodTree(Syn1b(toks, nxt, m, err).tree, nxt)
    decreases |toks|, 3
  {
    hide Syn2, Scan;
    match Scan(OpAnd, toks, 0, 0)
    case None => Good2(toks, nxt, m, err);
    case Some(p) =>
      Good2(toks[..p], '&', m, err);
      Good1b(toks[p + 1..], nxt, m, Syn2(toks[..p], '&', m, err).err);
  }

  lemma {:induction false} Good1a(toks: seq<Token>, nxt: char, m: Mode, err: Option<Error>)
    ensures GoodTree(Syn1a(toks, nxt, m, err).tree, nxt)
    decreases |toks|, 4
  {
    hide Syn1b, Scan;
    match Scan(OpOr, toks, 0, 0)
    case None => Good1b(toks, nxt, m, err);
    case Some(p) =>
      Good1b(toks[..p], '|', m, err);
      Good1a(toks[p + 1..], nxt, m, Syn1b(toks[..p], '|', m, err).err);
  }

  lemma {:induction false} Good1(toks: seq<Token>, nxt: char, m: Mode, err: Option<Error>)
    ensures GoodTree(Syn1(toks, nxt, m, err).tree, nxt)
    decreases |toks|, 5
  {
    hide Syn1a, Scan, Syntax;
    match Scan(OpSemi, toks, 0, 0)
    case None => Good1a(toks, nxt, m, err);
    case Some(p) =>
      Good1a(toks[..p], C0(toks[p]), m, err);
      GoodSyntax(toks[p + 1..], nxt, m, Syn1a(toks[..p], C0(toks[p]), m, err).err);
  }

  lemma {:induction false} BackgroundTail(t: Command)
    requires TailOnly(t, false) && TailOnly(t, true)
    ensures TailOnly(Background(t), false)
  {
  }

  lemma {:induction false} Good0(toks: seq<Token>, nxt: char, m: Mode, err: Option<Error>)
    ensures var t := Syn0(toks, nxt, m, err).tree; t.Some? ==> GoodTree(t.value, nxt)
    decreases |toks|, 6
  {
    hide Syn1, ScanAmp, Syntax;
    match ScanAmp(toks, 0, Depth(0, false), err)
    case Over(l, e) => Good1(toks, nxt, m, e);
    case Hit(p, e) =>
      Good1(toks[..p], '&', m, e);
      assert |Trim(toks[p..])| < |toks|;
      var a := Syn1(toks[..p], '&', m, e);
      GoodSyntax(toks[p..], nxt, m, a.err);
      BackgroundTail(a.tree);
  }

  lemma {:induction false} GoodSyntax(toks: seq<Token>, nxt: char, m: Mode, err: Option<Error>)
    ensures var t := Syntax(toks, nxt, m, err).tree; t.Some? ==> GoodTree(t.value, nxt)
    decreases |Trim(toks)|, 7
  {
    hide Syn0;
    if Trim(toks) != [] { Good0(Trim(toks), nxt, m, err); }
  }

  /**
   * For every token list: the tree syntax returns runs, under execute's flag propagation, like the
   * tree in which every command is forked; given no flag it leaves the shell's own process alive, and
   * given NoFork (as for a backquoted command) it loses no command either.
   */
  lemma {:induction false} ParsedTreesRun(w: World, toks: seq<Token>, m: Mode, err: Option<Error>, nofork: bool,
                                          s: Shell)
    requires !s.gone
    ensures var t := Syntax(toks, NUL, m, err).tree;
            t.Some? ==>
              var a := Exec(w, t.value, if nofork then {NoFork} else {}, s);
              var b := Exec(w, AllFork(t.value), {}, s);
              a.log == b.log && a.status == b.status && !b.gone && (a.gone ==> nofork)
  {
    hide Syntax, Exec, AllFork;
    GoodSyntax(toks, NUL, m, err);
    var t := Syntax(toks, NUL, m, err).tree;
    if t.Some? {
      var inh: set<Flag> := if nofork then {NoFork} else {};
      assert inh - {NoFork} == {};
      NoForkIsInvisible(w, t.value, inh, s, nofork);
    }
  }

  /** The walk as the program does it: status and log are updated in place. */
  class Executor {
    const w: World
    var log: seq<Event>
    var status: int
    var gone: bool

    function View(): Shell reads this { Shell(log, status, gone) }

    constructor (w: World)
      ensures this.w == w && View() == Shell([], 0, false)
    {
      this.w := w;
      log, status, gone := [], 0, false;
    }

    /** execute for one node; a process that is gone runs nothing more. */
    method Execute(t: Command, inh: set<Flag>)
      modifies this
      ensures View() == Exec(w, t, inh, old(View()))
      decreases t
    {
      if gone { return; }
      var f := t.flags + inh;
      match t {
        case Simple(words, lef, rit, _) =>
          if words == [] { return; }
          RunSimple(words, Event(words, lef, rit, f - {NoFork}), f);
        case Paren(sub, _, _, _) =>
          status := 0;
          if sub.Some? {
            Execute(sub.value, f * {NoInterrupt});
          }
          // exitstat: the process that ran the list ends here
          gone := NoFork in f;
          if !gone && (PipeOut in f || Ampersand in f) { status := 0; }
        case Pipe(car, cdr, _) =>
          Execute(car, {PipeOut} + f * {PipeIn, Ampersand, Stderr, NoInterrupt});
          Execute(cdr, {PipeIn} + f * {PipeOut, Ampersand, NoFork, NoInterrupt});
        case List(first, rest, _) =>
          if first.Some? { Execute(first.value, f * {NoInterrupt}); }
          if rest.Some? { Execute(rest.value, f * {NoFork, NoInterrupt}); }
        case Or(car, cdr, _) =>
          Execute(car, f * {NoInterrupt});
          if status == 0 { return; }
          Execute(cdr, f * {NoFork, NoInterrupt});
        case And(car, cdr, _) =>
          Execute(car, f * {NoInterrupt});
          if status != 0 { return; }
          Execute(cdr, f * {NoFork, NoInterrupt});
      }
    }

    method RunSimple(words: seq<Token>, ev: Event, f: set<Flag>)
      requires words != [] && !gone
      modifies this
      ensures var st := w.status(ev, old(log));
              View() == if Forks(w.builtin(words[0]), f) then AfterFork(old(log) + [ev], st, f)
                        else Shell(old(log) + [ev], st, !w.builtin(words[0]))
    {
      status := 0;
      var st := w.status(ev, log);
      log := log + [ev];
      if Forks(w.builtin(words[0]), f) {
        if PipeOut !in f && Ampersand !in f { status := st; }
      } else {
        status := st;
        gone := !w.builtin(words[0]);
      }
    }
  }
}
