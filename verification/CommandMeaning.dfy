/**
 * What a command line does, said over the grammar and without the tree walk: what is started, in which
 * order, with which plumbing, and the final status. The walk over the parsed tree does just that.
 */
module CommandMeaning {
  import opened Wrappers
  import opened CommandSyntax
  import opened CommandGrammar
  import opened CommandRoundTrip
  import opened CommandExec

  /** Where a command stands: behind a pipe, before one, with its errors going along, in the background,
      and whether interrupts are off. */
  datatype Place = Place(pin: bool, pout: bool, err: bool, amp: bool, noint: bool)

  function Alone(noint: bool): Place { Place(false, false, false, false, noint) }

  /** What was started, the status, and whether the process is used up. */
  datatype Ran = Ran(log: seq<Event>, status: int, gone: bool)

  function Marks(p: Place): set<Flag>
  {
    (if p.pin then {PipeIn} else {}) + (if p.pout then {PipeOut} else {}) + (if p.err then {Stderr} else {}) +
    (if p.amp then {Ampersand} else {}) + (if p.noint then {NoInterrupt} else {})
  }

  /** The shell waits only for what is neither in the background nor before a pipe. */
  function Waited(p: Place, status: int): int { if p.pout || p.amp then 0 else status }

  /** The last command before a closing parenthesis is not forked: unless it is a builtin, it takes the process
      of the group with it. */
  function Run3(w: World, c: Cmd3, last: bool, p: Place, s: Ran): Ran
    decreases c, 0
  {
    match c
    case Words(items) =>
      var a := AddItems(Start(false), items);
      var ev := Event(a.words, a.lef, a.rit, a.flags + Marks(p));
      Ran(s.log + [ev], Waited(p, w.status(ev, s.log)), last && a.words != [] && !w.builtin(a.words[0]))
    case Group(_, body, _) =>
      var r := Run0(w, body, true, p.noint, Ran(s.log, 0, false));
      Ran(r.log, Waited(p, r.status), last)
  }

  /** Both sides run; the right one reads what the left one writes. */
  function Run2(w: World, c: Cmd2, last: bool, p: Place, s: Ran): Ran
    decreases c, 0
  {
    match c
    case Only3(a) => Run3(w, a, last, p, s)
    case PipeTo(a, both, rest) =>
      Run2(w, rest, last, p.(pin := true, err := false),
           Run3(w, a, false, p.(pout := true, err := p.err || both), s))
  }

  /** The right side runs if the left one succeeds. */
  function Run1b(w: World, c: Cmd1b, last: bool, noint: bool, s: Ran): Ran
    decreases c, 0
  {
    match c
    case Only2(a) => Run2(w, a, last, Alone(noint), s)
    case AndThen(a, rest) =>
      var r := Run2(w, a, false, Alone(noint), s);
      if r.status == 0 then Run1b(w, rest, last, noint, r) else r
  }

  /** The right side runs if the left one fails. */
  function Run1a(w: World, c: Cmd1a, last: bool, noint: bool, s: Ran): Ran
    decreases c, 0
  {
    match c
    case Only1b(a) => Run1b(w, a, last, noint, s)
    case OrElse(a, rest) =>
      var r := Run1b(w, a, false, noint, s);
      if r.status != 0 then Run1a(w, rest, last, noint, r) else r
  }

  /** One after the other; before a separator no command is the last one. */
  function Run1(w: World, c: Cmd1, last: bool, noint: bool, s: Ran): Ran
    decreases c, 0
  {
    match c
    case Only1a(a) => Run1a(w, a, last, noint, s)
    case Then(a, _, rest) =>
      var r := Run1a(w, a, false, noint, s);
      if rest.None? then r else Run1(w, rest.value, last, noint, r)
  }

  /** What an & sends to the background is not waited for. */
  function RunAmp(w: World, c: Cmd1, s: Ran): Ran
    decreases c, 1
  {
    if c.Only1a? && c.c.Only1b? && c.c.c.Only2? then
      Run2(w, c.c.c.c, false, Place(false, false, false, true, true), s)
    else Ran(Run1(w, c, false, true, Ran(s.log, 0, false)).log, 0, false)
  }

  function Run0(w: World, c: Cmd0, last: bool, noint: bool, s: Ran): Ran
    decreases c, 0
  {
    match c
    case Only1(a) => Run1(w, a, last, noint, s)
    case Amp(a, _, rest) =>
      var r := RunAmp(w, a, s);
      if rest.None? then r else Run0(w, rest.value, last, noint, r)
  }

  // ---------- the walk ----------

  /** The walk ends as the meaning says; only a last command uses the process up. */
  ghost predicate Agrees(s: Shell, r: Ran, last: bool)
  {
    Of(s) == r && (r.gone ==> last)
  }

  ghost function Of(s: Shell): Ran { Ran(s.log, s.status, s.gone) }

  /** The flags a node inherits at a place; a last one is waited for. */
  ghost predicate Fits(inh: set<Flag>, p: Place, last: bool)
  {
    inh == Marks(p) && (last ==> !p.pout && !p.amp)
  }

  lemma {:induction false} OwnFlags(items: seq<Item>, a: Acc)
    ensures AddItems(a, items).flags <= a.flags + {Append, Stderr, Overwrite, Read}
    decreases |items|
  {
    if items != [] { OwnFlags(items[1..], AddItem(a, items[0])); }
  }

  /** Whether the next word is a closing parenthesis shows in one flag only. */
  lemma {:induction false} AddNoFork(items: seq<Item>, a: Acc)
    ensures AddItems(a.(flags := a.flags + {NoFork}), items) ==
            AddItems(a, items).(flags := AddItems(a, items).flags + {NoFork})
    decreases |items|
  {
    if items != [] {
      var i := items[0];
      var b, b' := AddItem(a, i), AddItem(a.(flags := a.flags + {NoFork}), i);
      assert b' == b.(flags := b.flags + {NoFork});
      AddNoFork(items[1..], b);
    }
  }

  lemma {:induction false} ItemsFlags(items: seq<Item>, nofork: bool)
    ensures var a, b := AddItems(Start(nofork), items), AddItems(Start(false), items);
            && a == b.(flags := a.flags) && a.flags == b.flags + (if nofork then {NoFork} else {})
            && b.flags <= {Append, Stderr, Overwrite, Read}
  {
    OwnFlags(items, Start(false));
    AddNoFork(items, Start(false));
    assert Start(true) == Start(false).(flags := Start(false).flags + {NoFork});
    var b := AddItems(Start(false), items);
    assert b.flags + {} == b.flags;
  }

  lemma {:induction false} Means3(w: World, c: Cmd3, m: Mode, nofork: bool, inh: set<Flag>, p: Place, s: Shell)
    requires Ok3(c, m) && !s.gone && Fits(inh, p, nofork)
    ensures Agrees(Exec(w, Tree3(c, nofork), inh, s), Run3(w, c, nofork, p, Of(s)), nofork)
    decreases c, 0
  {
    match c
    case Words(items) => MeansWords(w, items, m, nofork, inh, p, s);
    case Group(pre, body, post) =>
      MeansBody(w, body, p.noint, s.log);
      MeansGroup(w, c, nofork, inh, p, s);
  }

  lemma {:induction false} MeansWords(w: World, items: seq<Item>, m: Mode, nofork: bool, inh: set<Flag>, p: Place,
                                      s: Shell)
    requires Ok3(Words(items), m) && !s.gone && Fits(inh, p, nofork)
    ensures Agrees(Exec(w, Tree3(Words(items), nofork), inh, s), Run3(w, Words(items), nofork, p, Of(s)), nofork)
  {
    hide AddItems, ItemsOk, Fits;
    var a, b := AddItems(Start(nofork), items), AddItems(Start(false), items);
    ItemsFlags(items, nofork);
    SomeWord(items, Start(false));
    NodeFlags(a.flags, b.flags, nofork, inh, p);
    assert Tree3(Words(items), nofork) == Simple(a.words, a.lef, a.rit, a.flags);
  }

  /** The flags of a node together with what it inherits. */
  lemma {:induction false} NodeFlags(f: set<Flag>, own: set<Flag>, nofork: bool, inh: set<Flag>, p: Place)
    requires own <= {Append, Stderr, Overwrite, Read} && f == own + (if nofork then {NoFork} else {})
    requires Fits(inh, p, nofork)
    ensures f + inh - {NoFork} == own + Marks(p) && (NoFork in f + inh <==> nofork)
    ensures (PipeOut in f + inh <==> p.pout) && (Ampersand in f + inh <==> p.amp)
    ensures (f + inh) * {NoInterrupt} == (if p.noint then {NoInterrupt} else {}) && (nofork ==> !p.pout && !p.amp)
  {
    var m := Marks(p);
    assert NoFork !in m && m == inh;
    assert (PipeOut in m <==> p.pout) && (Ampersand in m <==> p.amp) && (NoInterrupt in m <==> p.noint);
    assert f + inh - {NoFork} == own + m;
  }

  /** The list of a group runs in a process of its own. */
  lemma {:induction false} MeansBody(w: World, body: Cmd0, noint: bool, log: seq<Event>)
    requires Ok0(body, Mode(true, false, false, false))
    ensures var inh: set<Flag> := if noint then {NoInterrupt} else {};
            Agrees(Exec(w, Tree0(body, true), inh, Shell(log, 0, false)),
                   Run0(w, body, true, noint, Ran(log, 0, false)), true)
    decreases body, 2
  {
    Means0(w, body, Mode(true, false, false, false), true, if noint then {NoInterrupt} else {}, noint,
           Shell(log, 0, false));
  }

  lemma {:induction false} MeansGroup(w: World, c: Cmd3, nofork: bool, inh: set<Flag>, p: Place, s: Shell)
    requires c.Group? && !s.gone && Fits(inh, p, nofork)
    requires var i: set<Flag> := if p.noint then {NoInterrupt} else {};
             Agrees(Exec(w, Tree0(c.body, true), i, Shell(s.log, 0, false)),
                    Run0(w, c.body, true, p.noint, Ran(s.log, 0, false)), true)
    ensures Agrees(Exec(w, Tree3(c, nofork), inh, s), Run3(w, c, nofork, p, Of(s)), nofork)
  {
    hide Run0, Tree0, AddItems;
    hide Fits;
    var a := AddItems(AddItems(Start(nofork), c.pre), c.post);
    GroupFlags(c.pre, c.post, nofork);
    NodeFlags(a.flags, a.flags - {NoFork}, nofork, inh, p);
    assert Tree3(c, nofork) == Paren(Some(Tree0(c.body, true)), a.lef, a.rit, a.flags);
  }

  lemma {:induction false} GroupFlags(pre: seq<Item>, post: seq<Item>, nofork: bool)
    ensures var f := AddItems(AddItems(Start(nofork), pre), post).flags;
            && f - {NoFork} <= {Append, Stderr, Overwrite, Read}
            && f == (f - {NoFork}) + (if nofork then {NoFork} else {})
  {
    hide AddItems;
    var a := AddItems(Start(nofork), pre);
    ItemsFlags(pre, nofork);
    OwnFlags(post, a);
    KeepsFlags(post, a);
  }

  lemma {:induction false} KeepsFlags(items: seq<Item>, a: Acc)
    ensures AddItems(a, items).flags >= a.flags
    decreases |items|
  {
    if items != [] { KeepsFlags(items[1..], AddItem(a, items[0])); }
  }

  lemma {:induction false} Means2(w: World, c: Cmd2, m: Mode, nofork: bool, inh: set<Flag>, p: Place, s: Shell)
    requires Ok2(c, m) && !s.gone && Fits(inh, p, nofork)
    ensures Agrees(Exec(w, Tree2(c, nofork), inh, s), Run2(w, c, nofork, p, Of(s)), nofork)
    decreases c, 1
  {
    match c
    case Only3(a) =>
      Means3(w, a, m, nofork, inh, p, s);
    case PipeTo(a, both, rest) =>
      var own: set<Flag> := if both then {Stderr} else {};
      MeansPipe(w, a, both, rest, m, nofork, own, inh, p, s);
  }

  /** A pipe whose own flags are `own`: a |& and, in the background, the marks of an &. */
  lemma {:induction false} MeansPipe(w: World, a: Cmd3, both: bool, rest: Cmd2, m: Mode, nofork: bool, own: set<Flag>,
                                     inh: set<Flag>, p: Place, s: Shell)
    requires Ok2(PipeTo(a, both, rest), m) && !s.gone
    requires Fits(own - {Stderr} + inh, p, nofork) && (Stderr in own <==> both)
    ensures Agrees(Exec(w, Pipe(Tree3(a, false), Tree2(rest, nofork), own), inh, s),
                   Run2(w, PipeTo(a, both, rest), nofork, p, Of(s)), nofork)
    decreases PipeTo(a, both, rest), 0
  {
    hide Exec, Run3, Tree3, Tree2, Fits;
    var i1, i2 := PipeFlags(own, both, inh, p, nofork);
    var p1, p2 := p.(pout := true, err := p.err || both), p.(pin := true, err := false);
    Means3(w, a, m.(pout := true, perr := m.perr || both), false, i1, p1, s);
    var s1 := Exec(w, Tree3(a, false), i1, s);
    Means2(w, rest, m.(pin := true), nofork, i2, p2, s1);
    PipeRuns(w, Tree3(a, false), Tree2(rest, nofork), own, inh, i1, i2, s);
    assert Run2(w, PipeTo(a, both, rest), nofork, p, Of(s)) == Run2(w, rest, nofork, p2, Run3(w, a, false, p1, Of(s)));
  }

  /** What a pipe hands to its two sides. */
  lemma {:induction false} PipeFlags(own: set<Flag>, both: bool, inh: set<Flag>, p: Place, nofork: bool)
    returns (i1: set<Flag>, i2: set<Flag>)
    requires Fits(own - {Stderr} + inh, p, nofork) && (Stderr in own <==> both)
    ensures i1 == {PipeOut} + (own + inh) * {PipeIn, Ampersand, Stderr, NoInterrupt}
    ensures i2 == {PipeIn} + (own + inh) * {PipeOut, Ampersand, NoFork, NoInterrupt}
    ensures Fits(i1, p.(pout := true, err := p.err || both), false)
    ensures Fits(i2, p.(pin := true, err := false), nofork)
  {
    var f := own + inh;
    i1 := {PipeOut} + f * {PipeIn, Ampersand, Stderr, NoInterrupt};
    i2 := {PipeIn} + f * {PipeOut, Ampersand, NoFork, NoInterrupt};
    var m, q1, q2 := Marks(p), p.(pout := true, err := p.err || both), p.(pin := true, err := false);
    InMarks(p, own - {Stderr} + inh);
    MarksAre(q1, i1);
    MarksAre(q2, i2);
  }

  ghost predicate Shows(p: Place, f: set<Flag>)
  {
    && (PipeIn in f <==> p.pin) && (PipeOut in f <==> p.pout) && (Stderr in f <==> p.err)
    && (Ampersand in f <==> p.amp) && (NoInterrupt in f <==> p.noint)
  }

  lemma {:induction false} InMarks(p: Place, f: set<Flag>)
    requires f == Marks(p)
    ensures Shows(p, f) && NoFork !in f
  {
  }

  lemma {:induction false} MarksAre(p: Place, f: set<Flag>)
    requires Shows(p, f) && f <= {PipeIn, PipeOut, Stderr, Ampersand, NoInterrupt}
    ensures f == Marks(p)
  {
    assert forall x :: x in f <==> x in Marks(p);
  }

  lemma {:induction false} PipeRuns(w: World, a: Command, b: Command, own: set<Flag>, inh: set<Flag>, i1: set<Flag>,
                                    i2: set<Flag>, s: Shell)
    requires !s.gone
    requires i1 == {PipeOut} + (own + inh) * {PipeIn, Ampersand, Stderr, NoInterrupt}
    requires i2 == {PipeIn} + (own + inh) * {PipeOut, Ampersand, NoFork, NoInterrupt}
    ensures Exec(w, Pipe(a, b, own), inh, s) == Exec(w, b, i2, Exec(w, a, i1, s))
  {
  }

  // ---------- lists ----------

  /** Flags of a node that stands alone. */
  ghost predicate Lone(inh: set<Flag>, noint: bool) { inh == if noint then {NoInterrupt} else {} }

  /** A list hands down what it was handed. */
  lemma {:induction false} LoneParts(inh: set<Flag>, noint: bool)
    requires Lone(inh, noint)
    ensures ({} + inh) * {NoInterrupt} == inh == ({} + inh) * {NoFork, NoInterrupt}
    ensures Fits(inh, Alone(noint), true) && Fits(inh, Alone(noint), false)
  {
    assert {} + inh == inh;
  }

  lemma {:induction false} Means1b(w: World, c: Cmd1b, m: Mode, nofork: bool, inh: set<Flag>, noint: bool, s: Shell)
    requires Ok1b(c, m) && !s.gone && Lone(inh, noint)
    ensures Agrees(Exec(w, Tree1b(c, nofork), inh, s), Run1b(w, c, nofork, noint, Of(s)), nofork)
    decreases c, 1
  {
    LoneParts(inh, noint);
    hide Exec, Run2, Tree2, Lone;
    match c
    case Only2(a) => Means2(w, a, m, nofork, inh, Alone(noint), s);
    case AndThen(a, rest) =>
      Means2(w, a, m, false, inh, Alone(noint), s);
      var s1 := Exec(w, Tree2(a, false), inh, s);
      Means1b(w, rest, m, nofork, inh, noint, s1);
      PairRuns(w, true, Tree2(a, false), Tree1b(rest, nofork), inh, s);
  }

  /** && and ||: the second command runs or not by the status of the first. */
  lemma {:induction false} PairRuns(w: World, both: bool, a: Command, b: Command, inh: set<Flag>, s: Shell)
    requires !s.gone
    ensures var t := if both then And(a, b, {}) else Or(a, b, {});
            var s1 := Exec(w, a, ({} + inh) * {NoInterrupt}, s);
            Exec(w, t, inh, s) ==
            if (s1.status == 0) == both then Exec(w, b, ({} + inh) * {NoFork, NoInterrupt}, s1) else s1
  {
  }

  lemma {:induction false} Means1a(w: World, c: Cmd1a, m: Mode, nofork: bool, inh: set<Flag>, noint: bool, s: Shell)
    requires Ok1a(c, m) && !s.gone && Lone(inh, noint)
    ensures Agrees(Exec(w, Tree1a(c, nofork), inh, s), Run1a(w, c, nofork, noint, Of(s)), nofork)
    decreases c, 1
  {
    LoneParts(inh, noint);
    hide Exec, Run1b, Tree1b, Lone;
    match c
    case Only1b(a) => Means1b(w, a, m, nofork, inh, noint, s);
    case OrElse(a, rest) =>
      Means1b(w, a, m, false, inh, noint, s);
      var s1 := Exec(w, Tree1b(a, false), inh, s);
      Means1a(w, rest, m, nofork, inh, noint, s1);
      PairRuns(w, false, Tree1b(a, false), Tree1a(rest, nofork), inh, s);
  }

  lemma {:induction false} ListRuns(w: World, a: Option<Command>, b: Option<Command>, inh: set<Flag>, s: Shell)
    requires !s.gone
    ensures var s1 := if a.None? then s else Exec(w, a.value, ({} + inh) * {NoInterrupt}, s);
            Exec(w, List(a, b, {}), inh, s) ==
            if b.None? then s1 else Exec(w, b.value, ({} + inh) * {NoFork, NoInterrupt}, s1)
  {
  }

  lemma {:induction false} Means1(w: World, c: Cmd1, m: Mode, nofork: bool, inh: set<Flag>, noint: bool, s: Shell)
    requires Ok1(c, m) && !s.gone && Lone(inh, noint)
    ensures Agrees(Exec(w, Tree1(c, nofork), inh, s), Run1(w, c, nofork, noint, Of(s)), nofork)
    decreases c, 1
  {
    LoneParts(inh, noint);
    hide Exec, Run1a, Tree1a, Lone;
    match c
    case Only1a(a) => Means1a(w, a, m, nofork, inh, noint, s);
    case Then(a, _, rest) =>
      if rest.None? {
        Means1a(w, a, m, false, inh, noint, s);
        ListRuns(w, None, Some(Tree1a(a, false)), inh, s);
      } else {
        Means1a(w, a, m, false, inh, noint, s);
        var s1 := Exec(w, Tree1a(a, false), inh, s);
        Means1(w, rest.value, m, nofork, inh, noint, s1);
        ListRuns(w, Some(Tree1a(a, false)), Some(Tree1(rest.value, nofork)), inh, s);
      }
  }

  lemma {:induction false} MeansAmp(w: World, c: Cmd1, m: Mode, inh: set<Flag>, noint: bool, s: Shell)
    requires Ok1(c, m) && !s.gone && Lone(inh, noint)
    ensures Agrees(Exec(w, AmpTree(c), inh, s), RunAmp(w, c, Of(s)), false)
    decreases c, 2
  {
    if c.Only1a? && c.c.Only1b? && c.c.c.Only2? {
      assert Ok1a(c.c, m);
      assert Ok1b(c.c.c, m);
      MeansMarked(w, c, m, inh, noint, s);
    } else {
      hide Run1, Tree1;
      var marks := {Ampersand, NoInterrupt};
      assert (marks + inh) * {NoInterrupt} == {NoInterrupt};
      Means1(w, c, m, false, {NoInterrupt}, true, Shell(s.log, 0, false));
    }
  }

  /** One command, group or pipeline with the marks of the background. */
  lemma {:induction false} MeansMarked(w: World, c: Cmd1, m: Mode, inh: set<Flag>, noint: bool, s: Shell)
    requires c.Only1a? && c.c.Only1b? && c.c.c.Only2? && Ok2(c.c.c.c, m) && !s.gone && Lone(inh, noint)
    ensures Agrees(Exec(w, AmpTree(c), inh, s),
                   Run2(w, c.c.c.c, false, Place(false, false, false, true, true), Of(s)), false)
    decreases c, 1
  {
    var d, p, marks := c.c.c.c, Place(false, false, false, true, true), {Ampersand, NoInterrupt};
    assert Fits(marks + inh, p, false) by { assert Marks(p) == marks; }
    match d
    case PipeTo(a, both, rest) =>
      hide Exec, Run2, Tree2, Tree3, Fits;
      var own := (if both then {Stderr} else {}) + marks;
      assert own - {Stderr} == marks;
      MeansPipe(w, a, both, rest, m, false, own, inh, p, s);
    case Only3(a) =>
      hide Exec, Run3, Tree3, Fits;
      MarkedRuns(w, a, marks, inh, s);
      Means3(w, a, m, false, marks + inh, p, s);
      assert Run2(w, d, false, p, Of(s)) == Run3(w, a, false, p, Of(s));
  }

  /** Marks on a node do what marks handed down to it do. */
  lemma {:induction false} MarkedRuns(w: World, a: Cmd3, marks: set<Flag>, inh: set<Flag>, s: Shell)
    requires marks == {Ampersand, NoInterrupt}
    ensures Exec(w, AmpTree(Only1a(Only1b(Only2(Only3(a))))), inh, s) == Exec(w, Tree3(a, false), marks + inh, s)
  {
    hide Tree0, AddItems;
    var t := Tree3(a, false);
    assert t.flags + marks + inh == t.flags + (marks + inh);
  }

  lemma {:induction false} Means0(w: World, c: Cmd0, m: Mode, nofork: bool, inh: set<Flag>, noint: bool, s: Shell)
    requires Ok0(c, m) && !s.gone && Lone(inh, noint)
    ensures Agrees(Exec(w, Tree0(c, nofork), inh, s), Run0(w, c, nofork, noint, Of(s)), nofork)
    decreases c, 1
  {
    LoneParts(inh, noint);
    hide Exec, Run1, RunAmp, Tree1, AmpTree, Lone;
    match c
    case Only1(a) => Means1(w, a, m, nofork, inh, noint, s);
    case Amp(a, _, rest) =>
      MeansAmp(w, a, m, inh, noint, s);
      var s1 := Exec(w, AmpTree(a), inh, s);
      ListRuns(w, Some(AmpTree(a)), if rest.None? then None else Some(Tree0(rest.value, nofork)), inh, s);
      if rest.Some? { Means0(w, rest.value, m, nofork, inh, noint, s1); }
  }

  // ---------- whole lines ----------

  /** The final newline changes nothing. */
  lemma {:induction false} LineSame1(w: World, c: Cmd1, noint: bool, s: Ran)
    ensures Run1(w, Line1(c), false, noint, s) == Run1(w, c, false, noint, s)
    decreases c
  {
    hide Run1a;
    if c.Then? && c.rest.Some? { LineSame1(w, c.rest.value, noint, Run1a(w, c.c, false, noint, s)); }
  }

  lemma {:induction false} LineSame0(w: World, c: Cmd0, noint: bool, s: Ran)
    ensures Run0(w, Line0(c), false, noint, s) == Run0(w, c, false, noint, s)
    decreases c
  {
    hide Run1, RunAmp;
    if c.Only1? {
      LineSame1(w, c.c, noint, s);
    } else if c.rest.Some? {
      LineSame0(w, c.rest.value, noint, RunAmp(w, c.c, s));
    }
  }

  /**
   * For every well-formed command line: running the tree that syntax makes of its words starts exactly the
   * commands of its meaning, in order and with their plumbing, ends with its status, and leaves the shell
   * alive.
   */
  lemma {:induction false} LineMeans(w: World, lead: seq<Token>, c: Cmd0, s: Shell)
    requires Ok0(c, Mode(false, false, false, false)) && !s.gone && forall k | 0 <= k < |lead| :: IsSep(lead[k])
    ensures var t := Syntax(lead + (Print0(c) + ["\n"]), NUL, Mode(false, false, false, false), None);
            t.tree.Some? && t.err.None? &&
            var r := Run0(w, c, false, false, Ran(s.log, s.status, false));
            Exec(w, t.tree.value, {}, s) == Shell(r.log, r.status, false) && !r.gone
  {
    hide Exec, Run0, Syntax, Tree0, Print0, Ok0;
    var m := Mode(false, false, false, false);
    PrintThenParse(lead, c);
    Line0Prints(c, m);
    var inh: set<Flag> := {};
    assert Lone(inh, false);
    Means0(w, Line0(c), m, false, inh, false, s);
    LineSame0(w, c, false, Of(s));
  }

  /** The shell's own walk over a parsed line. */
  method RunLine(shell: Executor, ghost lead: seq<Token>, ghost c: Cmd0, t: Command)
    requires Ok0(c, Mode(false, false, false, false)) && !shell.gone && forall k | 0 <= k < |lead| :: IsSep(lead[k])
    requires Syntax(lead + (Print0(c) + ["\n"]), NUL, Mode(false, false, false, false), None).tree == Some(t)
    modifies shell
    ensures !shell.gone
    ensures Ran(shell.log, shell.status, false) ==
            Run0(shell.w, c, false, false, old(Ran(shell.log, shell.status, false)))
  {
    LineMeans(shell.w, lead, c, shell.View());
    hide Exec, Run0, Syntax, Print0, Ok0;
    shell.Execute(t, {});
  }
}
