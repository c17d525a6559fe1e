/**
 * The control-flow builtins of bin/csh/func.c, run one script line at a time: there is no
 * parsed program, only an input position and the stack `whyles` of active loops.
 *
 * The functions give each builtin's effect on a state value; the class below performs the
 * same builtins by updating its fields and is proved against them.
 */
module ScriptMachine {
  import opened Wrappers
  import opened ScriptSearch

  /** Input position (after the line being run), active loops innermost first, store. */
  datatype State<+S> = State(pos: nat, loops: seq<Loop>, store: S)

  predicate Inside(l: Loop, pos: nat)
  {
    l.start <= pos && (l.end == 0 || pos < l.end)
  }

  /** wfree: drops loops until one contains the position. */
  function WFree(pos: nat, loops: seq<Loop>): seq<Loop>
  {
    if loops == [] || Inside(loops[0], pos) then loops else WFree(pos, loops[1..])
  }

  function Seek<S>(s: State<S>, pos: nat): State<S>
  {
    s.(pos := pos)
  }

  /** A search from the current line start, with the loop stack it leaves. */
  function Jump<S>(m: Meaning<S>, lines: seq<Line>, goal: Goal, s: State<S>): Option<State<S>>
  {
    match Search(m, s.store, lines, goal, if goal.ToGoto? then 0 else s.pos / 2, Scan(0, 0, s.loops))
    case None => None
    case Some(f) => Some(State(f.pos, f.loops, s.store))
  }

  function ToEnd<S>(m: Meaning<S>, lines: seq<Line>, s: State<S>): Option<State<S>>
    requires s.loops != []
  {
    var l := s.loops[0];
    if l.end != 0 then Some(State(l.end, WFree(l.end, s.loops), s.store))
    else
      match Jump(m, lines, ToBreak, s)
      case None => None
      case Some(t) =>
        if t.pos == 0 then None   // a scan never stops at the beginning of the input
        else Some(State(t.pos, WFree(t.pos, s.loops[0 := l.(end := t.pos - 1)]), s.store))
  }

  function DoBreak<S>(m: Meaning<S>, lines: seq<Line>, s: State<S>): Option<State<S>>
  {
    if s.loops == [] then None else ToEnd(m, lines, s)
  }

  function DoAgain<S>(m: Meaning<S>, lines: seq<Line>, s: State<S>): Option<State<S>>
    requires s.loops != []
  {
    var l := s.loops[0];
    match l.fe
    case None => Some(Seek(s, l.start))
    case Some(w) =>
      if |w.left| <= 1 then DoBreak(m, lines, s)
      else Some(State(l.start, s.loops[0 := l.(fe := Some(Words(w.loop, w.left[1..])))],
                      m.bind(w.loop, w.left[0], s.store)))
  }

  function DoContin<S>(m: Meaning<S>, lines: seq<Line>, s: State<S>): Option<State<S>>
  {
    if s.loops == [] then None else DoAgain(m, lines, s)
  }

  function DoEnd<S>(m: Meaning<S>, lines: seq<Line>, s: State<S>): Option<State<S>>
  {
    if s.loops == [] then None
    else DoAgain(m, lines, s.(loops := s.loops[0 := s.loops[0].(end := s.pos)]))
  }

  function DoForeach<S>(m: Meaning<S>, lines: seq<Line>, id: nat, s: State<S>): Option<State<S>>
  {
    var l := Loop(s.pos, 0, Some(Words(id, m.words(id, s.store) + [")"])));
    DoAgain(m, lines, s.(loops := [l] + s.loops))
  }

  /** `lineloc` is where the while line started. */
  function DoWhile<S>(m: Meaning<S>, lines: seq<Line>, lineloc: nat, cond: nat, s: State<S>): Option<State<S>>
  {
    var again := s.loops != [] && s.loops[0].start == lineloc && s.loops[0].fe.None?;
    var (go, store) := m.test(cond, s.store);
    var s' := State(s.pos, if again then s.loops else [Loop(lineloc, 0, None)] + s.loops, store);
    if go then Some(s') else ToEnd(m, lines, s')
  }

  function DoIfThen<S>(m: Meaning<S>, lines: seq<Line>, cond: nat, s: State<S>): Option<State<S>>
  {
    var (go, store) := m.test(cond, s.store);
    if go then Some(s.(store := store)) else Jump(m, lines, ToIf, s.(store := store))
  }

  /** The first loop of gotolab: walks outwards and fills in every unknown loop end. */
  function FindEnds<S>(m: Meaning<S>, lines: seq<Line>, pos: nat, loops: seq<Loop>, st: S): Option<seq<Loop>>
    decreases |loops|
  {
    if loops == [] then Some([])
    else
      var l := loops[0];
      var end := if l.end != 0 then Some(l.end)
                 else match Search(m, st, lines, ToBreak, pos / 2, Scan(0, 0, loops))
                      case None => None
                      case Some(f) => Some(f.pos);
      if end.None? then None
      else
        match FindEnds(m, lines, end.value, loops[1..], st)
        case None => None
        case Some(rest) => Some([l.(end := end.value)] + rest)
  }

  function GotoLab<S>(m: Meaning<S>, lines: seq<Line>, name: nat, s: State<S>): Option<State<S>>
  {
    match FindEnds(m, lines, s.pos, s.loops, s.store)
    case None => None
    case Some(loops) =>
      match Jump(m, lines, ToGoto(name), s.(loops := loops))
      case None => None
      case Some(t) => Some(t.(loops := WFree(t.pos, t.loops)))
  }

  function DoSimple<S>(m: Meaning<S>, lines: seq<Line>, c: Simple, s: State<S>): Option<State<S>>
  {
    match c
    case Command(id) => Some(s.(store := m.run(id, s.store)))
    case Break => DoBreak(m, lines, s)
    case Continue => DoContin(m, lines, s)
    case BreakSw => Jump(m, lines, ToBrkSw, s)
    case Goto(name) => GotoLab(m, lines, name, s)
  }

  /** Runs one line that started at `lineloc`; s.pos is already past it. */
  function Execute<S>(m: Meaning<S>, lines: seq<Line>, lineloc: nat, line: Line, s: State<S>): Option<State<S>>
  {
    match line
    case Plain(c) => DoSimple(m, lines, c, s)
    case IfSimple(cond, c) =>
      var (go, store) := m.test(cond, s.store);
      if go then DoSimple(m, lines, c, s.(store := store)) else Some(s.(store := store))
    case IfThen(cond) => DoIfThen(m, lines, cond, s)
    case Else => Jump(m, lines, ToElse, s)
    case ElseIf(_) => Jump(m, lines, ToElse, s)
    case While(cond) => DoWhile(m, lines, lineloc, cond, s)
    case Foreach(id) => DoForeach(m, lines, id, s)
    case End => DoEnd(m, lines, s)
    case Switch(w) => Jump(m, lines, ToSwitch(w), s)
    case _ => Some(s)     // endif, endsw, case, default, labels: dozip
  }

  /** What is left of a line after its leading else. */
  function Tail(line: Line): Line
  {
    if line.ElseIf? then IfThen(line.cond) else Label(0)
  }

  /** One turn of the command loop; None when the input is used up or the line fails. */
  function Step<S>(m: Meaning<S>, lines: seq<Line>, s: State<S>): Option<State<S>>
  {
    var i := s.pos / 2;
    if i >= |lines| then None
    else
      var line := if s.pos % 2 == 0 then lines[i] else Tail(lines[i]);
      Execute(m, lines, s.pos, line, s.(pos := 2 * (i + 1)))
  }

  function Run<S>(m: Meaning<S>, lines: seq<Line>, s: State<S>, n: nat): Option<State<S>>
    decreases n
  {
    if n == 0 then Some(s)
    else match Step(m, lines, s)
         case None => None
         case Some(t) => Run(m, lines, t, n - 1)
  }

  /** The shell's control state, updated in place. Every method reports whether it succeeded. */
  class Interpreter<S(==)> {
    const m: Meaning<S>
    const lines: seq<Line>
    var pos: nat
    var whyles: seq<Loop>
    var store: S
    var lineloc: nat

    function View(): State<S> reads this { State(pos, whyles, store) }

    constructor (m: Meaning<S>, lines: seq<Line>, store: S)
      ensures this.m == m && this.lines == lines && View() == State(0, [], store)
    {
      this.m, this.lines, this.store := m, lines, store;
      pos, whyles, lineloc := 0, [], 0;
    }

    /** The switch statement inside search, for a line that does not end the scan midway. */
    method ScanOne(goal: Goal, line: Line, level0: int, wlevel0: int) returns (level: int, wlevel: int)
      modifies this`whyles
      ensures Scan(level, wlevel, whyles) == ScanLine(m, store, goal, line, Scan(level0, wlevel0, old(whyles)))
    {
      level, wlevel := level0, wlevel0;
      match line {
        case Case(p) =>
          if goal.ToSwitch? && level == 0 && m.matches(goal.word, p, store) { level := -1; }
        case Default =>
          if goal.ToSwitch? && level == 0 { level := -1; }
        case End =>
          if goal.ToBrkSw? && wlevel == 0 && whyles != [] { whyles := whyles[1..]; }
          if goal.ToBreak? { level := level - 1; }
          wlevel := wlevel - 1;
        case EndIf =>
          if goal.ToIf? || goal.ToElse? { level := level - 1; }
        case EndSw =>
          if goal.ToSwitch? || goal.ToBrkSw? { level := level - 1; }
        case IfThen(_) =>
          if goal.ToIf? || goal.ToElse? { level := level + 1; }
        case Label(l) =>
          if goal.ToGoto? && goal.name == l { level := -1; }
        case Switch(_) =>
          if goal.ToSwitch? || goal.ToBrkSw? { level := level + 1; }
        case While(_) =>
          wlevel := wlevel + 1;
          if goal.ToBreak? { level := level + 1; }
        case Foreach(_) =>
          wlevel := wlevel + 1;
          if goal.ToBreak? { level := level + 1; }
        case _ =>
      }
    }

    /** search */
    method SearchFor(goal: Goal) returns (ok: bool)
      modifies this`pos, this`whyles
      ensures ok <==> old(Jump(m, lines, goal, View())).Some?
      ensures ok ==> View() == old(Jump(m, lines, goal, View())).value
    {
      ghost var want := Search(m, store, lines, goal, if goal.ToGoto? then 0 else pos / 2, Scan(0, 0, whyles));
      var i := if goal.ToGoto? then 0 else pos / 2;
      var level, wlevel := 0, 0;
      while level >= 0
        invariant level >= 0 ==> want == Search(m, store, lines, goal, i, Scan(level, wlevel, whyles))
        invariant level < 0 ==> want == Some(Found(pos, whyles))
        decreases |lines| - i, level >= 0
      {
        if i >= |lines| { return false; }
        if (lines[i].Else? || lines[i].ElseIf?) && level == 0 && goal.ToIf? {
          pos := 2 * i + 1;
          return true;
        }
        level, wlevel := ScanOne(goal, lines[i], level, wlevel);
        i := i + 1;
        pos := 2 * i;
      }
      ok := true;
    }

    /** wfree */
    method FreeLoops()
      modifies this`whyles
      ensures whyles == WFree(pos, old(whyles))
    {
      while whyles != [] && !Inside(whyles[0], pos)
        invariant WFree(pos, whyles) == WFree(pos, old(whyles))
        decreases |whyles|
      {
        whyles := whyles[1..];
      }
    }

    /** toend */
    method GoToEnd() returns (ok: bool)
      requires whyles != []
      modifies this`pos, this`whyles
      ensures ok <==> old(ToEnd(m, lines, View())).Some?
      ensures ok ==> View() == old(ToEnd(m, lines, View())).value
    {
      if whyles[0].end == 0 {
        ghost var before := whyles;
        ok := SearchFor(ToBreak);
        if !ok { return; }
        SearchKeepsLoops(m, store, lines, ToBreak, old(pos) / 2, Scan(0, 0, before));
        whyles := whyles[0 := whyles[0].(end := pos - 1)];
      } else {
        pos := whyles[0].end;
      }
      FreeLoops();
      ok := true;
    }

    /** dobreak */
    method BreakLoop() returns (ok: bool)
      modifies this`pos, this`whyles
      ensures ok <==> old(DoBreak(m, lines, View())).Some?
      ensures ok ==> View() == old(DoBreak(m, lines, View())).value
    {
      if whyles == [] { return false; }
      ok := GoToEnd();
    }

    /** doagain */
    method Again() returns (ok: bool)
      requires whyles != []
      modifies this`pos, this`whyles, this`store
      ensures ok <==> old(DoAgain(m, lines, View())).Some?
      ensures ok ==> View() == old(DoAgain(m, lines, View())).value
    {
      var l := whyles[0];
      if l.fe.None? {
        pos := l.start;
        return true;
      }
      if |l.fe.value.left| <= 1 {
        ok := BreakLoop();
        return;
      }
      store := m.bind(l.fe.value.loop, l.fe.value.left[0], store);
      whyles := whyles[0 := l.(fe := Some(Words(l.fe.value.loop, l.fe.value.left[1..])))];
      pos := l.start;
      ok := true;
    }

    /** docontin */
    method ContinueLoop() returns (ok: bool)
      modifies this`pos, this`whyles, this`store
      ensures ok <==> old(DoContin(m, lines, View())).Some?
      ensures ok ==> View() == old(DoContin(m, lines, View())).value
    {
      if whyles == [] { return false; }
      ok := Again();
    }

    /** doend */
    method EndLoop() returns (ok: bool)
      modifies this`pos, this`whyles, this`store
      ensures ok <==> old(DoEnd(m, lines, View())).Some?
      ensures ok ==> View() == old(DoEnd(m, lines, View())).value
    {
      if whyles == [] { return false; }
      whyles := whyles[0 := whyles[0].(end := pos)];
      ok := Again();
    }

    /** doforeach */
    method StartForeach(id: nat) returns (ok: bool)
      modifies this`pos, this`whyles, this`store
      ensures ok <==> old(DoForeach(m, lines, id, View())).Some?
      ensures ok ==> View() == old(DoForeach(m, lines, id, View())).value
    {
      whyles := [Loop(pos, 0, Some(Words(id, m.words(id, store) + [")"])))] + whyles;
      ok := Again();
    }

    /** dowhile */
    method StartWhile(cond: nat) returns (ok: bool)
      modifies this`pos, this`whyles, this`store
      ensures ok <==> old(DoWhile(m, lines, lineloc, cond, View())).Some?
      ensures ok ==> View() == old(DoWhile(m, lines, lineloc, cond, View())).value
    {
      var again := whyles != [] && whyles[0].start == lineloc && whyles[0].fe.None?;
      var r := m.test(cond, store);
      store := r.1;
      if !again {
        whyles := [Loop(lineloc, 0, None)] + whyles;
      }
      ok := true;
      if !r.0 {
        ok := GoToEnd();
      }
    }

    /** doif, when the line ends in then */
    method StartIf(cond: nat) returns (ok: bool)
      modifies this`pos, this`whyles, this`store
      ensures ok <==> old(DoIfThen(m, lines, cond, View())).Some?
      ensures ok ==> View() == old(DoIfThen(m, lines, cond, View())).value
    {
      var r := m.test(cond, store);
      store := r.1;
      ok := true;
      if !r.0 {
        ok := SearchFor(ToIf);
      }
    }

    /** gotolab */
    method GoToLabel(name: nat) returns (ok: bool)
      modifies this`pos, this`whyles
      ensures ok <==> old(GotoLab(m, lines, name, View())).Some?
      ensures ok ==> View() == old(GotoLab(m, lines, name, View())).value
    {
      hide FindEnds, Search;
      ghost var all := FindEnds(m, lines, pos, whyles, store);
      var wp := 0;
      EndsStart(whyles, all);
      while wp < |whyles|
        invariant wp <= |whyles| && all == EndsSoFar(whyles[..wp], FindEnds(m, lines, pos, whyles[wp..], store))
      {
        ghost var before, here := whyles, pos;
        if whyles[wp].end == 0 {
          SearchKeepsLoops(m, store, lines, ToBreak, pos / 2, Scan(0, 0, whyles));
          SearchIgnoresLoops(m, store, lines, ToBreak, pos / 2, Scan(0, 0, whyles), whyles[wp..]);
          ok := SearchFor(ToBreak);
          if !ok {
            NoEnd(m, lines, here, before[wp..], store);
            return;
          }
          whyles := whyles[wp := whyles[wp].(end := pos)];
        } else {
          pos := whyles[wp].end;
          assert whyles == whyles[wp := whyles[wp].(end := pos)];
        }
        OneEnd(m, lines, here, before, wp, pos, store);
        wp := wp + 1;
      }
      EndsAll(m, lines, pos, whyles, store);
      ok := SearchFor(ToGoto(name));
      if ok { FreeLoops(); }
    }

    method RunSimple(c: Simple) returns (ok: bool)
      modifies this`pos, this`whyles, this`store
      ensures ok <==> old(DoSimple(m, lines, c, View())).Some?
      ensures ok ==> View() == old(DoSimple(m, lines, c, View())).value
    {
      match c {
        case Command(id) => store := m.run(id, store); ok := true;
        case Break => ok := BreakLoop();
        case Continue => ok := ContinueLoop();
        case BreakSw => ok := SearchFor(ToBrkSw);
        case Goto(name) => ok := GoToLabel(name);
      }
    }

    /** One turn of the command loop: reads a line, notes where it began, runs it. */
    method RunLine() returns (ok: bool)
      modifies this
      ensures ok <==> old(Step(m, lines, View())).Some?
      ensures ok ==> View() == old(Step(m, lines, View())).value
    {
      hide DoSimple, DoIfThen, DoWhile, DoForeach, DoEnd, Jump;
      var i := pos / 2;
      if i >= |lines| { return false; }
      lineloc := pos;
      var line := if pos % 2 == 0 then lines[i] else Tail(lines[i]);
      pos := 2 * (i + 1);
      match line {
        case Plain(c) => ok := RunSimple(c);
        case IfSimple(cond, c) =>
          var r := m.test(cond, store);
          store := r.1;
          ok := true;
          if r.0 { ok := RunSimple(c); }
        case IfThen(cond) => ok := StartIf(cond);
        case Else => ok := SearchFor(ToElse);
        case ElseIf(_) => ok := SearchFor(ToElse);
        case While(cond) => ok := StartWhile(cond);
        case Foreach(id) => ok := StartForeach(id);
        case End => ok := EndLoop();
        case Switch(w) => ok := SearchFor(ToSwitch(w));
        case _ => ok := true;
      }
    }
  }

  /** Only a breaksw scan touches the loop stack, and a scan always moves forward. */
  lemma {:induction false} SearchKeepsLoops<S>(m: Meaning<S>, st: S, lines: seq<Line>, goal: Goal, i: nat, sc: Scan)
    requires !goal.ToBrkSw?
    ensures var r := Search(m, st, lines, goal, i, sc);
            r.Some? ==> r.value.loops == sc.loops && r.value.pos > 2 * i
    decreases |lines| - i
  {
    if i < |lines| {
      SearchKeepsLoops(m, st, lines, goal, i + 1, ScanLine(m, st, goal, lines[i], sc));
    }
  }

  lemma {:induction false} SearchIgnoresLoops<S>(m: Meaning<S>, st: S, lines: seq<Line>, goal: Goal, i: nat,
                                                 sc: Scan, loops: seq<Loop>)
    requires !goal.ToBrkSw?
    ensures var r, r' := Search(m, st, lines, goal, i, sc), Search(m, st, lines, goal, i, sc.(loops := loops));
            r.Some? == r'.Some? && (r.Some? ==> r.value.pos == r'.value.pos)
    decreases |lines| - i
  {
    hide ScanLine;
    if i < |lines| {
      ScanIgnoresLoops(m, st, goal, lines[i], sc, loops);
      SearchIgnoresLoops(m, st, lines, goal, i + 1, ScanLine(m, st, goal, lines[i], sc), loops);
    }
  }

  lemma {:induction false} ScanIgnoresLoops<S>(m: Meaning<S>, st: S, goal: Goal, line: Line, sc: Scan,
                                               loops: seq<Loop>)
    requires !goal.ToBrkSw?
    ensures ScanLine(m, st, goal, line, sc.(loops := loops)) == ScanLine(m, st, goal, line, sc).(loops := loops)
  {
  }

  // ---------- the ends that gotolab fills in ----------

  /** Loops whose ends are known, before those whose ends are found. */
  function EndsSoFar(done: seq<Loop>, found: Option<seq<Loop>>): Option<seq<Loop>>
  {
    if found.None? then None else Some(done + found.value)
  }

  lemma {:induction false} EndsStart(loops: seq<Loop>, found: Option<seq<Loop>>)
    ensures loops[0..] == loops && EndsSoFar(loops[..0], found) == found
  {
    if found.Some? { assert loops[..0] + found.value == found.value; }
  }

  lemma {:induction false} EndsAll<S>(m: Meaning<S>, lines: seq<Line>, pos: nat, loops: seq<Loop>, st: S)
    ensures EndsSoFar(loops[..|loops|], FindEnds(m, lines, pos, loops[|loops|..], st)) == Some(loops)
  {
    assert loops[|loops|..] == [] && loops[..|loops|] + [] == loops;
  }

  lemma {:induction false} NoEnd<S>(m: Meaning<S>, lines: seq<Line>, pos: nat, loops: seq<Loop>, st: S)
    requires loops != [] && loops[0].end == 0
    requires Search(m, st, lines, ToBreak, pos / 2, Scan(0, 0, loops)).None?
    ensures FindEnds(m, lines, pos, loops, st).None?
  {
  }

  lemma {:induction false} OneEnd<S>(m: Meaning<S>, lines: seq<Line>, pos: nat, loops: seq<Loop>, k: nat, end: nat, st: S)
    requires k < |loops| && (loops[k].end != 0 ==> end == loops[k].end)
    requires loops[k].end == 0 ==> var r := Search(m, st, lines, ToBreak, pos / 2, Scan(0, 0, loops[k..]));
                                   r.Some? && r.value.pos == end
    ensures var after := loops[k := loops[k].(end := end)];
            EndsSoFar(loops[..k], FindEnds(m, lines, pos, loops[k..], st)) ==
            EndsSoFar(after[..k + 1], FindEnds(m, lines, end, after[k + 1..], st))
  {
    hide Search;
    var after, l := loops[k := loops[k].(end := end)], loops[k].(end := end);
    assert loops[k..][1..] == after[k + 1..] && after[..k + 1] == loops[..k] + [l];
    var rest := FindEnds(m, lines, end, after[k + 1..], st);
    if rest.Some? { assert loops[..k] + ([l] + rest.value) == loops[..k] + [l] + rest.value; }
  }
}
