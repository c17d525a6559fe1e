/**
 * What every step keeps, on every well-nested script: the active loops are exactly the loops that are
 * open at the input position. The only steps that break it are known exactly.
 */
module ScriptInvariant {
  import opened Wrappers
  import opened ScriptSearch
  import opened ScriptMachine
  import opened ScriptLoops
  import opened ScriptGoto
  import opened ScriptBreaksw

  /** A scan around an if or a switch does not change which loops are open. */
  lemma {:induction false} JumpKeeps<S>(m: Meaning<S>, lines: seq<Line>, goal: Goal, s: State<S>, q: nat,
                     ext: seq<Open>, target: Open, outer: seq<Open>)
    requires WellNested(lines) && q <= |lines| && s.pos == 2 * q && OpenAt(lines, q) == Some(ext + [target] + outer)
    requires Counted(goal, target) && !target.OpenLoop? && Count(goal, ext) == 0 && Count(ToBreak, ext) == 0
    requires StackOf(lines, s.loops, LoopLines(OpenAt(lines, q).value))
    ensures Jump(m, lines, goal, s).Some? && Inv(lines, Jump(m, lines, goal, s).value)
  {
    hide Search;
    var j := SearchFindsPartner(m, s.store, lines, goal, q, Scan(0, 0, s.loops), ext, target, outer);
    assert ext + [target] + outer == ext + ([target] + outer);
    LoopLinesSkip(ext, [target] + outer);
    LoopLinesSkip([target], outer);
    OpenAtDefined(lines, j + 1);
    assert ([target] + outer)[1..] == outer;
  }

  /** breaksw pops as many loops as it leaves, goto enters none that is not active; q is the next line. */
  ghost predicate TameSimple(lines: seq<Line>, q: nat, c: Simple)
    requires q <= |lines| && OpenAt(lines, q).Some?
  {
    match c
    case BreakSw => PopsRight(lines, q)
    case Goto(name) =>
      forall p | LabelledAt(lines, name, p) :: OpenAt(lines, p).Some? ==> EntersNoLoop(lines, q, p)
    case _ => true
  }

  /** Exactly the tame commands keep the active loops equal to the open ones. */
  lemma {:induction false} SimpleInv<S>(m: Meaning<S>, lines: seq<Line>, c: Simple, s: State<S>, q: nat)
    requires WellNested(lines) && q <= |lines| && s.pos == 2 * q && OpenAt(lines, q).Some?
    requires StackOf(lines, s.loops, LoopLines(OpenAt(lines, q).value))
    ensures var t := DoSimple(m, lines, c, s); t.Some? ==> (Inv(lines, t.value) <==> TameSimple(lines, q, c))
  {
    hide OpenAt, ToEnd, DoAgain, Jump, GotoLab, PopsRight;
    match c
    case Command(_) =>
    case Break =>
      if s.loops != [] { var j := ToEndPops(m, lines, s, q); }
    case Continue =>
      if s.loops != [] { AgainKeeps(m, lines, s, q); }
    case BreakSw =>
      var t := Jump(m, lines, ToBrkSw, s);
      if t.Some? { BreakswInv(m, lines, s, q, t.value); }
    case Goto(name) =>
      var t := GotoLab(m, lines, name, s);
      if t.Some? { GotoTame(m, lines, name, s, q, t.value); }
  }

  lemma {:induction false} GotoTame<S>(m: Meaning<S>, lines: seq<Line>, name: nat, s: State<S>, q: nat, t: State<S>)
    requires WellNested(lines) && q <= |lines| && OpenAt(lines, q).Some? && s.pos == 2 * q
    requires StackOf(lines, s.loops, LoopLines(OpenAt(lines, q).value))
    requires GotoLab(m, lines, name, s) == Some(t)
    ensures Inv(lines, t) <==> TameSimple(lines, q, Goto(name))
  {
    hide OpenAt, GotoLab, Inv, EntersNoLoop;
    GotoInv(m, lines, name, s, q, t);
    var _, _ := GotoKeepsContaining(m, lines, name, s, q, t);
    forall p | LabelledAt(lines, name, p) ensures p == t.pos / 2 { OneFirstLabel(lines, name, p, t.pos / 2); }
  }

  lemma {:induction false} OneFirstLabel(lines: seq<Line>, name: nat, p: nat, p': nat)
    requires LabelledAt(lines, name, p) && LabelledAt(lines, name, p')
    ensures p == p'
  {
    assert lines[p - 1] == lines[p' - 1];
  }

  /** dowhile enters a loop once: the entry is new unless the stack already ends with it. */
  lemma {:induction false} WhileStack(lines: seq<Line>, i: nat, loops: seq<Loop>) returns (stack: seq<Loop>)
    requires WellNested(lines) && i < |lines| && lines[i].While? && StackAt(lines, i, loops)
    ensures stack == if loops != [] && loops[0].start == 2 * i && loops[0].fe.None? then loops
                     else [Loop(2 * i, 0, None)] + loops
    ensures OpenAt(lines, i + 1).Some? && StackOf(lines, stack, LoopLines(OpenAt(lines, i + 1).value))
  {
    hide Closes;
    var open := OpenAt(lines, i).value;
    var os := LoopLines(open);
    OpenAtDefined(lines, i + 1);
    assert ([OpenLoop(i)] + open)[1..] == open;
    assert LoopLines(OpenAt(lines, i + 1).value) == [i] + os;
    hide OpenAt, LoopLines;
    if StackOf(lines, loops, os) {
      if loops != [] {
        assert EntryOf(lines, loops[0], os[0]);
        LoopTail(lines, i, 0);
      }
      stack := [Loop(2 * i, 0, None)] + loops;
      assert forall x | 1 <= x < |stack| :: stack[x] == loops[x - 1];
    } else {
      stack := loops;
      assert EntryOf(lines, loops[0], ([i] + os)[0]);
    }
  }

  lemma {:induction false} WhileKeeps<S>(m: Meaning<S>, lines: seq<Line>, i: nat, cond: nat, s: State<S>)
    requires WellNested(lines) && i < |lines| && lines[i] == While(cond) && s.pos == 2 * (i + 1)
    requires StackAt(lines, i, s.loops)
    ensures var r := DoWhile(m, lines, 2 * i, cond, s); r.Some? && Inv(lines, r.value)
  {
    hide ToEnd, OpenAt, LoopLines, StackOf;
    var stack := WhileStack(lines, i, s.loops);
    var t := m.test(cond, s.store);
    if !t.0 {
      var j := ToEndPops(m, lines, State(s.pos, stack, t.1), i + 1);
    }
  }

  lemma {:induction false} ForeachKeeps<S>(m: Meaning<S>, lines: seq<Line>, i: nat, id: nat, s: State<S>)
    requires WellNested(lines) && i < |lines| && lines[i] == Foreach(id) && s.pos == 2 * (i + 1)
    requires StackAt(lines, i, s.loops)
    ensures var r := DoForeach(m, lines, id, s); r.Some? && Inv(lines, r.value)
  {
    hide DoAgain;
    var open := OpenAt(lines, i).value;
    var stack := [Loop(s.pos, 0, Some(Words(id, m.words(id, s.store) + [")"])))] + s.loops;
    OpenAtDefined(lines, i + 1);
    assert ([OpenLoop(i)] + open)[1..] == open;
    assert LoopLines(OpenAt(lines, i + 1).value) == [i] + LoopLines(open);
    assert forall x | 1 <= x < |stack| :: stack[x] == s.loops[x - 1];
    AgainKeeps(m, lines, s.(loops := stack), i + 1);
  }

  lemma {:induction false} EndKeeps<S>(m: Meaning<S>, lines: seq<Line>, i: nat, s: State<S>)
    requires WellNested(lines) && i < |lines| && lines[i] == End && s.pos == 2 * (i + 1)
    requires StackAt(lines, i, s.loops)
    ensures var r := DoEnd(m, lines, s); r.Some? && Inv(lines, r.value)
  {
    hide DoAgain;
    var open := OpenAt(lines, i).value;
    var os := LoopLines(open);
    OpenAtDefined(lines, i + 1);
    assert os[0] == open[0].at && Closes(lines, os[0], i);
    assert EntryOf(lines, s.loops[0], os[0]);
    var stack := s.loops[0 := s.loops[0].(end := s.pos)];
    assert forall x | 1 <= x < |stack| :: stack[x] == s.loops[x];
    AgainKeeps(m, lines, s.(loops := stack), i);
  }

  /** if, else and switch lines: q is the line after, where the construct is the innermost open one. */
  lemma {:induction false} BranchKeeps<S>(m: Meaning<S>, lines: seq<Line>, goal: Goal, s: State<S>, q: nat)
    requires WellNested(lines) && q <= |lines| && s.pos == 2 * q && OpenAt(lines, q).Some?
    requires OpenAt(lines, q).value != [] && Counted(goal, OpenAt(lines, q).value[0]) && !goal.ToBreak?
    requires StackOf(lines, s.loops, LoopLines(OpenAt(lines, q).value))
    ensures Jump(m, lines, goal, s).Some? && Inv(lines, Jump(m, lines, goal, s).value)
  {
    var open := OpenAt(lines, q).value;
    assert open == [] + [open[0]] + open[1..];
    JumpKeeps(m, lines, goal, s, q, [], open[0], open[1..]);
  }

  /** Reading a line that is not a loop line leaves the open loops as they are. */
  lemma {:induction false} SameLoopsAfter(lines: seq<Line>, i: nat)
    requires WellNested(lines) && i < |lines| && !IsLoopLine(lines[i]) && !lines[i].End?
    ensures OpenAt(lines, i).Some? && OpenAt(lines, i + 1).Some?
    ensures LoopLines(OpenAt(lines, i + 1).value) == LoopLines(OpenAt(lines, i).value)
    ensures lines[i].Plain? || lines[i].IfSimple? ==> OpenAt(lines, i + 1) == OpenAt(lines, i)
    ensures lines[i].IfThen? ==> OpenAt(lines, i + 1).value != [] && OpenAt(lines, i + 1).value[0].OpenIf?
    ensures lines[i].Switch? ==> OpenAt(lines, i + 1).value != [] && OpenAt(lines, i + 1).value[0].OpenSwitch?
    ensures lines[i].Else? || lines[i].ElseIf? ==> OpenAt(lines, i + 1).value != [] && OpenAt(lines, i + 1).value[0].OpenIf?
  {
    OpenAtDefined(lines, i);
    OpenAtDefined(lines, i + 1);
    var open, next := OpenAt(lines, i).value, OpenAt(lines, i + 1).value;
    if |next| == |open| + 1 {
      assert next[1..] == open;
    }
  }

  /** The simple command a step carries out, if it carries one out. */
  function Carried<S>(m: Meaning<S>, lines: seq<Line>, s: State<S>): Option<Simple>
  {
    var i := s.pos / 2;
    if i >= |lines| || s.pos % 2 == 1 then None
    else if lines[i].Plain? then Some(lines[i].s)
    else if lines[i].IfSimple? && m.test(lines[i].cond, s.store).0 then Some(lines[i].s)
    else None
  }

  /** A step keeps the invariant unless it carries out a command that is not tame, and then it breaks it. */
  lemma {:induction false} StepInv<S>(m: Meaning<S>, lines: seq<Line>, s: State<S>)
    requires WellNested(lines) && Inv(lines, s)
    ensures var t, c := Step(m, lines, s), Carried(m, lines, s);
            t.Some? ==> s.pos / 2 + 1 <= |lines| && OpenAt(lines, s.pos / 2 + 1).Some? &&
                        (Inv(lines, t.value) <==> c.None? || TameSimple(lines, s.pos / 2 + 1, c.value))
  {
    hide OpenAt, LoopLines, DoSimple, Jump, DoWhile, DoForeach, DoEnd, TameSimple;
    var i := s.pos / 2;
    if i < |lines| {
      var line := if s.pos % 2 == 0 then lines[i] else Tail(lines[i]);
      var s' := s.(pos := 2 * (i + 1));
      OpenAtDefined(lines, i + 1);
      if s.pos % 2 == 0 && line.While? {
        WhileKeeps(m, lines, i, line.cond, s');
      } else if s.pos % 2 == 0 && line.Foreach? {
        ForeachKeeps(m, lines, i, line.loop, s');
      } else if s.pos % 2 == 0 && line.End? {
        EndKeeps(m, lines, i, s');
      } else {
        SameLoopsAfter(lines, i);
        if line.Plain? {
          SimpleInv(m, lines, line.s, s', i + 1);
        } else if line.IfSimple? {
          SimpleInv(m, lines, line.s, s'.(store := m.test(line.cond, s.store).1), i + 1);
        } else {
          OtherKeeps(m, lines, i, line, s.pos, s');
        }
      }
    }
  }

  lemma {:induction false} OtherKeeps<S>(m: Meaning<S>, lines: seq<Line>, i: nat, line: Line, loc: nat, s: State<S>)
    requires WellNested(lines) && i < |lines| && s.pos == 2 * (i + 1)
    requires OpenAt(lines, i).Some? && OpenAt(lines, i + 1).Some?
    requires line == lines[i] || ((lines[i].Else? || lines[i].ElseIf?) && line == Tail(lines[i]))
    requires !IsLoopLine(line) && !line.End? && !line.Plain? && !line.IfSimple?
    requires StackOf(lines, s.loops, LoopLines(OpenAt(lines, i + 1).value))
    ensures var r := Execute(m, lines, loc, line, s); r.Some? ==> Inv(lines, r.value)
  {
    hide OpenAt, LoopLines, DoSimple, Jump;
    SameLoopsAfter(lines, i);
    match line
    case IfThen(cond) =>
      BranchKeeps(m, lines, ToIf, s.(store := m.test(cond, s.store).1), i + 1);
    case Else =>
      BranchKeeps(m, lines, ToElse, s, i + 1);
    case ElseIf(_) =>
      BranchKeeps(m, lines, ToElse, s, i + 1);
    case Switch(w) =>
      BranchKeeps(m, lines, ToSwitch(w), s, i + 1);
    case _ =>
  }

  /** Every simple command of the script is tame where it stands. */
  ghost predicate Tame(lines: seq<Line>)
  {
    forall i | 0 <= i < |lines| :: TameAt(lines, i)
  }

  ghost predicate TameAt(lines: seq<Line>, i: nat)
    requires i < |lines|
  {
    OpenAt(lines, i + 1).Some? && (lines[i].Plain? || lines[i].IfSimple?) ==> TameSimple(lines, i + 1, lines[i].s)
  }

  /** Safety of every run: in every reachable state the active loops are the loops open at the position. */
  lemma {:induction false} RunKeepsInv<S>(m: Meaning<S>, lines: seq<Line>, s: State<S>, n: nat)
    requires WellNested(lines) && Tame(lines) && Inv(lines, s)
    ensures Run(m, lines, s, n).Some? ==> Inv(lines, Run(m, lines, s, n).value)
    decreases n
  {
    hide Step, Inv, TameSimple;
    if n > 0 && Step(m, lines, s).Some? {
      StepInv(m, lines, s);
      if Carried(m, lines, s).Some? { assert TameAt(lines, s.pos / 2); }
      RunKeepsInv(m, lines, Step(m, lines, s).value, n - 1);
    }
  }

  // ---------- exactly which runs ----------

  /** The command that the next step carries out, if any, is tame. */
  ghost predicate TameStep<S>(m: Meaning<S>, lines: seq<Line>, s: State<S>)
  {
    var q, c := s.pos / 2 + 1, Carried(m, lines, s);
    c.Some? ==> OpenAt(lines, q).Some? && TameSimple(lines, q, c.value)
  }

  ghost predicate TameRun<S>(m: Meaning<S>, lines: seq<Line>, s: State<S>, n: nat)
    decreases n
  {
    n == 0 || Step(m, lines, s).None? ||
    (TameStep(m, lines, s) && TameRun(m, lines, Step(m, lines, s).value, n - 1))
  }

  /** The invariant holds in s and in every state reached from it within n steps. */
  ghost predicate AlwaysInv<S>(m: Meaning<S>, lines: seq<Line>, s: State<S>, n: nat)
    decreases n
  {
    Inv(lines, s) && (n == 0 || Step(m, lines, s).None? || AlwaysInv(m, lines, Step(m, lines, s).value, n - 1))
  }

  /** On any well-nested script: the invariant holds throughout a run exactly when every command that the run
      carries out is tame where it stands. */
  lemma {:induction false} RunInv<S>(m: Meaning<S>, lines: seq<Line>, s: State<S>, n: nat)
    requires WellNested(lines) && Inv(lines, s)
    ensures AlwaysInv(m, lines, s, n) <==> TameRun(m, lines, s, n)
    decreases n
  {
    hide Step, Inv, TameSimple, Carried;
    if n > 0 && Step(m, lines, s).Some? {
      var t := Step(m, lines, s).value;
      StepInv(m, lines, s);
      if Inv(lines, t) { RunInv(m, lines, t, n - 1); }
    }
  }
}
