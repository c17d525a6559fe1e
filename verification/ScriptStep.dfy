/**
 * Where every line of a well-nested script goes on, and when it cannot: said by the nesting of the text alone,
 * without the searches and the frees that get there.
 */
module ScriptStep {
  import opened Wrappers
  import opened ScriptSearch
  import opened ScriptMachine
  import opened ScriptLoops
  import opened ScriptGoto
  import opened ScriptBreaksw
  import opened ScriptInvariant

  // ---------- what a line does ----------

  /** The position after the line that closes the construct opened on line o. */
  ghost predicate PastEnd(lines: seq<Line>, o: nat, pos: nat)
  {
    pos % 2 == 0 && pos > 0 && Closes(lines, o, pos / 2 - 1)
  }

  /** The next turn of the loop on line o, whose entry is l: a while tests again, a foreach takes its next word
      or, when only the closing parenthesis is left, is over. */
  ghost predicate Turns<S>(m: Meaning<S>, lines: seq<Line>, o: nat, l: Loop, rest: seq<Loop>, store: S, t: State<S>)
    requires o < |lines|
  {
    if lines[o].While? then t == State(2 * o, [l] + rest, store)
    else
      l.fe.Some? &&
      var w := l.fe.value;
      if |w.left| <= 1 then PastEnd(lines, o, t.pos) && t.loops == rest && t.store == store
      else
        var next := l.(fe := Some(Words(w.loop, w.left[1..])));
        t == State(2 * (o + 1), [next] + rest, m.bind(w.loop, w.left[0], store))
  }

  /** The loops still active at line p after a goto: the outermost ones, those of them that are open there or
      the while on that line, all with their true ends. */
  ghost predicate Stays(lines: seq<Line>, os: seq<nat>, before: seq<Loop>, p: nat, after: seq<Loop>)
    requires |os| == |before| && p <= |lines|
  {
    |after| <= |before| &&
    var d := |before| - |after|;
    && (forall x | d <= x < |os| :: after[x - d] == before[x].(end := after[x - d].end) &&
                                    PastEnd(lines, os[x], after[x - d].end))
    && forall x | 0 <= x < |os| :: x >= d <==> OpenHere(lines, p, os[x])
  }

  ghost predicate OpenHere(lines: seq<Line>, p: nat, o: nat)
    requires p <= |lines|
  {
    (OpenAt(lines, p).Some? && IsOpen(OpenAt(lines, p).value, o)) || (o == p && o < |lines| && lines[o].While?)
  }

  /** A simple command; s stands at the start of line q, after the command's own line. */
  ghost predicate Does<S>(m: Meaning<S>, lines: seq<Line>, q: nat, c: Simple, s: State<S>, t: State<S>)
    requires q <= |lines| && OpenAt(lines, q).Some? && StackOf(lines, s.loops, LoopLines(OpenAt(lines, q).value))
  {
    var open := OpenAt(lines, q).value;
    var os := LoopLines(open);
    match c
    case Command(id) => t == State(2 * q, s.loops, m.run(id, s.store))
    case Break => os != [] && PastEnd(lines, os[0], t.pos) && t.loops == s.loops[1..] && t.store == s.store
    case Continue => os != [] && os[0] < |lines| && Turns(m, lines, os[0], s.loops[0], s.loops[1..], s.store, t)
    case BreakSw =>
      && InnerSwitch(open).Some? && PastEnd(lines, InnerSwitch(open).value, t.pos) && t.store == s.store
      && t.loops == Drop(s.loops, EndsAt(lines, q, t.pos / 2 - 1, Depth(lines, q)))
    case Goto(name) =>
      && t.pos % 2 == 0 && LabelledAt(lines, name, t.pos / 2) && t.store == s.store
      && Stays(lines, os, s.loops, t.pos / 2, t.loops)
  }

  ghost predicate Able(lines: seq<Line>, q: nat, c: Simple)
    requires q <= |lines| && OpenAt(lines, q).Some?
  {
    match c
    case Command(_) => true
    case Break => LoopLines(OpenAt(lines, q).value) != []
    case Continue => LoopLines(OpenAt(lines, q).value) != []
    case BreakSw => InnerSwitch(OpenAt(lines, q).value).Some?
    case Goto(name) => exists p :: LabelledAt(lines, name, p)
  }

  /** From line q inside the construct opened on line o to the first line of it that the goal looks for. */
  ghost predicate Reaches<S>(m: Meaning<S>, st: S, lines: seq<Line>, goal: Goal, q: nat, o: nat, pos: nat)
  {
    exists j | q <= j < |lines| :: FirstPartner(m, st, lines, goal, q, o, j) &&
      pos == if lines[j].Else? || lines[j].ElseIf? then 2 * j + 1 else 2 * (j + 1)
  }

  ghost predicate FirstPartner<S>(m: Meaning<S>, st: S, lines: seq<Line>, goal: Goal, q: nat, o: nat, j: nat)
  {
    Partner(m, st, lines, goal, o, j) && forall k | q <= k < j :: !Partner(m, st, lines, goal, o, k)
  }

  /** if (e) then, alone or behind an else, on line i. */
  ghost predicate Chooses<S>(m: Meaning<S>, lines: seq<Line>, i: nat, cond: nat, s: State<S>, t: State<S>)
    requires i < |lines| && OpenAt(lines, i + 1).Some? && OpenAt(lines, i + 1).value != []
  {
    var (go, store) := m.test(cond, s.store);
    && t.loops == s.loops && t.store == store
    && if go then t.pos == 2 * (i + 1)
       else Reaches(m, store, lines, ToIf, i + 1, OpenAt(lines, i + 1).value[0].at, t.pos)
  }

  /** A while line: its loop is active from now on, or left with the loops around it. */
  ghost predicate Tests<S>(m: Meaning<S>, lines: seq<Line>, i: nat, cond: nat, s: State<S>, t: State<S>)
    requires i < |lines|
  {
    var (go, store) := m.test(cond, s.store);
    var n := Depth(lines, i);
    && n <= |s.loops| && t.store == store
    && if go then t.pos == 2 * (i + 1) && t.loops == if |s.loops| > n then s.loops else [Loop(2 * i, 0, None)] + s.loops
       else PastEnd(lines, i, t.pos) && t.loops == s.loops[|s.loops| - n..]
  }

  /** A foreach line: the first word is bound and the others are kept, or there is none. */
  ghost predicate Lists<S>(m: Meaning<S>, lines: seq<Line>, i: nat, id: nat, s: State<S>, t: State<S>)
    requires i < |lines|
  {
    var ws := m.words(id, s.store);
    if ws == [] then PastEnd(lines, i, t.pos) && t.loops == s.loops && t.store == s.store
    else t == State(2 * (i + 1), [Loop(2 * (i + 1), 0, Some(Words(id, ws[1..] + [")"])))] + s.loops,
                    m.bind(id, ws[0], s.store))
  }

  /** One step from a state whose loops are the open ones, the line being in the text. */
  ghost predicate Goes<S>(m: Meaning<S>, lines: seq<Line>, s: State<S>, t: State<S>)
    requires WellNested(lines) && Inv(lines, s) && s.pos / 2 < |lines|
  {
    var i := s.pos / 2;
    var next := State(2 * (i + 1), s.loops, s.store);
    OpenAtDefined(lines, i + 1);
    var after := OpenAt(lines, i + 1).value;
    var inside := StackOf(lines, s.loops, LoopLines(after));
    if s.pos % 2 == 1 then
      if lines[i].ElseIf? then after != [] && Chooses(m, lines, i, lines[i].cond, next, t) else t == next
    else
      match lines[i]
      case Plain(c) => inside && Does(m, lines, i + 1, c, next, t)
      case IfSimple(cond, c) =>
        var (go, store) := m.test(cond, s.store);
        if go then inside && Does(m, lines, i + 1, c, next.(store := store), t) else t == next.(store := store)
      case IfThen(cond) => after != [] && Chooses(m, lines, i, cond, next, t)
      case Else => after != [] && t == next.(pos := t.pos) && PastEnd(lines, after[0].at, t.pos)
      case ElseIf(_) => after != [] && t == next.(pos := t.pos) && PastEnd(lines, after[0].at, t.pos)
      case While(cond) => Tests(m, lines, i, cond, next, t)
      case Foreach(id) => Lists(m, lines, i, id, next, t)
      case End =>
        var os := LoopLines(OpenAt(lines, i).value);
        os != [] && os[0] < |lines| && |s.loops| == |os| &&
        Turns(m, lines, os[0], s.loops[0].(end := 2 * (i + 1)), s.loops[1..], s.store, t)
      case Switch(w) =>
        t == next.(pos := t.pos) && Reaches(m, s.store, lines, ToSwitch(w), i + 1, i, t.pos)
      case _ => t == next
  }

  /** The input is used up, or the line carries out a command that has nowhere to go. */
  ghost predicate Stuck<S>(m: Meaning<S>, lines: seq<Line>, s: State<S>)
    requires WellNested(lines)
  {
    var i, c := s.pos / 2, Carried(m, lines, s);
    i >= |lines| || (c.Some? && (OpenAtDefined(lines, i + 1); !Able(lines, i + 1, c.value)))
  }

  // ---------- goto ----------

  /** The label scan finds the first label, wherever the goto stands. */
  lemma {:induction false} GotoScan<S>(m: Meaning<S>, st: S, lines: seq<Line>, name: nat, i: nat, p: nat, sc: Scan)
    requires LabelledAt(lines, name, p) && i < p && sc.level == 0
    ensures Search(m, st, lines, ToGoto(name), i, sc) == Some(Found(2 * p, sc.loops))
    decreases p - i
  {
    if i < p - 1 { GotoScan(m, st, lines, name, i + 1, p, ScanLine(m, st, ToGoto(name), lines[i], sc)); }
  }

  /** goto succeeds exactly when the label is in the script, before or behind, and goes to the line after its
      first occurrence. */
  lemma {:induction false} GotoFinds<S>(m: Meaning<S>, lines: seq<Line>, name: nat, s: State<S>, q: nat)
    requires WellNested(lines) && q <= |lines| && OpenAt(lines, q).Some? && s.pos == 2 * q
    requires StackOf(lines, s.loops, LoopLines(OpenAt(lines, q).value))
    ensures GotoLab(m, lines, name, s).Some? <==> exists p :: LabelledAt(lines, name, p)
    ensures forall p: nat | LabelledAt(lines, name, p) ::
              GotoLab(m, lines, name, s).Some? && GotoLab(m, lines, name, s).value.pos == 2 * p
  {
    hide Search, OpenAt;
    EndsFound(m, lines, q, s.loops, s.store);
    var filled := FindEnds(m, lines, 2 * q, s.loops, s.store).value;
    forall p: nat | LabelledAt(lines, name, p)
      ensures GotoLab(m, lines, name, s).Some? && GotoLab(m, lines, name, s).value.pos == 2 * p
    {
      GotoScan(m, s.store, lines, name, 0, p, Scan(0, 0, filled));
    }
    if GotoLab(m, lines, name, s).Some? { GotoStops(m, s.store, lines, name, 0, Scan(0, 0, filled)); }
  }

  lemma {:induction false} GotoDoes<S>(m: Meaning<S>, lines: seq<Line>, name: nat, s: State<S>, q: nat)
    requires WellNested(lines) && q <= |lines| && OpenAt(lines, q).Some? && s.pos == 2 * q
    requires StackOf(lines, s.loops, LoopLines(OpenAt(lines, q).value)) && GotoLab(m, lines, name, s).Some?
    ensures Does(m, lines, q, Goto(name), s, GotoLab(m, lines, name, s).value)
  {
    hide OpenAt, LoopLines, GotoLab, Inside;
    var t, os := GotoLab(m, lines, name, s).value, LoopLines(OpenAt(lines, q).value);
    var filled, k := GotoKeepsContaining(m, lines, name, s, q, t);
    forall x | 0 <= x < |os|
      ensures (x >= k <==> OpenHere(lines, t.pos / 2, os[x])) && PastEnd(lines, os[x], filled[x].end)
    {
      assert EntryOf(lines, filled[x], os[x]);
      EntryInside(lines, filled[x], os[x], t.pos / 2);
    }
    assert |os| - |t.loops| == k;
    forall x | k <= x < |os|
      ensures t.loops[x - k] == s.loops[x].(end := t.loops[x - k].end) && PastEnd(lines, os[x], t.loops[x - k].end)
    {
      assert t.loops[x - k] == filled[x];
    }
  }

  // ---------- loops ----------

  lemma {:induction false} AgainGoes<S>(m: Meaning<S>, lines: seq<Line>, s: State<S>, q: nat)
    requires WellNested(lines) && q <= |lines| && OpenAt(lines, q).Some? && s.loops != []
    requires StackOf(lines, s.loops, LoopLines(OpenAt(lines, q).value)) && (s.loops[0].end != 0 || s.pos == 2 * q)
    ensures var os, t := LoopLines(OpenAt(lines, q).value), DoAgain(m, lines, s);
            t.Some? && os[0] < |lines| && Turns(m, lines, os[0], s.loops[0], s.loops[1..], s.store, t.value)
  {
    hide ToEnd, OpenAt, LoopLines;
    var os := LoopLines(OpenAt(lines, q).value);
    var j := ToEndPops(m, lines, s, q);
    assert EntryOf(lines, s.loops[0], os[0]);
    assert s.loops == [s.loops[0]] + s.loops[1..];
  }

  lemma {:induction false} WhileGoes<S>(m: Meaning<S>, lines: seq<Line>, i: nat, cond: nat, s: State<S>)
    requires WellNested(lines) && i < |lines| && lines[i] == While(cond) && s.pos == 2 * (i + 1)
    requires StackAt(lines, i, s.loops)
    ensures var r := DoWhile(m, lines, 2 * i, cond, s); r.Some? && Tests(m, lines, i, cond, s, r.value)
  {
    hide ToEnd, OpenAt, LoopLines, StackOf, WellNested, Depth, Closes, StackAt, DoWhile, Tests;
    var stack := WhileStack(lines, i, s.loops);
    WhileIs(m, lines, i, cond, s, stack);
    if m.test(cond, s.store).0 {
      TestsOn(m, lines, i, cond, s, stack);
    } else {
      TestsOff(m, lines, i, cond, s, stack);
    }
  }

  /** The entry of a while is new unless it is on top already. */
  ghost predicate Entered(i: nat, loops: seq<Loop>, stack: seq<Loop>)
  {
    stack == if loops != [] && loops[0].start == 2 * i && loops[0].fe.None? then loops
             else [Loop(2 * i, 0, None)] + loops
  }

  lemma {:induction false} WhileIs<S>(m: Meaning<S>, lines: seq<Line>, i: nat, cond: nat, s: State<S>, stack: seq<Loop>)
    requires Entered(i, s.loops, stack)
    ensures var t := m.test(cond, s.store);
            DoWhile(m, lines, 2 * i, cond, s) ==
            if t.0 then Some(State(s.pos, stack, t.1)) else ToEnd(m, lines, State(s.pos, stack, t.1))
  {
    hide ToEnd;
  }

  lemma {:induction false} TestsOn<S>(m: Meaning<S>, lines: seq<Line>, i: nat, cond: nat, s: State<S>, stack: seq<Loop>)
    requires WellNested(lines) && i < |lines| && lines[i].While? && StackAt(lines, i, s.loops)
    requires Entered(i, s.loops, stack)
    requires OpenAt(lines, i + 1).Some? && StackOf(lines, stack, LoopLines(OpenAt(lines, i + 1).value))
    requires s.pos == 2 * (i + 1) && m.test(cond, s.store).0
    ensures Tests(m, lines, i, cond, s, State(s.pos, stack, m.test(cond, s.store).1))
  {
    hide Depth, OpenAt, LoopLines, StackOf, StackAt, WellNested;
    WhileDepth(lines, i, s.loops, stack);
  }

  lemma {:induction false} TestsOff<S>(m: Meaning<S>, lines: seq<Line>, i: nat, cond: nat, s: State<S>,
                                       stack: seq<Loop>)
    requires WellNested(lines) && i < |lines| && lines[i].While? && StackAt(lines, i, s.loops)
    requires Entered(i, s.loops, stack)
    requires OpenAt(lines, i + 1).Some? && StackOf(lines, stack, LoopLines(OpenAt(lines, i + 1).value))
    requires s.pos == 2 * (i + 1) && !m.test(cond, s.store).0
    ensures var t := ToEnd(m, lines, State(s.pos, stack, m.test(cond, s.store).1));
            t.Some? && Tests(m, lines, i, cond, s, t.value)
  {
    hide Depth, OpenAt, LoopLines, StackOf, StackAt, WellNested, ToEnd, Closes, Entered;
    WhileDepth(lines, i, s.loops, stack);
    var j := ToEndPops(m, lines, State(s.pos, stack, m.test(cond, s.store).1), i + 1);
  }

  /** The while on line i is on the stack exactly when the stack is deeper than the loops around it. */
  lemma {:induction false} WhileDepth(lines: seq<Line>, i: nat, loops: seq<Loop>, stack: seq<Loop>)
    requires WellNested(lines) && i < |lines| && lines[i].While? && StackAt(lines, i, loops)
    requires Entered(i, loops, stack)
    requires OpenAt(lines, i + 1).Some? && StackOf(lines, stack, LoopLines(OpenAt(lines, i + 1).value))
    ensures stack != [] && LoopLines(OpenAt(lines, i + 1).value) != [] && LoopLines(OpenAt(lines, i + 1).value)[0] == i
    ensures |stack| == Depth(lines, i) + 1 && Depth(lines, i) <= |loops| <= Depth(lines, i) + 1
    ensures stack == (if |loops| > Depth(lines, i) then loops else [Loop(2 * i, 0, None)] + loops)
    ensures stack[1..] == loops[|loops| - Depth(lines, i)..]
  {
    var open := OpenAt(lines, i).value;
    assert ([OpenLoop(i)] + open)[1..] == open;
    assert LoopLines(OpenAt(lines, i + 1).value) == [i] + LoopLines(open);
  }

  lemma {:induction false} ForeachGoes<S>(m: Meaning<S>, lines: seq<Line>, i: nat, id: nat, s: State<S>)
    requires WellNested(lines) && i < |lines| && lines[i] == Foreach(id) && s.pos == 2 * (i + 1)
    requires StackAt(lines, i, s.loops)
    ensures var r := DoForeach(m, lines, id, s); r.Some? && Lists(m, lines, i, id, s, r.value)
  {
    hide DoAgain, Closes;
    var open, ws := OpenAt(lines, i).value, m.words(id, s.store);
    var l := Loop(s.pos, 0, Some(Words(id, ws + [")"])));
    var stack := [l] + s.loops;
    OpenAtDefined(lines, i + 1);
    assert ([OpenLoop(i)] + open)[1..] == open;
    assert LoopLines(OpenAt(lines, i + 1).value) == [i] + LoopLines(open);
    assert forall x | 1 <= x < |stack| :: stack[x] == s.loops[x - 1];
    hide OpenAt, LoopLines;
    AgainGoes(m, lines, s.(loops := stack), i + 1);
    assert stack[1..] == s.loops;
    if ws != [] { assert (ws + [")"])[1..] == ws[1..] + [")"]; }
  }

  lemma {:induction false} EndGoes<S>(m: Meaning<S>, lines: seq<Line>, i: nat, s: State<S>)
    requires WellNested(lines) && i < |lines| && lines[i] == End && s.pos == 2 * (i + 1)
    requires StackAt(lines, i, s.loops)
    ensures var os, r := LoopLines(OpenAt(lines, i).value), DoEnd(m, lines, s);
            && r.Some? && os != [] && os[0] < |lines| && |s.loops| == |os|
            && Turns(m, lines, os[0], s.loops[0].(end := s.pos), s.loops[1..], s.store, r.value)
  {
    hide DoAgain;
    var open := OpenAt(lines, i).value;
    var os := LoopLines(open);
    OpenAtDefined(lines, i + 1);
    assert os[0] == open[0].at && Closes(lines, os[0], i);
    hide OpenAt, LoopLines, Closes;
    assert EntryOf(lines, s.loops[0], os[0]);
    var stack := s.loops[0 := s.loops[0].(end := s.pos)];
    assert forall x | 1 <= x < |stack| :: stack[x] == s.loops[x];
    assert EntryOf(lines, stack[0], os[0]);
    AgainGoes(m, lines, s.(loops := stack), i);
    assert stack[1..] == s.loops[1..];
  }

  // ---------- the other lines ----------

  lemma {:induction false} SimpleDoes<S>(m: Meaning<S>, lines: seq<Line>, c: Simple, s: State<S>, q: nat)
    requires WellNested(lines) && q <= |lines| && s.pos == 2 * q && OpenAt(lines, q).Some?
    requires StackOf(lines, s.loops, LoopLines(OpenAt(lines, q).value))
    ensures var t := DoSimple(m, lines, c, s);
            (t.Some? <==> Able(lines, q, c)) && (t.Some? ==> Does(m, lines, q, c, s, t.value))
  {
    hide OpenAt, LoopLines, ToEnd, DoAgain, Jump, GotoLab, EndsAt, Closes, Turns, Stays;
    match c
    case Command(_) =>
    case Break =>
      if s.loops != [] { var j := ToEndPops(m, lines, s, q); }
    case Continue =>
      if s.loops != [] { AgainGoes(m, lines, s, q); }
    case BreakSw =>
      BreakswDoes(m, lines, s, q);
    case Goto(name) =>
      GotoFinds(m, lines, name, s, q);
      if GotoLab(m, lines, name, s).Some? { GotoDoes(m, lines, name, s, q); }
  }

  lemma {:induction false} BreakswDoes<S>(m: Meaning<S>, lines: seq<Line>, s: State<S>, q: nat)
    requires WellNested(lines) && q <= |lines| && s.pos == 2 * q && OpenAt(lines, q).Some?
    requires StackOf(lines, s.loops, LoopLines(OpenAt(lines, q).value))
    ensures var t := Jump(m, lines, ToBrkSw, s);
            (t.Some? <==> Able(lines, q, BreakSw)) && (t.Some? ==> Does(m, lines, q, BreakSw, s, t.value))
  {
    hide OpenAt, LoopLines, EndsAt, Search;
    if InnerSwitch(OpenAt(lines, q).value).None? {
      NoSwitchCount(OpenAt(lines, q).value);
      BreakswFails(m, s.store, lines, q, Scan(0, 0, s.loops));
    } else {
      var j, ext, outer := BreakswJumps(m, lines, s, q);
    }
  }

  /** A jump within the innermost open construct. */
  lemma {:induction false} JumpReaches<S>(m: Meaning<S>, lines: seq<Line>, goal: Goal, s: State<S>, q: nat)
    returns (j: nat)
    requires WellNested(lines) && q <= |lines| && s.pos == 2 * q && OpenAt(lines, q).Some? && !goal.ToGoto?
    requires OpenAt(lines, q).value != [] && Counted(goal, OpenAt(lines, q).value[0])
    ensures q <= j < |lines| && FirstPartner(m, s.store, lines, goal, q, OpenAt(lines, q).value[0].at, j)
    ensures Jump(m, lines, goal, s) ==
            Some(State(if lines[j].Else? || lines[j].ElseIf? then 2 * j + 1 else 2 * (j + 1), s.loops, s.store))
  {
    hide Search, OpenAt, Partner;
    var open := OpenAt(lines, q).value;
    assert open == [] + [open[0]] + open[1..];
    j := SearchFindsPartner(m, s.store, lines, goal, q, Scan(0, 0, s.loops), [], open[0], open[1..]);
  }

  lemma {:induction false} ChoiceGoes<S>(m: Meaning<S>, lines: seq<Line>, i: nat, cond: nat, s: State<S>)
    requires WellNested(lines) && i < |lines| && s.pos == 2 * (i + 1) && OpenAt(lines, i + 1).Some?
    requires OpenAt(lines, i + 1).value != [] && OpenAt(lines, i + 1).value[0].OpenIf?
    ensures var t := DoIfThen(m, lines, cond, s); t.Some? && Chooses(m, lines, i, cond, s, t.value)
  {
    hide OpenAt, Jump, FirstPartner;
    var r := m.test(cond, s.store);
    if !r.0 {
      var j := JumpReaches(m, lines, ToIf, s.(store := r.1), i + 1);
      assert Reaches(m, r.1, lines, ToIf, i + 1, OpenAt(lines, i + 1).value[0].at,
                     DoIfThen(m, lines, cond, s).value.pos);
    }
  }

  lemma {:induction false} ElseGoes<S>(m: Meaning<S>, lines: seq<Line>, i: nat, s: State<S>)
    requires WellNested(lines) && i < |lines| && s.pos == 2 * (i + 1) && OpenAt(lines, i + 1).Some?
    requires OpenAt(lines, i + 1).value != [] && OpenAt(lines, i + 1).value[0].OpenIf?
    ensures var t := Jump(m, lines, ToElse, s);
            && t.Some? && t.value == s.(pos := t.value.pos)
            && PastEnd(lines, OpenAt(lines, i + 1).value[0].at, t.value.pos)
  {
    hide OpenAt, Jump;
    var j := JumpReaches(m, lines, ToElse, s, i + 1);
  }

  lemma {:induction false} SwitchGoes<S>(m: Meaning<S>, lines: seq<Line>, i: nat, w: nat, s: State<S>)
    requires WellNested(lines) && i < |lines| && s.pos == 2 * (i + 1) && lines[i] == Switch(w)
    ensures var t := Jump(m, lines, ToSwitch(w), s);
            && t.Some? && t.value == s.(pos := t.value.pos)
            && Reaches(m, s.store, lines, ToSwitch(w), i + 1, i, t.value.pos)
  {
    OpenAtDefined(lines, i + 1);
    assert OpenAt(lines, i + 1).value[0] == OpenSwitch(i);
    hide OpenAt, Jump, FirstPartner;
    var j := JumpReaches(m, lines, ToSwitch(w), s, i + 1);
    assert Reaches(m, s.store, lines, ToSwitch(w), i + 1, i, Jump(m, lines, ToSwitch(w), s).value.pos);
  }

  lemma {:induction false} OtherGoes<S>(m: Meaning<S>, lines: seq<Line>, s: State<S>)
    requires WellNested(lines) && Inv(lines, s) && s.pos / 2 < |lines| && Carried(m, lines, s).None?
    requires s.pos % 2 == 0 ==> !IsLoopLine(lines[s.pos / 2]) && !lines[s.pos / 2].End?
    ensures Step(m, lines, s).Some? && Goes(m, lines, s, Step(m, lines, s).value)
  {
    hide OpenAt, LoopLines, DoSimple, DoIfThen, Jump, Chooses, Closes, Reaches, StackAt, StackOf;
    var i := s.pos / 2;
    var line, s' := if s.pos % 2 == 0 then lines[i] else Tail(lines[i]), s.(pos := 2 * (i + 1));
    OpenAtDefined(lines, i + 1);
    SameLoopsAfter(lines, i);
    match line
    case IfThen(cond) => ChoiceGoes(m, lines, i, cond, s');
    case Else => ElseGoes(m, lines, i, s');
    case ElseIf(_) => ElseGoes(m, lines, i, s');
    case Switch(w) => SwitchGoes(m, lines, i, w, s');
    case _ =>
  }

  /**
   * Every step of every well-nested script, from a state whose loops are the open ones: it fails exactly when
   * the input is used up or a break, continue, breaksw or goto has nowhere to go, and otherwise goes where the
   * nesting says.
   */
  lemma {:induction false} StepGoes<S>(m: Meaning<S>, lines: seq<Line>, s: State<S>)
    requires WellNested(lines) && Inv(lines, s)
    ensures Step(m, lines, s).Some? <==> !Stuck(m, lines, s)
    ensures Step(m, lines, s).Some? ==> s.pos / 2 < |lines| && Goes(m, lines, s, Step(m, lines, s).value)
  {
    hide OpenAt, LoopLines, DoSimple, Jump, DoWhile, DoForeach, DoEnd, Able, Does, Tests, Lists, Turns, StackOf;
    var i := s.pos / 2;
    if i < |lines| {
      var s' := s.(pos := 2 * (i + 1));
      OpenAtDefined(lines, i + 1);
      if s.pos % 2 == 0 && lines[i].While? {
        WhileGoes(m, lines, i, lines[i].cond, s');
      } else if s.pos % 2 == 0 && lines[i].Foreach? {
        ForeachGoes(m, lines, i, lines[i].loop, s');
      } else if s.pos % 2 == 0 && lines[i].End? {
        EndGoes(m, lines, i, s');
      } else if Carried(m, lines, s).None? {
        OtherGoes(m, lines, s);
      } else {
        SameLoopsAfter(lines, i);
        SimpleDoes(m, lines, lines[i].s,
                   if lines[i].Plain? then s' else s'.(store := m.test(lines[i].cond, s.store).1), i + 1);
      }
    }
  }

  // ---------- whole runs ----------

  /** Every break and continue stands in a loop, every breaksw in a switch, every label of a goto is there. */
  ghost predicate AllAble(lines: seq<Line>)
  {
    forall i | 0 <= i < |lines| :: AbleAt(lines, i)
  }

  ghost predicate AbleAt(lines: seq<Line>, i: nat)
    requires i < |lines|
  {
    OpenAt(lines, i + 1).Some? && (lines[i].Plain? || lines[i].IfSimple?) ==> Able(lines, i + 1, lines[i].s)
  }

  ghost predicate EndsAfter<S>(m: Meaning<S>, lines: seq<Line>, s: State<S>, k: nat)
  {
    var r := Run(m, lines, s, k);
    r.Some? && r.value.pos == 2 * |lines| && r.value.loops == []
  }

  /** A run of such a script, tame as well, stops only at the end of the text, and there no loop is active. */
  lemma {:induction false} RunsToTheEnd<S>(m: Meaning<S>, lines: seq<Line>, s: State<S>, n: nat)
    requires WellNested(lines) && Tame(lines) && AllAble(lines) && Inv(lines, s)
    ensures Run(m, lines, s, n).Some? || exists k | 0 <= k < n :: EndsAfter(m, lines, s, k)
    decreases n
  {
    if n > 0 {
      StepGoes(m, lines, s);
      if Step(m, lines, s).None? {
        StoppedAtEnd(m, lines, s);
        assert EndsAfter(m, lines, s, 0);
      } else {
        var t := Step(m, lines, s).value;
        RunKeepsInv(m, lines, s, 1);
        assert Run(m, lines, t, 0) == Some(t);
        RunsToTheEnd(m, lines, t, n - 1);
        if Run(m, lines, s, n).None? {
          var k :| 0 <= k < n - 1 && EndsAfter(m, lines, t, k);
          assert EndsAfter(m, lines, s, k + 1);
        }
      }
    }
  }

  lemma {:induction false} StoppedAtEnd<S>(m: Meaning<S>, lines: seq<Line>, s: State<S>)
    requires WellNested(lines) && AllAble(lines) && Inv(lines, s) && Stuck(m, lines, s)
    ensures s.pos == 2 * |lines| && s.loops == []
  {
    hide Able;
    var i := s.pos / 2;
    if i < |lines| {
      OpenAtDefined(lines, i + 1);
      AbleHere(lines, i);
    }
    assert LoopLines([]) == [];
  }

  lemma {:induction false} AbleHere(lines: seq<Line>, i: nat)
    requires AllAble(lines) && i < |lines|
    ensures AbleAt(lines, i)
  {
  }
}
