/**
 * The line scanner behind every jump of a csh script (bin/csh/func.c, search).
 *
 * A script is a sequence of classified lines. A position is twice a line index; the
 * odd position 2*i+1 is the text left on line i once its leading `else` was read.
 */
module ScriptSearch {
  import opened Wrappers

  datatype Simple = Command(id: nat) | Break | Continue | BreakSw | Goto(name: nat)

  datatype Line =
    | Plain(s: Simple)
    | IfSimple(cond: nat, s: Simple)   // if (e) command
    | IfThen(cond: nat)                // if (e) then
    | Else
    | ElseIf(cond: nat)                // else if (e) then
    | EndIf
    | While(cond: nat)
    | Foreach(loop: nat)
    | End
    | Switch(word: nat)
    | Case(pattern: nat)
    | Default
    | EndSw
    | Label(name: nat)

  /** What the script's commands, expressions and word lists do to a store `S`. */
  datatype Meaning<!S> = Meaning(
    run: (nat, S) -> S,                      // a simple command
    test: (nat, S) -> (bool, S),             // an expression, with its side effects
    words: (nat, S) -> seq<string>,          // the expanded word list of a foreach
    bind: (nat, string, S) -> S,             // setting the foreach variable
    matches: (nat, nat, S) -> bool)          // switch word against case pattern

  /** struct whyle. `end` is 0 while unknown; `fe` is the rest of the foreach word list,
      which carries the closing parenthesis as a spurious last word. */
  datatype Loop = Loop(start: nat, end: nat, fe: Option<Words>)
  datatype Words = Words(loop: nat, left: seq<string>)

  /** The `type` argument of search. */
  datatype Goal = ToBreak | ToBrkSw | ToElse | ToGoto(name: nat) | ToIf | ToSwitch(word: nat)

  datatype Scan = Scan(level: int, wlevel: int, loops: seq<Loop>)
  datatype Found = Found(pos: nat, loops: seq<Loop>)

  /** search returns in the middle of the line. */
  predicate StopsAt(goal: Goal, line: Line, level: int)
  {
    level == 0 && goal.ToIf? && (line.Else? || line.ElseIf?)
  }

  /** One turn of the switch statement inside search. */
  function ScanLine<S>(m: Meaning<S>, st: S, goal: Goal, line: Line, sc: Scan): Scan
  {
    match line
    case Case(p) =>
      if goal.ToSwitch? && sc.level == 0 && m.matches(goal.word, p, st) then sc.(level := -1) else sc
    case Default =>
      if goal.ToSwitch? && sc.level == 0 then sc.(level := -1) else sc
    case End =>
      var pops := goal.ToBrkSw? && sc.wlevel == 0 && sc.loops != [];
      Scan(if goal.ToBreak? then sc.level - 1 else sc.level, sc.wlevel - 1,
           if pops then sc.loops[1..] else sc.loops)
    case EndIf =>
      if goal.ToIf? || goal.ToElse? then sc.(level := sc.level - 1) else sc
    case EndSw =>
      if goal.ToSwitch? || goal.ToBrkSw? then sc.(level := sc.level - 1) else sc
    case IfThen(_) =>
      if goal.ToIf? || goal.ToElse? then sc.(level := sc.level + 1) else sc
    case Label(l) =>
      if goal.ToGoto? && goal.name == l then sc.(level := -1) else sc
    case Switch(_) =>
      if goal.ToSwitch? || goal.ToBrkSw? then sc.(level := sc.level + 1) else sc
    case While(_) =>
      Scan(if goal.ToBreak? then sc.level + 1 else sc.level, sc.wlevel + 1, sc.loops)
    case Foreach(_) =>
      Scan(if goal.ToBreak? then sc.level + 1 else sc.level, sc.wlevel + 1, sc.loops)
    case _ => sc
  }

  /** Where search stops, from the start of line i; None is the "not found" error at end of file. */
  function Search<S>(m: Meaning<S>, st: S, lines: seq<Line>, goal: Goal, i: nat, sc: Scan): Option<Found>
    decreases |lines| - i
  {
    if i >= |lines| then None
    else if StopsAt(goal, lines[i], sc.level) then Some(Found(2 * i + 1, sc.loops))
    else
      var sc' := ScanLine(m, st, goal, lines[i], sc);
      if sc'.level < 0 then Some(Found(2 * (i + 1), sc'.loops))
      else Search(m, st, lines, goal, i + 1, sc')
  }

  /** The nesting that is in force before a line, innermost construct first. */
  datatype Open = OpenIf(at: nat) | OpenLoop(at: nat) | OpenSwitch(at: nat)

  predicate IsLoopLine(l: Line) { l.While? || l.Foreach? }

  /** Reading one more line at index i; None if the line cannot stand there. */
  function Nest(l: Line, i: nat, open: seq<Open>): Option<seq<Open>>
  {
    match l
    case IfThen(_) => Some([OpenIf(i)] + open)
    case While(_) => Some([OpenLoop(i)] + open)
    case Foreach(_) => Some([OpenLoop(i)] + open)
    case Switch(_) => Some([OpenSwitch(i)] + open)
    case Else => if open != [] && open[0].OpenIf? then Some(open) else None
    case ElseIf(_) => if open != [] && open[0].OpenIf? then Some(open) else None
    case EndIf => if open != [] && open[0].OpenIf? then Some(open[1..]) else None
    case End => if open != [] && open[0].OpenLoop? then Some(open[1..]) else None
    case EndSw => if open != [] && open[0].OpenSwitch? then Some(open[1..]) else None
    case Case(_) => if open != [] && open[0].OpenSwitch? then Some(open) else None
    case Default => if open != [] && open[0].OpenSwitch? then Some(open) else None
    case _ => Some(open)
  }

  /** The constructs open before line i. */
  function OpenAt(lines: seq<Line>, i: nat): Option<seq<Open>>
    requires i <= |lines|
  {
    if i == 0 then Some([])
    else
      var before := OpenAt(lines, i - 1);
      if before.None? then None else Nest(lines[i - 1], i - 1, before.value)
  }

  ghost predicate WellNested(lines: seq<Line>)
  {
    OpenAt(lines, |lines|) == Some([])
  }

  /** The innermost open construct before line j is the one opened at line o. */
  ghost predicate DirectlyIn(lines: seq<Line>, o: nat, j: nat)
  {
    && j <= |lines|
    && OpenAt(lines, j).Some? && OpenAt(lines, j).value != [] && OpenAt(lines, j).value[0].at == o
  }

  /** Line j closes the construct opened at line o. */
  ghost predicate Closes(lines: seq<Line>, o: nat, j: nat)
  {
    j < |lines| && Closing(lines[j]) && DirectlyIn(lines, o, j)
  }

  /** Line j is where a jump looking for `goal` from inside the construct opened at o has to land. */
  ghost predicate Partner<S>(m: Meaning<S>, st: S, lines: seq<Line>, goal: Goal, o: nat, j: nat)
  {
    && j < |lines| && DirectlyIn(lines, o, j)
    && match lines[j]
       case End => true
       case EndIf => true
       case EndSw => true
       case Else => goal.ToIf?
       case ElseIf(_) => goal.ToIf?
       case Case(p) => goal.ToSwitch? && m.matches(goal.word, p, st)
       case Default => goal.ToSwitch?
       case _ => false
  }

  /** The kind of construct whose nesting `level` counts for a goal. */
  predicate Counted(goal: Goal, o: Open)
  {
    match goal
    case ToBreak => o.OpenLoop?
    case ToIf => o.OpenIf?
    case ToElse => o.OpenIf?
    case ToSwitch(_) => o.OpenSwitch?
    case ToBrkSw => o.OpenSwitch?
    case ToGoto(_) => false
  }

  function Count(goal: Goal, open: seq<Open>): (n: nat)
  {
    if open == [] then 0 else (if Counted(goal, open[0]) then 1 else 0) + Count(goal, open[1..])
  }

  lemma {:induction false} OpenAtDefined(lines: seq<Line>, i: nat)
    requires WellNested(lines) && i <= |lines|
    ensures OpenAt(lines, i).Some?
  {
    OpenAtDefinedBelow(lines, i, |lines|);
  }

  lemma {:induction false} OpenAtDefinedBelow(lines: seq<Line>, i: nat, n: nat)
    requires i <= n <= |lines| && OpenAt(lines, n).Some?
    ensures OpenAt(lines, i).Some?
  {
    if i < n { OpenAtDefinedBelow(lines, i, n - 1); }
  }

  /** Open constructs are listed from the latest to the earliest opener. */
  lemma {:induction false} OpenAtOrdered(lines: seq<Line>, i: nat)
    requires i <= |lines| && OpenAt(lines, i).Some?
    ensures Ordered(OpenAt(lines, i).value, i)
  {
    if i > 0 {
      OpenAtOrdered(lines, i - 1);
      NestOrdered(lines[i - 1], i - 1, OpenAt(lines, i - 1).value);
    }
  }

  ghost predicate Ordered(open: seq<Open>, i: nat)
  {
    && (forall k | 0 <= k < |open| :: open[k].at < i)
    && forall k, k' | 0 <= k < k' < |open| :: open[k].at > open[k'].at
  }

  lemma {:induction false} NestOrdered(l: Line, i: nat, open: seq<Open>)
    requires Nest(l, i, open).Some? && Ordered(open, i)
    ensures Ordered(Nest(l, i, open).value, i + 1)
  {
  }

  /** A line adds no construct but its own. */
  lemma {:induction false} NestAdds(l: Line, i: nat, open: seq<Open>, o: nat)
    requires Nest(l, i, open).Some? && o != i && forall x | 0 <= x < |open| :: open[x].at != o
    ensures forall x | 0 <= x < |Nest(l, i, open).value| :: Nest(l, i, open).value[x].at != o
  {
  }

  /** The part of the nesting above the target after reading one more line. */
  ghost function Above(l: Line, i: nat, ext: seq<Open>): seq<Open>
  {
    if l.IfThen? then [OpenIf(i)] + ext
    else if IsLoopLine(l) then [OpenLoop(i)] + ext
    else if l.Switch? then [OpenSwitch(i)] + ext
    else if (l.End? || l.EndIf? || l.EndSw?) && ext != [] then ext[1..]
    else ext
  }

  predicate Closing(l: Line) { l.End? || l.EndIf? || l.EndSw? }

  /** Reading a line that does not close the target only changes the nesting above it. */
  lemma {:induction false} NestAbove(l: Line, i: nat, ext: seq<Open>, rest: seq<Open>)
    requires Nest(l, i, ext + rest).Some? && (ext == [] ==> !Closing(l))
    ensures Nest(l, i, ext + rest) == Some(Above(l, i, ext) + rest)
  {
    var open := ext + rest;
    if Closing(l) {
      assert open[1..] == ext[1..] + rest;
    } else if |Above(l, i, ext)| > |ext| {
      assert [Above(l, i, ext)[0]] + open == Above(l, i, ext) + rest;
    }
  }

  /** The level moves with the nesting above the target. */
  lemma {:induction false} LevelAbove<S>(m: Meaning<S>, st: S, goal: Goal, l: Line, i: nat, sc: Scan, ext: seq<Open>,
                                         rest: seq<Open>)
    requires Nest(l, i, ext + rest).Some? && (ext == [] ==> !Closing(l)) && rest != []
    requires sc.level == Count(goal, ext) && !goal.ToGoto?
    requires goal.ToBrkSw? ==> sc.wlevel == Count(ToBreak, ext)
    requires ext == [] && goal.ToSwitch? ==> !l.Default? && (l.Case? ==> !m.matches(goal.word, l.pattern, st))
    requires rest[0].OpenSwitch? || !goal.ToSwitch?
    ensures var sc', ext' := ScanLine(m, st, goal, l, sc), Above(l, i, ext);
            && sc'.level == Count(goal, ext') && sc'.loops == sc.loops
            && (goal.ToBrkSw? ==> sc'.wlevel == Count(ToBreak, ext'))
  {
    if ext != [] {
      assert (ext + rest)[0] == ext[0];
    }
    if |Above(l, i, ext)| > |ext| {
      assert Above(l, i, ext)[1..] == ext;
    }
  }

  /** A line that is not the partner keeps the level equal to the nesting above the target. */
  lemma {:induction false} ScanKeepsLevel<S>(m: Meaning<S>, st: S, lines: seq<Line>, goal: Goal, i: nat,
                          sc: Scan, ext: seq<Open>, target: Open, outer: seq<Open>)
    requires i < |lines| && OpenAt(lines, i) == Some(ext + [target] + outer) && OpenAt(lines, i + 1).Some?
    requires Counted(goal, target) && sc.level == Count(goal, ext)
    requires goal.ToBrkSw? ==> sc.wlevel == Count(ToBreak, ext)
    requires !Partner(m, st, lines, goal, target.at, i)
    ensures var sc', ext' := ScanLine(m, st, goal, lines[i], sc), Above(lines[i], i, ext);
            && OpenAt(lines, i + 1) == Some(ext' + [target] + outer)
            && sc'.level == Count(goal, ext') && sc'.loops == sc.loops
            && (goal.ToBrkSw? ==> sc'.wlevel == Count(ToBreak, ext'))
            && !StopsAt(goal, lines[i], sc.level)
  {
    var rest := [target] + outer;
    assert ext + [target] + outer == ext + rest;
    if ext == [] {
      assert DirectlyIn(lines, target.at, i);
    } else {
      assert (ext + rest)[0] == ext[0];
    }
    NestAbove(lines[i], i, ext, rest);
    LevelAbove(m, st, goal, lines[i], i, sc, ext, rest);
    assert Above(lines[i], i, ext) + rest == Above(lines[i], i, ext) + [target] + outer;
  }

  /**
   * From any point inside a construct, search stops at that construct's own partner line and at
   * the first one, never at a more deeply nested one; a breaksw scan that crosses no enclosing loop
   * pops none.
   */
  lemma {:induction false} SearchFindsPartner<S>(m: Meaning<S>, st: S, lines: seq<Line>, goal: Goal, i: nat,
                                                 sc: Scan, ext: seq<Open>, target: Open, outer: seq<Open>)
    returns (j: nat)
    requires WellNested(lines) && i <= |lines| && OpenAt(lines, i) == Some(ext + [target] + outer)
    requires Counted(goal, target) && sc.level == Count(goal, ext)
    requires goal.ToBrkSw? ==> sc.wlevel == Count(ToBreak, ext)
    ensures i <= j < |lines| && Partner(m, st, lines, goal, target.at, j)
    ensures OpenAt(lines, j) == Some([target] + outer)
    ensures forall k | i <= k < j :: !Partner(m, st, lines, goal, target.at, k)
    ensures Search(m, st, lines, goal, i, sc) ==
            Some(Found(if lines[j].Else? || lines[j].ElseIf? then 2 * j + 1 else 2 * (j + 1), sc.loops))
    decreases |lines| - i
  {
    hide OpenAt, Partner, ScanLine, Above, Counted;
    StillOpen(lines, i, ext, target, outer);
    OpenAtDefined(lines, i + 1);
    if Partner(m, st, lines, goal, target.at, i) {
      j := i;
      PartnerIsTarget(m, st, lines, goal, i, ext, target, outer);
      assert ext + [target] + outer == [target] + outer;
      PartnerStops(m, st, lines, goal, i, sc, target, outer);
    } else {
      ScanKeepsLevel(m, st, lines, goal, i, sc, ext, target, outer);
      j := SearchFindsPartner(m, st, lines, goal, i + 1, ScanLine(m, st, goal, lines[i], sc),
                              Above(lines[i], i, ext), target, outer);
    }
  }

  /** The script does not end while a construct is open. */
  lemma {:induction false} StillOpen(lines: seq<Line>, i: nat, ext: seq<Open>, target: Open, outer: seq<Open>)
    requires WellNested(lines) && i <= |lines| && OpenAt(lines, i) == Some(ext + [target] + outer)
    ensures i < |lines|
  {
    assert OpenAt(lines, i).value[|ext|] == target;
  }

  lemma {:induction false} PartnerStops<S>(m: Meaning<S>, st: S, lines: seq<Line>, goal: Goal, i: nat, sc: Scan,
                                           target: Open, outer: seq<Open>)
    requires i < |lines| && OpenAt(lines, i) == Some([target] + outer) && OpenAt(lines, i + 1).Some?
    requires Counted(goal, target) && sc.level == 0 && (goal.ToBrkSw? ==> sc.wlevel == 0)
    requires Partner(m, st, lines, goal, target.at, i)
    ensures Search(m, st, lines, goal, i, sc) ==
            Some(Found(if lines[i].Else? || lines[i].ElseIf? then 2 * i + 1 else 2 * (i + 1), sc.loops))
  {
    assert ([target] + outer)[0] == target;
  }

  lemma {:induction false} PartnerIsTarget<S>(m: Meaning<S>, st: S, lines: seq<Line>, goal: Goal, i: nat,
                           ext: seq<Open>, target: Open, outer: seq<Open>)
    requires i < |lines| && OpenAt(lines, i) == Some(ext + [target] + outer)
    requires Partner(m, st, lines, goal, target.at, i)
    ensures ext == []
  {
    OpenAtOrdered(lines, i);
    var open := ext + [target] + outer;
    assert open[|ext|] == target;
  }

  /** A construct is closed by one line only. */
  lemma {:induction false} ClosedOnce(lines: seq<Line>, o: nat, j: nat, j': nat)
    requires WellNested(lines) && Closes(lines, o, j) && Closes(lines, o, j')
    ensures j == j'
  {
    if j < j' {
      ClosedForGood(lines, o, j, j');
    } else if j' < j {
      ClosedForGood(lines, o, j', j);
    }
  }

  /** Once closed, a construct is never open again. */
  lemma {:induction false} ClosedForGood(lines: seq<Line>, o: nat, j: nat, k: nat)
    requires WellNested(lines) && Closes(lines, o, j) && j < k <= |lines|
    ensures OpenAt(lines, k).Some? && forall x | 0 <= x < |OpenAt(lines, k).value| :: OpenAt(lines, k).value[x].at != o
  {
    OpenAtDefined(lines, k);
    OpenAtDefined(lines, k - 1);
    OpenAtOrdered(lines, j);
    if j + 1 < k {
      hide Nest;
      ClosedForGood(lines, o, j, k - 1);
      NestAdds(lines[k - 1], k - 1, OpenAt(lines, k - 1).value, o);
    }
  }
}
