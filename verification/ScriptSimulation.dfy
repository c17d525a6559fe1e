/**
 * The line-seeking machine runs structured scripts correctly: a legal block halts in the
 * machine exactly when its big-step meaning terminates, at the line after the block, with
 * the same store and the loop stack it started with.
 */
module ScriptSimulation {
  import opened Wrappers
  import opened Sequences
  import opened ScriptSearch
  import opened ScriptMachine
  import opened ScriptStructure

  lemma {:induction false} AtOne(lines: seq<Line>, k: nat, l: Line)
    requires At(lines, k, [l])
    ensures k < |lines| && lines[k] == l
  {
  }

  // ---------- a scan passes over a complete block unchanged ----------

  ghost predicate Passable(goal: Goal, labels: bool, sc: Scan)
  {
    sc.level >= 0 && sc.wlevel >= 0 && !goal.ToGoto? && (goal.ToSwitch? && labels ==> sc.level > 0)
  }

  /** One turn of the scan loop on a line that does not end it. */
  lemma {:induction false} PassLine<S>(m: Meaning<S>, st: S, lines: seq<Line>, goal: Goal, i: nat, line: Line,
                                       sc: Scan, sc': Scan)
    requires i < |lines| && lines[i] == line
    requires !StopsAt(goal, line, sc.level) && sc' == ScanLine(m, st, goal, line, sc) && sc'.level >= 0
    ensures Search(m, st, lines, goal, i, sc) == Search(m, st, lines, goal, i + 1, sc')
  {
  }

  predicate Pair(first: Line, last: Line)
  {
    || (first.IfThen? && last.EndIf?)
    || ((first.While? || first.Foreach?) && last.End?)
    || (first.Switch? && last.EndSw?)
  }

  /** The closing line undoes what the opening line did to the scan. */
  lemma {:induction false} PairBalances<S>(m: Meaning<S>, st: S, goal: Goal, first: Line, last: Line,
                                           sc: Scan) returns (sc': Scan)
    requires Pair(first, last) && sc.level >= 0 && sc.wlevel >= 0
    ensures sc' == ScanLine(m, st, goal, first, sc) && sc == ScanLine(m, st, goal, last, sc')
    ensures sc'.level >= 0 && sc'.wlevel >= 0 && !StopsAt(goal, first, sc.level) && !StopsAt(goal, last, sc'.level)
    ensures goal.ToSwitch? && first.Switch? ==> sc'.level > 0
    ensures goal.ToIf? && first.IfThen? ==> sc'.level > 0
    ensures goal.ToSwitch? && sc.level > 0 ==> sc'.level > 0
  {
    sc' := ScanLine(m, st, goal, first, sc);
  }

  lemma {:induction false} SkipBlock<S>(m: Meaning<S>, st: S, lines: seq<Line>, goal: Goal, k: nat, b: Block,
                                        sc: Scan, inLoop: bool, inSwitch: bool, labels: bool)
    requires At(lines, k, Lines(b)) && Legal(b, inLoop, inSwitch, labels) && Passable(goal, labels, sc)
    ensures Search(m, st, lines, goal, k, sc) == Search(m, st, lines, goal, k + |Lines(b)|, sc)
    decreases b, 0
  {
    hide Search, StmtLines, LegalStmt;
    if b.Cons? {
      AtParts(lines, k, StmtLines(b.head), Lines(b.tail));
      SkipStmt(m, st, lines, goal, k, b.head, sc, inLoop, inSwitch, labels);
      SkipBlock(m, st, lines, goal, k + |StmtLines(b.head)|, b.tail, sc, inLoop, inSwitch, labels);
    }
  }

  lemma {:induction false} SkipStmt<S>(m: Meaning<S>, st: S, lines: seq<Line>, goal: Goal, k: nat, s: Stmt,
                                       sc: Scan, inLoop: bool, inSwitch: bool, labels: bool)
    requires At(lines, k, StmtLines(s)) && LegalStmt(s, inLoop, inSwitch, labels) && Passable(goal, labels, sc)
    ensures Search(m, st, lines, goal, k, sc) == Search(m, st, lines, goal, k + |StmtLines(s)|, sc)
    decreases s, 2
  {
    hide At, Search, Lines, ElseLines, Legal, LegalElse;
    match s
    case IfElse(cond, thn, els) =>
      SkipIf(m, st, lines, goal, k, cond, thn, els, sc, inLoop, inSwitch);
    case WhileDo(cond, body) =>
      SkipBody(m, st, lines, goal, k, While(cond), body, End, sc, true, false, false);
    case ForeachDo(id, body) =>
      SkipBody(m, st, lines, goal, k, Foreach(id), body, End, sc, true, false, false);
    case SwitchOn(w, body) =>
      SkipBody(m, st, lines, goal, k, Switch(w), body, EndSw, sc, inLoop, true, true);
    case _ =>
      assert StmtLines(s) == [StmtLines(s)[0]];
      AtOne(lines, k, StmtLines(s)[0]);
      PassLine(m, st, lines, goal, k, StmtLines(s)[0], sc, sc);
  }

  lemma {:induction false} SkipIf<S>(m: Meaning<S>, st: S, lines: seq<Line>, goal: Goal, k: nat,
                                     cond: nat, thn: Block, els: ElsePart, sc: Scan, inLoop: bool, inSwitch: bool)
    requires At(lines, k, StmtLines(IfElse(cond, thn, els))) && Passable(goal, false, sc)
    requires Legal(thn, inLoop, inSwitch, false) && LegalElse(els, inLoop, inSwitch)
    ensures Search(m, st, lines, goal, k, sc) ==
            Search(m, st, lines, goal, k + |StmtLines(IfElse(cond, thn, els))|, sc)
    decreases IfElse(cond, thn, els), 1
  {
    hide Search, Lines, ElseLines, Legal, LegalElse, ScanLine;
    AtParts(lines, k, [IfThen(cond)], Lines(thn) + (ElseLines(els) + [EndIf]));
    AtParts(lines, k + 1, Lines(thn), ElseLines(els) + [EndIf]);
    AtParts(lines, k + 1 + |Lines(thn)|, ElseLines(els), [EndIf]);
    var last := k + 1 + |Lines(thn)| + |ElseLines(els)|;
    var sc' := PairBalances(m, st, goal, IfThen(cond), EndIf, sc);
    PassLine(m, st, lines, goal, k, IfThen(cond), sc, sc');
    SkipBlock(m, st, lines, goal, k + 1, thn, sc', inLoop, inSwitch, false);
    SkipElse(m, st, lines, goal, k + 1 + |Lines(thn)|, els, sc', inLoop, inSwitch);
    AtOne(lines, last, EndIf);
    PassLine(m, st, lines, goal, last, EndIf, sc', sc);
  }

  lemma {:induction false} SkipBody<S>(m: Meaning<S>, st: S, lines: seq<Line>, goal: Goal, k: nat,
                                       first: Line, body: Block, last: Line,
                                       sc: Scan, inLoop: bool, inSwitch: bool, labels: bool)
    requires At(lines, k, [first] + (Lines(body) + [last])) && Legal(body, inLoop, inSwitch, labels)
    requires Pair(first, last) && Passable(goal, false, sc) && (labels ==> first.Switch?)
    ensures Search(m, st, lines, goal, k, sc) == Search(m, st, lines, goal, k + 1 + |Lines(body)| + 1, sc)
    decreases body, 1
  {
    hide At, Search, Lines, Legal, ScanLine;
    AtParts(lines, k, [first], Lines(body) + [last]);
    AtParts(lines, k + 1, Lines(body), [last]);
    var sc' := PairBalances(m, st, goal, first, last, sc);
    PassLine(m, st, lines, goal, k, first, sc, sc');
    SkipBlock(m, st, lines, goal, k + 1, body, sc', inLoop, inSwitch, labels);
    AtOne(lines, k + 1 + |Lines(body)|, last);
    PassLine(m, st, lines, goal, k + 1 + |Lines(body)|, last, sc', sc);
  }

  lemma {:induction false} SkipElse<S>(m: Meaning<S>, st: S, lines: seq<Line>, goal: Goal, k: nat, e: ElsePart,
                                       sc: Scan, inLoop: bool, inSwitch: bool)
    requires At(lines, k, ElseLines(e)) && LegalElse(e, inLoop, inSwitch) && Passable(goal, false, sc)
    requires goal.ToIf? ==> sc.level > 0
    ensures Search(m, st, lines, goal, k, sc) == Search(m, st, lines, goal, k + |ElseLines(e)|, sc)
    decreases e, 0
  {
    hide Search, Lines, Legal;
    match e
    case NoElse =>
    case ElseDo(body) =>
      assert ElseLines(e) == [Else] + (Lines(body) + []);
      SkipElseBlock(m, st, lines, goal, k, Else, body, [], sc, inLoop, inSwitch);
    case ElseIfDo(cond, thn, els) =>
      SkipElseBlock(m, st, lines, goal, k, ElseIf(cond), thn, ElseLines(els), sc, inLoop, inSwitch);
      SkipElse(m, st, lines, goal, k + 1 + |Lines(thn)|, els, sc, inLoop, inSwitch);
  }

  lemma {:induction false} SkipElseBlock<S>(m: Meaning<S>, st: S, lines: seq<Line>, goal: Goal, k: nat, first: Line,
                                            b: Block, rest: seq<Line>, sc: Scan, inLoop: bool, inSwitch: bool)
    requires At(lines, k, [first] + (Lines(b) + rest)) && (first.Else? || first.ElseIf?)
    requires Legal(b, inLoop, inSwitch, false) && Passable(goal, false, sc) && (goal.ToIf? ==> sc.level > 0)
    ensures Search(m, st, lines, goal, k, sc) == Search(m, st, lines, goal, k + 1 + |Lines(b)|, sc)
    ensures At(lines, k + 1 + |Lines(b)|, rest)
    decreases b, 1
  {
    AtParts(lines, k, [first], Lines(b) + rest);
    AtParts(lines, k + 1, Lines(b), rest);
    PassLine(m, st, lines, goal, k, first, sc, sc);
    SkipBlock(m, st, lines, goal, k + 1, b, sc, inLoop, inSwitch, false);
  }

  // ---------- where break, continue and breaksw go ----------

  /** A scan for goal that starts at line i ends at position pos and leaves the loop stack alone. */
  ghost predicate LeadsTo<S(!new)>(m: Meaning<S>, lines: seq<Line>, goal: Goal, i: nat, pos: nat)
  {
    forall st: S, loops: seq<Loop> :: Search(m, st, lines, goal, i, Scan(0, 0, loops)) == Some(Found(pos, loops))
  }

  lemma {:induction false} LeadsThroughBlock<S(!new)>(m: Meaning<S>, lines: seq<Line>, goal: Goal, k: nat, b: Block,
                                               pos: nat,
                                   inLoop: bool, inSwitch: bool, labels: bool)
    requires At(lines, k, Lines(b)) && Legal(b, inLoop, inSwitch, labels) && (goal.ToBreak? || goal.ToBrkSw?)
    requires LeadsTo(m, lines, goal, k + |Lines(b)|, pos)
    ensures LeadsTo(m, lines, goal, k, pos)
  {
    forall st: S, loops: seq<Loop>
      ensures Search(m, st, lines, goal, k, Scan(0, 0, loops)) == Some(Found(pos, loops))
    {
      SkipBlock(m, st, lines, goal, k, b, Scan(0, 0, loops), inLoop, inSwitch, labels);
    }
  }

  lemma {:induction false} LeadsThroughElse<S(!new)>(m: Meaning<S>, lines: seq<Line>, goal: Goal, k: nat,
                                              e: ElsePart, pos: nat,
                                  inLoop: bool, inSwitch: bool)
    requires At(lines, k, ElseLines(e)) && LegalElse(e, inLoop, inSwitch) && (goal.ToBreak? || goal.ToBrkSw?)
    requires LeadsTo(m, lines, goal, k + |ElseLines(e)|, pos)
    ensures LeadsTo(m, lines, goal, k, pos)
  {
    forall st: S, loops: seq<Loop>
      ensures Search(m, st, lines, goal, k, Scan(0, 0, loops)) == Some(Found(pos, loops))
    {
      SkipElse(m, st, lines, goal, k, e, Scan(0, 0, loops), inLoop, inSwitch);
    }
  }

  lemma {:induction false} LeadsThroughLine<S(!new)>(m: Meaning<S>, lines: seq<Line>, goal: Goal, k: nat, pos: nat)
    requires k < |lines| && LeadsTo(m, lines, goal, k + 1, pos)
    requires goal.ToBreak? || goal.ToBrkSw?
    requires lines[k].EndIf? || (lines[k].EndSw? && goal.ToBreak?)
    ensures LeadsTo(m, lines, goal, k, pos)
  {
    forall st: S, loops: seq<Loop>
      ensures Search(m, st, lines, goal, k, Scan(0, 0, loops)) == Some(Found(pos, loops))
    {
      PassLine(m, st, lines, goal, k, lines[k], Scan(0, 0, loops), Scan(0, 0, loops));
    }
  }

  /** The surroundings of a block: the exits e of the innermost loop and w of the innermost switch. */
  datatype Ctx = Ctx(inLoop: bool, inSwitch: bool, e: nat, w: nat)

  /** The block on lines [k, k2) lies inside every active loop; scans from its end find the exits. */
  ghost predicate Fits<S(!new)>(m: Meaning<S>, lines: seq<Line>, loops: seq<Loop>, k: nat, k2: nat, c: Ctx)
  {
    && (forall x | 0 <= x < |loops| ::
          && loops[x].start <= 2 * k && (loops[x].fe.None? ==> loops[x].start < 2 * k)
          && (loops[x].end == 0 || loops[x].end > 2 * k2))
    && (c.inLoop ==>
          && loops != [] && c.e >= 2 && (loops[0].end == 0 || loops[0].end == c.e)
          && (forall x | 1 <= x < |loops| :: Inside(loops[x], c.e))
          && LeadsTo(m, lines, ToBreak, k2, c.e))
    && (c.inSwitch ==> LeadsTo(m, lines, ToBrkSw, k2, c.w))
  }

  /** What doagain does to a loop whose exit is e. */
  function NextTurn<S>(m: Meaning<S>, loops: seq<Loop>, e: nat, st: S): State<S>
    requires loops != []
  {
    var l := loops[0];
    match l.fe
    case None => State(l.start, loops, st)
    case Some(w) =>
      if |w.left| <= 1 then State(e, loops[1..], st)
      else State(l.start, loops[0 := l.(fe := Some(Words(w.loop, w.left[1..])))], m.bind(w.loop, w.left[0], st))
  }

  lemma {:induction false} ToEndExits<S(!new)>(m: Meaning<S>, lines: seq<Line>, s: State<S>, e: nat)
    requires s.loops != [] && e >= 2 && s.pos % 2 == 0
    requires s.loops[0].end == e || (s.loops[0].end == 0 && LeadsTo(m, lines, ToBreak, s.pos / 2, e))
    requires forall x | 1 <= x < |s.loops| :: Inside(s.loops[x], e)
    ensures ToEnd(m, lines, s) == Some(State(e, s.loops[1..], s.store))
  {
    var l, rest := s.loops[0], s.loops[1..];
    assert rest != [] ==> rest[0] == s.loops[1];
    assert WFree(e, rest) == rest;
    if l.end == 0 {
      assert Search(m, s.store, lines, ToBreak, s.pos / 2, Scan(0, 0, s.loops)) == Some(Found(e, s.loops));
      var loops' := s.loops[0 := l.(end := (e - 1) as nat)];
      assert loops'[1..] == rest && WFree(e, loops') == WFree(e, rest);
    }
  }

  lemma {:induction false} AgainTurns<S(!new)>(m: Meaning<S>, lines: seq<Line>, s: State<S>, e: nat)
    requires s.loops != [] && e >= 2 && s.pos % 2 == 0
    requires s.loops[0].end == e || (s.loops[0].end == 0 && LeadsTo(m, lines, ToBreak, s.pos / 2, e))
    requires forall x | 1 <= x < |s.loops| :: Inside(s.loops[x], e)
    ensures DoAgain(m, lines, s) == Some(NextTurn(m, s.loops, e, s.store))
  {
    ToEndExits(m, lines, s, e);
  }

  // ---------- machine runs ----------

  ghost predicate Trace<S(!new)>(m: Meaning<S>, lines: seq<Line>, tr: seq<State<S>>)
  {
    |tr| > 0 && forall i {:trigger Step(m, lines, tr[i])} | 0 <= i < |tr| - 1 :: Step(m, lines, tr[i]) == Some(tr[i + 1])
  }

  /** The machine gets from s to t in n steps. */
  ghost predicate Reaches<S(!new)>(m: Meaning<S>, lines: seq<Line>, s: State<S>, n: nat, t: State<S>)
  {
    exists tr: seq<State<S>> :: Trace(m, lines, tr) && |tr| == n + 1 && tr[0] == s && tr[n] == t
  }

  /** The machine takes at least n steps from s. */
  ghost predicate Goes<S(!new)>(m: Meaning<S>, lines: seq<Line>, s: State<S>, n: nat)
  {
    exists tr: seq<State<S>> :: Trace(m, lines, tr) && |tr| == n + 1 && tr[0] == s
  }

  lemma {:induction false} NoStep<S(!new)>(m: Meaning<S>, lines: seq<Line>, s: State<S>)
    ensures Reaches(m, lines, s, 0, s) && Goes(m, lines, s, 0)
  {
    assert Trace(m, lines, [s]);
  }

  lemma {:induction false} OneStep<S(!new)>(m: Meaning<S>, lines: seq<Line>, s: State<S>, t: State<S>)
    requires Step(m, lines, s) == Some(t)
    ensures Reaches(m, lines, s, 1, t)
  {
    var tr := [s, t];
    assert Trace(m, lines, tr) && tr[0] == s && tr[1] == t;
  }

  lemma {:induction false} TraceAppend<S(!new)>(m: Meaning<S>, lines: seq<Line>, a: seq<State<S>>, b: seq<State<S>>)
    requires Trace(m, lines, a) && Trace(m, lines, b) && a[|a| - 1] == b[0]
    ensures Trace(m, lines, a + b[1..])
  {
    var tr := a + b[1..];
    forall i | 0 <= i < |tr| - 1
      ensures Step(m, lines, tr[i]) == Some(tr[i + 1])
    {
      if i < |a| - 1 {
        assert Step(m, lines, a[i]) == Some(a[i + 1]);
      } else {
        assert Step(m, lines, b[i - (|a| - 1)]) == Some(b[i - (|a| - 1) + 1]);
      }
    }
  }

  lemma {:induction false} ReachesThen<S(!new)>(m: Meaning<S>, lines: seq<Line>, s: State<S>, n: nat, t: State<S>,
                                         k: nat, u: State<S>)
    requires Reaches(m, lines, s, n, t) && Reaches(m, lines, t, k, u)
    ensures Reaches(m, lines, s, n + k, u)
  {
    var a: seq<State<S>> :| Trace(m, lines, a) && |a| == n + 1 && a[0] == s && a[n] == t;
    var b: seq<State<S>> :| Trace(m, lines, b) && |b| == k + 1 && b[0] == t && b[k] == u;
    TraceAppend(m, lines, a, b);
  }

  lemma {:induction false} ReachesGoes<S(!new)>(m: Meaning<S>, lines: seq<Line>, s: State<S>, n: nat, t: State<S>,
                                         k: nat)
    requires Reaches(m, lines, s, n, t) && Goes(m, lines, t, k)
    ensures Goes(m, lines, s, n + k)
  {
    var a: seq<State<S>> :| Trace(m, lines, a) && |a| == n + 1 && a[0] == s && a[n] == t;
    var b: seq<State<S>> :| Trace(m, lines, b) && |b| == k + 1 && b[0] == t;
    TraceAppend(m, lines, a, b);
  }

  lemma {:induction false} TraceRuns<S(!new)>(m: Meaning<S>, lines: seq<Line>, tr: seq<State<S>>)
    requires Trace(m, lines, tr)
    ensures Run(m, lines, tr[0], |tr| - 1) == Some(tr[|tr| - 1])
    decreases |tr|
  {
    if |tr| > 1 {
      assert Step(m, lines, tr[0]) == Some(tr[1]);
      var rest := tr[1..];
      forall i | 0 <= i < |rest| - 1
        ensures Step(m, lines, rest[i]) == Some(rest[i + 1])
      {
        assert Step(m, lines, tr[i + 1]) == Some(tr[i + 2]);
      }
      TraceRuns(m, lines, rest);
    }
  }

  // ---------- simulation ----------

  /** Where the machine has to be after a block that ended with `out` and store st. */
  ghost function Target<S>(m: Meaning<S>, out: Out, st: S, loops: seq<Loop>, k2: nat, c: Ctx): State<S>
    requires Possible(out, loops, c)
  {
    match out
    case Normal => State(2 * k2, loops, st)
    case Broke => State(c.e, loops[1..], st)
    case Continued => NextTurn(m, loops, c.e, st)
    case BrokeSw => State(c.w, loops, st)
  }

  ghost predicate Possible(out: Out, loops: seq<Loop>, c: Ctx)
  {
    match out
    case Normal => true
    case Broke => c.inLoop && loops != []
    case Continued => c.inLoop && loops != []
    case BrokeSw => c.inSwitch
  }

  /** From s the machine does in n steps what the meaning r of the block ending before line k2 says. */
  ghost predicate Simulates<S(!new)>(m: Meaning<S>, lines: seq<Line>, s: State<S>, n: nat, r: Eval<S>,
                                     loops: seq<Loop>, k2: nat, c: Ctx, fuel: nat)
  {
    match r
    case OutOfFuel => n >= fuel && Goes(m, lines, s, n)
    case Done(out, st) => Possible(out, loops, c) && Reaches(m, lines, s, n, Target(m, out, st, loops, k2, c))
  }

  /** Steps taken before a simulated stretch. */
  lemma {:induction false} Later<S(!new)>(m: Meaning<S>, lines: seq<Line>, s: State<S>, a: nat, t: State<S>, n: nat,
                                   r: Eval<S>,
                       loops: seq<Loop>, k2: nat, c: Ctx, fuel: nat, fuel': nat)
    requires Reaches(m, lines, s, a, t) && Simulates(m, lines, t, n, r, loops, k2, c, fuel)
    requires fuel' <= fuel + a
    ensures Simulates(m, lines, s, a + n, r, loops, k2, c, fuel')
  {
    match r
    case OutOfFuel => ReachesGoes(m, lines, s, a, t, n);
    case Done(out, st) => ReachesThen(m, lines, s, a, t, n, Target(m, out, st, loops, k2, c));
  }

  // ---------- what one line does ----------

  lemma {:induction false} SimSimple<S(!new)>(m: Meaning<S>, lines: seq<Line>, k: nat, cmd: Simple, s: State<S>,
                                       c: Ctx)
    returns (t: State<S>)
    requires Allowed(cmd, c.inLoop, c.inSwitch) && Fits(m, lines, s.loops, k, k + 1, c) && s.pos == 2 * (k + 1)
    ensures DoSimple(m, lines, cmd, s) == Some(t)
    ensures Simulates(m, lines, t, 0, MeanSimple(m, cmd, s.store), s.loops, k + 1, c, 0)
  {
    match cmd
    case Command(id) =>
      t := s.(store := m.run(id, s.store));
      NoStep(m, lines, t);
    case Break =>
      ToEndExits(m, lines, s, c.e);
      t := State(c.e, s.loops[1..], s.store);
      NoStep(m, lines, t);
    case Continue =>
      AgainTurns(m, lines, s, c.e);
      t := NextTurn(m, s.loops, c.e, s.store);
      NoStep(m, lines, t);
    case BreakSw =>
      assert Search(m, s.store, lines, ToBrkSw, s.pos / 2, Scan(0, 0, s.loops)) == Some(Found(c.w, s.loops));
      t := State(c.w, s.loops, s.store);
      NoStep(m, lines, t);
  }

  lemma {:induction false} SimPlain<S(!new)>(m: Meaning<S>, lines: seq<Line>, k: nat, cmd: Simple, loops: seq<Loop>,
                                      st: S,
                          fuel: nat, c: Ctx)
    requires k < |lines| && lines[k] == Plain(cmd)
    requires Allowed(cmd, c.inLoop, c.inSwitch) && Fits(m, lines, loops, k, k + 1, c)
    ensures Simulates(m, lines, State(2 * k, loops, st), 1, MeanSimple(m, cmd, st), loops, k + 1, c, fuel)
  {
    var t := SimSimple(m, lines, k, cmd, State(2 * (k + 1), loops, st), c);
    OneStep(m, lines, State(2 * k, loops, st), t);
    Later(m, lines, State(2 * k, loops, st), 1, t, 0, MeanSimple(m, cmd, st), loops, k + 1, c, 0, 0);
  }

  lemma {:induction false} SimIfSimple<S(!new)>(m: Meaning<S>, lines: seq<Line>, k: nat, cond: nat, cmd: Simple,
                                         loops: seq<Loop>,
                             st: S, fuel: nat, c: Ctx)
    requires k < |lines| && lines[k] == IfSimple(cond, cmd)
    requires Allowed(cmd, c.inLoop, c.inSwitch) && Fits(m, lines, loops, k, k + 1, c)
    ensures Simulates(m, lines, State(2 * k, loops, st), 1, MeanStmt(m, DoIf(cond, cmd), st, fuel),
                      loops, k + 1, c, fuel)
  {
    var r := m.test(cond, st);
    if r.0 {
      var t := SimSimple(m, lines, k, cmd, State(2 * (k + 1), loops, r.1), c);
      OneStep(m, lines, State(2 * k, loops, st), t);
      Later(m, lines, State(2 * k, loops, st), 1, t, 0, MeanSimple(m, cmd, r.1), loops, k + 1, c, 0, 0);
    } else {
      OneStep(m, lines, State(2 * k, loops, st), State(2 * (k + 1), loops, r.1));
    }
  }

  /** endif, endsw, case and default lines do nothing when run. */
  lemma {:induction false} ZipStep<S(!new)>(m: Meaning<S>, lines: seq<Line>, i: nat, loops: seq<Loop>, st: S)
    requires i < |lines| && (lines[i].EndIf? || lines[i].EndSw? || lines[i].Case? || lines[i].Default?)
    ensures Reaches(m, lines, State(2 * i, loops, st), 1, State(2 * (i + 1), loops, st))
  {
    OneStep(m, lines, State(2 * i, loops, st), State(2 * (i + 1), loops, st));
  }

  /** What follows the else of a plain else line is empty. */
  lemma {:induction false} ElseTailStep<S(!new)>(m: Meaning<S>, lines: seq<Line>, i: nat, loops: seq<Loop>, st: S)
    requires i < |lines| && lines[i].Else?
    ensures Reaches(m, lines, State(2 * i + 1, loops, st), 1, State(2 * (i + 1), loops, st))
  {
    OneStep(m, lines, State(2 * i + 1, loops, st), State(2 * (i + 1), loops, st));
  }

  /** s is about to read the condition of an if on line k. */
  ghost predicate AtIf<S>(lines: seq<Line>, k: nat, cond: nat, s: State<S>)
  {
    && k < |lines|
    && ((s.pos == 2 * k && lines[k] == IfThen(cond)) || (s.pos == 2 * k + 1 && lines[k] == ElseIf(cond)))
  }

  lemma {:induction false} IfTrue<S(!new)>(m: Meaning<S>, lines: seq<Line>, k: nat, cond: nat, s: State<S>)
    requires AtIf(lines, k, cond, s) && m.test(cond, s.store).0
    ensures Reaches(m, lines, s, 1, State(2 * (k + 1), s.loops, m.test(cond, s.store).1))
  {
    OneStep(m, lines, s, State(2 * (k + 1), s.loops, m.test(cond, s.store).1));
  }

  /** doif on a false condition: the scan stops at the next else of this if, or past its endif. */
  lemma {:induction false} IfFalse<S(!new)>(m: Meaning<S>, lines: seq<Line>, k: nat, cond: nat, thn: Block,
                                     els: ElsePart, s: State<S>,
                         inLoop: bool, inSwitch: bool)
    requires AtIf(lines, k, cond, s) && !m.test(cond, s.store).0
    requires At(lines, k + 1, Lines(thn) + (ElseLines(els) + [EndIf])) && Legal(thn, inLoop, inSwitch, false)
    ensures var k1 := k + 1 + |Lines(thn)|;
            Reaches(m, lines, s, 1, State(if els.NoElse? then 2 * (k1 + 1) else 2 * k1 + 1, s.loops,
                                          m.test(cond, s.store).1))
  {
    hide At, Lines, Legal, Reaches;
    var k1 := k + 1 + |Lines(thn)|;
    var st := m.test(cond, s.store).1;
    AtParts(lines, k + 1, Lines(thn), ElseLines(els) + [EndIf]);
    SkipBlock(m, st, lines, ToIf, k + 1, thn, Scan(0, 0, s.loops), inLoop, inSwitch, false);
    assert lines[k1] == (ElseLines(els) + [EndIf])[0];
    OneStep(m, lines, s, State(if els.NoElse? then 2 * (k1 + 1) else 2 * k1 + 1, s.loops, st));
  }

  /** doelse: from the first else of an if at line k1, the scan goes past its endif. */
  lemma {:induction false} ElseJumps<S(!new)>(m: Meaning<S>, lines: seq<Line>, k1: nat, els: ElsePart,
                                       loops: seq<Loop>, st: S,
                           inLoop: bool, inSwitch: bool)
    requires At(lines, k1, ElseLines(els) + [EndIf]) && LegalElse(els, inLoop, inSwitch) && !els.NoElse?
    ensures Reaches(m, lines, State(2 * k1, loops, st), 1, State(2 * (k1 + |ElseLines(els)| + 1), loops, st))
  {
    var last := k1 + |ElseLines(els)|;
    AtParts(lines, k1, ElseLines(els), [EndIf]);
    AtOne(lines, last, EndIf);
    SkipElse(m, st, lines, ToElse, k1, els, Scan(0, 0, loops), inLoop, inSwitch);
    PassLine(m, st, lines, ToElse, k1, lines[k1], Scan(0, 0, loops), Scan(0, 0, loops));
    assert Search(m, st, lines, ToElse, last, Scan(0, 0, loops)) == Some(Found(2 * (last + 1), loops));
    OneStep(m, lines, State(2 * k1, loops, st), State(2 * (last + 1), loops, st));
  }

  /** doend at line e: the loop's end becomes known and its next turn begins. */
  lemma {:induction false} EndTurns<S(!new)>(m: Meaning<S>, lines: seq<Line>, e: nat, loops: seq<Loop>, st: S)
    requires e < |lines| && lines[e] == End && loops != []
    requires forall x | 1 <= x < |loops| :: Inside(loops[x], 2 * (e + 1))
    ensures Reaches(m, lines, State(2 * e, loops, st), 1,
                    NextTurn(m, loops[0 := loops[0].(end := 2 * (e + 1))], 2 * (e + 1), st))
  {
    var loops' := loops[0 := loops[0].(end := 2 * (e + 1))];
    AgainTurns(m, lines, State(2 * (e + 1), loops', st), 2 * (e + 1));
    OneStep(m, lines, State(2 * e, loops, st), NextTurn(m, loops', 2 * (e + 1), st));
  }

  /** dowhile at line k: cur is the stack before the line, stack the one it runs with. */
  lemma {:induction false} WhileStep<S(!new)>(m: Meaning<S>, lines: seq<Line>, k: nat, cond: nat, cur: seq<Loop>,
                                       stack: seq<Loop>,
                           st: S, e: nat)
    requires k < |lines| && lines[k] == While(cond) && stack != [] && e >= 2
    requires if cur != [] && cur[0].start == 2 * k && cur[0].fe.None? then stack == cur
             else stack == [Loop(2 * k, 0, None)] + cur
    requires LeadsTo(m, lines, ToBreak, k + 1, e) && (stack[0].end == 0 || stack[0].end == e)
    requires forall x | 1 <= x < |stack| :: Inside(stack[x], e)
    ensures var t := m.test(cond, st);
            Reaches(m, lines, State(2 * k, cur, st), 1,
                    if t.0 then State(2 * (k + 1), stack, t.1) else State(e, stack[1..], t.1))
  {
    var t := m.test(cond, st);
    if !t.0 { ToEndExits(m, lines, State(2 * (k + 1), stack, t.1), e); }
    OneStep(m, lines, State(2 * k, cur, st),
            if t.0 then State(2 * (k + 1), stack, t.1) else State(e, stack[1..], t.1));
  }

  lemma {:induction false} ForeachStep<S(!new)>(m: Meaning<S>, lines: seq<Line>, k: nat, id: nat, loops: seq<Loop>,
                                         st: S, e: nat)
    requires k < |lines| && lines[k] == Foreach(id) && e >= 2
    requires LeadsTo(m, lines, ToBreak, k + 1, e)
    requires forall x | 0 <= x < |loops| :: Inside(loops[x], e)
    ensures Reaches(m, lines, State(2 * k, loops, st), 1,
                    NextTurn(m, [Loop(2 * (k + 1), 0, Some(Words(id, m.words(id, st) + [")"])))] + loops, e, st))
  {
    var stack := [Loop(2 * (k + 1), 0, Some(Words(id, m.words(id, st) + [")"])))] + loops;
    AgainTurns(m, lines, State(2 * (k + 1), stack, st), e);
    OneStep(m, lines, State(2 * k, loops, st), NextTurn(m, stack, e, st));
  }
}
