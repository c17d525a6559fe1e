/** The induction over structured scripts, and the theorem about whole scripts. */
module ScriptTheorem {
  import opened Wrappers
  import opened Sequences
  import opened ScriptSearch
  import opened ScriptMachine
  import opened ScriptStructure
  import opened ScriptSimulation

  ghost function Size(b: Block): nat
  {
    match b
    case Nil => 0
    case Cons(h, t) => 1 + StmtSize(h) + Size(t)
  }

  ghost function StmtSize(s: Stmt): nat
  {
    match s
    case IfElse(_, thn, els) => 2 + Size(thn) + ElseSize(els)
    case WhileDo(_, body) => 2 + Size(body)
    case ForeachDo(_, body) => 2 + Size(body)
    case SwitchOn(_, body) => 2 + Size(body)
    case _ => 0
  }

  ghost function ElseSize(e: ElsePart): nat
  {
    match e
    case NoElse => 0
    case ElseDo(body) => 1 + Size(body)
    case ElseIfDo(_, thn, els) => 1 + Size(thn) + ElseSize(els)
  }

  lemma {:induction false} Narrow<S(!new)>(m: Meaning<S>, lines: seq<Line>, loops: seq<Loop>, k: nat, k2: nat,
                                    c: Ctx, i: nat, i2: nat)
    requires Fits(m, lines, loops, k, k2, c) && k <= i && i2 <= k2
    requires c.inLoop ==> LeadsTo(m, lines, ToBreak, i2, c.e)
    requires c.inSwitch ==> LeadsTo(m, lines, ToBrkSw, i2, c.w)
    ensures Fits(m, lines, loops, i, i2, c)
  {
  }

  /** A simulated block followed by its closing line. */
  lemma {:induction false} ThenZip<S(!new)>(m: Meaning<S>, lines: seq<Line>, s: State<S>, n: nat, r: Eval<S>,
                                     loops: seq<Loop>,
                   i: nat, c: Ctx, fuel: nat)
    returns (n': nat)
    requires Simulates(m, lines, s, n, r, loops, i, c, fuel)
    requires i < |lines| && (lines[i].EndIf? || lines[i].EndSw?)
    ensures Simulates(m, lines, s, n', r, loops, i + 1, c, fuel)
  {
    n' := n;
    if r.Done? && r.out.Normal? {
      ZipStep(m, lines, i, loops, r.store);
      ReachesThen(m, lines, s, n, State(2 * i, loops, r.store), 1, State(2 * (i + 1), loops, r.store));
      n' := n + 1;
    }
  }

  /** A block in front of a block b that fits, and b itself. */
  lemma {:induction false} FitsHead<S(!new)>(m: Meaning<S>, lines: seq<Line>, loops: seq<Loop>, k: nat, k1: nat,
                                      b: Block, c: Ctx,
                          labels: bool)
    requires At(lines, k1, Lines(b)) && Legal(b, c.inLoop, c.inSwitch, labels) && k <= k1
    requires Fits(m, lines, loops, k, k1 + |Lines(b)|, c)
    ensures Fits(m, lines, loops, k, k1, c) && Fits(m, lines, loops, k1, k1 + |Lines(b)|, c)
  {
    if c.inLoop { LeadsThroughBlock(m, lines, ToBreak, k1, b, c.e, c.inLoop, c.inSwitch, labels); }
    if c.inSwitch { LeadsThroughBlock(m, lines, ToBrkSw, k1, b, c.w, c.inLoop, c.inSwitch, labels); }
    Narrow(m, lines, loops, k, k1 + |Lines(b)|, c, k, k1);
    Narrow(m, lines, loops, k, k1 + |Lines(b)|, c, k1, k1 + |Lines(b)|);
  }

  lemma {:induction false} SimBlock<S(!new)>(m: Meaning<S>, lines: seq<Line>, k: nat, b: Block, loops: seq<Loop>,
                                             st: S, fuel: nat, c: Ctx, labels: bool)
    returns (n: nat)
    requires At(lines, k, Lines(b)) && Legal(b, c.inLoop, c.inSwitch, labels)
    requires Fits(m, lines, loops, k, k + |Lines(b)|, c)
    ensures Simulates(m, lines, State(2 * k, loops, st), n, Mean(m, b, st, fuel), loops, k + |Lines(b)|, c, fuel)
    decreases fuel, Size(b), 0, 0
  {
    hide MeanStmt, LegalStmt, StmtLines, StmtSize, Fits, Reaches, Goes, At;
    if b.Nil? {
      NoStep(m, lines, State(2 * k, loops, st));
      return 0;
    }
    var k1, k2 := k + |StmtLines(b.head)|, k + |Lines(b)|;
    n := SimHead(m, lines, k, b, loops, st, fuel, c, labels);
    var r := MeanStmt(m, b.head, st, fuel);
    if r.Done? && r.out.Normal? {
      var n2 := SimBlock(m, lines, k1, b.tail, loops, r.store, fuel, c, labels);
      Later(m, lines, State(2 * k, loops, st), n, State(2 * k1, loops, r.store), n2,
            Mean(m, b.tail, r.store, fuel), loops, k2, c, fuel, fuel);
      n := n + n2;
    } else {
      Early(m, lines, State(2 * k, loops, st), n, r, loops, k1, k2, c, fuel);
    }
  }

  lemma {:induction false} SimHead<S(!new)>(m: Meaning<S>, lines: seq<Line>, k: nat, b: Block, loops: seq<Loop>,
                                            st: S, fuel: nat, c: Ctx, labels: bool)
    returns (n: nat)
    requires b.Cons? && At(lines, k, Lines(b)) && Legal(b, c.inLoop, c.inSwitch, labels)
    requires Fits(m, lines, loops, k, k + |Lines(b)|, c)
    ensures var k1 := k + |StmtLines(b.head)|;
            && At(lines, k1, Lines(b.tail)) && Fits(m, lines, loops, k1, k + |Lines(b)|, c)
            && Simulates(m, lines, State(2 * k, loops, st), n, MeanStmt(m, b.head, st, fuel), loops, k1, c, fuel)
    decreases fuel, StmtSize(b.head), 2, 0
  {
    hide Reaches, Goes, Mean, MeanStmt, Fits, StmtLines, LegalStmt;
    AtParts(lines, k, StmtLines(b.head), Lines(b.tail));
    FitsHead(m, lines, loops, k, k + |StmtLines(b.head)|, b.tail, c, labels);
    n := SimStmt(m, lines, k, b.head, loops, st, fuel, c, labels);
  }

  /** A block that ends early does so wherever its last line is. */
  lemma {:induction false} Early<S(!new)>(m: Meaning<S>, lines: seq<Line>, s: State<S>, n: nat, r: Eval<S>,
                       loops: seq<Loop>, k1: nat, k2: nat, c: Ctx, fuel: nat)
    requires Simulates(m, lines, s, n, r, loops, k1, c, fuel) && !(r.Done? && r.out.Normal?)
    ensures Simulates(m, lines, s, n, r, loops, k2, c, fuel)
  {
  }

  lemma {:induction false} SimStmt<S(!new)>(m: Meaning<S>, lines: seq<Line>, k: nat, s: Stmt, loops: seq<Loop>,
                                            st: S, fuel: nat, c: Ctx, labels: bool)
    returns (n: nat)
    requires At(lines, k, StmtLines(s)) && LegalStmt(s, c.inLoop, c.inSwitch, labels)
    requires Fits(m, lines, loops, k, k + |StmtLines(s)|, c)
    ensures Simulates(m, lines, State(2 * k, loops, st), n, MeanStmt(m, s, st, fuel), loops,
                      k + |StmtLines(s)|, c, fuel)
    decreases fuel, StmtSize(s), 1, 0
  {
    hide Reaches, Goes, Mean, MeanElse, Fits, Legal, Lines, ElseLines;
    match s
    case Do(cmd) =>
      AtOne(lines, k, Plain(cmd));
      SimPlain(m, lines, k, cmd, loops, st, fuel, c);
      n := 1;
    case DoIf(cond, cmd) =>
      AtOne(lines, k, IfSimple(cond, cmd));
      SimIfSimple(m, lines, k, cond, cmd, loops, st, fuel, c);
      n := 1;
    case IfElse(cond, thn, els) =>
      AtParts(lines, k, [IfThen(cond)], Lines(thn) + (ElseLines(els) + [EndIf]));
      n := SimIf(m, lines, k, State(2 * k, loops, st), cond, thn, els, fuel, c);
    case WhileDo(cond, body) =>
      n := SimWhile(m, lines, k, cond, body, loops, loops, st, fuel, c);
    case ForeachDo(id, body) =>
      n := SimForeachLine(m, lines, k, id, body, loops, st, fuel, c);
    case SwitchOn(w, body) =>
      n := SimSwitch(m, lines, k, w, body, loops, st, fuel, c);
    case CaseOf(p) =>
      AtOne(lines, k, Case(p));
      ZipStep(m, lines, k, loops, st);
      n := 1;
    case DefaultOf =>
      AtOne(lines, k, Default);
      ZipStep(m, lines, k, loops, st);
      n := 1;
  }

  /** An if whose condition is on line k, either as its first line or as the tail of an else line. */
  lemma {:induction false} SimIf<S(!new)>(m: Meaning<S>, lines: seq<Line>, k: nat, s: State<S>, cond: nat,
                                          thn: Block, els: ElsePart, fuel: nat, c: Ctx)
    returns (n: nat)
    requires AtIf(lines, k, cond, s) && At(lines, k + 1, Lines(thn) + (ElseLines(els) + [EndIf]))
    requires Legal(thn, c.inLoop, c.inSwitch, false) && LegalElse(els, c.inLoop, c.inSwitch)
    requires Fits(m, lines, s.loops, k, k + 1 + |Lines(thn)| + |ElseLines(els)| + 1, c)
    ensures var t := m.test(cond, s.store);
            var r := if t.0 then Mean(m, thn, t.1, fuel) else MeanElse(m, els, t.1, fuel);
            Simulates(m, lines, s, n, r, s.loops, k + 1 + |Lines(thn)| + |ElseLines(els)| + 1, c, fuel)
    decreases fuel, 1 + Size(thn) + ElseSize(els), 0, 0
  {
    hide Reaches, Goes, Mean, MeanElse, At, Lines, Legal, LegalElse;
    var t := m.test(cond, s.store);
    if t.0 {
      IfTrue(m, lines, k, cond, s);
      n := SimThen(m, lines, k + 1, thn, els, s.loops, t.1, fuel, c);
      Later(m, lines, s, 1, State(2 * (k + 1), s.loops, t.1), n, Mean(m, thn, t.1, fuel), s.loops,
            k + 1 + |Lines(thn)| + |ElseLines(els)| + 1, c, fuel, fuel);
      n := 1 + n;
    } else {
      n := SimIfFalse(m, lines, k, s, cond, thn, els, fuel, c);
    }
  }

  lemma {:induction false} SimIfFalse<S(!new)>(m: Meaning<S>, lines: seq<Line>, k: nat, s: State<S>, cond: nat,
                                               thn: Block, els: ElsePart, fuel: nat, c: Ctx)
    returns (n: nat)
    requires AtIf(lines, k, cond, s) && At(lines, k + 1, Lines(thn) + (ElseLines(els) + [EndIf]))
    requires Legal(thn, c.inLoop, c.inSwitch, false) && LegalElse(els, c.inLoop, c.inSwitch)
    requires Fits(m, lines, s.loops, k, k + 1 + |Lines(thn)| + |ElseLines(els)| + 1, c)
    requires !m.test(cond, s.store).0
    ensures Simulates(m, lines, s, n, MeanElse(m, els, m.test(cond, s.store).1, fuel), s.loops,
                      k + 1 + |Lines(thn)| + |ElseLines(els)| + 1, c, fuel)
    decreases fuel, ElseSize(els), 2, 0
  {
    hide Reaches, Goes, MeanStmt, Mean, Lines, Legal;
    var st := m.test(cond, s.store).1;
    var k1 := k + 1 + |Lines(thn)|;
    var k2 := k1 + |ElseLines(els)| + 1;
    IfFalse(m, lines, k, cond, thn, els, s, c.inLoop, c.inSwitch);
    n := 1;
    if !els.NoElse? {
      AtParts(lines, k + 1, Lines(thn), ElseLines(els) + [EndIf]);
      Narrow(m, lines, s.loops, k, k2, c, k1, k2);
      n := SimElse(m, lines, k1, els, s.loops, st, fuel, c);
      Later(m, lines, s, 1, State(2 * k1 + 1, s.loops, st), n, MeanElse(m, els, st, fuel), s.loops, k2, c, fuel, fuel);
      n := 1 + n;
    }
  }

  /** Scans from the end of a then-branch or of an else line reach the exits beyond the endif. */
  lemma {:induction false} FitsBranch<S(!new)>(m: Meaning<S>, lines: seq<Line>, loops: seq<Loop>, k: nat, k1: nat,
                                        els: ElsePart,
                            c: Ctx)
    requires At(lines, k1, ElseLines(els) + [EndIf]) && LegalElse(els, c.inLoop, c.inSwitch) && k <= k1
    requires Fits(m, lines, loops, k, k1 + |ElseLines(els)| + 1, c)
    ensures Fits(m, lines, loops, k, k1, c)
  {
    var last := k1 + |ElseLines(els)|;
    AtParts(lines, k1, ElseLines(els), [EndIf]);
    AtOne(lines, last, EndIf);
    if c.inLoop {
      LeadsThroughLine(m, lines, ToBreak, last, c.e);
      LeadsThroughElse(m, lines, ToBreak, k1, els, c.e, c.inLoop, c.inSwitch);
    }
    if c.inSwitch {
      LeadsThroughLine(m, lines, ToBrkSw, last, c.w);
      LeadsThroughElse(m, lines, ToBrkSw, k1, els, c.w, c.inLoop, c.inSwitch);
    }
    Narrow(m, lines, loops, k, last + 1, c, k, k1);
  }

  lemma {:induction false} SimThen<S(!new)>(m: Meaning<S>, lines: seq<Line>, k: nat, thn: Block, els: ElsePart,
                                            loops: seq<Loop>, st: S, fuel: nat, c: Ctx)
    returns (n: nat)
    requires At(lines, k, Lines(thn) + (ElseLines(els) + [EndIf])) && k > 0
    requires Legal(thn, c.inLoop, c.inSwitch, false) && LegalElse(els, c.inLoop, c.inSwitch)
    requires Fits(m, lines, loops, k - 1, k + |Lines(thn)| + |ElseLines(els)| + 1, c)
    ensures Simulates(m, lines, State(2 * k, loops, st), n, Mean(m, thn, st, fuel), loops,
                      k + |Lines(thn)| + |ElseLines(els)| + 1, c, fuel)
    decreases fuel, Size(thn), 1, 0
  {
    hide At, Simulates, Fits, Mean, Legal, LegalElse, Lines, ElseLines;
    var k1 := k + |Lines(thn)|;
    AtParts(lines, k, Lines(thn), ElseLines(els) + [EndIf]);
    FitsBranch(m, lines, loops, k - 1, k1, els, c);
    Narrow(m, lines, loops, k - 1, k1, c, k, k1);
    n := SimBlock(m, lines, k, thn, loops, st, fuel, c, false);
    n := ThenOut(m, lines, State(2 * k, loops, st), n, Mean(m, thn, st, fuel), loops, k1, els, c, fuel);
  }

  /** A simulated then-branch followed by the endif or by the jump over the else branches. */
  lemma {:induction false} ThenOut<S(!new)>(m: Meaning<S>, lines: seq<Line>, s: State<S>, n: nat, r: Eval<S>,
                                     loops: seq<Loop>,
                         k1: nat, els: ElsePart, c: Ctx, fuel: nat)
    returns (n': nat)
    requires Simulates(m, lines, s, n, r, loops, k1, c, fuel)
    requires At(lines, k1, ElseLines(els) + [EndIf]) && LegalElse(els, c.inLoop, c.inSwitch)
    ensures Simulates(m, lines, s, n', r, loops, k1 + |ElseLines(els)| + 1, c, fuel)
  {
    n' := n;
    if r.Done? && r.out.Normal? {
      if els.NoElse? {
        assert lines[k1] == (ElseLines(els) + [EndIf])[0];
        n' := ThenZip(m, lines, s, n, r, loops, k1, c, fuel);
      } else {
        ElseJumps(m, lines, k1, els, loops, r.store, c.inLoop, c.inSwitch);
        ReachesThen(m, lines, s, n, State(2 * k1, loops, r.store), 1,
                    State(2 * (k1 + |ElseLines(els)| + 1), loops, r.store));
        n' := n + 1;
      }
    }
  }

  lemma {:induction false} AtElse(lines: seq<Line>, k: nat, els: ElsePart)
    requires At(lines, k, ElseLines(els) + [EndIf]) && !els.NoElse?
    ensures k < |lines|
    ensures els.ElseDo? ==>
              lines[k] == Else && At(lines, k + 1, Lines(els.body) + (ElseLines(NoElse) + [EndIf]))
    ensures els.ElseIfDo? ==>
              lines[k] == ElseIf(els.cond) && At(lines, k + 1, Lines(els.thn) + (ElseLines(els.els) + [EndIf]))
  {
    match els
    case ElseDo(body) =>
      assert ElseLines(els) + [EndIf] == [Else] + (Lines(body) + (ElseLines(NoElse) + [EndIf]));
      AtParts(lines, k, [Else], Lines(body) + (ElseLines(NoElse) + [EndIf]));
    case ElseIfDo(cond, thn, els') =>
      assert ElseLines(els) + [EndIf] == [ElseIf(cond)] + (Lines(thn) + (ElseLines(els') + [EndIf]));
      AtParts(lines, k, [ElseIf(cond)], Lines(thn) + (ElseLines(els') + [EndIf]));
  }

  lemma {:induction false} SimElseDo<S(!new)>(m: Meaning<S>, lines: seq<Line>, k: nat, body: Block,
                                              loops: seq<Loop>, st: S, fuel: nat, c: Ctx)
    returns (n: nat)
    requires At(lines, k, ElseLines(ElseDo(body)) + [EndIf]) && Legal(body, c.inLoop, c.inSwitch, false)
    requires Fits(m, lines, loops, k, k + 1 + |Lines(body)| + 1, c)
    ensures Simulates(m, lines, State(2 * k + 1, loops, st), n, Mean(m, body, st, fuel), loops,
                      k + 1 + |Lines(body)| + 1, c, fuel)
    decreases fuel, Size(body), 2, 0
  {
    AtElse(lines, k, ElseDo(body));
    ElseTailStep(m, lines, k, loops, st);
    n := SimThen(m, lines, k + 1, body, NoElse, loops, st, fuel, c);
    Later(m, lines, State(2 * k + 1, loops, st), 1, State(2 * (k + 1), loops, st), n, Mean(m, body, st, fuel), loops,
          k + 1 + |Lines(body)| + 1, c, fuel, fuel);
    n := 1 + n;
  }

  /** The machine has just been sent to the text after the else of line k. */
  lemma {:induction false} SimElse<S(!new)>(m: Meaning<S>, lines: seq<Line>, k: nat, els: ElsePart,
                                            loops: seq<Loop>, st: S, fuel: nat, c: Ctx)
    returns (n: nat)
    requires !els.NoElse? && At(lines, k, ElseLines(els) + [EndIf]) && LegalElse(els, c.inLoop, c.inSwitch)
    requires Fits(m, lines, loops, k, k + |ElseLines(els)| + 1, c)
    ensures Simulates(m, lines, State(2 * k + 1, loops, st), n, MeanElse(m, els, st, fuel), loops,
                      k + |ElseLines(els)| + 1, c, fuel)
    decreases fuel, ElseSize(els), 1, 0
  {
    var s := State(2 * k + 1, loops, st);
    match els
    case ElseDo(body) =>
      n := SimElseDo(m, lines, k, body, loops, st, fuel, c);
    case ElseIfDo(cond, thn, els') =>
      AtElse(lines, k, els);
      n := SimIf(m, lines, k, s, cond, thn, els', fuel, c);
      assert MeanElse(m, els, st, fuel) ==
             var t := m.test(cond, st); if t.0 then Mean(m, thn, t.1, fuel) else MeanElse(m, els', t.1, fuel);
  }

  // ---------- loops ----------

  /** The body of the loop on line k: its lines, and where scans for its end arrive. */
  lemma {:induction false} LoopBody<S(!new)>(m: Meaning<S>, lines: seq<Line>, k: nat, first: Line, body: Block)
    requires At(lines, k, [first] + (Lines(body) + [End])) && Legal(body, true, false, false)
    ensures var last := k + 1 + |Lines(body)|;
            && last < |lines| && lines[k] == first && lines[last] == End && At(lines, k + 1, Lines(body))
            && LeadsTo(m, lines, ToBreak, last, 2 * (last + 1)) && LeadsTo(m, lines, ToBreak, k + 1, 2 * (last + 1))
  {
    var last := k + 1 + |Lines(body)|;
    AtParts(lines, k, [first], Lines(body) + [End]);
    AtParts(lines, k + 1, Lines(body), [End]);
    AtOne(lines, last, End);
    LeadsThroughBlock(m, lines, ToBreak, k + 1, body, 2 * (last + 1), true, false, false);
  }

  /** A loop just entered at line k on top of loops that surround it, with its end line e. */
  ghost predicate Entered(loops: seq<Loop>, stack: seq<Loop>, e: nat)
  {
    && stack != [] && stack[1..] == loops
    && (stack[0].end == 0 || stack[0].end == 2 * (e + 1))
  }

  lemma {:induction false} FitsBody<S(!new)>(m: Meaning<S>, lines: seq<Line>, loops: seq<Loop>, stack: seq<Loop>,
                                      k: nat, e: nat, c: Ctx)
    requires Fits(m, lines, loops, k, e + 1, c) && Entered(loops, stack, e) && k < e
    requires stack[0].start <= 2 * (k + 1) && (stack[0].fe.None? ==> stack[0].start <= 2 * k)
    requires LeadsTo(m, lines, ToBreak, e, 2 * (e + 1))
    ensures Fits(m, lines, stack, k + 1, e, Ctx(true, false, 2 * (e + 1), 0))
    ensures forall x | 1 <= x < |stack| :: Inside(stack[x], 2 * (e + 1))
  {
    assert forall x | 1 <= x < |stack| :: stack[x] == loops[x - 1];
  }

  /** One turn of a loop body from line k+1 to its end line e: the machine is back at doagain, or out. */
  lemma {:induction false} SimTurn<S(!new)>(m: Meaning<S>, lines: seq<Line>, k: nat, first: Line, body: Block,
                                            loops: seq<Loop>, stack: seq<Loop>, st: S, fuel: nat, c: Ctx)
    returns (n: nat, stack': seq<Loop>)
    requires At(lines, k, [first] + (Lines(body) + [End])) && Legal(body, true, false, false)
    requires Fits(m, lines, loops, k, k + 1 + |Lines(body)| + 1, c)
    requires Entered(loops, stack, k + 1 + |Lines(body)|)
    requires stack[0].start <= 2 * (k + 1) && (stack[0].fe.None? ==> stack[0].start <= 2 * k)
    ensures var e := k + 1 + |Lines(body)|;
            var s, r := State(2 * (k + 1), stack, st), Mean(m, body, st, fuel);
            && Entered(loops, stack', e) && stack'[0].start == stack[0].start && stack'[0].fe == stack[0].fe
            && (r.OutOfFuel? ==> n >= fuel && Goes(m, lines, s, n))
            && (r.Done? ==> !r.out.BrokeSw?)
            && (r.Done? && r.out.Broke? ==> Reaches(m, lines, s, n, State(2 * (e + 1), loops, r.store)))
            && (r.Done? && !r.out.Broke? ==> Reaches(m, lines, s, n, NextTurn(m, stack', 2 * (e + 1), r.store)))
    decreases fuel, Size(body), 1, 0
  {
    hide Reaches, Goes, Mean, MeanStmt, Lines, At;
    var e := k + 1 + |Lines(body)|;
    var s := State(2 * (k + 1), stack, st);
    LoopBody(m, lines, k, first, body);
    FitsBody(m, lines, loops, stack, k, e, c);
    n := SimBlock(m, lines, k + 1, body, stack, st, fuel, Ctx(true, false, 2 * (e + 1), 0), false);
    stack' := stack;
    var r := Mean(m, body, st, fuel);
    if r.Done? && r.out.Normal? {
      stack' := stack[0 := stack[0].(end := 2 * (e + 1))];
      EndTurns(m, lines, e, stack, r.store);
      ReachesThen(m, lines, s, n, State(2 * e, stack, r.store), 1, NextTurn(m, stack', 2 * (e + 1), r.store));
      n := n + 1;
    }
  }

  /** dowhile at line k, reached for the first time (cur == loops) or again. */
  lemma {:induction false} EnterWhile<S(!new)>(m: Meaning<S>, lines: seq<Line>, k: nat, cond: nat, body: Block,
                            cur: seq<Loop>, loops: seq<Loop>, st: S, c: Ctx)
    returns (stack: seq<Loop>)
    requires At(lines, k, [While(cond)] + (Lines(body) + [End])) && Legal(body, true, false, false)
    requires Fits(m, lines, loops, k, k + 1 + |Lines(body)| + 1, c)
    requires cur == loops ||
             (Entered(loops, cur, k + 1 + |Lines(body)|) && cur[0].start == 2 * k && cur[0].fe.None?)
    ensures var e := k + 1 + |Lines(body)|;
            var t := m.test(cond, st);
            && Entered(loops, stack, e) && stack[0].start == 2 * k && stack[0].fe.None?
            && Reaches(m, lines, State(2 * k, cur, st), 1,
                       if t.0 then State(2 * (k + 1), stack, t.1) else State(2 * (e + 1), loops, t.1))
  {
    var e := k + 1 + |Lines(body)|;
    LoopBody(m, lines, k, While(cond), body);
    stack := if cur == loops then [Loop(2 * k, 0, None)] + loops else cur;
    FitsBody(m, lines, loops, stack, k, e, c);
    WhileStep(m, lines, k, cond, cur, stack, st, 2 * (e + 1));
  }

  /** The machine stands at the while line k, for the first time (cur == loops) or again. */
  lemma {:induction false} SimWhile<S(!new)>(m: Meaning<S>, lines: seq<Line>, k: nat, cond: nat, body: Block,
                                             cur: seq<Loop>, loops: seq<Loop>, st: S, fuel: nat, c: Ctx)
    returns (n: nat)
    requires At(lines, k, [While(cond)] + (Lines(body) + [End])) && Legal(body, true, false, false)
    requires Fits(m, lines, loops, k, k + 1 + |Lines(body)| + 1, c)
    requires cur == loops ||
             (Entered(loops, cur, k + 1 + |Lines(body)|) && cur[0].start == 2 * k && cur[0].fe.None?)
    ensures Simulates(m, lines, State(2 * k, cur, st), n, MeanWhile(m, cond, body, st, fuel), loops,
                      k + 1 + |Lines(body)| + 1, c, fuel)
    decreases fuel, Size(body), 2, 0
  {
    hide Reaches, Goes, Mean, Fits, At, Lines, Legal, Size;
    var s := State(2 * k, cur, st);
    if fuel == 0 {
      NoStep(m, lines, s);
      return 0;
    }
    var e := k + 1 + |Lines(body)|;
    var t := m.test(cond, st);
    var stack := EnterWhile(m, lines, k, cond, body, cur, loops, st, c);
    if !t.0 { return 1; }
    var n1 := SimWhileTurn(m, lines, k, cond, body, stack, loops, t.1, fuel - 1, c);
    Later(m, lines, s, 1, State(2 * (k + 1), stack, t.1), n1,
          Rest(m, cond, body, Mean(m, body, t.1, fuel - 1), fuel - 1), loops, e + 1, c, fuel - 1, fuel);
    n := 1 + n1;
    assert MeanWhile(m, cond, body, st, fuel) == Rest(m, cond, body, Mean(m, body, t.1, fuel - 1), fuel - 1);
  }

  /** What is left of a while once a turn of its body ended with r. */
  ghost function Rest<S>(m: Meaning<S>, cond: nat, body: Block, r: Eval<S>, fuel: nat): Eval<S>
  {
    match r
    case OutOfFuel => OutOfFuel
    case Done(Broke, st) => Done(Normal, st)
    case Done(BrokeSw, st) => r
    case Done(_, st) => MeanWhile(m, cond, body, st, fuel)
  }

  lemma {:induction false} SimWhileTurn<S(!new)>(m: Meaning<S>, lines: seq<Line>, k: nat, cond: nat, body: Block,
                                                 stack: seq<Loop>, loops: seq<Loop>, st: S, fuel: nat, c: Ctx)
    returns (n: nat)
    requires At(lines, k, [While(cond)] + (Lines(body) + [End])) && Legal(body, true, false, false)
    requires Fits(m, lines, loops, k, k + 1 + |Lines(body)| + 1, c)
    requires Entered(loops, stack, k + 1 + |Lines(body)|) && stack[0].start == 2 * k && stack[0].fe.None?
    ensures Simulates(m, lines, State(2 * (k + 1), stack, st), n, Rest(m, cond, body, Mean(m, body, st, fuel), fuel),
                      loops, k + 1 + |Lines(body)| + 1, c, fuel)
    decreases fuel, Size(body), 3, 0
  {
    hide Reaches, Goes, Mean, MeanWhile, Fits, At, Lines, Legal, Size;
    var stack' := stack;
    n, stack' := SimTurn(m, lines, k, While(cond), body, loops, stack, st, fuel, c);
    var r := Mean(m, body, st, fuel);
    if r.Done? && !r.out.Broke? {
      var n2 := SimWhile(m, lines, k, cond, body, stack', loops, r.store, fuel, c);
      Later(m, lines, State(2 * (k + 1), stack, st), n, State(2 * k, stack', r.store), n2,
            MeanWhile(m, cond, body, r.store, fuel), loops, k + 1 + |Lines(body)| + 1, c, fuel, fuel);
      n := n + n2;
    }
  }

  lemma {:induction false} SimForeachLine<S(!new)>(m: Meaning<S>, lines: seq<Line>, k: nat, id: nat, body: Block,
                                loops: seq<Loop>, st: S, fuel: nat, c: Ctx)
    returns (n: nat)
    requires At(lines, k, [Foreach(id)] + (Lines(body) + [End])) && Legal(body, true, false, false)
    requires Fits(m, lines, loops, k, k + 1 + |Lines(body)| + 1, c)
    ensures Simulates(m, lines, State(2 * k, loops, st), n, MeanForeach(m, id, m.words(id, st), body, st, fuel),
                      loops, k + 1 + |Lines(body)| + 1, c, fuel)
    decreases fuel, 1 + Size(body), 1, 0
  {
    hide Reaches, Goes, MeanForeach, At, Lines, Legal, Size;
    var e := k + 1 + |Lines(body)|;
    LoopBody(m, lines, k, Foreach(id), body);
    var words := m.words(id, st);
    var stack := [Loop(2 * (k + 1), 0, Some(Words(id, words + [")"])))] + loops;
    var s, t := State(2 * k, loops, st), NextTurn(m, stack, 2 * (e + 1), st);
    ForeachStep(m, lines, k, id, loops, st, 2 * (e + 1));
    var n1 := SimForeach(m, lines, k, id, words, body, stack, loops, st, fuel, c);
    Later(m, lines, s, 1, t, n1, MeanForeach(m, id, words, body, st, fuel), loops, e + 1, c, fuel, fuel);
    n := 1 + n1;
  }

  lemma {:induction false} NextWord<S>(m: Meaning<S>, cur: seq<Loop>, loops: seq<Loop>, e: nat, id: nat,
                                       words: seq<string>, st: S)
    requires Entered(loops, cur, e) && words != [] && cur[0].fe == Some(Words(id, words + [")"]))
    ensures var s := NextTurn(m, cur, 2 * (e + 1), st);
            && s.pos == cur[0].start && s.store == m.bind(id, words[0], st)
            && Entered(loops, s.loops, e) && s.loops[0].start == cur[0].start
            && s.loops[0].fe == Some(Words(id, words[1..] + [")"]))
  {
    assert (words + [")"])[0] == words[0] && (words + [")"])[1..] == words[1..] + [")"];
  }

  /** The machine is about to take the next turn of a foreach whose remaining words are given. */
  lemma {:induction false} SimForeach<S(!new)>(m: Meaning<S>, lines: seq<Line>, k: nat, id: nat, words: seq<string>,
                                               body: Block, cur: seq<Loop>, loops: seq<Loop>, st: S, fuel: nat, c: Ctx)
    returns (n: nat)
    requires At(lines, k, [Foreach(id)] + (Lines(body) + [End])) && Legal(body, true, false, false)
    requires Fits(m, lines, loops, k, k + 1 + |Lines(body)| + 1, c)
    requires Entered(loops, cur, k + 1 + |Lines(body)|) && cur[0].start == 2 * (k + 1)
    requires cur[0].fe == Some(Words(id, words + [")"]))
    ensures Simulates(m, lines, NextTurn(m, cur, 2 * (k + 1 + |Lines(body)| + 1), st), n,
                      MeanForeach(m, id, words, body, st, fuel), loops, k + 1 + |Lines(body)| + 1, c, fuel)
    decreases fuel, Size(body), 2, |words|
  {
    hide Reaches, Goes, Fits, LegalStmt, MeanStmt, At;
    var e := k + 1 + |Lines(body)|;
    var s := NextTurn(m, cur, 2 * (e + 1), st);
    if words == [] {
      NoStep(m, lines, s);
      return 0;
    }
    NextWord(m, cur, loops, e, id, words, st);
    var stack' := s.loops;
    n, stack' := SimTurn(m, lines, k, Foreach(id), body, loops, s.loops, s.store, fuel, c);
    var r := Mean(m, body, s.store, fuel);
    if r.Done? && !r.out.Broke? {
      var n2 := SimForeach(m, lines, k, id, words[1..], body, stack', loops, r.store, fuel, c);
      Later(m, lines, s, n, NextTurn(m, stack', 2 * (e + 1), r.store), n2,
            MeanForeach(m, id, words[1..], body, r.store, fuel), loops, e + 1, c, fuel, fuel);
      n := n + n2;
    }
  }

  // ---------- switch ----------

  /** doswitch: the scan arrives at the block that Dispatch selects, or past the endsw. */
  lemma {:induction false} SwitchJumps<S>(m: Meaning<S>, lines: seq<Line>, k: nat, w: nat, body: Block,
                                          loops: seq<Loop>, st: S, inLoop: bool)
    requires At(lines, k, Lines(body) + [EndSw]) && Legal(body, inLoop, true, true)
    ensures var d := Dispatch(m, w, body, st);
            var last := k + |Lines(body)|;
            var r := Search(m, st, lines, ToSwitch(w), k, Scan(0, 0, loops));
            if d.None? then r == Some(Found(2 * (last + 1), loops))
            else && |Lines(d.value)| < |Lines(body)| && Size(d.value) < Size(body)
                 && Legal(d.value, inLoop, true, true)
                 && At(lines, last - |Lines(d.value)|, Lines(d.value))
                 && r == Some(Found(2 * (last - |Lines(d.value)|), loops))
    decreases body
  {
    hide At, StmtSize, Search, ScanLine, StmtLines, LegalStmt;
    AtSwitchBody(lines, k, body);
    if body.Nil? {
      NoCaseHit(m, lines, k, w, loops, st);
    } else {
      var h := body.head;
      LabelLines(h, inLoop);
      if h.DefaultOf? || (h.CaseOf? && m.matches(w, h.pattern, st)) {
        CaseHit(m, lines, k, w, loops, st);
      } else {
        if h.CaseOf? {
          CaseMissed(m, lines, k, w, loops, st);
        } else {
          SkipStmt(m, st, lines, ToSwitch(w), k, h, Scan(0, 0, loops), inLoop, true, false);
        }
        SwitchJumps(m, lines, k + |StmtLines(h)|, w, body.tail, loops, st, inLoop);
      }
    }
  }

  lemma {:induction false} AtSwitchBody(lines: seq<Line>, k: nat, body: Block)
    requires At(lines, k, Lines(body) + [EndSw])
    ensures k + |Lines(body)| < |lines| && lines[k + |Lines(body)|] == EndSw
    ensures body.Cons? ==>
              && At(lines, k, StmtLines(body.head)) && lines[k] == StmtLines(body.head)[0]
              && At(lines, k + |StmtLines(body.head)|, Lines(body.tail) + [EndSw])
              && At(lines, k + |StmtLines(body.head)|, Lines(body.tail))
  {
    AtParts(lines, k, Lines(body), [EndSw]);
    AtOne(lines, k + |Lines(body)|, EndSw);
    if body.Cons? {
      assert Lines(body) + [EndSw] == StmtLines(body.head) + (Lines(body.tail) + [EndSw]);
      AtParts(lines, k, StmtLines(body.head), Lines(body.tail) + [EndSw]);
      AtParts(lines, k + |StmtLines(body.head)|, Lines(body.tail), [EndSw]);
    }
  }

  lemma {:induction false} CaseHit<S>(m: Meaning<S>, lines: seq<Line>, k: nat, w: nat, loops: seq<Loop>, st: S)
    requires k < |lines| && (lines[k].Default? || (lines[k].Case? && m.matches(w, lines[k].pattern, st)))
    ensures Search(m, st, lines, ToSwitch(w), k, Scan(0, 0, loops)) == Some(Found(2 * (k + 1), loops))
  {
  }

  lemma {:induction false} CaseMissed<S>(m: Meaning<S>, lines: seq<Line>, k: nat, w: nat, loops: seq<Loop>, st: S)
    requires k < |lines| && lines[k].Case? && !m.matches(w, lines[k].pattern, st)
    ensures Search(m, st, lines, ToSwitch(w), k, Scan(0, 0, loops)) ==
            Search(m, st, lines, ToSwitch(w), k + 1, Scan(0, 0, loops))
  {
  }

  lemma {:induction false} NoCaseHit<S>(m: Meaning<S>, lines: seq<Line>, k: nat, w: nat, loops: seq<Loop>, st: S)
    requires k < |lines| && lines[k].EndSw?
    ensures Search(m, st, lines, ToSwitch(w), k, Scan(0, 0, loops)) == Some(Found(2 * (k + 1), loops))
  {
  }

  lemma {:induction false} LabelLines(h: Stmt, inLoop: bool)
    requires LegalStmt(h, inLoop, true, true)
    ensures h.CaseOf? ==> StmtLines(h) == [Case(h.pattern)]
    ensures h.DefaultOf? ==> StmtLines(h) == [Default]
    ensures !h.CaseOf? && !h.DefaultOf? ==> LegalStmt(h, inLoop, true, false)
  {
  }

  lemma {:induction false} SwitchStep<S(!new)>(m: Meaning<S>, lines: seq<Line>, k: nat, w: nat, loops: seq<Loop>,
                                        st: S, pos: nat)
    requires k < |lines| && lines[k] == Switch(w)
    requires Search(m, st, lines, ToSwitch(w), k + 1, Scan(0, 0, loops)) == Some(Found(pos, loops))
    ensures Reaches(m, lines, State(2 * k, loops, st), 1, State(pos, loops, st))
  {
    OneStep(m, lines, State(2 * k, loops, st), State(pos, loops, st));
  }

  lemma {:induction false} BreakswLeads<S(!new)>(m: Meaning<S>, lines: seq<Line>, i: nat)
    requires i < |lines| && lines[i] == EndSw
    ensures LeadsTo(m, lines, ToBrkSw, i, 2 * (i + 1))
  {
  }

  /** doswitch at line k: the machine stands at line i, the start of the selected part d. */
  lemma {:induction false} EnterSwitch<S(!new)>(m: Meaning<S>, lines: seq<Line>, k: nat, w: nat, body: Block,
                                                d: Block, loops: seq<Loop>, st: S, c: Ctx)
    returns (i: nat)
    requires At(lines, k, [Switch(w)] + (Lines(body) + [EndSw])) && Legal(body, c.inLoop, true, true)
    requires Fits(m, lines, loops, k, k + 1 + |Lines(body)| + 1, c) && Dispatch(m, w, body, st) == Some(d)
    ensures var last := k + 1 + |Lines(body)|;
            && i + |Lines(d)| == last && last < |lines| && lines[last] == EndSw && Size(d) < Size(body)
            && At(lines, i, Lines(d)) && Legal(d, c.inLoop, true, true)
            && Fits(m, lines, loops, i, last, Ctx(c.inLoop, true, c.e, 2 * (last + 1)))
            && Reaches(m, lines, State(2 * k, loops, st), 1, State(2 * i, loops, st))
  {
    hide Reaches, Size, LegalStmt, Lines, Legal, Search, Dispatch, At;
    var last := k + 1 + |Lines(body)|;
    AtParts(lines, k, [Switch(w)], Lines(body) + [EndSw]);
    AtSwitchBody(lines, k + 1, body);
    SwitchJumps(m, lines, k + 1, w, body, loops, st, c.inLoop);
    i := last - |Lines(d)|;
    SwitchStep(m, lines, k, w, loops, st, 2 * i);
    if c.inLoop { LeadsThroughLine(m, lines, ToBreak, last, c.e); }
    BreakswLeads(m, lines, last);
  }

  lemma {:induction false} SkipSwitch<S(!new)>(m: Meaning<S>, lines: seq<Line>, k: nat, w: nat, body: Block,
                            loops: seq<Loop>, st: S, inLoop: bool)
    requires At(lines, k, [Switch(w)] + (Lines(body) + [EndSw])) && Legal(body, inLoop, true, true)
    requires Dispatch(m, w, body, st).None?
    ensures Reaches(m, lines, State(2 * k, loops, st), 1, State(2 * (k + 1 + |Lines(body)| + 1), loops, st))
  {
    AtParts(lines, k, [Switch(w)], Lines(body) + [EndSw]);
    SwitchJumps(m, lines, k + 1, w, body, loops, st, inLoop);
    SwitchStep(m, lines, k, w, loops, st, 2 * (k + 1 + |Lines(body)| + 1));
  }

  lemma {:induction false} SimSwitch<S(!new)>(m: Meaning<S>, lines: seq<Line>, k: nat, w: nat, body: Block,
                                              loops: seq<Loop>, st: S, fuel: nat, c: Ctx)
    returns (n: nat)
    requires At(lines, k, [Switch(w)] + (Lines(body) + [EndSw])) && Legal(body, c.inLoop, true, true)
    requires Fits(m, lines, loops, k, k + 1 + |Lines(body)| + 1, c)
    ensures Simulates(m, lines, State(2 * k, loops, st), n, MeanStmt(m, SwitchOn(w, body), st, fuel), loops,
                      k + 1 + |Lines(body)| + 1, c, fuel)
    decreases fuel, 1 + Size(body), 1, 0
  {
    hide Reaches, Goes, Mean, Fits, At, Lines, Legal, Size, Dispatch;
    var d := Dispatch(m, w, body, st);
    if d.None? {
      SkipSwitch(m, lines, k, w, body, loops, st, c.inLoop);
      return 1;
    }
    var i := EnterSwitch(m, lines, k, w, body, d.value, loops, st, c);
    n := SimCases(m, lines, k, i, d.value, loops, st, fuel, c);
    assert MeanStmt(m, SwitchOn(w, body), st, fuel) == Unswitch(Mean(m, d.value, st, fuel));
  }

  /** The selected part d of a switch body, on lines up to the endsw. */
  lemma {:induction false} SimCases<S(!new)>(m: Meaning<S>, lines: seq<Line>, k: nat, i: nat, d: Block,
                                             loops: seq<Loop>, st: S, fuel: nat, c: Ctx)
    returns (n: nat)
    requires At(lines, i, Lines(d)) && Legal(d, c.inLoop, true, true)
    requires i + |Lines(d)| < |lines| && lines[i + |Lines(d)|] == EndSw
    requires Fits(m, lines, loops, i, i + |Lines(d)|, Ctx(c.inLoop, true, c.e, 2 * (i + |Lines(d)| + 1)))
    requires Reaches(m, lines, State(2 * k, loops, st), 1, State(2 * i, loops, st))
    ensures Simulates(m, lines, State(2 * k, loops, st), n, Unswitch(Mean(m, d, st, fuel)), loops,
                      i + |Lines(d)| + 1, c, fuel)
    decreases fuel, Size(d), 1, 0
  {
    hide Reaches, Goes, Mean, Fits, Lines, Legal;
    var last := i + |Lines(d)|;
    var c' := Ctx(c.inLoop, true, c.e, 2 * (last + 1));
    var r := Mean(m, d, st, fuel);
    n := SimBlock(m, lines, i, d, loops, st, fuel, c', true);
    n := ThenZip(m, lines, State(2 * i, loops, st), n, r, loops, last, c', fuel);
    SwitchOut(m, lines, State(2 * i, loops, st), n, r, loops, last + 1, c, fuel);
    Later(m, lines, State(2 * k, loops, st), 1, State(2 * i, loops, st), n, Unswitch(r), loops, last + 1, c, fuel, fuel);
    n := 1 + n;
  }

  ghost function Unswitch<S>(r: Eval<S>): Eval<S>
  {
    if r.Done? && r.out.BrokeSw? then Done(Normal, r.store) else r
  }

  /** Past the endsw a breaksw has become a normal end. */
  lemma {:induction false} SwitchOut<S(!new)>(m: Meaning<S>, lines: seq<Line>, s: State<S>, n: nat, r: Eval<S>,
                                       loops: seq<Loop>,
                           k2: nat, c: Ctx, fuel: nat)
    requires Simulates(m, lines, s, n, r, loops, k2, Ctx(c.inLoop, true, c.e, 2 * k2), fuel)
    ensures Simulates(m, lines, s, n, Unswitch(r), loops, k2, c, fuel)
  {
  }

  // ---------- whole scripts ----------

  lemma {:induction false} SimulatesRuns<S(!new)>(m: Meaning<S>, lines: seq<Line>, s: State<S>, n: nat, r: Eval<S>,
                                           k2: nat, fuel: nat)
    requires Simulates(m, lines, s, n, r, [], k2, Ctx(false, false, 0, 0), fuel)
    ensures r.Done? ==> r.out.Normal? && Run(m, lines, s, n) == Some(State(2 * k2, [], r.store))
    ensures r.OutOfFuel? ==> n >= fuel && Run(m, lines, s, n).Some?
  {
    if r.Done? {
      var t := Target(m, r.out, r.store, [], k2, Ctx(false, false, 0, 0));
      var tr: seq<State<S>> :| Trace(m, lines, tr) && |tr| == n + 1 && tr[0] == s && tr[n] == t;
      TraceRuns(m, lines, tr);
    } else {
      var tr: seq<State<S>> :| Trace(m, lines, tr) && |tr| == n + 1 && tr[0] == s;
      TraceRuns(m, lines, tr);
    }
  }

  /**
   * For every legal structured script: when its meaning terminates within some fuel, the machine
   * halts just past the last line with that store and an empty loop stack; when the fuel runs out,
   * the machine takes at least that many steps without halting or failing.
   */
  lemma {:induction false} ScriptRuns<S(!new)>(m: Meaning<S>, b: Block, st: S, fuel: nat) returns (n: nat)
    requires Legal(b, false, false, false)
    ensures var r := Mean(m, b, st, fuel);
            var run := Run(m, Lines(b), State(0, [], st), n);
            && (r.Done? ==> r.out.Normal? && run == Some(State(2 * |Lines(b)|, [], r.store)))
            && (r.OutOfFuel? ==> n >= fuel && run.Some?)
  {
    var lines := Lines(b);
    AtWhole(lines, 0);
    assert lines[0..] == lines;
    n := SimBlock(m, lines, 0, b, [], st, fuel, Ctx(false, false, 0, 0), false);
    SimulatesRuns(m, lines, State(0, [], st), n, Mean(m, b, st, fuel), |lines|, fuel);
  }

  lemma {:induction false} HaltsOnce<S>(m: Meaning<S>, lines: seq<Line>, s: State<S>, n: nat, k: nat)
    requires Run(m, lines, s, n).Some? && Run(m, lines, s, n).value.pos / 2 >= |lines|
    requires Run(m, lines, s, k).Some?
    ensures k <= n
    decreases n
  {
    hide Step;
    if n > 0 && k > 0 {
      HaltsOnce(m, lines, Step(m, lines, s).value, n - 1, k - 1);
    } else if n == 0 && k > 0 {
      NoStepAtEnd(m, lines, s);
    }
  }

  lemma {:induction false} NoStepAtEnd<S>(m: Meaning<S>, lines: seq<Line>, s: State<S>)
    requires s.pos / 2 >= |lines|
    ensures Step(m, lines, s).None?
  {
  }

  /** The machine halts past the script with store st' exactly when the structured meaning ends there. */
  lemma {:induction false} ScriptMeansWhatItRuns<S(!new)>(m: Meaning<S>, b: Block, st: S, st': S)
    requires Legal(b, false, false, false)
    ensures (exists fuel: nat :: Mean(m, b, st, fuel) == Done(Normal, st')) <==>
            (exists n: nat :: Run(m, Lines(b), State(0, [], st), n) == Some(State(2 * |Lines(b)|, [], st')))
  {
    hide Step, Mean;
    var lines, s := Lines(b), State(0, [], st);
    if fuel: nat :| Mean(m, b, st, fuel) == Done(Normal, st') {
      var n := ScriptRuns(m, b, st, fuel);
    }
    if n: nat :| Run(m, lines, s, n) == Some(State(2 * |lines|, [], st')) {
      var k := ScriptRuns(m, b, st, n + 1);
      HaltsOnce(m, lines, s, n, k);
      HaltsOnce(m, lines, s, k, n);
    }
  }
}
