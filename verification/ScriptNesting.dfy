/** Structured scripts are well nested and tame, so every state of their runs satisfies the loop invariant. */
module ScriptNesting {
  import opened Wrappers
  import opened Sequences
  import opened ScriptSearch
  import opened ScriptMachine
  import opened ScriptStructure
  import opened ScriptSimulation
  import opened ScriptLoops
  import opened ScriptBreaksw
  import opened ScriptInvariant

  /** A breaksw here has no loop between it and its switch, and there is no goto. */
  ghost predicate CalmAt(lines: seq<Line>, i: nat)
    requires i < |lines|
  {
    OpenAt(lines, i).Some? && (lines[i].Plain? || lines[i].IfSimple?) ==>
      !lines[i].s.Goto? && (lines[i].s.BreakSw? ==> SwitchFirst(OpenAt(lines, i).value))
  }

  lemma {:induction false} CalmIsTame(lines: seq<Line>)
    requires WellNested(lines) && forall i | 0 <= i < |lines| :: CalmAt(lines, i)
    ensures Tame(lines)
  {
    hide OpenAt, SwitchFirst, PopsRight;
    forall i | 0 <= i < |lines| ensures TameAt(lines, i) {
      if lines[i].Plain? || lines[i].IfSimple? {
        SameLoopsAfter(lines, i);
        assert CalmAt(lines, i);
        if lines[i].s.BreakSw? { SwitchFirstPopsRight(lines, i + 1); }
      }
    }
  }

  lemma {:induction false} NestBlock(lines: seq<Line>, k: nat, b: Block, open: seq<Open>,
                                     inLoop: bool, inSwitch: bool, labels: bool)
    requires At(lines, k, Lines(b)) && Legal(b, inLoop, inSwitch, labels) && k + |Lines(b)| <= |lines|
    requires OpenAt(lines, k) == Some(open) && (inSwitch ==> SwitchFirst(open))
    requires labels ==> open != [] && open[0].OpenSwitch?
    ensures OpenAt(lines, k + |Lines(b)|) == Some(open)
    ensures forall i | k <= i < k + |Lines(b)| :: CalmAt(lines, i)
    decreases b, 0
  {
    hide CalmAt, SwitchFirst;
    if b.Cons? {
      AtParts(lines, k, StmtLines(b.head), Lines(b.tail));
      NestStmt(lines, k, b.head, open, inLoop, inSwitch, labels);
      NestBlock(lines, k + |StmtLines(b.head)|, b.tail, open, inLoop, inSwitch, labels);
    }
  }

  lemma {:induction false} NestStmt(lines: seq<Line>, k: nat, s: Stmt, open: seq<Open>,
                                    inLoop: bool, inSwitch: bool, labels: bool)
    requires At(lines, k, StmtLines(s)) && LegalStmt(s, inLoop, inSwitch, labels) && k + |StmtLines(s)| <= |lines|
    requires OpenAt(lines, k) == Some(open) && (inSwitch ==> SwitchFirst(open))
    requires labels ==> open != [] && open[0].OpenSwitch?
    ensures OpenAt(lines, k + |StmtLines(s)|) == Some(open)
    ensures forall i | k <= i < k + |StmtLines(s)| :: CalmAt(lines, i)
    decreases s, 2
  {
    match s
    case IfElse(cond, thn, els) =>
      hide CalmAt;
      AtParts(lines, k, [IfThen(cond)], Lines(thn) + (ElseLines(els) + [EndIf]));
      NestIf(lines, k, cond, thn, els, open, inLoop, inSwitch);
    case WhileDo(cond, body) =>
      NestBody(lines, k, While(cond), body, End, open, true, false, false);
    case ForeachDo(id, body) =>
      NestBody(lines, k, Foreach(id), body, End, open, true, false, false);
    case SwitchOn(w, body) =>
      NestBody(lines, k, Switch(w), body, EndSw, open, inLoop, true, true);
    case _ =>
      AtOne(lines, k, StmtLines(s)[0]);
  }

  lemma {:induction false} NestBody(lines: seq<Line>, k: nat, first: Line, body: Block, last: Line, open: seq<Open>,
                                    inLoop: bool, inSwitch: bool, labels: bool)
    requires At(lines, k, [first] + (Lines(body) + [last])) && Legal(body, inLoop, inSwitch, labels)
    requires Pair(first, last) && !first.IfThen? && (labels || inSwitch ==> first.Switch?)
    requires k + 1 + |Lines(body)| + 1 <= |lines| && OpenAt(lines, k) == Some(open)
    ensures OpenAt(lines, k + 1 + |Lines(body)| + 1) == Some(open)
    ensures forall i | k <= i < k + 1 + |Lines(body)| + 1 :: CalmAt(lines, i)
    decreases body, 1
  {
    AtParts(lines, k, [first], Lines(body) + [last]);
    AtParts(lines, k + 1, Lines(body), [last]);
    AtOne(lines, k + 1 + |Lines(body)|, last);
    var top := if first.Switch? then OpenSwitch(k) else OpenLoop(k);
    NestBlock(lines, k + 1, body, [top] + open, inLoop, inSwitch, labels);
    assert ([top] + open)[1..] == open;
    hide SwitchFirst;
  }

  lemma {:induction false} NestIf(lines: seq<Line>, k: nat, cond: nat, thn: Block, els: ElsePart, open: seq<Open>,
                                  inLoop: bool, inSwitch: bool)
    requires k < |lines| && lines[k] == IfThen(cond) && At(lines, k + 1, Lines(thn) + (ElseLines(els) + [EndIf]))
    requires Legal(thn, inLoop, inSwitch, false) && LegalElse(els, inLoop, inSwitch)
    requires OpenAt(lines, k) == Some(open) && (inSwitch ==> SwitchFirst(open))
    ensures var last := k + 1 + |Lines(thn)| + |ElseLines(els)|;
            && last < |lines| && OpenAt(lines, last + 1) == Some(open)
            && forall i | k <= i <= last :: CalmAt(lines, i)
    decreases IfElse(cond, thn, els), 1
  {
    var last := k + 1 + |Lines(thn)| + |ElseLines(els)|;
    hide OpenAt, CalmAt, At, Lines, ElseLines, Legal, LegalElse, SwitchFirst;
    AtParts(lines, k + 1, Lines(thn), ElseLines(els) + [EndIf]);
    AtParts(lines, k + 1 + |Lines(thn)|, ElseLines(els), [EndIf]);
    AtOne(lines, last, EndIf);
    var open' := [OpenIf(k)] + open;
    IfOpens(lines, k, last, cond, open);
    NestBlock(lines, k + 1, thn, open', inLoop, inSwitch, false);
    NestElse(lines, k + 1 + |Lines(thn)|, els, open', inLoop, inSwitch);
  }

  /** The lines around the parts of an if. */
  lemma {:induction false} IfOpens(lines: seq<Line>, k: nat, last: nat, cond: nat, open: seq<Open>)
    requires k < last < |lines| && lines[k] == IfThen(cond) && lines[last] == EndIf && OpenAt(lines, k) == Some(open)
    ensures OpenAt(lines, k + 1) == Some([OpenIf(k)] + open) && CalmAt(lines, k) && CalmAt(lines, last)
    ensures OpenAt(lines, last) == Some([OpenIf(k)] + open) ==> OpenAt(lines, last + 1) == Some(open)
    ensures SwitchFirst(open) ==> SwitchFirst([OpenIf(k)] + open)
  {
    assert ([OpenIf(k)] + open)[1..] == open;
  }

  lemma {:induction false} NestElse(lines: seq<Line>, k: nat, els: ElsePart, open: seq<Open>,
                                    inLoop: bool, inSwitch: bool)
    requires At(lines, k, ElseLines(els)) && LegalElse(els, inLoop, inSwitch) && k + |ElseLines(els)| <= |lines|
    requires open != [] && open[0].OpenIf? && OpenAt(lines, k) == Some(open) && (inSwitch ==> SwitchFirst(open))
    ensures OpenAt(lines, k + |ElseLines(els)|) == Some(open)
    ensures forall i | k <= i < k + |ElseLines(els)| :: CalmAt(lines, i)
    decreases els, 1
  {
    hide At, SwitchFirst, Lines, Legal;
    match els
    case NoElse =>
    case ElseDo(body) =>
      AtParts(lines, k, [Else], Lines(body));
      NestBlock(lines, k + 1, body, open, inLoop, inSwitch, false);
    case ElseIfDo(cond, thn, els') =>
      AtParts(lines, k, [ElseIf(cond)], Lines(thn) + ElseLines(els'));
      AtParts(lines, k + 1, Lines(thn), ElseLines(els'));
      NestBlock(lines, k + 1, thn, open, inLoop, inSwitch, false);
      NestElse(lines, k + 1 + |Lines(thn)|, els', open, inLoop, inSwitch);
  }

  /** Structured scripts are well nested, so every state of their runs satisfies the loop invariant. */
  lemma {:induction false} StructuredRunsKeepInv<S(!new)>(m: Meaning<S>, b: Block, st: S, n: nat)
    requires Legal(b, false, false, false)
    ensures WellNested(Lines(b)) && Tame(Lines(b))
    ensures var r := Run(m, Lines(b), State(0, [], st), n); r.Some? ==> Inv(Lines(b), r.value)
  {
    var lines := Lines(b);
    AtWhole(lines, 0);
    assert lines[0..] == lines;
    NestBlock(lines, 0, b, [], false, false, false);
    CalmIsTame(lines);
    RunKeepsInv(m, lines, State(0, [], st), n);
  }
}
