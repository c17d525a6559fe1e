/**
 * Structured scripts: blocks of commands, if / else if / else / endif, while, foreach,
 * switch, break, continue and breaksw, with a big-step meaning that knows nothing of
 * positions or loop stacks.
 */
module ScriptStructure {
  import opened Wrappers
  import opened ScriptSearch

  datatype Block = Nil | Cons(head: Stmt, tail: Block)

  datatype Stmt =
    | Do(s: Simple)
    | DoIf(cond: nat, s: Simple)
    | IfElse(cond: nat, thn: Block, els: ElsePart)
    | WhileDo(cond: nat, body: Block)
    | ForeachDo(loop: nat, body: Block)
    | SwitchOn(word: nat, body: Block)
    | CaseOf(pattern: nat)
    | DefaultOf

  datatype ElsePart = NoElse | ElseDo(body: Block) | ElseIfDo(cond: nat, thn: Block, els: ElsePart)

  /** The script text of a block. */
  function Lines(b: Block): seq<Line>
  {
    match b
    case Nil => []
    case Cons(h, t) => StmtLines(h) + Lines(t)
  }

  function StmtLines(s: Stmt): (ls: seq<Line>)
    ensures |ls| > 0
  {
    match s
    case Do(c) => [Plain(c)]
    case DoIf(cond, c) => [IfSimple(cond, c)]
    case IfElse(cond, thn, els) => [IfThen(cond)] + (Lines(thn) + (ElseLines(els) + [EndIf]))
    case WhileDo(cond, body) => [While(cond)] + (Lines(body) + [End])
    case ForeachDo(id, body) => [Foreach(id)] + (Lines(body) + [End])
    case SwitchOn(w, body) => [Switch(w)] + (Lines(body) + [EndSw])
    case CaseOf(p) => [Case(p)]
    case DefaultOf => [Default]
  }

  function ElseLines(e: ElsePart): seq<Line>
  {
    match e
    case NoElse => []
    case ElseDo(body) => [Else] + Lines(body)
    case ElseIfDo(cond, thn, els) => [ElseIf(cond)] + (Lines(thn) + ElseLines(els))
  }

  /** break and continue need a loop, breaksw a switch with no loop in between, and case
      labels (`labels`) stand directly in a switch body. There is no goto. */
  predicate Allowed(c: Simple, inLoop: bool, inSwitch: bool)
  {
    match c
    case Command(_) => true
    case Break => inLoop
    case Continue => inLoop
    case BreakSw => inSwitch
    case Goto(_) => false
  }

  predicate Legal(b: Block, inLoop: bool, inSwitch: bool, labels: bool)
  {
    match b
    case Nil => true
    case Cons(h, t) => LegalStmt(h, inLoop, inSwitch, labels) && Legal(t, inLoop, inSwitch, labels)
  }

  predicate LegalStmt(s: Stmt, inLoop: bool, inSwitch: bool, labels: bool)
  {
    match s
    case Do(c) => Allowed(c, inLoop, inSwitch)
    case DoIf(_, c) => Allowed(c, inLoop, inSwitch)
    case IfElse(_, thn, els) => Legal(thn, inLoop, inSwitch, false) && LegalElse(els, inLoop, inSwitch)
    case WhileDo(_, body) => Legal(body, true, false, false)
    case ForeachDo(_, body) => Legal(body, true, false, false)
    case SwitchOn(_, body) => Legal(body, inLoop, true, true)
    case CaseOf(_) => labels
    case DefaultOf => labels
  }

  predicate LegalElse(e: ElsePart, inLoop: bool, inSwitch: bool)
  {
    match e
    case NoElse => true
    case ElseDo(body) => Legal(body, inLoop, inSwitch, false)
    case ElseIfDo(_, thn, els) => Legal(thn, inLoop, inSwitch, false) && LegalElse(els, inLoop, inSwitch)
  }

  datatype Out = Normal | Broke | Continued | BrokeSw
  datatype Eval<+S> = OutOfFuel | Done(out: Out, store: S)

  function MeanSimple<S>(m: Meaning<S>, c: Simple, st: S): Eval<S>
  {
    match c
    case Command(id) => Done(Normal, m.run(id, st))
    case Break => Done(Broke, st)
    case Continue => Done(Continued, st)
    case BreakSw => Done(BrokeSw, st)
    case Goto(_) => Done(Normal, st)     // not part of a legal block
  }

  /** Big-step meaning; `fuel` bounds the turns of while loops. */
  function Mean<S>(m: Meaning<S>, b: Block, st: S, fuel: nat): Eval<S>
    decreases fuel, b, 0, 0
  {
    match b
    case Nil => Done(Normal, st)
    case Cons(h, t) =>
      var r := MeanStmt(m, h, st, fuel);
      if r.Done? && r.out.Normal? then Mean(m, t, r.store, fuel) else r
  }

  function MeanStmt<S>(m: Meaning<S>, s: Stmt, st: S, fuel: nat): Eval<S>
    decreases fuel, s, 0, 0
  {
    match s
    case Do(c) => MeanSimple(m, c, st)
    case DoIf(cond, c) =>
      var (go, st') := m.test(cond, st);
      if go then MeanSimple(m, c, st') else Done(Normal, st')
    case IfElse(cond, thn, els) =>
      var (go, st') := m.test(cond, st);
      if go then Mean(m, thn, st', fuel) else MeanElse(m, els, st', fuel)
    case WhileDo(cond, body) => MeanWhile(m, cond, body, st, fuel)
    case ForeachDo(id, body) => MeanForeach(m, id, m.words(id, st), body, st, fuel)
    case SwitchOn(w, body) =>
      var d := Dispatch(m, w, body, st);
      if d.None? then Done(Normal, st)
      else
        var r := Mean(m, d.value, st, fuel);
        if r.Done? && r.out.BrokeSw? then Done(Normal, r.store) else r
    case CaseOf(_) => Done(Normal, st)
    case DefaultOf => Done(Normal, st)
  }

  function MeanElse<S>(m: Meaning<S>, e: ElsePart, st: S, fuel: nat): Eval<S>
    decreases fuel, e, 0, 0
  {
    match e
    case NoElse => Done(Normal, st)
    case ElseDo(body) => Mean(m, body, st, fuel)
    case ElseIfDo(cond, thn, els) =>
      var (go, st') := m.test(cond, st);
      if go then Mean(m, thn, st', fuel) else MeanElse(m, els, st', fuel)
  }

  function MeanWhile<S>(m: Meaning<S>, cond: nat, body: Block, st: S, fuel: nat): Eval<S>
    decreases fuel, body, 1, 0
  {
    if fuel == 0 then OutOfFuel
    else
      var (go, st1) := m.test(cond, st);
      if !go then Done(Normal, st1)
      else
        match Mean(m, body, st1, fuel - 1)
        case OutOfFuel => OutOfFuel
        case Done(out, st2) =>
          if out.Broke? then Done(Normal, st2)
          else if out.BrokeSw? then Done(BrokeSw, st2)
          else MeanWhile(m, cond, body, st2, fuel - 1)
  }

  function MeanForeach<S>(m: Meaning<S>, id: nat, words: seq<string>, body: Block, st: S, fuel: nat): Eval<S>
    decreases fuel, body, 1, |words|
  {
    if words == [] then Done(Normal, st)
    else
      match Mean(m, body, m.bind(id, words[0], st), fuel)
      case OutOfFuel => OutOfFuel
      case Done(out, st') =>
        if out.Broke? then Done(Normal, st')
        else if out.BrokeSw? then Done(BrokeSw, st')
        else MeanForeach(m, id, words[1..], body, st', fuel)
  }

  /** The part of a switch body after the first label that matches; default matches anything. */
  function Dispatch<S>(m: Meaning<S>, w: nat, body: Block, st: S): (d: Option<Block>)
    ensures d.Some? ==> d.value < body
  {
    match body
    case Nil => None
    case Cons(h, t) =>
      if h.DefaultOf? || (h.CaseOf? && m.matches(w, h.pattern, st)) then Some(t)
      else Dispatch(m, w, t, st)
  }
}
