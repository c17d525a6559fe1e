/**
 * Printing an expression and evaluating its words gives the value of its tree: the printer puts parentheses
 * only where the evaluator's levels, which group to the right, need them.
 */
module ExprRoundTrip {
  import opened Wrappers
  import opened Sequences
  import opened ExprNumber
  import opened ExprEval
  import opened ExprMeaning

  /** Operands are words, file tests, commands in braces, or left out before an operator. */
  datatype Tree =
    | Word(w: string)
    | Test(w: string, name: string)
    | Braces(cmd: seq<string>)
    | Nothing
    | Not(t: Tree)
    | Flip(t: Tree)
    | Group(t: Tree, close: string)
    | Bin(op: Op, l: Tree, r: Tree)

  /** The level an operator belongs to. */
  function LevelOfOp(op: Op): Level
  {
    match op
    case OrOr => 0
    case AndAnd => 1
    case BitOr => 2
    case BitXor => 3
    case BitAnd => 4
    case EqEq => 5
    case NotEq => 5
    case EqMatch => 5
    case NotEqMatch => 5
    case Gt => 6
    case Ge => 6
    case Lt => 6
    case Le => 6
    case Shl => 7
    case Shr => 7
    case Plus => 8
    case Minus => 8
    case _ => 9
  }

  function LevelOf(t: Tree): Level { if t.Bin? then LevelOfOp(t.op) else 10 }

  /** <= and >= are two words each. */
  function OpWords(op: Op): seq<string>
  {
    match op
    case OrOr => ["||"]
    case AndAnd => ["&&"]
    case BitOr => ["|"]
    case BitXor => ["^"]
    case BitAnd => ["&"]
    case EqEq => ["=="]
    case NotEq => ["!="]
    case EqMatch => ["=~"]
    case NotEqMatch => ["!~"]
    case Gt => [">"]
    case Ge => [">", "="]
    case Lt => ["<"]
    case Le => ["<", "="]
    case Shl => ["<<"]
    case Shr => [">>"]
    case Plus => ["+"]
    case Minus => ["-"]
    case Times => ["*"]
    case Divide => ["/"]
    case Modulo => ["%"]
  }

  /** The tree as an operand of level k. */
  function Print(t: Tree, k: Level): seq<string>
    decreases t, 1
  {
    if LevelOf(t) < k then ["("] + Body(t) + [")"] else Body(t)
  }

  function Body(t: Tree): seq<string>
    decreases t, 0
  {
    match t
    case Word(w) => [w]
    case Test(w, name) => [w, name]
    case Braces(cmd) => ["{"] + cmd + ["}"]
    case Nothing => []
    case Not(u) => ["!"] + Print(u, 10)
    case Flip(u) => ["~"] + Print(u, 10)
    case Group(u, close) => ["("] + Print(u, 0) + [close]
    case Bin(op, l, r) => Print(l, LevelOfOp(op) + 1) + OpWords(op) + Print(r, RightPlace(op))
  }

  /** A chain of one level needs no parentheses on its right; an equality needs them around any other. */
  function RightPlace(op: Op): Level { if LevelOfOp(op) == 5 then 6 else LevelOfOp(op) }

  // ---------- well-formed trees ----------

  /** Words that stop an operand. */
  predicate OperatorWord(w: string)
  {
    || w in {"+", "-", "*", "/", "%", "(", ")", "!", "~", "^", "\"", "|&", "<<", ">>", "==", "=~", "!=", "!~"}
    || (|w| > 0 && w[0] in {'<', '>'})
  }

  /** A word that asks about a file, with anything behind its letter. */
  predicate TestWord(w: string)
  {
    |w| > 1 && w[0] == '-' && w[1] in {'e', 'r', 'w', 'x', 'f', 'd', 'z', 'o', 'p', 'l', 's'}
  }

  /** Words before which an operand may be left out. */
  predicate EndWord(w: string) { OperatorWord(w) && w != "(" && w != "!" && w != "~" }

  predicate Ordinary(w: string) { !OperatorWord(w) && w != "{" && !TestWord(w) }

  /** The last operand of the printed tree is left out. */
  predicate EndsBare(t: Tree, k: Level)
  {
    LevelOf(t) >= k &&
    match t
    case Nothing => true
    case Not(u) => EndsBare(u, 10)
    case Flip(u) => EndsBare(u, 10)
    case Bin(op, _, r) => EndsBare(r, RightPlace(op))
    case _ => false
  }

  /** > and < do not meet a word = that would belong to them. */
  predicate NoEquals(ws: seq<string>) { ws == [] || ws[0] != "=" }

  predicate Sound(t: Tree)
  {
    match t
    case Word(w) => Ordinary(w)
    case Test(w, _) => TestWord(w)
    case Braces(cmd) => "}" !in cmd
    case Nothing => true
    case Not(u) => Sound(u)
    case Flip(u) => Sound(u)
    case Group(u, close) => Sound(u) && |close| > 0 && close[0] == ')' && (EndsBare(u, 0) ==> close == ")")
    case Bin(op, l, r) =>
      && Sound(l) && Sound(r) && (EndsBare(l, LevelOfOp(op) + 1) ==> OperatorWord(OpWords(op)[0]))
      && (op == Gt || op == Lt ==> NoEquals(Print(r, RightPlace(op))))
  }

  // ---------- what a tree stands for ----------

  /** What comes out of a comparison that is skipped. */
  function Skipped(op: Op): int
  {
    match op
    case EqEq => 1
    case Gt => 2
    case Ge => 3
    case Lt => 4
    case Le => 5
    case NotEq => 6
    case EqMatch => 7
    case NotEqMatch => 8
    case _ => 0
  }

  function Bit01(b: bool): int { if b then 1 else 0 }

  function Read(s: Result<string, Error>): Result<int, Error>
  {
    match s
    case Err(e) => Err(e)
    case Ok(x) => match EGetN(x) { case Ok(n) => Ok(n) case Err(e) => Err(Number(e)) }
  }

  function Write(n: Result<int, Error>): Result<string, Error>
  {
    match n case Ok(v) => Ok(PutN(v)) case Err(e) => Err(e)
  }

  /** Two words under an operator that works on numbers: the left one is read first, but a divisor before
      what it divides. */
  function Worked(op: Op, x: string, y: string): Result<string, Error>
  {
    var a, b := Read(Ok(x)), Read(Ok(y));
    if op == Divide || op == Modulo then
      if b.Err? then Err(b.error)
      else if b.value == 0 then Write(Meaning(op, 0, 0))
      else if a.Err? then Err(a.error)
      else Write(Meaning(op, a.value, b.value))
    else if a.Err? then Err(a.error)
    else if b.Err? then Err(b.error)
    else Write(Meaning(op, a.value, b.value))
  }

  /** The tree as a word. skip: only the words are read; raw: words are taken as they stand. */
  function AsText(env: Env, t: Tree, skip: bool, raw: bool): Result<string, Error>
    decreases t, 1
  {
    match t
    case Word(w) => if raw then Ok(w) else Expanded(env, w)
    case Test(w, name) =>
      if |w| > 2 then Err(FileInquiry)
      else if OperatorWord(name) && !env.found(name) then Err(FileName)
      else if skip then Ok("")
      else
        var x := Expanded(env, name);
        if x.Err? then x else Ok(PutN(Bit01(|w| == 2 && env.test(w[1], x.value))))
    case Braces(cmd) => Ok(if skip then "" else PutN(Bit01(env.run(cmd) == 0)))
    case Nothing => Ok("")
    case Not(u) =>
      var n := Read(AsText(env, u, skip, raw));
      if n.Err? then Err(n.error) else Ok(PutN(Bit01(n.value == 0)))
    case Flip(u) =>
      var n := Read(AsText(env, u, skip, raw));
      if n.Err? then Err(n.error) else Ok(PutN(-1 - n.value))
    case Group(u, _) => Write(AsNumber(env, u, skip, raw))
    case Bin(op, l, r) =>
      if LevelOfOp(op) <= 5 then Write(AsInt(env, op, l, r, skip, raw))
      else
        var x, y := AsText(env, l, skip, raw), AsText(env, r, skip, raw);
        if x.Err? then x
        else if y.Err? then y
        else if skip && op != Shl && op != Shr then Ok(PutN(Skipped(op)))
        else Worked(op, x.value, y.value)
  }

  function Expanded(env: Env, w: string): Result<string, Error>
  {
    match env.glob(w) case Some(x) => Ok(x) case None => Err(NoMatch)
  }

  /** The tree as a number. */
  function AsNumber(env: Env, t: Tree, skip: bool, raw: bool): Result<int, Error>
    decreases t, 2
  {
    if t.Bin? && LevelOfOp(t.op) <= 5 then AsInt(env, t.op, t.l, t.r, skip, raw) else Read(AsText(env, t, skip, raw))
  }

  /** An operator whose result is a number: || and && skip what the left side decides; the pattern of a match is
      taken as it stands. */
  function AsInt(env: Env, op: Op, l: Tree, r: Tree, skip: bool, raw: bool): Result<int, Error>
    decreases Bin(op, l, r), 0
  {
    if LevelOfOp(op) < 5 then
      var a := AsNumber(env, l, skip, raw);
      if a.Err? then a
      else
        var decided := (op == OrOr && a.value != 0) || (op == AndAnd && a.value == 0);
        var b := AsNumber(env, r, skip || decided, raw && op != OrOr && op != AndAnd);
        if b.Err? then b else Meaning(op, a.value, b.value)
    else
      var matching := op == EqMatch || op == NotEqMatch;
      var x, y := AsText(env, l, skip, raw), AsText(env, r, skip, raw || matching);
      if x.Err? then Err(x.error)
      else if y.Err? then Err(y.error)
      else if skip then Ok(Skipped(op))
      else Ok(Bit01((if matching then env.matches(x.value, y.value) else x.value == y.value) ==
                    (op == EqEq || op == EqMatch)))
  }

  /** The reading of a tree at level k, ending at q. */
  function Reading(env: Env, t: Tree, k: Level, f: Flags, q: nat): Out
  {
    if k <= 5 then match AsNumber(env, t, f.ign, f.noglob) case Ok(n) => Ok(Got(Int(n), q)) case Err(e) => Err(e)
    else match AsText(env, t, f.ign, f.noglob) case Ok(s) => Ok(Got(Text(s), q)) case Err(e) => Err(e)
  }

  // ---------- values ----------

  lemma {:induction false} LogicInRange(op: Op, a: int, b: int)
    ensures InRange(Logic(op, a, b))
  {
    hide Bitwise;
  }

  lemma {:induction false} IntInRange(env: Env, op: Op, l: Tree, r: Tree, skip: bool, raw: bool)
    requires LevelOfOp(op) <= 5
    ensures var n := AsInt(env, op, l, r, skip, raw); n.Ok? ==> InRange(n.value)
  {
    hide AsText, AsNumber, Meaning, Logic;
    if LevelOfOp(op) < 5 {
      var a := AsNumber(env, l, skip, raw);
      if a.Ok? {
        var decided := (op == OrOr && a.value != 0) || (op == AndAnd && a.value == 0);
        var b := AsNumber(env, r, skip || decided, raw && op != OrOr && op != AndAnd);
        if b.Ok? {
          LogicMeans(op, a.value, b.value);
          LogicInRange(op, a.value, b.value);
        }
      }
    }
  }

  /** Writing a number and reading it again. */
  lemma {:induction false} ReadWritten(n: Result<int, Error>)
    requires n.Ok? ==> InRange(n.value)
    ensures Read(Write(n)) == n
  {
    hide EGetN, PutN;
    if n.Ok? { NumberRoundTrip(n.value); }
  }

  lemma {:induction false} NumIsRead(s: string)
    ensures Num(s) == Read(Ok(s))
  {
  }

  /** Two operands of one of the tighter levels. */
  lemma {:induction false} WordsMean(op: Op, ign: bool, x: string, y: string)
    requires LevelOfOp(op) > 5
    ensures OnWords(op, ign, x, y) ==
            if ign && op != Shl && op != Shr then Ok(PutN(Skipped(op))) else Worked(op, x, y)
  {
    hide EGetN, PutN, Arith, Meaning;
    NumIsRead(x);
    NumIsRead(y);
    var a, b := Num(x), Num(y);
    if a.Ok? && b.Ok? { ArithMeans(op, a.value, b.value); }
    if op == Divide || op == Modulo { ByZero(op); }
  }

  lemma {:induction false} ByZero(op: Op)
    requires op == Divide || op == Modulo
    ensures Meaning(op, 0, 0) == Err(if op == Divide then DivByZero else ModByZero)
  {
  }

  // ---------- words in place ----------

  /** The word at q, if any, is no operator of level k or tighter. */
  ghost predicate Stops(ws: seq<string>, q: nat, k: Level)
    requires q <= |ws|
  {
    forall j: Level | k <= j :: OpAt(j, ws, q).None?
  }

  /** An operand that is left out stands before an operator word. */
  ghost predicate Follows(t: Tree, k: Level, ws: seq<string>, q: nat)
  {
    EndsBare(t, k) ==> q < |ws| && EndWord(ws[q])
  }

  /** An operator is found at its own level and at no tighter one. */
  lemma {:induction false} OpFound(op: Op, ws: seq<string>, q: nat)
    requires At(ws, q, OpWords(op))
    requires op == Gt || op == Lt ==> q + 1 == |ws| || ws[q + 1] != "="
    ensures q + |OpWords(op)| <= |ws| && OpAt(LevelOfOp(op), ws, q) == Some((op, |OpWords(op)|))
    ensures Stops(ws, q, LevelOfOp(op) + 1)
  {
    var o := OpWords(op);
    assert ws[q] == o[0];
    if |o| == 2 { assert ws[q + 1] == o[1..][0]; }
  }

  lemma {:induction false} CloseStops(ws: seq<string>, q: nat)
    requires q < |ws| && |ws[q]| > 0 && ws[q][0] == ')'
    ensures Stops(ws, q, 0)
  {
  }

  lemma {:induction false} EmptyIsBare(t: Tree, k: Level)
    requires Print(t, k) == []
    ensures EndsBare(t, k)
  {
    if t.Bin? { assert OpWords(t.op) != []; }
  }

  lemma {:induction false} OpWordEnds(op: Op)
    ensures OpWords(op) != [] && (OperatorWord(OpWords(op)[0]) ==> EndWord(OpWords(op)[0]))
  {
  }

  lemma {:induction false} StopsTighter(ws: seq<string>, q: nat, k: Level)
    requires q <= |ws| && k < 10 && Stops(ws, q, k)
    ensures Stops(ws, q, k + 1) && OpAt(k, ws, q) == None
  {
  }

  lemma {:induction false} StopsRight(ws: seq<string>, q: nat, k: Level)
    requires q <= |ws| && k < 10 && Stops(ws, q, k)
    ensures Stops(ws, q, RightLevel(k))
  {
  }

  lemma {:induction false} AtFirst(ws: seq<string>, p: nat, x: seq<string>)
    requires At(ws, p, x) && x != []
    ensures p < |ws| && ws[p] == x[0]
  {
  }

  lemma {:induction false} AtHead(ws: seq<string>, p: nat, w: string, x: seq<string>)
    requires At(ws, p, [w] + x)
    ensures p < |ws| && ws[p] == w && At(ws, p + 1, x)
  {
    assert ([w] + x)[1..] == x;
  }

  // ---------- reading ----------

  /** Reading a printed tree at level k, where no operator of that level or tighter follows. */
  lemma {:induction false} Reads(env: Env, k: Level, t: Tree, ws: seq<string>, p: nat, f: Flags)
    requires Sound(t) && At(ws, p, Print(t, k)) && p + |Print(t, k)| <= |ws|
    requires Stops(ws, p + |Print(t, k)|, k) && Follows(t, k, ws, p + |Print(t, k)|)
    ensures Exp(env, k, ws, p, f) == Reading(env, t, k, f, p + |Print(t, k)|)
    decreases t, 1, 10 - k
  {
    hide Exp6, At, Stops, OpAt, Finish, Bare, Reading, EndsBare, Sound;
    if k == 10 {
      ReadsPrimary(env, t, ws, p, f);
      assert Exp(env, 10, ws, p, f) == Exp6(env, ws, p, f);
    } else if LevelOf(t) != k {
      assert Print(t, k) == Print(t, k + 1);
      var q := p + |Print(t, k)|;
      StopsTighter(ws, q, k);
      BareTighter(t, k);
      Reads(env, k + 1, t, ws, p, f);
      PassUp(env, k, t, ws, p, f, q);
    } else {
      ReadsBin(env, t, ws, p, f);
    }
  }

  lemma {:induction false} BareTighter(t: Tree, k: Level)
    requires k < 10 && LevelOf(t) != k
    ensures EndsBare(t, k) <==> EndsBare(t, k + 1)
  {
  }

  lemma {:induction false} PassUp(env: Env, k: Level, t: Tree, ws: seq<string>, p: nat, f: Flags, q: nat)
    requires k < 10 && LevelOf(t) != k && p <= q <= |ws| && OpAt(k, ws, q) == None
    requires Exp(env, k + 1, ws, p, f) == Reading(env, t, k + 1, f, q)
    ensures Exp(env, k, ws, p, f) == Reading(env, t, k, f, q)
  {
    hide Exp6, OpAt, Finish, AsText, AsInt;
    if k == 5 {
      var s := AsText(env, t, f.ign, f.noglob);
      if s.Ok? { NumIsRead(s.value); }
      if t.Bin? && LevelOf(t) < 5 {
        IntInRange(env, t.op, t.l, t.r, f.ign, f.noglob);
        ReadWritten(AsInt(env, t.op, t.l, t.r, f.ign, f.noglob));
        LooseText(env, t, f.ign, f.noglob);
      }
    }
  }

  lemma {:induction false} LooseText(env: Env, t: Tree, skip: bool, raw: bool)
    requires t.Bin? && LevelOf(t) <= 5
    ensures AsText(env, t, skip, raw) == Write(AsInt(env, t.op, t.l, t.r, skip, raw))
  {
  }

  lemma {:induction false} ReadsBin(env: Env, t: Tree, ws: seq<string>, p: nat, f: Flags)
    requires t.Bin? && Sound(t) && At(ws, p, Body(t))
    requires p + |Body(t)| <= |ws| && Stops(ws, p + |Body(t)|, LevelOf(t)) && Follows(t, LevelOf(t), ws, p + |Body(t)|)
    ensures Exp(env, LevelOf(t), ws, p, f) == Reading(env, t, LevelOf(t), f, p + |Body(t)|)
    decreases t, 0, 0
  {
    hide Exp, At, Stops, OpAt, Finish, Reading, Print, OpWords;
    var k, op := LevelOf(t), t.op;
    var l, o, r := Print(t.l, k + 1), OpWords(op), Print(t.r, RightPlace(op));
    var m, n, q := p + |l|, p + |l| + |o|, p + |l| + |o| + |r|;
    AtSplit(ws, p, l + o, r);
    AtSplit(ws, p, l, o);
    if r == [] { EmptyIsBare(t.r, RightPlace(op)); }
    OpWordEnds(op);
    OpPlaced(op, ws, m, r);
    Reads(env, k + 1, t.l, ws, p, f);
    ReadingEnds(env, t.l, k + 1, f, m);
    var left := Exp(env, k + 1, ws, p, f);
    if left.Err? {
      LeftFails(env, t, ws, p, f, m, q);
    } else {
      StopsRight(ws, q, k);
      var g := RightFlags(op, f, LeftInt(left.value.val));
      Reads(env, RightLevel(k), t.r, ws, n, g);
      ExpBin(env, k, ws, p, f, op, |o|);
      Joins(env, t, f, left, Exp(env, RightLevel(k), ws, n, g), m, q);
    }
  }

  /** The operator behind the left operand, and what may stand behind it. */
  lemma {:induction false} OpPlaced(op: Op, ws: seq<string>, m: nat, r: seq<string>)
    requires At(ws, m, OpWords(op)) && At(ws, m + |OpWords(op)|, r)
    requires op == Gt || op == Lt ==> if r == [] then true else r[0] != "="
    requires r == [] ==> m + |OpWords(op)| == |ws| || ws[m + |OpWords(op)|] != "="
    ensures m < |ws| && ws[m] == OpWords(op)[0] && m + |OpWords(op)| <= |ws|
    ensures OpAt(LevelOfOp(op), ws, m) == Some((op, |OpWords(op)|)) && Stops(ws, m, LevelOfOp(op) + 1)
  {
    hide OpAt, Stops;
    var o := OpWords(op);
    assert o != [] && (op == Gt || op == Lt ==> |o| == 1);
    hide OpWords;
    AtFirst(ws, m, o);
    if r != [] { AtFirst(ws, m + |o|, r); }
    OpFound(op, ws, m);
  }

  lemma {:induction false} ReadingEnds(env: Env, t: Tree, k: Level, f: Flags, q: nat)
    ensures Reading(env, t, k, f, q).Ok? ==> Reading(env, t, k, f, q).value.pos == q
  {
    hide AsText, AsNumber;
  }

  lemma {:induction false} TightText(env: Env, t: Tree, skip: bool, raw: bool)
    requires t.Bin? && LevelOf(t) > 5
    ensures var x, y := AsText(env, t.l, skip, raw), AsText(env, t.r, skip, raw);
            AsText(env, t, skip, raw) ==
            if x.Err? then x
            else if y.Err? then y
            else if skip && t.op != Shl && t.op != Shr then Ok(PutN(Skipped(t.op)))
            else Worked(t.op, x.value, y.value)
  {
    hide Worked, AsInt, PutN;
  }

  lemma {:induction false} LeftFails(env: Env, t: Tree, ws: seq<string>, p: nat, f: Flags, m: nat, q: nat)
    requires t.Bin? && p <= |ws| && Exp(env, LevelOf(t) + 1, ws, p, f).Err?
    requires Exp(env, LevelOf(t) + 1, ws, p, f) == Reading(env, t.l, LevelOf(t) + 1, f, m)
    ensures Exp(env, LevelOf(t), ws, p, f) == Reading(env, t, LevelOf(t), f, q)
  {
    hide Exp6, OpAt, Finish, Bare, PutN, Meaning, Worked, AsText;
    if LevelOf(t) > 5 {
      TightText(env, t, f.ign, f.noglob);
    } else {
      assert AsNumber(env, t, f.ign, f.noglob) == AsInt(env, t.op, t.l, t.r, f.ign, f.noglob);
    }
  }

  /** A level with its operator. */
  lemma {:induction false} ExpBin(env: Env, k: Level, ws: seq<string>, p: nat, f: Flags, op: Op, n: nat)
    requires p <= |ws| && k < 10 && Exp(env, k + 1, ws, p, f).Ok?
    requires OpAt(k, ws, Exp(env, k + 1, ws, p, f).value.pos) == Some((op, n))
    ensures var left := Exp(env, k + 1, ws, p, f).value;
            var right := Exp(env, RightLevel(k), ws, left.pos + n, RightFlags(op, f, LeftInt(left.val)));
            && (right.Ok? ==> if OnInts(op) then left.val.Int? && right.value.val.Int?
                              else left.val.Text? && right.value.val.Text?)
            && Exp(env, k, ws, p, f) == Finish(env, op, f, left.val, right)
  {
    hide Exp6, Finish, Bare, OpAt, RightFlags;
  }

  /** Two readings make the reading of the operator. */
  lemma {:induction false} Joins(env: Env, t: Tree, f: Flags, left: Out, right: Out, m: nat, q: nat)
    requires t.Bin? && left.Ok? && left == Reading(env, t.l, LevelOf(t) + 1, f, m)
    requires right == Reading(env, t.r, RightLevel(LevelOf(t)), RightFlags(t.op, f, LeftInt(left.value.val)), q)
    requires right.Ok? ==> if OnInts(t.op) then left.value.val.Int? && right.value.val.Int?
                           else left.value.val.Text? && right.value.val.Text?
    ensures Finish(env, t.op, f, left.value.val, right) == Reading(env, t, LevelOf(t), f, q)
  {
    hide PutN, Meaning, Worked, Logic, OnWords, AsText;
    if LevelOf(t) < 5 {
      assert AsNumber(env, t, f.ign, f.noglob) == AsInt(env, t.op, t.l, t.r, f.ign, f.noglob);
      var g := RightFlags(t.op, f, left.value.val.n);
      assert AsNumber(env, t.l, f.ign, f.noglob) == Ok(left.value.val.n);
      assert right == Reading(env, t.r, RightLevel(LevelOf(t)), g, q);
      if right.Ok? { LogicMeans(t.op, left.value.val.n, right.value.val.n); }
    } else if LevelOf(t) > 5 {
      TightText(env, t, f.ign, f.noglob);
      if right.Ok? { WordsMean(t.op, f.ign, left.value.val.s, right.value.val.s); }
    } else {
      assert AsNumber(env, t, f.ign, f.noglob) == AsInt(env, t.op, t.l, t.r, f.ign, f.noglob);
    }
  }

  // ---------- operands ----------

  lemma {:induction false} ReadsPrimary(env: Env, t: Tree, ws: seq<string>, p: nat, f: Flags)
    requires Sound(t) && At(ws, p, Print(t, 10)) && p + |Print(t, 10)| <= |ws|
    requires Follows(t, 10, ws, p + |Print(t, 10)|)
    ensures Exp6(env, ws, p, f) == Reading(env, t, 10, f, p + |Print(t, 10)|)
    decreases t, 0, 20
  {
    hide Exp6, Reading, At;
    match t
    case Word(w) => ReadsWord(env, w, ws, p, f);
    case Test(w, name) => ReadsTest(env, w, name, ws, p, f);
    case Braces(cmd) => ReadsBraces(env, cmd, ws, p, f);
    case Nothing => ReadsNothing(env, ws, p, f);
    case Not(u) => ReadsPrefix(env, t, u, ws, p, f);
    case Flip(u) => ReadsPrefix(env, t, u, ws, p, f);
    case Group(u, close) => ReadsGroup(env, t, ws, p, f);
    case Bin(op, l, r) => ReadsParen(env, t, ws, p, f);
  }

  lemma {:induction false} OperatorWordIs(w: string)
    ensures OperatorWord(w) <==> IsOperator(w)
  {
  }

  lemma {:induction false} TestWordIs(w: string)
    ensures TestWord(w) <==> IsInquiry(w)
  {
  }

  lemma {:induction false} ReadsWord(env: Env, w: string, ws: seq<string>, p: nat, f: Flags)
    requires Ordinary(w) && At(ws, p, [w]) && p + 1 <= |ws|
    ensures Exp6(env, ws, p, f) == Reading(env, Word(w), 10, f, p + 1)
  {
    OperatorWordIs(w);
    TestWordIs(w);
    assert ws[p] == w && w != "!" && w != "~" && w != "(";
    hide IsOperator, IsInquiry, At, Exp, Inquire, BraceEnd, OperatorWord, TestWord;
  }

  lemma {:induction false} ReadsTest(env: Env, w: string, name: string, ws: seq<string>, p: nat, f: Flags)
    requires TestWord(w) && At(ws, p, [w, name]) && p + 2 <= |ws|
    ensures Exp6(env, ws, p, f) == Reading(env, Test(w, name), 10, f, p + 2)
  {
    hide IsOperator, At, Exp, Exp6, BraceEnd, OperatorWord, PutN, IsInquiry, TestWord;
    assert [w, name] == [w] + [name];
    AtHead(ws, p, w, [name]);
    AtFirst(ws, p + 1, [name]);
    OperatorWordIs(name);
    TestWordIs(w);
    NoOperator(w);
    TestStep(env, ws, p, f);
  }

  lemma {:induction false} NoOperator(w: string)
    requires TestWord(w)
    ensures !IsOperator(w) && w != "!" && w != "~" && w != "(" && w != "{" && |w| > 1
  {
  }

  lemma {:induction false} TestStep(env: Env, ws: seq<string>, p: nat, f: Flags)
    requires p < |ws| && IsInquiry(ws[p]) && !IsOperator(ws[p])
    requires ws[p] != "!" && ws[p] != "~" && ws[p] != "(" && ws[p] != "{"
    ensures Exp6(env, ws, p, f) == Inquire(env, ws, p, f)
  {
    hide IsOperator, IsInquiry, Exp, BraceEnd, Inquire;
  }

  lemma {:induction false} ReadsBraces(env: Env, cmd: seq<string>, ws: seq<string>, p: nat, f: Flags)
    requires "}" !in cmd && At(ws, p, ["{"] + cmd + ["}"]) && p + |cmd| + 2 <= |ws|
    ensures Exp6(env, ws, p, f) == Reading(env, Braces(cmd), 10, f, p + |cmd| + 2)
  {
    hide At, Exp, Exp6, BraceEnd, PutN;
    var q := p + 1 + |cmd|;
    AtSplit(ws, p, ["{"] + cmd, ["}"]);
    AtHead(ws, p, "{", cmd);
    AtFirst(ws, q, ["}"]);
    AtBody(ws, p + 1, cmd);
    BraceFound(ws, p + 1, q);
    BraceStep(env, ws, p, f, q);
  }

  lemma {:induction false} BraceStep(env: Env, ws: seq<string>, p: nat, f: Flags, q: nat)
    requires p < q < |ws| && ws[p] == "{" && BraceEnd(ws, p + 1) == Some(q + 1)
    ensures Exp6(env, ws, p, f) ==
            Ok(Got(Text(if f.ign then "" else PutN(Bit01(env.run(ws[p + 1..q]) == 0))), q + 1))
  {
    hide Exp, BraceEnd, PutN;
  }

  lemma {:induction false} AtBody(ws: seq<string>, p: nat, x: seq<string>)
    requires At(ws, p, x)
    ensures p + |x| <= |ws| && ws[p..p + |x|] == x && forall k | p <= k < p + |x| :: ws[k] in x
  {
    AtBound(ws, p, x);
    forall k | 0 <= k < |x| ensures ws[p + k] == x[k] { AtIndex(ws, p, x, k); }
    forall k | p <= k < p + |x| ensures ws[k] in x { assert ws[p + (k - p)] == x[k - p]; }
  }

  lemma {:induction false} BraceFound(ws: seq<string>, p: nat, q: nat)
    requires p <= q < |ws| && ws[q] == "}" && forall k | p <= k < q :: ws[k] != "}"
    ensures BraceEnd(ws, p) == Some(q + 1)
    decreases q - p
  {
    if p < q { BraceFound(ws, p + 1, q); }
  }

  lemma {:induction false} ReadsNothing(env: Env, ws: seq<string>, p: nat, f: Flags)
    requires p < |ws| && EndWord(ws[p])
    ensures Exp6(env, ws, p, f) == Reading(env, Nothing, 10, f, p)
  {
    OperatorWordIs(ws[p]);
  }

  lemma {:induction false} ReadsPrefix(env: Env, t: Tree, u: Tree, ws: seq<string>, p: nat, f: Flags)
    requires (t == Not(u) || t == Flip(u)) && u < t
    requires Sound(t) && At(ws, p, Print(t, 10)) && p + |Print(t, 10)| <= |ws|
    requires Follows(t, 10, ws, p + |Print(t, 10)|)
    ensures Exp6(env, ws, p, f) == Reading(env, t, 10, f, p + |Print(t, 10)|)
    decreases t, 0, 0
  {
    hide Exp6, Reading, Prefixed, Print, EndsBare, Sound, At, EndWord;
    PrintPrefix(t, u);
    AtHead(ws, p, if t.Not? then "!" else "~", Print(u, 10));
    ReadsPrimary(env, u, ws, p + 1, f);
    PrefixStep(env, ws, p, f);
    PrefixMeans(env, t, u, f, p + |Print(t, 10)|);
  }

  lemma {:induction false} PrintPrefix(t: Tree, u: Tree)
    requires t == Not(u) || t == Flip(u)
    ensures Print(t, 10) == [if t.Not? then "!" else "~"] + Print(u, 10)
    ensures (Sound(t) <==> Sound(u)) && (EndsBare(t, 10) <==> EndsBare(u, 10))
  {
  }

  lemma {:induction false} PrefixStep(env: Env, ws: seq<string>, p: nat, f: Flags)
    requires p < |ws| && (ws[p] == "!" || ws[p] == "~")
    ensures Exp6(env, ws, p, f) == Prefixed(ws[p] == "!", Exp6(env, ws, p + 1, f))
  {
  }

  lemma {:induction false} PrefixMeans(env: Env, t: Tree, u: Tree, f: Flags, q: nat)
    requires t == Not(u) || t == Flip(u)
    ensures var r := Reading(env, u, 10, f, q);
            (r.Ok? ==> r.value.val.Text?) && Prefixed(t.Not?, r) == Reading(env, t, 10, f, q)
  {
    hide PutN, EGetN;
    var s := AsText(env, u, f.ign, f.noglob);
    if s.Ok? { NumIsRead(s.value); }
  }

  lemma {:induction false} ReadsGroup(env: Env, t: Tree, ws: seq<string>, p: nat, f: Flags)
    requires t.Group? && Sound(t) && At(ws, p, Print(t, 10)) && p + |Print(t, 10)| <= |ws|
    ensures Exp6(env, ws, p, f) == Reading(env, t, 10, f, p + |Print(t, 10)|)
    decreases t, 0, 19
  {
    hide Reading, Stops, Exp, Exp6, At, EndsBare, Print, Sound, EndWord, InParens;
    var b := Print(t.t, 0);
    var q := p + 1 + |b|;
    GroupParts(t);
    AtSplit(ws, p, ["("] + b, [t.close]);
    AtHead(ws, p, "(", b);
    AtFirst(ws, q, [t.close]);
    CloseStops(ws, q);
    Reads(env, 0, t.t, ws, p + 1, f);
    ParenMeans(env, t.t, ws, p, f, q);
    GroupText(env, t, f, q + 1);
  }

  lemma {:induction false} GroupParts(t: Tree)
    requires t.Group? && Sound(t)
    ensures Print(t, 10) == ["("] + Print(t.t, 0) + [t.close]
    ensures Sound(t.t) && |t.close| > 0 && t.close[0] == ')' && (EndsBare(t.t, 0) ==> EndWord(t.close))
  {
  }

  ghost function InParens(env: Env, t: Tree, f: Flags, q: nat): Out
  {
    match Write(AsNumber(env, t, f.ign, f.noglob)) case Ok(s) => Ok(Got(Text(s), q)) case Err(e) => Err(e)
  }

  lemma {:induction false} GroupText(env: Env, t: Tree, f: Flags, q: nat)
    requires t.Group?
    ensures Reading(env, t, 10, f, q) == InParens(env, t.t, f, q)
  {
    hide AsNumber;
  }

  lemma {:induction false} ParenMeans(env: Env, t: Tree, ws: seq<string>, p: nat, f: Flags, q: nat)
    requires p < q < |ws| && ws[p] == "(" && |ws[q]| > 0 && ws[q][0] == ')'
    requires Exp(env, 0, ws, p + 1, f) == Reading(env, t, 0, f, q)
    ensures Exp6(env, ws, p, f) == InParens(env, t, f, q + 1)
  {
    hide PutN, Exp, AsNumber;
  }

  lemma {:induction false} ReadsParen(env: Env, t: Tree, ws: seq<string>, p: nat, f: Flags)
    requires t.Bin? && Sound(t) && At(ws, p, Print(t, 10)) && p + |Print(t, 10)| <= |ws|
    ensures Exp6(env, ws, p, f) == Reading(env, t, 10, f, p + |Print(t, 10)|)
    decreases t, 0, 19
  {
    hide Reading, Body, Stops, Exp, Exp6, Print, At, Sound, EndsBare;
    var b := Body(t);
    var q := p + 1 + |b|;
    ParenPrint(t);
    AtSplit(ws, p, ["("] + b, [")"]);
    AtHead(ws, p, "(", b);
    AtFirst(ws, q, [")"]);
    CloseStops(ws, q);
    assert EndWord(")");
    Climb(env, t, ws, p + 1, f, q, 0);
    ParenMeans(env, t, ws, p, f, q);
    ParenText(env, t, f, q + 1);
  }

  lemma {:induction false} ParenPrint(t: Tree)
    requires t.Bin?
    ensures Print(t, 10) == ["("] + Body(t) + [")"]
  {
  }

  /** A tree in parentheses as a word: its number, written out; of a tree that is a word already, that word. */
  lemma {:induction false} ParenText(env: Env, t: Tree, f: Flags, q: nat)
    requires t.Bin?
    ensures Reading(env, t, 10, f, q) == InParens(env, t, f, q)
  {
    hide AsInt;
    if LevelOf(t) > 5 { TextIsNumber(env, t, f.ign, f.noglob); }
  }

  /** What a tight operator makes is a written number. */
  lemma {:induction false} TextIsNumber(env: Env, t: Tree, skip: bool, raw: bool)
    requires t.Bin? && LevelOf(t) > 5
    ensures Write(Read(AsText(env, t, skip, raw))) == AsText(env, t, skip, raw)
  {
    hide PutN, EGetN, Meaning;
    var x, y := AsText(env, t.l, skip, raw), AsText(env, t.r, skip, raw);
    if x.Ok? && y.Ok? {
      var a, b := Read(Ok(x.value)), Read(Ok(y.value));
      if skip && t.op != Shl && t.op != Shr {
        ReadWritten(Ok(Skipped(t.op)));
      } else if a.Ok? && b.Ok? {
        ArithMeans(t.op, a.value, b.value);
        ArithInRange(t.op, a.value, b.value);
        ReadWritten(Meaning(t.op, a.value, b.value));
      }
      if t.op == Divide || t.op == Modulo { ByZero(t.op); }
    }
  }

  lemma {:induction false} ArithInRange(op: Op, a: int, b: int)
    ensures Arith(op, a, b).Ok? ==> InRange(Arith(op, a, b).value)
  {
  }

  /** Inside parentheses the tree is read from the loosest level down to its own. */
  lemma {:induction false} Climb(env: Env, t: Tree, ws: seq<string>, p: nat, f: Flags, q: nat, k: Level)
    requires t.Bin? && Sound(t) && At(ws, p, Body(t)) && q == p + |Body(t)| <= |ws|
    requires k <= LevelOf(t) && Stops(ws, q, k) && Follows(t, LevelOf(t), ws, q)
    ensures Exp(env, k, ws, p, f) == Reading(env, t, k, f, q)
    decreases t, 0, 1 + 10 - k
  {
    hide Exp, At, Stops, Reading, Body, EndsBare, EndWord;
    if k == LevelOf(t) {
      ReadsBin(env, t, ws, p, f);
    } else {
      StopsTighter(ws, q, k);
      Climb(env, t, ws, p, f, q, k + 1);
      PassUp(env, k, t, ws, p, f, q);
    }
  }

  /**
   * Evaluating the printed words of any expression gives its value, or exactly the error its evaluation runs
   * into, with the cursor at the end.
   */
  lemma {:induction false} PrintThenEvaluate(env: Env, t: Tree)
    requires Sound(t) && !EndsBare(t, 0)
    ensures Expr(env, Print(t, 0), 0) ==
            match AsNumber(env, t, false, false) { case Err(e) => Err(e) case Ok(v) => Ok(Got(Int(v), |Print(t, 0)|)) }
  {
    hide Exp, Print, Stops, At, AsNumber, EndsBare;
    var ws := Print(t, 0);
    AtWhole(ws, 0);
    assert ws[0..] == ws;
    EndStops(ws);
    Reads(env, 0, t, ws, 0, Flags(false, false));
  }

  lemma {:induction false} EndStops(ws: seq<string>)
    ensures Stops(ws, |ws|, 0)
  {
  }
}
