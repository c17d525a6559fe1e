/** Expressions over numbers alone: their words evaluate to the value of the plain arithmetic tree. */
module ExprIntegers {
  import opened Wrappers
  import opened ExprNumber
  import opened ExprEval
  import opened ExprMeaning
  import opened ExprRoundTrip

  datatype Sum = Leaf(n: int) | NotSum(t: Sum) | FlipSum(t: Sum) | BinSum(op: Op, l: Sum, r: Sum)

  function Spelled(t: Sum): Tree
  {
    match t
    case Leaf(n) => Word(PutN(n))
    case NotSum(u) => Not(Spelled(u))
    case FlipSum(u) => Flip(Spelled(u))
    case BinSum(op, l, r) => Bin(op, Spelled(l), Spelled(r))
  }

  /** Its numbers are ints, and it matches no patterns. */
  predicate Whole(t: Sum)
  {
    match t
    case Leaf(n) => InRange(n)
    case NotSum(u) => Whole(u)
    case FlipSum(u) => Whole(u)
    case BinSum(op, l, r) => op != EqMatch && op != NotEqMatch && Whole(l) && Whole(r)
  }

  /** || and && leave out what the left side decides. */
  function Eval(t: Sum): Result<int, Error>
  {
    match t
    case Leaf(n) => Ok(n)
    case NotSum(u) => var v := Eval(u); if v.Err? then v else Ok(if v.value == 0 then 1 else 0)
    case FlipSum(u) => var v := Eval(u); if v.Err? then v else Ok(-v.value - 1)
    case BinSum(op, l, r) => var a := Eval(l); if a.Err? then a else Joined(op, a.value, Eval(r))
  }

  /** x op y with y evaluated or not; || and && may not look at it. */
  function Joined(op: Op, x: int, y: Result<int, Error>): Result<int, Error>
  {
    if op == OrOr && x != 0 then Ok(1)
    else if op == AndAnd && x == 0 then Ok(0)
    else if y.Err? then y
    else Meaning(op, x, y.value)
  }

  /** Words are left alone by expansion when they are numbers. */
  ghost predicate Plain(env: Env) { forall n | InRange(n) :: env.glob(PutN(n)) == Some(PutN(n)) }

  lemma {:induction false} NumberWord(n: int)
    ensures Ordinary(PutN(n)) && PutN(n) != "="
  {
    var w := PutN(n);
    if n < 0 {
      assert w[0] == '-' && w[1] == Decimal(-n)[0] && IsDigit(w[1]);
    } else {
      assert IsDigit(w[0]);
    }
  }

  lemma {:induction false} SpelledShape(t: Sum, k: Level)
    ensures !EndsBare(Spelled(t), k) && Print(Spelled(t), k) != [] && NoEquals(Print(Spelled(t), k))
    decreases t
  {
    match t
    case Leaf(n) => NumberWord(n);
    case NotSum(u) => SpelledShape(u, 10);
    case FlipSum(u) => SpelledShape(u, 10);
    case BinSum(op, l, r) =>
      SpelledShape(l, LevelOfOp(op) + 1);
      SpelledShape(r, RightPlace(op));
  }

  lemma {:induction false} SpelledSound(t: Sum)
    ensures Sound(Spelled(t))
  {
    match t
    case Leaf(n) => NumberWord(n);
    case NotSum(u) => SpelledSound(u);
    case FlipSum(u) => SpelledSound(u);
    case BinSum(op, l, r) =>
      SpelledSound(l);
      SpelledSound(r);
      SpelledShape(l, LevelOfOp(op) + 1);
      SpelledShape(r, RightPlace(op));
  }

  /** The value as the tree gives it: a word that is the number written out. */
  ghost predicate Gives(env: Env, t: Sum, skip: bool)
  {
    var n, s := AsNumber(env, Spelled(t), skip, false), AsText(env, Spelled(t), skip, false);
    && s == Write(n) && (n.Ok? ==> InRange(n.value))
    && if skip then n.Ok? else n == Eval(t)
  }

  lemma {:induction false} SumGives(env: Env, t: Sum, skip: bool)
    requires Plain(env) && Whole(t)
    ensures Gives(env, t, skip)
  {
    hide AsText, AsNumber, Gives, Eval, PutN;
    match t
    case Leaf(n) => LeafGives(env, n, skip);
    case NotSum(u) =>
      SumGives(env, u, skip);
      PrefixGives(env, t, u, skip);
    case FlipSum(u) =>
      SumGives(env, u, skip);
      PrefixGives(env, t, u, skip);
    case BinSum(op, l, r) =>
      SumGives(env, l, skip);
      SumGives(env, r, skip);
      SumGives(env, r, true);
      if LevelOfOp(op) < 5 {
        LogicGives(env, t, skip);
      } else if LevelOfOp(op) == 5 {
        EqualGives(env, t, skip);
      } else {
        ArithGives(env, t, skip);
      }
  }

  lemma {:induction false} LeafGives(env: Env, n: int, skip: bool)
    requires Plain(env) && InRange(n)
    ensures Gives(env, Leaf(n), skip)
  {
    hide PutN, EGetN;
    ReadWritten(Ok(n));
  }

  lemma {:induction false} PrefixGives(env: Env, t: Sum, u: Sum, skip: bool)
    requires (t == NotSum(u) || t == FlipSum(u)) && Gives(env, u, skip)
    ensures Gives(env, t, skip)
  {
    hide PutN, EGetN, AsText, AsNumber, Read, Write;
    var n := AsNumber(env, Spelled(u), skip, false);
    ReadWritten(n);
    var v: Result<int, Error> :=
      if n.Err? then n else Ok(if t.NotSum? then if n.value == 0 then 1 else 0 else -1 - n.value);
    ReadWritten(v);
    PrefixText(env, t, u, skip, n, v);
  }

  lemma {:induction false} PrefixText(env: Env, t: Sum, u: Sum, skip: bool, n: Result<int, Error>,
                                      v: Result<int, Error>)
    requires (t == NotSum(u) || t == FlipSum(u)) && Read(AsText(env, Spelled(u), skip, false)) == n
    requires v == if n.Err? then n else Ok(if t.NotSum? then if n.value == 0 then 1 else 0 else -1 - n.value)
    ensures AsText(env, Spelled(t), skip, false) == Write(v) && AsNumber(env, Spelled(t), skip, false) == Read(Write(v))
  {
    hide PutN, EGetN;
    var s := AsText(env, Spelled(u), skip, false);
    assert s.Err? ==> n == Err(s.error);
  }

  lemma {:induction false} LogicGives(env: Env, t: Sum, skip: bool)
    requires t.BinSum? && LevelOfOp(t.op) < 5 && Gives(env, t.l, skip) && Gives(env, t.r, skip) && Gives(env, t.r, true)
    ensures Gives(env, t, skip)
  {
    hide PutN, EGetN, Meaning, AsText, Logic;
    var s := Spelled(t);
    IntInRange(env, t.op, s.l, s.r, skip, false);
    LooseText(env, s, skip, false);
    var a := AsNumber(env, s.l, skip, false);
    assert AsNumber(env, s, skip, false) == AsInt(env, t.op, s.l, s.r, skip, false);
    if a.Ok? {
      var decided := (t.op == OrOr && a.value != 0) || (t.op == AndAnd && a.value == 0);
      var b := AsNumber(env, s.r, skip || decided, false);
      if b.Ok? { LogicMeans(t.op, a.value, b.value); }
      if decided && b.Ok? { Decided(t.op, a.value, b.value); }
    }
  }

  lemma {:induction false} Decided(op: Op, a: int, b: int)
    requires (op == OrOr && a != 0) || (op == AndAnd && a == 0)
    ensures Meaning(op, a, b) == Ok(if op == OrOr then 1 else 0)
  {
  }

  lemma {:induction false} EqualGives(env: Env, t: Sum, skip: bool)
    requires t.BinSum? && (t.op == EqEq || t.op == NotEq) && Gives(env, t.l, skip) && Gives(env, t.r, skip)
    ensures Gives(env, t, skip)
  {
    hide PutN, EGetN, AsText;
    var s := Spelled(t);
    IntInRange(env, t.op, s.l, s.r, skip, false);
    LooseText(env, s, skip, false);
    var a, b := AsNumber(env, s.l, skip, false), AsNumber(env, s.r, skip, false);
    assert AsNumber(env, s, skip, false) == AsInt(env, t.op, s.l, s.r, skip, false);
    if a.Ok? && b.Ok? { PutNInjective(a.value, b.value); }
  }

  lemma {:induction false} ArithGives(env: Env, t: Sum, skip: bool)
    requires t.BinSum? && LevelOfOp(t.op) > 5 && Gives(env, t.l, skip) && Gives(env, t.r, skip)
    ensures Gives(env, t, skip)
  {
    hide PutN, EGetN, AsText, Meaning;
    var s := Spelled(t);
    var a, b := AsNumber(env, s.l, skip, false), AsNumber(env, s.r, skip, false);
    TightText(env, s, skip, false);
    TextIsNumber(env, s, skip, false);
    ReadWritten(a);
    ReadWritten(b);
    if a.Ok? && b.Ok? {
      ArithMeans(t.op, a.value, b.value);
      ArithInRange(t.op, a.value, b.value);
      ReadWritten(Meaning(t.op, a.value, b.value));
      ReadWritten(Ok(Skipped(t.op)));
      Divided(t.op, a.value, b.value);
    }
  }

  lemma {:induction false} Divided(op: Op, a: int, b: int)
    requires LevelOfOp(op) > 5
    ensures (op == Divide || op == Modulo) && b == 0 ==> Meaning(op, a, b) == Meaning(op, 0, 0)
    ensures ((op == Divide || op == Modulo) && b == 0) || Meaning(op, a, b).Ok?
  {
  }

  /** The words of an integer expression evaluate to its value, or to the error its evaluation runs into. */
  lemma {:induction false} IntegersEvaluate(env: Env, t: Sum)
    requires Plain(env) && Whole(t)
    ensures var ws := Print(Spelled(t), 0);
            Expr(env, ws, 0) == match Eval(t) { case Err(e) => Err(e) case Ok(v) => Ok(Got(Int(v), |ws|)) }
  {
    hide Expr, Print, AsNumber, AsText, Plain;
    SpelledSound(t);
    SpelledShape(t, 0);
    SumGives(env, t, false);
    PrintThenEvaluate(env, Spelled(t));
  }

  /** Operators of one level, an equality aside, group to the right: x op y op' z is x op (y op' z). */
  lemma {:induction false} ChainGroupsRight(env: Env, op: Op, op': Op, x: int, y: int, z: int)
    requires Plain(env) && InRange(x) && InRange(y) && InRange(z)
    requires LevelOfOp(op) == LevelOfOp(op') && LevelOfOp(op) != 5
    ensures var ws := [PutN(x)] + OpWords(op) + [PutN(y)] + OpWords(op') + [PutN(z)];
            Expr(env, ws, 0) == match Joined(op, x, Joined(op', y, Ok(z)))
                                case Err(e) => Err(e)
                                case Ok(v) => Ok(Got(Int(v), |ws|))
  {
    hide Expr, PutN, OpWords, Meaning, Print;
    var r := BinSum(op', Leaf(y), Leaf(z));
    var t := BinSum(op, Leaf(x), r);
    assert Whole(r);
    IntegersEvaluate(env, t);
    LeafPrint(x, LevelOfOp(op) + 1);
    LeafPrint(y, LevelOfOp(op') + 1);
    LeafPrint(z, RightPlace(op'));
    BinPrint(Spelled(r), RightPlace(op));
    BinPrint(Spelled(t), 0);
    Chained([PutN(x)], OpWords(op), [PutN(y)], OpWords(op'), [PutN(z)]);
    assert Eval(r) == Joined(op', y, Ok(z));
  }

  lemma {:induction false} Chained(a: seq<string>, b: seq<string>, c: seq<string>, d: seq<string>, e: seq<string>)
    ensures a + b + (c + d + e) == a + b + c + d + e
  {
  }

  lemma {:induction false} LeafPrint(n: int, k: Level)
    ensures Print(Spelled(Leaf(n)), k) == [PutN(n)]
  {
  }

  lemma {:induction false} BinPrint(t: Tree, k: Level)
    requires t.Bin? && k <= LevelOf(t)
    ensures Print(t, k) == Print(t.l, LevelOf(t) + 1) + OpWords(t.op) + Print(t.r, RightPlace(t.op))
  {
  }
}
