/**
 * The expression evaluator of bin/csh/exp.c: recursive descent over a word vector with one cursor and
 * a mode that parses without evaluating.
 *
 * The ten binary levels exp0, exp1, csh_exp2, exp2a, exp2b, exp2c, exp3, exp3a, exp4 and exp5 are
 * levels 0 to 9 here, loosest first; exp6 is level 10.
 */
module ExprEval {
  import opened Wrappers
  import opened ExprNumber

  /** IGNORE: parse only. NOGLOB: leave the word as it is. */
  datatype Flags = Flags(ign: bool, noglob: bool)

  /** The levels down to exp2c return an int, those below it a word. */
  datatype Val = Int(n: int) | Text(s: string)
  datatype Got = Got(val: Val, pos: nat)

  datatype Error = Number(e: NumberError) | BadExpression | DivByZero | ModByZero | MissingBrace
                 | FileInquiry | FileName | NoMatch

  type Out = Result<Got, Error>

  /** What lies outside: expansion of a word, file tests, commands in braces, pattern matching. */
  datatype Env = Env(glob: string -> Option<string>, found: string -> bool, test: (char, string) -> bool,
                     run: seq<string> -> int, matches: (string, string) -> bool)

  datatype Op = OrOr | AndAnd | BitOr | BitXor | BitAnd | EqEq | NotEq | EqMatch | NotEqMatch
              | Gt | Ge | Lt | Le | Shl | Shr | Plus | Minus | Times | Divide | Modulo

  /** Operators that work on ints, and those that compare words. */
  predicate OnInts(op: Op) { op in {OrOr, AndAnd, BitOr, BitXor, BitAnd} }
  predicate IsEquality(op: Op) { op in {EqEq, NotEq, EqMatch, NotEqMatch} }

  type Level = k: int | 0 <= k <= 10

  // ---------- isa ----------

  predicate IsAdd(w: string) { w == "+" || w == "-" }
  predicate IsMul(w: string) { w == "*" || w == "/" || w == "%" }

  predicate IsOperator(w: string)
  {
    || IsAdd(w) || IsMul(w)
    || w == "(" || w == ")" || w == "!" || w == "~" || w == "^" || w == "\""
    || w == "|&" || w == "<<" || w == ">>"
    || w == "==" || w == "=~" || w == "!=" || w == "!~"
    || (w != "" && (w[0] == '<' || w[0] == '>'))
  }

  /** The operator a level looks for at q, with the number of words it takes. */
  function OpAt(k: Level, ws: seq<string>, q: nat): (r: Option<(Op, nat)>)
    requires q <= |ws|
    ensures r.Some? ==> q + r.value.1 <= |ws| && r.value.1 > 0
    ensures r.Some? ==> k < 10 && (OnInts(r.value.0) <==> k < 5)
    ensures r.Some? ==> (IsEquality(r.value.0) <==> k == 5)
  {
    if q == |ws| then None
    else
      var w := ws[q];
      if k == 0 then if w == "||" then Some((OrOr, 1)) else None
      else if k == 1 then if w == "&&" then Some((AndAnd, 1)) else None
      else if k == 2 then if w == "|" then Some((BitOr, 1)) else None
      else if k == 3 then if w == "^" then Some((BitXor, 1)) else None
      else if k == 4 then if w == "&" then Some((BitAnd, 1)) else None
      else if k == 5 then
        if w == "==" then Some((EqEq, 1))
        else if w == "=~" then Some((EqMatch, 1))
        else if w == "!=" then Some((NotEq, 1))
        else if w == "!~" then Some((NotEqMatch, 1))
        else None
      else if k == 6 then
        var eq := q + 1 < |ws| && ws[q + 1] == "=";
        if w != "" && w[0] == '<' then Some(if eq then (Le, 2) else (Lt, 1))
        else if w != "" && w[0] == '>' then Some(if eq then (Ge, 2) else (Gt, 1))
        else None
      else if k == 7 then
        if |w| > 1 && w[0] == '<' && w[1] == '<' then Some((Shl, 1))
        else if |w| > 1 && w[0] == '>' && w[1] == '>' then Some((Shr, 1))
        else None
      else if k == 8 then if w == "+" then Some((Plus, 1)) else if w == "-" then Some((Minus, 1)) else None
      else if k == 9 then
        if w == "*" then Some((Times, 1)) else if w == "/" then Some((Divide, 1))
        else if w == "%" then Some((Modulo, 1)) else None
      else None
  }

  /** Mode of the right operand: skipped when the left one already decides. */
  function RightFlags(op: Op, f: Flags, left: int): Flags
  {
    match op
    case OrOr => Flags(f.ign || left != 0, false)
    case AndAnd => Flags(f.ign || left == 0, false)
    case EqMatch => f.(noglob := true)
    case NotEqMatch => f.(noglob := true)
    case _ => f
  }

  /** The number isa gives a comparison, which comes out instead of a result when ignoring. */
  function Code(op: Op): int
  {
    match op
    case EqEq => 1
    case NotEq => 6
    case EqMatch => 7
    case NotEqMatch => 8
    case Gt => 2
    case Ge => 3
    case Lt => 4
    case Le => 5
    case _ => 0
  }

  /** The lowest n bits of a bitwise operator, from the last one on. */
  function Bitwise(op: Op, x: nat, y: nat, n: nat): nat
    decreases n
  {
    if n == 0 then 0
    else
      var a, b := x % 2, y % 2;
      var c := if op == BitOr then a + b - a * b else if op == BitXor then (a + b) % 2 else a * b;
      c + 2 * Bitwise(op, x / 2, y / 2, n - 1)
  }

  function Logic(op: Op, a: int, b: int): int
  {
    match op
    case OrOr => Truth(a != 0 || b != 0)
    case AndAnd => Truth(a != 0 && b != 0)
    case _ => Wrap(Bitwise(op, a % MODULUS, b % MODULUS, 32))
  }

  function Arith(op: Op, a: int, b: int): Result<int, Error>
  {
    match op
    case Gt => Ok(Truth(a > b))
    case Ge => Ok(Truth(a >= b))
    case Lt => Ok(Truth(a < b))
    case Le => Ok(Truth(a <= b))
    case Shl => Ok(ShiftLeft(a, b))
    case Shr => Ok(ShiftRight(a, b))
    case Plus => Ok(Wrap(a + b))
    case Minus => Ok(Wrap(a - b))
    case Times => Ok(Wrap(a * b))
    case Divide => if b == 0 then Err(DivByZero) else Ok(Quotient(a, b))
    case _ => if b == 0 then Err(ModByZero) else Ok(Remainder(a, b))
  }

  function Num(s: string): (r: Result<int, Error>)
    ensures r.Ok? ==> InRange(r.value)
    ensures r.Err? ==> r.error.Number?
  {
    match EGetN(s) case Ok(n) => Ok(n) case Err(e) => Err(Number(e))
  }

  function Compare(env: Env, op: Op, a: string, b: string): int
  {
    match op
    case EqEq => Truth(a == b)
    case NotEq => Truth(a != b)
    case EqMatch => Truth(env.matches(a, b))
    case _ => Truth(!env.matches(a, b))
  }

  /** Two words under a comparison or arithmetic operator. Only shifts are computed when ignoring. */
  function OnWords(op: Op, ign: bool, a: string, b: string): Result<string, Error>
  {
    if ign && op != Shl && op != Shr then Ok(PutN(Code(op)))
    else
      var x, y := Num(a), Num(b);
      if op == Divide || op == Modulo then
        // the right operand is read first and must not be zero
        if y.Err? then Err(y.error)
        else if y.value == 0 then Err(if op == Divide then DivByZero else ModByZero)
        else if x.Err? then Err(x.error)
        else Put(Arith(op, x.value, y.value))
      else if x.Err? then Err(x.error)
      else if y.Err? then Err(y.error)
      else Put(Arith(op, x.value, y.value))
  }

  function Put(r: Result<int, Error>): Result<string, Error>
  {
    match r case Ok(n) => Ok(PutN(n)) case Err(e) => Err(e)
  }

  // ---------- exp0 to exp6 ----------

  /** The value a level makes of its two operands. */
  function Combine(env: Env, op: Op, f: Flags, a: Val, b: Val): (r: Result<Val, Error>)
    requires if OnInts(op) then a.Int? && b.Int? else a.Text? && b.Text?
    ensures r.Ok? ==> (r.value.Text? <==> !OnInts(op) && !IsEquality(op))
  {
    match op
    case OrOr => Ok(Int(Logic(op, a.n, b.n)))
    case AndAnd => Ok(Int(Logic(op, a.n, b.n)))
    case BitOr => Ok(Int(Logic(op, a.n, b.n)))
    case BitXor => Ok(Int(Logic(op, a.n, b.n)))
    case BitAnd => Ok(Int(Logic(op, a.n, b.n)))
    case EqEq => Ok(Int(if f.ign then Code(op) else Compare(env, op, a.s, b.s)))
    case NotEq => Ok(Int(if f.ign then Code(op) else Compare(env, op, a.s, b.s)))
    case EqMatch => Ok(Int(if f.ign then Code(op) else Compare(env, op, a.s, b.s)))
    case NotEqMatch => Ok(Int(if f.ign then Code(op) else Compare(env, op, a.s, b.s)))
    case _ => match OnWords(op, f.ign, a.s, b.s) case Ok(s) => Ok(Text(s)) case Err(e) => Err(e)
  }

  /** Both operands are read: their value, at the end of the second. */
  function Finish(env: Env, op: Op, f: Flags, a: Val, right: Out): (r: Out)
    requires right.Ok? ==> (if OnInts(op) then a.Int? && right.value.val.Int? else a.Text? && right.value.val.Text?)
    ensures right.Err? ==> r == right
    ensures r.Ok? ==> right.Ok? && r.value.pos == right.value.pos
    ensures r.Ok? ==> (r.value.val.Text? <==> !OnInts(op) && !IsEquality(op))
  {
    if right.Err? then right
    else
      var v := Combine(env, op, f, a, right.value.val);
      if v.Err? then Err(v.error) else Ok(Got(v.value, right.value.pos))
  }

  /** No operator of this level: the operand passes, and exp2c turns it into a number, also when ignoring. */
  function Bare(k: Level, left: Got): (r: Out)
    requires k < 5 ==> left.val.Int?
    requires k >= 5 ==> left.val.Text?
    ensures r.Ok? ==> r.value.pos == left.pos && (r.value.val.Int? <==> k <= 5)
    ensures r.Err? ==> k == 5 && r.error.Number?
  {
    if k != 5 then Ok(left)
    else
      var n := Num(left.val.s);
      if n.Err? then Err(n.error) else Ok(Got(Int(n.value), left.pos))
  }

  function RightLevel(k: Level): (r: Level)
    ensures r <= 10
  {
    if k == 5 then 6 else k
  }

  function LeftInt(a: Val): int { if a.Int? then a.n else 0 }

  /** Each level reads an operand of the next one and, after its operator, one of its own level; the
      equality level reads a second operand of the next one instead and stops. */
  function Exp(env: Env, k: Level, ws: seq<string>, p: nat, f: Flags): (r: Out)
    requires p <= |ws|
    ensures r.Ok? ==> p <= r.value.pos <= |ws| && (r.value.val.Int? <==> k <= 5)
    decreases |ws| - p, 1, 10 - k
  {
    if k == 10 then Exp6(env, ws, p, f)
    else
      var left := Exp(env, k + 1, ws, p, f);
      if left.Err? then left
      else
        var a, q := left.value.val, left.value.pos;
        match OpAt(k, ws, q)
        case Some((op, n)) =>
          Finish(env, op, f, a, Exp(env, RightLevel(k), ws, q + n, RightFlags(op, f, LeftInt(a))))
        case None => Bare(k, left.value)
  }

  /** The position after the closing brace. */
  function BraceEnd(ws: seq<string>, p: nat): (r: Option<nat>)
    requires p <= |ws|
    ensures r.Some? ==> p < r.value <= |ws|
    decreases |ws| - p
  {
    if p == |ws| then None else if ws[p] == "}" then Some(p + 1) else BraceEnd(ws, p + 1)
  }

  predicate IsInquiry(w: string) { |w| > 1 && w[0] == '-' && w[1] in "erwxfdzopls" }

  /** ! and ~ on what follows. */
  function Prefixed(bang: bool, r: Out): (o: Out)
    requires r.Ok? ==> r.value.val.Text?
    ensures o.Ok? ==> r.Ok? && o.value.pos == r.value.pos && o.value.val.Text?
    ensures o.Err? ==> o == r || o.error.Number?
  {
    if r.Err? then r
    else
      var n := Num(r.value.val.s);
      if n.Err? then Err(n.error)
      else Ok(Got(Text(PutN(if bang then Truth(n.value == 0) else -n.value - 1)), r.value.pos))
  }

  function Exp6(env: Env, ws: seq<string>, p: nat, f: Flags): (r: Out)
    requires p <= |ws|
    ensures r.Ok? ==> p <= r.value.pos <= |ws| && r.value.val.Text?
    decreases |ws| - p, 0
  {
    if p == |ws| then Err(BadExpression)
    else if ws[p] == "!" || ws[p] == "~" then Prefixed(ws[p] == "!", Exp6(env, ws, p + 1, f))
    else if ws[p] == "(" then
      var r := Exp(env, 0, ws, p + 1, f);
      if r.Err? then r
      else
        var q := r.value.pos;
        if q == |ws| || ws[q] == "" || ws[q][0] != ')' then Err(BadExpression)
        else Ok(Got(Text(PutN(r.value.val.n)), q + 1))
    else if ws[p] == "{" then
      match BraceEnd(ws, p + 1)
      case None => Err(MissingBrace)
      case Some(q) =>
        if f.ign then Ok(Got(Text(""), q)) else Ok(Got(Text(PutN(Truth(env.run(ws[p + 1..q - 1]) == 0))), q))
    else if IsOperator(ws[p]) then Ok(Got(Text(""), p))
    else if IsInquiry(ws[p]) then Inquire(env, ws, p, f)
    else if f.noglob then Ok(Got(Text(ws[p]), p + 1))
    else
      match env.glob(ws[p])
      case Some(w) => Ok(Got(Text(w), p + 1))
      case None => Err(NoMatch)
  }

  /** A file test: a name that looks like an operator must exist. */
  function Inquire(env: Env, ws: seq<string>, p: nat, f: Flags): (r: Out)
    requires p < |ws| && IsInquiry(ws[p])
    ensures r.Ok? ==> r.value.pos == p + 2 <= |ws| && r.value.val.Text?
  {
    if |ws[p]| > 2 then Err(FileInquiry)
    else if p + 1 == |ws| || (IsOperator(ws[p + 1]) && !env.found(ws[p + 1])) then Err(FileName)
    else if f.ign then Ok(Got(Text(""), p + 2))
    else
      match env.glob(ws[p + 1])
      case None => Err(NoMatch)
      case Some(name) => Ok(Got(Text(PutN(Truth(env.test(ws[p][1], name)))), p + 2))
  }

  /** expr. */
  function Expr(env: Env, ws: seq<string>, p: nat): Out
    requires p <= |ws|
  {
    Exp(env, 0, ws, p, Flags(false, false))
  }

  // ---------- skipped operands ----------

  predicate ZeroError(r: Out) { r.Err? && (r.error == DivByZero || r.error == ModByZero) }

  lemma {:induction false} FinishSkipped(env: Env, op: Op, f: Flags, a: Val, right: Out)
    requires right.Ok? ==> (if OnInts(op) then a.Int? && right.value.val.Int? else a.Text? && right.value.val.Text?)
    requires f.ign && !ZeroError(right)
    ensures !ZeroError(Finish(env, op, f, a, right))
  {
  }

  /** A skipped operand never raises the division or mod error, whatever it says. */
  lemma {:induction false} SkippedNeverDivides(env: Env, k: Level, ws: seq<string>, p: nat, f: Flags)
    requires p <= |ws| && f.ign
    ensures !ZeroError(Exp(env, k, ws, p, f))
    decreases |ws| - p, 1, 10 - k
  {
    hide OpAt, Finish, Bare, Exp6;
    if k == 10 {
      SkippedPrimary(env, ws, p, f);
    } else {
      SkippedNeverDivides(env, k + 1, ws, p, f);
      var left := Exp(env, k + 1, ws, p, f);
      if left.Ok? {
        var a, q := left.value.val, left.value.pos;
        match OpAt(k, ws, q)
        case Some((op, n)) =>
          var g := RightFlags(op, f, LeftInt(a));
          SkippedNeverDivides(env, RightLevel(k), ws, q + n, g);
          FinishSkipped(env, op, f, a, Exp(env, RightLevel(k), ws, q + n, g));
        case None =>
      }
    }
  }

  lemma {:induction false} SkippedPrimary(env: Env, ws: seq<string>, p: nat, f: Flags)
    requires p <= |ws| && f.ign
    ensures !ZeroError(Exp6(env, ws, p, f))
    decreases |ws| - p, 0
  {
    hide Exp;
    if p < |ws| && (ws[p] == "!" || ws[p] == "~") {
      SkippedPrimary(env, ws, p + 1, f);
    } else if p < |ws| && ws[p] == "(" {
      SkippedNeverDivides(env, 0, ws, p + 1, f);
    }
  }

  // ---------- the cursor ----------

  predicate SameCursor(a: Out, b: Out) { a.Ok? && b.Ok? ==> a.value.pos == b.value.pos }

  /** The right operand of the operator at q, if there is one there. */
  function RightOf(env: Env, k: Level, ws: seq<string>, left: Got, f: Flags): (r: Option<Out>)
    requires left.pos <= |ws|
  {
    match OpAt(k, ws, left.pos)
    case Some((op, n)) => Some(Exp(env, RightLevel(k), ws, left.pos + n, RightFlags(op, f, LeftInt(left.val))))
    case None => None
  }

  /** Where a level below the last ends: with its right operand, or with its only one. */
  lemma {:induction false} ExpEnds(env: Env, k: Level, ws: seq<string>, p: nat, f: Flags)
    requires p <= |ws| && k < 10 && Exp(env, k, ws, p, f).Ok?
    ensures var r, left := Exp(env, k, ws, p, f), Exp(env, k + 1, ws, p, f);
            && left.Ok?
            && match RightOf(env, k, ws, left.value, f)
               case Some(right) => right.Ok? && r.value.pos == right.value.pos
               case None => r.value.pos == left.value.pos
  {
    hide OpAt, Finish, Bare, Exp6, RightFlags;
  }

  /** Evaluating and skipping end at the same word, if both end. */
  lemma {:induction false} CursorIndependent(env: Env, k: Level, ws: seq<string>, p: nat, f: Flags, g: Flags)
    requires p <= |ws|
    ensures SameCursor(Exp(env, k, ws, p, f), Exp(env, k, ws, p, g))
    decreases |ws| - p, 1, 10 - k
  {
    hide OpAt, RightFlags, Exp, RightOf;
    if k == 10 {
      CursorLast(env, ws, p, f, g);
    } else {
      CursorIndependent(env, k + 1, ws, p, f, g);
      if Exp(env, k, ws, p, f).Ok? && Exp(env, k, ws, p, g).Ok? {
        ExpEnds(env, k, ws, p, f);
        ExpEnds(env, k, ws, p, g);
        CursorRight(env, k, ws, p, f, g);
      }
    }
  }

  lemma {:induction false} CursorLast(env: Env, ws: seq<string>, p: nat, f: Flags, g: Flags)
    requires p <= |ws|
    ensures SameCursor(Exp(env, 10, ws, p, f), Exp(env, 10, ws, p, g))
    decreases |ws| - p, 1, 0, 0
  {
    hide Exp6;
    CursorPrimary(env, ws, p, f, g);
  }

  lemma {:induction false} CursorRight(env: Env, k: Level, ws: seq<string>, p: nat, f: Flags, g: Flags)
    requires p <= |ws| && k < 10 && Exp(env, k + 1, ws, p, f).Ok? && Exp(env, k + 1, ws, p, g).Ok?
    requires Exp(env, k + 1, ws, p, f).value.pos == Exp(env, k + 1, ws, p, g).value.pos
    ensures var a, b := RightOf(env, k, ws, Exp(env, k + 1, ws, p, f).value, f),
                        RightOf(env, k, ws, Exp(env, k + 1, ws, p, g).value, g);
            a.Some? == b.Some? && (a.Some? ==> SameCursor(a.value, b.value))
    decreases |ws| - p, 1, 10 - k, 0
  {
    hide Exp, RightFlags, OpAt;
    var lf, lg := Exp(env, k + 1, ws, p, f).value, Exp(env, k + 1, ws, p, g).value;
    match OpAt(k, ws, lf.pos)
    case Some((op, n)) =>
      CursorIndependent(env, RightLevel(k), ws, lf.pos + n,
                        RightFlags(op, f, LeftInt(lf.val)), RightFlags(op, g, LeftInt(lg.val)));
    case None =>
  }

  lemma {:induction false} CursorPrimary(env: Env, ws: seq<string>, p: nat, f: Flags, g: Flags)
    requires p <= |ws|
    ensures SameCursor(Exp6(env, ws, p, f), Exp6(env, ws, p, g))
    decreases |ws| - p, 0
  {
    hide Exp;
    if p < |ws| && (ws[p] == "!" || ws[p] == "~") {
      CursorPrimary(env, ws, p + 1, f, g);
    } else if p < |ws| && ws[p] == "(" {
      CursorIndependent(env, 0, ws, p + 1, f, g);
    }
  }
}
