/** Words that are no expression: which error they give. */
module ExprErrors {
  import opened Wrappers
  import opened Sequences
  import opened ExprEval
  import opened ExprRoundTrip

  /** At the end of the words every level misses its operand. */
  lemma {:induction false} EndOfWords(env: Env, k: Level, ws: seq<string>, f: Flags)
    ensures Exp(env, k, ws, |ws|, f) == Err(BadExpression)
    decreases 10 - k
  {
    hide OpAt, Finish, Bare;
    if k < 10 { EndOfWords(env, k + 1, ws, f); }
  }

  /** An error of a tighter level is the error of the whole. */
  lemma {:induction false} FailsUp(env: Env, j: Level, k: Level, ws: seq<string>, p: nat, f: Flags)
    requires p <= |ws| && j <= k && Exp(env, k, ws, p, f).Err?
    ensures Exp(env, j, ws, p, f) == Exp(env, k, ws, p, f)
    decreases k - j
  {
    hide OpAt, Finish, Bare, Exp6;
    if j < k { FailsUp(env, j + 1, k, ws, p, f); }
  }

  /** An expression that ends with an operator, its left operand in order. */
  lemma {:induction false} EndsEarly(env: Env, op: Op, l: Tree)
    requires Sound(l) && (EndsBare(l, LevelOfOp(op) + 1) ==> OperatorWord(OpWords(op)[0]))
    requires Reading(env, l, LevelOfOp(op) + 1, Flags(false, false), 0).Ok?
    ensures Expr(env, Print(l, LevelOfOp(op) + 1) + OpWords(op), 0) == Err(BadExpression)
  {
    hide Exp, Print, OpWords, Stops, At, OpAt, Finish, Reading, Sound, EndsBare;
    var k, f, x, o := LevelOfOp(op), Flags(false, false), Print(l, LevelOfOp(op) + 1), OpWords(op);
    var ws := x + o;
    AtWhole(ws, 0);
    assert ws[0..] == ws;
    AtSplit(ws, 0, x, o);
    assert At(ws, |ws|, []) by { AtWhole(ws, |ws|); assert ws[|ws|..] == []; }
    OpWordEnds(op);
    OpPlaced(op, ws, |x|, []);
    Reads(env, k + 1, l, ws, 0, f);
    ReadingEnds(env, l, k + 1, f, |x|);
    OkAnywhere(env, l, k + 1, f, 0, |x|);
    ExpBin(env, k, ws, 0, f, op, |o|);
    EndOfWords(env, RightLevel(k), ws, RightFlags(op, f, LeftInt(Exp(env, k + 1, ws, 0, f).value.val)));
    FinishErr(env, op, f, Exp(env, k + 1, ws, 0, f).value.val);
    FailsUp(env, 0, k, ws, 0, f);
  }

  lemma {:induction false} OkAnywhere(env: Env, t: Tree, k: Level, f: Flags, p: nat, q: nat)
    ensures Reading(env, t, k, f, p).Ok? == Reading(env, t, k, f, q).Ok?
  {
    hide AsText, AsNumber;
  }

  lemma {:induction false} FinishErr(env: Env, op: Op, f: Flags, a: Val)
    ensures Finish(env, op, f, a, Err(BadExpression)) == Err(BadExpression)
  {
  }

  /** A parenthesis that is not closed behind its expression. */
  lemma {:induction false} NotClosed(env: Env, t: Tree, rest: seq<string>, f: Flags)
    requires Sound(t) && Stops(["("] + Print(t, 0) + rest, |Print(t, 0)| + 1, 0)
    requires rest == [] || rest[0] == "" || rest[0][0] != ')'
    requires EndsBare(t, 0) ==> rest != [] && EndWord(rest[0])
    requires AsNumber(env, t, f.ign, f.noglob).Ok?
    ensures Exp6(env, ["("] + Print(t, 0) + rest, 0, f) == Err(BadExpression)
  {
    hide Exp, Print, Stops, At, AsNumber, Sound, EndsBare, EndWord;
    var b := Print(t, 0);
    var ws, q := ["("] + b + rest, |b| + 1;
    AtWhole(ws, 0);
    assert ws[0..] == ws;
    AtSplit(ws, 0, ["("] + b, rest);
    AtHead(ws, 0, "(", b);
    if rest != [] { AtFirst(ws, q, rest); }
    Reads(env, 0, t, ws, 1, f);
  }

  /** A brace that is not closed. */
  lemma {:induction false} NoBrace(env: Env, cmd: seq<string>, f: Flags)
    requires "}" !in cmd
    ensures Exp6(env, ["{"] + cmd, 0, f) == Err(MissingBrace)
  {
    hide Exp;
    var ws := ["{"] + cmd;
    forall k | 1 <= k < |ws| ensures ws[k] != "}" { assert ws[k] == cmd[k - 1]; }
    NoBraceEnd(ws, 1);
  }

  lemma {:induction false} NoBraceEnd(ws: seq<string>, p: nat)
    requires p <= |ws| && forall k | p <= k < |ws| :: ws[k] != "}"
    ensures BraceEnd(ws, p) == None
    decreases |ws| - p
  {
    if p < |ws| { NoBraceEnd(ws, p + 1); }
  }

  /** A file test without a name. */
  lemma {:induction false} NoName(env: Env, w: string, f: Flags)
    requires TestWord(w)
    ensures Exp6(env, [w], 0, f) == Err(if |w| > 2 then FileInquiry else FileName)
  {
    OperatorWordIs(w);
    TestWordIs(w);
    hide Exp, BraceEnd;
  }
}
