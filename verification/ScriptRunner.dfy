/** The command loop of bin/csh/csh.c on the text of a structured script. */
module ScriptRunner {
  import opened Wrappers
  import opened ScriptSearch
  import opened ScriptMachine
  import opened ScriptStructure
  import opened ScriptTheorem

  /**
   * Line after line until the input is used up: no line fails, no loop stays active, and the store is the
   * one that the script's meaning ends with.
   */
  method RunScript<S(==, !new)>(m: Meaning<S>, b: Block, st: S, ghost fuel: nat) returns (final: S, left: seq<Loop>)
    requires Legal(b, false, false, false) && Mean(m, b, st, fuel).Done?
    ensures Mean(m, b, st, fuel) == Done(Normal, final) && left == []
  {
    hide Step, Mean, Lines, Legal;
    var lines := Lines(b);
    ghost var n := ScriptRuns(m, b, st, fuel);
    ghost var end := State(2 * |lines|, [], Mean(m, b, st, fuel).store);
    var shell := new Interpreter(m, lines, st);
    while shell.pos / 2 < |lines|
      invariant shell.m == m && shell.lines == lines && Run(m, lines, shell.View(), n) == Some(end)
      decreases n
    {
      assert n > 0;
      ghost var was := shell.View();
      var ok := shell.RunLine();
      assert ok && Run(m, lines, shell.View(), n - 1) == Run(m, lines, was, n);
      n := n - 1;
    }
    if n > 0 { NoStepAtEnd(m, lines, shell.View()); }
    return shell.store, shell.whyles;
  }
}
