/**
 * The loops that are open at a line of a well-nested script, against the stack of active loops: the
 * invariant that ties the two together, and the builtins that leave or repeat the innermost loop.
 */
module ScriptLoops {
  import opened Wrappers
  import opened ScriptSearch
  import opened ScriptMachine

  /** The opening lines of the open loops, innermost first. */
  ghost function LoopLines(open: seq<Open>): seq<nat>
  {
    if open == [] then []
    else if open[0].OpenLoop? then [open[0].at] + LoopLines(open[1..])
    else LoopLines(open[1..])
  }

  /** l is the stack entry of the loop opened at line o. */
  ghost predicate EntryOf(lines: seq<Line>, l: Loop, o: nat)
  {
    && o < |lines| && IsLoopLine(lines[o])
    && (if lines[o].While? then l.start == 2 * o && l.fe.None? else l.start == 2 * (o + 1) && l.fe.Some?)
    && (l.end != 0 ==> l.end % 2 == 0 && l.end > 0 && Closes(lines, o, l.end / 2 - 1))
  }

  ghost predicate StackOf(lines: seq<Line>, loops: seq<Loop>, os: seq<nat>)
  {
    |loops| == |os| && forall x | 0 <= x < |os| :: EntryOf(lines, loops[x], os[x])
  }

  /** The stack belongs to the start of line i: its open loops, and perhaps the while on line i itself. */
  ghost predicate StackAt(lines: seq<Line>, i: nat, loops: seq<Loop>)
    requires i <= |lines|
  {
    && OpenAt(lines, i).Some?
    && var os := LoopLines(OpenAt(lines, i).value);
       || StackOf(lines, loops, os)
       || (i < |lines| && lines[i].While? && StackOf(lines, loops, [i] + os))
  }

  ghost predicate Inv<S>(lines: seq<Line>, s: State<S>)
  {
    var i := s.pos / 2;
    && i <= |lines| && StackAt(lines, i, s.loops)
    && (s.pos % 2 == 1 ==> i < |lines| && (lines[i].Else? || lines[i].ElseIf?))
  }

  // ---------- open constructs ----------

  ghost predicate IsOpen(open: seq<Open>, o: nat)
  {
    exists x :: 0 <= x < |open| && open[x].at == o
  }

  /** A line leaves the nesting, adds its own construct, or drops the innermost one. */
  lemma {:induction false} NestShape(lines: seq<Line>, i: nat)
    requires 0 < i <= |lines| && OpenAt(lines, i).Some?
    ensures OpenAt(lines, i - 1).Some?
    ensures var open, before := OpenAt(lines, i).value, OpenAt(lines, i - 1).value;
            || open == before
            || (open != [] && open[0].at == i - 1 && open[1..] == before)
            || (before != [] && open == before[1..])
  {
    var open, before := OpenAt(lines, i).value, OpenAt(lines, i - 1).value;
    if |open| == |before| + 1 { assert open[1..] == before; }
  }

  /** What surrounds an open construct is what was open where it began. */
  lemma {:induction false} OuterAtOpener(lines: seq<Line>, i: nat, x: nat)
    requires i <= |lines| && OpenAt(lines, i).Some? && x < |OpenAt(lines, i).value|
    ensures var open := OpenAt(lines, i).value;
            && open[x].at < i && OpenAt(lines, open[x].at) == Some(open[x + 1..])
            && OpenAt(lines, open[x].at + 1) == Some(open[x..])
  {
    var open := OpenAt(lines, i).value;
    assert i > 0;
    hide OpenAt;
    NestShape(lines, i);
    var before := OpenAt(lines, i - 1).value;
    if open == before {
      OuterAtOpener(lines, i - 1, x);
    } else if open[0].at == i - 1 && open[1..] == before {
      if x == 0 {
        assert open[0..] == open;
      } else {
        SameOuter(open, before, x);
        OuterAtOpener(lines, i - 1, x - 1);
      }
    } else {
      SameOuter(before, open, x + 1);
      OuterAtOpener(lines, i - 1, x + 1);
    }
  }

  lemma {:induction false} SameOuter(a: seq<Open>, b: seq<Open>, x: nat)
    requires a != [] && a[1..] == b && 0 < x < |a|
    ensures a[x] == b[x - 1] && a[x..] == b[x - 1..] && a[x + 1..] == b[x..]
  {
  }

  /** A construct that closes at line j is open exactly before the lines after its opener and up to j. */
  lemma {:induction false} OpenBetween(lines: seq<Line>, o: nat, j: nat, p: nat)
    requires WellNested(lines) && Closes(lines, o, j) && p <= |lines|
    ensures OpenAt(lines, p).Some? && (IsOpen(OpenAt(lines, p).value, o) <==> o < p <= j)
  {
    OpenAtDefined(lines, p);
    OpenAtOrdered(lines, p);
    if p > j {
      ClosedForGood(lines, o, j, p);
    } else if o < p {
      OpenBackTo(lines, o, j, p);
    }
  }

  lemma {:induction false} OpenBackTo(lines: seq<Line>, o: nat, j: nat, p: nat)
    requires WellNested(lines) && Closes(lines, o, j) && o < p <= j
    ensures OpenAt(lines, p).Some? && IsOpen(OpenAt(lines, p).value, o)
    decreases j - p
  {
    OpenAtDefined(lines, p);
    OpenAtDefined(lines, p + 1);
    if p < j {
      OpenBackTo(lines, o, j, p + 1);
      var open, next := OpenAt(lines, p).value, OpenAt(lines, p + 1).value;
      var x :| 0 <= x < |next| && next[x].at == o;
      assert next[x] in open;
    }
  }

  lemma {:induction false} LoopLinesAre(open: seq<Open>, x: nat)
    requires x < |LoopLines(open)|
    ensures exists y :: 0 <= y < |open| && open[y] == OpenLoop(LoopLines(open)[x])
  {
    if open[0].OpenLoop? && x == 0 {
      assert open[0] == OpenLoop(LoopLines(open)[0]);
    } else {
      var x' := if open[0].OpenLoop? then x - 1 else x;
      LoopLinesAre(open[1..], x');
      var y :| 0 <= y < |open[1..]| && open[1..][y] == OpenLoop(LoopLines(open[1..])[x']);
      assert open[y + 1] == open[1..][y];
    }
  }

  /** Splitting at the innermost loop. */
  lemma {:induction false} InnermostLoop(open: seq<Open>) returns (ext: seq<Open>, outer: seq<Open>)
    requires LoopLines(open) != []
    ensures open == ext + [OpenLoop(LoopLines(open)[0])] + outer
    ensures Count(ToBreak, ext) == 0 && LoopLines(open)[1..] == LoopLines(outer)
  {
    if open[0].OpenLoop? {
      ext, outer := [], open[1..];
    } else {
      ext, outer := InnermostLoop(open[1..]);
      ext := [open[0]] + ext;
    }
  }

  lemma {:induction false} LoopLinesDecrease(open: seq<Open>, x: nat, y: nat)
    requires x < y < |LoopLines(open)|
    requires forall k, k' | 0 <= k < k' < |open| :: open[k].at > open[k'].at
    ensures LoopLines(open)[x] > LoopLines(open)[y]
  {
    if open[0].OpenLoop? && x == 0 {
      LoopLinesAre(open[1..], y - 1);
    } else if open[0].OpenLoop? {
      LoopLinesDecrease(open[1..], x - 1, y - 1);
    } else {
      LoopLinesDecrease(open[1..], x, y);
    }
  }

  /** Two nestings that share an open loop agree from it outwards. */
  lemma {:induction false} SharedTail(lines: seq<Line>, p: nat, x: nat, q: nat, y: nat)
    requires p <= |lines| && q <= |lines| && OpenAt(lines, p).Some? && OpenAt(lines, q).Some?
    requires x < |LoopLines(OpenAt(lines, p).value)| && y < |LoopLines(OpenAt(lines, q).value)|
    requires LoopLines(OpenAt(lines, p).value)[x] == LoopLines(OpenAt(lines, q).value)[y]
    ensures LoopLines(OpenAt(lines, p).value)[x..] == LoopLines(OpenAt(lines, q).value)[y..]
  {
    LoopTail(lines, p, x);
    LoopTail(lines, q, y);
  }

  lemma {:induction false} LoopTail(lines: seq<Line>, p: nat, x: nat)
    requires p <= |lines| && OpenAt(lines, p).Some? && x < |LoopLines(OpenAt(lines, p).value)|
    ensures var os := LoopLines(OpenAt(lines, p).value);
            os[x] < p && OpenAt(lines, os[x] + 1).Some? && LoopLines(OpenAt(lines, os[x] + 1).value) == os[x..]
  {
    var open := OpenAt(lines, p).value;
    var y := LoopSuffix(open, x);
    OuterAtOpener(lines, p, y);
  }

  lemma {:induction false} LoopSuffix(open: seq<Open>, x: nat) returns (y: nat)
    requires x < |LoopLines(open)|
    ensures y < |open| && open[y] == OpenLoop(LoopLines(open)[x]) && LoopLines(open[y..]) == LoopLines(open)[x..]
  {
    if open[0].OpenLoop? && x == 0 {
      y := 0;
      assert open[0..] == open;
    } else {
      var x' := if open[0].OpenLoop? then x - 1 else x;
      y := LoopSuffix(open[1..], x');
      y := y + 1;
      assert open[y..] == open[1..][y - 1..];
    }
  }

  lemma {:induction false} LoopLinesSkip(ext: seq<Open>, rest: seq<Open>)
    requires Count(ToBreak, ext) == 0
    ensures LoopLines(ext + rest) == LoopLines(rest)
  {
    if ext == [] {
      assert ext + rest == rest;
    } else {
      assert (ext + rest)[1..] == ext[1..] + rest;
      LoopLinesSkip(ext[1..], rest);
    }
  }

  // ---------- jumps out of and around loops ----------

  /** Every loop open at a position contains it. */
  lemma {:induction false} StackContains(lines: seq<Line>, p: nat, loops: seq<Loop>)
    requires WellNested(lines) && p <= |lines| && OpenAt(lines, p).Some?
    requires StackOf(lines, loops, LoopLines(OpenAt(lines, p).value))
    ensures forall x | 0 <= x < |loops| :: Inside(loops[x], 2 * p)
  {
    var open := OpenAt(lines, p).value;
    var os := LoopLines(open);
    forall x | 0 <= x < |loops|
      ensures Inside(loops[x], 2 * p)
    {
      LoopLinesAre(open, x);
      OpenAtOrdered(lines, p);
      assert EntryOf(lines, loops[x], os[x]);
      if loops[x].end != 0 {
        OpenBetween(lines, os[x], loops[x].end / 2 - 1, p);
      }
    }
  }

  /** Where a scan for the end of the innermost loop arrives. */
  lemma {:induction false} BreakTarget<S>(m: Meaning<S>, st: S, lines: seq<Line>, q: nat, loops: seq<Loop>)
    returns (j: nat)
    requires WellNested(lines) && q <= |lines| && OpenAt(lines, q).Some? && LoopLines(OpenAt(lines, q).value) != []
    ensures var os := LoopLines(OpenAt(lines, q).value);
            && q <= j < |lines| && Closes(lines, os[0], j)
            && Search(m, st, lines, ToBreak, q, Scan(0, 0, loops)) == Some(Found(2 * (j + 1), loops))
  {
    var os := LoopLines(OpenAt(lines, q).value);
    var ext, outer := InnermostLoop(OpenAt(lines, q).value);
    j := SearchFindsPartner(m, st, lines, ToBreak, q, Scan(0, 0, loops), ext, OpenLoop(os[0]), outer);
  }

  /** What is open after the end of the innermost loop. */
  lemma {:induction false} AfterClose(lines: seq<Line>, q: nat, j: nat)
    requires WellNested(lines) && q <= |lines| && OpenAt(lines, q).Some? && LoopLines(OpenAt(lines, q).value) != []
    requires Closes(lines, LoopLines(OpenAt(lines, q).value)[0], j)
    ensures var os := LoopLines(OpenAt(lines, q).value);
            && OpenAt(lines, j + 1).Some? && LoopLines(OpenAt(lines, j + 1).value) == os[1..]
            && os[0] < |lines| && OpenAt(lines, os[0]) == OpenAt(lines, j + 1)
            && OpenAt(lines, os[0] + 1).Some? && LoopLines(OpenAt(lines, os[0] + 1).value) == os
  {
    hide OpenAt, LoopLines;
    var open := OpenAt(lines, q).value;
    var ext, outer := InnermostLoop(open);
    assert open[|ext|] == OpenLoop(LoopLines(open)[0]);
    OuterAtOpener(lines, q, |ext|);
    assert open[|ext| + 1..] == outer && open[|ext|..] == [open[|ext|]] + outer;
    ClosePops(lines, LoopLines(open)[0], j);
    LoopOnTop(LoopLines(open)[0], outer);
    assert LoopLines(open) == [LoopLines(open)[0]] + LoopLines(open)[1..];
  }

  lemma {:induction false} LoopOnTop(o: nat, outer: seq<Open>)
    ensures LoopLines([OpenLoop(o)] + outer) == [o] + LoopLines(outer)
  {
    assert ([OpenLoop(o)] + outer)[1..] == outer;
  }

  /** A closing line leaves what was open where its construct began. */
  lemma {:induction false} ClosePops(lines: seq<Line>, o: nat, j: nat)
    requires WellNested(lines) && Closes(lines, o, j)
    ensures o < j && OpenAt(lines, j + 1) == OpenAt(lines, o) && OpenAt(lines, o).Some?
  {
    OuterAtOpener(lines, j, 0);
    OpenAtDefined(lines, j + 1);
  }

  /** toend: leaves the innermost loop, pops it and nothing else. */
  lemma {:induction false} ToEndPops<S>(m: Meaning<S>, lines: seq<Line>, s: State<S>, q: nat) returns (j: nat)
    requires WellNested(lines) && q <= |lines| && OpenAt(lines, q).Some? && s.loops != []
    requires StackOf(lines, s.loops, LoopLines(OpenAt(lines, q).value)) && (s.loops[0].end != 0 || s.pos == 2 * q)
    ensures Closes(lines, LoopLines(OpenAt(lines, q).value)[0], j)
    ensures ToEnd(m, lines, s) == Some(State(2 * (j + 1), s.loops[1..], s.store))
    ensures OpenAt(lines, j + 1).Some? && StackOf(lines, s.loops[1..], LoopLines(OpenAt(lines, j + 1).value))
  {
    hide Search, OpenAt, LoopLines;
    var os := LoopLines(OpenAt(lines, q).value);
    var l, rest := s.loops[0], s.loops[1..];
    assert EntryOf(lines, l, os[0]);
    if l.end != 0 {
      j := l.end / 2 - 1;
    } else {
      j := BreakTarget(m, s.store, lines, q, s.loops);
    }
    AfterClose(lines, q, j);
    StackContains(lines, j + 1, rest);
    assert WFree(2 * (j + 1), rest) == rest;
    if l.end == 0 {
      var loops' := s.loops[0 := l.(end := (2 * (j + 1) - 1) as nat)];
      assert loops'[1..] == rest && WFree(2 * (j + 1), loops') == WFree(2 * (j + 1), rest);
    }
  }

  /** doagain keeps the invariant. */
  lemma {:induction false} AgainKeeps<S>(m: Meaning<S>, lines: seq<Line>, s: State<S>, q: nat)
    requires WellNested(lines) && q <= |lines| && OpenAt(lines, q).Some? && s.loops != []
    requires StackOf(lines, s.loops, LoopLines(OpenAt(lines, q).value)) && (s.loops[0].end != 0 || s.pos == 2 * q)
    ensures DoAgain(m, lines, s).Some? && Inv(lines, DoAgain(m, lines, s).value)
  {
    hide ToEnd, OpenAt;
    var os := LoopLines(OpenAt(lines, q).value);
    var j := ToEndPops(m, lines, s, q);
    AfterClose(lines, q, j);
    assert EntryOf(lines, s.loops[0], os[0]);
    assert os == [os[0]] + os[1..];
    var t := DoAgain(m, lines, s).value;
    if lines[os[0]].Foreach? && t.pos == s.loops[0].start && t.loops != s.loops[1..] {
      assert forall x | 0 <= x < |os| :: EntryOf(lines, t.loops[x], os[x]) by {
        forall x | 0 <= x < |os| ensures EntryOf(lines, t.loops[x], os[x]) {
          assert EntryOf(lines, s.loops[x], os[x]);
        }
      }
    }
  }
}
