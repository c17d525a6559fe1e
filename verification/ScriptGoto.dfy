/** What a goto does to the active loops. */
module ScriptGoto {
  import opened Wrappers
  import opened ScriptSearch
  import opened ScriptMachine
  import opened ScriptLoops

  /** All ends known: each interval lies strictly inside the next one. A foreach and a while on its
      first body line share their start, so only the ends are always distinct. */
  ghost predicate StrictlyNested(loops: seq<Loop>)
  {
    forall x, y | 0 <= x < y < |loops| :: loops[y].start <= loops[x].start && 0 < loops[x].end < loops[y].end
  }

  ghost predicate SameLoops(a: seq<Loop>, b: seq<Loop>)
  {
    |a| == |b| && forall x | 0 <= x < |a| :: a[x] == b[x].(end := a[x].end)
  }

  /** The first part of gotolab finds the true end of every active loop. */
  lemma {:induction false} EndsFound<S>(m: Meaning<S>, lines: seq<Line>, q: nat, loops: seq<Loop>, st: S)
    requires WellNested(lines) && q <= |lines| && OpenAt(lines, q).Some?
    requires StackOf(lines, loops, LoopLines(OpenAt(lines, q).value))
    ensures var r := FindEnds(m, lines, 2 * q, loops, st);
            && r.Some? && SameLoops(r.value, loops)
            && StackOf(lines, r.value, LoopLines(OpenAt(lines, q).value))
            && forall x | 0 <= x < |loops| :: r.value[x].end != 0
    decreases |loops|
  {
    hide Search, OpenAt;
    if loops != [] {
      var os := LoopLines(OpenAt(lines, q).value);
      var l := loops[0];
      assert EntryOf(lines, l, os[0]);
      var j := BreakTarget(m, st, lines, q, loops);
      if l.end != 0 {
        ClosedOnce(lines, os[0], j, l.end / 2 - 1);
      }
      AfterClose(lines, q, j);
      EndsFound(m, lines, j + 1, loops[1..], st);
      var rest := FindEnds(m, lines, 2 * (j + 1), loops[1..], st).value;
      var r := [l.(end := 2 * (j + 1))] + rest;
      assert FindEnds(m, lines, 2 * q, loops, st) == Some(r);
      forall x | 0 <= x < |os|
        ensures EntryOf(lines, r[x], os[x]) && r[x].end != 0 && r[x] == loops[x].(end := r[x].end)
      {
        if x > 0 { assert EntryOf(lines, rest[x - 1], os[1..][x - 1]); }
      }
    }
  }

  /** Nested openers close in the opposite order. */
  lemma {:induction false} CloseOrder(lines: seq<Line>, q: nat, o: nat, j: nat, o': nat, j': nat)
    requires WellNested(lines) && q <= |lines| && o' < o < q && Closes(lines, o, j) && Closes(lines, o', j')
    requires OpenAt(lines, q).Some? && IsOpen(OpenAt(lines, q).value, o) && IsOpen(OpenAt(lines, q).value, o')
    ensures j < j'
  {
    OpenBetween(lines, o, j, q);
    OpenBetween(lines, o', j', q);
    if j' <= j {
      OpenBetween(lines, o, j, j');
      OpenAtOrdered(lines, j');
      assert false;
    }
  }

  lemma {:induction false} EndsNest(lines: seq<Line>, q: nat, loops: seq<Loop>)
    requires WellNested(lines) && q <= |lines| && OpenAt(lines, q).Some?
    requires StackOf(lines, loops, LoopLines(OpenAt(lines, q).value))
    requires forall x | 0 <= x < |loops| :: loops[x].end != 0
    ensures StrictlyNested(loops)
  {
    var open := OpenAt(lines, q).value;
    var os := LoopLines(open);
    OpenAtOrdered(lines, q);
    forall x, y | 0 <= x < y < |loops|
      ensures loops[y].start <= loops[x].start && 0 < loops[x].end < loops[y].end
    {
      LoopLinesDecrease(open, x, y);
      LoopLinesAre(open, x);
      LoopLinesAre(open, y);
      assert EntryOf(lines, loops[x], os[x]) && EntryOf(lines, loops[y], os[y]);
      CloseOrder(lines, q, os[x], loops[x].end / 2 - 1, os[y], loops[y].end / 2 - 1);
    }
  }

  /** wfree on strictly nested loops keeps exactly those that contain the position. */
  lemma {:induction false} WFreeFilters(pos: nat, loops: seq<Loop>) returns (k: nat)
    requires StrictlyNested(loops)
    ensures k <= |loops| && WFree(pos, loops) == loops[k..]
    ensures forall x | 0 <= x < |loops| :: Inside(loops[x], pos) <==> x >= k
  {
    if loops == [] || Inside(loops[0], pos) {
      k := 0;
    } else {
      k := WFreeFilters(pos, loops[1..]);
      k := k + 1;
    }
  }

  /** p is the start of the line after the first label of that name. */
  ghost predicate LabelledAt(lines: seq<Line>, name: nat, p: nat)
  {
    0 < p <= |lines| && lines[p - 1] == Label(name) && forall k | 0 <= k < p - 1 :: lines[k] != Label(name)
  }

  lemma {:induction false} GotoStops<S>(m: Meaning<S>, st: S, lines: seq<Line>, name: nat, i: nat, sc: Scan)
    requires sc.level == 0 && i <= |lines| && forall k | 0 <= k < i :: lines[k] != Label(name)
    ensures var r := Search(m, st, lines, ToGoto(name), i, sc);
            r.Some? ==> r.value.loops == sc.loops && r.value.pos % 2 == 0 && LabelledAt(lines, name, r.value.pos / 2)
    decreases |lines| - i
  {
    if i < |lines| && lines[i] != Label(name) {
      GotoStops(m, st, lines, name, i + 1, ScanLine(m, st, ToGoto(name), lines[i], sc));
    }
  }

  /**
   * After a goto the loop stack is the suffix of the old one whose intervals contain the target,
   * every end being known by then.
   */
  lemma {:induction false} GotoKeepsContaining<S>(m: Meaning<S>, lines: seq<Line>, name: nat, s: State<S>, q: nat,
                                                  t: State<S>)
    returns (filled: seq<Loop>, k: nat)
    requires WellNested(lines) && q <= |lines| && OpenAt(lines, q).Some? && s.pos == 2 * q
    requires StackOf(lines, s.loops, LoopLines(OpenAt(lines, q).value))
    requires GotoLab(m, lines, name, s) == Some(t)
    ensures SameLoops(filled, s.loops) && StackOf(lines, filled, LoopLines(OpenAt(lines, q).value))
    ensures StrictlyNested(filled) && (forall x | 0 <= x < |filled| :: filled[x].end != 0)
    ensures k <= |filled| && t.loops == filled[k..]
    ensures forall x | 0 <= x < |filled| :: Inside(filled[x], t.pos) <==> x >= k
    ensures t.pos % 2 == 0 && LabelledAt(lines, name, t.pos / 2) && t.store == s.store
  {
    hide Search, OpenAt;
    EndsFound(m, lines, q, s.loops, s.store);
    filled := FindEnds(m, lines, 2 * q, s.loops, s.store).value;
    EndsNest(lines, q, filled);
    GotoStops(m, s.store, lines, name, 0, Scan(0, 0, filled));
    k := WFreeFilters(t.pos, filled);
  }

  ghost predicate EntersNoLoop(lines: seq<Line>, q: nat, p: nat)
    requires p <= |lines| && q <= |lines| && OpenAt(lines, p).Some? && OpenAt(lines, q).Some?
  {
    var os, os' := LoopLines(OpenAt(lines, q).value), LoopLines(OpenAt(lines, p).value);
    forall x | 0 <= x < |os'| :: os'[x] in os
  }

  /** An entry with a known end contains the start of line p when its loop is open there, or is the while on line p. */
  lemma {:induction false} EntryInside(lines: seq<Line>, l: Loop, o: nat, p: nat)
    requires WellNested(lines) && EntryOf(lines, l, o) && l.end != 0 && p <= |lines|
    ensures OpenAt(lines, p).Some?
    ensures Inside(l, 2 * p) <==> IsOpen(OpenAt(lines, p).value, o) || (o == p && lines[o].While?)
  {
    OpenBetween(lines, o, l.end / 2 - 1, p);
    OpenAtOrdered(lines, l.end / 2 - 1);
  }

  lemma {:induction false} LoopIsListed(lines: seq<Line>, p: nat, o: nat)
    requires p <= |lines| && OpenAt(lines, p).Some? && IsOpen(OpenAt(lines, p).value, o)
    requires o < |lines| && IsLoopLine(lines[o])
    ensures o in LoopLines(OpenAt(lines, p).value)
  {
    var open := OpenAt(lines, p).value;
    var x :| 0 <= x < |open| && open[x].at == o;
    OuterAtOpener(lines, p, x);
    assert open[x] == OpenLoop(o) by {
      assert OpenAt(lines, o + 1).value[0] == open[x..][0];
    }
    Listed(open, x);
  }

  lemma {:induction false} Listed(open: seq<Open>, x: nat)
    requires x < |open| && open[x].OpenLoop?
    ensures open[x].at in LoopLines(open)
  {
    if x > 0 { Listed(open[1..], x - 1); }
  }

  /** A goto keeps the invariant exactly when it does not jump into a loop that is not active. */
  lemma {:induction false} GotoInv<S>(m: Meaning<S>, lines: seq<Line>, name: nat, s: State<S>, q: nat, t: State<S>)
    requires WellNested(lines) && q <= |lines| && OpenAt(lines, q).Some? && s.pos == 2 * q
    requires StackOf(lines, s.loops, LoopLines(OpenAt(lines, q).value))
    requires GotoLab(m, lines, name, s) == Some(t)
    ensures t.pos / 2 <= |lines| && OpenAt(lines, t.pos / 2).Some?
    ensures Inv(lines, t) <==> EntersNoLoop(lines, q, t.pos / 2)
  {
    hide OpenAt, LoopLines;
    var filled, k := GotoKeepsContaining(m, lines, name, s, q, t);
    var p := t.pos / 2;
    OpenAtDefined(lines, p);
    if EntersNoLoop(lines, q, p) {
      GotoStack(lines, q, p, filled, k);
    }
    if Inv(lines, t) {
      StackEnters(lines, q, p, filled, k);
    }
  }

  lemma {:induction false} StackEnters(lines: seq<Line>, q: nat, p: nat, filled: seq<Loop>, k: nat)
    requires WellNested(lines) && q <= |lines| && p <= |lines| && OpenAt(lines, q).Some? && OpenAt(lines, p).Some?
    requires StackOf(lines, filled, LoopLines(OpenAt(lines, q).value)) && k <= |filled|
    requires StackAt(lines, p, filled[k..])
    ensures EntersNoLoop(lines, q, p)
  {
    hide OpenAt, LoopLines, Closes;
    var os, os' := LoopLines(OpenAt(lines, q).value), LoopLines(OpenAt(lines, p).value);
    forall x | 0 <= x < |os'|
      ensures os'[x] in os
    {
      var d := if StackOf(lines, filled[k..], os') then 0 else 1;
      var all := if d == 0 then os' else [p] + os';
      assert EntryOf(lines, filled[k..][x + d], all[x + d]);
      assert EntryOf(lines, filled[k + x + d], os[k + x + d]);
    }
  }

  lemma {:induction false} GotoStack(lines: seq<Line>, q: nat, p: nat, filled: seq<Loop>, k: nat)
    requires WellNested(lines) && q <= |lines| && p <= |lines| && OpenAt(lines, q).Some? && OpenAt(lines, p).Some?
    requires StackOf(lines, filled, LoopLines(OpenAt(lines, q).value)) && k <= |filled|
    requires forall x | 0 <= x < |filled| :: filled[x].end != 0
    requires forall x | 0 <= x < |filled| :: Inside(filled[x], 2 * p) <==> x >= k
    requires EntersNoLoop(lines, q, p)
    ensures StackAt(lines, p, filled[k..])
  {
    hide OpenAt, LoopLines, Closes, IsOpen;
    var os, os' := LoopLines(OpenAt(lines, q).value), LoopLines(OpenAt(lines, p).value);
    // y is where the loops open at p begin in the old stack
    var y := |os|;
    if os' != [] {
      y :| 0 <= y < |os| && os[y] == os'[0];
      SharedTail(lines, p, 0, q, y);
      assert os'[0..] == os';
    }
    assert os[y..] == os';
    OutsideBefore(lines, q, p, filled, y);
    if k == y {
      assert filled[k..] == filled[y..];
      assert forall x | 0 <= x < |os'| :: EntryOf(lines, filled[y..][x], os'[x]) by {
        forall x | 0 <= x < |os'| ensures EntryOf(lines, filled[y..][x], os'[x]) { assert os'[x] == os[y + x]; }
      }
    } else {
      assert k < y;
      assert os[k] == p && lines[p].While?;
      if k + 1 < y {
        OpenAtOrdered(lines, q);
        LoopLinesDecrease(OpenAt(lines, q).value, k, k + 1);
      }
      assert k + 1 == y;
      var all := [p] + os';
      assert forall x | 0 <= x < |all| :: EntryOf(lines, filled[k..][x], all[x]) by {
        forall x | 0 <= x < |all| ensures EntryOf(lines, filled[k..][x], all[x]) { assert all[x] == os[k + x]; }
      }
    }
  }

  /** Old entries before y contain the start of line p only as the while on that line; later ones always do. */
  lemma {:induction false} OutsideBefore(lines: seq<Line>, q: nat, p: nat, filled: seq<Loop>, y: nat)
    requires WellNested(lines) && q <= |lines| && p <= |lines| && OpenAt(lines, q).Some? && OpenAt(lines, p).Some?
    requires StackOf(lines, filled, LoopLines(OpenAt(lines, q).value)) && y <= |filled|
    requires forall x | 0 <= x < |filled| :: filled[x].end != 0
    requires LoopLines(OpenAt(lines, q).value)[y..] == LoopLines(OpenAt(lines, p).value)
    ensures forall x | 0 <= x < y :: Inside(filled[x], 2 * p) ==>
              p < |lines| && LoopLines(OpenAt(lines, q).value)[x] == p && lines[p].While?
    ensures forall x | y <= x < |filled| :: Inside(filled[x], 2 * p)
  {
    hide OpenAt, LoopLines, Closes;
    var os, os' := LoopLines(OpenAt(lines, q).value), LoopLines(OpenAt(lines, p).value);
    OpenAtOrdered(lines, q);
    forall x | 0 <= x < |filled|
      ensures x < y && Inside(filled[x], 2 * p) ==> p < |lines| && os[x] == p && lines[p].While?
      ensures x >= y ==> Inside(filled[x], 2 * p)
    {
      assert EntryOf(lines, filled[x], os[x]);
      EntryInside(lines, filled[x], os[x], p);
      if x >= y {
        assert os[x] == os'[x - y];
        LoopLinesAre(OpenAt(lines, p).value, x - y);
      } else if IsOpen(OpenAt(lines, p).value, os[x]) {
        LoopIsListed(lines, p, os[x]);
        var z :| 0 <= z < |os'| && os'[z] == os[x];
        assert os'[z] == os[y + z];
        LoopLinesDecrease(OpenAt(lines, q).value, x, y + z);
      }
    }
  }

  // ---------- two scripts ----------

  /** A foreach and the while on its first body line, both active: they start at the same position. */
  lemma {:induction false} SameStart<S>(m: Meaning<S>, st: S)
    requires m.words(0, st) != [] && m.test(0, m.bind(0, m.words(0, st)[0], st)).0
    ensures var r := Run(m, [Foreach(0), While(0), End, End], State(0, [], st), 2);
            r.Some? && |r.value.loops| == 2 && r.value.loops[0].start == r.value.loops[1].start
  {
    var lines, s := [Foreach(0), While(0), End, End], State(0, [], st);
    var t := Step(m, lines, s).value;
    assert t.pos == 2 && |t.loops| == 1 && t.loops[0].start == 2 && t.loops[0].fe.Some?;
    var u := Step(m, lines, t).value;
    assert Run(m, lines, u, 0) == Some(u);
    assert Run(m, lines, t, 1) == Some(u);
  }

  function EnteringScript(): seq<Line> { [Plain(Goto(1)), While(0), Label(1), End] }

  /** A goto into a loop: the loop is not active there, and its end fails. */
  lemma {:induction false} GotoEntersLoop<S>(m: Meaning<S>, st: S)
    ensures var lines := EnteringScript();
            && WellNested(lines) && Inv(lines, State(0, [], st))
            && Step(m, lines, State(0, [], st)) == Some(State(6, [], st)) && !Inv(lines, State(6, [], st))
            && Step(m, lines, State(6, [], st)) == None
  {
    hide OpenAt, LoopLines, Search;
    var lines, sc := EnteringScript(), Scan(0, 0, []);
    EnteringNest();
    EnteringSearch(m, st);
  }

  lemma {:induction false} EnteringSearch<S>(m: Meaning<S>, st: S)
    ensures Search(m, st, EnteringScript(), ToGoto(1), 0, Scan(0, 0, [])) == Some(Found(6, []))
  {
    var lines, sc := EnteringScript(), Scan(0, 0, []);
    assert Search(m, st, lines, ToGoto(1), 2, sc) == Some(Found(6, []));
    assert Search(m, st, lines, ToGoto(1), 1, sc) == Some(Found(6, []));
  }

  lemma {:induction false} EnteringNest()
    ensures var lines := EnteringScript();
            && WellNested(lines) && OpenAt(lines, 0) == Some([]) && LoopLines([]) == []
            && OpenAt(lines, 3) == Some([OpenLoop(1)]) && LoopLines([OpenLoop(1)]) == [1]
  {
    var lines, open := EnteringScript(), [OpenLoop(1)];
    assert open[1..] == [] && LoopLines(open) == [1] + [];
    assert OpenAt(lines, 1) == Some([]);
    assert [OpenLoop(1)] + [] == open;
    assert OpenAt(lines, 2) == Some(open);
    assert OpenAt(lines, 3) == Some(open);
  }
}
