/**
 * What breaksw does to the active loops. Its scan pops one loop for every end it meets at wlevel 0, and
 * wlevel is how many more loops are open there than at the breaksw: the first loop left is popped, later
 * ones are not, and a loop standing after them may be popped in their place.
 */
module ScriptBreaksw {
  import opened Wrappers
  import opened ScriptSearch
  import opened ScriptMachine
  import opened ScriptLoops

  /** How many loops are open before line i. */
  ghost function Depth(lines: seq<Line>, i: nat): nat
    requires i <= |lines|
  {
    if OpenAt(lines, i).None? then 0 else |LoopLines(OpenAt(lines, i).value)|
  }

  /** The ends among the lines from i to before j at which exactly n loops are open. */
  ghost function EndsAt(lines: seq<Line>, i: nat, j: nat, n: int): nat
    requires j <= |lines|
    decreases j - i
  {
    if i >= j then 0 else (if lines[i].End? && Depth(lines, i) == n then 1 else 0) + EndsAt(lines, i + 1, j, n)
  }

  function Min(a: nat, b: nat): nat { if a < b then a else b }

  function Drop(loops: seq<Loop>, n: nat): seq<Loop> { loops[Min(n, |loops|)..] }

  /** The opening line of the innermost open switch. */
  ghost function InnerSwitch(open: seq<Open>): Option<nat>
  {
    if open == [] then None else if open[0].OpenSwitch? then Some(open[0].at) else InnerSwitch(open[1..])
  }

  lemma {:induction false} SplitAtSwitch(open: seq<Open>) returns (ext: seq<Open>, outer: seq<Open>)
    requires InnerSwitch(open).Some?
    ensures open == ext + [OpenSwitch(InnerSwitch(open).value)] + outer && Count(ToBrkSw, ext) == 0
  {
    if open[0].OpenSwitch? {
      ext, outer := [], open[1..];
    } else {
      ext, outer := SplitAtSwitch(open[1..]);
      ext := [open[0]] + ext;
    }
  }

  lemma {:induction false} LoopLinesAppend(a: seq<Open>, b: seq<Open>)
    ensures LoopLines(a + b) == LoopLines(a) + LoopLines(b)
  {
    if a == [] {
      assert a + b == b;
    } else {
      LoopLinesAppend(a[1..], b);
      assert (a + b)[1..] == a[1..] + b;
    }
  }

  lemma {:induction false} DepthStep(lines: seq<Line>, i: nat)
    requires i < |lines| && OpenAt(lines, i).Some? && OpenAt(lines, i + 1).Some?
    ensures Depth(lines, i + 1) ==
            Depth(lines, i) + (if IsLoopLine(lines[i]) then 1 else if lines[i].End? then -1 else 0)
  {
    var open, next := OpenAt(lines, i).value, OpenAt(lines, i + 1).value;
    if |next| == |open| + 1 { assert next[1..] == open; }
  }

  /** One line of the scan: the level is that of any scan, wlevel follows the depth. */
  lemma {:induction false} ScanDepth<S>(m: Meaning<S>, st: S, lines: seq<Line>, i: nat, sc: Scan, n: int,
                                        ext: seq<Open>, target: Open, outer: seq<Open>)
    requires i < |lines| && OpenAt(lines, i) == Some(ext + [target] + outer) && OpenAt(lines, i + 1).Some?
    requires target.OpenSwitch? && sc.level == Count(ToBrkSw, ext) && sc.wlevel == Depth(lines, i) - n
    requires !Partner(m, st, lines, ToBrkSw, target.at, i)
    ensures var sc', ext' := ScanLine(m, st, ToBrkSw, lines[i], sc), Above(lines[i], i, ext);
            && OpenAt(lines, i + 1) == Some(ext' + [target] + outer)
            && sc'.level == Count(ToBrkSw, ext') && sc'.wlevel == Depth(lines, i + 1) - n
            && sc'.loops == Drop(sc.loops, EndsAt(lines, i, i + 1, n))
  {
    ScanKeepsLevel(m, st, lines, ToBrkSw, i, sc.(wlevel := Count(ToBreak, ext)), ext, target, outer);
    hide OpenAt;
    DepthStep(lines, i);
    assert EndsAt(lines, i + 1, i + 1, n) == 0;
  }

  lemma {:induction false} DropDrop(loops: seq<Loop>, a: nat, b: nat)
    ensures Drop(Drop(loops, a), b) == Drop(loops, a + b)
  {
  }

  lemma {:induction false} ScanStops<S>(m: Meaning<S>, st: S, lines: seq<Line>, i: nat, sc: Scan)
    requires i < |lines| && lines[i].EndSw? && sc.level == 0
    ensures Search(m, st, lines, ToBrkSw, i, sc) == Some(Found(2 * (i + 1), sc.loops))
  {
  }

  lemma {:induction false} ScanNext<S>(m: Meaning<S>, st: S, lines: seq<Line>, i: nat, sc: Scan, sc': Scan)
    requires i < |lines| && sc' == ScanLine(m, st, ToBrkSw, lines[i], sc) && sc'.level >= 0
    ensures Search(m, st, lines, ToBrkSw, i, sc) == Search(m, st, lines, ToBrkSw, i + 1, sc')
  {
  }

  lemma {:induction false} SwitchEnds(lines: seq<Line>, i: nat, target: Open, outer: seq<Open>)
    requires i < |lines| && OpenAt(lines, i) == Some([target] + outer) && OpenAt(lines, i + 1).Some?
    requires target.OpenSwitch? && Closing(lines[i])
    ensures lines[i].EndSw?
  {
  }

  /** Where a breaksw scan stops and what it leaves of the loop stack, from any point of it. */
  lemma {:induction false} ScanPops<S>(m: Meaning<S>, st: S, lines: seq<Line>, i: nat, sc: Scan, n: int,
                                       ext: seq<Open>, target: Open, outer: seq<Open>)
    returns (j: nat)
    requires WellNested(lines) && i <= |lines| && OpenAt(lines, i) == Some(ext + [target] + outer)
    requires target.OpenSwitch? && sc.level == Count(ToBrkSw, ext) && sc.wlevel == Depth(lines, i) - n
    ensures i <= j < |lines| && Closes(lines, target.at, j) && OpenAt(lines, j) == Some([target] + outer)
    ensures Search(m, st, lines, ToBrkSw, i, sc) ==
            Some(Found(2 * (j + 1), Drop(sc.loops, EndsAt(lines, i, j, n))))
    decreases |lines| - i
  {
    hide Depth, OpenAt, EndsAt, Drop, Search, ScanLine, Above, WellNested;
    AllOpen(lines, i, ext, target, outer);
    if Partner(m, st, lines, ToBrkSw, target.at, i) {
      j := i;
      PartnerIsTarget(m, st, lines, ToBrkSw, i, ext, target, outer);
      assert ext + [target] + outer == [target] + outer;
      SwitchEnds(lines, i, target, outer);
      ScanStops(m, st, lines, i, sc);
      NoneYet(lines, i, n, sc.loops);
    } else {
      ScanDepth(m, st, lines, i, sc, n, ext, target, outer);
      var sc', ext' := ScanLine(m, st, ToBrkSw, lines[i], sc), Above(lines[i], i, ext);
      ScanNext(m, st, lines, i, sc, sc');
      j := ScanPops(m, st, lines, i + 1, sc', n, ext', target, outer);
      DropDrop(sc.loops, EndsAt(lines, i, i + 1, n), EndsAt(lines, i + 1, j, n));
      EndsHead(lines, i, j, n);
    }
  }

  lemma {:induction false} NoneYet(lines: seq<Line>, i: nat, n: int, loops: seq<Loop>)
    requires i <= |lines|
    ensures EndsAt(lines, i, i, n) == 0 && Drop(loops, 0) == loops
  {
    assert loops[0..] == loops;
  }

  lemma {:induction false} EndsHead(lines: seq<Line>, i: nat, j: nat, n: int)
    requires i < j <= |lines|
    ensures EndsAt(lines, i, j, n) == EndsAt(lines, i, i + 1, n) + EndsAt(lines, i + 1, j, n)
  {
    assert EndsAt(lines, i + 1, i + 1, n) == 0;
  }

  /** A script does not end inside a construct. */
  lemma {:induction false} AllOpen(lines: seq<Line>, i: nat, ext: seq<Open>, target: Open, outer: seq<Open>)
    requires WellNested(lines) && i <= |lines| && OpenAt(lines, i) == Some(ext + [target] + outer)
    ensures i < |lines| && OpenAt(lines, i + 1).Some?
  {
    hide OpenAt;
    assert (ext + [target] + outer)[|ext|] == target;
    if i < |lines| { OpenAtDefined(lines, i + 1); }
  }

  /** Line j is the endsw a breaksw before line q goes to. */
  ghost predicate Leaves(lines: seq<Line>, q: nat, j: nat)
  {
    && q <= |lines| && OpenAt(lines, q).Some? && InnerSwitch(OpenAt(lines, q).value).Some?
    && Closes(lines, InnerSwitch(OpenAt(lines, q).value).value, j)
  }

  /** How many loops a breaksw before line q pops on its way to line j. */
  ghost function Pops(lines: seq<Line>, q: nat, j: nat): nat
    requires q <= |lines| && j <= |lines|
  {
    Min(EndsAt(lines, q, j, Depth(lines, q)), Depth(lines, q))
  }

  /** breaksw goes past the end of the innermost switch and pops as many loops as ends stand on the way at
      its own depth. */
  lemma {:induction false} BreakswJumps<S>(m: Meaning<S>, lines: seq<Line>, s: State<S>, q: nat)
    returns (j: nat, ext: seq<Open>, outer: seq<Open>)
    requires WellNested(lines) && q <= |lines| && s.pos == 2 * q && OpenAt(lines, q).Some?
    requires InnerSwitch(OpenAt(lines, q).value).Some?
    ensures q <= j && Leaves(lines, q, j) && OpenAt(lines, j + 1) == Some(outer)
    ensures OpenAt(lines, q).value == ext + [OpenSwitch(InnerSwitch(OpenAt(lines, q).value).value)] + outer
    ensures Jump(m, lines, ToBrkSw, s) ==
            Some(State(2 * (j + 1), Drop(s.loops, EndsAt(lines, q, j, Depth(lines, q))), s.store))
  {
    hide Search, OpenAt, EndsAt;
    ext, outer := SplitAtSwitch(OpenAt(lines, q).value);
    var target := OpenSwitch(InnerSwitch(OpenAt(lines, q).value).value);
    j := ScanPops(m, s.store, lines, q, Scan(0, 0, s.loops), Depth(lines, q), ext, target, outer);
    OpenAtDefined(lines, j + 1);
    CloseNext(lines, j, target, outer);
  }

  lemma {:induction false} CloseNext(lines: seq<Line>, j: nat, target: Open, outer: seq<Open>)
    requires j < |lines| && OpenAt(lines, j) == Some([target] + outer) && Closing(lines[j])
    requires OpenAt(lines, j + 1).Some?
    ensures OpenAt(lines, j + 1) == Some(outer)
  {
    assert ([target] + outer)[1..] == outer;
  }

  /** Outside every switch breaksw finds nothing. */
  lemma {:induction false} BreakswFails<S>(m: Meaning<S>, st: S, lines: seq<Line>, i: nat, sc: Scan)
    requires WellNested(lines) && i <= |lines| && OpenAt(lines, i).Some?
    requires sc.level == Count(ToBrkSw, OpenAt(lines, i).value)
    ensures Search(m, st, lines, ToBrkSw, i, sc) == None
    decreases |lines| - i
  {
    if i < |lines| {
      OpenAtDefined(lines, i + 1);
      var open, next := OpenAt(lines, i).value, OpenAt(lines, i + 1).value;
      if |next| == |open| + 1 { assert next[1..] == open; }
      BreakswFails(m, st, lines, i + 1, ScanLine(m, st, ToBrkSw, lines[i], sc));
    }
  }

  lemma {:induction false} NoSwitchCount(open: seq<Open>)
    ensures InnerSwitch(open).None? <==> Count(ToBrkSw, open) == 0
  {
    if open != [] { NoSwitchCount(open[1..]); }
  }

  /** What is left of the stack belongs to the line after j exactly when as many loops went as were left. */
  lemma {:induction false} LeftStack(lines: seq<Line>, q: nat, j: nat, loops: seq<Loop>, k: nat, ext: seq<Open>,
                                     o: nat, outer: seq<Open>)
    requires WellNested(lines) && q <= j < |lines| && k <= |loops|
    requires OpenAt(lines, q) == Some(ext + [OpenSwitch(o)] + outer) && OpenAt(lines, j + 1) == Some(outer)
    requires StackOf(lines, loops, LoopLines(OpenAt(lines, q).value))
    ensures StackAt(lines, j + 1, loops[k..]) <==> k == Depth(lines, q) - Depth(lines, j + 1)
  {
    hide OpenAt, LoopLines;
    var os, os' := LoopLines(OpenAt(lines, q).value), LoopLines(outer);
    assert ext + [OpenSwitch(o)] + outer == ext + ([OpenSwitch(o)] + outer);
    LoopLinesAppend(ext, [OpenSwitch(o)] + outer);
    LoopLinesSkip([OpenSwitch(o)], outer);
    assert os == LoopLines(ext) + os';
    if k == |os| - |os'| {
      forall x | 0 <= x < |os'| ensures EntryOf(lines, loops[k..][x], os'[x]) {
        assert EntryOf(lines, loops[k + x], os[k + x]);
      }
    } else if k < |loops| {
      assert EntryOf(lines, loops[k], os[k]);
      LoopTail(lines, q, k);
      assert loops[k..][0] == loops[k] && ([j + 1] + os')[0] == j + 1;
      assert StackOf(lines, loops[k..], [j + 1] + os') ==> EntryOf(lines, loops[k], j + 1);
    }
  }

  /** As many loops are popped as are left. */
  ghost predicate PopsRight(lines: seq<Line>, q: nat)
    requires q <= |lines|
  {
    forall j: nat | Leaves(lines, q, j) :: j < |lines| && Pops(lines, q, j) == Depth(lines, q) - Depth(lines, j + 1)
  }

  /** After a breaksw the active loops are the open ones if and only if, on the way to the endsw, there are
      as many ends at the depth of the breaksw as loops are left, up to the loops there are. */
  lemma {:induction false} BreakswInv<S>(m: Meaning<S>, lines: seq<Line>, s: State<S>, q: nat, t: State<S>)
    requires WellNested(lines) && q <= |lines| && s.pos == 2 * q && OpenAt(lines, q).Some?
    requires StackOf(lines, s.loops, LoopLines(OpenAt(lines, q).value))
    requires Jump(m, lines, ToBrkSw, s) == Some(t)
    ensures Inv(lines, t) <==> PopsRight(lines, q)
  {
    hide Search, OpenAt;
    if InnerSwitch(OpenAt(lines, q).value).None? {
      NoSwitchCount(OpenAt(lines, q).value);
      BreakswFails(m, s.store, lines, q, Scan(0, 0, s.loops));
      assert false;
    } else {
      var j, ext, outer := BreakswJumps(m, lines, s, q);
      var o := InnerSwitch(OpenAt(lines, q).value).value;
      assert |s.loops| == Depth(lines, q) && t.loops == s.loops[Pops(lines, q, j)..] && t.pos / 2 == j + 1;
      LeftStack(lines, q, j, s.loops, Pops(lines, q, j), ext, o, outer);
      forall j': nat | Leaves(lines, q, j') ensures j' == j { ClosedOnce(lines, o, j, j'); }
    }
  }

  // ---------- when no loop is left ----------

  /** The innermost construct that is not an if is a switch. */
  ghost predicate SwitchFirst(open: seq<Open>)
  {
    open != [] && (open[0].OpenSwitch? || (open[0].OpenIf? && SwitchFirst(open[1..])))
  }

  lemma {:induction false} SwitchFirstSplit(open: seq<Open>) returns (ext: seq<Open>, outer: seq<Open>)
    requires SwitchFirst(open)
    ensures InnerSwitch(open).Some? && open == ext + [OpenSwitch(InnerSwitch(open).value)] + outer
    ensures Count(ToBreak, ext) == 0
  {
    if open[0].OpenSwitch? {
      ext, outer := [], open[1..];
    } else {
      ext, outer := SwitchFirstSplit(open[1..]);
      ext := [open[0]] + ext;
    }
  }

  /** Inside the switch at most its own depth is reached by an end. */
  lemma {:induction false} NoEndsAt(lines: seq<Line>, i: nat, j: nat, ext: seq<Open>, target: Open, outer: seq<Open>)
    requires WellNested(lines) && i <= j && Closes(lines, target.at, j) && target.OpenSwitch?
    requires OpenAt(lines, i) == Some(ext + [target] + outer)
    ensures EndsAt(lines, i, j, |LoopLines(outer)|) == 0 && OpenAt(lines, j) == Some([target] + outer)
    decreases j - i
  {
    OpenAtDefined(lines, i + 1);
    var open := ext + [target] + outer;
    assert open[|ext|] == target && open == ext + ([target] + outer);
    OpenAtOrdered(lines, i);
    assert i == j ==> ext == [];
    if ext == [] && Closing(lines[i]) {
      assert open == [target] + outer;
      assert Closes(lines, target.at, i);
      ClosedOnce(lines, target.at, i, j);
    } else {
      NestAbove(lines[i], i, ext, [target] + outer);
      var ext' := Above(lines[i], i, ext);
      assert ext' + ([target] + outer) == ext' + [target] + outer;
      NoEndsAt(lines, i + 1, j, ext', target, outer);
      LoopLinesAppend(ext, [target] + outer);
      LoopLinesSkip([target], outer);
      if lines[i].End? { assert open[0] == ext[0] && ext[0].OpenLoop?; }
    }
  }

  /** A breaksw with no loop between it and its switch pops nothing. */
  lemma {:induction false} SwitchFirstPopsRight(lines: seq<Line>, q: nat)
    requires WellNested(lines) && q <= |lines| && OpenAt(lines, q).Some? && SwitchFirst(OpenAt(lines, q).value)
    ensures PopsRight(lines, q)
  {
    hide OpenAt, LoopLines;
    var open := OpenAt(lines, q).value;
    var ext, outer := SwitchFirstSplit(open);
    var target := OpenSwitch(InnerSwitch(open).value);
    assert open[|ext|] == target && open == ext + ([target] + outer);
    LoopLinesSkip(ext, [target] + outer);
    LoopLinesSkip([target], outer);
    forall j: nat | Leaves(lines, q, j)
      ensures j < |lines| && Pops(lines, q, j) == Depth(lines, q) - Depth(lines, j + 1)
    {
      OpenBetween(lines, target.at, j, q);
      assert IsOpen(open, target.at);
      NoEndsAt(lines, q, j, ext, target, outer);
      ClosePops(lines, target.at, j);
      OuterAtOpener(lines, q, |ext|);
      assert open[|ext| + 1..] == outer;
    }
  }

  // ---------- breaksw in three scripts ----------

  lemma {:induction false} Pushed(lines: seq<Line>, i: nat, open: seq<Open>, x: Open)
    requires i < |lines| && OpenAt(lines, i) == Some(open)
    requires (IsLoopLine(lines[i]) && x == OpenLoop(i)) || (lines[i].Switch? && x == OpenSwitch(i))
    ensures OpenAt(lines, i + 1) == Some([x] + open)
  {
  }

  lemma {:induction false} Stayed(lines: seq<Line>, i: nat, open: seq<Open>)
    requires i < |lines| && OpenAt(lines, i) == Some(open)
    requires lines[i].Plain? || (lines[i].Default? && open != [] && open[0].OpenSwitch?)
    ensures OpenAt(lines, i + 1) == Some(open)
  {
  }

  lemma {:induction false} Popped(lines: seq<Line>, i: nat, x: Open, open: seq<Open>)
    requires i < |lines| && OpenAt(lines, i) == Some([x] + open)
    requires (lines[i].End? && x.OpenLoop?) || (lines[i].EndSw? && x.OpenSwitch?)
    ensures OpenAt(lines, i + 1) == Some(open)
  {
    assert ([x] + open)[1..] == open;
  }

  lemma {:induction false} OpenStart(lines: seq<Line>)
    ensures OpenAt(lines, 0) == Some([])
  {
  }

  lemma {:induction false} TwoLoops(o: nat, o': nat, k: nat)
    ensures LoopLines([OpenLoop(o), OpenLoop(o'), OpenSwitch(k)]) == [o, o']
    ensures LoopLines([OpenLoop(o), OpenSwitch(k), OpenLoop(o')]) == [o, o']
    ensures LoopLines([OpenSwitch(k)]) == [] && LoopLines([OpenLoop(o)]) == [o]
  {
    var none: seq<Open> := [];
    assert [OpenSwitch(k)][1..] == none && [OpenLoop(o)][1..] == none && [OpenLoop(o')][1..] == none;
    assert LoopLines(none) == [];
    assert LoopLines([OpenLoop(o)]) == [o] + [] && LoopLines([OpenLoop(o')]) == [o'] + [];
    assert [OpenLoop(o'), OpenSwitch(k)][1..] == [OpenSwitch(k)];
    assert [OpenSwitch(k), OpenLoop(o')][1..] == [OpenLoop(o')];
    assert LoopLines([OpenLoop(o'), OpenSwitch(k)]) == [o'] + [];
    assert LoopLines([OpenSwitch(k), OpenLoop(o')]) == [o'];
    assert [OpenLoop(o), OpenLoop(o'), OpenSwitch(k)][1..] == [OpenLoop(o'), OpenSwitch(k)];
    assert [OpenLoop(o), OpenSwitch(k), OpenLoop(o')][1..] == [OpenSwitch(k), OpenLoop(o')];
  }

  lemma {:induction false} NoLoopLines()
    ensures LoopLines([]) == []
  {
  }

  function LeavesScript(): seq<Line> { [Switch(0), Default, While(0), While(0), Plain(BreakSw), End, End, EndSw] }

  function BothScript(): seq<Line>
  {
    [Switch(0), Default, While(0), While(0), Plain(BreakSw), End, While(1), End, End, EndSw]
  }

  function OuterScript(): seq<Line>
  {
    [While(1), Switch(0), Default, While(0), Plain(BreakSw), End, While(2), End, EndSw, End]
  }

  lemma {:induction false} LeavesNest()
    ensures var lines := LeavesScript();
            WellNested(lines) && OpenAt(lines, 4) == Some([OpenLoop(3), OpenLoop(2), OpenSwitch(0)])
  {
    hide OpenAt;
    var lines := LeavesScript();
    var o0: seq<Open> := [];
    var o1 := [OpenSwitch(0)] + o0;
    var o2 := [OpenLoop(2)] + o1;
    var o3 := [OpenLoop(3)] + o2;
    assert o3 == [OpenLoop(3), OpenLoop(2), OpenSwitch(0)];
    OpenStart(lines);
    Pushed(lines, 0, o0, OpenSwitch(0));
    Stayed(lines, 1, o1);
    Pushed(lines, 2, o1, OpenLoop(2));
    Pushed(lines, 3, o2, OpenLoop(3));
    Stayed(lines, 4, o3);
    Popped(lines, 5, OpenLoop(3), o2);
    Popped(lines, 6, OpenLoop(2), o1);
    Popped(lines, 7, OpenSwitch(0), o0);
  }

  lemma {:induction false} BothNest()
    ensures var lines := BothScript();
            WellNested(lines) && OpenAt(lines, 4) == Some([OpenLoop(3), OpenLoop(2), OpenSwitch(0)])
  {
    hide OpenAt;
    var lines := BothScript();
    var o0: seq<Open> := [];
    var o1 := [OpenSwitch(0)] + o0;
    var o2 := [OpenLoop(2)] + o1;
    var o3 := [OpenLoop(3)] + o2;
    assert o3 == [OpenLoop(3), OpenLoop(2), OpenSwitch(0)];
    OpenStart(lines);
    Pushed(lines, 0, o0, OpenSwitch(0));
    Stayed(lines, 1, o1);
    Pushed(lines, 2, o1, OpenLoop(2));
    Pushed(lines, 3, o2, OpenLoop(3));
    Stayed(lines, 4, o3);
    Popped(lines, 5, OpenLoop(3), o2);
    Pushed(lines, 6, o2, OpenLoop(6));
    Popped(lines, 7, OpenLoop(6), o2);
    Popped(lines, 8, OpenLoop(2), o1);
    Popped(lines, 9, OpenSwitch(0), o0);
  }

  lemma {:induction false} OuterNest()
    ensures var lines := OuterScript();
            && WellNested(lines) && OpenAt(lines, 4) == Some([OpenLoop(3), OpenSwitch(1), OpenLoop(0)])
            && OpenAt(lines, 9) == Some([OpenLoop(0)])
  {
    hide OpenAt;
    var lines := OuterScript();
    var o0: seq<Open> := [];
    var o1 := [OpenLoop(0)] + o0;
    var o2 := [OpenSwitch(1)] + o1;
    var o3 := [OpenLoop(3)] + o2;
    assert o3 == [OpenLoop(3), OpenSwitch(1), OpenLoop(0)] && o1 == [OpenLoop(0)];
    OpenStart(lines);
    Pushed(lines, 0, o0, OpenLoop(0));
    Pushed(lines, 1, o1, OpenSwitch(1));
    Stayed(lines, 2, o2);
    Pushed(lines, 3, o2, OpenLoop(3));
    Stayed(lines, 4, o3);
    Popped(lines, 5, OpenLoop(3), o2);
    Pushed(lines, 6, o2, OpenLoop(6));
    Popped(lines, 7, OpenLoop(6), o2);
    Popped(lines, 8, OpenSwitch(1), o1);
    Popped(lines, 9, OpenLoop(0), o0);
  }

  /** Out of two loops, with nothing between their ends: one of them stays active. */
  lemma {:induction false} BreakswLeavesLoop<S>(m: Meaning<S>, st: S)
    ensures var lines, a, b := LeavesScript(), Loop(6, 0, None), Loop(4, 0, None);
            && WellNested(lines) && StackAt(lines, 4, [a, b])
            && Step(m, lines, State(8, [a, b], st)) == Some(State(16, [b], st)) && !Inv(lines, State(16, [b], st))
  {
    hide OpenAt, LoopLines, Search;
    var lines, a, b := LeavesScript(), Loop(6, 0, None), Loop(4, 0, None);
    LeavesNest();
    TwoLoops(3, 2, 0);
    NoLoopLines();
    assert [a, b][1..] == [b];
    ScanNext(m, st, lines, 5, Scan(0, 0, [a, b]), Scan(0, -1, [b]));
    ScanNext(m, st, lines, 6, Scan(0, -1, [b]), Scan(0, -2, [b]));
    ScanStops(m, st, lines, 7, Scan(0, -2, [b]));
  }

  /** Out of two loops with a complete loop between their ends: both are popped, the second by that loop. */
  lemma {:induction false} BreakswPopsBoth<S>(m: Meaning<S>, st: S)
    ensures var lines, a, b := BothScript(), Loop(6, 0, None), Loop(4, 0, None);
            && WellNested(lines) && StackAt(lines, 4, [a, b])
            && Step(m, lines, State(8, [a, b], st)) == Some(State(20, [], st)) && Inv(lines, State(20, [], st))
  {
    hide OpenAt, LoopLines, Search;
    var lines, a, b := BothScript(), Loop(6, 0, None), Loop(4, 0, None);
    BothNest();
    TwoLoops(3, 2, 0);
    NoLoopLines();
    assert [a, b][1..] == [b] && [b][1..] == [];
    ScanNext(m, st, lines, 5, Scan(0, 0, [a, b]), Scan(0, -1, [b]));
    ScanNext(m, st, lines, 6, Scan(0, -1, [b]), Scan(0, 0, [b]));
    ScanNext(m, st, lines, 7, Scan(0, 0, [b]), Scan(0, -1, []));
    ScanNext(m, st, lines, 8, Scan(0, -1, []), Scan(0, -2, []));
    ScanStops(m, st, lines, 9, Scan(0, -2, []));
  }

  /** Out of one loop with a complete loop after it: the loop around the switch is popped too, and its own
      end then fails. */
  lemma {:induction false} BreakswPopsOuter<S>(m: Meaning<S>, st: S)
    ensures var lines, a, b := OuterScript(), Loop(6, 0, None), Loop(0, 0, None);
            && WellNested(lines) && StackAt(lines, 4, [a, b])
            && Step(m, lines, State(8, [a, b], st)) == Some(State(18, [], st)) && !Inv(lines, State(18, [], st))
            && Step(m, lines, State(18, [], st)) == None
  {
    hide OpenAt, LoopLines, Search;
    var lines, a, b := OuterScript(), Loop(6, 0, None), Loop(0, 0, None);
    OuterNest();
    TwoLoops(3, 0, 1);
    TwoLoops(0, 0, 1);
    assert [a, b][1..] == [b] && [b][1..] == [];
    ScanNext(m, st, lines, 5, Scan(0, 0, [a, b]), Scan(0, -1, [b]));
    ScanNext(m, st, lines, 6, Scan(0, -1, [b]), Scan(0, 0, [b]));
    ScanNext(m, st, lines, 7, Scan(0, 0, [b]), Scan(0, -1, []));
    ScanStops(m, st, lines, 8, Scan(0, -1, []));
  }
}
