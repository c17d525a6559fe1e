/**
 * dcanon of bin/csh/dir.c as it runs: the path is rewritten in place in a NUL-terminated buffer, with
 * moving pointers p and sp. Symbolic links are ignored, so readlink is never called.
 */
module DirBuffer {
  import opened Sequences
  import opened DirCanon

  /** s stands in the buffer from i on. */
  ghost predicate Text(a: array<char>, i: nat, s: string)
    reads a
  {
    i + |s| <= a.Length && a[i..i + |s|] == s
  }

  /** s stands from i on and is followed by the terminator. */
  ghost predicate Ends(a: array<char>, i: nat, s: string)
    reads a
  {
    i + |s| < a.Length && a[i..i + |s|] == s && a[i + |s|] == NUL && NUL !in s
  }

  lemma {:induction false} TextPlus(a: array<char>, i: nat, x: string, y: string)
    ensures Text(a, i, x + y) <==> Text(a, i, x) && Text(a, i + |x|, y)
  {
    if i + |x + y| <= a.Length {
      assert a[i..i + |x + y|] == a[i..i + |x|] + a[i + |x|..i + |x + y|];
      if Text(a, i, x + y) {
        assert (x + y)[..|x|] == x && (x + y)[|x|..] == y;
      }
    }
  }

  lemma {:induction false} EndsPlus(a: array<char>, i: nat, x: string, y: string)
    ensures Ends(a, i, x + y) <==> Text(a, i, x) && NUL !in x && Ends(a, i + |x|, y)
  {
    TextPlus(a, i, x, y);
  }

  /** The kept path j stands at the front, followed by the slash before sp. */
  ghost predicate Base(a: array<char>, j: string, sp: nat)
    reads a
  {
    sp == |j| + 1 && sp < a.Length && Text(a, 0, j) && NUL !in j && a[sp - 1] == '/'
  }

  lemma {:induction false} BaseAt(a: array<char>, j: string, sp: nat)
    requires Base(a, j, sp)
    ensures sp == |j| + 1
  {
  }

  lemma {:induction false} BaseEnds(a: array<char>, j: string, sp: nat, t: string)
    requires Base(a, j, sp) && Ends(a, sp, t)
    ensures Ends(a, 0, j + ("/" + t))
  {
    assert Text(a, |j|, "/");
    TextPlus(a, 0, j, "/");
    EndsPlus(a, 0, j + "/", t);
    Assoc(j, "/", t);
  }

  /** The copy loops: the text at from, with its terminator, moves down to `to`. */
  method CopyDown(a: array<char>, to: nat, from: nat, ghost t: string)
    requires to <= from && Ends(a, from, t)
    modifies a
    ensures Ends(a, to, t)
    ensures forall k | 0 <= k < a.Length && !(to <= k <= to + |t|) :: a[k] == old(a[k])
  {
    var i := 0;
    assert forall k | 0 <= k < |t| :: a[from + k] == a[from..from + |t|][k] == t[k];
    while a[from + i] != NUL
      invariant 0 <= i <= |t|
      invariant forall k | 0 <= k < i :: a[to + k] == t[k]
      invariant forall k | i <= k < |t| :: a[from + k] == t[k]
      invariant a[from + |t|] == NUL
      invariant forall k | 0 <= k < a.Length && !(to <= k < to + i) :: a[k] == old(a[k])
      decreases |t| - i
    {
      a[to + i] := a[from + i];
      i := i + 1;
    }
    a[to + i] := NUL;
  }

  lemma {:induction false} JoinedNonEmpty(stack: seq<string>)
    requires Names(stack) && stack != []
    ensures |Joined(stack)| >= 2
  {
    assert stack[|stack| - 1] in stack;
  }

  lemma {:induction false} EndsTail(a: array<char>, i: nat, s: string)
    requires s != "" && Ends(a, i, s)
    ensures a[i] == s[0] && Ends(a, i + 1, s[1..])
  {
    assert a[i] == a[i..i + |s|][0];
    assert a[i + 1..i + |s|] == a[i..i + |s|][1..];
  }

  method SkipSlashes(a: array<char>, p: nat, ghost r: string) returns (q: nat)
    requires Ends(a, p, r)
    ensures p <= q && q + |Unslashed(r)| == p + |r| && Ends(a, q, Unslashed(r))
  {
    q := p;
    ghost var m := r;
    while a[q] == '/'
      invariant p <= q && q + |m| == p + |r| && Ends(a, q, m) && Unslashed(m) == Unslashed(r)
      decreases |m|
    {
      if m != "" { EndsTail(a, q, m); }
      m := m[1..];
      q := q + 1;
    }
    if m != "" { EndsTail(a, q, m); }
  }

  /** Extra slashes after the one at p are flushed; j is the path before p. */
  method Flush(a: array<char>, p: nat, ghost j: string, ghost r: string)
    requires p == |j| && Ends(a, 0, j + r) && r != "" && r[0] == '/'
    modifies a
    ensures Ends(a, 0, j + ("/" + Unslashed(r)))
    ensures forall k | |j + r| <= k < a.Length :: a[k] == old(a[k])
  {
    EndsPlus(a, 0, j, r);
    EndsTail(a, p, r);
    var sp := p + 1;
    var q := SkipSlashes(a, p + 1, r[1..]);
    ghost var m := Unslashed(r);
    hide Unslashed;
    if q != sp {
      CopyDown(a, sp, q, m);
      assert a[0..|j|] == old(a[0..|j|]);
    }
    BaseEnds(a, j, sp, m);
  }

  /** The terminator of the original path at n and, for a scan that goes deep, a spare one after it. */
  ghost predicate Room(a: array<char>, n: nat, deep: bool)
    reads a
  {
    n < a.Length && a[n] == NUL && (deep ==> n + 1 < a.Length && a[n + 1] == NUL)
  }

  method ScanEnd(a: array<char>, sp: nat, ghost n: nat, ghost s: string) returns (p: nat)
    requires Ends(a, sp, s) && sp + |s| <= n && Room(a, n, sp == n)
    requires s != "" ==> s[0] != '/'
    ensures sp < p <= n + 1 && p < a.Length && (a[p] == NUL || a[p] == '/') && (p == n + 1 <==> sp == n)
    ensures s != "" ==> p == sp + |Head(s)| && (a[p] == '/' <==> Tail(s) != "")
  {
    p := sp + 1;
    ghost var c, t := Head(s), Tail(s);
    if s != "" {
      HeadFacts(s);
      EndsPlus(a, sp, c, t);
      forall k | sp <= k < sp + |c| ensures a[k] != NUL && a[k] != '/' {
        assert a[k] == a[sp..sp + |c|][k - sp] == c[k - sp];
      }
      assert t == "" ==> a[sp + |c|] == NUL;
      if t != "" { EndsTail(a, sp + |c|, t); }
    }
    while a[p] != NUL && a[p] != '/'
      invariant sp < p <= n + 1 && (p == n + 1 <==> sp == n) && (s != "" ==> p <= sp + |c|)
      decreases n + 1 - p
    {
      p := p + 1;
    }
  }

  /**
   * The end of the component that starts at sp; a slash there becomes a terminator. Behind an empty
   * component the scan runs over whatever earlier copies left, at most to the original terminator at n.
   * When there is nothing left behind it, sp is n itself and the scan looks at the cell after it.
   */
  method FindEnd(a: array<char>, sp: nat, ghost n: nat, ghost s: string) returns (p: nat, slash: bool)
    requires Ends(a, sp, s) && sp + |s| <= n && Room(a, n, sp == n)
    requires s != "" ==> s[0] != '/'
    modifies a
    ensures sp < p <= n + 1 && p < a.Length && a[p] == NUL && (p == n + 1 <==> sp == n)
    ensures forall k | 0 <= k < a.Length && k != p :: a[k] == old(a[k])
    ensures old(a[p]) == if slash then '/' else NUL
    ensures s != "" ==> p == sp + |Head(s)| && slash == (Tail(s) != "") && Ends(a, sp, Head(s)) &&
                        (slash ==> Ends(a, p + 1, Tail(s)[1..]))
  {
    p := ScanEnd(a, sp, n, s);
    slash := a[p] == '/';
    ghost var c, t := Head(s), Tail(s);
    if s != "" {
      HeadFacts(s);
      EndsPlus(a, sp, c, t);
      if t != "" { EndsTail(a, p, t); }
    }
    hide Head, Tail;
    if slash {
      a[p] := NUL;
      if s != "" {
        assert a[sp..sp + |c|] == old(a[sp..sp + |c|]);
        assert a[p + 1..p + |t|] == old(a[p + 1..p + |t|]);
      }
    }
  }

  lemma {:induction false} HeadFacts(s: string)
    requires s != "" && s[0] != '/'
    ensures Head(s) != "" && s == Head(s) + Tail(s)
  {
  }

  lemma {:induction false} WhichComponent(a: array<char>, i: nat, c: string)
    requires c != "" && Ends(a, i, c)
    ensures (a[i] == '.' && a[i + 1] == NUL) <==> c == "."
    ensures (a[i] == '.' && a[i + 1] == '.' && a[i + 2] == NUL) <==> c == ".."
  {
    EndsTail(a, i, c);
    if |c| > 1 { EndsTail(a, i + 1, c[1..]); }
    if |c| > 2 { EndsTail(a, i + 2, c[1..][1..]); }
  }

  /** Cutting at the slash before sp leaves the kept path; at the root the slash stays. */
  method Cut(a: array<char>, sp: nat, ghost st: seq<string>)
    requires Names(st) && st != [] && Base(a, Joined(st), sp)
    modifies a
    ensures Ends(a, 0, Joined(st))
    ensures forall k | 0 <= k < a.Length && k != sp - 1 :: a[k] == old(a[k])
  {
    a[sp - 1] := NUL;
    assert a[0..sp - 1] == old(a[0..sp - 1]);
  }

  /** A null component: the trailing slash goes, unless it is the whole path. */
  method NullComponent(a: array<char>, sp: nat, ghost st: seq<string>)
    requires Names(st) && Base(a, Joined(st), sp) && a[sp] == NUL
    modifies a
    ensures Ends(a, 0, Absolute(st))
    ensures forall k | 0 <= k < a.Length && k != sp - 1 :: a[k] == old(a[k])
  {
    if st != [] { JoinedNonEmpty(st); }
    if sp - 1 != 0 {
      Cut(a, sp, st);
    } else {
      assert a[0..1] == "/";
    }
  }

  /** The rest t of the path, whose first slash became a terminator before `from`, moves up to the kept path j. */
  method CloseUp(a: array<char>, to: nat, from: nat, ghost j: string, ghost t: string)
    requires Base(a, j, to) && to <= from && t != "" && t[0] == '/' && Ends(a, from, t[1..])
    modifies a
    ensures Ends(a, 0, j + t) && forall k | 0 <= k < a.Length && k >= to + |t| :: a[k] == old(a[k])
  {
    CopyDown(a, to, from, t[1..]);
    assert a[0..|j|] == old(a[0..|j|]);
    BaseEnds(a, j, to, t[1..]);
    assert "/" + t[1..] == t;
  }

  /** A . with more to come is copied over; at the end it goes with its slash, except right under the root. */
  method DotComponent(a: array<char>, sp: nat, p: nat, slash: bool, ghost st: seq<string>, ghost t: string)
    returns (q: nat)
    requires Names(st) && Base(a, Joined(st), sp) && p == sp + 1 && Path(t) && slash == (t != "")
    requires Ends(a, sp, ".") && (slash ==> Ends(a, p + 1, t[1..]))
    modifies a
    ensures slash ==> Ends(a, 0, Joined(st) + t) && q == |Joined(st)|
    ensures !slash ==> Ends(a, 0, if st == [] then "/." else Joined(st)) && q == p && a[q] == NUL
    ensures forall k | 0 <= k < a.Length && k >= p + |t| :: a[k] == old(a[k])
  {
    ghost var j := Joined(st);
    if st != [] { JoinedNonEmpty(st); }
    q := p;
    if slash {
      CloseUp(a, sp, p + 1, j, t);
      q := sp - 1;
    } else if sp - 1 != 0 {
      Cut(a, sp, st);
    } else {
      BaseEnds(a, j, sp, ".");
      assert "" + ("/" + ".") == "/.";
    }
  }

  /** The last kept name stands between its slash and the one before sp. */
  lemma {:induction false} LastName(a: array<char>, sp: nat, st: seq<string>)
    requires Names(st) && st != [] && Base(a, Joined(st), sp)
    ensures var j := Joined(Popped(st));
            |j| + 2 < sp && Base(a, j, |j| + 1) && forall k | |j| < k < sp - 1 :: a[k] != '/'
  {
    var j, c := Joined(Popped(st)), st[|st| - 1];
    assert c in st;
    assert Joined(st) == j + "/" + c;
    hide Joined;
    TextPlus(a, 0, j + "/", c);
    TextPlus(a, 0, j, "/");
    assert a[|j|] == a[|j|..|j| + 1][0];
    forall k | |j| < k < sp - 1 ensures a[k] != '/' {
      assert a[k] == a[|j| + 1..|j| + 1 + |c|][k - |j| - 1] == c[k - |j| - 1];
    }
  }

  /** Back from the end of the kept path to the slash before its last name; the root stays. */
  method BackUp(a: array<char>, sp: nat, ghost st: seq<string>) returns (q: nat)
    requires Names(st) && Base(a, Joined(st), sp)
    ensures q == |Joined(Popped(st))| && Base(a, Joined(Popped(st)), q + 1)
  {
    q := sp - 1;
    if st != [] {
      LastName(a, sp, st);
    }
    ghost var j := Joined(Popped(st));
    if q != 0 {
      q := q - 1;
      while a[q] != '/'
        invariant |j| <= q < sp - 1
        decreases q
      {
        q := q - 1;
      }
    }
  }

  /** A .. takes the last kept name with it. */
  method DotDotComponent(a: array<char>, sp: nat, p: nat, slash: bool, ghost st: seq<string>, ghost t: string)
    returns (q: nat)
    requires Names(st) && Base(a, Joined(st), sp) && p == sp + 2 && Path(t) && slash == (t != "")
    requires Ends(a, sp, "..") && (slash ==> Ends(a, p + 1, t[1..]))
    modifies a
    ensures slash ==> Ends(a, 0, Joined(Popped(st)) + t) && q == |Joined(Popped(st))|
    ensures !slash ==> Ends(a, 0, Absolute(Popped(st))) && q == p && a[q] == NUL
    ensures forall k | 0 <= k < a.Length && k >= p + |t| :: a[k] == old(a[k])
  {
    hide Joined;
    JoinedNone();
    PoppedShort(st);
    var b := BackUp(a, sp, st);
    ghost var pop := Popped(st);
    assert Names(pop);
    if pop != [] { JoinedNonEmpty(pop); }
    q := p;
    if slash {
      CloseUp(a, b + 1, p + 1, Joined(pop), t);
      q := b;
    } else if b == 0 {
      a[1] := NUL;
      assert a[0..1] == "/";
    } else {
      Cut(a, b + 1, pop);
    }
  }

  method NormalComponent(a: array<char>, sp: nat, p: nat, slash: bool, ghost st: seq<string>, ghost c: string,
                         ghost t: string)
    requires Names(st) && Name(c) && Base(a, Joined(st), sp) && p == sp + |c| && Path(t) && slash == (t != "")
    requires Ends(a, sp, c) && (slash ==> Ends(a, p + 1, t[1..]))
    modifies a
    ensures Ends(a, 0, Joined(st + [c]) + t) && p == |Joined(st + [c])|
    ensures forall k | 0 <= k < a.Length && k != p :: a[k] == old(a[k])
  {
    ghost var j, j' := Joined(st), Joined(st + [c]);
    assert (st + [c])[..|st|] == st && j' == j + "/" + c;
    hide Joined;
    BaseEnds(a, j, sp, c);
    Assoc(j, "/", c);
    if slash {
      a[p] := '/';
      assert Ends(a, p + 1, t[1..]) by { assert a[p + 1..p + |t|] == old(a[p + 1..p + |t|]); }
      assert Base(a, j', p + 1) by { assert a[0..p] == old(a[0..p]); }
      BaseEnds(a, j', p + 1, t[1..]);
      assert "/" + t[1..] == t;
    } else {
      assert j' + "" == j';
    }
  }

  /** Both scans of a turn: the component at sp is delimited, and the kept path is as it was. */
  method Delimit(a: array<char>, p: nat, ghost n: nat, ghost j: string, ghost r: string) returns (e: nat, slash: bool)
    requires p == |j| && r != "" && r[0] == '/' && Ends(a, 0, j + r)
    requires |j + r| <= n && Room(a, n, p + 1 == n)
    modifies a
    ensures Base(a, j, p + 1) && p + 1 < e < a.Length && a[e] == NUL && Room(a, n, p + 1 == n)
    ensures e <= n + 1 && (e == n + 1 <==> p + 1 == n)
    ensures n + 1 < a.Length ==> a[n + 1] == old(a[n + 1])
    ensures var s := Unslashed(r);
            p + 1 + |s| <= n && (s == "" ==> a[p + 1] == NUL) &&
            (s != "" ==> e == p + 1 + |Head(s)| && slash == (Tail(s) != "") && Ends(a, p + 1, Head(s)) &&
                         (slash ==> Ends(a, e + 1, Tail(s)[1..])))
  {
    ghost var s := Unslashed(r);
    Flush(a, p, j, r);
    hide Unslashed, Head, Tail;
    BaseFrom(a, j, s);
    ghost var was := a[..];
    e, slash := FindEnd(a, p + 1, n, s);
    assert a[0..|j|] == was[0..|j|];
  }

  lemma {:induction false} BaseFrom(a: array<char>, j: string, s: string)
    requires Ends(a, 0, j + ("/" + s))
    ensures Base(a, j, |j| + 1) && Ends(a, |j| + 1, s)
  {
    EndsPlus(a, 0, j, "/" + s);
    EndsTail(a, |j|, "/" + s);
    assert ("/" + s)[1..] == s;
  }

  /** One turn of the loop. n is where the path ended at the start; top is the last cell looked at. */
  method OneTurn(a: array<char>, p: nat, ghost n: nat, ghost st: seq<string>, ghost r: string)
    returns (q: nat, ghost top: nat)
    requires Names(st) && p == |Joined(st)| && r != "" && r[0] == '/' && Ends(a, 0, Joined(st) + r)
    requires |Joined(st) + r| <= n && Room(a, n, Reaches(st, r, n))
    modifies a
    ensures q < a.Length && Room(a, n, Reaches(st, r, n))
    ensures top <= n + 1 && (top == n + 1 <==> Unslashed(r) == "" && |Joined(st)| + 1 == n)
    ensures match Turned(st, r)
            case Done(path) => Ends(a, 0, path) && a[q] == NUL
            case More(st', r') => Names(st') && Ends(a, 0, Joined(st') + r') && q == |Joined(st')| &&
                                  |Joined(st') + r'| <= n
  {
    ghost var s := Unslashed(r);
    var sp := p + 1;
    if sp == n { ReachesNow(st, r, n); }
    hide Reaches;
    var e, slash := Delimit(a, p, n, Joined(st), r);
    top := e;
    if a[sp] == NUL {
      assert s == "" by { if s != "" { HeadFacts(s); EndsTail(a, sp, Head(s)); } }
      NullComponent(a, sp, st);
      q := e;
    } else {
      q := OneName(a, sp, e, n, slash, st, s, Reaches(st, r, n));
    }
  }

  lemma {:induction false} ReachesNow(st: seq<string>, r: string, n: nat)
    requires r != "" && r[0] == '/' && |Joined(st) + r| <= n && |Joined(st)| + 1 == n
    ensures Unslashed(r) == "" && Reaches(st, r, n)
  {
    assert |r| == 1;
  }

  /** The rest of a turn when the component is not empty. */
  method OneName(a: array<char>, sp: nat, e: nat, ghost n: nat, slash: bool, ghost st: seq<string>, ghost s: string,
                 ghost deep: bool)
    returns (q: nat)
    requires Names(st) && s != "" && s[0] != '/' && Base(a, Joined(st), sp) && sp + |s| <= n && Room(a, n, deep)
    requires e == sp + |Head(s)| && e < a.Length && a[e] == NUL && slash == (Tail(s) != "")
    requires Ends(a, sp, Head(s)) && (slash ==> Ends(a, e + 1, Tail(s)[1..]))
    modifies a
    ensures q < a.Length && Room(a, n, deep)
    ensures match Named(st, Head(s), Tail(s))
            case Done(path) => Ends(a, 0, path) && a[q] == NUL
            case More(st', r') => Names(st') && Ends(a, 0, Joined(st') + r') && q == |Joined(st')| &&
                                  |Joined(st') + r'| <= n
  {
    hide Head, Tail, Joined, Base, Ends;
    ghost var c, t := Head(s), Tail(s);
    HeadFacts(s);
    HeadName(s);
    WhichComponent(a, sp, c);
    EndsBound(a, sp, c);
    assert sp == |Joined(st)| + 1 by { BaseAt(a, Joined(st), sp); }
    if a[sp] == '.' && a[sp + 1] == NUL {
      q := DotComponent(a, sp, e, slash, st, t);
    } else if a[sp] == '.' && a[sp + 1] == '.' && a[sp + 2] == NUL {
      q := DotDotComponent(a, sp, e, slash, st, t);
      PoppedShort(st);
    } else {
      NormalComponent(a, sp, e, slash, st, c, t);
      AtRest(a, Joined(st + [c]), t);
      q := e;
    }
  }

  lemma {:induction false} HeadName(s: string)
    requires s != "" && s[0] != '/'
    ensures '/' !in Head(s) && Head(s) != "" && Path(Tail(s)) && |s| == |Head(s)| + |Tail(s)|
  {
  }

  lemma {:induction false} EndsBound(a: array<char>, i: nat, c: string)
    requires c != "" && Ends(a, i, c)
    ensures i + 1 < a.Length && (c[0] == '.' && a[i + 1] == '.' ==> i + 2 < a.Length)
    ensures a[i] == c[0] && a[i] != NUL
  {
    assert a[i] == a[i..i + |c|][0];
  }

  /**
   * dcanon on an absolute path: the buffer ends up holding the canonical path, and no access leaves it.
   * The part before `start` is already canonical. The one cell after the terminator is needed, and looked
   * at, exactly when the rest is made of names and a last slash.
   */
  method DCanon(a: array<char>, start: nat, ghost stack: seq<string>, ghost rest: string) returns (ghost top: nat)
    requires Names(stack) && Path(rest) && start == |Joined(stack)| && Ends(a, 0, Joined(stack) + rest)
    requires Room(a, |Joined(stack) + rest|, SlashEnds(Components(rest)))
    modifies a
    ensures Ends(a, 0, Canon(stack, rest))
    ensures var n := |Joined(stack) + rest|; top <= n + 1 && (top == n + 1 <==> SlashEnds(Components(rest)))
  {
    ghost var n := |Joined(stack) + rest|;
    ReachesLaw(stack, rest, n);
    hide Joined, Turned, Components, SlashEnds, Canon, Reaches;
    ghost var st, r, done := stack, rest, false;
    ghost var deep := Reaches(stack, rest, n);
    var p: nat := start;
    top := n;
    assert a[p] == NUL <==> rest == "" by { AtRest(a, Joined(stack), rest); }
    while a[p] != NUL
      invariant p < a.Length && Room(a, n, deep) && top <= n + 1
      invariant done ==> a[p] == NUL && Ends(a, 0, Canon(stack, rest)) && (top == n + 1 <==> deep)
      invariant !done ==> Names(st) && Path(r) && p == |Joined(st)| && |Joined(st) + r| <= n
      invariant !done ==> Ends(a, 0, Joined(st) + r) && Canon(st, r) == Canon(stack, rest)
      invariant !done ==> top <= n && Reaches(st, r, n) == deep
      decreases if done then 0 else |r| + 1
    {
      AtRest(a, Joined(st), r);
      TurnedCanon(st, r, n);
      ghost var t;
      p, t := OneTurn(a, p, n, st, r);
      if t > top { top := t; }
      match Turned(st, r) {
        case Done(path) => done := true;
        case More(st', r') => st, r := st', r';
      }
    }
    if !done {
      AtRest(a, Joined(st), r);
      assert Joined(st) + "" == Joined(st);
      AtEnd(st, n);
    }
  }

  /** What one turn leaves of the two functions. */
  lemma {:induction false} TurnedCanon(st: seq<string>, r: string, n: nat)
    requires r != "" && r[0] == '/'
    ensures match Turned(st, r)
            case Done(path) => Canon(st, r) == path &&
                               (Reaches(st, r, n) <==> Unslashed(r) == "" && |Joined(st)| + 1 == n)
            case More(st', r') => Canon(st, r) == Canon(st', r') && Reaches(st, r, n) == Reaches(st', r', n) &&
                                  Unslashed(r) != ""
  {
  }

  lemma {:induction false} AtEnd(st: seq<string>, n: nat)
    ensures Canon(st, "") == Joined(st) && !Reaches(st, "", n)
  {
  }

  lemma {:induction false} AtRest(a: array<char>, j: string, r: string)
    requires Ends(a, 0, j + r)
    ensures a[|j|] == if r == "" then NUL else r[0]
    ensures r != "" ==> r[0] != NUL
  {
    EndsPlus(a, 0, j, r);
    if r != "" { EndsTail(a, |j|, r); }
  }
}
