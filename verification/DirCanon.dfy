/**
 * Path canonicalisation of bin/csh/dir.c with symbolic links ignored: what dcanon computes, and that
 * it is the stack normal form of the path's components.
 */
module DirCanon {
  import opened Sequences

  const NUL: char := '\0'

  /** The text up to the next slash, and from it on. */
  function Head(s: string): (r: string)
    ensures |r| <= |s| && '/' !in r && (|r| < |s| ==> s[|r|] == '/') && r == s[..|r|]
  {
    if s == "" || s[0] == '/' then "" else [s[0]] + Head(s[1..])
  }

  function Tail(s: string): (r: string)
    ensures |r| <= |s| && (r != "" ==> r[0] == '/')
  {
    s[|Head(s)|..]
  }

  function Unslashed(s: string): (r: string)
    ensures |r| <= |s| && (r != "" ==> r[0] != '/') && (s != "" && s[0] == '/' ==> |r| < |s|)
  {
    if s != "" && s[0] == '/' then Unslashed(s[1..]) else s
  }

  /** A path is empty or starts with a slash; each slash begins a component, possibly empty. */
  predicate Path(s: string) { s == "" || s[0] == '/' }

  function Components(s: string): seq<string>
    requires Path(s)
    decreases |s|
  {
    if s == "" then [] else [Head(s[1..])] + Components(Tail(s[1..]))
  }

  /** Components that stay in a canonical path. */
  predicate Name(c: string) { c != "" && '/' !in c && c != "." && c != ".." }
  predicate Names(stack: seq<string>) { forall c | c in stack :: Name(c) }

  /** Empty components and . vanish, .. takes the previous name with it, and nothing goes above the root. */
  function Normal(stack: seq<string>, comps: seq<string>): (r: seq<string>)
    decreases |comps|
  {
    if comps == [] then stack else Normal(After(stack, comps[0]), comps[1..])
  }

  function After(stack: seq<string>, c: string): seq<string>
  {
    if c == "" || c == "." then stack
    else if c == ".." then Popped(stack)
    else stack + [c]
  }

  function Popped(stack: seq<string>): seq<string> { if stack == [] then [] else stack[..|stack| - 1] }

  /** Each name after a slash; the root alone is a slash. */
  function Joined(stack: seq<string>): (r: string)
    ensures Path(r)
  {
    if stack == [] then "" else Joined(stack[..|stack| - 1]) + "/" + stack[|stack| - 1]
  }

  function Absolute(stack: seq<string>): string { if stack == [] then "/" else Joined(stack) }

  // ---------- what the loop of dcanon does ----------

  /** The names kept so far, and the rest of the path from the next slash on; or the finished path. */
  datatype Turn = More(stack: seq<string>, rest: string) | Done(path: string)

  /** One turn of the loop; rest starts with a slash. */
  function Turned(stack: seq<string>, rest: string): (r: Turn)
    requires rest != "" && rest[0] == '/'
    ensures r.More? ==> |r.rest| < |rest| && Path(r.rest)
  {
    var s := Unslashed(rest);
    if s == "" then Done(Absolute(stack)) else Named(stack, Head(s), Tail(s))
  }

  /** A component c that is not empty, with t following it. */
  function Named(stack: seq<string>, c: string, t: string): (r: Turn)
    requires Path(t)
    ensures r.More? ==> r.rest == t
  {
    if c == "." then if t != "" then More(stack, t) else Done(if stack == [] then "/." else Joined(stack))
    else if c == ".." then if t != "" then More(Popped(stack), t) else Done(Absolute(Popped(stack)))
    else More(stack + [c], t)
  }

  function Canon(stack: seq<string>, rest: string): string
    requires Path(rest)
    decreases |rest|
  {
    if rest == "" then Joined(stack)
    else
      match Turned(stack, rest)
      case Done(path) => path
      case More(st, r) => Canon(st, r)
  }

  /** Whether the loop looks at the cell after a terminator at n: an empty component starts there. */
  predicate Reaches(stack: seq<string>, rest: string, n: nat)
    requires Path(rest)
    decreases |rest|
  {
    rest != "" &&
    if Unslashed(rest) == "" then |Joined(stack)| + 1 == n
    else
      match Turned(stack, rest)
      case Done(_) => false
      case More(st, r) => Reaches(st, r, n)
  }

  /** Names, each after one slash, and a last slash. */
  predicate SlashEnds(comps: seq<string>)
  {
    comps != [] && comps[|comps| - 1] == "" && Names(comps[..|comps| - 1])
  }

  lemma {:induction false} SlashEndsCons(c: string, comps: seq<string>)
    requires comps != []
    ensures SlashEnds([c] + comps) <==> Name(c) && SlashEnds(comps)
  {
    var all, i := [c] + comps, comps[..|comps| - 1];
    assert all[..|all| - 1] == [c] + i;
    if Names([c] + i) {
      forall d | d in i ensures Name(d) { assert d in [c] + i; }
      assert ([c] + i)[0] == c;
    }
  }

  lemma {:induction false} JoinedNext(stack: seq<string>, c: string)
    ensures Joined(stack + [c]) == Joined(stack) + "/" + c
  {
    assert (stack + [c])[..|stack|] == stack;
  }

  /** It does so only if nothing was dropped on the way. */
  lemma {:induction false} ReachesLaw(stack: seq<string>, rest: string, n: nat)
    requires Path(rest) && |Joined(stack) + rest| <= n
    ensures Reaches(stack, rest, n) <==> SlashEnds(Components(rest)) && |Joined(stack) + rest| == n
    decreases |rest|
  {
    if rest != "" {
      hide Joined, SlashEnds;
      var s, m := Unslashed(rest), rest[1..];
      var c, t, comps := Head(m), Tail(m), Components(Tail(m));
      assert Components(rest) == [c] + comps;
      if comps != [] { SlashEndsCons(c, comps); }
      assert s == Unslashed(m);
      if s == "" {
        ReachesSlashes(stack, rest);
      } else if m[0] != '/' {
        assert s == m;
        assert Turned(stack, rest) == Named(stack, c, t);
        JoinedNext(stack, c);
        ReachesNext(stack, c, t, n);
      } else {
        assert c == "" && t == m;
        ReachesShort(stack, rest, n);
      }
    }
  }

  lemma {:induction false} ReachesSlashes(stack: seq<string>, rest: string)
    requires rest != "" && rest[0] == '/' && Unslashed(rest) == ""
    ensures SlashEnds(Components(rest)) <==> |rest| == 1
  {
    var m := rest[1..];
    assert Unslashed(m) == "";
    if m == "" {
      assert Components(rest) == [""] + [] && [""][..0] == [];
    } else {
      assert Head(m) == "" && Tail(m) == m && Components(m) != [];
      SlashEndsCons("", Components(m));
      assert Components(rest) == [""] + Components(m);
    }
  }

  /** One turn over the component c, which one slash precedes. */
  lemma {:induction false} ReachesNext(stack: seq<string>, c: string, t: string, n: nat)
    requires Path(t) && c != "" && '/' !in c && |Joined(stack)| + 1 + |c| + |t| <= n
    requires |Joined(stack + [c])| == |Joined(stack)| + 1 + |c|
    ensures var next := Named(stack, c, t);
            (next.More? && Reaches(next.stack, t, n)) <==>
            SlashEnds([c] + Components(t)) && |Joined(stack)| + 1 + |c| + |t| == n
    decreases |c| + |t|
  {
    var next, comps := Named(stack, c, t), Components(t);
    if t == "" {
      assert comps == [] && [c] + comps == [c];
    } else {
      SlashEndsCons(c, comps);
      PoppedShort(stack);
      if next.More? { ReachesLaw(next.stack, t, n); }
    }
  }

  lemma {:induction false} PoppedShort(stack: seq<string>)
    ensures |Joined(Popped(stack))| <= |Joined(stack)| && (Names(stack) ==> Names(Popped(stack)))
  {
  }

  /** Slashes were dropped: the terminator stays out of reach. */
  lemma {:induction false} ReachesShort(stack: seq<string>, rest: string, n: nat)
    requires rest != "" && rest[0] == '/' && Unslashed(rest) != "" && |Unslashed(rest)| + 1 < |rest|
    requires |Joined(stack) + rest| <= n
    ensures !Reaches(stack, rest, n)
    decreases |rest|, 0
  {
    var s, next := Unslashed(rest), Turned(stack, rest);
    assert s == Head(s) + Tail(s);
    JoinedNext(stack, Head(s));
    PoppedShort(stack);
    if next.More? { ReachesLaw(next.stack, next.rest, n); }
  }

  // ---------- the normal form ----------

  /** A last component . with nothing kept before it. */
  predicate DotAtRoot(stack: seq<string>, comps: seq<string>)
  {
    comps != [] && comps[|comps| - 1] == "." && Normal(stack, comps[..|comps| - 1]) == []
  }

  lemma {:induction false} NormalAppend(stack: seq<string>, a: seq<string>, b: seq<string>)
    ensures Normal(stack, a + b) == Normal(Normal(stack, a), b)
    decreases |a|
  {
    if a == [] {
      assert a + b == b;
    } else {
      NormalAppend(After(stack, a[0]), a[1..], b);
      assert (a + b)[1..] == a[1..] + b;
    }
  }

  lemma {:induction false} DotAtRootStep(stack: seq<string>, c: string, comps: seq<string>)
    requires comps != []
    ensures DotAtRoot(stack, [c] + comps) <==> DotAtRoot(After(stack, c), comps)
  {
    var all := [c] + comps;
    var i := comps[..|comps| - 1];
    assert all[..|all| - 1] == [c] + i && ([c] + i)[1..] == i;
  }

  /** Slashes in a row add only empty components. */
  lemma {:induction false} ExtraSlashes(stack: seq<string>, rest: string)
    requires rest != "" && rest[0] == '/' && Unslashed(rest) != ""
    ensures var s := "/" + Unslashed(rest);
            Normal(stack, Components(rest)) == Normal(stack, Components(s)) &&
            (DotAtRoot(stack, Components(rest)) <==> DotAtRoot(stack, Components(s)))
    decreases |rest|
  {
    var m := rest[1..];
    if m == "" || m[0] != '/' {
      assert rest == "/" + m && Unslashed(rest) == m;
    } else {
      assert Head(m) == "" && Tail(m) == m;
      assert Unslashed(rest) == Unslashed(m);
      ExtraSlashes(stack, m);
      assert Components(rest) == [""] + Components(m);
      assert ([""] + Components(m))[1..] == Components(m);
      assert Components(m) != [];
      DotAtRootStep(stack, "", Components(m));
    }
  }

  lemma {:induction false} OnlySlashes(stack: seq<string>, rest: string)
    requires rest != "" && rest[0] == '/' && Unslashed(rest) == ""
    ensures Normal(stack, Components(rest)) == stack && !DotAtRoot(stack, Components(rest))
    decreases |rest|
  {
    var m := rest[1..];
    if m == "" {
      assert Components(rest) == [""] + [] && Components(rest)[1..] == [];
    } else {
      assert m[0] == '/' && Head(m) == "" && Tail(m) == m;
      OnlySlashes(stack, m);
      assert Components(rest) == [""] + Components(m);
      assert ([""] + Components(m))[1..] == Components(m);
      assert Components(m) != [];
      DotAtRootStep(stack, "", Components(m));
    }
  }

  /** The first real component, split off. */
  lemma {:induction false} FirstComponent(stack: seq<string>, s: string)
    requires s != "" && s[0] != '/'
    ensures var c, t := Head(s), Tail(s);
            Normal(stack, Components("/" + s)) == Normal(After(stack, c), Components(t)) &&
            (DotAtRoot(stack, Components("/" + s)) <==>
             if t == "" then c == "." && stack == [] else DotAtRoot(After(stack, c), Components(t)))
  {
    var c, t := Head(s), Tail(s);
    assert ("/" + s)[1..] == s;
    var comps := Components(t);
    assert Components("/" + s) == [c] + comps && ([c] + comps)[1..] == comps;
    if t == "" {
      assert [c] + comps == [c] && [c][..0] == [];
    } else {
      DotAtRootStep(stack, c, comps);
    }
  }

  /** dcanon's path is the join of the normalised components, unless . ends a path that is the root. */
  lemma {:induction false} CanonIsNormal(stack: seq<string>, rest: string)
    requires Path(rest) && (rest != "" || stack != [])
    ensures Canon(stack, rest) == if DotAtRoot(stack, Components(rest)) then "/."
                                  else Absolute(Normal(stack, Components(rest)))
    decreases |rest|
  {
    if rest != "" {
      var s := Unslashed(rest);
      if s == "" {
        OnlySlashes(stack, rest);
      } else {
        ExtraSlashes(stack, rest);
        FirstComponent(stack, s);
        var t := Tail(s);
        var next := Turned(stack, rest);
        if next.More? && (t != "" || next.stack != []) {
          CanonIsNormal(next.stack, next.rest);
        }
      }
    }
  }

  /** The exact law for absolute paths. */
  lemma {:induction false} CanonLaw(path: string)
    requires path != "" && path[0] == '/'
    ensures Canon([], path) == Absolute(Normal([], Components(path))) <==> !DotAtRoot([], Components(path))
  {
    CanonIsNormal([], path);
    if DotAtRoot([], Components(path)) { DotIsRoot([], Components(path)); }
  }

  lemma {:induction false} DotIsRoot(stack: seq<string>, comps: seq<string>)
    requires DotAtRoot(stack, comps)
    ensures Normal(stack, comps) == []
  {
    var i := comps[..|comps| - 1];
    assert comps == i + ["."];
    NormalAppend(stack, i, ["."]);
    assert ["."][1..] == [] && Normal([], ["."]) == [];
  }

  // ---------- the normal form is a normal form ----------

  lemma {:induction false} HeadIs(c: string, t: string)
    requires '/' !in c && Path(t)
    ensures Head(c + t) == c && Tail(c + t) == t
    decreases |c|
  {
    if c == "" {
      assert c + t == t;
    } else {
      HeadIs(c[1..], t);
      assert (c + t)[1..] == c[1..] + t && c == [c[0]] + c[1..];
    }
  }

  lemma {:induction false} ComponentsCons(c: string, t: string)
    requires '/' !in c && Path(t)
    ensures Components("/" + (c + t)) == [c] + Components(t)
  {
    HeadIs(c, t);
    assert ("/" + (c + t))[1..] == c + t;
  }

  lemma {:induction false} PathParts(a: string)
    requires a != "" && a[0] == '/'
    ensures a == "/" + (Head(a[1..]) + Tail(a[1..]))
  {
    assert a == "/" + a[1..];
  }

  lemma {:induction false} ComponentsAppend(a: string, b: string)
    requires Path(a) && Path(b)
    ensures Path(a + b) && Components(a + b) == Components(a) + Components(b)
    decreases |a|
  {
    hide Components, Head, Tail;
    if a == "" {
      assert a + b == b;
      NoComponents();
    } else {
      var c, t := Head(a[1..]), Tail(a[1..]);
      ComponentsAppend(t, b);
      PathParts(a);
      Assoc("/", c + t, b);
      Assoc(c, t, b);
      ComponentsCons(c, t);
      ComponentsCons(c, t + b);
      Assoc([c], Components(t), Components(b));
    }
  }

  lemma {:induction false} ComponentsJoined(stack: seq<string>)
    requires Names(stack)
    ensures Components(Joined(stack)) == stack
    decreases |stack|
  {
    hide Components, Joined;
    NoComponents();
    if stack == [] {
      JoinedNone();
    } else {
      var init, c := stack[..|stack| - 1], stack[|stack| - 1];
      assert c in stack && stack == init + [c];
      ComponentsJoined(init);
      JoinedNext(init, c);
      ComponentsCons(c, "");
      assert c + "" == c;
      Assoc(Joined(init), "/", c);
      ComponentsAppend(Joined(init), "/" + c);
      assert [c] + [] == [c];
    }
  }

  lemma {:induction false} JoinedNone()
    ensures Joined([]) == ""
  {
  }

  lemma {:induction false} NoComponents()
    ensures Components("") == []
  {
  }

  lemma {:induction false} NormalNames(stack: seq<string>, names: seq<string>)
    requires Names(names)
    ensures Normal(stack, names) == stack + names
    decreases |names|
  {
    if names != [] {
      assert names[0] in names;
      NormalNames(stack + [names[0]], names[1..]);
      assert stack + [names[0]] + names[1..] == stack + names;
    }
  }

  lemma {:induction false} ComponentsPlain(s: string)
    requires Path(s)
    ensures forall c | c in Components(s) :: '/' !in c
    decreases |s|
  {
    if s != "" { ComponentsPlain(Tail(s[1..])); }
  }

  lemma {:induction false} NormalIsNames(stack: seq<string>, comps: seq<string>)
    requires Names(stack) && forall c | c in comps :: '/' !in c
    ensures Names(Normal(stack, comps))
    decreases |comps|
  {
    if comps != [] {
      assert comps[0] in comps;
      NormalIsNames(After(stack, comps[0]), comps[1..]);
    }
  }

  /** A canonical path has no empty, . or .. component, and canonicalising it changes nothing. */
  lemma {:induction false} CanonIsCanonical(path: string)
    requires path != "" && path[0] == '/' && !DotAtRoot([], Components(path))
    ensures exists stack :: Names(stack) && Canon([], path) == Absolute(stack)
    ensures var c := Canon([], path); Path(c) && Canon([], c) == c
  {
    var stack := Normal([], Components(path));
    CanonIsNormal([], path);
    ComponentsPlain(path);
    NormalIsNames([], Components(path));
    if stack == [] {
      assert Unslashed("/") == Unslashed("/"[1..]) == "";
    } else {
      ComponentsJoined(stack);
      CanonIsNormal([], Joined(stack));
      NormalNames([], stack);
      assert [] + stack == stack;
      assert stack[|stack| - 1] in stack;
    }
  }

  /** Such a dot: the path /. stays as it is. */
  lemma {:induction false} DotStays()
    ensures Canon([], "/.") == "/." && Normal([], Components("/.")) == []
  {
    var s := ".";
    assert "/."[1..] == s && s[1..] == "" && [s[0]] + "" == s && Head(s) == s && Tail(s) == "";
    assert Unslashed("/.") == s;
    var one: seq<string>, none: seq<string> := ["."], [];
    assert Components("") == none && one + none == one && one[1..] == none;
    assert Components("/.") == one;
  }

  /** A path on which the loop looks past the terminator. */
  lemma {:induction false} UsrReaches()
    ensures Components("/usr/") == ["usr", ""] && SlashEnds(Components("/usr/")) && Reaches([], "/usr/", 5)
  {
    hide Components, Joined, Reaches;
    assert "/" + ("usr" + "/") == "/usr/" && "/" + ("" + "") == "/";
    ComponentsCons("usr", "/");
    ComponentsCons("", "");
    NoComponents();
    NoNameOne("usr");
    JoinedNone();
    assert "" + "/usr/" == "/usr/";
    ReachesLaw([], "/usr/", 5);
  }

  lemma {:induction false} NoNameOne(c: string)
    requires Name(c)
    ensures [c] + ([""] + []) == [c, ""] && SlashEnds([c, ""])
  {
    assert [c, ""][..1] == [c];
  }
}
