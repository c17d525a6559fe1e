/**
 * dnormalize and dgoto of bin/csh/dir.c: a relative name is resolved against the current directory by
 * taking names off its end, and canonicalising the result is canonicalising the plain concatenation.
 */
module DirNormalize {
  import opened Wrappers
  import opened Sequences
  import opened DirCanon
  import opened DirBuffer

  predicate IsDot(s: string) { s != "" && s[0] == '.' && (|s| == 1 || s[1] == '/') }
  predicate IsDotDot(s: string) { s != "" && s[0] == '.' && IsDot(s[1..]) }

  /** Leading . and .. components: how many of the latter, and what follows them. */
  function Dots(s: string): (r: (nat, string))
    ensures |r.1| <= |s|
    decreases |s|
  {
    if IsDot(s) then Dots(s[if |s| == 1 then 1 else 2..])
    else if IsDotDot(s) then
      var r := Dots(s[if |s| == 2 then 2 else 3..]);
      (r.0 + 1, r.1)
    else (0, s)
  }

  /** Position of the last slash. */
  function LastSlash(s: string): (r: Option<nat>)
    ensures r.Some? ==> r.value < |s| && s[r.value] == '/' && '/' !in s[r.value + 1..]
    ensures r.None? ==> '/' !in s
  {
    if s == "" then None
    else if s[|s| - 1] == '/' then Some(|s| - 1)
    else LastSlash(s[..|s| - 1])
  }

  function CutBack(cwd: string, n: nat): string
  {
    if n == 0 || LastSlash(cwd).None? then cwd else CutBack(cwd[..LastSlash(cwd).value], n - 1)
  }

  /** dnormalize with ignore_symlinks set, for a name that does not start with a slash. */
  function Resolved(cwd: string, name: string): string
  {
    var (n, rest) := Dots(name);
    var cut := CutBack(cwd, n);
    if rest != "" then cut + "/" + rest else if cut == "" then "/" else cut
  }

  /** dnormalize. */
  method DNormalize(ignoreLinks: bool, cwd: string, name: string) returns (r: string)
    ensures r == if ignoreLinks && !(name != "" && name[0] == '/') then Resolved(cwd, name) else name
  {
    if name != "" && name[0] == '/' { return name; }
    if !ignoreLinks { return name; }
    var dotdot, i := CountDots(name);
    var cut := CutDirs(cwd, dotdot);
    if i < |name| {
      return cut + "/" + name[i..];
    } else {
      return if cut == "" then "/" else cut;
    }
  }

  /** The loop over leading dots. */
  method CountDots(name: string) returns (dotdot: nat, i: nat)
    ensures i <= |name| && Dots(name) == (dotdot, name[i..])
  {
    dotdot, i := 0, 0;
    assert name[0..] == name;
    while i < |name|
      invariant i <= |name| && Dots(name) == (dotdot + Dots(name[i..]).0, Dots(name[i..]).1)
      decreases |name| - i
    {
      ghost var s := name[i..];
      if IsDot(name[i..]) {
        assert s[if |s| == 1 then 1 else 2..] == name[if i + 1 == |name| then i + 1 else i + 2..];
        i := i + 1;
        if i < |name| { i := i + 1; }
      } else if IsDotDot(name[i..]) {
        assert s[if |s| == 2 then 2 else 3..] == name[if i + 2 == |name| then i + 2 else i + 3..];
        dotdot := dotdot + 1;
        i := i + 2;
        if i < |name| { i := i + 1; }
      } else {
        break;
      }
    }
  }

  /** The loop that takes directories off the end. */
  method CutDirs(cwd: string, n: nat) returns (cut: string)
    ensures cut == CutBack(cwd, n)
  {
    cut := cwd;
    var dotdot := n;
    while dotdot > 0
      invariant 0 <= dotdot && CutBack(cwd, n) == CutBack(cut, dotdot)
    {
      var dp := LastIndex(cut);
      if dp.None? { break; }
      cut := cut[..dp.value];
      dotdot := dotdot - 1;
    }
  }

  /** Strrchr for a slash. */
  method LastIndex(s: string) returns (r: Option<nat>)
    ensures r == LastSlash(s)
  {
    var i := |s|;
    assert s[..i] == s;
    while i > 0
      invariant 0 <= i <= |s| && LastSlash(s) == LastSlash(s[..i])
    {
      assert s[..i][..i - 1] == s[..i - 1];
      if s[i - 1] == '/' { return Some(i - 1); }
      i := i - 1;
    }
    return None;
  }

  // ---------- leading dots, written out ----------

  /** . and .. components in front of a name; true stands for .. */
  function Lead(ups: seq<bool>): string
  {
    if ups == [] then "" else (if ups[0] then "../" else "./") + Lead(ups[1..])
  }

  function Ups(ups: seq<bool>): nat { if ups == [] then 0 else (if ups[0] then 1 else 0) + Ups(ups[1..]) }

  predicate StartsDot(s: string) { s == "." || s == ".." || "./" <= s || "../" <= s }

  /** They are counted and taken off, and nothing else is. */
  lemma {:induction false} DotsRead(ups: seq<bool>, rest: string)
    requires !StartsDot(rest)
    ensures Dots(Lead(ups) + rest) == (Ups(ups), rest)
    ensures Dots(Lead(ups) + ".") == (Ups(ups), "") && Dots(Lead(ups) + "..") == (Ups(ups) + 1, "")
    decreases |ups|
  {
    hide Dots;
    if ups == [] {
      DotsNone(rest);
      assert "" + rest == rest && "" + "." == "." && "" + ".." == "..";
      DotsAlone();
    } else {
      DotsRead(ups[1..], rest);
      DotsStep(ups, rest);
      DotsStep(ups, ".");
      DotsStep(ups, "..");
    }
  }

  lemma {:induction false} DotsAlone()
    ensures Dots(".") == (0, "") && Dots("..") == (1, "")
  {
    assert "."[1..] == "" && ".."[2..] == "" && ".."[1..] == ".";
  }

  lemma {:induction false} DotsNone(s: string)
    requires !StartsDot(s)
    ensures Dots(s) == (0, s)
  {
    assert IsDot(s) ==> s == "." || "./" <= s;
    assert IsDotDot(s) ==> s == ".." || "../" <= s;
  }

  lemma {:induction false} DotsStep(ups: seq<bool>, rest: string)
    requires ups != []
    ensures var d := Dots(Lead(ups[1..]) + rest); Dots(Lead(ups) + rest) == (d.0 + if ups[0] then 1 else 0, d.1)
  {
    var lead := Lead(ups[1..]);
    assert Lead(ups) == (if ups[0] then "../" else "./") + lead;
    hide Dots, Lead;
    if ups[0] {
      Assoc("../", lead, rest);
      DotsUp(lead + rest);
    } else {
      Assoc("./", lead, rest);
      DotsHere(lead + rest);
    }
  }

  lemma {:induction false} DotsUp(t: string)
    ensures Dots("../" + t) == (Dots(t).0 + 1, Dots(t).1)
  {
    var s := "../" + t;
    assert s[1..][1] == '/' && !IsDot(s) && s[3..] == t;
  }

  lemma {:induction false} DotsHere(t: string)
    ensures Dots("./" + t) == Dots(t)
  {
    var s := "./" + t;
    assert s[2..] == t;
  }

  /** The first of the names of a directory that are left when some are taken off its end. */
  function Kept(stack: seq<string>, n: nat): seq<string> { if n >= |stack| then [] else stack[..|stack| - n] }

  lemma {:induction false} PopNIs(stack: seq<string>, n: nat)
    ensures PopN(stack, n) == Kept(stack, n)
    decreases n
  {
    if n > 0 { PopNIs(Popped(stack), n - 1); }
  }

  /** A relative name against a canonical directory, as a string. */
  lemma {:induction false} ResolvedIs(stack: seq<string>, ups: seq<bool>, rest: string)
    requires Names(stack) && !StartsDot(rest)
    ensures var dir := if Ups(ups) == 0 then Absolute(stack) else Joined(Kept(stack, Ups(ups)));
            Resolved(Absolute(stack), Lead(ups) + rest) ==
            if rest != "" then dir + "/" + rest else if dir == "" then "/" else dir
  {
    hide Dots, CutBack, Absolute, Joined;
    DotsRead(ups, rest);
    CutAbsolute(stack, Ups(ups));
    PopNIs(stack, Ups(ups));
  }

  // ---------- resolving does not change where the name leads ----------

  function PopN(stack: seq<string>, n: nat): seq<string>
    decreases n
  {
    if n == 0 then stack else PopN(Popped(stack), n - 1)
  }

  lemma {:induction false} PopNNames(stack: seq<string>, n: nat)
    requires Names(stack)
    ensures Names(PopN(stack, n))
    decreases n
  {
    if n > 0 { PopNNames(Popped(stack), n - 1); }
  }

  lemma {:induction false} LastSlashIs(a: string, c: string)
    requires '/' !in c
    ensures LastSlash(a + "/" + c) == Some(|a|)
    decreases |c|
  {
    if c == "" {
      assert a + "/" + c == a + "/";
    } else {
      var n := |c| - 1;
      assert (a + "/" + c)[..|a| + 1 + n] == a + "/" + c[..n];
      LastSlashIs(a, c[..n]);
    }
  }

  lemma {:induction false} CutOnce(j: string, c: string, n: nat)
    requires '/' !in c && n > 0
    ensures CutBack(j + "/" + c, n) == CutBack(j, n - 1)
  {
    LastSlashIs(j, c);
    assert (j + "/" + c)[..|j|] == j;
  }

  lemma {:induction false} JoinedTop(stack: seq<string>)
    requires stack != []
    ensures Joined(stack) == Joined(Popped(stack)) + "/" + stack[|stack| - 1]
  {
  }

  lemma {:induction false} CutJoined(stack: seq<string>, n: nat)
    requires Names(stack)
    ensures CutBack(Joined(stack), n) == Joined(PopN(stack, n))
    decreases n
  {
    if n > 0 {
      CutJoined(Popped(stack), n - 1);
      if stack != [] {
        hide CutBack, Joined;
        assert stack[|stack| - 1] in stack;
        JoinedTop(stack);
        CutOnce(Joined(Popped(stack)), stack[|stack| - 1], n);
      }
    }
  }

  /** What is left of a canonical current directory. */
  lemma {:induction false} CutAbsolute(stack: seq<string>, n: nat)
    requires Names(stack)
    ensures CutBack(Absolute(stack), n) == if n == 0 then Absolute(stack) else Joined(PopN(stack, n))
  {
    CutJoined(stack, n);
    if stack == [] && n > 0 {
      assert LastSlash("/") == Some(0) && "/"[..0] == "";
      CutJoined([], n - 1);
    }
  }

  /** A leading component c of the name is the first component of the path. */
  lemma {:induction false} LeadingPart(s: string, c: string)
    requires '/' !in c && |c| <= |s| && s[..|c|] == c && (|s| > |c| ==> s[|c|] == '/')
    ensures |s| > |c| ==> Components("/" + s) == [c] + Components("/" + s[|c| + 1..])
    ensures |s| == |c| ==> Components("/" + s) == [c]
  {
    hide Components;
    var t := s[|c|..];
    assert s == c + t;
    ComponentsCons(c, t);
    if t == "" {
      NoComponents();
      assert [c] + [] == [c];
    } else {
      assert t == "/" + s[|c| + 1..];
    }
  }

  lemma {:induction false} DotRest(s: string)
    requires s != ""
    ensures IsDot(s) && |s| > 1 ==> Components("/" + s) == ["."] + Components("/" + s[2..])
    ensures IsDotDot(s) && |s| > 2 ==> Components("/" + s) == [".."] + Components("/" + s[3..])
    ensures IsDot(s) && |s| == 1 ==> Components("/" + s) == ["."]
    ensures IsDotDot(s) && |s| == 2 ==> Components("/" + s) == [".."]
  {
    hide Components;
    if IsDot(s) {
      LeadingPart(s, ".");
    } else if IsDotDot(s) {
      assert s[1..][0] == s[1];
      LeadingPart(s, "..");
    }
  }

  lemma {:induction false} SlashOnly()
    ensures Components("/") == [""]
    ensures forall st :: Normal(st, [""]) == st
  {
    assert "/"[1..] == "" && Components("") == [];
    forall st ensures Normal(st, [""]) == st { assert [""][1..] == []; }
  }

  /** Skipping leading dots is taking that many names off the stack. */
  lemma {:induction false} DotsNormal(stack: seq<string>, name: string)
    ensures var (n, rest) := Dots(name);
            Normal(stack, Components("/" + name)) == Normal(PopN(stack, n), Components("/" + rest)) &&
            (rest != "" ==> (DotAtRoot(stack, Components("/" + name)) <==>
                             DotAtRoot(PopN(stack, n), Components("/" + rest))))
    decreases |name|
  {
    hide Components, DotAtRoot;
    if name != "" && (IsDot(name) || IsDotDot(name)) {
      DotRest(name);
      SlashOnly();
      var c := if IsDot(name) then "." else "..";
      var m := if |name| == |c| then "" else name[|c| + 1..];
      DotsNormal(After(stack, c), m);
      if m == "" && |name| == |c| {
        assert "/" + m == "/" && Dots(m) == (0, "");
        NormalOne(stack, c);
      } else {
        NormalCons(stack, c, Components("/" + m));
        SomeComponents("/" + m);
        DotAtRootStep(stack, c, Components("/" + m));
      }
    }
  }

  lemma {:induction false} SomeComponents(s: string)
    requires s != "" && s[0] == '/'
    ensures Components(s) != []
  {
  }

  lemma {:induction false} NormalCons(stack: seq<string>, c: string, comps: seq<string>)
    ensures Normal(stack, [c] + comps) == Normal(After(stack, c), comps)
  {
    assert ([c] + comps)[1..] == comps;
  }

  lemma {:induction false} NormalOne(stack: seq<string>, c: string)
    ensures Normal(stack, [c]) == After(stack, c)
  {
    assert [c][1..] == [];
  }

  lemma {:induction false} DotAtRootAppend(stack: seq<string>, a: seq<string>, b: seq<string>)
    requires b != []
    ensures DotAtRoot(stack, a + b) <==> DotAtRoot(Normal(stack, a), b)
  {
    var i := b[..|b| - 1];
    assert (a + b)[..|a + b| - 1] == a + i;
    NormalAppend(stack, a, i);
  }

  lemma {:induction false} AbsoluteComponents(stack: seq<string>)
    requires Names(stack)
    ensures Path(Absolute(stack)) && Normal([], Components(Absolute(stack))) == stack
    ensures !DotAtRoot([], Components(Absolute(stack)))
  {
    SlashOnly();
    if stack != [] {
      ComponentsJoined(stack);
      NormalNames([], stack);
      assert [] + stack == stack && stack[|stack| - 1] in stack;
    }
  }

  lemma {:induction false} JoinedComponents(stack: seq<string>)
    requires Names(stack)
    ensures Normal([], Components(Joined(stack))) == stack
  {
    ComponentsJoined(stack);
    NormalNames([], stack);
    assert [] + stack == stack;
  }

  lemma {:induction false} PathAfter(dir: string, name: string, stack: seq<string>)
    requires Path(dir) && Normal([], Components(dir)) == stack
    ensures Path(dir + "/" + name)
    ensures Normal([], Components(dir + "/" + name)) == Normal(stack, Components("/" + name))
    ensures DotAtRoot([], Components(dir + "/" + name)) <==> DotAtRoot(stack, Components("/" + name))
  {
    Assoc(dir, "/", name);
    ComponentsAppend(dir, "/" + name);
    NormalAppend([], Components(dir), Components("/" + name));
    assert Components("/" + name) != [];
    DotAtRootAppend([], Components(dir), Components("/" + name));
  }

  /** The resolved name and the concatenation have the same normal form. */
  lemma {:induction false} ResolvedNormal(stack: seq<string>, name: string)
    requires Names(stack)
    ensures var a, b := Resolved(Absolute(stack), name), Absolute(stack) + "/" + name;
            a != "" && a[0] == '/' && Path(b) && Normal([], Components(a)) == Normal([], Components(b)) &&
            (DotAtRoot([], Components(a)) <==> Dots(name).1 != "" && DotAtRoot([], Components(b)))
  {
    hide Components, DotAtRoot, Normal, Joined, Dots, CutBack, Absolute;
    var (n, rest) := Dots(name);
    var cut, st := CutBack(Absolute(stack), n), PopN(stack, n);
    PopNNames(stack, n);
    CutAbsolute(stack, n);
    AbsoluteComponents(stack);
    JoinedComponents(st);
    AbsoluteComponents(st);
    AbsoluteForms(st);
    AbsoluteForms(stack);
    PathAfter(Absolute(stack), name, stack);
    DotsNormal(stack, name);
    if rest != "" {
      PathAfter(cut, rest, st);
    } else {
      SlashOnly();
      assert "/" + rest == "/";
      assert Resolved(Absolute(stack), name) == Absolute(st);
    }
  }

  lemma {:induction false} AbsoluteForms(st: seq<string>)
    ensures Absolute(st) == (if Joined(st) == "" then "/" else Joined(st))
    ensures Absolute(st) != "" && Absolute(st)[0] == '/'
  {
  }

  /**
   * Canonicalising dnormalize's result gives the same path as canonicalising the concatenation, exactly
   * unless the name is nothing but dots ending in . and leads to the root: then the concatenation keeps
   * its dot and the resolved name does not.
   */
  lemma {:induction false} ResolveThenCanon(stack: seq<string>, name: string)
    requires Names(stack)
    ensures var a, b := Resolved(Absolute(stack), name), Absolute(stack) + "/" + name;
            Path(a) && Path(b) &&
            (Canon([], a) == Canon([], b) <==>
             !(Dots(name).1 == "" && DotAtRoot(stack, Components("/" + name))))
  {
    hide Components, DotAtRoot, Normal, Joined, Dots, CutBack, Absolute, Resolved;
    var a, b := Resolved(Absolute(stack), name), Absolute(stack) + "/" + name;
    ResolvedNormal(stack, name);
    AbsoluteComponents(stack);
    PathAfter(Absolute(stack), name, stack);
    AbsoluteForms(stack);
    CanonIsNormal([], a);
    CanonIsNormal([], b);
    if DotAtRoot([], Components(b)) {
      DotIsRoot([], Components(b));
      assert Absolute([]) == "/" by { RootIs(); }
    }
  }

  /** Such a name: the dot at the root. */
  lemma {:induction false} DotAtRootDiffers()
    ensures Resolved("/", ".") == "/" && Canon([], "/") == "/" && Canon([], "/" + "/" + ".") == "/."
  {
    var dot, rest := ".", "";
    assert IsDot(dot) && dot[1..] == rest && Dots(rest) == (0, rest);
    assert Dots(dot) == (0, rest) && CutBack("/", 0) == "/";
    assert "/"[1..] == rest && Unslashed("/") == Unslashed(rest) == rest;
    RootIs();
    var path := "/" + "/" + ".";
    assert path[1..] == "/." && "/."[1..] == dot && Unslashed(path) == Unslashed("/.") == dot;
    DotStays();
    assert Turned([], path) == Turned([], "/.");
  }

  lemma {:induction false} RootIs()
    ensures Absolute([]) == "/"
  {
  }

  /**
   * dgoto: the new name of the current directory for a name typed at cd, given the old one. A name that
   * is not absolute is appended to the current directory, whose own part is not looked at again. `past`
   * says that dcanon looks past the text and its terminator, which is all that dgoto allocates.
   */
  method DGoto(cwd: string, name: string, ghost stack: seq<string>) returns (r: string, ghost past: bool)
    requires Names(stack) && cwd == Absolute(stack) && NUL !in cwd && NUL !in name
    ensures var path := if name == "" || name[0] != '/' then "/" + name else name;
            Path(path) && r == Canon(if path == name then [] else stack, path) && past == SlashEnds(Components(path))
  {
    hide Joined, Canon, Absolute;
    if name == "" || name[0] != '/' {
      // no slash is added after the root
      var keep := if |cwd| == 1 then 0 else |cwd|;
      KeptPart(stack, cwd, keep, name);
      r, past := Canonical(cwd[..keep] + "/" + name, keep, stack, "/" + name);
    } else {
      assert Joined([]) + name == name by { RootJoined(); }
      r, past := Canonical(name, 0, [], name);
    }
  }

  lemma {:induction false} RootJoined()
    ensures Joined([]) == ""
  {
  }

  /** dcanon on a fresh copy of the path. */
  method Canonical(path: string, start: nat, ghost st: seq<string>, ghost rest: string)
    returns (r: string, ghost past: bool)
    requires NUL !in path && Names(st) && Path(rest) && path == Joined(st) + rest && start == |Joined(st)|
    ensures r == Canon(st, rest) && past == SlashEnds(Components(rest))
  {
    hide Joined, Canon, Components, SlashEnds;
    var a := NewBuffer(path);
    ghost var top := DCanon(a, start, st, rest);
    past := top > |path|;
    r := ReadOut(a, Canon(st, rest));
  }

  /** A buffer for the path, its terminator and the one cell more that some paths need. */
  method NewBuffer(path: string) returns (a: array<char>)
    requires NUL !in path
    ensures fresh(a) && a.Length == |path| + 2 && Ends(a, 0, path) && a[|path| + 1] == NUL
  {
    a := new char[|path| + 2](i => if 0 <= i < |path| then path[i] else NUL);
    assert a[0..|path|] == path;
  }

  lemma {:induction false} KeptPart(stack: seq<string>, cwd: string, keep: nat, name: string)
    requires Names(stack) && cwd == Absolute(stack) && keep == (if |cwd| == 1 then 0 else |cwd|)
    ensures keep == |Joined(stack)| && cwd[..keep] + "/" + name == Joined(stack) + ("/" + name)
  {
    if stack != [] { JoinedNonEmpty(stack); }
    assert cwd[..keep] == Joined(stack);
    Assoc(Joined(stack), "/", name);
  }

  method ReadOut(a: array<char>, ghost s: string) returns (r: string)
    requires Ends(a, 0, s)
    ensures r == s
  {
    var i := 0;
    assert forall k | 0 <= k < |s| :: a[k] == a[0..|s|][k] == s[k];
    while a[i] != NUL
      invariant 0 <= i <= |s|
      decreases |s| - i
    {
      i := i + 1;
    }
    r := a[..i];
    assert r == a[0..|s|];
  }
}
