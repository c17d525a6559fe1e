/**
 * The command hash of bin/csh/exec.c: a bit table over the names in the path's directories, which lets
 * a search skip directories and must not change what it finds.
 */
module ExecHash {
  import opened Wrappers

  const HSHSIZ := 8192
  const HSHMUL := 243

  /** Bitwise and of numbers that are not negative. */
  function And(x: nat, y: nat): (r: nat)
    decreases x
  {
    if x == 0 then 0 else 2 * And(x / 2, y / 2) + (x % 2) * (y % 2)
  }

  function Pow2(k: nat): (r: nat)
    ensures r > 0
  {
    if k == 0 then 1 else 2 * Pow2(k - 1)
  }

  /** Masking with k ones is the remainder by the k-th power of two. */
  lemma {:induction false} MaskIsRemainder(x: nat, k: nat)
    ensures And(x, Pow2(k) - 1) == x % Pow2(k)
    decreases k
  {
    hide And;
    if k == 0 {
      AndZero(x);
    } else {
      var p := Pow2(k - 1);
      MaskIsRemainder(x / 2, k - 1);
      AndOnes(x, p);
      Halves(x, p);
    }
  }

  lemma {:induction false} AndOnes(x: nat, p: nat)
    requires p > 0
    ensures And(x, 2 * p - 1) == 2 * And(x / 2, p - 1) + x % 2
  {
    assert (2 * p - 1) / 2 == p - 1 && (2 * p - 1) % 2 == 1;
  }

  lemma {:induction false} AndZero(x: nat)
    ensures And(x, 0) == 0
  {
    if x > 0 { AndZero(x / 2); }
  }

  lemma {:induction false} Halves(x: nat, p: nat)
    requires p > 0
    ensures x % (2 * p) == 2 * (x / 2 % p) + x % 2
  {
    var h := x / 2;
    var q, r := h / p, 2 * (h % p) + x % 2;
    assert h == q * p + h % p;
    assert x == q * (2 * p) + r && 0 <= r < 2 * p;
    Remainder(x, 2 * p, q, r);
  }

  lemma {:induction false} Remainder(x: nat, d: nat, q: nat, r: nat)
    requires d > 0 && x == q * d + r && r < d
    ensures x % d == r
  {
    var e := x / d - q;
    assert e > 0 ==> e * d >= d;
    assert e < 0 ==> e * d <= 0 - d;
    assert x % d == r - e * d;
  }

  /** The hash macro, and the bit number of the macros bit and bis. */
  function Hash(a: nat, b: nat): (r: nat)
    ensures r < HSHSIZ && r == (a * HSHMUL + b) % HSHSIZ
  {
    MaskIsRemainder(a * HSHMUL + b, 13);
    And(a * HSHMUL + b, HSHSIZ - 1)
  }

  function BitOf(b: nat): (r: nat)
    ensures r < 8 && r == b % 8
  {
    MaskIsRemainder(b, 3);
    And(b, 7)
  }

  function HashFrom(h: nat, s: string): (r: nat)
    requires h < HSHSIZ
    ensures r < HSHSIZ
    decreases |s|
  {
    if s == "" then h else HashFrom(Hash(h, s[0] as int), s[1..])
  }

  function HashName(s: string): (r: nat)
    ensures r < HSHSIZ
  {
    HashFrom(0, s)
  }

  // ---------- the bit table ----------

  function Mask(k: nat): bv8
    requires k < 8
  {
    (1 as bv8) << k
  }

  /** bit(xhash, b). */
  predicate IsSet(t: seq<bv8>, b: nat)
    requires |t| == HSHSIZ / 8 && b < HSHSIZ
  {
    t[b / 8] & Mask(BitOf(b)) != 0
  }

  lemma {:induction false} MaskBits(x: bv8, i: nat, j: nat)
    requires i < 8 && j < 8
    ensures (x | Mask(i)) & Mask(j) != 0 <==> i == j || x & Mask(j) != 0
  {
    MaskValue(i);
    MaskValue(j);
  }

  lemma {:induction false} MaskValue(k: nat)
    requires k < 8
    ensures Mask(k) == if k == 0 then 1 else if k == 1 then 2 else if k == 2 then 4 else if k == 3 then 8
                       else if k == 4 then 16 else if k == 5 then 32 else if k == 6 then 64 else 128
  {
    assert k == 0 || k == 1 || k == 2 || k == 3 || k == 4 || k == 5 || k == 6 || k == 7;
  }

  /** bis sets its own bit and no other. */
  lemma {:induction false} BisSetsOne(t: seq<bv8>, b: nat, c: nat)
    requires |t| == HSHSIZ / 8 && b < HSHSIZ && c < HSHSIZ
    ensures IsSet(t[b / 8 := t[b / 8] | Mask(BitOf(b))], c) <==> b == c || IsSet(t, c)
  {
    if b / 8 == c / 8 { MaskBits(t[b / 8], BitOf(b), BitOf(c)); }
  }

  // ---------- files ----------

  /** An entry of a directory as readdir returns it. */
  datatype Entry = Entry(ino: nat, name: string)

  /** A snapshot of the file system: what opendir and readdir give, whether a command can be executed in
      a directory, and whether it can be executed by its name alone. */
  datatype Files = Files(list: string -> Option<seq<Entry>>, exec: (string, string) -> bool, bare: string -> bool)

  predicate Absolute(dir: string) { dir != "" && dir[0] == '/' }

  /** Names that dohash enters. */
  predicate Counts(e: Entry) { e.ino != 0 && e.name != "." && e.name != ".." }

  /** Whatever can be executed in a directory that can be read is among its entries. */
  ghost predicate Consistent(fs: Files)
  {
    forall dir, name | Absolute(dir) && '/' !in name && fs.exec(dir, name) && fs.list(dir).Some? ::
      exists e | e in fs.list(dir).value :: Counts(e) && e.name == name
  }

  // ---------- dohash ----------

  /** Bit b is due to an entry of directory i. */
  ghost predicate FromDir(fs: Files, dir: string, i: nat, b: nat)
  {
    Absolute(dir) && fs.list(dir).Some? &&
    exists e | e in fs.list(dir).value :: Counts(e) && Hash(HashName(e.name), i) == b
  }

  /** What the table must hold for the first n directories of the path. */
  ghost predicate InTable(fs: Files, path: seq<string>, n: nat, b: nat)
    requires n <= |path|
  {
    exists i | 0 <= i < n :: FromDir(fs, path[i], i, b)
  }

  ghost predicate Built(t: seq<bv8>, fs: Files, path: seq<string>)
  {
    |t| == HSHSIZ / 8 && forall b: nat | b < HSHSIZ :: IsSet(t, b) <==> InTable(fs, path, |path|, b)
  }

  /** A directory sets a bit only for a file that is there and is not . or .. */
  lemma {:induction false} OnlyFilesCount(fs: Files, dir: string, i: nat, b: nat)
    ensures FromDir(fs, dir, i, b) <==>
            && dir != "" && dir[0] == '/' && fs.list(dir).Some?
            && exists k | 0 <= k < |fs.list(dir).value| ::
                 var e := fs.list(dir).value[k];
                 e.ino != 0 && e.name != "." && e.name != ".." && (HashName(e.name) * 243 + i) % 8192 == b
  {
    if FromDir(fs, dir, i, b) {
      var es := fs.list(dir).value;
      var e :| e in es && Counts(e) && Hash(HashName(e.name), i) == b;
      var k :| 0 <= k < |es| && es[k] == e;
    }
  }

  // ---------- lookup ----------

  predicate Found(fs: Files, dir: string, name: string)
  {
    if dir == "" || dir == "." then fs.bare(name) else fs.exec(dir, name)
  }

  /** Whether the search looks into directory i at all. */
  predicate Tried(table: Option<seq<bv8>>, dir: string, name: string, i: nat)
    requires table.Some? ==> |table.value| == HSHSIZ / 8
  {
    table.None? || '/' in name || !Absolute(dir) || IsSet(table.value, Hash(HashName(name), i))
  }

  /** The directories searched for a name. */
  function Dirs(path: Option<seq<string>>, name: string): (r: seq<string>)
    ensures r != []
  {
    if path.None? || path.value == [] || '/' in name then [""] else path.value
  }

  /** One more than the first index from i on where the command is found, or 0. */
  function Lookup(fs: Files, table: Option<seq<bv8>>, dirs: seq<string>, name: string, i: nat): (r: nat)
    requires i <= |dirs| && (table.Some? ==> |table.value| == HSHSIZ / 8)
    ensures r == 0 || i < r <= |dirs|
    decreases |dirs| - i
  {
    if i == |dirs| then 0
    else if Tried(table, dirs[i], name, i) && Found(fs, dirs[i], name) then i + 1
    else Lookup(fs, table, dirs, name, i + 1)
  }

  /** Without a table the search returns the first directory that has the command. */
  lemma {:induction false} LookupFirst(fs: Files, dirs: seq<string>, name: string, i: nat)
    requires i <= |dirs|
    ensures var r := Lookup(fs, None, dirs, name, i);
            (r == 0 ==> forall k | i <= k < |dirs| :: !Found(fs, dirs[k], name)) &&
            (r > 0 ==> Found(fs, dirs[r - 1], name) && forall k | i <= k < r - 1 :: !Found(fs, dirs[k], name))
    decreases |dirs| - i
  {
    if i < |dirs| { LookupFirst(fs, dirs, name, i + 1); }
  }

  /** The command is in a directory: by its name alone in this one, by the joined name in any other. */
  predicate Has(fs: Files, dir: string, name: string)
  {
    match dir
    case "" => fs.bare(name)
    case "." => fs.bare(name)
    case _ => fs.exec(dir, name)
  }

  /** A plain name is looked for in the path, directory by directory; a name with a slash, or any name when
      there is no path, only as it stands. */
  lemma {:induction false} SearchMeans(fs: Files, path: Option<seq<string>>, name: string)
    ensures var r, dirs := Lookup(fs, None, Dirs(path, name), name, 0), if path.Some? then path.value else [];
            if dirs != [] && forall k | 0 <= k < |name| :: name[k] != '/' then
              && (r == 0 ==> forall k | 0 <= k < |dirs| :: !Has(fs, dirs[k], name))
              && (r > 0 ==> r <= |dirs| && Has(fs, dirs[r - 1], name) &&
                            forall k | 0 <= k < r - 1 :: !Has(fs, dirs[k], name))
            else r == if fs.bare(name) then 1 else 0
  {
    var dirs := Dirs(path, name);
    LookupFirst(fs, dirs, name, 0);
    if path.Some? && path.value != [] && '/' !in name { assert dirs == path.value; }
    assert forall k | 0 <= k < |name| :: name[k] in name;
    assert forall k | 0 <= k < |dirs| :: Found(fs, dirs[k], name) == Has(fs, dirs[k], name);
  }

  /** One more character of a name: the hash so far times the multiplier, and the character. */
  lemma {:induction false} HashGrows(h: nat, s: string, c: char)
    requires h < HSHSIZ
    ensures HashFrom(h, "") == h && HashFrom(h, s + [c]) == (HashFrom(h, s) * 243 + c as int) % 8192
    decreases |s|
  {
    if s == "" {
      assert s + [c] == [c] && [c][1..] == "";
    } else {
      assert (s + [c])[1..] == s[1..] + [c];
      HashGrows(Hash(h, s[0] as int), s[1..], c);
    }
  }

  /** With any table: the answer is the same exactly when the directory that has the command is tried. */
  lemma {:induction false} SameAnswer(fs: Files, t: seq<bv8>, dirs: seq<string>, name: string, i: nat)
    requires i <= |dirs| && |t| == HSHSIZ / 8
    ensures var r := Lookup(fs, None, dirs, name, i);
            Lookup(fs, Some(t), dirs, name, i) == r <==> r == 0 || Tried(Some(t), dirs[r - 1], name, r - 1)
    decreases |dirs| - i
  {
    if i < |dirs| { SameAnswer(fs, t, dirs, name, i + 1); }
  }

  /** A directory that could be read when the table was built is tried whenever it has the command. */
  lemma {:induction false} ReadableIsTried(fs: Files, t: seq<bv8>, path: seq<string>, name: string, i: nat)
    requires Consistent(fs) && Built(t, fs, path) && i < |path| && Found(fs, path[i], name)
    requires Absolute(path[i]) ==> fs.list(path[i]).Some?
    ensures Tried(Some(t), path[i], name, i)
  {
    if '/' !in name && Absolute(path[i]) {
      var e :| e in fs.list(path[i]).value && Counts(e) && e.name == name;
      var b := Hash(HashName(name), i);
      assert FromDir(fs, path[i], i, b);
      assert InTable(fs, path, |path|, b);
    }
  }

  /**
   * The table changes no answer when every absolute directory of the path could be read: no false
   * negatives, whatever collides.
   */
  lemma {:induction false} HashKeepsAnswers(fs: Files, t: seq<bv8>, path: seq<string>, name: string)
    requires Consistent(fs) && Built(t, fs, path)
    requires forall dir | dir in path && Absolute(dir) :: fs.list(dir).Some?
    ensures var dirs := Dirs(Some(path), name);
            Lookup(fs, Some(t), dirs, name, 0) == Lookup(fs, None, dirs, name, 0)
  {
    var dirs := Dirs(Some(path), name);
    var r := Lookup(fs, None, dirs, name, 0);
    SameAnswer(fs, t, dirs, name, 0);
    LookupFirst(fs, dirs, name, 0);
    if r > 0 && dirs == path { ReadableIsTried(fs, t, path, name, r - 1); }
  }

  /**
   * In general the table changes the answer exactly when the command's first directory is absolute, could
   * not be read, and no entry of the path happens to share the bit.
   */
  lemma {:induction false} HashLosesExactly(fs: Files, t: seq<bv8>, path: seq<string>, name: string)
    requires Consistent(fs) && Built(t, fs, path) && path != [] && '/' !in name
    ensures var r := Lookup(fs, None, path, name, 0);
            Lookup(fs, Some(t), path, name, 0) != r <==>
            r > 0 && Absolute(path[r - 1]) && fs.list(path[r - 1]).None? &&
            !InTable(fs, path, |path|, Hash(HashName(name), r - 1))
  {
    var r := Lookup(fs, None, path, name, 0);
    SameAnswer(fs, t, path, name, 0);
    LookupFirst(fs, path, name, 0);
    if r > 0 && (Absolute(path[r - 1]) ==> fs.list(path[r - 1]).Some?) { ReadableIsTried(fs, t, path, name, r - 1); }
  }

  /** Such a loss: a directory that may be searched but not read. */
  lemma {:induction false} UnreadableLoses(t: seq<bv8>)
    requires Built(t, Files(_ => None, (d, n) => d == "/x" && n == "a", _ => false), ["/x"])
    ensures var fs := Files(_ => None, (d, n) => d == "/x" && n == "a", _ => false);
            Consistent(fs) && Lookup(fs, None, ["/x"], "a", 0) == 1 && Lookup(fs, Some(t), ["/x"], "a", 0) == 0
  {
    var fs: Files := Files(_ => None, (d, n) => d == "/x" && n == "a", _ => false);
    HashLosesExactly(fs, t, ["/x"], "a");
  }

  // ---------- the code ----------

  class CommandHash {
    const xhash: array<bv8>
    var havhash: bool

    ghost predicate Valid() reads this { xhash.Length == HSHSIZ / 8 }

    constructor ()
      ensures Valid() && fresh(xhash) && !havhash
    {
      xhash := new bv8[HSHSIZ / 8];
      havhash := false;
    }

    /** The table a search uses. */
    ghost function Table(): Option<seq<bv8>> reads this, xhash { if havhash then Some(xhash[..]) else None }

    /** hashname. */
    method NameHash(name: string) returns (h: nat)
      ensures h == HashName(name)
    {
      h := 0;
      var i := 0;
      while i < |name|
        invariant i <= |name| && h < HSHSIZ && HashName(name) == HashFrom(h, name[i..])
      {
        assert name[i..][1..] == name[i + 1..];
        h := Hash(h, name[i] as int);
        i := i + 1;
      }
    }

    /** bis(xhash, b). */
    method SetBit(b: nat)
      requires Valid() && b < HSHSIZ
      modifies xhash
      ensures forall c: nat | c < HSHSIZ :: IsSet(xhash[..], c) <==> c == b || IsSet(old(xhash[..]), c)
    {
      ghost var t := xhash[..];
      xhash[b / 8] := xhash[b / 8] | Mask(BitOf(b));
      assert xhash[..] == t[b / 8 := t[b / 8] | Mask(BitOf(b))];
      forall c: nat | c < HSHSIZ ensures IsSet(xhash[..], c) <==> c == b || IsSet(t, c) { BisSetsOne(t, b, c); }
    }

    method Clear()
      requires Valid()
      modifies xhash
      ensures forall c: nat | c < HSHSIZ :: !IsSet(xhash[..], c)
    {
      var i := 0;
      while i < xhash.Length
        invariant 0 <= i <= xhash.Length && forall k | 0 <= k < i :: xhash[k] == 0
      {
        xhash[i] := 0;
        i := i + 1;
      }
    }

    /** The names of one directory are entered under its index. */
    method EnterDir(fs: Files, dir: string, i: nat)
      requires Valid() && Absolute(dir) && fs.list(dir).Some?
      modifies xhash
      ensures forall c: nat | c < HSHSIZ :: IsSet(xhash[..], c) <==> IsSet(old(xhash[..]), c) || FromDir(fs, dir, i, c)
    {
      var es := fs.list(dir).value;
      var n := 0;
      while n < |es|
        invariant 0 <= n <= |es|
        invariant forall c: nat | c < HSHSIZ :: IsSet(xhash[..], c) <==> IsSet(old(xhash[..]), c) || Entered(es[..n], i, c)
      {
        EnteredMore(es, n, i);
        if es[n].ino != 0 && es[n].name != "." && es[n].name != ".." {
          var h := NameHash(es[n].name);
          SetBit(Hash(h, i));
        }
        n := n + 1;
      }
      assert es[..n] == es;
    }

    /** dohash: exactly the bits of the readable absolute directories are set. */
    method DoHash(fs: Files, path: Option<seq<string>>)
      requires Valid()
      modifies this`havhash, xhash
      ensures havhash && Built(xhash[..], fs, if path.Some? then path.value else [])
    {
      havhash := true;
      Clear();
      if path.None? { return; }
      var dirs, i := path.value, 0;
      while i < |dirs|
        invariant 0 <= i <= |dirs| && havhash
        invariant forall c: nat | c < HSHSIZ :: IsSet(xhash[..], c) <==> InTable(fs, dirs, i, c)
      {
        InTableMore(fs, dirs, i);
        if Absolute(dirs[i]) && fs.list(dirs[i]).Some? {
          EnterDir(fs, dirs[i], i);
        }
        i := i + 1;
      }
    }

    /** iscommand: 0, or one more than the index of the path's directory that has the command. */
    method IsCommand(fs: Files, path: Option<seq<string>>, name: string) returns (r: nat)
      requires Valid()
      ensures r == Lookup(fs, Table(), Dirs(path, name), name, 0)
    {
      var slash, pv, i, h := '/' in name, Dirs(path, name), 0, 0;
      if havhash { h := NameHash(name); }
      while i < |pv|
        invariant 0 <= i <= |pv| && Lookup(fs, Table(), pv, name, 0) == Lookup(fs, Table(), pv, name, i)
      {
        var tried := true;
        if !slash && Absolute(pv[i]) && havhash {
          var b := Hash(h, i);
          assert xhash[b / 8] == xhash[..][b / 8];
          tried := xhash[b / 8] & Mask(BitOf(b)) != 0;
        }
        if tried {
          var here := if pv[i] == "" || pv[i] == "." then fs.bare(name) else fs.exec(pv[i], name);
          if here { return i + 1; }
        }
        i := i + 1;
      }
      return 0;
    }
  }

  ghost predicate Entered(es: seq<Entry>, i: nat, b: nat)
  {
    exists e | e in es :: Counts(e) && Hash(HashName(e.name), i) == b
  }

  lemma {:induction false} EnteredMore(es: seq<Entry>, n: nat, i: nat)
    requires n < |es|
    ensures forall b :: Entered(es[..n + 1], i, b) <==>
                        Entered(es[..n], i, b) || (Counts(es[n]) && Hash(HashName(es[n].name), i) == b)
  {
    assert es[..n + 1] == es[..n] + [es[n]];
    forall b ensures Entered(es[..n + 1], i, b) <==>
                     Entered(es[..n], i, b) || (Counts(es[n]) && Hash(HashName(es[n].name), i) == b)
    {
      if Counts(es[n]) && Hash(HashName(es[n].name), i) == b { assert es[n] in es[..n + 1]; }
      if e :| e in es[..n] && Counts(e) && Hash(HashName(e.name), i) == b { assert e in es[..n + 1]; }
    }
  }

  lemma {:induction false} InTableMore(fs: Files, dirs: seq<string>, n: nat)
    requires n < |dirs|
    ensures forall b :: InTable(fs, dirs, n + 1, b) <==> InTable(fs, dirs, n, b) || FromDir(fs, dirs[n], n, b)
  {
  }
}
