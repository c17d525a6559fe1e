/**
 * The directory stack of bin/csh/dir.c: a circular doubly linked list with a sentinel, edited by cd,
 * pushd and popd. Read backwards from the current entry, skipping the sentinel, it is a plain list.
 */
module DirRing {
  import opened Wrappers

  class Directory {
    var next: Directory
    var prev: Directory
    const name: string

    constructor (name: string, prev: Directory, next: Directory)
      ensures this.name == name && this.prev == prev && this.next == next
    {
      this.name, this.prev, this.next := name, prev, next;
    }

    /** The sentinel of an empty ring. */
    constructor Head()
      ensures prev == this && next == this
    {
      this.name, this.prev, this.next := "", this, this;
    }
  }

  /** Each entry's di_prev is the one after it in s, and that one's di_next leads back. */
  ghost predicate Linked(s: seq<Directory>)
    reads s
  {
    forall i | 0 <= i < |s| - 1 :: s[i].prev == s[i + 1] && s[i + 1].next == s[i]
  }

  ghost predicate Distinct(s: seq<Directory>) { forall i, j | 0 <= i < j < |s| :: s[i] != s[j] }

  function NamesOf(s: seq<Directory>): (r: seq<string>)
    ensures |r| == |s| && forall i | 0 <= i < |s| :: r[i] == s[i].name
  {
    seq(|s|, i requires 0 <= i < |s| => s[i].name)
  }

  /** What a command says when it does not do its work. */
  datatype Complaint = NoOther | TooDeep | StackEmpty | BadDirectory | CannotChange

  // ---------- the plain list ----------

  /** The list turned so that entry n comes first. */
  function Rotate<T>(l: seq<T>, n: nat): (r: seq<T>)
    requires n <= |l|
    ensures |r| == |l|
  {
    l[n..] + l[..n]
  }

  function Without<T>(l: seq<T>, n: nat): (r: seq<T>)
    requires n < |l|
    ensures |r| == |l| - 1
  {
    l[..n] + l[n + 1..]
  }

  /** Where entry m of the rotated list stands in the list itself. */
  function Place(len: nat, k: nat, m: nat): (r: nat)
    requires k < len && m < len
    ensures r < len
  {
    if k + m < len then k + m else k + m - len
  }

  lemma {:induction false} RotateAt<T>(l: seq<T>, k: nat, m: nat)
    requires k < |l| && m < |l|
    ensures Rotate(l, k)[m] == l[Place(|l|, k, m)]
  {
  }

  lemma {:induction false} RotateInsert<T>(l: seq<T>, k: nat, x: T)
    requires k <= |l|
    ensures Rotate(l[..k] + [x] + l[k..], k) == [x] + Rotate(l, k)
  {
    var l' := l[..k] + [x] + l[k..];
    assert l'[..k] == l[..k] && l'[k..] == [x] + l[k..];
  }

  /** Dropping the first entry of the rotated list. */
  lemma {:induction false} RotateDrop<T>(l: seq<T>, k: nat)
    requires k < |l|
    ensures Rotate(Without(l, k), if k + 1 == |l| then 0 else k) == Rotate(l, k)[1..]
  {
    var w := Without(l, k);
    if k + 1 == |l| {
      assert w == l[..k];
    } else {
      assert w[k..] == l[k + 1..] && w[..k] == l[..k];
    }
  }

  /** Dropping entry m of the rotated list, not the first. */
  lemma {:induction false} RotateWithout<T>(l: seq<T>, k: nat, m: nat)
    requires k < |l| && 0 < m < |l|
    ensures var i := Place(|l|, k, m);
            Rotate(Without(l, i), if i < k then k - 1 else k) == Without(Rotate(l, k), m)
  {
    var i := Place(|l|, k, m);
    var w, r := Without(l, i), Rotate(l, k);
    if i < k {
      assert w[..k - 1] == l[..i] + l[i + 1..k] && w[k - 1..] == l[k..];
      assert r[..m] == l[k..] + l[..i] && r[m + 1..] == l[i + 1..k];
    } else {
      assert w[..k] == l[..k] && w[k..] == l[k..i] + l[i + 1..];
      assert r[..m] == l[k..i] && r[m + 1..] == l[i + 1..] + l[..k];
    }
  }

  lemma {:induction false} RotateTwice<T>(l: seq<T>, k: nat, m: nat)
    requires k < |l| && m < |l|
    ensures Rotate(l, Place(|l|, k, m)) == Rotate(Rotate(l, k), m)
  {
    var i := Place(|l|, k, m);
    var r := Rotate(l, k);
    if k + m < |l| {
      assert r[m..] == l[i..] + l[..k] && r[..m] == l[k..i];
      assert l[..i] == l[..k] + l[k..i];
    } else {
      assert r[m..] == l[i..k] && r[..m] == l[k..] + l[..i];
      assert l[i..] == l[i..k] + l[k..];
    }
  }

  /** Taking the second entry out and putting it in front of the first. */
  lemma {:induction false} SwapOrder<T>(n: seq<T>, at: nat, j: nat)
    requires at < |n| && |n| > 1 && j == Place(|n|, at, 1)
    ensures var k, w, l := if j < at then at - 1 else at, Without(n, j), Rotate(n, at);
            k < |w| && w[k] == n[at] && Rotate(w[..k] + [n[j]] + w[k..], k) == [l[1], l[0]] + l[2..] &&
            forall d | d in w[..k] + [n[j]] + w[k..] :: d in n
  {
    var k, w, l := if j < at then at - 1 else at, Without(n, j), Rotate(n, at);
    RotateWithout(n, at, 1);
    RotateAt(n, at, 1);
    RotateInsert(w, k, n[j]);
    assert [l[1]] + Without(l, 1) == [l[1], l[0]] + l[2..];
  }

  lemma {:induction false} NamesCons(d: Directory, l: seq<Directory>)
    ensures NamesOf([d] + l) == [d.name] + NamesOf(l)
  {
  }

  lemma {:induction false} PushdNames(l: seq<Directory>, arg: Arg)
    requires l != []
    ensures |l| > 1 ==> NamesOf([l[1], l[0]] + l[2..]) == [NamesOf(l)[1], NamesOf(l)[0]] + NamesOf(l)[2..]
    ensures arg.Plus? && arg.n < |l| ==> NamesOf(Rotate(l, arg.n)) == Rotate(NamesOf(l), arg.n)
  {
    if arg.Plus? && arg.n < |l| { NamesSlices(l, arg.n); }
  }

  lemma {:induction false} NamesSlices(s: seq<Directory>, n: nat)
    requires n <= |s|
    ensures NamesOf(s[n..]) == NamesOf(s)[n..] && NamesOf(s[..n]) == NamesOf(s)[..n]
    ensures NamesOf(Rotate(s, n)) == Rotate(NamesOf(s), n)
    ensures n < |s| ==> NamesOf(Without(s, n)) == Without(NamesOf(s), n)
  {
  }

  /** The word after the command: none, + and a number, or anything else. */
  datatype Arg = Nothing | Plus(n: nat) | Other

  /** The stack after a command, and its complaint. Nothing changes when there is one. */
  datatype Outcome<T> = Outcome(stack: seq<T>, complaint: Option<Complaint>)

  /** pushd: `ok` is whether chdir works, `went` the directory reached for a name, if any. */
  function Pushd<T>(l: seq<T>, arg: Arg, ok: bool, went: Option<T>): Outcome<T>
    requires l != []
  {
    if arg.Nothing? then
      if |l| == 1 then Outcome(l, Some(NoOther))
      else if !ok then Outcome(l, Some(CannotChange))
      else Outcome([l[1], l[0]] + l[2..], None)
    else if arg.Plus? && arg.n > 0 then
      if arg.n >= |l| then Outcome(l, Some(TooDeep))
      else if !ok then Outcome(l, Some(CannotChange))
      else Outcome(Rotate(l, arg.n), None)
    else if went.None? then Outcome(l, Some(CannotChange))
    else Outcome([went.value] + l, None)
  }

  function Popd<T>(l: seq<T>, arg: Arg, ok: bool): Outcome<T>
    requires l != []
  {
    if arg.Nothing? then
      if |l| == 1 then Outcome(l, Some(StackEmpty))
      else if !ok then Outcome(l, Some(CannotChange))
      else Outcome(l[1..], None)
    else if arg.Plus? && arg.n > 0 then
      if arg.n >= |l| then Outcome(l, Some(TooDeep)) else Outcome(Without(l, arg.n), None)
    else Outcome(l, Some(BadDirectory))
  }

  /** cd: without a word it goes home. */
  function Cd<T>(l: seq<T>, arg: Arg, ok: bool, went: Option<T>): Outcome<T>
    requires l != []
  {
    if arg.Plus? && arg.n > 0 then
      if arg.n >= |l| then Outcome(l, Some(TooDeep))
      else if !ok then Outcome(l, Some(CannotChange))
      else Outcome(Rotate(l[1..], arg.n - 1), None)
    else if went.None? then Outcome(l, Some(CannotChange))
    else Outcome([went.value] + l[1..], None)
  }

  /** cd puts a directory in the place of the current one; cd +n leaves the current one and turns the others. */
  lemma {:induction false} CdMeans<T>(l: seq<T>, arg: Arg, ok: bool, went: Option<T>)
    requires l != []
    ensures var turn, r := arg.Plus? && arg.n > 0, Cd(l, arg, ok, went);
            && (r.complaint.Some? ==> r.stack == l)
            && (r.complaint.None? <==> if turn then arg.n < |l| && ok else went.Some?)
            && (r.complaint == Some(TooDeep) <==> turn && arg.n >= |l|)
            && (r.complaint.None? && !turn ==> |r.stack| == |l| && r.stack[0] == went.value && r.stack[1..] == l[1..])
            && (r.complaint.None? && turn ==>
                  && |r.stack| == |l| - 1 && r.stack[0] == l[arg.n]
                  && forall k | 0 <= k < |l| - 1 ::
                       r.stack[k] == l[if arg.n + k < |l| then arg.n + k else arg.n + k - (|l| - 1)])
  {
  }

  /** pushd +n turns the whole list, pushd alone exchanges two, pushd of a name puts it in front. */
  lemma {:induction false} PushdMeans<T>(l: seq<T>, arg: Arg, ok: bool, went: Option<T>)
    requires l != []
    ensures var turn, r := arg.Plus? && arg.n > 0, Pushd(l, arg, ok, went);
            && (r.complaint.Some? ==> r.stack == l)
            && (r.complaint.None? <==>
                  if turn then arg.n < |l| && ok else if arg.Nothing? then |l| > 1 && ok else went.Some?)
            && (r.complaint == Some(TooDeep) <==> turn && arg.n >= |l|)
            && (r.complaint == Some(NoOther) <==> arg.Nothing? && |l| == 1)
            && (r.complaint.None? && turn ==>
                  |r.stack| == |l| && forall k | 0 <= k < |l| ::
                    r.stack[k] == l[if arg.n + k < |l| then arg.n + k else arg.n + k - |l|])
            && (r.complaint.None? && arg.Nothing? ==>
                  |r.stack| == |l| && forall k | 0 <= k < |l| :: r.stack[k] == l[if k < 2 then 1 - k else k])
            && (r.complaint.None? && !turn && !arg.Nothing? ==>
                  |r.stack| == |l| + 1 && r.stack[0] == went.value && forall k | 0 <= k < |l| :: r.stack[k + 1] == l[k])
  {
  }

  /** popd takes the current entry away, popd +n the one it names; the others keep their order. */
  lemma {:induction false} PopdMeans<T>(l: seq<T>, arg: Arg, ok: bool)
    requires l != []
    ensures var turn, r := arg.Plus? && arg.n > 0, Popd(l, arg, ok);
            && (r.complaint.Some? ==> r.stack == l)
            && (r.complaint.None? <==> if turn then arg.n < |l| else arg.Nothing? && |l| > 1 && ok)
            && (r.complaint == Some(StackEmpty) <==> arg.Nothing? && |l| == 1)
            && (r.complaint == Some(TooDeep) <==> turn && arg.n >= |l|)
            && (r.complaint.None? ==>
                  |r.stack| == |l| - 1 && forall k | 0 <= k < |l| - 1 ::
                    r.stack[k] == l[if turn && k < arg.n then k else k + 1])
  {
  }

  /** popd undoes pushd of a directory, pushd undoes itself, and turning on to the full circle is no turn. */
  lemma {:induction false} StackInverses<T>(l: seq<T>, d: T, n: nat)
    requires l != [] && 0 < n < |l|
    ensures Popd(Pushd(l, Other, true, Some(d)).stack, Nothing, true) == Outcome(l, None)
    ensures Pushd(Pushd(l, Nothing, true, None).stack, Nothing, true, None) == Outcome(l, None)
    ensures Pushd(Pushd(l, Plus(n), true, None).stack, Plus(|l| - n), true, None) == Outcome(l, None)
  {
    assert ([d] + l)[1..] == l;
    var s := [l[1], l[0]] + l[2..];
    assert [s[1], s[0]] + s[2..] == l;
    var r := Rotate(l, n);
    assert r[|l| - n..] == l[..n] && r[..|l| - n] == l[n..];
    assert l[..n] + l[n..] == l;
  }

  // ---------- a whole session ----------

  datatype Command =
    | PushdCmd(arg: Arg, ok: bool, went: Option<string>)
    | PopdCmd(arg: Arg, ok: bool)
    | CdCmd(arg: Arg, ok: bool, went: Option<string>)

  function Obey(l: seq<string>, c: Command): Outcome<string>
    requires l != []
  {
    match c
    case PushdCmd(arg, ok, went) => Pushd(l, arg, ok, went)
    case PopdCmd(arg, ok) => Popd(l, arg, ok)
    case CdCmd(arg, ok, went) => Cd(l, arg, ok, went)
  }

  lemma {:induction false} ObeyKeepsOne(l: seq<string>, c: Command)
    requires l != []
    ensures Obey(l, c).stack != []
  {
  }

  /** The stack after a session. */
  function Session(l: seq<string>, cmds: seq<Command>): (r: seq<string>)
    requires l != []
    ensures r != []
    decreases |cmds|
  {
    if cmds == [] then l
    else
      ObeyKeepsOne(l, cmds[0]);
      Session(Obey(l, cmds[0]).stack, cmds[1..])
  }

  lemma {:induction false} PopdNames(l: seq<Directory>, arg: Arg)
    requires l != []
    ensures NamesOf(l[1..]) == NamesOf(l)[1..]
    ensures arg.Plus? && arg.n < |l| ==> NamesOf(Without(l, arg.n)) == Without(NamesOf(l), arg.n)
  {
    if arg.Plus? && arg.n < |l| { NamesSlices(l, arg.n); }
  }

  lemma {:induction false} CdNames(l: seq<Directory>, arg: Arg)
    requires l != []
    ensures NamesOf(l[1..]) == NamesOf(l)[1..]
    ensures arg.Plus? && 0 < arg.n < |l| ==> NamesOf(Rotate(l[1..], arg.n - 1)) == Rotate(NamesOf(l)[1..], arg.n - 1)
  {
    if arg.Plus? && 0 < arg.n < |l| { NamesSlices(l[1..], arg.n - 1); }
  }

  lemma {:induction false} LeaveOrder<T>(n: seq<T>, at: nat, m: nat)
    requires at < |n| && 0 < m < |n|
    ensures var k, w := if at + 1 == |n| then 0 else at, Without(n, at);
            var t := Place(|w|, k, m - 1);
            w[t] == n[Place(|n|, at, m)] && Rotate(w, t) == Rotate(Rotate(n, at)[1..], m - 1)
  {
    var k, w := if at + 1 == |n| then 0 else at, Without(n, at);
    RotateDrop(n, at);
    RotateTwice(w, k, m - 1);
    RotateAt(w, k, m - 1);
    RotateAt(n, at, m);
  }

  lemma {:induction false} ReplaceDistinct(s: seq<Directory>, i: nat, d: Directory, h: Directory)
    requires Distinct(s) && h !in s && i < |s| && d !in s && d != h
    ensures Distinct(s[i := d]) && h !in s[i := d]
  {
  }

  lemma {:induction false} WithoutDistinct(s: seq<Directory>, i: nat, h: Directory)
    requires Distinct(s) && h !in s && i < |s|
    ensures Distinct(Without(s, i)) && h !in Without(s, i)
  {
  }

  lemma {:induction false} WithDistinct(s: seq<Directory>, k: nat, d: Directory, h: Directory)
    requires Distinct(s) && h !in s && d !in s && d != h && k <= |s|
    ensures Distinct(s[..k] + [d] + s[k..]) && h !in s[..k] + [d] + s[k..]
  {
  }

  class Ring {
    const dhead: Directory
    var dcwd: Directory
    /** The entries along di_prev from the sentinel, and where dcwd is among them. */
    ghost var nodes: seq<Directory>
    ghost var at: nat

    ghost function Chain(): seq<Directory> reads this { [dhead] + nodes + [dhead] }

    ghost predicate Sound()
      reads this, dhead, nodes
    {
      Distinct(nodes) && dhead !in nodes && Linked(Chain())
    }

    ghost predicate Valid()
      reads this, dhead, nodes
    {
      Sound() && at < |nodes| && nodes[at] == dcwd
    }

    /** The entries, the current one first. */
    ghost function Order(): (r: seq<Directory>)
      requires Valid()
      reads this, dhead, nodes
      ensures |r| == |nodes| > 0
    {
      Rotate(nodes, at)
    }

    /** The directory stack. */
    ghost function Stack(): (r: seq<string>)
      requires Valid()
      reads this, dhead, nodes
      ensures |r| == |nodes| > 0
    {
      NamesOf(Order())
    }

    /** dinit: one entry besides the sentinel. */
    constructor (name: string)
      ensures Valid() && Stack() == [name]
    {
      var head := new Directory.Head();
      var dp := new Directory(name, head, head);
      dhead, dcwd, nodes, at := head, dp, [dp], 0;
      new;
      head.next, head.prev := dp, dp;
    }

    /** The sentinel is the only entry that stands twice in the chain. */
    lemma {:induction false} ChainDistinct()
      requires Sound()
      ensures forall i, j | 0 <= i < j <= |nodes| :: Chain()[i] != Chain()[j]
      ensures forall i, j | 0 < i < j <= |nodes| + 1 :: Chain()[i] != Chain()[j]
    {
    }

    method Unlink(dp: Directory, ghost i: nat)
      requires Sound() && i < |nodes| && nodes[i] == dp
      modifies this`nodes, dhead, nodes
      ensures Sound() && nodes == old(Without(nodes, i))
    {
      ghost var s := Chain();
      ChainDistinct();
      WithoutDistinct(nodes, i, dhead);
      assert s[i + 1] == dp && s[i + 1].next == s[i] && s[i + 1].prev == s[i + 2];
      hide Distinct;
      dp.prev.next := dp.next;
      dp.next.prev := dp.prev;
      nodes := Without(nodes, i);
      ghost var c := Chain();
      assert c == s[..i + 1] + s[i + 2..];
      forall j | 0 <= j < |c| - 1 ensures c[j].prev == c[j + 1] && c[j + 1].next == c[j] {
        if j < i {
          assert s[j] != s[i] && s[j + 1] != s[i + 2];
        } else if j > i {
          assert s[j + 1] != s[i] && s[j + 2] != s[i + 2];
        }
      }
    }

    /** Puts dp between the entries around place k; its own links are already set. */
    method Link(dp: Directory, ghost k: nat)
      requires Sound() && k <= |nodes| && dp !in nodes && dp != dhead
      requires dp.next == Chain()[k] && dp.prev == Chain()[k + 1]
      modifies this`nodes, dhead, nodes
      ensures Sound() && nodes == old(nodes[..k] + [dp] + nodes[k..])
    {
      ghost var s := Chain();
      ChainDistinct();
      WithDistinct(nodes, k, dp, dhead);
      hide Distinct;
      dp.prev.next := dp;
      dp.next.prev := dp;
      nodes := nodes[..k] + [dp] + nodes[k..];
      ghost var c := Chain();
      assert c == s[..k + 1] + [dp] + s[k + 1..];
      forall j | 0 <= j < |c| - 1 ensures c[j].prev == c[j + 1] && c[j + 1].next == c[j] {
        if j < k {
          assert s[j] != s[k] && s[j + 1] != s[k + 1];
        } else if j > k + 1 {
          assert s[j - 1] != s[k] && s[j] != s[k + 1];
        }
      }
    }

    /** One step along the stack: di_prev, over the sentinel. */
    method Previous(dp: Directory, ghost i: nat) returns (r: Directory, ghost j: nat)
      requires Sound() && i < |nodes| && nodes[i] == dp
      ensures j == (if i + 1 == |nodes| then 0 else i + 1) && r == nodes[j]
    {
      ghost var s := Chain();
      assert s[i + 1] == dp && s[i + 1].prev == s[i + 2] && s[0].prev == s[1];
      r := dp.prev;
      if r == dhead { r := dhead.prev; }
      j := if i + 1 == |nodes| then 0 else i + 1;
    }
  
    lemma {:induction false} SamePlace(i: nat, j: nat)
      requires Sound() && i < |nodes| && j < |nodes|
      ensures nodes[i] == nodes[j] <==> i == j
    {
    }

    lemma {:induction false} NextOf(k: nat)
      requires Sound() && k <= |nodes|
      ensures Chain()[k + 1].next == Chain()[k]
    {
    }

    lemma {:induction false} DpLeaves(i: nat)
      requires Sound() && i < |nodes|
      ensures nodes[i] !in Without(nodes, i) && nodes[i] != dhead
      ensures forall d | d in Without(nodes, i) :: d in nodes
    {
    }

    /** dfind: the entry +n, if the word is one; it complains when the stack is not that deep. */
    method DFind(arg: Arg) returns (dp: Option<Directory>, deep: bool, ghost i: nat)
      requires Valid()
      ensures var number := arg.Plus? && arg.n > 0;
              deep == (number && arg.n >= |nodes|) && dp.Some? == (number && !deep) &&
              (dp.Some? ==> i == Place(|nodes|, at, arg.n) && dp.value == nodes[i])
    {
      dp, deep, i := None, false, 0;
      if !arg.Plus? || arg.n == 0 { return; }
      var d, n: nat := dcwd, arg.n;
      ghost var m: nat := 0;
      i := at;
      while n != 0
        invariant m + n == arg.n && m < |nodes| && i == Place(|nodes|, at, m) && d == nodes[i]
        decreases n
      {
        d, i := Previous(d, i);
        m := m + 1;
        SamePlace(i, at);
        if d == dcwd {
          deep := true;
          return;
        }
        n := n - 1;
      }
      dp := Some(d);
    }

    /** The entry dp becomes the current one. */
    method GoTo(dp: Directory, ghost m: nat)
      requires Valid() && m < |nodes| && dp == nodes[Place(|nodes|, at, m)]
      modifies this`dcwd, this`at
      ensures Valid() && Order() == Rotate(old(Order()), m)
    {
      RotateTwice(nodes, at, m);
      at := Place(|nodes|, at, m);
      dcwd := dp;
    }

    /** pushd of a new directory. */
    method Add(name: string)
      requires Valid()
      modifies this, dhead, nodes
      ensures Valid() && fresh(dcwd) && dcwd.name == name && Order() == [dcwd] + old(Order())
      ensures forall d | d in nodes :: d in old(nodes) || d == dcwd
    {
      assert Chain()[at + 1].next == Chain()[at];
      var d := new Directory(name, dcwd, dcwd.next);
      RotateInsert(nodes, at, d);
      Link(d, at);
      dcwd := d;
    }

    /** pushd without a word: the entry below the current one is moved above it. */
    method Swap(dp: Directory, ghost j: nat)
      requires Valid() && |nodes| > 1 && j == Place(|nodes|, at, 1) && dp == nodes[j]
      modifies this, dhead, nodes
      ensures Valid() && var l := old(Order()); Order() == [l[1], l[0]] + l[2..]
      ensures forall d | d in nodes :: d in old(nodes)
    {
      ghost var k := if j < at then at - 1 else at;
      SwapOrder(nodes, at, j);
      Move(dp, j, k);
      dcwd, at := dp, k;
    }

    /** Takes dp out and puts it back before dcwd, which stands at k by then. */
    method Move(dp: Directory, ghost j: nat, ghost k: nat)
      requires Sound() && j < |nodes| && dp == nodes[j] && k < |nodes| - 1 && Without(nodes, j)[k] == dcwd
      modifies this`nodes, dhead, nodes
      ensures Sound() && var w := old(Without(nodes, j)); nodes == w[..k] + [dp] + w[k..]
    {
      ghost var n := nodes;
      DpLeaves(j);
      assert forall i | 0 <= i < |Without(n, j)| :: Without(n, j)[i] in n;
      hide Linked, Distinct, Without;
      Unlink(dp, j);
      NextOf(k);
      dp.next, dp.prev := dcwd.next, dcwd;
      Link(dp, k);
    }

    method DoPushd(arg: Arg, ok: bool, went: Option<string>) returns (complaint: Option<Complaint>)
      requires Valid()
      modifies this, dhead, nodes
      ensures Valid() && forall d | d in nodes :: d in old(nodes) || fresh(d)
      ensures Outcome(Stack(), complaint) == Pushd(old(Stack()), arg, ok, went)
    {
      ghost var l := Order();
      PushdNames(l, arg);
      hide Linked, Distinct, Rotate, Without, NamesOf;
      if arg.Nothing? {
        var dp, j := Previous(dcwd, at);
        SamePlace(j, at);
        if dp == dcwd { return Some(NoOther); }
        if !ok { return Some(CannotChange); }
        Swap(dp, j);
        return None;
      }
      var dp, deep, i := DFind(arg);
      if deep { return Some(TooDeep); }
      if dp.Some? {
        if !ok { return Some(CannotChange); }
        GoTo(dp.value, arg.n);
        return None;
      }
      if went.None? { return Some(CannotChange); }
      Add(went.value);
      NamesCons(dcwd, l);
      return None;
    }
  
    /** popd of the current entry: the one below it takes over. */
    method DropCurrent(p: Directory, ghost j: nat)
      requires Valid() && |nodes| > 1 && j == Place(|nodes|, at, 1) && p == nodes[j]
      modifies this, dhead, nodes
      ensures Valid() && Order() == old(Order())[1..] && forall d | d in nodes :: d in old(nodes)
    {
      ghost var n, k := nodes, if at + 1 == |nodes| then 0 else at;
      RotateDrop(n, at);
      DpLeaves(at);
      assert Without(n, at)[k] == n[j];
      hide Linked, Distinct, Rotate, Place, Without;
      Unlink(dcwd, at);
      dcwd, at := p, k;
    }

    /** popd +n. */
    method DropOther(dp: Directory, ghost i: nat, ghost m: nat)
      requires Valid() && 0 < m < |nodes| && i == Place(|nodes|, at, m) && dp == nodes[i]
      modifies this`nodes, this`at, dhead, nodes
      ensures Valid() && Order() == Without(old(Order()), m) && forall d | d in nodes :: d in old(nodes)
    {
      ghost var n, k := nodes, if i < at then at - 1 else at;
      RotateWithout(n, at, m);
      DpLeaves(i);
      assert k < |Without(n, i)| && Without(n, i)[k] == n[at];
      hide Linked, Distinct, Rotate, Place, Without;
      Unlink(dp, i);
      at := k;
    }

    /** cd to a new directory: its entry takes the place of the current one. */
    method Replace(name: string)
      requires Valid()
      modifies this, dhead, nodes
      ensures Valid() && fresh(dcwd) && dcwd.name == name && Order() == [dcwd] + old(Order())[1..]
      ensures forall d | d in nodes :: d in old(nodes) || d == dcwd
    {
      ghost var s, n := Chain(), nodes;
      ChainDistinct();
      assert s[at + 1] == dcwd && dcwd.next == s[at] && dcwd.prev == s[at + 2];
      var d := new Directory(name, dcwd.prev, dcwd.next);
      ReplaceDistinct(nodes, at, d, dhead);
      hide Distinct;
      d.prev.next := d;
      d.next.prev := d;
      dcwd, nodes := d, n[at := d];
      ghost var c := Chain();
      assert c == s[at + 1 := d];
      forall j | 0 <= j < |c| - 1 ensures c[j].prev == c[j + 1] && c[j + 1].next == c[j] {
        if j < at {
          assert s[j] != s[at] && s[j + 1] != s[at + 2];
        } else if j > at + 1 {
          assert s[j] != s[at] && s[j + 1] != s[at + 2];
        }
      }
      assert Rotate(n[at := d], at) == [d] + Rotate(n, at)[1..];
    }

    /** cd +n: the current entry goes, and entry n takes over. */
    method Leave(dp: Directory, ghost i: nat, ghost m: nat)
      requires Valid() && 0 < m < |nodes| && i == Place(|nodes|, at, m) && dp == nodes[i]
      modifies this, dhead, nodes
      ensures Valid() && Order() == Rotate(old(Order())[1..], m - 1) && forall d | d in nodes :: d in old(nodes)
    {
      ghost var n, k := nodes, if at + 1 == |nodes| then 0 else at;
      ghost var w := Without(n, at);
      ghost var t := Place(|w|, k, m - 1);
      DpLeaves(at);
      LeaveOrder(n, at, m);
      hide Linked, Distinct, Rotate, Place, Without;
      Unlink(dcwd, at);
      dcwd, at := dp, t;
    }

    method DoPopd(arg: Arg, ok: bool) returns (complaint: Option<Complaint>)
      requires Valid()
      modifies this, dhead, nodes
      ensures Valid() && forall d | d in nodes :: d in old(nodes)
      ensures Outcome(Stack(), complaint) == Popd(old(Stack()), arg, ok)
    {
      ghost var l := Order();
      ghost var i: nat := at;
      var dp := dcwd;
      if !arg.Nothing? {
        var found, deep, k := DFind(arg);
        if deep { return Some(TooDeep); }
        if found.None? { return Some(BadDirectory); }
        dp, i := found.value, k;
      }
      OnlyEntry(i);
      if dp.prev == dhead && dp.next == dhead { return Some(StackEmpty); }
      SamePlace(i, at);
      PopdNames(l, arg);
      hide Linked, Distinct, Rotate, Without, NamesOf;
      if dp == dcwd {
        var p, j := Previous(dp, at);
        if !ok { return Some(CannotChange); }
        DropCurrent(p, j);
      } else {
        DropOther(dp, i, arg.n);
      }
      return None;
    }

    method DoCd(arg: Arg, ok: bool, went: Option<string>) returns (complaint: Option<Complaint>)
      requires Valid()
      modifies this, dhead, nodes
      ensures Valid() && forall d | d in nodes :: d in old(nodes) || fresh(d)
      ensures Outcome(Stack(), complaint) == Cd(old(Stack()), arg, ok, went)
    {
      ghost var l := Order();
      CdNames(l, arg);
      hide Linked, Distinct, Rotate, Without, NamesOf;
      var dp, deep, i := DFind(arg);
      if deep { return Some(TooDeep); }
      if dp.Some? {
        if !ok { return Some(CannotChange); }
        Leave(dp.value, i, arg.n);
        return None;
      }
      if went.None? { return Some(CannotChange); }
      Replace(went.value);
      NamesCons(dcwd, l[1..]);
      return None;
    }

    lemma {:induction false} OnlyEntry(i: nat)
      requires Sound() && i < |nodes|
      ensures nodes[i].prev == dhead && nodes[i].next == dhead <==> |nodes| == 1
    {
      var s := Chain();
      assert s[i + 1] == nodes[i] && s[i + 1].prev == s[i + 2] && s[i + 1].next == s[i];
    }

    /** Every session leaves a valid ring that holds exactly the list the commands describe. */
    method Run(cmds: seq<Command>)
      requires Valid()
      modifies this, dhead, nodes
      ensures Valid() && Stack() == Session(old(Stack()), cmds)
    {
      var i := 0;
      while i < |cmds|
        invariant 0 <= i <= |cmds| && Valid() && forall d | d in nodes :: d in old(nodes) || fresh(d)
        invariant Session(old(Stack()), cmds) == Session(Stack(), cmds[i..])
      {
        ghost var before := Stack();
        assert forall k | 0 <= k < |nodes| :: nodes[k] in old(nodes) || fresh(nodes[k]);
        assert cmds[i..][1..] == cmds[i + 1..];
        var complaint;
        match cmds[i] {
          case PushdCmd(arg, ok, went) => complaint := DoPushd(arg, ok, went);
          case PopdCmd(arg, ok) => complaint := DoPopd(arg, ok);
          case CdCmd(arg, ok, went) => complaint := DoCd(arg, ok, went);
        }
        assert Outcome(Stack(), complaint) == Obey(before, cmds[i]);
        i := i + 1;
      }
    }
  }
}
