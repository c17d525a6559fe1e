/**
 * Buffered seekable input of bin/csh/lex.c: bgetc with its two modes, bseek, btell, bfree and settell,
 * against a plain reader of the underlying bytes. read may split its chunks in any way.
 */
module InputBuffer {
  import opened Sequences

  const BUFSIZE := 4096

  type Byte = b: int | 0 <= b < 256

  // ---------- the plain reader ----------

  /** Where the reader is, the places it may be sent back to, and the byte that offset 0 stands for. That
      byte is fixed when positions are file offsets (tell), and moves on with trims otherwise. */
  datatype Reader = Reader(pos: nat, saved: seq<nat>, home: nat, tell: bool)

  /** Rewind is the seek to offset 0 at the start of the search for a goto's label. */
  datatype Op = Get | Save | Drop | Back(i: nat) | Trim | Rewind

  const EOF := -1

  function Next(data: seq<Byte>, pos: nat): int { if pos < |data| then data[pos] else EOF }

  /** Whole blocks before the last character read, when no place in them is saved. */
  function Spare(r: Reader): nat
  {
    if r.tell || r.saved != [] || r.pos <= r.home then 0 else (r.pos - r.home - 1) / BUFSIZE
  }

  /** A character moves on unless there is none; trimming moves nothing but offset 0. */
  function Step(data: seq<Byte>, r: Reader, op: Op): Reader
  {
    match op
    case Get => if r.pos < |data| then r.(pos := r.pos + 1) else r
    case Save => r.(saved := r.saved + [r.pos])
    case Drop => if r.saved == [] then r else r.(saved := r.saved[..|r.saved| - 1])
    case Back(i) => if i < |r.saved| then r.(pos := r.saved[i]) else r
    case Trim => r.(home := r.home + BUFSIZE * Spare(r))
    case Rewind => r.(pos := r.home)
  }

  function Steps(data: seq<Byte>, r: Reader, ops: seq<Op>): Reader
    decreases |ops|
  {
    if ops == [] then r else Steps(data, Step(data, r, ops[0]), ops[1..])
  }

  /** What a run of operations returns, character by character. */
  function Output(data: seq<Byte>, r: Reader, ops: seq<Op>): seq<int>
    decreases |ops|
  {
    if ops == [] then []
    else (if ops[0].Get? then [Next(data, r.pos)] else []) + Output(data, Step(data, r, ops[0]), ops[1..])
  }

  /** The next operation of a run, and the rest. */
  lemma {:induction false} OutputNext(data: seq<Byte>, r: Reader, ops: seq<Op>, i: nat)
    requires i < |ops|
    ensures var rest := Output(data, Step(data, r, ops[i]), ops[i + 1..]);
            Output(data, r, ops[i..]) == if ops[i].Get? then [Next(data, r.pos)] + rest else rest
  {
    assert ops[i..][0] == ops[i] && ops[i..][1..] == ops[i + 1..];
    var rest := Output(data, Step(data, r, ops[i]), ops[i + 1..]);
    assert [] + rest == rest;
  }

  lemma {:induction false} OutputStart(data: seq<Byte>, r: Reader, ops: seq<Op>)
    ensures [] + Output(data, r, ops[0..]) == Output(data, r, ops) && Output(data, r, ops[|ops|..]) == []
  {
    assert ops[0..] == ops && ops[|ops|..] == [];
  }

  function Gets(n: nat): (r: seq<Op>)
    ensures |r| == n && forall i | 0 <= i < n :: r[i] == Get
  {
    seq(n, _ => Get)
  }

  /** Reading on returns the data in order. */
  lemma {:induction false} ReadsInOrder(data: seq<Byte>, r: Reader, n: nat)
    requires r.pos + n <= |data|
    ensures |Output(data, r, Gets(n))| == n
    ensures forall i | 0 <= i < n :: Output(data, r, Gets(n))[i] == data[r.pos + i]
    decreases n
  {
    if n > 0 {
      assert Gets(n)[1..] == Gets(n - 1);
      ReadsInOrder(data, r.(pos := r.pos + 1), n - 1);
    }
  }

  function WithoutTrims(ops: seq<Op>): seq<Op>
    decreases |ops|
  {
    if ops == [] then [] else (if ops[0].Trim? then [] else [ops[0]]) + WithoutTrims(ops[1..])
  }

  /** Where buffers are trimmed makes no difference to what is read, unless it is read from offset 0. */
  lemma {:induction false} TrimsUnseen(data: seq<Byte>, r: Reader, home: nat, ops: seq<Op>)
    requires r.tell || Rewind !in ops
    requires r.tell ==> home == r.home
    ensures Output(data, r, ops) == Output(data, r.(home := home), WithoutTrims(ops))
    decreases |ops|
  {
    hide Step, Output;
    OutputStart(data, r, ops);
    OutputStart(data, r.(home := home), WithoutTrims(ops));
    if ops != [] {
      var rest, h := WithoutTrims(ops[1..]), if ops[0].Rewind? then r.home else home;
      assert ops[0] in ops;
      StepHome(data, r, ops[0], h);
      OutputNext(data, r, ops, 0);
      TrimsUnseen(data, Step(data, r, ops[0]), h, ops[1..]);
      if ops[0].Trim? {
        assert [] + rest == rest;
      } else {
        assert ([ops[0]] + rest)[1..] == rest;
        OutputNext(data, r.(home := home), [ops[0]] + rest, 0);
      }
    } else {
      assert ops[0..] == [];
    }
  }

  /** Offset 0 matters only to a rewind, and only a trim moves it. */
  lemma {:induction false} StepHome(data: seq<Byte>, r: Reader, op: Op, home: nat)
    requires op.Rewind? ==> home == r.home
    ensures var s := Step(data, r, op);
            && s.tell == r.tell && (r.tell || !op.Trim? ==> s.home == r.home)
            && if op.Trim? then s.(home := home) == r.(home := home)
               else Step(data, r.(home := home), op) == s.(home := home)
  {
  }

  /** Some trim on the way gives up a block. */
  predicate GivesUp(data: seq<Byte>, r: Reader, ops: seq<Op>)
    decreases |ops|
  {
    ops != [] && ((ops[0].Trim? && Spare(r) > 0) || GivesUp(data, Step(data, r, ops[0]), ops[1..]))
  }

  /** A rewind after any operations leads to where one at their start would have led, if and only if no
      trim among them gave up a block; otherwise it leads further on. */
  lemma {:induction false} RewindReaches(data: seq<Byte>, r: Reader, ops: seq<Op>)
    ensures var t := Step(data, Steps(data, r, ops), Rewind);
            t.pos >= r.home && (t.pos == r.home <==> !GivesUp(data, r, ops))
    decreases |ops|
  {
    if ops != [] { RewindReaches(data, Step(data, r, ops[0]), ops[1..]); }
  }

  lemma {:induction false} StepsGets(data: seq<Byte>, r: Reader, n: nat, ops: seq<Op>)
    requires r.pos + n <= |data|
    ensures Steps(data, r, Gets(n) + ops) == Steps(data, r.(pos := r.pos + n), ops)
    decreases n
  {
    if n == 0 {
      assert Gets(0) + ops == ops && r.(pos := r.pos + 0) == r;
    } else {
      assert (Gets(n) + ops)[0] == Get && (Gets(n) + ops)[1..] == Gets(n - 1) + ops;
      StepsGets(data, r.(pos := r.pos + 1), n - 1, ops);
    }
  }

  /** A goto from a pipe after n characters and a trim: its search begins with the block of the last one. */
  lemma {:induction false} GotoAfterTrim(data: seq<Byte>, n: nat)
    requires 0 < n <= |data|
    ensures Steps(data, Reader(0, [], 0, false), Gets(n) + [Trim, Rewind]).pos == (n - 1) / BUFSIZE * BUFSIZE
    ensures Steps(data, Reader(0, [], 0, false), Gets(n) + [Trim, Rewind]).pos == 0 <==> n <= BUFSIZE
  {
    StepsGets(data, Reader(0, [], 0, false), n, [Trim, Rewind]);
    var ops := [Trim, Rewind];
    assert ops[1..] == [Rewind] && [Rewind][1..] == [];
    var r := Reader(n, [], 0, false);
    assert Steps(data, Step(data, r, Trim), [Rewind]) == Step(data, Step(data, r, Trim), Rewind);
  }

  /** At the end every further read returns -1 and nothing moves. */
  lemma {:induction false} ReadsEnd(data: seq<Byte>, r: Reader, n: nat)
    requires r.pos >= |data|
    ensures Steps(data, r, Gets(n)) == r && |Output(data, r, Gets(n))| == n
    ensures forall i | 0 <= i < n :: Output(data, r, Gets(n))[i] == -1
    decreases n
  {
    if n > 0 {
      assert Gets(n)[1..] == Gets(n - 1);
      ReadsEnd(data, r, n - 1);
    }
  }

  /** A trim: nothing happens while a loop is active or positions are offsets. Otherwise as many whole blocks go
      as leave at most one behind the reader, and at least the last character read. */
  lemma {:induction false} TrimMeans(data: seq<Byte>, r: Reader)
    requires r.home <= r.pos
    ensures var t := Step(data, r, Trim);
            && t == r.(home := t.home) && t.home >= r.home && (t.home - r.home) % 4096 == 0
            && (r.tell || r.saved != [] || r.pos == r.home ==> t == r)
            && (!r.tell && r.saved == [] && r.pos > r.home ==> 0 < t.pos - t.home <= 4096)
  {
  }

  /** Of n places, the first is never dropped on the way. */
  predicate Keeps(ops: seq<Op>, n: nat)
    decreases |ops|
  {
    n > 0 && (ops == [] || Keeps(ops[1..], if ops[0].Save? then n + 1 else if ops[0].Drop? then n - 1 else n))
  }

  lemma {:induction false} SavedStays(data: seq<Byte>, r: Reader, ops: seq<Op>, i: nat)
    requires i < |r.saved| && Keeps(ops, |r.saved| - i)
    ensures i < |Steps(data, r, ops).saved| && Steps(data, r, ops).saved[i] == r.saved[i]
    decreases |ops|
  {
    if ops != [] { SavedStays(data, Step(data, r, ops[0]), ops[1..], i); }
  }

  lemma {:induction false} StepsAppend(data: seq<Byte>, r: Reader, a: seq<Op>, b: seq<Op>)
    ensures Steps(data, r, a + b) == Steps(data, Steps(data, r, a), b)
    ensures Output(data, r, a + b) == Output(data, r, a) + Output(data, Steps(data, r, a), b)
    decreases |a|
  {
    if a == [] {
      assert a + b == b && [] + Output(data, r, b) == Output(data, r, b);
    } else {
      assert (a + b)[0] == a[0] && (a + b)[1..] == a[1..] + b;
      StepsAppend(data, Step(data, r, a[0]), a[1..], b);
      var first := if a[0].Get? then [Next(data, r.pos)] else [];
      Assoc(first, Output(data, Step(data, r, a[0]), a[1..]), Output(data, Steps(data, r, a), b));
    }
  }

  /** A loop: after any operations that do not drop its place, going back to it reads the same bytes again. */
  lemma {:induction false} ReadsAgain(data: seq<Byte>, r: Reader, ops: seq<Op>, n: nat)
    requires Keeps(ops, 1) && r.pos + n <= |data|
    ensures var out := Output(data, r, [Save] + ops + [Back(|r.saved|)] + Gets(n));
            |out| >= n && forall k | |out| - n <= k < |out| :: out[k] == data[r.pos + k - (|out| - n)]
  {
    hide Output, Steps;
    var i, r' := |r.saved|, Step(data, r, Save);
    var whole, back := [Save] + ops, [Back(i)];
    SaveThen(data, r, ops);
    SavedStays(data, r', ops, i);
    StepsAppend(data, r, whole, back);
    StepsAppend(data, r, whole + back, Gets(n));
    BackAlone(data, Steps(data, r, whole), i);
    ReadsInOrder(data, Steps(data, r, whole + back), n);
  }

  lemma {:induction false} SaveThen(data: seq<Byte>, r: Reader, ops: seq<Op>)
    ensures Steps(data, r, [Save] + ops) == Steps(data, Step(data, r, Save), ops)
  {
    assert ([Save] + ops)[1..] == ops;
  }

  lemma {:induction false} BackAlone(data: seq<Byte>, r: Reader, i: nat)
    requires i < |r.saved|
    ensures Steps(data, r, [Back(i)]).pos == r.saved[i]
  {
    var ops := [Back(i)];
    assert ops[1..] == [] && Steps(data, Step(data, r, ops[0]), []) == Step(data, r, ops[0]);
  }

  // ---------- the shell's buffers ----------

  /** The reader behind a position and saved positions that count from base. */
  function Seen(base: nat, fseekp: nat, whyles: seq<nat>, tell: bool): (r: Reader)
    ensures r.pos == base + fseekp && |r.saved| == |whyles| && r.home == base && r.tell == tell
    ensures forall i | 0 <= i < |whyles| :: r.saved[i] == base + whyles[i]
  {
    Reader(base + fseekp, seq(|whyles|, i requires 0 <= i < |whyles| => base + whyles[i]), base, tell)
  }

  ghost predicate Blocks(fbuf: seq<array<Byte>>)
  {
    (forall i | 0 <= i < |fbuf| :: fbuf[i].Length == BUFSIZE) &&
    (forall i, j | 0 <= i < j < |fbuf| :: fbuf[i] != fbuf[j])
  }

  /** The first n buffered characters are those of the data from base on. */
  ghost predicate Filled(fbuf: seq<array<Byte>>, n: nat, data: seq<Byte>, base: nat)
    requires Blocks(fbuf)
    reads fbuf
  {
    base + n <= |data| &&
    forall b, o | 0 <= b < |fbuf| && 0 <= o < BUFSIZE && b * BUFSIZE + o < n ::
      fbuf[b][o] == data[base + b * BUFSIZE + o]
  }

  class Input {
    const data: seq<Byte>
    const seekable: bool
    var off: nat             // the kernel's offset
    var cantell: bool
    var fseekp: nat
    var fbobp: nat
    var feobp: nat
    var fblocks: nat
    var fbuf: seq<array<Byte>>
    var whyles: seq<nat>     // where the active loops start
    ghost var base: nat      // the byte that stands first in the blocks

    ghost predicate Valid()
      reads this, fbuf
    {
      && fblocks == |fbuf| && Blocks(fbuf) && off <= |data|
      && if cantell then
           && seekable && base == 0 && fblocks == 1 && fbobp <= feobp <= fbobp + BUFSIZE && off == feobp
           && Filled(fbuf, feobp - fbobp, data, fbobp)
           && fseekp <= |data| && forall i | 0 <= i < |whyles| :: whyles[i] <= |data|
         else
           && feobp <= fblocks * BUFSIZE && off == base + feobp && Filled(fbuf, feobp, data, base)
           && fseekp <= feobp && forall i | 0 <= i < |whyles| :: whyles[i] <= feobp
    }

    /** The reader this buffer stands for. */
    ghost function View(): Reader reads this { Seen(base, fseekp, whyles, cantell) }

    /** Fresh input at the kernel's offset, as srcunit and settell set it up. */
    constructor (data: seq<Byte>, seekable: bool, off: nat, tellable: bool)
      requires off <= |data|
      ensures Valid() && cantell == (tellable && seekable) && this.data == data
      ensures View() == Reader(off, [], if cantell then 0 else off, cantell)
    {
      this.data, this.seekable, this.off := data, seekable, off;
      whyles := [];
      if tellable && seekable {
        var block := new Byte[BUFSIZE];
        fbuf, fblocks, cantell, base := [block], 1, true, 0;
        fseekp, fbobp, feobp := off, off, off;
      } else {
        fbuf, fblocks, cantell, base := [], 0, false, off;
        fseekp, fbobp, feobp := 0, 0, 0;
      }
    }

    /** read: at least one byte and at most max, unless at the end; how many is not up to the caller. */
    method Read(max: nat) returns (c: seq<Byte>)
      requires max > 0
      modifies this`off
      ensures |c| <= max && off == old(off) + |c| && (c == [] <==> old(off) >= |data|)
      ensures c != [] ==> off <= |data| && c == data[old(off)..off]
    {
      if off >= |data| { return []; }
      var n: nat :| 1 <= n <= max && off + n <= |data|;
      c := data[off..off + n];
      off := off + n;
    }

    /** The block is refilled from the current position, which is where the file is. */
    method Refill() returns (more: bool)
      requires fblocks == |fbuf| == 1 && Blocks(fbuf) && off == feobp == fseekp <= |data|
      modifies this`off, this`fbobp, this`feobp, fbuf
      ensures fbobp == fseekp <= feobp <= fbobp + BUFSIZE && off == feobp && more == (fseekp < |data|)
      ensures Filled(fbuf, feobp - fbobp, data, fbobp) && (more ==> fseekp < feobp)
    {
      fbobp := feobp;
      var t := Read(BUFSIZE);
      if t == [] { return false; }
      Store(0, 0, t);
      feobp := feobp + |t|;
      assert forall k | 0 <= k < |t| :: fbuf[0][0 + k] == t[k] == data[fbobp + k];
      return true;
    }

    /** Brings the current position into the block. */
    method Prepare() returns (more: bool)
      requires Valid() && cantell
      modifies this`off, this`fbobp, this`feobp, fbuf
      ensures Valid() && more == (fseekp < |data|) && (more ==> fbobp <= fseekp < feobp)
    {
      if fseekp < fbobp || fseekp > feobp {
        fbobp, feobp := fseekp, fseekp;
        off := fseekp;    // lseek
      }
      more := true;
      if fseekp == feobp {
        more := Refill();
      }
    }

    /** bgetc when positions are file offsets: one block, refilled at the current position. */
    method GetTell() returns (c: int)
      requires Valid() && cantell
      modifies this`off, this`fseekp, this`fbobp, this`feobp, fbuf
      ensures Valid() && c == Next(data, old(View()).pos) && View() == Step(data, old(View()), Get)
    {
      var more := Prepare();
      if !more { return EOF; }
      c := fbuf[0][fseekp - fbobp];
      assert c == data[fbobp + 0 * BUFSIZE + (fseekp - fbobp)];
      fseekp := fseekp + 1;
    }

    /** Copies bytes into a block. */
    method Store(b: nat, o: nat, t: seq<Byte>)
      requires Blocks(fbuf) && b < |fbuf| && o + |t| <= BUFSIZE
      modifies fbuf[b]
      ensures forall k | 0 <= k < |t| :: fbuf[b][o + k] == t[k]
      ensures forall k | 0 <= k < BUFSIZE && !(o <= k < o + |t|) :: fbuf[b][k] == old(fbuf[b][k])
    {
      var i := 0;
      while i < |t|
        invariant 0 <= i <= |t|
        invariant forall k | 0 <= k < i :: fbuf[b][o + k] == t[k]
        invariant forall k | 0 <= k < BUFSIZE && !(o <= k < o + i) :: fbuf[b][k] == old(fbuf[b][k])
      {
        fbuf[b][o + i] := t[i];
        i := i + 1;
      }
    }

    /** One more block. */
    method Extend()
      requires Valid() && !cantell
      modifies this`fbuf, this`fblocks
      ensures Valid() && fblocks == old(fblocks) + 1
      ensures fbuf[..|fbuf| - 1] == old(fbuf) && fresh(fbuf[|fbuf| - 1])
    {
      var block := new Byte[BUFSIZE];
      fbuf := fbuf + [block];
      fblocks := fblocks + 1;
    }

    /** Reads what fits into the block where the data ends. */
    method Fill() returns (more: bool)
      requires Valid() && !cantell && feobp / BUFSIZE < fblocks
      modifies this`off, this`feobp, fbuf
      ensures Valid() && more == (old(off) < |data|) && (more ==> feobp > old(feobp)) && (!more ==> feobp == old(feobp))
    {
      hide Filled, Blocks;
      var b, o := feobp / BUFSIZE, feobp % BUFSIZE;
      assert feobp == b * BUFSIZE + o;
      var t := Read(BUFSIZE - o);
      if t == [] { return false; }
      Append(b, o, t);
      feobp := feobp + |t|;
      return true;
    }

    /** More of the data behind what is there. */
    method Append(b: nat, o: nat, t: seq<Byte>)
      requires Blocks(fbuf) && b < |fbuf| && o + |t| <= BUFSIZE && Filled(fbuf, b * BUFSIZE + o, data, base)
      requires var n := base + b * BUFSIZE + o; n + |t| <= |data| && t == data[n..n + |t|]
      modifies fbuf[b]
      ensures Filled(fbuf, b * BUFSIZE + o + |t|, data, base)
    {
      Store(b, o, t);
      ghost var n := b * BUFSIZE + o;
      forall b', o' | 0 <= b' < |fbuf| && 0 <= o' < BUFSIZE && b' * BUFSIZE + o' < n + |t|
        ensures fbuf[b'][o'] == data[base + b' * BUFSIZE + o']
      {
        if b' * BUFSIZE + o' >= n {
          assert b' == b;
          assert fbuf[b][o + (o' - o)] == t[o' - o];
        } else if b' == b {
          assert fbuf[b][o'] == old(fbuf[b][o']);
        }
      }
    }

    /** Enough blocks for the current position. */
    method Reach()
      requires Valid() && !cantell
      modifies this`fbuf, this`fblocks
      ensures Valid() && fseekp / BUFSIZE < fblocks
      ensures forall k | 0 <= k < |fbuf| :: fbuf[k] in old(fbuf) || fresh(fbuf[k])
    {
      while fseekp / BUFSIZE >= fblocks
        invariant Valid() && forall k | 0 <= k < |fbuf| :: fbuf[k] in old(fbuf) || fresh(fbuf[k])
        decreases fseekp / BUFSIZE - fblocks
      {
        Extend();
      }
    }

    /** bgetc when positions count from the start of the blocks. */
    method GetBlock() returns (c: int)
      requires Valid() && !cantell
      modifies this`off, this`fseekp, this`feobp, this`fbuf, this`fblocks, fbuf
      ensures Valid() && c == Next(data, old(View()).pos) && View() == Step(data, old(View()), Get)
      ensures forall k | 0 <= k < |fbuf| :: fbuf[k] in old(fbuf) || fresh(fbuf[k])
    {
      hide Filled, Blocks;
      Reach();
      if fseekp >= feobp {
        var more := Fill();
        if !more { return EOF; }
      }
      c := Fetch();
      fseekp := fseekp + 1;
    }

    method Fetch() returns (c: Byte)
      requires Valid() && !cantell && fseekp < feobp
      ensures c == data[base + fseekp]
    {
      c := fbuf[fseekp / BUFSIZE][fseekp % BUFSIZE];
      assert c == data[base + fseekp / BUFSIZE * BUFSIZE + fseekp % BUFSIZE];
    }

    /** bgetc. */
    method BGetC() returns (c: int)
      requires Valid()
      modifies this`off, this`fseekp, this`fbobp, this`feobp, this`fbuf, this`fblocks, fbuf
      ensures Valid() && c == Next(data, old(View()).pos) && View() == Step(data, old(View()), Get)
      ensures forall k | 0 <= k < |fbuf| :: fbuf[k] in old(fbuf) || fresh(fbuf[k])
    {
      if cantell { c := GetTell(); } else { c := GetBlock(); }
    }

    /** btell into a loop's start, when a loop is entered. */
    method Remember()
      requires Valid()
      modifies this`whyles
      ensures Valid() && View() == Step(data, old(View()), Save)
    {
      whyles := whyles + [fseekp];
    }

    /** A loop is left. */
    method Forget()
      requires Valid()
      modifies this`whyles
      ensures Valid() && View() == Step(data, old(View()), Drop)
    {
      if whyles != [] { whyles := whyles[..|whyles| - 1]; }
    }

    /** bseek to the start of a loop. */
    method BSeek(i: nat)
      requires Valid()
      modifies this`fseekp
      ensures Valid() && View() == Step(data, old(View()), Back(i))
    {
      if i < |whyles| { fseekp := whyles[i]; }
    }

    /** bseek to offset 0, as the search for a label does. */
    method SeekStart()
      requires Valid()
      modifies this`fseekp
      ensures Valid() && View() == Step(data, old(View()), Rewind)
    {
      fseekp := 0;
    }

    /**
     * bfree: blocks that lie wholly before the last character read are given up and positions count
     * from later on. Nothing unread is lost, and while a loop is active nothing happens at all.
     */
    method BFree()
      requires Valid()
      modifies this`fseekp, this`feobp, this`fblocks, this`fbuf, this`base
      ensures Valid() && View() == Step(data, old(View()), Trim) && base + feobp == old(base + feobp)
      ensures cantell || whyles != [] ==> fbuf == old(fbuf) && fseekp == old(fseekp)
      ensures !cantell && whyles == [] ==> fseekp <= BUFSIZE
      ensures forall k | 0 <= k < |fbuf| :: fbuf[k] in old(fbuf)
    {
      if cantell { return; }
      if whyles != [] { return; }
      // the division truncates, so at position 0 no block is before
      var sb := if fseekp == 0 then 0 else (fseekp - 1) / BUFSIZE;
      if sb > 0 {
        ghost var was := fbuf;
        fbuf := fbuf[sb..];
        fseekp, feobp := fseekp - BUFSIZE * sb, feobp - BUFSIZE * sb;
        fblocks := fblocks - sb;
        base := base + BUFSIZE * sb;
        forall b, o | 0 <= b < |fbuf| && 0 <= o < BUFSIZE && b * BUFSIZE + o < feobp
          ensures fbuf[b][o] == data[base + b * BUFSIZE + o]
        {
          assert fbuf[b] == was[b + sb];
          assert was[b + sb][o] == data[old(base) + (b + sb) * BUFSIZE + o];
        }
      }
    }
  
    /** Every run of operations returns what the plain reader returns, whatever chunks read delivered. */
    method Run(ops: seq<Op>) returns (out: seq<int>)
      requires Valid()
      modifies this, fbuf
      ensures Valid() && out == Output(data, old(View()), ops)
    {
      hide Output, Step, Next, Seen, Blocks, Filled;
      out := [];
      var i := 0;
      OutputStart(data, View(), ops);
      while i < |ops|
        invariant 0 <= i <= |ops| && Valid() && Output(data, old(View()), ops) == out + Output(data, View(), ops[i..])
        invariant forall k | 0 <= k < |fbuf| :: fbuf[k] in old(fbuf) || fresh(fbuf[k])
      {
        ghost var r, rest := View(), ops[i + 1..];
        OutputNext(data, r, ops, i);
        match ops[i] {
          case Get =>
            var c := BGetC();
            Assoc(out, [c], Output(data, View(), rest));
            out := out + [c];
          case Save => Remember();
          case Drop => Forget();
          case Back(j) => BSeek(j);
          case Trim => BFree();
          case Rewind => SeekStart();
        }
        assert View() == Step(data, r, ops[i]);
        i := i + 1;
      }
      OutputStart(data, View(), ops);
    }
  }
}
