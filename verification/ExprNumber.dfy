/**
 * Numbers as words: putn and getn of bin/csh/set.c, egetn of bin/csh/exp.c, and the shell's 32-bit
 * integer operators.
 */
module ExprNumber {
  import opened Wrappers
  import opened Sequences

  const MODULUS := 0x1_0000_0000
  const MIN := -0x8000_0000
  const MAX := 0x7fff_ffff

  /** A C int. */
  predicate InRange(n: int) { MIN <= n <= MAX }

  /** Two's complement wrap-around. */
  function Wrap(n: int): (r: int)
    ensures InRange(r) && (InRange(n) ==> r == n)
  {
    var m := n % MODULUS;
    if m > MAX then m - MODULUS else m
  }

  lemma {:induction false} WrapShift(n: int, k: int)
    ensures Wrap(n + k * MODULUS) == Wrap(n)
  {
    assert (n + k * MODULUS) % MODULUS == n % MODULUS;
  }

  /** Wrapping every step of a decimal reading is wrapping its end. */
  lemma {:induction false} WrapStep(n: int, d: int)
    ensures Wrap(Wrap(n) * 10 + d) == Wrap(n * 10 + d)
  {
    var k := n / MODULUS + (if n % MODULUS > MAX then 1 else 0);
    assert n == Wrap(n) + k * MODULUS;
    WrapShift(Wrap(n) * 10 + d, 10 * k);
  }

  // ---------- operators ----------

  function Truth(b: bool): int { if b then 1 else 0 }

  function Power(n: nat): (r: int)
    ensures r > 0
  {
    if n == 0 then 1 else 2 * Power(n - 1)
  }

  /** Shift counts are taken modulo 32; the right shift keeps the sign. */
  function ShiftLeft(a: int, b: int): int { Wrap(a * Power(b % 32)) }
  function ShiftRight(a: int, b: int): int { Wrap(a / Power(b % 32)) }

  /** Division truncates toward zero, and the remainder has the sign of the dividend. */
  function Quotient(a: int, b: int): int
    requires b != 0
  {
    var q := (if a < 0 then -a else a) / (if b < 0 then -b else b);
    Wrap(if (a < 0) == (b < 0) then q else -q)
  }

  function Remainder(a: int, b: int): int
    requires b != 0
  {
    var r := (if a < 0 then -a else a) % (if b < 0 then -b else b);
    Wrap(if a < 0 then -r else r)
  }

  // ---------- words ----------

  predicate IsDigit(c: char) { '0' <= c <= '9' }

  function Digit(c: char): int
    requires IsDigit(c)
  {
    c as int - '0' as int
  }

  function DigitChar(d: int): (c: char)
    requires 0 <= d <= 9
    ensures IsDigit(c) && Digit(c) == d
  {
    '0' + d as char
  }

  function Decimal(n: nat): (r: string)
    ensures r != "" && forall i | 0 <= i < |r| :: IsDigit(r[i])
  {
    (if n > 9 then Decimal(n / 10) else "") + [DigitChar(n % 10)]
  }

  function PutN(n: int): (r: string)
    ensures r != ""
  {
    if n < 0 then "-" + Decimal(-n) else Decimal(n)
  }

  datatype NumberError = BadNumber | NotANumber

  /** The leading digits of s, read as a decimal number on top of n; and what follows them. */
  function Leading(s: string, n: int): (r: (int, string))
    decreases |s|
  {
    if s != "" && IsDigit(s[0]) then Leading(s[1..], n * 10 + Digit(s[0])) else (n, s)
  }

  function GetN(s: string): (r: Result<int, NumberError>)
    ensures r.Ok? ==> InRange(r.value)
  {
    var t := if |s| > 1 && s[0] == '+' then s[1..] else s;
    var neg := t != "" && t[0] == '-';
    var u := if neg then t[1..] else t;
    if neg && !(u != "" && IsDigit(u[0])) then Err(BadNumber)
    else
      var (n, rest) := Leading(u, 0);
      if rest != "" then Err(BadNumber) else Ok(Wrap(if neg then -n else n))
  }

  /** A word used as a number in an expression; the empty word is 0. */
  function EGetN(s: string): (r: Result<int, NumberError>)
    ensures r.Ok? ==> InRange(r.value)
  {
    if s != "" && s[0] != '-' && !IsDigit(s[0]) then Err(NotANumber) else GetN(s)
  }

  lemma {:induction false} LeadingAppend(a: string, b: string, n: int)
    requires forall i | 0 <= i < |a| :: IsDigit(a[i])
    ensures Leading(a + b, n) == Leading(b, Leading(a, n).0) && Leading(a, n).1 == ""
    decreases |a|
  {
    if a == "" {
      assert a + b == b;
    } else {
      LeadingAppend(a[1..], b, n * 10 + Digit(a[0]));
      assert (a + b)[1..] == a[1..] + b;
    }
  }

  lemma {:induction false} LeadingDecimal(n: nat)
    ensures Leading(Decimal(n), 0) == (n, "")
    decreases n
  {
    var d := [DigitChar(n % 10)];
    var pre := if n > 9 then Decimal(n / 10) else "";
    if n > 9 { LeadingDecimal(n / 10); }
    LeadingAppend(pre, d, 0);
    assert d[1..] == "";
  }

  /** Every int survives being written as a word and read back. */
  lemma {:induction false} NumberRoundTrip(n: int)
    requires InRange(n)
    ensures GetN(PutN(n)) == Ok(n) && EGetN(PutN(n)) == Ok(n)
  {
    LeadingDecimal(if n < 0 then -n else n);
    if n < 0 { assert ("-" + Decimal(-n))[1..] == Decimal(-n); }
  }

  lemma {:induction false} PutNInjective(a: int, b: int)
    requires InRange(a) && InRange(b)
    ensures PutN(a) == PutN(b) <==> a == b
  {
    NumberRoundTrip(a);
    NumberRoundTrip(b);
  }

  /** putn: the most negative int is its own negation, so its first digit is written by hand. */
  method WriteNumber(n: int) returns (r: string)
    requires InRange(n)
    ensures r == PutN(n)
  {
    hide Decimal, Wrap;
    r := "";
    var m := n;
    if m < 0 {
      OwnNegation(n);
      m := Wrap(-m);
      r := "-";
    }
    if m == MIN {
      r := r + "2";
      m := 147483648;
      MinDigits();
    }
    var d := WriteDigits(m);
    assert "" + d == d;
    r := r + d;
  }

  lemma {:induction false} OwnNegation(n: int)
    requires InRange(n) && n < 0
    ensures Wrap(-n) == if n == MIN then MIN else -n
  {
  }

  method WriteDigits(n: nat) returns (r: string)
    ensures r == Decimal(n)
  {
    r := "";
    if n > 9 { r := WriteDigits(n / 10); }
    r := r + [DigitChar(n % 10)];
  }

  lemma {:induction false} MinDigits()
    ensures "-" + "2" + Decimal(147483648) == PutN(MIN)
  {
    assert Tens(4) == 10000 && Tens(8) == 10000 * Tens(4) && Tens(9) == 10 * Tens(8) by {
      assert Tens(2) == 100;
      assert Tens(6) == 100 * Tens(4);
    }
    LastDigits(2, 147483648, 9);
    hide Decimal, Tens;
    assert DigitChar(2) == '2';
    Assoc("-", "2", Decimal(147483648));
  }

  /** A digit in front of a number with k digits adds that many tens. */
  lemma {:induction false} LastDigits(d: nat, n: nat, k: nat)
    requires 0 < d <= 9 && k > 0 && Tens(k - 1) <= n < Tens(k)
    ensures [DigitChar(d)] + Decimal(n) == Decimal(d * Tens(k) + n)
    decreases k
  {
    var m := d * Tens(k) + n;
    assert m % 10 == n % 10 && m / 10 == d * Tens(k - 1) + n / 10 by { TensSplit(d, n, k); }
    if k == 1 {
      assert Tens(0) == 1 && Decimal(d) == "" + [DigitChar(d)];
    } else {
      LastDigits(d, n / 10, k - 1);
      assert [DigitChar(d)] + (Decimal(n / 10) + [DigitChar(n % 10)]) ==
             [DigitChar(d)] + Decimal(n / 10) + [DigitChar(n % 10)];
    }
  }

  function Tens(k: nat): (r: int)
    ensures r > 0
  {
    if k == 0 then 1 else 10 * Tens(k - 1)
  }

  lemma {:induction false} TensSplit(d: nat, n: nat, k: nat)
    requires k > 0
    ensures (d * Tens(k) + n) % 10 == n % 10 && (d * Tens(k) + n) / 10 == d * Tens(k - 1) + n / 10
  {
    var t := d * Tens(k - 1);
    assert d * Tens(k) == 10 * t;
  }

  /** getn's loop, wrapping at every digit. */
  method ReadNumber(s: string) returns (r: Result<int, NumberError>)
    ensures r == GetN(s)
  {
    hide Wrap, Leading;
    var i, sign := 0, false;
    if |s| > 1 && s[0] == '+' { i := 1; }
    ghost var t := s[i..];
    assert t == if |s| > 1 && s[0] == '+' then s[1..] else s;
    if i < |s| && s[i] == '-' {
      sign := true;
      i := i + 1;
      if i == |s| || !IsDigit(s[i]) { return Err(BadNumber); }
    }
    ghost var u := s[i..];
    assert sign ==> u == t[1..];
    var n := 0;
    ghost var exact := 0;
    while i < |s| && IsDigit(s[i])
      invariant i <= |s| && n == Wrap(exact) && Leading(u, 0) == Leading(s[i..], exact)
    {
      assert s[i..][1..] == s[i + 1..];
      LeadingStep(s[i..], exact);
      WrapStep(exact, Digit(s[i]));
      exact := exact * 10 + Digit(s[i]);
      n := Wrap(n * 10 + Digit(s[i]));
      i := i + 1;
    }
    LeadingStep(s[i..], exact);
    if i < |s| { return Err(BadNumber); }
    WrapNegate(exact);
    return Ok(Wrap(if sign then -n else n));
  }

  lemma {:induction false} LeadingStep(s: string, n: int)
    ensures Leading(s, n) == if s != "" && IsDigit(s[0]) then Leading(s[1..], n * 10 + Digit(s[0])) else (n, s)
  {
  }

  lemma {:induction false} WrapNegate(n: int)
    ensures Wrap(-Wrap(n)) == Wrap(-n)
  {
    var k := n / MODULUS + (if n % MODULUS > MAX then 1 else 0);
    assert n == Wrap(n) + k * MODULUS;
    WrapShift(-Wrap(n), -k);
  }
}
