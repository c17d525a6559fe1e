/**
 * What the operators of an expression mean, said without the evaluator: sums, differences and products
 * modulo 2^32, truncating division, shifts, comparisons, and the bitwise operators bit by bit.
 */
module ExprMeaning {
  import opened Wrappers
  import opened ExprNumber
  import opened ExprEval

  /** The int that differs from n by a multiple of 2^32. */
  function Residue(n: int): (r: int)
    ensures -0x8000_0000 <= r < 0x8000_0000 && (n - r) % 0x1_0000_0000 == 0
  {
    (n + 0x8000_0000) % 0x1_0000_0000 - 0x8000_0000
  }

  /** There is only one. */
  lemma {:induction false} ResidueOnly(n: int, r: int)
    requires -0x8000_0000 <= r < 0x8000_0000 && (n - r) % 0x1_0000_0000 == 0
    ensures r == Residue(n)
  {
  }

  lemma {:induction false} WrapIsResidue(n: int)
    ensures Wrap(n) == Residue(n)
  {
    ResidueOnly(n, Wrap(n));
  }

  // ---------- division ----------

  function Size(n: int): nat { if n < 0 then -n else n }

  /** a is q times b and r, where r is smaller than b and on the side of a. */
  ghost predicate Divides(a: int, b: int, q: int, r: int)
  {
    a == q * b + r && Size(r) < Size(b) && (r == 0 || (r < 0) == (a < 0))
  }

  lemma {:induction false} DividesOnce(a: int, b: int, q: int, r: int, q': int, r': int)
    requires b != 0 && Divides(a, b, q, r) && Divides(a, b, q', r')
    ensures q == q' && r == r'
  {
    var d := q - q';
    assert d * b == q * b - q' * b == r' - r;
    if d != 0 { AtLeast(d, b); }
  }

  lemma {:induction false} AtLeast(d: int, b: int)
    requires d != 0
    ensures Size(d * b) >= Size(b)
  {
    var n, c := Size(d), Size(b);
    Grows(n, c);
    assert n * c == if (d < 0) == (b < 0) then d * b else -(d * b);
  }

  lemma {:induction false} Grows(n: nat, c: nat)
    requires n > 0
    ensures n * c >= c
    decreases n
  {
    if n > 1 {
      Grows(n - 1, c);
      assert n * c == (n - 1) * c + c;
    }
  }

  function Parted(a: int, b: int): (r: (int, int))
    requires b != 0
    ensures Divides(a, b, r.0, r.1)
  {
    var q := Size(a) / Size(b);
    PartedSize(a, b);
    var s := if (a < 0) == (b < 0) then q else -q;
    (s, a - s * b)
  }

  lemma {:induction false} PartedSize(a: int, b: int)
    requires b != 0
    ensures var q, m := Size(a) / Size(b), Size(a) % Size(b);
            var s := if (a < 0) == (b < 0) then q else -q;
            a - s * b == (if a < 0 then -m else m) && Divides(a, b, s, a - s * b)
  {
    var q, m := Size(a) / Size(b), Size(a) % Size(b);
    assert Size(a) == q * Size(b) + m;
    var s := if (a < 0) == (b < 0) then q else -q;
    assert s * b == if a < 0 then -(q * Size(b)) else q * Size(b);
  }

  lemma {:induction false} DivisionMeans(a: int, b: int)
    requires b != 0
    ensures Quotient(a, b) == Residue(Parted(a, b).0) && Remainder(a, b) == Residue(Parted(a, b).1)
  {
    hide Wrap, Residue, Divides;
    var q := Size(a) / Size(b);
    PartedSize(a, b);
    WrapIsResidue(if (a < 0) == (b < 0) then q else -q);
    WrapIsResidue(if a < 0 then -(Size(a) % Size(b)) else Size(a) % Size(b));
  }

  // ---------- bits ----------

  function Two(n: nat): (r: int)
    ensures r > 0
  {
    if n == 0 then 1 else 2 * Two(n - 1)
  }

  /** Bit i in two's complement. */
  predicate Bit(n: int, i: nat) { n / Two(i) % 2 == 1 }

  /** The bitwise operators on single bits. */
  predicate OnBits(op: Op, a: bool, b: bool)
  {
    if op == BitOr then a || b else if op == BitXor then a != b else a && b
  }

  /** The number whose lowest n bits are those of a and b combined. */
  function Combined(op: Op, a: int, b: int, n: nat): (r: int)
    ensures 0 <= r < Two(n)
  {
    if n == 0 then 0
    else Combined(op, a, b, n - 1) + if OnBits(op, Bit(a, n - 1), Bit(b, n - 1)) then Two(n - 1) else 0
  }

  lemma {:induction false} Halved(x: int, i: nat)
    requires i > 0
    ensures x / Two(i) == x / 2 / Two(i - 1)
  {
    var t := Two(i - 1);
    var q, r := x / 2 / t, x / 2 % t;
    assert x / 2 == q * t + r;
    var m := 2 * r + x % 2;
    assert x == q * (2 * t) + m && 0 <= m < 2 * t;
    Floor(x, 2 * t, q, m);
  }

  lemma {:induction false} Floor(x: int, d: int, q: int, m: int)
    requires d > 0 && x == q * d + m && 0 <= m < d
    ensures x / d == q
  {
    var e := x / d - q;
    assert e > 0 ==> e * d >= d;
    assert e < 0 ==> e * d <= 0 - d;
    assert x % d == m - e * d;
  }

  /** Taking the last bit off both numbers takes it off the result. */
  lemma {:induction false} CombinedLow(op: Op, x: int, y: int, n: nat)
    requires n > 0
    ensures Combined(op, x, y, n) ==
            (if OnBits(op, x % 2 == 1, y % 2 == 1) then 1 else 0) + 2 * Combined(op, x / 2, y / 2, n - 1)
    decreases n
  {
    hide Combined, Bit, Two;
    CombinedTop(op, x, y, n);
    if n == 1 {
      NoneCombined(op, x, y);
    } else {
      CombinedLow(op, x, y, n - 1);
      BitHalved(x, n - 1);
      BitHalved(y, n - 1);
      CombinedTop(op, x / 2, y / 2, n - 1);
    }
  }

  lemma {:induction false} NoneCombined(op: Op, x: int, y: int)
    ensures Combined(op, x, y, 0) == Combined(op, x / 2, y / 2, 0) == 0 && Two(0) == 1
    ensures (Bit(x, 0) <==> x % 2 == 1) && (Bit(y, 0) <==> y % 2 == 1)
  {
    assert Two(0) == 1 && x / 1 == x && y / 1 == y;
  }

  lemma {:induction false} CombinedTop(op: Op, x: int, y: int, n: nat)
    requires n > 0
    ensures Combined(op, x, y, n) ==
            Combined(op, x, y, n - 1) + if OnBits(op, Bit(x, n - 1), Bit(y, n - 1)) then Two(n - 1) else 0
    ensures n > 1 ==> Two(n - 1) == 2 * Two(n - 2)
  {
    hide Bit, OnBits;
  }

  lemma {:induction false} BitHalved(x: int, i: nat)
    requires i > 0
    ensures Bit(x, i) <==> Bit(x / 2, i - 1)
  {
    hide Two;
    Halved(x, i);
  }

  lemma {:induction false} BitwiseIsCombined(op: Op, x: nat, y: nat, n: nat)
    requires op == BitOr || op == BitXor || op == BitAnd
    ensures Bitwise(op, x, y, n) == Combined(op, x, y, n)
    decreases n
  {
    hide Bitwise, Combined;
    if n == 0 {
      NoBits(op, x, y);
    } else {
      CombinedLow(op, x, y, n);
      BitwiseLow(op, x, y, n);
      BitwiseIsCombined(op, x / 2, y / 2, n - 1);
    }
  }

  lemma {:induction false} NoBits(op: Op, x: nat, y: nat)
    ensures Bitwise(op, x, y, 0) == Combined(op, x, y, 0) == 0
  {
  }

  lemma {:induction false} BitwiseLow(op: Op, x: nat, y: nat, n: nat)
    requires n > 0 && (op == BitOr || op == BitXor || op == BitAnd)
    ensures Bitwise(op, x, y, n) ==
            (if OnBits(op, x % 2 == 1, y % 2 == 1) then 1 else 0) + 2 * Bitwise(op, x / 2, y / 2, n - 1)
  {
    var a, b := x % 2, y % 2;
    assert a == 0 || a == 1;
    assert a == 0 ==> a * b == 0;
    assert a == 1 ==> a * b == b;
  }

  /** Bits below the n-th do not see multiples of its weight. */
  lemma {:induction false} BitShift(x: int, k: int, n: nat, i: nat)
    requires i < n
    ensures Bit(x + k * Two(n), i) == Bit(x, i)
    decreases i
  {
    assert Two(n) == 2 * Two(n - 1);
    var y := x + k * Two(n);
    assert k * Two(n) == 2 * (k * Two(n - 1));
    if i == 0 {
      assert Two(0) == 1 && y / 1 == y && x / 1 == x;
    } else {
      Halved(x, i);
      Halved(y, i);
      assert y / 2 == x / 2 + k * Two(n - 1);
      BitShift(x / 2, k, n - 1, i - 1);
    }
  }

  lemma {:induction false} CombinedSame(op: Op, x: int, y: int, j: int, k: int, m: nat, n: nat)
    requires n <= m
    ensures Combined(op, x + j * Two(m), y + k * Two(m), n) == Combined(op, x, y, n)
    decreases n
  {
    hide Combined, Bit, Two, OnBits;
    var a, b := x + j * Two(m), y + k * Two(m);
    if n == 0 {
      NoneCombined(op, x, y);
      NoneCombined(op, a, b);
    } else {
      CombinedSame(op, x, y, j, k, m, n - 1);
      BitShift(x, j, m, n - 1);
      BitShift(y, k, m, n - 1);
      CombinedTop(op, x, y, n);
      CombinedTop(op, a, b, n);
    }
  }

  lemma {:induction false} CombinedBit(op: Op, a: int, b: int, n: nat, i: nat)
    requires i < n
    ensures Bit(Combined(op, a, b, n), i) == OnBits(op, Bit(a, i), Bit(b, i))
    decreases n
  {
    hide Combined, Bit, Two, OnBits;
    var low, on := Combined(op, a, b, n - 1), OnBits(op, Bit(a, n - 1), Bit(b, n - 1));
    CombinedTop(op, a, b, n);
    assert Combined(op, a, b, n) == low + (if on then 1 else 0) * Two(n - 1);
    if i < n - 1 {
      BitShift(low, if on then 1 else 0, n - 1, i);
      CombinedBit(op, a, b, n - 1, i);
    } else {
      BitTop(low, on, i);
    }
  }

  lemma {:induction false} BitTop(low: int, on: bool, i: nat)
    requires 0 <= low < Two(i)
    ensures Bit(low + (if on then 1 else 0) * Two(i), i) == on
  {
    hide Two;
    var top := if on then 1 else 0;
    Floor(low + top * Two(i), Two(i), top, low);
  }

  lemma {:induction false} TwoIs()
    ensures Two(32) == 0x1_0000_0000
  {
    assert Two(8) == 256 && Two(16) == 0x1_0000 && Two(24) == 0x100_0000;
  }

  /** The bitwise operators, bit by bit. */
  lemma {:induction false} BitsMean(op: Op, a: int, b: int)
    requires op == BitOr || op == BitXor || op == BitAnd
    ensures Logic(op, a, b) == Residue(Combined(op, a, b, 32))
    ensures forall i: nat | i < 32 :: Bit(Logic(op, a, b), i) == OnBits(op, Bit(a, i), Bit(b, i))
  {
    hide Bitwise, Combined, Residue, Wrap, Bit;
    TwoIs();
    var x, y := a % MODULUS, b % MODULUS;
    BitwiseIsCombined(op, x, y, 32);
    CombinedSame(op, x, y, a / MODULUS, b / MODULUS, 32, 32);
    var c := Combined(op, a, b, 32);
    WrapIsResidue(c);
    forall i: nat | i < 32 ensures Bit(Residue(c), i) == OnBits(op, Bit(a, i), Bit(b, i)) {
      CombinedBit(op, a, b, 32, i);
      BitShift(Residue(c), (c - Residue(c)) / 0x1_0000_0000, 32, i);
    }
  }

  // ---------- all operators ----------

  /** The value of an operator. */
  function Meaning(op: Op, a: int, b: int): Result<int, Error>
  {
    match op
    case OrOr => Ok(if a == 0 && b == 0 then 0 else 1)
    case AndAnd => Ok(if a == 0 || b == 0 then 0 else 1)
    case BitOr => Ok(Residue(Combined(op, a, b, 32)))
    case BitXor => Ok(Residue(Combined(op, a, b, 32)))
    case BitAnd => Ok(Residue(Combined(op, a, b, 32)))
    case Gt => Ok(if a > b then 1 else 0)
    case Ge => Ok(if a < b then 0 else 1)
    case Lt => Ok(if a < b then 1 else 0)
    case Le => Ok(if a > b then 0 else 1)
    case Shl => Ok(Residue(a * Two(b % 32)))
    case Shr => Ok(a / Two(b % 32))
    case Plus => Ok(Residue(a + b))
    case Minus => Ok(Residue(a - b))
    case Times => Ok(Residue(a * b))
    case Divide => if b == 0 then Err(DivByZero) else Ok(Residue(Parted(a, b).0))
    case Modulo => if b == 0 then Err(ModByZero) else Ok(Parted(a, b).1)
    case NotEq => Ok(if a == b then 0 else 1)
    case NotEqMatch => Ok(if a == b then 0 else 1)
    case _ => Ok(if a == b then 1 else 0)
  }

  lemma {:induction false} PowerIsTwo(n: nat)
    ensures Power(n) == Two(n)
  {
    if n > 0 { PowerIsTwo(n - 1); }
  }

  lemma {:induction false} ShiftRightSmall(a: int, n: nat)
    requires InRange(a)
    ensures InRange(a / Two(n))
    decreases n
  {
    if n > 0 {
      Halved(a, n);
      ShiftRightSmall(a / 2, n - 1);
    }
  }

  /** The evaluator's arithmetic has these values. */
  lemma {:induction false} ArithMeans(op: Op, a: int, b: int)
    requires InRange(a) && InRange(b) && !OnInts(op) && !IsEquality(op)
    ensures Arith(op, a, b) == Meaning(op, a, b)
  {
    hide Wrap, Residue, Quotient, Remainder, Parted;
    match op
    case Shl => PowerIsTwo(b % 32); WrapIsResidue(a * Two(b % 32));
    case Shr => PowerIsTwo(b % 32); ShiftRightSmall(a, b % 32); WrapIsSame(a / Two(b % 32));
    case Plus => WrapIsResidue(a + b);
    case Minus => WrapIsResidue(a - b);
    case Times => WrapIsResidue(a * b);
    case Divide => if b != 0 { DivisionMeans(a, b); }
    case Modulo => if b != 0 { DivisionMeans(a, b); RestInRange(a, b); }
    case _ =>
  }

  lemma {:induction false} WrapIsSame(n: int)
    requires InRange(n)
    ensures Wrap(n) == n
  {
  }

  lemma {:induction false} RestInRange(a: int, b: int)
    requires InRange(a) && InRange(b) && b != 0
    ensures Residue(Parted(a, b).1) == Parted(a, b).1
  {
    assert Size(Parted(a, b).1) < Size(b);
  }

  lemma {:induction false} LogicMeans(op: Op, a: int, b: int)
    requires OnInts(op)
    ensures Meaning(op, a, b) == Ok(Logic(op, a, b))
  {
    hide Bitwise, Combined, Residue, Wrap;
    if op != OrOr && op != AndAnd { BitsMean(op, a, b); }
  }

  // ---------- numbers as words ----------

  ghost predicate Digits(s: string) { forall i | 0 <= i < |s| :: '0' <= s[i] <= '9' }

  /** The number that digits stand for by their places. */
  ghost function Places(s: string): int
  {
    if s == "" then 0 else (s[0] as int - 48) * Tens(|s| - 1) + Places(s[1..])
  }

  lemma {:induction false} LeadingPlaces(s: string, n: int)
    requires Digits(s)
    ensures Leading(s, n) == (n * Tens(|s|) + Places(s), "")
    decreases |s|
  {
    hide Leading, Tens, Places;
    LeadingStep(s, n);
    if s == "" {
      NoPlaces();
    } else {
      var t, d := Tens(|s| - 1), Digit(s[0]);
      PlacesStep(s);
      LeadingPlaces(s[1..], n * 10 + d);
      Distribute(n, d, t);
    }
  }

  lemma {:induction false} NoPlaces()
    ensures Places("") == 0 && Tens(0) == 1
  {
  }

  lemma {:induction false} PlacesStep(s: string)
    requires Digits(s) && s != ""
    ensures IsDigit(s[0]) && Tens(|s|) == 10 * Tens(|s| - 1)
    ensures Places(s) == Digit(s[0]) * Tens(|s| - 1) + Places(s[1..])
  {
  }

  lemma {:induction false} Distribute(n: int, d: int, t: int)
    ensures (n * 10 + d) * t == n * (10 * t) + d * t
  {
  }

  lemma {:induction false} LeadingStops(s: string, n: int)
    requires !Digits(s)
    ensures Leading(s, n).1 != ""
    decreases |s|
  {
    var k :| 0 <= k < |s| && !('0' <= s[k] <= '9');
    if '0' <= s[0] <= '9' {
      assert s[1..][k - 1] == s[k];
      LeadingStops(s[1..], n * 10 + Digit(s[0]));
    }
  }

  /** getn reads an optional plus, an optional minus and digits, and nothing else. */
  lemma {:induction false} ReadsPlaces(plus: bool, minus: bool, d: string)
    requires Digits(d) && (minus ==> d != "") && (plus ==> d != "")
    ensures GetN((if plus then "+" else "") + (if minus then "-" else "") + d) ==
            Ok(Residue(if minus then -Places(d) else Places(d)))
  {
    hide GetN;
    var u := (if minus then "-" else "") + d;
    var s := (if plus then "+" else "") + u;
    assert (if plus then "+" else "") + (if minus then "-" else "") + d == s;
    assert !minus ==> u == d;
    SignRead(minus, d, u);
    if plus {
      PlusRead(u);
    } else {
      assert s == u;
    }
  }

  /** A plus in front of a number that is not empty changes nothing. */
  lemma {:induction false} PlusRead(u: string)
    requires u != "" && u[0] != '+'
    ensures GetN("+" + u) == GetN(u)
  {
    hide Leading, Wrap;
    assert ("+" + u)[1..] == u;
  }

  lemma {:induction false} SignRead(minus: bool, d: string, u: string)
    requires Digits(d) && (minus ==> d != "") && u == if minus then "-" + d else d
    ensures GetN(u) == Ok(Residue(if minus then -Places(d) else Places(d)))
    ensures u != "" ==> u[0] != '+'
  {
    hide Wrap, Residue, Leading, Places;
    assert minus ==> u[1..] == d;
    LeadingPlaces(d, 0);
    WrapIsResidue(if minus then -Places(d) else Places(d));
  }

  ghost predicate NumberText(s: string)
  {
    exists plus, minus, d: string :: Spelled(s, plus, minus, d)
  }

  ghost predicate Spelled(s: string, plus: bool, minus: bool, d: string)
  {
    Digits(d) && (minus ==> d != "") && (plus ==> d != "") &&
    s == (if plus then "+" else "") + (if minus then "-" else "") + d
  }

  lemma {:induction false} ReadsOnlyPlaces(s: string)
    ensures GetN(s).Ok? <==> NumberText(s)
    ensures EGetN(s).Ok? <==> NumberText(s) && (s == "" || s[0] != '+')
    ensures EGetN(s).Ok? ==> EGetN(s) == GetN(s)
  {
    hide GetN, Digits;
    if NumberText(s) {
      var plus, minus, d :| Spelled(s, plus, minus, d);
      ReadsPlaces(plus, minus, d);
      if s != "" && s[0] != '+' { FirstCharacter(s); }
    }
    if GetN(s).Ok? { var plus, minus, d := Spelling(s); }
  }

  lemma {:induction false} Spelling(s: string) returns (plus: bool, minus: bool, d: string)
    requires GetN(s).Ok?
    ensures Spelled(s, plus, minus, d)
  {
    hide Wrap, Leading, Digits;
    plus := |s| > 1 && s[0] == '+';
    var t := if plus then s[1..] else s;
    minus := t != "" && t[0] == '-';
    d := if minus then t[1..] else t;
    if !Digits(d) { LeadingStops(d, 0); }
    hide GetN;
    Parts(s, plus, t, minus, d);
  }

  lemma {:induction false} Parts(s: string, plus: bool, t: string, minus: bool, d: string)
    requires if plus then s != "" && s[0] == '+' && t == s[1..] else t == s
    requires if minus then t != "" && t[0] == '-' && d == t[1..] else d == t
    ensures s == (if plus then "+" else "") + (if minus then "-" else "") + d
  {
    var x, y := if plus then "+" else "", if minus then "-" else "";
    assert t == y + d by { if minus { assert t == [t[0]] + t[1..]; } }
    assert s == x + t by { if plus { assert s == [s[0]] + s[1..]; } }
    assert x + (y + d) == x + y + d;
  }

  lemma {:induction false} FirstCharacter(s: string)
    requires NumberText(s) && s != "" && s[0] != '+'
    ensures s[0] == '-' || IsDigit(s[0])
  {
    var plus, minus, d :| Spelled(s, plus, minus, d);
    assert !plus ==> s == (if minus then "-" else "") + d;
    if !plus && !minus { assert s == d; }
  }

  /** putn writes the shortest digits of the number, after a minus if it is negative. */
  lemma {:induction false} WritesPlaces(n: int)
    ensures var d := if n < 0 then PutN(n)[1..] else PutN(n);
            && (n < 0 ==> PutN(n)[0] == '-') && Digits(d) && d != "" && Places(d) == Size(n)
            && (d[0] == '0' ==> d == "0")
  {
    var m := Size(n);
    var d := Decimal(m);
    assert n < 0 ==> PutN(n)[1..] == d;
    assert Digits(d) by { assert forall i | 0 <= i < |d| :: IsDigit(d[i]); }
    LeadingDecimal(m);
    LeadingPlaces(d, 0);
    NoZeroFirst(m);
  }

  lemma {:induction false} NoZeroFirst(n: nat)
    ensures Decimal(n)[0] == '0' ==> Decimal(n) == "0"
    decreases n
  {
    if n > 9 {
      NoZeroFirst(n / 10);
      assert Decimal(n)[0] == Decimal(n / 10)[0];
      LeadingDecimal(n / 10);
      assert Leading("0", 0) == (0, "");
    } else {
      assert Decimal(n) == "" + [DigitChar(n % 10)];
    }
  }
}
