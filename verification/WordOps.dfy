/** The word-level meaning of the arithmetic, comparison and bit opcodes of vm/instructions.go. */
module WordOps {
  import opened Arith
  import opened BigMath

  datatype Binary =
    | ADD | MUL | SUB | DIV | SDIV | MOD | SMOD | EXP | SIGNEXTEND
    | LT | GT | SLT | SGT | EQ | AND | OR | XOR | BYTE | SHL | SHR | SAR

  datatype Unary = ISZERO | NOT

  datatype Ternary = ADDMOD | MULMOD

  function Abs(x: int): nat { if x < 0 then -x else x }

  function Flag(b: bool): Word { if b then 1 else 0 }

  /** x is the word popped first, y the one below it. */
  function Apply2(op: Binary, x: Word, y: Word): Word {
    match op
    case ADD => U256(x + y)
    case MUL => U256(x * y)
    case SUB => U256(x - y)
    case DIV => if y != 0 then DivWord(x, y) else 0
    case SDIV => SDiv(x, y)
    case MOD => if y == 0 then 0 else ModWord(x, y)
    case SMOD => SMod(x, y)
    case EXP => U256(Pow(x, y))
    case SIGNEXTEND => SignExtend(x, y)
    case LT => Flag(x < y)
    case GT => Flag(x > y)
    case SLT => if x >= TWO255 > y then 1 else if x < TWO255 <= y then 0 else Flag(x < y)
    case SGT => if x >= TWO255 > y then 0 else if x < TWO255 <= y then 1 else Flag(x > y)
    case EQ => Flag(x == y)
    case AND => Bitwise(op, x, y)
    case OR => Bitwise(op, x, y)
    case XOR => Bitwise(op, x, y)
    case BYTE => if x < 32 then DropBytes(y, 31 - x) % 256 else 0
    case SHL => if x >= 256 then 0 else U256(y * Pow2(x))
    case SHR => if x >= 256 then 0 else U256(y / Pow2(x))
    case SAR => Sar(x, y)
  }

  function Apply1(op: Unary, x: Word): Word {
    match op
    case ISZERO => Flag(x == 0)
    case NOT => U256(TWO256 - 1 - x)
  }

  function Apply3(op: Ternary, x: Word, y: Word, z: Word): Word {
    if z == 0 then 0
    else match op
      case ADDMOD => ModWord(x + y, z)
      case MULMOD => (MulNonNegative(x, y); ModWord(x * y, z))
  }

  function DivWord(x: Word, y: Word): Word
    requires y != 0
  {
    DivAtMost(x, y);
    x / y
  }

  function ModWord(x: nat, y: Word): Word
    requires y != 0
  {
    x % y
  }

  function SDiv(a: Word, b: Word): Word {
    var x, y := S256(a), S256(b);
    if x == 0 || y == 0 then 0
    else if (x < 0) != (y < 0) then U256(-(Abs(x) / Abs(y)))
    else U256(Abs(x) / Abs(y))
  }

  function SMod(a: Word, b: Word): Word {
    var x, y := S256(a), S256(b);
    if y == 0 then 0
    else if x < 0 then U256(-(Abs(x) % Abs(y)))
    else U256(Abs(x) % Abs(y))
  }

  /** Bit 8·back+7 of num becomes its sign bit. */
  function SignExtend(back: Word, num: Word): Word {
    if back < 31 then
      var low := Pow2(8 * back + 7);
      if (num / low) % 2 == 1 then U256(num % low - low) else U256(num % low)
    else num
  }

  function Sar(shift: Word, a: Word): Word {
    var v := S256(a);
    if shift >= 256 then U256(if v > 0 then 0 else -1) else U256(v / Pow2(shift))
  }

  predicate OnBits(op: Binary, a: bool, b: bool) {
    match op
    case AND => a && b
    case OR => a || b
    case _ => a != b
  }

  function BitwiseN(op: Binary, x: nat, y: nat, n: nat): (r: nat)
    ensures r < Pow2(n)
    decreases n
  {
    if n == 0 then 0
    else (if OnBits(op, x % 2 == 1, y % 2 == 1) then 1 else 0) + 2 * BitwiseN(op, x / 2, y / 2, n - 1)
  }

  function Bitwise(op: Binary, x: Word, y: Word): Word {
    var n := 256;
    Pow2Words(n);
    BitwiseN(op, x, y, n)
  }

  // ----- what these amount to -----

  /** Bit i of x. */
  predicate BitAt(x: nat, i: nat) {
    (x / Pow2(i)) % 2 == 1
  }

  lemma {:induction false} BitAtHalf(x: nat, i: nat)
    ensures BitAt(x, i) <==> if i == 0 then x % 2 == 1 else BitAt(x / 2, i - 1)
  {
    if i > 0 { DivTwice(x, Pow2(i - 1)); }
  }

  /** Bit i of the result is the operation on the operands' bits i. */
  lemma {:induction false} BitwiseBit(op: Binary, x: nat, y: nat, n: nat, i: nat)
    requires i < n
    ensures BitAt(BitwiseN(op, x, y, n), i) <==> OnBits(op, BitAt(x, i), BitAt(y, i))
  {
    hide BitwiseN, BitAt;
    BitwiseHalf(op, x, y, n);
    BitAtHalf(BitwiseN(op, x, y, n), i);
    BitAtHalf(x, i);
    BitAtHalf(y, i);
    if i > 0 { BitwiseBit(op, x / 2, y / 2, n - 1, i - 1); }
  }

  lemma {:induction false} BitwiseHalf(op: Binary, x: nat, y: nat, n: nat)
    requires n > 0
    ensures BitwiseN(op, x, y, n) / 2 == BitwiseN(op, x / 2, y / 2, n - 1)
    ensures BitwiseN(op, x, y, n) % 2 == 1 <==> OnBits(op, x % 2 == 1, y % 2 == 1)
  {
  }

  lemma {:induction false} DivTwice(x: nat, p: nat)
    requires p > 0
    ensures x / (2 * p) == (x / 2) / p
  {
    var h := x / 2;
    var q, r := h / p, h % p;
    assert h == p * q + r;
    assert x == 2 * h + x % 2;
    assert 2 * (p * q) == (2 * p) * q;
    DivModUnique(x, 2 * p, q, 2 * r + x % 2);
  }

  /** SDIV and SMOD are the quotient and remainder of truncated signed division;
      the one exception is the most negative number by minus one. */
  lemma {:induction false} SignedDivision(a: Word, b: Word)
    requires b != 0
    ensures var x, y, q, r := S256(a), S256(b), S256(SDiv(a, b)), S256(SMod(a, b));
            && Abs(r) < Abs(y)
            && (r != 0 ==> (r < 0 <==> x < 0))
            && (x == q * y + r <==> !(x == -TWO255 && y == -1))
  {
    hide S256, SDiv, SMod;
    var x, y := S256(a), S256(b);
    SignedZero(b);
    SDivValue(a, b);
    SModValue(a, b);
    var q: int := Abs(x) / Abs(y);
    var r: int := Abs(x) % Abs(y);
    assert Abs(x) == Abs(y) * q + r;
    SignedQuotient(x, y, q, r);
    if x == -TWO255 && y == -1 { DivModUnique(TWO255, 1, TWO255, 0); }
  }

  lemma {:induction false} SignedZero(b: Word)
    ensures S256(b) == 0 <==> b == 0
  {
  }

  lemma {:induction false} SDivValue(a: Word, b: Word)
    requires b != 0
    ensures var x, y := S256(a), S256(b);
            var q: int := Abs(x) / Abs(y);
            S256(SDiv(a, b)) ==
            if x == -TWO255 && y == -1 then -TWO255 else if (x < 0) != (y < 0) then -q else q
  {
    var x, y := S256(a), S256(b);
    var q: int := Abs(x) / Abs(y);
    DivAtMost(Abs(x), Abs(y));
    QuotientStrict(Abs(x), Abs(y));
    SignedRoundTrip(a, q);
    SignedRoundTrip(a, -q);
  }

  lemma {:induction false} SModValue(a: Word, b: Word)
    requires b != 0
    ensures var x, y := S256(a), S256(b);
            var r: int := Abs(x) % Abs(y);
            S256(SMod(a, b)) == (if x < 0 then -r else r) && 0 <= r < Abs(y)
  {
    var r: int := Abs(S256(a)) % Abs(S256(b));
    SignedRoundTrip(a, r);
    SignedRoundTrip(a, -r);
  }

  lemma {:induction false} QuotientStrict(x: nat, y: nat)
    requires y >= 1
    ensures y >= 2 && x > 0 ==> x / y < x
    ensures y == 1 ==> x / y == x
    ensures x == 0 ==> x / y == 0
  {
    var q := x / y;
    assert x == y * q + x % y;
    if x == 0 {
      DivModUnique(x, y, 0, 0);
    } else if y >= 2 && q >= x {
      MulMonotone(q, 2, y);
    }
  }

  lemma {:induction false} SignedQuotient(x: int, y: int, q: int, r: int)
    requires y != 0 && Abs(x) == Abs(y) * q + r
    ensures x == (if (x < 0) != (y < 0) then -q else q) * y + (if x < 0 then -r else r)
  {
  }

  lemma {:induction false} SignedComparison(a: Word, b: Word)
    ensures Apply2(SLT, a, b) == Flag(S256(a) < S256(b))
    ensures Apply2(SGT, a, b) == Flag(S256(a) > S256(b))
  {
  }

  /** SAR is the floor of division by 2^shift, except that zero shifted by 256 or more gives minus one. */
  lemma {:induction false} ArithmeticShift(shift: Word, a: Word)
    ensures Sar(shift, a) == U256(S256(a) / Pow2(shift)) <==> !(shift >= 256 && a == 0)
  {
    var v := S256(a);
    if shift >= 256 {
      var n := 256;
      Pow2Words(n);
      Pow2Monotone(n, shift);
      var p := Pow2(shift);
      if v >= 0 {
        DivModUnique(v, p, 0, v);
      } else {
        DivModUnique(v, p, -1, v + p);
      }
    }
  }

  /** SIGNEXTEND yields the signed value of the low 8·(back+1) bits. */
  lemma {:induction false} SignExtendValue(back: Word, num: Word)
    requires back < 31
    ensures var half: int := Pow2(8 * back + 7);
            var v := S256(SignExtend(back, num));
            -half <= v < half && (num - v) % (2 * half) == 0
  {
    var k := 8 * back + 7;
    var half: int := Pow2(k);
    var n := 256;
    Pow2Words(n);
    Pow2Monotone(k, n - 1);
    LowSigned(num, half);
    SignedRoundTrip(num, num % half);
    SignedRoundTrip(num, num % half - half);
  }

  lemma {:induction false} LowSigned(num: int, half: int)
    requires half > 0
    ensures var v := if (num / half) % 2 == 1 then num % half - half else num % half;
            (num - v) % (2 * half) == 0
  {
    var q, r := num / half, num % half;
    var v := if q % 2 == 1 then r - half else r;
    var c := (q + 1) / 2;
    assert num - v == half * (if q % 2 == 1 then q + 1 else q);
    assert half * (2 * c) == (2 * half) * c;
    DivModUnique(num - v, 2 * half, c, 0);
  }
}
