/** What the arithmetic opcodes of vm/instructions.go mean, said by relations between operands and result. */
module WordLaws {
  import opened Arith
  import opened BigMath
  import opened WordOps

  /** r is congruent to v modulo 2^256; for a word r there is only one. */
  predicate Wraps(r: Word, v: int) {
    (v - r) % TWO256 == 0
  }

  /** r is the whole part of x / y for naturals. */
  predicate Quotient(r: int, x: int, y: int) {
    r * y <= x < (r + 1) * y
  }

  /** x is the word popped first, y the second, r the word pushed. */
  ghost predicate Means2(op: Binary, x: Word, y: Word, r: Word) {
    match op
    case ADD => Wraps(r, x + y)
    case MUL => Wraps(r, x * y)
    case SUB => Wraps(r, x - y)
    case EXP => Wraps(r, Pow(x, y))
    case DIV => if y == 0 then r == 0 else Quotient(r, x, y)
    case MOD => if y == 0 then r == 0 else r < y && (x - r) % y == 0
    case SDIV => if y == 0 then r == 0 else SignedQuotientOf(S256(r), S256(x), S256(y))
    case SMOD => if y == 0 then r == 0 else SignedRemainderOf(S256(r), S256(x), S256(y))
    case SIGNEXTEND => if x >= 31 then r == y else Extended(S256(r), y, Pow2(8 * x + 7))
    case LT => r == if x < y then 1 else 0
    case GT => r == if y < x then 1 else 0
    case SLT => r == if S256(x) < S256(y) then 1 else 0
    case SGT => r == if S256(y) < S256(x) then 1 else 0
    case EQ => r == if x == y then 1 else 0
    case AND => forall i | 0 <= i < 256 :: BitAt(r, i) <==> BitAt(x, i) && BitAt(y, i)
    case OR => forall i | 0 <= i < 256 :: BitAt(r, i) <==> BitAt(x, i) || BitAt(y, i)
    case XOR => forall i | 0 <= i < 256 :: BitAt(r, i) <==> BitAt(x, i) != BitAt(y, i)
    case BYTE => r == if x < 32 then (y / Pow256(31 - x)) % 256 else 0
    case SHL => if x >= 256 then r == 0 else Wraps(r, y * Pow2(x))
    case SHR => if x >= 256 then r == 0 else Quotient(r, y, Pow2(x))
    case SAR => if x >= 256 then S256(r) == (if S256(y) > 0 then 0 else -1) else Quotient(S256(r), S256(y), Pow2(x))
  }

  /** Truncated division; the most negative number by minus one wraps to itself. */
  predicate SignedQuotientOf(q: int, x: int, y: int) {
    if x == -TWO255 && y == -1 then q == x
    else Quotient(Abs(q), Abs(x), Abs(y)) && (q != 0 ==> (q < 0 <==> (x < 0) != (y < 0)))
  }

  predicate SignedRemainderOf(r: int, x: int, y: int)
    requires y != 0
  {
    Abs(r) < Abs(y) && (Abs(x) - Abs(r)) % Abs(y) == 0 && (r != 0 ==> (r < 0 <==> x < 0))
  }

  predicate Extended(v: int, num: Word, half: int)
    requires half > 0
  {
    -half <= v < half && (num - v) % (2 * half) == 0
  }

  ghost predicate Means1(op: Unary, x: Word, r: Word) {
    match op
    case ISZERO => r == if x == 0 then 1 else 0
    case NOT => r + x == TWO256 - 1
  }

  ghost predicate Means3(op: Ternary, x: Word, y: Word, z: Word, r: Word) {
    if z == 0 then r == 0
    else match op
      case ADDMOD => r < z && (x + y - r) % z == 0
      case MULMOD => r < z && (x * y - r) % z == 0
  }

  lemma {:induction false} WrapsU256(v: int)
    ensures Wraps(U256(v), v)
  {
    RemainderLaw(v, TWO256);
  }

  lemma {:induction false} RemainderLaw(v: int, m: int)
    requires m > 0
    ensures (v - v % m) % m == 0
  {
    DivModUnique(v - v % m, m, v / m, 0);
  }

  lemma {:induction false} QuotientLaw(x: int, y: int)
    requires y > 0
    ensures Quotient(x / y, x, y)
  {
    var q := x / y;
    assert x == y * q + x % y;
    assert (q + 1) * y == q * y + y;
  }

  lemma {:induction false} BitwiseLaw(op: Binary, x: Word, y: Word)
    requires op == AND || op == OR || op == XOR
    ensures Means2(op, x, y, Apply2(op, x, y))
  {
    hide BitAt, BitwiseN;
    var n := 256;
    forall i | 0 <= i < n
      ensures BitAt(Apply2(op, x, y), i) <==>
              if op == AND then BitAt(x, i) && BitAt(y, i)
              else if op == OR then BitAt(x, i) || BitAt(y, i)
              else BitAt(x, i) != BitAt(y, i)
    {
      BitwiseBit(op, x, y, n, i);
    }
  }

  lemma {:induction false} DivideTwice(v: nat, k: nat)
    requires k > 0
    ensures (v / 256) / k == v / (256 * k)
  {
    var h := v / 256;
    var q, r := h / k, h % k;
    assert h == k * q + r;
    assert v == (256 * k) * q + (256 * r + v % 256) by { assert 256 * (k * q) == (256 * k) * q; }
    DivModUnique(v, 256 * k, q, 256 * r + v % 256);
  }

  lemma {:induction false} DropBytesQuotient(v: nat, p: nat)
    ensures DropBytes(v, p) == v / Pow256(p)
  {
    if p > 0 {
      DropBytesQuotient(v / 256, p - 1);
      DivideTwice(v, Pow256(p - 1));
    } else {
      DivModUnique(v, 1, v, 0);
    }
  }

  /** The value of big-endian bytes, digit by digit. */
  lemma {:induction false} DigitOf(s: seq<Byte>, k: nat)
    requires k < |s|
    ensures (FromBytes(s) / Pow256(|s| - 1 - k)) % 256 == s[k]
  {
    var v, p := FromBytes(s), |s| - 1 - k;
    DivModUnique(v, 256, FromBytes(s[..|s| - 1]), s[|s| - 1]);
    DropBytesQuotient(v, p);
    if p > 0 {
      DigitOf(s[..|s| - 1], k);
      DropBytesQuotient(v / 256, p - 1);
    }
  }

  /** And back: the bytes of a value. */
  lemma {:induction false} BigEndianDigit(v: nat, n: nat, k: nat)
    requires k < n
    ensures BigEndian(v, n)[k] == (v / Pow256(n - 1 - k)) % 256
  {
    DropBytesQuotient(v, n - 1 - k);
    if k < n - 1 {
      BigEndianDigit(v / 256, n - 1, k);
      DropBytesQuotient(v / 256, n - 2 - k);
    }
  }

  lemma {:induction false} ShiftLaw(op: Binary, x: Word, y: Word)
    requires op == BYTE || op == SHL || op == SHR || op == SAR
    ensures Means2(op, x, y, Apply2(op, x, y))
  {
    hide Pow2, Pow256, DropBytes;
    match op
    case BYTE => if x < 32 { DropBytesQuotient(y, 31 - x); }
    case SHL => if x < 256 { WrapsU256(y * Pow2(x)); }
    case SHR => if x < 256 { ShiftedRight(y, Pow2(x)); }
    case SAR => if x < 256 { ShiftedSigned(y, Pow2(x)); } else { SignedRoundTrip(0, 0); SignedRoundTrip(0, -1); }
  }

  lemma {:induction false} ShiftedRight(y: Word, p: int)
    requires p >= 1
    ensures U256(y / p) == y / p && Quotient(y / p, y, p)
  {
    QuotientLaw(y, p);
    DivAtMost(y, p);
    DivModUnique(y / p, TWO256, 0, y / p);
  }

  lemma {:induction false} ShiftedSigned(y: Word, p: int)
    requires p >= 1
    ensures S256(U256(S256(y) / p)) == S256(y) / p && Quotient(S256(y) / p, S256(y), p)
  {
    hide S256;
    var v := S256(y);
    QuotientLaw(v, p);
    SignedShrinks(v, p);
    SignedRoundTrip(0, v / p);
  }

  lemma {:induction false} SignedShrinks(v: int, p: int)
    requires p >= 1 && -TWO255 <= v < TWO255
    ensures -TWO255 <= v / p < TWO255
  {
    if v >= 0 {
      DivAtMost(v, p);
    } else {
      var q := v / p;
      assert v == p * q + v % p;
      if q < v { MulMonotone(-q, 1, p); assert (-q) * p == -(p * q); }
    }
  }

  lemma {:induction false} DivisionLaw(op: Binary, x: Word, y: Word)
    requires op == DIV || op == MOD || op == SDIV || op == SMOD
    ensures Means2(op, x, y, Apply2(op, x, y))
  {
    hide S256, SDiv, SMod;
    SignedZero(y);
    if y == 0 {
      ZeroDivisor(x);
    } else {
      match op
      case DIV => QuotientLaw(x, y);
      case MOD => RemainderLaw(x, y);
      case SDIV =>
        SDivValue(x, y);
        QuotientLaw(Abs(S256(x)), Abs(S256(y)));
        NonNegativeQuotient(Abs(S256(x)), Abs(S256(y)));
      case SMOD =>
        SModValue(x, y);
        RemainderLaw(Abs(S256(x)), Abs(S256(y)));
    }
  }

  lemma {:induction false} NonNegativeQuotient(x: nat, y: nat)
    requires y >= 1
    ensures x / y >= 0
  {
    DivAtMost(x, y);
  }

  lemma {:induction false} ZeroDivisor(x: Word)
    ensures SDiv(x, 0) == 0 && SMod(x, 0) == 0
  {
  }

  /** Every two-operand opcode does what its name says. */
  lemma {:induction false} BinaryLaw(op: Binary, x: Word, y: Word)
    ensures Means2(op, x, y, Apply2(op, x, y))
  {
    hide Pow, Pow2, BitAt, S256, SDiv, SMod, Sar, SignExtend, Bitwise, DropBytes, Quotient, Wraps;
    match op
    case ADD => WrapsU256(x + y);
    case MUL => WrapsU256(x * y);
    case SUB => WrapsU256(x - y);
    case EXP => WrapsU256(Pow(x, y));
    case DIV => DivisionLaw(op, x, y);
    case MOD => DivisionLaw(op, x, y);
    case SDIV => DivisionLaw(op, x, y);
    case SMOD => DivisionLaw(op, x, y);
    case SIGNEXTEND => ExtensionLaw(x, y);
    case LT =>
    case GT =>
    case SLT => SignedComparison(x, y);
    case SGT => SignedComparison(x, y);
    case EQ =>
    case AND => BitwiseLaw(op, x, y);
    case OR => BitwiseLaw(op, x, y);
    case XOR => BitwiseLaw(op, x, y);
    case BYTE => ShiftLaw(op, x, y);
    case SHL => ShiftLaw(op, x, y);
    case SHR => ShiftLaw(op, x, y);
    case SAR => ShiftLaw(op, x, y);
  }

  lemma {:induction false} ExtensionLaw(x: Word, y: Word)
    ensures Means2(SIGNEXTEND, x, y, Apply2(SIGNEXTEND, x, y))
  {
    if x < 31 {
      hide SignExtend, Pow2;
      SignExtendValue(x, y);
    }
  }

  lemma {:induction false} UnaryLaw(op: Unary, x: Word)
    ensures Means1(op, x, Apply1(op, x))
  {
    if op == NOT { DivModUnique(TWO256 - 1 - x, TWO256, 0, TWO256 - 1 - x); }
  }

  lemma {:induction false} ProductRemainder(x: Word, y: Word, z: Word)
    requires z != 0
    ensures Apply3(MULMOD, x, y, z) < z && (x * y - Apply3(MULMOD, x, y, z)) % z == 0
  {
    MulNonNegative(x, y);
    RemainderLaw(x * y, z);
  }

  lemma {:induction false} TernaryLaw(op: Ternary, x: Word, y: Word, z: Word)
    ensures Means3(op, x, y, z, Apply3(op, x, y, z))
  {
    if z != 0 {
      match op
      case ADDMOD => RemainderLaw(x + y, z);
      case MULMOD => ProductRemainder(x, y, z);
    }
  }
}
