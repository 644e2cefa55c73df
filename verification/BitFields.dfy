/** Shifts, masks and bit fields of numbers, bit by bit. */
module BitFields {
  import opened Arith
  import opened WordOps

  function ShiftLeft(x: nat, n: nat): (r: nat) {
    if n == 0 then x else 2 * ShiftLeft(x, n - 1)
  }

  function ShiftRight(x: nat, n: nat): (r: nat) {
    if n == 0 then x else ShiftRight(x / 2, n - 1)
  }

  /** The length bits of x from off upwards. */
  function Field(x: nat, off: nat, length: nat): (f: nat) {
    if off > 0 then Field(x / 2, off - 1, length)
    else if length > 0 then x % 2 + 2 * Field(x / 2, 0, length - 1)
    else 0
  }

  /** x with the length bits from off upwards replaced by the low bits of v. */
  function PutField(x: nat, off: nat, length: nat, v: nat): (r: nat) {
    if off > 0 then x % 2 + 2 * PutField(x / 2, off - 1, length, v)
    else if length > 0 then v % 2 + 2 * PutField(x / 2, 0, length - 1, v / 2)
    else x
  }

  lemma {:induction false} FieldWhole(v: nat, length: nat)
    requires v < Pow2(length)
    ensures Field(v, 0, length) == v
  {
    if length > 0 { FieldWhole(v / 2, length - 1); }
  }

  lemma {:induction false} FieldBound(x: nat, off: nat, length: nat)
    ensures Field(x, off, length) < Pow2(length)
  {
    if off > 0 {
      FieldBound(x / 2, off - 1, length);
    } else if length > 0 {
      FieldBound(x / 2, 0, length - 1);
    }
  }

  /** Bits taken in two pieces and put together again. */
  lemma {:induction false} FieldJoins(v: nat, low: nat, high: nat)
    ensures Field(v, 0, low + high) == Field(v, 0, low) + ShiftLeft(Field(ShiftRight(v, low), 0, high), low)
  {
    if low > 0 { FieldJoins(v / 2, low - 1, high); }
  }

  lemma {:induction false} Halve(b: nat, y: nat)
    requires b < 2
    ensures (b + 2 * y) / 2 == y && (b + 2 * y) % 2 == b
  {
  }

  lemma {:induction false} FieldOfPut(x: nat, off: nat, length: nat, v: nat)
    ensures Field(PutField(x, off, length, v), off, length) == Field(v, 0, length)
  {
    if off > 0 {
      Halve(x % 2, PutField(x / 2, off - 1, length, v));
      FieldOfPut(x / 2, off - 1, length, v);
    } else if length > 0 {
      Halve(v % 2, PutField(x / 2, 0, length - 1, v / 2));
      FieldOfPut(x / 2, 0, length - 1, v / 2);
    }
  }

  lemma {:induction false} FieldBesidePut(x: nat, off: nat, length: nat, v: nat, off': nat, length': nat)
    requires off' + length' <= off || off + length <= off'
    ensures Field(PutField(x, off, length, v), off', length') == Field(x, off', length')
  {
    if off > 0 {
      Halve(x % 2, PutField(x / 2, off - 1, length, v));
      if off' > 0 {
        FieldBesidePut(x / 2, off - 1, length, v, off' - 1, length');
      } else if length' > 0 {
        FieldBesidePut(x / 2, off - 1, length, v, 0, length' - 1);
      }
    } else if length > 0 {
      Halve(v % 2, PutField(x / 2, 0, length - 1, v / 2));
      if off' > 0 {
        FieldBesidePut(x / 2, 0, length - 1, v / 2, off' - 1, length');
      }
    }
  }

  lemma {:induction false} PutFieldBound(x: nat, off: nat, length: nat, v: nat, n: nat)
    requires x < Pow2(n) && off + length <= n
    ensures PutField(x, off, length, v) < Pow2(n)
  {
    if off > 0 {
      PutFieldBound(x / 2, off - 1, length, v, n - 1);
    } else if length > 0 {
      PutFieldBound(x / 2, 0, length - 1, v / 2, n - 1);
    }
  }

  // ----- masks -----

  function And(x: nat, y: nat): (r: nat) {
    var n := 32;
    BitwiseN(AND, x, y, n)
  }

  function Or(x: nat, y: nat): (r: nat) {
    var n := 32;
    BitwiseN(OR, x, y, n)
  }

  /** The complement of a 32-bit number. */
  function Not(x: nat): (r: nat)
    requires x < TWO32
  {
    TWO32 - 1 - x
  }

  /** length ones. */
  function Mask(length: nat): (m: nat) {
    Pow2(length) - 1
  }

  lemma {:induction false} BitStep(op: Binary, x: nat, y: nat, n: nat)
    requires n > 0
    ensures BitwiseN(op, x, y, n) ==
            (if OnBits(op, x % 2 == 1, y % 2 == 1) then 1 else 0) + 2 * BitwiseN(op, x / 2, y / 2, n - 1)
  {
  }

  lemma {:induction false} AndZero(x: nat, n: nat)
    ensures BitwiseN(AND, x, 0, n) == 0
  {
    if n > 0 { AndZero(x / 2, n - 1); }
  }

  lemma {:induction false} AndAtMost(x: nat, y: nat, n: nat)
    ensures BitwiseN(AND, x, y, n) <= x
  {
    if n > 0 { AndAtMost(x / 2, y / 2, n - 1); }
  }

  lemma {:induction false} OrZero(x: nat, n: nat)
    requires x < Pow2(n)
    ensures BitwiseN(OR, x, 0, n) == x
  {
    if n > 0 { OrZero(x / 2, n - 1); }
  }

  lemma {:induction false} AndOnes(x: nat, n: nat)
    requires x < Pow2(n)
    ensures BitwiseN(AND, x, Pow2(n) - 1, n) == x
  {
    if n > 0 {
      assert (Pow2(n) - 1) / 2 == Pow2(n - 1) - 1 && (Pow2(n) - 1) % 2 == 1;
      AndOnes(x / 2, n - 1);
    }
  }

  lemma {:induction false} MaskHalf(length: nat)
    requires length > 0
    ensures Mask(length) == 2 * Mask(length - 1) + 1
  {
  }

  /** Anding with a mask keeps the low bits. */
  lemma {:induction false} AndMask(x: nat, length: nat, n: nat)
    requires length <= n
    ensures BitwiseN(AND, x, Mask(length), n) == Field(x, 0, length)
  {
    hide BitwiseN, Mask;
    if length == 0 {
      NoMask();
      AndZero(x, n);
    } else {
      var m := Mask(length - 1);
      MaskHalf(length);
      Halve(1, m);
      BitStep(AND, x, 1 + 2 * m, n);
      AndMask(x / 2, length - 1, n - 1);
    }
  }

  lemma {:induction false} NoMask()
    ensures Mask(0) == 0
  {
  }

  /** Masking in place and shifting down reads a field. */
  lemma {:induction false} MaskedField(x: nat, off: nat, length: nat, n: nat)
    requires off + length <= n
    ensures ShiftRight(BitwiseN(AND, x, ShiftLeft(Mask(length), off), n), off) == Field(x, off, length)
  {
    if off == 0 {
      AndMask(x, length, n);
    } else {
      var m := ShiftLeft(Mask(length), off - 1);
      BitStep(AND, x, 2 * m, n);
      Halve(0, m);
      Halve(0, BitwiseN(AND, x / 2, m, n - 1));
      MaskedField(x / 2, off - 1, length, n - 1);
    }
  }

  lemma {:induction false} ShiftedMaskBound(length: nat, off: nat, n: nat)
    requires off + length <= n
    ensures ShiftLeft(Mask(length), off) < Pow2(n)
  {
    if off > 0 { ShiftedMaskBound(length, off - 1, n - 1); } else { Pow2Monotone(length, n); }
  }

  /** Clearing a field under its mask and or-ing bits in replaces it. */
  lemma {:induction false} MaskedPut(x: nat, off: nat, length: nat, v: nat, n: nat)
    requires off + length <= n && x < Pow2(n)
    requires ShiftLeft(Mask(length), off) < Pow2(n)
    ensures BitwiseN(OR, BitwiseN(AND, x, Pow2(n) - 1 - ShiftLeft(Mask(length), off), n),
                     ShiftLeft(Field(v, 0, length), off), n)
         == PutField(x, off, length, v)
  {
    hide BitwiseN, Mask;
    if off > 0 {
      var m, f := ShiftLeft(Mask(length), off - 1), ShiftLeft(Field(v, 0, length), off - 1);
      ClearHigher(x, m, n);
      var a := BitwiseN(AND, x / 2, Pow2(n - 1) - 1 - m, n - 1);
      OrHigher(x % 2, a, 0, f, n);
      MaskedPut(x / 2, off - 1, length, v, n - 1);
    } else if length > 0 {
      var m, f := Mask(length - 1), Field(v / 2, 0, length - 1);
      MaskHalf(length);
      ClearLowest(x, m, n);
      var a := BitwiseN(AND, x / 2, Pow2(n - 1) - 1 - m, n - 1);
      OrHigher(0, a, v % 2, f, n);
      MaskedPut(x / 2, 0, length - 1, v / 2, n - 1);
    } else {
      NoMask();
      AndOnes(x, n);
      OrZero(x, n);
    }
  }

  lemma {:induction false} ClearHigher(x: nat, m: nat, n: nat)
    requires n > 0 && 2 * m < Pow2(n)
    ensures BitwiseN(AND, x, Pow2(n) - 1 - 2 * m, n) == x % 2 + 2 * BitwiseN(AND, x / 2, Pow2(n - 1) - 1 - m, n - 1)
  {
    var y := Pow2(n - 1) - 1 - m;
    assert Pow2(n) - 1 - 2 * m == 1 + 2 * y;
    Halve(1, y);
    BitStep(AND, x, 1 + 2 * y, n);
  }

  lemma {:induction false} ClearLowest(x: nat, m: nat, n: nat)
    requires n > 0 && 2 * m + 1 < Pow2(n)
    ensures BitwiseN(AND, x, Pow2(n) - 1 - (2 * m + 1), n) == 2 * BitwiseN(AND, x / 2, Pow2(n - 1) - 1 - m, n - 1)
  {
    var y := Pow2(n - 1) - 1 - m;
    assert Pow2(n) - 1 - (2 * m + 1) == 0 + 2 * y;
    Halve(0, y);
    BitStep(AND, x, 0 + 2 * y, n);
  }

  lemma {:induction false} OrHigher(a: nat, x: nat, b: nat, y: nat, n: nat)
    requires n > 0 && a < 2 && b < 2 && (a == 0 || b == 0)
    ensures BitwiseN(OR, a + 2 * x, b + 2 * y, n) == a + b + 2 * BitwiseN(OR, x, y, n - 1)
  {
    Halve(a, x);
    Halve(b, y);
    BitStep(OR, a + 2 * x, b + 2 * y, n);
  }

  /** Or-ing two pieces whose bits do not meet is adding them. */
  lemma {:induction false} OrPieces(low: nat, high: nat, k: nat, n: nat)
    requires low < Pow2(k) && k <= n && ShiftLeft(high, k) < Pow2(n)
    ensures BitwiseN(OR, low, ShiftLeft(high, k), n) == low + ShiftLeft(high, k)
  {
    if k == 0 {
      OrSymmetric(0, high, n);
      OrZero(high, n);
    } else {
      OrHigher(low % 2, low / 2, 0, ShiftLeft(high, k - 1), n);
      OrPieces(low / 2, high, k - 1, n - 1);
    }
  }

  lemma {:induction false} OrShifted(x: nat, y: nat, k: nat, n: nat)
    requires k <= n
    ensures BitwiseN(OR, ShiftLeft(x, k), ShiftLeft(y, k), n) == ShiftLeft(BitwiseN(OR, x, y, n - k), k)
  {
    hide BitwiseN;
    if k > 0 {
      OrHigher(0, ShiftLeft(x, k - 1), 0, ShiftLeft(y, k - 1), n);
      OrShifted(x, y, k - 1, n - 1);
    }
  }

  lemma {:induction false} OrSymmetric(x: nat, y: nat, n: nat)
    ensures BitwiseN(OR, x, y, n) == BitwiseN(OR, y, x, n)
  {
    if n > 0 { OrSymmetric(x / 2, y / 2, n - 1); }
  }

  lemma {:induction false} ShiftZero(n: nat)
    ensures ShiftLeft(0, n) == 0
  {
    if n > 0 { ShiftZero(n - 1); }
  }

  // ----- single bits -----

  lemma {:induction false} ModHalf(v: nat, m: nat)
    requires m > 0
    ensures (v % (2 * m)) / 2 == (v / 2) % m && (v % (2 * m)) % 2 == v % 2
  {
    var h, b := v / 2, v % 2;
    var q, r := h / m, h % m;
    assert h == m * q + r;
    assert v == (2 * m) * q + (2 * r + b) by { assert 2 * (m * q) == (2 * m) * q; }
    DivModUnique(v, 2 * m, q, 2 * r + b);
  }

  /** Cutting to n bits keeps the n lowest. */
  lemma {:induction false} CutBit(v: nat, n: nat, i: nat)
    requires i < n
    ensures BitAt(v % Pow2(n), i) <==> BitAt(v, i)
  {
    hide BitAt;
    ModHalf(v, Pow2(n - 1));
    BitAtHalf(v, i);
    BitAtHalf(v % Pow2(n), i);
    if i > 0 { CutBit(v / 2, n - 1, i - 1); }
  }

  /** A left shift moves every bit up. */
  lemma {:induction false} RaisedBit(x: nat, k: nat, i: nat)
    ensures x * Pow2(k) >= 0
    ensures BitAt(x * Pow2(k), i) <==> i >= k && BitAt(x, i - k)
  {
    hide BitAt;
    if k == 0 {
      assert x * Pow2(k) == x;
    } else {
      RaisedBit(x, k - 1, if i > 0 then i - 1 else 0);
      var y := x * Pow2(k - 1);
      assert x * Pow2(k) == 2 * y;
      Halve(0, y);
      BitAtHalf(2 * y, i);
    }
  }

  /** Bit j of a field is bit off + j of the number. */
  lemma {:induction false} FieldBit(x: nat, off: nat, length: nat, j: nat)
    requires j < length
    ensures BitAt(Field(x, off, length), j) <==> BitAt(x, off + j)
  {
    hide BitAt;
    BitAtHalf(x, off + j);
    if off > 0 {
      FieldBit(x / 2, off - 1, length, j);
    } else {
      var rest := Field(x / 2, 0, length - 1);
      Halve(x % 2, rest);
      BitAtHalf(Field(x, 0, length), j);
      if j > 0 { FieldBit(x / 2, 0, length - 1, j - 1); }
    }
  }

  /** Bits put above others. */
  lemma {:induction false} JoinedBit(low: nat, high: nat, k: nat, j: nat)
    requires low < Pow2(k)
    ensures BitAt(low + ShiftLeft(high, k), j) <==> if j < k then BitAt(low, j) else BitAt(high, j - k)
  {
    hide BitAt;
    if k > 0 {
      var v := low / 2 + ShiftLeft(high, k - 1);
      JoinedBit(low / 2, high, k - 1, if j > 0 then j - 1 else 0);
      assert low + ShiftLeft(high, k) == low % 2 + 2 * v;
      Halve(low % 2, v);
      BitAtHalf(low % 2 + 2 * v, j);
      BitAtHalf(low, j);
    }
  }
}
