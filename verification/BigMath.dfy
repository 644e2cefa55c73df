/** common/helper/math_big.go: 256-bit arithmetic over big integers kept as machine words. */
module BigMath {
  import opened Arith

  /** The value of little-endian machine words, each below radix. */
  function WordsValue(words: seq<nat>, radix: nat): nat {
    if |words| == 0 then 0 else words[0] + radix * WordsValue(words[1..], radix)
  }

  ghost predicate Normal(words: seq<nat>, radix: nat) {
    forall i | 0 <= i < |words| :: words[i] < radix
  }

  /** And with 2^256-1 on two's complement integers of any sign. */
  function U256(x: int): (r: Word)
  {
    x % TWO256
  }

  function S256(x: Word): (r: int)
    ensures -TWO255 <= r < TWO255 && (r == x || r == x - TWO256)
  {
    if x < TWO255 then x else x - TWO256
  }

  /** S256 and U256 are mutually inverse between words and the signed range. */
  lemma {:induction false} SignedRoundTrip(x: Word, v: int)
    ensures U256(S256(x)) == x
    ensures -TWO255 <= v < TWO255 <==> S256(U256(v)) == v
  {
  }

  // ----- Exp -----

  /** One squaring step: with the low bit of rest consumed into result, squaring base halves rest. */
  lemma {:induction false} ExpStep(result: int, base: int, rest: nat, m: int)
    requires m > 0
    ensures var r := if rest % 2 == 1 then (result * base) % m else result;
            var b := (base * base) % m;
            (r * Pow(b, rest / 2)) % m == (result * Pow(base, rest)) % m
  {
    hide Pow;
    var r := if rest % 2 == 1 then (result * base) % m else result;
    var b := (base * base) % m;
    var h := rest / 2;
    var full := if rest % 2 == 1 then result * base else result;
    var square := Pow(base, 2 * h);
    assert full * square == result * Pow(base, rest) by { TakeLowBit(result, base, rest); }
    assert Pow(b, h) % m == square % m by {
      PowSquare(base, h);
      PowMod(base * base, h, m);
    }
    ModMod(full, m);
    ModProduct(r, full, Pow(b, h), square, m);
  }

  lemma {:induction false} TakeLowBit(result: int, base: int, rest: nat)
    ensures (if rest % 2 == 1 then result * base else result) * Pow(base, 2 * (rest / 2)) ==
            result * Pow(base, rest)
  {
    if rest % 2 == 1 {
      assert 2 * (rest / 2) == rest - 1;
      var p := Pow(base, rest - 1);
      assert Pow(base, rest) == base * p;
      hide Pow;
      Reassociate(result, base, p);
    }
  }

  lemma {:induction false} Reassociate(a: int, b: int, c: int)
    ensures (a * b) * c == a * (b * c)
  {
  }

  lemma {:induction false} HalveRest(word: nat, k: nat, tail: nat)
    requires k > 0
    ensures (word + Pow2(k) * tail) / 2 == word / 2 + Pow2(k - 1) * tail
    ensures (word + Pow2(k) * tail) % 2 == word % 2
  {
    assert Pow2(k) * tail == 2 * (Pow2(k - 1) * tail);
    ModAddMultiple(word, Pow2(k - 1) * tail, 2);
  }

  /** The part of the power still to be multiplied in, with what already has been. */
  ghost function Pending(result: int, base: int, rest: nat): int {
    (result * Pow(base, rest)) % TWO256
  }

  /** base to the e, kept to 256 bits. */
  ghost function PowerWord(base: int, e: nat): int {
    Pow(base, e) % TWO256
  }

  lemma {:induction false} PendingStep(result: int, base: int, word: nat, k: nat, tail: nat)
    requires k > 0
    ensures var r := if word % 2 == 1 then U256(result * base) else result;
            Pending(r, U256(base * base), word / 2 + Pow2(k - 1) * tail) ==
            Pending(result, base, word + Pow2(k) * tail)
  {
    HalveRest(word, k, tail);
    ExpStep(result, base, word + Pow2(k) * tail, TWO256);
  }

  lemma {:induction false} PendingEnds(base: Word, e: nat, result: Word)
    ensures Pending(1, base, e) == PowerWord(base, e)
    ensures Pending(result, base, 0) == result
    ensures PowerWord(base, 1) == base
  {
    assert Pow(base, 1) == base * Pow(base, 0);
  }

  // ----- what becomes of the base -----

  lemma {:induction false} PowOfBit(c: int, e: nat)
    requires 0 <= c <= 1 && e >= 1
    ensures Pow(c, e) == c
  {
    if e > 1 { PowOfBit(c, e - 1); }
  }

  /** Squaring a number that is 0 or 1 in its low j bits makes it so in one bit more. */
  lemma {:induction false} SquareGainsBit(base: nat, j: nat, c: nat)
    requires j >= 1 && c <= 1 && base % Pow2(j) == c
    ensures (base * base) % Pow2(j + 1) == c
  {
    var h := Pow2(j - 1);
    var m, t := 2 * h, base / (2 * h);
    assert Pow2(j) == m && base == m * t + c;
    SquareParts(h, t, c);
    DivModUnique(base * base, 2 * m, h * (t * t) + t * c, c);
  }

  lemma {:induction false} SquareParts(h: nat, t: nat, c: nat)
    requires c <= 1
    ensures (2 * h * t + c) * (2 * h * t + c) == (2 * (2 * h)) * (h * (t * t) + t * c) + c
  {
    var a := 2 * h * t;
    assert (a + c) * (a + c) == a * a + 2 * (a * c) + c * c;
    assert a * a == 4 * (h * (h * (t * t)));
    assert (2 * (2 * h)) * (h * (t * t) + t * c) == 4 * (h * (h * (t * t))) + 4 * (h * (t * c));
    assert a * c == 2 * (h * (t * c));
  }

  /** A remainder by 2^256 keeps the remainder by a smaller power of two. */
  lemma {:induction false} LowBitsKept(x: int, j: nat, n: nat)
    requires j <= n == 256
    ensures (x % TWO256) % Pow2(j) == x % Pow2(j)
  {
    Pow2Words(n);
    Pow2Add(j, n - j);
    var m, k := Pow2(j), Pow2(n - j);
    var q, r := x / TWO256, x % TWO256;
    assert x == r + m * (k * q) by { assert (m * k) * q == m * (k * q); }
    ModAddMultiple(r, k * q, m);
  }

  /** If the power gives the base back, the base is 0 or 1 in its low j bits, for every j. */
  lemma {:induction false} BaseIsBit(base: Word, bits: nat, j: nat)
    requires bits >= 1 && 1 <= j <= 256 && PowerWord(base, Pow2(bits)) == base
    ensures base % Pow2(j) <= 1
  {
    if j == 1 {
      assert Pow2(1) == 2;
    } else {
      BaseIsBit(base, bits, j - 1);
      var c, m, e := base % Pow2(j - 1), Pow2(j), Pow2(bits - 1);
      SquareGainsBit(base, j - 1, c);
      PowSquare(base, e);
      PowMod(base * base, e, m);
      PowOfBit(c, e);
      Pow2Monotone(1, j);
      DivModUnique(c, m, 0, c);
      LowBitsKept(Pow(base, 2 * e), j, 256);
    }
  }

  /** Squaring bits times leaves the base as it was if and only if there is no squaring, or the base is 0 or 1. */
  lemma {:induction false} BaseSurvives(base: Word, bits: nat)
    ensures PowerWord(base, Pow2(bits)) == base <==> bits == 0 || base <= 1
  {
    if bits == 0 {
      PendingEnds(base, 1, base);
    } else if base <= 1 {
      PowOfBit(base, Pow2(bits));
    } else if PowerWord(base, Pow2(bits)) == base {
      var n := 256;
      BaseIsBit(base, bits, n);
      Pow2Words(n);
      DivModUnique(base, TWO256, 0, base);
    }
  }

  lemma {:induction false} PowerOfTwo(n: nat)
    ensures Pow(2, n) == Pow2(n)
  {
    if n > 0 { PowerOfTwo(n - 1); }
  }

  lemma {:induction false} HighPowerVanishes(e: nat, n: nat)
    requires e >= n == 256
    ensures PowerWord(2, e) == 0
  {
    PowerOfTwo(e);
    Pow2Words(n);
    Pow2Add(n, e - n);
    ModAddMultiple(0, Pow2(e - n), TWO256);
  }

  /** 2 to the 1 with 64-bit words: the exponent has one word, and the base is left 0. */
  lemma {:induction false} BaseLost()
    ensures Normal([1], Pow2(64)) && PowerWord(2, Pow2(64 * |[1]|)) == 0
  {
    hide PowerWord;
    Pow2Constants();
    HighPowerVanishes(TWO64, 256);
  }

  /** Square-and-multiply over the exponent's words and bits. Every squaring is stored back into base, which survives
      the call exactly when there is none or it is 0 or 1. */
  method Exp(base: Word, exponent: seq<nat>, wordBits: nat) returns (result: Word, baseAfter: Word)
    requires Normal(exponent, Pow2(wordBits))
    ensures result == PowerWord(base, WordsValue(exponent, Pow2(wordBits)))
    ensures baseAfter == PowerWord(base, Pow2(wordBits * |exponent|))
    ensures baseAfter == base <==> wordBits * |exponent| == 0 || base <= 1
  {
    ghost var radix := Pow2(wordBits);
    ghost var done := 0;
    assert Pow2(done) == 1;
    hide Pow2, Pow, Pending, PowerWord;
    PendingEnds(base, WordsValue(exponent, radix), 1);
    result, baseAfter := 1, base;
    var n := 0;
    assert exponent[0..] == exponent;
    while n < |exponent|
      invariant 0 <= n <= |exponent| && done == wordBits * n
      invariant Pending(result, baseAfter, WordsValue(exponent[n..], radix)) ==
                PowerWord(base, WordsValue(exponent, radix))
      invariant baseAfter == PowerWord(base, Pow2(done))
    {
      ghost var tail := WordsValue(exponent[n + 1..], radix);
      assert exponent[n..][1..] == exponent[n + 1..];
      result, baseAfter := ExpWord(base, result, baseAfter, exponent[n], wordBits, done, tail);
      assert wordBits * (n + 1) == wordBits * n + wordBits;
      done := done + wordBits;
      n := n + 1;
    }
    PendingEnds(baseAfter, 0, result);
    BaseSurvives(base, wordBits * |exponent|);
  }

  /** The bits of one exponent word. */
  method ExpWord(ghost base: Word, r0: Word, b0: Word, word0: nat, wordBits: nat, ghost done: nat, ghost tail: nat)
    returns (result: Word, b: Word)
    requires word0 < Pow2(wordBits)
    requires b0 == PowerWord(base, Pow2(done))
    ensures Pending(result, b, tail) == Pending(r0, b0, word0 + Pow2(wordBits) * tail)
    ensures b == PowerWord(base, Pow2(done + wordBits))
  {
    var word := word0;
    result, b := r0, b0;
    var i := 0;
    while i < wordBits
      invariant 0 <= i <= wordBits
      invariant 0 <= word < Pow2(wordBits - i)
      invariant Pending(result, b, word + Pow2(wordBits - i) * tail) == Pending(r0, b0, word0 + Pow2(wordBits) * tail)
      invariant b == PowerWord(base, Pow2(done + i))
    {
      PendingStep(result, b, word, wordBits - i, tail);
      SquarePower(base, Pow2(done + i));
      if word % 2 == 1 {
        result := U256(result * b);
      }
      b := U256(b * b);
      word := word / 2;
      i := i + 1;
    }
  }

  lemma {:induction false} SquarePower(b: int, e: nat)
    ensures U256(PowerWord(b, e) * PowerWord(b, e)) == PowerWord(b, 2 * e)
  {
    ModMulBoth(Pow(b, e), Pow(b, e), TWO256);
    PowAdd(b, e, e);
  }

  // ----- ReadBits -----

  lemma {:induction false} DropByteOfRest(d: nat, k: nat, tail: nat)
    requires k > 0
    ensures (d + Pow256(k) * tail) / 256 == d / 256 + Pow256(k - 1) * tail
    ensures (d + Pow256(k) * tail) % 256 == d % 256
  {
    assert Pow256(k) * tail == 256 * (Pow256(k - 1) * tail);
    ModAddMultiple(d, Pow256(k - 1) * tail, 256);
  }

  /** Bytes of the value from the end of buf; bytes above its top word are left alone. */
  method ReadBits(words: seq<nat>, wordBytes: nat, buf: array<Byte>)
    requires Normal(words, Pow256(wordBytes))
    modifies buf
    ensures forall p | 0 <= p < buf.Length ::
              buf[buf.Length - 1 - p] ==
              if p < |words| * wordBytes then DropBytes(WordsValue(words, Pow256(wordBytes)), p) % 256
              else old(buf[buf.Length - 1 - p])
  {
    ghost var radix := Pow256(wordBytes);
    ghost var value := WordsValue(words, radix);
    var i := buf.Length;
    var n := 0;
    assert words[0..] == words;
    assert DropBytes(value, 0) == value;
    hide DropBytes, Pow256;
    while n < |words|
      invariant 0 <= n <= |words|
      invariant 0 <= i <= buf.Length
      invariant i > 0 ==> buf.Length - i == n * wordBytes
      invariant i == 0 ==> buf.Length <= n * wordBytes
      invariant i > 0 ==> WordsValue(words[n..], radix) == DropBytes(value, buf.Length - i)
      invariant forall p | 0 <= p < buf.Length - i :: buf[buf.Length - 1 - p] == DropBytes(value, p) % 256
      invariant forall q | 0 <= q < i :: buf[q] == old(buf[q])
    {
      var d := words[n];
      ghost var tail := WordsValue(words[n + 1..], radix);
      assert words[n..][1..] == words[n + 1..];
      assert (n + 1) * wordBytes == n * wordBytes + wordBytes;
      var j := 0;
      while j < wordBytes && i > 0
        invariant 0 <= j <= wordBytes
        invariant 0 <= i <= buf.Length
        invariant i > 0 ==> buf.Length - i == n * wordBytes + j
        invariant i == 0 ==> buf.Length <= n * wordBytes + j
        invariant i > 0 ==> 0 <= d < Pow256(wordBytes - j)
        invariant i > 0 ==> d + Pow256(wordBytes - j) * tail == DropBytes(value, buf.Length - i)
        invariant forall p | 0 <= p < buf.Length - i :: buf[buf.Length - 1 - p] == DropBytes(value, p) % 256
        invariant forall q | 0 <= q < i :: buf[q] == old(buf[q])
        invariant 0 <= d
        decreases wordBytes - j
      {
        DropByteOfRest(d, wordBytes - j, tail);
        DropBytesNext(value, buf.Length - i);
        i := i - 1;
        buf[i] := d % 256;
        d := d / 256;
        j := j + 1;
      }
      n := n + 1;
    }
    assert i > 0 ==> buf.Length - i == |words| * wordBytes;
  }

  /** Zeroed and then filled by ReadBits, 32 bytes hold the big-endian encoding of any word. */
  method PutWord(words: seq<nat>, wordBytes: nat, buf: array<Byte>)
    requires Normal(words, Pow256(wordBytes))
    requires buf.Length == 32 && WordsValue(words, Pow256(wordBytes)) < TWO256
    modifies buf
    ensures buf[..] == BigEndian(WordsValue(words, Pow256(wordBytes)), 32)
  {
    ghost var value := WordsValue(words, Pow256(wordBytes));
    forall i | 0 <= i < buf.Length { buf[i] := 0; }
    label zeroed:
    assert forall i | 0 <= i < 32 :: buf[i] == 0;
    ReadBits(words, wordBytes, buf);
    hide DropBytes, Pow256, WordsValue, BigEndian;
    forall k | 0 <= k < 32
      ensures buf[..][k] == BigEndian(value, 32)[k]
    {
      var p := 31 - k;
      BigEndianAt(value, 32, p);
      assert buf[k] == buf[buf.Length - 1 - p];
      assert old@zeroed(buf[buf.Length - 1 - p]) == 0;
      if p >= |words| * wordBytes { NoByteAbove(words, wordBytes, p); }
    }
  }

  lemma {:induction false} NoByteAbove(words: seq<nat>, wordBytes: nat, p: nat)
    requires Normal(words, Pow256(wordBytes)) && p >= |words| * wordBytes
    ensures DropBytes(WordsValue(words, Pow256(wordBytes)), p) == 0
  {
    var n := |words| * wordBytes;
    WordsValueBound(words, wordBytes);
    DropBytesAll(WordsValue(words, Pow256(wordBytes)), n);
    DropBytesAdd(WordsValue(words, Pow256(wordBytes)), n, p - n);
    DropBytesZero(p - n);
  }

  lemma {:induction false} Pow256Add(a: nat, b: nat)
    ensures Pow256(a + b) == Pow256(a) * Pow256(b)
  {
    if a > 0 { Pow256Add(a - 1, b); }
  }

  lemma {:induction false} WordsValueBound(words: seq<nat>, wordBytes: nat)
    requires Normal(words, Pow256(wordBytes))
    ensures WordsValue(words, Pow256(wordBytes)) < Pow256(|words| * wordBytes)
  {
    if |words| > 0 {
      var radix := Pow256(wordBytes);
      var top := Pow256(|words[1..]| * wordBytes);
      WordsValueBound(words[1..], wordBytes);
      assert |words| * wordBytes == wordBytes + |words[1..]| * wordBytes;
      Pow256Add(wordBytes, |words[1..]| * wordBytes);
      DigitBound(words[0], radix, WordsValue(words[1..], radix), top);
    }
  }

  lemma {:induction false} DigitBound(d: nat, radix: nat, t: nat, top: nat)
    requires d < radix && t < top
    ensures d + radix * t < radix * top
  {
    MulMonotone(radix, t, top - 1);
    assert radix * (top - 1) == radix * top - radix;
  }
}
