/** Powers, Euclidean division and big-endian bytes: the arithmetic the other modules stand on. */
module Arith {

  const TWO32: int := 0x1_0000_0000
  const TWO64: int := 0x1_0000_0000_0000_0000
  const TWO255: int := 0x8000_0000_0000_0000_0000_0000_0000_0000_0000_0000_0000_0000_0000_0000_0000_0000
  const TWO256: int := 0x1_0000_0000_0000_0000_0000_0000_0000_0000_0000_0000_0000_0000_0000_0000_0000_0000

  type Byte = x: int | 0 <= x < 256
  type Word = x: int | 0 <= x < TWO256
  type Uint64 = x: int | 0 <= x < TWO64

  function Pow(b: int, e: nat): int {
    if e == 0 then 1 else b * Pow(b, e - 1)
  }

  function Pow2(n: nat): (r: nat)
    ensures r >= 1
  {
    if n == 0 then 1 else 2 * Pow2(n - 1)
  }

  function Pow256(n: nat): (r: nat)
    ensures r >= 1
  {
    if n == 0 then 1 else 256 * Pow256(n - 1)
  }

  lemma {:induction false} Pow2Add(a: nat, b: nat)
    ensures Pow2(a + b) == Pow2(a) * Pow2(b)
  {
    if a > 0 { Pow2Add(a - 1, b); }
  }

  lemma {:induction false} Pow2Monotone(a: nat, b: nat)
    requires a <= b
    ensures Pow2(a) <= Pow2(b)
  {
    if a < b { Pow2Monotone(a, b - 1); }
  }

  lemma {:induction false} Pow2Doubled(n: nat, v: nat)
    requires Pow2(n) == v
    ensures Pow2(2 * n) == v * v
  {
    Pow2Add(n, n);
  }

  lemma {:induction false} Pow2Constants()
    ensures Pow2(8) == 256
    ensures Pow2(32) == TWO32
    ensures Pow2(64) == TWO64
  {
    var n := 4;
    Pow2Doubled(n, 16);
    Pow2Doubled(2 * n, 256);
    Pow2Doubled(4 * n, 65536);
    Pow2Doubled(8 * n, TWO32);
  }

  lemma {:induction false} Pow2Words(n: nat)
    requires n == 256
    ensures Pow2(n) == TWO256
    ensures Pow2(n - 1) == TWO255
  {
    Pow2Constants();
    var m := 64;
    Pow2Doubled(m, TWO64);
    Pow2Doubled(2 * m, TWO64 * TWO64);
  }

  lemma {:induction false} Pow256IsPow2(n: nat)
    ensures Pow256(n) == Pow2(8 * n)
  {
    if n > 0 {
      Pow256IsPow2(n - 1);
      Pow2Add(8, 8 * (n - 1));
      Pow2Constants();
    }
  }

  lemma {:induction false} Pow256Constants()
    ensures Pow256(32) == TWO256
  {
    Pow256IsPow2(32);
    Pow2Words(256);
  }

  lemma {:induction false} PowAdd(b: int, m: nat, n: nat)
    ensures Pow(b, m + n) == Pow(b, m) * Pow(b, n)
  {
    if m > 0 { PowAdd(b, m - 1, n); }
  }

  lemma {:induction false} PowSquare(b: int, e: nat)
    ensures Pow(b * b, e) == Pow(b, 2 * e)
  {
    if e > 0 {
      PowSquare(b, e - 1);
      PowAdd(b, 2, 2 * (e - 1));
      assert Pow(b, 2) == b * Pow(b, 1) == b * (b * Pow(b, 0));
    }
  }

  // ----- Euclidean division -----

  lemma {:induction false} MulNonNegative(x: nat, y: nat)
    ensures x * y >= 0
  {
  }

  lemma {:induction false} MulMonotone(a: nat, x: int, y: int)
    requires x <= y
    ensures a * x <= a * y
  {
  }

  lemma {:induction false} DivAtMost(x: nat, y: nat)
    requires y != 0
    ensures 0 <= x / y <= x
  {
    var q := x / y;
    assert x == y * q + x % y;
    if q > x {
      MulMonotone(q, 1, y);
    }
  }

  lemma {:induction false} MulAtLeast(m: int, k: int)
    requires m > 0 && k >= 1
    ensures m * k >= m
  {
  }

  lemma {:induction false} DivModUnique(x: int, m: int, q: int, r: int)
    requires m > 0 && x == m * q + r && 0 <= r < m
    ensures x / m == q && x % m == r
  {
    var q', r' := x / m, x % m;
    assert x == m * q' + r' && 0 <= r' < m;
    assert m * (q - q') == m * q - m * q' == r' - r;
    assert m * (q' - q) == m * q' - m * q == r - r';
    if q > q' {
      MulAtLeast(m, q - q');
    } else if q < q' {
      MulAtLeast(m, q' - q);
    }
  }

  lemma {:induction false} ModAddMultiple(x: int, k: int, m: int)
    requires m > 0
    ensures (x + m * k) % m == x % m
    ensures (x + m * k) / m == x / m + k
  {
    var q, r := x / m, x % m;
    assert m * (q + k) == m * q + m * k;
    DivModUnique(x + m * k, m, q + k, r);
  }

  lemma {:induction false} ModMod(x: int, m: int)
    requires m > 0
    ensures (x % m) % m == x % m
  {
    DivModUnique(x % m, m, 0, x % m);
  }

  lemma {:induction false} ModMul(a: int, b: int, m: int)
    requires m > 0
    ensures ((a % m) * b) % m == (a * b) % m
  {
    var q, r := a / m, a % m;
    assert a == m * q + r;
    assert a * b == r * b + m * (q * b) by {
      assert (m * q) * b == m * (q * b);
      assert (m * q + r) * b == (m * q) * b + r * b;
    }
    ModAddMultiple(r * b, q * b, m);
  }

  lemma {:induction false} ModMulBoth(a: int, b: int, m: int)
    requires m > 0
    ensures ((a % m) * (b % m)) % m == (a * b) % m
  {
    ModMul(a, b % m, m);
    ModMul(b, a, m);
    assert a * (b % m) == (b % m) * a;
    assert a * b == b * a;
  }

  lemma {:induction false} ModProduct(a: int, a': int, b: int, b': int, m: int)
    requires m > 0 && a % m == a' % m && b % m == b' % m
    ensures (a * b) % m == (a' * b') % m
  {
    ModMulBoth(a, b, m);
    ModMulBoth(a', b', m);
  }

  lemma {:induction false} PowMod(b: int, e: nat, m: int)
    requires m > 0
    ensures Pow(b % m, e) % m == Pow(b, e) % m
  {
    if e > 0 {
      PowMod(b, e - 1, m);
      var p, p' := Pow(b, e - 1), Pow(b % m, e - 1);
      ModMulBoth(b, p, m);
      ModMulBoth(b, p', m);
      ModMul(b, p', m);
    }
  }

  // ----- big-endian bytes -----

  /** The low n bytes of v, most significant first. */
  function BigEndian(v: nat, n: nat): (s: seq<Byte>)
    ensures |s| == n
  {
    if n == 0 then [] else BigEndian(v / 256, n - 1) + [v % 256]
  }

  /** The shortest big-endian encoding; zero has no bytes. */
  function MinimalBytes(v: nat): (s: seq<Byte>)
    ensures |s| == 0 <==> v == 0
  {
    if v == 0 then [] else MinimalBytes(v / 256) + [v % 256]
  }

  function FromBytes(s: seq<Byte>): nat {
    if |s| == 0 then 0 else FromBytes(s[..|s| - 1]) * 256 + s[|s| - 1]
  }

  lemma {:induction false} FromBytesBound(s: seq<Byte>)
    ensures FromBytes(s) < Pow256(|s|)
  {
    if |s| > 0 { FromBytesBound(s[..|s| - 1]); }
  }

  lemma {:induction false} FromBytesWord(s: seq<Byte>)
    requires |s| <= 32
    ensures FromBytes(s) < TWO256
  {
    FromBytesBound(s);
    Pow256IsPow2(|s|);
    Pow2Monotone(8 * |s|, 256);
    Pow2Words(256);
  }

  lemma {:induction false} BigEndianRoundTrip(v: nat, n: nat)
    requires v < Pow256(n)
    ensures FromBytes(BigEndian(v, n)) == v
  {
    if n > 0 {
      BigEndianRoundTrip(v / 256, n - 1);
      assert BigEndian(v, n)[..n - 1] == BigEndian(v / 256, n - 1);
    }
  }

  lemma {:induction false} MinimalBytesRoundTrip(v: nat)
    ensures FromBytes(MinimalBytes(v)) == v
  {
    if v > 0 {
      MinimalBytesRoundTrip(v / 256);
      assert MinimalBytes(v)[..|MinimalBytes(v)| - 1] == MinimalBytes(v / 256);
    }
  }

  lemma {:induction false} MinimalBytesLength(v: nat, n: nat)
    requires v < Pow256(n)
    ensures |MinimalBytes(v)| <= n
  {
    if v > 0 { MinimalBytesLength(v / 256, n - 1); }
  }

  /** v with its p low bytes dropped. */
  function DropBytes(v: nat, p: nat): nat {
    if p == 0 then v else DropBytes(v / 256, p - 1)
  }

  lemma {:induction false} DropBytesNext(v: nat, p: nat)
    ensures DropBytes(v, p + 1) == DropBytes(v, p) / 256
  {
    if p > 0 { DropBytesNext(v / 256, p - 1); }
  }

  lemma {:induction false} BigEndianAt(v: nat, n: nat, p: nat)
    requires p < n
    ensures BigEndian(v, n)[n - 1 - p] == DropBytes(v, p) % 256
  {
    if p > 0 { BigEndianAt(v / 256, n - 1, p - 1); }
  }

  lemma {:induction false} DropBytesAll(v: nat, p: nat)
    requires v < Pow256(p)
    ensures DropBytes(v, p) == 0
  {
    if p > 0 { DropBytesAll(v / 256, p - 1); }
  }

  lemma {:induction false} DropBytesZero(p: nat)
    ensures DropBytes(0, p) == 0
  {
    if p > 0 { DropBytesZero(p - 1); }
  }

  lemma {:induction false} DropBytesAdd(v: nat, p: nat, q: nat)
    ensures DropBytes(v, p + q) == DropBytes(DropBytes(v, p), q)
  {
    if p > 0 { DropBytesAdd(v / 256, p - 1, q); }
  }
}
