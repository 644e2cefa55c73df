/** common/helper/rand.go: the additive lagged Fibonacci source and its seeding. */
module Rand {
  import opened Arith
  import opened BitFields
  import WordOps

  const LEN: nat := 607
  const TAP: nat := 273
  const M: int := 0x7fff_ffff
  const A: int := 48271
  const Q: int := 44488
  const R: int := 3399

  // ----- the seeding generator -----

  predicate Int32(x: int) {
    -0x8000_0000 <= x < 0x8000_0000
  }

  function SeedRand(x: int): (r: int)
    requires x >= 0
  {
    var y := A * (x % Q) - R * (x / Q);
    if y < 0 then y + M else y
  }

  /** Schrage's method: 48271 x mod (2^31 - 1), every intermediate value a 32-bit integer, never 0. */
  lemma {:induction false} SeedRandExact(x: int)
    requires 1 <= x < M
    ensures SeedRand(x) == (A * x) % M && 1 <= SeedRand(x) < M
    ensures Int32(A * (x % Q)) && Int32(R * (x / Q)) && Int32(A * (x % Q) - R * (x / Q))
  {
    var hi, lo := x / Q, x % Q;
    assert x == Q * hi + lo;
    assert A * Q + R == M;
    var y := A * lo - R * hi;
    assert A * x == M * hi + y;
    if y == 0 {
      NoZero(hi, lo);
    }
    if y < 0 {
      DivModUnique(A * x, M, hi - 1, y + M);
    } else {
      DivModUnique(A * x, M, hi, y);
    }
  }

  /** 3399 * 5567 == 48271 * 392 + 1, so A divides hi. */
  lemma {:induction false} NoZero(hi: nat, lo: nat)
    requires A * lo == R * hi && hi <= A
    ensures (hi == 0 && lo == 0) || (hi == A && lo == R)
  {
    assert hi == A * (5567 * lo - 392 * hi);
  }

  /** 48271 * 1899818559 == (2^31 - 1) * 42704 + 1: a state tells its predecessor. */
  lemma {:induction false} SeedRandInverse(x: int)
    requires 1 <= x < M
    ensures (1899818559 * SeedRand(x)) % M == x
  {
    SeedRandExact(x);
    var y, q := SeedRand(x), (A * x) / M;
    assert A * x == M * q + y;
    assert 1899818559 * y == M * (42704 * x - 1899818559 * q) + x;
    DivModUnique(1899818559 * y, M, 42704 * x - 1899818559 * q, x);
  }

  /** The n-th state of the seeding generator. */
  function SeedAt(x: int, n: nat): (r: int)
    requires 1 <= x < M
    ensures 1 <= r < M
  {
    if n == 0 then x else
      SeedRandExact(SeedAt(x, n - 1));
      SeedRand(SeedAt(x, n - 1))
  }

  lemma {:induction false} SeedFirst(x: int)
    requires 1 <= x < M
    ensures SeedAt(x, 0) == x
  {
  }

  lemma {:induction false} SeedNext(x: int, n: nat)
    requires 1 <= x < M
    ensures SeedAt(x, n + 1) == SeedRand(SeedAt(x, n))
  {
  }

  /** n steps multiply by 48271^n. */
  lemma {:induction false} SeedAtPower(x: int, n: nat)
    requires 1 <= x < M
    ensures SeedAt(x, n) == (Pow(A, n) * x) % M
  {
    hide SeedAt, SeedRand;
    if n == 0 {
      SeedFirst(x);
      DivModUnique(x, M, 0, x);
    } else {
      SeedAtPower(x, n - 1);
      SeedNext(x, n - 1);
      SeedRandExact(SeedAt(x, n - 1));
      TimesPower(Pow(A, n - 1), x);
    }
  }

  lemma {:induction false} TimesPower(p: int, x: int)
    ensures (A * ((p * x) % M)) % M == ((A * p) * x) % M
  {
    ModMul(p * x, A, M);
    assert A * ((p * x) % M) == ((p * x) % M) * A;
    assert (A * p) * x == (p * x) * A;
  }

  /** Go's remainder takes the sign of the dividend. */
  function Remainder(a: int, b: int): int
    requires b > 0
  {
    if a >= 0 then a % b else -((-a) % b)
  }

  function StartSeed(seed: int): (x: int) {
    var r := Remainder(seed, M);
    var p := if r < 0 then r + M else r;
    if p == 0 then 89482311 else p
  }

  /** Every seed starts in range, and seeds start alike when they agree modulo 2^31 - 1. */
  lemma {:induction false} StartSeedInRange(seed: int)
    ensures 1 <= StartSeed(seed) < M
    ensures StartSeed(seed) == if seed % M == 0 then 89482311 else seed % M
  {
    if seed < 0 {
      var q, r := (-seed) / M, (-seed) % M;
      assert -seed == M * q + r;
      if r == 0 { DivModUnique(seed, M, -q, 0); } else { DivModUnique(seed, M, -q - 1, M - r); }
    }
  }

  /** Exclusive or of two 64-bit words. */
  function Xor(x: Uint64, y: Uint64): (r: Uint64) {
    var n := 64;
    Pow2Constants();
    WordOps.BitwiseN(WordOps.XOR, x, y, n)
  }

  /** One register word: three states of the seeding generator and a fixed table entry. */
  function Mixed(x1: nat, x2: nat, x3: nat, cooked: Uint64): (u: Uint64) {
    var a: Uint64 := (x1 * 0x100_0000_0000) % TWO64;
    var b: Uint64 := (x2 * 0x10_0000) % TWO64;
    Xor(Xor(Xor(a, b), x3 % TWO64), cooked)
  }

  function SeedWord(x: int, cooked: seq<Uint64>, i: nat): (u: Uint64)
    requires 1 <= x < M && i < |cooked|
  {
    Mixed(SeedAt(x, 21 + 3 * i), SeedAt(x, 22 + 3 * i), SeedAt(x, 23 + 3 * i), cooked[i])
  }

  lemma {:induction false} XorBit(x: Uint64, y: Uint64, j: nat)
    requires j < 64
    ensures WordOps.BitAt(Xor(x, y), j) <==> WordOps.BitAt(x, j) != WordOps.BitAt(y, j)
  {
    hide WordOps.BitAt, WordOps.BitwiseN;
    var n := 64;
    WordOps.BitwiseBit(WordOps.XOR, x, y, n, j);
  }

  /** Bit j of a state shifted up by k within 64 bits. */
  predicate ShiftedBit(x: nat, k: nat, j: nat) {
    j >= k && WordOps.BitAt(x, j - k)
  }

  lemma {:induction false} ShiftedWord(x: nat, k: nat, j: nat)
    requires j < 64
    ensures x * Pow2(k) >= 0
    ensures WordOps.BitAt((x * Pow2(k)) % TWO64, j) <==> ShiftedBit(x, k, j)
  {
    hide WordOps.BitAt;
    var n := 64;
    Pow2Constants();
    RaisedBit(x, k, j);
    CutBit(x * Pow2(k), n, j);
  }

  /** A register word bit by bit: the first state from bit 40 on, the second from bit 20 on, the third from bit 0 and
      the table entry, all or-ed exclusively. */
  lemma {:induction false} MixedBit(x1: nat, x2: nat, x3: nat, cooked: Uint64, j: nat)
    requires j < 64
    ensures WordOps.BitAt(Mixed(x1, x2, x3, cooked), j) <==>
            (((ShiftedBit(x1, 40, j) != ShiftedBit(x2, 20, j)) != WordOps.BitAt(x3, j)) != WordOps.BitAt(cooked, j))
  {
    hide WordOps.BitAt, Xor, ShiftedBit, Pow2;
    ShiftConstants();
    ShiftedWord(x1, 40, j);
    ShiftedWord(x2, 20, j);
    ThirdBit(x3, j);
    var a: Uint64 := (x1 * 0x100_0000_0000) % TWO64;
    var b: Uint64 := (x2 * 0x10_0000) % TWO64;
    XorBit(a, b, j);
    XorBit(Xor(a, b), x3 % TWO64, j);
    XorBit(Xor(Xor(a, b), x3 % TWO64), cooked, j);
  }

  lemma {:induction false} ThirdBit(x: nat, j: nat)
    requires j < 64
    ensures WordOps.BitAt(x % TWO64, j) <==> WordOps.BitAt(x, j)
  {
    var n := 64;
    Pow2Constants();
    CutBit(x, n, j);
  }

  lemma {:induction false} ShiftConstants()
    ensures Pow2(20) == 0x10_0000 && Pow2(40) == 0x100_0000_0000
  {
    var n := 5;
    Pow2Doubled(n, 32);
    Pow2Doubled(2 * n, 1024);
    Pow2Doubled(4 * n, 0x10_0000);
  }

  /** Word i of a seeded register from the seed alone: its three states are the start multiplied by 48271 to the
      powers 21 + 3 i, 22 + 3 i and 23 + 3 i, modulo 2^31 - 1. */
  lemma {:induction false} RegisterBit(seed: int, cooked: seq<Uint64>, i: nat, j: nat)
    requires i < |cooked| && j < 64
    ensures 1 <= StartSeed(seed) < M
    ensures var start := if seed % M == 0 then 89482311 else seed % M;
            var x1, x2, x3 := (Pow(A, 21 + 3 * i) * start) % M, (Pow(A, 22 + 3 * i) * start) % M,
                              (Pow(A, 23 + 3 * i) * start) % M;
            WordOps.BitAt(SeedWord(StartSeed(seed), cooked, i), j) <==>
            (((ShiftedBit(x1, 40, j) != ShiftedBit(x2, 20, j)) != WordOps.BitAt(x3, j)) != WordOps.BitAt(cooked[i], j))
  {
    hide Pow, SeedAt, Mixed, ShiftedBit, WordOps.BitAt, StartSeed;
    StartSeedInRange(seed);
    var start := StartSeed(seed);
    SeedAtPower(start, 21 + 3 * i);
    SeedAtPower(start, 22 + 3 * i);
    SeedAtPower(start, 23 + 3 * i);
    MixedBit(SeedAt(start, 21 + 3 * i), SeedAt(start, 22 + 3 * i), SeedAt(start, 23 + 3 * i), cooked[i], j);
  }

  // ----- the stream -----

  function Plus(x: Uint64, y: Uint64): (z: Uint64) {
    (x + y) % TWO64
  }

  /** The sequence with y(n) == y(n - 607) + y(n - 273), sums modulo 2^64, after 607 given words. */
  function Stream(h: seq<Uint64>, n: nat): (y: Uint64)
    requires |h| == LEN
  {
    if n < LEN then h[n] else Plus(Stream(h, n - LEN), Stream(h, n - TAP))
  }

  /** The words a register stands for, oldest first: the feed moves down from 333 and wraps. */
  function Oldest(v: seq<Uint64>): (h: seq<Uint64>)
    requires |v| == LEN
    ensures |h| == LEN
  {
    seq(LEN, n requires 0 <= n < LEN => if n < LEN - TAP then v[LEN - TAP - 1 - n] else v[2 * LEN - TAP - 1 - n])
  }

  /** The first words out of a register: slot 333 and slot 606, and each time one slot lower. */
  lemma {:induction false} FirstWords(v: seq<Uint64>, n: nat)
    requires |v| == LEN && n < 273
    ensures var x: int, y: int := v[333 - n], v[606 - n];
            Stream(Oldest(v), 607 + n) == (x + y) % 0x1_0000_0000_0000_0000
  {
    StreamNext(Oldest(v), n);
  }

  /** How far after the next word to be replaced the word in slot s is. */
  function Age(feed: nat, s: nat): (a: nat)
    requires feed < LEN && s < LEN
    ensures a < LEN
  {
    if s < feed then feed - 1 - s else feed - 1 - s + LEN
  }

  ghost predicate Holds(v: seq<Uint64>, h: seq<Uint64>, feed: nat, calls: nat) {
    && |v| == LEN && |h| == LEN && feed < LEN
    && forall s :: 0 <= s < LEN ==> v[s] == Stream(h, calls + Age(feed, s))
  }

  lemma {:induction false} HoldsStart(v: seq<Uint64>)
    requires |v| == LEN
    ensures Holds(v, Oldest(v), LEN - TAP, 0)
  {
  }

  function Down(i: nat): (j: nat)
    requires i < LEN
    ensures j < LEN
  {
    if i == 0 then LEN - 1 else i - 1
  }

  lemma {:induction false} HoldsStep(v: seq<Uint64>, h: seq<Uint64>, feed: nat, tap: nat, calls: nat)
    requires Holds(v, h, feed, calls) && tap == TapOf(feed)
    ensures var x := Plus(v[Down(feed)], v[Down(tap)]);
            && x == Stream(h, calls + LEN)
            && Holds(v[Down(feed) := x], h, Down(feed), calls + 1)
    ensures Down(tap) == TapOf(Down(feed))
  {
    hide Stream, Plus;
    var f, t := Down(feed), Down(tap);
    assert Age(feed, f) == 0 && Age(feed, t) == LEN - TAP;
    StreamNext(h, calls);
    forall s | 0 <= s < LEN && s != f ensures 1 + Age(f, s) == Age(feed, s) {}
    assert Age(f, f) == LEN - 1;
  }

  lemma {:induction false} StreamNext(h: seq<Uint64>, n: nat)
    requires |h| == LEN
    ensures Stream(h, n + LEN) == Plus(Stream(h, n), Stream(h, n + (LEN - TAP)))
  {
  }

  function TapOf(feed: nat): (t: nat)
    requires feed < LEN
    ensures t < LEN
  {
    if feed >= LEN - TAP then feed - (LEN - TAP) else feed + TAP
  }

  class Source {
    var tap: int
    var feed: int
    const vec: array<Uint64>
    ghost var h: seq<Uint64>
    ghost var calls: nat

    ghost predicate Valid()
      reads this, vec
    {
      && vec.Length == LEN && 0 <= feed < LEN && tap == TapOf(feed)
      && Holds(vec[..], h, feed, calls)
    }

    constructor ()
      ensures vec.Length == LEN && fresh(vec)
    {
      tap, feed := 0, 0;
      vec := new Uint64[LEN](_ => 0);
    }

    /** The register after seeding: three generator states per word, after 20 that are thrown away. */
    method Seed(seed: int, cooked: seq<Uint64>)
      requires vec.Length == LEN && |cooked| == LEN
      modifies this, vec
      ensures Valid() && calls == 0 && h == Oldest(vec[..])
      ensures forall i :: 0 <= i < LEN ==> vec[i] == SeedWord(StartSeed(seed), cooked, i)
    {
      hide Stream, Mixed, Plus, SeedRand, Remainder;
      tap, feed := 0, LEN - TAP;
      StartSeedInRange(seed);
      var start := Remainder(seed, M);
      if start < 0 { start := start + M; }
      if start == 0 { start := 89482311; }
      assert start == StartSeed(seed);
      FillRegister(start, cooked);
      h, calls := Oldest(vec[..]), 0;
      HoldsStart(vec[..]);
    }

    method FillRegister(start: int, cooked: seq<Uint64>)
      requires vec.Length == LEN && |cooked| == LEN && 1 <= start < M
      modifies vec
      ensures forall i :: 0 <= i < LEN ==> vec[i] == SeedWord(start, cooked, i)
    {
      hide Mixed, SeedAt, SeedRand;
      var x := start;
      SeedFirst(start);
      var i: int := -20;
      while i < LEN
        invariant -20 <= i <= LEN
        invariant x == SeedAt(start, if i < 0 then i + 20 else 20 + 3 * i)
        invariant forall j :: 0 <= j < i ==> vec[j] == SeedWord(start, cooked, j)
      {
        ghost var n: nat := if i < 0 then i + 20 else 20 + 3 * i;
        SeedNext(start, n);
        x := SeedRand(x);
        if i >= 0 {
          var x1 := x;
          SeedNext(start, n + 1);
          x := SeedRand(x);
          var x2 := x;
          SeedNext(start, n + 2);
          x := SeedRand(x);
          vec[i] := Mixed(x1, x2, x, cooked[i]);
        }
        i := i + 1;
      }
    }

    /** The next word of the stream. */
    method Next() returns (x: Uint64)
      requires Valid()
      modifies this, vec
      ensures Valid() && h == old(h) && calls == old(calls) + 1
      ensures x == Stream(h, LEN + old(calls))
    {
      hide Stream, Holds, Plus;
      HoldsSizes(vec[..], h, feed, calls);
      HoldsStep(vec[..], h, feed, tap, calls);
      tap := tap - 1;
      if tap < 0 { tap := tap + LEN; }
      feed := feed - 1;
      if feed < 0 { feed := feed + LEN; }
      x := Plus(vec[feed], vec[tap]);
      vec[feed] := x;
      calls := calls + 1;
    }

    /** For any number of calls, the outputs follow the recurrence. */
    method Draw(n: nat) returns (ys: seq<Uint64>)
      requires Valid()
      modifies this, vec
      ensures Valid() && |ys| == n
      ensures forall i :: 0 <= i < n ==> ys[i] == Stream(old(h), LEN + old(calls) + i)
      ensures forall i :: LEN <= i < n ==> ys[i] == Plus(ys[i - LEN], ys[i - TAP])
    {
      ys := [];
      var i := 0;
      while i < n
        invariant 0 <= i <= n && |ys| == i && Valid() && h == old(h) && calls == old(calls) + i
        invariant forall j :: 0 <= j < i ==> ys[j] == Stream(h, LEN + old(calls) + j)
      {
        hide Stream, Holds, Plus;
        var y := Next();
        ys := ys + [y];
        i := i + 1;
      }
      forall i | LEN <= i < n ensures ys[i] == Plus(ys[i - LEN], ys[i - TAP]) {
        StreamNext(h, old(calls) + i);
      }
    }
  }

  lemma {:induction false} HoldsSizes(v: seq<Uint64>, h: seq<Uint64>, feed: nat, calls: nat)
    requires Holds(v, h, feed, calls)
    ensures |v| == LEN && |h| == LEN
  {
  }
}
