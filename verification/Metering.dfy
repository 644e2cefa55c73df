/** vm/gas_table.go with the quota table of vm/util/quota.go: 64-bit cost arithmetic,
    memory fees and net-metered storage. */
module Metering {
  import opened Arith
  import opened Wrappers

  // ----- common/helper/math_integer.go, common/helper/common.go -----

  /** A 64-bit product and whether it wrapped, found by dividing. */
  function SafeMul(x: Uint64, y: Uint64): (r: (Uint64, bool))
    ensures r.1 <==> x * y >= TWO64
    ensures !r.1 ==> r.0 == x * y
  {
    if x == 0 || y == 0 then (0, false)
    else
      QuotientTest(x, y, TWO64 - 1);
      ((x * y) % TWO64, y > (TWO64 - 1) / x)
  }

  lemma {:induction false} QuotientTest(x: int, y: int, max: int)
    requires x > 0 && y > 0 && max >= 0
    ensures y > max / x <==> x * y > max
    ensures x * y >= 0
  {
    var q := max / x;
    assert max == x * q + max % x;
    if y > q {
      MulMonotone(x, q + 1, y);
      assert x * (q + 1) == x * q + x;
    } else {
      MulMonotone(x, y, q);
    }
  }

  function SafeAdd(x: Uint64, y: Uint64): (r: (Uint64, bool))
    ensures r.1 <==> x + y >= TWO64
    ensures !r.1 ==> r.0 == x + y
  {
    ((x + y) % TWO64, y > TWO64 - 1 - x)
  }

  /** 32-byte words needed for size bytes, rounded up even at the top of the range. */
  function ToWordSize(size: Uint64): (w: Uint64)
    ensures 32 * (w - 1) < size <= 32 * w
  {
    if size > TWO64 - 1 - 32 + 1 then (TWO64 - 1) / 32 + 1 else (size + 32 - 1) / 32
  }

  // ----- the quota table -----

  datatype SstoreCosts = SstoreCosts(init: Uint64, reset: Uint64, clean: Uint64, noop: Uint64, mem: Uint64)

  /** What keeps every table subtraction and every refund from wrapping. */
  predicate SstoreSound(c: SstoreCosts) {
    && c.init >= c.mem + c.noop
    && c.reset >= c.mem + c.noop
    && c.reset >= c.mem + c.clean
    && c.noop + c.mem >= c.clean
    && c.reset + c.mem < TWO64 && c.noop + c.mem < TWO64
  }

  /** The storage price lists in use, before and after the Dex upgrade. */
  const INIT_SSTORE := SstoreCosts(20000, 5000, 100, 200, 200)
  const VITE_SSTORE := SstoreCosts(15000, 15000, 0, 200, 200)

  // ----- quota -----

  function UseQuota(left: Uint64, cost: Uint64): Option<Uint64> {
    if left < cost then None else Some(left - cost)
  }

  function UseQuotaWithFlag(left: Uint64, cost: Uint64, charge: bool): Option<Uint64> {
    if charge then UseQuota(left, cost) else Some((left + cost) % TWO64)
  }

  // ----- storage -----

  /** A cost and whether it is charged (true) or given back (false). */
  datatype Charge = Charge(cost: Uint64, charge: bool)

  function Sub64(x: int): Uint64 { x % TWO64 }

  /** The net-metered price of writing next over current in a slot whose saved value is original.
      Every table expression wraps at 64 bits. */
  function SstoreCost(c: SstoreCosts, original: seq<Byte>, current: seq<Byte>, next: seq<Byte>): Charge {
    if current == next then Charge(c.noop, true)
    else if original == current then
      if |original| == 0 then Charge(c.init, true)
      else if |next| == 0 then Charge(c.clean, true)
      else Charge(c.reset, true)
    else if original == next then
      if |original| == 0 then Charge(Sub64(c.init - c.mem - c.noop), false)
      else if |current| == 0 then Charge(Sub64(c.noop + c.mem - c.clean), true)
      else Charge(Sub64(c.reset - c.mem - c.noop), false)
    else if |original| > 0 && |current| == 0 && |next| > 0 then Charge(Sub64(c.reset + c.mem - c.clean), true)
    else if |original| > 0 && |current| > 0 && |next| == 0 then Charge(Sub64(c.reset - c.mem - c.clean), false)
    else Charge(c.mem, true)
  }

  /** What writes to a slot have been charged so far and could still be given back. */
  function Phi(c: SstoreCosts, original: seq<Byte>, current: seq<Byte>): nat {
    if original == current then 0
    else if |original| == 0 then c.init
    else if |current| == 0 then c.clean
    else c.reset
  }

  function Signed(ch: Charge): int { if ch.charge then ch.cost else 0 - ch.cost }

  /** The part of a write's price that is never given back. */
  function Attempt(c: SstoreCosts, original: seq<Byte>, current: seq<Byte>, next: seq<Byte>): nat {
    if current == next then c.noop
    else if original == current then 0
    else if original == next then c.mem + c.noop
    else c.mem
  }

  /** One write: the charge is exactly the change of potential plus the attempt, so that a write costs nothing
      beyond its potential only if it is the first change of the slot. A refund stays within what was charged. */
  lemma {:induction false} SstoreAmortised(c: SstoreCosts, original: seq<Byte>, current: seq<Byte>, next: seq<Byte>)
    requires SstoreSound(c)
    ensures var ch := SstoreCost(c, original, current, next);
            && Signed(ch) == Phi(c, original, next) - Phi(c, original, current) + Attempt(c, original, current, next)
            && (!ch.charge ==> ch.cost <= Phi(c, original, current))
  {
    hide Sub64;
    DifferencesFit(c);
  }

  lemma {:induction false} DifferencesFit(c: SstoreCosts)
    requires SstoreSound(c)
    ensures Sub64(c.init - c.mem - c.noop) == c.init - c.mem - c.noop
    ensures Sub64(c.noop + c.mem - c.clean) == c.noop + c.mem - c.clean
    ensures Sub64(c.reset - c.mem - c.noop) == c.reset - c.mem - c.noop
    ensures Sub64(c.reset + c.mem - c.clean) == c.reset + c.mem - c.clean
    ensures Sub64(c.reset - c.mem - c.clean) == c.reset - c.mem - c.clean
  {
  }

  // ----- memory -----

  /** Cost of the first w words of memory, over the integers. */
  function ExactFee(quota: nat, division: nat, w: nat): (f: nat)
    requires division > 0
  {
    MulNonNegative(w, w);
    w * quota + (w * w) / division
  }

  /** The same total as 64-bit code computes it. */
  function WrappedFee(quota: Uint64, division: Uint64, w: Uint64): (f: Uint64)
    requires division > 0
  {
    var square := (w * w) % TWO64;
    DivAtMost(square, division);
    ((w * quota) % TWO64 + square / division) % TWO64
  }

  datatype MemFee = MemFee(fee: Uint64, last: Uint64)

  /** None when the requested size is over the guard. */
  function MemoryGasCost(quota: Uint64, division: Uint64, memLen: nat, last: Uint64, size: Uint64): Option<MemFee>
    requires division > 0
  {
    if size == 0 then Some(MemFee(0, last))
    else if size > 0xffffffffe0 then None
    else
      var w := ToWordSize(size);
      if w * 32 > memLen then
        var total := WrappedFee(quota, division, w);
        Some(MemFee(Sub64(total - last), total))
      else Some(MemFee(0, last))
  }

  /** Word counts the size guard lets through. */
  const MAX_WORDS: int := 0x7ffffffff

  /** The 64-bit total is the exact one precisely below 2^32 words: the size guard alone admits more. */
  lemma {:induction false} WrappedFeeExact(quota: Uint64, division: Uint64, w: Uint64)
    requires 2 <= division && w <= MAX_WORDS && quota <= 0x1_0000
    ensures WrappedFee(quota, division, w) == ExactFee(quota, division, w) <==> w < TWO32
    ensures w >= TWO32 ==> WrappedFee(quota, division, w) >= w * quota
  {
    hide WrappedFee, ExactFee;
    FeeParts(quota, division, w);
    if w < TWO32 {
      SquareBound(w, TWO32);
    } else {
      SquareAtLeast(w);
      HighPartLost(w * w, division);
    }
  }

  lemma {:induction false} HighPartLost(x: nat, division: nat)
    requires 2 <= division < TWO64 <= x
    ensures 0 <= (x % TWO64) / division < x / division
  {
    var low := x % TWO64;
    HalfOrLess(low, division);
    assert x >= low + TWO64;
    DivGap(low, x, division);
  }

  lemma {:induction false} FeeParts(quota: Uint64, division: Uint64, w: Uint64)
    requires 2 <= division && w <= MAX_WORDS && quota <= 0x1_0000
    ensures w * w >= 0 && w * quota >= 0
    ensures WrappedFee(quota, division, w) == w * quota + (w * w) % TWO64 / division
    ensures ExactFee(quota, division, w) == w * quota + (w * w) / division
  {
    MulNonNegative(w, w);
    LinearBound(w, quota);
    var low := (w * w) % TWO64;
    HalfOrLess(low, division);
    SmallSum(w * quota, low / division);
  }

  lemma {:induction false} SmallSum(x: nat, y: nat)
    requires x < 0x8_0000_0000_0000 && 2 * y < TWO64
    ensures (x % TWO64 + y) % TWO64 == x + y
  {
  }

  lemma {:induction false} LinearBound(w: nat, quota: nat)
    requires w <= MAX_WORDS && quota <= 0x1_0000
    ensures 0 <= w * quota < 0x8_0000_0000_0000
  {
    MulMonotone(w, quota, 0x1_0000);
    MulMonotone(w, 0, quota);
  }

  lemma {:induction false} SquareBound(w: nat, b: nat)
    requires w < b
    ensures w * w < b * b
  {
    MulMonotone(w, w, b);
    MulMonotone(b, w, b - 1);
    assert b * (b - 1) == b * b - b;
  }

  lemma {:induction false} SquareAtLeast(w: nat)
    requires w >= TWO32
    ensures w * w >= TWO64
  {
    MulMonotone(w, TWO32, w);
    MulMonotone(TWO32, TWO32, w);
  }

  lemma {:induction false} HalfOrLess(x: nat, d: nat)
    requires d >= 2
    ensures 0 <= 2 * (x / d) <= x
  {
    var q := x / d;
    assert x == d * q + x % d;
    DivAtMost(x, d);
    MulMonotone(q, 2, d);
  }

  lemma {:induction false} DivGap(x: nat, y: nat, d: nat)
    requires 0 < d <= TWO64 && y >= x + TWO64
    ensures y / d > x / d
  {
    var q := x / d;
    assert x == d * q + x % d;
    ModAddMultiple(x, 1, d);
    assert (x + d) / d == q + 1;
    DivMonotone(x + d, y, d);
  }

  lemma {:induction false} DivMonotone(x: nat, y: nat, d: nat)
    requires d > 0 && x <= y
    ensures x / d <= y / d
  {
    var p, q := x / d, y / d;
    assert x == d * p + x % d && y == d * q + y % d;
    assert d * (q + 1) == d * q + d;
    if p > q {
      MulMonotone(d, q + 1, p);
    }
  }

  lemma {:induction false} ExactFeeMonotone(quota: nat, division: nat, v: nat, w: nat)
    requires division > 0 && v <= w
    ensures ExactFee(quota, division, v) <= ExactFee(quota, division, w)
  {
    MulNonNegative(v, v);
    MulNonNegative(w, w);
    MulMonotone(quota, v, w);
    MulMonotone(v, v, w);
    MulMonotone(w, v, w);
    DivMonotone(v * v, w * w, division);
  }
}
