/**
 * common/bloom/bloom.go: a Bloom filter of two generations. When the younger
 * one is four fifths full, the older one is emptied and becomes the younger.
 */
module Bloom {
  import opened Arith
  import opened Buckets

  /** An item is known by the two halves of its 64-bit hash. */
  datatype Item = Item(lower: nat, upper: nat)

  /** The filter's size and its number of hash functions. */
  datatype Shape = Shape(m: nat, k: nat) {
    predicate Ok() {
      m >= 1 && k >= 1
    }
  }

  function Probe(sh: Shape, x: Item, i: nat): (p: nat)
    requires sh.Ok()
    ensures p < sh.m
  {
    ((x.lower + x.upper * i) % TWO64) % sh.m
  }

  /** Double hashing: the probes begin at the lower half and go on by the upper half, modulo the size. Two 32-bit
      halves never wrap for fewer than 2^32 - 1 hash functions. */
  lemma {:induction false} ProbeSteps(sh: Shape, x: Item, i: nat)
    requires sh.Ok() && x.lower < TWO32 && x.upper < TWO32 && i + 1 < TWO32
    ensures Probe(sh, x, 0) == x.lower % sh.m
    ensures (Probe(sh, x, i + 1) - Probe(sh, x, i) - x.upper) % sh.m == 0
  {
    hide Probe;
    FirstProbe(sh, x);
    var a := ProbePair(sh, x, i);
    RemainderStep(a, x.upper, sh.m);
  }

  lemma {:induction false} FirstProbe(sh: Shape, x: Item)
    requires sh.Ok() && x.lower < TWO32
    ensures Probe(sh, x, 0) == x.lower % sh.m
  {
  }

  lemma {:induction false} ProbePair(sh: Shape, x: Item, i: nat) returns (a: nat)
    requires sh.Ok() && x.lower < TWO32 && x.upper < TWO32 && i + 1 < TWO32
    ensures Probe(sh, x, i) == a % sh.m && Probe(sh, x, i + 1) == (a + x.upper) % sh.m
  {
    hide Probe;
    ProbeExact(sh, x, i);
    ProbeExact(sh, x, i + 1);
    a := x.lower + x.upper * i;
    assert x.lower + x.upper * (i + 1) == a + x.upper;
  }

  lemma {:induction false} RemainderStep(a: int, b: int, m: int)
    requires m > 0
    ensures ((a + b) % m - a % m - b) % m == 0
  {
    var p, q := a / m, (a + b) / m;
    assert a == m * p + a % m && a + b == m * q + (a + b) % m;
    assert m * (p - q) == m * p - m * q;
    DivModUnique((a + b) % m - a % m - b, m, p - q, 0);
  }

  lemma {:induction false} ProbeExact(sh: Shape, x: Item, i: nat)
    requires sh.Ok() && x.lower < TWO32 && x.upper < TWO32 && i < TWO32
    ensures 0 <= x.lower + x.upper * i < TWO64
    ensures Probe(sh, x, i) == (x.lower + x.upper * i) % sh.m
  {
    MulNonNegative(x.upper, i);
    MulMonotone(x.upper, i, TWO32 - 1);
    MulMonotone(TWO32 - 1, x.upper, TWO32 - 1);
    DivModUnique(x.lower + x.upper * i, TWO64, 0, x.lower + x.upper * i);
  }

  /** The bit an insertion sets for a probe: the offset is cut to 32 bits. */
  function Mark(sh: Shape, x: Item, i: nat): (p: nat)
    requires sh.Ok()
    ensures p < sh.m && p < TWO32
  {
    Probe(sh, x, i) % TWO32
  }

  /** Every probe of x is a bit that can be set. */
  predicate Reachable(sh: Shape, x: Item)
    requires sh.Ok()
  {
    forall i :: 0 <= i < sh.k ==> Probe(sh, x, i) < TWO32
  }

  /** One of the first n marks of x is p. */
  predicate Hits(sh: Shape, x: Item, n: nat, p: nat)
    requires sh.Ok()
  {
    n > 0 && (Mark(sh, x, n - 1) == p || Hits(sh, x, n - 1, p))
  }

  /** Some mark of some item is p. */
  predicate Covered(sh: Shape, items: seq<Item>, p: nat)
    requires sh.Ok()
  {
    items != [] && (Hits(sh, items[|items| - 1], sh.k, p) || Covered(sh, items[..|items| - 1], p))
  }

  /** The non-zero counters are exactly the marks of the items and the first n marks of x. */
  ghost predicate Marks(sh: Shape, values: seq<nat>, items: seq<Item>, x: Item, n: nat)
    requires sh.Ok()
  {
    |values| == sh.m &&
    forall p :: 0 <= p < sh.m ==> (values[p] != 0 <==> Covered(sh, items, p) || Hits(sh, x, n, p))
  }

  lemma {:induction false} HitIsMark(sh: Shape, x: Item, i: nat)
    requires sh.Ok()
    ensures Hit(Probe(sh, x, i), 1) == Mark(sh, x, i) && Clamp(1, 1) == 1
  {
  }

  lemma {:induction false} MarksEmpty(sh: Shape, x: Item)
    requires sh.Ok()
    ensures Marks(sh, seq(sh.m, _ => 0), [], x, 0)
  {
  }

  lemma {:induction false} MarksStep(sh: Shape, values: seq<nat>, items: seq<Item>, x: Item, n: nat)
    requires sh.Ok() && Marks(sh, values, items, x, n)
    ensures Marks(sh, values[Mark(sh, x, n) := 1], items, x, n + 1)
  {
    hide Covered, Mark;
  }

  lemma {:induction false} MarksDone(sh: Shape, values: seq<nat>, items: seq<Item>, x: Item, y: Item)
    requires sh.Ok() && Marks(sh, values, items, x, sh.k)
    ensures Marks(sh, values, items + [x], y, 0)
  {
    assert (items + [x])[..|items|] == items;
  }

  lemma {:induction false} MarksAny(sh: Shape, values: seq<nat>, items: seq<Item>, x: Item, y: Item)
    requires sh.Ok() && Marks(sh, values, items, x, 0)
    ensures Marks(sh, values, items, y, 0)
  {
  }

  /** All the first n probes of x are marks of the items. */
  predicate Inside(sh: Shape, items: seq<Item>, x: Item, n: nat)
    requires sh.Ok()
  {
    n == 0 || (Covered(sh, items, Probe(sh, x, n - 1)) && Inside(sh, items, x, n - 1))
  }

  lemma {:induction false} InsideFails(sh: Shape, items: seq<Item>, x: Item, n: nat, j: nat)
    requires sh.Ok() && j < n && !Covered(sh, items, Probe(sh, x, j))
    ensures !Inside(sh, items, x, n)
  {
    if j < n - 1 { InsideFails(sh, items, x, n - 1, j); }
  }

  lemma {:induction false} HitsOwn(sh: Shape, x: Item, n: nat, j: nat)
    requires sh.Ok() && j < n
    ensures Hits(sh, x, n, Mark(sh, x, j))
  {
    if j < n - 1 { HitsOwn(sh, x, n - 1, j); }
  }

  lemma {:induction false} MemberCovers(sh: Shape, items: seq<Item>, x: Item, j: nat)
    requires sh.Ok() && x in items && j < sh.k
    ensures Covered(sh, items, Mark(sh, x, j))
  {
    var last := items[|items| - 1];
    if last == x {
      HitsOwn(sh, x, sh.k, j);
    } else {
      assert items == items[..|items| - 1] + [last];
      MemberCovers(sh, items[..|items| - 1], x, j);
    }
  }

  /** What was inserted and can be reached is inside. */
  lemma {:induction false} MemberInside(sh: Shape, items: seq<Item>, x: Item, n: nat)
    requires sh.Ok() && x in items && n <= sh.k && Reachable(sh, x)
    ensures Inside(sh, items, x, n)
  {
    if n > 0 {
      MemberInside(sh, items, x, n - 1);
      MemberCovers(sh, items, x, n - 1);
      assert Mark(sh, x, n - 1) == Probe(sh, x, n - 1);
    }
  }

  lemma {:induction false} HitsBelow(sh: Shape, x: Item, n: nat, p: nat)
    requires sh.Ok() && Hits(sh, x, n, p)
    ensures p < TWO32
  {
    if Mark(sh, x, n - 1) != p { HitsBelow(sh, x, n - 1, p); }
  }

  lemma {:induction false} CoveredBelow(sh: Shape, items: seq<Item>, p: nat)
    requires sh.Ok() && Covered(sh, items, p)
    ensures p < TWO32
  {
    var n := |items| - 1;
    if Hits(sh, items[n], sh.k, p) { HitsBelow(sh, items[n], sh.k, p); } else { CoveredBelow(sh, items[..n], p); }
  }

  /** What cannot be reached is never inside, whatever was inserted. */
  lemma {:induction false} UnreachableOutside(sh: Shape, items: seq<Item>, x: Item)
    requires sh.Ok() && !Reachable(sh, x)
    ensures !Inside(sh, items, x, sh.k)
  {
    var j :| 0 <= j < sh.k && Probe(sh, x, j) >= TWO32;
    if Covered(sh, items, Probe(sh, x, j)) { CoveredBelow(sh, items, Probe(sh, x, j)); }
    InsideFails(sh, items, x, sh.k, j);
  }

  /** Filters of at most 2^32 bits reach every item. */
  lemma {:induction false} SmallReachesAll(sh: Shape, x: Item)
    requires sh.Ok() && sh.m <= TWO32
    ensures Reachable(sh, x)
  {
  }

  /** One bit more, two hash functions, and the item with the halves 2^32 - 1 and 1 is not found right after its
      insertion. */
  lemma {:induction false} LostInsertion(items: seq<Item>)
    ensures var sh, x := Shape(TWO32 + 1, 2), Item(TWO32 - 1, 1);
            sh.Ok() && Probe(sh, x, 1) == TWO32 && !Inside(sh, items + [x], x, sh.k)
  {
    var sh, x := Shape(TWO32 + 1, 2), Item(TWO32 - 1, 1);
    assert Probe(sh, x, 1) == TWO32;
    UnreachableOutside(sh, items + [x], x);
  }

  // ----- the window of insertions that are never forgotten -----

  /** floor(0.8 m / k) + 1: the least number of insertions that fills a generation. */
  function Window(sh: Shape): (w: nat)
    requires sh.Ok()
    ensures w >= 1
  {
    4 * sh.m / (5 * sh.k) + 1
  }

  predicate Full(sh: Shape, count: nat) {
    5 * count > 4 * sh.m
  }

  /** Full is a ratio of bits set to bits over four fifths. */
  lemma {:induction false} FullRatio(sh: Shape, count: nat)
    requires sh.Ok()
    ensures Full(sh, count) <==> count as real / sh.m as real > 0.8
  {
    OverFourFifths(count as real, sh.m as real);
    assert 5.0 * count as real == (5 * count) as real && 4.0 * sh.m as real == (4 * sh.m) as real;
  }

  lemma {:induction false} OverFourFifths(c: real, m: real)
    requires m > 0.0
    ensures c / m > 0.8 <==> 5.0 * c > 4.0 * m
  {
    var r := c / m;
    assert r * m == c;
    ScaledOrder(r, 0.8, m);
    ScaledOrder(0.8, r, m);
  }

  lemma {:induction false} ScaledOrder(a: real, b: real, m: real)
    requires m > 0.0
    ensures a > b ==> a * m > b * m
    ensures a == b ==> a * m == b * m
  {
  }

  /** A generation is full exactly when it took a window of insertions. */
  lemma {:induction false} FullIsWindow(sh: Shape, n: nat)
    requires sh.Ok()
    ensures Full(sh, sh.k * n) <==> n >= Window(sh)
  {
    var a, d := 4 * sh.m, 5 * sh.k;
    var q, r := a / d, a % d;
    assert a == d * q + r;
    assert 5 * (sh.k * n) == d * n;
    if n >= q + 1 {
      MulMonotone(d, q + 1, n);
      assert d * (q + 1) == d * q + d;
    } else {
      MulMonotone(d, n, q);
    }
  }

  /** The last n elements, or all of them. */
  function Last<T>(s: seq<T>, n: nat): (t: seq<T>)
    ensures |t| == if n < |s| then n else |s|
  {
    if n < |s| then s[|s| - n..] else s
  }

  /** Insertions by age: forgotten, in the older generation, in the younger one. */
  datatype Log = Log(gone: seq<Item>, previous: seq<Item>, current: seq<Item>) {
    function All(): seq<Item> {
      gone + previous + current
    }

    predicate Ok(sh: Shape)
      requires sh.Ok()
    {
      gone == [] || |previous| >= Window(sh)
    }
  }

  lemma {:induction false} RecentIsKept(sh: Shape, log: Log, x: Item)
    requires sh.Ok() && log.Ok(sh) && x in Last(log.All(), Window(sh))
    ensures x in log.previous || x in log.current
  {
    var all, w := log.All(), Window(sh);
    var g := |log.gone|;
    var t := Last(all, w);
    var j :| 0 <= j < |t| && t[j] == x;
    var i := |all| - |t| + j;
    assert all[i] == x;
    assert i >= g;
    assert (log.previous + log.current)[i - g] == x;
    hide Window;
  }

  datatype Op = Add(x: Item) | Test(x: Item) | TestAndAdd(x: Item)

  function Inserted(op: Op, answer: bool, all: seq<Item>): seq<Item> {
    if op.Add? || (op.TestAndAdd? && !answer) then all + [op.x] else all
  }

  predicate Answered(sh: Shape, op: Op, answer: bool, before: seq<Item>, after: seq<Item>)
    requires sh.Ok()
  {
    && after == Inserted(op, answer, before)
    && (!op.Add? && op.x in Last(before, Window(sh)) ==> (answer <==> Reachable(sh, op.x)))
    && (!op.Add? && !Reachable(sh, op.x) ==> !answer)
  }

  class Filter {
    const sh: Shape
    var young: Counters
    var elder: Counters
    ghost var log: Log

    ghost predicate Separate()
      reads this, young, elder
    {
      young != elder && young.data != elder.data
    }

    ghost predicate Sized(b: Counters)
      reads this, b, b.data
    {
      b.Valid() && b.size == 1 && b.total == sh.m
    }

    ghost predicate Valid()
      reads this, young, elder, young.data, elder.data
    {
      && sh.Ok() && Separate() && Sized(young) && Sized(elder)
      && young.count == sh.k * |log.current|
      && Marks(sh, young.Values(), log.current, Item(0, 0), 0)
      && Marks(sh, elder.Values(), log.previous, Item(0, 0), 0)
      && log.Ok(sh)
    }

    constructor (shape: Shape)
      requires shape.Ok()
      ensures Valid() && fresh(young) && fresh(elder) && fresh(young.data) && fresh(elder.data)
      ensures sh == shape && log == Log([], [], [])
    {
      hide Slots, Marks;
      sh := shape;
      young := new Counters(shape.m, 1);
      elder := new Counters(shape.m, 1);
      log := Log([], [], []);
      new;
      MarksEmpty(sh, Item(0, 0));
    }

    /** All k probes of x are set in b. */
    method TestOne(b: Counters, x: Item, ghost items: seq<Item>) returns (exist: bool)
      requires sh.Ok() && Sized(b) && Marks(sh, b.Values(), items, Item(0, 0), 0)
      ensures exist <==> Inside(sh, items, x, sh.k)
    {
      hide Slots, Covered, Window;
      exist := true;
      var i := 0;
      while i < sh.k
        invariant 0 <= i <= sh.k && exist && Inside(sh, items, x, i)
      {
        var v := b.Get(Probe(sh, x, i));
        if v == 0 {
          InsideFails(sh, items, x, sh.k, i);
          exist := false;
          break;
        }
        i := i + 1;
      }
    }

    /** An item is found exactly when one generation covers all its probes, a recent one exactly when it can be
        reached. */
    method TestHash(x: Item) returns (exist: bool)
      requires Valid()
      ensures exist <==> Inside(sh, log.current, x, sh.k) || Inside(sh, log.previous, x, sh.k)
      ensures x in Last(log.All(), Window(sh)) ==> (exist <==> Reachable(sh, x))
      ensures !Reachable(sh, x) ==> !exist
    {
      hide Slots, Marks, Inside, Window, Last, Reachable;
      exist := TestOne(young, x, log.current);
      if !exist { exist := TestOne(elder, x, log.previous); }
      if !Reachable(sh, x) {
        UnreachableOutside(sh, log.current, x);
        UnreachableOutside(sh, log.previous, x);
      } else if x in Last(log.All(), Window(sh)) {
        RecentIsKept(sh, log, x);
        if x in log.current { MemberInside(sh, log.current, x, sh.k); }
        if x in log.previous { MemberInside(sh, log.previous, x, sh.k); }
      }
    }

    method Rotate()
      requires Valid()
      requires Full(sh, young.count)
      modifies this, elder, elder.data
      ensures Valid() && young == old(elder) && elder == old(young)
      ensures young.data == old(elder.data) && elder.data == old(young.data)
      ensures log == Log(old(log.gone + log.previous), old(log.current), [])
    {
      hide Slots, Marks, Window;
      FullIsWindow(sh, |log.current|);
      young, elder := elder, young;
      young.Reset();
      log := Log(log.gone + log.previous, log.current, []);
      MarksEmpty(sh, Item(0, 0));
    }

    method SetProbes(b: Counters, x: Item, ghost items: seq<Item>)
      requires sh.Ok() && Sized(b) && Marks(sh, b.Values(), items, x, 0)
      modifies b`count, b.data
      ensures Sized(b) && b.count == old(b.count) + sh.k
      ensures Marks(sh, b.Values(), items, x, sh.k)
    {
      hide Slots, Marks, Covered, Hits, Mark;
      var i := 0;
      while i < sh.k
        invariant 0 <= i <= sh.k
        invariant Sized(b) && b.count == old(b.count) + i
        invariant Marks(sh, b.Values(), items, x, i)
      {
        MarksStep(sh, b.Values(), items, x, i);
        b.Set(Probe(sh, x, i), 1);
        HitIsMark(sh, x, i);
        i := i + 1;
      }
    }

    method AddHash(x: Item)
      requires Valid()
      modifies this, young, elder, young.data, elder.data
      ensures Valid() && log.All() == old(log.All()) + [x]
      ensures log == if Full(sh, old(young.count)) then Log(old(log.gone + log.previous), old(log.current), [x])
                     else old(log).(current := old(log.current) + [x])
      ensures {young, elder} == old({young, elder})
      ensures {young.data, elder.data} == old({young.data, elder.data})
    {
      hide Slots, Marks, Window;
      if Full(sh, young.count) { Rotate(); }
      MarksAny(sh, young.Values(), log.current, Item(0, 0), x);
      SetProbes(young, x, log.current);
      MarksDone(sh, young.Values(), log.current, x, Item(0, 0));
      log := log.(current := log.current + [x]);
      assert sh.k * |log.current| == sh.k * (|log.current| - 1) + sh.k;
    }

    /** Adds an item only when it is not found. */
    method TestAndAdd(x: Item) returns (exist: bool)
      requires Valid()
      modifies this, young, elder, young.data, elder.data
      ensures Valid()
      ensures x in Last(old(log.All()), Window(sh)) ==> (exist <==> Reachable(sh, x))
      ensures !Reachable(sh, x) ==> !exist
      ensures log.All() == if exist then old(log.All()) else old(log.All()) + [x]
      ensures {young, elder} == old({young, elder})
      ensures {young.data, elder.data} == old({young.data, elder.data})
    {
      hide Slots, Marks, Window, Last, Reachable;
      exist := TestHash(x);
      if !exist { AddHash(x); }
    }

    method Apply(op: Op) returns (answer: bool)
      requires Valid()
      modifies this, young, elder, young.data, elder.data
      ensures Valid()
      ensures log.All() == Inserted(op, answer, old(log.All()))
      ensures !op.Add? && op.x in Last(old(log.All()), Window(sh)) ==> (answer <==> Reachable(sh, op.x))
      ensures !op.Add? && !Reachable(sh, op.x) ==> !answer
      ensures {young, elder} == old({young, elder})
      ensures {young.data, elder.data} == old({young.data, elder.data})
    {
      hide Slots, Marks, Window, Last, Inside, Reachable;
      answer := false;
      match op {
        case Add(x) => AddHash(x);
        case Test(x) => answer := TestHash(x);
        case TestAndAdd(x) => answer := TestAndAdd(x);
      }
    }

    /** Any sequence of calls: whoever asks for one of the last Window insertions is answered yes, exactly when the item
        can be reached. */
    method Run(ops: seq<Op>) returns (answers: seq<bool>, ghost history: seq<seq<Item>>)
      requires Valid()
      modifies this, young, elder, young.data, elder.data
      ensures Valid() && |answers| == |ops| && |history| == |ops| + 1
      ensures history[0] == old(log.All()) && history[|ops|] == log.All()
      ensures forall i :: 0 <= i < |ops| ==> Answered(sh, ops[i], answers[i], history[i], history[i + 1])
    {
      hide Slots, Marks, Window, Last, Inside, Reachable;
      answers, history := [], [log.All()];
      var i := 0;
      while i < |ops|
        invariant 0 <= i <= |ops| && |answers| == i && |history| == i + 1
        invariant Valid() && history[0] == old(log.All()) && history[i] == log.All()
        invariant {young, elder} == old({young, elder})
        invariant {young.data, elder.data} == old({young.data, elder.data})
        invariant forall j :: 0 <= j < i ==> Answered(sh, ops[j], answers[j], history[j], history[j + 1])
      {
        var answer := Apply(ops[i]);
        answers := answers + [answer];
        history := history + [log.All()];
        i := i + 1;
      }
    }
  }
}
