/** net/sync_cache_reader.go: planning downloads around the segments already in the cache. */
module SyncPlan {
  import opened Arith

  type HashId = nat

  /** A skeleton point: a snapshot height, its hash and the bytes since the previous point. */
  datatype Point = Point(height: nat, hash: HashId, size: Uint64)

  datatype Segment = Segment(from: nat, to: nat, hash: HashId, prevHash: HashId, points: seq<(nat, HashId)>)

  const MAX_SNAPSHOTS_ONE_TASK := 2000
  const MAX_SIZE_ONE_TASK := 0x20_0000

  ghost predicate Increasing(hhs: seq<Point>) {
    forall i, j | 0 <= i < j < |hhs| :: hhs[i].height < hhs[j].height
  }

  /** The skeleton has this hash at this height. */
  ghost predicate HashAt(hhs: seq<Point>, height: int, hash: HashId) {
    exists k :: 0 <= k < |hhs| && hhs[k].height == height && hhs[k].hash == hash
  }

  /** Both ends of the segment are skeleton points with its hashes. */
  ghost predicate Anchored(hhs: seq<Point>, s: Segment) {
    HashAt(hhs, s.from - 1, s.prevHash) && HashAt(hhs, s.to, s.hash)
  }

  function Covers(s: Segment, h: nat): nat {
    if s.from <= h <= s.to then 1 else 0
  }

  /** How many of the segments hold height h. */
  function Count(ss: seq<Segment>, h: nat): nat {
    if |ss| == 0 then 0 else Count(ss[..|ss| - 1], h) + Covers(ss[|ss| - 1], h)
  }

  function Within(lo: int, h: nat, hi: int): nat {
    if lo < h <= hi then 1 else 0
  }

  /** The segments hold each height of (lo, hi] exactly once and nothing else. */
  ghost predicate Partition(ss: seq<Segment>, lo: int, hi: int) {
    forall h: nat :: Count(ss, h) == Within(lo, h, hi)
  }

  lemma {:induction false} CountConcat(a: seq<Segment>, b: seq<Segment>, h: nat)
    ensures Count(a + b, h) == Count(a, h) + Count(b, h)
  {
    if |b| == 0 {
      assert a + b == a;
    } else {
      CountConcat(a, b[..|b| - 1], h);
      assert (a + b)[..|a + b| - 1] == a + b[..|b| - 1];
    }
  }

  lemma {:induction false} PartitionExtends(a: seq<Segment>, lo: int, mid: int, s: Segment)
    requires Partition(a, lo, mid) && s.from == mid + 1 && lo <= mid && mid <= s.to
    ensures Partition(a + [s], lo, s.to)
  {
    forall h: nat ensures Count(a + [s], h) == Within(lo, h, s.to) {
      assert (a + [s])[..|a|] == a;
    }
  }

  // ----- cutting a stretch into tasks -----

  /** Bytes of the points after a up to b. */
  function SizeBetween(hhs: seq<Point>, a: nat, b: nat): nat
    requires b < |hhs|
    decreases b
  {
    if b <= a then 0 else SizeBetween(hhs, a, b - 1) + hhs[b].size
  }

  /** No two sizes add up past 64 bits. */
  ghost predicate SaneSizes(hhs: seq<Point>) {
    forall i | 0 <= i < |hhs| :: 2 * hhs[i].size < TWO64
  }

  /** From point a to point b: at most one step of the skeleton, or within both limits. */
  ghost predicate Light(hhs: seq<Point>, a: nat, b: nat) {
    && a <= b < |hhs|
    && (b <= a + 1 ||
        (hhs[b].height - hhs[a].height <= MAX_SNAPSHOTS_ONE_TASK &&
         (SaneSizes(hhs) ==> SizeBetween(hhs, a, b) <= MAX_SIZE_ONE_TASK)))
  }

  /** The step behind point a alone is over a limit. */
  predicate BigStep(hhs: seq<Point>, a: nat)
    requires a + 1 < |hhs|
  {
    hhs[a + 1].height - hhs[a].height > MAX_SNAPSHOTS_ONE_TASK || hhs[a + 1].size > MAX_SIZE_ONE_TASK
  }

  /** The point from which the bytes of a task are counted: where it begins, but behind a first step over a limit
      that step is counted again. */
  function CountedFrom(hhs: seq<Point>, lo: nat, a: nat): nat
    requires a < |hhs|
  {
    if a == lo + 1 && BigStep(hhs, lo) then lo else a
  }

  /** From point a to point b, within the stretch from lo to hi, a task may end: at the end of the stretch, after a
      first step over a limit, or where one more step would be over a limit. */
  ghost predicate Full(hhs: seq<Point>, lo: nat, hi: nat, a: nat, b: nat) {
    && lo <= a <= b <= hi < |hhs|
    && (|| b == hi
        || (a == lo && b == lo + 1 && BigStep(hhs, lo))
        || hhs[b + 1].height - hhs[a].height > MAX_SNAPSHOTS_ONE_TASK
        || SizeBetween(hhs, CountedFrom(hhs, lo, a), b + 1) > MAX_SIZE_ONE_TASK)
  }

  /** The points a task lists: all from a to b and no other, in order. */
  ghost predicate Lists(hhs: seq<Point>, a: nat, b: nat, points: seq<(nat, HashId)>) {
    && a <= b < |hhs| && |points| > 0
    && points[0] == (hhs[a].height, hhs[a].hash) && points[|points| - 1] == (hhs[b].height, hhs[b].hash)
    && (forall i, j | 0 <= i < j < |points| :: points[i].0 <= points[j].0)
    && (forall k | a <= k <= b :: (hhs[k].height, hhs[k].hash) in points)
    && (forall p | p in points :: exists k :: a <= k <= b && p == (hhs[k].height, hhs[k].hash))
  }

  /** The task runs from point a to point b of the skeleton. */
  ghost predicate Spans(hhs: seq<Point>, a: nat, b: nat, t: Segment) {
    && a <= b < |hhs|
    && t.from == hhs[a].height + 1 && t.prevHash == hhs[a].hash
    && t.to == hhs[b].height && t.hash == hhs[b].hash
    && Lists(hhs, a, b, t.points)
  }

  /** A task of the stretch from lo to hi: not too much for one download, and not cut before it has to be. */
  ghost predicate Task(hhs: seq<Point>, lo: nat, hi: nat, t: Segment) {
    exists a: nat, b: nat :: Light(hhs, a, b) && Full(hhs, lo, hi, a, b) && Spans(hhs, a, b, t)
  }

  ghost predicate AllTasks(hhs: seq<Point>, lo: nat, hi: nat, ts: seq<Segment>) {
    forall t | t in ts :: Task(hhs, lo, hi, t)
  }

  lemma {:induction false} TaskAnchored(hhs: seq<Point>, lo: nat, hi: nat, t: Segment)
    requires Task(hhs, lo, hi, t)
    ensures Anchored(hhs, t)
  {
    var a: nat, b: nat :| Light(hhs, a, b) && Full(hhs, lo, hi, a, b) && Spans(hhs, a, b, t);
    assert HashAt(hhs, t.from - 1, t.prevHash) && HashAt(hhs, t.to, t.hash);
  }

  ghost predicate HasEmpty(ts: seq<Segment>) {
    exists i :: 0 <= i < |ts| && ts[i].from > ts[i].to
  }

  /** The first step alone is over a limit. */
  predicate FirstBig(hhs: seq<Point>) {
    |hhs| >= 2 && BigStep(hhs, 0)
  }

  /** The second step is over a limit, the bytes of the first counted again. */
  predicate SecondBig(hhs: seq<Point>) {
    && |hhs| >= 3
    && (hhs[2].height - hhs[1].height > MAX_SNAPSHOTS_ONE_TASK ||
        (hhs[1].size + hhs[2].size) % TWO64 > MAX_SIZE_ONE_TASK)
  }

  /** Before point i is looked at: the tasks reach point a, the open one begins there. */
  ghost predicate Cut(hhs: seq<Point>, ts: seq<Segment>, a: nat, i: nat, seg: Segment, size: Uint64) {
    && 1 <= i <= |hhs| && a < i
    && Partition(ts, hhs[0].height, hhs[a].height)
    && AllTasks(hhs, 0, |hhs| - 1, ts)
    && (HasEmpty(ts) <==> i >= 3 && FirstBig(hhs) && SecondBig(hhs))
    && (a == i - 1 <==> i == 1 || (i == 2 && FirstBig(hhs)))
    && Light(hhs, a, i - 1)
    && Open(hhs, a, i, seg)
    && (i == 1 ==> size == 0) && (i == 2 ==> size == hhs[1].size)
    && Tally(hhs, a, i, size)
  }

  /** The open task so far. */
  ghost predicate Open(hhs: seq<Point>, a: nat, i: nat, seg: Segment) {
    && a < i <= |hhs|
    && seg.from == hhs[a].height + 1 && seg.prevHash == hhs[a].hash
    && (i > 1 ==> seg.to == hhs[i - 1].height && seg.hash == hhs[i - 1].hash)
    && Lists(hhs, a, i - 1, seg.points)
  }

  /** The bytes counted for the open task: none too many, and none too few if the sizes are sane. */
  ghost predicate Tally(hhs: seq<Point>, a: nat, i: nat, size: Uint64) {
    && a < i <= |hhs|
    && size <= SizeBetween(hhs, CountedFrom(hhs, 0, a), i - 1)
    && (SaneSizes(hhs) ==> 2 * size < TWO64 && SizeBetween(hhs, a, i - 1) <= size)
  }

  lemma {:induction false} CutStart(hhs: seq<Point>, seg: Segment)
    requires |hhs| > 0 && seg.from == hhs[0].height + 1 && seg.prevHash == hhs[0].hash
    requires seg.points == [(hhs[0].height, hhs[0].hash)]
    ensures Cut(hhs, [], 0, 1, seg, 0)
  {
  }

  lemma {:induction false} CutSegment(hhs: seq<Point>, ts: seq<Segment>, a: nat, i: nat, seg: Segment, size: Uint64)
    requires Cut(hhs, ts, a, i, seg, size) && Increasing(hhs)
    ensures 1 <= i <= |hhs| && a < i && hhs[a].height <= hhs[i - 1].height && seg.from == hhs[a].height + 1
    ensures i == 2 ==> size == hhs[1].size
    ensures i == 1 ==> a == 0 && size == 0
    ensures i > 1 ==> seg.to == hhs[i - 1].height && seg.hash == hhs[i - 1].hash
  {
    hide Partition, AllTasks, HasEmpty, Light, Lists, Tally;
  }

  /** A task from point a to point b goes out. */
  lemma {:induction false} TaskOut(hhs: seq<Point>, ts: seq<Segment>, a: nat, b: nat, t: Segment)
    requires Increasing(hhs) && Light(hhs, a, b) && Partition(ts, hhs[0].height, hhs[a].height)
    requires AllTasks(hhs, 0, |hhs| - 1, ts) && Full(hhs, 0, |hhs| - 1, a, b) && Spans(hhs, a, b, t)
    ensures Partition(ts + [t], hhs[0].height, hhs[b].height)
    ensures AllTasks(hhs, 0, |hhs| - 1, ts + [t])
    ensures HasEmpty(ts + [t]) <==> HasEmpty(ts) || a == b
  {
    hide Lists, SizeBetween;
    assert Task(hhs, 0, |hhs| - 1, t);
    assert hhs[0].height <= hhs[a].height <= hhs[b].height;
    EmptyOut(ts, t);
    hide Light, Full, Task, HasEmpty;
    PartitionExtends(ts, hhs[0].height, hhs[a].height, t);
  }

  lemma {:induction false} EmptyOut(ts: seq<Segment>, t: Segment)
    ensures HasEmpty(ts + [t]) <==> HasEmpty(ts) || t.from > t.to
  {
    if HasEmpty(ts) {
      var i :| 0 <= i < |ts| && ts[i].from > ts[i].to;
      assert (ts + [t])[i].from > (ts + [t])[i].to;
    }
    if t.from > t.to { assert (ts + [t])[|ts|].from > (ts + [t])[|ts|].to; }
  }

  /** The guard that ends a task. */
  predicate OverLimit(hp: Point, from: nat, size: Uint64) {
    hp.height - from + 1 > MAX_SNAPSHOTS_ONE_TASK || size > MAX_SIZE_ONE_TASK
  }

  /** One more point is counted; unless the total is over the limit the tally goes on. */
  lemma {:induction false} TallyStep(hhs: seq<Point>, a: nat, i: nat, size: Uint64)
    requires i < |hhs| && Tally(hhs, a, i, size)
    ensures (size + hhs[i].size) % TWO64 <= SizeBetween(hhs, CountedFrom(hhs, 0, a), i)
    ensures SaneSizes(hhs) ==> SizeBetween(hhs, a, i) <= (size + hhs[i].size) % TWO64
    ensures (size + hhs[i].size) % TWO64 <= MAX_SIZE_ONE_TASK ==> Tally(hhs, a, i + 1, (size + hhs[i].size) % TWO64)
  {
    hide BigStep;
    AtMostSum(size, hhs[i].size);
  }

  lemma {:induction false} AtMostSum(x: Uint64, y: Uint64)
    ensures (x + y) % TWO64 <= x + y
    ensures x + y < TWO64 ==> (x + y) % TWO64 == x + y
  {
  }

  /** A new task behind point a counts from its first step. */
  lemma {:induction false} TallyNew(hhs: seq<Point>, a: nat)
    requires a + 1 < |hhs|
    ensures Tally(hhs, a, a + 2, hhs[a + 1].size)
    ensures a == 0 && BigStep(hhs, 0) ==> Tally(hhs, 1, 2, hhs[1].size)
  {
    hide BigStep;
    assert SizeBetween(hhs, a, a + 1) == SizeBetween(hhs, a, a) + hhs[a + 1].size;
    if a == 1 { assert SizeBetween(hhs, 0, 2) == SizeBetween(hhs, 0, 1) + hhs[2].size; }
  }

  /** The next point joins the list. */
  lemma {:induction false} ListsNext(hhs: seq<Point>, a: nat, b: nat, points: seq<(nat, HashId)>)
    requires Increasing(hhs) && Lists(hhs, a, b, points) && b + 1 < |hhs|
    ensures Lists(hhs, a, b + 1, points + [(hhs[b + 1].height, hhs[b + 1].hash)])
  {
    var p := (hhs[b + 1].height, hhs[b + 1].hash);
    var all := points + [p];
    forall q | q in all ensures exists k :: a <= k <= b + 1 && q == (hhs[k].height, hhs[k].hash) {
      if q in points {
        var k :| a <= k <= b && q == (hhs[k].height, hhs[k].hash);
      } else {
        assert q == p;
      }
    }
    forall k | a <= k <= b + 1 ensures (hhs[k].height, hhs[k].hash) in all {
      if k == b + 1 { assert all[|points|] == p; }
    }
    forall i, j | 0 <= i < j < |all| ensures all[i].0 <= all[j].0 {
      if j == |points| { ListedBelow(hhs, a, b, points, i); }
    }
  }

  lemma {:induction false} ListedBelow(hhs: seq<Point>, a: nat, b: nat, points: seq<(nat, HashId)>, i: nat)
    requires Increasing(hhs) && Lists(hhs, a, b, points) && b + 1 < |hhs| && i < |points|
    ensures points[i].0 <= hhs[b + 1].height
  {
    assert points[i] in points;
    var k :| a <= k <= b && points[i] == (hhs[k].height, hhs[k].hash);
  }

  /** What a new task lists: the point it begins at and the next one twice, or only the one it begins at. */
  lemma {:induction false} ListsNew(hhs: seq<Point>, a: nat, b: nat)
    requires Increasing(hhs) && a <= b <= a + 1 && b < |hhs|
    ensures Lists(hhs, a, b, [(hhs[a].height, hhs[a].hash), (hhs[b].height, hhs[b].hash), (hhs[b].height, hhs[b].hash)])
  {
    var p, q := (hhs[a].height, hhs[a].hash), (hhs[b].height, hhs[b].hash);
    var points := [p, q, q];
    assert points[0] == p && points[1] == q && points[2] == q;
    assert hhs[a].height <= hhs[b].height;
  }

  /** A point within the limits joins the open task. */
  lemma {:induction false} CutExtend(hhs: seq<Point>, ts: seq<Segment>, a: nat, i: nat, seg: Segment, size: Uint64,
      seg': Segment)
    requires Increasing(hhs) && Cut(hhs, ts, a, i, seg, size) && i < |hhs|
    requires !OverLimit(hhs[i], seg.from, (size + hhs[i].size) % TWO64)
    requires seg' == seg.(to := hhs[i].height, hash := hhs[i].hash,
                          points := seg.points + [(hhs[i].height, hhs[i].hash)])
    ensures Cut(hhs, ts, a, i + 1, seg', (size + hhs[i].size) % TWO64)
  {
    hide Partition, AllTasks, HasEmpty, Lists, Increasing, Tally;
    TallyStep(hhs, a, i, size);
    ListsNext(hhs, a, i - 1, seg.points);
  }

  /** The first point over a limit becomes a task of its own, and an empty one is opened behind it. */
  lemma {:induction false} CutFirst(hhs: seq<Point>, ts: seq<Segment>, seg: Segment, t: Segment, seg': Segment)
    requires Increasing(hhs) && Cut(hhs, ts, 0, 1, seg, 0) && 1 < |hhs| && FirstBig(hhs)
    requires t == seg.(to := hhs[1].height, hash := hhs[1].hash,
                       points := seg.points + [(hhs[1].height, hhs[1].hash)])
    requires var p := (hhs[1].height, hhs[1].hash);
             seg' == Segment(t.to + 1, hhs[1].height, hhs[1].hash, t.hash, [p, p, p])
    ensures Cut(hhs, ts + [t], 1, 2, seg', hhs[1].size)
  {
    assert Light(hhs, 0, 1) && Light(hhs, 1, 1) && Full(hhs, 0, |hhs| - 1, 0, 1);
    ListsNext(hhs, 0, 0, seg.points);
    hide Lists;
    TaskOut(hhs, ts, 0, 1, t);
    TallyNew(hhs, 0);
    ListsNew(hhs, 1, 1);
    hide Partition, AllTasks, HasEmpty, Light, Full, Tally;
  }

  /** A later point over a limit ends the open task and begins the next. */
  lemma {:induction false} CutNext(hhs: seq<Point>, ts: seq<Segment>, a: nat, i: nat, seg: Segment, size: Uint64,
      seg': Segment)
    requires Increasing(hhs) && Cut(hhs, ts, a, i, seg, size) && 2 <= i < |hhs|
    requires OverLimit(hhs[i], seg.from, (size + hhs[i].size) % TWO64)
    requires var p := (hhs[i].height, hhs[i].hash);
             seg' == Segment(seg.to + 1, hhs[i].height, hhs[i].hash, seg.hash, [(seg.to, seg.hash), p, p])
    ensures Cut(hhs, ts + [seg], i - 1, i + 1, seg', hhs[i].size)
  {
    hide Partition, AllTasks, HasEmpty, Lists, Tally;
    TallyStep(hhs, a, i, size);
    assert Full(hhs, 0, |hhs| - 1, a, i - 1);
    TaskOut(hhs, ts, a, i - 1, seg);
    assert Light(hhs, i - 1, i);
    TallyNew(hhs, i - 1);
    ListsNew(hhs, i - 1, i);
  }

  lemma {:induction false} CutEnd(hhs: seq<Point>, ts: seq<Segment>, a: nat, seg: Segment, size: Uint64, t: Segment)
    requires |hhs| > 0 && Increasing(hhs) && Cut(hhs, ts, a, |hhs|, seg, size)
    requires t == seg.(to := hhs[|hhs| - 1].height, hash := hhs[|hhs| - 1].hash)
    ensures Partition(ts + [t], hhs[0].height, hhs[|hhs| - 1].height)
    ensures AllTasks(hhs, 0, |hhs| - 1, ts + [t])
    ensures HasEmpty(ts + [t]) <==> |hhs| == 1 || (FirstBig(hhs) && (|hhs| == 2 || SecondBig(hhs)))
  {
    hide Partition, AllTasks, HasEmpty, Lists, Tally;
    TaskOut(hhs, ts, a, |hhs| - 1, t);
  }

  /** Cuts the stretch between the first and last point into tasks. Each is within 2000 heights and 2 MiB or is a single
      step of the skeleton, and is cut only where one more step would be over a limit; each lists its points. An empty
      task is among them exactly when there is one point, or when the first step is over a limit and so is the second,
      or there is none. */
  method ConstructTasks(hhs: seq<Point>) returns (ts: seq<Segment>)
    requires |hhs| > 0 && Increasing(hhs)
    ensures Partition(ts, hhs[0].height, hhs[|hhs| - 1].height)
    ensures AllTasks(hhs, 0, |hhs| - 1, ts)
    ensures HasEmpty(ts) <==> |hhs| == 1 || (FirstBig(hhs) && (|hhs| == 2 || SecondBig(hhs)))
    ensures |ts| > 0
  {
    hide Partition, AllTasks, HasEmpty, Cut;
    var lo := hhs[0].height;
    var seg := Segment(lo + 1, 0, 0, hhs[0].hash, [(lo, hhs[0].hash)]);
    var size: Uint64 := 0;
    var hasChunkInSeg := false;
    ts := [];
    ghost var a := 0;
    CutStart(hhs, seg);
    for i := 1 to |hhs|
      invariant Cut(hhs, ts, a, i, seg, size) && (hasChunkInSeg <==> i > 1)
    {
      CutSegment(hhs, ts, a, i, seg, size);
      var hp := hhs[i];
      ghost var seg0, size0, ts0, t := seg, size, ts, seg;
      size := (size + hp.size) % TWO64;
      ghost var over := OverLimit(hp, seg.from, size);
      if hp.height - seg.from + 1 > MAX_SNAPSHOTS_ONE_TASK || size > MAX_SIZE_ONE_TASK {
        if !hasChunkInSeg {
          seg := seg.(to := hp.height, hash := hp.hash, points := seg.points + [(hp.height, hp.hash)]);
        }
        ts, t := ts + [seg], seg;
        seg := Segment(seg.to + 1, 0, 0, seg.hash, [(seg.to, seg.hash), (hp.height, hp.hash)]);
        size := hp.size;
      }
      hasChunkInSeg := true;
      seg := seg.(to := hp.height, hash := hp.hash, points := seg.points + [(hp.height, hp.hash)]);
      if !over {
        CutExtend(hhs, ts, a, i, seg0, size0, seg);
      } else if i == 1 {
        CutFirst(hhs, ts0, seg0, t, seg);
        a := 1;
      } else {
        CutNext(hhs, ts0, a, i, seg0, size0, seg);
        a := i - 1;
      }
    }
    var last := hhs[|hhs| - 1];
    ghost var seg0 := seg;
    seg := seg.(to := last.height, hash := last.hash);
    CutEnd(hhs, ts, a, seg0, size, seg);
    ts := ts + [seg];
  }

  // ----- which cached segments to keep -----

  predicate FromOk(p: Point, s: Segment) { s.from == p.height + 1 && s.prevHash == p.hash }

  predicate ToOk(p: Point, s: Segment) { s.to == p.height && s.hash == p.hash }

  /** Compares one segment with the points from index on, up to the first at or past its end. */
  method Scan(hhs: seq<Point>, s: Segment, index: nat) returns (fromOk: bool, toOk: bool, next: nat)
    requires index <= |hhs|
    ensures index <= next <= |hhs|
    ensures forall j | index <= j < next :: hhs[j].height < s.to
    ensures next < |hhs| ==> hhs[next].height >= s.to
    ensures fromOk <==> exists j :: index <= j <= next && j < |hhs| && FromOk(hhs[j], s)
    ensures toOk <==> exists j :: index <= j <= next && j < |hhs| && ToOk(hhs[j], s)
  {
    fromOk, toOk, next := false, false, index;
    while next < |hhs|
      invariant index <= next <= |hhs|
      invariant forall j | index <= j < next :: hhs[j].height < s.to
      invariant fromOk <==> exists j :: index <= j < next && FromOk(hhs[j], s)
      invariant toOk <==> exists j :: index <= j < next && ToOk(hhs[j], s)
    {
      if FromOk(hhs[next], s) { fromOk := true; }
      if ToOk(hhs[next], s) { toOk := true; }
      if hhs[next].height >= s.to {
        return;
      }
      next := next + 1;
    }
  }

  predicate InRange(s: Segment, lo: nat, hi: nat) { s.to > lo && s.from <= hi }

  function Select(ss: seq<Segment>, lo: nat, hi: nat): seq<Segment> {
    if |ss| == 0 then []
    else Select(ss[..|ss| - 1], lo, hi) + (if InRange(ss[|ss| - 1], lo, hi) then [ss[|ss| - 1]] else [])
  }

  lemma {:induction false} SelectHolds(ss: seq<Segment>, lo: nat, hi: nat, s: Segment)
    ensures s in Select(ss, lo, hi) <==> s in ss && s.to > lo && s.from <= hi
  {
    if |ss| > 0 {
      SelectHolds(ss[..|ss| - 1], lo, hi, s);
      assert ss == ss[..|ss| - 1] + [ss[|ss| - 1]];
    }
  }

  ghost predicate SortedByFrom(ss: seq<Segment>) {
    forall i, j | 0 <= i < j < |ss| :: ss[i].from <= ss[j].from
  }

  ghost predicate NonEmpty(ss: seq<Segment>) {
    forall i | 0 <= i < |ss| :: ss[i].from <= ss[i].to
  }

  /** What the cache lists: non-empty segments in the order of their first height. */
  ghost predicate Listed(ss: seq<Segment>) {
    SortedByFrom(ss) && NonEmpty(ss)
  }

  ghost predicate Apart(ss: seq<Segment>) {
    forall i, j | 0 <= i < j < |ss| :: ss[i].to < ss[j].from
  }

  /** In height order, anchored, and without overlap. */
  ghost predicate Usable(hhs: seq<Point>, ss: seq<Segment>) {
    && Apart(ss)
    && forall i | 0 <= i < |ss| :: ss[i].from <= ss[i].to && Anchored(hhs, ss[i])
  }

  /** The highest end of the segments that meet the stretch, kept or not. */
  function Reach(ss: seq<Segment>, lo: nat, hi: nat): nat {
    if |ss| == 0 then 0
    else
      var r, s := Reach(ss[..|ss| - 1], lo, hi), ss[|ss| - 1];
      if InRange(s, lo, hi) && s.to > r then s.to else r
  }

  /** A segment is worth keeping if it is anchored and begins behind all that came before. */
  ghost predicate Keeps(hhs: seq<Point>, s: Segment, reach: nat) {
    Anchored(hhs, s) && s.from - 1 >= reach
  }

  /** The segments to keep and those to delete, each in the order they are listed. */
  ghost function Sorted(ss: seq<Segment>, hhs: seq<Point>): (r: (seq<Segment>, seq<Segment>))
    requires |hhs| > 0
  {
    if |ss| == 0 then ([], [])
    else
      var lo, hi, s := hhs[0].height, hhs[|hhs| - 1].height, ss[|ss| - 1];
      var (kept, deleted) := Sorted(ss[..|ss| - 1], hhs);
      if !InRange(s, lo, hi) then (kept, deleted)
      else if Keeps(hhs, s, Reach(ss[..|ss| - 1], lo, hi)) then (kept + [s], deleted)
      else (kept, deleted + [s])
  }

  /** Each segment of all is in exactly one of the two lists. */
  ghost predicate Split(kept: seq<Segment>, deleted: seq<Segment>, all: seq<Segment>) {
    multiset(kept) + multiset(deleted) == multiset(all)
  }

  lemma {:induction false} SplitStep(kept: seq<Segment>, deleted: seq<Segment>, all: seq<Segment>, s: Segment)
    requires Split(kept, deleted, all)
    ensures Split(kept + [s], deleted, all + [s]) && Split(kept, deleted + [s], all + [s])
  {
  }

  lemma {:induction false} SortedSplit(ss: seq<Segment>, hhs: seq<Point>)
    requires |hhs| > 0
    ensures var (kept, deleted) := Sorted(ss, hhs);
            Split(kept, deleted, Select(ss, hhs[0].height, hhs[|hhs| - 1].height))
  {
    if |ss| > 0 {
      hide Split, Keeps;
      var n := |ss| - 1;
      SortedSplit(ss[..n], hhs);
      var (kept, deleted) := Sorted(ss[..n], hhs);
      SplitStep(kept, deleted, Select(ss[..n], hhs[0].height, hhs[|hhs| - 1].height), ss[n]);
    } else {
      assert Select(ss, hhs[0].height, hhs[|hhs| - 1].height) == [];
    }
  }

  /** What is kept is usable, and ends at or below the reach. */
  lemma {:induction false} SortedUsable(ss: seq<Segment>, hhs: seq<Point>)
    requires |hhs| > 0 && NonEmpty(ss)
    ensures var (kept, _) := Sorted(ss, hhs);
            && Usable(hhs, kept)
            && (|kept| > 0 ==> kept[|kept| - 1].to <= Reach(ss, hhs[0].height, hhs[|hhs| - 1].height))
  {
    if |ss| > 0 {
      hide Anchored;
      var n := |ss| - 1;
      SortedUsable(ss[..n], hhs);
    }
  }

  lemma {:induction false} ReachBelow(ss: seq<Segment>, lo: nat, hi: nat, bound: nat)
    requires forall i | 0 <= i < |ss| :: ss[i].to <= bound
    ensures Reach(ss, lo, hi) <= bound
  {
    if |ss| > 0 { ReachBelow(ss[..|ss| - 1], lo, hi, bound); }
  }

  /** If the cached segments do not overlap, only segments that are not anchored are deleted. */
  lemma {:induction false} SortedDeletes(ss: seq<Segment>, hhs: seq<Point>)
    requires |hhs| > 0 && Apart(ss)
    ensures forall s | s in Sorted(ss, hhs).1 :: !Anchored(hhs, s)
  {
    if |ss| > 0 {
      var n, lo, hi := |ss| - 1, hhs[0].height, hhs[|hhs| - 1].height;
      SortedDeletes(ss[..n], hhs);
      if Anchored(hhs, ss[n]) {
        ReachBelow(ss[..n], lo, hi, ss[n].from - 1);
      }
    }
  }

  /** An earlier segment that meets the stretch reaches into s. */
  ghost predicate Blocked(ss: seq<Segment>, s: Segment, lo: nat, hi: nat) {
    exists i, j :: 0 <= i < j < |ss| && ss[j] == s && ss[i].to > lo && ss[i].from <= hi && ss[i].to >= s.from
  }

  lemma {:induction false} ReachBy(ss: seq<Segment>, lo: nat, hi: nat) returns (i: nat)
    requires Reach(ss, lo, hi) > 0
    ensures i < |ss| && ss[i].to == Reach(ss, lo, hi) && ss[i].to > lo && ss[i].from <= hi
  {
    var n := |ss| - 1;
    if InRange(ss[n], lo, hi) && ss[n].to == Reach(ss, lo, hi) { i := n; } else { i := ReachBy(ss[..n], lo, hi); }
  }

  /** Why a segment is deleted. */
  lemma {:induction false} SortedReason(ss: seq<Segment>, hhs: seq<Point>, s: Segment)
    requires |hhs| > 0 && s in Sorted(ss, hhs).1
    ensures !Anchored(hhs, s) || Blocked(ss, s, hhs[0].height, hhs[|hhs| - 1].height)
  {
    hide Anchored;
    var n, lo, hi := |ss| - 1, hhs[0].height, hhs[|hhs| - 1].height;
    if s in Sorted(ss[..n], hhs).1 {
      SortedReason(ss[..n], hhs, s);
      if Blocked(ss[..n], s, lo, hi) {
        var i, j :| 0 <= i < j < n && ss[..n][j] == s && ss[..n][i].to > lo && ss[..n][i].from <= hi
                    && ss[..n][i].to >= s.from;
        assert ss[j] == s && ss[i].to >= s.from;
      }
    } else if Anchored(hhs, s) {
      AnchoredFrom(hhs, s);
      var i := ReachBy(ss[..n], lo, hi);
      assert ss[n] == s && ss[i].to >= s.from;
    }
  }

  lemma {:induction false} AnchoredFrom(hhs: seq<Point>, s: Segment)
    requires Anchored(hhs, s)
    ensures s.from >= 1
  {
  }

  lemma {:induction false} SortedRest(ss: seq<Segment>, k: nat, hhs: seq<Point>)
    requires |hhs| > 0 && k <= |ss| && forall j | k <= j < |ss| :: ss[j].from > hhs[|hhs| - 1].height
    ensures Sorted(ss, hhs) == Sorted(ss[..k], hhs)
    decreases |ss|
  {
    if k == |ss| {
      assert ss[..k] == ss;
    } else {
      SortedRest(ss[..|ss| - 1], k, hhs);
      assert ss[..|ss| - 1][..k] == ss[..k];
    }
  }

  /** The scan stands at the first point at or above the reach. */
  ghost predicate StandsAt(hhs: seq<Point>, index: nat, reach: nat) {
    && index <= |hhs|
    && (forall j | 0 <= j < index :: hhs[j].height < reach)
    && (index < |hhs| ==> hhs[index].height >= reach)
  }

  /** The scan accepts a segment exactly if it is worth keeping, and moves on to its end. */
  lemma {:induction false} ScanExact(hhs: seq<Point>, s: Segment, index: nat, next: nat, reach: nat)
    requires Increasing(hhs) && StandsAt(hhs, index, reach) && s.from <= s.to && index <= next <= |hhs|
    requires forall j | index <= j < next :: hhs[j].height < s.to
    requires next < |hhs| ==> hhs[next].height >= s.to
    ensures (exists j :: index <= j <= next && j < |hhs| && FromOk(hhs[j], s))
            && (exists j :: index <= j <= next && j < |hhs| && ToOk(hhs[j], s))
            <==> Keeps(hhs, s, reach)
    ensures StandsAt(hhs, next, if s.to > reach then s.to else reach)
  {
    if (exists j :: index <= j <= next && j < |hhs| && FromOk(hhs[j], s))
       && (exists j :: index <= j <= next && j < |hhs| && ToOk(hhs[j], s)) {
      var a :| index <= a <= next && a < |hhs| && FromOk(hhs[a], s);
      var b :| index <= b <= next && b < |hhs| && ToOk(hhs[b], s);
      assert hhs[index].height <= hhs[a].height;
      assert HashAt(hhs, s.from - 1, s.prevHash) && HashAt(hhs, s.to, s.hash);
    }
    if Keeps(hhs, s, reach) {
      var a :| 0 <= a < |hhs| && hhs[a].height == s.from - 1 && hhs[a].hash == s.prevHash;
      var b :| 0 <= b < |hhs| && hhs[b].height == s.to && hhs[b].hash == s.hash;
      assert index <= a < b <= next;
      assert FromOk(hhs[a], s) && ToOk(hhs[b], s);
    }
  }

  lemma {:induction false} NextSegment(ss: seq<Segment>, i: nat, hhs: seq<Point>)
    requires |hhs| > 0 && i < |ss|
    ensures var lo, hi, s := hhs[0].height, hhs[|hhs| - 1].height, ss[i];
            var (kept, deleted) := Sorted(ss[..i], hhs);
            var reach := Reach(ss[..i], lo, hi);
            && Reach(ss[..i + 1], lo, hi) == (if InRange(s, lo, hi) && s.to > reach then s.to else reach)
            && Sorted(ss[..i + 1], hhs) ==
               if !InRange(s, lo, hi) then (kept, deleted)
               else if Keeps(hhs, s, reach) then (kept + [s], deleted)
               else (kept, deleted + [s])
  {
    assert ss[..i + 1][..i] == ss[..i];
  }

  /** Splits the cached segments that meet the stretch into those to keep and those to delete: one is kept exactly if
      the skeleton has its hashes at both ends and no earlier one, kept or not, reaches into it. */
  method ChooseSegments(segments: seq<Segment>, hhs: seq<Point>) returns (valid: seq<Segment>, deleted: seq<Segment>)
    requires |hhs| > 0 && Increasing(hhs)
    requires Listed(segments)
    ensures (valid, deleted) == Sorted(segments, hhs)
    ensures Usable(hhs, valid)
    ensures Split(valid, deleted, Select(segments, hhs[0].height, hhs[|hhs| - 1].height))
    ensures Apart(segments) ==> forall s | s in deleted :: !Anchored(hhs, s)
  {
    hide Usable, Split, Select, Apart, Anchored, Increasing, Sorted, Reach, StandsAt, Keeps, FromOk, ToOk;
    var lo, hi := hhs[0].height, hhs[|hhs| - 1].height;
    valid, deleted := [], [];
    var index := 0;
    SortedStart(segments, hhs);
    for i := 0 to |segments|
      invariant index <= |hhs| && StandsAt(hhs, index, Reach(segments[..i], lo, hi))
      invariant (valid, deleted) == Sorted(segments[..i], hhs)
    {
      NextSegment(segments, i, hhs);
      if segments[i].to <= lo {
        continue;
      }
      if segments[i].from > hi {
        SortedRest(segments, i, hhs);
        SortedFacts(segments, hhs);
        return;
      }
      var fromOk, toOk, next := Scan(hhs, segments[i], index);
      ScanExact(hhs, segments[i], index, next, Reach(segments[..i], lo, hi));
      index := next;
      if fromOk && toOk {
        valid := valid + [segments[i]];
      } else {
        deleted := deleted + [segments[i]];
      }
    }
    assert segments[..|segments|] == segments;
    SortedFacts(segments, hhs);
  }

  lemma {:induction false} SortedStart(ss: seq<Segment>, hhs: seq<Point>)
    requires |hhs| > 0
    ensures Sorted(ss[..0], hhs) == ([], [])
    ensures StandsAt(hhs, 0, Reach(ss[..0], hhs[0].height, hhs[|hhs| - 1].height))
  {
  }

  lemma {:induction false} SortedFacts(ss: seq<Segment>, hhs: seq<Point>)
    requires |hhs| > 0 && Listed(ss)
    ensures var (kept, deleted) := Sorted(ss, hhs);
            && Usable(hhs, kept)
            && Split(kept, deleted, Select(ss, hhs[0].height, hhs[|hhs| - 1].height))
            && (Apart(ss) ==> forall s | s in deleted :: !Anchored(hhs, s))
  {
    hide Usable, Split, Select, Apart, Anchored, Sorted, Reach;
    SortedUsable(ss, hhs);
    SortedSplit(ss, hhs);
    if Apart(ss) { SortedDeletes(ss, hhs); }
  }

  // ----- planning around the kept segments -----

  ghost predicate HeightAt(hhs: seq<Point>, h: int) {
    exists k :: 0 <= k < |hhs| && hhs[k].height == h
  }

  /** Stretches between skeleton heights, with a gap between any two. */
  ghost predicate Stretches(hhs: seq<Point>, ss: seq<Segment>) {
    && (forall i, j | 0 <= i < j < |ss| :: ss[i].to + 1 < ss[j].from)
    && (forall i | 0 <= i < |ss| :: ss[i].from <= ss[i].to && HeightAt(hhs, ss[i].from - 1) && HeightAt(hhs, ss[i].to))
  }

  ghost predicate EndsAt(ss: seq<Segment>, h: int) {
    exists j :: 0 <= j < |ss| && ss[j].to == h
  }

  ghost predicate BeginsAfter(ss: seq<Segment>, h: int) {
    exists j :: 0 <= j < |ss| && ss[j].from - 1 == h
  }

  /** The stretch from point lo to point hi lies between kept segments, or between one and an end of the skeleton. */
  ghost predicate Gap(hhs: seq<Point>, kept: seq<Segment>, lo: nat, hi: nat) {
    && lo <= hi < |hhs|
    && (lo == 0 || EndsAt(kept, hhs[lo].height))
    && (hi == |hhs| - 1 || BeginsAfter(kept, hhs[hi].height))
  }

  /** A task of one of the gaps. */
  ghost predicate GapTask(hhs: seq<Point>, kept: seq<Segment>, t: Segment) {
    exists lo: nat, hi: nat :: Gap(hhs, kept, lo, hi) && Task(hhs, lo, hi, t)
  }

  ghost predicate AllGapTasks(hhs: seq<Point>, kept: seq<Segment>, ts: seq<Segment>) {
    forall t | t in ts :: GapTask(hhs, kept, t)
  }

  lemma {:induction false} GapTasksMore(hhs: seq<Point>, kept: seq<Segment>, ts: seq<Segment>, lo: nat, hi: nat,
      more: seq<Segment>)
    requires AllGapTasks(hhs, kept, ts) && Gap(hhs, kept, lo, hi) && AllTasks(hhs, lo, hi, more)
    ensures AllGapTasks(hhs, kept, ts + more)
  {
    hide Gap, Task;
    forall t | t in ts + more ensures GapTask(hhs, kept, t) {
      if t in more { assert Gap(hhs, kept, lo, hi) && Task(hhs, lo, hi, t); }
    }
  }

  /** Every segment of the one list begins where one of the other does and ends where one does. */
  ghost predicate Among(a: seq<Segment>, b: seq<Segment>) {
    forall i | 0 <= i < |a| :: EndsAt(b, a[i].to) && BeginsAfter(b, a[i].from - 1)
  }

  lemma {:induction false} EndsMore(ss: seq<Segment>, s: Segment, h: int)
    ensures EndsAt(ss, h) || s.to == h ==> EndsAt(ss + [s], h)
    ensures BeginsAfter(ss, h) || s.from - 1 == h ==> BeginsAfter(ss + [s], h)
  {
    var all := ss + [s];
    assert all[|ss|] == s;
    if EndsAt(ss, h) {
      var j :| 0 <= j < |ss| && ss[j].to == h;
      assert all[j].to == h;
    }
    if BeginsAfter(ss, h) {
      var j :| 0 <= j < |ss| && ss[j].from - 1 == h;
      assert all[j].from - 1 == h;
    }
  }

  lemma {:induction false} AmongAppend(cont: seq<Segment>, valid: seq<Segment>, s: Segment)
    requires Among(cont, valid)
    ensures Among(cont + [s], valid + [s])
  {
    hide EndsAt, BeginsAfter;
    var all := cont + [s];
    forall i | 0 <= i < |all| ensures EndsAt(valid + [s], all[i].to) && BeginsAfter(valid + [s], all[i].from - 1) {
      EndsMore(valid, s, all[i].to);
      EndsMore(valid, s, all[i].from - 1);
    }
  }

  lemma {:induction false} AmongJoin(cont: seq<Segment>, valid: seq<Segment>, s: Segment)
    requires Among(cont, valid) && |cont| > 0
    ensures Among(cont[|cont| - 1 := cont[|cont| - 1].(to := s.to)], valid + [s])
  {
    hide EndsAt, BeginsAfter;
    var all := cont[|cont| - 1 := cont[|cont| - 1].(to := s.to)];
    forall i | 0 <= i < |all| ensures EndsAt(valid + [s], all[i].to) && BeginsAfter(valid + [s], all[i].from - 1) {
      EndsMore(valid, s, all[i].to);
      EndsMore(valid, s, all[i].from - 1);
    }
  }

  lemma {:induction false} GapAmong(hhs: seq<Point>, cont: seq<Segment>, kept: seq<Segment>, lo: nat, hi: nat)
    requires Among(cont, kept) && Gap(hhs, cont, lo, hi)
    ensures Gap(hhs, kept, lo, hi)
  {
    if lo > 0 {
      var i :| 0 <= i < |cont| && cont[i].to == hhs[lo].height;
      assert EndsAt(kept, cont[i].to);
    }
    if hi < |hhs| - 1 {
      var i :| 0 <= i < |cont| && cont[i].from - 1 == hhs[hi].height;
      assert BeginsAfter(kept, cont[i].from - 1);
    }
  }

  lemma {:induction false} GapTaskAmong(hhs: seq<Point>, cont: seq<Segment>, kept: seq<Segment>, ts: seq<Segment>)
    requires Among(cont, kept) && AllGapTasks(hhs, cont, ts)
    ensures AllGapTasks(hhs, kept, ts)
    ensures forall t | t in ts :: Anchored(hhs, t)
  {
    hide Among, Gap, Task, Anchored;
    forall t | t in ts ensures GapTask(hhs, kept, t) && Anchored(hhs, t) {
      var lo: nat, hi: nat :| Gap(hhs, cont, lo, hi) && Task(hhs, lo, hi, t);
      GapAmong(hhs, cont, kept, lo, hi);
      TaskAnchored(hhs, lo, hi, t);
    }
  }

  ghost predicate SameHeights(a: seq<Segment>, b: seq<Segment>) {
    forall h: nat :: Count(a, h) == Count(b, h)
  }

  lemma {:induction false} SameAppend(a: seq<Segment>, b: seq<Segment>, s: Segment)
    requires SameHeights(a, b)
    ensures SameHeights(a + [s], b + [s])
  {
    forall h: nat ensures Count(a + [s], h) == Count(b + [s], h) {
      CountConcat(a, [s], h);
      CountConcat(b, [s], h);
    }
  }

  lemma {:induction false} SameJoin(a: seq<Segment>, last: Segment, b: seq<Segment>, s: Segment)
    requires SameHeights(a + [last], b) && last.to + 1 == s.from && last.from <= last.to && s.from <= s.to
    ensures SameHeights(a + [last.(to := s.to)], b + [s])
  {
    var joined := last.(to := s.to);
    forall h: nat ensures Count(a + [joined], h) == Count(b + [s], h) {
      assert (a + [joined])[..|a|] == a && (a + [last])[..|a|] == a && (b + [s])[..|b|] == b;
      assert Covers(joined, h) == Covers(last, h) + Covers(s, h);
    }
  }

  lemma {:induction false} StretchesAppend(hhs: seq<Point>, ss: seq<Segment>, s: Segment)
    requires Stretches(hhs, ss) && s.from <= s.to && Anchored(hhs, s)
    requires |ss| > 0 ==> ss[|ss| - 1].to + 1 < s.from
    ensures Stretches(hhs, ss + [s])
  {
    assert HeightAt(hhs, s.from - 1) && HeightAt(hhs, s.to);
    var all := ss + [s];
    forall i, j | 0 <= i < j < |all| ensures all[i].to + 1 < all[j].from {
      assert j == |ss| && i < |ss| - 1 ==> ss[i].to + 1 < ss[|ss| - 1].from;
    }
  }

  lemma {:induction false} StretchesJoin(hhs: seq<Point>, ss: seq<Segment>, s: Segment)
    requires Stretches(hhs, ss) && |ss| > 0 && s.from <= s.to && Anchored(hhs, s)
    requires ss[|ss| - 1].to + 1 == s.from
    ensures Stretches(hhs, ss[|ss| - 1 := ss[|ss| - 1].(to := s.to)])
  {
    assert HeightAt(hhs, s.to);
  }

  /** What joining the first i segments has given. */
  ghost predicate Joined(hhs: seq<Point>, cont: seq<Segment>, valid: seq<Segment>, i: nat) {
    && i <= |valid| && (|cont| == 0 <==> i == 0)
    && (i > 0 ==> cont[|cont| - 1].to == valid[i - 1].to)
    && Stretches(hhs, cont) && SameHeights(cont, valid[..i]) && Among(cont, valid[..i])
  }

  lemma {:induction false} JoinedStart(hhs: seq<Point>, valid: seq<Segment>)
    ensures Joined(hhs, [], valid, 0)
  {
    assert valid[..0] == [];
  }

  lemma {:induction false} UsableAt(hhs: seq<Point>, valid: seq<Segment>, i: nat)
    requires Usable(hhs, valid) && i < |valid|
    ensures valid[i].from <= valid[i].to && Anchored(hhs, valid[i]) && (i > 0 ==> valid[i - 1].to < valid[i].from)
  {
  }

  lemma {:induction false} StretchAt(hhs: seq<Point>, cont: seq<Segment>, n: nat)
    requires Stretches(hhs, cont) && n < |cont|
    ensures cont[n].from <= cont[n].to
  {
  }

  lemma {:induction false} JoinedNew(hhs: seq<Point>, cont: seq<Segment>, valid: seq<Segment>, i: nat)
    requires Joined(hhs, cont, valid, i) && Usable(hhs, valid) && i < |valid|
    requires |cont| == 0 || cont[|cont| - 1].to + 1 != valid[i].from
    ensures Joined(hhs, cont + [valid[i]], valid, i + 1)
  {
    hide Stretches, SameHeights, Usable, Anchored, Among;
    var s := valid[i];
    assert valid[..i + 1] == valid[..i] + [s];
    UsableAt(hhs, valid, i);
    StretchesAppend(hhs, cont, s);
    SameAppend(cont, valid[..i], s);
    AmongAppend(cont, valid[..i], s);
  }

  lemma {:induction false} JoinedLast(hhs: seq<Point>, cont: seq<Segment>, valid: seq<Segment>, i: nat)
    requires Joined(hhs, cont, valid, i) && Usable(hhs, valid) && i < |valid|
    requires |cont| > 0 && cont[|cont| - 1].to + 1 == valid[i].from
    ensures Joined(hhs, cont[|cont| - 1 := cont[|cont| - 1].(to := valid[i].to)], valid, i + 1)
  {
    hide Stretches, SameHeights, Usable, Anchored, Among;
    var s, n := valid[i], |cont| - 1;
    assert valid[..i + 1] == valid[..i] + [s];
    UsableAt(hhs, valid, i);
    StretchAt(hhs, cont, n);
    StretchesJoin(hhs, cont, s);
    AmongJoin(cont, valid[..i], s);
    assert cont == cont[..n] + [cont[n]];
    SameJoin(cont[..n], cont[n], valid[..i], s);
    assert cont[n := cont[n].(to := s.to)] == cont[..n] + [cont[n].(to := s.to)];
  }

  /** Joins neighbours: the same heights, in as few stretches as possible. */
  method MergeContinuous(valid: seq<Segment>, ghost hhs: seq<Point>) returns (cont: seq<Segment>)
    requires Usable(hhs, valid)
    ensures Stretches(hhs, cont)
    ensures SameHeights(cont, valid)
    ensures Among(cont, valid)
  {
    hide Usable, Joined;
    cont := [];
    JoinedStart(hhs, valid);
    for i := 0 to |valid|
      invariant Joined(hhs, cont, valid, i)
    {
      var s := valid[i];
      if |cont| == 0 || cont[|cont| - 1].to + 1 != s.from {
        JoinedNew(hhs, cont, valid, i);
        cont := cont + [s];
      } else {
        JoinedLast(hhs, cont, valid, i);
        cont := cont[|cont| - 1 := cont[|cont| - 1].(to := s.to)];
      }
    }
    JoinedAll(hhs, cont, valid);
  }

  lemma {:induction false} JoinedAll(hhs: seq<Point>, cont: seq<Segment>, valid: seq<Segment>)
    requires Joined(hhs, cont, valid, |valid|)
    ensures Stretches(hhs, cont) && SameHeights(cont, valid) && Among(cont, valid)
  {
    hide Stretches, SameHeights, Among;
    assert valid[..|valid|] == valid;
  }

  /** Each stretch's end by the height before its start. */
  ghost function EndByStart(cont: seq<Segment>): map<int, nat> {
    if |cont| == 0 then map[]
    else EndByStart(cont[..|cont| - 1])[cont[|cont| - 1].from - 1 := cont[|cont| - 1].to]
  }

  lemma {:induction false} StartFound(cont: seq<Segment>, h: int) returns (j: nat)
    requires h in EndByStart(cont)
    ensures j < |cont| && cont[j].from - 1 == h && EndByStart(cont)[h] == cont[j].to
  {
    var n := |cont| - 1;
    if cont[n].from - 1 == h {
      j := n;
    } else {
      j := StartFound(cont[..n], h);
    }
  }

  lemma {:induction false} StartPresent(cont: seq<Segment>, j: nat)
    requires j < |cont|
    ensures cont[j].from - 1 in EndByStart(cont)
  {
    if j < |cont| - 1 {
      StartPresent(cont[..|cont| - 1], j);
    }
  }

  method IndexStretches(cont: seq<Segment>) returns (points: map<int, nat>)
    ensures points == EndByStart(cont)
  {
    points := map[];
    for i := 0 to |cont|
      invariant points == EndByStart(cont[..i])
    {
      assert cont[..i + 1][..i] == cont[..i];
      points := points[cont[i].from - 1 := cont[i].to];
    }
    assert cont[..|cont|] == cont;
  }

  /** Heights planned so far: up to the end of the stretch being skipped, or to the point tasks start from. */
  ghost function PlannedTo(hhs: seq<Point>, start: nat, segmentEnd: nat, inSegment: bool): int
    requires start < |hhs|
  {
    if inSegment then segmentEnd else hhs[start].height
  }

  ghost predicate Planned(ts: seq<Segment>, done: seq<Segment>, lo: int, hi: int) {
    forall h: nat :: Count(ts, h) + Count(done, h) == Within(lo, h, hi)
  }

  /** What holds before point idx is looked at, k stretches having been passed. */
  ghost predicate Planning(hhs: seq<Point>, cont: seq<Segment>, idx: nat, k: nat, start: nat, segmentEnd: nat,
                           inSegment: bool, ts: seq<Segment>)
  {
    && idx <= |hhs| && k <= |cont| && start < |hhs| && (start < idx || idx == start == 0)
    && Planned(ts, cont[..k], hhs[0].height, PlannedTo(hhs, start, segmentEnd, inSegment))
    && AllGapTasks(hhs, cont, ts)
    && (inSegment ==> idx > 0 && k > 0 && cont[k - 1].to == segmentEnd && hhs[idx - 1].height < segmentEnd)
    && (!inSegment ==> segmentEnd <= hhs[start].height)
    && (!inSegment ==> if k > 0 then cont[k - 1].to == hhs[start].height else start == 0)
    && (k < |cont| && idx > 0 ==> cont[k].from - 1 > hhs[idx - 1].height)
  }

  /** A skeleton height above the previous point is at or above this one. */
  lemma {:induction false} NextPoint(hhs: seq<Point>, idx: nat, h: int)
    requires Increasing(hhs) && idx < |hhs| && HeightAt(hhs, h) && (idx > 0 ==> h > hhs[idx - 1].height)
    ensures h >= hhs[idx].height
  {
    var k :| 0 <= k < |hhs| && hhs[k].height == h;
    if k < idx { assert k <= idx - 1; }
  }

  /** Looking a height up that is not a start leaves the next stretch ahead. */
  lemma {:induction false} StartAhead(hhs: seq<Point>, cont: seq<Segment>, idx: nat, k: nat)
    requires Increasing(hhs) && Stretches(hhs, cont) && idx < |hhs| && k < |cont|
    requires idx > 0 ==> cont[k].from - 1 > hhs[idx - 1].height
    requires hhs[idx].height !in EndByStart(cont)
    ensures cont[k].from - 1 > hhs[idx].height
  {
    NextPoint(hhs, idx, cont[k].from - 1);
    StartPresent(cont, k);
  }

  /** The stretch found at a point is the next one. */
  lemma {:induction false} StartIsNext(hhs: seq<Point>, cont: seq<Segment>, idx: nat, k: nat)
    requires Increasing(hhs) && Stretches(hhs, cont) && idx < |hhs| && k <= |cont|
    requires k < |cont| && idx > 0 ==> cont[k].from - 1 > hhs[idx - 1].height
    requires k > 0 ==> cont[k - 1].to <= hhs[idx].height
    requires hhs[idx].height in EndByStart(cont)
    ensures k < |cont| && cont[k].from - 1 == hhs[idx].height && EndByStart(cont)[hhs[idx].height] == cont[k].to
  {
    var j := StartFound(cont, hhs[idx].height);
    assert j >= k;
    if k < |cont| { NextPoint(hhs, idx, cont[k].from - 1); }
  }

  lemma {:induction false} PlannedTasks(ts: seq<Segment>, more: seq<Segment>, done: seq<Segment>, lo: int, mid: int,
      hi: int)
    requires Planned(ts, done, lo, mid) && Partition(more, mid, hi) && lo <= mid <= hi
    ensures Planned(ts + more, done, lo, hi)
  {
    forall h: nat ensures Count(ts + more, h) + Count(done, h) == Within(lo, h, hi) {
      CountConcat(ts, more, h);
    }
  }

  lemma {:induction false} PlannedStretch(ts: seq<Segment>, cont: seq<Segment>, k: nat, lo: int)
    requires k < |cont| && cont[k].from <= cont[k].to && lo < cont[k].from
    requires Planned(ts, cont[..k], lo, cont[k].from - 1)
    ensures Planned(ts, cont[..k + 1], lo, cont[k].to)
  {
    forall h: nat ensures Count(ts, h) + Count(cont[..k + 1], h) == Within(lo, h, cont[k].to) {
      assert cont[..k + 1][..k] == cont[..k];
    }
  }

  lemma {:induction false} SizeInPart(hhs: seq<Point>, a: nat, b: nat, i: nat, j: nat)
    requires a <= b <= |hhs| && j < b - a
    ensures SizeBetween(hhs[a..b], i, j) == SizeBetween(hhs, a + i, a + j)
    decreases j
  {
    if j > i { SizeInPart(hhs, a, b, i, j - 1); }
  }

  lemma {:induction false} LightInPart(hhs: seq<Point>, a: nat, b: nat, i: nat, j: nat)
    requires a < b <= |hhs| && Light(hhs[a..b], i, j)
    ensures Light(hhs, a + i, a + j)
  {
    SizeInPart(hhs, a, b, i, j);
    assert SaneSizes(hhs) ==> SaneSizes(hhs[a..b]);
  }

  lemma {:induction false} FullInPart(hhs: seq<Point>, a: nat, b: nat, i: nat, j: nat)
    requires a < b <= |hhs| && Full(hhs[a..b], 0, b - a - 1, i, j)
    ensures Full(hhs, a, b - 1, a + i, a + j)
  {
    hide SizeBetween;
    if j + 1 < b - a { SizeInPart(hhs, a, b, CountedFrom(hhs[a..b], 0, i), j + 1); }
  }

  lemma {:induction false} TaskInPart(hhs: seq<Point>, a: nat, b: nat, t: Segment)
    requires a < b <= |hhs| && Task(hhs[a..b], 0, b - a - 1, t)
    ensures Task(hhs, a, b - 1, t)
  {
    hide Light, Full, Lists;
    var part := hhs[a..b];
    var i: nat, j: nat :| Light(part, i, j) && Full(part, 0, b - a - 1, i, j) && Spans(part, i, j, t);
    LightInPart(hhs, a, b, i, j);
    FullInPart(hhs, a, b, i, j);
    ListsInPart(hhs, a, b, i, j, t.points);
    assert Spans(hhs, a + i, a + j, t);
  }

  lemma {:induction false} ListsInPart(hhs: seq<Point>, a: nat, b: nat, i: nat, j: nat, points: seq<(nat, HashId)>)
    requires a < b <= |hhs| && Lists(hhs[a..b], i, j, points)
    ensures Lists(hhs, a + i, a + j, points)
  {
    var part := hhs[a..b];
    forall p | p in points ensures exists k :: a + i <= k <= a + j && p == (hhs[k].height, hhs[k].hash) {
      var k :| i <= k <= j && p == (part[k].height, part[k].hash);
      assert p == (hhs[a + k].height, hhs[a + k].hash);
    }
    forall k | a + i <= k <= a + j ensures (hhs[k].height, hhs[k].hash) in points {
      assert (part[k - a].height, part[k - a].hash) in points;
    }
  }

  /** Tasks for the stretch between two points of the skeleton. */
  method TasksBetween(hhs: seq<Point>, a: nat, b: nat) returns (ts: seq<Segment>)
    requires Increasing(hhs) && a < b <= |hhs|
    ensures Partition(ts, hhs[a].height, hhs[b - 1].height)
    ensures AllTasks(hhs, a, b - 1, ts)
  {
    hide Partition, Task, HasEmpty;
    ts := ConstructTasks(hhs[a..b]);
    forall t | t in ts ensures Task(hhs, a, b - 1, t) { TaskInPart(hhs, a, b, t); }
  }

  /** One point of the skeleton. */
  method PlanPoint(hhs: seq<Point>, points: map<int, nat>, ghost cont: seq<Segment>, idx: nat, ghost k: nat,
                   start0: nat, end0: nat, in0: bool, ts0: seq<Segment>)
    returns (start: nat, segmentEnd: nat, inSegment: bool, ts: seq<Segment>, ghost k': nat)
    requires Increasing(hhs) && Stretches(hhs, cont) && points == EndByStart(cont)
    requires idx < |hhs| && Planning(hhs, cont, idx, k, start0, end0, in0, ts0)
    ensures Planning(hhs, cont, idx + 1, k', start, segmentEnd, inSegment, ts)
  {
    hide Anchored, AllGapTasks, AllTasks, Planned, Partition, EndByStart, HeightAt;
    start, segmentEnd, inSegment, ts, k' := start0, end0, in0, ts0, k;
    var h := hhs[idx].height;
    if h < segmentEnd {
      assert k < |cont| ==> cont[k - 1].to + 1 < cont[k].from;
      return;
    }
    if inSegment {
      NextPoint(hhs, idx, segmentEnd);
      start := idx;
    }
    inSegment := false;
    if h !in points {
      if k < |cont| { StartAhead(hhs, cont, idx, k); }
      return;
    }
    StartIsNext(hhs, cont, idx, k);
    if idx > 0 {
      var more := TasksBetween(hhs, start, idx + 1);
      PlannedTasks(ts, more, cont[..k], hhs[0].height, hhs[start].height, h);
      assert Gap(hhs, cont, start, idx);
      GapTasksMore(hhs, cont, ts, start, idx, more);
      ts := ts + more;
    }
    PlannedStretch(ts, cont, k, hhs[0].height);
    inSegment, segmentEnd, k' := true, points[h], k + 1;
  }

  /** Tasks for everything the stretches leave open. */
  method PlanGaps(hhs: seq<Point>, points: map<int, nat>, ghost cont: seq<Segment>) returns (ts: seq<Segment>)
    requires |hhs| > 0 && Increasing(hhs) && Stretches(hhs, cont) && points == EndByStart(cont)
    ensures Planned(ts, cont, hhs[0].height, hhs[|hhs| - 1].height)
    ensures AllGapTasks(hhs, cont, ts)
  {
    hide Planning, Planned, Stretches, AllGapTasks, AllTasks, Increasing, EndByStart, Gap;
    ts := [];
    var start: nat, segmentEnd: nat, inSegment := 0, 0, false;
    ghost var k: nat := 0;
    PlanningStart(hhs, cont);
    for idx := 0 to |hhs|
      invariant Planning(hhs, cont, idx, k, start, segmentEnd, inSegment, ts)
    {
      start, segmentEnd, inSegment, ts, k := PlanPoint(hhs, points, cont, idx, k, start, segmentEnd, inSegment, ts);
    }
    PlanningDone(hhs, cont, k, start, segmentEnd, inSegment, ts);
    var more := TasksBetween(hhs, start, |hhs|);
    assert cont[..k] == cont;
    GapTasksMore(hhs, cont, ts, start, |hhs| - 1, more);
    PlannedTasks(ts, more, cont, hhs[0].height, hhs[start].height, hhs[|hhs| - 1].height);
    ts := ts + more;
  }

  lemma {:induction false} PlanningStart(hhs: seq<Point>, cont: seq<Segment>)
    requires |hhs| > 0
    ensures Planning(hhs, cont, 0, 0, 0, 0, false, [])
  {
  }

  /** At the end the plan is not inside a stretch and has passed them all: none reaches beyond the last point. */
  lemma {:induction false} PlanningDone(hhs: seq<Point>, cont: seq<Segment>, k: nat, start: nat, segmentEnd: nat,
      inSegment: bool, ts: seq<Segment>)
    requires |hhs| > 0 && Increasing(hhs) && Stretches(hhs, cont)
    requires Planning(hhs, cont, |hhs|, k, start, segmentEnd, inSegment, ts)
    ensures !inSegment && k == |cont| && start < |hhs|
    ensures hhs[0].height <= hhs[start].height <= hhs[|hhs| - 1].height
    ensures Planned(ts, cont[..k], hhs[0].height, hhs[start].height)
    ensures AllGapTasks(hhs, cont, ts) && Gap(hhs, cont, start, |hhs| - 1)
  {
    hide Planned, Anchored, AllGapTasks;
    forall j | 0 <= j < |cont|
      ensures cont[j].to <= hhs[|hhs| - 1].height && cont[j].from - 1 <= hhs[|hhs| - 1].height
    {
      AboveAll(hhs, cont[j].to);
      AboveAll(hhs, cont[j].from - 1);
    }
  }

  lemma {:induction false} AboveAll(hhs: seq<Point>, h: int)
    requires |hhs| > 0 && Increasing(hhs) && HeightAt(hhs, h)
    ensures h <= hhs[|hhs| - 1].height
  {
  }

  /** compareCache: tasks and kept segments together hold every height after the first point up to the last
      exactly once; each carries the skeleton's hashes at its ends; each task belongs to a gap between kept segments, is
      within both limits or a single step, and is cut only where it must be; what else met the stretch is deleted. */
  method CompareCache(segments: seq<Segment>, hhs: seq<Point>)
    returns (ts: seq<Segment>, kept: seq<Segment>, deleted: seq<Segment>)
    requires |hhs| > 0 && Increasing(hhs)
    requires Listed(segments)
    ensures Partition(ts + kept, hhs[0].height, hhs[|hhs| - 1].height)
    ensures forall t | t in ts + kept :: Anchored(hhs, t)
    ensures AllGapTasks(hhs, kept, ts)
    ensures (kept, deleted) == Sorted(segments, hhs)
    ensures forall s ::
              s in kept + deleted <==> s in segments && s.to > hhs[0].height && s.from <= hhs[|hhs| - 1].height
    ensures forall s | s in deleted ::
              !Anchored(hhs, s) || Blocked(segments, s, hhs[0].height, hhs[|hhs| - 1].height)
    ensures Split(kept, deleted, Select(segments, hhs[0].height, hhs[|hhs| - 1].height))
    ensures Apart(segments) ==> forall s | s in deleted :: !Anchored(hhs, s)
  {
    hide AllTasks, AllGapTasks, HasEmpty, Anchored, Partition, Planned, Stretches, Sorted, Select, Among;
    kept, deleted := ChooseSegments(segments, hhs);
    ChosenFacts(segments, hhs, kept, deleted);
    if |kept| == 0 {
      ts := ConstructTasks(hhs);
      assert ts + kept == ts;
      OneGap(hhs, kept, ts);
      return;
    }
    var cont := MergeContinuous(kept, hhs);
    var points := IndexStretches(cont);
    ts := PlanGaps(hhs, points, cont);
    GapTaskAmong(hhs, cont, kept, ts);
    PlannedPartition(ts, cont, kept, hhs[0].height, hhs[|hhs| - 1].height);
  }

  lemma {:induction false} ChosenFacts(ss: seq<Segment>, hhs: seq<Point>, kept: seq<Segment>, deleted: seq<Segment>)
    requires |hhs| > 0 && (kept, deleted) == Sorted(ss, hhs)
    requires Split(kept, deleted, Select(ss, hhs[0].height, hhs[|hhs| - 1].height))
    ensures forall s :: s in kept + deleted <==> s in ss && s.to > hhs[0].height && s.from <= hhs[|hhs| - 1].height
    ensures forall s | s in deleted :: !Anchored(hhs, s) || Blocked(ss, s, hhs[0].height, hhs[|hhs| - 1].height)
  {
    hide Sorted, Anchored, Blocked, Select;
    var lo, hi := hhs[0].height, hhs[|hhs| - 1].height;
    var all := Select(ss, lo, hi);
    forall s ensures s in kept + deleted <==> s in ss && s.to > lo && s.from <= hi {
      SelectHolds(ss, lo, hi, s);
      assert s in kept + deleted <==> s in multiset(kept) + multiset(deleted);
      assert s in all <==> s in multiset(all);
    }
    forall s | s in deleted ensures !Anchored(hhs, s) || Blocked(ss, s, lo, hi) { SortedReason(ss, hhs, s); }
  }

  lemma {:induction false} OneGap(hhs: seq<Point>, kept: seq<Segment>, ts: seq<Segment>)
    requires |hhs| > 0 && AllTasks(hhs, 0, |hhs| - 1, ts)
    ensures AllGapTasks(hhs, kept, ts)
    ensures forall t | t in ts :: Anchored(hhs, t)
  {
    hide Task, Anchored;
    assert Gap(hhs, kept, 0, |hhs| - 1);
    forall t | t in ts ensures Anchored(hhs, t) { TaskAnchored(hhs, 0, |hhs| - 1, t); }
  }

  lemma {:induction false} PlannedPartition(ts: seq<Segment>, cont: seq<Segment>, kept: seq<Segment>, lo: int, hi: int)
    requires Planned(ts, cont, lo, hi) && SameHeights(cont, kept)
    ensures Partition(ts + kept, lo, hi)
  {
    forall h: nat ensures Count(ts + kept, h) == Within(lo, h, hi) { CountConcat(ts, kept, h); }
  }
}
