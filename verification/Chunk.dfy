/** net/interface.go:144-227: assembling a synchronised stretch of the ledger block by block. */
module Chunk {
  import opened Arith
  import opened Wrappers

  type Hash = nat
  type Address = nat

  datatype HashHeight = HashHeight(hash: Hash, height: nat)

  datatype SnapshotBlock = SnapshotBlock(prevHash: Hash, hash: Hash, height: nat) {
    function Point(): HashHeight { HashHeight(hash, height) }
  }

  datatype AccountBlock = AccountBlock(address: Address, prevHash: Hash, hash: Hash, height: nat)

  datatype SnapshotChunk = SnapshotChunk(block: Option<SnapshotBlock>, accounts: seq<AccountBlock>)

  datatype Range = Range(first: HashHeight, last: HashHeight)

  const EMPTY: SnapshotChunk := SnapshotChunk(None, [])

  // ----- the snapshot chain -----

  /** b follows p. */
  predicate Follows(p: HashHeight, b: SnapshotBlock) {
    b.prevHash == p.hash && b.height == p.height + 1
  }

  /** What the block of chunk i has to follow. */
  function Before(start: HashHeight, cs: seq<SnapshotChunk>, i: nat): (p: HashHeight)
    requires i <= |cs| && (i > 0 ==> cs[i - 1].block.Some?)
  {
    if i == 0 then start else cs[i - 1].block.value.Point()
  }

  /** The first n chunks hold snapshot blocks that follow one another from start on. */
  ghost predicate Linked(start: HashHeight, cs: seq<SnapshotChunk>, n: nat) {
    && n <= |cs|
    && (forall i :: 0 <= i < n ==> cs[i].block.Some?)
    && (forall i :: 0 <= i < n ==> Follows(Before(start, cs, i), cs[i].block.value))
  }

  lemma {:induction false} LinkedHeight(start: HashHeight, cs: seq<SnapshotChunk>, n: nat)
    requires Linked(start, cs, n)
    ensures Before(start, cs, n).height == start.height + n
  {
    if n > 0 {
      LinkedHeight(start, cs, n - 1);
      assert Follows(Before(start, cs, n - 1), cs[n - 1].block.value);
    }
  }

  lemma {:induction false} LinkedSame(start: HashHeight, cs: seq<SnapshotChunk>, cs': seq<SnapshotChunk>, n: nat)
    requires Linked(start, cs, n) && n <= |cs'|
    requires forall i :: 0 <= i < n ==> cs'[i].block == cs[i].block
    ensures Linked(start, cs', n)
  {
    forall i | 0 <= i < n ensures Follows(Before(start, cs', i), cs'[i].block.value) {
      assert Before(start, cs', i) == Before(start, cs, i);
    }
  }

  lemma {:induction false} LinkedNext(start: HashHeight, cs: seq<SnapshotChunk>, n: nat)
    requires Linked(start, cs, n) && n < |cs| && cs[n].block.Some?
    requires Follows(Before(start, cs, n), cs[n].block.value)
    ensures Linked(start, cs, n + 1)
  {
  }

  // ----- the account chains -----

  function Of(a: Address, s: seq<AccountBlock>): (t: seq<AccountBlock>) {
    if s == [] then []
    else Of(a, s[..|s| - 1]) + if s[|s| - 1].address == a then [s[|s| - 1]] else []
  }

  predicate Chain(s: seq<AccountBlock>) {
    forall i :: 0 <= i < |s| - 1 ==> s[i + 1].prevHash == s[i].hash && s[i + 1].height == (s[i].height + 1) % TWO64
  }

  function RangeOf(s: seq<AccountBlock>): (r: Range)
    requires s != []
  {
    var b := s[|s| - 1];
    Range(HashHeight(s[0].prevHash, (s[0].height - 1) % TWO64), HashHeight(b.hash, b.height))
  }

  ghost predicate RangeOk(ranges: map<Address, Range>, s: seq<AccountBlock>, a: Address) {
    var t := Of(a, s);
    && Chain(t) && (a in ranges <==> t != [])
    && (t != [] ==> ranges[a] == RangeOf(t))
  }

  ghost predicate RangesOk(ranges: map<Address, Range>, s: seq<AccountBlock>) {
    forall a :: RangeOk(ranges, s, a)
  }

  lemma {:induction false} OfNext(a: Address, s: seq<AccountBlock>, b: AccountBlock)
    ensures Of(a, s + [b]) == Of(a, s) + if b.address == a then [b] else []
  {
    assert (s + [b])[..|s|] == s;
  }

  lemma {:induction false} RangeStep(ranges: map<Address, Range>, s: seq<AccountBlock>, b: AccountBlock, a: Address)
    requires RangeOk(ranges, s, a)
    requires Continues(ranges, b)
    ensures RangeOk(ranges[b.address := Extended(ranges, b)], s + [b], a)
  {
    OfNext(a, s, b);
    hide Of;
  }

  function Extended(ranges: map<Address, Range>, b: AccountBlock): (r: Range) {
    if b.address in ranges then ranges[b.address].(last := HashHeight(b.hash, b.height))
    else Range(HashHeight(b.prevHash, (b.height - 1) % TWO64), HashHeight(b.hash, b.height))
  }

  lemma {:induction false} RangesStep(ranges: map<Address, Range>, s: seq<AccountBlock>, b: AccountBlock)
    requires RangesOk(ranges, s)
    requires Continues(ranges, b)
    ensures RangesOk(ranges[b.address := Extended(ranges, b)], s + [b])
  {
    hide RangeOk;
    var ranges', s' := ranges[b.address := Extended(ranges, b)], s + [b];
    forall a ensures RangeOk(ranges', s', a) {
      RangeStep(ranges, s, b, a);
    }
  }

  // ----- everything the chunks hold -----

  function Flat(cs: seq<SnapshotChunk>): (s: seq<AccountBlock>) {
    if cs == [] then [] else Flat(cs[..|cs| - 1]) + cs[|cs| - 1].accounts
  }

  lemma {:induction false} FlatGrow(cs: seq<SnapshotChunk>)
    ensures Flat(cs + [EMPTY]) == Flat(cs)
  {
    assert (cs + [EMPTY])[..|cs|] == cs;
  }

  lemma {:induction false} FlatLast(cs: seq<SnapshotChunk>, c: SnapshotChunk)
    requires cs != []
    ensures Flat(cs[|cs| - 1 := c]) == Flat(cs[..|cs| - 1]) + c.accounts
  {
    assert cs[|cs| - 1 := c][..|cs| - 1] == cs[..|cs| - 1];
  }

  ghost function BlockHashes(cs: seq<SnapshotChunk>): set<Hash> {
    set i | 0 <= i < |cs| && cs[i].block.Some? :: cs[i].block.value.hash
  }

  ghost function AccountHashes(s: seq<AccountBlock>): set<Hash> {
    set i | 0 <= i < |s| :: s[i].hash
  }

  /** The hashes of all blocks in the chunks. */
  ghost function Held(cs: seq<SnapshotChunk>): set<Hash> {
    BlockHashes(cs) + AccountHashes(Flat(cs))
  }

  // ----- the whole assembly -----

  /** How many snapshot blocks are in. */
  function Filled(cs: seq<SnapshotChunk>): (n: nat)
    requires cs != []
  {
    if cs[|cs| - 1].block.Some? then |cs| else |cs| - 1
  }

  /** The tables of an assembly; replaced are the hashes of snapshot blocks another one took the place of. */
  datatype Tables = Tables(
    chunks: seq<SnapshotChunk>, ranges: map<Address, Range>, hashes: set<Hash>, replaced: set<Hash>)

  /** Linked snapshot blocks, an open last chunk until all are in, account chains with their ends, and the hashes of
      exactly the blocks held or replaced. */
  ghost predicate Good(start: HashHeight, capacity: nat, t: Tables) {
    && 0 < |t.chunks| <= capacity
    && Linked(start, t.chunks, Filled(t.chunks))
    && (Filled(t.chunks) == |t.chunks| ==> |t.chunks| == capacity)
    && RangesOk(t.ranges, Flat(t.chunks))
    && t.hashes == Held(t.chunks) + t.replaced
  }

  lemma {:induction false} GoodStart(start: HashHeight, capacity: nat)
    requires capacity > 0
    ensures Good(start, capacity, Tables([EMPTY], map[], {}, {}))
  {
    FlatGrow([]);
    assert [] + [EMPTY] == [EMPTY];
    assert Held([EMPTY]) == {};
  }

  /** The point a snapshot block has to follow is known, and its successor is no larger than the end. */
  lemma {:induction false} GoodPrevious(start: HashHeight, capacity: nat, t: Tables)
    requires Good(start, capacity, t)
    ensures var cs := t.chunks;
            && 0 < |cs| <= capacity && (|cs| > 1 ==> cs[|cs| - 2].block.Some?)
            && Before(start, cs, |cs| - 1).height == start.height + |cs| - 1
  {
    hide Flat, RangesOk, Held;
    LinkedHeight(start, t.chunks, |t.chunks| - 1);
  }

  function Taken(cs: seq<SnapshotChunk>, capacity: nat, b: SnapshotBlock): (r: seq<SnapshotChunk>)
    requires cs != []
  {
    var full := cs[|cs| - 1 := cs[|cs| - 1].(block := Some(b))];
    if |cs| < capacity then full + [EMPTY] else full
  }

  lemma {:induction false} FlatTaken(cs: seq<SnapshotChunk>, capacity: nat, b: SnapshotBlock)
    requires cs != []
    ensures Flat(Taken(cs, capacity, b)) == Flat(cs)
  {
    hide Flat;
    var c := cs[|cs| - 1];
    FlatLast(cs, c);
    assert cs[|cs| - 1 := c] == cs;
    FlatLast(cs, c.(block := Some(b)));
    FlatGrow(cs[|cs| - 1 := c.(block := Some(b))]);
  }

  /** The hash of the block the next one would take the place of, if any. */
  function LastHash(cs: seq<SnapshotChunk>): set<Hash>
    requires cs != []
  {
    match cs[|cs| - 1].block
    case None => {}
    case Some(b) => {b.hash}
  }

  lemma {:induction false} HashesTaken(cs: seq<SnapshotChunk>, capacity: nat, b: SnapshotBlock)
    requires cs != []
    ensures BlockHashes(Taken(cs, capacity, b)) + LastHash(cs) == BlockHashes(cs) + {b.hash}
  {
    var cs', n := Taken(cs, capacity, b), |cs| - 1;
    assert cs'[n].block == Some(b);
    forall h ensures h in BlockHashes(cs') + LastHash(cs) <==> h in BlockHashes(cs) + {b.hash} {
      if h in BlockHashes(cs') {
        var i :| 0 <= i < |cs'| && cs'[i].block.Some? && cs'[i].block.value.hash == h;
        if i < n { assert cs[i].block == cs'[i].block; }
      }
      if h in BlockHashes(cs) {
        var i :| 0 <= i < |cs| && cs[i].block.Some? && cs[i].block.value.hash == h;
        if i < n { assert cs[i].block == cs'[i].block; }
      }
    }
  }

  /** Taking the following snapshot block. */
  function WithSnapshot(t: Tables, capacity: nat, b: SnapshotBlock): (t': Tables)
    requires t.chunks != []
  {
    Tables(Taken(t.chunks, capacity, b), t.ranges, t.hashes + {b.hash}, t.replaced + LastHash(t.chunks))
  }

  lemma {:induction false} GoodSnapshot(start: HashHeight, capacity: nat, t: Tables, b: SnapshotBlock)
    requires Good(start, capacity, t)
    requires |t.chunks| > 1 ==> t.chunks[|t.chunks| - 2].block.Some?
    requires Follows(Before(start, t.chunks, |t.chunks| - 1), b)
    ensures Good(start, capacity, WithSnapshot(t, capacity, b))
    ensures Flat(WithSnapshot(t, capacity, b).chunks) == Flat(t.chunks)
  {
    hide Flat, RangesOk, Linked, BlockHashes, AccountHashes;
    var cs, n := t.chunks, |t.chunks|;
    var cs' := Taken(cs, capacity, b);
    FlatTaken(cs, capacity, b);
    HashesTaken(cs, capacity, b);
    LinkedShorter(start, cs, Filled(cs), n - 1);
    LinkedSame(start, cs, cs', n - 1);
    LinkedNext(start, cs', n - 1);
  }

  lemma {:induction false} LinkedShorter(start: HashHeight, cs: seq<SnapshotChunk>, n: nat, k: nat)
    requires Linked(start, cs, n) && k <= n
    ensures Linked(start, cs, k)
  {
  }

  function Continues(ranges: map<Address, Range>, b: AccountBlock): bool {
    b.address in ranges ==>
      var p := ranges[b.address].last;
      b.prevHash == p.hash && b.height == (p.height + 1) % TWO64
  }

  /** The range table tells the last block of each account. */
  lemma {:induction false} ContinuesOwn(start: HashHeight, capacity: nat, t: Tables, b: AccountBlock)
    requires Good(start, capacity, t)
    ensures var own := Of(b.address, Flat(t.chunks));
            Continues(t.ranges, b) <==>
            own == [] || (b.prevHash == own[|own| - 1].hash && b.height == (own[|own| - 1].height + 1) % TWO64)
  {
    hide Flat, Linked, Held, Of, Chain;
    assert RangeOk(t.ranges, Flat(t.chunks), b.address);
  }

  function Appended(cs: seq<SnapshotChunk>, b: AccountBlock): (r: seq<SnapshotChunk>)
    requires cs != []
  {
    cs[|cs| - 1 := cs[|cs| - 1].(accounts := cs[|cs| - 1].accounts + [b])]
  }

  lemma {:induction false} FlatAppended(cs: seq<SnapshotChunk>, b: AccountBlock)
    requires cs != []
    ensures Flat(Appended(cs, b)) == Flat(cs) + [b]
  {
    hide Flat;
    var c := cs[|cs| - 1];
    FlatLast(cs, c);
    assert cs[|cs| - 1 := c] == cs;
    FlatLast(cs, c.(accounts := c.accounts + [b]));
  }

  lemma {:induction false} HashesAppended(cs: seq<SnapshotChunk>, b: AccountBlock)
    requires cs != []
    ensures Held(Appended(cs, b)) == Held(cs) + {b.hash}
  {
    FlatAppended(cs, b);
    hide Flat;
    var cs', s := Appended(cs, b), Flat(cs);
    assert BlockHashes(cs') == BlockHashes(cs) by {
      assert forall i :: 0 <= i < |cs| ==> cs'[i].block == cs[i].block;
    }
    assert AccountHashes(s + [b]) == AccountHashes(s) + {b.hash} by {
      assert (s + [b])[|s|] == b;
      forall i | 0 <= i < |s| ensures s[i].hash in AccountHashes(s + [b]) { assert (s + [b])[i] == s[i]; }
    }
  }

  /** Taking a continuing account block. */
  function WithAccount(t: Tables, b: AccountBlock): (t': Tables)
    requires t.chunks != []
  {
    Tables(Appended(t.chunks, b), t.ranges[b.address := Extended(t.ranges, b)], t.hashes + {b.hash}, t.replaced)
  }

  lemma {:induction false} GoodAccount(start: HashHeight, capacity: nat, t: Tables, b: AccountBlock)
    requires Good(start, capacity, t) && Continues(t.ranges, b)
    ensures Good(start, capacity, WithAccount(t, b))
    ensures Flat(WithAccount(t, b).chunks) == Flat(t.chunks) + [b]
  {
    hide Flat, RangesOk, Linked, Held;
    FlatAppended(t.chunks, b);
    HashesAppended(t.chunks, b);
    RangesStep(t.ranges, Flat(t.chunks), b);
    LinkedSame(start, t.chunks, Appended(t.chunks, b), Filled(t.chunks));
  }

  /** All blocks are in exactly when the last chunk has its block, and then its height is the end's. */
  lemma {:induction false} GoodEnd(start: HashHeight, capacity: nat, t: Tables)
    requires Good(start, capacity, t)
    ensures var cs := t.chunks;
            && 0 < |cs| && (cs[|cs| - 1].block.Some? <==> Filled(cs) == capacity)
            && (Filled(cs) == capacity ==> |cs| == capacity && Linked(start, cs, capacity))
  {
    hide Flat, RangesOk, Held;
  }

  /** Taking b forgets no hash: it takes no other block's place, or one with its own hash or that of another block. */
  ghost predicate KeepsHashes(cs: seq<SnapshotChunk>, b: SnapshotBlock)
    requires cs != []
  {
    var n := |cs| - 1;
    match cs[n].block
    case None => true
    case Some(last) => last.hash == b.hash || last.hash in BlockHashes(cs[..n]) + AccountHashes(Flat(cs))
  }

  lemma {:induction false} BlockHashesTaken(cs: seq<SnapshotChunk>, capacity: nat, b: SnapshotBlock)
    requires cs != []
    ensures BlockHashes(Taken(cs, capacity, b)) == BlockHashes(cs[..|cs| - 1]) + {b.hash}
    ensures BlockHashes(cs) == BlockHashes(cs[..|cs| - 1]) + LastHash(cs)
  {
    var n := |cs| - 1;
    var full := cs[n := cs[n].(block := Some(b))];
    BlockHashesLast(cs);
    BlockHashesLast(full);
    assert full[..n] == cs[..n];
    if |cs| < capacity {
      BlockHashesLast(full + [EMPTY]);
      assert (full + [EMPTY])[..|full|] == full;
    }
  }

  lemma {:induction false} BlockHashesLast(cs: seq<SnapshotChunk>)
    requires cs != []
    ensures BlockHashes(cs) == BlockHashes(cs[..|cs| - 1]) + LastHash(cs)
  {
    var n := |cs| - 1;
    forall h ensures h in BlockHashes(cs) <==> h in BlockHashes(cs[..n]) + LastHash(cs) {
      if h in BlockHashes(cs) {
        var i :| 0 <= i < |cs| && cs[i].block.Some? && cs[i].block.value.hash == h;
        if i < n { assert cs[..n][i].block == cs[i].block; }
      }
      if h in BlockHashes(cs[..n]) {
        var i :| 0 <= i < n && cs[..n][i].block.Some? && cs[..n][i].block.value.hash == h;
        assert cs[i].block == cs[..n][i].block;
      }
    }
  }

  /** While the hash map is exactly the held hashes, taking a snapshot block keeps it so if and only if no hash is
      forgotten; taking an account block always does. */
  lemma {:induction false} ExactHashes(t: Tables, capacity: nat, b: SnapshotBlock, a: AccountBlock)
    requires t.chunks != [] && t.hashes == Held(t.chunks)
    ensures var t' := WithSnapshot(t, capacity, b);
            t'.hashes == Held(t'.chunks) <==> KeepsHashes(t.chunks, b)
    ensures var t' := WithAccount(t, a);
            t'.hashes == Held(t'.chunks)
  {
    hide Flat, BlockHashes, AccountHashes;
    FlatTaken(t.chunks, capacity, b);
    BlockHashesTaken(t.chunks, capacity, b);
    HashesAppended(t.chunks, a);
  }

  /** Two blocks that both follow the start of a stretch of one: the second replaces the first, whose hash stays. */
  lemma {:induction false} ReplacedHashStays()
    ensures var t := Tables([EMPTY], map[], {}, {});
            var t' := WithSnapshot(WithSnapshot(t, 1, SnapshotBlock(0, 1, 1)), 1, SnapshotBlock(0, 2, 1));
            && Good(HashHeight(0, 0), 1, t')
            && t'.chunks == [SnapshotChunk(Some(SnapshotBlock(0, 2, 1)), [])]
            && t'.hashes == {1, 2} && 1 !in Held(t'.chunks)
  {
    var start, t := HashHeight(0, 0), Tables([EMPTY], map[], {}, {});
    var t1 := WithSnapshot(t, 1, SnapshotBlock(0, 1, 1));
    GoodStart(start, 1);
    GoodSnapshot(start, 1, t, SnapshotBlock(0, 1, 1));
    GoodSnapshot(start, 1, t1, SnapshotBlock(0, 2, 1));
    FlatGrow([]);
    assert [] + [EMPTY] == [EMPTY];
  }

  class Assembly {
    var chunks: seq<SnapshotChunk>
    const capacity: nat
    const start: HashHeight
    const end: HashHeight
    var accountRange: map<Address, Range>
    var hashMap: set<Hash>
    ghost var replaced: set<Hash>

    ghost function View(): Tables
      reads this
    {
      Tables(chunks, accountRange, hashMap, replaced)
    }

    ghost predicate Valid()
      reads this
    {
      && start.height < end.height < TWO64 && capacity == end.height - start.height
      && chunks != []
      && Good(start, capacity, View())
    }

    constructor (s: HashHeight, e: HashHeight)
      requires s.height < e.height < TWO64
      ensures Valid() && start == s && end == e && View() == Tables([EMPTY], map[], {}, {})
    {
      hide Good;
      start, end, capacity := s, e, e.height - s.height;
      chunks, accountRange, hashMap, replaced := [EMPTY], map[], {}, {};
      new;
      GoodStart(start, capacity);
    }

    /** What the next snapshot block has to follow. */
    ghost function Expected(): (p: HashHeight)
      requires Valid()
      reads this
    {
      GoodPrevious(start, capacity, View());
      Before(start, chunks, |chunks| - 1)
    }

    /** Takes the block that follows the last complete chunk; refuses any other and changes nothing. */
    method AddSnapshotBlock(b: SnapshotBlock) returns (ok: bool)
      requires Valid()
      modifies this
      ensures Valid()
      ensures ok <==> b.prevHash == old(Expected()).hash && b.height == old(Expected()).height + 1
      ensures View() == if ok then WithSnapshot(old(View()), capacity, b) else old(View())
      ensures ok ==>
                var n := |old(chunks)| - 1;
                && chunks[..n] == old(chunks)[..n] && n < |chunks|
                && chunks[n] == SnapshotChunk(Some(b), old(chunks)[n].accounts)
                && chunks[n + 1..] == if n + 1 < capacity then [SnapshotChunk(None, [])] else []
      ensures Flat(chunks) == old(Flat(chunks))
      ensures ok && old(hashMap) == Held(old(chunks)) ==> (hashMap == Held(chunks) <==> KeepsHashes(old(chunks), b))
    {
      hide Good, Flat, Held, KeepsHashes;
      GoodPrevious(start, capacity, View());
      var n := |chunks|;
      var prev := start;
      if n >= 2 { prev := chunks[n - 2].block.value.Point(); }
      if b.prevHash != prev.hash || b.height != (prev.height + 1) % TWO64 { return false; }
      if b.height > end.height { return false; }
      GoodSnapshot(start, capacity, View(), b);
      if hashMap == Held(chunks) { ExactHashes(View(), capacity, b, AccountBlock(0, 0, 0, 0)); }
      replaced := replaced + LastHash(chunks);
      chunks := chunks[n - 1 := chunks[n - 1].(block := Some(b))];
      if n < capacity { chunks := chunks + [EMPTY]; }
      hashMap := hashMap + {b.hash};
      return true;
    }

    /** Takes an account block that starts its account's chain or continues it, into the last chunk. */
    method AddAccountBlock(b: AccountBlock) returns (ok: bool)
      requires Valid()
      modifies this
      ensures Valid()
      ensures var own := Of(b.address, old(Flat(chunks)));
              ok <==> own == [] ||
                      (b.prevHash == own[|own| - 1].hash && b.height == (own[|own| - 1].height + 1) % TWO64)
      ensures View() == if ok then WithAccount(old(View()), b) else old(View())
      ensures ok ==>
                var n := |old(chunks)| - 1;
                && |chunks| == n + 1 && chunks[..n] == old(chunks)[..n]
                && chunks[n] == SnapshotChunk(old(chunks)[n].block, old(chunks)[n].accounts + [b])
      ensures Flat(chunks) == old(Flat(chunks)) + if ok then [b] else []
      ensures old(hashMap) == Held(old(chunks)) ==> hashMap == Held(chunks)
    {
      hide Good, Flat, Held, Of;
      ContinuesOwn(start, capacity, View(), b);
      var range: Range;
      if b.address in accountRange {
        range := accountRange[b.address];
        if range.last.hash != b.prevHash || (range.last.height + 1) % TWO64 != b.height { return false; }
        range := range.(last := HashHeight(b.hash, b.height));
      } else {
        range := Range(HashHeight(b.prevHash, (b.height - 1) % TWO64), HashHeight(b.hash, b.height));
      }
      GoodAccount(start, capacity, View(), b);
      HashesAppended(chunks, b);
      accountRange := accountRange[b.address := range];
      var last := chunks[|chunks| - 1];
      chunks := chunks[|chunks| - 1 := last.(accounts := last.accounts + [b])];
      hashMap := hashMap + {b.hash};
      return true;
    }

    /** Succeeds exactly when all snapshot blocks from start to the announced end are in. */
    method Done() returns (ok: bool)
      requires Valid()
      ensures ok <==> match chunks[|chunks| - 1].block { case None => false case Some(b) => b.Point() == end }
      ensures ok ==> |chunks| == end.height - start.height && Linked(start, chunks, |chunks|)
      ensures ok ==> RangesOk(accountRange, Flat(chunks)) && hashMap == Held(chunks) + replaced
    {
      hide Flat, RangesOk, Held, Linked;
      GoodEnd(start, capacity, View());
      var last := chunks[|chunks| - 1].block;
      if last.None? { return false; }
      return last.value.hash == end.hash && last.value.height == end.height;
    }
  }
}
