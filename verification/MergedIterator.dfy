/** common/db/merged_iterator.go: several sorted iterators walked as one, the first winning on equal keys. */
module MergedIterator {
  import opened Arith
  import opened ByteOrder
  import opened Wrappers

  type Bytes = seq<Byte>

  datatype Entry = Entry(key: Key, value: Bytes)

  datatype Status = Head | Middle | Tail

  ghost predicate Sorted(entries: seq<Entry>) {
    forall i, j | 0 <= i < j < |entries| :: Less(entries[i].key, entries[j].key)
  }

  ghost predicate KeysNonEmpty(entries: seq<Entry>) {
    forall i | 0 <= i < |entries| :: |entries[i].key| > 0
  }

  /** One underlying iterator: a sorted listing and a position in it, -1 before the first entry. */
  datatype Cursor = Cursor(entries: seq<Entry>, pos: int) {
    predicate OnEntry() { 0 <= pos < |entries| }

    function Key(): Key
      requires OnEntry()
    {
      entries[pos].key
    }

    /** Next or Prev; false when it leaves the listing. */
    function Advance(toNext: bool): Cursor {
      if toNext then (if pos < |entries| then this.(pos := pos + 1) else this)
      else (if pos >= 0 then this.(pos := pos - 1) else this)
    }

    function Last(): Cursor { this.(pos := |entries| - 1) }

    /** j lies ahead of the position in the direction of travel. */
    predicate Ahead(toNext: bool, j: int) { 0 <= j < |entries| && (if toNext then j > pos else j < pos) }
  }

  /** First position at or after key. */
  method Seek(c: Cursor, key: Key) returns (c': Cursor)
    requires Sorted(c.entries)
    ensures c'.entries == c.entries && 0 <= c'.pos <= |c.entries|
    ensures forall j | 0 <= j < |c.entries| :: Less(c.entries[j].key, key) <==> j < c'.pos
  {
    var p := 0;
    while p < |c.entries| && Less(c.entries[p].key, key)
      invariant 0 <= p <= |c.entries|
      invariant forall j | 0 <= j < p :: Less(c.entries[j].key, key)
    {
      p := p + 1;
    }
    forall j | p < j < |c.entries| ensures !Less(c.entries[j].key, key) {
      if Less(c.entries[j].key, key) { LessTransitive(c.entries[p].key, c.entries[j].key, key); }
    }
    c' := c.(pos := p);
  }

  // ----- what one source still has to give -----

  /** A traversal: direction, the keys it is to yield, and the one yielded last. */
  datatype Walk = Walk(toNext: bool, universe: set<Key>, last: Option<Key>) {
    ghost predicate After(k: Key) { last.None? || Before(toNext, last.value, k) }

    /** Not to be yielded, or yielded already. */
    ghost predicate Consumed(k: Key) { k !in universe || !After(k) }
  }

  /** Entry j has not been passed: it is held in key, or lies ahead. */
  ghost predicate Pending(c: Cursor, key: Option<Key>, toNext: bool, j: int) {
    c.Ahead(toNext, j) || (key.Some? && j == c.pos)
  }

  ghost predicate SlotOk(w: Walk, isDelete: Key -> bool, c: Cursor, key: Option<Key>, ended: bool) {
    && Sorted(c.entries) && KeysNonEmpty(c.entries) && -1 <= c.pos <= |c.entries|
    && (key.Some? ==> c.OnEntry() && key.value == c.Key() && (w.After(key.value) || key == w.last))
    && (forall j | 0 <= j < |c.entries| :: Pending(c, key, w.toNext, j) || w.Consumed(c.entries[j].key))
    && (forall j | c.Ahead(w.toNext, j) :: w.After(c.entries[j].key))
    && (forall j | Pending(c, key, w.toNext, j) :: !isDelete(c.entries[j].key) ==> c.entries[j].key in w.universe)
    && (forall k | k in w.universe :: !isDelete(k))
    && (ended ==> key.None? && forall j | 0 <= j < |c.entries| :: !c.Ahead(w.toNext, j))
  }

  /** The source is at its next key to yield, or has none left. */
  ghost predicate Ready(w: Walk, c: Cursor, key: Option<Key>, ended: bool) {
    && (key.None? ==> ended)
    && (key.Some? ==>
          && key.value in w.universe && w.After(key.value)
          && forall j | 0 <= j < |c.entries| && !w.Consumed(c.entries[j].key) ::
               c.entries[j].key == key.value || Before(w.toNext, key.value, c.entries[j].key))
  }

  lemma {:induction false} SortedBefore(c: Cursor, toNext: bool, j: int)
    requires Sorted(c.entries) && c.OnEntry() && c.Ahead(toNext, j)
    ensures Before(toNext, c.Key(), c.entries[j].key)
  {
  }

  /** Dropping a held key that is deleted or was just yielded loses nothing. */
  lemma {:induction false} DropKey(w: Walk, isDelete: Key -> bool, c: Cursor, key: Option<Key>)
    requires SlotOk(w, isDelete, c, key, false) && key.Some?
    requires isDelete(key.value) || key == w.last
    ensures SlotOk(w, isDelete, c, None, false)
  {
    BeforeOrder(w.toNext);
  }

  /** Moving on takes the next entry in hand. */
  lemma {:induction false} TakeNext(w: Walk, isDelete: Key -> bool, c: Cursor)
    requires SlotOk(w, isDelete, c, None, false)
    ensures var c' := c.Advance(w.toNext);
            if c'.OnEntry() then SlotOk(w, isDelete, c', Some(c'.Key()), false)
            else SlotOk(w, isDelete, c', None, true)
  {
    var c' := c.Advance(w.toNext);
    if c'.OnEntry() {
      assert c.Ahead(w.toNext, c'.pos);
      forall j | 0 <= j < |c.entries| && c.Ahead(w.toNext, j) ensures Pending(c', Some(c'.Key()), w.toNext, j) {
      }
    } else {
      forall j | 0 <= j < |c.entries| ensures !c.Ahead(w.toNext, j) {
      }
    }
  }

  lemma {:induction false} HeldIsReady(w: Walk, isDelete: Key -> bool, c: Cursor, key: Option<Key>)
    requires SlotOk(w, isDelete, c, key, false) && key.Some? && !isDelete(key.value) && key != w.last
    ensures Ready(w, c, key, false)
  {
    assert Pending(c, key, w.toNext, c.pos);
    forall j | 0 <= j < |c.entries| && !w.Consumed(c.entries[j].key)
      ensures c.entries[j].key == key.value || Before(w.toNext, key.value, c.entries[j].key)
    {
      if j != c.pos { SortedBefore(c, w.toNext, j); }
    }
  }

  /** The inner loop of step: past deleted keys and the one just yielded. */
  method Refill(ghost w: Walk, isDelete: Key -> bool, c0: Cursor, key0: Option<Key>, prevKey: Option<Key>, toNext: bool)
    returns (c: Cursor, key: Option<Key>, ended: bool)
    requires w.toNext == toNext && w.last == prevKey && SlotOk(w, isDelete, c0, key0, false)
    ensures SlotOk(w, isDelete, c, key, ended) && Ready(w, c, key, ended) && c.entries == c0.entries
  {
    c, key, ended := c0, key0, false;
    assert -1 <= c.pos <= |c.entries|;
    hide SlotOk, Ready, Before;
    while true
      invariant SlotOk(w, isDelete, c, key, false) && c.entries == c0.entries
      invariant -1 <= c.pos <= |c.entries|
      decreases if toNext then |c.entries| - c.pos else c.pos + 1, key.Some?
    {
      if key.None? {
        TakeNext(w, isDelete, c);
        c := c.Advance(toNext);
        if !c.OnEntry() {
          EndedIsReady(w, c);
          return c, None, true;
        }
        key := Some(c.Key());
      }
      if isDelete(key.value) || key == prevKey {
        DropKey(w, isDelete, c, key);
        key := None;
        continue;
      }
      HeldIsReady(w, isDelete, c, key);
      return;
    }
  }

  lemma {:induction false} EndedIsReady(w: Walk, c: Cursor)
    ensures Ready(w, c, None, true)
  {
  }

  lemma {:induction false} EndedSlotIsReady(w: Walk, isDelete: Key -> bool, c: Cursor, key: Option<Key>)
    requires SlotOk(w, isDelete, c, key, true)
    ensures key.None? && Ready(w, c, key, true)
  {
  }

  // ----- the merged iterator -----

  ghost predicate InSource(entries: seq<Entry>, k: Key) {
    exists j :: 0 <= j < |entries| && entries[j].key == k
  }

  /** No source before index i has the key. */
  ghost predicate FirstHolder(sources: seq<seq<Entry>>, i: int, k: Key) {
    0 <= i < |sources| && InSource(sources[i], k) && forall j | 0 <= j < i :: !InSource(sources[j], k)
  }

  predicate IsEnded(toNext: bool, status: Status) {
    if toNext then status == Tail else status == Head
  }

  ghost predicate SlotsOk(w: Walk, isDelete: Key -> bool, cursors: seq<Cursor>, keys: seq<Option<Key>>,
                          status: seq<Status>)
  {
    && |keys| == |cursors| == |status|
    && forall i | 0 <= i < |cursors| :: SlotOk(w, isDelete, cursors[i], keys[i], IsEnded(w.toNext, status[i]))
  }

  ghost predicate OkBelow(w: Walk, isDelete: Key -> bool, cursors: seq<Cursor>, keys: seq<Option<Key>>,
                          status: seq<Status>, i: int)
  {
    && |keys| == |cursors| == |status|
    && forall j | 0 <= j < i <= |cursors| :: SlotOk(w, isDelete, cursors[j], keys[j], IsEnded(w.toNext, status[j]))
  }

  lemma {:induction false} StoreSlot(w: Walk, isDelete: Key -> bool, cursors: seq<Cursor>,
      keys: seq<Option<Key>>, status: seq<Status>, i: int, c: Cursor, key: Option<Key>, st: Status)
    requires 0 <= i < |cursors|
    requires OkBelow(w, isDelete, cursors, keys, status, i) && ReadyBelow(w, cursors, keys, status, i)
    requires SlotOk(w, isDelete, c, key, IsEnded(w.toNext, st)) && Ready(w, c, key, IsEnded(w.toNext, st))
    ensures OkBelow(w, isDelete, cursors[i := c], keys[i := key], status[i := st], i + 1)
    ensures ReadyBelow(w, cursors[i := c], keys[i := key], status[i := st], i + 1)
  {
    hide SlotOk, Ready;
  }

  /** Sources below i are at their next key. */
  ghost predicate ReadyBelow(w: Walk, cursors: seq<Cursor>, keys: seq<Option<Key>>, status: seq<Status>, i: int) {
    && |keys| == |cursors| == |status|
    && forall j | 0 <= j < i <= |cursors| :: Ready(w, cursors[j], keys[j], IsEnded(w.toNext, status[j]))
  }

  lemma {:induction false} SlotAt(w: Walk, isDelete: Key -> bool, cursors: seq<Cursor>,
      keys: seq<Option<Key>>, status: seq<Status>, i: int)
    requires SlotsOk(w, isDelete, cursors, keys, status) && 0 <= i < |cursors|
    ensures SlotOk(w, isDelete, cursors[i], keys[i], IsEnded(w.toNext, status[i]))
  {
    hide SlotOk;
  }

  /** A source brought to its next key is ready like those before it. */
  lemma {:induction false} VisitSlot(w: Walk, isDelete: Key -> bool, cursors: seq<Cursor>,
      keys: seq<Option<Key>>, status: seq<Status>, i: int, c: Cursor, key: Option<Key>, st: Status)
    requires SlotsOk(w, isDelete, cursors, keys, status) && 0 <= i < |cursors|
    requires ReadyBelow(w, cursors, keys, status, i)
    requires SlotOk(w, isDelete, c, key, IsEnded(w.toNext, st)) && Ready(w, c, key, IsEnded(w.toNext, st))
    ensures SlotsOk(w, isDelete, cursors[i := c], keys[i := key], status[i := st])
    ensures ReadyBelow(w, cursors[i := c], keys[i := key], status[i := st], i + 1)
  {
    hide SlotOk, Ready, IsEnded;
  }

  /** fit is the foremost key among the sources below i, taken from the first that has it. */
  ghost predicate Fits(toNext: bool, keys: seq<Option<Key>>, i: int, fit: int) {
    && -1 <= fit < i <= |keys|
    && (fit < 0 ==> forall j | 0 <= j < i :: keys[j].None?)
    && (fit >= 0 ==>
          && keys[fit].Some?
          && (forall j | 0 <= j < fit && keys[j].Some? :: Before(toNext, keys[fit].value, keys[j].value))
          && (forall j | 0 <= j < i && keys[j].Some? ::
                keys[fit] == keys[j] || Before(toNext, keys[fit].value, keys[j].value)))
  }

  lemma {:induction false} FitAt(toNext: bool, keys: seq<Option<Key>>, i: int, fit: int)
    requires Fits(toNext, keys, i, fit)
    ensures -1 <= fit < i <= |keys| && (fit >= 0 ==> keys[fit].Some?)
  {
  }

  lemma {:induction false} FitsStep(toNext: bool, keys: seq<Option<Key>>, keys': seq<Option<Key>>, i: int, fit: int)
    requires 0 <= i < |keys| == |keys'| && Fits(toNext, keys, i, fit) && keys' == keys[i := keys'[i]]
    ensures var better := keys'[i].Some? && (fit < 0 || Before(toNext, keys'[i].value, keys[fit].value));
            Fits(toNext, keys', i + 1, if better then i else fit)
  {
    BeforeOrder(toNext);
  }

  /** Yielding the foremost key moves every source's account forward. */
  lemma {:induction false} YieldSlot(w: Walk, isDelete: Key -> bool, c: Cursor, key: Option<Key>, ended: bool, k: Key)
    requires SlotOk(w, isDelete, c, key, ended) && Ready(w, c, key, ended) && w.After(k)
    requires key.Some? ==> key.value == k || Before(w.toNext, k, key.value)
    ensures SlotOk(w.(last := Some(k)), isDelete, c, key, ended)
  {
    BeforeOrder(w.toNext);
    var w' := w.(last := Some(k));
    forall j | 0 <= j < |c.entries| && w.Consumed(c.entries[j].key) ensures w'.Consumed(c.entries[j].key) {
    }
    forall j | c.Ahead(w.toNext, j) ensures w'.After(c.entries[j].key) {
      if key.Some? { SortedBefore(c, w.toNext, j); }
    }
  }

  /** The next keys of ready sources account for every key still to be yielded. */
  lemma {:induction false} FitIsForemost(w: Walk, isDelete: Key -> bool, cursors: seq<Cursor>,
      keys: seq<Option<Key>>, status: seq<Status>, fit: int, i: int, j: int)
    requires SlotsOk(w, isDelete, cursors, keys, status) && ReadyBelow(w, cursors, keys, status, |cursors|)
    requires Fits(w.toNext, keys, |cursors|, fit)
    requires 0 <= i < |cursors| && 0 <= j < |cursors[i].entries| && !w.Consumed(cursors[i].entries[j].key)
    ensures fit >= 0
    ensures var k := keys[fit].value;
            && (cursors[i].entries[j].key == k || Before(w.toNext, k, cursors[i].entries[j].key))
            && (cursors[i].entries[j].key == k ==> fit <= i)
  {
    BeforeOrder(w.toNext);
    var k := cursors[i].entries[j].key;
    assert SlotOk(w, isDelete, cursors[i], keys[i], IsEnded(w.toNext, status[i]));
    assert Ready(w, cursors[i], keys[i], IsEnded(w.toNext, status[i]));
    assert keys[i].Some?;
  }

  lemma {:induction false} FitIsNew(w: Walk, isDelete: Key -> bool, cursors: seq<Cursor>,
      keys: seq<Option<Key>>, status: seq<Status>, fit: int)
    requires SlotsOk(w, isDelete, cursors, keys, status) && ReadyBelow(w, cursors, keys, status, |cursors|)
    requires Fits(w.toNext, keys, |cursors|, fit) && fit >= 0
    ensures var k := keys[fit].value;
            && k in w.universe && w.After(k)
            && cursors[fit].OnEntry() && cursors[fit].Key() == k
            && SlotsOk(w.(last := Some(k)), isDelete, cursors, keys, status)
  {
    var k := keys[fit].value;
    assert SlotOk(w, isDelete, cursors[fit], keys[fit], IsEnded(w.toNext, status[fit]));
    assert Ready(w, cursors[fit], keys[fit], IsEnded(w.toNext, status[fit]));
    forall i | 0 <= i < |cursors|
      ensures SlotOk(w.(last := Some(k)), isDelete, cursors[i], keys[i], IsEnded(w.toNext, status[i]))
    {
      YieldSlot(w, isDelete, cursors[i], keys[i], IsEnded(w.toNext, status[i]), k);
    }
  }

  /** Keys a full traversal yields. */
  ghost function AllKeys(sources: seq<seq<Entry>>, isDelete: Key -> bool): set<Key> {
    set i, j | 0 <= i < |sources| && 0 <= j < |sources[i]| && !isDelete(sources[i][j].key) :: sources[i][j].key
  }

  ghost predicate SourcesOk(sources: seq<seq<Entry>>) {
    |sources| > 0 && forall i | 0 <= i < |sources| :: Sorted(sources[i]) && KeysNonEmpty(sources[i])
  }

  class Merged {
    const isDelete: Key -> bool
    const sources: seq<seq<Entry>>
    var cursors: seq<Cursor>
    var iterStatus: seq<Status>
    var index: int
    var keys: seq<Option<Key>>
    var prevKey: Option<Key>
    var directionToNext: bool
    ghost var walk: Walk

    /** Everything but the traversal in progress. */
    ghost predicate Shape()
      reads this
    {
      && SourcesOk(sources) && |cursors| == |keys| == |iterStatus| == |sources|
      && -1 <= index < |sources|
      && forall i | 0 <= i < |sources| :: cursors[i].entries == sources[i]
    }

    ghost predicate Valid()
      reads this
    {
      && Shape()
      && directionToNext == walk.toNext
      && SlotsOk(walk, isDelete, cursors, keys, iterStatus)
      && (prevKey == walk.last || forall i | 0 <= i < |sources| :: IsEnded(walk.toNext, iterStatus[i]))
      && (index >= 0 && keys[index].Some? ==> keys[index] == walk.last)
    }

    /** A fresh iterator, to be walked forward. */
    constructor (sources: seq<seq<Entry>>, isDelete: Key -> bool)
      requires SourcesOk(sources)
      ensures Valid() && this.sources == sources && this.isDelete == isDelete
      ensures walk == Walk(true, AllKeys(sources, isDelete), None) && directionToNext
    {
      this.isDelete, this.sources := isDelete, sources;
      cursors := seq(|sources|, i requires 0 <= i < |sources| => Cursor(sources[i], -1));
      iterStatus := seq(|sources|, i => Head);
      keys := seq(|sources|, i => None);
      index, prevKey, directionToNext := 0, None, true;
      walk := Walk(true, AllKeys(sources, isDelete), None);
    }

    /** Halfway through step: sources below i visited, the best of them in fit. */
    ghost predicate Visiting(w: Walk, i: int, fit: int)
      reads this
    {
      && Shape() && walk == w && directionToNext == w.toNext && index == -1
      && SlotsOk(w, isDelete, cursors, keys, iterStatus)
      && (prevKey == w.last || forall j | 0 <= j < |sources| :: IsEnded(w.toNext, iterStatus[j]))
      && ReadyBelow(w, cursors, keys, iterStatus, i)
      && Fits(w.toNext, keys, i, fit)
    }

    method VisitSource(ghost w: Walk, toNext: bool, i: int, fit: int) returns (fit': int)
      requires Visiting(w, i, fit) && w.toNext == toNext && 0 <= i < |sources|
      modifies this
      ensures Visiting(w, i + 1, fit')
    {
      hide SlotOk, Ready, Before, SlotsOk, ReadyBelow, Fits, SourcesOk;
      FitAt(toNext, keys, i, fit);
      fit' := fit;
      SlotAt(w, isDelete, cursors, keys, iterStatus, i);
      if IsEnded(toNext, iterStatus[i]) {
        EndedSlotIsReady(w, isDelete, cursors[i], keys[i]);
        VisitSlot(w, isDelete, cursors, keys, iterStatus, i, cursors[i], keys[i], iterStatus[i]);
        FitsStep(toNext, keys, keys, i, fit);
        assert cursors[i := cursors[i]] == cursors && keys[i := keys[i]] == keys;
        assert iterStatus[i := iterStatus[i]] == iterStatus;
        return;
      }
      var c, key, ended := Refill(w, isDelete, cursors[i], keys[i], prevKey, toNext);
      var st := if !ended then iterStatus[i] else if toNext then Tail else Head;
      VisitSlot(w, isDelete, cursors, keys, iterStatus, i, c, key, st);
      FitsStep(toNext, keys, keys[i := key], i, fit);
      cursors, keys, iterStatus := cursors[i := c], keys[i := key], iterStatus[i := st];
      if key.Some? && (fit < 0 || Before(toNext, key.value, keys[fit].value)) {
        fit' := i;
      }
    }

    /** Lets go of the key yielded last. */
    method Release()
      requires Valid()
      modifies this
      ensures Visiting(old(walk), 0, -1)
    {
      if index >= 0 {
        assert SlotOk(walk, isDelete, cursors[index], keys[index], IsEnded(walk.toNext, iterStatus[index]));
        if keys[index].Some? { DropKey(walk, isDelete, cursors[index], keys[index]); }
        hide SlotOk;
        keys := keys[index := None];
        index := -1;
      }
    }

    /** Makes the best of the visited sources the current one. */
    method Settle(ghost w: Walk, fit: int) returns (found: bool)
      requires Visiting(w, |sources|, fit)
      modifies this
      ensures Valid() && walk == w.(last := walk.last)
      ensures found ==> Yielded(w)
      ensures !found ==> walk == w && Exhausted()
    {
      assert -1 <= fit < |cursors| && (fit >= 0 ==> keys[fit].Some?);
      hide SlotOk, Ready, Before, Fits;
      forall i, j | 0 <= i < |sources| && 0 <= j < |sources[i]| && !w.Consumed(sources[i][j].key)
        ensures fit >= 0
        ensures sources[i][j].key == keys[fit].value || Before(w.toNext, keys[fit].value, sources[i][j].key)
        ensures sources[i][j].key == keys[fit].value ==> fit <= i
      {
        FitIsForemost(w, isDelete, cursors, keys, iterStatus, fit, i, j);
      }
      if fit < 0 {
        prevKey := None;
        return false;
      }
      FitIsNew(w, isDelete, cursors, keys, iterStatus, fit);
      index := fit;
      prevKey := keys[fit];
      walk := w.(last := prevKey);
      return true;
    }

    /** step in the direction of the traversal: the foremost key not yet yielded, from the first source that has it. */
    method Step(toNext: bool) returns (found: bool)
      requires Valid() && toNext == directionToNext
      modifies this
      ensures Valid() && walk == old(walk).(last := walk.last)
      ensures found ==> Yielded(old(walk))
      ensures !found ==> walk == old(walk) && Exhausted()
    {
      ghost var w := walk;
      Release();
      var fit := -1;
      for i := 0 to |sources|
        invariant Visiting(w, i, fit)
      {
        hide *;
        fit := VisitSource(w, toNext, i, fit);
      }
      found := Settle(w, fit);
    }

    /** The key at index is the foremost one that was left in w. */
    ghost predicate Yielded(w: Walk)
      reads this
    {
      && 0 <= index < |sources| == |keys| == |cursors| && walk.last.Some? && keys[index] == walk.last
      && cursors[index].OnEntry() && cursors[index].Key() == walk.last.value
      && walk.last.value in w.universe && w.After(walk.last.value)
      && FirstHolder(sources, index, walk.last.value)
      && forall i, j | 0 <= i < |sources| && 0 <= j < |sources[i]| && !w.Consumed(sources[i][j].key) ::
           sources[i][j].key == walk.last.value || Before(w.toNext, walk.last.value, sources[i][j].key)
    }

    ghost predicate Exhausted()
      reads this
    {
      forall i, j | 0 <= i < |sources| && 0 <= j < |sources[i]| :: walk.Consumed(sources[i][j].key)
    }

    method Next() returns (found: bool)
      requires Valid() && directionToNext
      modifies this
      ensures Valid() && walk == old(walk).(last := walk.last)
      ensures found ==> Yielded(old(walk))
      ensures !found ==> walk == old(walk) && Exhausted()
    {
      found := Step(true);
    }

    method Prev() returns (found: bool)
      requires Valid() && !directionToNext
      modifies this
      ensures Valid() && walk == old(walk).(last := walk.last)
      ensures found ==> Yielded(old(walk))
      ensures !found ==> walk == old(walk) && Exhausted()
    {
      found := Step(false);
    }

    method Reset()
      requires Shape()
      modifies this
      ensures Shape() && cursors == old(cursors) && index == -1 && prevKey == None
      ensures forall i | 0 <= i < |sources| :: keys[i].None? && iterStatus[i] == Middle
    {
      iterStatus := seq(|sources|, i => Middle);
      index := -1;
      keys := seq(|sources|, i => None);
      prevKey := None;
    }

    /** Repositions at the last key, to be walked backward from there. */
    method Last() returns (found: bool)
      requires Shape()
      modifies this
      ensures Valid() && !directionToNext
      ensures walk == Walk(false, AllKeys(sources, isDelete), walk.last)
      ensures found ==> Yielded(Walk(false, AllKeys(sources, isDelete), None))
      ensures !found ==> walk.last.None? && Exhausted()
    {
      Reset();
      directionToNext := false;
      ghost var w := Walk(false, AllKeys(sources, isDelete), None);
      for i := 0 to |sources|
        invariant Shape() && index == -1 && prevKey == None && !directionToNext
        invariant forall j | 0 <= j < i :: SlotOk(w, isDelete, cursors[j], keys[j], IsEnded(false, iterStatus[j]))
        invariant forall j | i <= j < |sources| :: keys[j].None?
      {
        var c := cursors[i].Last();
        LastSlot(w, isDelete, sources, i);
        hide SlotOk;
        cursors := cursors[i := c];
        if c.OnEntry() {
          iterStatus := iterStatus[i := Tail];
          keys := keys[i := Some(c.Key())];
        } else {
          iterStatus := iterStatus[i := Head];
        }
      }
      walk := w;
      found := Prev();
    }

    /** Halfway through Seek. */
    ghost predicate Seeking(w: Walk, i: int, fit: int)
      reads this
    {
      && 0 <= i && Shape() && directionToNext && w.toNext && index == -1 && prevKey == None == w.last
      && OkBelow(w, isDelete, cursors, keys, iterStatus, i)
      && (forall j | i <= j < |sources| :: keys[j].None? && iterStatus[j] == Middle)
      && ReadyBelow(w, cursors, keys, iterStatus, i)
      && Fits(true, keys, i, fit)
    }

    method SeekSource(ghost w: Walk, key: Key, i: int, fit: int) returns (fit': int)
      requires Seeking(w, i, fit) && 0 <= i < |sources| && w.universe == KeysFrom(sources, isDelete, key)
      modifies this
      ensures Seeking(w, i + 1, fit')
    {
      hide SlotOk, Ready, Before, OkBelow, ReadyBelow, Fits, KeysFrom;
      fit' := fit;
      FitAt(true, keys, i, fit);
      var c, key', status := SeekSlot(w, isDelete, sources, i, cursors[i], key);
      StoreSlot(w, isDelete, cursors, keys, iterStatus, i, c, key', status);
      FitsStep(true, keys, keys[i := key'], i, fit);
      if key'.Some? && (fit < 0 || Before(true, key'.value, keys[fit].value)) {
        fit' := i;
      }
      cursors, keys, iterStatus := cursors[i := c], keys[i := key'], iterStatus[i := status];
    }

    /** Repositions at the first key not below key, to be walked forward from there. */
    method SeekTo(key: Key) returns (found: bool)
      requires Shape()
      modifies this
      ensures Valid() && directionToNext
      ensures walk == Walk(true, KeysFrom(sources, isDelete, key), walk.last)
      ensures found ==> Yielded(Walk(true, KeysFrom(sources, isDelete, key), None))
      ensures !found ==> walk.last.None? && Exhausted()
    {
      Reset();
      directionToNext := true;
      ghost var w := Walk(true, KeysFrom(sources, isDelete, key), None);
      var fit := -1;
      for i := 0 to |sources|
        invariant Seeking(w, i, fit)
      {
        hide *;
        fit := SeekSource(w, key, i, fit);
      }
      walk := w;
      found := Settle(w, fit);
    }

    /** The entry the iterator stands on. */
    function Current(): Entry
      requires 0 <= index < |cursors| && cursors[index].OnEntry()
      reads this
    {
      cursors[index].entries[cursors[index].pos]
    }
  }

  /** Keys a traversal from key on yields. */
  ghost function KeysFrom(sources: seq<seq<Entry>>, isDelete: Key -> bool, key: Key): set<Key> {
    set k | k in AllKeys(sources, isDelete) && !Less(k, key)
  }

  lemma {:induction false} LastSlot(w: Walk, isDelete: Key -> bool, sources: seq<seq<Entry>>, i: int)
    requires SourcesOk(sources) && 0 <= i < |sources| && w == Walk(false, AllKeys(sources, isDelete), None)
    ensures var c := Cursor(sources[i], |sources[i]| - 1);
            if c.OnEntry() then SlotOk(w, isDelete, c, Some(c.Key()), false) else SlotOk(w, isDelete, c, None, true)
  {
  }

  lemma {:induction false} SoughtSlot(w: Walk, isDelete: Key -> bool, sources: seq<seq<Entry>>, i: int,
      c: Cursor, key: Key)
    requires SourcesOk(sources) && 0 <= i < |sources| && w == Walk(true, KeysFrom(sources, isDelete, key), None)
    requires c.entries == sources[i] && 0 <= c.pos <= |c.entries|
    requires forall j | 0 <= j < |c.entries| :: Less(c.entries[j].key, key) <==> j < c.pos
    ensures if c.OnEntry() then SlotOk(w, isDelete, c, Some(c.Key()), false) else SlotOk(w, isDelete, c, None, true)
  {
  }

  /** One source's part of Seek: its first key from key on that is not deleted. */
  method SeekSlot(ghost w: Walk, isDelete: Key -> bool, sources: seq<seq<Entry>>, i: int, c0: Cursor, key: Key)
    returns (c: Cursor, held: Option<Key>, status: Status)
    requires SourcesOk(sources) && 0 <= i < |sources| && w == Walk(true, KeysFrom(sources, isDelete, key), None)
    requires c0.entries == sources[i]
    ensures c.entries == sources[i]
    ensures SlotOk(w, isDelete, c, held, IsEnded(true, status)) && Ready(w, c, held, IsEnded(true, status))
  {
    c := Seek(c0, key);
    SoughtSlot(w, isDelete, sources, i, c, key);
    c := SkipDeleted(w, isDelete, c);
    if c.OnEntry() {
      return c, Some(c.Key()), Middle;
    }
    return c, None, Tail;
  }

  method SkipDeleted(ghost w: Walk, isDelete: Key -> bool, c0: Cursor) returns (c: Cursor)
    requires w.toNext && w.last.None? && 0 <= c0.pos <= |c0.entries|
    requires if c0.OnEntry() then SlotOk(w, isDelete, c0, Some(c0.Key()), false)
             else SlotOk(w, isDelete, c0, None, true)
    ensures c.entries == c0.entries && 0 <= c.pos <= |c.entries|
    ensures if c.OnEntry() then SlotOk(w, isDelete, c, Some(c.Key()), false) && Ready(w, c, Some(c.Key()), false)
            else SlotOk(w, isDelete, c, None, true) && Ready(w, c, None, true)
  {
    hide SlotOk, Ready, Before;
    c := c0;
    while c.OnEntry() && isDelete(c.Key())
      invariant c.entries == c0.entries && 0 <= c.pos <= |c.entries|
      invariant if c.OnEntry() then SlotOk(w, isDelete, c, Some(c.Key()), false) else SlotOk(w, isDelete, c, None, true)
      decreases |c.entries| - c.pos
    {
      DropKey(w, isDelete, c, Some(c.Key()));
      TakeNext(w, isDelete, c);
      c := c.Advance(true);
    }
    if c.OnEntry() {
      HeldIsReady(w, isDelete, c, Some(c.Key()));
    } else {
      EndedIsReady(w, c);
    }
  }

  // ----- whole traversals -----

  ghost predicate FromFirstHolder(sources: seq<seq<Entry>>, e: Entry) {
    exists i :: FirstHolder(sources, i, e.key) && e in sources[i]
  }

  /** out has each key of universe exactly once, in order, with the value of the first source that has it. */
  ghost predicate ListsAll(out: seq<Entry>, toNext: bool, universe: set<Key>, sources: seq<seq<Entry>>) {
    && (forall a, b | 0 <= a < b < |out| :: Before(toNext, out[a].key, out[b].key))
    && (forall a | 0 <= a < |out| :: out[a].key in universe && FromFirstHolder(sources, out[a]))
    && (forall k | k in universe :: exists a :: 0 <= a < |out| && out[a].key == k)
  }

  ghost predicate HasKey(out: seq<Entry>, k: Key) {
    exists a :: 0 <= a < |out| && out[a].key == k
  }

  ghost predicate Held(sources: seq<seq<Entry>>, universe: set<Key>) {
    forall k | k in universe :: exists i :: 0 <= i < |sources| && InSource(sources[i], k)
  }

  /** out has what the traversal w has yielded. */
  ghost predicate ListsUpTo(out: seq<Entry>, w: Walk, sources: seq<seq<Entry>>) {
    && (forall a, b | 0 <= a < b < |out| :: Before(w.toNext, out[a].key, out[b].key))
    && (forall a | 0 <= a < |out| ::
          out[a].key in w.universe && FromFirstHolder(sources, out[a]) && !w.After(out[a].key))
    && (forall k | k in w.universe && !w.After(k) :: HasKey(out, k))
  }

  /** Keys still to come. */
  ghost function Left(w: Walk): set<Key> {
    set k | k in w.universe && w.After(k)
  }

  /** e is the foremost entry left. */
  ghost predicate Foremost(w: Walk, sources: seq<seq<Entry>>, e: Entry) {
    && e.key in w.universe && w.After(e.key) && FromFirstHolder(sources, e)
    && forall i, j | 0 <= i < |sources| && 0 <= j < |sources[i]| && !w.Consumed(sources[i][j].key) ::
         sources[i][j].key == e.key || Before(w.toNext, e.key, sources[i][j].key)
  }

  lemma {:induction false} ForemostOfLeft(w: Walk, sources: seq<seq<Entry>>, e: Entry, k: Key)
    requires Foremost(w, sources, e) && Held(sources, w.universe) && k in w.universe && w.After(k)
    ensures k == e.key || Before(w.toNext, e.key, k)
  {
    var i :| 0 <= i < |sources| && InSource(sources[i], k);
    var j :| 0 <= j < |sources[i]| && sources[i][j].key == k;
    assert !w.Consumed(sources[i][j].key);
  }

  lemma {:induction false} LeftShrinks(w: Walk, e: Key)
    requires e in w.universe && w.After(e)
    ensures Left(w.(last := Some(e))) < Left(w)
  {
    BeforeOrder(w.toNext);
    assert e in Left(w) && e !in Left(w.(last := Some(e)));
  }

  /** A key already passed comes before one still ahead. */
  lemma {:induction false} PassedBefore(w: Walk, k: Key, e: Key)
    requires !w.After(k) && w.After(e)
    ensures Before(w.toNext, k, e) && !Before(w.toNext, e, k) && !Before(w.toNext, e, e)
  {
    BeforeOrder(w.toNext);
  }

  /** Adding the foremost key left extends the list and shortens what is left. */
  lemma {:induction false} ListsStep(out: seq<Entry>, w: Walk, sources: seq<seq<Entry>>, e: Entry)
    requires ListsUpTo(out, w, sources) && Held(sources, w.universe) && Foremost(w, sources, e)
    ensures ListsUpTo(out + [e], w.(last := Some(e.key)), sources)
    ensures Left(w.(last := Some(e.key))) < Left(w)
  {
    hide FromFirstHolder, Left, Less;
    LeftShrinks(w, e.key);
    var all, w' := out + [e], w.(last := Some(e.key));
    assert all[|out|] == e;
    LessIrreflexive(e.key);
    forall a | 0 <= a < |out| ensures Before(w.toNext, out[a].key, e.key) && !w'.After(out[a].key) {
      PassedBefore(w, out[a].key, e.key);
    }
    forall k | k in w.universe && !w'.After(k) ensures HasKey(all, k) {
      if w.After(k) {
        ForemostOfLeft(w, sources, e, k);
        assert all[|out|].key == k;
      } else {
        var a :| 0 <= a < |out| && out[a].key == k;
        assert all[a].key == k;
      }
    }
  }

  /** With every key consumed, what has been listed is everything. */
  lemma {:induction false} ListsComplete(out: seq<Entry>, w: Walk, sources: seq<seq<Entry>>)
    requires ListsUpTo(out, w, sources) && Held(sources, w.universe)
    requires forall i, j | 0 <= i < |sources| && 0 <= j < |sources[i]| :: w.Consumed(sources[i][j].key)
    ensures ListsAll(out, w.toNext, w.universe, sources)
  {
    forall k | k in w.universe ensures exists a :: 0 <= a < |out| && out[a].key == k {
      var i :| 0 <= i < |sources| && InSource(sources[i], k);
      var j :| 0 <= j < |sources[i]| && sources[i][j].key == k;
      assert w.Consumed(sources[i][j].key);
      assert HasKey(out, k);
    }
  }

  /** The traversal stands on a key left in w, or is over. */
  ghost predicate Standing(m: Merged, found: bool, w: Walk)
    reads m
  {
    && m.Valid() && m.walk == w.(last := m.walk.last)
    && (if found then m.Yielded(w) else m.walk == w && m.Exhausted())
  }

  method TakeOne(m: Merged, ghost w: Walk, out0: seq<Entry>) returns (out: seq<Entry>, found: bool, ghost w': Walk)
    requires Standing(m, true, w) && ListsUpTo(out0, w, m.sources) && Held(m.sources, w.universe)
    modifies m
    ensures Standing(m, found, w') && w' == w.(last := w'.last)
    ensures ListsUpTo(out, w', m.sources) && Left(w') < Left(w)
  {
    var e := m.Current();
    assert FirstHolder(m.sources, m.index, e.key) && e in m.sources[m.index];
    assert Foremost(w, m.sources, e);
    ListsStep(out0, w, m.sources, e);
    hide ListsUpTo, SlotOk, FirstHolder, Before;
    out := out0 + [e];
    w' := m.walk;
    found := m.Step(m.directionToNext);
  }

  /** Walks to the end, starting with the entry found if there is one. */
  method Drain(m: Merged, found0: bool, ghost w0: Walk) returns (out: seq<Entry>)
    requires w0.last.None? && Standing(m, found0, w0) && Held(m.sources, w0.universe)
    modifies m
    ensures ListsAll(out, w0.toNext, w0.universe, m.sources)
  {
    out := [];
    var found := found0;
    ghost var w := w0;
    while found
      invariant Standing(m, found, w) && w == w0.(last := w.last)
      invariant ListsUpTo(out, w, m.sources)
      decreases Left(w), found
    {
      hide *;
      out, found, w := TakeOne(m, w, out);
    }
    ListsComplete(out, w, m.sources);
  }

  lemma {:induction false} AllKeysHeld(sources: seq<seq<Entry>>, isDelete: Key -> bool)
    ensures Held(sources, AllKeys(sources, isDelete))
  {
    forall k | k in AllKeys(sources, isDelete) ensures exists i :: 0 <= i < |sources| && InSource(sources[i], k) {
      var i, j :| 0 <= i < |sources| && 0 <= j < |sources[i]| && !isDelete(sources[i][j].key) && sources[i][j].key == k;
      assert InSource(sources[i], k);
    }
  }

  /** A fresh iterator walked forward lists every key that is not deleted, in ascending order. */
  method ListForward(sources: seq<seq<Entry>>, isDelete: Key -> bool) returns (out: seq<Entry>)
    requires SourcesOk(sources)
    ensures ListsAll(out, true, AllKeys(sources, isDelete), sources)
  {
    var m := new Merged(sources, isDelete);
    out := ListFresh(m);
  }

  method ListFresh(m: Merged) returns (out: seq<Entry>)
    requires m.Valid() && m.directionToNext && m.walk == Walk(true, AllKeys(m.sources, m.isDelete), None)
    modifies m
    ensures ListsAll(out, true, AllKeys(m.sources, m.isDelete), m.sources)
  {
    ghost var w := m.walk;
    AllKeysHeld(m.sources, m.isDelete);
    var found := m.Next();
    out := Drain(m, found, w);
  }

  /** Backward from Last, from any earlier use of the iterator, the same keys in descending order. */
  method ListBackward(m: Merged) returns (out: seq<Entry>)
    requires m.Shape()
    modifies m
    ensures ListsAll(out, false, AllKeys(m.sources, m.isDelete), m.sources)
  {
    AllKeysHeld(m.sources, m.isDelete);
    var found := m.Last();
    out := Drain(m, found, Walk(false, AllKeys(m.sources, m.isDelete), None));
  }

  /** Forward after Seek, the keys from key on. */
  method ListFrom(m: Merged, key: Key) returns (out: seq<Entry>)
    requires m.Shape()
    modifies m
    ensures ListsAll(out, true, KeysFrom(m.sources, m.isDelete, key), m.sources)
  {
    AllKeysHeld(m.sources, m.isDelete);
    var found := m.SeekTo(key);
    out := Drain(m, found, Walk(true, KeysFrom(m.sources, m.isDelete, key), None));
  }
}
