/** vm_db/unsaved.go, vm_db/storage.go and vm_db/storage_iterator.go: uncommitted writes over chain storage. */
module Overlay {
  import opened ByteOrder
  import opened MergedIterator
  import opened Wrappers

  /** entries is the sorted listing of m. */
  ghost predicate Represents(entries: seq<Entry>, m: map<Key, Bytes>) {
    && Sorted(entries)
    && (forall i | 0 <= i < |entries| :: entries[i].key in m && m[entries[i].key] == entries[i].value)
    && (forall k | k in m :: HasKey(entries, k))
  }

  /** Where key is, or would go. */
  method Find(entries: seq<Entry>, key: Key) returns (p: nat)
    requires Sorted(entries)
    ensures p <= |entries|
    ensures forall i | 0 <= i < p :: Less(entries[i].key, key)
    ensures forall i | p < i < |entries| :: Less(key, entries[i].key)
    ensures p < |entries| ==> entries[p].key == key || Less(key, entries[p].key)
  {
    p := 0;
    while p < |entries| && Less(entries[p].key, key)
      invariant 0 <= p <= |entries|
      invariant forall i | 0 <= i < p :: Less(entries[i].key, key)
    {
      p := p + 1;
    }
    if p < |entries| {
      LessTotal(entries[p].key, key);
      forall i | p < i < |entries| ensures Less(key, entries[i].key) {
        if entries[p].key != key { LessTransitive(key, entries[p].key, entries[i].key); }
      }
    }
  }

  /** The in-memory store's Put, on its sorted listing. */
  method Put(entries: seq<Entry>, key: Key, value: Bytes, ghost m: map<Key, Bytes>) returns (r: seq<Entry>)
    requires Represents(entries, m)
    ensures Represents(r, m[key := value])
  {
    var p := Find(entries, key);
    if p < |entries| && entries[p].key == key {
      r := entries[p := Entry(key, value)];
      PutReplaces(entries, p, value, m);
    } else {
      r := Inserted(entries, p, Entry(key, value));
      PutInserts(entries, p, key, value, m);
    }
  }

  lemma {:induction false} PutReplaces(entries: seq<Entry>, p: nat, value: Bytes, m: map<Key, Bytes>)
    requires Represents(entries, m) && p < |entries|
    ensures Represents(entries[p := Entry(entries[p].key, value)], m[entries[p].key := value])
  {
    var key := entries[p].key;
    var r, m' := entries[p := Entry(key, value)], m[key := value];
    forall i | 0 <= i < |r| ensures r[i].key in m' && m'[r[i].key] == r[i].value {
      if i != p { DistinctKeys(entries, i, p); }
    }
    forall k | k in m' ensures HasKey(r, k) {
      if k == key {
        assert r[p].key == k;
      } else {
        var a :| 0 <= a < |entries| && entries[a].key == k;
        assert r[a].key == k;
      }
    }
  }

  lemma {:induction false} DistinctKeys(entries: seq<Entry>, i: int, j: int)
    requires Sorted(entries) && 0 <= i < |entries| && 0 <= j < |entries| && i != j
    ensures entries[i].key != entries[j].key
  {
    LessIrreflexive(entries[i].key);
  }

  function Inserted(entries: seq<Entry>, p: nat, e: Entry): (r: seq<Entry>)
    requires p <= |entries|
    ensures |r| == |entries| + 1 && r[p] == e
    ensures forall i | 0 <= i < p :: r[i] == entries[i]
    ensures forall i | p < i < |r| :: r[i] == entries[i - 1]
  {
    entries[..p] + [e] + entries[p..]
  }

  lemma {:induction false} InsertedKeys(entries: seq<Entry>, p: nat, e: Entry, k: Key)
    requires p <= |entries| && (k == e.key || HasKey(entries, k))
    ensures HasKey(Inserted(entries, p, e), k)
  {
    hide Inserted;
    var r := Inserted(entries, p, e);
    if k == e.key {
      assert r[p].key == k;
    } else {
      var a :| 0 <= a < |entries| && entries[a].key == k;
      assert a < p ==> r[a] == entries[a];
      assert a >= p ==> r[a + 1] == entries[a];
    }
  }

  lemma {:induction false} PutInserts(entries: seq<Entry>, p: nat, key: Key, value: Bytes, m: map<Key, Bytes>)
    requires Represents(entries, m) && p <= |entries|
    requires forall i | 0 <= i < p :: Less(entries[i].key, key)
    requires forall i | p <= i < |entries| :: Less(key, entries[i].key)
    ensures Represents(Inserted(entries, p, Entry(key, value)), m[key := value])
  {
    hide Inserted, HasKey, Less;
    forall i | 0 <= i < |entries| ensures entries[i].key != key { LessIrreflexive(key); }
    forall k | k in m[key := value] ensures HasKey(Inserted(entries, p, Entry(key, value)), k) {
      InsertedKeys(entries, p, Entry(key, value), k);
    }
  }

  ghost function DeletedIn(m: map<Key, Bytes>): set<Key> {
    set k | k in m && m[k] == []
  }

  /** Writes since creation or the last Reset. */
  class Unsaved {
    var storage: seq<Entry>
    var deletedKeys: set<Key>
    var keys: set<Key>
    var storageDirty: bool
    var storageCache: seq<Entry>
    ghost var written: map<Key, Bytes>

    ghost predicate Valid()
      reads this
    {
      && Represents(storage, written)
      && deletedKeys == DeletedIn(written)
      && (!storageDirty ==> storageCache == storage)
    }

    constructor ()
      ensures Valid() && written == map[]
    {
      storage, deletedKeys, keys, storageDirty, storageCache := [], {}, {}, false, [];
      written := map[];
    }

    method Reset()
      modifies this
      ensures Valid() && written == map[]
    {
      storage := [];
      deletedKeys := {};
      storageDirty := false;
      storageCache := [];
      written := map[];
    }

    method SetValue(key: Key, value: Bytes)
      requires Valid()
      modifies this
      ensures Valid() && written == old(written)[key := value]
    {
      storageDirty := true;
      keys := keys + {key};
      if |value| == 0 {
        deletedKeys := deletedKeys + {key};
      } else if key in deletedKeys {
        deletedKeys := deletedKeys - {key};
      }
      storage := Put(storage, key, value, written);
      written := written[key := value];
    }

    /** The written value and whether there is one. */
    method GetValue(key: Key) returns (value: Bytes, ok: bool)
      requires Valid()
      ensures ok <==> key in written
      ensures value == if key in written then written[key] else []
    {
      var p := Find(storage, key);
      if p < |storage| && storage[p].key == key {
        return storage[p].value, true;
      }
      assert key !in written by {
        if key in written {
          var a :| 0 <= a < |storage| && storage[a].key == key;
          LessIrreflexive(key);
        }
      }
      if key in deletedKeys {
        return [], true;
      }
      return [], false;
    }

    /** The sorted listing of the writes, rebuilt only after a write. */
    method GetStorage() returns (r: seq<Entry>)
      requires Valid()
      modifies this
      ensures Valid() && written == old(written) && Represents(r, written)
    {
      if storageDirty {
        storageCache := storage;
        storageDirty := false;
      }
      r := storageCache;
    }
  }

  // ----- both levels together -----

  /** What the account sees: its own writes first, then the chain. No value reads as the empty one. */
  function Seen(chain: map<Key, Bytes>, written: map<Key, Bytes>, k: Key): Bytes {
    if k in written then written[k] else if k in chain then chain[k] else []
  }

  /** Reading: the last write of a key, else the chain's value, else nothing; other keys do not notice a write. */
  lemma {:induction false} SeenAfterWrite(chain: map<Key, Bytes>, written: map<Key, Bytes>, k: Key, v: Bytes, j: Key)
    ensures Seen(chain, written[k := v], j) == if j == k then v else Seen(chain, written, j)
    ensures Seen(chain, map[], j) == if j in chain then chain[j] else []
  {
  }

  function Prefixed(entries: seq<Entry>, prefix: Key): seq<Entry> {
    if |entries| == 0 then []
    else Prefixed(entries[..|entries| - 1], prefix) +
         (if prefix <= entries[|entries| - 1].key then [entries[|entries| - 1]] else [])
  }

  lemma {:induction false} PrefixedSpec(entries: seq<Entry>, prefix: Key)
    requires Sorted(entries)
    ensures Sorted(Prefixed(entries, prefix))
    ensures forall e :: e in Prefixed(entries, prefix) <==> e in entries && prefix <= e.key
  {
    if |entries| > 0 {
      var n := |entries| - 1;
      PrefixedSpec(entries[..n], prefix);
      var p := Prefixed(entries[..n], prefix);
      assert entries == entries[..n] + [entries[n]];
      forall i | 0 <= i < |p| ensures Less(p[i].key, entries[n].key) {
        assert p[i] in entries[..n];
      }
    }
  }

  lemma {:induction false} RepresentsKey(entries: seq<Entry>, m: map<Key, Bytes>, k: Key)
    requires Represents(entries, m)
    ensures k in m <==> exists e :: e in entries && e.key == k
    ensures k in m ==> Entry(k, m[k]) in entries
  {
    if k in m {
      var a :| 0 <= a < |entries| && entries[a].key == k;
      assert entries[a] in entries;
    }
  }

  lemma {:induction false} InSourceEntry(entries: seq<Entry>, k: Key)
    ensures InSource(entries, k) <==> exists e :: e in entries && e.key == k
  {
    if InSource(entries, k) {
      var j :| 0 <= j < |entries| && entries[j].key == k;
      assert entries[j] in entries;
    }
  }

  class VmDb {
    const chain: seq<Entry>
    const uns: Unsaved
    ghost const saved: map<Key, Bytes>

    /** The chain stores no empty values: writing one deletes the key. */
    ghost predicate Valid()
      reads this, uns
    {
      && uns.Valid() && Represents(chain, saved)
      && forall k | k in saved :: saved[k] != []
    }

    constructor (chain: seq<Entry>, ghost saved: map<Key, Bytes>)
      requires Represents(chain, saved) && forall k | k in saved :: saved[k] != []
      ensures Valid() && this.saved == saved && this.chain == chain && uns.written == map[] && fresh(uns)
    {
      this.chain, this.saved := chain, saved;
      uns := new Unsaved();
    }

    method GetValue(key: Key) returns (value: Bytes)
      requires Valid()
      ensures value == Seen(saved, uns.written, key)
    {
      var v, ok := uns.GetValue(key);
      if ok {
        return v;
      }
      value := GetOriginalValue(key);
    }

    method GetOriginalValue(key: Key) returns (value: Bytes)
      requires Valid()
      ensures value == Seen(saved, map[], key)
    {
      var p := Find(chain, key);
      if p < |chain| && chain[p].key == key {
        return chain[p].value;
      }
      if key in saved {
        var a :| 0 <= a < |chain| && chain[a].key == key;
        LessIrreflexive(key);
      }
      return [];
    }

    /** False, and nothing written, for a key over 32 bytes. */
    method SetValue(key: Key, value: Bytes) returns (ok: bool)
      requires Valid()
      modifies uns
      ensures Valid() && (ok <==> |key| <= 32)
      ensures uns.written == if ok then old(uns.written)[key := value] else old(uns.written)
    {
      if |key| > 32 {
        return false;
      }
      uns.SetValue(key, value);
      return true;
    }

    /** A merged iterator over the unsaved entries and the chain's, both under the prefix. */
    method NewStorageIterator(prefix: Key) returns (m: Merged, ghost levels: Levels)
      requires Valid() && KeysNonEmpty(chain) && KeysNonEmpty(uns.storage)
      ensures LevelsOk(levels) && levels.saved == saved && levels.written == uns.written && levels.prefix == prefix
      ensures fresh(m) && m.Valid() && m.Shape() && m.sources == levels.Sources() && m.isDelete == levels.isDelete
      ensures m.walk == Walk(true, AllKeys(m.sources, m.isDelete), None) && m.directionToNext
    {
      var mine, theirs := Prefixed(uns.storage, prefix), Prefixed(chain, prefix);
      var deleted := uns.deletedKeys;
      var isDelete := (k: Key) => k in deleted;
      PrefixedSources(uns.storage, chain, prefix);
      levels := Levels(uns.storage, chain, saved, uns.written, prefix, isDelete);
      assert LevelsOk(levels);
      hide *;
      m := new Merged([mine, theirs], isDelete);
      MergedShape(m);
    }

    /** Walking the storage iterator to its end: the overlaid map, ascending. */
    method ListStorage(prefix: Key) returns (out: seq<Entry>)
      requires Valid() && KeysNonEmpty(chain) && KeysNonEmpty(uns.storage)
      ensures ListsVisible(out, true, [], saved, uns.written, prefix)
    {
      var m, levels := NewStorageIterator(prefix);
      hide *;
      FromTheStart(m.sources, m.isDelete);
      out := ListFresh(m);
      ListingIsVisible(levels, true, [], out);
    }

    /** From Last backward: the overlaid map, descending. */
    method ListStorageBackward(prefix: Key) returns (out: seq<Entry>)
      requires Valid() && KeysNonEmpty(chain) && KeysNonEmpty(uns.storage)
      ensures ListsVisible(out, false, [], saved, uns.written, prefix)
    {
      var m, levels := NewStorageIterator(prefix);
      hide *;
      FromTheStart(m.sources, m.isDelete);
      out := ListBackward(m);
      ListingIsVisible(levels, false, [], out);
    }

    /** After Seek: the overlaid map from the key sought on, ascending. */
    method ListStorageFrom(prefix: Key, key: Key) returns (out: seq<Entry>)
      requires Valid() && KeysNonEmpty(chain) && KeysNonEmpty(uns.storage)
      ensures ListsVisible(out, true, key, saved, uns.written, prefix)
    {
      var m, levels := NewStorageIterator(prefix);
      hide *;
      out := ListFrom(m, key);
      ListingIsVisible(levels, true, key, out);
    }
  }

  lemma {:induction false} MergedShape(m: Merged)
    requires m.Valid()
    ensures m.Shape()
  {
  }

  lemma {:induction false} FromTheStart(sources: seq<seq<Entry>>, isDelete: Key -> bool)
    ensures KeysFrom(sources, isDelete, []) == AllKeys(sources, isDelete)
  {
    hide AllKeys;
  }

  /** Both levels under a prefix, as the iterator combines them. */
  datatype Levels = Levels(storage: seq<Entry>, chain: seq<Entry>, saved: map<Key, Bytes>, written: map<Key, Bytes>,
                           prefix: Key, isDelete: Key -> bool)
  {
    function Sources(): seq<seq<Entry>> { [Prefixed(storage, prefix), Prefixed(chain, prefix)] }
  }

  ghost predicate LevelsOk(l: Levels) {
    && Represents(l.storage, l.written) && Represents(l.chain, l.saved)
    && (forall k | k in l.saved :: l.saved[k] != [])
    && (forall k :: l.isDelete(k) <==> k in l.written && l.written[k] == [])
  }

  lemma {:induction false} PrefixedSources(storage: seq<Entry>, chain: seq<Entry>, prefix: Key)
    requires Sorted(storage) && Sorted(chain) && KeysNonEmpty(storage) && KeysNonEmpty(chain)
    ensures SourcesOk([Prefixed(storage, prefix), Prefixed(chain, prefix)])
  {
    PrefixedNonEmpty(storage, prefix);
    PrefixedNonEmpty(chain, prefix);
  }

  lemma {:induction false} PrefixedNonEmpty(entries: seq<Entry>, prefix: Key)
    requires Sorted(entries) && KeysNonEmpty(entries)
    ensures Sorted(Prefixed(entries, prefix)) && KeysNonEmpty(Prefixed(entries, prefix))
  {
    PrefixedSpec(entries, prefix);
    var p := Prefixed(entries, prefix);
    forall i | 0 <= i < |p| ensures |p[i].key| > 0 { assert p[i] in entries; }
  }

  lemma {:induction false} PrefixedHas(entries: seq<Entry>, m: map<Key, Bytes>, prefix: Key, k: Key)
    requires Represents(entries, m)
    ensures InSource(Prefixed(entries, prefix), k) <==> k in m && prefix <= k
  {
    PrefixedSpec(entries, prefix);
    InSourceEntry(Prefixed(entries, prefix), k);
    RepresentsKey(entries, m, k);
    hide Represents, Prefixed, InSource;
    if k in m && prefix <= k { assert Entry(k, m[k]) in Prefixed(entries, prefix); }
  }

  /** A key is listed exactly if its seen value is not empty. */
  lemma {:induction false} VisibleKey(l: Levels, k: Key)
    requires LevelsOk(l)
    ensures k in AllKeys(l.Sources(), l.isDelete) <==> l.prefix <= k && Seen(l.saved, l.written, k) != []
  {
    PrefixedHas(l.storage, l.written, l.prefix, k);
    PrefixedHas(l.chain, l.saved, l.prefix, k);
    AllKeysAt(l.Sources(), l.isDelete, k);
    hide Represents, Prefixed, InSource, AllKeys;
    if InSource(l.Sources()[0], k) || InSource(l.Sources()[1], k) {
      assert exists i :: 0 <= i < |l.Sources()| && InSource(l.Sources()[i], k);
    }
  }

  lemma {:induction false} AllKeysAt(sources: seq<seq<Entry>>, isDelete: Key -> bool, k: Key)
    ensures k in AllKeys(sources, isDelete) <==>
            !isDelete(k) && exists i :: 0 <= i < |sources| && InSource(sources[i], k)
  {
    if k in AllKeys(sources, isDelete) { AllKeysHeld(sources, isDelete); }
  }

  /** Its value is the seen one. */
  lemma {:induction false} VisibleValue(l: Levels, e: Entry)
    requires LevelsOk(l) && FromFirstHolder(l.Sources(), e)
    ensures e.value == Seen(l.saved, l.written, e.key)
  {
    PrefixedSpec(l.storage, l.prefix);
    PrefixedSpec(l.chain, l.prefix);
    PrefixedHas(l.storage, l.written, l.prefix, e.key);
    var i :| FirstHolder(l.Sources(), i, e.key) && e in l.Sources()[i];
    hide Prefixed, InSource;
    if i == 0 {
      assert e in l.storage;
    } else {
      assert e in l.chain;
      assert !InSource(l.Sources()[0], e.key);
    }
  }

  /** Merging the levels lists the overlaid map, in either direction and from any key on. */
  lemma {:induction false} ListingIsVisible(l: Levels, toNext: bool, from: Key, out: seq<Entry>)
    requires LevelsOk(l) && ListsAll(out, toNext, KeysFrom(l.Sources(), l.isDelete, from), l.Sources())
    ensures ListsVisible(out, toNext, from, l.saved, l.written, l.prefix)
  {
    hide LevelsOk, AllKeys, FromFirstHolder, Seen, Before, Less;
    forall i | 0 <= i < |out|
      ensures l.prefix <= out[i].key && !Less(out[i].key, from)
      ensures out[i].value == Seen(l.saved, l.written, out[i].key) != []
    {
      VisibleKey(l, out[i].key);
      VisibleValue(l, out[i]);
    }
    forall k | l.prefix <= k && !Less(k, from) && Seen(l.saved, l.written, k) != [] ensures HasKey(out, k) {
      VisibleKey(l, k);
      assert k in KeysFrom(l.Sources(), l.isDelete, from);
    }
  }

  /** out has, in the order of travel and once each, the keys from the given one on and under prefix whose seen value is
      not empty, with that value. */
  ghost predicate ListsVisible(out: seq<Entry>, toNext: bool, from: Key, saved: map<Key, Bytes>,
                               written: map<Key, Bytes>, prefix: Key)
  {
    && (forall a, b | 0 <= a < b < |out| :: Before(toNext, out[a].key, out[b].key))
    && (forall i | 0 <= i < |out| :: prefix <= out[i].key && !Less(out[i].key, from))
    && (forall i | 0 <= i < |out| :: out[i].value == Seen(saved, written, out[i].key) != [])
    && (forall k | prefix <= k && !Less(k, from) && Seen(saved, written, k) != [] :: HasKey(out, k))
  }
}
