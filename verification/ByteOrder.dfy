/** Byte-string order of the key-value stores. */
module ByteOrder {
  import opened Arith

  type Key = seq<Byte>

  /** Lexicographic, a proper prefix first. */
  predicate Less(a: Key, b: Key) {
    if |b| == 0 then false
    else if |a| == 0 then true
    else if a[0] != b[0] then a[0] < b[0]
    else Less(a[1..], b[1..])
  }

  /** a and b agree below position k, and there a has ended or has the smaller byte. */
  predicate DiffersAt(a: Key, b: Key, k: nat) {
    k <= |a| && k < |b| && a[..k] == b[..k] && (k == |a| || a[k] < b[k])
  }

  /** The order looks at the first position where the two differ. */
  lemma {:induction false} LessAtDifference(a: Key, b: Key)
    ensures Less(a, b) <==> exists k: nat :: DiffersAt(a, b, k)
  {
    if |a| == 0 && |b| > 0 {
      assert DiffersAt(a, b, 0);
    } else if |a| > 0 && |b| > 0 && a[0] != b[0] {
      if a[0] < b[0] { assert DiffersAt(a, b, 0); }
      forall k: nat | DiffersAt(a, b, k) ensures k == 0 { AgreeFirst(a, b, k); }
    } else if |a| > 0 && |b| > 0 {
      LessAtDifference(a[1..], b[1..]);
      forall k: nat ensures DiffersAt(a[1..], b[1..], k) <==> DiffersAt(a, b, k + 1) { DiffersNext(a, b, k); }
      if exists k: nat :: DiffersAt(a, b, k) {
        var k: nat :| DiffersAt(a, b, k);
        assert DiffersAt(a[1..], b[1..], k - 1);
      }
    }
  }

  lemma {:induction false} AgreeFirst(a: Key, b: Key, k: nat)
    requires DiffersAt(a, b, k)
    ensures k > 0 ==> a[0] == b[0]
  {
    if k > 0 { assert a[..k][0] == b[..k][0]; }
  }

  lemma {:induction false} DiffersNext(a: Key, b: Key, k: nat)
    requires |a| > 0 && |b| > 0 && a[0] == b[0]
    ensures DiffersAt(a[1..], b[1..], k) <==> DiffersAt(a, b, k + 1)
  {
    if k < |a| && k < |b| {
      assert a[..k + 1] == [a[0]] + a[1..][..k] && b[..k + 1] == [b[0]] + b[1..][..k];
      if a[..k + 1] == b[..k + 1] { assert a[..k + 1][1..] == a[1..][..k] && b[..k + 1][1..] == b[1..][..k]; }
    }
  }

  lemma {:induction false} LessIrreflexive(a: Key)
    ensures !Less(a, a)
  {
    if |a| > 0 { LessIrreflexive(a[1..]); }
  }

  lemma {:induction false} LessTransitive(a: Key, b: Key, c: Key)
    requires Less(a, b) && Less(b, c)
    ensures Less(a, c)
  {
    if |a| > 0 && a[0] == b[0] == c[0] { LessTransitive(a[1..], b[1..], c[1..]); }
  }

  lemma {:induction false} LessTotal(a: Key, b: Key)
    ensures Less(a, b) || a == b || Less(b, a)
  {
    if |a| > 0 && |b| > 0 && a[0] == b[0] {
      LessTotal(a[1..], b[1..]);
      assert a == [a[0]] + a[1..] && b == [b[0]] + b[1..];
    }
  }

  /** The order of a traversal: ascending when toNext, else descending. */
  predicate Before(toNext: bool, a: Key, b: Key) {
    if toNext then Less(a, b) else Less(b, a)
  }

  /** A traversal order is a strict total order. */
  lemma {:induction false} BeforeOrder(toNext: bool)
    ensures forall a {:trigger Before(toNext, a, a)} :: !Before(toNext, a, a)
    ensures forall a, b {:trigger Before(toNext, a, b)} :: Before(toNext, a, b) || a == b || Before(toNext, b, a)
    ensures forall a, b, c {:trigger Before(toNext, a, b), Before(toNext, b, c)} ::
              Before(toNext, a, b) && Before(toNext, b, c) ==> Before(toNext, a, c)
  {
    forall a: Key ensures !Before(toNext, a, a) { LessIrreflexive(a); }
    forall a: Key, b: Key ensures Before(toNext, a, b) || a == b || Before(toNext, b, a) { LessTotal(a, b); }
    forall a: Key, b: Key, c: Key | Before(toNext, a, b) && Before(toNext, b, c) ensures Before(toNext, a, c) {
      if toNext { LessTransitive(a, b, c); } else { LessTransitive(c, b, a); }
    }
  }
}
