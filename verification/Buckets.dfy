/** common/bloom/bucket.go: small counters packed into bytes, least significant bit first. */
module Buckets {
  import opened Arith
  import opened BitFields
  import WordOps

  /** The source's two masked assignments to a byte come to this. */
  function PutByte(x: Byte, off: nat, length: nat, v: nat): (r: Byte)
    requires off + length <= 8
  {
    Pow2Constants();
    PutFieldBound(x, off, length, v, 8);
    PutField(x, off, length, v)
  }

  lemma {:induction false} PutUnderMask(x: Byte, off: nat, length: nat, v: nat)
    requires off + length <= 8
    ensures ShiftLeft(Mask(length), off) < TWO32
    ensures And(x, Not(ShiftLeft(Mask(length), off))) < 256
    ensures Or(And(x, Not(ShiftLeft(Mask(length), off))), ShiftLeft(And(v, Mask(length)), off)) ==
            PutByte(x, off, length, v)
  {
    hide WordOps.BitwiseN, Field, PutField, Mask, ShiftLeft;
    var n := 32;
    Pow2Constants();
    ShiftedMaskBound(length, off, n);
    AndMask(v, length, n);
    MaskedPut(x, off, length, v, n);
    AndAtMost(x, Not(ShiftLeft(Mask(length), off)), n);
  }

  lemma {:induction false} GetUnderMask(x: Byte, off: nat, length: nat)
    requires off + length <= 8
    ensures ShiftRight(And(x, ShiftLeft(Mask(length), off)), off) == Field(x, off, length)
  {
    hide WordOps.BitwiseN, Field, Mask, ShiftLeft, ShiftRight;
    var n := 32;
    MaskedField(x, off, length, n);
  }

  // ----- bit fields of a byte sequence -----

  function GetBits(data: seq<Byte>, offset: nat, length: nat): (r: nat)
    requires length >= 1 && offset + length <= 8 * |data|
    decreases length
  {
    if offset % 8 + length > 8 then
      var rem := 8 - offset % 8;
      GetBits(data, offset, rem) + ShiftLeft(GetBits(data, offset + rem, length - rem), rem)
    else
      Field(data[offset / 8], offset % 8, length)
  }

  /** Offsets are unsigned 32-bit numbers here, so a field that runs over 2^32 goes on at bit 0. */
  function PutBits(data: seq<Byte>, offset: nat, length: nat, bits: nat): (r: seq<Byte>)
    requires 1 <= length <= 8 && offset < TWO32 && offset + length <= 8 * |data|
    ensures |r| == |data|
    decreases length
  {
    if offset % 8 + length > 8 then
      var rem := 8 - offset % 8;
      PutBits(PutBits(data, offset, rem, bits), (offset + rem) % TWO32, length - rem, ShiftRight(bits, rem))
    else
      data[offset / 8 := PutByte(data[offset / 8], offset % 8, length, bits)]
  }

  predicate InOneByte(offset: nat, length: nat) {
    length >= 1 && offset % 8 + length <= 8
  }

  /** The second piece of a split write starts on a byte border and stays below 2^32. */
  lemma {:induction false} NextPiece(o: nat, n: nat)
    requires 1 <= n <= 8 && o < TWO32 && !InOneByte(o, n)
    ensures var rem := 8 - o % 8;
            var next := (o + rem) % TWO32;
            && InOneByte(next, n - rem) && InOneByte(o, rem)
            && next + (n - rem) <= TWO32 && next <= o + rem
            && (o + n <= TWO32 ==> next == o + rem)
  {
    var rem := 8 - o % 8;
    var d := o / 8;
    assert o + rem == 8 * (d + 1) && d < TWO32 / 8;
    if o + rem < TWO32 {
      DivModUnique(o + rem, TWO32, 0, o + rem);
    } else {
      assert o + rem == TWO32;
      DivModUnique(o + rem, TWO32, 1, 0);
    }
  }

  lemma {:induction false} PutSplit(data: seq<Byte>, o: nat, n: nat, v: nat)
    requires 1 <= n <= 8 && o < TWO32 && o + n <= 8 * |data| && !InOneByte(o, n)
    ensures var rem := 8 - o % 8;
            var next := (o + rem) % TWO32;
            && InOneByte(o, rem) && InOneByte(next, n - rem)
            && next + (n - rem) <= 8 * |data| && next + (n - rem) <= TWO32 && next <= o + rem
            && (o + n <= TWO32 ==> next == o + rem)
            && PutBits(data, o, n, v) == PutBits(PutBits(data, o, rem, v), next, n - rem, ShiftRight(v, rem))
  {
    hide ShiftRight, PutByte;
    NextPiece(o, n);
  }

  lemma {:induction false} GetSplit(data: seq<Byte>, o: nat, n: nat)
    requires 1 <= n <= 8 && o + n <= 8 * |data| && !InOneByte(o, n)
    ensures var rem := 8 - o % 8;
            && InOneByte(o, rem) && InOneByte(o + rem, n - rem)
            && GetBits(data, o, n) == GetBits(data, o, rem) + ShiftLeft(GetBits(data, o + rem, n - rem), rem)
  {
    hide ShiftLeft, Field;
  }

  lemma {:induction false} GetAfterPutSingle(data: seq<Byte>, o: nat, n: nat, v: nat)
    requires InOneByte(o, n) && o < TWO32 && o + n <= 8 * |data|
    ensures GetBits(PutBits(data, o, n, v), o, n) == Field(v, 0, n)
  {
    FieldOfPut(data[o / 8], o % 8, n, v);
    hide Field, PutField;
  }

  lemma {:induction false} GetBesidePutSingle(data: seq<Byte>, o: nat, n: nat, v: nat, o': nat, n': nat)
    requires InOneByte(o, n) && InOneByte(o', n') && o < TWO32
    requires o + n <= 8 * |data| && o' + n' <= 8 * |data|
    requires o' + n' <= o || o + n <= o'
    ensures GetBits(PutBits(data, o, n, v), o', n') == GetBits(data, o', n')
  {
    if o / 8 == o' / 8 {
      FieldBesidePut(data[o / 8], o % 8, n, v, o' % 8, n');
    }
  }

  lemma {:induction false} GetBesidePutOneByte(data: seq<Byte>, o: nat, n: nat, v: nat, o': nat, n': nat)
    requires InOneByte(o, n) && 1 <= n' <= 8 && o < TWO32
    requires o + n <= 8 * |data| && o' + n' <= 8 * |data|
    requires o' + n' <= o || o + n <= o'
    ensures GetBits(PutBits(data, o, n, v), o', n') == GetBits(data, o', n')
  {
    hide GetBits, PutBits, ShiftLeft;
    if InOneByte(o', n') {
      GetBesidePutSingle(data, o, n, v, o', n');
    } else {
      var rem := 8 - o' % 8;
      GetSplit(data, o', n');
      GetSplit(PutBits(data, o, n, v), o', n');
      GetBesidePutSingle(data, o, n, v, o', rem);
      GetBesidePutSingle(data, o, n, v, o' + rem, n' - rem);
    }
  }

  /** Writing one field leaves every field that does not overlap it as it was. */
  lemma {:induction false} GetBesidePut(data: seq<Byte>, o: nat, n: nat, v: nat, o': nat, n': nat)
    requires 1 <= n <= 8 && 1 <= n' <= 8 && o + n <= TWO32
    requires o + n <= 8 * |data| && o' + n' <= 8 * |data|
    requires o' + n' <= o || o + n <= o'
    ensures GetBits(PutBits(data, o, n, v), o', n') == GetBits(data, o', n')
  {
    hide GetBits, PutBits, ShiftRight;
    if InOneByte(o, n) {
      GetBesidePutOneByte(data, o, n, v, o', n');
    } else {
      var rem := 8 - o % 8;
      PutSplit(data, o, n, v);
      GetBesidePutOneByte(data, o, rem, v, o', n');
      GetBesidePutOneByte(PutBits(data, o, rem, v), o + rem, n - rem, ShiftRight(v, rem), o', n');
    }
  }

  /** A written field reads back, also across a byte border. */
  lemma {:induction false} GetAfterPut(data: seq<Byte>, o: nat, n: nat, v: nat)
    requires 1 <= n <= 8 && o + n <= TWO32 && o + n <= 8 * |data|
    requires v < Pow2(n)
    ensures GetBits(PutBits(data, o, n, v), o, n) == v
  {
    hide GetBits, PutBits, ShiftLeft, ShiftRight, Field, Pow2;
    FieldWhole(v, n);
    if InOneByte(o, n) {
      GetAfterPutSingle(data, o, n, v);
    } else {
      var rem := 8 - o % 8;
      PutSplit(data, o, n, v);
      var low := PutBits(data, o, rem, v);
      var high := ShiftRight(v, rem);
      var all := PutBits(low, o + rem, n - rem, high);
      GetSplit(all, o, n);
      GetAfterPutSingle(data, o, rem, v);
      GetAfterPutSingle(low, o + rem, n - rem, high);
      GetBesidePutSingle(low, o + rem, n - rem, high, o, rem);
      FieldJoins(v, rem, n - rem);
    }
  }

  lemma {:induction false} SingleEnds(o: nat, n: nat)
    requires InOneByte(o, n) && o < TWO32
    ensures 1 <= n <= 8 && o + n <= TWO32
  {
    assert o / 8 < TWO32 / 8;
  }

  /** No write reaches bit 2^32 or beyond. */
  lemma {:induction false} GetBeyondPut(data: seq<Byte>, o: nat, n: nat, v: nat, o': nat, n': nat)
    requires 1 <= n <= 8 && o < TWO32 && o + n <= 8 * |data|
    requires 1 <= n' <= 8 && TWO32 <= o' && o' + n' <= 8 * |data|
    ensures GetBits(PutBits(data, o, n, v), o', n') == GetBits(data, o', n')
  {
    hide GetBits, PutBits, ShiftRight;
    if InOneByte(o, n) {
      SingleEnds(o, n);
      GetBesidePutOneByte(data, o, n, v, o', n');
    } else {
      var rem := 8 - o % 8;
      PutSplit(data, o, n, v);
      var next := (o + rem) % TWO32;
      SingleEnds(o, rem);
      GetBesidePutOneByte(data, o, rem, v, o', n');
      GetBesidePutOneByte(PutBits(data, o, rem, v), next, n - rem, ShiftRight(v, rem), o', n');
    }
  }

  lemma {:induction false} ShiftRightBound(v: nat, k: nat, n: nat)
    requires v < Pow2(k + n)
    ensures ShiftRight(v, k) < Pow2(n)
  {
    if k > 0 { ShiftRightBound(v / 2, k - 1, n); }
  }

  /** A field written over bit 2^32 ends there and goes on at bit 0. */
  lemma {:induction false} PutAcross(data: seq<Byte>, o: nat, n: nat, v: nat)
    requires 1 <= n <= 8 && o < TWO32 < o + n <= 8 * |data| && v < Pow2(n)
    ensures var first := TWO32 - o;
            && GetBits(PutBits(data, o, n, v), o, first) == Field(v, 0, first)
            && GetBits(PutBits(data, o, n, v), 0, n - first) == ShiftRight(v, first)
  {
    hide GetBits, PutBits, ShiftRight, Field, Pow2;
    var first := TWO32 - o;
    CrossesHere(o, n);
    PutSplit(data, o, n, v);
    var low, high := PutBits(data, o, first, v), ShiftRight(v, first);
    GetAfterPutSingle(data, o, first, v);
    GetAfterPutSingle(low, 0, n - first, high);
    GetBesidePutSingle(low, 0, n - first, high, o, first);
    ShiftRightBound(v, first, n - first);
    FieldWhole(high, n - first);
  }

  lemma {:induction false} CrossesHere(o: nat, n: nat)
    requires 1 <= n <= 8 && o < TWO32 < o + n
    ensures !InOneByte(o, n) && 8 - o % 8 == TWO32 - o && (o + (TWO32 - o)) % TWO32 == 0
  {
    var d := o / 8;
    assert o == 8 * d + o % 8 && d < TWO32 / 8;
    assert 8 * d + 8 <= TWO32;
  }

  /** And leaves every other field as it was. */
  lemma {:induction false} GetBesideAcross(data: seq<Byte>, o: nat, n: nat, v: nat, o': nat, n': nat)
    requires 1 <= n <= 8 && o < TWO32 < o + n <= 8 * |data|
    requires 1 <= n' <= 8 && o' + n' <= 8 * |data|
    requires o' + n' <= o || TWO32 <= o'
    requires n - (TWO32 - o) <= o'
    ensures GetBits(PutBits(data, o, n, v), o', n') == GetBits(data, o', n')
  {
    hide GetBits, PutBits, ShiftRight;
    var first := TWO32 - o;
    CrossesHere(o, n);
    PutSplit(data, o, n, v);
    GetBesidePutOneByte(data, o, first, v, o', n');
    GetBesidePutOneByte(PutBits(data, o, first, v), 0, n - first, ShiftRight(v, first), o', n');
  }

  lemma {:induction false} OneByteBit(data: seq<Byte>, o: nat, n: nat, j: nat)
    requires InOneByte(o, n) && o + n <= 8 * |data| && j < n
    ensures GetBits(data, o, n) < Pow2(n)
    ensures WordOps.BitAt(GetBits(data, o, n), j) <==> WordOps.BitAt(data[(o + j) / 8], (o + j) % 8)
  {
    hide Field, WordOps.BitAt;
    FieldBound(data[o / 8], o % 8, n);
    FieldBit(data[o / 8], o % 8, n, j);
  }

  /** The packing: bit j of the field at o is bit o + j of the bytes, each byte counted from its lowest bit. */
  lemma {:induction false} FieldLayout(data: seq<Byte>, o: nat, n: nat, j: nat)
    requires 1 <= n <= 8 && o + n <= 8 * |data| && j < n
    ensures WordOps.BitAt(GetBits(data, o, n), j) <==> WordOps.BitAt(data[(o + j) / 8], (o + j) % 8)
  {
    hide GetBits, ShiftLeft, WordOps.BitAt;
    if InOneByte(o, n) {
      OneByteBit(data, o, n, j);
    } else {
      GetSplit(data, o, n);
      var rem := 8 - o % 8;
      OneByteBit(data, o, rem, if j < rem then j else 0);
      if j >= rem { OneByteBit(data, o + rem, n - rem, j - rem); }
      JoinedBit(GetBits(data, o, rem), GetBits(data, o + rem, n - rem), rem, j);
    }
  }

  // ----- the array of counters -----

  predicate Fits(data: seq<Byte>, size: nat, total: nat) {
    1 <= size <= 8 && total * size <= 8 * |data|
  }

  lemma {:induction false} SlotEnds(k: nat, next: nat, size: nat)
    requires k < next
    ensures k * size + size <= next * size
  {
    assert (k + 1) * size <= next * size;
  }

  function Slot(data: seq<Byte>, size: nat, total: nat, k: nat): (v: nat)
    requires Fits(data, size, total) && k < total
  {
    SlotEnds(k, total, size);
    GetBits(data, k * size, size)
  }

  /** The counters the bytes stand for. */
  function Slots(data: seq<Byte>, size: nat, total: nat): (s: seq<nat>)
    requires Fits(data, size, total)
    ensures |s| == total
    ensures forall k :: 0 <= k < total ==> s[k] == Slot(data, size, total, k)
  {
    seq(total, k requires 0 <= k < total => Slot(data, size, total, k))
  }

  /** The 32-bit product of the bucket number and the bucket size. */
  function WriteOffset(bucket: nat, size: nat): (o: nat)
    ensures o < TWO32
  {
    ((bucket % TWO32) * size) % TWO32
  }

  lemma {:induction false} WriteOffsetBelow(bucket: nat, size: nat)
    ensures WriteOffset(bucket, size) == (bucket * size) % TWO32
    ensures WriteOffset(bucket, size) <= bucket * size
  {
    ModMul(bucket, size, TWO32);
    assert 0 <= bucket * size;
  }

  function Clamp(value: nat, size: nat): (v: nat)
    ensures v < Pow2(size) && v <= value && (v == value || v == Pow2(size) - 1)
  {
    if value > Pow2(size) - 1 then Pow2(size) - 1 else value
  }

  function Written(data: seq<Byte>, size: nat, total: nat, bucket: nat, value: nat): (r: seq<Byte>)
    requires Fits(data, size, total) && bucket < total
    ensures Fits(r, size, total) && |r| == |data|
  {
    SlotEnds(bucket, total, size);
    WriteOffsetBelow(bucket, size);
    PutBits(data, WriteOffset(bucket, size), size, Clamp(value, size))
  }

  lemma {:induction false} OneSlotKept(data: seq<Byte>, size: nat, total: nat, bucket: nat, value: nat, k: nat)
    requires Fits(data, size, total) && bucket < total && (bucket + 1) * size <= TWO32
    requires k < total
    ensures Slot(Written(data, size, total, bucket, value), size, total, k)
         == if k == bucket then Clamp(value, size) else Slot(data, size, total, k)
  {
    hide GetBits, PutBits, Clamp, WriteOffset;
    WriteOffsetExact(bucket, size);
    SlotEnds(bucket, total, size);
    SlotEnds(k, total, size);
    var o, o', v := bucket * size, k * size, Clamp(value, size);
    if k == bucket {
      GetAfterPut(data, o, size, v);
    } else {
      SlotsApart(bucket, k, size);
      GetBesidePut(data, o, size, v, o', size);
    }
  }

  lemma {:induction false} WriteOffsetExact(bucket: nat, size: nat)
    requires size >= 1 && (bucket + 1) * size <= TWO32
    ensures WriteOffset(bucket, size) == bucket * size && bucket * size + size <= TWO32
  {
    WriteOffsetBelow(bucket, size);
    assert (bucket + 1) * size == bucket * size + size;
    hide WriteOffset;
    var o := bucket * size;
    assert 0 <= o < TWO32;
  }

  lemma {:induction false} SlotsApart(j: nat, k: nat, size: nat)
    requires j != k
    ensures k * size + size <= j * size || j * size + size <= k * size
  {
    if k < j { SlotEnds(k, j, size); } else { SlotEnds(j, k, size); }
  }

  lemma {:induction false} WriteUpdates(data: seq<Byte>, size: nat, total: nat, bucket: nat, value: nat)
    requires Fits(data, size, total) && bucket < total && (bucket + 1) * size <= TWO32
    ensures Slots(Written(data, size, total, bucket, value), size, total)
         == Slots(data, size, total)[bucket := Clamp(value, size)]
  {
    hide Slot, Written;
    forall k | 0 <= k < total
      ensures Slots(Written(data, size, total, bucket, value), size, total)[k]
           == Slots(data, size, total)[bucket := Clamp(value, size)][k]
    {
      OneSlotKept(data, size, total, bucket, value, k);
    }
  }

  /** From bit 2^32 on, a write misses its bucket, which reads as before. */
  lemma {:induction false} WriteIsLost(data: seq<Byte>, size: nat, total: nat, bucket: nat, value: nat)
    requires Fits(data, size, total) && bucket < total && TWO32 <= bucket * size
    ensures Slot(Written(data, size, total, bucket, value), size, total, bucket) == Slot(data, size, total, bucket)
  {
    hide GetBits, PutBits, Clamp;
    WriteOffsetBelow(bucket, size);
    SlotEnds(bucket, total, size);
    GetBeyondPut(data, WriteOffset(bucket, size), size, Clamp(value, size), bucket * size, size);
  }

  /** A bucket that lies across bit 2^32 takes the low bits of the value and keeps its old high bits. */
  lemma {:induction false} WriteIsCut(data: seq<Byte>, size: nat, total: nat, bucket: nat, value: nat)
    requires Fits(data, size, total) && bucket < total && bucket * size < TWO32 < bucket * size + size
    ensures bucket * size + size <= 8 * |data|
    ensures var first := TWO32 - bucket * size;
            Slot(Written(data, size, total, bucket, value), size, total, bucket) ==
            Field(Clamp(value, size), 0, first) + ShiftLeft(GetBits(data, TWO32, size - first), first)
  {
    hide GetBits, PutBits, Clamp, Field, ShiftLeft, WriteOffset;
    WriteOffsetBelow(bucket, size);
    SlotEnds(bucket, total, size);
    var o := bucket * size;
    DivModUnique(o, TWO32, 0, o);
    CutAcross(data, o, size, Clamp(value, size));
  }

  /** A field across bit 2^32 after it was written: the low part is new, the high part old. */
  lemma {:induction false} CutAcross(data: seq<Byte>, o: nat, n: nat, v: nat)
    requires 1 <= n <= 8 && o < TWO32 < o + n <= 8 * |data| && v < Pow2(n)
    ensures var first := TWO32 - o;
            GetBits(PutBits(data, o, n, v), o, n) ==
            Field(v, 0, first) + ShiftLeft(GetBits(data, TWO32, n - first), first)
  {
    hide GetBits, PutBits, Field, ShiftLeft;
    CrossesHere(o, n);
    PutAcross(data, o, n, v);
    GetSplit(PutBits(data, o, n, v), o, n);
    GetBeyondPut(data, o, n, v, TWO32, n - (TWO32 - o));
  }

  /** Where any write goes: to the bits from the wrapped offset on, the part past bit 2^32 to the bits from 0 on. */
  lemma {:induction false} WriteLands(data: seq<Byte>, size: nat, total: nat, bucket: nat, value: nat)
    requires Fits(data, size, total) && bucket < total
    ensures var o, v, r := WriteOffset(bucket, size), Clamp(value, size), Written(data, size, total, bucket, value);
            && o + size <= 8 * |data|
            && (o + size <= TWO32 ==> GetBits(r, o, size) == v)
            && (TWO32 < o + size ==>
                  && GetBits(r, o, TWO32 - o) == Field(v, 0, TWO32 - o)
                  && GetBits(r, 0, o + size - TWO32) == ShiftRight(v, TWO32 - o))
  {
    hide GetBits, PutBits, Clamp, Field, ShiftRight, WriteOffset;
    WriteOffsetBelow(bucket, size);
    SlotEnds(bucket, total, size);
    var o, v := WriteOffset(bucket, size), Clamp(value, size);
    if o + size <= TWO32 { GetAfterPut(data, o, size, v); } else { PutAcross(data, o, size, v); }
  }

  /** And it goes nowhere else. */
  lemma {:induction false} WriteSpares(data: seq<Byte>, size: nat, total: nat, bucket: nat, value: nat, o': nat,
      n': nat)
    requires Fits(data, size, total) && bucket < total && 1 <= n' <= 8 && o' + n' <= 8 * |data|
    requires var o := WriteOffset(bucket, size);
             (o' + n' <= o || o + size <= o' || TWO32 <= o') && o + size - TWO32 <= o'
    ensures GetBits(Written(data, size, total, bucket, value), o', n') == GetBits(data, o', n')
  {
    hide GetBits, PutBits, Clamp, WriteOffset;
    WriteOffsetBelow(bucket, size);
    SlotEnds(bucket, total, size);
    var o, v := WriteOffset(bucket, size), Clamp(value, size);
    if TWO32 <= o' {
      GetBeyondPut(data, o, size, v, o', n');
    } else if o + size <= TWO32 {
      GetBesidePut(data, o, size, v, o', n');
    } else {
      GetBesideAcross(data, o, size, v, o', n');
    }
  }

  predicate DividesWord(size: nat) {
    size == 1 || size == 2 || size == 4 || size == 8
  }

  /** The bucket a write hits when no bucket lies across bit 2^32: the number modulo 2^32 / size. */
  function Hit(bucket: nat, size: nat): (hit: nat)
    requires DividesWord(size)
    ensures hit <= bucket
  {
    bucket % (if size == 1 then TWO32 else if size == 2 then TWO32 / 2 else if size == 4 then TWO32 / 4 else TWO32 / 8)
  }

  /** When the bucket size divides 2^32, every write updates exactly one counter. */
  lemma {:induction false} WriteHits(data: seq<Byte>, size: nat, total: nat, bucket: nat, value: nat)
    requires Fits(data, size, total) && bucket < total && DividesWord(size)
    ensures Slots(Written(data, size, total, bucket, value), size, total)
         == Slots(data, size, total)[Hit(bucket, size) := Clamp(value, size)]
  {
    hide Slot, Slots, PutBits, Clamp, WriteOffset, Hit;
    var hit := Hit(bucket, size);
    HitOffset(bucket, size);
    assert Written(data, size, total, bucket, value) == Written(data, size, total, hit, value);
    WriteUpdates(data, size, total, hit, value);
  }

  lemma {:induction false} HitOffset(bucket: nat, size: nat)
    requires DividesWord(size)
    ensures var hit := Hit(bucket, size);
            (hit + 1) * size <= TWO32 && WriteOffset(hit, size) == WriteOffset(bucket, size)
  {
    hide WriteOffset;
    var per := if size == 1 then TWO32 else if size == 2 then TWO32 / 2 else if size == 4 then TWO32 / 4 else TWO32 / 8;
    SameOffset(bucket, size, per);
  }

  lemma {:induction false} SameOffset(bucket: nat, size: nat, per: nat)
    requires per > 0 && per * size == TWO32
    ensures (bucket % per + 1) * size <= TWO32
    ensures WriteOffset(bucket % per, size) == WriteOffset(bucket, size)
  {
    hide WriteOffset;
    var q, hit := bucket / per, bucket % per;
    WriteOffsetBelow(bucket, size);
    WriteOffsetBelow(hit, size);
    MulMonotone(size, hit + 1, per);
    assert bucket * size == hit * size + TWO32 * q by {
      assert bucket == per * q + hit;
      assert (per * q + hit) * size == (per * size) * q + hit * size;
    }
    ModAddMultiple(hit * size, q, TWO32);
  }

  lemma {:induction false} FieldOfZero(off: nat, length: nat)
    ensures Field(0, off, length) == 0
  {
    if off > 0 { FieldOfZero(off - 1, length); } else if length > 0 { FieldOfZero(0, length - 1); }
  }

  predicate Zeros(data: seq<Byte>) {
    forall i :: 0 <= i < |data| ==> data[i] == 0
  }

  lemma {:induction false} BitsOfZero(data: seq<Byte>, offset: nat, length: nat)
    requires length >= 1 && offset + length <= 8 * |data| && Zeros(data)
    ensures GetBits(data, offset, length) == 0
    decreases length
  {
    FieldOfZero(offset % 8, length);
    if offset % 8 + length > 8 {
      var rem := 8 - offset % 8;
      BitsOfZero(data, offset, rem);
      BitsOfZero(data, offset + rem, length - rem);
      ShiftZero(rem);
    }
  }

  lemma {:induction false} SlotsOfZero(data: seq<Byte>, size: nat, total: nat)
    requires Fits(data, size, total) && Zeros(data)
    ensures Slots(data, size, total) == seq(total, _ => 0)
  {
    hide GetBits;
    forall k | 0 <= k < total ensures Slot(data, size, total, k) == 0 {
      SlotEnds(k, total, size);
      BitsOfZero(data, k * size, size);
    }
  }

  /** Whatever the bytes and the value, writing the bucket is updating its counter with the value cut to what fits. */
  ghost predicate AlwaysUpdates(bytes: nat, size: nat, total: nat, bucket: nat)
    requires 1 <= size <= 8 && total * size <= 8 * bytes && bucket < total
  {
    forall data: seq<Byte>, value: nat | |data| == bytes ::
      Slots(Written(data, size, total, bucket, value), size, total) ==
      Slots(data, size, total)[bucket := Clamp(value, size)]
  }

  /** That holds if and only if the bucket ends at or below bit 2^32. */
  lemma {:induction false} WriteIsUpdate(bytes: nat, size: nat, total: nat, bucket: nat)
    requires 1 <= size <= 8 && total * size <= 8 * bytes && bucket < total
    ensures AlwaysUpdates(bytes, size, total, bucket) <==> (bucket + 1) * size <= TWO32
  {
    hide Slots, Written, Clamp;
    if (bucket + 1) * size <= TWO32 {
      forall data: seq<Byte>, value: nat | |data| == bytes
        ensures Slots(Written(data, size, total, bucket, value), size, total)
             == Slots(data, size, total)[bucket := Clamp(value, size)]
      {
        WriteUpdates(data, size, total, bucket, value);
      }
    } else {
      var data: seq<Byte> := seq(bytes, _ => 0);
      OnesDoNotFit(data, size, total, bucket);
      SlotsAt(Written(data, size, total, bucket, Mask(size)), size, total, bucket);
      assert Slots(data, size, total)[bucket := Clamp(Mask(size), size)][bucket] == Clamp(Mask(size), size);
    }
  }

  lemma {:induction false} SlotsAt(data: seq<Byte>, size: nat, total: nat, k: nat)
    requires Fits(data, size, total) && k < total
    ensures |Slots(data, size, total)| == total && Slots(data, size, total)[k] == Slot(data, size, total, k)
  {
  }

  /** A 3-bit bucket whose first bit is 2^32 - 1: over zero bytes, writing 7 reads back 1. */
  lemma {:induction false} CutInput(data: seq<Byte>, total: nat)
    requires Fits(data, 3, total) && 1431655765 < total && Zeros(data)
    ensures Slot(Written(data, 3, total, 1431655765, 7), 3, total, 1431655765) == 1
  {
    hide GetBits, Written;
    SlotEnds(1431655765, total, 3);
    WriteIsCut(data, 3, total, 1431655765, 7);
    BitsOfZero(data, TWO32, 2);
    assert Clamp(7, 3) == 7 && Field(7, 0, 1) == 1;
  }

  /** Over zero bytes, all ones written past bit 2^32 do not read back. */
  lemma {:induction false} OnesDoNotFit(data: seq<Byte>, size: nat, total: nat, bucket: nat)
    requires Fits(data, size, total) && bucket < total && TWO32 < (bucket + 1) * size && Zeros(data)
    ensures Slot(Written(data, size, total, bucket, Mask(size)), size, total, bucket) != Clamp(Mask(size), size)
  {
    hide GetBits, Written, ShiftLeft, Field;
    assert (bucket + 1) * size == bucket * size + size;
    SlotEnds(bucket, total, size);
    var ones := Mask(size);
    if TWO32 <= bucket * size {
      WriteIsLost(data, size, total, bucket, ones);
      BitsOfZero(data, bucket * size, size);
    } else {
      var first := TWO32 - bucket * size;
      WriteIsCut(data, size, total, bucket, ones);
      BitsOfZero(data, TWO32, size - first);
      ShiftZero(first);
      FieldBound(ones, 0, first);
      Pow2Monotone(first, size - 1);
    }
  }

  lemma {:induction false} JoinPieces(low: nat, high: nat, k: nat, n: nat)
    requires low < Pow2(k) && high < Pow2(n) && k + n <= 8
    ensures Or(low, ShiftLeft(high, k)) == low + ShiftLeft(high, k) < Pow2(k + n)
  {
    hide WordOps.BitwiseN, Pow2;
    var bits := 32;
    ShiftedBound(high, k, n, low);
    Pow2Monotone(k + n, bits);
    OrPieces(low, high, k, bits);
  }

  lemma {:induction false} ShiftedBound(high: nat, k: nat, n: nat, low: nat)
    requires high < Pow2(n) && low < Pow2(k)
    ensures low + ShiftLeft(high, k) < Pow2(k + n)
  {
    if k > 0 { ShiftedBound(high, k - 1, n, low / 2); }
  }

  class Counters {
    var data: array<Byte>
    const size: nat
    const total: nat
    var count: nat

    ghost predicate Valid()
      reads this, data
    {
      Fits(data[..], size, total)
    }

    ghost function Values(): (s: seq<nat>)
      requires Valid()
      reads this, data
    {
      Slots(data[..], size, total)
    }

    constructor (n: nat, bits: nat)
      requires 1 <= bits <= 8
      ensures Valid() && fresh(data)
      ensures size == bits && total == n && count == 0
      ensures Values() == seq(n, _ => 0)
    {
      hide Slots;
      total, size, count := n, bits, 0;
      data := new Byte[(n * bits + 7) / 8](_ => 0);
      new;
      SlotsOfZero(data[..], size, total);
    }

    /** Recursive as in the source, one byte at a time. */
    method SetBits(offset: nat, length: nat, bits: nat)
      requires 1 <= length <= 8 && offset < TWO32 && offset + length <= 8 * data.Length
      modifies data
      ensures data[..] == PutBits(old(data[..]), offset, length, bits)
      decreases length
    {
      hide PutByte, ShiftRight, ShiftLeft, Mask, And, Or;
      var byteIndex, byteOffset := offset / 8, offset % 8;
      if byteOffset + length > 8 {
        var rem := 8 - byteOffset;
        SetBits(offset, rem, bits);
        SetBits((offset + rem) % TWO32, length - rem, ShiftRight(bits, rem));
        return;
      }
      PutUnderMask(data[byteIndex], byteOffset, length, bits);
      var bitMask := Mask(length);
      data[byteIndex] := And(data[byteIndex], Not(ShiftLeft(bitMask, byteOffset)));
      data[byteIndex] := Or(data[byteIndex], ShiftLeft(And(bits, bitMask), byteOffset));
    }

    method Set(bucket: nat, value: Byte)
      requires Valid() && bucket < total
      modifies this`count, data
      ensures Valid() && count == old(count) + 1
      ensures data[..] == Written(old(data[..]), size, total, bucket, value)
      ensures (bucket + 1) * size <= TWO32 ==> Values() == old(Values())[bucket := Clamp(value, size)]
      ensures TWO32 <= bucket * size ==> Values()[bucket] == old(Values())[bucket]
      ensures DividesWord(size) ==> Values() == old(Values())[Hit(bucket, size) := Clamp(value, size)]
    {
      hide PutBits, Slots, Slot, Hit, Clamp;
      SlotEnds(bucket, total, size);
      WriteOffsetBelow(bucket, size);
      ghost var before := data[..];
      SetBits(WriteOffset(bucket, size), size, Clamp(value, size));
      count := count + 1;
      if (bucket + 1) * size <= TWO32 { WriteUpdates(before, size, total, bucket, value); }
      if DividesWord(size) { WriteHits(before, size, total, bucket, value); }
      if TWO32 <= bucket * size { WriteIsLost(before, size, total, bucket, value); }
    }

    /** Recursive as in the source; the pieces' bits do not meet, so or-ing them adds them. */
    method ReadBits(offset: nat, length: nat) returns (v: nat)
      requires 1 <= length <= 8 && offset + length <= 8 * data.Length
      ensures v == GetBits(data[..], offset, length) && v < Pow2(length)
      decreases length
    {
      hide Pow2, ShiftLeft, ShiftRight, Mask, And, Or, Field;
      var byteIndex, byteOffset := offset / 8, offset % 8;
      if byteOffset + length > 8 {
        var rem := 8 - byteOffset;
        var low := ReadBits(offset, rem);
        var high := ReadBits(offset + rem, length - rem);
        JoinPieces(low, high, rem, length - rem);
        return Or(low, ShiftLeft(high, rem));
      }
      GetUnderMask(data[byteIndex], byteOffset, length);
      FieldBound(data[byteIndex], byteOffset, length);
      var bitMask := Mask(length);
      return ShiftRight(And(data[byteIndex], ShiftLeft(bitMask, byteOffset)), byteOffset);
    }

    method Get(bucket: nat) returns (v: nat)
      requires Valid() && bucket < total
      ensures v == Values()[bucket]
    {
      hide GetBits;
      SlotEnds(bucket, total, size);
      v := ReadBits(bucket * size, size);
    }

    method Reset()
      requires Valid()
      modifies this`count, data
      ensures Valid() && count == 0
      ensures Values() == seq(total, _ => 0)
    {
      hide Slots, Slot;
      for i := 0 to data.Length
        invariant forall j :: 0 <= j < i ==> data[j] == 0
      {
        data[i] := 0;
      }
      count := 0;
      SlotsOfZero(data[..], size, total);
    }
  }
}
