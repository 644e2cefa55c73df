/** vm/destination.go: which code positions are instructions and which are PUSH data. */
module Destinations {
  import opened Arith

  const PUSH1: Byte := 0x60
  const PUSH32: Byte := 0x7f
  const JUMPDEST: Byte := 0x5b

  function InstructionLength(op: Byte): (n: nat)
    ensures 1 <= n <= 33
  {
    if PUSH1 <= op <= PUSH32 then op - PUSH1 + 2 else 1
  }

  /** Decoding left to right from position i reaches p as the first byte of an instruction. */
  predicate StartFrom(code: seq<Byte>, i: nat, p: nat)
    decreases |code| - i
  {
    i == p || (i < p && i < |code| && StartFrom(code, i + InstructionLength(code[i]), p))
  }

  predicate IsStart(code: seq<Byte>, p: nat) {
    StartFrom(code, 0, p)
  }

  /** p lies in the immediate bytes of an instruction that decoding reaches. */
  ghost predicate IsImmediate(code: seq<Byte>, p: nat) {
    exists s :: 0 <= s < |code| && IsStart(code, s) && s < p < s + InstructionLength(code[s])
  }

  lemma {:induction false} NextStart(code: seq<Byte>, i: nat, s: nat)
    requires s < |code| && StartFrom(code, i, s)
    ensures StartFrom(code, i, s + InstructionLength(code[s]))
    decreases |code| - i
  {
    if i < s { NextStart(code, i + InstructionLength(code[i]), s); }
  }

  lemma {:induction false} NoStartInside(code: seq<Byte>, i: nat, s: nat, p: nat)
    requires s < |code| && StartFrom(code, i, s) && s < p < s + InstructionLength(code[s])
    ensures !StartFrom(code, i, p)
    decreases |code| - i
  {
    if i < s { NoStartInside(code, i + InstructionLength(code[i]), s, p); }
  }

  lemma {:induction false} StartOrInside(code: seq<Byte>, i: nat, p: nat) returns (s: nat)
    requires i <= p < |code|
    ensures i <= s <= p && StartFrom(code, i, s) && p < s + InstructionLength(code[s])
    decreases |code| - i
  {
    var next := i + InstructionLength(code[i]);
    if p < next {
      s := i;
    } else {
      s := StartOrInside(code, next, p);
    }
  }

  /** Every code position is either an instruction or an immediate, never both. */
  lemma {:induction false} StartXorImmediate(code: seq<Byte>, p: nat)
    requires p < |code|
    ensures IsStart(code, p) <==> !IsImmediate(code, p)
  {
    var s := StartOrInside(code, 0, p);
    assert IsStart(code, s);
    if IsStart(code, p) {
      forall t | 0 <= t < |code| && IsStart(code, t) ensures !(t < p < t + InstructionLength(code[t])) {
        if t < p < t + InstructionLength(code[t]) { NoStartInside(code, 0, t, p); }
      }
    } else {
      assert s < p < s + InstructionLength(code[s]);
    }
  }

  // ----- the bit vector -----

  predicate Marked(bits: seq<bv8>, p: nat)
    requires p / 8 < |bits|
  {
    bits[p / 8] & (0x80 >> (p % 8)) != 0
  }

  lemma {:induction false} MaskBit(k: nat, j: nat)
    requires k < 8 && j < 8
    ensures ((0x80 as bv8) >> k) & ((0x80 as bv8) >> j) != 0 <==> j == k
    ensures ((0xFF as bv8) >> k) & ((0x80 as bv8) >> j) != 0 <==> k <= j
    ensures !((0xFF as bv8) >> k) & ((0x80 as bv8) >> j) != 0 <==> j < k
  {
  }

  lemma {:induction false} OrTest(b: bv8, mask: bv8, bit: bv8)
    ensures (b | mask) & bit != 0 <==> b & bit != 0 || mask & bit != 0
  {
    assert (b | mask) & bit == (b & bit) | (mask & bit);
  }

  method Set(bits: array<bv8>, pos: nat)
    requires pos / 8 < bits.Length
    modifies bits
    ensures forall p: nat | p / 8 < bits.Length ::
              Marked(bits[..], p) <==> old(Marked(bits[..], p)) || p == pos
  {
    bits[pos / 8] := bits[pos / 8] | (0x80 >> (pos % 8));
    forall p: nat | p / 8 < bits.Length
      ensures Marked(bits[..], p) <==> old(Marked(bits[..], p)) || p == pos
    {
      if p / 8 == pos / 8 {
        OrTest(old(bits[pos / 8]), 0x80 >> (pos % 8), 0x80 >> (p % 8));
        MaskBit(pos % 8, p % 8);
      }
    }
  }

  method Set8(bits: array<bv8>, pos: nat)
    requires pos / 8 + 1 < bits.Length
    modifies bits
    ensures forall p: nat | p / 8 < bits.Length ::
              Marked(bits[..], p) <==> old(Marked(bits[..], p)) || pos <= p < pos + 8
  {
    bits[pos / 8] := bits[pos / 8] | (0xFF >> (pos % 8));
    bits[pos / 8 + 1] := bits[pos / 8 + 1] | !((0xFF as bv8) >> (pos % 8));
    forall p: nat | p / 8 < bits.Length
      ensures Marked(bits[..], p) <==> old(Marked(bits[..], p)) || pos <= p < pos + 8
    {
      MaskBit(pos % 8, p % 8);
      if p / 8 == pos / 8 {
        OrTest(old(bits[pos / 8]), 0xFF >> (pos % 8), 0x80 >> (p % 8));
      } else if p / 8 == pos / 8 + 1 {
        OrTest(old(bits[pos / 8 + 1]), !((0xFF as bv8) >> (pos % 8)), 0x80 >> (p % 8));
      }
    }
  }

  /** What a finished analysis of code says. */
  ghost predicate Analysed(bits: seq<bv8>, code: seq<Byte>) {
    |bits| == |code| / 8 + 5 &&
    forall p: nat | p < |code| :: Marked(bits, p) <==> IsImmediate(code, p)
  }

  lemma {:induction false} NothingMarked(bits: seq<bv8>)
    requires forall i :: 0 <= i < |bits| ==> bits[i] == 0
    ensures forall p: nat | p / 8 < |bits| :: !Marked(bits, p)
  {
  }

  lemma {:induction false} FirstStart(code: seq<Byte>)
    ensures IsStart(code, 0)
  {
  }

  method CodeBitmap(code: seq<Byte>) returns (bits: array<bv8>)
    ensures fresh(bits) && Analysed(bits[..], code)
  {
    hide Marked, StartFrom;
    bits := new bv8[|code| / 8 + 5](i => 0);
    NothingMarked(bits[..]);
    FirstStart(code);
    var pc := 0;
    while pc < |code|
      invariant 0 <= pc && IsStart(code, pc)
      invariant forall p: nat | p / 8 < bits.Length :: Marked(bits[..], p) <==> p < pc && !IsStart(code, p)
      decreases |code| - pc
    {
      var op := code[pc];
      ghost var start, next := pc, pc + InstructionLength(op);
      NextStart(code, 0, pc);
      forall p | start < p < next ensures !IsStart(code, p) { NoStartInside(code, 0, start, p); }
      if PUSH1 <= op <= PUSH32 {
        var numbits := op - PUSH1 + 1;
        pc := pc + 1;
        while numbits >= 8
          invariant 0 <= numbits && pc + numbits == next && start < pc
          invariant forall p: nat | p / 8 < bits.Length :: Marked(bits[..], p) <==> p < pc && !IsStart(code, p)
        {
          Set8(bits, pc);
          pc := pc + 8;
          numbits := numbits - 8;
        }
        while numbits > 0
          invariant 0 <= numbits && pc + numbits == next && start < pc
          invariant forall p: nat | p / 8 < bits.Length :: Marked(bits[..], p) <==> p < pc && !IsStart(code, p)
        {
          Set(bits, pc);
          pc := pc + 1;
          numbits := numbits - 1;
        }
      } else {
        pc := pc + 1;
      }
    }
    forall p: nat | p < |code|
      ensures Marked(bits[..], p) <==> IsImmediate(code, p)
    {
      StartXorImmediate(code, p);
    }
  }

  // ----- jump destinations -----

  /** A JUMPDEST byte that left-to-right decoding reaches as an instruction. */
  predicate ValidJump(code: seq<Byte>, dest: nat) {
    dest < 0x4000_0000_0000_0000 && dest < |code| && code[dest] == JUMPDEST && IsStart(code, dest)
  }

  /** The per-contract cache of analysed codes. */
  class Cache<Address(==)> {
    var analysed: map<Address, seq<bv8>>
    ghost var codes: map<Address, seq<Byte>>

    ghost predicate Valid()
      reads this
    {
      forall a | a in analysed :: a in codes && Analysed(analysed[a], codes[a])
    }

    constructor ()
      ensures Valid() && analysed == map[] && codes == map[]
    {
      analysed, codes := map[], map[];
    }

    method Has(addr: Address, code: seq<Byte>, dest: nat) returns (ok: bool)
      requires Valid() && (addr in codes ==> codes[addr] == code)
      modifies this
      ensures Valid() && codes == old(codes)[addr := code]
      ensures ok <==> ValidJump(code, dest)
    {
      codes := codes[addr := code];
      if dest >= 0x4000_0000_0000_0000 || dest >= |code| {
        return false;
      }
      if addr !in analysed {
        var bits := CodeBitmap(code);
        analysed := analysed[addr := bits[..]];
      }
      StartXorImmediate(code, dest);
      ok := code[dest] == JUMPDEST && !Marked(analysed[addr], dest);
    }
  }
}
