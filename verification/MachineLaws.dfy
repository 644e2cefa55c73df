/** What the instructions of vm/instructions.go mean for a contract: which words they read in which order, which
    bytes they move, where they jump and what they cost. */
module MachineLaws {
  import opened Arith
  import opened WordOps
  import opened WordLaws
  import opened Opcodes
  import opened OpcodeLaws
  import opened Metering
  import opened Destinations
  import opened Machine
  import opened Wrappers

  // ----- words -----

  /** The instruction took n words, left w on top of the rest and changed nothing else. */
  ghost predicate Leaves(s: State, e: Exec, n: nat, w: Word)
    requires n <= |s.stack|
  {
    e == Done(s.(stack := Drop(s.stack, n) + [w]), [])
  }

  ghost predicate MeansOnStack(i: Instr, st: seq<Word>, w: Word)
    requires Pops(i) <= |st|
  {
    match i
    case Unary(u) => Means1(u, Back(st, 0), w)
    case Binary(b) => Means2(b, Back(st, 0), Back(st, 1), w)
    case Ternary(t) => Means3(t, Back(st, 0), Back(st, 1), Back(st, 2), w)
    case _ => false
  }

  /** An arithmetic instruction pops its operands, the first from the top, and pushes their result. */
  lemma {:induction false} ArithmeticLaw(env: Env, i: Instr, s: State)
    requires i.Unary? || i.Binary? || i.Ternary?
    requires Pops(i) <= |s.stack|
    ensures exists w :: MeansOnStack(i, s.stack, w) && Leaves(s, Execute(env, i, s), Pops(i), w)
  {
    hide Apply1, Apply2, Apply3, Means1, Means2, Means3;
    var st := s.stack;
    var w := match i
      case Unary(u) => (UnaryLaw(u, Back(st, 0)); Apply1(u, Back(st, 0)))
      case Binary(b) => (BinaryLaw(b, Back(st, 0), Back(st, 1)); Apply2(b, Back(st, 0), Back(st, 1)))
      case Ternary(t) => (TernaryLaw(t, Back(st, 0), Back(st, 1), Back(st, 2));
                          Apply3(t, Back(st, 0), Back(st, 1), Back(st, 2)));
    assert MeansOnStack(i, st, w) && Leaves(s, Execute(env, i, s), Pops(i), w);
  }

  // ----- control flow -----

  /** A JUMPDEST below 2^62 that decoding from the start of the code reaches. */
  predicate Landing(code: seq<Byte>, dest: Word) {
    dest < 0x4000_0000_0000_0000 && dest < |code| && code[dest] == 0x5b && IsStart(code, dest)
  }

  /** A conditional jump reads the target from the top and the condition below it. It falls through on zero, and
      otherwise succeeds exactly for a landing place, where it then is. */
  lemma {:induction false} JumpiLaw(env: Env, s: State)
    requires |s.stack| >= 2
    ensures var dest, condition := s.stack[|s.stack| - 1], s.stack[|s.stack| - 2];
            var e := Execute(env, Jumpi, s);
            && (condition == 0 ==> e.Done? && e.s.pc == s.pc + 1)
            && (condition != 0 ==>
                  && (e.Done? <==> Landing(env.code, dest))
                  && (e.Done? ==> e.s.pc == dest)
                  && (!e.Done? ==> e.error == InvalidJumpDestination))
            && (e.Done? ==> e.s == s.(pc := e.s.pc, stack := s.stack[..|s.stack| - 2]) && e.ret == [])
  {
    hide IsStart;
  }

  lemma {:induction false} JumpLaw(env: Env, s: State)
    requires |s.stack| >= 1
    ensures var dest := s.stack[|s.stack| - 1];
            var e := Execute(env, Jump, s);
            && (e.Done? <==> Landing(env.code, dest))
            && (e.Done? ==> e == Done(s.(pc := dest, stack := s.stack[..|s.stack| - 1]), []))
            && (!e.Done? ==> e.error == InvalidJumpDestination)
  {
    hide IsStart;
  }

  /** How a turn ends, by the byte at the program counter: STOP past the end of code, the three that end the run,
      the two that choose the next instruction themselves, and for all others the instruction behind. */
  lemma {:induction false} TurnLaw(env: Env, t: QuotaTable, s: State)
    requires t.memDivision > 0 && Prepare(env, t, s).Ready?
    ensures var op := if s.pc < |env.code| then env.code[s.pc] else 0x00;
            var p := Prepare(env, t, s);
            var e := Execute(env, p.i, p.s');
            var o := Step(env, t, s);
            && Opcode(p.i) == op
            && (o.Failed? <==> e.ExecError?)
            && (o.Failed? ==> o.s == p.s' && o.error == e.error)
            && (e.Done? ==>
                  && (o.Halted? <==> op == 0x00 || op == 0xf3 || (op == 0xfd && env.set_.offchain))
                  && (o.Reverted? <==> op == 0xfd && !env.set_.offchain)
                  && (o.Halted? || o.Reverted? ==> o.s == e.s && o.ret == e.ret)
                  && (o.Running? && (op == 0x56 || op == 0x57) ==> o.s == e.s)
                  && (o.Running? && op != 0x56 && op != 0x57 ==> o.s == e.s.(pc := e.s.pc + 1)))
  {
    hide Prepare, Execute, Decode, Opcode, Halts, Reverts, Jumps;
    DecodeOpcode(env.set_, GetOp(env.code, s.pc));
    FlowByTable(env.set_, GetOp(env.code, s.pc));
  }

  /** When a turn is refused before anything is executed: the first check that fails names the error, and only
      running out of quota leaves a mark, an empty quota. */
  lemma {:induction false} RefusalLaw(env: Env, t: QuotaTable, s: State)
    requires t.memDivision > 0
    ensures var i := Instruction(env, s);
            var p := Prepare(env, t, s);
            var fits := !i.Invalid? && Pops(i) <= |s.stack| <= 1024 + Pops(i) - Pushes(i);
            && (i.Invalid? ==> p == Refused(Failed(s, InvalidOpCode)))
            && (!i.Invalid? && |s.stack| < Pops(i) ==> p == Refused(Failed(s, StackUnderflow)))
            && (!i.Invalid? && Pops(i) <= |s.stack| && |s.stack| > 1024 + Pops(i) - Pushes(i) ==>
                  p == Refused(Failed(s, StackLimitReached)))
            && (fits ==> var need := MemoryNeed(i, s.stack);
                  && (need > 0xffff_ffff_ffff_ffe0 ==> p == Refused(Failed(s, MemSizeOverflow)))
                  && (need <= 0xffff_ffff_ffff_ffe0 ==>
                        && RoundToWords(need).Some?
                        && var g := GasCost(env, t, i, s, RoundToWords(need).value);
                        && (g.GasError? ==> p == Refused(Failed(s, g.error)))
                        && (g.Gas? && g.charge && s.quota < g.cost ==>
                              p.Refused? && p.o.error == OutOfQuota && p.o.s.quota == 0)
                        && (g.Gas? && g.charge && g.cost <= s.quota ==>
                              p.Ready? && p.s'.quota == s.quota - g.cost)
                        && (g.Gas? && !g.charge ==>
                              p.Ready? && p.s'.quota == (s.quota + g.cost) % 0x1_0000_0000_0000_0000)))
  {
    hide Decode, GasCost, MemoryNeed, RoundToWords, Pops, Pushes;
    var i := Instruction(env, s);
    if !i.Invalid? && Pops(i) <= |s.stack| { RoundingLaw(MemoryNeed(i, s.stack)); }
  }

  /** Sizes round up to whole words as long as the rounded size fits 64 bits. */
  lemma {:induction false} RoundingLaw(need: nat)
    ensures RoundToWords(need).Some? <==> need <= 0xffff_ffff_ffff_ffe0
    ensures RoundToWords(need).Some? ==> RoundToWords(need).value == (need + 31) / 32 * 32
  {
  }

  // ----- stack and memory -----

  /** The memory range an instruction names, as offset and length. CALL2 names one too but does not grow memory. */
  function NamedRange(i: Instr, st: seq<Word>): (Word, Word)
    requires Pops(i) <= |st|
  {
    if i.Hash? || i.Log? || i.Return? || i.Revert? then (Back(st, 0), Back(st, 1))
    else if i.Copy? then (Back(st, 0), Back(st, 2))
    else if i.Call? then (Back(st, 3), Back(st, 4))
    else if i.Mload? || i.Mstore? then (Back(st, 0), 32)
    else if i.Mstore8? then (Back(st, 0), 1)
    else (0, 0)
  }

  /** Memory grows to the least number of whole words that covers the named range, by zeros; an empty range or one
      already covered leaves it as it is. */
  lemma {:induction false} GrowthLaw(env: Env, t: QuotaTable, s: State, k: nat)
    requires t.memDivision > 0 && |s.mem| % 32 == 0 && Prepare(env, t, s).Ready?
    ensures var p := Prepare(env, t, s);
            var (off, len) := NamedRange(p.i, s.stack);
            var mem := p.s'.mem;
            && |mem| % 32 == 0
            && (len == 0 || off + len <= |s.mem| ==> mem == s.mem)
            && (len > 0 && off + len > |s.mem| ==> off + len <= |mem| < off + len + 32)
            && (k < |mem| ==> mem[k] == if k < |s.mem| then s.mem[k] else 0)
  {
    hide Prepare, GasCost, Instruction, RoundToWords;
    NeedLaw(Prepare(env, t, s).i, s.stack);
  }

  lemma {:induction false} NeedLaw(i: Instr, st: seq<Word>)
    requires Pops(i) <= |st|
    ensures var (off, len) := NamedRange(i, st); MemoryNeed(i, st) == if len == 0 then 0 else off + len
  {
  }

  /** PUSHn: the top word has the n bytes behind the opcode as its lowest digits, zero where the code has ended,
      and the program counter moves over them. */
  lemma {:induction false} PushLaw(env: Env, s: State, n: nat, k: nat)
    requires k < n <= 32
    ensures var e := Execute(env, Push(n), s);
            && e.Done? && e.s.pc == s.pc + n && |e.s.stack| == |s.stack| + 1
            && e.s == s.(pc := s.pc + n, stack := s.stack + [Back(e.s.stack, 0)])
            && Back(e.s.stack, 0) < Pow256(n)
            && (Back(e.s.stack, 0) / Pow256(n - 1 - k)) % 256 ==
               if s.pc + 1 + k < |env.code| then env.code[s.pc + 1 + k] else 0
  {
    hide FromBytes, Pow256;
    var data := PushData(env.code, s.pc, n);
    FromBytesBound(data);
    FromBytesWord(data);
    DigitOf(data, k);
  }

  /** DUPn copies the n-th word from the top; SWAPn exchanges the top with the word n below it. */
  lemma {:induction false} DupSwapLaw(env: Env, s: State, n: nat, k: nat)
    requires n >= 1 && k < |s.stack|
    ensures n <= |s.stack| ==>
              Execute(env, Dup(n), s) == Done(s.(stack := s.stack + [s.stack[|s.stack| - n]]), [])
    ensures n < |s.stack| ==>
              var e := Execute(env, Swap(n), s);
              && e.Done? && |e.s.stack| == |s.stack| && e.s == s.(stack := e.s.stack)
              && Back(e.s.stack, k) == if k == 0 then Back(s.stack, n) else if k == n then Back(s.stack, 0)
                                       else Back(s.stack, k)
  {
  }

  /** What a copying instruction reads as byte k of its source. */
  function SourceByte(env: Env, s: State, from: Source, k: nat): Byte {
    var data := match from case CallData => env.data case Code => env.code case ReturnData => s.returnData;
    if k < |data| then data[k] else 0
  }

  /** The copies take the target, the source offset and the length in this order. Call data and code read as zero
      past their end; returned data must be there in full. */
  lemma {:induction false} CopyLaw(env: Env, s: State, from: Source, k: nat)
    requires |s.stack| >= 3 && MemoryNeed(Copy(from), s.stack) <= |s.mem|
    ensures var to, off, len := Back(s.stack, 0), Back(s.stack, 1), Back(s.stack, 2);
            var e := Execute(env, Copy(from), s);
            && (e.Done? <==> from != ReturnData || (off + len <= |s.returnData| && off + len < TWO64))
            && (!e.Done? ==> e.error == ReturnDataOutOfBounds)
            && (e.Done? ==>
                  && |e.s.mem| == |s.mem| && e.ret == []
                  && e.s == s.(stack := s.stack[..|s.stack| - 3], mem := e.s.mem)
                  && (k < len ==> to + k < |s.mem| && e.s.mem[to + k] == SourceByte(env, s, from, off + k)))
  {
  }

  /** MSTORE writes the 32 digits of a word, the highest first, and MSTORE8 the lowest one. */
  lemma {:induction false} StoreLaw(env: Env, s: State, k: nat)
    requires |s.stack| >= 2 && k < 32
    ensures var off, w := Back(s.stack, 0), Back(s.stack, 1);
            && (off + 32 <= |s.mem| ==>
                  var e := Execute(env, Mstore, s);
                  && e.Done? && |e.s.mem| == |s.mem| && e.ret == []
                  && e.s == s.(stack := s.stack[..|s.stack| - 2], mem := e.s.mem)
                  && e.s.mem[off + k] == (w / Pow256(31 - k)) % 256)
            && (off + 1 <= |s.mem| ==>
                  Execute(env, Mstore8, s) ==
                  Done(s.(stack := s.stack[..|s.stack| - 2], mem := s.mem[off := w % 256]), []))
  {
    hide BigEndian, Pow256;
    BigEndianDigit(Back(s.stack, 1), 32, k);
    if Back(s.stack, 0) + 1 <= |s.mem| {
      assert MemSet(s.mem, Back(s.stack, 0), [Back(s.stack, 1) % 256]) ==
             s.mem[Back(s.stack, 0) := Back(s.stack, 1) % 256];
    }
  }

  /** MLOAD and CALLDATALOAD read 32 digits, the highest first. */
  lemma {:induction false} LoadLaw(env: Env, s: State, k: nat)
    requires |s.stack| >= 1 && k < 32
    ensures var off := Back(s.stack, 0);
            && (off + 32 <= |s.mem| ==>
                  exists w: Word :: Leaves(s, Execute(env, Mload, s), 1, w)
                                    && (w / Pow256(31 - k)) % 256 == s.mem[off + k])
            && exists w: Word :: Leaves(s, Execute(env, Lookup(CALLDATALOAD), s), 1, w)
                                 && (w / Pow256(31 - k)) % 256 == SourceByte(env, s, CallData, off + k)
  {
    hide FromBytes, Pow256;
    var off := Back(s.stack, 0);
    if off + 32 <= |s.mem| {
      DigitOf(s.mem[off..off + 32], k);
      FromBytesWord(s.mem[off..off + 32]);
      assert Leaves(s, Execute(env, Mload, s), 1, FromBytes(s.mem[off..off + 32]));
    }
    DigitOf(GetData(env.data, off, 32), k);
    FromBytesWord(GetData(env.data, off, 32));
    assert Leaves(s, Execute(env, Lookup(CALLDATALOAD), s), 1, FromBytes(GetData(env.data, off, 32)));
  }

  // ----- effects -----

  /** SSTORE takes the slot, then the value; a later SLOAD of the slot reads the value back, and of any other slot
      what it read before. Off chain nothing is written. */
  lemma {:induction false} StorageLaw(env: Env, s: State, loc: Word)
    requires |s.stack| >= 2
    ensures var slot, value := Back(s.stack, 0), Back(s.stack, 1);
            var e := Execute(env, Sstore, s);
            && e.Done? && e.ret == [] && e.s == s.(stack := s.stack[..|s.stack| - 2], storage := e.s.storage)
            && LookupValue(env, e.s, SLOAD, loc) ==
               if loc == slot && !env.set_.offchain then value else LookupValue(env, s, SLOAD, loc)
  {
    hide FromBytes, MinimalBytes;
    MinimalBytesRoundTrip(Back(s.stack, 1));
  }

  /** SLOAD and BALANCE replace the word on top by what the chain holds under it. */
  lemma {:induction false} LookupLaw(env: Env, s: State)
    requires |s.stack| >= 1
    ensures var key := Back(s.stack, 0);
            && Leaves(s, Execute(env, Lookup(BALANCE), s), 1, env.balance(key))
            && FromBytes(Current(env, s, key)) < TWO256
            && Leaves(s, Execute(env, Lookup(SLOAD), s), 1, FromBytes(Current(env, s, key)))
            && Current(env, s, key) == if key in s.storage then s.storage[key] else env.original(key)
  {
    hide FromBytes;
    FromBytesWord(Current(env, s, Back(s.stack, 0)));
  }

  /** CALL and CALL2 take recipient, token, amount and the memory range of the data, in this order, and add one
      send block; CALL2 leaves its hash. Off chain nothing is sent and the hash reads zero. Memory is not grown for
      CALL2, so its range may end beyond it: then the run-time decides between some bytes and a panic. */
  lemma {:induction false} CallLaw(env: Env, s: State, hashed: bool)
    requires |s.stack| >= 5 && (!hashed ==> MemoryNeed(Call, s.stack) <= |s.mem|)
    ensures var to, token, amount := Back(s.stack, 0), Back(s.stack, 1), Back(s.stack, 2);
            var off, len := Back(s.stack, 3), Back(s.stack, 4);
            var rest := s.stack[..|s.stack| - 5];
            var e := Execute(env, if hashed then Call2 else Call, s);
            && (env.set_.offchain ==> e == Done(s.(stack := if hashed then rest + [0] else rest), []))
            && (!env.set_.offchain ==>
                  (e.Done? <==> len == 0 || off + len <= |s.mem| || env.beyond(s.mem, off, len).Some?))
            && (!e.Done? ==> e.error == Panicked)
            && (!env.set_.offchain && e.Done? ==>
                  && e.ret == []
                  && |e.s.sends| == |s.sends| + 1 && e.s.sends[..|s.sends|] == s.sends
                  && var send := e.s.sends[|s.sends|];
                  && send.to == to && send.token == token && send.amount == amount
                  && send.data == (if len == 0 then []
                                   else if off + len <= |s.mem| then s.mem[off..off + len]
                                   else env.beyond(s.mem, off, len).value)
                  && e.s == s.(sends := e.s.sends,
                               stack := if hashed then rest + [env.sendHash(e.s.sends)] else rest))
  {
  }

  /** The instructions that read the memory range named by the top two words: offset, then length. */
  lemma {:induction false} RangeLaw(env: Env, i: Instr, s: State)
    requires i.Hash? || i.Log? || i.Return? || i.Revert?
    requires Pops(i) <= |s.stack| && MemoryNeed(i, s.stack) <= |s.mem|
    ensures var off, len := Back(s.stack, 0), Back(s.stack, 1);
            && (len > 0 ==> off + len <= |s.mem|)
            && var bytes := if len == 0 then [] else s.mem[off..off + len];
            var rest := s.stack[..|s.stack| - Pops(i)];
            var e := Execute(env, i, s);
            && (i.Hash? ==> Leaves(s, e, 2, env.digest(i.d, bytes)))
            && (i.Return? ==> e == Done(s.(stack := rest), bytes))
            && (i.Revert? && env.set_.offchain ==> e == Done(s.(stack := rest), []))
            && (i.Revert? && !env.set_.offchain ==> e == Done(s.(stack := rest, returnData := bytes), bytes))
            && (i.Log? && env.set_.offchain ==> e == Done(s.(stack := rest), []))
            && (i.Log? && !env.set_.offchain ==>
                  && e.Done? && e.ret == [] && e.s == s.(stack := rest, logs := e.s.logs)
                  && |e.s.logs| == |s.logs| + 1 && e.s.logs[..|s.logs|] == s.logs
                  && e.s.logs[|s.logs|].data == bytes && |e.s.logs[|s.logs|].topics| == i.n
                  && forall k | 0 <= k < i.n :: e.s.logs[|s.logs|].topics[k] == Back(s.stack, 2 + k))
  {
  }

  /** What the context instructions push: the position and the sizes as they are, the identity of the account and
      its chain always, and what belongs to the block being received only on chain. */
  lemma {:induction false} ContextLaw(env: Env, s: State, c: Context)
    ensures exists w :: Leaves(s, Execute(env, PushContext(c), s), 0, w)
                        && (c.PC? && s.pc < TWO256 ==> w == s.pc)
                        && (c.MSIZE? && |s.mem| < TWO256 ==> w == |s.mem|)
                        && (c.CODESIZE? && |env.code| < TWO256 ==> w == |env.code|)
                        && (c.CALLDATASIZE? && |env.data| < TWO256 ==> w == |env.data|)
                        && (c.RETURNDATASIZE? && |s.returnData| < TWO256 ==> w == |s.returnData|)
                        && (c in {ADDRESS, ACCOUNTHEIGHT, PREVHASH} ==> w == env.context(c))
                        && (c in {CALLER, CALLVALUE, TIMESTAMP, HEIGHT, TOKENID, FROMHASH, SEED, RANDOM} ==>
                              w == if env.set_.offchain then 0 else env.context(c))
  {
    assert Leaves(s, Execute(env, PushContext(c), s), 0, ContextValue(env, s, c));
  }

  // ----- prices -----

  /** 32-byte words of a length. */
  function Words(len: nat): nat { (len + 31) / 32 }

  /** The table's price of an instruction that also pays for memory, over the integers. */
  function TablePrice(t: QuotaTable, i: Instr, st: seq<Word>): int
    requires Pops(i) <= |st|
  {
    match i
    case Hash(_) => t.flat(i) + Words(Back(st, 1)) * t.digestWord
    case Copy(from) => t.copy(from) + Words(Back(st, 2)) * t.copyWord
    case Log(n) => t.flat(Log(0)) + (n * t.logTopic) % TWO64 + Back(st, 1) * t.logData
    case Mload => t.flat(i)
    case Mstore => t.flat(i)
    case Mstore8 => t.flat(i)
    case _ => 0
  }

  /** The length that the price grows with. */
  function PricedLength(i: Instr, st: seq<Word>): Word
    requires Pops(i) <= |st|
  {
    if i.Hash? || i.Log? then Back(st, 1) else if i.Copy? then Back(st, 2) else 0
  }

  predicate PaysForMemory(i: Instr) {
    i.Hash? || i.Copy? || i.Log? || i.Mload? || i.Mstore? || i.Mstore8? || i.Return? || i.Revert?
  }

  /** A price per word is the product over the integers, or refused. */
  lemma {:induction false} PerWordExact(len: Word, price: Uint64)
    ensures PerWord(len, price).Some? <==> len < TWO64 && Words(len) * price < TWO64
    ensures PerWord(len, price).Some? ==> PerWord(len, price).value == Words(len) * price
    ensures Words(len) * price >= 0
  {
    MulNonNegative(Words(len), price);
  }

  lemma {:induction false} LogPriceExact(t: QuotaTable, n: nat, len: Word)
    ensures n * t.logTopic >= 0 && len * t.logData >= 0
    ensures var price := (n * t.logTopic) % TWO64 + len * t.logData;
            && (LogPrice(t, n, len).Some? <==> len < TWO64 && price < TWO64)
            && (LogPrice(t, n, len).Some? ==> LogPrice(t, n, len).value == price)
  {
    MulNonNegative(n, t.logTopic);
    MulNonNegative(len, t.logData);
  }

  /** Three parts are added without wrapping, or refused. */
  lemma {:induction false} FeePlusExact(t: QuotaTable, s: State, size: Uint64, fixed: Uint64, variable: Option<Uint64>)
    requires t.memDivision > 0
    ensures var m := MemoryGasCost(t.memQuota, t.memDivision, |s.mem|, s.lastGas, size);
            var g := FeePlus(t, s, size, fixed, variable);
            && (g.Gas? <==> m.Some? && variable.Some? && m.value.fee + fixed + variable.value < TWO64)
            && (g.Gas? ==> g == Gas(m.value.fee + fixed + variable.value, true, m.value.last, s.modified))
            && (!g.Gas? ==> g.error == GasUintOverflow)
  {
    hide MemoryGasCost;
  }

  /** The gas of a memory instruction is the memory fee plus the table's price, over the integers: it is refused
      exactly if that, or the length it depends on, does not fit 64 bits or the size is over the guard. */
  lemma {:induction false} MemoryPriceLaw(env: Env, t: QuotaTable, i: Instr, s: State, size: Uint64)
    requires t.memDivision > 0 && PaysForMemory(i) && Pops(i) <= |s.stack|
    ensures var m := MemoryGasCost(t.memQuota, t.memDivision, |s.mem|, s.lastGas, size);
            var g := GasCost(env, t, i, s, size);
            var price := TablePrice(t, i, s.stack);
            && (g.Gas? <==> m.Some? && PricedLength(i, s.stack) < TWO64 && m.value.fee + price < TWO64)
            && (g.Gas? ==> g == Gas(m.value.fee + price, true, m.value.last, s.modified))
            && (!g.Gas? ==> g.error == GasUintOverflow)
  {
    hide MemoryGasCost, FeePlus, PerWord, LogPrice, TablePrice, PricedLength;
    var fixed, variable := FixedPart(t, i), VariablePart(t, i, s.stack);
    FeePlusExact(t, s, size, fixed, variable);
    PartsLaw(t, i, s.stack);
  }

  function FixedPart(t: QuotaTable, i: Instr): Uint64 {
    match i
    case Copy(from) => t.copy(from)
    case Log(_) => t.flat(Log(0))
    case Return => 0
    case Revert => 0
    case _ => t.flat(i)
  }

  function VariablePart(t: QuotaTable, i: Instr, st: seq<Word>): Option<Uint64>
    requires Pops(i) <= |st|
  {
    match i
    case Hash(_) => PerWord(Back(st, 1), t.digestWord)
    case Copy(_) => PerWord(Back(st, 2), t.copyWord)
    case Log(n) => LogPrice(t, n, Back(st, 1))
    case _ => Some(0)
  }

  lemma {:induction false} PartsLaw(t: QuotaTable, i: Instr, st: seq<Word>)
    requires PaysForMemory(i) && Pops(i) <= |st|
    ensures var v := VariablePart(t, i, st);
            var price := TablePrice(t, i, st);
            && price >= FixedPart(t, i)
            && (v.Some? <==> PricedLength(i, st) < TWO64 && price - FixedPart(t, i) < TWO64)
            && (v.Some? ==> FixedPart(t, i) + v.value == price)
  {
    hide PerWord, LogPrice, Words;
    if i.Hash? {
      PerWordExact(Back(st, 1), t.digestWord);
    } else if i.Copy? {
      PerWordExact(Back(st, 2), t.copyWord);
    } else if i.Log? {
      LogPriceExact(t, i.n, Back(st, 1));
    }
  }

  /** Everything else has the flat price of its table entry; STOP is free. */
  lemma {:induction false} FlatPriceLaw(env: Env, t: QuotaTable, i: Instr, s: State, size: Uint64)
    requires t.memDivision > 0 && Pops(i) <= |s.stack|
    requires !PaysForMemory(i) && !i.Call? && !i.Call2? && !i.Sstore? && i != Binary(EXP)
    ensures GasCost(env, t, i, s, size) == Gas(if i.Stop? then 0 else t.flat(i), true, s.lastGas, s.modified)
  {
  }

  /** A value has n bytes exactly if it lies between the powers of 256. */
  lemma {:induction false} ByteCount(v: nat)
    ensures var n := |MinimalBytes(v)|;
            v < Pow256(n) && (v > 0 ==> Pow256(n - 1) <= v)
  {
    if v > 0 { ByteCount(v / 256); }
  }

  /** EXP pays for each byte of the exponent, the second word. */
  lemma {:induction false} ExpPriceLaw(env: Env, t: QuotaTable, s: State, size: Uint64, n: nat)
    requires t.memDivision > 0 && |s.stack| >= 2
    requires Back(s.stack, 1) < Pow256(n) && (n > 0 ==> Pow256(n - 1) <= Back(s.stack, 1))
    ensures n * t.expByte >= 0
    ensures var price := (n * t.expByte) % TWO64 + t.flat(Binary(EXP));
            GasCost(env, t, Binary(EXP), s, size) ==
            if price < TWO64 then Gas(price, true, s.lastGas, s.modified) else GasError(GasUintOverflow)
  {
    hide Pow256, MinimalBytes;
    MulNonNegative(n, t.expByte);
    var m := |MinimalBytes(Back(s.stack, 1))|;
    ByteCount(Back(s.stack, 1));
    SameByteCount(Back(s.stack, 1), n, m);
  }

  lemma {:induction false} SameByteCount(v: nat, n: nat, m: nat)
    requires v < Pow256(n) && (n > 0 ==> Pow256(n - 1) <= v)
    requires v < Pow256(m) && (m > 0 && v > 0 ==> Pow256(m - 1) <= v) && (v == 0 ==> m == 0)
    ensures n == m
  {
    if n > m { Pow256Grows(m, n - 1); }
    if m > n { Pow256Grows(n, m - 1); }
    if v == 0 { Pow256Grows(0, if n > 0 then n - 1 else 0); }
  }

  lemma {:induction false} Pow256Grows(a: nat, b: nat)
    requires a <= b
    ensures 1 <= Pow256(a) <= Pow256(b)
  {
    if a < b { Pow256Grows(a, b - 1); }
    else if a > 0 { Pow256Grows(a - 1, a - 1); }
  }

  /** SSTORE takes slot and value in this order, counts the slot if writes are limited, and is refused exactly at the
      101st slot; its price depends on what the slot held before the run, holds now and is to hold. */
  lemma {:induction false} SstorePriceLaw(env: Env, t: QuotaTable, s: State, size: Uint64)
    requires t.memDivision > 0 && |s.stack| >= 2
    ensures var slot, value := Back(s.stack, 0), Back(s.stack, 1);
            var counted := if env.limitWrites then s.modified + {slot} else s.modified;
            var g := GasCost(env, t, Sstore, s, size);
            && (g.GasError? <==> env.limitWrites && |counted| > 100)
            && (g.GasError? ==> g.error == StorageModifyLimit)
            && (g.Gas? ==>
                  var current := if slot in s.storage then s.storage[slot] else env.original(slot);
                  var c := SstoreCost(t.sstore, env.original(slot), current, Encode(value));
                  g == Gas(c.cost, c.charge, s.lastGas, counted))
  {
    hide SstoreCost, MinimalBytes;
  }

  /** A call pays the price of the send block above what the table allows for, and the memory fee. */
  lemma {:induction false} CallPriceLaw(env: Env, t: QuotaTable, i: Instr, s: State, size: Uint64)
    requires t.memDivision > 0 && |s.stack| >= 5 && (i.Call? || i.Call2?)
    ensures var m := MemoryGasCost(t.memQuota, t.memDivision, |s.mem|, s.lastGas, size);
            var send := env.sendCost(s.stack, s.mem);
            var g := GasCost(env, t, i, s, size);
            && (m.None? ==> g == GasError(GasUintOverflow))
            && (m.Some? && send.NoCost? ==> g == GasError(send.error))
            && (m.Some? && send.Cost? ==>
                  var price := m.value.fee + if send.cost > t.callMinus then send.cost - t.callMinus else 0;
                  g == if price < TWO64 then Gas(price, true, m.value.last, s.modified)
                       else GasError(GasUintOverflow))
  {
    hide MemoryGasCost;
  }
}
