/** What holds in every state of every run of the interpreter. */
module MachineProofs {
  import opened Arith
  import opened WordOps
  import opened Opcodes
  import opened Metering
  import opened Destinations
  import opened Machine
  import opened MapSum
  import opened Wrappers

  // ----- one instruction -----

  /** The control flow an instruction may cause, before the loop's own increment. */
  ghost predicate NextPc(env: Env, i: Instr, pc: nat, pc': nat) {
    match i
    case Push(n) => pc' == pc + n
    case Jump => ValidJump(env.code, pc')
    case Jumpi => pc' == pc + 1 || ValidJump(env.code, pc')
    case _ => pc' == pc
  }

  /** An instruction moves the stack by what its table entry declares, keeps the memory length, leaves
      the meters alone, and only an on-chain SSTORE writes storage: the one slot it names. */
  lemma {:induction false} ExecuteFrame(env: Env, i: Instr, s: State)
    requires Pops(i) <= |s.stack| && MemoryNeed(i, s.stack) <= |s.mem|
    requires i.Push? ==> i.n <= 32
    requires i.Dup? ==> i.n >= 1
    ensures var e := Execute(env, i, s);
            e.Done? ==>
              && |e.s.stack| == |s.stack| - Pops(i) + Pushes(i)
              && |e.s.mem| == |s.mem|
              && e.s.quota == s.quota && e.s.lastGas == s.lastGas && e.s.modified == s.modified
              && e.s.storage == (if i.Sstore? && !env.set_.offchain
                                 then s.storage[Back(s.stack, 0) := Encode(Back(s.stack, 1))]
                                 else s.storage)
              && NextPc(env, i, s.pc, e.s.pc)
  {
    hide Execute, Encode;
    ExecuteMovesStack(env, i, s);
    ExecuteKeepsMeters(env, i, s);
  }

  lemma {:induction false} ExecuteMovesStack(env: Env, i: Instr, s: State)
    requires Pops(i) <= |s.stack| && MemoryNeed(i, s.stack) <= |s.mem|
    requires i.Push? ==> i.n <= 32
    requires i.Dup? ==> i.n >= 1
    ensures var e := Execute(env, i, s);
            e.Done? ==> |e.s.stack| == |s.stack| - Pops(i) + Pushes(i) && |e.s.mem| == |s.mem|
  {
    hide Apply1, Apply2, Apply3, ContextValue, LookupValue, FromBytes, BigEndian, GetData, PushData, Topics,
         CopySource, SendData, Encode, ValidJump;
  }

  lemma {:induction false} ExecuteKeepsMeters(env: Env, i: Instr, s: State)
    requires Pops(i) <= |s.stack| && MemoryNeed(i, s.stack) <= |s.mem|
    requires i.Push? ==> i.n <= 32
    requires i.Dup? ==> i.n >= 1
    ensures var e := Execute(env, i, s);
            e.Done? ==>
              && e.s.quota == s.quota && e.s.lastGas == s.lastGas && e.s.modified == s.modified
              && e.s.storage == (if i.Sstore? && !env.set_.offchain
                                 then s.storage[Back(s.stack, 0) := Encode(Back(s.stack, 1))]
                                 else s.storage)
              && NextPc(env, i, s.pc, e.s.pc)
  {
    hide Apply1, Apply2, Apply3, ContextValue, LookupValue, FromBytes, BigEndian, GetData, PushData, Topics,
         CopySource, SendData, Encode, ValidJump, MemSet, MemGet, Drop;
  }

  /** Words below the ones an instruction declares keep their value and place. */
  lemma {:induction false} ExecuteKeepsDeepStack(env: Env, i: Instr, s: State)
    requires Pops(i) <= |s.stack| && MemoryNeed(i, s.stack) <= |s.mem|
    requires i.Push? ==> i.n <= 32
    requires i.Dup? ==> i.n >= 1
    ensures var e := Execute(env, i, s);
            e.Done? ==> |e.s.stack| >= |s.stack| - Pops(i) && Drop(s.stack, Pops(i)) <= e.s.stack
  {
    hide Apply1, Apply2, Apply3, ContextValue, LookupValue, FromBytes, BigEndian, GetData, PushData, Topics,
         CopySource, SendData, Encode, ValidJump;
  }

  /** The bytes an instruction may write. */
  ghost predicate Written(i: Instr, stack: seq<Word>, k: nat)
    requires Pops(i) <= |stack|
  {
    match i
    case Mstore => Back(stack, 0) <= k < Back(stack, 0) + 32
    case Mstore8 => k == Back(stack, 0)
    case Copy(_) => Back(stack, 0) <= k < Back(stack, 0) + Back(stack, 2)
    case _ => false
  }

  /** Memory changes only inside the range the instruction names, and that range is inside memory. */
  lemma {:induction false} ExecuteTouches(env: Env, i: Instr, s: State, k: nat)
    requires Pops(i) <= |s.stack| && MemoryNeed(i, s.stack) <= |s.mem|
    requires i.Push? ==> i.n <= 32
    requires i.Dup? ==> i.n >= 1
    ensures Written(i, s.stack, k) ==> k < |s.mem|
    ensures var e := Execute(env, i, s);
            e.Done? && k < |s.mem| && !Written(i, s.stack, k) ==> e.s.mem[k] == s.mem[k]
  {
    hide Apply1, Apply2, Apply3, ContextValue, LookupValue, FromBytes, Topics;
  }

  /** Reading back the word just stored at the same offset gives that word. */
  lemma {:induction false} LoadAfterStore(env: Env, s: State, s': State)
    requires |s.stack| >= 2 && Back(s.stack, 0) + 32 <= |s.mem|
    requires |s'.stack| >= 1 && Back(s'.stack, 0) == Back(s.stack, 0)
    requires s'.mem == Execute(env, Mstore, s).s.mem
    ensures var e := Execute(env, Mload, s');
            e.Done? && Back(e.s.stack, 0) == Back(s.stack, 1)
  {
    hide Apply1, Apply2, Apply3, ContextValue, LookupValue, GetData, PushData, Topics, CopySource, SendData, Encode,
         ExecCall, JumpTo, FromBytes, BigEndian;
    var off, w := Back(s.stack, 0), Back(s.stack, 1);
    assert MemGet(s'.mem, off, 32) == BigEndian(w, 32);
    Pow256Constants();
    BigEndianRoundTrip(w, 32);
  }

  /** An instruction past the gas check names only offsets that fit a signed 64-bit index. */
  lemma {:induction false} OffsetsFit(env: Env, t: QuotaTable, i: Instr, s: State)
    requires Pops(i) <= |s.stack| && t.memDivision > 0
    requires RoundToWords(MemoryNeed(i, s.stack)).Some?
    requires GasCost(env, t, i, s, RoundToWords(MemoryNeed(i, s.stack)).value).Gas?
    ensures MemoryNeed(i, s.stack) <= 0xffffffffe0
  {
  }

  lemma {:induction false} DecodedLength(set_: InstructionSet, op: Byte)
    ensures var i := Decode(set_, op);
            && (i.Push? ==> 1 <= i.n <= 32 && InstructionLength(op) == i.n + 1)
            && (!i.Push? ==> InstructionLength(op) == 1)
            && (i.Dup? || i.Swap? ==> 1 <= i.n <= 16)
            && (op == 0 ==> i.Stop?)
  {
  }

  // ----- potential -----

  ghost function SlotPhi(env: Env, c: SstoreCosts, storage: map<Word, Value>): map<Word, nat> {
    map k | k in storage :: Phi(c, env.original(k), storage[k])
  }

  /** Everything charged for storage that could still be given back. */
  ghost function Potential(env: Env, c: SstoreCosts, storage: map<Word, Value>): nat {
    Sum(SlotPhi(env, c, storage))
  }

  lemma {:induction false} SlotPhiWrite(env: Env, c: SstoreCosts, storage: map<Word, Value>, loc: Word, value: Value)
    ensures SlotPhi(env, c, storage[loc := value]) ==
            SlotPhi(env, c, storage)[loc := Phi(c, env.original(loc), value)]
  {
  }

  lemma {:induction false} PotentialWrite(env: Env, c: SstoreCosts, storage: map<Word, Value>, loc: Word, value: Value)
    ensures var current := if loc in storage then storage[loc] else env.original(loc);
            Potential(env, c, storage[loc := value]) ==
            Potential(env, c, storage) - Phi(c, env.original(loc), current) + Phi(c, env.original(loc), value)
  {
    SlotPhiWrite(env, c, storage, loc, value);
    SumUpdate(SlotPhi(env, c, storage), loc, Phi(c, env.original(loc), value));
  }

  lemma {:induction false} SlotWithinPotential(env: Env, c: SstoreCosts, storage: map<Word, Value>, loc: Word)
    ensures var current := if loc in storage then storage[loc] else env.original(loc);
            Phi(c, env.original(loc), current) <= Potential(env, c, storage)
  {
    if loc in storage { SumRemove(SlotPhi(env, c, storage), loc); }
  }

  /** Quota in hand plus what storage could return. */
  ghost function Worth(env: Env, t: QuotaTable, s: State): nat {
    s.quota + Potential(env, t.sstore, s.storage)
  }

  // ----- the invariant -----

  ghost predicate Inv(env: Env, t: QuotaTable, start: Uint64, s: State) {
    && Worth(env, t, s) <= start
    && (env.set_.offchain ==> s.storage == map[])
    && s.pc <= |env.code| + 32
    && (s.pc < |env.code| ==> IsStart(env.code, s.pc))
    && |s.stack| <= STACK_LIMIT
    && |s.mem| % 32 == 0
    && |s.modified| <= MODIFY_MAX
    && (env.limitWrites ==> s.storage.Keys <= s.modified)
  }

  lemma {:induction false} InitialInv(env: Env, t: QuotaTable, start: Uint64)
    ensures Inv(env, t, start, Initial(start))
    ensures Worth(env, t, Initial(start)) == start
  {
    assert SlotPhi(env, t.sstore, map[]) == map[];
  }

  /** The gas function of anything but SSTORE charges, and a jump is never free. */
  lemma {:induction false} GasCharges(env: Env, t: QuotaTable, i: Instr, s: State, size: Uint64)
    requires TableSound(t) && Pops(i) <= |s.stack| && !i.Sstore? && GasCost(env, t, i, s, size).Gas?
    ensures var g := GasCost(env, t, i, s, size);
            g.charge && g.modified == s.modified && (Jumps(i) ==> g.cost > 0)
  {
  }

  /** What the write on top of the stack pays for good: the attempt, and for an off-chain reader, which writes
      nothing, the whole price of a first change. */
  ghost function WriteAttempt(env: Env, t: QuotaTable, s: State): nat
    requires |s.stack| >= 2
  {
    var loc, next := Back(s.stack, 0), Encode(Back(s.stack, 1));
    var original := env.original(loc);
    Attempt(t.sstore, original, Current(env, s, loc), next)
    + if env.set_.offchain then Phi(t.sstore, original, next) else 0
  }

  /** A storage write spends of the worth exactly what it cannot get back, and its refund never wraps. */
  lemma {:induction false} SstoreKeepsWorth(env: Env, t: QuotaTable, start: Uint64, s: State)
    requires TableSound(t) && Inv(env, t, start, s)
    requires Prepare(env, t, s).Ready? && Instruction(env, s).Sstore?
    ensures var p := Prepare(env, t, s);
            && (!p.g.charge ==> p.s'.quota == s.quota + p.g.cost)
            && Execute(env, p.i, p.s').Done?
            && Worth(env, t, Execute(env, p.i, p.s').s) == Worth(env, t, s) - WriteAttempt(env, t, s)
  {
    hide SstoreCost, Phi, Attempt, Potential, FromBytes, MinimalBytes;
    var loc, next := Back(s.stack, 0), Encode(Back(s.stack, 1));
    var original, current := env.original(loc), Current(env, s, loc);
    SstoreAmortised(t.sstore, original, current, next);
    SlotWithinPotential(env, t.sstore, s.storage, loc);
    PotentialWrite(env, t.sstore, s.storage, loc, next);
    assert Phi(t.sstore, original, original) == 0 by { UnchangedSlot(t.sstore, original); }
  }

  lemma {:induction false} UnchangedSlot(c: SstoreCosts, original: seq<Byte>)
    ensures Phi(c, original, original) == 0
  {
  }

  /** Any other instruction spends. */
  lemma {:induction false} OthersSpend(env: Env, t: QuotaTable, s: State)
    requires TableSound(t) && Prepare(env, t, s).Ready? && !Instruction(env, s).Sstore?
    ensures var p := Prepare(env, t, s);
            var e := Execute(env, p.i, p.s');
            && Worth(env, t, p.s') == Worth(env, t, s) - p.g.cost
            && (e.Done? ==> Worth(env, t, e.s) == Worth(env, t, s) - p.g.cost)
            && (Jumps(p.i) ==> p.g.cost > 0)
  {
    hide Execute, GasCost, Prepare, Potential;
    var p := Prepare(env, t, s);
    GasCharges(env, t, p.i, s, RoundToWords(MemoryNeed(p.i, s.stack)).value);
    ExecuteFrame(env, p.i, p.s');
  }

  /** What a step takes for good: a write's attempt, any other instruction's price, and all that is left when it
      is not enough. */
  ghost function Taken(env: Env, t: QuotaTable, s: State): nat
    requires t.memDivision > 0
  {
    var p := Prepare(env, t, s);
    if p.Refused? then s.quota - p.o.s.quota
    else if p.i.Sstore? then WriteAttempt(env, t, s)
    else p.g.cost
  }

  /** Every step keeps the books: worth falls by exactly what is taken, and a jump takes something. */
  lemma {:induction false} StepWorth(env: Env, t: QuotaTable, start: Uint64, s: State)
    requires TableSound(t) && Inv(env, t, start, s)
    ensures var o := Step(env, t, s);
            && Worth(env, t, o.s) == Worth(env, t, s) - Taken(env, t, s)
            && (o.Running? && Jumps(Instruction(env, s)) ==> Worth(env, t, o.s) < Worth(env, t, s))
  {
    hide Execute, GasCost, Prepare, Potential;
    var p := Prepare(env, t, s);
    if p.Ready? {
      if p.i.Sstore? {
        SstoreKeepsWorth(env, t, start, s);
      } else {
        OthersSpend(env, t, s);
      }
    }
  }

  /** Where the next instruction is fetched from. */
  lemma {:induction false} StepPc(env: Env, t: QuotaTable, s: State)
    requires TableSound(t) && s.pc <= |env.code| + 32 && (s.pc < |env.code| ==> IsStart(env.code, s.pc))
    ensures var o := Step(env, t, s);
            o.Running? ==>
              && o.s.pc <= |env.code| + 32
              && (o.s.pc < |env.code| ==> IsStart(env.code, o.s.pc))
              && (Jumps(Instruction(env, s)) || o.s.pc > s.pc)
  {
    hide GasCost, Execute, StartFrom, Prepare;
    var p := Prepare(env, t, s);
    if p.Ready? && Step(env, t, s).Running? {
      DecodedLength(env.set_, GetOp(env.code, s.pc));
      NextStart(env.code, 0, s.pc);
      ExecuteFrame(env, p.i, p.s');
    }
  }

  /** The stack stays within its limit and moves by exactly what the table declares. */
  lemma {:induction false} StepStack(env: Env, t: QuotaTable, s: State)
    requires TableSound(t) && |s.stack| <= STACK_LIMIT
    ensures var o := Step(env, t, s);
            var i := Instruction(env, s);
            && |o.s.stack| <= STACK_LIMIT
            && (!o.Failed? ==> Pops(i) <= |s.stack| && |o.s.stack| == |s.stack| - Pops(i) + Pushes(i))
  {
    hide GasCost, Execute, Prepare;
    var p := Prepare(env, t, s);
    if p.Ready? { ExecuteFrame(env, p.i, p.s'); }
  }

  /** A priced write has been counted against the limit. */
  lemma {:induction false} SstoreCounted(env: Env, t: QuotaTable, s: State)
    requires TableSound(t) && Prepare(env, t, s).Ready? && Instruction(env, s).Sstore?
    ensures var g := Prepare(env, t, s).g;
            g.modified == if env.limitWrites then s.modified + {Back(s.stack, 0)} else s.modified
    ensures |s.modified| <= MODIFY_MAX ==> |Prepare(env, t, s).g.modified| <= MODIFY_MAX
  {
    hide SstoreCost, Prepare;
  }

  /** Memory grows by whole words, and writes are counted. */
  lemma {:induction false} StepMemory(env: Env, t: QuotaTable, start: Uint64, s: State)
    requires TableSound(t) && Inv(env, t, start, s)
    ensures var o := Step(env, t, s);
            o.Running? ==>
              && |o.s.mem| % 32 == 0
              && (env.set_.offchain ==> o.s.storage == map[])
              && |o.s.modified| <= MODIFY_MAX
              && (env.limitWrites ==> o.s.storage.Keys <= o.s.modified)
  {
    hide GasCost, Execute, Prepare, Potential, StartFrom;
    var p := Prepare(env, t, s);
    if p.Ready? {
      ExecuteFrame(env, p.i, p.s');
      if p.i.Sstore? {
        SstoreCounted(env, t, s);
      } else {
        GasCharges(env, t, p.i, s, RoundToWords(MemoryNeed(p.i, s.stack)).value);
      }
    }
  }

  lemma {:induction false} StepInv(env: Env, t: QuotaTable, start: Uint64, s: State)
    requires TableSound(t) && Inv(env, t, start, s)
    ensures var o := Step(env, t, s);
            && (o.Running? ==> Inv(env, t, start, o.s))
            && Worth(env, t, o.s) <= start
            && (o.Running? ==> Measure(env, t, o.s) < Measure(env, t, s))
  {
    hide Step, Potential, StartFrom;
    StepWorth(env, t, start, s);
    StepPc(env, t, s);
    StepStack(env, t, s);
    StepMemory(env, t, start, s);
    var o := Step(env, t, s);
    if o.Running? {
      MeasureDecreases(Worth(env, t, s), Worth(env, t, o.s), s.pc, o.s.pc, |env.code|);
    }
  }

  // ----- whole runs -----

  /** Worth first, then the distance to the end of code. */
  ghost function Measure(env: Env, t: QuotaTable, s: State): int {
    Worth(env, t, s) * (|env.code| + 34) + |env.code| + 33 - s.pc
  }

  lemma {:induction false} MeasureDecreases(w: nat, w': nat, pc: nat, pc': nat, n: nat)
    requires pc <= n + 32 && pc' <= n + 32
    requires w' < w || (w' == w && pc' > pc)
    ensures w' * (n + 34) + n + 33 - pc' < w * (n + 34) + n + 33 - pc
  {
    if w' < w {
      MulMonotone(n + 34, w' + 1, w);
      assert (n + 34) * (w' + 1) == w' * (n + 34) + n + 34;
    }
  }

  /** In every state of every run: quota plus what storage may still return never exceeds the quota at the
      start, the stack holds at most 1024 words, memory is whole words, and the program counter is at an
      instruction or past the code. */
  lemma {:induction false} RunInvariant(env: Env, t: QuotaTable, start: Uint64, n: nat)
    requires TableSound(t)
    ensures var o := Runs(env, t, Initial(start), n);
            && (o.Running? ==> Inv(env, t, start, o.s))
            && o.s.quota <= Worth(env, t, o.s) <= start
            && (o.Running? ==> n <= Measure(env, t, Initial(start)) - Measure(env, t, o.s))
  {
    hide Step, Measure, StartFrom, Potential;
    InitialInv(env, t, start);
    if n > 0 {
      RunInvariant(env, t, start, n - 1);
      var o := Runs(env, t, Initial(start), n - 1);
      if o.Running? { StepInv(env, t, start, o.s); }
    }
  }

  /** What the first n turns take for good. */
  ghost function TakenInAll(env: Env, t: QuotaTable, start: Uint64, n: nat): nat
    requires t.memDivision > 0
  {
    if n == 0 then 0
    else
      var o := Runs(env, t, Initial(start), n - 1);
      TakenInAll(env, t, start, n - 1) + if o.Running? then Taken(env, t, o.s) else 0
  }

  /** The ledger of a run: quota in hand, plus what storage could return, plus what was taken for good, is the
      quota at the start. */
  lemma {:induction false} RunLedger(env: Env, t: QuotaTable, start: Uint64, n: nat)
    requires TableSound(t)
    ensures var o := Runs(env, t, Initial(start), n);
            o.s.quota + Potential(env, t.sstore, o.s.storage) + TakenInAll(env, t, start, n) == start
  {
    hide Step, StartFrom, Potential, Taken;
    InitialInv(env, t, start);
    if n > 0 {
      RunLedger(env, t, start, n - 1);
      RunInvariant(env, t, start, n - 1);
      var o := Runs(env, t, Initial(start), n - 1);
      if o.Running? { StepWorth(env, t, start, o.s); }
    }
  }

  /** A bound on the turns of any run with this much quota. */
  function StepBound(env: Env, start: Uint64): int {
    (start + 1) * (|env.code| + 34)
  }

  /** Every run ends, whatever the code. */
  lemma {:induction false} RunTerminates(env: Env, t: QuotaTable, start: Uint64, n: nat)
    requires TableSound(t) && n >= StepBound(env, start)
    ensures !Runs(env, t, Initial(start), n).Running?
  {
    hide Runs, Step, Worth, IsStart;
    RunInvariant(env, t, start, n);
    InitialInv(env, t, start);
    var o := Runs(env, t, Initial(start), n);
    if o.Running? {
      MeasureBounds(start, Worth(env, t, o.s), o.s.pc, |env.code|);
    }
  }

  /** The converse reading: a run that has not ended is short. */
  lemma {:induction false} StillRunning(env: Env, t: QuotaTable, start: Uint64, n: nat)
    requires TableSound(t) && Runs(env, t, Initial(start), n).Running?
    ensures n < StepBound(env, start)
    ensures Runs(env, t, Initial(start), n + 1) == Step(env, t, Runs(env, t, Initial(start), n).s)
  {
    if n >= StepBound(env, start) { RunTerminates(env, t, start, n); }
  }

  lemma {:induction false} MeasureBounds(start: nat, w: nat, pc: nat, n: nat)
    requires pc <= n + 32
    ensures w * (n + 34) + n + 33 - pc > 0
    ensures start * (n + 34) + n + 33 < (start + 1) * (n + 34)
  {
    MulMonotone(n + 34, 0, w);
    assert (start + 1) * (n + 34) == start * (n + 34) + n + 34;
  }

  // ----- memory fees -----

  /** Start quotas for which 64-bit wrap-around in the fee can never be paid for. */
  predicate QuotaBelowWrap(t: QuotaTable, start: Uint64) {
    start < TWO32 * t.memQuota
  }

  /** All memory fees paid so far add up to the exact price of the present memory. */
  ghost predicate FeesExact(env: Env, t: QuotaTable, start: Uint64, s: State)
    requires t.memDivision > 0
  {
    && Worth(env, t, s) + s.lastGas <= start
    && |s.mem| % 32 == 0
    && s.lastGas == ExactFee(t.memQuota, t.memDivision, |s.mem| / 32)
  }

  /** Every gas function passes on the memory fee in full. */
  lemma {:induction false} GasHasMemoryFee(env: Env, t: QuotaTable, i: Instr, s: State, size: Uint64)
    requires TableSound(t) && Pops(i) <= |s.stack| && GasCost(env, t, i, s, size).Gas?
    requires RoundToWords(MemoryNeed(i, s.stack)) == Some(size)
    ensures var g := GasCost(env, t, i, s, size);
            var f := MemoryGasCost(t.memQuota, t.memDivision, |s.mem|, s.lastGas, size);
            && f.Some? && g.last == f.value.last
            && (!i.Sstore? ==> f.value.fee <= g.cost)
            && (i.Sstore? ==> size == 0)
  {
    hide FeePlus, MemoryGasCost, PerWord, LogPrice, SstoreCost, ToWordSize, Encode;
    ZeroFee(t, |s.mem|, s.lastGas);
    match i
    case Hash(_) => FeePlusHasFee(t, s, size, t.flat(i), PerWord(Back(s.stack, 1), t.digestWord));
    case Copy(from) => FeePlusHasFee(t, s, size, t.copy(from), PerWord(Back(s.stack, 2), t.copyWord));
    case Log(n) => FeePlusHasFee(t, s, size, t.flat(Log(0)), LogPrice(t, n, Back(s.stack, 1)));
    case Call => CallHasFee(env, t, s, size);
    case Call2 => CallHasFee(env, t, s, size);
    case _ =>
      FeePlusHasFee(t, s, size, t.flat(i), Some(0));
      FeePlusHasFee(t, s, size, 0, Some(0));
  }

  lemma {:induction false} FeePlusHasFee(t: QuotaTable, s: State, size: Uint64, fixed: Uint64, variable: Option<Uint64>)
    requires t.memDivision > 0
    ensures var g := FeePlus(t, s, size, fixed, variable);
            var f := MemoryGasCost(t.memQuota, t.memDivision, |s.mem|, s.lastGas, size);
            g.Gas? ==> f.Some? && g.last == f.value.last && f.value.fee <= g.cost
  {
    hide MemoryGasCost;
  }

  lemma {:induction false} CallHasFee(env: Env, t: QuotaTable, s: State, size: Uint64)
    requires t.memDivision > 0
    ensures var g := CallGas(env, t, s, size);
            var f := MemoryGasCost(t.memQuota, t.memDivision, |s.mem|, s.lastGas, size);
            g.Gas? ==> f.Some? && g.last == f.value.last && f.value.fee <= g.cost
  {
    hide MemoryGasCost, FeePlus;
    match env.sendCost(s.stack, s.mem)
    case NoCost(_) =>
    case Cost(c) => FeePlusHasFee(t, s, size, 0, Some(if c > t.callMinus then c - t.callMinus else 0));
  }

  /** A fee that can be paid is the exact difference between the old and new price of memory. */
  lemma {:induction false} PaidFeeExact(t: QuotaTable, start: Uint64, memLen: nat, last: Uint64, size: Uint64,
      quota: Uint64)
    requires TableSound(t) && QuotaBelowWrap(t, start)
    requires memLen % 32 == 0 && size % 32 == 0 && quota + last <= start
    requires last == ExactFee(t.memQuota, t.memDivision, memLen / 32)
    requires MemoryGasCost(t.memQuota, t.memDivision, memLen, last, size).Some?
    ensures var f := MemoryGasCost(t.memQuota, t.memDivision, memLen, last, size).value;
            f.fee <= quota ==>
              var len := if memLen < size then size else memLen;
              && f.last == ExactFee(t.memQuota, t.memDivision, len / 32)
              && f.fee == f.last - last
  {
    hide WrappedFee, ExactFee;
    if memLen < size {
      var w := ToWordSize(size);
      WrappedFeeExact(t.memQuota, t.memDivision, w);
      ExactFeeMonotone(t.memQuota, t.memDivision, memLen / 32, w);
      assert w >= TWO32 ==> w * t.memQuota >= TWO32 * t.memQuota by {
        if w >= TWO32 { MulMonotone(t.memQuota, TWO32, w); }
      }
    }
  }

  lemma {:induction false} ZeroFee(t: QuotaTable, memLen: nat, last: Uint64)
    requires t.memDivision > 0
    ensures MemoryGasCost(t.memQuota, t.memDivision, memLen, last, 0) == Some(MemFee(0, last))
  {
  }

  lemma {:induction false} StepFees(env: Env, t: QuotaTable, start: Uint64, s: State)
    requires TableSound(t) && QuotaBelowWrap(t, start)
    requires Inv(env, t, start, s) && FeesExact(env, t, start, s)
    ensures var o := Step(env, t, s);
            o.Running? ==> FeesExact(env, t, start, o.s)
  {
    hide Execute, GasCost, Prepare, Potential, StartFrom, MemoryGasCost, ExactFee;
    var p := Prepare(env, t, s);
    if p.Ready? {
      var size := RoundToWords(MemoryNeed(p.i, s.stack)).value;
      GasHasMemoryFee(env, t, p.i, s, size);
      ExecuteFrame(env, p.i, p.s');
      PaidFeeExact(t, start, |s.mem|, s.lastGas, size, s.quota);
      if p.i.Sstore? {
        SstoreKeepsWorth(env, t, start, s);
        ZeroFee(t, |s.mem|, s.lastGas);
      } else {
        GasCharges(env, t, p.i, s, size);
        OthersSpend(env, t, s);
      }
    }
  }

  lemma {:induction false} InitialFees(env: Env, t: QuotaTable, start: Uint64)
    requires t.memDivision > 0
    ensures FeesExact(env, t, start, Initial(start))
  {
    InitialInv(env, t, start);
    DivModUnique(0, t.memDivision, 0, 0);
  }

  /** With a start quota below 2^32 memory units, the fees paid add up to the exact price in every state of a run. */
  lemma {:induction false} QuotaKeepsFees(env: Env, t: QuotaTable, start: Uint64, n: nat)
    requires TableSound(t) && QuotaBelowWrap(t, start)
    ensures var o := Runs(env, t, Initial(start), n);
            o.Running? ==> FeesExact(env, t, start, o.s)
  {
    hide Step, FeesExact, Inv;
    if n == 0 {
      InitialFees(env, t, start);
    } else {
      QuotaKeepsFees(env, t, start, n - 1);
      RunInvariant(env, t, start, n - 1);
      var o := Runs(env, t, Initial(start), n - 1);
      if o.Running? { StepFees(env, t, start, o.s); }
    }
  }

  /** The recorded memory cost is the 64-bit total for the present memory. */
  ghost predicate FeeRecorded(t: QuotaTable, s: State)
    requires t.memDivision > 0
  {
    && |s.mem| % 32 == 0 && |s.mem| / 32 <= MAX_WORDS
    && s.lastGas == WrappedFee(t.memQuota, t.memDivision, |s.mem| / 32)
  }

  lemma {:induction false} RecordsTotal(t: QuotaTable, memLen: nat, last: Uint64, size: Uint64)
    requires t.memDivision > 0 && memLen % 32 == 0 && size % 32 == 0 && memLen / 32 <= MAX_WORDS
    requires last == WrappedFee(t.memQuota, t.memDivision, memLen / 32)
    requires MemoryGasCost(t.memQuota, t.memDivision, memLen, last, size).Some?
    ensures var f := MemoryGasCost(t.memQuota, t.memDivision, memLen, last, size).value;
            var len := if memLen < size then size else memLen;
            len / 32 <= MAX_WORDS && f.last == WrappedFee(t.memQuota, t.memDivision, len / 32)
  {
    hide WrappedFee;
    if memLen < size { assert ToWordSize(size) == size / 32; }
  }

  lemma {:induction false} StepRecords(env: Env, t: QuotaTable, s: State)
    requires TableSound(t) && FeeRecorded(t, s)
    ensures var o := Step(env, t, s);
            o.Running? ==> FeeRecorded(t, o.s)
  {
    hide Execute, GasCost, Prepare, MemoryGasCost, WrappedFee;
    var p := Prepare(env, t, s);
    if p.Ready? {
      var size := RoundToWords(MemoryNeed(p.i, s.stack)).value;
      GasHasMemoryFee(env, t, p.i, s, size);
      ExecuteFrame(env, p.i, p.s');
      RecordsTotal(t, |s.mem|, s.lastGas, size);
    }
  }

  /** In every state of every run, whatever the quota. */
  lemma {:induction false} RunRecords(env: Env, t: QuotaTable, start: Uint64, n: nat)
    requires TableSound(t)
    ensures var o := Runs(env, t, Initial(start), n);
            o.Running? ==> FeeRecorded(t, o.s)
  {
    hide Step;
    if n == 0 {
      DivModUnique(0, t.memDivision, 0, 0);
    } else {
      RunRecords(env, t, start, n - 1);
      var o := Runs(env, t, Initial(start), n - 1);
      if o.Running? { StepRecords(env, t, o.s); }
    }
  }

  /** In every state of every run the recorded cost is the exact price of memory if and only if memory has fewer than
      2^32 words; a start quota below 2^32 memory units never buys that many. */
  lemma {:induction false} RunFeesExact(env: Env, t: QuotaTable, start: Uint64, n: nat)
    requires TableSound(t)
    ensures var o := Runs(env, t, Initial(start), n);
            o.Running? ==>
              && |o.s.mem| % 32 == 0
              && (o.s.lastGas == ExactFee(t.memQuota, t.memDivision, |o.s.mem| / 32) <==> |o.s.mem| / 32 < TWO32)
              && (QuotaBelowWrap(t, start) ==> |o.s.mem| / 32 < TWO32)
  {
    hide Runs, WrappedFee, ExactFee, Worth;
    var o := Runs(env, t, Initial(start), n);
    if o.Running? {
      RunRecords(env, t, start, n);
      WrappedFeeExact(t.memQuota, t.memDivision, |o.s.mem| / 32);
      if QuotaBelowWrap(t, start) { QuotaKeepsFees(env, t, start, n); }
    }
  }

  /** Code that asks for exactly 2^32 words: PUSH5 0x1fffffffe0, MLOAD. */
  const WRAPPING_CODE: seq<Byte> := [0x64, 0x1f, 0xff, 0xff, 0xff, 0xe0, 0x51]

  /** With more quota the claim fails: two instructions buy 2^32 words without the quadratic part. */
  lemma {:induction false} FeesInexactBeyond(env: Env, t: QuotaTable, start: Uint64)
    requires TableSound(t) && env.code == WRAPPING_CODE
    requires start >= TWO32 * t.memQuota + t.flat(Push(5)) + t.flat(Mload)
    ensures var o := Runs(env, t, Initial(start), 2);
            o.Running? && |o.s.mem| / 32 == TWO32 && o.s.lastGas != ExactFee(t.memQuota, t.memDivision, TWO32)
  {
    hide Step, WrappedFee, ExactFee;
    var s1 := WrappingFirst(env, t, start);
    WrappingSecond(env, t, s1);
    RunsTwo(env, t, Initial(start));
    WrappedFeeExact(t.memQuota, t.memDivision, TWO32);
  }

  lemma {:induction false} RunsTwo(env: Env, t: QuotaTable, s: State)
    requires TableSound(t) && Step(env, t, s).Running?
    ensures Runs(env, t, s, 2) == Step(env, t, Step(env, t, s).s)
  {
    hide Step;
    assert Runs(env, t, s, 1) == Step(env, t, s);
  }

  lemma {:induction false} WrappingFirst(env: Env, t: QuotaTable, start: Uint64) returns (s1: State)
    requires TableSound(t) && env.code == WRAPPING_CODE && start >= t.flat(Push(5))
    ensures Step(env, t, Initial(start)) == Running(s1)
    ensures s1 == Initial(start).(pc := 6, stack := [0x1fffffffe0], quota := start - t.flat(Push(5)))
  {
    hide Apply1, Apply2, Apply3, ContextValue, LookupValue, BigEndian, GetData, Topics, ExecCall, JumpTo, Encode,
         MemSet, CopySource, CallGas, FeePlus, SstoreGas, ExpGas, PerWord, LogPrice, FromBytes;
    assert PushData(env.code, 0, 5) == [0x1f, 0xff, 0xff, 0xff, 0xe0];
    WrappingOffset();
    s1 := Initial(start).(pc := 6, stack := [0x1fffffffe0], quota := start - t.flat(Push(5)));
    assert Instruction(env, Initial(start)) == Push(5);
  }

  lemma {:induction false} WrappingNeed(env: Env, s1: State)
    requires env.code == WRAPPING_CODE && s1.pc == 6 && s1.stack == [0x1fffffffe0]
    ensures Instruction(env, s1) == Mload && MemoryNeed(Mload, s1.stack) == 0x2000000000
    ensures RoundToWords(0x2000000000) == Some(0x2000000000) && ToWordSize(0x2000000000) == TWO32
  {
  }

  lemma {:induction false} WrappingGas(env: Env, t: QuotaTable, s1: State)
    requires TableSound(t) && s1.stack == [0x1fffffffe0] && s1.mem == [] && s1.lastGas == 0
    requires s1.quota >= TWO32 * t.memQuota + t.flat(Mload)
    ensures GasCost(env, t, Mload, s1, 0x2000000000)
         == Gas(TWO32 * t.memQuota + t.flat(Mload), true, TWO32 * t.memQuota, s1.modified)
  {
    hide WrappedFee, SafeMul, PerWord, LogPrice, SstoreGas, ExpGas, CallGas;
    assert ToWordSize(0x2000000000) == TWO32;
    WrappedAtPower(t.memQuota, t.memDivision);
  }

  lemma {:induction false} WrappingSecond(env: Env, t: QuotaTable, s1: State)
    requires TableSound(t) && env.code == WRAPPING_CODE
    requires s1.pc == 6 && s1.stack == [0x1fffffffe0] && s1.mem == [] && s1.lastGas == 0
    requires s1.quota >= TWO32 * t.memQuota + t.flat(Mload)
    ensures var o := Step(env, t, s1);
            o.Running? && |o.s.mem| / 32 == TWO32 && o.s.lastGas == WrappedFee(t.memQuota, t.memDivision, TWO32)
  {
    hide GasCost, Instruction, MemoryNeed, RoundToWords, ToWordSize, WrappedFee, FromBytes;
    WrappingNeed(env, s1);
    WrappingGas(env, t, s1);
    WrappedAtPower(t.memQuota, t.memDivision);
    var p := Prepare(env, t, s1);
    assert p.Ready?;
    ExecuteFrame(env, p.i, p.s');
  }

  lemma {:induction false} WrappedAtPower(quota: Uint64, division: Uint64)
    requires division > 0 && quota <= 0x1_0000
    ensures WrappedFee(quota, division, TWO32) == TWO32 * quota
  {
    DivModUnique(0, division, 0, 0);
  }

  lemma {:induction false} WrappingOffset()
    ensures FromBytes([0x1f, 0xff, 0xff, 0xff, 0xe0]) == 0x1fffffffe0
  {
    var a: seq<Byte> := [0x1f, 0xff, 0xff, 0xff, 0xe0];
    assert a[..4] == [0x1f, 0xff, 0xff, 0xff];
    var b: seq<Byte> := [0x1f, 0xff, 0xff, 0xff];
    assert b[..3] == [0x1f, 0xff, 0xff];
    var c: seq<Byte> := [0x1f, 0xff, 0xff];
    assert c[..2] == [0x1f, 0xff];
    var d: seq<Byte> := [0x1f, 0xff];
    assert d[..1] == [0x1f];
    var e: seq<Byte> := [0x1f];
    assert e[..0] == [];
    assert FromBytes(e) == 0x1f;
    assert FromBytes(d) == 0x1fff;
    assert FromBytes(c) == 0x1fffff;
    assert FromBytes(b) == 0x1fffffff;
  }
}
