/** vm/interpreter.go, vm/instructions.go, vm/memory.go and vm/memory_table.go as one step function. */
module Machine {
  import opened Arith
  import opened BigMath
  import opened WordOps
  import opened Opcodes
  import opened Metering
  import opened Destinations
  import opened Wrappers

  const STACK_LIMIT := 1024
  const MODIFY_MAX := 100

  type Value = s: seq<Byte> | |s| <= 32

  datatype Error =
    | InvalidOpCode | StackUnderflow | StackLimitReached | MemSizeOverflow | GasUintOverflow
    | StorageModifyLimit | OutOfQuota | ReturnDataOutOfBounds | InvalidJumpDestination
    | SendRejected(code: nat) | Panicked

  /** Table entries; flat holds the constant-cost ones. */
  datatype QuotaTable = QuotaTable(
    flat: Instr -> Uint64,
    copy: Source -> Uint64,
    expByte: Uint64,
    digestWord: Uint64,
    copyWord: Uint64,
    sstore: SstoreCosts,
    logTopic: Uint64,
    logData: Uint64,
    callMinus: Uint64,
    memQuota: Uint64,
    memDivision: Uint64)

  predicate TableSound(t: QuotaTable) {
    && SstoreSound(t.sstore)
    && t.flat(Jump) > 0 && t.flat(Jumpi) > 0
    && 1 <= t.memQuota <= 0x1_0000
    && 2 <= t.memDivision
  }

  /** Prices before the Dex upgrade. */
  predicate InitTable(t: QuotaTable) {
    t.sstore == INIT_SSTORE && t.flat(Jump) == 8 && t.flat(Jumpi) == 10 && t.memQuota == 3 && t.memDivision == 512
  }

  /** Prices since; the later upgrades do not touch these entries. */
  predicate ViteTable(t: QuotaTable) {
    t.sstore == VITE_SSTORE && t.flat(Jump) == 4 && t.flat(Jumpi) == 4 && t.memQuota == 1 && t.memDivision == 1024
  }

  /** Every table that QuotaTableByHeight can pick is sound. */
  lemma {:induction false} ShippedTablesSound(t: QuotaTable)
    requires InitTable(t) || ViteTable(t)
    ensures TableSound(t)
  {
  }

  /** The outcome of pricing a send block: its cost, or the error that ends the run. */
  datatype SendCost = Cost(cost: Uint64) | NoCost(error: Error)

  /** What a run reads and does not write. */
  datatype Env = Env(
    code: seq<Byte>,
    data: seq<Byte>,
    set_: InstructionSet,
    limitWrites: bool,
    context: Context -> Word,
    balance: Word -> Word,
    original: Word -> Value,
    digest: (Digest, seq<Byte>) -> Word,
    sendCost: (seq<Word>, seq<Byte>) -> SendCost,
    sendHash: seq<Send> -> Word,
    beyond: (seq<Byte>, Word, Word) -> Option<seq<Byte>>)

  datatype Send = Send(to: Word, token: Word, amount: Word, data: seq<Byte>)

  datatype VmLog = VmLog(topics: seq<Word>, data: seq<Byte>)

  datatype State = State(
    pc: nat,
    stack: seq<Word>,
    mem: seq<Byte>,
    lastGas: Uint64,
    quota: Uint64,
    storage: map<Word, Value>,
    modified: set<Word>,
    returnData: seq<Byte>,
    sends: seq<Send>,
    logs: seq<VmLog>)

  datatype Outcome =
    | Running(s: State)
    | Halted(s: State, ret: seq<Byte>)
    | Reverted(s: State, ret: seq<Byte>)
    | Failed(s: State, error: Error)

  function Initial(quota: Uint64): State {
    State(0, [], [], 0, quota, map[], {}, [], [], [])
  }

  // ----- reading the state -----

  function GetOp(code: seq<Byte>, pc: nat): Byte {
    if pc < |code| then code[pc] else 0
  }

  function Back(stack: seq<Word>, n: nat): Word
    requires n < |stack|
  {
    stack[|stack| - n - 1]
  }

  function Drop(stack: seq<Word>, n: nat): (r: seq<Word>)
    requires n <= |stack|
    ensures |r| == |stack| - n
  {
    stack[..|stack| - n]
  }

  function Current(env: Env, s: State, loc: Word): Value {
    if loc in s.storage then s.storage[loc] else env.original(loc)
  }

  function Zeros(n: nat): (z: seq<Byte>)
    ensures |z| == n
  {
    seq(n, i => 0)
  }

  function Min(x: int, y: int): int { if x > y then y else x }

  /** size bytes of data from start, padded with zeros past its end. */
  function GetData(data: seq<Byte>, start: nat, size: nat): (r: seq<Byte>)
    ensures |r| == size
    ensures forall k | 0 <= k < size :: r[k] == if start + k < |data| then data[start + k] else 0
  {
    var s := Min(start, |data|);
    var e := Min(s + size, |data|);
    data[s..e] + Zeros(size - (e - s))
  }

  function PushData(code: seq<Byte>, pc: nat, n: nat): (r: seq<Byte>)
    ensures |r| == n
  {
    var s := Min(pc + 1, |code|);
    var e := Min(s + n, |code|);
    code[s..e] + Zeros(n - (e - s))
  }

  /** The bytes SSTORE keeps for a word. */
  function Encode(w: Word): Value {
    Pow256Constants();
    MinimalBytesLength(w, 32);
    MinimalBytes(w)
  }

  // ----- memory -----

  function CalcMemSize(off: Word, len: Word): nat {
    if len == 0 then 0 else off + len
  }

  /** Bytes the instruction is about to touch, counted from zero. */
  function MemoryNeed(i: Instr, stack: seq<Word>): nat
    requires Pops(i) <= |stack|
  {
    match i
    case Hash(_) => CalcMemSize(Back(stack, 0), Back(stack, 1))
    case Copy(_) => CalcMemSize(Back(stack, 0), Back(stack, 2))
    case Mload => CalcMemSize(Back(stack, 0), 32)
    case Mstore => CalcMemSize(Back(stack, 0), 32)
    case Mstore8 => CalcMemSize(Back(stack, 0), 1)
    case Log(_) => CalcMemSize(Back(stack, 0), Back(stack, 1))
    case Call => CalcMemSize(Back(stack, 3), Back(stack, 4))
    case Return => CalcMemSize(Back(stack, 0), Back(stack, 1))
    case Revert => CalcMemSize(Back(stack, 0), Back(stack, 1))
    case _ => 0
  }

  /** The need in whole 32-byte words; None if it does not fit 64 bits. */
  function RoundToWords(need: nat): (r: Option<Uint64>)
    ensures r.Some? ==> need <= r.value < need + 32 && r.value % 32 == 0
    ensures r.Some? ==> (r.value == 0 <==> need == 0)
  {
    if need >= TWO64 then None
    else
      var (size, overflow) := SafeMul(ToWordSize(need), 32);
      if overflow then None else Some(size)
  }

  function Resize(mem: seq<Byte>, size: nat): (m: seq<Byte>)
    ensures |m| >= size && |m| >= |mem| && (|m| == |mem| || |m| == size)
    ensures m[..|mem|] == mem
    ensures forall k | |mem| <= k < |m| :: m[k] == 0
  {
    if |mem| < size then mem + Zeros(size - |mem|) else mem
  }

  function MemGet(mem: seq<Byte>, off: nat, size: nat): (r: seq<Byte>)
    requires size > 0 ==> off + size <= |mem|
    ensures |r| == size
  {
    if size == 0 then [] else mem[off..off + size]
  }

  function MemSet(mem: seq<Byte>, off: nat, value: seq<Byte>): (m: seq<Byte>)
    requires |value| > 0 ==> off + |value| <= |mem|
    ensures |m| == |mem|
  {
    if |value| == 0 then mem else mem[..off] + value + mem[off + |value|..]
  }

  // ----- cost -----

  datatype Gas =
    | Gas(cost: Uint64, charge: bool, last: Uint64, modified: set<Word>)
    | GasError(error: Error)

  /** Memory fee plus fixed parts, refusing to wrap. */
  function FeePlus(t: QuotaTable, s: State, size: Uint64, fixed: Uint64, variable: Option<Uint64>): Gas
    requires t.memDivision > 0
  {
    match MemoryGasCost(t.memQuota, t.memDivision, |s.mem|, s.lastGas, size)
    case None => GasError(GasUintOverflow)
    case Some(f) =>
      var (g, over) := SafeAdd(f.fee, fixed);
      if over || variable.None? then GasError(GasUintOverflow)
      else
        var (total, over2) := SafeAdd(g, variable.value);
        if over2 then GasError(GasUintOverflow) else Gas(total, true, f.last, s.modified)
  }

  /** Price per word of a length given on the stack. */
  function PerWord(len: Word, price: Uint64): Option<Uint64> {
    if len >= TWO64 then None
    else var (g, over) := SafeMul(ToWordSize(len), price); if over then None else Some(g)
  }

  function LogPrice(t: QuotaTable, topics: nat, len: Word): Option<Uint64> {
    if len >= TWO64 then None
    else
      var (d, over) := SafeMul(len, t.logData);
      if over then None
      else
        MulNonNegative(topics, t.logTopic);
        var (g, over2) := SafeAdd((topics * t.logTopic) % TWO64, d);
        if over2 then None else Some(g)
  }

  function SstoreGas(env: Env, t: QuotaTable, s: State): Gas
    requires |s.stack| >= 2
  {
    var loc, next := Back(s.stack, 0), Encode(Back(s.stack, 1));
    var modified := if env.limitWrites then s.modified + {loc} else s.modified;
    if env.limitWrites && |modified| > MODIFY_MAX then GasError(StorageModifyLimit)
    else
      var c := SstoreCost(t.sstore, env.original(loc), Current(env, s, loc), next);
      Gas(c.cost, c.charge, s.lastGas, modified)
  }

  function ExpGas(t: QuotaTable, exponent: Word, s: State): Gas {
    var (g, over) := SafeAdd((|MinimalBytes(exponent)| * t.expByte) % TWO64, t.flat(Binary(EXP)));
    if over then GasError(GasUintOverflow) else Gas(g, true, s.lastGas, s.modified)
  }

  function CallGas(env: Env, t: QuotaTable, s: State, size: Uint64): Gas
    requires t.memDivision > 0
  {
    if MemoryGasCost(t.memQuota, t.memDivision, |s.mem|, s.lastGas, size).None? then GasError(GasUintOverflow)
    else match env.sendCost(s.stack, s.mem)
      case NoCost(e) => GasError(e)
      case Cost(c) => FeePlus(t, s, size, 0, Some(if c > t.callMinus then c - t.callMinus else 0))
  }

  function GasCost(env: Env, t: QuotaTable, i: Instr, s: State, size: Uint64): Gas
    requires Pops(i) <= |s.stack| && t.memDivision > 0
  {
    match i
    case Stop => Gas(0, true, s.lastGas, s.modified)
    case Binary(EXP) => ExpGas(t, Back(s.stack, 1), s)
    case Hash(_) => FeePlus(t, s, size, t.flat(i), PerWord(Back(s.stack, 1), t.digestWord))
    case Copy(from) => FeePlus(t, s, size, t.copy(from), PerWord(Back(s.stack, 2), t.copyWord))
    case Mload => FeePlus(t, s, size, t.flat(i), Some(0))
    case Mstore => FeePlus(t, s, size, t.flat(i), Some(0))
    case Mstore8 => FeePlus(t, s, size, t.flat(i), Some(0))
    case Sstore => SstoreGas(env, t, s)
    case Log(n) => FeePlus(t, s, size, t.flat(Log(0)), LogPrice(t, n, Back(s.stack, 1)))
    case Call => CallGas(env, t, s, size)
    case Call2 => CallGas(env, t, s, size)
    case Return => FeePlus(t, s, size, 0, Some(0))
    case Revert => FeePlus(t, s, size, 0, Some(0))
    case _ => Gas(t.flat(i), true, s.lastGas, s.modified)
  }

  // ----- execution -----

  datatype Exec = Done(s: State, ret: seq<Byte>) | ExecError(error: Error)

  /** Off-chain readers see zero where there is no block to read from. */
  function ContextValue(env: Env, s: State, c: Context): Word {
    match c
    case CALLDATASIZE => U256(|env.data|)
    case CODESIZE => U256(|env.code|)
    case RETURNDATASIZE => U256(|s.returnData|)
    case PC => U256(s.pc)
    case MSIZE => U256(|s.mem|)
    case ADDRESS => env.context(c)
    case ACCOUNTHEIGHT => env.context(c)
    case PREVHASH => env.context(c)
    case _ => if env.set_.offchain then 0 else env.context(c)
  }

  function LookupValue(env: Env, s: State, l: Lookup, x: Word): Word {
    match l
    case BALANCE => env.balance(x)
    case CALLDATALOAD => (FromBytesWord(GetData(env.data, x, 32)); FromBytes(GetData(env.data, x, 32)))
    case SLOAD => (FromBytesWord(Current(env, s, x)); FromBytes(Current(env, s, x)))
  }

  /** The bytes a copy writes; returned data may not be over-read. */
  function CopySource(env: Env, s: State, from: Source, off: Word, len: Word): (r: Option<seq<Byte>>)
    ensures r.Some? ==> |r.value| == len
  {
    match from
    case CallData => Some(GetData(env.data, off, len))
    case Code => Some(GetData(env.code, off, len))
    case ReturnData =>
      if off + len >= TWO64 || |s.returnData| < off + len then None
      else Some(s.returnData[off..off + len])
  }

  function Topics(stack: seq<Word>, n: nat): seq<Word>
    requires n + 2 <= |stack|
  {
    seq(n, k requires 0 <= k < n => Back(stack, k + 2))
  }

  function JumpTo(env: Env, s: State, dest: Word): Exec {
    if ValidJump(env.code, dest) then Done(s.(pc := dest), []) else ExecError(InvalidJumpDestination)
  }

  /** The data of an outgoing call: in bounds it is memory, beyond that the run-time decides. */
  function SendData(env: Env, s: State, off: Word, len: Word): Option<seq<Byte>> {
    if len == 0 then Some([])
    else if off + len <= |s.mem| then Some(s.mem[off..off + len])
    else env.beyond(s.mem, off, len)
  }

  function ExecCall(env: Env, s: State, hashed: bool): Exec
    requires |s.stack| >= 5
  {
    var st := s.stack;
    var rest := Drop(st, 5);
    if env.set_.offchain then Done(s.(stack := if hashed then rest + [0] else rest), [])
    else match SendData(env, s, Back(st, 3), Back(st, 4))
      case None => ExecError(Panicked)
      case Some(data) =>
        var sends := s.sends + [Send(Back(st, 0), Back(st, 1), Back(st, 2), data)];
        Done(s.(stack := if hashed then rest + [env.sendHash(sends)] else rest, sends := sends), [])
  }

  /** Runs one instruction on a state whose memory already covers its need. */
  function Execute(env: Env, i: Instr, s: State): Exec
    requires Pops(i) <= |s.stack| && MemoryNeed(i, s.stack) <= |s.mem|
    requires i.Push? ==> i.n <= 32
    requires i.Dup? ==> i.n >= 1
  {
    var st := s.stack;
    match i
    case Stop => Done(s, [])
    case Unary(u) => Done(s.(stack := Drop(st, 1) + [Apply1(u, Back(st, 0))]), [])
    case Binary(b) => Done(s.(stack := Drop(st, 2) + [Apply2(b, Back(st, 0), Back(st, 1))]), [])
    case Ternary(t) => Done(s.(stack := Drop(st, 3) + [Apply3(t, Back(st, 0), Back(st, 1), Back(st, 2))]), [])
    case Hash(d) =>
      var data := MemGet(s.mem, Back(st, 0), Back(st, 1));
      Done(s.(stack := Drop(st, 2) + [env.digest(d, data)]), [])
    case PushContext(c) => Done(s.(stack := st + [ContextValue(env, s, c)]), [])
    case Lookup(l) => Done(s.(stack := Drop(st, 1) + [LookupValue(env, s, l, Back(st, 0))]), [])
    case Copy(from) =>
      (match CopySource(env, s, from, Back(st, 1), Back(st, 2))
       case None => ExecError(ReturnDataOutOfBounds)
       case Some(data) => Done(s.(stack := Drop(st, 3), mem := MemSet(s.mem, Back(st, 0), data)), []))
    case Pop => Done(s.(stack := Drop(st, 1)), [])
    case Mload =>
      var word := MemGet(s.mem, Back(st, 0), 32);
      FromBytesWord(word);
      Done(s.(stack := Drop(st, 1) + [FromBytes(word)]), [])
    case Mstore =>
      Done(s.(stack := Drop(st, 2), mem := MemSet(s.mem, Back(st, 0), BigEndian(Back(st, 1), 32))), [])
    case Mstore8 =>
      Done(s.(stack := Drop(st, 2), mem := MemSet(s.mem, Back(st, 0), [Back(st, 1) % 256])), [])
    case Sstore =>
      var value := Encode(Back(st, 1));
      Done(s.(stack := Drop(st, 2),
              storage := if env.set_.offchain then s.storage else s.storage[Back(st, 0) := value]), [])
    case Jump => JumpTo(env, s.(stack := Drop(st, 1)), Back(st, 0))
    case Jumpi =>
      if Back(st, 1) != 0 then JumpTo(env, s.(stack := Drop(st, 2)), Back(st, 0))
      else Done(s.(stack := Drop(st, 2), pc := s.pc + 1), [])
    case Jumpdest => Done(s, [])
    case Push(n) =>
      var data := PushData(env.code, s.pc, n);
      FromBytesWord(data);
      Done(s.(stack := st + [FromBytes(data)], pc := s.pc + n), [])
    case Dup(n) => Done(s.(stack := st + [Back(st, n - 1)]), [])
    case Swap(n) => Done(s.(stack := st[|st| - 1 - n := Back(st, 0)][|st| - 1 := Back(st, n)]), [])
    case Log(n) =>
      var entry := VmLog(Topics(st, n), MemGet(s.mem, Back(st, 0), Back(st, 1)));
      Done(s.(stack := Drop(st, n + 2), logs := if env.set_.offchain then s.logs else s.logs + [entry]), [])
    case Call => ExecCall(env, s, false)
    case Call2 => ExecCall(env, s, true)
    case Return => Done(s.(stack := Drop(st, 2)), MemGet(s.mem, Back(st, 0), Back(st, 1)))
    case Revert =>
      var ret := MemGet(s.mem, Back(st, 0), Back(st, 1));
      if env.set_.offchain then Done(s.(stack := Drop(st, 2)), [])
      else Done(s.(stack := Drop(st, 2), returnData := ret), ret)
    case Invalid => ExecError(InvalidOpCode)
  }

  /** What the loop does with the result of an instruction. */
  function Conclude(env: Env, i: Instr, s: State, e: Exec): Outcome {
    match e
    case ExecError(err) => Failed(s, err)
    case Done(s', ret) =>
      if Halts(env.set_, i) then Halted(s', ret)
      else if Reverts(env.set_, i) then Reverted(s', ret)
      else if Jumps(i) then Running(s')
      else Running(s'.(pc := s'.pc + 1))
  }

  /** The state after a successful charge, with memory grown. */
  function Charged(s: State, g: Gas, left: Uint64, size: Uint64): State
    requires g.Gas?
  {
    s.(quota := left, lastGas := g.last, modified := g.modified, mem := Resize(s.mem, size))
  }

  /** The checks before execution: an outcome if one fails, else the instruction and the charged state. */
  datatype Prepared = Refused(o: Outcome) | Ready(i: Instr, g: Gas, s': State)

  function Instruction(env: Env, s: State): Instr {
    Decode(env.set_, GetOp(env.code, s.pc))
  }

  function Prepare(env: Env, t: QuotaTable, s: State): (p: Prepared)
    requires t.memDivision > 0
    ensures p.Refused? ==> p.o.Failed? && p.o.s.stack == s.stack && p.o.s.storage == s.storage
    ensures p.Refused? ==> p.o.s.quota == s.quota || p.o.s.quota == 0
    ensures p.Ready? ==>
              && p.i == Instruction(env, s) && !p.i.Invalid?
              && Pops(p.i) <= |s.stack| <= STACK_LIMIT + Pops(p.i) - Pushes(p.i)
              && (p.i.Push? ==> p.i.n <= 32) && (p.i.Dup? ==> p.i.n >= 1)
              && MemoryNeed(p.i, s.stack) <= |p.s'.mem|
              && RoundToWords(MemoryNeed(p.i, s.stack)).Some?
              && var size := RoundToWords(MemoryNeed(p.i, s.stack)).value;
              && p.g == GasCost(env, t, p.i, s, size) && p.g.Gas?
              && var left := UseQuotaWithFlag(s.quota, p.g.cost, p.g.charge);
              && left.Some? && p.s' == Charged(s, p.g, left.value, size)
  {
    var i := Instruction(env, s);
    if i.Invalid? then Refused(Failed(s, InvalidOpCode))
    else if |s.stack| < Pops(i) then Refused(Failed(s, StackUnderflow))
    else if |s.stack| + Pushes(i) - Pops(i) > STACK_LIMIT then Refused(Failed(s, StackLimitReached))
    else match RoundToWords(MemoryNeed(i, s.stack))
      case None => Refused(Failed(s, MemSizeOverflow))
      case Some(size) =>
        var g := GasCost(env, t, i, s, size);
        if g.GasError? then Refused(Failed(s, g.error))
        else match UseQuotaWithFlag(s.quota, g.cost, g.charge)
          case None => Refused(Failed(s.(quota := 0, lastGas := g.last, modified := g.modified), OutOfQuota))
          case Some(left) => Ready(i, g, Charged(s, g, left, size))
  }

  /** One turn of the interpreter loop. */
  function Step(env: Env, t: QuotaTable, s: State): Outcome
    requires t.memDivision > 0
  {
    match Prepare(env, t, s)
    case Refused(o) => o
    case Ready(i, _, s') => Conclude(env, i, s', Execute(env, i, s'))
  }

  /** The state after at most n turns. */
  function Runs(env: Env, t: QuotaTable, s: State, n: nat): Outcome
    requires t.memDivision > 0
  {
    if n == 0 then Running(s)
    else
      var o := Runs(env, t, s, n - 1);
      if o.Running? then Step(env, t, o.s) else o
  }
}
