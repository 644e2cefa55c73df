/** The interpreter as it runs: a stack, a memory and a contract changed in place, one loop over them. */
module Interpreter {
  import opened Arith
  import opened BigMath
  import opened WordOps
  import opened Opcodes
  import opened Metering
  import opened Destinations
  import opened Machine
  import opened MachineProofs
  import opened Wrappers

  const WORD_BITS := 64
  const WORD_BYTES := 8

  /** The machine words of a big integer, least significant first. */
  function Limbs(v: nat): seq<nat> {
    if v == 0 then [] else [v % TWO64] + Limbs(v / TWO64)
  }

  lemma {:induction false} LimbsValue(v: nat)
    ensures Normal(Limbs(v), TWO64) && WordsValue(Limbs(v), TWO64) == v
  {
    if v > 0 {
      LimbsValue(v / TWO64);
      assert Limbs(v)[1..] == Limbs(v / TWO64);
    }
  }

  /** vm/stack.go */
  class Stack {
    var data: seq<Word>

    constructor ()
      ensures data == []
    {
      data := [];
    }

    method Push(d: Word)
      modifies this
      ensures data == old(data) + [d]
    {
      data := data + [d];
    }

    method Pop() returns (ret: Word)
      requires |data| > 0
      modifies this
      ensures ret == old(Back(data, 0)) && data == old(Drop(data, 1))
    {
      ret := data[|data| - 1];
      data := data[..|data| - 1];
    }

    method SetTop(d: Word)
      requires |data| > 0
      modifies this
      ensures data == old(Drop(data, 1)) + [d]
    {
      data := data[|data| - 1 := d];
      assert data == old(Drop(data, 1)) + [d];
    }

    method Dup(n: nat)
      requires 1 <= n <= |data|
      modifies this
      ensures data == old(data) + [old(Back(data, n - 1))]
    {
      Push(data[|data| - n]);
    }

    method Swap(n: nat)
      requires 1 <= n <= |data|
      modifies this
      ensures data == old(data)[|old(data)| - n := old(Back(data, 0))][|old(data)| - 1 := old(Back(data, n - 1))]
    {
      var a, b := data[|data| - n], data[|data| - 1];
      data := data[|data| - n := b];
      data := data[|data| - 1 := a];
    }
  }

  /** vm/memory.go */
  class Memory {
    var store: seq<Byte>
    var lastGasCost: Uint64

    constructor ()
      ensures store == [] && lastGasCost == 0
    {
      store, lastGasCost := [], 0;
    }

    method Resize(size: nat)
      modifies this`store
      ensures store == Machine.Resize(old(store), size)
    {
      if |store| < size {
        store := store + Zeros(size - |store|);
      }
    }

    method Get(offset: nat, size: nat) returns (cpy: seq<Byte>)
      requires size > 0 ==> offset + size <= |store|
      ensures cpy == MemGet(store, offset, size)
    {
      if size == 0 {
        return [];
      }
      if |store| > offset {
        return store[offset..offset + size];
      }
      return [];
    }

    method Set(offset: nat, value: seq<Byte>)
      requires |value| > 0 ==> offset + |value| <= |store|
      modifies this`store
      ensures store == MemSet(old(store), offset, value)
    {
      if |value| > 0 {
        store := store[..offset] + value + store[offset + |value|..];
      }
    }

    method Set32(offset: nat, val: Word)
      requires offset + 32 <= |store|
      modifies this`store
      ensures store == MemSet(old(store), offset, BigEndian(val, 32))
    {
      var buf := new Byte[32];
      LimbsValue(val);
      Pow256IsPow2(WORD_BYTES);
      Pow2Constants();
      PutWord(Limbs(val), WORD_BYTES, buf);
      store := store[..offset] + buf[..] + store[offset + 32..];
    }

    /** memoryGasCost: the fee for growing to size, remembering the new total. */
    method GasCost(t: QuotaTable, size: Uint64) returns (fee: Option<Uint64>)
      requires t.memDivision > 0
      modifies this`lastGasCost
      ensures var f := MemoryGasCost(t.memQuota, t.memDivision, |store|, old(lastGasCost), size);
              if f.None? then fee.None? && lastGasCost == old(lastGasCost)
              else fee == Some(f.value.fee) && lastGasCost == f.value.last
    {
      if size == 0 {
        return Some(0);
      }
      if size > 0xffffffffe0 {
        return None;
      }
      var words := ToWordSize(size);
      if words * 32 > |store| {
        var total := WrappedFee(t.memQuota, t.memDivision, words);
        fee := Some(Sub64(total - lastGasCost));
        lastGasCost := total;
      } else {
        fee := Some(0);
      }
    }
  }

  /** vm/contract.go with the part of the database a run writes. */
  class Contract {
    const env: Env
    const codeAddr: nat
    const jumpdests: Cache<nat>
    var quotaLeft: Uint64
    var returnData: seq<Byte>
    var storageModified: set<Word>
    var storage: map<Word, Value>
    var sends: seq<Send>
    var logs: seq<VmLog>

    ghost predicate Valid()
      reads this, jumpdests
    {
      jumpdests.Valid() && (codeAddr in jumpdests.codes ==> jumpdests.codes[codeAddr] == env.code)
    }

    constructor (env: Env, codeAddr: nat, quotaLeft: Uint64)
      ensures Valid() && fresh(jumpdests) && this.env == env && this.quotaLeft == quotaLeft
      ensures returnData == [] && storageModified == {} && storage == map[] && sends == [] && logs == []
    {
      this.env, this.codeAddr, this.quotaLeft := env, codeAddr, quotaLeft;
      returnData, storageModified, storage, sends, logs := [], {}, map[], [], [];
      jumpdests := new Cache();
    }

    /** gasSStore: counts the slot against the limit, then prices the write. */
    method GasSstore(t: QuotaTable, st: Stack, mem: Memory, ghost pc: nat) returns (g: Gas)
      requires |st.data| >= 2
      modifies this`storageModified
      ensures g == SstoreGas(env, t, old(Snapshot(pc, st, mem, this)))
      ensures g.Gas? ==> storageModified == g.modified && g.last == mem.lastGasCost
    {
      var loc, next := Back(st.data, 0), Encode(Back(st.data, 1));
      if env.limitWrites {
        storageModified := storageModified + {loc};
        if |storageModified| > MODIFY_MAX {
          return GasError(StorageModifyLimit);
        }
      }
      var current := if loc in storage then storage[loc] else env.original(loc);
      var c := SstoreCost(t.sstore, env.original(loc), current, next);
      g := Gas(c.cost, c.charge, mem.lastGasCost, storageModified);
    }
  }

  function Snapshot(pc: nat, st: Stack, mem: Memory, c: Contract): State
    reads st, mem, c
  {
    State(pc, st.data, mem.store, mem.lastGasCost, c.quotaLeft, c.storage, c.storageModified, c.returnData,
          c.sends, c.logs)
  }

  /** A memory fee plus a fixed and a variable part. */
  method FeeWith(t: QuotaTable, mem: Memory, size: Uint64, fixed: Uint64, variable: Option<Uint64>, modified: set<Word>,
                 ghost s: State) returns (g: Gas)
    requires t.memDivision > 0
    requires s.mem == mem.store && s.lastGas == mem.lastGasCost && s.modified == modified
    modifies mem`lastGasCost
    ensures g == FeePlus(t, s, size, fixed, variable)
    ensures g.Gas? ==> mem.lastGasCost == g.last
  {
    var fee := mem.GasCost(t, size);
    if fee.None? {
      return GasError(GasUintOverflow);
    }
    var (sum, over) := SafeAdd(fee.value, fixed);
    if over || variable.None? {
      return GasError(GasUintOverflow);
    }
    var (total, over2) := SafeAdd(sum, variable.value);
    if over2 {
      return GasError(GasUintOverflow);
    }
    g := Gas(total, true, mem.lastGasCost, modified);
  }

  /** The gas column of the jump table. */
  method GasFor(t: QuotaTable, i: Instr, pc: nat, st: Stack, mem: Memory, c: Contract, size: Uint64) returns (g: Gas)
    requires Pops(i) <= |st.data| && t.memDivision > 0
    modifies mem`lastGasCost, c`storageModified
    ensures g == GasCost(c.env, t, i, old(Snapshot(pc, st, mem, c)), size)
    ensures g.Gas? ==> mem.lastGasCost == g.last && c.storageModified == g.modified
  {
    ghost var s := Snapshot(pc, st, mem, c);
    var written := c.storageModified;
    match i
    case Stop => g := Gas(0, true, mem.lastGasCost, written);
    case Binary(EXP) =>
      var (sum, over) := SafeAdd((|MinimalBytes(Back(st.data, 1))| * t.expByte) % TWO64, t.flat(i));
      g := if over then GasError(GasUintOverflow) else Gas(sum, true, mem.lastGasCost, written);
    case Hash(_) => g := FeeWith(t, mem, size, t.flat(i), PerWord(Back(st.data, 1), t.digestWord), written, s);
    case Copy(from) => g := FeeWith(t, mem, size, t.copy(from), PerWord(Back(st.data, 2), t.copyWord), written, s);
    case Mload => g := FeeWith(t, mem, size, t.flat(i), Some(0), written, s);
    case Mstore => g := FeeWith(t, mem, size, t.flat(i), Some(0), written, s);
    case Mstore8 => g := FeeWith(t, mem, size, t.flat(i), Some(0), written, s);
    case Sstore => g := c.GasSstore(t, st, mem, pc);
    case Log(n) => g := FeeWith(t, mem, size, t.flat(Log(0)), LogPrice(t, n, Back(st.data, 1)), written, s);
    case Call => g := GasForCall(t, pc, st, mem, c, size);
    case Call2 => g := GasForCall(t, pc, st, mem, c, size);
    case Return => g := FeeWith(t, mem, size, 0, Some(0), written, s);
    case Revert => g := FeeWith(t, mem, size, 0, Some(0), written, s);
    case _ => g := Gas(t.flat(i), true, mem.lastGasCost, written);
  }

  method GasForCall(t: QuotaTable, ghost pc: nat, st: Stack, mem: Memory, c: Contract, size: Uint64) returns (g: Gas)
    requires t.memDivision > 0
    modifies mem`lastGasCost
    ensures g == CallGas(c.env, t, old(Snapshot(pc, st, mem, c)), size)
    ensures g.Gas? ==> mem.lastGasCost == g.last && c.storageModified == g.modified
  {
    var fee := mem.GasCost(t, size);
    if fee.None? {
      return GasError(GasUintOverflow);
    }
    match c.env.sendCost(st.data, mem.store)
    case NoCost(e) => g := GasError(e);
    case Cost(cost) =>
      var (sum, over) := SafeAdd(fee.value, if cost > t.callMinus then cost - t.callMinus else 0);
      g := if over then GasError(GasUintOverflow) else Gas(sum, true, mem.lastGasCost, c.storageModified);
  }

  datatype Done = Ok(ret: seq<Byte>) | Err(error: Error)

  /** How an execution in place relates to the instruction's meaning. */
  ghost predicate Executed(e: Exec, pc: nat, s: State, r: Done) {
    match e
    case Done(s', ret) => r == Ok(ret) && s.(pc := pc) == s'
    case ExecError(err) => r == Err(err)
  }

  method ExecBinary(b: Binary, st: Stack)
    requires |st.data| >= 2
    modifies st
    ensures st.data == Drop(old(st.data), 2) + [Apply2(b, old(Back(st.data, 0)), old(Back(st.data, 1)))]
  {
    hide Apply2;
    ghost var d := st.data;
    PopNext(d, 1);
    var x := st.Pop();
    if b == EXP {
      var exponent := st.Pop();
      var result := ExpOfWords(x, exponent);
      st.Push(result);
    } else {
      st.SetTop(Apply2(b, x, Back(st.data, 0)));
    }
  }

  method ExpOfWords(x: Word, exponent: Word) returns (result: Word)
    ensures result == Apply2(EXP, x, exponent)
  {
    hide WordsValue, Limbs;
    LimbsValue(exponent);
    Pow2Constants();
    var power, _ := Exp(x, Limbs(exponent), WORD_BITS);
    result := power;
  }

  method ExecLog(n: nat, st: Stack, mem: Memory, c: Contract)
    requires |st.data| >= n + 2 && MemoryNeed(Log(n), st.data) <= |mem.store|
    modifies st, c`logs
    ensures st.data == Drop(old(st.data), n + 2)
    ensures c.logs == if c.env.set_.offchain then old(c.logs)
                      else old(c.logs) + [VmLog(Topics(old(st.data), n),
                                                MemGet(mem.store, old(Back(st.data, 0)), old(Back(st.data, 1))))]
  {
    ghost var d := st.data;
    var mStart := st.Pop();
    var mSize := st.Pop();
    var topics: seq<Word> := [];
    for k := 0 to n
      invariant st.data == Drop(d, k + 2)
      invariant topics == Topics(d, n)[..k] && c.logs == old(c.logs)
    {
      var topic := st.Pop();
      topics := topics + [topic];
    }
    assert Topics(d, n)[..n] == Topics(d, n);
    if !c.env.set_.offchain {
      var data := mem.Get(mStart, mSize);
      c.logs := c.logs + [VmLog(topics, data)];
    }
  }

  lemma {:induction false} PopNext(d: seq<Word>, n: nat)
    requires n < |d|
    ensures Back(Drop(d, n), 0) == Back(d, n) && Drop(Drop(d, n), 1) == Drop(d, n + 1)
  {
    assert Drop(Drop(d, n), 1) == Drop(d, n + 1);
  }

  method ExecCallOp(hashed: bool, ghost pc: nat, st: Stack, mem: Memory, c: Contract) returns (r: Done)
    requires |st.data| >= 5
    modifies st, c`sends
    ensures Executed(ExecCall(c.env, old(Snapshot(pc, st, mem, c)), hashed), pc, Snapshot(pc, st, mem, c), r)
    ensures r.Err? ==> c.sends == old(c.sends)
  {
    ghost var s := Snapshot(pc, st, mem, c);
    var to := st.Pop();
    var token := st.Pop();
    PopNext(s.stack, 1);
    var amount := st.Pop();
    PopNext(s.stack, 2);
    var off := st.Pop();
    PopNext(s.stack, 3);
    var len := st.Pop();
    PopNext(s.stack, 4);
    if c.env.set_.offchain {
      if hashed { st.Push(0); }
      return Ok([]);
    }
    var data;
    if len == 0 {
      data := Some([]);
    } else if off + len <= |mem.store| {
      data := Some(mem.store[off..off + len]);
    } else {
      data := c.env.beyond(mem.store, off, len);
    }
    assert data == SendData(c.env, s, off, len);
    if data.None? {
      return Err(Panicked);
    }
    c.sends := c.sends + [Send(to, token, amount, data.value)];
    if hashed { st.Push(c.env.sendHash(c.sends)); }
    r := Ok([]);
  }

  /** What an operation's execute function is called with. */
  ghost predicate Callable(i: Instr, st: Stack, mem: Memory, c: Contract)
    reads st, mem, c, c.jumpdests
  {
    && c.Valid() && !i.Invalid?
    && Pops(i) <= |st.data| && MemoryNeed(i, st.data) <= |mem.store|
    && (i.Push? ==> i.n <= 32) && (i.Dup? ==> i.n >= 1)
  }

  predicate Computes(i: Instr) {
    i.Unary? || i.Binary? || i.Ternary?
  }

  /** Arithmetic on the topmost words. */
  method ExecValueOp(i: Instr, pc: nat, st: Stack, mem: Memory, c: Contract) returns (r: Done)
    requires Callable(i, st, mem, c) && Computes(i)
    modifies st
    ensures Executed(Execute(c.env, i, old(Snapshot(pc, st, mem, c))), pc, Snapshot(pc, st, mem, c), r)
  {
    hide Apply1, Apply2, Apply3, PushData, GetData, FromBytes, ExecCall, JumpTo, Topics, CopySource, ContextValue,
         LookupValue, BigEndian, MemGet, MemSet;
    ghost var d := st.data;
    r := Ok([]);
    match i
    case Unary(u) => st.SetTop(Apply1(u, Back(st.data, 0)));
    case Binary(b) => ExecBinary(b, st);
    case Ternary(op) =>
      var x := st.Pop();
      var y := st.Pop();
      st.SetTop(Apply3(op, x, y, Back(st.data, 0)));
      assert st.data == Drop(d, 3) + [Apply3(op, x, y, Back(d, 2))];
  }

  predicate Asks(i: Instr) {
    i.Hash? || i.PushContext? || i.Lookup?
  }

  /** Values from memory, the environment or storage. */
  method ExecLookupOp(i: Instr, pc: nat, st: Stack, mem: Memory, c: Contract) returns (r: Done)
    requires Callable(i, st, mem, c) && Asks(i)
    modifies st
    ensures Executed(Execute(c.env, i, old(Snapshot(pc, st, mem, c))), pc, Snapshot(pc, st, mem, c), r)
  {
    hide Apply1, Apply2, Apply3, PushData, GetData, FromBytes, ExecCall, JumpTo, Topics, CopySource, BigEndian, MemSet;
    ghost var d := st.data;
    r := Ok([]);
    match i
    case Hash(h) =>
      var off := st.Pop();
      var len := st.Pop();
      var data := mem.Get(off, len);
      st.Push(c.env.digest(h, data));
      assert st.data == Drop(d, 2) + [c.env.digest(h, data)];
    case PushContext(v) => st.Push(ContextValue(c.env, Snapshot(pc, st, mem, c), v));
    case Lookup(l) => st.SetTop(LookupValue(c.env, Snapshot(pc, st, mem, c), l, Back(st.data, 0)));
  }

  predicate Moves(i: Instr) {
    i.Stop? || i.Pop? || i.Mload? || i.Jumpdest? || i.Push? || i.Dup? || i.Swap?
  }

  /** Operations that move words on the stack, or onto it from memory or code. */
  method ExecStackOp(i: Instr, pc: nat, st: Stack, mem: Memory, c: Contract) returns (pc': nat, r: Done)
    requires Callable(i, st, mem, c) && Moves(i)
    modifies st
    ensures Executed(Execute(c.env, i, old(Snapshot(pc, st, mem, c))), pc', Snapshot(pc, st, mem, c), r)
  {
    hide Apply1, Apply2, Apply3, ContextValue, LookupValue, GetData, ExecCall, JumpTo, Topics, CopySource, FromBytes,
         BigEndian, Encode, MemSet, PushData;
    pc', r := pc, Ok([]);
    match i
    case Stop =>
    case Pop => var _ := st.Pop();
    case Mload =>
      var off := st.Pop();
      var word := mem.Get(off, 32);
      FromBytesWord(word);
      st.Push(FromBytes(word));
    case Jumpdest =>
    case Push(n) =>
      FromBytesWord(PushData(c.env.code, pc, n));
      st.Push(FromBytes(PushData(c.env.code, pc, n)));
      pc' := pc + n;
    case Dup(n) => st.Dup(n);
    case Swap(n) => st.Swap(n + 1);
  }

  method ExecCopy(from: Source, pc: nat, st: Stack, mem: Memory, c: Contract) returns (r: Done)
    requires Callable(Copy(from), st, mem, c)
    modifies st, mem`store
    ensures Executed(Execute(c.env, Copy(from), old(Snapshot(pc, st, mem, c))), pc, Snapshot(pc, st, mem, c), r)
  {
    hide Execute, CopySource, MemSet, MemoryNeed, Pops;
    ghost var s := Snapshot(pc, st, mem, c);
    CopyResult(c.env, from, s);
    CopyIgnoresStack(c.env, from, s, Back(s.stack, 1), Back(s.stack, 2), Drop(s.stack, 3));
    PopNext(st.data, 1);
    PopNext(st.data, 2);
    var memOff := st.Pop();
    var off := st.Pop();
    var len := st.Pop();
    var data := CopySource(c.env, Snapshot(pc, st, mem, c), from, off, len);
    if data.None? {
      return Err(ReturnDataOutOfBounds);
    }
    mem.Set(memOff, data.value);
    r := Ok([]);
  }

  lemma {:induction false} CopyIgnoresStack(env: Env, from: Source, s: State, off: Word, len: Word, stack: seq<Word>)
    ensures CopySource(env, s, from, off, len) == CopySource(env, s.(stack := stack), from, off, len)
  {
  }

  lemma {:induction false} CopyResult(env: Env, from: Source, s: State)
    requires Pops(Copy(from)) <= |s.stack| && MemoryNeed(Copy(from), s.stack) <= |s.mem|
    ensures |s.stack| >= 3 && (Back(s.stack, 2) > 0 ==> Back(s.stack, 0) + Back(s.stack, 2) <= |s.mem|)
    ensures var data := CopySource(env, s, from, Back(s.stack, 1), Back(s.stack, 2));
            Execute(env, Copy(from), s) ==
            if data.None? then ExecError(ReturnDataOutOfBounds)
            else Machine.Done(s.(stack := Drop(s.stack, 3), mem := MemSet(s.mem, Back(s.stack, 0), data.value)), [])
  {
    hide Apply1, Apply2, Apply3, ContextValue, LookupValue, PushData, GetData, FromBytes, ExecCall, JumpTo, Topics,
         Encode, BigEndian, MemGet;
  }

  predicate Stores(i: Instr) {
    i.Mstore? || i.Mstore8? || i.Sstore?
  }

  lemma {:induction false} StoreResult(env: Env, i: Instr, s: State)
    requires Stores(i) && |s.stack| >= 2 && MemoryNeed(i, s.stack) <= |s.mem|
    ensures i.Mstore? ==> Execute(env, i, s) == Machine.Done(
              s.(stack := Drop(s.stack, 2),
                 mem := MemSet(s.mem, Back(s.stack, 0), BigEndian(Back(s.stack, 1), 32))), [])
    ensures i.Mstore8? ==> Execute(env, i, s) == Machine.Done(
              s.(stack := Drop(s.stack, 2), mem := MemSet(s.mem, Back(s.stack, 0), [Back(s.stack, 1) % 256])), [])
    ensures i.Sstore? ==> Execute(env, i, s) == Machine.Done(
              s.(stack := Drop(s.stack, 2),
                 storage := if env.set_.offchain then s.storage
                            else s.storage[Back(s.stack, 0) := Encode(Back(s.stack, 1))]), [])
  {
    hide Apply1, Apply2, Apply3, ContextValue, LookupValue, PushData, GetData, FromBytes, ExecCall, JumpTo, Topics,
         CopySource, Encode, BigEndian, MemGet;
  }

  lemma {:induction false} StoreFits(i: Instr, stack: seq<Word>, n: nat)
    requires Stores(i) && Pops(i) <= |stack| && MemoryNeed(i, stack) <= n
    ensures |stack| >= 2
    ensures i.Mstore? ==> Back(stack, 0) + 32 <= n
    ensures i.Mstore8? ==> Back(stack, 0) + 1 <= n
  {
  }

  /** Two words off the stack, then memory or storage. */
  method ExecStoreOp(i: Instr, pc: nat, st: Stack, mem: Memory, c: Contract) returns (r: Done)
    requires Callable(i, st, mem, c) && Stores(i)
    modifies st, mem`store, c`storage
    ensures r.Ok?
    ensures Executed(Execute(c.env, i, old(Snapshot(pc, st, mem, c))), pc, Snapshot(pc, st, mem, c), r)
  {
    hide Execute, BigEndian, Encode, MemSet, MemoryNeed, Pops;
    StoreFits(i, st.data, |mem.store|);
    StoreResult(c.env, i, Snapshot(pc, st, mem, c));
    PopNext(st.data, 1);
    var first := st.Pop();
    var second := st.Pop();
    r := Ok([]);
    match i
    case Mstore => mem.Set32(first, second);
    case Mstore8 => mem.Set(first, [second % 256]);
    case Sstore =>
      if !c.env.set_.offchain { c.storage := c.storage[first := Encode(second)]; }
  }

  lemma {:induction false} ReturnResult(env: Env, i: Instr, s: State)
    requires (i.Return? || i.Revert?) && |s.stack| >= 2 && MemoryNeed(i, s.stack) <= |s.mem|
    ensures var s' := s.(stack := Drop(s.stack, 2));
            var ret := MemGet(s.mem, Back(s.stack, 0), Back(s.stack, 1));
            Execute(env, i, s) == if i.Return? then Machine.Done(s', ret)
                                  else if env.set_.offchain then Machine.Done(s', [])
                                  else Machine.Done(s'.(returnData := ret), ret)
  {
    hide Apply1, Apply2, Apply3, ContextValue, LookupValue, PushData, GetData, FromBytes, ExecCall, JumpTo, Topics,
         CopySource, Encode, BigEndian, MemSet;
  }

  /** Two words off the stack, then the bytes they name as the result. */
  method ExecReturnOp(i: Instr, pc: nat, st: Stack, mem: Memory, c: Contract) returns (r: Done)
    requires Callable(i, st, mem, c) && (i.Return? || i.Revert?)
    modifies st, c`returnData
    ensures Executed(Execute(c.env, i, old(Snapshot(pc, st, mem, c))), pc, Snapshot(pc, st, mem, c), r)
  {
    hide Execute;
    ReturnResult(c.env, i, Snapshot(pc, st, mem, c));
    ghost var d := st.data;
    var first := st.Pop();
    var second := st.Pop();
    assert st.data == Drop(d, 2);
    if i.Return? || !c.env.set_.offchain {
      var ret := mem.Get(first, second);
      if i.Revert? { c.returnData := ret; }
      r := Ok(ret);
    } else {
      r := Ok([]);
    }
  }

  method ExecJumpOp(i: Instr, pc: nat, st: Stack, mem: Memory, c: Contract) returns (pc': nat, r: Done)
    requires Callable(i, st, mem, c) && Jumps(i)
    modifies st, c.jumpdests
    ensures c.Valid()
    ensures Executed(Execute(c.env, i, old(Snapshot(pc, st, mem, c))), pc', Snapshot(pc, st, mem, c), r)
  {
    ghost var d := st.data;
    var pos := st.Pop();
    if i.Jumpi? {
      var cond := st.Pop();
      assert st.data == Drop(d, 2);
      if cond == 0 {
        return pc + 1, Ok([]);
      }
    }
    var ok := c.jumpdests.Has(c.codeAddr, c.env.code, pos);
    if !ok {
      return pc, Err(InvalidJumpDestination);
    }
    return pos, Ok([]);
  }

  lemma {:induction false} LogResult(env: Env, n: nat, s: State)
    requires |s.stack| >= n + 2 && MemoryNeed(Log(n), s.stack) <= |s.mem|
    ensures Execute(env, Log(n), s) == Machine.Done(
              s.(stack := Drop(s.stack, n + 2),
                 logs := if env.set_.offchain then s.logs
                         else
                           var data := MemGet(s.mem, Back(s.stack, 0), Back(s.stack, 1));
                           s.logs + [VmLog(Topics(s.stack, n), data)]), [])
  {
    hide Apply1, Apply2, Apply3, ContextValue, LookupValue, PushData, GetData, FromBytes, ExecCall, JumpTo,
         CopySource, Encode, BigEndian, MemSet;
  }

  lemma {:induction false} CallResult(env: Env, i: Instr, s: State)
    requires (i.Call? || i.Call2?) && |s.stack| >= 5 && MemoryNeed(i, s.stack) <= |s.mem|
    ensures Execute(env, i, s) == ExecCall(env, s, i.Call2?)
  {
    hide Apply1, Apply2, Apply3, ContextValue, LookupValue, PushData, GetData, FromBytes, ExecCall, JumpTo,
         CopySource, Encode, BigEndian, MemSet, MemGet, Topics;
  }

  predicate PutsOut(i: Instr) {
    i.Copy? || i.Log? || i.Call? || i.Call2?
  }

  /** Copies, log entries and outgoing calls. */
  method ExecOutputOp(i: Instr, pc: nat, st: Stack, mem: Memory, c: Contract) returns (r: Done)
    requires Callable(i, st, mem, c) && PutsOut(i)
    modifies st, mem`store, c`sends, c`logs
    ensures r.Err? ==> c.sends == old(c.sends) && c.logs == old(c.logs)
    ensures Executed(Execute(c.env, i, old(Snapshot(pc, st, mem, c))), pc, Snapshot(pc, st, mem, c), r)
  {
    hide Execute, MemGet, MemSet, Topics, ExecCall;
    match i
    case Copy(from) => r := ExecCopy(from, pc, st, mem, c);
    case Log(n) =>
      LogResult(c.env, n, Snapshot(pc, st, mem, c));
      ExecLog(n, st, mem, c);
      r := Ok([]);
    case Call =>
      CallResult(c.env, i, Snapshot(pc, st, mem, c));
      r := ExecCallOp(false, pc, st, mem, c);
    case Call2 =>
      CallResult(c.env, i, Snapshot(pc, st, mem, c));
      r := ExecCallOp(true, pc, st, mem, c);
  }

  /** The execute column of the jump table: st, mem and c end up as the instruction's meaning says. */
  method ExecuteOp(i: Instr, pc: nat, st: Stack, mem: Memory, c: Contract) returns (pc': nat, r: Done)
    requires Callable(i, st, mem, c)
    modifies st, mem`store, c`returnData, c`storage, c`sends, c`logs, c.jumpdests
    ensures c.Valid()
    ensures r.Err? ==> c.storage == old(c.storage) && c.sends == old(c.sends) && c.logs == old(c.logs)
    ensures Executed(Execute(c.env, i, old(Snapshot(pc, st, mem, c))), pc', Snapshot(pc, st, mem, c), r)
  {
    hide Execute, Executed, MemoryNeed;
    pc' := pc;
    if Computes(i) {
      r := ExecValueOp(i, pc, st, mem, c);
    } else if Asks(i) {
      r := ExecLookupOp(i, pc, st, mem, c);
    } else if Moves(i) {
      pc', r := ExecStackOp(i, pc, st, mem, c);
    } else if Stores(i) {
      r := ExecStoreOp(i, pc, st, mem, c);
    } else if i.Return? || i.Revert? {
      r := ExecReturnOp(i, pc, st, mem, c);
    } else if Jumps(i) {
      pc', r := ExecJumpOp(i, pc, st, mem, c);
    } else {
      r := ExecOutputOp(i, pc, st, mem, c);
    }
  }

  /** What the caller of a run sees of its last state. */
  ghost predicate LeftBehind(c: Contract, s: State)
    reads c
  {
    c.quotaLeft == s.quota && c.storage == s.storage && c.sends == s.sends && c.logs == s.logs
  }

  /** The checks, the charge and the growth of memory before an instruction runs. */
  method Admit(pc: nat, st: Stack, mem: Memory, c: Contract, t: QuotaTable) returns (p: Prepared)
    requires t.memDivision > 0
    modifies mem, c`quotaLeft, c`storageModified
    ensures p == Prepare(c.env, t, old(Snapshot(pc, st, mem, c)))
    ensures p.Ready? ==> p.s' == Snapshot(pc, st, mem, c)
    ensures p.Refused? ==> c.quotaLeft == p.o.s.quota
    ensures p.Refused? ==> p.o.s.sends == c.sends && p.o.s.logs == c.logs
  {
    var before := Snapshot(pc, st, mem, c);
    var i := Instruction(c.env, before);
    if i.Invalid? {
      return Refused(Failed(before, InvalidOpCode));
    }
    if |st.data| < Pops(i) {
      return Refused(Failed(before, StackUnderflow));
    }
    if |st.data| + Pushes(i) - Pops(i) > STACK_LIMIT {
      return Refused(Failed(before, StackLimitReached));
    }
    var size := RoundToWords(MemoryNeed(i, st.data));
    if size.None? {
      return Refused(Failed(before, MemSizeOverflow));
    }
    var g := GasFor(t, i, pc, st, mem, c, size.value);
    if g.GasError? {
      return Refused(Failed(before, g.error));
    }
    var left := UseQuotaWithFlag(c.quotaLeft, g.cost, g.charge);
    if left.None? {
      c.quotaLeft := 0;
      return Refused(Failed(Snapshot(pc, st, mem, c), OutOfQuota));
    }
    c.quotaLeft := left.value;
    if size.value > 0 {
      mem.Resize(size.value);
    }
    p := Ready(i, g, Snapshot(pc, st, mem, c));
  }

  /** One turn of the loop in place. */
  method Turn(pc: nat, st: Stack, mem: Memory, c: Contract, t: QuotaTable) returns (pc': nat, o: Outcome)
    requires t.memDivision > 0 && c.Valid()
    modifies st, mem, c, c.jumpdests
    ensures c.Valid() && o == Step(c.env, t, old(Snapshot(pc, st, mem, c)))
    ensures o.Running? ==> o.s == Snapshot(pc', st, mem, c)
    ensures LeftBehind(c, o.s)
  {
    hide Execute, Prepare, GasCost;
    pc' := pc;
    var p := Admit(pc, st, mem, c, t);
    if p.Refused? {
      return pc, p.o;
    }
    var r;
    pc', r := ExecuteOp(p.i, pc, st, mem, c);
    if r.Err? {
      return pc', Failed(p.s', r.error);
    }
    if Halts(c.env.set_, p.i) {
      return pc', Halted(Snapshot(pc', st, mem, c), r.ret);
    }
    if Reverts(c.env.set_, p.i) {
      return pc', Reverted(Snapshot(pc', st, mem, c), r.ret);
    }
    if !Jumps(p.i) {
      pc' := pc' + 1;
    }
    o := Running(Snapshot(pc', st, mem, c));
  }

  /** runLoop without cancellation: it ends on every code, with the outcome of the step machine. */
  method RunLoop(c: Contract, t: QuotaTable) returns (o: Outcome, ghost n: nat)
    requires TableSound(t) && c.Valid()
    requires c.storage == map[] && c.storageModified == {} && c.sends == [] && c.logs == []
    modifies c, c.jumpdests
    ensures !o.Running? && o == Runs(c.env, t, Initial(old(c.quotaLeft)), n)
    ensures LeftBehind(c, o.s)
  {
    ghost var start := c.quotaLeft;
    c.returnData := [];
    var mem := new Memory();
    var st := new Stack();
    var pc := 0;
    n := 0;
    o := Running(Snapshot(pc, st, mem, c));
    while o.Running?
      invariant c.Valid() && fresh(mem) && fresh(st)
      invariant o == Runs(c.env, t, Initial(start), n)
      invariant o.Running? ==> o.s == Snapshot(pc, st, mem, c)
      invariant LeftBehind(c, o.s)
      decreases o.Running?, StepBound(c.env, start) - n
    {
      StillRunning(c.env, t, start, n);
      pc, o := Turn(pc, st, mem, c, t);
      n := n + 1;
    }
  }
}
