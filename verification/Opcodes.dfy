/** vm/opcodes.go and vm/jump_table.go: decoding, and what each table entry declares. */
module Opcodes {
  import opened Arith
  import opened WordOps

  datatype Context =
    | ADDRESS | CALLER | CALLVALUE | CALLDATASIZE | CODESIZE | RETURNDATASIZE
    | TIMESTAMP | HEIGHT | TOKENID | ACCOUNTHEIGHT | PREVHASH | FROMHASH | SEED | RANDOM | PC | MSIZE

  datatype Lookup = BALANCE | CALLDATALOAD | SLOAD

  datatype Digest = SHA3 | BLAKE2B

  datatype Source = CallData | Code | ReturnData

  datatype Instr =
    | Stop
    | Unary(u: Unary)
    | Binary(b: Binary)
    | Ternary(t: Ternary)
    | Hash(d: Digest)
    | PushContext(c: Context)
    | Lookup(l: Lookup)
    | Copy(from: Source)
    | Pop | Mload | Mstore | Mstore8 | Sstore | Jump | Jumpi | Jumpdest
    | Push(n: nat)
    | Dup(n: nat)
    | Swap(n: nat)
    | Log(n: nat)
    | Call | Call2 | Return | Revert
    | Invalid

  /** The six tables: RANDOM and CALL2 arrive with upgrades, and an off-chain reader has no side effects. */
  datatype InstructionSet = InstructionSet(random: bool, call2: bool, offchain: bool)

  function Decode(set_: InstructionSet, op: Byte): Instr {
    if op < 0x10 then DecodeArithmetic(op)
    else if op < 0x20 then DecodeComparison(op)
    else if op < 0x50 then DecodeContext(set_, op)
    else if op < 0x60 then DecodeStorage(op)
    else if op < 0x80 then Push(op - 0x5f)
    else if op < 0x90 then Dup(op - 0x7f)
    else if op < 0xa0 then Swap(op - 0x8f)
    else if op <= 0xa4 then Log(op - 0xa0)
    else if op == 0xf1 then Call
    else if op == 0xf2 && set_.call2 then Call2
    else if op == 0xf3 then Return
    else if op == 0xfd then Revert
    else Invalid
  }

  function DecodeArithmetic(op: Byte): Instr {
    match op
    case 0x00 => Stop
    case 0x01 => Binary(ADD)
    case 0x02 => Binary(MUL)
    case 0x03 => Binary(SUB)
    case 0x04 => Binary(DIV)
    case 0x05 => Binary(SDIV)
    case 0x06 => Binary(MOD)
    case 0x07 => Binary(SMOD)
    case 0x08 => Ternary(ADDMOD)
    case 0x09 => Ternary(MULMOD)
    case 0x0a => Binary(EXP)
    case 0x0b => Binary(SIGNEXTEND)
    case _ => Invalid
  }

  function DecodeComparison(op: Byte): Instr {
    match op
    case 0x10 => Binary(LT)
    case 0x11 => Binary(GT)
    case 0x12 => Binary(SLT)
    case 0x13 => Binary(SGT)
    case 0x14 => Binary(EQ)
    case 0x15 => Unary(ISZERO)
    case 0x16 => Binary(AND)
    case 0x17 => Binary(OR)
    case 0x18 => Binary(XOR)
    case 0x19 => Unary(NOT)
    case 0x1a => Binary(BYTE)
    case 0x1b => Binary(SHL)
    case 0x1c => Binary(SHR)
    case 0x1d => Binary(SAR)
    case _ => Invalid
  }

  function DecodeContext(set_: InstructionSet, op: Byte): Instr {
    match op
    case 0x20 => Hash(SHA3)
    case 0x21 => Hash(BLAKE2B)
    case 0x30 => PushContext(ADDRESS)
    case 0x31 => Lookup(BALANCE)
    case 0x33 => PushContext(CALLER)
    case 0x34 => PushContext(CALLVALUE)
    case 0x35 => Lookup(CALLDATALOAD)
    case 0x36 => PushContext(CALLDATASIZE)
    case 0x37 => Copy(CallData)
    case 0x38 => PushContext(CODESIZE)
    case 0x39 => Copy(Code)
    case 0x3d => PushContext(RETURNDATASIZE)
    case 0x3e => Copy(ReturnData)
    case 0x42 => PushContext(TIMESTAMP)
    case 0x43 => PushContext(HEIGHT)
    case 0x46 => PushContext(TOKENID)
    case 0x47 => PushContext(ACCOUNTHEIGHT)
    case 0x48 => PushContext(PREVHASH)
    case 0x49 => PushContext(FROMHASH)
    case 0x4a => PushContext(SEED)
    case 0x4b => if set_.random then PushContext(RANDOM) else Invalid
    case _ => Invalid
  }

  function DecodeStorage(op: Byte): Instr {
    match op
    case 0x50 => Pop
    case 0x51 => Mload
    case 0x52 => Mstore
    case 0x53 => Mstore8
    case 0x54 => Lookup(SLOAD)
    case 0x55 => Sstore
    case 0x56 => Jump
    case 0x57 => Jumpi
    case 0x58 => PushContext(PC)
    case 0x59 => PushContext(MSIZE)
    case 0x5b => Jumpdest
    case _ => Invalid
  }

  /** Words the entry's stack check declares as taken. */
  function Pops(i: Instr): nat {
    match i
    case Stop => 0
    case Unary(_) => 1
    case Binary(_) => 2
    case Ternary(_) => 3
    case Hash(_) => 2
    case PushContext(_) => 0
    case Lookup(_) => 1
    case Copy(_) => 3
    case Pop => 1
    case Mload => 1
    case Mstore => 2
    case Mstore8 => 2
    case Sstore => 2
    case Jump => 1
    case Jumpi => 2
    case Jumpdest => 0
    case Push(_) => 0
    case Dup(n) => n
    case Swap(n) => n + 1
    case Log(n) => n + 2
    case Call => 5
    case Call2 => 5
    case Return => 2
    case Revert => 2
    case Invalid => 0
  }

  /** Words the entry's stack check declares as left in their place. */
  function Pushes(i: Instr): nat {
    match i
    case Unary(_) => 1
    case Binary(_) => 1
    case Ternary(_) => 1
    case Hash(_) => 1
    case PushContext(_) => 1
    case Lookup(_) => 1
    case Mload => 1
    case Push(_) => 1
    case Dup(n) => n + 1
    case Swap(n) => n + 1
    case Call2 => 1
    case _ => 0
  }

  predicate Jumps(i: Instr) { i.Jump? || i.Jumpi? }

  predicate Halts(set_: InstructionSet, i: Instr) { i.Stop? || i.Return? || (i.Revert? && set_.offchain) }

  predicate Reverts(set_: InstructionSet, i: Instr) { i.Revert? && !set_.offchain }
}
