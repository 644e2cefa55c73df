/** The numbering of vm/opcodes.go, read from instruction to byte. */
module OpcodeLaws {
  import opened Arith
  import opened WordOps
  import opened Opcodes

  function OpcodeOfContext(c: Context): Byte {
    match c
    case ADDRESS => 0x30
    case CALLER => 0x33
    case CALLVALUE => 0x34
    case CALLDATASIZE => 0x36
    case CODESIZE => 0x38
    case RETURNDATASIZE => 0x3d
    case TIMESTAMP => 0x42
    case HEIGHT => 0x43
    case TOKENID => 0x46
    case ACCOUNTHEIGHT => 0x47
    case PREVHASH => 0x48
    case FROMHASH => 0x49
    case SEED => 0x4a
    case RANDOM => 0x4b
    case PC => 0x58
    case MSIZE => 0x59
  }

  function OpcodeOfBinary(b: Binary): Byte {
    match b
    case ADD => 0x01
    case MUL => 0x02
    case SUB => 0x03
    case DIV => 0x04
    case SDIV => 0x05
    case MOD => 0x06
    case SMOD => 0x07
    case EXP => 0x0a
    case SIGNEXTEND => 0x0b
    case LT => 0x10
    case GT => 0x11
    case SLT => 0x12
    case SGT => 0x13
    case EQ => 0x14
    case AND => 0x16
    case OR => 0x17
    case XOR => 0x18
    case BYTE => 0x1a
    case SHL => 0x1b
    case SHR => 0x1c
    case SAR => 0x1d
  }

  /** The byte that names an instruction. */
  function Opcode(i: Instr): Byte
    requires Numbered(i)
  {
    match i
    case Stop => 0x00
    case Unary(u) => if u == ISZERO then 0x15 else 0x19
    case Binary(b) => OpcodeOfBinary(b)
    case Ternary(t) => if t == ADDMOD then 0x08 else 0x09
    case Hash(d) => if d == SHA3 then 0x20 else 0x21
    case PushContext(c) => OpcodeOfContext(c)
    case Lookup(l) => if l == BALANCE then 0x31 else if l == CALLDATALOAD then 0x35 else 0x54
    case Copy(from) => if from == CallData then 0x37 else if from == Code then 0x39 else 0x3e
    case Pop => 0x50
    case Mload => 0x51
    case Mstore => 0x52
    case Mstore8 => 0x53
    case Sstore => 0x55
    case Jump => 0x56
    case Jumpi => 0x57
    case Jumpdest => 0x5b
    case Push(n) => 0x60 + n - 1
    case Dup(n) => 0x80 + n - 1
    case Swap(n) => 0x90 + n - 1
    case Log(n) => 0xa0 + n
    case Call => 0xf1
    case Call2 => 0xf2
    case Return => 0xf3
    case Revert => 0xfd
  }

  predicate Numbered(i: Instr) {
    match i
    case Push(n) => 1 <= n <= 32
    case Dup(n) => 1 <= n <= 16
    case Swap(n) => 1 <= n <= 16
    case Log(n) => n <= 4
    case Invalid => false
    case _ => true
  }

  /** Which instructions a table holds. */
  predicate Available(set_: InstructionSet, i: Instr) {
    Numbered(i) && (i == PushContext(RANDOM) ==> set_.random) && (i.Call2? ==> set_.call2)
  }

  lemma {:induction false} ArithmeticOpcode(op: Byte)
    ensures var i := DecodeArithmetic(op);
            !i.Invalid? ==> Numbered(i) && !i.PushContext? && !i.Call2? && Opcode(i) == op
    ensures var i := DecodeComparison(op);
            !i.Invalid? ==> Numbered(i) && !i.PushContext? && !i.Call2? && Opcode(i) == op
  {
  }

  lemma {:induction false} ContextOpcode(set_: InstructionSet, op: Byte)
    ensures var i := DecodeContext(set_, op); !i.Invalid? ==> Available(set_, i) && Opcode(i) == op
    ensures var i := DecodeStorage(op); !i.Invalid? ==> Available(set_, i) && Opcode(i) == op
  {
  }

  /** Decoding and numbering are inverse: a byte either is invalid or is the number of the available instruction
      it decodes to, and every available instruction is reached by its own number. */
  lemma {:induction false} DecodeOpcode(set_: InstructionSet, op: Byte)
    ensures var i := Decode(set_, op); !i.Invalid? ==> Available(set_, i) && Opcode(i) == op
  {
    hide DecodeArithmetic, DecodeComparison, DecodeContext, DecodeStorage;
    ArithmeticOpcode(op);
    ContextOpcode(set_, op);
  }

  lemma {:induction false} OpcodeDecode(set_: InstructionSet, i: Instr)
    requires Numbered(i)
    ensures Decode(set_, Opcode(i)) == if Available(set_, i) then i else Invalid
  {
    hide DecodeArithmetic, DecodeComparison, DecodeContext, DecodeStorage, OpcodeOfBinary, OpcodeOfContext;
    if i.Binary? {
      BinaryDecode(set_, i.b);
    } else if i.PushContext? {
      ContextDecode(set_, i.c);
    } else {
      OtherDecode(set_, i);
    }
  }

  lemma {:induction false} BinaryDecode(set_: InstructionSet, b: Binary)
    ensures Decode(set_, OpcodeOfBinary(b)) == Binary(b)
  {
  }

  lemma {:induction false} ContextDecode(set_: InstructionSet, c: Context)
    ensures Decode(set_, OpcodeOfContext(c)) == if c.RANDOM? && !set_.random then Invalid else PushContext(c)
  {
  }

  lemma {:induction false} OtherDecode(set_: InstructionSet, i: Instr)
    requires Numbered(i) && !i.Binary? && !i.PushContext?
    ensures Decode(set_, Opcode(i)) == if i.Call2? && !set_.call2 then Invalid else i
  {
  }

  /** The words a byte's table entry takes and leaves. */
  function Declared(op: Byte): (nat, nat) {
    if op == 0x00 || op == 0x5b then (0, 0)
    else if op == 0x08 || op == 0x09 then (3, 1)
    else if op in {0x15, 0x19, 0x31, 0x35, 0x51, 0x54} then (1, 1)
    else if op < 0x30 then (2, 1)
    else if op in {0x37, 0x39, 0x3e} then (3, 0)
    else if op in {0x52, 0x53, 0x55, 0x57, 0xf3, 0xfd} then (2, 0)
    else if op == 0x50 || op == 0x56 then (1, 0)
    else if op < 0x80 then (0, 1)
    else if op < 0x90 then (op - 0x7f, op - 0x7e)
    else if op < 0xa0 then (op - 0x8e, op - 0x8e)
    else if op < 0xf0 then (op - 0x9e, 0)
    else (5, if op == 0xf2 then 1 else 0)
  }

  /** The stack checks of the jump table, entry by entry. */
  lemma {:induction false} DeclaredByTable(set_: InstructionSet, op: Byte)
    ensures var i := Decode(set_, op); !i.Invalid? ==> (Pops(i), Pushes(i)) == Declared(op)
  {
  }

  /** Which bytes end a run, which undo it, and which set the program counter themselves. */
  lemma {:induction false} FlowByTable(set_: InstructionSet, op: Byte)
    ensures var i := Decode(set_, op);
            && (Halts(set_, i) <==> op == 0x00 || op == 0xf3 || (op == 0xfd && set_.offchain))
            && (Reverts(set_, i) <==> op == 0xfd && !set_.offchain)
            && (Jumps(i) <==> op == 0x56 || op == 0x57)
  {
  }
}
