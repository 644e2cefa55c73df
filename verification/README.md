# Models of go-vite, with proofs

This project models the parts of go-vite whose correctness is hardest to see
from the code: the contract virtual machine and its accounting, the planning of
ledger synchronisation, the overlay of uncommitted storage, the dispatch loop of
the RPC client, the rotating Bloom filter, the wire codec and the deterministic
random source. Each model follows the source branch by branch, and the theorems
are about every input, every run or every interleaving.

`dafny verify dfyconfig.toml` checks the whole project.

## The models

**The virtual machine.** `Opcodes` is the instruction table, `Metering` the price
functions, `WordOps` and `BigMath` the 256-bit arithmetic, `Destinations` the
analysis of jump destinations. `Machine` gives the meaning of one turn of
`runLoop` as a function `Step` on states and of n turns as `Runs`; it is a
parameterised model, over any sound quota table and any environment (balances,
hashes, block context, the price of sending). `Interpreter` is the same loop as
the source writes it: a stack, a memory, a contract and a jump cache updated in
place, proved to compute exactly what `Step` and `Runs` say. `WordLaws`,
`OpcodeLaws` and `MachineLaws` say what that meaning is without its definitions:
the arithmetic opcodes as relations of operands and result, the numbering of the
instructions as an inverse of decoding, and for every instruction which words it
reads in which order, which bytes it moves, where it goes on and what it costs.
`MachineProofs` proves, of every run:

- the quota is accounted for to the last unit: quota left, plus a potential over
  the written slots, plus what was taken for good is the quota at the start. So
  storage refunds never pay out more than was charged, and none wraps;
- every run ends, within `(quota + 1) * (code length + 34)` turns, because only
  jumps go back and jumps cost quota;
- memory is a whole number of words, and its accumulated fee is the exact
  quadratic price if and only if there are fewer than 2^32 words; a starting
  quota below 2^32 times the price of a word never buys more, and with little
  over that a two-instruction program gets 2^32 words without the quadratic
  part;
- the program counter is always at an instruction start or past the code;
- the stack keeps to its limit and changes by exactly what the table declares;
- an instruction writes only the bytes it names, inside memory.

**Receiving.** `Receive` models `receiveCall` and `receiveCreate` for user
accounts and user contracts, with `doSendBlockList`, `revert` and `doRefund`.
Tokens are conserved on every accepted outcome. Blocks go out exactly if the
account covers their total in every token; otherwise the sender, and no one else,
gets back all that came in, and the branch the source calls an impossible receive
error is never taken. `ContractReceive` puts the interpreter loop into both, so
that this is about actual runs.

**Synchronisation.** `SyncPlan` models `constructTasks` and `compareCache`: tasks
and kept cache segments partition the requested heights, tasks are cut only where
a limit makes it necessary, and every other segment in range is deleted. `Chunk` models the assembly of a downloaded stretch.

**Storage overlay.** `MergedIterator` and `Overlay` model the k-way merge of
sorted stores and the unsaved writes over chain storage; listing them lists the
overlaid map.

**RPC client.** `Dispatch` models the select loop as a state machine over any
interleaving of accepted requests, finished sends, responses, read errors,
reconnections and close: a request gets exactly the responses to its ids that
came while they waited, and in the end everything is settled.

**Self-contained parts.** `Buckets` and `Bloom`, `Codec`, `Rand`.

`Arith`, `BitFields`, `MapSum`, `ByteOrder` and `Wrappers` hold arithmetic, masks
and bit fields, sums over maps, the order of byte strings and the option type.
All lemmas switch automatic induction off: every induction is written out.

## Where the code and its comments disagree

- The comment of `Exp` says the base is left unchanged; the code squares it in
  place once per exponent bit. The base survives if and only if the exponent has
  no words or the base is 0 or 1 (`BigMath.Exp`, `BigMath.BaseSurvives`); 2 to the
  1 leaves 0 (`BigMath.BaseLost`).
- An arithmetic shift right of zero by 256 or more yields minus one in the code.
  `WordOps.ArithmeticShift` states that the shift is arithmetic exactly otherwise.
- `setBits` computes its offset with 32 bits and `getBits` with 64. Setting a
  bucket is an array update if and only if the bucket ends at or below bit 2^32
  (`Buckets.WriteIsUpdate`); beyond, the write goes to the offset modulo 2^32
  (`Buckets.WriteLands`, `Buckets.WriteSpares`) and changes other buckets. In a
  filter of more than 2^32 bits a recent insertion is found if and only if its
  probes are below 2^32 (`Bloom.Filter.Run`, `Bloom.LostInsertion`).
- `storeMeta` has two bits for the length size, and `WriteMsg` does not check the
  payload: `Codec.RoundTrip` holds exactly up to 2^24 - 1 stored bytes.
- The error for a too large payload in `ReadMsg` cannot occur
  (`Codec.NeverTooLarge`), nor can the overflow error of `addSnapshotBlock`
  (`Chunk.Assembly.AddSnapshotBlock` accepts exactly the following block).
- After the last snapshot block is in, `addSnapshotBlock` accepts another block
  that follows the last but one and replaces the last, whose hash stays in the
  hash map (`Chunk.ReplacedHashStays`). The map stays exact if and only if the
  replaced hash is that of the new block or of another (`Chunk.ExactHashes`).
- When the first step of the skeleton is over a limit, `constructTasks` makes it a
  task and opens an empty one behind it, which goes out too if the next step is
  over a limit or missing (`SyncPlan.ConstructTasks`).

## Model

| member | source | states |
|---|---|---|
| `BigMath.Exp` | common/helper/math_big.go:46-59 | the result is base^exponent mod 2^256 for every machine word width and every exponent; the base is left squared once per exponent bit, so it is unchanged if and only if the exponent has no words or the base is 0 or 1 |
| `BigMath.BaseSurvives` | common/helper/math_big.go:43-59 | squaring a 256-bit number n times gives it back if and only if n is 0 or the number is 0 or 1 |
| `BigMath.BaseLost` | common/helper/math_big.go:43-59 | 2 to the 1 with 64-bit words leaves the base 0 |
| `BigMath.ExpWord` | common/helper/math_big.go:49-56 | the inner loop over one word consumes exactly that word of the exponent |
| `BigMath.ReadBits` | common/helper/math_big.go:13-22 | byte p from the end of the buffer is byte p of the number; bytes above the number's words stay as they were |
| `BigMath.PutWord` | vm/memory.go:78-88 | zeroing 32 bytes and reading the bits in gives the big-endian encoding of a word |
| `BigMath.S256` | common/helper/math_big.go:36-41 | the signed reading lies in [-2^255, 2^255) and differs from the word by 0 or 2^256, which leaves one value |
| `BigMath.SignedRoundTrip` | common/helper/math_big.go:25-41 | reducing modulo 2^256 and reading as signed are inverse on both ranges |
| `WordOps.SignedDivision` | vm/instructions.go:55-104 | dividend = quotient * divisor + remainder exactly when it is not -2^255 / -1; the remainder is smaller than the divisor and has the dividend's sign |
| `WordOps.SDivValue` | vm/instructions.go:55-72 | signed division truncates toward zero, with the one overflow case |
| `WordOps.SModValue` | vm/instructions.go:87-104 | signed remainder: magnitude and sign |
| `WordOps.SignedComparison` | vm/instructions.go:184-229 | the sign tests of SLT and SGT compare the signed readings |
| `WordOps.ArithmeticShift` | vm/instructions.go:320-333 | SAR is floor division of the signed reading by 2^shift if and only if not (shift >= 256 and value 0) |
| `WordOps.SignExtendValue` | vm/instructions.go:143-159 | the result is the only number congruent to the low bytes that fits their signed range |
| `WordOps.BitwiseBit` | vm/instructions.go:253-275 | bit i of AND, OR, XOR is the operation on the operands' bits i |
| `WordLaws.BinaryLaw` | vm/instructions.go:19-333 | every two-operand opcode by a relation of first operand, second operand and result: sums, differences, products and powers congruent modulo 2^256, quotients by bounds with zero for a zero divisor, comparisons, bits, bytes and shifts |
| `WordLaws.UnaryLaw` | vm/instructions.go:243-281 | NOT adds up with its operand to 2^256 - 1; ISZERO tells zero |
| `WordLaws.TernaryLaw` | vm/instructions.go:107-133 | ADDMOD and MULMOD: below the modulus and congruent to the unbounded sum or product, zero for a zero modulus |
| `WordLaws.DigitOf` | vm/instructions.go:681-701 | the number of big-endian bytes has each byte as its digit |
| `WordLaws.BigEndianDigit` | vm/memory.go:78-88 | byte k of an encoded number is its digit k from the top |
| `OpcodeLaws.DecodeOpcode` | vm/opcodes.go:22-201 | a byte is invalid or the number of the available instruction it decodes to |
| `OpcodeLaws.OpcodeDecode` | vm/opcodes.go:22-201 | each instruction is reached by its number in exactly the tables that have it: RANDOM and CALL2 come with upgrades |
| `OpcodeLaws.DeclaredByTable` | vm/jump_table.go:84-1003 | the words each table entry takes and leaves, by byte |
| `OpcodeLaws.FlowByTable` | vm/jump_table.go:84-1003 | which bytes halt, which revert and which jump, on and off chain |
| `Metering.SafeMul` | common/helper/math_integer.go:4-9 | the product when it fits 64 bits, and the overflow flag exactly when it does not |
| `Metering.SafeAdd` | common/helper/math_integer.go:12-14 | the sum when it fits 64 bits, and the overflow flag exactly when it does not |
| `Metering.ToWordSize` | common/helper/common.go:42-48 | the number of words is the ceiling of size / 32, also next to 2^64 |
| `Metering.SstoreAmortised` | vm/gas_table.go:347-394 | the price of a write, refunds negative, is exactly the growth of the slot's potential plus what the attempt costs for good: the no-op price for writing the present value, nothing for a first change, and for any other the memory price, with the no-op price on top when it restores the saved value; a refund never exceeds the potential there is |
| `Machine.ShippedTablesSound` | vm/util/quota.go:249-541 | every quota table the upgrades can pick satisfies what the machine needs of one: SSTORE prices, jump prices and memory prices |
| `Metering.WrappedFeeExact` | vm/gas_table.go:17-48 | the 64-bit fee equals the exact quadratic fee if and only if there are fewer than 2^32 words |
| `Metering.ExactFeeMonotone` | vm/gas_table.go:35-44 | the exact fee grows with the number of words, so differences of fees are fees |
| `Destinations.CodeBitmap` | vm/destination.go:45-69 | for every code the bitmap is in bounds and marks exactly the immediates of left-to-right decoding |
| `Destinations.Set` | vm/destination.go:13-15 | sets one bit and no other |
| `Destinations.Set8` | vm/destination.go:17-20 | sets eight consecutive bits across a byte border and no other |
| `Destinations.StartXorImmediate` | vm/destination.go:23-26 | every position of a code is either an instruction start or an immediate, never both |
| `Destinations.NextStart` | vm/instructions.go:681-701 | the position after an instruction start is an instruction start |
| `Destinations.NoStartInside` | vm/destination.go:45-69 | nothing inside an instruction is a start |
| `Destinations.Cache.Has` | vm/destination.go:28-42 | with or without a cached bitmap, exactly the JUMPDEST bytes that are instruction starts are accepted |
| `MachineProofs.DecodedLength` | vm/opcodes.go:9-16 | the instruction table and the jump analysis agree on the length of every instruction |
| `MachineProofs.ExecuteFrame` | vm/jump_table.go:303-1003 | every execute function changes the stack by exactly push minus pop of its table entry, keeps the memory length, and touches storage only in SSTORE |
| `MachineProofs.ExecuteKeepsDeepStack` | vm/stack_table.go:5-24 | words below the declared pops keep their value and place |
| `MachineProofs.ExecuteTouches` | vm/memory_table.go:10-75 | every instruction with a memory-size entry writes only the bytes it names, all inside memory, for all 256-bit offsets and lengths |
| `MachineProofs.LoadAfterStore` | vm/instructions.go:589-605 | MLOAD at the offset of an MSTORE gives the stored word back |
| `MachineProofs.OffsetsFit` | vm/interpreter.go:69-79 | a size that passes the charge is below 2^40, so the 64-bit offsets used afterwards are exact |
| `MachineProofs.PotentialWrite` | vm/instructions.go:622-629 | a storage write changes the total potential by the change of its slot |
| `MachineProofs.SstoreKeepsWorth` | vm/gas_table.go:347-394 | an SSTORE lowers quota plus potential by exactly what its attempt costs, off chain by its whole price, and its refund does not wrap |
| `MachineProofs.OthersSpend` | vm/interpreter.go:80-87 | any other instruction lowers quota plus potential by exactly its price; jumps have a positive price |
| `MachineProofs.StepWorth` | vm/interpreter.go:55-132 | every turn lowers quota plus potential by exactly what it takes for good, and a jump takes something |
| `MachineProofs.StepPc` | vm/interpreter.go:108-131 | from an instruction start or past the code, a turn ends at one; only jumps go back |
| `MachineProofs.StepStack` | vm/interpreter.go:62-68 | the stack never underflows, never exceeds 1024 and changes by push minus pop |
| `MachineProofs.StepMemory` | vm/interpreter.go:69-93 | memory stays a multiple of 32 and the number of modified slots within its limit |
| `MachineProofs.StepInv` | vm/interpreter.go:55-132 | every turn keeps the whole invariant and lowers the termination measure |
| `MachineProofs.RunInvariant` | vm/interpreter.go:44-132 | in every reachable state the invariant holds and quota is at most what the run began with |
| `MachineProofs.RunLedger` | vm/interpreter.go:44-132 | in every reachable state quota left, plus potential, plus all that was taken for good is the quota at the start |
| `MachineProofs.RunTerminates` | vm/interpreter.go:55-132 | after (quota + 1) * (code length + 34) turns no run is still going |
| `MachineProofs.StillRunning` | vm/interpreter.go:55-132 | a run still going is within the bound, and its next state is one more turn |
| `MachineProofs.GasHasMemoryFee` | vm/gas_table.go:198-490 | every price contains the memory fee of the instruction's size |
| `MachineProofs.PaidFeeExact` | vm/gas_table.go:17-48 | a memory fee that is paid from quota below the bound is the exact difference of quadratic prices |
| `MachineProofs.RunRecords` | vm/gas_table.go:17-48 | for every starting quota, in every reachable state the recorded fee is the 64-bit total for the present memory |
| `MachineProofs.QuotaKeepsFees` | vm/gas_table.go:17-48 | below 2^32 times the word price the fees paid, the quota left and the potential together stay within the starting quota |
| `MachineProofs.RunFeesExact` | vm/gas_table.go:17-48 | for every starting quota, in every reachable state the recorded fee is the exact price of memory if and only if memory has fewer than 2^32 words; a starting quota below 2^32 times the word price never buys that many |
| `MachineProofs.FeesInexactBeyond` | vm/gas_table.go:17-48 | PUSH5 MLOAD reaches 2^32 words and an inexact fee with a starting quota of 2^32 times the word price and the price of the two instructions |
| `MachineLaws.ArithmeticLaw` | vm/instructions.go:19-333 | an arithmetic instruction pops its operands, the first from the top, pushes the word its relation determines and changes nothing else |
| `MachineLaws.JumpiLaw` | vm/instructions.go:649-664 | JUMPI reads the target, then the condition; on zero it goes on behind itself, otherwise it succeeds exactly for a JUMPDEST below 2^62 that is an instruction start, and is there |
| `MachineLaws.JumpLaw` | vm/instructions.go:636-647 | JUMP succeeds exactly for such a target |
| `MachineLaws.TurnLaw` | vm/interpreter.go:93-131 | how a turn ends, by the byte fetched: STOP past the code, halting, reverting, jumping or going on to the next instruction; an error ends the run in the charged state |
| `MachineLaws.RefusalLaw` | vm/interpreter.go:60-88 | which check refuses a turn, in order, with which error, and what a turn that is not refused pays; only running out of quota empties it |
| `MachineLaws.RoundingLaw` | vm/interpreter.go:71-78 | a size is refused exactly if its rounding to whole words does not fit 64 bits |
| `MachineLaws.GrowthLaw` | vm/interpreter.go:89-91 | memory grows by zeros to the fewest whole words that cover the named range, and not at all for an empty or covered one |
| `MachineLaws.NeedLaw` | vm/memory_table.go:10-75 | the size each entry asks for is the end of the range it names, none for an empty range |
| `MachineLaws.PushLaw` | vm/instructions.go:681-701 | PUSHn pushes the number with the n bytes behind the opcode as digits, zeros past the code, and moves over them |
| `MachineLaws.DupSwapLaw` | vm/instructions.go:704-719 | which word DUPn copies and which two SWAPn exchanges |
| `MachineLaws.CopyLaw` | vm/instructions.go:411-485 | target, source offset, length in this order; byte by byte what is copied; returned data must be there in full |
| `MachineLaws.StoreLaw` | vm/instructions.go:598-612 | MSTORE writes the 32 digits of the word, MSTORE8 its lowest |
| `MachineLaws.LoadLaw` | vm/instructions.go:398-596 | MLOAD and CALLDATALOAD read 32 digits, call data padded with zeros |
| `MachineLaws.StorageLaw` | vm/instructions.go:614-634 | SSTORE takes slot then value; SLOAD reads the value back and any other slot as before; off chain nothing is written |
| `MachineLaws.LookupLaw` | vm/instructions.go:361-620 | BALANCE and SLOAD replace the key by what is held under it |
| `MachineLaws.CallLaw` | vm/instructions.go:805-840 | CALL and CALL2 take recipient, token, amount, data offset and data length in this order and append one send with them; CALL2 pushes its hash; off chain nothing is sent |
| `MachineLaws.RangeLaw` | vm/instructions.go:337-861 | LOG, RETURN, REVERT and the hashes read offset then length; what they hash, return or log, topics from the top; off chain no log and no revert data |
| `MachineLaws.ContextLaw` | vm/instructions.go:356-582 | what each context instruction pushes, and which of them read zero off chain |
| `MachineLaws.MemoryPriceLaw` | vm/gas_table.go:211-488 | hashes, copies, logs, memory accesses, RETURN and REVERT cost the memory fee plus the table's price for each word, topic or byte, over the integers, and are refused exactly if that does not fit |
| `MachineLaws.ExpPriceLaw` | vm/gas_table.go:198-209 | EXP pays per byte of its exponent, the second word |
| `MachineLaws.SstorePriceLaw` | vm/gas_table.go:347-394 | SSTORE is refused exactly at the 101st modified slot, counts the slot, and is priced by what it held before the run, holds now and is to hold |
| `MachineLaws.CallPriceLaw` | vm/gas_table.go:438-480 | a call pays the memory fee and the price of its send above the allowance; the memory error comes first |
| `MachineLaws.FlatPriceLaw` | vm/gas_table.go:50-196 | all other instructions have their table price, STOP is free |
| `Interpreter.Stack.Push` | vm/stack.go:17-19 | appends one word |
| `Interpreter.Stack.Pop` | vm/stack.go:21-25 | removes and returns the last word |
| `Interpreter.Stack.Dup` | vm/stack.go:48-50 | appends a copy of word n from the top |
| `Interpreter.Stack.Swap` | vm/stack.go:52-54 | exchanges the top with word n |
| `Interpreter.Memory.Resize` | vm/memory.go:22-26 | grows with zeros, never shrinks |
| `Interpreter.Memory.Get` | vm/memory.go:34-48 | a copy of the bytes, none for length zero |
| `Interpreter.Memory.Set` | vm/memory.go:63-75 | the named bytes become the value and no other byte changes |
| `Interpreter.Memory.Set32` | vm/memory.go:78-88 | 32 bytes become the big-endian word |
| `Interpreter.Memory.GasCost` | vm/gas_table.go:17-48 | computes the fee and records the new total |
| `Interpreter.Contract.GasSstore` | vm/gas_table.go:347-394 | computes the price of a write and counts the slot |
| `Interpreter.GasFor` | vm/gas_table.go:50-490 | every gas function in place equals the price function of the machine |
| `Interpreter.GasForCall` | vm/gas_table.go:438-480 | the price of CALL and CALL2, the memory error before the send error |
| `Interpreter.ExecBinary` | vm/instructions.go:19-335 | pops two words and pushes the operation's value, EXP through the in-place loop |
| `Interpreter.ExecValueOp` | vm/instructions.go:19-335 | arithmetic in place is the machine's arithmetic |
| `Interpreter.ExecLookupOp` | vm/instructions.go:337-582 | hashes, context and lookups in place are the machine's |
| `Interpreter.ExecStackOp` | vm/instructions.go:584-719 | POP, MLOAD, PUSH, DUP, SWAP and JUMPDEST in place are the machine's, with PUSH moving the program counter |
| `Interpreter.ExecCopy` | vm/instructions.go:411-485 | the copy instructions, with zero padding past the data and the bounds error of the return data |
| `Interpreter.ExecStoreOp` | vm/instructions.go:598-634 | MSTORE, MSTORE8 and SSTORE in place, storage unchanged off chain |
| `Interpreter.ExecReturnOp` | vm/instructions.go:842-861 | RETURN and REVERT give the named bytes; an off-chain REVERT gives none |
| `Interpreter.ExecJumpOp` | vm/instructions.go:636-664 | a jump lands only on a valid destination, else it fails |
| `Interpreter.ExecLog` | vm/instructions.go:721-785 | pops the topics in order and appends one log entry, none off chain |
| `Interpreter.ExecCallOp` | vm/instructions.go:805-840 | CALL and CALL2 append one send with the words and bytes named |
| `Interpreter.ExecOutputOp` | vm/instructions.go:411-840 | copies, log entries and outgoing calls in place are the machine's; a failing one leaves sends and logs |
| `Interpreter.ExecuteOp` | vm/instructions.go:15-861 | every execute function in place has the machine's meaning, and a failing one leaves storage, sends and logs |
| `Interpreter.Admit` | vm/interpreter.go:55-93 | the checks, the charge and the growth of memory are the machine's, in the same order, with the same errors |
| `Interpreter.Turn` | vm/interpreter.go:55-132 | one turn in place is one step of the machine |
| `Interpreter.RunLoop` | vm/interpreter.go:44-134 | the loop ends for every code and every sound table, and its outcome is that of a run of the machine |
| `Receive.SendOneConserves` | vm/vm.go:449-503 | a sent block takes exactly its amount and its fee out of the account |
| `Receive.SendAllConserves` | vm/vm.go:840-867 | a sent list takes exactly the total of its amounts and fees, per token |
| `Receive.SendOneExactly` | vm/vm.go:449-503 | a block goes out, with its fee set, exactly if no built-in contract turns it away and the account has its amount and fee |
| `Receive.SendAllExactly` | vm/vm.go:840-867 | a list goes out exactly if each block is acceptable and the account holds their total, fees included, in every token |
| `Receive.RefundsGoOut` | vm/vm.go:738-758 | refund blocks the account covers in every token go out unchanged |
| `Receive.RefundPaysBack` | vm/vm.go:663-715 | every refund block goes to the sender of the received block, as a refund of a positive amount without data or fee, and together they carry the amount in its token and the fee in VITE |
| `Receive.RefundTotals` | vm/vm.go:663-715 | refund blocks carry, and the credits give, exactly the received amount and fee, in one token or two |
| `Receive.RefundSucceeds` | vm/vm.go:629-658 | after a revert the refund cannot fail and leaves every balance where it started |
| `Receive.CallConserves` | vm/vm.go:576-661 | on every accepted receiveCall, old balance + received amount (+ refunded fee) = new balance + what the attached blocks carry |
| `Receive.CallOutcome` | vm/vm.go:521-661 | when a call is refused, tried again later, accepted with its sends, or accepted with an error and paid back to the sender |
| `Receive.CreateConserves` | vm/vm.go:373-442 | the same for receiveCreate, where only the amount is refunded |
| `Receive.CreateOutcome` | vm/vm.go:373-442 | when a creation is refused, when the contract comes to be, and which error goes with the refund otherwise |
| `Receive.Db.AddBalance` | vm/util/db_helper.go:26-35 | raises one balance and no other |
| `Receive.Db.SubBalance` | vm/util/db_helper.go:37-49 | lowers one balance if it is large enough, else fails and changes nothing |
| `Receive.Vm.SendBlockOf` | vm/vm.go:449-503 | the three kinds of outgoing block in place, with the same checks |
| `Receive.Vm.DoSendBlockList` | vm/vm.go:840-867 | sends the list in order and fails exactly when some block fails |
| `Receive.Vm.Revert` | vm/vm.go:869-872 | forgets the collected blocks and every unsaved balance |
| `Receive.Vm.DoRefund` | vm/vm.go:663-715 | appends the refund blocks and credits what they take |
| `Receive.Vm.RevertAndRefund` | vm/vm.go:608-658 | always ends with the refund blocks attached, which pay the sender back: the impossible branch is unreachable |
| `Receive.Vm.ReceiveCall` | vm/vm.go:521-661 | the outcome and the balances for every combination of depth, price, quota, run result and failing send; an accepted error pays the sender back |
| `Receive.Vm.ReceiveCreate` | vm/vm.go:373-442 | the outcome and the balances for every collision, price, run result, returned code, quota left, price of code and failing send; unless the contract comes to be the sender gets the amount back |
| `ContractReceive.RunConserves` | vm/vm.go:576-661 | whatever code runs for however many turns, an accepted receive of its outcome conserves every token |
| `ContractReceive.BalanceRead` | vm/instructions.go:361-370 | while a block is received BALANCE reads what the account had plus the received amount in its token |
| `ContractReceive.ArrivalLedger` | vm/vm.go:584-607 | price of receiving, quota taken for good, refundable potential and quota left add up to the quota of the call |
| `ContractReceive.RunOutcome` | vm/vm.go:601-661 | a run that halts and whose sends the account can pay attaches one block for each CALL, in order, with its recipient, amount, token and data; any other is paid back to the sender or tried again, exactly on the errors that say so |
| `ContractReceive.ReceiveAndRun` | vm/vm.go:576-661 | receiveCall with the interpreter loop it calls on the credited balances: the outcome is that of the actual run, tokens are conserved, and an accepted error pays the sender back |
| `ContractReceive.BirthConserves` | vm/vm.go:392-442 | whatever initial code runs for however many turns, an accepted creation conserves every token |
| `ContractReceive.BirthLedger` | vm/vm.go:375-403 | the same account of the quota for a creation |
| `ContractReceive.BornExactly` | vm/vm.go:397-441 | the contract comes to be exactly when the initial code halts with a code of at most 24575 bytes, paid for with its type byte from the quota the run left, and the account can pay its sends, which then are as asked for; otherwise the amount goes back to the sender |
| `ContractReceive.CreateAndRun` | vm/vm.go:373-442 | receiveCreate with the interpreter loop it calls: the outcome is that of the actual run, tokens are conserved, and without a contract the amount goes back to the sender |
| `SyncPlan.ConstructTasks` | net/sync_cache_reader.go:265-323 | the tasks partition the heights from the first to the last point, carry the hashes of the points at their ends and list exactly the points between; each is within 2000 heights and 2 MiB or a single step, and ends only at the last point, after a first step over a limit, or where one more step would go over a limit, the bytes of such a first step counted again; one is empty exactly when there is one point, or the first step is over a limit and the second is too or is missing |
| `SyncPlan.Scan` | net/sync_cache_reader.go:349-366 | the scan finds the skeleton points at a segment's ends exactly when they exist in what is left |
| `SyncPlan.ScanExact` | net/sync_cache_reader.go:348-372 | the scan accepts a segment exactly if it is anchored and begins at or behind the highest end so far, and then stands at the first point at or above the new highest end |
| `SyncPlan.SortedReason` | net/sync_cache_reader.go:331-373 | a deleted segment is not anchored, or an earlier one in range reaches into it |
| `SyncPlan.ChooseSegments` | net/sync_cache_reader.go:331-373 | in-range segments are split, in order, into kept and deleted: one is kept exactly if it is anchored and no earlier one reaches into it; kept ones do not overlap; if segments are apart only unanchored ones are deleted |
| `SyncPlan.MergeContinuous` | net/sync_cache_reader.go:380-393 | joined stretches cover the same heights, none touching the next, each from the start of a kept segment to the end of one |
| `SyncPlan.IndexStretches` | net/sync_cache_reader.go:395-399 | the map gives the end of the stretch that starts at a point |
| `SyncPlan.PlanPoint` | net/sync_cache_reader.go:404-428 | one skeleton point keeps the plan covering everything so far |
| `SyncPlan.PlanGaps` | net/sync_cache_reader.go:401-429 | the tasks are exactly the gaps between the stretches, each within both limits or a single step and cut only where it must be |
| `SyncPlan.CompareCache` | net/sync_cache_reader.go:331-434 | tasks and kept segments together partition the range, all anchored at skeleton hashes; each task lies in a gap between kept segments, within both limits or a single step and cut only where it must be; every listed segment in range is kept or deleted, a deleted one for a reason, and no other is touched |
| `MergedIterator.Merged.Step` | common/db/merged_iterator.go:164-237 | yields the next key not yet passed in the direction of travel, from the first source that holds it, or says that none is left |
| `MergedIterator.Merged.Next` | common/db/merged_iterator.go:83-86 | a step forward |
| `MergedIterator.Merged.Prev` | common/db/merged_iterator.go:80-82 | a step backward |
| `MergedIterator.Merged.Reset` | common/db/merged_iterator.go:48-58 | starts over |
| `MergedIterator.Merged.Last` | common/db/merged_iterator.go:60-79 | stands on the greatest visible key |
| `MergedIterator.Merged.SeekTo` | common/db/merged_iterator.go:88-137 | stands on the least visible key not below the one sought |
| `MergedIterator.ListForward` | common/db/merged_iterator.go:83-237 | draining a fresh iterator lists every undeleted key once, in order, with the first source's value |
| `MergedIterator.ListBackward` | common/db/merged_iterator.go:60-82 | from Last backward, the same in reverse |
| `MergedIterator.ListFrom` | common/db/merged_iterator.go:88-137 | after Seek, the keys from there on |
| `Overlay.Unsaved.SetValue` | vm_db/unsaved.go:95-107 | the written map gains the value; an empty one marks the key deleted |
| `Overlay.Unsaved.GetValue` | vm_db/unsaved.go:109-119 | a key is known exactly when it was written, with the last value |
| `Overlay.Unsaved.GetStorage` | vm_db/unsaved.go:64-77 | the cached listing is the sorted listing of what was written |
| `Overlay.Unsaved.Reset` | vm_db/unsaved.go:49-62 | nothing is written any more |
| `Overlay.SeenAfterWrite` | vm_db/storage.go:5-21 | a key reads as its last write, else as the chain has it; other keys do not notice a write |
| `Overlay.VmDb.GetValue` | vm_db/storage.go:5-9 | the unsaved value, else the chain's |
| `Overlay.VmDb.GetOriginalValue` | vm_db/storage.go:11-13 | the chain's value whatever was written |
| `Overlay.VmDb.SetValue` | vm_db/storage.go:15-21 | writes over, never into, the chain |
| `Overlay.VmDb.ListStorage` | vm_db/storage_iterator.go:9-21 | walking the storage iterator forward lists exactly the keys with the prefix whose overlaid value is non-empty, ascending, with that value |
| `Overlay.VmDb.NewStorageIterator` | vm_db/storage_iterator.go:9-21 | the iterator merges the unsaved level over the chain level, both under the prefix, skipping deleted keys |
| `Overlay.VmDb.ListStorageBackward` | common/db/merged_iterator.go:60-82 | from Last backward the same keys come in descending order |
| `Overlay.VmDb.ListStorageFrom` | common/db/merged_iterator.go:88-137 | after Seek the keys of the overlaid map from the one sought on |
| `Overlay.ListingIsVisible` | vm_db/storage_iterator.go:9-21 | in either direction and from any key on, merging the two levels and skipping deleted keys is listing the overlaid map |
| `Dispatch.GoodAccept` | rpc/client.go:591-597 | a new op with fresh ids keeps the tables good |
| `Dispatch.GoodDeliver` | rpc/client.go:653-664 | an awaited response finds its channel open with room for it, and the tables stay good |
| `Dispatch.GoodSubAnswer` | rpc/client.go:665-677 | the answer to a subscription finds its channel open and closes it once |
| `Dispatch.GoodSendFailed` | rpc/client.go:599-610 | forgetting the ids of a failed send keeps the tables good |
| `Dispatch.GoodCloseAll` | rpc/client.go:616-633 | giving up on everything leaves every accepted op settled |
| `Dispatch.NextGood` | rpc/client.go:545-611 | every event keeps the invariant: lastOp is set while a send is out, no channel is closed twice or sent to after, deliveries never exceed the ids; close and a read error leave every accepted op settled |
| `Dispatch.RespondLaw` | rpc/client.go:653-677 | a response to a waiting id is delivered to its op, or closes a subscription, with an error unless it carries an id; the id waits no longer and nothing else changes; any other message changes nothing |
| `Dispatch.BatchServes` | rpc/client.go:549-571 | a batch delivers to each op exactly the answers to its waiting ids, whatever their order, and ends exactly those waits |
| `Dispatch.GiveUpLaw` | rpc/client.go:572-633 | close and a read error close exactly the ops that still wait, each with its error |
| `Dispatch.SenderLaw` | rpc/client.go:579-611 | a request waits for all its ids and takes the send lock; its report frees the lock, and only a failed one ends the wait of its ids; a new connection is read from |
| `Dispatch.RunSettles` | rpc/client.go:519-613 | over every interleaving the loop quits exactly on close, and then every accepted op is fully answered, closed with an error, or had its send fail |
| `Dispatch.RunDelivers` | rpc/client.go:519-613 | over every interleaving a request has been delivered exactly the ids of its own that were answered while they waited |
| `Dispatch.Client.Accept` | rpc/client.go:591-597 | registers all ids and takes the send lock |
| `Dispatch.Client.Done` | rpc/client.go:599-610 | frees the send lock; on an error the ids of lastOp are forgotten |
| `Dispatch.Client.HandleResponse` | rpc/client.go:653-677 | forwards an awaited response or ends the wait of a subscription; drops an unsolicited one |
| `Dispatch.Client.CloseRequestOps` | rpc/client.go:616-633 | in whatever order the table is walked, closes each waiting op once |
| `Dispatch.Client.Handle` | rpc/client.go:545-611 | one turn of the select is one transition |
| `Dispatch.Client.Run` | rpc/client.go:519-613 | the loop in place is the run of the state machine: settled when it quits, and every request with exactly the answers that came while it waited |
| `Buckets.GetAfterPut` | common/bloom/bucket.go:96-120 | a written field of 1 to 8 bits reads back, also across a byte border |
| `Buckets.GetBesidePut` | common/bloom/bucket.go:96-120 | a write leaves every field that does not overlap it |
| `Buckets.FieldLayout` | common/bloom/bucket.go:96-105 | bit j of a field is bit offset + j of the bytes, counted from the lowest bit of each |
| `Buckets.WriteIsUpdate` | common/bloom/bucket.go:70-83 | setting a bucket is updating one entry of an array with the value cut to the maximum, whatever the bytes and the value, if and only if the bucket ends at or below bit 2^32 |
| `Buckets.WriteIsCut` | common/bloom/bucket.go:70-83 | a bucket across bit 2^32 takes the low bits of the value and keeps its old high bits |
| `Buckets.CutInput` | common/bloom/bucket.go:70-83 | 3-bit bucket 1431655765 over zero bytes: writing 7 reads back 1 |
| `Buckets.WriteIsLost` | common/bloom/bucket.go:70-83 | a bucket from bit 2^32 on reads as before it was set |
| `Buckets.WriteLands` | common/bloom/bucket.go:70-120 | the bits written are those from the offset modulo 2^32 on, continued at bit 0 |
| `Buckets.WriteSpares` | common/bloom/bucket.go:70-120 | every field that does not meet those bits is kept |
| `Buckets.WriteHits` | common/bloom/bucket.go:70-83 | for bucket sizes that divide 2^32 every write updates exactly the bucket with the number modulo 2^32 / size |
| `Buckets.PutUnderMask` | common/bloom/bucket.go:117-119 | clearing a field under its mask and or-ing the bits in replaces exactly the field |
| `Buckets.GetUnderMask` | common/bloom/bucket.go:103-104 | masking and shifting down reads the field |
| `Buckets.Counters.SetBits` | common/bloom/bucket.go:108-120 | the recursion writes the field in place |
| `Buckets.Counters.Set` | common/bloom/bucket.go:70-78 | the new bytes, what they mean for the array of values below and beyond bit 2^32, and the count grown by one |
| `Buckets.Counters.ReadBits` | common/bloom/bucket.go:96-105 | the recursion reads the field across a byte border |
| `Buckets.Counters.Get` | common/bloom/bucket.go:81-83 | reads the entry of the array |
| `Buckets.Counters.Reset` | common/bloom/bucket.go:87-93 | all values zero, count zero |
| `Buckets.Counters.constructor` | common/bloom/bucket.go:33-41 | starts with all values zero |
| `Bloom.FullIsWindow` | common/bloom/bloom.go:105-112 | a generation counts as full exactly after floor(0.8 m / k) + 1 insertions |
| `Bloom.FullRatio` | common/bloom/bucket.go:48-50 | full means a ratio of set operations to bits above 0.8 |
| `Bloom.ProbeSteps` | common/bloom/bloom.go:73 | the probes of an item begin at its lower half and advance by its upper half, modulo the size |
| `Bloom.MemberInside` | common/bloom/bloom.go:68-86 | the probes of an inserted item are all covered when they are below 2^32 |
| `Bloom.UnreachableOutside` | common/bloom/bloom.go:68-118 | an item with a probe from 2^32 on is covered by no generation, whatever was inserted |
| `Bloom.LostInsertion` | common/bloom/bloom.go:105-118 | a filter of 2^32 + 1 bits and two hash functions does not find the item with halves 2^32 - 1 and 1 right after its insertion |
| `Bloom.SmallReachesAll` | common/bloom/bloom.go:39-50 | in a filter of at most 2^32 bits every item can be found |
| `Bloom.RecentIsKept` | common/bloom/bloom.go:105-118 | the last floor(0.8 m / k) + 1 insertions are in one of the two generations |
| `Bloom.Filter.TestHash` | common/bloom/bloom.go:68-86 | an item is found exactly when one generation covers all its probes; a recent one exactly when all its probes are below 2^32 |
| `Bloom.Filter.Rotate` | common/bloom/bloom.go:106-112 | swaps the generations and empties the one to be filled |
| `Bloom.Filter.AddHash` | common/bloom/bloom.go:105-118 | rotates exactly when full, then inserts; the non-zero buckets are exactly the probes, modulo 2^32, of the generation's items |
| `Bloom.Filter.TestAndAdd` | common/bloom/bloom.go:122-132 | inserts exactly when not found |
| `Bloom.Filter.Run` | common/bloom/bloom.go:52-132 | for every filter size and any sequence of calls, whoever asks for a recent insertion is answered yes exactly when its probes are below 2^32 |
| `Codec.MetaRoundTrip` | net/codec.go:75-138 | the meta byte keeps its parts exactly when the length size is below four |
| `Codec.MetaValue` | net/codec.go:131-138 | the three or-ed parts of the meta byte as numbers, the length size running over into the id bits |
| `Codec.IdRoundTrip` | net/codec.go:99-122 | every 32-bit id comes back from its 0, 1, 2 or 4 bytes |
| `Codec.RoundTrip` | net/codec.go:187-314 | a message and what follows it come back if and only if the stored payload is at most 2^24 - 1 bytes |
| `Codec.FrameLayout` | net/codec.go:256-314 | the bytes on the wire: sizes and flag in the meta byte, code, id and length with the highest byte first, stored payload |
| `Codec.DecodeLayout` | net/codec.go:187-253 | for any bytes which message or error comes out, which missing part is reported first, and what is taken off the stream |
| `Codec.StreamRoundTrip` | net/codec.go:187-314 | any sequence of such messages comes back in order, consuming exactly its bytes |
| `Codec.NeverTooLarge` | net/codec.go:213-224 | the payload length error never occurs |
| `Codec.HeadFits` | net/codec.go:256-292 | a head within the payload limit fits the nine-byte buffer |
| `Codec.Varint` | net/codec.go:316-323 | the big-endian value of the bytes |
| `Codec.PutId` | net/codec.go:99-122 | writes the id's bytes and leaves those before |
| `Codec.PutVarint` | net/codec.go:325-338 | writes the shortest big-endian bytes, or runs over the buffer exactly when they do not fit |
| `Codec.Transport.ReadMsg` | net/codec.go:187-253 | reads what decoding says, leaves what it leaves, with the same errors |
| `Codec.Transport.PutHead` | net/codec.go:259-292 | the head in its buffer, or an overrun exactly when it is longer than nine bytes |
| `Codec.Transport.Pack` | net/codec.go:268-286 | the payload is stored compressed exactly when it is long enough and comes out shorter |
| `Codec.Transport.WriteMsg` | net/codec.go:256-314 | appends the encoding, or nothing exactly when the head overflows its buffer |
| `Rand.SeedRandExact` | common/helper/rand.go:32-46 | the step equals 48271 x mod (2^31 - 1), stays in [1, 2^31 - 2], and no intermediate value leaves 32 bits |
| `Rand.SeedRandInverse` | common/helper/rand.go:32-46 | multiplying by 1899818559 undoes the step, so no two states meet |
| `Rand.SeedAtPower` | common/helper/rand.go:61-74 | n steps multiply by 48271^n |
| `Rand.StartSeedInRange` | common/helper/rand.go:53-60 | every seed, also a negative one, starts in range and depends only on its residue |
| `Rand.RegisterBit` | common/helper/rand.go:49-75 | every bit of every seeded word from the seed: states of exponents 21 + 3i to 23 + 3i, shifted by 40, 20 and 0, or-ed exclusively with the table entry |
| `Rand.FirstWords` | common/helper/rand.go:78-92 | the first 273 outputs are sums of slots 333 - n and 606 - n |
| `Rand.Source.Seed` | common/helper/rand.go:49-75 | word i mixes states 21 + 3i to 23 + 3i of the seeding generator with entry i of the table |
| `Rand.HoldsStep` | common/helper/rand.go:78-92 | one call keeps the register holding the last 607 words of the stream |
| `Rand.Source.Next` | common/helper/rand.go:78-92 | returns the next word of the stream with y(n) = y(n-607) + y(n-273) mod 2^64 |
| `Rand.Source.Draw` | common/helper/rand.go:78-92 | for every number of calls the outputs satisfy the recurrence |
| `Chunk.LinkedHeight` | net/interface.go:160-187 | the n-th linked block is n above the start |
| `Chunk.GoodSnapshot` | net/interface.go:160-187 | taking the following snapshot block keeps the chain, the account chains and the hashes |
| `Chunk.GoodAccount` | net/interface.go:189-209 | taking a continuing account block keeps them too |
| `Chunk.RangesStep` | net/interface.go:189-202 | each account's range stays the ends of its contiguous, hash-linked blocks |
| `Chunk.HashesTaken` | net/interface.go:180-184 | the hashes of the snapshot blocks after taking one: the new one comes in, a replaced one goes |
| `Chunk.ExactHashes` | net/interface.go:160-209 | while the hash map is exactly the hashes held, taking a snapshot block keeps it so if and only if the last chunk has no block, or one with the same hash, or one whose hash another block has; an account block always keeps it |
| `Chunk.ReplacedHashStays` | net/interface.go:160-187 | two blocks that follow the start of a stretch of one: the second replaces the first, whose hash stays in the map |
| `Chunk.Assembly.AddSnapshotBlock` | net/interface.go:160-187 | accepts exactly the block with the expected previous hash and height, into the last chunk with the account blocks there, opening the next while there is room; the new tables, and when the hash map stays exact |
| `Chunk.Assembly.AddAccountBlock` | net/interface.go:189-209 | accepts exactly a first block of its account or one that continues the last block of it, at the end of the last chunk; the new tables, with the hash map as exact as before |
| `Chunk.Assembly.Done` | net/interface.go:211-227 | succeeds exactly when the last block is the announced end, and then all end - start blocks are in, linked from start to end, with account chains matching their ranges and the hash map exactly the blocks held and replaced |
| `Chunk.Assembly.constructor` | net/interface.go:144-158 | one open chunk, nothing else |

## Left out

- Sockets, peers, handshakes, signatures, protobuf, leveldb and the chain database: plumbing, or abstract inputs here (sorted listings, maps).
- Snappy: an inverse pair of functions given as a parameter.
- Hashing, block context, the consensus seed, the price of a send block and the hash CALL2 pushes: parameters of the machine.
- The memory that CALL2 reads without a memory-size entry, and the read inside the price of CALL before memory grows: what such a read yields past the end is a parameter.
- RunLoop: the abort flag and the panic it leads to are not modelled, so every modelled run goes on until it halts.
- Get: a read past the end of memory is outside the contract of the memory model, because every instruction with a memory-size entry has grown memory before it reads.
- Sharing of big integers through the integer pool: words are values.
- ReceiveCall: the branch for built-in contracts, with the variants of doRefund it uses, is not modelled.
- ReceiveCreate: storing the returned code under the new contract is not modelled.
- Reads: balances are read modulo 2^256, which the source leaves unbounded.
- Built-in contracts, quota calculation and reward minting.
- sendCreate, receiveReward, receiveRefund, the off-chain reader and delegateCall (which no instruction table contains).
- ContainsStatusCode and ContainsCertainStatusCode: scans over code with no invariant beyond the one of the jump analysis.
- Step: a change of direction is not covered, because the source resets without recording the new direction; each traversal goes one way.
- Next: not after travelling backward, for the same reason.
- Prev: not after travelling forward, for the same reason.
- NewStorageIterator: stored keys are non-empty, and a chain never stores empty values, as its writer ensures; iterator I/O errors are not modelled.
- CompareCache: heights are unbounded integers, and the deletion of files behind a deleted segment is not modelled.
- mergeSegments, the download queue, the block cache of the broadcaster, the connection pool: no clean invariant.
- Handle: on a reconnection, waiting for the old reader's error is not modelled, only the flag that a reader runs.
- Run: in the dispatch loop, ids are fresh by assumption (the counter does not wrap), the batch sender and the delivery of notifications to subscribers are not modelled.
- TestHash: the fill test is read as 5 count > 4 total and not through floating point; the sizing of the filter and the hash are inputs.
- WriteMsg: write errors, short writes and timeouts of the connection are not modelled.
- Seed: the fixed table of 607 words is a parameter.
