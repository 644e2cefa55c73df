/** vm/vm.go: receiving a call or a creation, sending what the contract asked for, or reverting and refunding. */
module Receive {
  import opened Arith
  import opened Wrappers

  type Token = nat
  type Address = nat

  /** The ten letters of the VITE token's id as a number. */
  const VITE: Token := 0x5649544520544f4b454e

  /** The longest code a contract may have. */
  const MAX_CODE_SIZE: nat := 24575

  datatype BlockType = SendCall | SendReward | SendRefund

  datatype SendBlock = SendBlock(to: Address, kind: BlockType, amount: nat, token: Token, data: seq<int>, fee: nat)

  /** What vm/contracts answers for a recipient and data: no built-in method, or its fee and whether it accepts. */
  datatype Builtin = NotBuiltin | Builtin(fee: Option<nat>, accepts: bool)

  datatype Env = Env(builtin: SendBlock -> Builtin, mayReward: bool)

  /** The block being received. */
  datatype Incoming = Incoming(sender: Address, token: Token, amount: nat, fee: nat)

  datatype Failure = OutOfQuota | NoReliableStatus | DepthReached | CodeTooLong | OtherFailure

  /** How the interpreter left: the blocks asked for, in order, and the error if any. */
  datatype Run = Run(requests: seq<SendBlock>, error: Option<Failure>)

  datatype Received =
    | Rejected                                              // no block, do not retry
    | RetryLater                                            // no block, run again later
    | Accepted(error: Option<Failure>, sends: seq<SendBlock>)  // the receive block and its sends

  function MakeRequestBlock(to: Address, kind: BlockType, amount: nat, token: Token): SendBlock {
    SendBlock(to, kind, amount, token, [], 0)
  }

  // ----- balances as values -----

  function Balance(b: map<Token, nat>, t: Token): nat {
    if t in b then b[t] else 0
  }

  /** canTransfer: enough for the amount in its token and the fee in VITE. */
  predicate CanTransfer(b: map<Token, nat>, token: Token, amount: nat, fee: nat) {
    if fee == 0 then amount <= Balance(b, token)
    else if token == VITE then amount + fee <= Balance(b, token)
    else amount <= Balance(b, token) && fee <= Balance(b, VITE)
  }

  function Credit(b: map<Token, nat>, token: Token, amount: nat): map<Token, nat> {
    b[token := Balance(b, token) + amount]
  }

  function Debit(b: map<Token, nat>, token: Token, amount: nat): Option<map<Token, nat>> {
    if Balance(b, token) >= amount then Some(b[token := Balance(b, token) - amount]) else None
  }

  /** One outgoing block: its fee is set and both amounts leave the account. */
  function SendOne(env: Env, b: map<Token, nat>, block: SendBlock): Option<(map<Token, nat>, SendBlock)> {
    match block.kind
    case SendReward => if env.mayReward then Some((b, block)) else None
    case SendRefund => SendPlain(b, block)
    case SendCall =>
      match env.builtin(block)
      case NotBuiltin => SendPlain(b, block)
      case Builtin(fee, accepts) =>
        if fee.None? || !CanTransfer(b, block.token, block.amount, fee.value) || !accepts then None
        else match Debit(b, block.token, block.amount)
          case None => None
          case Some(b') => match Debit(b', VITE, fee.value)
            case None => None
            case Some(b'') => Some((b'', block.(fee := fee.value)))
  }

  function SendPlain(b: map<Token, nat>, block: SendBlock): Option<(map<Token, nat>, SendBlock)> {
    if !CanTransfer(b, block.token, block.amount, 0) then None
    else match Debit(b, block.token, block.amount)
      case None => None
      case Some(b') => Some((b', block.(fee := 0)))
  }

  /** The whole list in order; one failure fails the list. */
  function SendAll(env: Env, b: map<Token, nat>, blocks: seq<SendBlock>): Option<(map<Token, nat>, seq<SendBlock>)> {
    if |blocks| == 0 then Some((b, []))
    else match SendAll(env, b, blocks[..|blocks| - 1])
      case None => None
      case Some((b', sent)) =>
        match SendOne(env, b', blocks[|blocks| - 1])
        case None => None
        case Some((b'', block)) => Some((b'', sent + [block]))
  }

  // ----- what leaves -----

  function Leaves(block: SendBlock, t: Token): nat {
    (if block.token == t then block.amount else 0) + (if t == VITE then block.fee else 0)
  }

  /** Amounts and fees of the blocks in one token. */
  function Total(blocks: seq<SendBlock>, t: Token): nat {
    if |blocks| == 0 then 0 else Total(blocks[..|blocks| - 1], t) + Leaves(blocks[|blocks| - 1], t)
  }

  predicate NoRewards(blocks: seq<SendBlock>) {
    forall i | 0 <= i < |blocks| :: blocks[i].kind != SendReward
  }

  lemma {:induction false} SendOneConserves(env: Env, b: map<Token, nat>, block: SendBlock, t: Token)
    requires block.kind != SendReward && SendOne(env, b, block).Some?
    ensures var (b', sent) := SendOne(env, b, block).value;
            && Balance(b, t) == Balance(b', t) + Leaves(sent, t)
            && sent == block.(fee := sent.fee)
  {
  }

  /** Sending moves value out of the account and nowhere else. */
  lemma {:induction false} SendAllConserves(env: Env, b: map<Token, nat>, blocks: seq<SendBlock>, t: Token)
    requires NoRewards(blocks) && SendAll(env, b, blocks).Some?
    ensures var (b', sent) := SendAll(env, b, blocks).value;
            && |sent| == |blocks|
            && Balance(b, t) == Balance(b', t) + Total(sent, t)
  {
    if |blocks| > 0 {
      var n := |blocks| - 1;
      SendAllConserves(env, b, blocks[..n], t);
      var (b1, sent1) := SendAll(env, b, blocks[..n]).value;
      SendOneConserves(env, b1, blocks[n], t);
      var (_, sent) := SendAll(env, b, blocks).value;
      assert sent[..n] == sent1;
    }
  }

  /** The fee a block is sent with. */
  function FeeOf(env: Env, block: SendBlock): nat {
    if block.kind != SendCall then 0
    else match env.builtin(block) case NotBuiltin => 0 case Builtin(fee, _) => if fee.Some? then fee.value else 0
  }

  function Priced(env: Env, blocks: seq<SendBlock>): (priced: seq<SendBlock>)
    ensures |priced| == |blocks|
    ensures forall i | 0 <= i < |blocks| :: priced[i] == blocks[i].(fee := FeeOf(env, blocks[i]))
  {
    seq(|blocks|, i requires 0 <= i < |blocks| => blocks[i].(fee := FeeOf(env, blocks[i])))
  }

  /** No built-in contract turns the block away. */
  predicate Acceptable(env: Env, block: SendBlock) {
    block.kind == SendCall ==> match env.builtin(block) case NotBuiltin => true case Builtin(fee, ok) => fee.Some? && ok
  }

  /** One block goes out exactly if it is acceptable and the account has its amount and its fee. */
  lemma {:induction false} SendOneExactly(env: Env, b: map<Token, nat>, block: SendBlock)
    requires block.kind != SendReward
    ensures var priced := block.(fee := FeeOf(env, block));
            && (SendOne(env, b, block).Some? <==>
                  && Acceptable(env, block)
                  && Leaves(priced, block.token) <= Balance(b, block.token)
                  && Leaves(priced, VITE) <= Balance(b, VITE))
            && (SendOne(env, b, block).Some? ==> SendOne(env, b, block).value.1 == priced)
  {
  }

  /** The account holds, in every token, what the blocks take. */
  ghost predicate Covered(b: map<Token, nat>, blocks: seq<SendBlock>) {
    forall t :: Total(blocks, t) <= Balance(b, t)
  }

  lemma {:induction false} CoveredPrefix(b: map<Token, nat>, blocks: seq<SendBlock>)
    requires Covered(b, blocks) && |blocks| > 0
    ensures Covered(b, blocks[..|blocks| - 1])
  {
    hide Balance, Leaves;
    forall t ensures Total(blocks[..|blocks| - 1], t) <= Balance(b, t) {
      assert Total(blocks, t) <= Balance(b, t);
    }
  }

  /** A list goes out, each block with its fee, exactly if all its blocks are acceptable and the account holds in
      every token what they take together: the order does not matter, and nothing is sent on credit. */
  lemma {:induction false} SendAllExactly(env: Env, b: map<Token, nat>, blocks: seq<SendBlock>)
    requires NoRewards(blocks)
    ensures SendAll(env, b, blocks).Some? <==>
              (forall i | 0 <= i < |blocks| :: Acceptable(env, blocks[i])) && Covered(b, Priced(env, blocks))
    ensures SendAll(env, b, blocks).Some? ==> SendAll(env, b, blocks).value.1 == Priced(env, blocks)
  {
    if |blocks| > 0 {
      hide Balance, Total, Covered, SendOne, Acceptable, FeeOf, Leaves, SendAll;
      var n := |blocks| - 1;
      SendAllExactly(env, b, blocks[..n]);
      assert Priced(env, blocks)[..n] == Priced(env, blocks[..n]);
      if SendAll(env, b, blocks[..n]).Some? {
        LastGoesOut(env, b, blocks);
      } else {
        NoneFollows(env, b, blocks);
        if Covered(b, Priced(env, blocks)) { CoveredPrefix(b, Priced(env, blocks)); }
      }
    } else {
      assert Priced(env, blocks) == [];
    }
  }

  lemma {:induction false} NoneFollows(env: Env, b: map<Token, nat>, blocks: seq<SendBlock>)
    requires |blocks| > 0 && SendAll(env, b, blocks[..|blocks| - 1]).None?
    ensures SendAll(env, b, blocks).None?
  {
  }

  /** Once the others are out, the last block follows exactly if it is acceptable and the whole list is covered. */
  lemma {:induction false} LastGoesOut(env: Env, b: map<Token, nat>, blocks: seq<SendBlock>)
    requires NoRewards(blocks) && |blocks| > 0 && SendAll(env, b, blocks[..|blocks| - 1]).Some?
    requires SendAll(env, b, blocks[..|blocks| - 1]).value.1 == Priced(env, blocks)[..|blocks| - 1]
    ensures SendAll(env, b, blocks).Some? <==>
              Acceptable(env, blocks[|blocks| - 1]) && Covered(b, Priced(env, blocks))
    ensures SendAll(env, b, blocks).Some? ==> SendAll(env, b, blocks).value.1 == Priced(env, blocks)
  {
    hide Balance, SendOne, Acceptable, FeeOf, Leaves;
    var n, priced := |blocks| - 1, Priced(env, blocks);
    var (b1, sent1) := SendAll(env, b, blocks[..n]).value;
    SendOneExactly(env, b1, blocks[n]);
    forall t ensures Total(priced, t) <= Balance(b, t) <==> Leaves(priced[n], t) <= Balance(b1, t) {
      SendAllConserves(env, b, blocks[..n], t);
    }
    if Covered(b, priced) {
      assert Total(priced, blocks[n].token) <= Balance(b, blocks[n].token) && Total(priced, VITE) <= Balance(b, VITE);
    }
    if SendOne(env, b1, blocks[n]).Some? {
      forall t ensures Total(priced, t) <= Balance(b, t) { LeavesElsewhere(priced[n], t); }
      assert sent1 + [priced[n]] == priced;
    }
  }

  lemma {:induction false} LeavesElsewhere(block: SendBlock, t: Token)
    ensures t != block.token && t != VITE ==> Leaves(block, t) == 0
  {
  }

  // ----- refunds -----

  /** The refund blocks doRefund appends: one for both amounts if they share a token, else one for each. */
  function RefundBlocks(incoming: Incoming): seq<SendBlock> {
    if incoming.amount > 0 && incoming.fee > 0 && incoming.token == VITE then
      [MakeRequestBlock(incoming.sender, SendRefund, incoming.amount + incoming.fee, VITE)]
    else
      (if incoming.amount > 0 then [MakeRequestBlock(incoming.sender, SendRefund, incoming.amount, incoming.token)]
       else []) +
      (if incoming.fee > 0 then [MakeRequestBlock(incoming.sender, SendRefund, incoming.fee, VITE)] else [])
  }

  /** What the refund gives back in one token. */
  function Refunded(incoming: Incoming, t: Token): nat {
    (if incoming.token == t then incoming.amount else 0) + (if t == VITE then incoming.fee else 0)
  }

  function RefundCredits(b: map<Token, nat>, incoming: Incoming): map<Token, nat> {
    var b1 := if incoming.amount > 0 then Credit(b, incoming.token, incoming.amount) else b;
    if incoming.fee > 0 then Credit(b1, VITE, incoming.fee) else b1
  }

  lemma {:induction false} RefundTotals(incoming: Incoming, t: Token)
    ensures Total(RefundBlocks(incoming), t) == Refunded(incoming, t)
    ensures forall b :: Balance(RefundCredits(b, incoming), t) == Balance(b, t) + Refunded(incoming, t)
  {
    var blocks := RefundBlocks(incoming);
    if |blocks| == 2 {
      assert blocks[..1][..0] == [] && blocks[..1] == [blocks[0]];
    } else if |blocks| == 1 {
      assert blocks[..0] == [];
    }
  }

  /** The sender, and no one else, is sent back all that came in: the amount in its token and the fee in VITE, in
      refund blocks of positive amounts without data or fee. */
  ghost predicate PaidBack(sends: seq<SendBlock>, incoming: Incoming) {
    && (forall t ::
          Total(sends, t) ==
          (if t == incoming.token then incoming.amount else 0) + (if t == VITE then incoming.fee else 0))
    && forall i | 0 <= i < |sends| ::
         && sends[i].to == incoming.sender && sends[i].kind == SendRefund
         && sends[i].amount > 0 && sends[i].data == [] && sends[i].fee == 0
         && (sends[i].token == incoming.token || sends[i].token == VITE)
  }

  lemma {:induction false} RefundPaysBack(incoming: Incoming)
    ensures PaidBack(RefundBlocks(incoming), incoming)
  {
    hide Total, Balance, RefundCredits;
    forall t ensures Total(RefundBlocks(incoming), t) == Refunded(incoming, t) { RefundTotals(incoming, t); }
  }

  /** Refunds the account can cover in every token always go out as they are. */
  lemma {:induction false} RefundsGoOut(env: Env, b: map<Token, nat>, incoming: Incoming)
    requires Covered(b, RefundBlocks(incoming))
    ensures var r := SendAll(env, b, RefundBlocks(incoming));
            r.Some? && r.value.1 == RefundBlocks(incoming)
  {
    hide SendAll, Total, Covered;
    RefundPaysBack(incoming);
    SendAllExactly(env, b, RefundBlocks(incoming));
    assert Priced(env, RefundBlocks(incoming)) == RefundBlocks(incoming);
  }

  /** After a revert the refund itself cannot fail, and leaves every balance where it started. */
  lemma {:induction false} RefundSucceeds(env: Env, b: map<Token, nat>, incoming: Incoming)
    ensures var r := SendAll(env, RefundCredits(b, incoming), RefundBlocks(incoming));
            && r.Some? && r.value.1 == RefundBlocks(incoming)
            && forall t :: Balance(r.value.0, t) == Balance(b, t)
  {
    hide SendAll, Total, Balance, RefundCredits, RefundBlocks, Refunded;
    RefundPaysBack(incoming);
    forall t ensures Total(RefundBlocks(incoming), t) <= Balance(RefundCredits(b, incoming), t) {
      RefundTotals(incoming, t);
    }
    assert Covered(RefundCredits(b, incoming), RefundBlocks(incoming));
    RefundsGoOut(env, RefundCredits(b, incoming), incoming);
    var r := SendAll(env, RefundCredits(b, incoming), RefundBlocks(incoming));
    forall t ensures Balance(r.value.0, t) == Balance(b, t) {
      RefundTotals(incoming, t);
      SendAllConserves(env, RefundCredits(b, incoming), RefundBlocks(incoming), t);
    }
  }

  // ----- what a receive comes to -----

  /** What a received block brings in: when it is refunded also the fee, which is given back. */
  function Brought(incoming: Incoming, refunded: bool, t: Token): nat {
    if refunded then Refunded(incoming, t) else if incoming.token == t then incoming.amount else 0
  }

  /** A receiveCall for a user account or a user contract: the gas price of the block and the quota there is, how the
      code ran, what the first failing send would report, and whether the account has unconfirmed blocks. */
  datatype Call = Call(
    incoming: Incoming, tooDeep: bool, gas: Option<nat>, quota: nat, isContract: bool, run: Run, sendError: Failure,
    unconfirmed: bool)

  /** The balances the code runs with. */
  function Credited(saved: map<Token, nat>, incoming: Incoming): map<Token, nat> {
    Credit(saved, incoming.token, incoming.amount)
  }

  /** The first thing that goes wrong: the run, or sending what it asked for. */
  function FirstError(env: Env, saved: map<Token, nat>, incoming: Incoming, run: Run, sendError: Failure)
    : Option<Failure>
  {
    if run.error.Some? then run.error
    else if SendAll(env, Credited(saved, incoming), run.requests).None? then Some(sendError)
    else None
  }

  predicate Retries(error: Failure, unconfirmed: bool) {
    error == NoReliableStatus || (error == OutOfQuota && unconfirmed)
  }

  function CallResult(env: Env, saved: map<Token, nat>, c: Call): Received {
    if c.tooDeep then Accepted(Some(DepthReached), [])
    else if c.gas.None? then Rejected
    else if c.gas.value > c.quota then RetryLater
    else if !c.isContract then Accepted(None, [])
    else match FirstError(env, saved, c.incoming, c.run, c.sendError)
      case None => Accepted(None, SendAll(env, Credited(saved, c.incoming), c.run.requests).value.1)
      case Some(e) => if Retries(e, c.unconfirmed) then RetryLater else Accepted(Some(e), RefundBlocks(c.incoming))
  }

  /** The balances an accepted receive leaves. */
  function CallBalances(env: Env, saved: map<Token, nat>, c: Call): map<Token, nat> {
    if c.tooDeep || !c.isContract then Credited(saved, c.incoming)
    else if FirstError(env, saved, c.incoming, c.run, c.sendError).Some? then saved
    else SendAll(env, Credited(saved, c.incoming), c.run.requests).value.0
  }

  /** The code, or sending what it asked for, failed. */
  ghost predicate Fails(env: Env, saved: map<Token, nat>, incoming: Incoming, run: Run) {
    || run.error.Some?
    || !Covered(Credited(saved, incoming), Priced(env, run.requests))
    || exists i :: 0 <= i < |run.requests| && !Acceptable(env, run.requests[i])
  }

  lemma {:induction false} FailsExactly(env: Env, saved: map<Token, nat>, incoming: Incoming, run: Run,
      sendError: Failure)
    requires NoRewards(run.requests)
    ensures FirstError(env, saved, incoming, run, sendError).Some? <==> Fails(env, saved, incoming, run)
    ensures !Fails(env, saved, incoming, run) ==>
              SendAll(env, Credited(saved, incoming), run.requests).Some?
              && SendAll(env, Credited(saved, incoming), run.requests).value.1 == Priced(env, run.requests)
  {
    hide SendAll, Covered, Acceptable;
    SendAllExactly(env, Credited(saved, incoming), run.requests);
  }

  /** What becomes of a call. Too deep, the amount is kept and the error reported. Without a gas price there is no
      block, and without quota for it there is none yet. A user account just takes the amount. A contract that fails
      pays everything back, unless it is to be tried again later: always if a recipient's status is not reliable yet,
      and after running out of quota if the account has unconfirmed blocks. One that does not fail sends what it
      asked for. */
  lemma {:induction false} CallOutcome(env: Env, saved: map<Token, nat>, c: Call)
    requires NoRewards(c.run.requests)
    ensures var r := CallResult(env, saved, c);
            var runs := !c.tooDeep && c.gas.Some? && c.gas.value <= c.quota;
            var error := if c.run.error.Some? then c.run.error.value else c.sendError;
            var again := error == NoReliableStatus || (error == OutOfQuota && c.unconfirmed);
            && (c.tooDeep ==> r == Accepted(Some(DepthReached), []))
            && (!c.tooDeep && c.gas.None? ==> r == Rejected)
            && (!c.tooDeep && c.gas.Some? && c.gas.value > c.quota ==> r == RetryLater)
            && (runs && !c.isContract ==> r == Accepted(None, []))
            && (runs && c.isContract && !Fails(env, saved, c.incoming, c.run) ==>
                  r == Accepted(None, Priced(env, c.run.requests)))
            && (runs && c.isContract && Fails(env, saved, c.incoming, c.run) ==>
                  if again then r == RetryLater
                  else r.Accepted? && r.error == Some(error) && PaidBack(r.sends, c.incoming))
  {
    hide SendAll, Fails, PaidBack, RefundBlocks;
    FailsExactly(env, saved, c.incoming, c.run, c.sendError);
    RefundPaysBack(c.incoming);
  }

  /** Per token, what was there and came in is what is left and goes out. */
  lemma {:induction false} CallConserves(env: Env, saved: map<Token, nat>, c: Call, t: Token)
    requires NoRewards(c.run.requests)
    ensures var r := CallResult(env, saved, c);
            r.Accepted? ==>
              Balance(saved, t) + Brought(c.incoming, r.error.Some? && !c.tooDeep, t) ==
              Balance(CallBalances(env, saved, c), t) + Total(r.sends, t)
  {
    hide SendAll;
    RefundTotals(c.incoming, t);
    var b := Credited(saved, c.incoming);
    if SendAll(env, b, c.run.requests).Some? { SendAllConserves(env, b, c.run.requests, t); }
  }

  /** A receiveCreate: how the initial code ran, the code it returned and the quota it left, the price of a byte of
      code, and whether a code too long is an error. */
  datatype Create = Create(
    incoming: Incoming, collision: bool, gas: Option<nat>, quota: nat, run: Run, code: seq<Byte>, left: Uint64,
    codeQuota: Uint64, sendError: Failure, earth: bool)
  {
    predicate CodeFits() {
      |code| <= MAX_CODE_SIZE
    }

    /** The code is stored with its type in front, and the product is a 64-bit one. */
    predicate CodePaid() {
      ((|code| + 1) * codeQuota) % TWO64 <= left
    }
  }

  /** The run with what becomes of its code. */
  function CreateRun(c: Create): Run {
    if c.run.error.None? && c.CodeFits() && !c.CodePaid() then Run(c.run.requests, Some(OutOfQuota)) else c.run
  }

  predicate Created(env: Env, saved: map<Token, nat>, c: Create) {
    c.CodeFits() && FirstError(env, saved, c.incoming, CreateRun(c), c.sendError).None?
  }

  function CreateError(env: Env, saved: map<Token, nat>, c: Create): Option<Failure> {
    if c.run.error.None? && !c.CodeFits() then (if c.earth then Some(CodeTooLong) else None)
    else FirstError(env, saved, c.incoming, CreateRun(c), c.sendError)
  }

  function CreateResult(env: Env, saved: map<Token, nat>, c: Create): Received {
    if c.collision || c.gas.None? || c.gas.value > c.quota then Rejected
    else if Created(env, saved, c) then
      Accepted(None, SendAll(env, Credited(saved, c.incoming), c.run.requests).value.1)
    else Accepted(CreateError(env, saved, c), RefundBlocks(c.incoming.(fee := 0)))
  }

  function CreateBalances(env: Env, saved: map<Token, nat>, c: Create): map<Token, nat> {
    if Created(env, saved, c) then SendAll(env, Credited(saved, c.incoming), c.run.requests).value.0 else saved
  }

  /** What becomes of a creation: refused on a collision or without quota, else the contract comes to be exactly if
      its code ran well, is short enough and paid for, and what it asked for can be sent. Otherwise the amount goes
      back, with an error unless the code was only too long before the Earth upgrade. */
  lemma {:induction false} CreateOutcome(env: Env, saved: map<Token, nat>, c: Create)
    requires NoRewards(c.run.requests)
    ensures var r := CreateResult(env, saved, c);
            var well := c.run.error.None? && |c.code| <= 24575;
            var paid := ((|c.code| + 1) * c.codeQuota) % 0x1_0000_0000_0000_0000 <= c.left;
            && (r == Rejected <==> c.collision || c.gas.None? || c.gas.value > c.quota)
            && (r != Rejected ==> r.Accepted?)
            && (Created(env, saved, c) <==> well && paid && !Fails(env, saved, c.incoming, c.run))
            && (r.Accepted? && Created(env, saved, c) ==> r == Accepted(None, Priced(env, c.run.requests)))
            && (r.Accepted? && !Created(env, saved, c) ==>
                  && PaidBack(r.sends, c.incoming.(fee := 0))
                  && r.error == if c.run.error.Some? then c.run.error
                                else if |c.code| > 24575 then (if c.earth then Some(CodeTooLong) else None)
                                else if !paid then Some(OutOfQuota) else Some(c.sendError))
  {
    hide SendAll, Fails, PaidBack, RefundBlocks;
    FailsExactly(env, saved, c.incoming, c.run, c.sendError);
    RefundPaysBack(c.incoming.(fee := 0));
    if c.run.error.Some? { FailedRun(env, saved, c.incoming, c.run); }
  }

  lemma {:induction false} FailedRun(env: Env, saved: map<Token, nat>, incoming: Incoming, run: Run)
    ensures run.error.Some? ==> Fails(env, saved, incoming, run)
  {
  }

  /** A creation returns the amount when it fails, never the fee. */
  lemma {:induction false} CreateConserves(env: Env, saved: map<Token, nat>, c: Create, t: Token)
    requires NoRewards(c.run.requests)
    ensures var r := CreateResult(env, saved, c);
            r.Accepted? ==>
              Balance(saved, t) + Brought(c.incoming, false, t) ==
              Balance(CreateBalances(env, saved, c), t) + Total(r.sends, t)
  {
    hide SendAll;
    RefundTotals(c.incoming.(fee := 0), t);
    var b := Credited(saved, c.incoming);
    if SendAll(env, b, c.run.requests).Some? { SendAllConserves(env, b, c.run.requests, t); }
  }

  // ----- the database and the vm in place -----

  /** Balances of the receiving account: what the chain has, and what this run has written over it. */
  class Db {
    const saved: map<Token, nat>
    var unsaved: map<Token, nat>

    constructor (saved: map<Token, nat>)
      ensures this.saved == saved && unsaved == map[]
    {
      this.saved, unsaved := saved, map[];
    }

    ghost function View(): map<Token, nat>
      reads this
    {
      saved + unsaved
    }

    function GetBalance(t: Token): (b: nat)
      reads this
      ensures b == Balance(View(), t)
    {
      if t in unsaved then unsaved[t] else if t in saved then saved[t] else 0
    }

    method AddBalance(t: Token, amount: nat)
      modifies this
      ensures View() == Credit(old(View()), t, amount)
    {
      unsaved := unsaved[t := GetBalance(t) + amount];
    }

    method SubBalance(t: Token, amount: nat) returns (ok: bool)
      modifies this
      ensures ok <==> Debit(old(View()), t, amount).Some?
      ensures if ok then View() == Debit(old(View()), t, amount).value else View() == old(View())
    {
      var b := GetBalance(t);
      if b >= amount {
        unsaved := unsaved[t := b - amount];
        return true;
      }
      return false;
    }

    method Reset()
      modifies this
      ensures unsaved == map[] && View() == saved
    {
      unsaved := map[];
    }
  }

  class Vm {
    const env: Env
    const db: Db
    var sendBlockList: seq<SendBlock>

    constructor (env: Env, db: Db)
      ensures this.env == env && this.db == db && sendBlockList == []
    {
      this.env, this.db, sendBlockList := env, db, [];
    }

    method AppendBlock(block: SendBlock)
      modifies this
      ensures sendBlockList == old(sendBlockList) + [block]
    {
      sendBlockList := sendBlockList + [block];
    }

    method Revert()
      modifies this, db
      ensures sendBlockList == [] && db.unsaved == map[] && db.View() == db.saved
    {
      sendBlockList := [];
      db.Reset();
    }

    /** sendCall without quota for a recipient that is no built-in contract, and sendRefund. */
    method SendPlainBlock(block: SendBlock) returns (sent: Option<SendBlock>)
      modifies db
      ensures var r := SendPlain(old(db.View()), block);
              if r.None? then sent.None? else sent == Some(r.value.1) && db.View() == r.value.0
    {
      if !CanTransfer(db.saved + db.unsaved, block.token, block.amount, 0) {
        return None;
      }
      var ok := db.SubBalance(block.token, block.amount);
      if !ok {
        return None;
      }
      return Some(block.(fee := 0));
    }

    method SendBlockOf(block: SendBlock) returns (sent: Option<SendBlock>)
      modifies db
      ensures var r := SendOne(env, old(db.View()), block);
              if r.None? then sent.None? else sent == Some(r.value.1) && db.View() == r.value.0
    {
      match block.kind
      case SendReward => return if env.mayReward then Some(block) else None;
      case SendRefund => sent := SendPlainBlock(block);
      case SendCall =>
        match env.builtin(block) {
          case NotBuiltin => sent := SendPlainBlock(block);
          case Builtin(fee, accepts) =>
            if fee.None? || !CanTransfer(db.saved + db.unsaved, block.token, block.amount, fee.value) || !accepts {
              return None;
            }
            var ok := db.SubBalance(block.token, block.amount);
            if !ok {
              return None;
            }
            ok := db.SubBalance(VITE, fee.value);
            if !ok {
              return None;
            }
            sent := Some(block.(fee := fee.value));
        }
    }

    /** Sends every collected block, stopping at the first that fails. */
    method DoSendBlockList() returns (ok: bool)
      modifies this, db
      ensures var r := SendAll(env, old(db.View()), old(sendBlockList));
              if r.None? then !ok else ok && db.View() == r.value.0 && sendBlockList == r.value.1
    {
      hide SendOne;
      ghost var before, blocks := db.View(), sendBlockList;
      for i := 0 to |sendBlockList|
        invariant |sendBlockList| == |blocks|
        invariant forall j | i <= j < |blocks| :: sendBlockList[j] == blocks[j]
        invariant SendAll(env, before, blocks[..i]) == Some((db.View(), sendBlockList[..i]))
      {
        ghost var done, b := sendBlockList[..i], db.View();
        var sent := SendBlockOf(sendBlockList[i]);
        SendAllStep(env, before, blocks, i, b, done);
        if sent.None? {
          SendAllPrefix(env, before, blocks, i + 1);
          return false;
        }
        sendBlockList := sendBlockList[i := sent.value];
        assert sendBlockList[..i + 1] == done + [sent.value];
      }
      assert blocks[..|blocks|] == blocks && sendBlockList[..|blocks|] == sendBlockList;
      return true;
    }

    /** Appends the refund and credits what it will take out again. */
    method DoRefund(incoming: Incoming) returns (refunds: bool)
      modifies this, db
      ensures sendBlockList == old(sendBlockList) + RefundBlocks(incoming)
      ensures db.View() == RefundCredits(old(db.View()), incoming)
      ensures refunds <==> RefundBlocks(incoming) != []
    {
      refunds := false;
      if incoming.amount > 0 && incoming.fee > 0 && incoming.token == VITE {
        AppendBlock(MakeRequestBlock(incoming.sender, SendRefund, incoming.amount + incoming.fee, VITE));
        db.AddBalance(VITE, incoming.amount + incoming.fee);
        refunds := true;
      } else {
        if incoming.amount > 0 {
          AppendBlock(MakeRequestBlock(incoming.sender, SendRefund, incoming.amount, incoming.token));
          db.AddBalance(incoming.token, incoming.amount);
          refunds := true;
        }
        if incoming.fee > 0 {
          AppendBlock(MakeRequestBlock(incoming.sender, SendRefund, incoming.fee, VITE));
          db.AddBalance(VITE, incoming.fee);
          refunds := true;
        }
      }
    }

    /** Reverts everything and returns what came in. */
    method RevertAndRefund(incoming: Incoming, error: Option<Failure>) returns (r: Received)
      modifies this, db
      ensures r == Accepted(error, RefundBlocks(incoming)) && PaidBack(r.sends, incoming)
      ensures forall t :: Balance(db.View(), t) == Balance(db.saved, t)
    {
      hide Total, PaidBack;
      RefundPaysBack(incoming);
      Revert();
      RefundSucceeds(env, db.View(), incoming);
      var refunds := DoRefund(incoming);
      assert sendBlockList == RefundBlocks(incoming);
      if refunds {
        var ok := DoSendBlockList();
        if !ok {
          return RetryLater;
        }
        return Accepted(error, sendBlockList);
      }
      return Accepted(error, []);
    }

    /** Runs the receive; the branch for a refund that fails is never taken. */
    method ReceiveCall(c: Call) returns (r: Received)
      requires db.unsaved == map[] && sendBlockList == []
      modifies this, db
      ensures r == CallResult(env, db.saved, c)
      ensures r.Accepted? ==> forall t :: Balance(db.View(), t) == Balance(CallBalances(env, db.saved, c), t)
      ensures r.Accepted? && r.error.Some? && !c.tooDeep ==> PaidBack(r.sends, c.incoming)
    {
      hide SendAll, PaidBack;
      assert db.View() == db.saved;
      if c.tooDeep {
        db.AddBalance(c.incoming.token, c.incoming.amount);
        return Accepted(Some(DepthReached), []);
      }
      if c.gas.None? {
        return Rejected;
      }
      if c.gas.value > c.quota {
        return RetryLater;
      }
      db.AddBalance(c.incoming.token, c.incoming.amount);
      if !c.isContract {
        return Accepted(None, []);
      }
      sendBlockList := c.run.requests;
      var error := c.run.error;
      if error.None? {
        var ok := DoSendBlockList();
        if ok {
          return Accepted(None, sendBlockList);
        }
        error := Some(c.sendError);
      }
      if error == Some(NoReliableStatus) {
        return RetryLater;
      }
      if error == Some(OutOfQuota) && c.unconfirmed {
        Revert();
        return RetryLater;
      }
      r := RevertAndRefund(c.incoming, error);
    }

    /** Runs the creation; again the refund cannot fail. */
    method ReceiveCreate(c: Create) returns (r: Received)
      requires db.unsaved == map[] && sendBlockList == []
      modifies this, db
      ensures r == CreateResult(env, db.saved, c)
      ensures r.Accepted? ==> forall t :: Balance(db.View(), t) == Balance(CreateBalances(env, db.saved, c), t)
      ensures r.Accepted? && !Created(env, db.saved, c) ==> PaidBack(r.sends, c.incoming.(fee := 0))
    {
      hide SendAll, PaidBack;
      assert db.View() == db.saved;
      if c.collision || c.gas.None? || c.gas.value > c.quota {
        return Rejected;
      }
      db.AddBalance(c.incoming.token, c.incoming.amount);
      sendBlockList := c.run.requests;
      var error := c.run.error;
      if error.None? && |c.code| <= MAX_CODE_SIZE {
        var codeCost := ((|c.code| + 1) * c.codeQuota) % TWO64;
        if codeCost > c.left {
          error := Some(OutOfQuota);
        } else {
          var ok := DoSendBlockList();
          if ok {
            return Accepted(None, sendBlockList);
          }
          error := Some(c.sendError);
        }
      }
      if error.None? && |c.code| > MAX_CODE_SIZE && c.earth {
        error := Some(CodeTooLong);
      }
      r := RevertAndRefund(c.incoming.(fee := 0), error);
    }
  }

  lemma {:induction false} SendAllStep(env: Env, before: map<Token, nat>, blocks: seq<SendBlock>, i: nat,
      b: map<Token, nat>, done: seq<SendBlock>)
    requires i < |blocks| && SendAll(env, before, blocks[..i]) == Some((b, done))
    ensures var r := SendOne(env, b, blocks[i]);
            SendAll(env, before, blocks[..i + 1]) ==
            if r.None? then None else Some((r.value.0, done + [r.value.1]))
  {
    assert blocks[..i + 1][..i] == blocks[..i];
  }

  lemma {:induction false} SendAllPrefix(env: Env, b: map<Token, nat>, blocks: seq<SendBlock>, n: nat)
    requires n <= |blocks| && SendAll(env, b, blocks[..n]).None?
    ensures SendAll(env, b, blocks).None?
    decreases |blocks|
  {
    if n == |blocks| {
      assert blocks[..n] == blocks;
    } else {
      assert blocks[..|blocks| - 1][..n] == blocks[..n];
      SendAllPrefix(env, b, blocks[..|blocks| - 1], n);
    }
  }
}
