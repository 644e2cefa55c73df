/** vm/vm.go and vm/interpreter.go together: receiving a call or a creation whose code is run, and value conserved. */
module ContractReceive {
  import opened Arith
  import opened Wrappers
  import I = Interpreter
  import M = Machine
  import P = MachineProofs
  import Opcodes
  import opened Receive

  /** The code by which the price of a send reports that the recipient's status is not reliable yet. */
  const NO_RELIABLE_STATUS: nat := 0

  const TWO80: int := 0x1_0000_0000_0000_0000_0000
  const TWO168: int := TWO80 * TWO80 * 0x100

  /** A token id has ten bytes; a longer number stands for the zero id. */
  function TokenOf(x: Word): Token {
    if x < TWO80 then x else 0
  }

  /** An address has 21 bytes; a longer number stands for the zero address. */
  function AddressOf(x: Word): Address {
    if x < TWO168 then x else 0
  }

  function Request(send: M.Send): (b: SendBlock)
    ensures b.kind == SendCall && b.amount == send.amount && b.data == send.data
    ensures b.token == TokenOf(send.token) && b.to == AddressOf(send.to)
  {
    SendBlock(AddressOf(send.to), SendCall, send.amount, TokenOf(send.token), send.data, 0)
  }

  function Requests(sends: seq<M.Send>): (bs: seq<SendBlock>)
    ensures |bs| == |sends| && NoRewards(bs)
    ensures forall i | 0 <= i < |bs| :: bs[i] == Request(sends[i])
  {
    seq(|sends|, i requires 0 <= i < |sends| => Request(sends[i]))
  }

  /** What receiveCall sees of a finished run; none when reading past memory has brought the process down. */
  function RunOf(o: M.Outcome): (r: Option<Run>)
    ensures r.None? <==> o.Running? || (o.Failed? && o.error == M.Panicked)
    ensures r.Some? ==> NoRewards(r.value.requests) && r.value.requests == Requests(o.s.sends)
    ensures r.Some? ==>
              && (r.value.error.None? <==> o.Halted?)
              && (r.value.error == Some(Failure.OutOfQuota) <==> o.Failed? && o.error == M.OutOfQuota)
              && (r.value.error == Some(NoReliableStatus) <==> o.Failed? && o.error == M.SendRejected(0))
  {
    match o
    case Running(_) => None
    case Halted(s, _) => Some(Run(Requests(s.sends), None))
    case Reverted(s, _) => Some(Run(Requests(s.sends), Some(OtherFailure)))
    case Failed(s, error) =>
      match error {
        case Panicked => None
        case OutOfQuota => Some(Run(Requests(s.sends), Some(Failure.OutOfQuota)))
        case SendRejected(code) =>
          Some(Run(Requests(s.sends), Some(if code == NO_RELIABLE_STATUS then NoReliableStatus else OtherFailure)))
        case _ => Some(Run(Requests(s.sends), Some(OtherFailure)))
      }
  }

  /** The bytes a run returns when it ends well. */
  function CodeOf(o: M.Outcome): (code: seq<Byte>) {
    match o
    case Halted(_, ret) => ret
    case _ => []
  }

  /** The environment of a run that receives: BALANCE reads the account, the received amount included. */
  function Reads(e: M.Env, saved: map<Token, nat>, incoming: Incoming): (e': M.Env) {
    e.(balance := (x: Word) => Balance(Credited(saved, incoming), TokenOf(x)) % TWO256)
  }

  /** What BALANCE leaves while a block is received: what the account had, and the received amount in its token. */
  lemma {:induction false} BalanceRead(e: M.Env, saved: map<Token, nat>, incoming: Incoming, s: M.State)
    requires |s.stack| >= 1 && M.Back(s.stack, 0) < TWO80
    ensures var token := M.Back(s.stack, 0);
            var held := Balance(saved, token) + if token == incoming.token then incoming.amount else 0;
            held < TWO256 ==>
              M.Execute(Reads(e, saved, incoming), Opcodes.Lookup(Opcodes.BALANCE), s) ==
              M.Done(s.(stack := s.stack[..|s.stack| - 1] + [held]), [])
  {
    hide M.GetData;
  }

  // ----- a call -----

  /** A call to a user contract before its code has run. */
  datatype Arrival = Arrival(
    incoming: Incoming, tooDeep: bool, gas: Option<nat>, quota: Uint64, sendError: Failure, unconfirmed: bool)
  {
    /** Whether the code is run at all. */
    predicate Runs() {
      !tooDeep && gas.Some? && gas.value <= quota
    }

    function Left(): Uint64
      requires Runs()
    {
      quota - gas.value
    }

    function WithRun(run: Run): Call {
      Call(incoming, tooDeep, gas, quota, true, run, sendError, unconfirmed)
    }
  }

  /** The receive of a contract call that runs n turns of its code. */
  ghost function Arrived(e: M.Env, t: M.QuotaTable, a: Arrival, n: nat): Option<Call>
    requires t.memDivision > 0
  {
    if !a.Runs() then Some(a.WithRun(Run([], None)))
    else match RunOf(M.Runs(e, t, M.Initial(a.Left()), n))
      case None => None
      case Some(run) => Some(a.WithRun(run))
  }

  /** Whatever the code and however it ends: per token, what was there and came in is what is left and goes out. */
  lemma {:induction false} RunConserves(env: Env, saved: map<Token, nat>, e: M.Env, t: M.QuotaTable, a: Arrival, n: nat,
      token: Token)
    requires t.memDivision > 0 && Arrived(e, t, a, n).Some?
    ensures var c := Arrived(e, t, a, n).value;
            var r := CallResult(env, saved, c);
            r.Accepted? ==>
              Balance(saved, token) + Brought(a.incoming, r.error.Some? && !a.tooDeep, token) ==
              Balance(CallBalances(env, saved, c), token) + Total(r.sends, token)
  {
    hide M.Runs, RunOf, CallResult, CallBalances;
    CallConserves(env, saved, Arrived(e, t, a, n).value, token);
  }

  /** The quota of a call is accounted for to the last unit: the price of receiving, what the code took for good, what
      its storage writes could still give back, and what is left. */
  lemma {:induction false} ArrivalLedger(e: M.Env, t: M.QuotaTable, a: Arrival, n: nat)
    requires M.TableSound(t) && a.Runs()
    ensures var o := M.Runs(e, t, M.Initial(a.Left()), n);
            a.gas.value + P.TakenInAll(e, t, a.Left(), n) + P.Potential(e, t.sstore, o.s.storage) + o.s.quota == a.quota
  {
    hide M.Runs, P.TakenInAll, P.Potential;
    P.RunLedger(e, t, a.Left(), n);
  }

  /** The block of an instruction: a call to its recipient, of its amount and token and with its data. */
  ghost predicate Carries(block: SendBlock, send: M.Send) {
    && block.kind == SendCall && block.amount == send.amount && block.data == send.data
    && block.to == (if send.to < TWO168 then send.to else 0)
    && block.token == (if send.token < TWO80 then send.token else 0)
  }

  /** The account can send what the instructions of a run asked for. */
  ghost predicate Sendable(env: Env, saved: map<Token, nat>, incoming: Incoming, sends: seq<M.Send>) {
    && (forall i | 0 <= i < |sends| :: Acceptable(env, Request(sends[i])))
    && Covered(Credited(saved, incoming), Priced(env, Requests(sends)))
  }

  lemma {:induction false} SendableExactly(env: Env, saved: map<Token, nat>, incoming: Incoming, run: Run,
      sends: seq<M.Send>)
    requires run.requests == Requests(sends)
    ensures Fails(env, saved, incoming, run) <==> run.error.Some? || !Sendable(env, saved, incoming, sends)
    ensures forall i | 0 <= i < |sends| :: Carries(Priced(env, run.requests)[i], sends[i])
  {
    hide Acceptable, Covered, FeeOf, Credited;
  }

  /** What becomes of a call whose code is run. One block for each CALL or CALL2, in order and exactly as asked for,
      if the code halts and the account can send them; otherwise everything goes back to the sender, unless the call
      is to be tried again because a recipient's status is not reliable yet or the quota was not enough while the
      account has unconfirmed blocks. */
  lemma {:induction false} RunOutcome(env: Env, saved: map<Token, nat>, e: M.Env, t: M.QuotaTable, a: Arrival, n: nat)
    requires t.memDivision > 0 && a.Runs() && Arrived(e, t, a, n).Some?
    ensures var o := M.Runs(e, t, M.Initial(a.Left()), n);
            var r := CallResult(env, saved, Arrived(e, t, a, n).value);
            var sendable := Sendable(env, saved, a.incoming, o.s.sends);
            && (o.Halted? && sendable ==>
                  && r.Accepted? && r.error.None? && |r.sends| == |o.s.sends|
                  && forall i | 0 <= i < |r.sends| :: Carries(r.sends[i], o.s.sends[i]))
            && (!o.Halted? ==>
                  var again := o.Failed? &&
                               (o.error == M.SendRejected(0) || (o.error == M.OutOfQuota && a.unconfirmed));
                  if again then r == RetryLater else r.Accepted? && r.error.Some? && PaidBack(r.sends, a.incoming))
            && (o.Halted? && !sendable ==>
                  if Retries(a.sendError, a.unconfirmed) then r == RetryLater
                  else r == Accepted(Some(a.sendError), r.sends) && PaidBack(r.sends, a.incoming))
  {
    hide M.Runs, RunOf, CallResult, PaidBack, Fails, Sendable, Carries, Requests;
    var o := M.Runs(e, t, M.Initial(a.Left()), n);
    var run := RunOf(o).value;
    CallOutcome(env, saved, a.WithRun(run));
    SendableExactly(env, saved, a.incoming, run, o.s.sends);
  }

  /** receiveCall with the loop it calls: the code runs on the quota left and reads the credited balances, then its
      sends go out or all is undone. */
  method ReceiveAndRun(vm: Vm, e: M.Env, codeAddr: nat, t: M.QuotaTable, a: Arrival)
    returns (r: Option<Received>, ghost n: nat)
    requires M.TableSound(t) && vm.db.unsaved == map[] && vm.sendBlockList == []
    modifies vm, vm.db
    ensures var call := Arrived(Reads(e, vm.db.saved, a.incoming), t, a, n);
            && (r.None? <==> call.None?)
            && (call.Some? ==>
                  && r.value == CallResult(vm.env, vm.db.saved, call.value)
                  && (r.value.Accepted? && r.value.error.Some? && !a.tooDeep ==> PaidBack(r.value.sends, a.incoming))
                  && (r.value.Accepted? ==>
                        forall k ::
                          Balance(vm.db.saved, k) + Brought(a.incoming, r.value.error.Some? && !a.tooDeep, k) ==
                          Balance(vm.db.View(), k) + Total(r.value.sends, k)))
  {
    var seen := Reads(e, vm.db.saved, a.incoming);
    var run := Run([], None);
    n := 0;
    if a.Runs() {
      var c := new I.Contract(seen, codeAddr, a.Left());
      var o;
      o, n := I.RunLoop(c, t);
      var finished := RunOf(o);
      if finished.None? {
        return None, n;
      }
      run := finished.value;
    }
    hide M.Runs, RunOf, CallResult, CallBalances, PaidBack;
    var received := vm.ReceiveCall(a.WithRun(run));
    forall k ensures received.Accepted? ==>
      Balance(vm.db.saved, k) + Brought(a.incoming, received.error.Some? && !a.tooDeep, k) ==
      Balance(vm.db.View(), k) + Total(received.sends, k)
    {
      RunConserves(vm.env, vm.db.saved, seen, t, a, n, k);
    }
    r := Some(received);
  }

  // ----- a creation -----

  /** A contract creation before its initial code has run. */
  datatype Birth = Birth(
    incoming: Incoming, collision: bool, gas: Option<nat>, quota: Uint64, codeQuota: Uint64, sendError: Failure,
    earth: bool)
  {
    predicate Runs() {
      !collision && gas.Some? && gas.value <= quota
    }

    function Left(): Uint64
      requires Runs()
    {
      quota - gas.value
    }

    function WithRun(run: Run, code: seq<Byte>, left: Uint64): Create {
      Create(incoming, collision, gas, quota, run, code, left, codeQuota, sendError, earth)
    }
  }

  /** The receive of a creation that runs n turns of its initial code. */
  ghost function Born(e: M.Env, t: M.QuotaTable, a: Birth, n: nat): Option<Create>
    requires t.memDivision > 0
  {
    if !a.Runs() then Some(a.WithRun(Run([], None), [], 0))
    else
      var o := M.Runs(e, t, M.Initial(a.Left()), n);
      match RunOf(o)
      case None => None
      case Some(run) => Some(a.WithRun(run, CodeOf(o), o.s.quota))
  }

  lemma {:induction false} BirthLedger(e: M.Env, t: M.QuotaTable, a: Birth, n: nat)
    requires M.TableSound(t) && a.Runs()
    ensures var o := M.Runs(e, t, M.Initial(a.Left()), n);
            a.gas.value + P.TakenInAll(e, t, a.Left(), n) + P.Potential(e, t.sstore, o.s.storage) + o.s.quota == a.quota
  {
    hide M.Runs, P.TakenInAll, P.Potential;
    P.RunLedger(e, t, a.Left(), n);
  }

  /** A creation conserves every token too; on failure the amount goes back and the fee stays paid. */
  lemma {:induction false} BirthConserves(env: Env, saved: map<Token, nat>, e: M.Env, t: M.QuotaTable, a: Birth, n: nat,
      token: Token)
    requires t.memDivision > 0 && Born(e, t, a, n).Some?
    ensures var c := Born(e, t, a, n).value;
            var r := CreateResult(env, saved, c);
            r.Accepted? ==>
              Balance(saved, token) + Brought(a.incoming, false, token) ==
              Balance(CreateBalances(env, saved, c), token) + Total(r.sends, token)
  {
    hide M.Runs, RunOf, CreateResult, CreateBalances;
    CreateConserves(env, saved, Born(e, t, a, n).value, token);
  }

  /** The contract comes to be exactly when the initial code halts with a code that is short enough and paid for from
      what the run left, and the account can send what the run asked for; then it does. Otherwise the amount goes back
      to the sender. */
  lemma {:induction false} BornExactly(env: Env, saved: map<Token, nat>, e: M.Env, t: M.QuotaTable, a: Birth, n: nat)
    requires t.memDivision > 0 && a.Runs() && Born(e, t, a, n).Some?
    ensures var o := M.Runs(e, t, M.Initial(a.Left()), n);
            var c := Born(e, t, a, n).value;
            var r := CreateResult(env, saved, c);
            && (Created(env, saved, c) <==>
                  && o.Halted? && |o.ret| <= MAX_CODE_SIZE
                  && ((|o.ret| + 1) * a.codeQuota) % TWO64 <= o.s.quota
                  && Sendable(env, saved, a.incoming, o.s.sends))
            && r.Accepted?
            && (Created(env, saved, c) ==>
                  && r.error.None? && |r.sends| == |o.s.sends|
                  && forall i | 0 <= i < |r.sends| :: Carries(r.sends[i], o.s.sends[i]))
            && (!Created(env, saved, c) ==> PaidBack(r.sends, a.incoming.(fee := 0)))
  {
    hide M.Runs, RunOf, CreateResult, PaidBack, Fails, Sendable, Carries, Requests, Created;
    var o := M.Runs(e, t, M.Initial(a.Left()), n);
    var run := RunOf(o).value;
    CreateOutcome(env, saved, Born(e, t, a, n).value);
    SendableExactly(env, saved, a.incoming, run, o.s.sends);
  }

  /** receiveCreate with the loop it calls. */
  method CreateAndRun(vm: Vm, e: M.Env, codeAddr: nat, t: M.QuotaTable, a: Birth)
    returns (r: Option<Received>, ghost n: nat)
    requires M.TableSound(t) && vm.db.unsaved == map[] && vm.sendBlockList == []
    modifies vm, vm.db
    ensures var create := Born(Reads(e, vm.db.saved, a.incoming), t, a, n);
            && (r.None? <==> create.None?)
            && (create.Some? ==>
                  && r.value == CreateResult(vm.env, vm.db.saved, create.value)
                  && (r.value.Accepted? && !Created(vm.env, vm.db.saved, create.value) ==>
                        PaidBack(r.value.sends, a.incoming.(fee := 0)))
                  && (r.value.Accepted? ==>
                        forall k ::
                          Balance(vm.db.saved, k) + Brought(a.incoming, false, k) ==
                          Balance(vm.db.View(), k) + Total(r.value.sends, k)))
  {
    var seen := Reads(e, vm.db.saved, a.incoming);
    var run, code, left := Run([], None), [], 0;
    n := 0;
    if a.Runs() {
      var c := new I.Contract(seen, codeAddr, a.Left());
      var o;
      o, n := I.RunLoop(c, t);
      var finished := RunOf(o);
      if finished.None? {
        return None, n;
      }
      run, code, left := finished.value, CodeOf(o), c.quotaLeft;
    }
    hide M.Runs, RunOf, CreateResult, CreateBalances, Created, PaidBack;
    var received := vm.ReceiveCreate(a.WithRun(run, code, left));
    forall k ensures received.Accepted? ==>
      Balance(vm.db.saved, k) + Brought(a.incoming, false, k) == Balance(vm.db.View(), k) + Total(received.sends, k)
    {
      BirthConserves(vm.env, vm.db.saved, seen, t, a, n, k);
    }
    r := Some(received);
  }
}
