/** rpc/client.go: the dispatch loop that matches responses to waiting requests. */
module Dispatch {
  import opened Wrappers

  type Id = nat
  type OpId = nat

  datatype Failure = ClientQuit | ReadFailed | ServerError | BadResult

  /** A request waiting for its answers. The response channel has room for one message per id, or for none
      when the request is a subscription; closing it wakes the waiter. */
  datatype RequestOp = RequestOp(ids: seq<Id>, isSub: bool, delivered: set<Id>, closed: bool, err: Option<Failure>)

  datatype Message =
    | Notification
    | Response(id: Id, serverError: bool, subid: Option<nat>)
    | Weird

  /** What the loop can be woken by. */
  datatype Event =
    | Close
    | Batch(messages: seq<Message>)
    | ReadErr
    | Reconnected
    | Request(op: OpId, ids: seq<Id>, isSub: bool)
    | SendDone(failed: bool)

  predicate Distinct(ids: seq<Id>) {
    forall i, j | 0 <= i < j < |ids| :: ids[i] != ids[j]
  }

  ghost function IdSet(ids: seq<Id>): set<Id> { set i | 0 <= i < |ids| :: ids[i] }

  lemma {:induction false} DistinctCount(ids: seq<Id>)
    requires Distinct(ids)
    ensures |IdSet(ids)| == |ids|
  {
    if |ids| > 0 {
      var n := |ids| - 1;
      DistinctCount(ids[..n]);
      assert IdSet(ids) == IdSet(ids[..n]) + {ids[n]};
    }
  }

  /** Ids of an op that still wait for a response. */
  ghost function Waiting(respWait: map<Id, OpId>, o: OpId): set<Id> {
    set id | id in respWait && respWait[id] == o
  }

  /** What is true of an accepted op at every moment. */
  ghost predicate OpOk(respWait: map<Id, OpId>, r: RequestOp, o: OpId, sendFailed: bool) {
    var w := Waiting(respWait, o);
    && w <= IdSet(r.ids) && r.delivered <= IdSet(r.ids) && w !! r.delivered && |IdSet(r.ids)| == |r.ids|
    && (r.isSub ==> |r.ids| == 1 && r.delivered == {})
    && (r.closed ==> w == {} && (r.isSub || r.err.Some?))
    && (!r.closed && !sendFailed ==> if r.isSub then w == IdSet(r.ids) else r.delivered + w == IdSet(r.ids))
  }

  /** Its waiter has everything it will get: all answers, or a closed channel, or the error of its own send. */
  ghost predicate Settled(r: RequestOp, sendFailed: bool) {
    (r.closed && (r.isSub || r.err.Some?)) || sendFailed || (!r.isSub && r.delivered == IdSet(r.ids))
  }

  /** Every waiting id belongs to the op it is registered for, and to no other. */
  ghost predicate Owned(ops: map<OpId, RequestOp>, respWait: map<Id, OpId>) {
    && (forall id | id in respWait :: respWait[id] in ops && id in ops[respWait[id]].ids)
    && (forall o, p, id | o in ops && p in ops && id in ops[o].ids && id in ops[p].ids :: o == p)
  }

  ghost predicate Good(ops: map<OpId, RequestOp>, respWait: map<Id, OpId>, failed: set<OpId>) {
    && Owned(ops, respWait) && failed <= ops.Keys
    && forall o | o in ops :: OpOk(respWait, ops[o], o, o in failed)
  }

  // ----- each change of the tables keeps them good -----

  predicate FreshIds(ops: map<OpId, RequestOp>, ids: seq<Id>) {
    forall p | p in ops :: forall id | id in ops[p].ids :: id !in ids
  }

  ghost function Registered(respWait: map<Id, OpId>, ids: seq<Id>, o: OpId): map<Id, OpId> {
    if |ids| == 0 then respWait else Registered(respWait, ids[..|ids| - 1], o)[ids[|ids| - 1] := o]
  }

  lemma {:induction false} RegisteredAt(respWait: map<Id, OpId>, ids: seq<Id>, o: OpId)
    ensures Registered(respWait, ids, o).Keys == respWait.Keys + IdSet(ids)
    ensures forall id | id in Registered(respWait, ids, o) ::
              Registered(respWait, ids, o)[id] == if id in ids then o else respWait[id]
  {
    if |ids| > 0 {
      var n := |ids| - 1;
      RegisteredAt(respWait, ids[..n], o);
      assert ids == ids[..n] + [ids[n]];
      assert IdSet(ids) == IdSet(ids[..n]) + {ids[n]};
    }
  }

  lemma {:induction false} AcceptOwned(ops: map<OpId, RequestOp>, respWait: map<Id, OpId>, o: OpId, r: RequestOp)
    requires Owned(ops, respWait) && o !in ops && FreshIds(ops, r.ids)
    ensures Owned(ops[o := r], Registered(respWait, r.ids, o))
  {
    RegisteredAt(respWait, r.ids, o);
    hide Registered;
  }

  lemma {:induction false} AcceptWaiting(ops: map<OpId, RequestOp>, respWait: map<Id, OpId>, ids: seq<Id>, o: OpId,
      p: OpId)
    requires Owned(ops, respWait) && o !in ops && FreshIds(ops, ids)
    ensures Waiting(Registered(respWait, ids, o), p) == if p == o then IdSet(ids) else Waiting(respWait, p)
  {
    RegisteredAt(respWait, ids, o);
    hide Registered;
  }

  lemma {:induction false} GoodAccept(ops: map<OpId, RequestOp>, respWait: map<Id, OpId>, failed: set<OpId>,
      o: OpId, ids: seq<Id>, isSub: bool)
    requires Good(ops, respWait, failed) && o !in ops && FreshIds(ops, ids)
    requires Distinct(ids) && (isSub ==> |ids| == 1)
    ensures Good(ops[o := RequestOp(ids, isSub, {}, false, None)], Registered(respWait, ids, o), failed)
  {
    var r := RequestOp(ids, isSub, {}, false, None);
    AcceptOwned(ops, respWait, o, r);
    DistinctCount(ids);
    hide Owned, FreshIds, Registered, Waiting, IdSet, Distinct;
    forall p | p in ops[o := r] ensures OpOk(Registered(respWait, ids, o), ops[o := r][p], p, p in failed) {
      AcceptWaiting(ops, respWait, ids, o, p);
      if p != o { assert OpOk(respWait, ops[p], p, p in failed); }
    }
  }

  /** One id leaves the table; only its op notices. */
  lemma {:induction false} WaitingWithout(respWait: map<Id, OpId>, id: Id, o: OpId)
    requires id in respWait
    ensures Waiting(respWait - {id}, o) ==
            if respWait[id] == o then Waiting(respWait, o) - {id} else Waiting(respWait, o)
    ensures respWait[id] == o ==> id in Waiting(respWait, o)
  {
  }

  lemma {:induction false} OwnedWithout(ops: map<OpId, RequestOp>, respWait: map<Id, OpId>, id: Id, o: OpId,
      r: RequestOp)
    requires Owned(ops, respWait) && o in ops && r.ids == ops[o].ids
    ensures Owned(ops[o := r], respWait - {id})
  {
  }

  /** Replacing one op by its answered self keeps the tables good if that op is in order. */
  lemma {:induction false} GoodAnswer(ops: map<OpId, RequestOp>, respWait: map<Id, OpId>, failed: set<OpId>, id: Id,
      r: RequestOp)
    requires Good(ops, respWait, failed) && id in respWait && r.ids == ops[respWait[id]].ids
    requires OpOk(respWait - {id}, r, respWait[id], respWait[id] in failed)
    ensures Good(ops[respWait[id] := r], respWait - {id}, failed)
  {
    var o := respWait[id];
    OwnedWithout(ops, respWait, id, o, r);
    hide Owned, Waiting;
    forall p | p in ops[o := r] ensures OpOk(respWait - {id}, ops[o := r][p], p, p in failed) {
      if p != o {
        WaitingWithout(respWait, id, p);
        assert OpOk(respWait, ops[p], p, p in failed);
      }
    }
  }

  lemma {:induction false} OpAt(ops: map<OpId, RequestOp>, respWait: map<Id, OpId>, failed: set<OpId>, id: Id)
    requires Good(ops, respWait, failed) && id in respWait
    ensures respWait[id] in ops && OpOk(respWait, ops[respWait[id]], respWait[id], respWait[id] in failed)
    ensures id in Waiting(respWait, respWait[id])
  {
  }

  lemma {:induction false} GoodDeliver(ops: map<OpId, RequestOp>, respWait: map<Id, OpId>, failed: set<OpId>, id: Id)
    requires Good(ops, respWait, failed) && id in respWait && respWait[id] in ops && !ops[respWait[id]].isSub
    ensures var o := respWait[id];
            && !ops[o].closed && id !in ops[o].delivered && |ops[o].delivered| < |ops[o].ids|
            && Good(ops[o := ops[o].(delivered := ops[o].delivered + {id})], respWait - {id}, failed)
  {
    hide Good, Owned, Waiting, IdSet;
    var o := respWait[id];
    OpAt(ops, respWait, failed, id);
    WaitingWithout(respWait, id, o);
    FewerThan(ops[o].delivered, IdSet(ops[o].ids), id);
    GoodAnswer(ops, respWait, failed, id, ops[o].(delivered := ops[o].delivered + {id}));
  }

  lemma {:induction false} FewerThan(a: set<Id>, b: set<Id>, id: Id)
    requires a <= b && id in b && id !in a
    ensures |a| < |b|
  {
    SubsetSize(a, b - {id});
  }

  lemma {:induction false} SubsetSize(a: set<Id>, b: set<Id>)
    requires a <= b
    ensures |a| <= |b|
  {
    if a != {} {
      var x :| x in a;
      SubsetSize(a - {x}, b - {x});
    }
  }

  lemma {:induction false} GoodSubAnswer(ops: map<OpId, RequestOp>, respWait: map<Id, OpId>, failed: set<OpId>, id: Id,
                      err: Option<Failure>)
    requires Good(ops, respWait, failed) && id in respWait && respWait[id] in ops && ops[respWait[id]].isSub
    ensures var o := respWait[id];
            && !ops[o].closed
            && Good(ops[o := ops[o].(closed := true, err := err)], respWait - {id}, failed)
  {
    hide Good, Owned, Waiting;
    var o := respWait[id];
    OpAt(ops, respWait, failed, id);
    WaitingWithout(respWait, id, o);
    assert Waiting(respWait, o) <= IdSet(ops[o].ids) == {ops[o].ids[0]};
    GoodAnswer(ops, respWait, failed, id, ops[o].(closed := true, err := err));
  }

  lemma {:induction false} GoodSendFailed(ops: map<OpId, RequestOp>, respWait: map<Id, OpId>, failed: set<OpId>,
      o: OpId)
    requires Good(ops, respWait, failed) && o in ops
    ensures Good(ops, respWait - IdSet(ops[o].ids), failed + {o})
  {
    var wait' := respWait - IdSet(ops[o].ids);
    forall p | p in ops ensures OpOk(wait', ops[p], p, p in failed + {o}) {
      if p == o {
        assert Waiting(wait', p) == {};
      } else {
        assert Waiting(wait', p) == Waiting(respWait, p);
      }
    }
  }

  /** Ops closed when everything pending is given up. */
  ghost function CloseAll(ops: map<OpId, RequestOp>, respWait: map<Id, OpId>, err: Failure): map<OpId, RequestOp> {
    map o | o in ops :: if Waiting(respWait, o) != {} then ops[o].(closed := true, err := Some(err)) else ops[o]
  }

  /** Exactly these ops have been closed. */
  ghost predicate ClosedThese(ops0: map<OpId, RequestOp>, ops: map<OpId, RequestOp>, these: set<OpId>, err: Failure) {
    && ops.Keys == ops0.Keys
    && forall o | o in ops0 :: ops[o] == if o in these then ops0[o].(closed := true, err := Some(err)) else ops0[o]
  }

  /** What is left to walk, and what leaving it off means for the ops. */
  ghost predicate Walked(wait0: map<Id, OpId>, wait: map<Id, OpId>, these: set<OpId>) {
    && (forall id | id in wait :: id in wait0 && wait[id] == wait0[id])
    && (forall id | id in wait0 && id !in wait :: wait0[id] in these)
    && (forall o | o in these :: Waiting(wait0, o) != {})
  }

  lemma {:induction false} NothingWalked(ops: map<OpId, RequestOp>, wait: map<Id, OpId>, err: Failure)
    ensures Walked(wait, wait, {}) && ClosedThese(ops, ops, {}, err)
  {
  }

  lemma {:induction false} WalkedStep(wait0: map<Id, OpId>, wait: map<Id, OpId>, these: set<OpId>, id: Id)
    requires Walked(wait0, wait, these) && id in wait
    ensures Walked(wait0, wait - {id}, these + {wait[id]})
    ensures id in wait0 && wait0[id] == wait[id]
  {
    assert id in Waiting(wait0, wait[id]);
  }

  lemma {:induction false} ClosedTheseStep(ops0: map<OpId, RequestOp>, ops: map<OpId, RequestOp>, these: set<OpId>,
      err: Failure, o: OpId)
    requires ClosedThese(ops0, ops, these, err) && o in ops0 && o !in these
    ensures o in ops && ops[o] == ops0[o]
    ensures ClosedThese(ops0, ops[o := ops[o].(closed := true, err := Some(err))], these + {o}, err)
  {
  }

  lemma {:induction false} WalkedAll(ops0: map<OpId, RequestOp>, ops: map<OpId, RequestOp>, wait0: map<Id, OpId>,
      these: set<OpId>, err: Failure)
    requires ClosedThese(ops0, ops, these, err) && Walked(wait0, map[], these)
    ensures ops == CloseAll(ops0, wait0, err)
  {
    forall o | o in ops0 ensures o in these <==> Waiting(wait0, o) != {} {
      if Waiting(wait0, o) != {} { var id :| id in Waiting(wait0, o); }
    }
  }

  lemma {:induction false} FewerKeys(wait: map<Id, OpId>, id: Id)
    requires id in wait
    ensures |wait - {id}| == |wait| - 1
  {
    assert (wait - {id}).Keys == wait.Keys - {id};
  }

  /** An op some id waits for is known and its channel is still open. */
  lemma {:induction false} WaitedOp(ops: map<OpId, RequestOp>, respWait: map<Id, OpId>, failed: set<OpId>, id: Id)
    requires Good(ops, respWait, failed) && id in respWait
    ensures respWait[id] in ops && !ops[respWait[id]].closed && Waiting(respWait, respWait[id]) != {}
  {
    var o := respWait[id];
    assert OpOk(respWait, ops[o], o, o in failed);
    assert id in Waiting(respWait, o);
  }

  lemma {:induction false} GoodCloseAll(ops: map<OpId, RequestOp>, respWait: map<Id, OpId>, failed: set<OpId>,
      err: Failure)
    requires Good(ops, respWait, failed)
    ensures Good(CloseAll(ops, respWait, err), map[], failed)
    ensures forall o | o in ops :: Settled(CloseAll(ops, respWait, err)[o], o in failed)
  {
    var ops' := CloseAll(ops, respWait, err);
    forall o | o in ops' ensures OpOk(map[], ops'[o], o, o in failed) && Settled(ops'[o], o in failed) {
      assert OpOk(respWait, ops[o], o, o in failed);
      assert Waiting(map[], o) == {};
      if ops[o].isSub { assert ops[o].ids[0] in IdSet(ops[o].ids); }
    }
  }

  // ----- the loop as a state machine -----

  /** Everything the loop knows: lastOp, and listening while requestOpLock is not nil. On the senders' side,
      sending is the accepted op whose sender has not reported yet, and failed are those that reported an error. */
  datatype Loop = Loop(
    ops: map<OpId, RequestOp>, respWait: map<Id, OpId>, subs: map<nat, OpId>,
    lastOp: Option<OpId>, listening: bool, reading: bool, quit: bool,
    sending: Option<OpId>, failed: set<OpId>)

  /** In particular lastOp is set whenever a sender may report. */
  ghost predicate GoodLoop(t: Loop) {
    && Good(t.ops, t.respWait, t.failed)
    && t.lastOp == t.sending && (t.listening <==> t.sending.None?)
    && (t.sending.Some? ==> t.sending.value in t.ops)
  }

  ghost predicate AllSettled(t: Loop) {
    t.respWait == map[] && forall o | o in t.ops :: Settled(t.ops[o], o in t.failed)
  }

  /** Why a subscription request fails, if it does. */
  function SubError(msg: Message): (e: Option<Failure>)
    requires msg.Response?
  {
    if msg.serverError then Some(ServerError) else if msg.subid.None? then Some(BadResult) else None
  }

  /** One message: an awaited response is forwarded, or ends the wait of a subscription; anything else is dropped. */
  function Respond(t: Loop, msg: Message): (t': Loop) {
    if !msg.Response? || msg.id !in t.respWait || t.respWait[msg.id] !in t.ops then t
    else
      var o := t.respWait[msg.id];
      var r := t.ops[o];
      var wait := t.respWait - {msg.id};
      if !r.isSub then t.(respWait := wait, ops := t.ops[o := r.(delivered := r.delivered + {msg.id})])
      else
        var err := SubError(msg);
        t.(respWait := wait, ops := t.ops[o := r.(closed := true, err := err)],
           subs := if err.None? then t.subs[msg.subid.value := o] else t.subs)
  }

  function RespondAll(t: Loop, messages: seq<Message>): (t': Loop) {
    if |messages| == 0 then t
    else Respond(RespondAll(t, messages[..|messages| - 1]), messages[|messages| - 1])
  }

  /** Everything pending is given up. */
  ghost function GiveUp(t: Loop, err: Failure): Loop {
    t.(ops := CloseAll(t.ops, t.respWait, err), respWait := map[], subs := map[])
  }

  /** What can happen next: the send lock admits one sender at a time, ids are fresh, a report follows an accept. */
  predicate Can(t: Loop, e: Event) {
    match e
    case Close => true
    case Batch(_) => t.reading
    case ReadErr => t.reading
    case Reconnected => true
    case Request(o, ids, isSub) =>
      t.listening && o !in t.ops && FreshIds(t.ops, ids) && Distinct(ids) && (isSub ==> |ids| == 1)
    case SendDone(_) => t.sending.Some?
  }

  ghost function SentOff(t: Loop, error: bool): Loop
    requires GoodLoop(t) && t.sending.Some?
  {
    var o := t.lastOp.value;
    var t' := t.(lastOp := None, listening := true, sending := None);
    if error then t'.(respWait := t.respWait - IdSet(t.ops[o].ids), failed := t.failed + {o}) else t'
  }

  ghost function Next(t: Loop, e: Event): (t': Loop)
    requires GoodLoop(t) && Can(t, e)
  {
    match e
    case Close => GiveUp(t, ClientQuit).(quit := true)
    case Batch(messages) => RespondAll(t, messages)
    case ReadErr => GiveUp(t, ReadFailed).(reading := false)
    case Reconnected => t.(reading := true)
    case Request(o, ids, isSub) =>
      t.(ops := t.ops[o := RequestOp(ids, isSub, {}, false, None)], respWait := Registered(t.respWait, ids, o),
         lastOp := Some(o), listening := false, sending := Some(o))
    case SendDone(error) => SentOff(t, error)
  }

  /** A response finds its channel open and with room, and leaves the tables good. */
  lemma {:induction false} RespondGood(t: Loop, msg: Message)
    requires GoodLoop(t)
    ensures GoodLoop(Respond(t, msg))
    ensures Respond(t, msg).ops.Keys == t.ops.Keys
    ensures var t' := Respond(t, msg);
            t' == t.(ops := t'.ops, respWait := t'.respWait, subs := t'.subs)
  {
    hide Good;
    if msg.Response? && msg.id in t.respWait {
      WaitedOp(t.ops, t.respWait, t.failed, msg.id);
      if t.ops[t.respWait[msg.id]].isSub {
        GoodSubAnswer(t.ops, t.respWait, t.failed, msg.id, SubError(msg));
      } else {
        GoodDeliver(t.ops, t.respWait, t.failed, msg.id);
      }
    }
  }

  lemma {:induction false} RespondAllGood(t: Loop, messages: seq<Message>)
    requires GoodLoop(t)
    ensures GoodLoop(RespondAll(t, messages)) && RespondAll(t, messages).ops.Keys == t.ops.Keys
    ensures RespondAll(t, messages).failed == t.failed && RespondAll(t, messages).quit == t.quit
  {
    hide Respond, GoodLoop;
    if |messages| > 0 {
      RespondAllGood(t, messages[..|messages| - 1]);
      RespondGood(RespondAll(t, messages[..|messages| - 1]), messages[|messages| - 1]);
    }
  }

  /** Every event keeps the tables good; Close and a broken connection leave every accepted op settled. */
  lemma {:induction false} NextGood(t: Loop, e: Event)
    requires GoodLoop(t) && Can(t, e) && !t.quit
    ensures GoodLoop(Next(t, e)) && t.ops.Keys <= Next(t, e).ops.Keys && t.failed <= Next(t, e).failed
    ensures Next(t, e).quit <==> e.Close?
    ensures e.Close? || e.ReadErr? ==> AllSettled(Next(t, e))
  {
    hide Good, Settled, RespondAll, Registered, FreshIds, Distinct;
    match e
    case Close => GoodCloseAll(t.ops, t.respWait, t.failed, ClientQuit);
    case Batch(messages) => RespondAllGood(t, messages);
    case ReadErr => GoodCloseAll(t.ops, t.respWait, t.failed, ReadFailed);
    case Reconnected =>
    case Request(o, ids, isSub) => GoodAccept(t.ops, t.respWait, t.failed, o, ids, isSub);
    case SendDone(error) => if error { GoodSendFailed(t.ops, t.respWait, t.failed, t.sending.value); }
  }

  // ----- who gets what -----

  /** The ids a batch has responses for. */
  ghost function IdsOf(messages: seq<Message>): set<Id> {
    set m | m in messages && m.Response? :: m.id
  }

  /** A response to a waiting id reaches the op it waits for: it is delivered, or ends the wait of a subscription, with
      an error unless the server sent an id for it. The id waits no longer, and no other id or op notices. Any other
      message changes nothing. */
  lemma {:induction false} RespondLaw(t: Loop, msg: Message)
    requires GoodLoop(t)
    ensures var t' := Respond(t, msg);
            if !msg.Response? || msg.id !in t.respWait then t' == t
            else
              var o := t.respWait[msg.id];
              && o in t.ops && t'.ops.Keys == t.ops.Keys
              && t'.respWait == t.respWait - {msg.id}
              && (forall p | p in t.ops && p != o :: t'.ops[p] == t.ops[p])
              && (if t.ops[o].isSub
                  then && t'.ops[o] == t.ops[o].(closed := true, err := t'.ops[o].err)
                       && (t'.ops[o].err.None? <==> !msg.serverError && msg.subid.Some?)
                       && (t'.ops[o].err.Some? ==>
                             && t'.subs == t.subs
                             && t'.ops[o].err.value == if msg.serverError then ServerError else BadResult)
                       && (t'.ops[o].err.None? ==> t'.subs == t.subs[msg.subid.value := o])
                  else && t'.ops[o] == t.ops[o].(delivered := t.ops[o].delivered + {msg.id})
                       && t'.subs == t.subs)
  {
    hide Good;
    if msg.Response? && msg.id in t.respWait { WaitedOp(t.ops, t.respWait, t.failed, msg.id); }
  }

  /** What an op gets from a batch: a response for each of its waiting ids that the batch answers, or for a
      subscription the end of its wait if its id is answered. */
  ghost predicate Served(before: RequestOp, answered: set<Id>, after: RequestOp) {
    && after.ids == before.ids && after.isSub == before.isSub
    && (if before.isSub
        then after.delivered == before.delivered && (after.closed <==> before.closed || answered != {})
             && (answered == {} ==> after.err == before.err)
        else after == before.(delivered := before.delivered + answered))
  }

  lemma {:induction false} RespondServes(t: Loop, msg: Message, o: OpId)
    requires GoodLoop(t) && o in t.ops
    ensures var t' := Respond(t, msg);
            && o in t'.ops && Served(t.ops[o], Waiting(t.respWait, o) * IdsOf([msg]), t'.ops[o])
            && t'.respWait == t.respWait - IdsOf([msg])
  {
    hide GoodLoop, Respond;
    RespondLaw(t, msg);
    assert IdsOf([msg]) == (if msg.Response? then {msg.id} else {}) by { assert msg in [msg]; }
    var both := Waiting(t.respWait, o) * IdsOf([msg]);
    if msg.Response? && msg.id in t.respWait {
      assert both == if t.respWait[msg.id] == o then {msg.id} else {};
    } else {
      assert both == {};
    }
  }

  lemma {:induction false} ServedTwice(a: RequestOp, x: set<Id>, b: RequestOp, y: set<Id>, c: RequestOp)
    requires Served(a, x, b) && Served(b, y, c)
    ensures Served(a, x + y, c)
  {
    assert a.delivered + x + y == a.delivered + (x + y);
  }

  lemma {:induction false} IdsOfLast(messages: seq<Message>)
    requires |messages| > 0
    ensures IdsOf(messages) == IdsOf(messages[..|messages| - 1]) + IdsOf([messages[|messages| - 1]])
  {
    assert messages == messages[..|messages| - 1] + [messages[|messages| - 1]];
  }

  lemma {:induction false} WaitingRest(respWait: map<Id, OpId>, o: OpId, x: set<Id>, y: set<Id>)
    ensures Waiting(respWait, o) * x + Waiting(respWait - x, o) * y == Waiting(respWait, o) * (x + y)
  {
  }

  /** A whole batch, whatever order its messages come in. */
  lemma {:induction false} BatchServes(t: Loop, messages: seq<Message>, o: OpId)
    requires GoodLoop(t) && o in t.ops
    ensures var t' := RespondAll(t, messages);
            && o in t'.ops && Served(t.ops[o], Waiting(t.respWait, o) * IdsOf(messages), t'.ops[o])
            && t'.respWait == t.respWait - IdsOf(messages)
  {
    hide Respond, GoodLoop, Waiting, Served, IdsOf;
    if |messages| > 0 {
      var n := |messages| - 1;
      var u, x, y := RespondAll(t, messages[..n]), IdsOf(messages[..n]), IdsOf([messages[n]]);
      BatchServes(t, messages[..n], o);
      RespondAllGood(t, messages[..n]);
      RespondServes(u, messages[n], o);
      IdsOfLast(messages);
      WaitingRest(t.respWait, o, x, y);
      ServedTwice(t.ops[o], Waiting(t.respWait, o) * x, u.ops[o], Waiting(u.respWait, o) * y,
                  RespondAll(t, messages).ops[o]);
      assert t.respWait - x - y == t.respWait - (x + y);
    } else {
      NoneServed(t, o);
    }
  }

  lemma {:induction false} NoneServed(t: Loop, o: OpId)
    requires o in t.ops
    ensures IdsOf([]) == {} && t.respWait - {} == t.respWait
    ensures Served(t.ops[o], Waiting(t.respWait, o) * {}, t.ops[o])
  {
    assert Waiting(t.respWait, o) * {} == {};
    assert t.ops[o].delivered + {} == t.ops[o].delivered;
  }

  /** The ids of o that an event answers. */
  ghost function AnsweredBy(t: Loop, e: Event, o: OpId): set<Id> {
    if e.Batch? then Waiting(t.respWait, o) * IdsOf(e.messages) else {}
  }

  ghost function DeliveredTo(t: Loop, o: OpId): set<Id> {
    if o in t.ops then t.ops[o].delivered else {}
  }

  /** Only a batch delivers, and it delivers exactly what it answers. */
  lemma {:induction false} NextDelivers(t: Loop, e: Event, o: OpId)
    requires GoodLoop(t) && Can(t, e) && o in Next(t, e).ops && !Next(t, e).ops[o].isSub
    ensures Next(t, e).ops[o].delivered == DeliveredTo(t, o) + AnsweredBy(t, e, o)
    ensures o in t.ops ==> !t.ops[o].isSub
    ensures o !in t.ops ==> Waiting(t.respWait, o) == {}
  {
    hide Good, Waiting, RespondAll, Registered, FreshIds, Distinct, IdsOf;
    if e.Batch? {
      RespondAllGood(t, e.messages);
      BatchServes(t, e.messages, o);
    }
    if o !in t.ops { NoneWaits(t, o); }
  }

  lemma {:induction false} NoneWaits(t: Loop, o: OpId)
    requires GoodLoop(t) && o !in t.ops
    ensures Waiting(t.respWait, o) == {}
  {
  }

  ghost predicate StillWaits(respWait: map<Id, OpId>, o: OpId) {
    exists id :: id in respWait && respWait[id] == o
  }

  lemma {:induction false} CloseAllLaw(t: Loop, err: Failure, o: OpId)
    requires GoodLoop(t) && o in t.ops
    ensures var r := CloseAll(t.ops, t.respWait, err)[o];
            && (StillWaits(t.respWait, o) <==> r != t.ops[o])
            && (StillWaits(t.respWait, o) ==> r == t.ops[o].(closed := true, err := Some(err)))
  {
    hide Good, OpOk;
    if StillWaits(t.respWait, o) {
      var id :| id in t.respWait && t.respWait[id] == o;
      WaitedOp(t.ops, t.respWait, t.failed, id);
    }
  }

  /** What the two ways to give up do: each op that still waits is closed with the error, no other op is touched, and
      nothing waits any more. */
  lemma {:induction false} GiveUpLaw(t: Loop, e: Event, o: OpId)
    requires GoodLoop(t) && Can(t, e) && (e.Close? || e.ReadErr?) && o in t.ops
    ensures var t' := Next(t, e);
            && t' == t.(ops := t'.ops, respWait := map[], subs := map[], quit := t.quit || e.Close?,
                        reading := t.reading && e.Close?)
            && t'.ops.Keys == t.ops.Keys
            && (StillWaits(t.respWait, o) <==> t'.ops[o] != t.ops[o])
            && (StillWaits(t.respWait, o) ==>
                  t'.ops[o] == t.ops[o].(closed := true, err := Some(if e.Close? then ClientQuit else ReadFailed)))
  {
    hide GoodLoop, StillWaits, Waiting;
    CloseAllLaw(t, if e.Close? then ClientQuit else ReadFailed, o);
  }

  /** What the senders' events do: a request waits for every one of its ids and holds the send lock; its report frees
      the lock, and only an error ends the wait of the ids it had. A new connection is read from. */
  lemma {:induction false} SenderLaw(t: Loop, e: Event, id: Id)
    requires GoodLoop(t) && Can(t, e)
    ensures e.Reconnected? ==> Next(t, e) == t.(reading := true)
    ensures var t' := Next(t, e);
            e.Request? || e.SendDone? ==>
            && t' == t.(ops := t'.ops, respWait := t'.respWait, lastOp := t'.lastOp, listening := t'.listening,
                        sending := t'.sending, failed := t'.failed)
            && (e.Request? ==>
                  && t'.ops == t.ops[e.op := RequestOp(e.ids, e.isSub, {}, false, None)] && t'.failed == t.failed
                  && !t'.listening && t'.sending == Some(e.op)
                  && (id in t'.respWait <==> id in t.respWait || id in e.ids)
                  && (id in t'.respWait ==> t'.respWait[id] == if id in e.ids then e.op else t.respWait[id]))
            && (e.SendDone? ==>
                  var o := t.sending.value;
                  && t'.ops == t.ops && t'.listening && t'.sending.None?
                  && t'.failed == (if e.failed then t.failed + {o} else t.failed)
                  && (id in t'.respWait <==> id in t.respWait && !(e.failed && t.respWait[id] == o))
                  && (id in t'.respWait ==> t'.respWait[id] == t.respWait[id]))
  {
    if e.Request? {
      RegisteredAt(t.respWait, e.ids, e.op);
    } else if e.SendDone? && id in t.respWait {
      OwnIds(t.ops, t.respWait, id, t.sending.value);
    }
  }

  /** A waiting id belongs to the op it waits for, and to no other. */
  lemma {:induction false} OwnIds(ops: map<OpId, RequestOp>, respWait: map<Id, OpId>, id: Id, o: OpId)
    requires Owned(ops, respWait) && id in respWait && o in ops
    ensures id in IdSet(ops[o].ids) <==> respWait[id] == o
  {
  }

  /** A run: each event taken if it can happen, until the loop quits. */
  ghost function After(t: Loop, events: seq<Event>): (t': Loop)
    requires GoodLoop(t)
    ensures GoodLoop(t')
  {
    if |events| == 0 then t
    else
      var u := After(t, events[..|events| - 1]);
      var e := events[|events| - 1];
      if u.quit || !Can(u, e) then u else (NextGood(u, e); Next(u, e))
  }

  /** Over every interleaving: once Close has come, the loop has quit and every accepted op is settled. */
  lemma {:induction false} RunSettles(t: Loop, events: seq<Event>)
    requires GoodLoop(t) && !t.quit
    ensures After(t, events).quit <==> Close in events
    ensures After(t, events).quit ==> AllSettled(After(t, events))
    ensures t.ops.Keys <= After(t, events).ops.Keys && t.failed <= After(t, events).failed
  {
    hide GoodLoop, Next, AllSettled;
    if |events| > 0 {
      var n := |events| - 1;
      RunSettles(t, events[..n]);
      assert events == events[..n] + [events[n]];
      var u := After(t, events[..n]);
      if !u.quit && Can(u, events[n]) { NextGood(u, events[n]); }
    }
  }

  /** The ids of o that were answered while they waited. */
  ghost function Answered(t: Loop, events: seq<Event>, o: OpId): set<Id>
    requires GoodLoop(t)
  {
    if |events| == 0 then {}
    else
      var u := After(t, events[..|events| - 1]);
      var e := events[|events| - 1];
      Answered(t, events[..|events| - 1], o) + if u.quit || !Can(u, e) then {} else AnsweredBy(u, e, o)
  }

  /** Over every interleaving: no response is lost, invented or given to another. A request has been delivered
      exactly the ids of its own that were answered while they waited. */
  lemma {:induction false} RunDelivers(t: Loop, events: seq<Event>, o: OpId)
    requires GoodLoop(t) && o in After(t, events).ops && !After(t, events).ops[o].isSub
    ensures After(t, events).ops[o].delivered == DeliveredTo(t, o) + Answered(t, events, o)
  {
    hide GoodLoop, Next, Can, AnsweredBy;
    if |events| > 0 {
      var n := |events| - 1;
      var u := After(t, events[..n]);
      if !u.quit && Can(u, events[n]) { NextDelivers(u, events[n], o); }
      if o in u.ops {
        RunDelivers(t, events[..n], o);
      } else {
        NotYetKnown(t, events[..n], o);
      }
    }
  }

  /** An op that is not known yet has been answered nothing. */
  lemma {:induction false} NotYetKnown(t: Loop, events: seq<Event>, o: OpId)
    requires GoodLoop(t) && o !in After(t, events).ops
    ensures o !in t.ops && Answered(t, events, o) == {}
  {
    hide GoodLoop, Next, Can;
    if |events| > 0 {
      var n := |events| - 1;
      var u := After(t, events[..n]);
      if !u.quit && Can(u, events[n]) { NextGood(u, events[n]); }
      NotYetKnown(t, events[..n], o);
      NoneWaits(u, o);
    }
  }

  // ----- the loop in place -----

  class Client {
    var ops: map<OpId, RequestOp>
    var respWait: map<Id, OpId>
    var subs: map<nat, OpId>
    var lastOp: Option<OpId>
    var listening: bool              // requestOpLock is not nil
    var reading: bool
    var quit: bool
    var sending: Option<OpId>        // the senders' side
    ghost var failed: set<OpId>

    ghost function View(): Loop
      reads this
    {
      Loop(ops, respWait, subs, lastOp, listening, reading, quit, sending, failed)
    }

    ghost predicate Valid()
      reads this
    {
      GoodLoop(View())
    }

    constructor ()
      ensures Valid() && View() == Loop(map[], map[], map[], None, true, true, false, None, {})
    {
      ops, respWait, subs, lastOp, listening, reading, quit := map[], map[], map[], None, true, true, false;
      sending, failed := None, {};
    }

    /** A send on the response channel: it must be open and have room, or the loop would panic or block. */
    method Deliver(o: OpId, id: Id)
      requires o in ops && !ops[o].closed && !ops[o].isSub
      requires id !in ops[o].delivered && |ops[o].delivered| < |ops[o].ids|
      modifies this`ops
      ensures ops == old(ops)[o := old(ops[o]).(delivered := old(ops[o].delivered) + {id})]
    {
      ops := ops[o := ops[o].(delivered := ops[o].delivered + {id})];
    }

    /** Closing the response channel: closing it twice would panic. */
    method CloseResp(o: OpId, err: Option<Failure>)
      requires o in ops && !ops[o].closed
      modifies this`ops
      ensures ops == old(ops)[o := old(ops[o]).(closed := true, err := err)]
    {
      ops := ops[o := ops[o].(closed := true, err := err)];
    }

    /** A new op registers all its ids and takes the send lock. */
    method Accept(o: OpId, ids: seq<Id>, isSub: bool)
      requires Valid() && Can(View(), Request(o, ids, isSub))
      modifies this
      ensures View() == Next(old(View()), Request(o, ids, isSub))
    {
      hide GoodLoop, FreshIds, Distinct;
      listening := false;
      lastOp, sending := Some(o), Some(o);
      ops := ops[o := RequestOp(ids, isSub, {}, false, None)];
      for k := 0 to |ids|
        invariant ops == old(ops)[o := RequestOp(ids, isSub, {}, false, None)]
        invariant View() == old(View()).(ops := ops, respWait := respWait, lastOp := Some(o), listening := false,
                                         sending := Some(o))
        invariant respWait == Registered(old(respWait), ids[..k], o)
      {
        assert ids[..k + 1][..k] == ids[..k];
        respWait := respWait[ids[k] := o];
      }
      assert ids[..|ids|] == ids;
    }

    /** The sender reports; on an error nobody waits for its ids any more. */
    method Done(error: bool)
      requires Valid() && Can(View(), SendDone(error))
      modifies this
      ensures View() == Next(old(View()), SendDone(error))
    {
      hide Good;
      if error {
        var ids := ops[lastOp.value].ids;
        for k := 0 to |ids|
          invariant View() == old(View()).(respWait := respWait)
          invariant respWait == old(respWait) - IdSet(ids[..k])
        {
          assert IdSet(ids[..k + 1]) == IdSet(ids[..k]) + {ids[k]};
          respWait := respWait - {ids[k]};
        }
        assert ids[..|ids|] == ids;
        failed := failed + {lastOp.value};
      }
      listening := true;
      lastOp, sending := None, None;
    }

    method HandleResponse(msg: Message)
      requires Valid() && msg.Response?
      modifies this
      ensures Valid() && View() == Respond(old(View()), msg)
    {
      hide Good;
      RespondGood(View(), msg);
      if msg.id !in respWait {
        return;
      }
      var o := respWait[msg.id];
      WaitedOp(ops, respWait, failed, msg.id);
      if !ops[o].isSub {
        GoodDeliver(ops, respWait, failed, msg.id);
        respWait := respWait - {msg.id};
        Deliver(o, msg.id);
        return;
      }
      var err := SubError(msg);
      respWait := respWait - {msg.id};
      if err.None? {
        subs := subs[msg.subid.value := o];
      }
      CloseResp(o, err);
    }

    /** Gives up on everything pending: each waiting op's channel is closed once, in whatever order they come. */
    method CloseRequestOps(err: Failure)
      requires Good(ops, respWait, failed)
      modifies this`ops, this`respWait, this`subs
      ensures ops == CloseAll(old(ops), old(respWait), err) && respWait == map[] && subs == map[]
    {
      hide Good, Waiting, CloseAll, Walked, ClosedThese;
      ghost var ops0, wait0 := ops, respWait;
      var didClose: set<OpId> := {};
      NothingWalked(ops, respWait, err);
      while |respWait| > 0
        invariant Walked(wait0, respWait, didClose) && ClosedThese(ops0, ops, didClose, err)
        decreases |respWait|
      {
        var id :| id in respWait;
        var o := respWait[id];
        WalkedStep(wait0, respWait, didClose, id);
        WaitedOp(ops0, wait0, failed, id);
        FewerKeys(respWait, id);
        respWait := respWait - {id};
        if o in didClose {
          assert didClose + {o} == didClose;
        } else {
          ClosedTheseStep(ops0, ops, didClose, err, o);
          CloseResp(o, Some(err));
          didClose := didClose + {o};
        }
      }
      assert respWait == map[];
      WalkedAll(ops0, ops, wait0, didClose, err);
      subs := map[];
    }

    method HandleBatch(messages: seq<Message>)
      requires Valid()
      modifies this
      ensures Valid() && View() == RespondAll(old(View()), messages)
    {
      hide GoodLoop, Respond;
      for i := 0 to |messages|
        invariant Valid() && View() == RespondAll(old(View()), messages[..i])
      {
        assert messages[..i + 1][..i] == messages[..i];
        if messages[i].Response? {
          HandleResponse(messages[i]);
        } else {
          DropsOthers(View(), messages[i]);
        }
      }
      assert messages[..|messages|] == messages;
    }

    /** One turn of the select. */
    method Handle(e: Event)
      requires Valid() && !quit && Can(View(), e)
      modifies this
      ensures Valid() && View() == Next(old(View()), e)
    {
      hide Good, RespondAll, Registered, CloseAll, FreshIds, Distinct;
      NextGood(View(), e);
      match e
      case Close =>
        CloseRequestOps(ClientQuit);
        quit := true;
      case Batch(messages) => HandleBatch(messages);
      case ReadErr =>
        CloseRequestOps(ReadFailed);
        reading := false;
      case Reconnected => reading := true;
      case Request(o, ids, isSub) => Accept(o, ids, isSub);
      case SendDone(error) => Done(error);
    }

    /** The loop over any interleaving of events: when it quits every accepted op is settled. */
    method Run(events: seq<Event>)
      requires Valid() && !quit
      modifies this
      ensures Valid() && View() == After(old(View()), events)
      ensures quit <==> Close in events
      ensures quit ==> AllSettled(View())
      ensures forall o | o in ops && !ops[o].isSub ::
                ops[o].delivered == DeliveredTo(old(View()), o) + Answered(old(View()), events, o)
    {
      hide GoodLoop, Next, AllSettled, Can;
      ghost var t := View();
      for i := 0 to |events|
        invariant Valid() && View() == After(t, events[..i])
      {
        assert events[..i + 1][..i] == events[..i];
        if !quit {
          var can := Enabled(events[i]);
          if can { Handle(events[i]); }
        }
      }
      assert events[..|events|] == events;
      RunSettles(t, events);
      forall o | o in ops && !ops[o].isSub ensures ops[o].delivered == DeliveredTo(t, o) + Answered(t, events, o) {
        RunDelivers(t, events, o);
      }
    }

    /** Whether the event can happen now: which channels the select listens on, and what its senders promise. */
    method Enabled(e: Event) returns (b: bool)
      requires Valid()
      ensures b <==> Can(View(), e)
    {
      hide FreshIds, Distinct;
      match e
      case Close => b := true;
      case Batch(_) => b := reading;
      case ReadErr => b := reading;
      case Reconnected => b := true;
      case Request(o, ids, isSub) =>
        b := listening && o !in ops && FreshIds(ops, ids) && Distinct(ids) && (isSub ==> |ids| == 1);
      case SendDone(_) => b := sending.Some?;
    }
  }

  lemma {:induction false} DropsOthers(t: Loop, msg: Message)
    requires !msg.Response?
    ensures Respond(t, msg) == t
  {
  }
}
