/**
 Requests and replies of the native configuration client. Callers, the reply handler, cancellation and
 time-outs interleave; each step is one section under the lock or one read of shared state.
 */
module ConfigRequests {
  import opened Options

  datatype Packet = Packet(id: nat, payload: int)

  /** What a promise was fulfilled with. */
  datatype Result = Reply(packet: Packet) | Failed(error: int)

  // ---------- The table of pending requests ----------

  /** The ids in replyPackets, and for each promise ever made what it was fulfilled with. */
  datatype Table = Table(pending: set<nat>, promises: map<nat, Option<Result>>)

  /** A pending promise exists and is unfulfilled, so that setting it does not throw. */
  ghost predicate ValidTable(t: Table)
  {
    forall id :: id in t.pending ==> id in t.promises && t.promises[id] == None
  }

  function Registered(t: Table, id: nat): Table { Table(t.pending + {id}, t.promises[id := None]) }

  function Unregistered(t: Table, id: nat): Table { Table(t.pending - {id}, t.promises) }

  function Delivered(t: Table, packet: Packet): Table
  {
    if packet.id in t.pending then Table(t.pending - {packet.id}, t.promises[packet.id := Some(Reply(packet))]) else t
  }

  function Cancelled(t: Table, error: int): Table
  {
    Table({}, map id | id in t.promises :: if id in t.pending then Some(Failed(error)) else t.promises[id])
  }

  /** The fields of NativeDeviceHelper that requestReplySync guards. */
  class ReplyTable {
    var replyPackets: set<nat>
    var promises: map<nat, Option<Result>>

    ghost function Now(): Table
      reads this
    {
      Table(replyPackets, promises)
    }

    constructor ()
      ensures Now() == Table({}, map[])
    {
      replyPackets, promises := {}, map[];
    }

    /** promise::set_value and set_exception throw on a promise already fulfilled. */
    method Fulfil(id: nat, r: Result)
      requires id in promises && promises[id] == None
      modifies this`promises
      ensures promises == old(promises)[id := Some(r)]
    {
      promises := promises[id := Some(r)];
    }

    method RegisterConfigRequest(requestId: nat)
      requires ValidTable(Now()) && requestId !in promises
      modifies this
      ensures Now() == Registered(old(Now()), requestId) && ValidTable(Now())
      ensures replyPackets == old(replyPackets) + {requestId} && promises == old(promises)[requestId := None]
    {
      replyPackets := replyPackets + {requestId};
      promises := promises[requestId := None];
    }

    method UnregisterConfigRequest(requestId: nat)
      requires ValidTable(Now())
      modifies this
      ensures Now() == Unregistered(old(Now()), requestId) && ValidTable(Now())
      ensures replyPackets == old(replyPackets) - {requestId} && promises == old(promises)
    {
      replyPackets := replyPackets - {requestId};
    }

    method CancelPendingConfigRequests(error: int)
      requires ValidTable(Now())
      modifies this
      ensures Now() == Cancelled(old(Now()), error) && ValidTable(Now())
      ensures replyPackets == {} && promises.Keys == old(promises).Keys
      ensures forall id :: id in promises ==>
                promises[id] == if id in old(replyPackets) then Some(Failed(error)) else old(promises)[id]
    {
      ghost var before := Now();
      while replyPackets != {}
        invariant replyPackets <= before.pending && ValidTable(Now()) && promises.Keys == before.promises.Keys
        invariant forall id :: id in promises ==>
                    promises[id] == if id in before.pending
                        && id !in replyPackets then Some(Failed(error)) else before.promises[id]
      {
        var id :| id in replyPackets;
        Fulfil(id, Failed(error));
        replyPackets := replyPackets - {id};
      }
    }

    /** processConfigPacket for a packet that is no notification. */
    method ProcessReply(packet: Packet)
      requires ValidTable(Now())
      modifies this
      ensures Now() == Delivered(old(Now()), packet) && ValidTable(Now())
      ensures packet.id in old(replyPackets) ==>
                replyPackets == old(replyPackets) - {packet.id}
                    && promises == old(promises)[packet.id := Some(Reply(packet))]
      ensures packet.id !in old(replyPackets) ==> replyPackets == old(replyPackets) && promises == old(promises)
    {
      if packet.id in replyPackets {
        Fulfil(packet.id, Reply(packet));
        replyPackets := replyPackets - {packet.id};
      }
    }
  }

  // ---------- Callers ----------

  datatype Outcome = Replied(packet: Packet) | CancelledBy(error: int) | ConnectionLost | ComponentRemoved | TimedOut

  /** Where a call of doConfigRequestAndGetReply stands, in the order of its statements. */
  datatype Caller =
    | Checking(reconnecting: bool)
    | Sending
    | Waiting
    | Dropping(reason: Outcome)
    | DroppingLate
    | Reporting
    | Done(outcome: Outcome)

  /** sent and received are the requests handed to the transport and the replies that came from it. */
  datatype State = State(table: Table, callers: map<nat, Caller>, connected: bool, transport: bool, sent: set<nat>,
      received: set<Packet>)

  datatype Step =
    | Register(id: nat, reconnecting: bool)
    | Check(id: nat)
    | Send(id: nat)
    | Get(id: nat)
    | Expire(id: nat)
    | Drop(id: nat)
    | Report(id: nat)
    | Receive(packet: Packet)
    | Cancel(error: int)
    | ChangeStatus(connected: bool)
    | RemoveTransport

  predicate At(s: State, id: nat, c: Caller)
  {
    id in s.callers && s.callers[id] == c
  }

  predicate Enabled(s: State, step: Step)
  {
    match step
    case Register(id, _) => id !in s.callers && id !in s.table.promises
    case Check(id) => id in s.callers && s.callers[id].Checking?
    case Send(id) => At(s, id, Sending)
    case Get(id) => At(s, id, Waiting) && id in s.table.promises && s.table.promises[id].Some?
    case Expire(id) => At(s, id, Waiting) && id in s.table.promises && s.table.promises[id].None?
    case Drop(id) => id in s.callers && (s.callers[id].Dropping? || s.callers[id].DroppingLate?)
    case Report(id) => At(s, id, Reporting)
    case Receive(_) => true
    case Cancel(_) => true
    case ChangeStatus(_) => true
    case RemoveTransport => true
  }

  function Moved(s: State, id: nat, c: Caller): State { s.(callers := s.callers[id := c]) }

  function Apply(s: State, step: Step): State
    requires Enabled(s, step)
  {
    match step
    case Register(id, reconnecting) => Moved(s, id, Checking(reconnecting)).(table := Registered(s.table, id))
    case Check(id) =>
      if !s.connected && !s.callers[id].reconnecting then Moved(s, id, Dropping(ConnectionLost))
          else Moved(s, id, Sending)
    case Send(id) => if s.transport then Moved(s, id, Waiting).(sent := s.sent + {id})
        else Moved(s, id, Dropping(ComponentRemoved))
    case Get(id) =>
      (match s.table.promises[id].value
       case Reply(packet) => Moved(s, id, Done(Replied(packet)))
       case Failed(error) => Moved(s, id, Done(CancelledBy(error))))
    case Expire(id) => Moved(s, id, DroppingLate)
    case Drop(id) =>
      Moved(s, id, if s.callers[id].Dropping? then Done(s.callers[id].reason)
          else Reporting).(table := Unregistered(s.table, id))
    case Report(id) => Moved(s, id, Done(if s.connected then TimedOut else ConnectionLost))
    case Receive(packet) => s.(table := Delivered(s.table, packet), received := s.received + {packet})
    case Cancel(error) => s.(table := Cancelled(s.table, error))
    case ChangeStatus(connected) => s.(connected := connected)
    case RemoveTransport => s.(transport := false)
  }

  /** A caller before its outcome is decided. */
  predicate Open(c: Caller) { c.Checking? || c.Sending? || c.Waiting? }

  predicate Finished(c: Caller) { c.Done? || c.Reporting? }

  /** What holds of one request: its caller, its promise and whether it is in the table. */
  predicate CallInv(id: nat, c: Caller, promise: Option<Result>, pending: bool, sent: bool, received: set<Packet>)
  {
    && (pending ==> promise.None? && !Finished(c))
    && (Open(c) && !pending ==> promise.Some?)
    && (promise.Some? && promise.value.Reply? ==> promise.value.packet.id == id && promise.value.packet in received)
    && (c.Dropping? ==> c.reason in {ConnectionLost, ComponentRemoved})
    && (c.Done? ==> Justified(promise, c.outcome))
    && (sent ==> WasSent(c)) && (!sent ==> NotSent(c))
  }

  /** A reply or a cancellation reported is what the promise holds. */
  predicate Justified(promise: Option<Result>, o: Outcome)
  {
    match o
    case Replied(packet) => promise == Some(Reply(packet))
    case CancelledBy(error) => promise == Some(Failed(error))
    case _ => true
  }

  /** Where a call can stand after its request was sent, and where before or without that. */
  predicate WasSent(c: Caller)
  {
    c.Waiting? || c.DroppingLate? || c.Reporting? || (c.Done? && c.outcome != ComponentRemoved)
  }

  predicate NotSent(c: Caller)
  {
    c.Checking? || c.Sending? || c.Dropping? || (c.Done? && c.outcome in {ConnectionLost, ComponentRemoved})
  }

  ghost predicate Inv(s: State)
  {
    && s.callers.Keys == s.table.promises.Keys && s.table.pending <= s.callers.Keys && s.sent <= s.callers.Keys
    && (forall id :: id in s.callers ==>
        CallInv(id, s.callers[id], s.table.promises[id], id in s.table.pending, id in s.sent, s.received))
  }

  /** Promises fulfilled and outcomes reached never change again. */
  ghost predicate Keeps(s: State, t: State)
  {
    && (forall id :: id in s.table.promises && s.table.promises[id].Some? ==>
        id in t.table.promises && t.table.promises[id] == s.table.promises[id])
    && (forall id :: id in s.callers && s.callers[id].Done? ==> id in t.callers && t.callers[id] == s.callers[id])
    && s.received <= t.received
  }

  lemma StepKeeps(s: State, step: Step)
    requires Inv(s) && Enabled(s, step)
    ensures Keeps(s, Apply(s, step))
  {}

  lemma StepInv(s: State, step: Step)
    requires Inv(s) && Enabled(s, step)
    ensures Inv(Apply(s, step))
  {
    hide CallInv;
    var t := Apply(s, step);
    forall id | id in t.callers
      ensures CallInv(id, t.callers[id], t.table.promises[id], id in t.table.pending, id in t.sent, t.received)
    {
      StepCall(s, step, id);
    }
  }

  /** One request over one step. */
  lemma StepCall(s: State, step: Step, id: nat)
    requires Enabled(s, step) && s.callers.Keys == s.table.promises.Keys && s.table.pending <= s.callers.Keys
             && s.sent <= s.callers.Keys
    requires id in s.callers ==>
             CallInv(id, s.callers[id], s.table.promises[id], id in s.table.pending, id in s.sent, s.received)
    requires id in Apply(s, step).callers
    ensures var t := Apply(s, step);
            id in t.table.promises
            && CallInv(id, t.callers[id], t.table.promises[id], id in t.table.pending, id in t.sent, t.received)
  {}

  // ---------- Whole runs ----------

  const INITIAL := State(Table({}, map[]), map[], true, true, {}, {})

  ghost predicate CanRun(s: State, steps: seq<Step>)
    decreases |steps|
  {
    steps == [] || (Enabled(s, steps[0]) && CanRun(Apply(s, steps[0]), steps[1..]))
  }

  ghost function Run(s: State, steps: seq<Step>): State
    requires CanRun(s, steps)
    decreases |steps|
  {
    if steps == [] then s else Run(Apply(s, steps[0]), steps[1..])
  }

  lemma {:induction false} RunKeeps(s: State, steps: seq<Step>)
    requires Inv(s) && CanRun(s, steps)
    ensures Inv(Run(s, steps)) && Keeps(s, Run(s, steps))
    decreases |steps|
  {
    hide Inv, Enabled, Apply;
    if steps != [] {
      StepInv(s, steps[0]);
      StepKeeps(s, steps[0]);
      RunKeeps(Apply(s, steps[0]), steps[1..]);
    }
  }

  lemma {:induction false} RunSplit(s: State, first: seq<Step>, second: seq<Step>)
    requires CanRun(s, first + second)
    ensures CanRun(s, first) && CanRun(Run(s, first), second) && Run(Run(s, first), second) == Run(s, first + second)
    decreases |first|
  {
    hide Enabled, Apply;
    if first == [] {
      assert first + second == second;
    } else {
      assert (first + second)[1..] == first[1..] + second;
      RunSplit(Apply(s, first[0]), first[1..], second);
    }
  }

  /** In every run: nothing finished is pending, every reply reached the request with its id, only calls
      that were refused were not sent, and promises fulfilled and outcomes reached at any point stand. */
  lemma RunsAreSafe(first: seq<Step>, second: seq<Step>)
    requires CanRun(INITIAL, first + second)
    ensures CanRun(INITIAL, first) && Keeps(Run(INITIAL, first), Run(INITIAL, first + second))
    ensures ValidTable(Run(INITIAL, first + second).table)
    ensures var s := Run(INITIAL, first + second);
            forall id :: id in s.callers && s.callers[id].Done? ==>
              id !in s.table.pending &&
              (s.callers[id].outcome.Replied? ==>
                  s.callers[id].outcome.packet.id == id && s.callers[id].outcome.packet in s.received) &&
              (s.callers[id].outcome in {ConnectionLost, ComponentRemoved} || id in s.sent) &&
              (s.callers[id].outcome == ComponentRemoved ==> id !in s.sent)
  {
    hide Enabled, Apply;
    RunSplit(INITIAL, first, second);
    assert Inv(INITIAL);
    RunKeeps(INITIAL, first);
    RunKeeps(Run(INITIAL, first), second);
    var s := Run(INITIAL, first + second);
    forall id | id in s.callers && s.callers[id].Done?
      ensures id !in s.table.pending &&
              (s.callers[id].outcome.Replied? ==>
                  s.callers[id].outcome.packet.id == id && s.callers[id].outcome.packet in s.received) &&
              (s.callers[id].outcome in {ConnectionLost, ComponentRemoved} || id in s.sent) &&
              (s.callers[id].outcome == ComponentRemoved ==> id !in s.sent)
    {
      assert CallInv(id, s.callers[id], s.table.promises[id], id in s.table.pending, id in s.sent, s.received);
    }
  }

  // ---------- Every caller gets its outcome ----------

  /** The number of steps of its own that a caller still has before it. */
  function Left(c: Caller): nat
  {
    match c
    case Checking(_) => 5
    case Sending => 4
    case Waiting => 3
    case Dropping(_) => 2
    case DroppingLate => 2
    case Reporting => 1
    case Done(_) => 0
  }

  /** The step is one of the caller's own statements after registration. */
  predicate Own(step: Step, id: nat)
  {
    match step
    case Check(i) => i == id
    case Send(i) => i == id
    case Get(i) => i == id
    case Expire(i) => i == id
    case Drop(i) => i == id
    case Report(i) => i == id
    case _ => false
  }

  function NextOwn(s: State, id: nat): Step
    requires id in s.callers && !s.callers[id].Done? && id in s.table.promises
  {
    match s.callers[id]
    case Checking(_) => Check(id)
    case Sending => Send(id)
    case Waiting => if s.table.promises[id].Some? then Get(id) else Expire(id)
    case Dropping(_) => Drop(id)
    case DroppingLate => Drop(id)
    case Reporting => Report(id)
  }

  /** A caller without an outcome is never stuck. */
  lemma CanAlwaysGoOn(s: State, id: nat)
    requires Inv(s) && id in s.callers && !s.callers[id].Done?
    ensures Enabled(s, NextOwn(s, id)) && Own(NextOwn(s, id), id)
  {}

  /** Own steps use up what is left; no other step touches the caller. */
  lemma StepLeft(s: State, step: Step, id: nat)
    requires Enabled(s, step) && id in s.callers
    ensures id in Apply(s, step).callers
    ensures Own(step, id) ==> Left(Apply(s, step).callers[id]) < Left(s.callers[id])
    ensures !Own(step, id) ==> Apply(s, step).callers[id] == s.callers[id]
  {}

  ghost function OwnSteps(steps: seq<Step>, id: nat): nat
  {
    if steps == [] then 0 else (if Own(steps[0], id) then 1 else 0) + OwnSteps(steps[1..], id)
  }

  /** However the others interleave, a call has its outcome after at most five steps of its own. */
  lemma {:induction false} EveryCallEnds(s: State, steps: seq<Step>, id: nat)
    requires CanRun(s, steps) && id in s.callers
    ensures id in Run(s, steps).callers
    ensures Left(Run(s, steps).callers[id]) + OwnSteps(steps, id) <= Left(s.callers[id]) <= 5
    ensures OwnSteps(steps, id) == Left(s.callers[id]) ==> Run(s, steps).callers[id].Done?
    decreases |steps|
  {
    hide Enabled, Apply, Own;
    if steps != [] {
      StepLeft(s, steps[0], id);
      EveryCallEnds(Apply(s, steps[0]), steps[1..], id);
    }
  }

  // ---------- Requests while disconnected ----------

  /** The call is being refused or has been, and its request was not sent. */
  predicate Refused(s: State, id: nat)
  {
    id !in s.sent && id in s.callers && s.callers[id] in {Dropping(ConnectionLost), Done(ConnectionLost)}
  }

  /** A refused call stays refused, whatever happens later. */
  lemma {:induction false} RefusedForGood(s: State, steps: seq<Step>, id: nat)
    requires CanRun(s, steps) && Refused(s, id)
    ensures Refused(Run(s, steps), id)
    decreases |steps|
  {
    if steps != [] {
      RefusedForGood(Apply(s, steps[0]), steps[1..], id);
    }
  }

  /** A call checked while disconnected, and not by the reconnection itself, is never sent, even if the
      connection comes back; any other call checked passes the test. */
  lemma CheckDecides(s: State, steps: seq<Step>, id: nat)
    requires Inv(s) && id in s.callers && s.callers[id].Checking? && CanRun(s, [Check(id)] + steps)
    ensures !s.connected && !s.callers[id].reconnecting ==> Refused(Run(s, [Check(id)] + steps), id)
    ensures s.connected || s.callers[id].reconnecting ==> At(Apply(s, Check(id)), id, Sending)
  {
    assert ([Check(id)] + steps)[1..] == steps;
    assert CallInv(id, s.callers[id], s.table.promises[id], id in s.table.pending, id in s.sent, s.received);
    if !s.connected && !s.callers[id].reconnecting {
      RefusedForGood(Apply(s, Check(id)), steps, id);
    }
  }

  // ---------- What reaches a caller ----------

  /** A reply to a pending request stays in its promise, and ends the waiting of its caller. */
  lemma ReplyReaches(s: State, packet: Packet, steps: seq<Step>)
    requires Inv(s) && packet.id in s.table.pending && CanRun(s, [Receive(packet)] + steps)
    ensures var t := Run(s, [Receive(packet)] + steps);
            && packet.id in t.callers && packet.id in t.table.promises
                && t.table.promises[packet.id] == Some(Reply(packet))
            && (At(t, packet.id, Waiting) ==>
                  && NextOwn(t, packet.id) == Get(packet.id) && !Enabled(t, Expire(packet.id))
                  && Enabled(t, Get(packet.id)) && At(Apply(t, Get(packet.id)), packet.id, Done(Replied(packet))))
  {
    hide Inv, CallInv, Keeps;
    var u := Apply(s, Receive(packet));
    assert ([Receive(packet)] + steps)[1..] == steps;
    StepInv(s, Receive(packet));
    StepKeeps(s, Receive(packet));
    RunKeeps(u, steps);
    KeptPromise(u, Run(u, steps), packet.id);
  }

  /** A cancellation ends the waiting of every caller whose request is pending. */
  lemma CancelReaches(s: State, error: int, steps: seq<Step>, id: nat)
    requires Inv(s) && id in s.table.pending && CanRun(s, [Cancel(error)] + steps)
    ensures var t := Run(s, [Cancel(error)] + steps);
            && id in t.callers && id in t.table.promises && t.table.promises[id] == Some(Failed(error))
            && (At(t, id, Waiting) ==>
                  && NextOwn(t, id) == Get(id) && !Enabled(t, Expire(id))
                  && Enabled(t, Get(id)) && At(Apply(t, Get(id)), id, Done(CancelledBy(error))))
  {
    hide CallInv, Keeps;
    var u := Apply(s, Cancel(error));
    assert ([Cancel(error)] + steps)[1..] == steps;
    StepInv(s, Cancel(error));
    RunKeeps(u, steps);
    KeptPromise(u, Run(u, steps), id);
  }

  lemma KeptPromise(s: State, t: State, id: nat)
    requires Keeps(s, t) && Inv(t) && id in s.table.promises && s.table.promises[id].Some?
    ensures id in t.table.promises && t.table.promises[id] == s.table.promises[id] && id in t.callers
  {
    hide CallInv;
  }

  /** Why a call ends the way it does. */
  lemma Causes(s: State, step: Step, id: nat)
    requires Inv(s) && Enabled(s, step) && id in s.callers && !s.callers[id].Done?
    requires id in Apply(s, step).callers && Apply(s, step).callers[id].Done?
    ensures match Apply(s, step).callers[id].outcome
            case TimedOut => step == Report(id) && s.connected && id in s.sent
            case ConnectionLost => (step == Report(id) && !s.connected && id in s.sent)
                || (step == Drop(id) && id !in s.sent)
            case ComponentRemoved => step == Drop(id) && id !in s.sent
            case Replied(packet) => step == Get(id) && s.table.promises[id] == Some(Reply(packet))
            case CancelledBy(error) => step == Get(id) && s.table.promises[id] == Some(Failed(error))
  {
    assert CallInv(id, s.callers[id], s.table.promises[id], id in s.table.pending, id in s.sent, s.received);
  }

  /** A request is sent exactly if the transport is there; without it the call can only end as removed. */
  lemma SendDecides(s: State, steps: seq<Step>, id: nat)
    requires Inv(s) && At(s, id, Sending) && CanRun(s, [Send(id)] + steps)
    ensures s.transport ==> At(Apply(s, Send(id)), id, Waiting) && id in Apply(s, Send(id)).sent
    ensures !s.transport ==>
              var t := Run(s, [Send(id)] + steps);
              id !in t.sent && id in t.callers && t.callers[id] in {Dropping(ComponentRemoved), Done(ComponentRemoved)}
  {
    assert ([Send(id)] + steps)[1..] == steps;
    assert CallInv(id, s.callers[id], s.table.promises[id], id in s.table.pending, id in s.sent, s.received);
    if !s.transport {
      RemovedForGood(Apply(s, Send(id)), steps, id);
    }
  }

  lemma {:induction false} RemovedForGood(s: State, steps: seq<Step>, id: nat)
    requires CanRun(s, steps)
    requires id !in s.sent && id in s.callers && s.callers[id] in {Dropping(ComponentRemoved), Done(ComponentRemoved)}
    ensures var t := Run(s, steps);
            id !in t.sent && id in t.callers && t.callers[id] in {Dropping(ComponentRemoved), Done(ComponentRemoved)}
    decreases |steps|
  {
    if steps != [] {
      RemovedForGood(Apply(s, steps[0]), steps[1..], id);
    }
  }

  /**
   The status after a run is that of the last change, the transport is there until it is removed, and exactly
   the replies of the run were received.
   */
  lemma {:induction false} RunInputs(s: State, steps: seq<Step>)
    requires CanRun(s, steps)
    ensures var t := Run(s, steps);
            && (forall i :: 0 <= i < |steps| && steps[i].ChangeStatus? ==>
                  (forall j :: i < j < |steps| ==> !steps[j].ChangeStatus?) ==> t.connected == steps[i].connected)
            && ((forall i :: 0 <= i < |steps| ==> !steps[i].ChangeStatus?) ==> t.connected == s.connected)
            && (t.transport <==> s.transport && RemoveTransport !in steps)
            && (forall p :: p in t.received <==> p in s.received || Receive(p) in steps)
    decreases |steps|
  {
    hide CanRun, Run;
    RunFirst(s, steps);
    if steps != [] {
      var u := Apply(s, steps[0]);
      RunInputs(u, steps[1..]);
      FirstInputs(s, steps[0]);
      var t := Run(s, steps);
      assert forall x :: x in steps <==> x == steps[0] || x in steps[1..];
      forall i | 0 <= i < |steps| && steps[i].ChangeStatus? && (forall j :: i < j < |steps| ==> !steps[j].ChangeStatus?)
        ensures t.connected == steps[i].connected
      {
        assert forall j :: i < j < |steps| ==> steps[j] == steps[1..][j - 1];
        if i > 0 { assert steps[i] == steps[1..][i - 1]; }
      }
    }
  }

  lemma RunFirst(s: State, steps: seq<Step>)
    requires CanRun(s, steps)
    ensures steps == [] ==> Run(s, steps) == s
    ensures steps != [] ==>
              Enabled(s, steps[0]) && CanRun(Apply(s, steps[0]), steps[1..]) &&
              Run(s, steps) == Run(Apply(s, steps[0]), steps[1..])
  {
    hide Enabled, Apply;
  }

  lemma FirstInputs(s: State, step: Step)
    requires Enabled(s, step)
    ensures var t := Apply(s, step);
            && t.connected == (if step.ChangeStatus? then step.connected else s.connected)
            && t.transport == (s.transport && !step.RemoveTransport?)
            && t.received == s.received + if step.Receive? then {step.packet} else {}
  {}
}
