/** The server and the virtual appliance answering each other, with the appliance's timers off. */
module ClosedLoop {
  import opened ByteStrings
  import opened PyObjects
  import opened Protocol
  import opened Modes

  predicate Truthy(v: Obj)
  {
    match v
    case PyNone => false
    case Bool(b) => b
    case Int(i) => i != 0
    case Str(s) => s != ""
    case Dict(d) => d != []
    case Other(_, falsy) => !falsy
  }

  /** The id of a reply: the message's own, or a new one when it has none worth echoing. */
  function EchoedWid(msg: Obj, uuid: string): Obj
  {
    match BodyField(msg, "CmdWId")
    case Some(w) => if Truthy(w) then w else Str(uuid)
    case None => Str(uuid)
  }

  predicate ApplianceAnswers(msg: Obj)
  {
    IsMonStart(msg) || (BodyField(msg, "CmdWId").Some? && BodyField(msg, "ReturnCode") == None)
  }

  /** What the virtual appliance sends back for one message. */
  function ApplianceReply(dev: string, uuid: string, msg: Obj): seq<Obj>
  {
    if ApplianceAnswers(msg) then [Ack(dev, EchoedWid(msg, uuid))] else []
  }

  /** On the texts of the message: a Mon Start is answered, and whatever has an id but no return code;
      always by a 0000 ack with the id the message has, or a new one for an id that says nothing. */
  lemma ApplianceReplyIs(dev: string, uuid: string, msg: Obj)
    ensures var wid := BodyField(msg, "CmdWId");
      var answered :=
        || (BodyField(msg, "Cmd") == Some(Str("Mon")) && BodyField(msg, "CmdOpt") == Some(Str("Start")))
        || (wid.Some? && BodyField(msg, "ReturnCode") == None);
      var blank :=
        || wid == None || wid.value in {PyNone, Bool(false), Int(0), Str(""), Dict([])}
        || (wid.value.Other? && wid.value.falsy);
      var reply := ApplianceReply(dev, uuid, msg);
      if answered then
        && |reply| == 1 && HeaderId(reply[0]) == Some(dev)
        && Body(reply[0]) == Dict([Entry("CmdWId", if blank then Str(uuid) else wid.value),
                                   Entry("ReturnCode", Str("0000"))])
      else reply == []
  {
    EchoedIs(msg, uuid);
    AckFields(dev, EchoedWid(msg, uuid));
    hide BodyField, HeaderId, Body, Ack, EchoedWid, Truthy;
  }

  lemma EchoedIs(msg: Obj, uuid: string)
    ensures var wid := BodyField(msg, "CmdWId");
      var blank :=
        || wid == None || wid.value in {PyNone, Bool(false), Int(0), Str(""), Dict([])}
        || (wid.value.Other? && wid.value.falsy);
      EchoedWid(msg, uuid) == if blank then Str(uuid) else wid.value
  {
    hide BodyField;
  }

  function AllReplies(dev: string, uuid: nat -> string, n: nat, msgs: seq<Obj>): seq<Obj>
    decreases |msgs|
  {
    if msgs == [] then []
    else
      var r := ApplianceReply(dev, uuid(n), msgs[0]);
      r + AllReplies(dev, uuid, n + |r|, msgs[1..])
  }

  lemma RepliesDone(dev: string, uuid: nat -> string, n: nat, wid: Option<Obj>, msgs: seq<Obj>, sent: seq<Obj>)
    requires msgs == []
    ensures sent + AllReplies(dev, uuid, n, msgs) == sent && LastMonWid(wid, msgs) == wid
  {
  }

  /** A Mon Start is among the first n messages. */
  ghost predicate StartedWithin(msgs: seq<Obj>, n: nat)
    requires n <= |msgs|
  {
    exists i :: 0 <= i < n && IsMonStart(msgs[i])
  }

  lemma StartedStep(msgs: seq<Obj>, i: nat)
    requires i < |msgs|
    ensures StartedWithin(msgs, i + 1) <==> StartedWithin(msgs, i) || IsMonStart(msgs[i])
  {
    hide IsMonStart;
  }

  /** The appliance's next message. */
  lemma ReplyStep(dev: string, uuid: nat -> string, n: nat, wid: Option<Obj>, msgs: seq<Obj>, i: nat)
    requires i < |msgs|
    ensures var r := ApplianceReply(dev, uuid(n), msgs[i]);
      AllReplies(dev, uuid, n, msgs[i..]) == r + AllReplies(dev, uuid, n + |r|, msgs[i + 1..])
    ensures LastMonWid(wid, msgs[i..])
      == LastMonWid(if IsMonStart(msgs[i]) then BodyField(msgs[i], "CmdWId") else wid, msgs[i + 1..])
  {
    hide IsMonStart, ApplianceReply;
    assert msgs[i..][1..] == msgs[i + 1..];
  }

  /** FakeAppliance with the fields its message loop updates; the id generator counts its
      sends. */
  class FakeAppliance {
    const deviceId: string
    const uuid: nat -> string
    var monStartReceived: bool
    var monWid: Option<Obj>
    var acksSent: nat
    var sent: seq<Obj>

    constructor (deviceId: string, uuid: nat -> string)
      ensures this.deviceId == deviceId && this.uuid == uuid
      ensures !monStartReceived && monWid == None && acksSent == 0 && sent == []
    {
      this.deviceId, this.uuid := deviceId, uuid;
      monStartReceived, monWid, acksSent, sent := false, None, 0, [];
    }

    /** The reaction to every message of a buffer, in order. */
    method React(msgs: seq<Obj>)
      modifies this
      ensures sent == old(sent) + AllReplies(deviceId, uuid, old(acksSent), msgs)
      ensures acksSent - old(acksSent) == |sent| - |old(sent)|
      ensures monStartReceived
        <==> old(monStartReceived) || StartedWithin(msgs, |msgs|)
      ensures monWid == LastMonWid(old(monWid), msgs)
    {
      ghost var acks0 := acksSent - |sent|;
      ghost var goal := sent + AllReplies(deviceId, uuid, acksSent, msgs);
      ghost var wid := LastMonWid(monWid, msgs);
      assert !StartedWithin(msgs, 0);
      var i := 0;
      assert msgs[0..] == msgs;
      hide IsMonStart, ApplianceReply, AllReplies, LastMonWid, StartedWithin;
      while i < |msgs|
        invariant 0 <= i <= |msgs|
        invariant Pending(msgs[i..], goal, wid)
        invariant acksSent - |sent| == acks0
        invariant monStartReceived <==> old(monStartReceived) || StartedWithin(msgs, i)
      {
        StartedStep(msgs, i);
        ReactNext(msgs, i, goal, wid);
        i := i + 1;
      }
      RepliesDone(deviceId, uuid, acksSent, monWid, msgs[i..], sent);
    }

    /** The replies to come make up the whole of them, and the latest Mon Start is still to come or
        remembered. */
    ghost predicate Pending(later: seq<Obj>, goal: seq<Obj>, wid: Option<Obj>)
      reads this
    {
      sent + AllReplies(deviceId, uuid, acksSent, later) == goal && LastMonWid(monWid, later) == wid
    }

    method ReactNext(msgs: seq<Obj>, i: nat, ghost goal: seq<Obj>, ghost wid: Option<Obj>)
      requires i < |msgs| && Pending(msgs[i..], goal, wid)
      modifies this
      ensures Pending(msgs[i + 1..], goal, wid)
      ensures acksSent - |sent| == old(acksSent - |sent|)
      ensures monStartReceived <==> old(monStartReceived) || IsMonStart(msgs[i])
    {
      ReplyStep(deviceId, uuid, acksSent, monWid, msgs, i);
      hide IsMonStart, ApplianceReply, AllReplies, LastMonWid;
      ghost var r := ApplianceReply(deviceId, uuid(acksSent), msgs[i]);
      Associates(sent, r, AllReplies(deviceId, uuid, acksSent + |r|, msgs[i + 1..]));
      ReactTo(msgs[i]);
    }

    method ReactTo(m: Obj)
      modifies this
      ensures sent == old(sent) + ApplianceReply(deviceId, uuid(old(acksSent)), m)
      ensures acksSent - old(acksSent) == |sent| - |old(sent)|
      ensures monStartReceived <==> old(monStartReceived) || IsMonStart(m)
      ensures monWid == if IsMonStart(m) then BodyField(m, "CmdWId") else old(monWid)
    {
      if IsMonStart(m) {
        monStartReceived := true;
        monWid := BodyField(m, "CmdWId");
        sent := sent + [Ack(deviceId, EchoedWid(m, uuid(acksSent)))];
        acksSent := acksSent + 1;
      } else if BodyField(m, "CmdWId").Some? && BodyField(m, "ReturnCode") == None {
        sent := sent + [Ack(deviceId, EchoedWid(m, uuid(acksSent)))];
        acksSent := acksSent + 1;
      }
    }
  }

  /** The id the pump reuses: that of the latest Mon Start. */
  function LastMonWid(wid: Option<Obj>, msgs: seq<Obj>): Option<Obj>
    decreases |msgs|
  {
    if msgs == [] then wid
    else LastMonWid(if IsMonStart(msgs[0]) then BodyField(msgs[0], "CmdWId") else wid, msgs[1..])
  }

  // ---- The loop ----

  datatype Flight = ToServer(msg: Obj) | ToAppliance(msg: Obj)

  datatype State = State(serverDev: string, flights: seq<Flight>)

  function Flying(msgs: seq<Obj>, toServer: bool): (fs: seq<Flight>)
    ensures |fs| == |msgs|
  {
    seq(|msgs|, i requires 0 <= i < |msgs| => if toServer then ToServer(msgs[i]) else ToAppliance(msgs[i]))
  }

  /** Delivering the message in place i, in whatever order the network likes. */
  function Deliver(st: State, i: nat, dev: string, uuid: string): State
    requires i < |st.flights|
  {
    var rest := st.flights[..i] + st.flights[i + 1..];
    match st.flights[i]
    case ToServer(m) =>
      var dev' := NextDev(st.serverDev, m);
      State(dev', rest + Flying(Responses(dev', m), false))
    case ToAppliance(m) =>
      State(st.serverDev, rest + Flying(ApplianceReply(dev, uuid, m), true))
  }

  /** The deliveries a message causes, itself included. */
  function Work(f: Flight): nat
  {
    match f
    case ToServer(m) =>
      1 + (if IsAcknowledged(m) then 1 else 0) + (if BodyIs(m, "Cmd", "DevInfo") then 2 else 0)
    case ToAppliance(m) => if ApplianceAnswers(m) then 2 else 1
  }

  function TotalWork(fs: seq<Flight>): nat
  {
    if fs == [] then 0 else Work(fs[0]) + TotalWork(fs[1..])
  }

  lemma {:induction false} TotalWorkAppend(a: seq<Flight>, b: seq<Flight>)
    ensures TotalWork(a + b) == TotalWork(a) + TotalWork(b)
    decreases |a|
  {
    hide Work;
    if a == [] {
      assert a + b == b;
    } else {
      assert (a + b)[1..] == a[1..] + b;
      TotalWorkAppend(a[1..], b);
    }
  }

  lemma TotalWorkOne(f: Flight)
    ensures TotalWork([f]) == Work(f)
  {
    assert [f][1..] == [];
  }

  /** The work of the server's answer is what the message's own work says beyond itself. */
  lemma ServerWork(dev: string, m: Obj)
    ensures TotalWork(Flying(Responses(dev, m), false)) + 1 == Work(ToServer(m))
  {
    var ack, mon := ToAppliance(Ack(dev, WidOf(m))), ToAppliance(MonStart(dev, MonWid(dev)));
    AcksAreSilent(dev, dev, WidOf(m));
    MonStartFields(dev, MonWid(dev));
    assert Work(ack) == 1 && Work(mon) == 2;
    hide Work;
    TotalWorkOne(ack);
    TotalWorkOne(mon);
    TotalWorkAppend([ack], [mon]);
    var fs := Flying(Responses(dev, m), false);
    if BodyIs(m, "Cmd", "DevInfo") {
      assert IsAcknowledged(m) && fs == [ack] + [mon];
    } else if IsAcknowledged(m) {
      assert fs == [ack];
    } else {
      assert fs == [];
    }
    assert Work(ToServer(m)) == 1 + TotalWork(fs) by {
      WorkOfServerMessage(m);
    }
  }

  lemma WorkOfServerMessage(m: Obj)
    ensures BodyIs(m, "Cmd", "DevInfo") ==> Work(ToServer(m)) == 4
    ensures !BodyIs(m, "Cmd", "DevInfo") && IsAcknowledged(m) ==> Work(ToServer(m)) == 2
    ensures !IsAcknowledged(m) ==> Work(ToServer(m)) == 1
  {
  }

  lemma ApplianceWork(dev: string, uuid: string, m: Obj)
    ensures TotalWork(Flying(ApplianceReply(dev, uuid, m), true)) + 1 == Work(ToAppliance(m))
  {
    if ApplianceAnswers(m) {
      var ack := Ack(dev, EchoedWid(m, uuid));
      AcksAreSilent(dev, dev, EchoedWid(m, uuid));
      assert !IsAcknowledged(ack);
      WorkOfServerMessage(ack);
      TotalWorkOne(ToServer(ack));
      assert Flying(ApplianceReply(dev, uuid, m), true) == [ToServer(ack)];
    }
  }

  /** Every delivery, in any order, removes exactly one unit of work. */
  lemma DeliveryWork(st: State, i: nat, dev: string, uuid: string)
    requires i < |st.flights|
    ensures TotalWork(Deliver(st, i, dev, uuid).flights) == TotalWork(st.flights) - 1
  {
    var f := st.flights[i];
    var before, after := st.flights[..i], st.flights[i + 1..];
    assert st.flights == (before + [f]) + after;
    TotalWorkAppend(before + [f], after);
    TotalWorkAppend(before, [f]);
    TotalWorkOne(f);
    TotalWorkAppend(before, after);
    match f
    case ToServer(m) =>
      var dev' := NextDev(st.serverDev, m);
      TotalWorkAppend(before + after, Flying(Responses(dev', m), false));
      ServerWork(dev', m);
    case ToAppliance(m) =>
      TotalWorkAppend(before + after, Flying(ApplianceReply(dev, uuid, m), true));
      ApplianceWork(dev, uuid, m);
  }

  datatype Delivery = Delivery(i: nat, uuid: string)

  /** A schedule picks one message in flight after another. */
  ghost predicate Schedule(st: State, dev: string, ds: seq<Delivery>)
    decreases |ds|
  {
    ds == []
    || (ds[0].i < |st.flights| && Schedule(Deliver(st, ds[0].i, dev, ds[0].uuid), dev, ds[1..]))
  }

  ghost function After(st: State, dev: string, ds: seq<Delivery>): State
    requires Schedule(st, dev, ds)
    decreases |ds|
  {
    if ds == [] then st else After(Deliver(st, ds[0].i, dev, ds[0].uuid), dev, ds[1..])
  }

  /** No schedule is longer than the initial work, and one has emptied the network exactly when
      it is that long: the loop goes quiet after the same number of deliveries in every order. */
  lemma {:induction false} Quiescence(st: State, dev: string, ds: seq<Delivery>)
    requires Schedule(st, dev, ds)
    ensures |ds| <= TotalWork(st.flights)
    ensures After(st, dev, ds).flights == [] <==> |ds| == TotalWork(st.flights)
    decreases |ds|
  {
    if ds == [] {
      if st.flights != [] {
        assert Work(st.flights[0]) >= 1;
      }
    } else {
      hide Deliver, TotalWork;
      DeliveryWork(st, ds[0].i, dev, ds[0].uuid);
      Quiescence(Deliver(st, ds[0].i, dev, ds[0].uuid), dev, ds[1..]);
    }
  }
}
