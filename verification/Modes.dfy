/** The two ways the server sees a WM appliance: it terminates the connection and answers it,
    or it only observes the bytes it forwards. Both ingest the pump's snapshots. */
module Modes {
  import opened ByteStrings
  import opened PyObjects
  import opened Protocol
  import Len4

  // ---- Terminate-only ----

  /** dev_id after a message: its Header's id, or the one carried so far. */
  function NextDev(dev: string, msg: Obj): string
  {
    match HeaderId(msg)
    case Some(id) => id
    case None => dev
  }

  function LastDev(dev: string, msgs: seq<Obj>): string
    decreases |msgs|
  {
    if msgs == [] then dev else LastDev(NextDev(dev, msgs[0]), msgs[1..])
  }

  function Terminated(lib: Library, dev: string, msgs: seq<Obj>): seq<Snapshot>
    decreases |msgs|
  {
    if msgs == [] then []
    else
      var dev' := NextDev(dev, msgs[0]);
      Ingest(lib, dev', msgs[0]) + Terminated(lib, dev', msgs[1..])
  }

  function Answers(dev: string, msgs: seq<Obj>): seq<Obj>
    decreases |msgs|
  {
    if msgs == [] then []
    else
      var dev' := NextDev(dev, msgs[0]);
      Responses(dev', msgs[0]) + Answers(dev', msgs[1..])
  }

  lemma {:induction false} LastDevAppend(dev: string, a: seq<Obj>, b: seq<Obj>)
    ensures LastDev(dev, a + b) == LastDev(LastDev(dev, a), b)
    decreases |a|
  {
    hide NextDev;
    if a == [] {
      assert a + b == b;
    } else {
      ConsAppend(a, b);
      LastDevAppend(NextDev(dev, a[0]), a[1..], b);
    }
  }

  lemma {:induction false} TerminatedAppend(lib: Library, dev: string, a: seq<Obj>, b: seq<Obj>)
    ensures Terminated(lib, dev, a + b)
      == Terminated(lib, dev, a) + Terminated(lib, LastDev(dev, a), b)
    decreases |a|
  {
    hide Ingest, NextDev;
    if a == [] {
      assert a + b == b;
    } else {
      ConsAppend(a, b);
      var dev' := NextDev(dev, a[0]);
      TerminatedAppend(lib, dev', a[1..], b);
      Associates(Ingest(lib, dev', a[0]), Terminated(lib, dev', a[1..]),
                 Terminated(lib, LastDev(dev', a[1..]), b));
    }
  }

  lemma {:induction false} AnswersAppend(dev: string, a: seq<Obj>, b: seq<Obj>)
    ensures Answers(dev, a + b) == Answers(dev, a) + Answers(LastDev(dev, a), b)
    decreases |a|
  {
    hide Responses, NextDev;
    if a == [] {
      assert a + b == b;
    } else {
      ConsAppend(a, b);
      var dev' := NextDev(dev, a[0]);
      AnswersAppend(dev', a[1..], b);
      Associates(Responses(dev', a[0]), Answers(dev', a[1..]), Answers(LastDev(dev', a[1..]), b));
    }
  }

  /** The handler of one terminated WM connection. */
  class Handler {
    const lib: Library
    var buf: Bytes
    var devId: string
    var ingested: seq<Snapshot>
    var sent: seq<Obj>

    constructor (lib: Library)
      ensures this.lib == lib && buf == [] && devId == "unknown" && ingested == [] && sent == []
    {
      this.lib, buf, devId, ingested, sent := lib, [], "unknown", [], [];
    }

    /** One pass of the receive loop, all of its sends succeeding. */
    method Receive(data: Bytes)
      modifies this
      ensures var d := Len4.Decode(lib, old(buf) + data);
        && buf == d.rest
        && devId == LastDev(old(devId), d.msgs)
        && ingested == old(ingested) + Terminated(lib, old(devId), d.msgs)
        && sent == old(sent) + Answers(old(devId), d.msgs)
    {
      var msgs;
      msgs, buf := Len4.DecodeMessages(lib, buf + data);
      ghost var dev0, ingested0, sent0 := devId, ingested, sent;
      var i := 0;
      assert msgs[0..] == msgs;
      while i < |msgs|
        modifies `devId, `ingested, `sent
        invariant 0 <= i <= |msgs|
        invariant LastDev(devId, msgs[i..]) == LastDev(dev0, msgs)
        invariant ingested + Terminated(lib, devId, msgs[i..])
          == ingested0 + Terminated(lib, dev0, msgs)
        invariant sent + Answers(devId, msgs[i..]) == sent0 + Answers(dev0, msgs)
      {
        MessageStep(lib, devId, msgs, i);
        hide Ingest, Responses, Terminated, Answers, LastDev, NextDev;
        ghost var ingested1, sent1 := ingested, sent;
        Handle(msgs[i]);
        Associates(ingested1, Ingest(lib, devId, msgs[i]), Terminated(lib, devId, msgs[i + 1..]));
        Associates(sent1, Responses(devId, msgs[i]), Answers(devId, msgs[i + 1..]));
        i := i + 1;
      }
      assert msgs[i..] == [];
    }

    /** handle_incoming. */
    method Incoming(msg: Obj) returns (response: Option<Obj>)
      modifies `ingested
      ensures response == ReplyTo(devId, msg)
      ensures ingested == old(ingested) + Ingest(lib, devId, msg)
    {
      var wid := WidOf(msg);
      if BodyIs(msg, "Cmd", "DevInfo") {
        return Some(Ack(devId, wid));
      }
      if BodyIs(msg, "Cmd", "Alive") {
        return Some(Ack(devId, wid));
      }
      if BodyIs(msg, "Cmd", "Mon") && BodyIs(msg, "CmdOpt", "Start") {
        return Some(Ack(devId, wid));
      }
      if BodyIs(msg, "Cmd", "Mon") && BodyIs(msg, "CmdOpt", "Stop") {
        return Some(Ack(devId, wid));
      }
      if BodyIs(msg, "Format", "B64") {
        var data := BodyField(msg, "Data");
        var blob := if data == None then lib.b64decode("")
                    else if data.value.Str? then lib.b64decode(data.value.s)
                    else None;
        if blob.Some? && blob.value != [] {
          ingested := ingested + [Snapshot(devId, blob.value)];
        }
      }
      response := None;
    }

    /** One message: its reply, and after a DevInfo a Mon Start, each sent once. */
    method Handle(msg: Obj)
      modifies `devId, `ingested, `sent
      ensures devId == NextDev(old(devId), msg)
      ensures ingested == old(ingested) + Ingest(lib, devId, msg)
      ensures sent == old(sent) + Responses(devId, msg)
      ensures var cmd, opt := BodyField(msg, "Cmd"), BodyField(msg, "CmdOpt");
        var answered :=
          || cmd == Some(Str("DevInfo")) || cmd == Some(Str("Alive"))
          || (cmd == Some(Str("Mon")) && (opt == Some(Str("Start")) || opt == Some(Str("Stop"))));
        sent == old(sent)
          + (if answered then [Ack(devId, WidOf(msg))] else [])
          + (if cmd == Some(Str("DevInfo")) then [MonStart(devId, MonWid(devId))] else [])
    {
      hide Ack, MonStart, WidOf, BodyField, MonWid, Ingest;
      var id := HeaderId(msg);
      if id.Some? {
        devId := id.value;
      }
      var response := Incoming(msg);
      if response.Some? {
        sent := sent + [response.value];
      }
      if BodyIs(msg, "Cmd", "DevInfo") {
        sent := sent + [MonStart(devId, MonWid(devId))];
      }
    }
  }

  /** The handler's next message. */
  lemma MessageStep(lib: Library, dev: string, msgs: seq<Obj>, i: nat)
    requires i < |msgs|
    ensures var dev' := NextDev(dev, msgs[i]);
      && LastDev(dev, msgs[i..]) == LastDev(dev', msgs[i + 1..])
      && Terminated(lib, dev, msgs[i..])
         == Ingest(lib, dev', msgs[i]) + Terminated(lib, dev', msgs[i + 1..])
      && Answers(dev, msgs[i..]) == Responses(dev', msgs[i]) + Answers(dev', msgs[i + 1..])
  {
    hide Ingest, Responses, NextDev;
    assert msgs[i..][1..] == msgs[i + 1..];
  }

  // ---- Passthrough ----

  function NextSeen(dev: Option<string>, msg: Obj): Option<string>
  {
    var id := HeaderId(msg);
    if id.Some? && id.value != "" then id else dev
  }

  function LastSeen(dev: Option<string>, msgs: seq<Obj>): Option<string>
    decreases |msgs|
  {
    if msgs == [] then dev else LastSeen(NextSeen(dev, msgs[0]), msgs[1..])
  }

  /** What the observer takes from one message: a B64 body with Data, no Cmd, and a known id. */
  function Observed1(lib: Library, dev: Option<string>, msg: Obj): seq<Snapshot>
  {
    if BodyIs(msg, "Format", "B64") && BodyField(msg, "Data").Some? && BodyField(msg, "Cmd") == None
       && dev.Some?
    then Decoded64(lib, dev.value, BodyField(msg, "Data").value)
    else []
  }

  function Observed(lib: Library, dev: Option<string>, msgs: seq<Obj>): seq<Snapshot>
    decreases |msgs|
  {
    if msgs == [] then []
    else
      var dev' := NextSeen(dev, msgs[0]);
      Observed1(lib, dev', msgs[0]) + Observed(lib, dev', msgs[1..])
  }

  lemma {:induction false} ObservedAppend(lib: Library, dev: Option<string>, a: seq<Obj>, b: seq<Obj>)
    ensures Observed(lib, dev, a + b) == Observed(lib, dev, a) + Observed(lib, LastSeen(dev, a), b)
    ensures LastSeen(dev, a + b) == LastSeen(LastSeen(dev, a), b)
    decreases |a|
  {
    hide Observed1, NextSeen;
    if a == [] {
      assert a + b == b;
    } else {
      ConsAppend(a, b);
      var dev' := NextSeen(dev, a[0]);
      ObservedAppend(lib, dev', a[1..], b);
      Associates(Observed1(lib, dev', a[0]), Observed(lib, dev', a[1..]),
                 Observed(lib, LastSeen(dev', a[1..]), b));
    }
  }

  /** The observer's next message. */
  lemma ObservedStep(lib: Library, dev: Option<string>, msgs: seq<Obj>, i: nat)
    requires i < |msgs|
    ensures var dev' := NextSeen(dev, msgs[i]);
      && LastSeen(dev, msgs[i..]) == LastSeen(dev', msgs[i + 1..])
      && Observed(lib, dev, msgs[i..])
         == Observed1(lib, dev', msgs[i]) + Observed(lib, dev', msgs[i + 1..])
  {
    hide Observed1, NextSeen;
    assert msgs[i..][1..] == msgs[i + 1..];
  }

  /** The observer of one forwarded connection, with its buffer box and device box. */
  class Observer {
    const lib: Library
    var buf: Bytes
    var dev: Option<string>
    var ingested: seq<Snapshot>

    constructor (lib: Library)
      ensures this.lib == lib && buf == [] && dev == None && ingested == []
    {
      this.lib, buf, dev, ingested := lib, [], None, [];
    }

    method Observe(chunk: Bytes)
      modifies this
      ensures var d := Len4.Decode(lib, old(buf) + chunk);
        && buf == d.rest
        && dev == LastSeen(old(dev), d.msgs)
        && ingested == old(ingested) + Observed(lib, old(dev), d.msgs)
    {
      var msgs;
      msgs, buf := Len4.DecodeMessages(lib, buf + chunk);
      ghost var dev0, ingested0 := dev, ingested;
      var i := 0;
      assert msgs[0..] == msgs;
      while i < |msgs|
        modifies `dev, `ingested
        invariant 0 <= i <= |msgs|
        invariant LastSeen(dev, msgs[i..]) == LastSeen(dev0, msgs)
        invariant ingested + Observed(lib, dev, msgs[i..]) == ingested0 + Observed(lib, dev0, msgs)
      {
        ObservedStep(lib, dev, msgs, i);
        hide Observed1, Observed, LastSeen, NextSeen;
        ghost var ingested1 := ingested;
        See(msgs[i]);
        Associates(ingested1, Observed1(lib, dev, msgs[i]), Observed(lib, dev, msgs[i + 1..]));
        i := i + 1;
      }
      assert msgs[i..] == [];
    }

    method See(msg: Obj)
      modifies `dev, `ingested
      ensures dev == NextSeen(old(dev), msg)
      ensures ingested == old(ingested) + Observed1(lib, dev, msg)
    {
      var id := HeaderId(msg);
      if id.Some? && id.value != "" {
        dev := id;
      }
      if BodyIs(msg, "Format", "B64") && BodyField(msg, "Data").Some? && BodyField(msg, "Cmd") == None {
        if dev == None {
          return;
        }
        var data := BodyField(msg, "Data").value;
        var blob := if data.Str? then lib.b64decode(data.s) else None;
        if blob.Some? && blob.value != [] {
          ingested := ingested + [Snapshot(dev.value, blob.value)];
        }
      }
    }
  }

  // ---- Equivalence ----

  /** Whether both modes go by the same id after a message, given whether they did before: a
      Header's id is taken by both, but an empty one only by the handler. */
  predicate SameId(known: bool, msg: Obj)
  {
    match HeaderId(msg)
    case Some(id) => id != ""
    case None => known
  }

  /** The handler ingests this message, and the observer does not, or under another id: the
      message names a command the handler does not acknowledge, or its id is not known to both. */
  predicate Diverges(lib: Library, known: bool, msg: Obj)
  {
    && Ingest(lib, "", msg) != []
    && (BodyField(msg, "Cmd").Some? || !known)
  }

  predicate NeverDiverges(lib: Library, known: bool, msgs: seq<Obj>)
    decreases |msgs|
  {
    msgs == []
    || (var known' := SameId(known, msgs[0]);
        !Diverges(lib, known', msgs[0]) && NeverDiverges(lib, known', msgs[1..]))
  }

  /** What the observer takes, on the texts of the Body: a B64 body with data that decodes to
      something and without a command, under the id last seen. */
  lemma ObservedIs(lib: Library, dev: Option<string>, msg: Obj)
    ensures var data := BodyField(msg, "Data");
      var taken :=
        && dev.Some? && BodyField(msg, "Cmd") == None
        && BodyField(msg, "Format") == Some(Str("B64"))
        && data.Some? && data.value.Str?
        && lib.b64decode(data.value.s).Some? && lib.b64decode(data.value.s).value != [];
      Observed1(lib, dev, msg)
        == if taken then [Snapshot(dev.value, lib.b64decode(data.value.s).value)] else []
  {
    hide BodyField;
  }

  lemma StepAgrees(lib: Library, dev: string, seen: Option<string>, msg: Obj)
    requires Lawful(lib)
    ensures |Observed1(lib, seen, msg)| <= |Ingest(lib, dev, msg)| <= 1
    ensures Observed1(lib, seen, msg) == Ingest(lib, dev, msg)
      <==> !Diverges(lib, seen == Some(dev), msg)
  {
  }

  /** The device the observer goes by is never called "". */
  lemma IdStep(dev: string, seen: Option<string>, msg: Obj)
    requires seen != Some("")
    ensures NextSeen(seen, msg) != Some("")
    ensures SameId(seen == Some(dev), msg) <==> NextSeen(seen, msg) == Some(NextDev(dev, msg))
  {
  }

  lemma HeadsAndTails<T>(a: seq<T>, b: seq<T>, c: seq<T>, d: seq<T>)
    requires |a| <= |c| <= 1 && |b| <= |d|
    ensures a + b == c + d <==> a == c && b == d
  {
    if a + b == c + d {
      assert |a| == |c| && |b| == |d|;
      assert (a + b)[..|a|] == a && (c + d)[..|c|] == c;
      assert (a + b)[|a|..] == b && (c + d)[|c|..] == d;
    }
  }

  /** Message by message: the observer never ingests more, and the two ingest the same sequence
      exactly when no message diverges. */
  lemma {:induction false} IngestsAgree(lib: Library, dev: string, seen: Option<string>, msgs: seq<Obj>)
    requires Lawful(lib) && seen != Some("")
    ensures |Observed(lib, seen, msgs)| <= |Terminated(lib, dev, msgs)|
    ensures Observed(lib, seen, msgs) == Terminated(lib, dev, msgs)
      <==> NeverDiverges(lib, seen == Some(dev), msgs)
    decreases |msgs|
  {
    if msgs != [] {
      hide Ingest, Observed1, NextDev, NextSeen, SameId, Diverges, Lawful;
      var dev', seen' := NextDev(dev, msgs[0]), NextSeen(seen, msgs[0]);
      IdStep(dev, seen, msgs[0]);
      StepAgrees(lib, dev', seen', msgs[0]);
      IngestsAgree(lib, dev', seen', msgs[1..]);
      HeadsAndTails(Observed1(lib, seen', msgs[0]), Observed(lib, seen', msgs[1..]),
                    Ingest(lib, dev', msgs[0]), Terminated(lib, dev', msgs[1..]));
    }
  }

  /** Both modes on one appliance byte stream, cut in two ways. */
  method RunBoth(lib: Library, recvs: seq<Bytes>, chunks: seq<Bytes>)
      returns (terminated: seq<Snapshot>, observed: seq<Snapshot>)
    requires Lawful(lib)
    requires Flatten(recvs) == Flatten(chunks)
    ensures |observed| <= |terminated|
    ensures terminated == observed
      <==> NeverDiverges(lib, false, Len4.Decode(lib, Flatten(recvs)).msgs)
  {
    hide Len4.Decode, Terminated, Observed, Answers, LastDev, NeverDiverges, Lawful;
    var sent, devId;
    terminated, sent, devId := RunHandler(lib, recvs);
    observed := RunObserver(lib, chunks);
    assert [] + Flatten(chunks) == Flatten(chunks);
    Len4.ReceiveFromParked(lib, [], chunks);
    IngestsAgree(lib, "unknown", None, Len4.Decode(lib, Flatten(recvs)).msgs);
  }

  /** What a handler did so far, and what it will do with the messages to come. */
  ghost predicate OnTheWay(lib: Library, h: Handler, all: seq<Obj>, later: seq<Obj>)
    reads h
  {
    && h.ingested + Terminated(lib, h.devId, later) == Terminated(lib, "unknown", all)
    && h.sent + Answers(h.devId, later) == Answers("unknown", all)
    && LastDev(h.devId, later) == LastDev("unknown", all)
  }

  /** One read of the handler's loop. */
  method TakeRead(lib: Library, h: Handler, data: Bytes, ghost all: seq<Obj>, ghost later: seq<Obj>)
    requires h.lib == lib
    requires OnTheWay(lib, h, all, Len4.Decode(lib, h.buf + data).msgs + later)
    modifies h
    ensures h.buf == Len4.Decode(lib, old(h.buf) + data).rest && OnTheWay(lib, h, all, later)
  {
    ghost var msgs := Len4.Decode(lib, h.buf + data).msgs;
    ghost var dev, ingested, sent := h.devId, h.ingested, h.sent;
    TerminatedAppend(lib, dev, msgs, later);
    AnswersAppend(dev, msgs, later);
    LastDevAppend(dev, msgs, later);
    hide Terminated, Answers, LastDev, Len4.Decode;
    Associates(ingested, Terminated(lib, dev, msgs), Terminated(lib, LastDev(dev, msgs), later));
    Associates(sent, Answers(dev, msgs), Answers(LastDev(dev, msgs), later));
    h.Receive(data);
  }

  /** A whole terminated connection: what it ingests, what it replies and the id it ends under are
      those of the messages of its stream, whatever reads it came in. */
  method RunHandler(lib: Library, recvs: seq<Bytes>)
      returns (ingested: seq<Snapshot>, sent: seq<Obj>, devId: string)
    ensures var msgs := Len4.Decode(lib, Flatten(recvs)).msgs;
      && ingested == Terminated(lib, "unknown", msgs)
      && sent == Answers("unknown", msgs)
      && devId == LastDev("unknown", msgs)
  {
    hide Flatten, Terminated, Answers, LastDev, Len4.Decode, OnTheWay;
    ghost var all := Len4.Receive(lib, [], recvs).msgs;
    AllReceived(lib, recvs);
    var h := Begin(lib, all);
    var i := 0;
    while i < |recvs|
      invariant 0 <= i <= |recvs| && h.lib == lib
      invariant OnTheWay(lib, h, all, Len4.Receive(lib, h.buf, recvs[i..]).msgs)
    {
      ReceiveStep(lib, h.buf, recvs, i);
      hide Len4.Receive;
      TakeRead(lib, h, recvs[i], all,
               Len4.Receive(lib, Len4.Decode(lib, h.buf + recvs[i]).rest, recvs[i + 1..]).msgs);
      i := i + 1;
    }
    assert recvs[i..] == [];
    Finished(lib, h, all);
    ingested, sent, devId := h.ingested, h.sent, h.devId;
  }

  lemma AllReceived(lib: Library, recvs: seq<Bytes>)
    ensures Len4.Receive(lib, [], recvs).msgs == Len4.Decode(lib, Flatten(recvs)).msgs
    ensures recvs[0..] == recvs
  {
    assert [] + Flatten(recvs) == Flatten(recvs);
    Len4.ReceiveFromParked(lib, [], recvs);
  }

  method Begin(lib: Library, ghost all: seq<Obj>) returns (h: Handler)
    ensures fresh(h) && h.lib == lib && h.buf == [] && OnTheWay(lib, h, all, all)
  {
    h := new Handler(lib);
  }

  lemma Finished(lib: Library, h: Handler, all: seq<Obj>)
    requires OnTheWay(lib, h, all, [])
    ensures h.ingested == Terminated(lib, "unknown", all)
    ensures h.sent == Answers("unknown", all) && h.devId == LastDev("unknown", all)
  {
  }

  method RunObserver(lib: Library, chunks: seq<Bytes>) returns (ingested: seq<Snapshot>)
    ensures ingested == Observed(lib, None, Len4.Receive(lib, [], chunks).msgs)
  {
    var o := new Observer(lib);
    var i := 0;
    ghost var all := Len4.Receive(lib, [], chunks);
    assert chunks[0..] == chunks;
    while i < |chunks|
      invariant 0 <= i <= |chunks| && o.lib == lib
      invariant o.ingested + Observed(lib, o.dev, Len4.Receive(lib, o.buf, chunks[i..]).msgs)
        == Observed(lib, None, all.msgs)
    {
      ReceiveStep(lib, o.buf, chunks, i);
      hide Len4.Decode, Len4.Receive, Observed, LastSeen;
      ghost var d := Len4.Decode(lib, o.buf + chunks[i]);
      ghost var later := Len4.Receive(lib, d.rest, chunks[i + 1..]).msgs;
      ghost var before := o.ingested;
      ObservedAppend(lib, o.dev, d.msgs, later);
      Associates(before, Observed(lib, o.dev, d.msgs),
                 Observed(lib, LastSeen(o.dev, d.msgs), later));
      o.Observe(chunks[i]);
      i := i + 1;
    }
    assert chunks[i..] == [];
    ingested := o.ingested;
  }

  /** The next chunk of a connection. */
  lemma ReceiveStep(lib: Library, buf: Bytes, chunks: seq<Bytes>, i: nat)
    requires i < |chunks|
    ensures var d := Len4.Decode(lib, buf + chunks[i]);
      Len4.Receive(lib, buf, chunks[i..]).msgs
        == d.msgs + Len4.Receive(lib, d.rest, chunks[i + 1..]).msgs
  {
    hide Len4.Decode;
    assert chunks[i..][1..] == chunks[i + 1..];
  }

  function Reading(dev: string, cmd: seq<Entry>, data: string): Obj
  {
    MakeMessage(dev, Str(""), cmd + [Entry("Format", Str("B64")), Entry("Data", Str(data))])
  }

  lemma ReadingFields(dev: string, cmd: seq<Entry>, data: string)
    requires cmd == [] || cmd == [Entry("Cmd", Str("Control"))]
    ensures var m := Reading(dev, cmd, data);
      && HeaderId(m) == Some(dev) && !IsAcknowledged(m)
      && BodyIs(m, "Format", "B64") && BodyField(m, "Data") == Some(Str(data))
      && (BodyField(m, "Cmd").Some? <==> cmd != [])
  {
    var fields := cmd + [Entry("Format", Str("B64")), Entry("Data", Str(data))];
    var tail := [Entry("Format", Str("B64")), Entry("Data", Str(data))];
    assert tail[1..] == [Entry("Data", Str(data))] && tail[1..][1..] == [];
    assert Lookup(tail[1..], "Cmd") == None && Lookup(tail[1..], "Data") == Some(Str(data));
    assert Lookup(tail, "Cmd") == None && Lookup(tail, "Data") == Some(Str(data));
    if cmd == [] {
      assert fields == tail;
    } else {
      assert fields[0] == cmd[0] && fields[1..] == tail;
    }
    assert Lookup(fields, "Data") == Some(Str(data));
    assert Lookup(fields, "Format") == Some(Str("B64"));
    assert Lookup(fields, "Cmd") == if cmd == [] then None else Some(Str("Control"));
    MessageFields(dev, Str(""), fields, "Cmd");
    MessageFields(dev, Str(""), fields, "Format");
    MessageFields(dev, Str(""), fields, "Data");
  }

  /** The three ways to part, on blobs of any content: a command nobody acknowledges, */
  lemma UnacknowledgedParts(lib: Library, data: string, blob: Bytes)
    requires lib.b64decode(data) == Some(blob) && blob != []
    ensures var msgs := [Reading("A", [Entry("Cmd", Str("Control"))], data)];
      Terminated(lib, "unknown", msgs) == [Snapshot("A", blob)] && Observed(lib, None, msgs) == []
  {
    var m := Reading("A", [Entry("Cmd", Str("Control"))], data);
    ReadingFields("A", [Entry("Cmd", Str("Control"))], data);
    hide Reading, BodyField, HeaderId, IsAcknowledged;
    assert [m][1..] == [];
  }

  /** a reading before any id, */
  lemma NamelessParts(lib: Library, data: string, blob: Bytes)
    requires lib.b64decode(data) == Some(blob) && blob != []
    ensures var msgs := [Reading("", [], data)];
      Terminated(lib, "unknown", msgs) == [Snapshot("", blob)] && Observed(lib, None, msgs) == []
  {
    var m := Reading("", [], data);
    ReadingFields("", [], data);
    hide Reading, BodyField, HeaderId, IsAcknowledged;
    assert [m][1..] == [];
  }

  /** and a reading under an empty id. */
  lemma EmptyIdParts(lib: Library, data: string, blob: Bytes)
    requires lib.b64decode(data) == Some(blob) && blob != []
    ensures var msgs := [Reading("A", [], data), Reading("", [], data)];
      && Terminated(lib, "unknown", msgs) == [Snapshot("A", blob), Snapshot("", blob)]
      && Observed(lib, None, msgs) == [Snapshot("A", blob), Snapshot("A", blob)]
  {
    var a, e := Reading("A", [], data), Reading("", [], data);
    ReadingFields("A", [], data);
    ReadingFields("", [], data);
    hide Reading, BodyField, HeaderId, IsAcknowledged;
    assert [e][1..] == [] && [a, e][1..] == [e];
    assert Terminated(lib, "A", [e]) == [Snapshot("", blob)];
    assert Observed(lib, Some("A"), [e]) == [Snapshot("A", blob)];
  }

  /** The messages an appliance sends. */
  ghost predicate ApplianceMessage(msg: Obj)
  {
    && (HeaderId(msg).Some? && HeaderId(msg).value != "")
    && (BodyField(msg, "Cmd") == None || IsAcknowledged(msg))
  }

  /** On appliance messages the two modes agree, whatever the cuts. */
  lemma {:induction false} ApplianceStreamsAgree(lib: Library, known: bool, msgs: seq<Obj>)
    requires forall i :: 0 <= i < |msgs| ==> ApplianceMessage(msgs[i])
    ensures NeverDiverges(lib, known, msgs)
    decreases |msgs|
  {
    if msgs != [] {
      assert ApplianceMessage(msgs[0]);
      ApplianceStreamsAgree(lib, true, msgs[1..]);
    }
  }
}
