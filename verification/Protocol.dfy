/** The Header/Body vocabulary of :47878 and the server's reaction to one message. */
module Protocol {
  import opened ByteStrings
  import opened PyObjects

  const DEVICE_ID := "x-lgedm-deviceId"

  /** d.get(k) on a dict; the protocol's Header and Body are dicts. */
  function Field(d: Obj, k: string): Option<Obj>
  {
    if d.Dict? then Lookup(d.entries, k) else None
  }

  function Body(msg: Obj): Obj
  {
    match Field(msg, "Body")
    case Some(b) => b
    case None => Dict([])
  }

  function BodyField(msg: Obj, k: string): Option<Obj>
  {
    Field(Body(msg), k)
  }

  predicate BodyIs(msg: Obj, k: string, s: string)
  {
    BodyField(msg, k) == Some(Str(s))
  }

  /** The device id a message's Header carries. */
  function HeaderId(msg: Obj): Option<string>
  {
    match Field(msg, "Header")
    case Some(h) =>
      (match Field(h, DEVICE_ID)
       case Some(id) => if id.Str? then Some(id.s) else None
       case None => None)
    case None => None
  }

  /** make_message. */
  function MakeMessage(dev: string, wid: Obj, fields: seq<Entry>): Obj
  {
    Dict([Entry("Header", Dict([Entry(DEVICE_ID, Str(dev))])),
          Entry("Body", Dict([Entry("CmdWId", wid)] + fields))])
  }

  function MonStart(dev: string, wid: string): Obj
  {
    MakeMessage(dev, Str(wid), [Entry("Cmd", Str("Mon")), Entry("CmdOpt", Str("Start"))])
  }

  function Ack(dev: string, wid: Obj): Obj
  {
    MakeMessage(dev, wid, [Entry("ReturnCode", Str("0000"))])
  }

  predicate IsMonStart(msg: Obj)
  {
    BodyIs(msg, "Cmd", "Mon") && BodyIs(msg, "CmdOpt", "Start")
  }

  /** The four kinds of message the server acknowledges. */
  predicate IsAcknowledged(msg: Obj)
  {
    || BodyIs(msg, "Cmd", "DevInfo")
    || BodyIs(msg, "Cmd", "Alive")
    || IsMonStart(msg)
    || (BodyIs(msg, "Cmd", "Mon") && BodyIs(msg, "CmdOpt", "Stop"))
  }

  /** body.get("CmdWId", ""). */
  function WidOf(msg: Obj): Obj
  {
    match BodyField(msg, "CmdWId")
    case Some(w) => w
    case None => Str("")
  }

  /** The reply handle_incoming chooses. */
  function ReplyTo(dev: string, msg: Obj): Option<Obj>
  {
    if IsAcknowledged(msg) then Some(Ack(dev, WidOf(msg))) else None
  }

  /** Everything the connection's handler sends for one message: the reply, and a Mon Start
      after a DevInfo. */
  function Responses(dev: string, msg: Obj): seq<Obj>
  {
    (if IsAcknowledged(msg) then [Ack(dev, WidOf(msg))] else [])
    + (if BodyIs(msg, "Cmd", "DevInfo") then [MonStart(dev, MonWid(dev))] else [])
  }

  function Head8(dev: string): string
  {
    if |dev| <= 8 then dev else dev[..8]
  }

  function MonWid(dev: string): string
  {
    "n-" + Head8(dev) + "-mon"
  }

  /** A decoded pump snapshot handed to the state store. */
  datatype Snapshot = Snapshot(dev: string, blob: Bytes)

  /** base64 text that fails to decode, or decodes to nothing, is not ingested. */
  function Decoded64(lib: Library, dev: string, data: Obj): seq<Snapshot>
  {
    if !data.Str? then []
    else
      match lib.b64decode(data.s)
      case Some(blob) => if blob == [] then [] else [Snapshot(dev, blob)]
      case None => []
  }

  /** What handle_incoming ingests: a B64 body that is none of the acknowledged kinds. */
  function Ingest(lib: Library, dev: string, msg: Obj): seq<Snapshot>
  {
    if !IsAcknowledged(msg) && BodyIs(msg, "Format", "B64") then
      match BodyField(msg, "Data")
      case Some(data) => Decoded64(lib, dev, data)
      case None => Decoded64(lib, dev, Str(""))
    else []
  }

  lemma MessageFields(dev: string, wid: Obj, fields: seq<Entry>, k: string)
    ensures HeaderId(MakeMessage(dev, wid, fields)) == Some(dev)
    ensures BodyField(MakeMessage(dev, wid, fields), k)
      == if k == "CmdWId" then Some(wid) else Lookup(fields, k)
  {
    var m := MakeMessage(dev, wid, fields);
    assert Lookup(m.entries, "Header") == Some(m.entries[0].val);
    assert m.entries[1..] == [m.entries[1]];
    assert Lookup(m.entries, "Body") == Some(m.entries[1].val);
    assert ([Entry("CmdWId", wid)] + fields)[1..] == fields;
  }

  /** A message has a device in its header and nothing else, and its id and its fields in its body
      and nothing else. */
  lemma MessageLayout(dev: string, wid: Obj, fields: seq<Entry>)
    ensures var m := MakeMessage(dev, wid, fields);
      && m.Dict? && |m.entries| == 2
      && Field(m, "Header") == Some(Dict([Entry("x-lgedm-deviceId", Str(dev))]))
      && Field(m, "Body") == Some(Dict([Entry("CmdWId", wid)] + fields))
  {
    var m := MakeMessage(dev, wid, fields);
    assert m.entries[1..] == [m.entries[1]];
    assert Lookup(m.entries, "Header") == Some(m.entries[0].val);
    assert Lookup(m.entries, "Body") == Some(m.entries[1].val);
  }

  /** The id a header carries, by the name of the key. */
  lemma HeaderIdIs(msg: Obj, id: string)
    ensures HeaderId(msg) == Some(id)
      <==> Field(msg, "Header").Some? && Field(Field(msg, "Header").value, "x-lgedm-deviceId") == Some(Str(id))
  {
  }

  /** Which messages are answered, and by what, on the texts of their Body: DevInfo, Alive, and Mon
      with Start or Stop; a DevInfo also gets a Mon Start, whose id the first eight characters of
      the device's make. */
  lemma RepliesAre(dev: string, msg: Obj)
    ensures var cmd, opt := BodyField(msg, "Cmd"), BodyField(msg, "CmdOpt");
      var answered :=
        || cmd == Some(Str("DevInfo")) || cmd == Some(Str("Alive"))
        || (cmd == Some(Str("Mon")) && (opt == Some(Str("Start")) || opt == Some(Str("Stop"))));
      var short := if |dev| <= 8 then dev else dev[..8];
      && (ReplyTo(dev, msg).Some? <==> answered)
      && Responses(dev, msg)
         == (if answered then [ReplyTo(dev, msg).value] else [])
            + (if cmd == Some(Str("DevInfo")) then [MonStart(dev, "n-" + short + "-mon")] else [])
  {
    hide BodyField, Ack, MonStart;
  }

  /** What is ingested, on the same texts: a B64 body of an unanswered message whose data decodes to
      something, under the device's id. */
  lemma IngestIs(lib: Library, dev: string, msg: Obj)
    requires Lawful(lib)
    ensures var data := BodyField(msg, "Data");
      var taken :=
        && ReplyTo(dev, msg) == None
        && BodyField(msg, "Format") == Some(Str("B64"))
        && data.Some? && data.value.Str?
        && lib.b64decode(data.value.s).Some? && lib.b64decode(data.value.s).value != [];
      Ingest(lib, dev, msg)
        == if taken then [Snapshot(dev, lib.b64decode(data.value.s).value)] else []
  {
    hide BodyField;
  }

  /** A reply is a 0000 ack to the very message: its device, its own id, or "" when it has none. */
  lemma ReplyEchoes(dev: string, msg: Obj)
    requires ReplyTo(dev, msg).Some?
    ensures var reply := ReplyTo(dev, msg).value;
      && HeaderId(reply) == Some(dev) && BodyIs(reply, "ReturnCode", "0000")
      && BodyField(reply, "CmdWId")
         == (if BodyField(msg, "CmdWId").Some? then BodyField(msg, "CmdWId") else Some(Str("")))
      && |Body(reply).entries| == 2
  {
    AckFields(dev, WidOf(msg));
    hide BodyField, HeaderId, Body, Ack;
  }

  lemma MessageBody(dev: string, wid: Obj, fields: seq<Entry>)
    ensures Body(MakeMessage(dev, wid, fields)) == Dict([Entry("CmdWId", wid)] + fields)
  {
    var m := MakeMessage(dev, wid, fields);
    assert m.entries[1..] == [m.entries[1]];
    assert Lookup(m.entries, "Body") == Some(m.entries[1].val);
  }

  lemma AckFields(dev: string, wid: Obj)
    ensures var ack := Ack(dev, wid);
      && HeaderId(ack) == Some(dev)
      && Body(ack) == Dict([Entry("CmdWId", wid), Entry("ReturnCode", Str("0000"))])
      && BodyField(ack, "CmdWId") == Some(wid) && BodyField(ack, "ReturnCode") == Some(Str("0000"))
  {
    var fields := [Entry("ReturnCode", Str("0000"))];
    assert fields[1..] == [];
    MessageFields(dev, wid, fields, "ReturnCode");
    MessageFields(dev, wid, fields, "CmdWId");
    MessageBody(dev, wid, fields);
  }

  /** No ack ever causes a reply, on either side. */
  lemma AcksAreSilent(dev: string, dev': string, wid: Obj)
    ensures Responses(dev, Ack(dev', wid)) == []
    ensures !IsMonStart(Ack(dev', wid)) && BodyField(Ack(dev', wid), "ReturnCode").Some?
    ensures BodyField(Ack(dev', wid), "Cmd") == None
  {
    var fields := [Entry("ReturnCode", Str("0000"))];
    assert fields[1..] == [];
    MessageFields(dev', wid, fields, "Cmd");
    MessageFields(dev', wid, fields, "ReturnCode");
  }

  lemma MonStartFields(dev: string, wid: string)
    ensures var m := MonStart(dev, wid);
      && BodyField(m, "Cmd") == Some(Str("Mon")) && BodyField(m, "CmdOpt") == Some(Str("Start"))
      && HeaderId(m) == Some(dev) && |Body(m).entries| == 3
    ensures IsMonStart(MonStart(dev, wid)) && BodyField(MonStart(dev, wid), "ReturnCode") == None
    ensures BodyField(MonStart(dev, wid), "CmdWId") == Some(Str(wid))
  {
    var fields := [Entry("Cmd", Str("Mon")), Entry("CmdOpt", Str("Start"))];
    assert fields[1..] == [Entry("CmdOpt", Str("Start"))] && fields[1..][1..] == [];
    MessageFields(dev, Str(wid), fields, "Cmd");
    MessageFields(dev, Str(wid), fields, "CmdOpt");
    MessageFields(dev, Str(wid), fields, "ReturnCode");
    MessageFields(dev, Str(wid), fields, "CmdWId");
    MessageBody(dev, Str(wid), fields);
  }
}
