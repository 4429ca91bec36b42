/** The registration table, and everything that is ever written to a :47878 connection. */
module Channel {
  import opened ByteStrings
  import opened PyObjects
  import opened Protocol
  import opened Decimal
  import Modes
  import Len4
  import Msgpack
  import FridgeStream

  type Sock = nat
  type Tid = nat

  datatype Codec = Fridge | Wm

  function EncodeWith(lib: Library, codec: Codec, msg: Obj): Option<Bytes>
  {
    match codec
    case Fridge => Msgpack.EncodeMessage(lib, msg)
    case Wm => Len4.EncodeMessage(lib, msg)
  }

  datatype Registration = Registration(sock: Sock, codec: Codec)

  type Table = map<string, Registration>

  /** The identity check of unregister and of a failed send. */
  function DropIfStill(table: Table, dev: string, sock: Sock): Table
  {
    if dev in table && table[dev].sock == sock then table - {dev} else table
  }

  function Wid(dev: string, n: nat): string
  {
    "n-" + Head8(dev) + "-" + Numeral(n)
  }

  /** What one _push comes to; Raised is the ValueError of a message too long to encode. */
  datatype PushResult = Delivered | NotConnected | SendFailed | Raised

  /** What _push does, from (table, frames) to (table', frames'), when nobody interferes. */
  ghost predicate PushOutcome(lib: Library, dev: string, msg: Obj, sendOk: bool, r: PushResult,
                              table: Table, frames: seq<(Sock, Bytes)>,
                              table': Table, frames': seq<(Sock, Bytes)>)
  {
    if dev !in table then r == NotConnected && table' == table && frames' == frames
    else
      match EncodeWith(lib, table[dev].codec, msg)
      case None => r == Raised && table' == table && frames' == frames
      case Some(frame) =>
        if sendOk then
          r == Delivered && table' == table && frames' == frames + [(table[dev].sock, frame)]
        else
          r == SendFailed && table' == table - {dev} && frames' == frames
  }

  /** A command as the appliance sees it: the fields of its body, each where it belongs, and no
      others. */
  ghost predicate IsCommand(m: Obj, dev: string, wid: string, cmd: Obj, cmdOpt: Obj, value: Obj)
  {
    && HeaderId(m) == Some(dev)
    && BodyField(m, "CmdWId") == Some(Str(wid))
    && BodyField(m, "Cmd") == Some(cmd)
    && BodyField(m, "CmdOpt") == Some(cmdOpt)
    && BodyField(m, "Value") == Some(value)
    && BodyField(m, "Data") == Some(Str(""))
    && Body(m).Dict? && |Body(m).entries| == 5
  }

  lemma CommandFields(dev: string, wid: string, cmd: Obj, cmdOpt: Obj, value: Obj)
    ensures IsCommand(CommandMessage(dev, wid, cmd, cmdOpt, value), dev, wid, cmd, cmdOpt, value)
  {
    var fields := [Entry("Cmd", cmd), Entry("CmdOpt", cmdOpt), Entry("Value", value), Entry("Data", Str(""))];
    var m := CommandMessage(dev, wid, cmd, cmdOpt, value);
    MessageLayout(dev, Str(wid), fields);
    MessageFields(dev, Str(wid), fields, "CmdWId");
    LookupAt(fields, 0);
    LookupAt(fields, 1);
    LookupAt(fields, 2);
    LookupAt(fields, 3);
    MessageFields(dev, Str(wid), fields, "Cmd");
    MessageFields(dev, Str(wid), fields, "CmdOpt");
    MessageFields(dev, Str(wid), fields, "Value");
    MessageFields(dev, Str(wid), fields, "Data");
  }

  /** ControlChannel: the table and the message counter, each operation under the lock, and the
      frames handed to the sockets. */
  class ControlChannel {
    const lib: Library
    var connections: Table
    var cmdCounter: nat
    var frames: seq<(Sock, Bytes)>

    constructor (lib: Library)
      ensures this.lib == lib && connections == map[] && cmdCounter == 0 && frames == []
    {
      this.lib, connections, cmdCounter, frames := lib, map[], 0, [];
    }

    method Register(dev: string, sock: Sock, codec: Codec)
      modifies `connections
      ensures connections == old(connections)[dev := Registration(sock, codec)]
    {
      connections := connections[dev := Registration(sock, codec)];
    }

    method Unregister(dev: string, sock: Option<Sock>)
      modifies `connections
      ensures sock == None ==> connections == old(connections) - {dev}
      ensures sock.Some? ==> connections == DropIfStill(old(connections), dev, sock.value)
    {
      if dev !in connections {
        return;
      }
      if sock == None || connections[dev].sock == sock.value {
        connections := connections - {dev};
      }
    }

    method NextWid(dev: string) returns (wid: string)
      modifies `cmdCounter
      ensures cmdCounter == old(cmdCounter) + 1 && wid == Wid(dev, cmdCounter)
      ensures wid == "n-" + (if |dev| <= 8 then dev else dev[..8]) + "-" + Numeral(cmdCounter)
    {
      cmdCounter := cmdCounter + 1;
      wid := "n-" + Head8(dev) + "-" + Numeral(cmdCounter);
    }

    /** _push with nobody else interfering; sendOk says whether the socket takes the frame. */
    method Push(dev: string, msg: Obj, sendOk: bool) returns (r: PushResult)
      modifies `connections, `frames
      ensures PushOutcome(lib, dev, msg, sendOk, r,
                          old(connections), old(frames), connections, frames)
    {
      if dev !in connections {
        return NotConnected;
      }
      var entry := connections[dev];
      var frame := EncodeWith(lib, entry.codec, msg);
      if frame == None {
        return Raised;
      }
      if sendOk {
        frames := frames + [(entry.sock, frame.value)];
        return Delivered;
      }
      if dev in connections && connections[dev].sock == entry.sock {
        connections := connections - {dev};
      }
      r := SendFailed;
    }

    /** query_state: never gated. */
    method QueryState(dev: string, sendOk: bool) returns (r: PushResult)
      modifies this
      ensures cmdCounter == old(cmdCounter) + 1
      ensures PushOutcome(lib, dev, MonStart(dev, Wid(dev, cmdCounter)), sendOk, r,
                          old(connections), old(frames), connections, frames)
    {
      var wid := NextWid(dev);
      r := Push(dev, MonStart(dev, wid), sendOk);
    }

    /** send_command: with control off it changes nothing, not even the counter. */
    method SendCommand(allowControl: bool, dev: string, cmd: Obj, cmdOpt: Obj, value: Obj, sendOk: bool)
        returns (r: PushResult, ghost m: Obj)
      modifies this
      ensures IsCommand(m, dev, Wid(dev, old(cmdCounter) + 1), cmd, cmdOpt, value)
      ensures !allowControl ==>
        && r == NotConnected && cmdCounter == old(cmdCounter)
        && frames == old(frames) && connections == old(connections)
      ensures allowControl ==>
        && cmdCounter == old(cmdCounter) + 1
        && PushOutcome(lib, dev, m, sendOk, r, old(connections), old(frames), connections, frames)
    {
      CommandFields(dev, Wid(dev, cmdCounter + 1), cmd, cmdOpt, value);
      m := CommandMessage(dev, Wid(dev, cmdCounter + 1), cmd, cmdOpt, value);
      hide CommandMessage, IsCommand;
      if !allowControl {
        r := NotConnected;
        return;
      }
      var wid := NextWid(dev);
      r := Push(dev, CommandMessage(dev, wid, cmd, cmdOpt, value), sendOk);
    }
  }

  // ---- Message ids ----

  /** Two minted ids with different counters differ, whatever the devices are called, and none
      is a handler's Mon Start id. */
  lemma WidsDistinct(dev: string, m: nat, dev': string, n: nat)
    ensures m != n ==> Wid(dev, m) != Wid(dev', n)
    ensures Wid(dev, m) != MonWid(dev')
  {
    var a, b := Wid(dev, m), Wid(dev', n);
    assert a[|a| - 1] == Numeral(m)[|Numeral(m)| - 1];
    assert MonWid(dev')[|MonWid(dev')| - 1] == 'n';
    if a == b {
      if |Numeral(m)| < |Numeral(n)| {
        DashBeforeNumeral(dev, m, dev', n);
      } else if |Numeral(n)| < |Numeral(m)| {
        DashBeforeNumeral(dev', n, dev, m);
      } else {
        assert a[|a| - |Numeral(m)|..] == Numeral(m);
        assert b[|b| - |Numeral(n)|..] == Numeral(n);
        NumeralInjective(m, n);
      }
    }
  }

  lemma DashBeforeNumeral(dev: string, m: nat, dev': string, n: nat)
    requires |Numeral(m)| < |Numeral(n)|
    ensures Wid(dev, m) != Wid(dev', n)
  {
    var a, b := Wid(dev, m), Wid(dev', n);
    var from := |Numeral(m)| + 1;
    assert a[|a| - from] == '-';
    assert b[|b| - from] == Numeral(n)[|Numeral(n)| - from];
  }

  // ---- Interleaved runs ----

  /** A connection and its handler: the id it goes by, and what it still has to send. */
  datatype Conn = Conn(codec: Codec, devId: string, queue: seq<Obj>, open: bool)

  /** A _push in progress on some thread. */
  datatype Call =
    | Ready(dev: string, msg: Obj)
    | Captured(dev: string, msg: Obj, entry: Registration)
    | Failed(dev: string, sock: Sock)

  /** One sendall: all of the frame, or some of it when the send failed. */
  datatype Write = Write(sock: Sock, msg: Obj, bytes: Bytes, whole: bool)

  datatype Minted = Minted(dev: string, wid: string)

  /** The server's state, and the history the properties speak about: every write, every minted
      id, who registered last, whose latest registration the cleanup of a failed send took out,
      which sockets failed a send, which handlers are gone. */
  datatype State = State(
    conns: map<Sock, Conn>,
    table: Table,
    counter: nat,
    calls: map<Tid, Call>,
    log: seq<Write>,
    minted: seq<Minted>,
    latest: map<string, Sock>,
    dropped: set<string>,
    failed: set<Sock>,
    exited: set<Sock>)

  const INITIAL := State(map[], map[], 0, map[], [], [], map[], {}, {}, {})

  datatype Step =
    | Accept(sock: Sock, codec: Codec)
    | Incoming(sock: Sock, msg: Obj)
    | HandlerSend(sock: Sock, ok: bool, sent: nat)
    | Exit(sock: Sock)
    | Query(tid: Tid, dev: string)
    | Command(tid: Tid, dev: string, cmd: Obj, cmdOpt: Obj, value: Obj)
    | Capture(tid: Tid)
    | PushSend(tid: Tid, ok: bool, sent: nat)
    | Cleanup(tid: Tid)

  /** What a sendall leaves on the wire. */
  function WriteOf(sock: Sock, msg: Obj, frame: Bytes, ok: bool, sent: nat): Write
  {
    if ok || sent >= |frame| then Write(sock, msg, frame, ok) else Write(sock, msg, frame[..sent], false)
  }

  /** The handler's way out, by error or end of stream: its finally clause. */
  function ExitHandler(s: State, sock: Sock): State
    requires sock in s.conns
  {
    var c := s.conns[sock];
    s.(conns := s.conns[sock := c.(queue := [], open := false)],
       table := if c.devId != "unknown" then DropIfStill(s.table, c.devId, sock) else s.table,
       exited := s.exited + {sock})
  }

  function ApplyIncoming(s: State, sock: Sock, msg: Obj): State
  {
    if sock in s.conns && s.conns[sock].open && s.conns[sock].queue == [] then
      var c := s.conns[sock];
      var dev := Modes.NextDev(c.devId, msg);
      s.(conns := s.conns[sock := c.(devId := dev, queue := Responses(dev, msg))],
         table := s.table[dev := Registration(sock, c.codec)],
         latest := s.latest[dev := sock],
         dropped := s.dropped - {dev})
    else s
  }

  function ApplyHandlerSend(lib: Library, s: State, sock: Sock, ok: bool, sent: nat): State
  {
    if sock in s.conns && s.conns[sock].open && s.conns[sock].queue != [] then
      var c := s.conns[sock];
      match EncodeWith(lib, c.codec, c.queue[0])
      case None => ExitHandler(s, sock)
      case Some(frame) =>
        var s' := s.(log := s.log + [WriteOf(sock, c.queue[0], frame, ok, sent)]);
        if ok then s'.(conns := s.conns[sock := c.(queue := c.queue[1..])])
        else ExitHandler(s', sock).(failed := s.failed + {sock})
    else s
  }

  function ApplyMint(s: State, tid: Tid, dev: string, msg: Obj): State
  {
    s.(counter := s.counter + 1,
       minted := s.minted + [Minted(dev, Wid(dev, s.counter + 1))],
       calls := s.calls[tid := Ready(dev, msg)])
  }

  function ApplyCapture(s: State, tid: Tid): State
  {
    if tid in s.calls && s.calls[tid].Ready? then
      var c := s.calls[tid];
      if c.dev in s.table then s.(calls := s.calls[tid := Captured(c.dev, c.msg, s.table[c.dev])])
      else s.(calls := s.calls - {tid})
    else s
  }

  function ApplyPushSend(lib: Library, s: State, tid: Tid, ok: bool, sent: nat): State
  {
    if tid in s.calls && s.calls[tid].Captured? then
      var c := s.calls[tid];
      match EncodeWith(lib, c.entry.codec, c.msg)
      case None => s.(calls := s.calls - {tid})
      case Some(frame) =>
        var s' := s.(log := s.log + [WriteOf(c.entry.sock, c.msg, frame, ok, sent)]);
        if ok then s'.(calls := s.calls - {tid})
        else s'.(calls := s.calls[tid := Failed(c.dev, c.entry.sock)],
                 failed := s.failed + {c.entry.sock})
    else s
  }

  function ApplyCleanup(s: State, tid: Tid): State
  {
    if tid in s.calls && s.calls[tid].Failed? then
      var c := s.calls[tid];
      s.(calls := s.calls - {tid},
         table := DropIfStill(s.table, c.dev, c.sock),
         dropped := if c.dev in s.latest && s.latest[c.dev] == c.sock then s.dropped + {c.dev} else s.dropped)
    else s
  }

  /** send_command's message. */
  function CommandMessage(dev: string, wid: string, cmd: Obj, cmdOpt: Obj, value: Obj): Obj
  {
    MakeMessage(dev, Str(wid), [Entry("Cmd", cmd), Entry("CmdOpt", cmdOpt),
                                Entry("Value", value), Entry("Data", Str(""))])
  }

  /** One atomic step of some thread; a step that is not enabled changes nothing. */
  function Apply(lib: Library, control: bool, s: State, step: Step): State
  {
    match step
    case Accept(sock, codec) =>
      if sock in s.conns then s
      else s.(conns := s.conns[sock := Conn(codec, "unknown", [], true)])
    case Incoming(sock, msg) => ApplyIncoming(s, sock, msg)
    case HandlerSend(sock, ok, sent) => ApplyHandlerSend(lib, s, sock, ok, sent)
    case Exit(sock) =>
      if sock in s.conns && s.conns[sock].open then ExitHandler(s, sock) else s
    case Query(tid, dev) =>
      if tid in s.calls then s
      else ApplyMint(s, tid, dev, MonStart(dev, Wid(dev, s.counter + 1)))
    case Command(tid, dev, cmd, cmdOpt, value) =>
      if tid in s.calls || !control then s
      else ApplyMint(s, tid, dev, CommandMessage(dev, Wid(dev, s.counter + 1), cmd, cmdOpt, value))
    case Capture(tid) => ApplyCapture(s, tid)
    case PushSend(tid, ok, sent) => ApplyPushSend(lib, s, tid, ok, sent)
    case Cleanup(tid) => ApplyCleanup(s, tid)
  }

  function Run(lib: Library, control: bool, s: State, steps: seq<Step>): State
    decreases |steps|
  {
    if steps == [] then s else Run(lib, control, Apply(lib, control, s, steps[0]), steps[1..])
  }

  function WholeFrames(log: seq<Write>): seq<(Sock, Bytes)>
  {
    if log == [] then []
    else (if log[0].whole then [(log[0].sock, log[0].bytes)] else []) + WholeFrames(log[1..])
  }

  /** The three steps of a push, with nobody in between, are the _push of the class. */
  lemma PushUninterrupted(lib: Library, control: bool, s: State, tid: Tid, ok: bool, sent: nat)
      returns (r: PushResult, writes: seq<Write>)
    requires tid in s.calls && s.calls[tid].Ready?
    ensures var s' := Run(lib, control, s, [Capture(tid), PushSend(tid, ok, sent), Cleanup(tid)]);
      && tid !in s'.calls && s'.log == s.log + writes
      && PushOutcome(lib, s.calls[tid].dev, s.calls[tid].msg, ok, r,
                     s.table, [], s'.table, WholeFrames(writes))
  {
    hide EncodeWith;
    var c := s.calls[tid];
    var s1 := ApplyCapture(s, tid);
    var s2 := ApplyPushSend(lib, s1, tid, ok, sent);
    var s3 := ApplyCleanup(s2, tid);
    RunThree(lib, control, s, Capture(tid), PushSend(tid, ok, sent), Cleanup(tid));
    writes := s2.log[|s.log|..];
    if c.dev !in s.table {
      r := NotConnected;
    } else {
      var entry := s.table[c.dev];
      var frame := EncodeWith(lib, entry.codec, c.msg);
      if frame == None {
        r := Raised;
      } else {
        r := if ok then Delivered else SendFailed;
        var w := WriteOf(entry.sock, c.msg, frame.value, ok, sent);
        assert writes == [w] && [w][1..] == [];
        assert !ok ==> s.table - {c.dev} == s3.table;
      }
    }
  }

  lemma RunThree(lib: Library, control: bool, s: State, a: Step, b: Step, c: Step)
    ensures Run(lib, control, s, [a, b, c])
      == Apply(lib, control, Apply(lib, control, Apply(lib, control, s, a), b), c)
  {
    hide Apply;
    assert [a, b, c][1..] == [b, c] && [b, c][1..] == [c] && [c][1..] == [];
    var s2 := Apply(lib, control, Apply(lib, control, s, a), b);
    assert Run(lib, control, s2, [c]) == Run(lib, control, Apply(lib, control, s2, c), []);
  }

  /** A query, taken without interference, is a push of the Mon Start with the next id. */
  lemma QueryIsPush(lib: Library, control: bool, s: State, tid: Tid, dev: string, ok: bool, sent: nat)
      returns (r: PushResult, writes: seq<Write>)
    requires tid !in s.calls
    ensures var s' := Run(lib, control, Apply(lib, control, s, Query(tid, dev)),
                          [Capture(tid), PushSend(tid, ok, sent), Cleanup(tid)]);
      && tid !in s'.calls && s'.counter == s.counter + 1 && s'.log == s.log + writes
      && PushOutcome(lib, dev, MonStart(dev, Wid(dev, s.counter + 1)), ok, r,
                     s.table, [], s'.table, WholeFrames(writes))
  {
    var s1 := Apply(lib, control, s, Query(tid, dev));
    assert s1.calls[tid] == Ready(dev, MonStart(dev, Wid(dev, s.counter + 1)));
    hide MonStart, Wid, PushOutcome, Apply, Run;
    r, writes := PushUninterrupted(lib, control, s1, tid, ok, sent);
    CounterKept(lib, control, s1, tid, ok, sent);
  }

  /** And a command, with control on, is a push of that command; with control off it is nothing. */
  lemma CommandIsPush(lib: Library, s: State, tid: Tid, dev: string, cmd: Obj, cmdOpt: Obj, value: Obj,
                      ok: bool, sent: nat)
      returns (m: Obj, r: PushResult, writes: seq<Write>)
    requires tid !in s.calls
    ensures Apply(lib, false, s, Command(tid, dev, cmd, cmdOpt, value)) == s
    ensures IsCommand(m, dev, Wid(dev, s.counter + 1), cmd, cmdOpt, value)
    ensures var s' := Run(lib, true, Apply(lib, true, s, Command(tid, dev, cmd, cmdOpt, value)),
                          [Capture(tid), PushSend(tid, ok, sent), Cleanup(tid)]);
      && tid !in s'.calls && s'.counter == s.counter + 1 && s'.log == s.log + writes
      && PushOutcome(lib, dev, m, ok, r, s.table, [], s'.table, WholeFrames(writes))
  {
    m := CommandMessage(dev, Wid(dev, s.counter + 1), cmd, cmdOpt, value);
    CommandFields(dev, Wid(dev, s.counter + 1), cmd, cmdOpt, value);
    hide CommandMessage, IsCommand, Wid;
    var s1 := Apply(lib, true, s, Command(tid, dev, cmd, cmdOpt, value));
    assert s1.calls[tid] == Ready(dev, m);
    hide PushOutcome, Apply, Run;
    r, writes := PushUninterrupted(lib, true, s1, tid, ok, sent);
    CounterKept(lib, true, s1, tid, ok, sent);
  }

  lemma CounterKept(lib: Library, control: bool, s: State, tid: Tid, ok: bool, sent: nat)
    ensures Run(lib, control, s, [Capture(tid), PushSend(tid, ok, sent), Cleanup(tid)]).counter == s.counter
  {
    RunThree(lib, control, s, Capture(tid), PushSend(tid, ok, sent), Cleanup(tid));
    StepKeepsCounter(lib, control, s, Capture(tid));
    var s1 := Apply(lib, control, s, Capture(tid));
    StepKeepsCounter(lib, control, s1, PushSend(tid, ok, sent));
    StepKeepsCounter(lib, control, Apply(lib, control, s1, PushSend(tid, ok, sent)), Cleanup(tid));
    hide Apply, Run;
  }

  lemma StepKeepsCounter(lib: Library, control: bool, s: State, step: Step)
    requires step.Capture? || step.PushSend? || step.Cleanup?
    ensures Apply(lib, control, s, step).counter == s.counter
  {
    hide EncodeWith, DropIfStill, WriteOf;
  }

  /** A handler's sends, all succeeding. */
  function Sends(sock: Sock, n: nat): seq<Step>
  {
    if n == 0 then [] else [HandlerSend(sock, true, 0)] + Sends(sock, n - 1)
  }

  ghost predicate AllEncode(lib: Library, codec: Codec, msgs: seq<Obj>)
  {
    forall i :: 0 <= i < |msgs| ==> EncodeWith(lib, codec, msgs[i]).Some?
  }

  /** Messages written whole to a socket, in order. */
  function Writes(lib: Library, codec: Codec, sock: Sock, msgs: seq<Obj>): seq<Write>
    requires AllEncode(lib, codec, msgs)
  {
    if msgs == [] then []
    else [Write(sock, msgs[0], EncodeWith(lib, codec, msgs[0]).value, true)]
         + Writes(lib, codec, sock, msgs[1..])
  }

  lemma {:induction false} SendQueue(lib: Library, control: bool, s: State, sock: Sock)
    requires sock in s.conns && s.conns[sock].open
    requires AllEncode(lib, s.conns[sock].codec, s.conns[sock].queue)
    ensures var c := s.conns[sock];
      var s' := Run(lib, control, s, Sends(sock, |c.queue|));
      s' == s.(conns := s.conns[sock := c.(queue := [])],
               log := s.log + Writes(lib, c.codec, sock, c.queue))
    decreases |s.conns[sock].queue|
  {
    hide EncodeWith, ExitHandler;
    var c := s.conns[sock];
    if c.queue == [] {
      assert s.conns[sock := c.(queue := [])] == s.conns;
      assert s.log + [] == s.log;
    } else {
      var step := HandlerSend(sock, true, 0);
      var s1 := Apply(lib, control, s, step);
      var w := Write(sock, c.queue[0], EncodeWith(lib, c.codec, c.queue[0]).value, true);
      assert s1 == s.(log := s.log + [w], conns := s.conns[sock := c.(queue := c.queue[1..])]);
      hide Apply, AllEncode;
      RestEncodes(lib, c.codec, c.queue);
      SendQueue(lib, control, s1, sock);
      var steps := Sends(sock, |c.queue|);
      assert steps[0] == step && steps[1..] == Sends(sock, |c.queue| - 1);
      Associates(s.log, [w], Writes(lib, c.codec, sock, c.queue[1..]));
      assert s1.conns[sock := c.(queue := [])] == s.conns[sock := c.(queue := [])];
    }
  }

  lemma RestEncodes(lib: Library, codec: Codec, msgs: seq<Obj>)
    requires AllEncode(lib, codec, msgs) && msgs != []
    ensures AllEncode(lib, codec, msgs[1..]) && EncodeWith(lib, codec, msgs[0]).Some?
  {
    hide EncodeWith;
  }

  /** A handler's turn: a message registers its connection under its id, and what is written then
      are the responses to it, in order, each a whole frame. */
  lemma HandlerTurn(lib: Library, control: bool, s: State, sock: Sock, msg: Obj)
    requires sock in s.conns && s.conns[sock].open && s.conns[sock].queue == []
    requires var dev := Modes.NextDev(s.conns[sock].devId, msg);
      AllEncode(lib, s.conns[sock].codec, Responses(dev, msg))
    ensures var c := s.conns[sock];
      var dev := Modes.NextDev(c.devId, msg);
      var s' := Run(lib, control, Apply(lib, control, s, Incoming(sock, msg)), Sends(sock, |Responses(dev, msg)|));
      && s'.conns == s.conns[sock := c.(devId := dev)]
      && s'.table == s.table[dev := Registration(sock, c.codec)]
      && s'.latest == s.latest[dev := sock]
      && s'.log == s.log + Writes(lib, c.codec, sock, Responses(dev, msg))
      && s'.calls == s.calls && s'.counter == s.counter
  {
    hide EncodeWith, Responses, Modes.NextDev, AllEncode;
    var s1 := Apply(lib, control, s, Incoming(sock, msg));
    SendQueue(lib, control, s1, sock);
    hide Run, Writes, Sends;
    assert s1.conns[sock := s1.conns[sock].(queue := [])] == s.conns[sock := s1.conns[sock].(queue := [])];
  }

  // ---- Registration safety ----

  /** The table holds the latest registration of each device; it has lost one only when the
      latest socket failed a send or its handler is gone. */
  ghost predicate Registered(s: State)
  {
    && (forall dev :: dev in s.table ==> dev in s.latest && s.latest[dev] == s.table[dev].sock)
    && (forall dev :: dev in s.latest && dev !in s.table ==> s.latest[dev] in s.failed + s.exited)
    && (forall tid :: tid in s.calls && s.calls[tid].Failed? ==> s.calls[tid].sock in s.failed)
  }

  lemma RegisteredHandlerSend(lib: Library, s: State, sock: Sock, ok: bool, sent: nat)
    requires Registered(s)
    ensures Registered(ApplyHandlerSend(lib, s, sock, ok, sent))
  {
    hide EncodeWith, WriteOf;
  }

  lemma RegisteredIncoming(s: State, sock: Sock, msg: Obj)
    requires Registered(s)
    ensures Registered(ApplyIncoming(s, sock, msg))
  {
    hide Responses, Modes.NextDev;
  }

  lemma RegisteredCleanup(s: State, tid: Tid)
    requires Registered(s)
    ensures Registered(ApplyCleanup(s, tid))
  {
  }

  lemma RegisteredStep(lib: Library, control: bool, s: State, step: Step)
    requires Registered(s)
    ensures Registered(Apply(lib, control, s, step))
  {
    match step {
      case Incoming(sock, msg) => RegisteredIncoming(s, sock, msg);
      case HandlerSend(sock, ok, sent) => RegisteredHandlerSend(lib, s, sock, ok, sent);
      case Cleanup(tid) => RegisteredCleanup(s, tid);
      case _ =>
    }
    hide EncodeWith, WriteOf, MonStart, CommandMessage, Wid, ApplyIncoming, ApplyHandlerSend, ApplyCleanup;
  }

  lemma {:induction false} RegistrationSafety(lib: Library, control: bool, s: State, steps: seq<Step>)
    requires Registered(s)
    ensures Registered(Run(lib, control, s, steps))
    decreases |steps|
  {
    if steps != [] {
      hide Registered, Apply;
      RegisteredStep(lib, control, s, steps[0]);
      RegistrationSafety(lib, control, Apply(lib, control, s, steps[0]), steps[1..]);
    }
  }

  /** In every run: a device's entry is its most recently registered socket; it is absent only
      if the device never registered, or that very socket failed a send or lost its handler. */
  lemma EntryIsLatest(lib: Library, control: bool, steps: seq<Step>, dev: string)
    ensures var s := Run(lib, control, INITIAL, steps);
      if dev in s.table then dev in s.latest && s.table[dev].sock == s.latest[dev]
      else dev !in s.latest || s.latest[dev] in s.failed || s.latest[dev] in s.exited
  {
    RegistrationSafety(lib, control, INITIAL, steps);
    hide Run;
  }

  /** Who takes an entry out: its own handler on the way out, or a send that failed on its own
      socket. A superseded handler or a late failure leaves a newer entry alone. */
  lemma OnlyItsOwnSocketRemoves(lib: Library, control: bool, s: State, step: Step, dev: string)
    requires dev in s.table && dev !in Apply(lib, control, s, step).table
    ensures match step
      case HandlerSend(sock, ok, _) => sock == s.table[dev].sock && sock in s.conns && s.conns[sock].devId == dev
      case Exit(sock) => sock == s.table[dev].sock && sock in s.conns && s.conns[sock].devId == dev
      case Cleanup(tid) => tid in s.calls && s.calls[tid] == Failed(dev, s.table[dev].sock)
      case _ => false
  {
    hide EncodeWith, Responses, Modes.NextDev, MonStart, CommandMessage, Wid;
  }

  // ---- What a closed connection leaves behind ----

  /** The handler of a socket is gone and unregistered a device on its way out: the id it went by
      last, unless that was "unknown". */
  ghost predicate Unregistered(s: State, sock: Sock, dev: string)
  {
    sock in s.conns && !s.conns[sock].open && s.conns[sock].devId == dev && dev != "unknown"
  }

  /** The table, worked out from the history alone: a device is in it, with the socket that
      registered it last, unless that socket's handler unregistered it or the cleanup of a failed
      send dropped it. */
  ghost predicate InTable(s: State, dev: string)
  {
    && dev in s.latest && dev !in s.dropped && !Unregistered(s, s.latest[dev], dev)
  }

  ghost predicate FromHistory(s: State)
  {
    && (forall dev :: dev in s.table <==> InTable(s, dev))
    && (forall dev :: dev in s.table ==> s.table[dev].sock == s.latest[dev])
    && (forall dev :: dev in s.latest ==> s.latest[dev] in s.conns)
  }

  lemma HistoryExit(s: State, sock: Sock)
    requires FromHistory(s) && sock in s.conns && s.conns[sock].open
    ensures FromHistory(ExitHandler(s, sock))
  {
  }

  lemma HistoryIncoming(s: State, sock: Sock, msg: Obj)
    requires FromHistory(s)
    ensures FromHistory(ApplyIncoming(s, sock, msg))
  {
    hide Responses, Modes.NextDev;
  }

  lemma HistoryCleanup(s: State, tid: Tid)
    requires FromHistory(s)
    ensures FromHistory(ApplyCleanup(s, tid))
  {
  }

  lemma HistoryAccept(s: State, sock: Sock, codec: Codec)
    requires FromHistory(s) && sock !in s.conns
    ensures FromHistory(s.(conns := s.conns[sock := Conn(codec, "unknown", [], true)]))
  {
  }

  lemma HistorySame(s: State, s': State)
    requires FromHistory(s)
    requires s'.conns == s.conns && s'.table == s.table && s'.latest == s.latest && s'.dropped == s.dropped
    ensures FromHistory(s')
  {
  }

  lemma HistoryStep(lib: Library, control: bool, s: State, step: Step)
    requires FromHistory(s)
    ensures FromHistory(Apply(lib, control, s, step))
  {
    hide FromHistory, EncodeWith, MonStart, CommandMessage, Wid, WriteOf;
    match step {
      case HandlerSend(sock, ok, sent) => HistoryHandlerSend(lib, s, sock, ok, sent);
      case Exit(sock) =>
        if sock in s.conns && s.conns[sock].open {
          HistoryExit(s, sock);
        }
      case Incoming(sock, msg) => HistoryIncoming(s, sock, msg);
      case Cleanup(tid) => HistoryCleanup(s, tid);
      case Accept(sock, codec) =>
        if sock !in s.conns {
          HistoryAccept(s, sock, codec);
        }
      case _ => HistorySame(s, Apply(lib, control, s, step));
    }
    hide ExitHandler, ApplyHandlerSend, ApplyIncoming, ApplyCleanup, ApplyMint, ApplyCapture, ApplyPushSend;
  }

  lemma HistoryHandlerSend(lib: Library, s: State, sock: Sock, ok: bool, sent: nat)
    requires FromHistory(s)
    ensures FromHistory(ApplyHandlerSend(lib, s, sock, ok, sent))
  {
    hide EncodeWith, WriteOf;
    if sock in s.conns && s.conns[sock].open {
      HistoryExit(s, sock);
      hide DropIfStill;
    }
  }

  lemma {:induction false} HistoryRun(lib: Library, control: bool, s: State, steps: seq<Step>)
    requires FromHistory(s)
    ensures FromHistory(Run(lib, control, s, steps))
    decreases |steps|
  {
    if steps != [] {
      hide FromHistory, Apply;
      HistoryStep(lib, control, s, steps[0]);
      HistoryRun(lib, control, Apply(lib, control, s, steps[0]), steps[1..]);
    }
  }

  /** In every run, a connection whose handler is gone still has a device's entry exactly when it
      was the last to register the device, exited under another id or under "unknown", and no
      cleanup of a failed send dropped the entry. */
  lemma ClosedEntryStaysIff(lib: Library, control: bool, steps: seq<Step>, sock: Sock, dev: string)
    requires var s := Run(lib, control, INITIAL, steps); sock in s.conns && !s.conns[sock].open
    ensures var s := Run(lib, control, INITIAL, steps);
      dev in s.table && s.table[dev].sock == sock
      <==> && dev in s.latest && s.latest[dev] == sock && dev !in s.dropped
           && (s.conns[sock].devId != dev || dev == "unknown")
  {
    HistoryRun(lib, control, INITIAL, steps);
    hide Run;
  }

  function Hello(dev: string): Obj
  {
    MakeMessage(dev, Str(""), [])
  }

  /** It does happen: to a connection that changes its id. */
  lemma FirstIdStays(lib: Library, control: bool)
    ensures var s := Run(lib, control, INITIAL,
                         [Accept(0, Wm), Incoming(0, Hello("A"))] + [Incoming(0, Hello("B"))] + [Exit(0)]);
      s.table == map["A" := Registration(0, Wm)] && 0 in s.conns && !s.conns[0].open
  {
    HelloIs("A");
    HelloIs("B");
    hide EncodeWith, Responses, HeaderId, Hello;
    var a, b := Hello("A"), Hello("B");
    RunTwo(lib, control, INITIAL, Accept(0, Wm), Incoming(0, a));
    RunAppend(lib, control, INITIAL, [Accept(0, Wm), Incoming(0, a)], Incoming(0, b));
    RunAppend(lib, control, INITIAL, [Accept(0, Wm), Incoming(0, a)] + [Incoming(0, b)], Exit(0));
    hide Run;
    var s1 := Apply(lib, control, INITIAL, Accept(0, Wm));
    assert s1.conns == map[0 := Conn(Wm, "unknown", [], true)] && s1.table == map[];
    var s2 := ApplyIncoming(s1, 0, a);
    assert s2.conns == map[0 := Conn(Wm, "A", [], true)] && s2.table == map["A" := Registration(0, Wm)];
    var s3 := ApplyIncoming(s2, 0, b);
    assert s3.conns == map[0 := Conn(Wm, "B", [], true)];
    assert s3.table == map["A" := Registration(0, Wm), "B" := Registration(0, Wm)];
  }

  /** And to one that never gives any. */
  lemma UnknownStays(lib: Library, control: bool)
    ensures var s := Run(lib, control, INITIAL, [Accept(0, Wm), Incoming(0, Dict([]))] + [Exit(0)]);
      s.table == map["unknown" := Registration(0, Wm)] && 0 in s.conns && !s.conns[0].open
  {
    assert HeaderId(Dict([])) == None && Responses("unknown", Dict([])) == [];
    hide EncodeWith, Responses, HeaderId;
    RunTwo(lib, control, INITIAL, Accept(0, Wm), Incoming(0, Dict([])));
    RunAppend(lib, control, INITIAL, [Accept(0, Wm), Incoming(0, Dict([]))], Exit(0));
    hide Run;
    var s1 := Apply(lib, control, INITIAL, Accept(0, Wm));
    assert s1.conns == map[0 := Conn(Wm, "unknown", [], true)] && s1.table == map[];
    var s2 := ApplyIncoming(s1, 0, Dict([]));
    assert s2.conns == map[0 := Conn(Wm, "unknown", [], true)] && s2.table == map["unknown" := Registration(0, Wm)];
  }

  lemma RunTwo(lib: Library, control: bool, s: State, a: Step, b: Step)
    ensures Run(lib, control, s, [a, b]) == Apply(lib, control, Apply(lib, control, s, a), b)
  {
    hide Apply;
    assert [a, b][1..] == [b] && [b][1..] == [];
    var s2 := Apply(lib, control, Apply(lib, control, s, a), b);
    assert Run(lib, control, Apply(lib, control, s, a), [b]) == Run(lib, control, s2, []);
  }

  lemma HelloIs(dev: string)
    ensures HeaderId(Hello(dev)) == Some(dev) && forall d :: Responses(d, Hello(dev)) == []
  {
    MessageFields(dev, Str(""), [], "Cmd");
  }

  lemma {:induction false} RunAppend(lib: Library, control: bool, s: State, steps: seq<Step>, step: Step)
    ensures Run(lib, control, s, steps + [step]) == Apply(lib, control, Run(lib, control, s, steps), step)
    decreases |steps|
  {
    hide Apply;
    if steps == [] {
      assert (steps + [step])[0] == step && (steps + [step])[1..] == [];
    } else {
      assert (steps + [step])[0] == steps[0] && (steps + [step])[1..] == steps[1..] + [step];
      RunAppend(lib, control, Apply(lib, control, s, steps[0]), steps[1..], step);
    }
  }

  /** Connections that go by one id each: every message of a socket carries it. */
  ghost predicate SteadyIds(steps: seq<Step>, ids: Sock -> string)
  {
    forall i :: 0 <= i < |steps| && steps[i].Incoming? ==>
      HeaderId(steps[i].msg) == Some(ids(steps[i].sock)) && ids(steps[i].sock) != "unknown"
  }

  ghost predicate Steady(s: State, ids: Sock -> string)
  {
    forall dev :: dev in s.latest ==>
      && ids(s.latest[dev]) == dev && dev != "unknown"
      && s.latest[dev] in s.conns && s.conns[s.latest[dev]].devId == dev
  }

  lemma SteadyIncoming(s: State, sock: Sock, msg: Obj, ids: Sock -> string)
    requires Steady(s, ids)
    requires HeaderId(msg) == Some(ids(sock)) && ids(sock) != "unknown"
    ensures Steady(ApplyIncoming(s, sock, msg), ids)
  {
    hide Responses, HeaderId;
  }

  lemma SteadyStep(lib: Library, control: bool, s: State, step: Step, ids: Sock -> string)
    requires Steady(s, ids)
    requires step.Incoming? ==> HeaderId(step.msg) == Some(ids(step.sock)) && ids(step.sock) != "unknown"
    ensures Steady(Apply(lib, control, s, step), ids)
  {
    if step.Incoming? {
      SteadyIncoming(s, step.sock, step.msg, ids);
    }
    hide EncodeWith, HeaderId, MonStart, CommandMessage, Wid, WriteOf, DropIfStill, ApplyIncoming;
  }

  lemma {:induction false} SteadyRun(lib: Library, control: bool, s: State, steps: seq<Step>, ids: Sock -> string)
    requires Steady(s, ids) && SteadyIds(steps, ids)
    ensures Steady(Run(lib, control, s, steps), ids)
    decreases |steps|
  {
    if steps != [] {
      hide Steady, Apply, HeaderId;
      SteadyStep(lib, control, s, steps[0], ids);
      SteadyRun(lib, control, Apply(lib, control, s, steps[0]), steps[1..], ids);
    }
  }

  /** When every connection goes by one id, other than "unknown", no closed one has an entry. */
  lemma NothingStale(lib: Library, control: bool, steps: seq<Step>, ids: Sock -> string, dev: string)
    requires SteadyIds(steps, ids)
    requires dev in Run(lib, control, INITIAL, steps).table
    ensures var s := Run(lib, control, INITIAL, steps);
      s.table[dev].sock in s.conns && s.conns[s.table[dev].sock].open
  {
    HistoryRun(lib, control, INITIAL, steps);
    SteadyRun(lib, control, INITIAL, steps, ids);
    hide Run, SteadyIds;
  }

  // ---- Message ids over runs ----

  ghost predicate WellMinted(s: State)
  {
    && |s.minted| == s.counter
    && forall i :: 0 <= i < |s.minted| ==> s.minted[i].wid == Wid(s.minted[i].dev, i + 1)
  }

  lemma MintStep(lib: Library, control: bool, s: State, step: Step)
    requires WellMinted(s)
    ensures WellMinted(Apply(lib, control, s, step))
  {
    hide EncodeWith, Responses, Modes.NextDev, MonStart, CommandMessage, Wid, DropIfStill, WriteOf;
  }

  lemma {:induction false} MintedOverRuns(lib: Library, control: bool, s: State, steps: seq<Step>)
    requires WellMinted(s)
    ensures WellMinted(Run(lib, control, s, steps))
    decreases |steps|
  {
    if steps != [] {
      hide WellMinted, Apply;
      MintStep(lib, control, s, steps[0]);
      MintedOverRuns(lib, control, Apply(lib, control, s, steps[0]), steps[1..]);
    }
  }

  /** In every run, the ids minted for all callers are pairwise distinct, and none of them is
      the id of any handler's Mon Start. */
  lemma IdsNeverRepeat(lib: Library, control: bool, steps: seq<Step>, i: nat, dev: string)
    requires i < |Run(lib, control, INITIAL, steps).minted|
    ensures var m := Run(lib, control, INITIAL, steps).minted;
      m[i].wid != MonWid(dev) && forall j :: i < j < |m| ==> m[i].wid != m[j].wid
  {
    MintedOverRuns(lib, control, INITIAL, steps);
    var m := Run(lib, control, INITIAL, steps).minted;
    hide Run, Wid;
    WidsDistinct(m[i].dev, i + 1, dev, i + 2);
    forall j | i < j < |m| ensures m[i].wid != m[j].wid {
      WidsDistinct(m[i].dev, i + 1, m[j].dev, j + 1);
    }
  }

  // ---- The gate, and framing ----

  /** The only messages the server sends while control is off. */
  ghost predicate ReadOnly(msg: Obj)
  {
    || (exists dev: string, wid: Obj :: msg == Ack(dev, wid))
    || (exists dev: string, wid: string :: msg == MonStart(dev, wid))
  }

  ghost predicate All(good: Obj -> bool, msgs: seq<Obj>)
  {
    forall i :: 0 <= i < |msgs| ==> good(msgs[i])
  }

  /** Every message written, or waiting to be, is good. */
  ghost predicate Carries(good: Obj -> bool, s: State)
  {
    && (forall k :: k in s.conns ==> All(good, s.conns[k].queue))
    && (forall t :: t in s.calls && !s.calls[t].Failed? ==> good(s.calls[t].msg))
    && (forall i :: 0 <= i < |s.log| ==> good(s.log[i].msg))
  }

  /** A step brings good messages only. */
  ghost predicate Brings(good: Obj -> bool, control: bool, s: State, step: Step)
  {
    match step
    case Incoming(sock, msg) =>
      sock in s.conns ==> All(good, Responses(Modes.NextDev(s.conns[sock].devId, msg), msg))
    case Query(_, dev) => good(MonStart(dev, Wid(dev, s.counter + 1)))
    case Command(_, dev, cmd, cmdOpt, value) =>
      control ==> good(CommandMessage(dev, Wid(dev, s.counter + 1), cmd, cmdOpt, value))
    case _ => true
  }

  lemma CarriesIncoming(good: Obj -> bool, s: State, sock: Sock, msg: Obj)
    requires Carries(good, s)
    requires sock in s.conns ==> All(good, Responses(Modes.NextDev(s.conns[sock].devId, msg), msg))
    ensures Carries(good, ApplyIncoming(s, sock, msg))
  {
    hide All, Responses, Modes.NextDev;
  }

  lemma CarriesExit(good: Obj -> bool, s: State, sock: Sock)
    requires Carries(good, s) && sock in s.conns
    ensures Carries(good, ExitHandler(s, sock))
  {
    hide DropIfStill;
    assert All(good, []);
    hide All;
  }

  lemma CarriesHandlerSend(good: Obj -> bool, lib: Library, s: State, sock: Sock, ok: bool, sent: nat)
    requires Carries(good, s)
    ensures Carries(good, ApplyHandlerSend(lib, s, sock, ok, sent))
  {
    if sock in s.conns && s.conns[sock].open && s.conns[sock].queue != [] {
      var c := s.conns[sock];
      assert All(good, c.queue);
      assert good(c.queue[0]) && All(good, c.queue[1..]);
      CarriesExit(good, s, sock);
      hide All, EncodeWith, DropIfStill;
    }
  }

  lemma CarriesPushSend(good: Obj -> bool, lib: Library, s: State, tid: Tid, ok: bool, sent: nat)
    requires Carries(good, s)
    ensures Carries(good, ApplyPushSend(lib, s, tid, ok, sent))
  {
    hide All, EncodeWith;
  }

  lemma CarriesStep(good: Obj -> bool, lib: Library, control: bool, s: State, step: Step)
    requires Carries(good, s) && Brings(good, control, s, step)
    ensures Carries(good, Apply(lib, control, s, step))
  {
    match step {
      case Incoming(sock, msg) => CarriesIncoming(good, s, sock, msg);
      case HandlerSend(sock, ok, sent) => CarriesHandlerSend(good, lib, s, sock, ok, sent);
      case Exit(sock) =>
        if sock in s.conns {
          CarriesExit(good, s, sock);
        }
      case PushSend(tid, ok, sent) => CarriesPushSend(good, lib, s, tid, ok, sent);
      case Accept(_, _) => assert All(good, []);
      case _ =>
    }
    hide All, MonStart, CommandMessage, Wid, DropIfStill, Responses, ApplyIncoming, ApplyHandlerSend, ApplyPushSend,
      ExitHandler;
  }

  ghost predicate Gated(s: State)
  {
    Carries(ReadOnly, s)
  }

  lemma ResponsesReadOnly(dev: string, msg: Obj)
    ensures All(ReadOnly, Responses(dev, msg))
  {
    var ack, mon := Ack(dev, WidOf(msg)), MonStart(dev, MonWid(dev));
    assert ReadOnly(ack) && ReadOnly(mon);
    hide ReadOnly, Ack, MonStart;
  }

  lemma GatedStep(lib: Library, s: State, step: Step)
    requires Gated(s)
    ensures Gated(Apply(lib, false, s, step))
  {
    if step.Incoming? && step.sock in s.conns {
      ResponsesReadOnly(Modes.NextDev(s.conns[step.sock].devId, step.msg), step.msg);
    }
    if step.Query? {
      assert ReadOnly(MonStart(step.dev, Wid(step.dev, s.counter + 1)));
    }
    hide ReadOnly, Carries, All, Apply, Responses, MonStart, Wid, Modes.NextDev;
    CarriesStep(ReadOnly, lib, false, s, step);
  }

  /** With control off, nothing but 0000 acks and Mon Starts is ever written, or waiting to be. */
  lemma {:induction false} GateHolds(lib: Library, s: State, steps: seq<Step>)
    requires Gated(s)
    ensures Gated(Run(lib, false, s, steps))
    decreases |steps|
  {
    if steps != [] {
      hide Gated, Apply;
      GatedStep(lib, s, steps[0]);
      GateHolds(lib, Apply(lib, false, s, steps[0]), steps[1..]);
    }
  }

  lemma OnlyAcksAndMonStarts(lib: Library, steps: seq<Step>, i: nat)
    requires i < |Run(lib, false, INITIAL, steps).log|
    ensures ReadOnly(Run(lib, false, INITIAL, steps).log[i].msg)
  {
    GateHolds(lib, INITIAL, steps);
    hide Run;
  }

  /** Every write is a whole frame of its connection's codec, unless that very send failed. */
  ghost predicate Framed(lib: Library, s: State)
  {
    && Owned(s)
    && (forall i :: 0 <= i < |s.log| ==> FramedWrite(lib, s, s.log[i]))
  }

  ghost predicate Owns(s: State, e: Registration)
  {
    e.sock in s.conns && e.codec == s.conns[e.sock].codec
  }

  ghost predicate FramedWrite(lib: Library, s: State, w: Write)
  {
    && w.sock in s.conns
    && EncodeWith(lib, s.conns[w.sock].codec, w.msg).Some?
    && (if w.whole then w.bytes == EncodeWith(lib, s.conns[w.sock].codec, w.msg).value
        else w.sock in s.failed && w.bytes <= EncodeWith(lib, s.conns[w.sock].codec, w.msg).value)
  }

  /** Connections keep their codec, and a socket that failed a send stays marked. */
  ghost predicate Later(s: State, s': State)
  {
    && (forall k :: k in s.conns ==> k in s'.conns && s'.conns[k].codec == s.conns[k].codec)
    && s.failed <= s'.failed
  }

  lemma LaterStep(lib: Library, control: bool, s: State, step: Step)
    ensures Later(s, Apply(lib, control, s, step))
  {
    hide EncodeWith, Responses, Modes.NextDev, MonStart, CommandMessage, Wid, DropIfStill, WriteOf;
  }

  /** At most one write a step, framed for its connection. */
  ghost predicate OneWrite(lib: Library, s: State, s': State)
  {
    || s'.log == s.log
    || (|s'.log| == |s.log| + 1 && s'.log[..|s.log|] == s.log
        && FramedWrite(lib, s', s'.log[|s.log|]))
  }

  lemma LogHandlerSend(lib: Library, s: State, sock: Sock, ok: bool, sent: nat)
    ensures OneWrite(lib, s, ApplyHandlerSend(lib, s, sock, ok, sent))
  {
    hide EncodeWith, DropIfStill;
  }

  lemma LogPushSend(lib: Library, s: State, tid: Tid, ok: bool, sent: nat)
    requires tid in s.calls && s.calls[tid].Captured? ==> Owns(s, s.calls[tid].entry)
    ensures OneWrite(lib, s, ApplyPushSend(lib, s, tid, ok, sent))
  {
    hide EncodeWith;
  }

  lemma LogStep(lib: Library, control: bool, s: State, step: Step)
    requires Framed(lib, s)
    ensures OneWrite(lib, s, Apply(lib, control, s, step))
  {
    match step {
      case HandlerSend(sock, ok, sent) => LogHandlerSend(lib, s, sock, ok, sent);
      case PushSend(tid, ok, sent) => LogPushSend(lib, s, tid, ok, sent);
      case _ =>
    }
    hide Framed, FramedWrite, Responses, Modes.NextDev, MonStart, CommandMessage, Wid, DropIfStill,
      ApplyHandlerSend, ApplyPushSend;
  }

  /** The table and the captured entries have the codec of their connection. */
  ghost predicate Owned(s: State)
  {
    && (forall dev :: dev in s.table ==> Owns(s, s.table[dev]))
    && (forall t :: t in s.calls && s.calls[t].Captured? ==> Owns(s, s.calls[t].entry))
  }

  lemma OwnedIncoming(s: State, sock: Sock, msg: Obj)
    requires Owned(s)
    ensures Owned(ApplyIncoming(s, sock, msg))
  {
    hide Responses, Modes.NextDev;
  }

  lemma OwnedHandlerSend(lib: Library, s: State, sock: Sock, ok: bool, sent: nat)
    requires Owned(s)
    ensures Owned(ApplyHandlerSend(lib, s, sock, ok, sent))
  {
    hide EncodeWith, WriteOf;
  }

  lemma OwnedPushSend(lib: Library, s: State, tid: Tid, ok: bool, sent: nat)
    requires Owned(s)
    ensures Owned(ApplyPushSend(lib, s, tid, ok, sent))
  {
    hide EncodeWith, WriteOf;
  }

  lemma OwnedStep(lib: Library, control: bool, s: State, step: Step)
    requires Owned(s)
    ensures Owned(Apply(lib, control, s, step))
  {
    match step {
      case Incoming(sock, msg) => OwnedIncoming(s, sock, msg);
      case HandlerSend(sock, ok, sent) => OwnedHandlerSend(lib, s, sock, ok, sent);
      case PushSend(tid, ok, sent) => OwnedPushSend(lib, s, tid, ok, sent);
      case _ =>
    }
    hide MonStart, CommandMessage, Wid, ApplyIncoming, ApplyHandlerSend, ApplyPushSend;
  }

  lemma FramedStep(lib: Library, control: bool, s: State, step: Step)
    requires Framed(lib, s)
    ensures Framed(lib, Apply(lib, control, s, step))
  {
    LaterStep(lib, control, s, step);
    LogStep(lib, control, s, step);
    OwnedStep(lib, control, s, step);
    hide Apply, EncodeWith, Owns;
    var s' := Apply(lib, control, s, step);
    forall i | 0 <= i < |s'.log| ensures FramedWrite(lib, s', s'.log[i]) {
      if i < |s.log| {
        assert s'.log[i] == s.log[i];
        assert FramedWrite(lib, s, s.log[i]);
      }
    }
  }

  lemma {:induction false} FramingHolds(lib: Library, control: bool, s: State, steps: seq<Step>)
    requires Framed(lib, s)
    ensures Framed(lib, Run(lib, control, s, steps))
    decreases |steps|
  {
    if steps != [] {
      hide Framed, Apply;
      FramedStep(lib, control, s, steps[0]);
      FramingHolds(lib, control, Apply(lib, control, s, steps[0]), steps[1..]);
    }
  }

  // ---- What is written are messages ----

  /** Everything a step brings in from outside is a value Python could hold. */
  ghost predicate GoodInput(step: Step)
  {
    match step
    case Incoming(_, msg) => Message(msg)
    case Command(_, _, cmd, cmdOpt, value) => WellFormed(cmd) && WellFormed(cmdOpt) && WellFormed(value)
    case _ => true
  }

  lemma {:induction false} LookupWellFormed(d: seq<Entry>, k: string)
    requires forall i :: 0 <= i < |d| ==> WellFormed(d[i].val)
    ensures Lookup(d, k).Some? ==> WellFormed(Lookup(d, k).value)
  {
    if d != [] && d[0].key != k {
      LookupWellFormed(d[1..], k);
    }
  }

  lemma FieldWellFormed(d: Obj, k: string)
    requires WellFormed(d)
    ensures Field(d, k).Some? ==> WellFormed(Field(d, k).value)
  {
    if d.Dict? {
      LookupWellFormed(d.entries, k);
    }
  }

  lemma MadeIsMessage(dev: string, wid: Obj, fields: seq<Entry>)
    requires WellFormed(wid) && WellFormedEntries(fields)
    requires forall i :: 0 <= i < |fields| ==> fields[i].key != "CmdWId"
    ensures Message(MakeMessage(dev, wid, fields))
  {
    var header := [Entry(DEVICE_ID, Str(dev))];
    assert WellFormedEntries(header);
    var body := [Entry("CmdWId", wid)] + fields;
    assert DistinctKeys(body);
    forall i | 0 <= i < |body| ensures WellFormed(body[i].val) {
      if i > 0 {
        assert body[i] == fields[i - 1];
      }
    }
    assert WellFormedEntries(body);
    var d := [Entry("Header", Dict(header)), Entry("Body", Dict(body))];
    assert WellFormed(d[0].val) && WellFormed(d[1].val);
    assert WellFormedEntries(d);
  }

  lemma ResponsesAreMessages(dev: string, msg: Obj)
    requires Message(msg)
    ensures All(Message, Responses(dev, msg))
  {
    FieldWellFormed(msg, "Body");
    assert WellFormed(Dict([]));
    FieldWellFormed(Body(msg), "CmdWId");
    assert WellFormed(WidOf(msg)) && WellFormed(Str("0000"));
    MadeIsMessage(dev, WidOf(msg), [Entry("ReturnCode", Str("0000"))]);
    MonStartIsMessage(dev, MonWid(dev));
    hide Message, MakeMessage;
  }

  lemma MonStartIsMessage(dev: string, wid: string)
    ensures Message(MonStart(dev, wid))
  {
    var fields := [Entry("Cmd", Str("Mon")), Entry("CmdOpt", Str("Start"))];
    assert WellFormed(fields[0].val) && WellFormed(fields[1].val);
    MadeIsMessage(dev, Str(wid), fields);
  }

  lemma CommandIsMessage(dev: string, wid: string, cmd: Obj, cmdOpt: Obj, value: Obj)
    requires WellFormed(cmd) && WellFormed(cmdOpt) && WellFormed(value)
    ensures Message(CommandMessage(dev, wid, cmd, cmdOpt, value))
  {
    var fields := [Entry("Cmd", cmd), Entry("CmdOpt", cmdOpt), Entry("Value", value), Entry("Data", Str(""))];
    assert WellFormed(fields[3].val);
    forall i | 0 <= i < |fields| ensures WellFormed(fields[i].val) {
    }
    MadeIsMessage(dev, Str(wid), fields);
  }

  lemma MessagesStep(lib: Library, control: bool, s: State, step: Step)
    requires Carries(Message, s) && GoodInput(step)
    ensures Carries(Message, Apply(lib, control, s, step))
  {
    match step {
      case Incoming(sock, msg) =>
        if sock in s.conns {
          ResponsesAreMessages(Modes.NextDev(s.conns[sock].devId, msg), msg);
        }
      case Query(_, dev) => MonStartIsMessage(dev, Wid(dev, s.counter + 1));
      case Command(_, dev, cmd, cmdOpt, value) =>
        CommandIsMessage(dev, Wid(dev, s.counter + 1), cmd, cmdOpt, value);
      case _ =>
    }
    hide Message, Carries, All, Apply, Responses, MonStart, CommandMessage, Wid, Modes.NextDev;
    CarriesStep(Message, lib, control, s, step);
  }

  lemma {:induction false} MessagesRun(lib: Library, control: bool, s: State, steps: seq<Step>)
    requires Carries(Message, s)
    requires forall i :: 0 <= i < |steps| ==> GoodInput(steps[i])
    ensures Carries(Message, Run(lib, control, s, steps))
    decreases |steps|
  {
    if steps != [] {
      hide Carries, Apply, Message, GoodInput;
      MessagesStep(lib, control, s, steps[0]);
      MessagesRun(lib, control, Apply(lib, control, s, steps[0]), steps[1..]);
    }
  }

  /** In every run on such inputs, everything ever written is a message. */
  lemma OnlyMessages(lib: Library, control: bool, steps: seq<Step>, i: nat)
    requires forall k :: 0 <= k < |steps| ==> GoodInput(steps[k])
    requires i < |Run(lib, control, INITIAL, steps).log|
    ensures Message(Run(lib, control, INITIAL, steps).log[i].msg)
  {
    MessagesRun(lib, control, INITIAL, steps);
    hide Run, Message;
  }

  // ---- What the peer decodes ----

  function Sent(log: seq<Write>, sock: Sock): seq<Obj>
  {
    if log == [] then []
    else (if log[0].sock == sock then [log[0].msg] else []) + Sent(log[1..], sock)
  }

  function OnWire(log: seq<Write>, sock: Sock): Bytes
  {
    if log == [] then []
    else (if log[0].sock == sock then log[0].bytes else []) + OnWire(log[1..], sock)
  }

  function Segments(msgs: seq<Obj>): seq<Len4.Segment>
  {
    if msgs == [] then [] else [Len4.Segment(msgs[0], [])] + Segments(msgs[1..])
  }

  lemma {:induction false} SegmentsOf(lib: Library, msgs: seq<Obj>)
    requires forall i :: 0 <= i < |msgs| ==> Len4.Sendable(lib, msgs[i])
    ensures Len4.GoodSegments(lib, Segments(msgs))
    ensures Len4.Messages(Segments(msgs)) == msgs
    decreases |msgs|
  {
    hide Len4.Sendable;
    if msgs != [] {
      SegmentsOf(lib, msgs[1..]);
    }
  }

  lemma {:induction false} WmWire(lib: Library, log: seq<Write>, sock: Sock)
    requires forall i :: 0 <= i < |log| && log[i].sock == sock ==>
      Len4.Sendable(lib, log[i].msg) && Some(log[i].bytes) == Len4.EncodeMessage(lib, log[i].msg)
    ensures forall i :: 0 <= i < |Sent(log, sock)| ==> Len4.Sendable(lib, Sent(log, sock)[i])
    ensures Len4.GoodSegments(lib, Segments(Sent(log, sock)))
    ensures OnWire(log, sock) == Len4.Stream(lib, Segments(Sent(log, sock)))
    decreases |log|
  {
    if log != [] {
      WmWire(lib, log[1..], sock);
      if log[0].sock == sock {
        assert Sent(log, sock)[1..] == Sent(log[1..], sock);
        SegmentsOf(lib, Sent(log, sock));
        var segs := Segments(Sent(log, sock));
        assert segs[1..] == Segments(Sent(log[1..], sock));
        hide Len4.Sendable, Len4.EncodeMessage;
        assert segs[0].noise + Len4.Stream(lib, segs[1..]) == Len4.Stream(lib, segs[1..]);
      } else {
        assert Sent(log, sock) == Sent(log[1..], sock) && OnWire(log, sock) == OnWire(log[1..], sock);
      }
    }
  }

  lemma {:induction false} FridgeWire(lib: Library, log: seq<Write>, sock: Sock)
    requires forall i :: 0 <= i < |log| && log[i].sock == sock ==>
      Message(log[i].msg) && Some(log[i].bytes) == Msgpack.EncodeMessage(lib, log[i].msg)
    ensures FridgeStream.AllSendable(lib, Sent(log, sock))
    ensures OnWire(log, sock) == FridgeStream.Stream(lib, Sent(log, sock))
    decreases |log|
  {
    hide Msgpack.EncodeMessage;
    if log != [] {
      FridgeWire(lib, log[1..], sock);
      if log[0].sock == sock {
        assert Sent(log, sock)[1..] == Sent(log[1..], sock);
      } else {
        assert Sent(log, sock) == Sent(log[1..], sock) && OnWire(log, sock) == OnWire(log[1..], sock);
      }
    }
  }

  /** Connections none of whose sends failed: in every run, a WM peer that cuts what it receives
      in any way decodes exactly the messages written to it, in order, if they fit its frames. */
  lemma WmPeerReceives(lib: Library, control: bool, steps: seq<Step>, sock: Sock, chunks: seq<Bytes>)
    requires Lawful(lib)
    requires forall k :: 0 <= k < |steps| ==> GoodInput(steps[k])
    requires var s := Run(lib, control, INITIAL, steps);
      && sock in s.conns && s.conns[sock].codec == Wm && sock !in s.failed
      && (forall i :: 0 <= i < |s.log| && s.log[i].sock == sock ==>
            FridgeStream.TextSize(lib, s.log[i].msg) <= Len4.MAX_FRAME)
      && Flatten(chunks) == OnWire(s.log, sock)
    ensures Len4.Receive(lib, [], chunks).msgs == Sent(Run(lib, control, INITIAL, steps).log, sock)
  {
    FramingHolds(lib, control, INITIAL, steps);
    MessagesRun(lib, control, INITIAL, steps);
    var s := Run(lib, control, INITIAL, steps);
    hide Run, Message, Len4.Receive, Lawful;
    forall i | 0 <= i < |s.log| && s.log[i].sock == sock
      ensures Some(s.log[i].bytes) == Len4.EncodeMessage(lib, s.log[i].msg)
      ensures Len4.Sendable(lib, s.log[i].msg)
    {
      assert FramedWrite(lib, s, s.log[i]);
    }
    hide Len4.Sendable;
    WmWire(lib, s.log, sock);
    var segs := Segments(Sent(s.log, sock));
    SegmentsOf(lib, Sent(s.log, sock));
    assert [] + Len4.Stream(lib, segs) == Len4.Stream(lib, segs);
    Len4.Resynchronises(lib, [], segs, chunks);
  }

  /** What is written to a fridge peer's socket is the stream of its messages. */
  lemma FridgePeerWire(lib: Library, control: bool, steps: seq<Step>, sock: Sock)
    requires forall k :: 0 <= k < |steps| ==> GoodInput(steps[k])
    requires var s := Run(lib, control, INITIAL, steps);
      sock in s.conns && s.conns[sock].codec == Fridge && sock !in s.failed
    ensures var s := Run(lib, control, INITIAL, steps);
      && FridgeStream.AllSendable(lib, Sent(s.log, sock))
      && OnWire(s.log, sock) == FridgeStream.Stream(lib, Sent(s.log, sock))
  {
    FramingHolds(lib, control, INITIAL, steps);
    MessagesRun(lib, control, INITIAL, steps);
    var s := Run(lib, control, INITIAL, steps);
    hide Run, Message;
    forall i | 0 <= i < |s.log| && s.log[i].sock == sock
      ensures Some(s.log[i].bytes) == Msgpack.EncodeMessage(lib, s.log[i].msg)
    {
      assert FramedWrite(lib, s, s.log[i]);
    }
    FridgeWire(lib, s.log, sock);
  }

  /** In every run, a fridge peer decodes exactly the messages written to it, with nothing left
      over, in whatever reads they arrive, if and only if no text is too long for it. */
  lemma FridgePeerReceivesIff(lib: Library, control: bool, steps: seq<Step>, sock: Sock)
    requires Lawful(lib)
    requires forall k :: 0 <= k < |steps| ==> GoodInput(steps[k])
    requires var s := Run(lib, control, INITIAL, steps);
      sock in s.conns && s.conns[sock].codec == Fridge && sock !in s.failed
    ensures var s := Run(lib, control, INITIAL, steps);
      (forall chunks: seq<Bytes> :: FridgeStream.Reads(chunks) && Flatten(chunks) == OnWire(s.log, sock) ==>
         FridgeStream.Receive(lib, [], chunks) == Decoded(Sent(s.log, sock), []))
      <==> FridgeStream.NoLongText(lib, Sent(s.log, sock))
  {
    FridgePeerWire(lib, control, steps, sock);
    var s := Run(lib, control, INITIAL, steps);
    FridgeStream.DeliveryIff(lib, Sent(s.log, sock));
    hide Run, FridgeStream.Receive, FridgeStream.Reads, FridgeStream.NoLongText, Lawful, GoodInput;
  }

  /** And then in chunks of any size. */
  lemma FridgePeerReceives(lib: Library, control: bool, steps: seq<Step>, sock: Sock, chunks: seq<Bytes>)
    requires Lawful(lib)
    requires forall k :: 0 <= k < |steps| ==> GoodInput(steps[k])
    requires var s := Run(lib, control, INITIAL, steps);
      && sock in s.conns && s.conns[sock].codec == Fridge && sock !in s.failed
      && FridgeStream.NoLongText(lib, Sent(s.log, sock))
      && Flatten(chunks) == OnWire(s.log, sock)
    ensures FridgeStream.Receive(lib, [], chunks)
      == Decoded(Sent(Run(lib, control, INITIAL, steps).log, sock), [])
  {
    FridgePeerWire(lib, control, steps, sock);
    var s := Run(lib, control, INITIAL, steps);
    hide Run, FridgeStream.Receive, Lawful, GoodInput;
    assert [] + Flatten(chunks) == Flatten(chunks);
    FridgeStream.StreamStart(lib, Sent(s.log, sock));
    FridgeStream.ReceiveStream(lib, Sent(s.log, sock), [], chunks);
  }
}
