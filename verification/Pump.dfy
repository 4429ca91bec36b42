/** The single-threaded pump between the appliance's TLS connection and LG's. TLS is a channel
    that keeps its bytes in order: what one end writes, handshake flights and sealed plaintext,
    is what its socket carries. When an operation wants to wait, fails or takes only part of its
    bytes is left open. */
module Pump {
  import opened ByteStrings

  const READ_SIZE: nat := 65536

  /** A ciphertext byte: of a handshake flight, or sealing one byte of plaintext. */
  datatype Cell = Control(c: Byte) | Sealed(p: Byte)

  /** The plaintext a piece of ciphertext carries. */
  function Plain(cells: seq<Cell>): Bytes
  {
    if cells == [] then []
    else (if cells[0].Sealed? then [cells[0].p] else []) + Plain(cells[1..])
  }

  function Seal(plain: Bytes): (cells: seq<Cell>)
    ensures |cells| == |plain|
  {
    seq(|plain|, i requires 0 <= i < |plain| => Sealed(plain[i]))
  }

  lemma {:induction false} PlainAppend(a: seq<Cell>, b: seq<Cell>)
    ensures Plain(a + b) == Plain(a) + Plain(b)
    decreases |a|
  {
    if a == [] {
      assert a + b == b;
    } else {
      DropAppend(a, b, 1);
      PlainAppend(a[1..], b);
      Associates(if a[0].Sealed? then [a[0].p] else [], Plain(a[1..]), Plain(b));
    }
  }

  lemma PlainMore(a: seq<Cell>, b: seq<Cell>, c: seq<Cell>)
    ensures Plain(a + (b + c)) == Plain(a + b) + Plain(c)
    ensures Plain(c) == [] ==> Plain(a + (b + c)) == Plain(a + b)
  {
    PlainAppend(a + b, c);
    Associates(a, b, c);
  }

  lemma {:induction false} PlainOfSeal(p: Bytes)
    ensures Plain(Seal(p)) == p
    decreases |p|
  {
    if p != [] {
      assert Seal(p)[1..] == Seal(p[1..]);
      PlainOfSeal(p[1..]);
    }
  }

  /** A TLS record waiting in the input buffer: a handshake message with the flight it will be
      answered by, or application data. */
  datatype Record = Handshake(reply: seq<Cell>) | Data(plain: Bytes)

  ghost predicate GoodRecords(rs: seq<Record>)
  {
    forall i :: 0 <= i < |rs| ==> if rs[i].Data? then rs[i].plain != [] else Plain(rs[i].reply) == []
  }

  /** The application data not read yet. */
  function Unread(rs: seq<Record>): Bytes
  {
    if rs == [] then []
    else (if rs[0].Data? then rs[0].plain else []) + Unread(rs[1..])
  }

  /** What the waiting records weigh: a byte of data still has to be written and sent, a
      handshake message may still be answered. */
  function Weight(rs: seq<Record>): nat
  {
    if rs == [] then 0
    else (if rs[0].Data? then 3 * |rs[0].plain| else 1 + 2 * |rs[0].reply|) + Weight(rs[1..])
  }

  lemma {:induction false} UnreadAppend(a: seq<Record>, b: seq<Record>)
    ensures Unread(a + b) == Unread(a) + Unread(b)
    decreases |a|
  {
    if a == [] {
      assert a + b == b;
    } else {
      assert (a + b)[1..] == a[1..] + b;
      UnreadAppend(a[1..], b);
    }
  }

  /** What arrives at a socket that is ready to be read. */
  datatype Arrival = Nothing | Records(rs: seq<Record>) | EndOfStream | Broken

  /** The application data of an arrival. */
  function DataOf(a: Arrival): Bytes
  {
    if a.Records? then Unread(a.rs) else []
  }

  /** The records after taking n bytes of the data in front. */
  function Taken(inb: seq<Record>, n: nat): seq<Record>
    requires inb != [] && inb[0].Data? && n <= |inb[0].plain|
  {
    if n == |inb[0].plain| then inb[1..] else [Data(inb[0].plain[n..])] + inb[1..]
  }

  lemma TakeFacts(inb: seq<Record>, n: nat, readLog: seq<Bytes>)
    requires inb != [] && inb[0].Data? && 1 <= n <= |inb[0].plain| && GoodRecords(inb)
    ensures var inb' := Taken(inb, n);
      && GoodRecords(inb')
      && Weight(inb') + 3 * n == Weight(inb)
      && |Unread(inb')| + n == |Unread(inb)|
      && Flatten(readLog + [inb[0].plain[..n]]) + Unread(inb') == Flatten(readLog) + Unread(inb)
  {
    var first, rest := inb[0].plain, Unread(inb[1..]);
    var inb' := Taken(inb, n);
    FlattenAppend(readLog, first[..n]);
    hide Flatten;
    assert n < |first| ==> inb'[1..] == inb[1..];
    assert Unread(inb') == first[n..] + rest;
    assert first == first[..n] + first[n..];
    Associates(first[..n], first[n..], rest);
    Associates(Flatten(readLog), first[..n], Unread(inb'));
  }

  /** The records after the handshake message in front was answered. */
  lemma AnswerFacts(inb: seq<Record>)
    requires inb != [] && inb[0].Handshake? && GoodRecords(inb)
    ensures GoodRecords(inb[1..]) && Plain(inb[0].reply) == []
    ensures Weight(inb) == 1 + 2 * |inb[0].reply| + Weight(inb[1..])
    ensures Unread(inb) == Unread(inb[1..])
  {
    hide Plain;
  }

  /** One TLS endpoint. hello is the flight it opens with, needs the handshake messages it still
      waits for, room what its socket takes before it blocks. The logs record what the socket took,
      what was fed, read and written; faults counts the socket and TLS calls that failed, and ended
      says that the end of its stream was read. */
  class End {
    var inb: seq<Record>
    var eof: bool
    var hello: seq<Cell>
    var needs: nat
    var outb: seq<Cell>
    var pending: seq<Cell>
    var room: nat
    var handshaken: bool
    var dead: bool

    var sent: seq<Cell>
    var fed: Bytes
    var readLog: seq<Bytes>
    var written: seq<Bytes>
    var faults: nat
    var ended: bool

    constructor (hello: seq<Cell>, needs: nat, room: nat)
      requires Plain(hello) == []
      ensures Valid() && Proper() && !dead && !eof && !handshaken
      ensures this.hello == hello && this.needs == needs && this.room == room
      ensures readLog == [] && written == [] && fed == [] && sent == [] && inb == [] && faults == 0
    {
      this.hello, this.needs, this.room := hello, needs, room;
      inb, eof, outb, pending, handshaken, dead := [], false, [], [], false, false;
      sent, fed, readLog, written, faults, ended := [], [], [], [], 0, false;
      new;
      assert sent + pending + outb == [];
    }

    /** The plaintext in the ciphertext produced is the plaintext written; the plaintext read and
        the plaintext unread are the plaintext that arrived. */
    ghost predicate Valid()
      reads this
    {
      && Plain(sent + pending + outb) == Flatten(written)
      && Flatten(readLog) + Unread(inb) == fed
      && GoodRecords(inb)
      && Plain(hello) == []
    }

    /** An end is dead for a reason only: a call failed, or its stream was read to the end. Its
        handshake is done only after all the messages it needs. */
    ghost predicate Reasons()
      reads this
    {
      && (dead ==> faults > 0 || ended) && (ended ==> eof && Unread(inb) == [])
      && (handshaken ==> needs == 0)
    }

    /** And for every reason. */
    ghost predicate Proper()
      reads this
    {
      Reasons() && (faults > 0 || ended ==> dead)
    }

    /** Everything this end still has to do without hearing more from its socket. */
    ghost function Measure(): nat
      reads this
    {
      Weight(inb) + 2 * |hello| + (if handshaken then 0 else 1) + 2 * |outb| + |pending|
    }

    /** Nothing is waiting that the socket would take. */
    predicate Flushed()
      reads this
    {
      pending == [] || room == 0
    }

    /** The handshake is done, or waits for messages that are not there. */
    predicate Shaken()
      reads this
    {
      handshaken || (needs > 0 && if inb == [] then !eof else inb[0].Data?)
    }

    /** flush: True when alive, with whatever the socket did not take still pending. */
    method Flush() returns (alive: bool)
      requires Valid()
      modifies `pending, `sent, `room, `faults
      ensures Valid()
      ensures sent + pending == old(sent + pending)
      ensures |pending| <= |old(pending)|
      ensures Measure() - |pending| == old(Measure() - |pending|)
      ensures alive ==> faults == old(faults) && Flushed()
      ensures !alive ==> faults == old(faults) + 1
    {
      hide Plain, Flatten, Unread, GoodRecords, Weight;
      while pending != []
        invariant sent + pending == old(sent + pending)
        invariant |pending| <= |old(pending)| && faults == old(faults)
        decreases |pending|
      {
        if room == 0 {
          return true;
        }
        if * {
          faults := faults + 1;
          return false;
        }
        var n :| 1 <= n <= |pending| && n <= room;
        assert pending == pending[..n] + pending[n..];
        sent, pending, room := sent + pending[..n], pending[n..], room - n;
      }
      alive := true;
    }

    /** Ciphertext from the TLS layer. */
    method Emit(flight: seq<Cell>)
      requires Valid() && Plain(flight) == []
      modifies `outb
      ensures Valid() && outb == old(outb) + flight
    {
      PlainMore(sent + pending, outb, flight);
      hide Plain, Flatten, Unread, GoodRecords;
      outb := outb + flight;
    }

    /** The TLS layer answers the handshake message in front. */
    method AnswerRecord()
      requires Valid() && inb != [] && inb[0].Handshake?
      modifies `outb, `inb
      ensures Valid() && inb == old(inb)[1..]
      ensures outb == old(outb) + old(inb)[0].reply
      ensures Measure() == old(Measure()) - 1
      ensures Unread(inb) == Unread(old(inb))
    {
      AnswerFacts(inb);
      hide Plain, Flatten, Unread, GoodRecords, Weight;
      Emit(inb[0].reply);
      inb := inb[1..];
    }

    method EmitHello()
      requires Valid()
      modifies `outb, `hello
      ensures Valid() && hello == [] && Measure() == old(Measure())
      ensures outb == old(outb) + old(hello)
    {
      Emit(hello);
      hide Plain, Flatten, Unread, GoodRecords, Weight;
      hello := [];
    }

    method TakeNeed()
      requires Valid() && needs > 0
      modifies `needs
      ensures Valid() && needs == old(needs) - 1 && Measure() == old(Measure())
    {
      needs := needs - 1;
    }

    /** What the TLS layer does of a handshake with what it has: its flights, until no message is
        in front or none is needed any more; every message answered is one less that is needed. */
    method Shake()
      requires Valid()
      modifies `outb, `inb, `hello, `needs
      ensures Valid()
      ensures Unread(inb) == Unread(old(inb))
      ensures Measure() <= old(Measure())
      ensures old(needs) - needs == |old(inb)| - |inb|
      ensures needs == 0 || inb == [] || inb[0].Data?
      ensures old(needs) == 0 ==> inb == old(inb) && needs == 0
    {
      hide Valid, Measure, Unread, Plain;
      EmitHello();
      while needs > 0 && inb != [] && inb[0].Handshake?
        invariant Valid()
        invariant Unread(inb) == Unread(old(inb))
        invariant Measure() <= old(Measure())
        invariant old(needs) - needs == |old(inb)| - |inb|
        invariant old(needs) == 0 ==> inb == old(inb) && needs == 0
        decreases |inb|
      {
        AnswerRecord();
        TakeNeed();
      }
    }

    /** A socket or TLS call failed. */
    method Fault()
      requires Valid()
      modifies `faults
      ensures Valid() && faults == old(faults) + 1 && Measure() == old(Measure())
    {
      faults := faults + 1;
    }

    /** The end of the stream was read. */
    method MarkEnd()
      requires Valid() && eof && inb == []
      modifies `ended
      ensures Valid() && ended && Measure() == old(Measure()) && Unread(inb) == []
    {
      ended := true;
    }

    /** The dead flag, for a reason. */
    method Kill()
      requires Valid() && Reasons() && (faults > 0 || ended)
      modifies `dead
      ensures Valid() && Proper() && dead && Measure() == old(Measure())
    {
      dead := true;
    }

    method FinishHandshake()
      requires Valid() && !handshaken
      modifies `handshaken
      ensures Valid() && handshaken && Measure() == old(Measure()) - 1
    {
      handshaken := true;
    }

    /** drive_handshake: true when the handshake completed in this call. */
    method DriveHandshake() returns (done: bool)
      requires Valid() && Proper()
      modifies `outb, `inb, `hello, `needs, `handshaken, `dead, `faults, `ended
      ensures Valid() && Proper()
      ensures done <==> handshaken && !old(handshaken)
      ensures old(handshaken) ==> handshaken
      ensures old(handshaken || dead) ==>
        && !done && handshaken == old(handshaken) && dead == old(dead) && faults == old(faults)
        && outb == old(outb) && inb == old(inb) && hello == old(hello)
      ensures done ==> !dead
      ensures !dead ==> Shaken()
      ensures !old(handshaken || dead) ==> old(needs) - needs == |old(inb)| - |inb|
      ensures faults >= old(faults)
      ensures Unread(inb) == Unread(old(inb))
      ensures Measure() <= old(Measure())
      ensures done ==> Measure() < old(Measure())
    {
      hide Valid, Measure, Unread, Plain, Flatten, GoodRecords, Weight;
      if handshaken || dead {
        return false;
      }
      Shake();
      if * {
        Fault();
        Kill();
        return false;
      }
      if needs == 0 {
        FinishHandshake();
        return true;
      }
      if inb == [] && eof {
        MarkEnd();
        Kill();
      }
      done := false;
    }

    /** drain: moves what the TLS layer produced to the socket's queue. */
    method Drain() returns (moved: bool)
      requires Valid()
      modifies `outb, `pending
      ensures Valid() && outb == []
      ensures sent + pending + outb == old(sent + pending + outb)
      ensures moved <==> old(outb) != []
      ensures Measure() <= old(Measure())
      ensures moved ==> Measure() < old(Measure())
    {
      assert sent + (pending + outb) + [] == sent + pending + outb;
      hide Plain, Flatten, GoodRecords, Weight, Unread;
      pending, outb, moved := pending + outb, [], outb != [];
    }

    /** The TLS layer answers the handshake messages in front. */
    method AnswerAll()
      requires Valid()
      modifies `outb, `inb
      ensures Valid()
      ensures Unread(inb) == Unread(old(inb)) && Measure() <= old(Measure())
      ensures if inb == [] then Unread(inb) == [] else inb[0].Data?
    {
      hide Valid, Measure;
      while inb != [] && inb[0].Handshake?
        invariant Valid()
        invariant Unread(inb) == Unread(old(inb)) && Measure() <= old(Measure())
        decreases |inb|
      {
        hide Unread;
        AnswerRecord();
      }
    }

    /** read_plain: None when there is nothing to read yet, [] at the end of the stream or after an
        error. */
    method ReadPlain() returns (plain: Option<Bytes>)
      requires Valid() && Proper() && !dead
      modifies `outb, `inb, `dead, `readLog, `faults, `ended
      ensures Valid() && Reasons() && faults >= old(faults)
      ensures plain == None ==> Unread(inb) == [] && !eof
      ensures plain == Some([]) ==> faults > 0 || ended
      ensures plain != Some([]) ==> Proper() && !dead && faults == old(faults)
      ensures plain == None || plain == Some([]) ==>
        readLog == old(readLog) && Measure() <= old(Measure())
      ensures plain.Some? && plain.value != [] ==>
        && readLog == old(readLog) + [plain.value] && |plain.value| <= 65536
        && Measure() + 3 * |plain.value| <= old(Measure())
        && |Unread(inb)| < |Unread(old(inb))|
    {
      hide Valid, Measure;
      AnswerAll();
      hide Unread;
      if * {
        Fault();
        Kill();
        return Some([]);
      }
      if inb == [] {
        if eof {
          MarkEnd();
          return Some([]);
        }
        return None;
      }
      plain := TakeData();
    }

    /** Some of the data in front, as much as one call gets. */
    method TakeData() returns (plain: Option<Bytes>)
      requires Valid() && inb != [] && inb[0].Data?
      modifies `inb, `readLog
      ensures Valid()
      ensures plain.Some? && plain.value != [] && readLog == old(readLog) + [plain.value]
      ensures |plain.value| <= 65536
      ensures Measure() + 3 * |plain.value| == old(Measure())
      ensures |Unread(inb)| + |plain.value| == |Unread(old(inb))|
    {
      var n :| 1 <= n <= |inb[0].plain| && n <= READ_SIZE;
      TakeFacts(inb, n, readLog);
      hide Taken, Unread, Weight, GoodRecords, Flatten, Plain;
      var data := inb[0].plain[..n];
      plain := Some(data);
      readLog := readLog + [data];
      inb := Taken(inb, n);
    }

    /** SSLObject.write: all of it, or an error that leaves no trace. */
    method WritePlain(plain: Bytes) returns (ok: bool)
      requires Valid()
      modifies `outb, `written, `faults
      ensures Valid()
      ensures ok ==>
        && written == old(written) + [plain] && faults == old(faults)
        && Measure() == old(Measure()) + 2 * |plain|
      ensures !ok ==>
        && written == old(written) && outb == old(outb) && faults == old(faults) + 1
        && Measure() == old(Measure())
    {
      if * {
        Fault();
        return false;
      }
      PlainOfSeal(plain);
      PlainMore(sent + pending, outb, Seal(plain));
      FlattenAppend(written, plain);
      hide Plain, Flatten, Unread, GoodRecords, Seal;
      outb, written := outb + Seal(plain), written + [plain];
      ok := true;
    }

    /** feed_socket. */
    method Feed(a: Arrival) returns (ok: bool)
      requires Valid()
      requires a.Records? ==> GoodRecords(a.rs)
      modifies `inb, `eof, `fed, `faults
      ensures Valid()
      ensures ok <==> a != Broken
      ensures faults == if a == Broken then old(faults) + 1 else old(faults)
      ensures a.Records? ==> inb == old(inb) + a.rs && fed == old(fed) + Unread(a.rs)
      ensures !a.Records? ==> inb == old(inb) && fed == old(fed)
      ensures eof <==> old(eof) || a == EndOfStream
    {
      match a
      case Nothing => ok := true;
      case Records(rs) =>
        UnreadAppend(inb, rs);
        Associates(Flatten(readLog), Unread(inb), Unread(rs));
        inb, fed, ok := inb + rs, fed + Unread(rs), true;
      case EndOfStream => eof, ok := true, true;
      case Broken => faults, ok := faults + 1, false;
    }

    /** One end's turn to send: drain, then flush; an end that cannot send is dead, and only
        that one. */
    method MoveOut() returns (progressed: bool)
      requires Valid() && Proper()
      modifies `outb, `pending, `sent, `room, `dead, `faults
      ensures Valid() && Proper() && outb == []
      ensures faults >= old(faults)
      ensures dead <==> old(dead) || faults > old(faults)
      ensures faults == old(faults) ==> Flushed()
      ensures Measure() <= old(Measure())
      ensures progressed ==> Measure() < old(Measure())
    {
      hide Valid, Measure;
      progressed := Drain();
      var hadPending := |pending|;
      var alive := Flush();
      if !alive {
        Kill();
      } else if |pending| < hadPending {
        progressed := true;
      }
    }

    method Grant(newRoom: nat)
      requires Valid()
      modifies `room
      ensures Valid() && room == old(room) + newRoom && Measure() == old(Measure())
    {
      room := room + newRoom;
    }

    /** What the selector's events do to one end; a writable socket has some room again. */
    method React(newRoom: nat, arrival: Arrival)
      requires Valid() && Proper() && !dead
      requires arrival.Records? ==> GoodRecords(arrival.rs)
      modifies `pending, `sent, `room, `inb, `eof, `fed, `dead, `faults
      ensures Valid() && Proper() && faults >= old(faults)
      ensures dead <==> faults > old(faults)
      ensures arrival == Broken ==> faults > old(faults)
      ensures sent + pending == old(sent + pending) && |pending| <= |old(pending)|
      ensures newRoom == 0 ==> sent == old(sent) && pending == old(pending)
      ensures newRoom > 0 && !dead ==> Flushed()
      ensures inb == old(inb) + (if arrival.Records? then arrival.rs else [])
      ensures fed == old(fed) + DataOf(arrival)
      ensures eof <==> old(eof) || arrival == EndOfStream
    {
      hide Valid, Measure, Plain, Flatten, GoodRecords, Weight;
      if newRoom > 0 {
        Grant(newRoom);
        var alive := Flush();
        if !alive {
          Kill();
        }
      }
      var ok := Feed(arrival);
      if !ok {
        Kill();
      }
    }
  }

  /** What the destination was given is what was read for it, but for one last chunk whose write
      failed. */
  ghost predicate Forwarded(src: End, dst: End)
    reads src, dst
  {
    || dst.written == src.readLog
    || (dst.faults > 0 && |src.readLog| == |dst.written| + 1
        && dst.written == src.readLog[..|dst.written|])
  }

  /** End to end: the plaintext on a socket's wire is a prefix of what arrived at the other one. */
  lemma EndToEnd(src: End, dst: End)
    requires src.Valid() && dst.Valid() && Forwarded(src, dst)
    ensures IsPrefix(Plain(dst.sent), src.fed)
  {
    Associates(dst.sent, dst.pending, dst.outb);
    PlainAppend(dst.sent, dst.pending + dst.outb);
    hide Plain, Flatten, GoodRecords, Unread;
    if dst.written != src.readLog {
      FlattenAppend(dst.written, src.readLog[|dst.written|]);
      assert src.readLog == dst.written + [src.readLog[|dst.written|]];
    }
  }

  /** What a call of select brings: nothing in time, or sockets ready. */
  datatype Wakeup =
    | Timeout(idle: bool)
    | Events(clientRoom: nat, clientArrives: Arrival, upRoom: nat, upArrives: Arrival)

  ghost predicate GoodWakeup(w: Wakeup)
  {
    w.Events? ==>
      && (w.clientArrives.Records? ==> GoodRecords(w.clientArrives.rs))
      && (w.upArrives.Records? ==> GoodRecords(w.upArrives.rs))
  }

  function ClientData(w: Wakeup): Bytes
  {
    if w.Events? then DataOf(w.clientArrives) else []
  }

  function UpData(w: Wakeup): Bytes
  {
    if w.Events? then DataOf(w.upArrives) else []
  }

  /** The application data of a run of wakeups, in order, at one of the sockets. */
  function Arrived(data: Wakeup -> Bytes, ws: seq<Wakeup>): Bytes
  {
    if ws == [] then [] else Arrived(data, ws[..|ws| - 1]) + data(ws[|ws| - 1])
  }

  lemma ArrivedNothing(ws: seq<Wakeup>)
    ensures Arrived(ClientData, ws[..0]) == [] && Arrived(UpData, ws[..0]) == []
  {
  }

  lemma ArrivedMore(data: Wakeup -> Bytes, ws: seq<Wakeup>, n: nat)
    requires n < |ws|
    ensures Arrived(data, ws[..n + 1]) == Arrived(data, ws[..n]) + data(ws[n])
  {
    assert ws[..n + 1][..n] == ws[..n];
  }

  predicate ClientEnds(w: Wakeup)
  {
    w.Events? && w.clientArrives == EndOfStream
  }

  predicate UpEnds(w: Wakeup)
  {
    w.Events? && w.upArrives == EndOfStream
  }

  class Bridge {
    const client: End
    const up: End
    var clientSeen: seq<Bytes>
    var upSeen: seq<Bytes>
    var closed: bool

    constructor (client: End, up: End)
      requires client != up && client.Valid() && up.Valid() && client.Proper() && up.Proper()
      requires client.readLog == up.written == up.readLog == client.written == []
      ensures this.client == client && this.up == up && Valid() && !closed
      ensures clientSeen == upSeen == []
    {
      this.client, this.up := client, up;
      clientSeen, upSeen, closed := [], [], false;
    }

    /** Conservation in both directions, observers that saw exactly the chunks read, and ends that
        are dead exactly when a call failed or their stream was read to the end. */
    ghost predicate Valid()
      reads this, client, up
    {
      && client != up && client.Valid() && up.Valid() && client.Proper() && up.Proper()
      && Forwarded(client, up) && Forwarded(up, client)
      && clientSeen == client.readLog && upSeen == up.readLog
    }

    ghost predicate Alive()
      reads client, up
    {
      !client.dead && !up.dead
    }

    ghost function Measure(): nat
      reads client, up
    {
      client.Measure() + up.Measure()
    }

    /** Nothing left to do without the sockets: no ciphertext to move, none that a socket would
        take, no handshake to go on with, and, once both are done, no plaintext to forward and no
        end of a stream to act on. */
    ghost predicate Parked()
      reads client, up
    {
      && client.outb == [] && up.outb == [] && client.Flushed() && up.Flushed()
      && client.Shaken() && up.Shaken()
      && (client.handshaken && up.handshaken ==>
            Unread(client.inb) == [] && Unread(up.inb) == [] && !client.eof && !up.eof)
    }

    /** One forwarding loop. The observer runs first; what it raises is only logged. */
    static method Forward(src: End, dst: End, seen0: seq<Bytes>)
        returns (progressed: bool, seen: seq<Bytes>)
      requires src != dst && src.Valid() && dst.Valid() && src.Proper() && dst.Proper()
      requires Forwarded(src, dst) && Forwarded(dst, src) && seen0 == src.readLog
      requires !src.dead && !dst.dead
      modifies src`outb, src`inb, src`dead, src`readLog, src`faults, src`ended
      modifies dst`outb, dst`written, dst`dead, dst`faults
      ensures src.Valid() && dst.Valid() && src.Proper() && dst.Proper()
      ensures Forwarded(src, dst) && Forwarded(dst, src) && seen == src.readLog
      ensures src.faults >= old(src.faults) && dst.faults >= old(dst.faults)
      ensures src.Measure() + dst.Measure() <= old(src.Measure() + dst.Measure())
      ensures progressed && !src.dead && !dst.dead ==>
        src.Measure() + dst.Measure() < old(src.Measure() + dst.Measure())
      ensures !src.dead && !dst.dead ==> Unread(src.inb) == [] && !src.eof
    {
      hide End.Valid, End.Measure, Unread;
      progressed, seen := false, seen0;
      while !(src.dead || dst.dead)
        invariant src.Valid() && dst.Valid() && src.Proper() && dst.Proper()
        invariant Forwarded(src, dst) && Forwarded(dst, src) && seen == src.readLog
        invariant src.faults >= old(src.faults) && dst.faults >= old(dst.faults)
        invariant src.Measure() + dst.Measure() <= old(src.Measure() + dst.Measure())
        invariant progressed ==> src.Measure() + dst.Measure() < old(src.Measure() + dst.Measure())
        decreases |Unread(src.inb)|
      {
        var plain := src.ReadPlain();
        if plain == None {
          break;
        }
        if plain.value == [] {
          src.Kill();
          break;
        }
        seen := seen + [plain.value];
        var ok := dst.WritePlain(plain.value);
        if !ok {
          dst.Kill();
          break;
        }
        progressed := true;
      }
    }

    /** Both handshakes go on as far as they can. */
    method HandshakeBoth() returns (progressed: bool)
      requires Valid() && Alive()
      modifies client`outb, client`inb, client`hello, client`needs, client`handshaken
      modifies client`dead, client`faults, client`ended
      modifies up`outb, up`inb, up`hello, up`needs, up`handshaken, up`dead, up`faults, up`ended
      ensures Valid()
      ensures client.faults >= old(client.faults) && up.faults >= old(up.faults)
      ensures Measure() <= old(Measure())
      ensures progressed ==> Measure() < old(Measure())
      ensures Alive() ==> client.Shaken() && up.Shaken()
    {
      hide End.Valid, End.Measure, Unread, End.Shaken;
      var done1 := client.DriveHandshake();
      var done2 := up.DriveHandshake();
      progressed := done1 || done2;
    }

    /** Both ends send what they can. */
    method MoveBoth() returns (progressed: bool)
      requires Valid()
      modifies client`outb, client`pending, client`sent, client`room, client`dead, client`faults
      modifies up`outb, up`pending, up`sent, up`room, up`dead, up`faults
      ensures Valid() && client.outb == [] && up.outb == []
      ensures old(!Alive()) ==> !Alive()
      ensures client.faults >= old(client.faults) && up.faults >= old(up.faults)
      ensures client.faults == 0 ==> client.Flushed()
      ensures up.faults == 0 ==> up.Flushed()
      ensures Measure() <= old(Measure())
      ensures progressed ==> Measure() < old(Measure())
    {
      hide End.Valid, End.Measure, Unread, End.Flushed;
      var out1 := client.MoveOut();
      var out2 := up.MoveOut();
      progressed := out1 || out2;
    }

    /** One pass of the loop, up to the selector. */
    method Pass() returns (progressed: bool)
      requires Valid() && Alive()
      modifies client, up, `clientSeen, `upSeen
      ensures Valid() && client.fed == old(client.fed) && up.fed == old(up.fed)
      ensures client.eof == old(client.eof) && up.eof == old(up.eof)
      ensures client.outb == [] && up.outb == []
      ensures client.faults == 0 ==> client.Flushed()
      ensures up.faults == 0 ==> up.Flushed()
      ensures Measure() <= old(Measure())
      ensures progressed && Alive() ==> Measure() < old(Measure())
      ensures !progressed && Alive() ==> Parked()
    {
      hide End.Valid, End.Measure, Unread, Forwarded;
      progressed := HandshakeBoth();
      if client.handshaken && up.handshaken {
        var p := ForwardBoth();
        progressed := progressed || p;
      }
      var out := MoveBoth();
      progressed := progressed || out;
    }

    /** Both forwarding loops; the second runs only if the first killed nobody. */
    method ForwardBoth() returns (progressed: bool)
      requires Valid()
      modifies client`outb, client`inb, client`dead, client`readLog, client`written, client`faults, client`ended
      modifies up`outb, up`inb, up`dead, up`readLog, up`written, up`faults, up`ended
      modifies `clientSeen, `upSeen
      ensures Valid()
      ensures client.faults >= old(client.faults) && up.faults >= old(up.faults)
      ensures old(!Alive()) ==> !Alive()
      ensures Measure() <= old(Measure())
      ensures progressed && Alive() ==> Measure() < old(Measure())
      ensures Alive() ==> Unread(client.inb) == [] && Unread(up.inb) == [] && !client.eof && !up.eof
    {
      hide End.Valid, End.Measure, Unread;
      progressed := false;
      if !(client.dead || up.dead) {
        progressed, clientSeen := Forward(client, up, clientSeen);
      }
      if !(client.dead || up.dead) {
        var p;
        p, upSeen := Forward(up, client, upSeen);
        progressed := progressed || p;
      }
    }

    /** Passes until the selector is reached, or an end is dead: never more than the measure,
        and one more to see that nothing is left. */
    method Settle() returns (passes: nat)
      requires Valid() && Alive()
      modifies client, up, `clientSeen, `upSeen
      ensures Valid() && client.fed == old(client.fed) && up.fed == old(up.fed)
      ensures client.eof == old(client.eof) && up.eof == old(up.eof)
      ensures client.outb == [] && up.outb == []
      ensures client.faults == 0 ==> client.Flushed()
      ensures up.faults == 0 ==> up.Flushed()
      ensures passes <= old(Measure()) + 1
      ensures Alive() ==> Parked()
    {
      hide End.Valid, End.Measure, Unread, Parked, End.Proper, Forwarded, End.Flushed;
      passes := 0;
      while !(client.dead || up.dead)
        invariant Valid() && client.fed == old(client.fed) && up.fed == old(up.fed)
        invariant client.eof == old(client.eof) && up.eof == old(up.eof)
        invariant Alive() && passes + Measure() <= old(Measure())
        decreases Measure()
      {
        var progressed := Pass();
        passes := passes + 1;
        if client.dead || up.dead {
          break;
        }
        if !progressed {
          break;
        }
      }
    }

    /** What the selector's wakeup does to the two ends. */
    method Take(w: Wakeup)
      requires Valid() && GoodWakeup(w) && Alive()
      modifies client, up
      ensures Valid()
      ensures client.fed == old(client.fed) + ClientData(w) && up.fed == old(up.fed) + UpData(w)
      ensures client.eof <==> old(client.eof) || ClientEnds(w)
      ensures up.eof <==> old(up.eof) || UpEnds(w)
      ensures client.dead ==> client.faults > 0
      ensures up.dead ==> up.faults > 0
      ensures w.Timeout? ==> unchanged(client) && unchanged(up)
    {
      hide End.Valid, Plain, Flatten, Unread, GoodRecords, DataOf;
      match w
      case Timeout(_) =>
      case Events(clientRoom, clientArrives, upRoom, upArrives) =>
        client.React(clientRoom, clientArrives);
        up.React(upRoom, upArrives);
    }

    /** No call failed, and neither stream has ended. */
    ghost predicate Untroubled()
      reads client, up
    {
      client.faults == 0 && up.faults == 0 && !client.eof && !up.eof
    }

    /** All that arrived at src was shown to the observer, and is on the wire of dst or waits there
        because its socket takes no more. */
    ghost predicate AllForwarded(src: End, dst: End, seen: seq<Bytes>)
      reads src, dst
    {
      Flatten(seen) == src.fed && Plain(dst.sent + dst.pending) == src.fed && dst.Flushed()
    }

    /** What the ends were given since some moment are the first n wakeups. */
    ghost predicate Heard(wakeups: seq<Wakeup>, n: nat, clientFed: Bytes, upFed: Bytes, clientEof: bool, upEof: bool)
      requires n <= |wakeups|
      reads client, up
    {
      && client.fed == clientFed + Arrived(ClientData, wakeups[..n])
      && up.fed == upFed + Arrived(UpData, wakeups[..n])
      && (client.eof <==> clientEof || exists i :: 0 <= i < n && ClientEnds(wakeups[i]))
      && (up.eof <==> upEof || exists i :: 0 <= i < n && UpEnds(wakeups[i]))
    }

    /** The next wakeup. */
    method TakeNext(wakeups: seq<Wakeup>, n: nat, ghost clientFed: Bytes, ghost upFed: Bytes,
                    ghost clientEof: bool, ghost upEof: bool)
      requires Valid() && Alive() && n < |wakeups| && GoodWakeup(wakeups[n])
      requires Heard(wakeups, n, clientFed, upFed, clientEof, upEof)
      modifies client, up
      ensures Valid() && Heard(wakeups, n + 1, clientFed, upFed, clientEof, upEof)
      ensures client.dead ==> client.faults > 0
      ensures up.dead ==> up.faults > 0
      ensures wakeups[n].Timeout? ==> unchanged(client) && unchanged(up)
    {
      var w := wakeups[n];
      ArrivedMore(ClientData, wakeups, n);
      ArrivedMore(UpData, wakeups, n);
      Associates(clientFed, Arrived(ClientData, wakeups[..n]), ClientData(w));
      Associates(upFed, Arrived(UpData, wakeups[..n]), UpData(w));
      hide Valid, Arrived, ClientData, UpData, ClientEnds, UpEnds, GoodWakeup;
      Take(w);
    }

    /** How the bridge stands when it closes after n wakeups: it did so before the last one, or an
        idle timeout, only if a call failed or a stream ended; without either, everything that
        arrived has been forwarded once both handshakes have had what they need, and at the end of
        a stream everything of that stream has. */
    ghost predicate Outcome(wakeups: seq<Wakeup>, n: nat)
      requires n <= |wakeups|
      reads this, client, up
    {
      && (Untroubled() ==> Alive())
      && (Alive() ==>
            && (n == |wakeups| || (n > 0 && wakeups[n - 1] == Timeout(true)))
            && client.Shaken() && up.Shaken()
            && (client.needs == 0 && up.needs == 0 ==>
                  AllForwarded(client, up, clientSeen) && AllForwarded(up, client, upSeen)))
      && (client.faults == 0 && up.faults == 0 && client.ended ==> AllForwarded(client, up, clientSeen))
      && (client.faults == 0 && up.faults == 0 && up.ended ==> AllForwarded(up, client, upSeen))
    }

    /** The bridge over everything select reports, to its close; n wakeups were taken. */
    method Run(wakeups: seq<Wakeup>) returns (n: nat)
      requires Valid() && Alive()
      requires forall i :: 0 <= i < |wakeups| ==> GoodWakeup(wakeups[i])
      modifies this, client, up
      ensures Valid() && closed && n <= |wakeups|
      ensures Heard(wakeups, n, old(client.fed), old(up.fed), old(client.eof), old(up.eof))
      ensures Outcome(wakeups, n)
    {
      StartHeard(this, wakeups);
      hide Heard, Outcome, GoodWakeup, Parked, End.Flushed, End.Valid, Forwarded, End.Proper;
      n := 0;
      while true
        invariant Valid() && Alive() && 0 <= n <= |wakeups|
        invariant Heard(wakeups, n, old(client.fed), old(up.fed), old(client.eof), old(up.eof))
        decreases |wakeups| - n
      {
        var passes := Settled(wakeups, n, old(client.fed), old(up.fed), old(client.eof), old(up.eof));
        if client.dead || up.dead {
          Ended(this, wakeups, n);
          break;
        }
        if n == |wakeups| {
          NothingHeldBack(this, wakeups, n);
          break;
        }
        n := n + 1;
        TakeNext(wakeups, n - 1, old(client.fed), old(up.fed), old(client.eof), old(up.eof));
        if wakeups[n - 1] == Timeout(true) {
          NothingHeldBack(this, wakeups, n);
          break;
        }
        if client.dead || up.dead {
          Faulted(this, wakeups, n);
          break;
        }
      }
      Close(wakeups, n);
    }

    method Close(wakeups: seq<Wakeup>, n: nat)
      requires Valid() && n <= |wakeups| && Outcome(wakeups, n)
      modifies `closed
      ensures Valid() && Outcome(wakeups, n) && closed
    {
      closed := true;
    }

    /** Settling hears nothing. */
    method Settled(wakeups: seq<Wakeup>, n: nat, ghost clientFed: Bytes, ghost upFed: Bytes,
                   ghost clientEof: bool, ghost upEof: bool) returns (passes: nat)
      requires Valid() && Alive() && n <= |wakeups|
      requires Heard(wakeups, n, clientFed, upFed, clientEof, upEof)
      modifies client, up, `clientSeen, `upSeen
      ensures Valid() && Heard(wakeups, n, clientFed, upFed, clientEof, upEof)
      ensures client.outb == [] && up.outb == []
      ensures client.faults == 0 ==> client.Flushed()
      ensures up.faults == 0 ==> up.Flushed()
      ensures Alive() ==> Parked()
    {
      hide Valid, Parked, End.Flushed, Arrived;
      passes := Settle();
    }
  }

  lemma StartHeard(b: Bridge, wakeups: seq<Wakeup>)
    ensures b.Heard(wakeups, 0, b.client.fed, b.up.fed, b.client.eof, b.up.eof)
  {
    ArrivedNothing(wakeups);
  }

  /** An end whose plaintext was all read, by a bridge whose other end had no failed write. */
  lemma ReadIsForwarded(b: Bridge, src: End, dst: End, seen: seq<Bytes>)
    requires src.Valid() && dst.Valid() && Forwarded(src, dst) && dst.faults == 0
    requires seen == src.readLog && Unread(src.inb) == [] && dst.outb == [] && dst.Flushed()
    ensures b.AllForwarded(src, dst, seen)
  {
    hide Plain, Flatten, GoodRecords;
    assert dst.sent + dst.pending + [] == dst.sent + dst.pending;
    assert Flatten(seen) + [] == Flatten(seen);
  }

  /** A parked bridge with both handshakes done has forwarded all that arrived. */
  lemma NothingHeldBack(b: Bridge, wakeups: seq<Wakeup>, n: nat)
    requires b.Valid() && b.Alive() && b.Parked()
    requires n <= |wakeups| && (n == |wakeups| || (n > 0 && wakeups[n - 1] == Timeout(true)))
    ensures b.Outcome(wakeups, n)
  {
    hide Plain, Flatten, GoodRecords, End.Valid, Forwarded;
    if b.client.handshaken && b.up.handshaken {
      ReadIsForwarded(b, b.client, b.up, b.clientSeen);
      ReadIsForwarded(b, b.up, b.client, b.upSeen);
    }
    hide Bridge.AllForwarded;
  }

  /** Where a stream was read to its end and no call failed, all of it has been forwarded. */
  lemma Ended(b: Bridge, wakeups: seq<Wakeup>, n: nat)
    requires b.Valid() && !b.Alive() && n <= |wakeups|
    requires b.client.outb == [] && b.up.outb == []
    requires b.client.faults == 0 ==> b.client.Flushed()
    requires b.up.faults == 0 ==> b.up.Flushed()
    ensures b.Outcome(wakeups, n)
  {
    hide Plain, Flatten, GoodRecords, End.Valid, Forwarded;
    if b.client.faults == 0 && b.up.faults == 0 {
      if b.client.ended {
        ReadIsForwarded(b, b.client, b.up, b.clientSeen);
      }
      if b.up.ended {
        ReadIsForwarded(b, b.up, b.client, b.upSeen);
      }
    }
    hide Bridge.AllForwarded;
  }

  lemma Faulted(b: Bridge, wakeups: seq<Wakeup>, n: nat)
    requires n <= |wakeups| && !b.Alive() && (b.client.faults > 0 || b.up.faults > 0)
    ensures b.Outcome(wakeups, n)
  {
  }

  /** What a valid bridge guarantees at any moment, both ways. */
  lemma Conservation(b: Bridge)
    requires b.Valid()
    ensures IsPrefix(Plain(b.up.sent), b.client.fed) && IsPrefix(Plain(b.client.sent), b.up.fed)
    ensures b.up.faults == 0 ==>
      Plain(b.up.sent + b.up.pending + b.up.outb) + Unread(b.client.inb) == b.client.fed
    ensures b.client.faults == 0 ==>
      Plain(b.client.sent + b.client.pending + b.client.outb) + Unread(b.up.inb) == b.up.fed
  {
    EndToEnd(b.client, b.up);
    EndToEnd(b.up, b.client);
    hide Plain, Flatten, Unread, IsPrefix, GoodRecords;
  }
}
