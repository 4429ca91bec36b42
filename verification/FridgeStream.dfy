/** The fridge's side of :47878: decode_messages, its sanity limit, and the receive loop. */
module FridgeStream {
  import opened ByteStrings
  import opened PyObjects
  import opened Msgpack

  const SANITY_LIMIT: nat := 0x1_0000
  const RECV_SIZE: nat := 4096

  datatype Item = Item(msg: Obj, used: nat) | Stuck

  /** The first message of a buffer: a dict, or a string whose text parses as a JSON object.
      Anything else stops the decoder in front of it. */
  function FirstItem(lib: Library, buf: Bytes): (i: Item)
    requires buf != []
    ensures i.Item? ==> 1 <= i.used <= |buf|
  {
    match ReadValue(lib, buf)
    case Got(v, used) =>
      if v.Str? then
        match lib.loadsText(v.s) {
          case Some(m) => if m.Dict? then Item(m, used) else Stuck
          case None => Stuck
        }
      else if v.Dict? then Item(v, used)
      else Stuck
    case _ => Stuck
  }

  /** The decoding loop, before the sanity limit is applied. */
  function DecodeRaw(lib: Library, buf: Bytes): (d: Decoded)
    ensures |d.rest| <= |buf|
  {
    if buf == [] then Decoded([], [])
    else
      match FirstItem(lib, buf)
      case Item(m, used) => Prepend([m], DecodeRaw(lib, buf[used..]))
      case Stuck => Decoded([], buf)
  }

  /** A mute remainder over the limit is dropped. */
  function Decode(lib: Library, buf: Bytes): Decoded
  {
    var d := DecodeRaw(lib, buf);
    if d.msgs == [] && |d.rest| > SANITY_LIMIT then Decoded([], []) else d
  }

  /** One round of the decoding loop at a position of the buffer. */
  lemma DecodeStep(lib: Library, buf: Bytes, pos: nat)
    requires pos < |buf|
    ensures var i := FirstItem(lib, buf[pos..]);
      DecodeRaw(lib, buf[pos..]) ==
        if i.Item? then Prepend([i.msg], DecodeRaw(lib, buf[pos + i.used..]))
        else Decoded([], buf[pos..])
  {
    hide FirstItem, Prepend;
    var i := FirstItem(lib, buf[pos..]);
    if i.Item? {
      DropDrop(buf, pos, i.used);
    }
  }

  /** decode_messages. */
  method DecodeMessages(lib: Library, buf: Bytes) returns (msgs: seq<Obj>, rest: Bytes)
    ensures Decoded(msgs, rest) == Decode(lib, buf)
  {
    hide ReadValue, HeadOf, DecodeRaw, Prepend;
    var reader := new MsgpackReader(lib, buf);
    msgs := [];
    assert buf[0..] == buf;
    PrependNothing(DecodeRaw(lib, buf));
    while reader.pos < |buf|
      invariant reader.lib == lib && reader.data == buf && reader.pos <= |buf|
      invariant Prepend(msgs, DecodeRaw(lib, buf[reader.pos..])) == DecodeRaw(lib, buf)
      decreases |buf| - reader.pos
    {
      var start := reader.pos;
      DecodeStep(lib, buf, start);
      var r := reader.Read();
      if !r.Value? {
        reader.pos := start;
        break;
      }
      var val := r.val;
      if val.Str? {
        var parsed := lib.loadsText(val.s);
        if parsed == None {
          reader.pos := start;
          break;
        }
        val := parsed.value;
      }
      if val.Dict? {
        PrependTwice(msgs, [val], DecodeRaw(lib, buf[reader.pos..]));
        msgs := msgs + [val];
      } else {
        reader.pos := start;
        break;
      }
    }
    rest := buf[reader.pos..];
    assert DecodeRaw(lib, rest) == Decoded([], rest) by {
      if rest == [] {
        EmptyBuffer(lib);
      }
    }
    PrependNothing(Decoded(msgs, rest));
    if msgs == [] && |rest| > SANITY_LIMIT {
      msgs, rest := [], [];
    }
  }

  lemma EmptyBuffer(lib: Library)
    ensures DecodeRaw(lib, []) == Decoded([], [])
  {
  }

  // ---- The never-park bound ----

  /** Reading more bytes: what raised for its prefix still raises; what was cut short, if it now
      completes, ends past the old end; what completed short of the end is unchanged. */
  lemma {:induction false} ReadValueExtend(lib: Library, s: Bytes, x: Bytes)
    ensures ReadValue(lib, s).Unsupported? ==> ReadValue(lib, s + x).Unsupported?
    ensures ReadValue(lib, s).Truncated? && ReadValue(lib, s + x).Got? ==>
      ReadValue(lib, s + x).used > |s|
    ensures ReadValue(lib, s).Got? && ReadValue(lib, s).used < |s| ==>
      ReadValue(lib, s + x) == ReadValue(lib, s)
    ensures s != [] && ReadValue(lib, s).Got? && !ReadValue(lib, s).val.Dict? ==>
      ReadValue(lib, s + x) == ReadValue(lib, s)
    decreases |s|, 0
  {
    if s != [] {
      var head := HeadOf(s);
      assert s + x != [];
      if head == CutHead {
        var head' := HeadOf(s + x);
        assert head'.MapHead? || head'.StrHead? || head'.Scalar? ==> head'.skip > |s|;
      } else {
        assert HeadOf(s + x) == head;
        if head.MapHead? {
          DropAppend(s, x, head.skip);
          ReadEntriesExtend(lib, s[head.skip..], x, head.n, []);
        } else if head.StrHead? {
          DropAppend(s, x, head.skip);
          if head.n <= |s[head.skip..]| {
            DropAppend(s[head.skip..], x, head.n);
          }
        }
      }
    }
  }

  lemma {:induction false} ReadEntriesExtend(lib: Library, s: Bytes, x: Bytes, n: nat, d: seq<Entry>)
    ensures ReadEntries(lib, s, n, d).Unsupported? ==> ReadEntries(lib, s + x, n, d).Unsupported?
    ensures ReadEntries(lib, s, n, d).Truncated? && ReadEntries(lib, s + x, n, d).Got? ==>
      ReadEntries(lib, s + x, n, d).used > |s|
    ensures ReadEntries(lib, s, n, d).Got? && ReadEntries(lib, s, n, d).used < |s| ==>
      ReadEntries(lib, s + x, n, d) == ReadEntries(lib, s, n, d)
    decreases |s|, n + 1
  {
    hide ReadValue, ReadEntries, HeadOf, Put, Missing;
    EntriesStep(lib, s, n, d);
    EntriesStep(lib, s + x, n, d);
    if n > 0 {
      ReadValueExtend(lib, s, x);
      var k := ReadValue(lib, s);
      if k.Got? && k.used < |s| {
        DropAppend(s, x, k.used);
        ReadValueExtend(lib, s[k.used..], x);
        var v := ReadValue(lib, s[k.used..]);
        if v.Got? && v.used < |s| - k.used {
          DropAppend(s, x, k.used + v.used);
          DropDrop(s, k.used, v.used);
          ReadEntriesExtend(lib, s[k.used + v.used..], x, n - 1, Put(d, lib.str(k.val), v.val));
        } else if v.Got? {
          assert s[k.used + v.used..] == [];
          ExhaustedMap(lib, n - 1, Put(d, lib.str(k.val), v.val));
        }
      } else if k.Got? {
        assert s[k.used..] == [];
        ExhaustedMap(lib, n, d);
        EmptyValue(lib);
        ExhaustedMap(lib, n - 1, Put(d, lib.str(k.val), PyNone));
      }
    }
  }

  lemma EmptyValue(lib: Library)
    ensures ReadValue(lib, []) == Got(PyNone, 0)
  {
  }

  /** A map's entries once the buffer is out and n of them are missing: a key of None, and its
      value None, stand for all of them. */
  function Missing(lib: Library, d: seq<Entry>, n: nat): seq<Entry>
  {
    if n == 0 then d else Put(d, lib.str(PyNone), PyNone)
  }

  /** At the end of the buffer a map completes, without an error. */
  lemma {:induction false} ExhaustedMap(lib: Library, n: nat, d: seq<Entry>)
    ensures ReadEntries(lib, [], n, d) == Got(Dict(Missing(lib, d, n)), 0)
    decreases n
  {
    hide ReadValue, ReadEntries, HeadOf;
    EntriesStep(lib, [], n, d);
    EmptyValue(lib);
    if n > 0 {
      PutAgain(d, lib.str(PyNone), PyNone);
      ExhaustedMap(lib, n - 1, Put(d, lib.str(PyNone), PyNone));
    }
  }

  /** Nothing of the buffer can be delivered as it stands. */
  ghost predicate Blocked(lib: Library, buf: Bytes)
  {
    buf == [] || FirstItem(lib, buf).Stuck?
  }

  lemma {:induction false} RemainderBlocked(lib: Library, buf: Bytes)
    ensures Blocked(lib, DecodeRaw(lib, buf).rest)
    decreases |buf|
  {
    if buf != [] && FirstItem(lib, buf).Item? {
      RemainderBlocked(lib, buf[FirstItem(lib, buf).used..]);
    }
  }

  /** A blocked item that new bytes unblock ends past the old end of the buffer. */
  lemma UnblockedEndsLate(lib: Library, buf: Bytes, data: Bytes)
    requires buf != [] && Blocked(lib, buf)
    ensures FirstItem(lib, buf + data).Item? ==> FirstItem(lib, buf + data).used > |buf|
  {
    ReadValueExtend(lib, buf, data);
    hide ReadValue, HeadOf;
  }

  /** One receive step of the fridge's connection: the carried buffer plus one read. */
  lemma NeverParkStep(lib: Library, buf: Bytes, data: Bytes)
    requires Blocked(lib, buf) && |buf| <= 65536 && |data| <= 4096
    ensures var rest := Decode(lib, buf + data).rest;
      Blocked(lib, rest) && |rest| <= 65536
  {
    hide ReadValue, HeadOf, FirstItem;
    RemainderBlocked(lib, buf + data);
    if buf != [] {
      UnblockedEndsLate(lib, buf, data);
    }
  }

  /** The connection's receive loop over the reads it gets. */
  function Receive(lib: Library, buf: Bytes, chunks: seq<Bytes>): Decoded
    decreases |chunks|
  {
    if chunks == [] then Decoded([], buf)
    else
      var d := Decode(lib, buf + chunks[0]);
      Prepend(d.msgs, Receive(lib, d.rest, chunks[1..]))
  }

  lemma {:induction false} NeverParkFrom(lib: Library, buf: Bytes, chunks: seq<Bytes>)
    requires Blocked(lib, buf) && |buf| <= SANITY_LIMIT
    requires forall i :: 0 <= i < |chunks| ==> |chunks[i]| <= RECV_SIZE
    ensures |Receive(lib, buf, chunks).rest| <= SANITY_LIMIT
    decreases |chunks|
  {
    if chunks != [] {
      NeverParkStep(lib, buf, chunks[0]);
      NeverParkFrom(lib, Decode(lib, buf + chunks[0]).rest, chunks[1..]);
    }
  }

  /** For any bytes at all, a connection never carries more than the sanity limit. */
  lemma NeverParks(lib: Library, chunks: seq<Bytes>)
    requires forall i :: 0 <= i < |chunks| ==> |chunks[i]| <= 4096
    ensures |Receive(lib, [], chunks).rest| <= 65536
  {
    NeverParkFrom(lib, [], chunks);
  }

  function Junk(n: nat): (s: Bytes)
    ensures |s| == n && forall i :: 0 <= i < n ==> s[i] == 0xC1
  {
    seq(n, _ => 0xC1)
  }

  /** The bound is met: the unassigned prefix 0xC1, sixteen full reads of it, is carried whole. */
  lemma BoundIsReached(lib: Library) returns (chunks: seq<Bytes>)
    ensures forall i :: 0 <= i < |chunks| ==> |chunks[i]| <= 4096
    ensures |Receive(lib, [], chunks).rest| == 65536
  {
    assert Junk(0) == [];
    chunks := JunkCarried(lib, 0, 16);
  }

  lemma {:induction false} JunkCarried(lib: Library, held: nat, n: nat) returns (chunks: seq<Bytes>)
    requires held + n * RECV_SIZE <= SANITY_LIMIT
    ensures forall i :: 0 <= i < |chunks| ==> |chunks[i]| <= RECV_SIZE
    ensures Receive(lib, Junk(held), chunks) == Decoded([], Junk(held + n * RECV_SIZE))
    decreases n
  {
    if n == 0 {
      chunks := [];
    } else {
      var more := JunkCarried(lib, held + RECV_SIZE, n - 1);
      chunks := [Junk(RECV_SIZE)] + more;
      assert Junk(held) + Junk(RECV_SIZE) == Junk(held + RECV_SIZE);
      assert FirstItem(lib, Junk(held + RECV_SIZE)).Stuck?;
      assert chunks[1..] == more;
    }
  }

  // ---- String-framed streams ----

  /** A message the fridge's codec can send, and its frame. */
  ghost predicate Sendable(lib: Library, msg: Obj)
  {
    Message(msg) && EncodeMessage(lib, msg).Some?
  }

  function Frame(lib: Library, msg: Obj): Bytes
    requires EncodeMessage(lib, msg).Some?
  {
    EncodeMessage(lib, msg).value
  }

  ghost predicate AllSendable(lib: Library, msgs: seq<Obj>)
  {
    forall i :: 0 <= i < |msgs| ==> Sendable(lib, msgs[i])
  }

  ghost function Stream(lib: Library, msgs: seq<Obj>): Bytes
    requires AllSendable(lib, msgs)
  {
    if msgs == [] then [] else Frame(lib, msgs[0]) + Stream(lib, msgs[1..])
  }

  function TextSize(lib: Library, msg: Obj): nat
  {
    |lib.encode(lib.dumps(msg))|
  }

  lemma FrameFirst(lib: Library, msg: Obj, tail: Bytes)
    requires Lawful(lib) && Sendable(lib, msg)
    ensures DecodeRaw(lib, Frame(lib, msg) + tail) == Prepend([msg], DecodeRaw(lib, tail))
    ensures FirstItem(lib, Frame(lib, msg) + tail) == Item(msg, |Frame(lib, msg)|)
  {
    StrInverse(lib, lib.dumps(msg), tail);
    hide ReadValue, HeadOf;
    assert (Frame(lib, msg) + tail)[|Frame(lib, msg)|..] == tail;
  }

  /** A frame that is not all there yet waits, cut inside its header or not. */
  lemma PartialFrame(lib: Library, msg: Obj, part: Bytes)
    requires Lawful(lib) && Sendable(lib, msg)
    requires part < Frame(lib, msg)
    ensures DecodeRaw(lib, part) == Decoded([], part)
  {
    if part != [] {
      var f := Frame(lib, msg);
      var text := lib.encode(lib.dumps(msg));
      var head := HeadOf(f);
      assert head == StrHead(|f| - |text|, |text|);
      assert part == f[..|part|];
      if |part| >= head.skip {
        assert HeadOf(part) == head;
      } else {
        assert HeadOf(part) == CutHead;
      }
      assert ReadValue(lib, part) == Truncated;
    }
  }

  /** The messages a prefix of a stream completes, and what is left of it. */
  lemma {:induction false} StreamPrefix(lib: Library, msgs: seq<Obj>, p: Bytes, q: Bytes)
      returns (k: nat)
    requires Lawful(lib) && AllSendable(lib, msgs)
    requires p + q == Stream(lib, msgs)
    ensures k <= |msgs|
    ensures DecodeRaw(lib, p).msgs == msgs[..k]
    ensures DecodeRaw(lib, p).rest + q == Stream(lib, msgs[k..])
    ensures k < |msgs| ==> DecodeRaw(lib, p).rest < Frame(lib, msgs[k])
    ensures k == |msgs| ==> DecodeRaw(lib, p).rest == []
    decreases |msgs|
  {
    if msgs == [] {
      k := 0;
    } else {
      var f := Frame(lib, msgs[0]);
      var more := Stream(lib, msgs[1..]);
      assert Stream(lib, msgs) == f + more;
      hide DecodeRaw, Stream, Frame;
      if |p| < |f| {
        SplitCompare(f, more, p, q);
        PartialFrame(lib, msgs[0], p);
        k := 0;
        assert msgs[0..] == msgs;
      } else {
        SplitCompare(p, q, f, more);
        FrameFirst(lib, msgs[0], p[|f|..]);
        var k' := StreamPrefix(lib, msgs[1..], p[|f|..], q);
        k := k' + 1;
        ConsSlices(msgs, k');
      }
    }
  }

  ghost predicate NoLongText(lib: Library, msgs: seq<Obj>)
  {
    forall i :: 0 <= i < |msgs| ==> TextSize(lib, msgs[i]) <= 65534
  }

  /** With no message over the text limit, the sanity limit never strikes. */
  lemma NothingDropped(lib: Library, msgs: seq<Obj>, buf: Bytes, rest: Bytes) returns (k: nat)
    requires Lawful(lib) && AllSendable(lib, msgs)
    requires NoLongText(lib, msgs)
    requires buf + rest == Stream(lib, msgs)
    ensures k <= |msgs|
    ensures Decode(lib, buf).msgs == msgs[..k]
    ensures Decode(lib, buf).rest + rest == Stream(lib, msgs[k..])
    ensures if k == |msgs| then Decode(lib, buf).rest == []
            else Decode(lib, buf).rest < Frame(lib, msgs[k])
  {
    k := StreamPrefix(lib, msgs, buf, rest);
    hide Stream, DecodeRaw;
    var d := DecodeRaw(lib, buf);
    if k == 0 && msgs != [] {
      assert |d.rest| < |Frame(lib, msgs[0])| <= 65537;
    }
    assert Decode(lib, buf) == d;
  }

  lemma LaterMessages(lib: Library, msgs: seq<Obj>, k: nat)
    requires AllSendable(lib, msgs) && NoLongText(lib, msgs) && k <= |msgs|
    ensures AllSendable(lib, msgs[k..]) && NoLongText(lib, msgs[k..])
    ensures msgs[..k] + msgs[k..] == msgs
    ensures k < |msgs| ==> msgs[k..] != [] && msgs[k..][0] == msgs[k]
    ensures k == |msgs| ==> msgs[k..] == []
  {
    hide Sendable, TextSize;
  }

  lemma {:induction false} ReceiveStream(lib: Library, msgs: seq<Obj>, buf: Bytes, chunks: seq<Bytes>)
    requires Lawful(lib) && AllSendable(lib, msgs) && NoLongText(lib, msgs)
    requires buf + Flatten(chunks) == Stream(lib, msgs)
    requires if msgs == [] then buf == [] else buf < Frame(lib, msgs[0])
    ensures Receive(lib, buf, chunks) == Decoded(msgs, [])
    decreases |chunks|
  {
    if chunks == [] {
      StreamStart(lib, msgs);
    } else {
      var more := Flatten(chunks[1..]);
      Associates(buf, chunks[0], more);
      hide Decode, Stream, Frame, Lawful, EncodeMessage, NoLongText, Flatten, TextSize, Sendable;
      var k := NothingDropped(lib, msgs, buf + chunks[0], more);
      LaterMessages(lib, msgs, k);
      ReceiveStream(lib, msgs[k..], Decode(lib, buf + chunks[0]).rest, chunks[1..]);
    }
  }

  lemma StreamStart(lib: Library, msgs: seq<Obj>)
    requires AllSendable(lib, msgs)
    ensures msgs != [] ==> |Stream(lib, msgs)| >= |Frame(lib, msgs[0])|
    ensures msgs == [] ==> Stream(lib, msgs) == []
  {
    hide Frame;
  }

  // ---- Reads that lose a message ----

  /** Reads the receive loop can get: none empty, none over its size. */
  ghost predicate Reads(chunks: seq<Bytes>)
  {
    forall i :: 0 <= i < |chunks| ==> 1 <= |chunks[i]| <= 4096
  }

  /** Bytes read as fast as the loop can: full reads, and what is left. */
  function Cut(s: Bytes): seq<Bytes>
  {
    if s == [] then []
    else if |s| <= RECV_SIZE then [s]
    else [s[..RECV_SIZE]] + Cut(s[RECV_SIZE..])
  }

  lemma CutStep(s: Bytes, m: nat)
    requires s != [] && m == if |s| <= RECV_SIZE then |s| else RECV_SIZE
    ensures Cut(s) == [s[..m]] + Cut(s[m..])
  {
    if |s| <= RECV_SIZE {
      assert s[..m] == s && [s] + [] == [s];
    }
  }

  lemma {:induction false} CutFacts(s: Bytes)
    ensures Reads(Cut(s)) && Flatten(Cut(s)) == s
    decreases |s|
  {
    if s != [] {
      var m := if |s| <= RECV_SIZE then |s| else RECV_SIZE;
      CutStep(s, m);
      CutFacts(s[m..]);
      assert ([s[..m]] + Cut(s[m..]))[1..] == Cut(s[m..]);
    }
  }

  lemma {:induction false} ReceiveJoin(lib: Library, buf: Bytes, a: seq<Bytes>, b: seq<Bytes>)
    ensures var d := Receive(lib, buf, a);
      Receive(lib, buf, a + b) == Prepend(d.msgs, Receive(lib, d.rest, b))
    decreases |a|
  {
    hide Decode, Prepend;
    if a == [] {
      assert a + b == b;
      PrependNothing(Receive(lib, buf, b));
    } else {
      assert (a + b)[1..] == a[1..] + b && (a + b)[0] == a[0];
      var d := Decode(lib, buf + a[0]);
      ReceiveJoin(lib, d.rest, a[1..], b);
      var e := Receive(lib, d.rest, a[1..]);
      PrependTwice(d.msgs, e.msgs, Receive(lib, e.rest, b));
      PrependParts(d.msgs, e);
    }
  }

  lemma PrependParts(msgs: seq<Obj>, d: Decoded)
    ensures Prepend(msgs, d).msgs == msgs + d.msgs && Prepend(msgs, d).rest == d.rest
  {
  }

  /** One read, and the others after it. */
  lemma ReceiveCut(lib: Library, buf: Bytes, s: Bytes, m: nat)
    requires s != [] && m == if |s| <= RECV_SIZE then |s| else RECV_SIZE
    ensures var d := Decode(lib, buf + s[..m]);
      Receive(lib, buf, Cut(s)) == Prepend(d.msgs, Receive(lib, d.rest, Cut(s[m..])))
  {
    hide Decode, Prepend, Cut;
    CutStep(s, m);
    assert ([s[..m]] + Cut(s[m..]))[1..] == Cut(s[m..]);
  }

  /** A frame of which rest is still to come. */
  lemma FramePart(lib: Library, msg: Obj, part: Bytes, rest: Bytes)
    requires Lawful(lib) && Sendable(lib, msg)
    requires part + rest == Frame(lib, msg)
    ensures |part| + |rest| <= SANITY_LIMIT + 2
    ensures Decode(lib, part)
      == if rest == [] then Decoded([msg], [])
         else if |part| > SANITY_LIMIT then Decoded([], [])
         else Decoded([], part)
  {
    assert |Frame(lib, msg)| <= SANITY_LIMIT + 2;
    if rest == [] {
      FrameFirst(lib, msg, []);
      assert part == Frame(lib, msg) + [];
      hide ReadValue, HeadOf, FirstItem, EncodeMessage, Lawful;
      assert DecodeRaw(lib, []) == Decoded([], []);
      assert [msg] + [] == [msg];
    } else {
      PartialFrame(lib, msg, part);
      hide ReadValue, HeadOf, FirstItem, EncodeMessage, Lawful, DecodeRaw, Frame;
    }
  }

  /** Read as fast as possible, any frame arrives: sixteen reads are still within the limit, and
      the seventeenth completes it. */
  lemma {:induction false} WholeFrame(lib: Library, msg: Obj, part: Bytes, rest: Bytes)
    requires Lawful(lib) && Sendable(lib, msg)
    requires part + rest == Frame(lib, msg)
    requires rest != [] && |part| % RECV_SIZE == 0
    ensures Receive(lib, part, Cut(rest)) == Decoded([msg], [])
    decreases |rest|
  {
    hide Frame, Decode, Lawful, Sendable, Cut;
    var m := if |rest| <= RECV_SIZE then |rest| else RECV_SIZE;
    MoveOver(part, rest, m);
    FramePart(lib, msg, part + rest[..m], rest[m..]);
    ReceiveCut(lib, part, rest, m);
    if rest[m..] != [] {
      WholeFrame(lib, msg, part + rest[..m], rest[m..]);
      PrependNothing(Decoded([msg], []));
    } else {
      CutEmpty(rest[m..]);
      PrependNothing(Decoded([msg], []));
    }
  }

  lemma CutEmpty(s: Bytes)
    requires s == []
    ensures Cut(s) == []
  {
  }

  /** All of the longest frame but its last byte: one more than the limit, and gone. */
  lemma {:induction false} PartDropped(lib: Library, msg: Obj, part: Bytes, rest: Bytes, last: Bytes)
    requires Lawful(lib) && Sendable(lib, msg)
    requires part + (rest + last) == Frame(lib, msg) && |Frame(lib, msg)| == SANITY_LIMIT + 2
    requires |last| == 1 && |part| <= SANITY_LIMIT && |part| % RECV_SIZE == 0
    ensures Receive(lib, part, Cut(rest)) == Decoded([], [])
    decreases |rest|
  {
    hide Frame, Decode, Lawful, Sendable, Cut;
    var m := if |rest| <= RECV_SIZE then |rest| else RECV_SIZE;
    MoveOver(part, rest + last, m);
    DropAppend(rest, last, m);
    FramePart(lib, msg, part + rest[..m], rest[m..] + last);
    ReceiveCut(lib, part, rest, m);
    PrependNothing(Decoded([], []));
    if rest[m..] != [] {
      PartDropped(lib, msg, part + rest[..m], rest[m..], last);
    } else {
      CutEmpty(rest[m..]);
    }
  }

  /** A stream read frame by frame, each as fast as possible. */
  function FrameByFrame(lib: Library, msgs: seq<Obj>): seq<Bytes>
    requires forall i :: 0 <= i < |msgs| ==> EncodeMessage(lib, msgs[i]).Some?
  {
    if msgs == [] then [] else Cut(Frame(lib, msgs[0])) + FrameByFrame(lib, msgs[1..])
  }

  lemma {:induction false} FrameByFrameReads(lib: Library, msgs: seq<Obj>)
    requires AllSendable(lib, msgs)
    ensures Reads(FrameByFrame(lib, msgs)) && Flatten(FrameByFrame(lib, msgs)) == Stream(lib, msgs)
    decreases |msgs|
  {
    hide Cut, Frame, EncodeMessage;
    if msgs != [] {
      assert Sendable(lib, msgs[0]);
      CutFacts(Frame(lib, msgs[0]));
      FrameByFrameReads(lib, msgs[1..]);
      FlattenJoin(Cut(Frame(lib, msgs[0])), FrameByFrame(lib, msgs[1..]));
    }
  }

  /** Read that way, every stream comes through, long texts included. */
  lemma {:induction false} FrameByFrameDelivers(lib: Library, msgs: seq<Obj>)
    requires Lawful(lib) && AllSendable(lib, msgs)
    ensures Receive(lib, [], FrameByFrame(lib, msgs)) == Decoded(msgs, [])
    decreases |msgs|
  {
    hide Cut, Frame, EncodeMessage, Lawful, Decode;
    if msgs != [] {
      assert Sendable(lib, msgs[0]);
      FrameSize(lib, msgs[0]);
      var f := Frame(lib, msgs[0]);
      assert [] + f == f;
      WholeFrame(lib, msgs[0], [], f);
      FrameByFrameDelivers(lib, msgs[1..]);
      ReceiveJoin(lib, [], Cut(f), FrameByFrame(lib, msgs[1..]));
      assert [msgs[0]] + msgs[1..] == msgs;
    }
  }

  lemma FrameSize(lib: Library, msg: Obj)
    requires EncodeMessage(lib, msg).Some?
    ensures |Frame(lib, msg)| > 0
  {
  }

  /** Nothing carried, or a carried ASCII byte in front, which reads as a small int and which no
      decoder gets past. */
  predicate Jammed(buf: Bytes)
  {
    buf == [] || buf[0] < 0x80
  }

  lemma JammedDecode(lib: Library, buf: Bytes)
    requires Jammed(buf)
    ensures Decode(lib, buf).msgs == [] && Jammed(Decode(lib, buf).rest)
  {
    if buf != [] {
      assert HeadOf(buf) == Scalar(Int(buf[0]), 1);
      ValueStep(lib, buf);
      hide ReadValue, HeadOf;
      assert FirstItem(lib, buf).Stuck?;
    }
  }

  /** More text behind a jammed buffer leaves it jammed, dropped or not. */
  lemma {:induction false} JammedText(lib: Library, buf: Bytes, s: Bytes)
    requires Jammed(buf) && forall i :: 0 <= i < |s| ==> s[i] < 0x80
    ensures var d := Receive(lib, buf, Cut(s)); d.msgs == [] && Jammed(d.rest)
    decreases |s|
  {
    hide Decode, Cut;
    if s == [] {
      CutEmpty(s);
    } else {
      var m := if |s| <= RECV_SIZE then |s| else RECV_SIZE;
      ReceiveCut(lib, buf, s, m);
      assert (buf + s[..m])[0] < 0x80;
      JammedDecode(lib, buf + s[..m]);
      JammedText(lib, Decode(lib, buf + s[..m]).rest, s[m..]);
    }
  }

  /** A frame starts with at most three bytes that are not text. */
  lemma FrameText(lib: Library, msg: Obj)
    requires Lawful(lib) && Sendable(lib, msg)
    ensures |Frame(lib, msg)| > 1
    ensures forall i :: 3 <= i < |Frame(lib, msg)| ==> Frame(lib, msg)[i] < 0x80
    ensures Frame(lib, msg)[|Frame(lib, msg)| - 1] < 0x80
  {
    var text := lib.encode(lib.dumps(msg));
    assert PrintableAscii(text);
    var f := Frame(lib, msg);
    assert f[|f| - |text|..] == text;
    forall i | |f| - |text| <= i < |f| ensures f[i] < 0x80 {
      assert f[i] == text[i - (|f| - |text|)];
    }
  }

  /** A whole frame behind a jammed buffer delivers nothing. */
  lemma JammedFrame(lib: Library, buf: Bytes, msg: Obj)
    requires Lawful(lib) && Sendable(lib, msg)
    requires Jammed(buf) && buf != []
    ensures var d := Receive(lib, buf, Cut(Frame(lib, msg))); d.msgs == [] && Jammed(d.rest)
  {
    FrameText(lib, msg);
    var f := Frame(lib, msg);
    hide Frame, Sendable, Lawful, Decode, Cut;
    var m := if |f| <= RECV_SIZE then |f| else RECV_SIZE;
    ReceiveCut(lib, buf, f, m);
    assert (buf + f[..m])[0] == buf[0];
    JammedDecode(lib, buf + f[..m]);
    JammedText(lib, Decode(lib, buf + f[..m]).rest, f[m..]);
  }

  /** Behind a jammed buffer, a stream never delivers more messages than it has: while the jam
      lasts none, and from where it is dropped at most the ones to come. */
  lemma {:induction false} JammedStream(lib: Library, buf: Bytes, msgs: seq<Obj>)
    requires Lawful(lib) && AllSendable(lib, msgs) && Jammed(buf)
    ensures |Receive(lib, buf, FrameByFrame(lib, msgs)).msgs| <= |msgs|
    decreases |msgs|
  {
    if buf == [] {
      FrameByFrameDelivers(lib, msgs);
    } else if msgs != [] {
      hide Cut, Frame, EncodeMessage, Lawful, Decode;
      assert Sendable(lib, msgs[0]);
      JammedFrame(lib, buf, msgs[0]);
      var d := Receive(lib, buf, Cut(Frame(lib, msgs[0])));
      JammedStream(lib, d.rest, msgs[1..]);
      ReceiveJoin(lib, buf, Cut(Frame(lib, msgs[0])), FrameByFrame(lib, msgs[1..]));
    }
  }

  /** A text of 65535 bytes, the longest the codec sends, is lost when the reads end one byte
      short of its frame: the mute 65537 bytes are over the limit. Its last byte then jams what
      follows, and in the end a message is missing. */
  lemma LongestTextDropped(lib: Library, msgs: seq<Obj>, i: nat) returns (chunks: seq<Bytes>)
    requires Lawful(lib) && AllSendable(lib, msgs)
    requires i < |msgs| && TextSize(lib, msgs[i]) == 65535
    ensures Reads(chunks) && Flatten(chunks) == Stream(lib, msgs)
    ensures |Receive(lib, [], chunks).msgs| < |msgs|
  {
    assert Sendable(lib, msgs[i]);
    StreamSplit(lib, msgs, i);
    hide Frame, Lawful, Sendable, Decode, Stream, TextSize, EncodeMessage, FrameByFrame, Flatten;
    var tail := LostMessage(lib, msgs[i], msgs[i + 1..]);
    var before := FrameByFrame(lib, msgs[..i]);
    FrameByFrameReads(lib, msgs[..i]);
    FrameByFrameDelivers(lib, msgs[..i]);
    ReceiveJoin(lib, [], before, tail);
    FlattenJoin(before, tail);
    chunks := before + tail;
  }

  /** The longest frame and a stream after it, in reads that lose the first message. */
  lemma LostMessage(lib: Library, msg: Obj, after: seq<Obj>) returns (chunks: seq<Bytes>)
    requires Lawful(lib) && Sendable(lib, msg) && AllSendable(lib, after)
    requires TextSize(lib, msg) == 65535
    ensures Reads(chunks) && Flatten(chunks) == Frame(lib, msg) + Stream(lib, after)
    ensures |Receive(lib, [], chunks).msgs| <= |after|
  {
    FrameText(lib, msg);
    var f := Frame(lib, msg);
    assert |f| == SANITY_LIMIT + 2;
    hide Frame, Lawful, Sendable, Decode, Cut, Stream, TextSize, EncodeMessage, FrameByFrame, Flatten;
    var part, last := f[..SANITY_LIMIT + 1], f[SANITY_LIMIT + 1..];
    assert part + last == f && [] + (part + last) == f;
    PartDropped(lib, msg, [], part, last);
    chunks := LastByte(lib, part, last, after);
    Associates(part, last, Stream(lib, after));
  }

  lemma FlattenOne(chunk: Bytes, chunks: seq<Bytes>)
    ensures Flatten([chunk] + chunks) == chunk + Flatten(chunks)
  {
    assert ([chunk] + chunks)[1..] == chunks;
  }

  /** The last byte of a dropped frame, and the stream after it. */
  lemma LastByte(lib: Library, part: Bytes, last: Bytes, after: seq<Obj>) returns (chunks: seq<Bytes>)
    requires Lawful(lib) && AllSendable(lib, after)
    requires |last| == 1 && last[0] < 0x80
    requires Receive(lib, [], Cut(part)) == Decoded([], [])
    ensures Reads(chunks) && Flatten(chunks) == part + (last + Stream(lib, after))
    ensures |Receive(lib, [], chunks).msgs| <= |after|
  {
    hide Lawful, EncodeMessage, FrameByFrame, Decode, Cut, Stream, Flatten;
    CutFacts(part);
    FrameByFrameReads(lib, after);
    var tail := [last] + FrameByFrame(lib, after);
    assert Reads(tail);
    FlattenOne(last, FrameByFrame(lib, after));
    FlattenJoin(Cut(part), tail);
    JammedTail(lib, last, after);
    ReceiveJoin(lib, [], Cut(part), tail);
    chunks := Cut(part) + tail;
  }

  lemma JammedTail(lib: Library, last: Bytes, after: seq<Obj>)
    requires Lawful(lib) && AllSendable(lib, after)
    requires last != [] && last[0] < 0x80
    ensures |Receive(lib, [], [last] + FrameByFrame(lib, after)).msgs| <= |after|
  {
    hide Lawful, EncodeMessage, FrameByFrame, Decode;
    var chunks := [last] + FrameByFrame(lib, after);
    assert chunks[1..] == FrameByFrame(lib, after) && [] + last == last;
    JammedDecode(lib, last);
    JammedStream(lib, Decode(lib, last).rest, after);
  }

  lemma {:induction false} StreamSplit(lib: Library, msgs: seq<Obj>, i: nat)
    requires AllSendable(lib, msgs) && i < |msgs|
    ensures Stream(lib, msgs)
      == Stream(lib, msgs[..i]) + (Frame(lib, msgs[i]) + Stream(lib, msgs[i + 1..]))
    decreases i
  {
    hide Frame, EncodeMessage;
    if i == 0 {
      assert msgs[..0] == [];
    } else {
      StreamSplit(lib, msgs[1..], i - 1);
      assert msgs[..i][1..] == msgs[1..][..i - 1];
      assert msgs[1..][i..] == msgs[i + 1..];
      assert msgs[..i][0] == msgs[0];
    }
  }

  ghost predicate EveryChunkingDelivers(lib: Library, msgs: seq<Obj>)
    requires AllSendable(lib, msgs)
  {
    forall chunks: seq<Bytes> :: Reads(chunks) && Flatten(chunks) == Stream(lib, msgs) ==>
      Receive(lib, [], chunks) == Decoded(msgs, [])
  }

  lemma TextFits(lib: Library, msg: Obj)
    requires Sendable(lib, msg)
    ensures TextSize(lib, msg) <= 65535
  {
  }

  /** Concatenated encode_message outputs come through whatever reads they arrive in, complete and
      with nothing left over, exactly when no text is longer than 65534 bytes. */
  lemma DeliveryIff(lib: Library, msgs: seq<Obj>)
    requires Lawful(lib) && AllSendable(lib, msgs)
    ensures EveryChunkingDelivers(lib, msgs)
      <==> NoLongText(lib, msgs)
  {
    hide Lawful, EncodeMessage, Receive, Reads, Flatten, TextSize;
    if NoLongText(lib, msgs) {
      if msgs != [] {
        FrameSize(lib, msgs[0]);
      }
      forall chunks: seq<Bytes> | Reads(chunks) && Flatten(chunks) == Stream(lib, msgs)
        ensures Receive(lib, [], chunks) == Decoded(msgs, [])
      {
        assert [] + Flatten(chunks) == Flatten(chunks);
        ReceiveStream(lib, msgs, [], chunks);
      }
    } else {
      var i :| 0 <= i < |msgs| && TextSize(lib, msgs[i]) > 65534;
      TextFits(lib, msgs[i]);
      var chunks := LongestTextDropped(lib, msgs, i);
    }
  }
}
