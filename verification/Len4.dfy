/** The WM family's framing: a four-byte big-endian length, then that many bytes of JSON. */
module Len4 {
  import opened ByteStrings
  import opened PyObjects

  const MAX_FRAME: nat := 0x10_0000

  /** The length a buffer's first four bytes declare. */
  function Declared(s: Bytes): nat
    requires |s| >= 4
  {
    ((s[0] as int * 256 + s[1]) * 256 + s[2]) * 256 + s[3]
  }

  function Header(n: nat): (h: Bytes)
    requires n < 0x1_0000_0000
    ensures |h| == 4 && Declared(h) == n
    ensures n == h[0] as int * 0x100_0000 + h[1] as int * 0x1_0000 + h[2] as int * 256 + h[3] as int
  {
    var hi, lo := n / 0x1_0000, n % 0x1_0000;
    [hi / 256, hi % 256, lo / 256, lo % 256]
  }

  /** encode_message_len4; struct.pack refuses a length that needs more than four bytes. */
  function EncodeMessage(lib: Library, msg: Obj): Option<Bytes>
  {
    var payload := lib.encode(lib.dumps(msg));
    if |payload| < 0x1_0000_0000 then Some(Header(|payload|) + payload) else None
  }

  /** The message a complete frame's payload carries: nothing when it is not a JSON object. */
  function Payload(lib: Library, payload: Bytes): seq<Obj>
  {
    match lib.loadsBytes(payload)
    case Some(v) => if v.Dict? then [v] else []
    case None => []
  }

  /** What the decoder makes of a buffer: an insane length costs one byte, a truncated frame
      waits, a complete frame is taken whether or not it parses. */
  function Decode(lib: Library, buf: Bytes): Decoded
  {
    if |buf| < 4 then Decoded([], buf)
    else if Declared(buf) > MAX_FRAME then Decode(lib, buf[1..])
    else if 4 + Declared(buf) > |buf| then Decoded([], buf)
    else Prepend(Payload(lib, buf[4..4 + Declared(buf)]), Decode(lib, buf[4 + Declared(buf)..]))
  }

  /** One round of the decoder at a position of the buffer. */
  lemma DecodeStep(lib: Library, buf: Bytes, pos: nat)
    requires pos + 4 <= |buf|
    ensures Declared(buf[pos..]) == Declared(buf[pos..pos + 4])
    ensures var n := Declared(buf[pos..pos + 4]);
      Decode(lib, buf[pos..]) ==
        if n > MAX_FRAME then Decode(lib, buf[pos + 1..])
        else if pos + 4 + n > |buf| then Decoded([], buf[pos..])
        else Prepend(Payload(lib, buf[pos + 4..pos + 4 + n]), Decode(lib, buf[pos + 4 + n..]))
  {
    hide Payload, MAX_FRAME;
    var s, n := buf[pos..], Declared(buf[pos..pos + 4]);
    assert s[1..] == buf[pos + 1..];
    if pos + 4 + n <= |buf| {
      assert s[4..4 + n] == buf[pos + 4..pos + 4 + n];
      assert s[4 + n..] == buf[pos + 4 + n..];
    }
  }

  /** A buffer the decoder can do nothing with yet. */
  predicate Parked(buf: Bytes)
  {
    |buf| < 4 || (Declared(buf) <= MAX_FRAME && 4 + Declared(buf) > |buf|)
  }

  /** decode_messages_len4, with its position and its accumulated messages. */
  method DecodeMessages(lib: Library, buf: Bytes) returns (msgs: seq<Obj>, rest: Bytes)
    ensures Decoded(msgs, rest) == Decode(lib, buf)
  {
    hide Decode, Declared;
    msgs := [];
    var pos := 0;
    assert buf[0..] == buf;
    while pos + 4 <= |buf|
      invariant 0 <= pos <= |buf|
      invariant Prepend(msgs, Decode(lib, buf[pos..])) == Decode(lib, buf)
      decreases |buf| - pos
    {
      DecodeStep(lib, buf, pos);
      var declared := Declared(buf[pos..pos + 4]);
      if declared > MAX_FRAME {
        pos := pos + 1;
        continue;
      }
      if pos + 4 + declared > |buf| {
        break;
      }
      var val := lib.loadsBytes(buf[pos + 4..pos + 4 + declared]);
      if val == None {
        pos := pos + 4 + declared;
        continue;
      }
      if val.value.Dict? {
        msgs := msgs + [val.value];
      }
      pos := pos + 4 + declared;
    }
    rest := buf[pos..];
    NothingToDo(lib, rest);
  }

  lemma NothingToDo(lib: Library, buf: Bytes)
    ensures Parked(buf) ==> Decode(lib, buf) == Decoded([], buf)
  {
  }

  /** What stays behind is a parked suffix of the input, and never more than one frame. */
  lemma {:induction false} RemainderBound(lib: Library, buf: Bytes)
    ensures var r := Decode(lib, buf).rest;
      Parked(r) && |r| <= 1_048_579 && |r| <= |buf| && r == buf[|buf| - |r|..]
    decreases |buf|
  {
    if |buf| >= 4 {
      if Declared(buf) > MAX_FRAME {
        RemainderBound(lib, buf[1..]);
      } else if 4 + Declared(buf) <= |buf| {
        RemainderBound(lib, buf[4 + Declared(buf)..]);
      }
    }
  }

  /** Decoding may stop anywhere and go on later: nothing is lost, repeated or reordered. */
  lemma {:induction false} ChunkingIndependence(lib: Library, a: Bytes, b: Bytes)
    ensures Decode(lib, a + b) == Prepend(Decode(lib, a).msgs, Decode(lib, Decode(lib, a).rest + b))
    decreases |a|
  {
    if Parked(a) {
      NothingToDo(lib, a);
      PrependNothing(Decode(lib, a + b));
    } else {
      var n := 4 + Declared(a);
      DropAppend(a, b, 1);
      if n <= |a| {
        DropAppend(a, b, n);
        SliceAppend(a, b, 4, n);
      }
      DecodeHead(lib, a);
      DecodeHead(lib, a + b);
      hide Decode, Declared, Payload, Prepend, MAX_FRAME;
      if n > 4 + MAX_FRAME {
        ChunkingIndependence(lib, a[1..], b);
      } else {
        ChunkingIndependence(lib, a[n..], b);
        var d := Decode(lib, a[n..]);
        PrependTwice(Payload(lib, a[4..n]), d.msgs, Decode(lib, d.rest + b));
        PrependMsgs(Payload(lib, a[4..n]), d);
      }
    }
  }

  lemma PrependMsgs(msgs: seq<Obj>, d: Decoded)
    ensures Prepend(msgs, d).msgs == msgs + d.msgs && Prepend(msgs, d).rest == d.rest
  {
  }

  /** What the decoder does with an item at the head of the buffer. */
  lemma DecodeHead(lib: Library, buf: Bytes)
    requires |buf| >= 4
    ensures Declared(buf) > MAX_FRAME ==> Decode(lib, buf) == Decode(lib, buf[1..])
    ensures Declared(buf) <= MAX_FRAME && 4 + Declared(buf) <= |buf| ==>
      Decode(lib, buf)
        == Prepend(Payload(lib, buf[4..4 + Declared(buf)]), Decode(lib, buf[4 + Declared(buf)..]))
  {
    hide Declared, Payload, Prepend, MAX_FRAME;
  }

  /** A connection's receive loop: every chunk is appended to the carried buffer and decoded. */
  function Receive(lib: Library, buf: Bytes, chunks: seq<Bytes>): Decoded
    decreases |chunks|
  {
    if chunks == [] then Decoded([], buf)
    else
      var d := Decode(lib, buf + chunks[0]);
      Prepend(d.msgs, Receive(lib, d.rest, chunks[1..]))
  }

  lemma {:induction false} ReceiveFromParked(lib: Library, buf: Bytes, chunks: seq<Bytes>)
    requires Parked(buf)
    ensures Receive(lib, buf, chunks) == Decode(lib, buf + Flatten(chunks))
    decreases |chunks|
  {
    if chunks == [] {
      assert buf + Flatten(chunks) == buf;
      NothingToDo(lib, buf);
    } else {
      hide Decode, Declared, Prepend;
      var more := Flatten(chunks[1..]);
      RemainderBound(lib, buf + chunks[0]);
      ReceiveFromParked(lib, Decode(lib, buf + chunks[0]).rest, chunks[1..]);
      ChunkingIndependence(lib, buf + chunks[0], more);
      Associates(buf, chunks[0], more);
    }
  }

  /** However a byte stream is cut, valid or not, the connection delivers the same messages and
      carries the same remainder. */
  lemma AnyChunking(lib: Library, chunks: seq<Bytes>, chunks': seq<Bytes>)
    requires Flatten(chunks) == Flatten(chunks')
    ensures Receive(lib, [], chunks) == Receive(lib, [], chunks')
  {
    ReceiveFromParked(lib, [], chunks);
    ReceiveFromParked(lib, [], chunks');
  }

  // ---- Frames and noise ----

  ghost predicate Sendable(lib: Library, msg: Obj)
  {
    Message(msg) && |lib.encode(lib.dumps(msg))| <= MAX_FRAME
  }

  function Frame(lib: Library, msg: Obj): (f: Bytes)
    requires |lib.encode(lib.dumps(msg))| <= MAX_FRAME
    ensures EncodeMessage(lib, msg) == Some(f) && |f| >= 4
  {
    Header(|lib.encode(lib.dumps(msg))|) + lib.encode(lib.dumps(msg))
  }

  /** A good frame is delivered first, whatever comes after it. */
  lemma FrameFirst(lib: Library, msg: Obj, tail: Bytes)
    requires Lawful(lib) && Sendable(lib, msg)
    ensures Decode(lib, Frame(lib, msg) + tail) == Prepend([msg], Decode(lib, tail))
  {
    var payload := lib.encode(lib.dumps(msg));
    var buf := Frame(lib, msg) + tail;
    assert buf[..4] == Header(|payload|);
    assert Declared(buf) == Declared(buf[..4]) == |payload|;
    assert buf[4..4 + |payload|] == payload;
    assert buf[4 + |payload|..] == tail;
  }

  /** A proper part of a frame waits for the rest. */
  lemma FrameWaits(lib: Library, msg: Obj, part: Bytes)
    requires Sendable(lib, msg) && part < Frame(lib, msg)
    ensures Decode(lib, part) == Decoded([], part)
  {
    var f := Frame(lib, msg);
    if |part| >= 4 {
      assert part[..4] == f[..4] == Header(|lib.encode(lib.dumps(msg))|);
      assert Declared(part) == Declared(part[..4]);
    }
    NothingToDo(lib, part);
  }

  /** The decoder takes an encoded message as a frame: it waits for all of it, and then delivers it,
      whatever follows. */
  ghost predicate TakenAsFrame(lib: Library, msg: Obj, f: Bytes)
  {
    && (forall part: Bytes :: part < f ==> Decode(lib, part) == Decoded([], part))
    && (forall tail: Bytes :: Decode(lib, f + tail) == Prepend([msg], Decode(lib, tail)))
  }

  /** It does so exactly when the JSON is no longer than 2^20 bytes; of a longer one, which the
      encoder frames as well, it drops a byte of the header. */
  lemma TakenAsFrameIff(lib: Library, msg: Obj)
    requires Lawful(lib) && Message(msg) && EncodeMessage(lib, msg).Some?
    ensures TakenAsFrame(lib, msg, EncodeMessage(lib, msg).value)
      <==> |lib.encode(lib.dumps(msg))| <= 1_048_576
  {
    var n := |lib.encode(lib.dumps(msg))|;
    var f := EncodeMessage(lib, msg).value;
    if n <= MAX_FRAME {
      assert f == Frame(lib, msg);
      forall part: Bytes | part < f ensures Decode(lib, part) == Decoded([], part) {
        FrameWaits(lib, msg, part);
      }
      forall tail: Bytes ensures Decode(lib, f + tail) == Prepend([msg], Decode(lib, tail)) {
        FrameFirst(lib, msg, tail);
      }
    } else {
      var part := f[..4];
      assert part == Header(n) && part < f;
      assert Decode(lib, part) == Decode(lib, part[1..]) == Decoded([], part[1..]);
    }
  }

  /** Noise has no zero byte: text, or any piece cut from the payload of a frame. */
  ghost predicate Noise(s: Bytes)
  {
    forall i :: 0 <= i < |s| ==> s[i] != 0
  }

  /** Noise is scanned away byte by byte: none of it can pass for a sane length. */
  lemma {:induction false} SkipNoise(lib: Library, noise: Bytes, tail: Bytes)
    requires Noise(noise)
    requires |tail| >= 4 || tail == []
    ensures Decode(lib, noise + tail).msgs == Decode(lib, tail).msgs
    ensures |tail| >= 4 ==> Decode(lib, noise + tail) == Decode(lib, tail)
    decreases |noise|
  {
    if noise == [] {
      assert noise + tail == tail;
    } else if |noise + tail| >= 4 {
      var buf := noise + tail;
      assert buf[0] != 0;
      assert Declared(buf) > MAX_FRAME;
      assert buf[1..] == noise[1..] + tail;
      SkipNoise(lib, noise[1..], tail);
    }
  }

  datatype Segment = Segment(msg: Obj, noise: Bytes)

  ghost predicate GoodSegments(lib: Library, segs: seq<Segment>)
  {
    forall i :: 0 <= i < |segs| ==> Sendable(lib, segs[i].msg) && Noise(segs[i].noise)
  }

  /** Frames with noise after each of them. */
  ghost function Stream(lib: Library, segs: seq<Segment>): Bytes
    requires GoodSegments(lib, segs)
  {
    if segs == [] then []
    else Frame(lib, segs[0].msg) + (segs[0].noise + Stream(lib, segs[1..]))
  }

  ghost function Messages(segs: seq<Segment>): seq<Obj>
  {
    if segs == [] then [] else [segs[0].msg] + Messages(segs[1..])
  }

  lemma {:induction false} NoisyStream(lib: Library, noise: Bytes, segs: seq<Segment>)
    requires Lawful(lib) && Noise(noise) && GoodSegments(lib, segs)
    ensures Decode(lib, noise + Stream(lib, segs)).msgs == Messages(segs)
    decreases |segs|
  {
    SkipNoise(lib, noise, Stream(lib, segs));
    if segs != [] {
      FrameFirst(lib, segs[0].msg, segs[0].noise + Stream(lib, segs[1..]));
      NoisyStream(lib, segs[0].noise, segs[1..]);
    }
  }

  /** The decoder resynchronises: a stream joined in the middle of a frame's text, with noise
      between its frames and cut into any chunks, still delivers exactly its good frames. */
  lemma Resynchronises(lib: Library, noise: Bytes, segs: seq<Segment>, chunks: seq<Bytes>)
    requires Lawful(lib) && Noise(noise) && GoodSegments(lib, segs)
    requires Flatten(chunks) == noise + Stream(lib, segs)
    ensures Receive(lib, [], chunks).msgs == Messages(segs)
  {
    ReceiveFromParked(lib, [], chunks);
    assert [] + Flatten(chunks) == Flatten(chunks);
    NoisyStream(lib, noise, segs);
  }
}
