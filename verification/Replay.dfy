/** The replay store's extractor: HTTP responses put together from the chunks a relay logged. */
module Replay {
  import opened ByteStrings

  const BLANK_LINE: Bytes := [13, 10, 13, 10]
  const HTTP: Bytes := [72, 84, 84, 80]

  /** A response: its head and its body, as bytes. */
  datatype Response = Response(head: Bytes, body: Bytes)

  function StartsWith(s: Bytes, prefix: Bytes): bool
  {
    |prefix| <= |s| && s[..|prefix|] == prefix
  }

  /** Where the first blank line starts. */
  function FindBlank(s: Bytes): (r: Option<nat>)
    ensures r.Some? ==> r.value + 4 <= |s|
  {
    if StartsWith(s, BLANK_LINE) then Some(0)
    else if s == [] then None
    else
      match FindBlank(s[1..])
      case Some(k) => Some(k + 1)
      case None => None
  }

  /** _parse_response, over the header search that reads Content-Length out of a head. */
  function ParseResponse(contentLength: Bytes -> Option<nat>, buf: Bytes): Option<Response>
  {
    if !StartsWith(buf, HTTP) then None
    else
      match FindBlank(buf)
      case None => None
      case Some(k) =>
        (match contentLength(buf[..k])
         case None => None
         case Some(n) => if |buf| - k - 4 < n then None else Some(Response(buf[..k], buf[k + 4..k + 4 + n])))
  }

  /** What the end of the connection makes of a response that gave no length. */
  function AtClose(contentLength: Bytes -> Option<nat>, buf: Bytes): Option<Response>
  {
    if !StartsWith(buf, HTTP) then None
    else
      match FindBlank(buf)
      case None => None
      case Some(k) => Some(Response(buf[..k], buf[k + 4..]))
  }

  lemma {:induction false} FindBlankExtend(s: Bytes, x: Bytes)
    ensures FindBlank(s).Some? ==> FindBlank(s + x) == FindBlank(s)
    decreases |s|
  {
    if StartsWith(s, BLANK_LINE) {
      DropAppend(s, x, 4);
    } else if s != [] {
      DropAppend(s, x, 1);
      FindBlankExtend(s[1..], x);
      if |s| >= 4 {
        DropAppend(s, x, 4);
      }
    }
  }

  /** Once a response is complete, more bytes do not change it. */
  lemma StableUnderExtension(contentLength: Bytes -> Option<nat>, buf: Bytes, x: Bytes)
    requires ParseResponse(contentLength, buf).Some?
    ensures ParseResponse(contentLength, buf + x) == ParseResponse(contentLength, buf)
  {
    FindBlankExtend(buf, x);
    DropAppend(buf, x, 4);
    var k := FindBlank(buf).value;
    DropAppend(buf, x, k);
    var n := contentLength(buf[..k]).value;
    SliceAppend(buf, x, k + 4, k + 4 + n);
    hide FindBlank;
  }

  /** A blank line starts at k. */
  predicate BlankAt(buf: Bytes, k: nat)
  {
    k + 4 <= |buf| && buf[k] == 13 && buf[k + 1] == 10 && buf[k + 2] == 13 && buf[k + 3] == 10
  }

  /** The first blank line of a buffer starts at k. */
  ghost predicate FirstBlankAt(buf: Bytes, k: nat)
  {
    BlankAt(buf, k) && forall i: nat :: i < k ==> !BlankAt(buf, i)
  }

  lemma {:induction false} BlankIsFirst(s: Bytes)
    ensures FindBlank(s).Some? ==> FirstBlankAt(s, FindBlank(s).value)
    ensures FindBlank(s) == None ==> forall i: nat :: !BlankAt(s, i)
    decreases |s|
  {
    BlankAtHead(s);
    if !StartsWith(s, BLANK_LINE) && s != [] {
      BlankIsFirst(s[1..]);
      hide StartsWith, BlankAt;
      forall i: nat | i > 0 ensures BlankAt(s, i) <==> BlankAt(s[1..], i - 1) {
        BlankBehind(s, i - 1);
      }
    }
  }

  lemma BlankAtHead(s: Bytes)
    ensures StartsWith(s, BLANK_LINE) <==> BlankAt(s, 0)
    ensures s == [] ==> forall i: nat :: !BlankAt(s, i)
  {
    if BlankAt(s, 0) {
      assert s[..4] == [13, 10, 13, 10];
    } else if |s| >= 4 {
      assert s[..4] == [s[0], s[1], s[2], s[3]];
    }
  }

  lemma BlankBehind(s: Bytes, i: nat)
    requires s != []
    ensures BlankAt(s, i + 1) <==> BlankAt(s[1..], i)
  {
  }

  /** What a buffer with a blank line gives: it has to start with HTTP, and its head has to announce
      a length that is there; without a length it is complete when the connection closes. */
  lemma ResponseIs(contentLength: Bytes -> Option<nat>, buf: Bytes, k: nat)
    requires FirstBlankAt(buf, k)
    ensures var http := buf[..4] == [72, 84, 84, 80];
      var head, rest := buf[..k], buf[k + 4..];
      var n := contentLength(head);
      && ParseResponse(contentLength, buf)
         == (if http && n.Some? && n.value <= |rest| then Some(Response(head, rest[..n.value])) else None)
      && AtClose(contentLength, buf) == (if http then Some(Response(head, rest)) else None)
  {
    BlankIsFirst(buf);
    hide FindBlank;
    assert FindBlank(buf) == Some(k);
    var n := contentLength(buf[..k]);
    if n.Some? && n.value <= |buf| - k - 4 {
      assert buf[k + 4..][..n.value] == buf[k + 4..k + 4 + n.value];
    }
  }

  /** Without one it gives nothing. */
  lemma NoResponse(contentLength: Bytes -> Option<nat>, buf: Bytes)
    requires forall i: nat :: !BlankAt(buf, i)
    ensures ParseResponse(contentLength, buf) == None && AtClose(contentLength, buf) == None
  {
    BlankIsFirst(buf);
    hide FindBlank;
  }

  /** A response that parses is what the bytes say: a head, a blank line, and a body of the
      length the head gives. */
  lemma ParsedIsInBytes(contentLength: Bytes -> Option<nat>, buf: Bytes)
    requires ParseResponse(contentLength, buf).Some?
    ensures var r := ParseResponse(contentLength, buf).value;
      && IsPrefix(r.head + [13, 10, 13, 10] + r.body, buf)
      && contentLength(r.head) == Some(|r.body|)
  {
    var k := FindBlank(buf).value;
    BlankIsFirst(buf);
    var n := contentLength(buf[..k]).value;
    hide FindBlank;
    assert buf[k..k + 4] == [13, 10, 13, 10];
    assert buf[..k] + buf[k..k + 4] + buf[k + 4..k + 4 + n] == buf[..k + 4 + n];
  }

  /** And a response laid out that way parses, whatever follows it. */
  lemma LaidOutParses(contentLength: Bytes -> Option<nat>, head: Bytes, body: Bytes, x: Bytes)
    requires |head| >= 4 && head[..4] == [72, 84, 84, 80] && contentLength(head) == Some(|body|)
    requires FirstBlankAt(head + [13, 10, 13, 10], |head|)
    ensures ParseResponse(contentLength, head + [13, 10, 13, 10] + body + x) == Some(Response(head, body))
  {
    var buf := head + [13, 10, 13, 10] + body + x;
    BlankBefore(head, body + x);
    assert buf == head + [13, 10, 13, 10] + (body + x);
    assert buf[..4] == head[..4] && buf[..|head|] == head && buf[|head| + 4..] == body + x;
    assert (body + x)[..|body|] == body;
    ResponseIs(contentLength, buf, |head|);
  }

  /** A blank line stays the first one, whatever follows it. */
  lemma BlankBefore(head: Bytes, x: Bytes)
    requires FirstBlankAt(head + [13, 10, 13, 10], |head|)
    ensures FirstBlankAt(head + [13, 10, 13, 10] + x, |head|)
  {
    var s := head + [13, 10, 13, 10];
    forall i: nat | i <= |head| ensures BlankAt(s + x, i) <==> BlankAt(s, i) {
    }
  }

  // ---- The log ----

  /** A line of the relay log: a connection opening or closing, a chunk of a request with the
      endpoint and item found in it, a chunk of a response, anything else. */
  datatype Line =
    | Opened
    | Closed
    | Request(endpoint: Option<string>, item: string)
    | Chunk(bytes: Bytes)
    | Unrelated

  datatype Conn = Conn(endpoint: Option<string>, item: string, upBuf: Bytes, response: Option<Response>)

  type Store = map<string, Response>

  datatype State = State(conn: Option<Conn>, pairs: Store)

  function Key(c: Conn): string
    requires c.endpoint.Some?
  {
    c.endpoint.value + "|" + c.item
  }

  /** _keep: the first complete response of a key wins. */
  function Keep(c: Conn, pairs: Store): Store
  {
    if c.response.Some? && c.endpoint.Some? && Key(c) !in pairs
    then pairs[Key(c) := c.response.value] else pairs
  }

  function Finish(contentLength: Bytes -> Option<nat>, c: Conn): Conn
  {
    if c.response.Some? then c else c.(response := AtClose(contentLength, c.upBuf))
  }

  function Step(contentLength: Bytes -> Option<nat>, st: State, line: Line): State
  {
    match line
    case Opened => State(Some(Conn(None, "", [], None)), st.pairs)
    case Closed =>
      if st.conn.Some? then State(None, Keep(Finish(contentLength, st.conn.value), st.pairs)) else st
    case Request(endpoint, item) =>
      if st.conn.Some? && st.conn.value.endpoint == None
      then st.(conn := Some(st.conn.value.(endpoint := endpoint, item := item))) else st
    case Chunk(bytes) =>
      if st.conn.Some? && st.conn.value.response == None then
        var c := st.conn.value.(upBuf := st.conn.value.upBuf + bytes);
        var parsed := ParseResponse(contentLength, c.upBuf);
        var c' := c.(response := parsed);
        State(Some(c'), Keep(c', st.pairs))
      else st
    case Unrelated => st
  }

  function After(contentLength: Bytes -> Option<nat>, st: State, lines: seq<Line>): State
    decreases |lines|
  {
    if lines == [] then st else After(contentLength, Step(contentLength, st, lines[0]), lines[1..])
  }

  const START := State(None, map[])

  /** extract: the line loop, updating the connection and the store. */
  method Extract(contentLength: Bytes -> Option<nat>, lines: seq<Line>) returns (pairs: Store)
    ensures pairs == After(contentLength, START, lines).pairs
  {
    pairs := map[];
    var conn: Option<Conn> := None;
    var i := 0;
    assert lines[0..] == lines;
    while i < |lines|
      invariant 0 <= i <= |lines|
      invariant After(contentLength, State(conn, pairs), lines[i..]) == After(contentLength, START, lines)
    {
      var line := lines[i];
      assert lines[i..][1..] == lines[i + 1..];
      hide ParseResponse, AtClose, Key;
      i := i + 1;
      if line == Opened {
        conn := Some(Conn(None, "", [], None));
        continue;
      }
      if line == Closed && conn.Some? {
        pairs := Keep(Finish(contentLength, conn.value), pairs);
        conn := None;
        continue;
      }
      if conn == None {
        continue;
      }
      if line.Request? && conn.value.endpoint == None {
        conn := Some(conn.value.(endpoint := line.endpoint, item := line.item));
      }
      if line.Chunk? && conn.value.response == None {
        var buf := conn.value.upBuf + line.bytes;
        conn := Some(conn.value.(upBuf := buf));
        var parsed := ParseResponse(contentLength, buf);
        if parsed.Some? {
          conn := Some(conn.value.(response := parsed));
          pairs := Keep(conn.value, pairs);
        }
      }
    }
    assert lines[i..] == [];
  }

  /** An entry once stored stays what it is. */
  lemma {:induction false} NeverOverwritten(contentLength: Bytes -> Option<nat>, st: State, lines: seq<Line>,
                                            key: string)
    requires key in st.pairs
    ensures var pairs := After(contentLength, st, lines).pairs;
      key in pairs && pairs[key] == st.pairs[key]
    decreases |lines|
  {
    if lines != [] {
      hide ParseResponse, AtClose, Key;
      NeverOverwritten(contentLength, Step(contentLength, st, lines[0]), lines[1..], key);
    }
  }

  lemma {:induction false} AfterAppend(contentLength: Bytes -> Option<nat>, st: State, a: seq<Line>, b: seq<Line>)
    ensures After(contentLength, st, a + b) == After(contentLength, After(contentLength, st, a), b)
    decreases |a|
  {
    if a == [] {
      assert a + b == b;
    } else {
      hide Step;
      DropAppend(a, b, 1);
      assert (a + b)[0] == a[0];
      AfterAppend(contentLength, Step(contentLength, st, a[0]), a[1..], b);
    }
  }

  // ---- Short bodies ----

  /** A response shorter than its head announces. */
  predicate Short(contentLength: Bytes -> Option<nat>, r: Response)
  {
    match contentLength(r.head)
    case Some(n) => |r.body| < n
    case None => false
  }

  ghost predicate AllWhole(contentLength: Bytes -> Option<nat>, pairs: Store)
  {
    forall key :: key in pairs ==> !Short(contentLength, pairs[key])
  }

  /** A connection holds a whole response, or bytes that do not make one yet. */
  ghost predicate Sound(contentLength: Bytes -> Option<nat>, st: State)
  {
    st.conn.Some? ==>
      match st.conn.value.response
      case Some(r) => !Short(contentLength, r)
      case None => ParseResponse(contentLength, st.conn.value.upBuf) == None
  }

  lemma ParsedIsWhole(contentLength: Bytes -> Option<nat>, buf: Bytes)
    ensures ParseResponse(contentLength, buf).Some? ==> !Short(contentLength, ParseResponse(contentLength, buf).value)
  {
    hide FindBlank;
  }

  /** What is made of an incomplete response when its connection closes is short exactly when its
      head announces a length. */
  lemma AtCloseShortIff(contentLength: Bytes -> Option<nat>, buf: Bytes)
    requires ParseResponse(contentLength, buf) == None && AtClose(contentLength, buf).Some?
    ensures var r := AtClose(contentLength, buf).value;
      Short(contentLength, r) <==> contentLength(r.head).Some?
  {
    hide FindBlank;
  }

  /** This line closes a connection short of the length announced, and what there is gets stored. */
  predicate ClosesShort(contentLength: Bytes -> Option<nat>, st: State, line: Line)
  {
    && line == Closed && st.conn.Some? && st.conn.value.response == None
    && st.conn.value.endpoint.Some? && Key(st.conn.value) !in st.pairs
    && (match AtClose(contentLength, st.conn.value.upBuf)
        case Some(r) => contentLength(r.head).Some?
        case None => false)
  }

  predicate SomeClosesShort(contentLength: Bytes -> Option<nat>, st: State, lines: seq<Line>)
    decreases |lines|
  {
    lines != []
    && (|| ClosesShort(contentLength, st, lines[0])
        || SomeClosesShort(contentLength, Step(contentLength, st, lines[0]), lines[1..]))
  }

  lemma WholeStep(contentLength: Bytes -> Option<nat>, st: State, line: Line)
    requires Sound(contentLength, st) && AllWhole(contentLength, st.pairs)
    ensures var st' := Step(contentLength, st, line);
      Sound(contentLength, st')
      && (AllWhole(contentLength, st'.pairs) <==> !ClosesShort(contentLength, st, line))
  {
    assert ParseResponse(contentLength, []) == None;
    if line.Chunk? && st.conn.Some? {
      ParsedIsWhole(contentLength, st.conn.value.upBuf + line.bytes);
    }
    if line.Closed? && st.conn.Some? && st.conn.value.response == None
       && AtClose(contentLength, st.conn.value.upBuf).Some? {
      AtCloseShortIff(contentLength, st.conn.value.upBuf);
    }
    hide ParseResponse, AtClose, Short, Key;
    if ClosesShort(contentLength, st, line) {
      var key := Key(st.conn.value);
      assert key in Step(contentLength, st, line).pairs;
      assert Short(contentLength, Step(contentLength, st, line).pairs[key]);
    }
  }

  /** The store holds a body shorter than its head announces exactly when some connection whose key
      was not stored yet closed before all of the length announced had come. */
  lemma {:induction false} ShortStoredIff(contentLength: Bytes -> Option<nat>, st: State, lines: seq<Line>)
    requires Sound(contentLength, st) && AllWhole(contentLength, st.pairs)
    ensures !AllWhole(contentLength, After(contentLength, st, lines).pairs)
      <==> SomeClosesShort(contentLength, st, lines)
    decreases |lines|
  {
    if lines != [] {
      WholeStep(contentLength, st, lines[0]);
      var st' := Step(contentLength, st, lines[0]);
      if ClosesShort(contentLength, st, lines[0]) {
        var key :| key in st'.pairs && Short(contentLength, st'.pairs[key]);
        NeverOverwritten(contentLength, st', lines[1..], key);
      } else {
        hide Step, Sound, AllWhole, ClosesShort;
        ShortStoredIff(contentLength, st', lines[1..]);
      }
    }
  }

  /** Over a whole log. */
  lemma ExtractsShortIff(contentLength: Bytes -> Option<nat>, lines: seq<Line>)
    ensures (exists key :: key in After(contentLength, START, lines).pairs
                           && Short(contentLength, After(contentLength, START, lines).pairs[key]))
      <==> SomeClosesShort(contentLength, START, lines)
  {
    ShortStoredIff(contentLength, START, lines);
    hide After, SomeClosesShort, Short;
  }

  /** A whole connection: the first response of its endpoint and item is stored under both, complete
      or as far as it got; a later one is not. */
  lemma PairStored(contentLength: Bytes -> Option<nat>, st: State, endpoint: string, item: string, buf: Bytes)
    ensures var lines := [Opened, Request(Some(endpoint), item), Chunk(buf), Closed];
      var key := endpoint + "|" + item;
      var r := if ParseResponse(contentLength, buf).Some? then ParseResponse(contentLength, buf)
               else AtClose(contentLength, buf);
      After(contentLength, st, lines)
        == State(None, if r.Some? && key !in st.pairs then st.pairs[key := r.value] else st.pairs)
  {
    hide ParseResponse, AtClose;
    var c := Conn(Some(endpoint), item, [], None);
    assert [] + buf == buf && Key(c) == endpoint + "|" + item;
    var s1 := Step(contentLength, st, Opened);
    var s2 := Step(contentLength, s1, Request(Some(endpoint), item));
    var s3 := Step(contentLength, s2, Chunk(buf));
    var parsed := ParseResponse(contentLength, buf);
    assert s3 == State(Some(c.(upBuf := buf, response := parsed)), s3.pairs);
    hide Step;
    AfterFour(contentLength, st, Opened, Request(Some(endpoint), item), Chunk(buf), Closed);
    CloseStores(contentLength, s3);
  }

  lemma CloseStores(contentLength: Bytes -> Option<nat>, st: State)
    requires st.conn.Some? && st.conn.value.endpoint.Some?
    ensures var c := st.conn.value;
      var r := if c.response.Some? then c.response else AtClose(contentLength, c.upBuf);
      var key := c.endpoint.value + "|" + c.item;
      Step(contentLength, st, Closed)
        == State(None, if r.Some? && key !in st.pairs then st.pairs[key := r.value] else st.pairs)
  {
    hide AtClose;
  }

  /** It does happen: a request, the head of its response and part of the body, and the close. */
  lemma ShortBodyStored(contentLength: Bytes -> Option<nat>, head: Bytes, body: Bytes, n: nat)
    requires |head| >= 4 && head[..4] == [72, 84, 84, 80] && contentLength(head) == Some(n) && |body| < n
    requires FirstBlankAt(head + [13, 10, 13, 10], |head|)
    ensures var lines :=
        [Opened, Request(Some("/svc"), ""), Chunk(head + [13, 10, 13, 10] + body), Closed];
      After(contentLength, START, lines).pairs == map["/svc|" := Response(head, body)]
  {
    var buf := head + [13, 10, 13, 10] + body;
    BlankBefore(head, body);
    assert buf[..4] == head[..4] && buf[..|head|] == head && buf[|head| + 4..] == body;
    ResponseIs(contentLength, buf, |head|);
    hide ParseResponse, AtClose, FirstBlankAt;
    assert "/svc" + "|" + "" == "/svc|";
    PairStored(contentLength, START, "/svc", "", buf);
  }

  lemma AfterFour(contentLength: Bytes -> Option<nat>, st: State, a: Line, b: Line, c: Line, d: Line)
    ensures After(contentLength, st, [a, b, c, d])
      == Step(contentLength, Step(contentLength, Step(contentLength, Step(contentLength, st, a), b), c), d)
  {
    hide Step;
    assert [a, b, c, d][1..] == [b, c, d] && [b, c, d][1..] == [c, d];
    assert [c, d][1..] == [d] && [d][1..] == [];
    var s2 := Step(contentLength, Step(contentLength, st, a), b);
    var s3 := Step(contentLength, s2, c);
    assert After(contentLength, s3, [d]) == After(contentLength, Step(contentLength, s3, d), []);
    assert After(contentLength, s2, [c, d]) == Step(contentLength, s3, d);
  }

  // ---- Reassembly ----

  /** The response bytes of a stretch of log. */
  function ResponseBytes(lines: seq<Line>): Bytes
  {
    if lines == [] then []
    else (if lines[0].Chunk? then lines[0].bytes else []) + ResponseBytes(lines[1..])
  }

  ghost predicate WithinConnection(lines: seq<Line>)
  {
    forall i :: 0 <= i < |lines| ==> !lines[i].Opened? && !lines[i].Closed?
  }

  /** A connection whose request was seen and whose response is not complete yet. */
  ghost predicate Waiting(contentLength: Bytes -> Option<nat>, st: State)
  {
    && st.conn.Some? && st.conn.value.endpoint.Some? && st.conn.value.response == None
    && ParseResponse(contentLength, st.conn.value.upBuf) == None
  }

  /** Nothing more happens to a connection whose response is complete, but that it closes. */
  lemma {:induction false} CompleteStays(contentLength: Bytes -> Option<nat>, st: State, lines: seq<Line>)
    requires st.conn.Some? && st.conn.value.endpoint.Some? && st.conn.value.response.Some?
    requires WithinConnection(lines)
    ensures After(contentLength, st, lines) == st
    decreases |lines|
  {
    if lines != [] {
      assert Step(contentLength, st, lines[0]) == st;
      CompleteStays(contentLength, st, lines[1..]);
    }
  }

  /** Where a waiting connection gets with some response bytes: not whether they came in one
      chunk or many. */
  lemma {:induction false} AfterBytes(contentLength: Bytes -> Option<nat>, st: State, lines: seq<Line>)
    requires Waiting(contentLength, st) && WithinConnection(lines)
    ensures var c := st.conn.value;
      var all := c.upBuf + ResponseBytes(lines);
      var st' := After(contentLength, st, lines);
      && (ParseResponse(contentLength, all) == None ==> st' == st.(conn := Some(c.(upBuf := all))))
      && (ParseResponse(contentLength, all).Some? ==>
            var c' := c.(response := ParseResponse(contentLength, all));
            && st'.pairs == Keep(c', st.pairs)
            && st'.conn.Some? && st'.conn.value == c'.(upBuf := st'.conn.value.upBuf))
    decreases |lines|
  {
    var c := st.conn.value;
    var all := c.upBuf + ResponseBytes(lines);
    if lines == [] {
      assert all == c.upBuf;
    } else if !lines[0].Chunk? {
      assert Step(contentLength, st, lines[0]) == st;
      assert [] + ResponseBytes(lines[1..]) == ResponseBytes(lines[1..]);
      hide ParseResponse, Keep;
      AfterBytes(contentLength, st, lines[1..]);
    } else {
      var buf := c.upBuf + lines[0].bytes;
      Associates(c.upBuf, lines[0].bytes, ResponseBytes(lines[1..]));
      var st1 := Step(contentLength, st, lines[0]);
      if ParseResponse(contentLength, buf) == None {
        hide ParseResponse;
        AfterBytes(contentLength, st1, lines[1..]);
        hide Keep;
      } else {
        StableUnderExtension(contentLength, buf, ResponseBytes(lines[1..]));
        hide ParseResponse;
        CompleteStays(contentLength, st1, lines[1..]);
      }
    }
  }

  /** The state after a connection closes depends only on the response's bytes. */
  lemma SameAfterClose(contentLength: Bytes -> Option<nat>, st: State, lines: seq<Line>, lines': seq<Line>)
    requires Waiting(contentLength, st) && WithinConnection(lines) && WithinConnection(lines')
    requires ResponseBytes(lines) == ResponseBytes(lines')
    ensures After(contentLength, st, lines).pairs == After(contentLength, st, lines').pairs
    ensures Step(contentLength, After(contentLength, st, lines), Closed)
      == Step(contentLength, After(contentLength, st, lines'), Closed)
  {
    AfterBytes(contentLength, st, lines);
    AfterBytes(contentLength, st, lines');
    hide ParseResponse, AtClose, Key, After;
  }

  /** Splitting a response over log lines in another way never changes what extract stores, for
      this connection or any later one. */
  lemma ReassemblyInvariance(contentLength: Bytes -> Option<nat>, before: seq<Line>,
                             lines: seq<Line>, lines': seq<Line>, after: seq<Line>)
    requires Waiting(contentLength, After(contentLength, START, before))
    requires WithinConnection(lines) && WithinConnection(lines')
    requires ResponseBytes(lines) == ResponseBytes(lines')
    ensures After(contentLength, START, before + lines + [Closed] + after).pairs
      == After(contentLength, START, before + lines' + [Closed] + after).pairs
  {
    SameAfterClose(contentLength, After(contentLength, START, before), lines, lines');
    FourParts(contentLength, before, lines, after);
    FourParts(contentLength, before, lines', after);
  }

  lemma FourParts(contentLength: Bytes -> Option<nat>, before: seq<Line>, lines: seq<Line>, after: seq<Line>)
    ensures After(contentLength, START, before + lines + [Closed] + after)
      == After(contentLength,
               Step(contentLength,
                    After(contentLength, After(contentLength, START, before), lines), Closed),
               after)
  {
    hide Step;
    AfterAppend(contentLength, START, before + lines + [Closed], after);
    AfterAppend(contentLength, START, before + lines, [Closed]);
    AfterAppend(contentLength, START, before, lines);
    var st := After(contentLength, START, before + lines);
    assert [Closed][1..] == [];
    assert After(contentLength, Step(contentLength, st, Closed), []) == Step(contentLength, st, Closed);
  }
}
