/** The MessagePack subset of :47878: the encoder, and the reader that rewinds. */
module Msgpack {
  import opened ByteStrings
  import opened PyObjects

  // ---- Encoding ----

  /** _mp_str on the string's UTF-8 bytes: fixstr, str8 or str16; longer raises. */
  function EncodeStr(b: Bytes): Option<Bytes>
  {
    if |b| < 32 then Some([0xA0 + |b|] + b)
    else if |b| < 256 then Some([0xD9, |b|] + b)
    else if |b| < 0x1_0000 then Some([0xDA, |b| / 256, |b| % 256] + b)
    else None
  }

  /** _mp_encode; None is the TypeError or ValueError it raises. */
  function Encode(lib: Library, v: Obj): Option<Bytes>
  {
    match v
    case Str(s) => EncodeStr(lib.encode(s))
    case Dict(d) =>
      if |d| >= 0x1_0000 then None
      else
        var head: Bytes := if |d| < 16 then [0x80 + |d|] else [0xDE, |d| / 256, |d| % 256];
        Join(Some(head), EncodeEntries(lib, d))
    case Bool(b) => Some([if b then 0xC3 else 0xC2])
    case Int(i) =>
      if 0 <= i < 128 then Some([i])
      else if 0 <= i < 256 then Some([0xCC, i])
      else if 0 <= i < 0x1_0000 then Some([0xCD, i / 256, i % 256])
      else None
    case PyNone => None
    case Other(_, _) => None
  }

  function EncodeEntries(lib: Library, d: seq<Entry>): Option<Bytes>
  {
    if d == [] then Some([])
    else
      Join(Join(EncodeStr(lib.encode(d[0].key)), Encode(lib, d[0].val)), EncodeEntries(lib, d[1..]))
  }

  function Join(a: Option<Bytes>, b: Option<Bytes>): Option<Bytes>
  {
    if a.Some? && b.Some? then Some(a.value + b.value) else None
  }

  /** What the encoder has a form for: strings and dicts of up to 65535 bytes or entries, ints up to
      65535, booleans, and nothing else. */
  predicate HasForm(lib: Library, v: Obj)
  {
    match v
    case Str(s) => |lib.encode(s)| <= 65535
    case Dict(d) => |d| <= 65535 && AllHaveForms(lib, d)
    case Bool(_) => true
    case Int(i) => 0 <= i <= 65535
    case _ => false
  }

  predicate AllHaveForms(lib: Library, d: seq<Entry>)
  {
    d == []
    || (|lib.encode(d[0].key)| <= 65535 && HasForm(lib, d[0].val) && AllHaveForms(lib, d[1..]))
  }

  lemma {:induction false} EncodesIff(lib: Library, v: Obj)
    ensures Encode(lib, v).Some? <==> HasForm(lib, v)
    decreases v, 0
  {
    if v.Dict? {
      assert v.entries[0..] == v.entries;
      EntriesEncodeIff(lib, v.entries, 0);
      hide EncodeEntries, AllHaveForms;
    }
  }

  lemma {:induction false} EntriesEncodeIff(lib: Library, d: seq<Entry>, i: nat)
    requires i <= |d|
    ensures EncodeEntries(lib, d[i..]).Some? <==> AllHaveForms(lib, d[i..])
    decreases d, 1, |d| - i
  {
    if i < |d| {
      assert d[i..][1..] == d[i + 1..] && d[i..][0] == d[i];
      EncodesIff(lib, d[i].val);
      EntriesEncodeIff(lib, d, i + 1);
      hide Encode, HasForm;
    }
  }

  /** encode_message: the JSON text inside one string. */
  function EncodeMessage(lib: Library, msg: Obj): Option<Bytes>
  {
    EncodeStr(lib.encode(lib.dumps(msg)))
  }

  // ---- Reading ----

  /** One read: a value and how many bytes it took, or one of the two reasons for raising. */
  datatype ReadResult = Got(val: Obj, used: nat) | Truncated | Unsupported

  function Shift(n: nat, r: ReadResult): ReadResult
  {
    if r.Got? then Got(r.val, n + r.used) else r
  }

  function ReadText(lib: Library, s: Bytes, n: nat): (r: ReadResult)
    ensures r.Got? ==> r.used <= |s|
  {
    if n > |s| then Truncated else Got(Str(lib.decode(s[..n])), n)
  }

  /** What a value's first bytes say: how many bytes they are, and what follows them. */
  datatype Head =
    | MapHead(skip: nat, n: nat)
    | StrHead(skip: nat, n: nat)
    | Scalar(val: Obj, skip: nat)
    | CutHead
    | BadHead

  function HeadOf(s: Bytes): (h: Head)
    requires s != []
    ensures (h.MapHead? || h.StrHead? || h.Scalar?) ==> 1 <= h.skip <= |s|
    ensures h.Scalar? ==> h.val.Int? || h.val.Bool?
  {
    if 0x80 <= s[0] <= 0x8F then MapHead(1, s[0] - 0x80)
    else if 0xA0 <= s[0] <= 0xBF then StrHead(1, s[0] - 0xA0)
    else if s[0] == 0xD9 then
      if |s| < 2 then CutHead else StrHead(2, s[1])
    else if s[0] == 0xDA then
      if |s| < 3 then CutHead else StrHead(3, s[1] as int * 256 + s[2])
    else if s[0] == 0xDE then
      if |s| < 3 then CutHead else MapHead(3, s[1] as int * 256 + s[2])
    else if s[0] < 0x80 then Scalar(Int(s[0]), 1)
    else if s[0] == 0xCC then
      if |s| < 2 then CutHead else Scalar(Int(s[1]), 2)
    else if s[0] == 0xC2 then Scalar(Bool(false), 1)
    else if s[0] == 0xC3 then Scalar(Bool(true), 1)
    else BadHead
  }

  /** MsgpackReader.read at the head of s. The end of the buffer reads as None, without an
      error: a map cut between two values completes with None in the missing places. */
  function ReadValue(lib: Library, s: Bytes): (r: ReadResult)
    ensures r.Got? ==> r.used <= |s| && (s != [] ==> r.used >= 1)
    decreases |s|, 0
  {
    if s == [] then Got(PyNone, 0)
    else
      match HeadOf(s)
      case MapHead(skip, n) => Shift(skip, ReadEntries(lib, s[skip..], n, []))
      case StrHead(skip, n) => Shift(skip, ReadText(lib, s[skip..], n))
      case Scalar(v, skip) => Got(v, skip)
      case CutHead => Truncated
      case BadHead => Unsupported
  }

  function ReadEntries(lib: Library, s: Bytes, n: nat, d: seq<Entry>): (r: ReadResult)
    ensures r.Got? ==> r.used <= |s| && r.val.Dict?
    decreases |s|, n + 1
  {
    if n == 0 then Got(Dict(d), 0)
    else
      var k := ReadValue(lib, s);
      if !k.Got? then k
      else
        var v := ReadValue(lib, s[k.used..]);
        if !v.Got? then v
        else
          Shift(k.used + v.used,
                ReadEntries(lib, s[k.used + v.used..], n - 1, Put(d, lib.str(k.val), v.val)))
  }

  /** One round of the map loop: a key, a value, and the rest of the entries. */
  lemma EntriesStep(lib: Library, s: Bytes, n: nat, d: seq<Entry>)
    ensures n == 0 ==> ReadEntries(lib, s, n, d) == Got(Dict(d), 0)
    ensures n > 0 ==>
      var k := ReadValue(lib, s);
      ReadEntries(lib, s, n, d) ==
        if !k.Got? then k
        else
          var v := ReadValue(lib, s[k.used..]);
          if !v.Got? then v
          else
            Shift(k.used + v.used,
                  ReadEntries(lib, s[k.used + v.used..], n - 1, Put(d, lib.str(k.val), v.val)))
  {
    hide ReadValue, HeadOf;
  }

  datatype Outcome = Value(val: Obj) | TruncatedError | UnsupportedError

  /** A value is its head and what the head announces. */
  lemma ValueStep(lib: Library, s: Bytes)
    ensures s == [] ==> ReadValue(lib, s) == Got(PyNone, 0)
    ensures s != [] ==>
      var h := HeadOf(s);
      ReadValue(lib, s) ==
        if h.MapHead? then Shift(h.skip, ReadEntries(lib, s[h.skip..], h.n, []))
        else if h.StrHead? then Shift(h.skip, ReadText(lib, s[h.skip..], h.n))
        else if h.Scalar? then Got(h.val, h.skip)
        else if h == CutHead then Truncated
        else Unsupported
  {
    hide ReadEntries, ReadText, HeadOf;
  }

  /** The reader, having moved this far, returned what the specification says. */
  ghost predicate Agrees(r: Outcome, moved: int, spec: ReadResult)
  {
    match spec
    case Got(v, used) => r == Value(v) && moved == used
    case Truncated => r == TruncatedError
    case Unsupported => r == UnsupportedError
  }

  class MsgpackReader {
    const lib: Library
    const data: Bytes
    var pos: nat

    constructor (lib: Library, data: Bytes)
      ensures this.lib == lib && this.data == data && pos == 0
    {
      this.lib, this.data, this.pos := lib, data, 0;
    }

    /** The raising _byte: None stands for its IndexError. */
    method ReadByte() returns (b: Option<Byte>)
      requires pos <= |data|
      modifies this
      ensures old(pos) < |data| ==> b == Some(data[old(pos)]) && pos == old(pos) + 1
      ensures old(pos) == |data| ==> b == None && pos == old(pos)
    {
      if pos < |data| {
        b := Some(data[pos]);
        pos := pos + 1;
      } else {
        b := None;
      }
    }

    /** Reads one value, moving pos past it; where pos stops after an error is not promised. */
    method Read() returns (r: Outcome)
      requires pos <= |data|
      modifies this
      ensures pos <= |data|
      ensures Agrees(r, pos - old(pos), ReadValue(lib, data[old(pos)..]))
      decreases |data| - pos, 2
    {
      ghost var s := data[pos..];
      ValueStep(lib, s);
      hide ReadValue, ReadEntries, ReadText, HeadOf;
      if pos >= |data| {
        return Value(PyNone);
      }
      var head := ReadHead();
      match head
      case MapHead(skip, n) =>
        assert data[pos..] == s[skip..];
        r := ReadMap(n);
      case StrHead(skip, n) =>
        assert data[pos..] == s[skip..];
        r := ReadStr(n);
      case Scalar(v, _) =>
        r := Value(v);
      case CutHead =>
        r := TruncatedError;
      case BadHead =>
        r := UnsupportedError;
    }

    /** The prefix byte and the length or value bytes that belong to it. */
    method ReadHead() returns (h: Head)
      requires pos < |data|
      modifies this
      ensures old(pos) <= pos <= |data|
      ensures h == HeadOf(data[old(pos)..])
      ensures h.MapHead? || h.StrHead? || h.Scalar? ==> pos == old(pos) + h.skip
    {
      var prefix := ReadByte();
      var p := prefix.value as int;
      if 0x80 <= p <= 0x8F {
        h := MapHead(1, p - 0x80);
      } else if 0xA0 <= p <= 0xBF {
        h := StrHead(1, p - 0xA0);
      } else if p == 0xD9 {
        var n := ReadByte();
        h := if n == None then CutHead else StrHead(2, n.value);
      } else if p == 0xDA {
        var n := ReadShort();
        h := if n == None then CutHead else StrHead(3, n.value);
      } else if p == 0xDE {
        var n := ReadShort();
        h := if n == None then CutHead else MapHead(3, n.value);
      } else if p < 0x80 {
        h := Scalar(Int(p), 1);
      } else if p == 0xCC {
        var b := ReadByte();
        h := if b == None then CutHead else Scalar(Int(b.value), 2);
      } else if p == 0xC2 {
        h := Scalar(Bool(false), 1);
      } else if p == 0xC3 {
        h := Scalar(Bool(true), 1);
      } else {
        h := BadHead;
      }
    }

    /** Two bytes, high first: the length of a str16 or map16. */
    method ReadShort() returns (n: Option<nat>)
      requires pos <= |data|
      modifies this
      ensures old(pos) + 2 <= |data| ==>
        pos == old(pos) + 2 && n == Some(data[old(pos)] as int * 256 + data[old(pos) + 1])
      ensures old(pos) + 2 > |data| ==> n == None && old(pos) <= pos <= |data|
    {
      var hi := ReadByte();
      if hi == None { return None; }
      var lo := ReadByte();
      if lo == None { return None; }
      n := Some(hi.value as int * 256 + lo.value);
    }

    method ReadStr(n: nat) returns (r: Outcome)
      requires pos <= |data|
      modifies this
      ensures pos <= |data|
      ensures Agrees(r, pos - old(pos), ReadText(lib, data[old(pos)..], n))
    {
      if pos + n > |data| {
        return TruncatedError;
      }
      assert data[pos..pos + n] == data[pos..][..n];
      r := Value(Str(lib.decode(data[pos..pos + n])));
      pos := pos + n;
    }

    method ReadMap(n: nat) returns (r: Outcome)
      requires pos <= |data|
      modifies this
      ensures pos <= |data|
      ensures Agrees(r, pos - old(pos), ReadEntries(lib, data[old(pos)..], n, []))
      decreases |data| - pos, 3
    {
      hide ReadValue, ReadEntries, ReadText, HeadOf, Shift, Put;
      ghost var start := pos;
      ghost var goal := ReadEntries(lib, data[pos..], n, []);
      var d: seq<Entry> := [];
      var i := 0;
      ShiftFacts(0, 0, goal);
      while i < n
        invariant 0 <= i <= n && start <= pos <= |data|
        invariant goal == Shift(pos - start, ReadEntries(lib, data[pos..], n - i, d))
      {
        ghost var at := pos;
        EntriesStep(lib, data[at..], n - i, d);
        var key := Read();
        ghost var k := ReadValue(lib, data[at..]);
        if !key.Value? {
          ShiftFacts(at - start, 0, k);
          return key;
        }
        DropDrop(data, at, k.used);
        var val := Read();
        ghost var v := ReadValue(lib, data[at + k.used..]);
        if !val.Value? {
          ShiftFacts(at - start, 0, v);
          return val;
        }
        DropDrop(data, at, k.used + v.used);
        d := Put(d, lib.str(key.val), val.val);
        i := i + 1;
        ShiftFacts(at - start, k.used + v.used, ReadEntries(lib, data[pos..], n - i, d));
      }
      EntriesStep(lib, data[pos..], 0, d);
      ShiftFacts(pos - start, 0, Got(Dict(d), 0));
      r := Value(Dict(d));
    }
  }

  lemma ShiftFacts(m: nat, n: nat, r: ReadResult)
    ensures Shift(m, Shift(n, r)) == Shift(m + n, r)
    ensures r.Got? ==> Shift(m, r) == Got(r.val, m + r.used)
    ensures !r.Got? ==> Shift(m, r) == r
    ensures Shift(0, r) == r
  {
  }

  /** The encoder takes the shortest form: no head the reader accepts for the same string, number
      of entries or int has fewer bytes. */
  lemma ShortestForm(lib: Library, v: Obj, head: Bytes)
    requires head != [] && Encode(lib, v).Some?
    ensures v.Str? && HeadOf(head) == StrHead(|head|, |lib.encode(v.s)|) ==>
      |Encode(lib, v).value| <= |head| + |lib.encode(v.s)|
    ensures v.Dict? && HeadOf(head) == MapHead(|head|, |v.entries|) ==>
      |Encode(lib, v).value| <= |head| + |EncodeEntries(lib, v.entries).value|
    ensures v.Int? && HeadOf(head) == Scalar(v, |head|) ==> |Encode(lib, v).value| <= |head|
  {
    hide EncodeEntries;
  }

  // ---- The nested inverse ----

  /** Values the encoder's own reader can take back: ints stop at uint8. */
  predicate SmallInts(v: Obj)
  {
    match v
    case Int(i) => 0 <= i < 256
    case Dict(d) => SmallEntries(d)
    case _ => true
  }

  predicate SmallEntries(d: seq<Entry>)
  {
    d == [] || (SmallInts(d[0].val) && SmallEntries(d[1..]))
  }

  lemma StrInverse(lib: Library, s: string, tail: Bytes)
    requires Lawful(lib)
    requires EncodeStr(lib.encode(s)).Some?
    ensures var b := EncodeStr(lib.encode(s)).value; ReadValue(lib, b + tail) == Got(Str(s), |b|)
  {
    var text := lib.encode(s);
    var b := EncodeStr(text).value;
    var skip := |b| - |text|;
    assert HeadOf(b + tail) == StrHead(skip, |text|);
    assert (b + tail)[skip..] == text + tail;
    assert (text + tail)[..|text|] == text;
    assert lib.decode(text) == s;
  }

  /** The head of an encoded dict. */
  lemma DictHead(lib: Library, d: seq<Entry>, tail: Bytes)
    requires Encode(lib, Dict(d)).Some?
    ensures var b := Encode(lib, Dict(d)).value;
      var body := EncodeEntries(lib, d);
      body.Some? && |body.value| <= |b|
      && HeadOf(b + tail) == MapHead(|b| - |body.value|, |d|)
      && (b + tail)[|b| - |body.value|..] == body.value + tail
  {
    hide EncodeEntries;
    var body := EncodeEntries(lib, d).value;
    var head: Bytes := if |d| < 16 then [0x80 + |d|] else [0xDE, |d| / 256, |d| % 256];
    assert Encode(lib, Dict(d)).value == head + body;
    Associates(head, body, tail);
  }

  /** Ints and booleans. */
  lemma ScalarInverse(lib: Library, v: Obj, tail: Bytes)
    requires v.Int? || v.Bool?
    requires Encode(lib, v).Some?
    ensures var b := Encode(lib, v).value;
      ReadValue(lib, b + tail) == if SmallInts(v) then Got(v, |b|) else Unsupported
  {
    hide ReadValue, EncodeStr, EncodeEntries;
    var b := Encode(lib, v).value;
    var s := b + tail;
    assert s[0] == b[0] && (|b| > 1 ==> s[1] == b[1]);
    hide Encode, SmallInts;
    ValueStep(lib, s);
  }

  /** Reading back what was encoded, whatever follows it: the same value, ending exactly at its
      end, unless an int of 256 or more is inside; then the reader refuses its 0xCD prefix. */
  lemma {:induction false} NestedInverse(lib: Library, v: Obj, tail: Bytes)
    requires Lawful(lib) && WellFormed(v)
    requires Encode(lib, v).Some?
    ensures var b := Encode(lib, v).value;
      ReadValue(lib, b + tail) == if SmallInts(v) then Got(v, |b|) else Unsupported
    decreases v, 0
  {
    hide ReadValue, ReadEntries, HeadOf;
    if v.Str? {
      StrInverse(lib, v.s, tail);
    } else if v.Dict? {
      DictHead(lib, v.entries, tail);
      ValueStep(lib, Encode(lib, v).value + tail);
      assert v.entries[..0] == [] && v.entries[0..] == v.entries;
      EntriesInverse(lib, v.entries, 0, tail);
    } else {
      ScalarInverse(lib, v, tail);
    }
  }

  /** Encoding the entries from index i on starts with entry i. */
  lemma EncodeStep(lib: Library, d: seq<Entry>, i: nat)
    requires i < |d| && EncodeEntries(lib, d[i..]).Some?
    ensures EncodeStr(lib.encode(d[i].key)).Some? && Encode(lib, d[i].val).Some?
    ensures EncodeEntries(lib, d[i + 1..]).Some?
    ensures EncodeEntries(lib, d[i..]).value
      == EncodeStr(lib.encode(d[i].key)).value + Encode(lib, d[i].val).value
         + EncodeEntries(lib, d[i + 1..]).value
    ensures SmallEntries(d[i..]) == (SmallInts(d[i].val) && SmallEntries(d[i + 1..]))
  {
    hide Encode, EncodeStr, SmallInts;
    assert d[i..][1..] == d[i + 1..] && d[i..][0] == d[i];
  }

  /** The smallest int it refuses. */
  lemma BigIntRefused(lib: Library)
    ensures Encode(lib, Int(256)) == Some([0xCD, 1, 0])
    ensures ReadValue(lib, [0xCD, 1, 0]) == Unsupported
  {
    var s: Bytes := [0xCD, 1, 0];
    assert HeadOf(s) == BadHead;
    ValueStep(lib, s);
  }

  /** The entries of a dict from index i on, read after those before it. */
  lemma {:induction false} EntriesInverse(lib: Library, d: seq<Entry>, i: nat, tail: Bytes)
    requires Lawful(lib) && WellFormedEntries(d) && i <= |d|
    requires EncodeEntries(lib, d[i..]).Some?
    ensures ReadEntries(lib, EncodeEntries(lib, d[i..]).value + tail, |d| - i, d[..i])
      == if SmallEntries(d[i..]) then Got(Dict(d), |EncodeEntries(lib, d[i..]).value|)
         else Unsupported
    decreases d, 1, |d| - i
  {
    hide ReadValue, ReadEntries, HeadOf, Encode, EncodeStr;
    if i == |d| {
      assert d[..i] == d;
      EntriesStep(lib, EncodeEntries(lib, d[i..]).value + tail, 0, d);
    } else {
      EncodeStep(lib, d, i);
      hide EncodeEntries, SmallEntries, SmallInts;
      var k := EncodeStr(lib.encode(d[i].key)).value;
      var w := Encode(lib, d[i].val).value;
      var more := EncodeEntries(lib, d[i + 1..]).value;
      assert k + w + more + tail == k + (w + (more + tail));
      StrInverse(lib, d[i].key, w + (more + tail));
      NestedInverse(lib, d[i].val, more + tail);
      OneEntry(lib, k, w, more + tail, |d| - i, d[..i]);
      if SmallInts(d[i].val) {
        PutFresh(d[..i], d[i].key, d[i].val);
        assert d[..i] + [Entry(d[i].key, d[i].val)] == d[..i + 1];
        EntriesInverse(lib, d, i + 1, tail);
      }
    }
  }

  /** One round of the map loop, on bytes that start with a string and a value. */
  lemma OneEntry(lib: Library, k: Bytes, w: Bytes, tail: Bytes, n: nat, d: seq<Entry>)
    requires n > 0
    requires ReadValue(lib, k + (w + tail)).Got? && ReadValue(lib, k + (w + tail)).used == |k|
    requires ReadValue(lib, w + tail).Got? ==> ReadValue(lib, w + tail).used == |w|
    ensures var key := ReadValue(lib, k + (w + tail)).val;
      var val := ReadValue(lib, w + tail);
      ReadEntries(lib, k + (w + tail), n, d)
        == if val.Got?
           then Shift(|k| + |w|, ReadEntries(lib, tail, n - 1, Put(d, lib.str(key), val.val)))
           else val
  {
    hide ReadValue, HeadOf;
    assert (k + (w + tail))[|k|..] == w + tail;
    assert (k + (w + tail))[|k| + |w|..] == tail;
  }
}
