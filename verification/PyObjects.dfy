/** The Python values that cross the :47878 wire, and the library calls the server makes on
    them. Dicts keep their insertion order, as Python's do. */
module PyObjects {
  import opened ByteStrings

  /** Other stands for values the protocol never looks into (lists, floats); an empty list and 0.0
      are falsy. */
  datatype Obj =
    | PyNone
    | Bool(b: bool)
    | Int(i: int)
    | Str(s: string)
    | Dict(entries: seq<Entry>)
    | Other(tag: nat, falsy: bool)

  datatype Entry = Entry(key: string, val: Obj)

  /** d[k] = v: an existing key keeps its place, a new one goes last. */
  function Put(d: seq<Entry>, k: string, v: Obj): (r: seq<Entry>)
  {
    if d == [] then [Entry(k, v)]
    else if d[0].key == k then [Entry(k, v)] + d[1..]
    else [d[0]] + Put(d[1..], k, v)
  }

  function Lookup(d: seq<Entry>, k: string): (r: Option<Obj>)
  {
    if d == [] then None
    else if d[0].key == k then Some(d[0].val)
    else Lookup(d[1..], k)
  }

  ghost predicate DistinctKeys(d: seq<Entry>)
  {
    forall i, j :: 0 <= i < j < |d| ==> d[i].key != d[j].key
  }

  /** Dicts are dicts all the way down: no key twice. */
  ghost predicate WellFormed(v: Obj)
  {
    v.Dict? ==> WellFormedEntries(v.entries)
  }

  ghost predicate WellFormedEntries(d: seq<Entry>)
  {
    DistinctKeys(d) && forall i :: 0 <= i < |d| ==> WellFormed(d[i].val)
  }

  /** What a message is: a dict that Python could hold. */
  ghost predicate Message(v: Obj)
  {
    v.Dict? && WellFormed(v)
  }

  lemma {:induction false} PutFresh(d: seq<Entry>, k: string, v: Obj)
    requires forall i :: 0 <= i < |d| ==> d[i].key != k
    ensures Put(d, k, v) == d + [Entry(k, v)]
  {
    if d != [] {
      PutFresh(d[1..], k, v);
    }
  }

  /** A key that is there keeps its place, with the new value. */
  lemma {:induction false} PutExisting(d: seq<Entry>, i: nat, v: Obj)
    requires DistinctKeys(d) && i < |d|
    ensures Put(d, d[i].key, v) == d[i := Entry(d[i].key, v)]
  {
    if i > 0 {
      assert d[0].key != d[i].key;
      PutExisting(d[1..], i - 1, v);
    }
  }

  lemma {:induction false} LookupAt(d: seq<Entry>, i: nat)
    requires DistinctKeys(d) && i < |d|
    ensures Lookup(d, d[i].key) == Some(d[i].val)
  {
    if i > 0 {
      assert d[0].key != d[i].key;
      LookupAt(d[1..], i - 1);
    }
  }

  lemma {:induction false} LookupNowhere(d: seq<Entry>, k: string)
    ensures Lookup(d, k) == None <==> forall i :: 0 <= i < |d| ==> d[i].key != k
  {
    if d != [] {
      LookupNowhere(d[1..], k);
      assert d == [d[0]] + d[1..];
    }
  }

  lemma {:induction false} PutAgain(d: seq<Entry>, k: string, v: Obj)
    ensures Put(Put(d, k, v), k, v) == Put(d, k, v)
  {
    if d != [] && d[0].key != k {
      PutAgain(d[1..], k, v);
    }
  }

  /** What a decoder returns: the complete messages and the bytes left over. */
  datatype Decoded = Decoded(msgs: seq<Obj>, rest: Bytes)

  function Prepend(msgs: seq<Obj>, d: Decoded): Decoded
  {
    Decoded(msgs + d.msgs, d.rest)
  }

  lemma PrependTwice(a: seq<Obj>, b: seq<Obj>, d: Decoded)
    ensures Prepend(a, Prepend(b, d)) == Prepend(a + b, d)
    ensures Prepend(a, Prepend(b, d)).rest == d.rest
  {
    Associates(a, b, d.msgs);
  }

  lemma PrependNothing(d: Decoded)
    ensures Prepend([], d) == d && Prepend(d.msgs, Decoded([], d.rest)) == d
  {
    assert [] + d.msgs == d.msgs && d.msgs + [] == d.msgs;
  }

  /** Library calls left uninterpreted: text encoding, json, base64 and str(). None is a raised
      ValueError (binascii.Error is one). decode is bytes.decode("utf-8", "replace"). */
  datatype Library = Library(
    encode: string -> Bytes,
    decode: Bytes -> string,
    dumps: Obj -> string,
    loadsText: string -> Option<Obj>,
    loadsBytes: Bytes -> Option<Obj>,
    str: Obj -> string,
    b64decode: string -> Option<Bytes>)

  /** What the model uses about them: printing then parsing gives a message back, UTF-8
      decodes what it encodes, json.dumps prints printable ASCII only (its ensure_ascii
      default), str() is the identity on strings, and empty base64 text is the empty blob. */
  ghost predicate Lawful(lib: Library)
  {
    && (forall s :: lib.decode(lib.encode(s)) == s)
    && (forall m: Obj :: Message(m) ==> lib.loadsText(lib.dumps(m)) == Some(m))
    && (forall m: Obj :: Message(m) ==> lib.loadsBytes(lib.encode(lib.dumps(m))) == Some(m))
    && (forall m: Obj :: Message(m) ==> PrintableAscii(lib.encode(lib.dumps(m))))
    && (forall s :: lib.str(Str(s)) == s)
    && lib.b64decode("") == Some([])
  }

  ghost predicate PrintableAscii(s: Bytes)
  {
    |s| > 0 && forall i :: 0 <= i < |s| ==> 0x20 <= s[i] < 0x7F
  }
}
