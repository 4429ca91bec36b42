/** Map frames cut short. A string cut anywhere waits for its other bytes; a map does not when it
    is cut between two items, since the reader reads None at the end of the buffer. */
module CutMaps {
  import opened ByteStrings
  import opened PyObjects
  import opened Msgpack
  import opened FridgeStream

  function Size(lib: Library, v: Obj): nat
  {
    match Encode(lib, v)
    case Some(b) => |b|
    case None => 0
  }

  function KeySize(lib: Library, key: string): nat
  {
    match EncodeStr(lib.encode(key))
    case Some(b) => |b|
    case None => 0
  }

  function HeadSize(d: seq<Entry>): nat
  {
    if |d| < 16 then 1 else 3
  }

  /** n bytes into the encoding of a value: in front of it, behind it, or between two items of
      it, at any depth. */
  predicate EndsBetween(lib: Library, v: Obj, n: nat)
    decreases v, 0, 0
  {
    || n == 0 || n == Size(lib, v)
    || (v.Dict? && n >= HeadSize(v.entries)
        && EndsBetweenEntries(lib, v.entries, 0, n - HeadSize(v.entries)))
  }

  /** The same for the entries of a dict from index i on. */
  predicate EndsBetweenEntries(lib: Library, d: seq<Entry>, i: nat, n: nat)
    requires i <= |d|
    decreases d, 1, |d| - i
  {
    n == 0
    || (i < |d|
        && (var k, w := KeySize(lib, d[i].key), Size(lib, d[i].val);
            n >= k && (if n < k + w then EndsBetween(lib, d[i].val, n - k)
                       else EndsBetweenEntries(lib, d, i + 1, n - k - w))))
  }

  /** An int of 256 or more, whose prefix the reader refuses, starts within the first n bytes of the
      encoding of a value. */
  predicate BigIntStarts(lib: Library, v: Obj, n: nat)
    decreases v, 0, 0
  {
    match v
    case Int(i) => i >= 256 && n > 0
    case Dict(d) => n >= HeadSize(d) && BigIntStartsEntries(lib, d, 0, n - HeadSize(d))
    case _ => false
  }

  predicate BigIntStartsEntries(lib: Library, d: seq<Entry>, i: nat, n: nat)
    requires i <= |d|
    decreases d, 1, |d| - i
  {
    i < |d|
    && (var k, w := KeySize(lib, d[i].key), Size(lib, d[i].val);
        n >= k && (|| BigIntStarts(lib, d[i].val, n - k)
                   || (n >= k + w && BigIntStartsEntries(lib, d, i + 1, n - k - w))))
  }

  /** What is left of a value cut there: what is missing is None. */
  function Left(lib: Library, v: Obj, n: nat): Obj
    decreases v, 0, 0
  {
    if n >= Size(lib, v) then v
    else if v.Dict? && n >= HeadSize(v.entries) then
      Dict(LeftEntries(lib, v.entries, 0, n - HeadSize(v.entries)))
    else PyNone
  }

  function LeftEntries(lib: Library, d: seq<Entry>, i: nat, n: nat): seq<Entry>
    requires i <= |d|
    decreases d, 1, |d| - i
  {
    if i == |d| then d
    else
      var k, w := KeySize(lib, d[i].key), Size(lib, d[i].val);
      if n < k then Missing(lib, d[..i], |d| - i)
      else if n < k + w then
        Missing(lib, d[..i] + [Entry(d[i].key, Left(lib, d[i].val, n - k))], |d| - i - 1)
      else LeftEntries(lib, d, i + 1, n - k - w)
  }

  /** What the reader makes of n bytes of a value, or of its entries. */
  function Expected(big: bool, cut: bool, v: Obj, n: nat): ReadResult
  {
    if big then Unsupported else if cut then Got(v, n) else Truncated
  }

  /** In all of an encoding, a big int starts unless all its ints are small. */
  lemma {:induction false} WholeStarts(lib: Library, v: Obj, n: nat)
    requires Encode(lib, v).Some? && n >= Size(lib, v)
    ensures BigIntStarts(lib, v, n) <==> !SmallInts(v)
    decreases v, 0, 0
  {
    hide EncodeStr, EncodeEntries, SmallEntries, BigIntStartsEntries;
    if v.Dict? {
      CutDictHead(lib, v.entries, Size(lib, v));
      assert v.entries[0..] == v.entries;
      WholeStartsEntries(lib, v.entries, 0, n - HeadSize(v.entries));
    }
  }

  lemma {:induction false} WholeStartsEntries(lib: Library, d: seq<Entry>, i: nat, n: nat)
    requires i <= |d| && EncodeEntries(lib, d[i..]).Some? && n >= |EncodeEntries(lib, d[i..]).value|
    ensures BigIntStartsEntries(lib, d, i, n) <==> !SmallEntries(d[i..])
    decreases d, 1, |d| - i
  {
    hide Encode, EncodeStr, BigIntStarts, SmallInts;
    if i == |d| {
      assert d[i..] == [];
    } else {
      EncodeStep(lib, d, i);
      hide EncodeEntries, SmallEntries;
      var k, w := KeySize(lib, d[i].key), Size(lib, d[i].val);
      WholeStarts(lib, d[i].val, n - k);
      WholeStartsEntries(lib, d, i + 1, n - k - w);
    }
  }

  lemma CutStr(lib: Library, s: string, n: nat)
    requires EncodeStr(lib.encode(s)).Some?
    requires 0 < n < KeySize(lib, s)
    ensures ReadValue(lib, EncodeStr(lib.encode(s)).value[..n]) == Truncated
  {
    var text := lib.encode(s);
    var b := EncodeStr(text).value;
    var skip := |b| - |text|;
    var p := b[..n];
    assert HeadOf(b) == StrHead(skip, |text|);
    assert HeadOf(p) == if n < skip then CutHead else StrHead(skip, |text|);
    ValueStep(lib, p);
    hide ReadValue, HeadOf, EncodeStr;
  }

  lemma CutDictHead(lib: Library, d: seq<Entry>, n: nat)
    requires Encode(lib, Dict(d)).Some?
    requires 0 < n <= Size(lib, Dict(d))
    ensures EncodeEntries(lib, d).Some?
    ensures Size(lib, Dict(d)) == HeadSize(d) + |EncodeEntries(lib, d).value|
    ensures var p := Encode(lib, Dict(d)).value[..n];
      && (n < HeadSize(d) ==> HeadOf(p) == CutHead)
      && (n >= HeadSize(d) ==>
            HeadOf(p) == MapHead(HeadSize(d), |d|)
            && p[HeadSize(d)..] == EncodeEntries(lib, d).value[..n - HeadSize(d)])
  {
    hide EncodeEntries;
    var body := EncodeEntries(lib, d).value;
    var head: Bytes := if |d| < 16 then [0x80 + |d|] else [0xDE, |d| / 256, |d| % 256];
    var b := Encode(lib, Dict(d)).value;
    assert b == head + body;
    var p := b[..n];
    if n >= HeadSize(d) {
      assert p == head + body[..n - HeadSize(d)];
    } else {
      assert p == head[..n];
    }
  }

  lemma CutScalar(lib: Library, v: Obj, n: nat)
    requires v.Int? || v.Bool?
    requires Encode(lib, v).Some?
    requires 0 < n < Size(lib, v)
    ensures ReadValue(lib, Encode(lib, v).value[..n]) == if SmallInts(v) then Truncated else Unsupported
  {
    var p := Encode(lib, v).value[..n];
    assert p[0] == if SmallInts(v) then 0xCC else 0xCD;
    assert SmallInts(v) ==> |p| == 1;
    assert HeadOf(p) == if SmallInts(v) then CutHead else BadHead;
    hide Encode, HeadOf;
    ValueStep(lib, p);
  }

  /** A proper part of an encoding is refused when a big int starts in it. Otherwise it reads as
      what is left of the value when it ends between two items, and only then; or else the reader
      runs out of bytes. */
  lemma {:induction false} CutRead(lib: Library, v: Obj, n: nat)
    requires Lawful(lib) && WellFormed(v)
    requires Encode(lib, v).Some? && n < Size(lib, v)
    ensures ReadValue(lib, Encode(lib, v).value[..n])
      == Expected(BigIntStarts(lib, v, n), EndsBetween(lib, v, n), Left(lib, v, n), n)
    decreases v, 0, 0
  {
    hide ReadValue, ReadEntries, HeadOf, EncodeStr, EncodeEntries, EndsBetweenEntries, LeftEntries,
      BigIntStartsEntries, Lawful;
    var p := Encode(lib, v).value[..n];
    if n == 0 {
      EmptyValue(lib);
      assert p == [];
    } else if v.Dict? {
      CutDictHead(lib, v.entries, n);
      ValueStep(lib, p);
      if n >= HeadSize(v.entries) {
        var d := v.entries;
        assert d[..0] == [] && d[0..] == d;
        CutEntries(lib, d, 0, n - HeadSize(d));
      }
    } else if v.Str? {
      CutStr(lib, v.s, n);
    } else {
      CutScalar(lib, v, n);
    }
  }

  lemma {:induction false} CutEntries(lib: Library, d: seq<Entry>, i: nat, n: nat)
    requires Lawful(lib) && WellFormedEntries(d) && i <= |d|
    requires EncodeEntries(lib, d[i..]).Some? && n <= |EncodeEntries(lib, d[i..]).value|
    ensures ReadEntries(lib, EncodeEntries(lib, d[i..]).value[..n], |d| - i, d[..i])
      == Expected(BigIntStartsEntries(lib, d, i, n), EndsBetweenEntries(lib, d, i, n),
                  Dict(LeftEntries(lib, d, i, n)), n)
    decreases d, 1, |d| - i
  {
    hide ReadValue, ReadEntries, HeadOf, Encode, EncodeStr, EndsBetween, Left, BigIntStarts, Lawful;
    if i == |d| {
      assert d[..i] == d && d[i..] == [];
      EntriesStep(lib, EncodeEntries(lib, d[i..]).value[..n], 0, d);
    } else {
      EncodeStep(lib, d, i);
      CutEntry(lib, d, i, n);
      KeyNotEmpty(lib, d[i].key);
      hide EncodeEntries, SmallEntries, SmallInts, EndsBetweenEntries, LeftEntries, BigIntStartsEntries,
        Put, Missing;
      var k := EncodeStr(lib.encode(d[i].key)).value;
      var w := Encode(lib, d[i].val).value;
      var more := EncodeEntries(lib, d[i + 1..]).value;
      var p := EncodeEntries(lib, d[i..]).value[..n];
      if n < |k| {
        assert p == k[..n];
        CutKey(lib, d, i, n);
      } else if n < |k| + |w| {
        assert p == k + w[..n - |k|];
        CutRead(lib, d[i].val, n - |k|);
        CutInside(lib, d, i, n);
      } else {
        var m := n - |k| - |w|;
        assert p == k + (w + more[..m]);
        CutEntries(lib, d, i + 1, m);
        WholeStarts(lib, d[i].val, n - |k|);
        CutPast(lib, d, i, more[..m], BigIntStartsEntries(lib, d, i + 1, m),
                EndsBetweenEntries(lib, d, i + 1, m), LeftEntries(lib, d, i + 1, m));
      }
    }
  }

  lemma KeyNotEmpty(lib: Library, key: string)
    requires EncodeStr(lib.encode(key)).Some?
    ensures KeySize(lib, key) > 0
  {
  }

  /** Where n bytes into the entries from i on are. */
  lemma CutEntry(lib: Library, d: seq<Entry>, i: nat, n: nat)
    requires i < |d|
    ensures var k, w := KeySize(lib, d[i].key), Size(lib, d[i].val);
      && (n < k ==>
            && !BigIntStartsEntries(lib, d, i, n)
            && EndsBetweenEntries(lib, d, i, n) == (n == 0)
            && LeftEntries(lib, d, i, n) == Missing(lib, d[..i], |d| - i))
      && (k <= n < k + w && n > 0 ==>
            && BigIntStartsEntries(lib, d, i, n) == BigIntStarts(lib, d[i].val, n - k)
            && EndsBetweenEntries(lib, d, i, n) == EndsBetween(lib, d[i].val, n - k)
            && LeftEntries(lib, d, i, n)
               == Missing(lib, d[..i] + [Entry(d[i].key, Left(lib, d[i].val, n - k))], |d| - i - 1))
      && (n >= k + w && n > 0 ==>
            && BigIntStartsEntries(lib, d, i, n)
               == (BigIntStarts(lib, d[i].val, n - k) || BigIntStartsEntries(lib, d, i + 1, n - k - w))
            && EndsBetweenEntries(lib, d, i, n) == EndsBetweenEntries(lib, d, i + 1, n - k - w)
            && LeftEntries(lib, d, i, n) == LeftEntries(lib, d, i + 1, n - k - w))
  {
    hide KeySize, Size, EndsBetween, Left, BigIntStarts, Missing;
  }

  /** The buffer ends inside the key of entry i, or in front of it. */
  lemma CutKey(lib: Library, d: seq<Entry>, i: nat, n: nat)
    requires i < |d| && EncodeStr(lib.encode(d[i].key)).Some?
    requires n < KeySize(lib, d[i].key)
    ensures ReadEntries(lib, EncodeStr(lib.encode(d[i].key)).value[..n], |d| - i, d[..i])
      == Expected(false, n == 0, Dict(Missing(lib, d[..i], |d| - i)), n)
  {
    var p := EncodeStr(lib.encode(d[i].key)).value[..n];
    if n == 0 {
      assert p == [];
      ExhaustedMap(lib, |d| - i, d[..i]);
    } else {
      CutStr(lib, d[i].key, n);
      hide ReadValue, ReadEntries, HeadOf, EncodeStr;
      EntriesStep(lib, p, |d| - i, d[..i]);
    }
  }

  /** It ends inside the value of entry i, or in front of it. */
  lemma CutInside(lib: Library, d: seq<Entry>, i: nat, n: nat)
    requires Lawful(lib) && DistinctKeys(d) && i < |d|
    requires EncodeStr(lib.encode(d[i].key)).Some? && Encode(lib, d[i].val).Some?
    requires KeySize(lib, d[i].key) <= n < KeySize(lib, d[i].key) + Size(lib, d[i].val)
    requires var m := n - KeySize(lib, d[i].key);
      ReadValue(lib, Encode(lib, d[i].val).value[..m])
        == Expected(BigIntStarts(lib, d[i].val, m), EndsBetween(lib, d[i].val, m), Left(lib, d[i].val, m), m)
    ensures var m := n - KeySize(lib, d[i].key);
      ReadEntries(lib, EncodeStr(lib.encode(d[i].key)).value + Encode(lib, d[i].val).value[..m],
                  |d| - i, d[..i])
        == Expected(BigIntStarts(lib, d[i].val, m), EndsBetween(lib, d[i].val, m),
                    Dict(Missing(lib, d[..i] + [Entry(d[i].key, Left(lib, d[i].val, m))], |d| - i - 1)), n)
  {
    hide ReadValue, ReadEntries, HeadOf, Encode, EncodeStr, EndsBetween, Left, BigIntStarts, Missing;
    var k := EncodeStr(lib.encode(d[i].key)).value;
    var w := Encode(lib, d[i].val).value[..n - |k|];
    var left := Left(lib, d[i].val, n - |k|);
    StrInverse(lib, d[i].key, w);
    StrOfStr(lib, d[i].key);
    PutFresh(d[..i], d[i].key, left);
    hide Put;
    Behind(k, w);
    CutValue(lib, k + w, |k|, ReadValue(lib, w), |d| - i, d[..i], d[i].key, left);
  }

  lemma PutNext(d: seq<Entry>, i: nat)
    requires DistinctKeys(d) && i < |d|
    ensures Put(d[..i], d[i].key, d[i].val) == d[..i + 1]
  {
    PutFresh(d[..i], d[i].key, d[i].val);
  }

  /** It ends behind entry i. */
  lemma CutPast(lib: Library, d: seq<Entry>, i: nat, tail: Bytes, big: bool, cut: bool, left: seq<Entry>)
    requires Lawful(lib) && WellFormedEntries(d) && i < |d|
    requires EncodeStr(lib.encode(d[i].key)).Some? && Encode(lib, d[i].val).Some?
    requires ReadEntries(lib, tail, |d| - i - 1, d[..i + 1]) == Expected(big, cut, Dict(left), |tail|)
    ensures var k, w := EncodeStr(lib.encode(d[i].key)).value, Encode(lib, d[i].val).value;
      ReadEntries(lib, k + (w + tail), |d| - i, d[..i])
        == Expected(!SmallInts(d[i].val) || big, cut, Dict(left), |k| + |w| + |tail|)
  {
    hide ReadValue, ReadEntries, HeadOf, Encode, EncodeStr;
    var k, w := EncodeStr(lib.encode(d[i].key)).value, Encode(lib, d[i].val).value;
    StrInverse(lib, d[i].key, w + tail);
    NestedInverse(lib, d[i].val, tail);
    StrOfStr(lib, d[i].key);
    PutNext(d, i);
    hide Put, SmallInts, WellFormedEntries, Lawful;
    OneEntry(lib, k, w, tail, |d| - i, d[..i]);
  }

  lemma Behind(a: Bytes, b: Bytes)
    ensures (a + b)[|a|..] == b && (a + b)[|a| + |b|..] == []
  {
  }

  lemma StrOfStr(lib: Library, s: string)
    requires Lawful(lib)
    ensures lib.str(Str(s)) == s
  {
  }

  /** The buffer s ends inside the value of an entry, or right in front of it. */
  lemma CutValue(lib: Library, s: Bytes, k: nat, v: ReadResult, m: nat, acc: seq<Entry>, key: string, left: Obj)
    requires m > 0 && k <= |s|
    requires ReadValue(lib, s) == Got(Str(key), k) && lib.str(Str(key)) == key
    requires ReadValue(lib, s[k..]) == v && (v.Got? ==> v == Got(left, |s| - k))
    ensures ReadEntries(lib, s, m, acc)
      == Expected(v.Unsupported?, v.Got?, Dict(Missing(lib, Put(acc, key, left), m - 1)), |s|)
  {
    hide ReadValue, ReadEntries, HeadOf, Put, Missing;
    EntriesStep(lib, s, m, acc);
    if v.Got? {
      assert s[|s|..] == [];
      ExhaustedMap(lib, m - 1, Put(acc, key, left));
      ShiftFacts(|s|, 0, ReadEntries(lib, [], m - 1, Put(acc, key, left)));
    }
  }

  /** A map frame of which only a proper part is there: delivered, with Nones for what is missing,
      exactly when the part ends between two items, at or after the end of the head, and no int of
      256 or more starts in it. */
  lemma CutMapDelivered(lib: Library, v: Obj, n: nat)
    requires Lawful(lib) && Message(v)
    requires Encode(lib, v).Some? && 0 < n < Size(lib, v)
    ensures var p := Encode(lib, v).value[..n];
      Decode(lib, p) ==
        if EndsBetween(lib, v, n) && !BigIntStarts(lib, v, n) then Decoded([Left(lib, v, n)], [])
        else if n > SANITY_LIMIT then Decoded([], [])
        else Decoded([], p)
  {
    CutRead(lib, v, n);
    var p := Encode(lib, v).value[..n];
    if EndsBetween(lib, v, n) && !BigIntStarts(lib, v, n) {
      assert Left(lib, v, n).Dict?;
      assert p[n..] == [];
    }
    hide ReadValue, HeadOf, Encode, EndsBetween, Left, BigIntStarts;
    assert DecodeRaw(lib, []) == Decoded([], []);
  }

  lemma CutDictSize(lib: Library, d: seq<Entry>)
    requires EncodeEntries(lib, d).Some? && |d| < 16
    ensures Encode(lib, Dict(d)).Some? && Size(lib, Dict(d)) == 1 + |EncodeEntries(lib, d).value|
  {
  }

  /** Ending between two items is not enough: cut right behind an int of 256, a map waits. */
  lemma BigIntWaits(lib: Library, a: string, b: string)
    requires Lawful(lib) && a != b
    requires EncodeStr(lib.encode(a)).Some? && EncodeStr(lib.encode(b)).Some?
    ensures var v := Dict([Entry(a, Int(256)), Entry(b, Bool(true))]);
      var n := 1 + KeySize(lib, a) + 3;
      && Encode(lib, v).Some? && n < Size(lib, v) && EndsBetween(lib, v, n)
      && Decode(lib, Encode(lib, v).value[..n]).msgs == []
  {
    var d := [Entry(a, Int(256)), Entry(b, Bool(true))];
    var v, k := Dict(d), KeySize(lib, a);
    assert d[1..] == [Entry(b, Bool(true))] && d[1..][1..] == [];
    assert EncodeEntries(lib, d[1..][1..]) == Some([]);
    assert EncodeEntries(lib, d[1..]).Some? && |EncodeEntries(lib, d[1..]).value| > 0;
    assert Encode(lib, d[0].val).Some? && |Encode(lib, d[0].val).value| == 3;
    assert EncodeEntries(lib, d).Some? && |EncodeEntries(lib, d).value| > k + 3;
    CutDictSize(lib, d);
    assert WellFormed(d[0].val) && WellFormed(d[1].val);
    assert DistinctKeys(d);
    assert WellFormedEntries(d);
    assert Size(lib, Int(256)) == 3;
    hide EncodeStr, Encode, EncodeEntries, Lawful;
    assert EndsBetweenEntries(lib, d, 1, 0);
    assert EndsBetweenEntries(lib, d, 0, k + 3);
    assert BigIntStarts(lib, Int(256), 3);
    assert BigIntStartsEntries(lib, d, 0, k + 3);
    CutMapDelivered(lib, v, 1 + k + 3);
  }

  /** The smallest one: a map of one entry, all of it missing. */
  lemma IncompleteMap(lib: Library)
    ensures Decode(lib, [0x81]) == Decoded([Dict([Entry(lib.str(PyNone), PyNone)])], [])
  {
    var p: Bytes := [0x81];
    assert HeadOf(p) == MapHead(1, 1);
    ValueStep(lib, p);
    hide ReadValue, HeadOf;
    assert p[1..] == [];
    ExhaustedMap(lib, 1, []);
    assert DecodeRaw(lib, []) == Decoded([], []);
  }
}
