/** The relay logs: appended by the relay, truncated in place by the size cap, followed by the
    watcher through a byte offset. */
module LogFollow {
  import opened ByteStrings

  const NEWLINE: Byte := 10

  // ---- The size cap ----

  /** bytes.find of a newline. */
  function FindNewline(s: Bytes): (r: Option<nat>)
    ensures r.Some? ==> r.value < |s|
  {
    if s == [] then None
    else if s[0] == NEWLINE then Some(0)
    else
      match FindNewline(s[1..])
      case None => None
      case Some(k) => Some(k + 1)
  }

  lemma {:induction false} FirstNewline(s: Bytes)
    ensures FindNewline(s) == None ==> forall i :: 0 <= i < |s| ==> s[i] != 10
    ensures FindNewline(s).Some? ==>
      s[FindNewline(s).value] == 10
      && forall i :: 0 <= i < FindNewline(s).value ==> s[i] != 10
  {
    if s != [] && s[0] != NEWLINE {
      FirstNewline(s[1..]);
      forall i | 1 <= i < |s| ensures s[i] == s[1..][i - 1] {
      }
    }
  }

  function KeepBytes(cap: int, keep: int): int
  {
    if keep <= 0 then cap / 4 else keep
  }

  /** What is left of a file over the cap: its last bytes, less a partial first line. */
  function Capped(content: Bytes, cap: int, keep: int): (r: Bytes)
    requires cap > 0
    ensures |r| <= |content|
  {
    var from := if |content| > KeepBytes(cap, keep) then |content| - KeepBytes(cap, keep) else 0;
    var tail := content[from..];
    match FindNewline(tail)
    case Some(nl) => tail[nl + 1..]
    case None => tail
  }

  /** A suffix of at most the kept bytes, a quarter of the cap unless the caller names a number,
      starting right after the first newline of the kept tail whenever there is one; without one the
      tail stays whole. */
  lemma CappedSuffix(content: Bytes, cap: int, keep: int)
    requires cap > 0
    ensures var r := Capped(content, cap, keep);
      var limit := if keep <= 0 then cap / 4 else keep;
      var kept := if |content| > limit then limit else |content|;
      var start := |content| - |r|;
      && |r| <= kept && r == content[start..]
      && (|r| == kept <==> forall i :: |content| - kept <= i < |content| ==> content[i] != 10)
      && (|r| < kept ==>
            content[start - 1] == 10
            && forall i :: |content| - kept <= i < start - 1 ==> content[i] != 10)
  {
    hide Capped, FindNewline, KeepBytes;
    CappedIsSuffix(content, cap, keep);
    CappedLength(content, cap, keep);
    var limit := if keep <= 0 then cap / 4 else keep;
    NewlineAfter(content, if |content| > limit then |content| - limit else 0);
  }

  lemma CappedLength(content: Bytes, cap: int, keep: int)
    requires cap > 0
    ensures var limit := if keep <= 0 then cap / 4 else keep;
      var from := if |content| > limit then |content| - limit else 0;
      var nl := FindNewline(content[from..]);
      |Capped(content, cap, keep)| == |content| - from - if nl.Some? then nl.value + 1 else 0
  {
    hide FindNewline;
  }

  /** The first newline from index k on. */
  lemma NewlineAfter(content: Bytes, k: nat)
    requires k <= |content|
    ensures var nl := FindNewline(content[k..]);
      && (nl == None ==> forall i :: k <= i < |content| ==> content[i] != 10)
      && (nl.Some? ==>
            content[k + nl.value] == 10
            && forall i :: k <= i < k + nl.value ==> content[i] != 10)
  {
    var tail := content[k..];
    FirstNewline(tail);
    hide FindNewline;
    forall i | k <= i < |content| ensures content[i] == tail[i - k] {
    }
  }

  lemma SuffixOfSuffix(s: Bytes, start: nat, r: Bytes)
    requires start + |r| <= |s|
    requires r == s[start..][|s| - start - |r|..]
    ensures r == s[|s| - |r|..]
  {
    DropDrop(s, start, |s| - start - |r|);
  }

  lemma CappedIsSuffix(content: Bytes, cap: int, keep: int)
    requires cap > 0
    ensures var r := Capped(content, cap, keep); r == content[|content| - |r|..]
  {
    var from := if |content| > KeepBytes(cap, keep) then |content| - KeepBytes(cap, keep) else 0;
    var nl := FindNewline(content[from..]);
    hide FindNewline, KeepBytes;
    if nl.Some? {
      DropDrop(content, from, nl.value + 1);
    }
  }

  /** The log directory: file contents by path. */
  class LogDir {
    var files: map<string, Bytes>

    constructor ()
      ensures files == map[]
    {
      files := map[];
    }

    method Append(path: string, data: Bytes)
      modifies this
      ensures files == old(files)[path := (if path in old(files) then old(files)[path] else []) + data]
    {
      files := files[path := (if path in files then files[path] else []) + data];
    }

    /** truncate_oversized: rewrites the files over the cap, and nothing else. */
    method TruncateOversized(paths: seq<string>, cap: int, keep: int)
        returns (truncated: map<string, nat>)
      requires NoRepeat(paths)
      modifies this
      ensures files.Keys == old(files).Keys
      ensures forall p ::
        p in truncated <==> p in old(files) && p in paths && cap > 0 && |old(files)[p]| > cap
      ensures forall p :: p in files ==>
        files[p] == if p in truncated then Capped(old(files)[p], cap, keep) else old(files)[p]
      ensures forall p :: p in truncated ==> truncated[p] == |files[p]|
    {
      truncated := map[];
      if cap <= 0 {
        return;
      }
      var i := 0;
      while i < |paths|
        invariant 0 <= i <= |paths|
        invariant files.Keys == old(files).Keys
        invariant forall p :: p in files ==>
          files[p] == if p in truncated then Capped(old(files)[p], cap, keep) else old(files)[p]
        invariant forall p :: p in truncated <==> p in old(files) && p in paths[..i] && |old(files)[p]| > cap
        invariant forall p :: p in truncated ==> truncated[p] == |files[p]|
      {
        var path := paths[i];
        NextPath(paths, i);
        hide Capped, NoRepeat;
        if path in files && |files[path]| > cap {
          files := files[path := Capped(files[path], cap, keep)];
          truncated := truncated[path := |files[path]|];
        }
        i := i + 1;
      }
      assert paths[..i] == paths;
    }
  }

  ghost predicate NoRepeat(paths: seq<string>)
  {
    forall i, j :: 0 <= i < j < |paths| ==> paths[i] != paths[j]
  }

  /** The next path was not handled yet. */
  lemma NextPath(paths: seq<string>, i: nat)
    requires NoRepeat(paths) && i < |paths|
    ensures paths[i] !in paths[..i]
    ensures forall p :: p in paths[..i + 1] <==> p in paths[..i] || p == paths[i]
  {
    assert paths[..i + 1] == paths[..i] + [paths[i]];
  }

  // ---- The watcher ----

  /** One file's part of a poll: the new offset, and the bytes to read. */
  datatype Polled = Polled(offset: nat, from: nat, to: nat)

  /** No offset yet: arm at the end. A file shorter than the offset is read from the top; when
      there is nothing to read, the offset stays as it was. */
  function PollFile(offset: Option<nat>, size: nat): (r: Polled)
    ensures r.from <= r.to <= size
  {
    var off := if offset == None then size else offset.value;
    var from := if size < off then 0 else off;
    if size == from then Polled(off, from, from) else Polled(size, from, size)
  }

  class RelayWatcher {
    var offsets: map<string, nat>

    constructor ()
      ensures offsets == map[]
    {
      offsets := map[];
    }

    ghost function OffsetOf(path: string): Option<nat>
      reads this
    {
      if path in offsets then Some(offsets[path]) else None
    }

    /** One file's turn in a poll. */
    method PollOne(path: string, content: Bytes, readable: bool) returns (blob: Option<Bytes>)
      modifies this
      ensures var r := PollFile(old(OffsetOf(path)), |content|);
        && offsets == old(offsets)[path := r.offset]
        && blob == if r.from < r.to && readable then Some(content[r.from..r.to]) else None
    {
      var size := |content|;
      var off := size;
      if path in offsets {
        off := offsets[path];
      } else {
        offsets := offsets[path := size];
      }
      if size < off {
        off := 0;
      }
      if size == off {
        return None;
      }
      offsets := offsets[path := size];
      if !readable {
        return None;
      }
      assert content[off..size] == content[off..];
      blob := Some(content[off..]);
    }

    /** poll over the directory; unreadable says which opens fail after the size was taken. */
    method Poll(dir: LogDir, paths: seq<string>, unreadable: set<string>)
        returns (blobs: map<string, Bytes>)
      requires NoRepeat(paths)
      modifies this
      ensures forall p :: p !in paths || p !in dir.files ==> OffsetOf(p) == old(OffsetOf(p)) && p !in blobs
      ensures forall p :: p in paths && p in dir.files ==>
        var r := PollFile(old(OffsetOf(p)), |dir.files[p]|);
        && OffsetOf(p) == Some(r.offset)
        && (p in blobs <==> r.from < r.to && p !in unreadable)
        && (p in blobs ==> blobs[p] == dir.files[p][r.from..r.to])
    {
      hide PollFile;
      blobs := map[];
      var i := 0;
      while i < |paths|
        invariant 0 <= i <= |paths|
        invariant forall p :: p !in paths[..i] || p !in dir.files ==>
          OffsetOf(p) == old(OffsetOf(p)) && p !in blobs
        invariant forall p :: p in paths[..i] && p in dir.files ==>
          var r := PollFile(old(OffsetOf(p)), |dir.files[p]|);
          && OffsetOf(p) == Some(r.offset)
          && (p in blobs <==> r.from < r.to && p !in unreadable)
          && (p in blobs ==> blobs[p] == dir.files[p][r.from..r.to])
      {
        var path := paths[i];
        NextPath(paths, i);
        hide NoRepeat;
        i := i + 1;
        if path !in dir.files {
          continue;
        }
        var blob := PollOne(path, dir.files[path], path !in unreadable);
        if blob.Some? {
          blobs := blobs[path := blob.value];
        }
      }
      assert paths[..i] == paths;
    }
  }

  // ---- One file over every interleaving ----

  datatype Span = Span(lo: nat, hi: nat)

  /** A followed file. Bytes are named by their place in everything ever appended; the file holds
      those from start on. survived counts the truncations each byte came through; mark is how
      far the watcher has got since the last truncation. */
  datatype Followed = Followed(
    history: Bytes, survived: seq<nat>, start: nat,
    offset: Option<nat>, mark: nat, delivered: seq<Span>)

  const UNSEEN := Followed([], [], 0, None, 0, [])

  ghost predicate Valid(f: Followed)
  {
    && f.start <= |f.history| == |f.survived|
    && f.start <= f.mark
    && (f.offset.Some? ==> f.start + f.offset.value >= f.mark)
    && (f.offset.Some? && f.start + f.offset.value > |f.history| ==> f.mark == f.start)
    && (f.offset == None ==> f.mark == f.start)
    && (forall k :: 0 <= k < |f.delivered| ==> f.delivered[k].lo <= f.delivered[k].hi <= |f.history|)
    && (forall i :: 0 <= i < |f.history| ==> DeliveredEnough(f, i))
  }

  function Content(f: Followed): Bytes
    requires f.start <= |f.history|
  {
    f.history[f.start..]
  }

  function Times(spans: seq<Span>, i: nat): nat
  {
    if spans == [] then 0
    else
      Times(spans[..|spans| - 1], i)
      + (if spans[|spans| - 1].lo <= i < spans[|spans| - 1].hi then 1 else 0)
  }

  /** A byte passed since the last truncation may have been delivered once more. */
  ghost predicate DeliveredEnough(f: Followed, i: nat)
    requires i < |f.survived|
  {
    Times(f.delivered, i) <= f.survived[i] + (if f.start <= i && f.mark <= i then 0 else 1)
  }

  datatype Step = Append(data: Bytes) | Truncate(cap: int, keep: int) | Poll(readable: bool)

  /** The kept bytes have survived one more truncation. */
  function Survive(survived: seq<nat>, start: nat): (r: seq<nat>)
    ensures |r| == |survived|
    ensures forall i :: 0 <= i < |r| ==> r[i] == survived[i] + if i >= start then 1 else 0
  {
    seq(|survived|, i requires 0 <= i < |survived| => survived[i] + if i >= start then 1 else 0)
  }

  function Zeros(n: nat): (r: seq<nat>)
    ensures |r| == n && forall i :: 0 <= i < n ==> r[i] == 0
  {
    seq(n, _ => 0)
  }

  function Apply(f: Followed, step: Step): (r: Followed)
    requires f.start <= |f.history| == |f.survived|
    ensures r.start <= |r.history| == |r.survived|
  {
    match step
    case Append(data) =>
      f.(history := f.history + data, survived := f.survived + Zeros(|data|))
    case Truncate(cap, keep) =>
      if cap <= 0 || |Content(f)| <= cap then f
      else
        var start := |f.history| - |Capped(Content(f), cap, keep)|;
        f.(start := start, mark := start, survived := Survive(f.survived, start))
    case Poll(readable) =>
      var r := PollFile(f.offset, |Content(f)|);
      f.(offset := Some(r.offset),
         mark := if r.from < r.to then f.start + r.to else f.mark,
         delivered := if r.from < r.to && readable
                      then f.delivered + [Span(f.start + r.from, f.start + r.to)]
                      else f.delivered)
  }

  /** The file after a truncation is what truncate_oversized leaves. */
  lemma TruncateContent(f: Followed, cap: int, keep: int)
    requires f.start <= |f.history| == |f.survived|
    ensures var f' := Apply(f, Truncate(cap, keep));
      && f.start <= f'.start
      && (cap > 0 && |Content(f)| > cap ==> Content(f') == Capped(Content(f), cap, keep))
      && (cap <= 0 || |Content(f)| <= cap ==> Content(f') == Content(f))
  {
    var c := Content(f);
    if cap > 0 && |c| > cap {
      CappedIsSuffix(c, cap, keep);
      SuffixOfSuffix(f.history, f.start, Capped(c, cap, keep));
      hide Capped, KeepBytes;
    }
  }

  lemma TimesAppend(spans: seq<Span>, s: Span, i: nat)
    ensures Times(spans + [s], i) == Times(spans, i) + (if s.lo <= i < s.hi then 1 else 0)
  {
    assert (spans + [s])[..|spans|] == spans;
  }

  lemma {:induction false} TimesBeyond(spans: seq<Span>, i: nat)
    requires forall k :: 0 <= k < |spans| ==> spans[k].hi <= i
    ensures Times(spans, i) == 0
    decreases |spans|
  {
    if spans != [] {
      TimesBeyond(spans[..|spans| - 1], i);
    }
  }

  lemma AppendKeeps(f: Followed, data: Bytes)
    requires Valid(f)
    ensures Valid(Apply(f, Append(data)))
  {
    var f' := Apply(f, Append(data));
    forall i | 0 <= i < |f'.history| ensures DeliveredEnough(f', i) {
      if i < |f.history| {
        assert DeliveredEnough(f, i);
      } else {
        TimesBeyond(f.delivered, i);
      }
    }
  }

  lemma TruncateKeeps(f: Followed, cap: int, keep: int)
    requires Valid(f)
    ensures Valid(Apply(f, Truncate(cap, keep)))
  {
    TruncateContent(f, cap, keep);
    hide Capped, Content;
    var f' := Apply(f, Truncate(cap, keep));
    forall i | 0 <= i < |f'.history| ensures DeliveredEnough(f', i) {
      assert DeliveredEnough(f, i);
    }
  }

  lemma PollKeeps(f: Followed, readable: bool)
    requires Valid(f)
    ensures Valid(Apply(f, Poll(readable)))
  {
    var f' := Apply(f, Poll(readable));
    var r := PollFile(f.offset, |Content(f)|);
    forall i | 0 <= i < |f'.history| ensures DeliveredEnough(f', i) {
      assert DeliveredEnough(f, i);
      TimesAppend(f.delivered, Span(f.start + r.from, f.start + r.to), i);
    }
  }

  function Run(f: Followed, steps: seq<Step>): (r: Followed)
    requires f.start <= |f.history| == |f.survived|
    ensures r.start <= |r.history| == |r.survived|
    decreases |steps|
  {
    if steps == [] then f else Run(Apply(f, steps[0]), steps[1..])
  }

  lemma {:induction false} RunKeeps(f: Followed, steps: seq<Step>)
    requires Valid(f)
    ensures Valid(Run(f, steps))
    decreases |steps|
  {
    if steps != [] {
      match steps[0] {
        case Append(data) => AppendKeeps(f, data);
        case Truncate(cap, keep) => TruncateKeeps(f, cap, keep);
        case Poll(readable) => PollKeeps(f, readable);
      }
      hide Valid, Apply;
      RunKeeps(Apply(f, steps[0]), steps[1..]);
    }
  }

  /** Over every interleaving, a byte is delivered at most once, plus once for every truncation it
      came through. */
  lemma AtMostOncePerTruncation(steps: seq<Step>, i: nat)
    requires i < |Run(UNSEEN, steps).history|
    ensures var f := Run(UNSEEN, steps);
      Times(f.delivered, i) <= 1 + f.survived[i]
  {
    assert Valid(UNSEEN);
    RunKeeps(UNSEEN, steps);
    hide Run;
    assert DeliveredEnough(Run(UNSEEN, steps), i);
  }

  /** Spans delivered in order, none reaching back over an earlier one or before a mark. */
  ghost predicate Increasing(spans: seq<Span>, from: nat, to: nat)
  {
    && (forall k :: 0 <= k < |spans| ==> from <= spans[k].lo <= spans[k].hi <= to)
    && (forall k, m :: 0 <= k < m < |spans| ==> spans[k].hi <= spans[m].lo)
  }

  lemma IncreasingJoin(a: seq<Span>, b: seq<Span>, from: nat, mid: nat, to: nat)
    requires from <= mid <= to && Increasing(a, from, mid) && Increasing(b, mid, to)
    ensures Increasing(a + b, from, to)
  {
  }

  /** What f' delivered beyond f. */
  ghost predicate Advanced(f: Followed, f': Followed)
  {
    && |f'.delivered| >= |f.delivered| && f'.delivered[..|f.delivered|] == f.delivered
    && f.mark <= f'.mark && f'.start == f.start
    && Increasing(f'.delivered[|f.delivered|..], f.mark, f'.mark)
  }

  lemma AdvancedTwice(f: Followed, g: Followed, h: Followed)
    requires Advanced(f, g) && Advanced(g, h)
    ensures Advanced(f, h)
  {
    var a, b := g.delivered[|f.delivered|..], h.delivered[|g.delivered|..];
    IncreasingJoin(a, b, f.mark, g.mark, h.mark);
    hide Increasing;
    assert h.delivered == g.delivered + b;
    DropAppend(g.delivered, b, |f.delivered|);
  }

  /** Between two truncations the byte ranges delivered are disjoint and increasing, and all
      beyond where the watcher stood. */
  lemma {:induction false} IncreasingBetweenTruncations(f: Followed, steps: seq<Step>)
    requires Valid(f)
    requires forall k :: 0 <= k < |steps| ==> !steps[k].Truncate?
    ensures Advanced(f, Run(f, steps))
    decreases |steps|
  {
    if steps != [] {
      RunKeeps(f, [steps[0]]);
      OneRun(f, steps[0]);
      OneMore(f, steps[0]);
      hide Valid, Apply, Advanced;
      IncreasingBetweenTruncations(Apply(f, steps[0]), steps[1..]);
      AdvancedTwice(f, Apply(f, steps[0]), Run(f, steps));
    }
  }

  lemma OneRun(f: Followed, step: Step)
    requires f.start <= |f.history| == |f.survived|
    ensures Run(f, [step]) == Apply(f, step)
  {
    hide Apply;
    assert [step][1..] == [];
    assert Run(Apply(f, step), []) == Apply(f, step);
  }

  lemma OneMore(f: Followed, step: Step)
    requires Valid(f) && !step.Truncate?
    ensures Advanced(f, Apply(f, step))
  {
  }

  // ---- Without truncations ----

  /** The bytes the watcher was given, in order. */
  function Given(history: Bytes, spans: seq<Span>): Bytes
    requires forall k :: 0 <= k < |spans| ==> spans[k].lo <= spans[k].hi <= |history|
  {
    if spans == [] then []
    else
      var last := spans[|spans| - 1];
      Given(history, spans[..|spans| - 1]) + history[last.lo..last.hi]
  }

  ghost predicate InBounds(f: Followed)
  {
    forall k :: 0 <= k < |f.delivered| ==> f.delivered[k].lo <= f.delivered[k].hi <= |f.history|
  }

  /** A watcher armed when armed bytes had been appended, and since then given all of them up to
      where it now stands. */
  ghost predicate Following(f: Followed, armed: nat)
  {
    && f.start <= |f.history| == |f.survived| && InBounds(f)
    && f.offset.Some?
    && armed <= f.start + f.offset.value <= |f.history|
    && Given(f.history, f.delivered) == f.history[armed..f.start + f.offset.value]
  }

  lemma {:induction false} GivenAppend(history: Bytes, data: Bytes, spans: seq<Span>)
    requires forall k :: 0 <= k < |spans| ==> spans[k].lo <= spans[k].hi <= |history|
    ensures Given(history + data, spans) == Given(history, spans)
    decreases |spans|
  {
    if spans != [] {
      var last := spans[|spans| - 1];
      GivenAppend(history, data, spans[..|spans| - 1]);
      SliceAppend(history, data, last.lo, last.hi);
    }
  }

  lemma FollowAppend(f: Followed, armed: nat, data: Bytes)
    requires Following(f, armed)
    ensures Following(Apply(f, Append(data)), armed)
  {
    GivenAppend(f.history, data, f.delivered);
    SliceAppend(f.history, data, armed, f.start + f.offset.value);
  }

  lemma FollowPoll(f: Followed, armed: nat)
    requires Following(f, armed)
    ensures var f' := Apply(f, Poll(true));
      Following(f', armed) && f'.start + f'.offset.value == |f'.history|
  {
    var f' := Apply(f, Poll(true));
    var size, off := |Content(f)|, f.offset.value;
    if size == off {
      assert f' == f;
    } else {
      assert f' == f.(offset := Some(size), mark := f.start + size,
                      delivered := f.delivered + [Span(f.start + off, f.start + size)]);
      hide Apply;
      FollowMore(f, f', armed, f.start + off);
    }
  }

  /** The rest of the file, delivered. */
  lemma FollowMore(f: Followed, f': Followed, armed: nat, lo: nat)
    requires Following(f, armed) && lo == f.start + f.offset.value <= |f.history|
    requires f'.history == f.history && f'.survived == f.survived && f'.start == f.start
    requires f'.offset.Some? && f'.start + f'.offset.value == |f.history|
    requires f'.delivered == f.delivered + [Span(lo, |f.history|)]
    ensures Following(f', armed)
  {
    hide Given;
    GivenMore(f.history, f.delivered, Span(lo, |f.history|));
    SliceJoin(f.history, armed, lo, |f.history|);
  }

  lemma GivenMore(history: Bytes, spans: seq<Span>, s: Span)
    requires forall k :: 0 <= k < |spans| ==> spans[k].lo <= spans[k].hi <= |history|
    requires s.lo <= s.hi <= |history|
    ensures Given(history, spans + [s]) == Given(history, spans) + history[s.lo..s.hi]
  {
    assert (spans + [s])[..|spans|] == spans;
  }

  lemma SliceJoin(s: Bytes, i: nat, j: nat, k: nat)
    requires i <= j <= k <= |s|
    ensures s[i..j] + s[j..k] == s[i..k]
  {
  }

  ghost predicate Untouched(steps: seq<Step>)
  {
    forall k :: 0 <= k < |steps| ==> steps[k].Append? || steps[k] == Poll(true)
  }

  lemma {:induction false} FollowRun(f: Followed, armed: nat, steps: seq<Step>)
    requires Following(f, armed) && Untouched(steps)
    ensures Following(Run(f, steps), armed)
    decreases |steps|
  {
    if steps != [] {
      if steps[0].Append? {
        FollowAppend(f, armed, steps[0].data);
      } else {
        FollowPoll(f, armed);
      }
      hide Following, Apply;
      FollowRun(Apply(f, steps[0]), armed, steps[1..]);
    }
  }

  /** With no truncation and no failed open after the arming poll: once polled again, the watcher
      has been given exactly what was appended since it was armed, in order, each byte once. */
  lemma ExactlyWhatWasAppended(f: Followed, steps: seq<Step>)
    requires f.start <= |f.history| == |f.survived| && f.offset == None && f.delivered == []
    requires Untouched(steps)
    ensures var f' := Apply(Run(Apply(f, Poll(true)), steps), Poll(true));
      InBounds(f') && |f'.history| >= |f.history|
      && Given(f'.history, f'.delivered) == f'.history[|f.history|..]
  {
    var armed := Apply(f, Poll(true));
    assert Following(armed, |f.history|);
    FollowRun(armed, |f.history|, steps);
    hide Run;
    var g := Run(armed, steps);
    FollowPoll(g, |f.history|);
    var f' := Apply(g, Poll(true));
    assert f'.history[|f.history|..|f'.history|] == f'.history[|f.history|..];
  }
}
