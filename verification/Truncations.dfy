/** What truncations and failed opens do to a watcher that should process every line once: when a
    poll repeats bytes, when it skips some, and when it does neither. */
module Truncations {
  import opened ByteStrings
  import opened LogFollow

  // ---- When a step repeats or skips bytes ----

  /** Armed when armed bytes had been appended, the watcher was given each byte from there up to
      reach once, and no other. */
  ghost predicate Exact(f: Followed, armed: nat, reach: nat)
  {
    && f.start <= |f.history| == |f.survived|
    && f.offset.Some? && armed <= reach <= |f.history|
    && (forall i: nat :: Times(f.delivered, i) == if armed <= i < reach then 1 else 0)
  }

  /** Where a poll starts to read: at the top of a file that is shorter than the offset. */
  function ReadsFrom(f: Followed): nat
    requires f.start <= |f.history| && f.offset.Some?
  {
    if |f.history| - f.start < f.offset.value then f.start else f.start + f.offset.value
  }

  lemma TimesAfterPoll(f: Followed, readable: bool, i: nat)
    requires f.start <= |f.history| == |f.survived| && f.offset.Some?
    ensures ReadsFrom(f) <= |f.history|
    ensures var f' := Apply(f, Poll(readable));
      && f'.history == f.history && f'.survived == f.survived && f'.start == f.start && f'.offset.Some?
      && Times(f'.delivered, i)
         == Times(f.delivered, i) + if readable && ReadsFrom(f) <= i < |f.history| then 1 else 0
  {
    var r := PollFile(f.offset, |Content(f)|);
    hide Times;
    TimesAppend(f.delivered, Span(f.start + r.from, f.start + r.to), i);
  }

  /** A poll of a watcher that has been exact so far stays exact, and is up to date, if and only if
      it reads from just where the last delivery ended, or cannot read and has nothing to. */
  lemma PollExactIff(f: Followed, armed: nat, reach: nat, readable: bool)
    requires Exact(f, armed, reach)
    ensures Exact(Apply(f, Poll(readable)), armed, |f.history|)
      <==> if readable then ReadsFrom(f) == reach else reach == |f.history|
  {
    var f' := Apply(f, Poll(readable));
    forall i: nat ensures Times(f'.delivered, i)
      == (if armed <= i < reach then 1 else 0) + if readable && ReadsFrom(f) <= i < |f.history| then 1 else 0
    {
      TimesAfterPoll(f, readable, i);
    }
    TimesAfterPoll(f, readable, 0);
    hide Apply, ReadsFrom, Times;
    if Exact(f', armed, |f.history|) {
      assert reach < |f.history| ==> Times(f'.delivered, reach) == 1;
      assert ReadsFrom(f) < |f.history| ==> Times(f'.delivered, ReadsFrom(f)) <= 1;
    }
  }

  /** It gives a byte a second time exactly when it reads from before the end of the last
      delivery, some of which comes after the arming. */
  lemma PollRepeatsIff(f: Followed, armed: nat, reach: nat, readable: bool)
    requires Exact(f, armed, reach)
    ensures (exists i: nat :: Times(Apply(f, Poll(readable)).delivered, i) >= 2)
      <==> readable && ReadsFrom(f) < reach && armed < reach
  {
    var f' := Apply(f, Poll(readable));
    forall i: nat ensures Times(f'.delivered, i)
      == (if armed <= i < reach then 1 else 0) + if readable && ReadsFrom(f) <= i < |f.history| then 1 else 0
    {
      TimesAfterPoll(f, readable, i);
    }
    hide Apply, ReadsFrom, Times;
    if readable && ReadsFrom(f) < reach && armed < reach {
      assert Times(f'.delivered, reach - 1) == 2;
    }
  }

  /** It leaves out a byte exactly when there are new ones and it reads from after the first of
      them, or cannot read. */
  lemma PollSkipsIff(f: Followed, armed: nat, reach: nat, readable: bool)
    requires Exact(f, armed, reach)
    ensures (exists i: nat :: armed <= i < |f.history| && Times(Apply(f, Poll(readable)).delivered, i) == 0)
      <==> reach < |f.history| && (!readable || reach < ReadsFrom(f))
  {
    var f' := Apply(f, Poll(readable));
    forall i: nat ensures Times(f'.delivered, i)
      == (if armed <= i < reach then 1 else 0) + if readable && ReadsFrom(f) <= i < |f.history| then 1 else 0
    {
      TimesAfterPoll(f, readable, i);
    }
    hide Apply, ReadsFrom, Times;
    if reach < |f.history| && (!readable || reach < ReadsFrom(f)) {
      assert Times(f'.delivered, reach) == 0;
    }
  }

  /** What is cut away is never delivered any more. */
  lemma {:induction false} GoneForGood(f: Followed, steps: seq<Step>, i: nat)
    requires f.start <= |f.history| == |f.survived| && i < f.start
    ensures Times(Run(f, steps).delivered, i) == Times(f.delivered, i)
    decreases |steps|
  {
    if steps != [] {
      GoneStep(f, steps[0], i);
      hide Apply, Times;
      GoneForGood(Apply(f, steps[0]), steps[1..], i);
    }
  }

  lemma GoneStep(f: Followed, step: Step, i: nat)
    requires f.start <= |f.history| == |f.survived| && i < f.start
    ensures var f' := Apply(f, step);
      i < f'.start && Times(f'.delivered, i) == Times(f.delivered, i)
  {
    hide Times, Capped;
    match step
    case Append(_) =>
    case Truncate(cap, keep) => TruncateContent(f, cap, keep);
    case Poll(readable) =>
      var r := PollFile(f.offset, |Content(f)|);
      TimesAppend(f.delivered, Span(f.start + r.from, f.start + r.to), i);
  }

  /** Whatever follows, this byte is not delivered. */
  ghost predicate NeverDelivered(f: Followed, i: nat)
    requires f.start <= |f.history| == |f.survived|
  {
    forall steps :: Times(Run(f, steps).delivered, i) == 0
  }

  /** A truncation loses bytes for good exactly when what it leaves starts after the end of the
      last delivery. */
  lemma TruncateLosesIff(f: Followed, armed: nat, reach: nat, cap: int, keep: int)
    requires Exact(f, armed, reach)
    ensures var g := Apply(f, Truncate(cap, keep));
      (exists i: nat :: armed <= i < g.start && NeverDelivered(g, i)) <==> reach < g.start
  {
    var g := Apply(f, Truncate(cap, keep));
    assert g.delivered == f.delivered;
    hide Apply, Times;
    if reach < g.start {
      forall steps ensures Times(Run(g, steps).delivered, reach) == 0 {
        GoneForGood(g, steps, reach);
      }
      assert NeverDelivered(g, reach);
    }
    forall i: nat | armed <= i < g.start && NeverDelivered(g, i) ensures reach < g.start {
      assert Run(g, []) == g;
      assert Times(Run(g, []).delivered, i) == 0;
    }
  }

  /** A real truncation between two polls does no harm exactly when it leaves only bytes not
      delivered yet, and all of them, and the file is polled again before it has grown back to the
      old offset. */
  lemma TruncationHarmlessIff(f: Followed, armed: nat, reach: nat, cap: int, keep: int, data: Bytes)
    requires Exact(f, armed, reach) && f.start + f.offset.value == reach
    requires f.start < Apply(f, Truncate(cap, keep)).start
    ensures var g := Apply(f, Truncate(cap, keep));
      var h := Apply(g, Append(data));
      Exact(Apply(h, Poll(true)), armed, |h.history|)
      <==> g.start == reach && |h.history| - g.start < f.offset.value
  {
    var g := Apply(f, Truncate(cap, keep));
    var h := Apply(g, Append(data));
    assert g.delivered == f.delivered && h.delivered == f.delivered && h.start == g.start;
    assert h.offset == f.offset && |h.history| == |f.history| + |data|;
    assert |h.survived| == |h.history|;
    hide Apply, Times;
    PollExactIff(h, armed, reach, true);
  }

  /** The guard of each poll: with the end of the last delivery known, as it is the file's size at
      the last poll, the state before the poll decides. */
  predicate Guarded(f: Followed, reach: nat, steps: seq<Step>)
    requires f.start <= |f.history| == |f.survived| && f.offset.Some?
    decreases |steps|
  {
    steps == []
    || (if steps[0].Poll? then
          (if steps[0].readable then ReadsFrom(f) == reach else reach == |f.history|)
          && Guarded(Apply(f, steps[0]), |f.history|, steps[1..])
        else Guarded(Apply(f, steps[0]), reach, steps[1..]))
  }

  /** After every poll of a run, the watcher was given exactly what was appended until then. */
  ghost predicate ExactThroughout(f: Followed, armed: nat, steps: seq<Step>)
    requires f.start <= |f.history| == |f.survived|
    decreases |steps|
  {
    steps == []
    || ((steps[0].Poll? ==> Exact(Apply(f, steps[0]), armed, |f.history|))
        && ExactThroughout(Apply(f, steps[0]), armed, steps[1..]))
  }

  lemma ExactOtherwise(f: Followed, armed: nat, reach: nat, step: Step)
    requires Exact(f, armed, reach) && !step.Poll?
    ensures Exact(Apply(f, step), armed, reach)
  {
    hide Times;
  }

  /** Every line is processed exactly once, throughout a run of appends, truncations and polls, if
      and only if every poll meets its guard. */
  lemma {:induction false} ExactThroughoutIff(f: Followed, armed: nat, reach: nat, steps: seq<Step>)
    requires Exact(f, armed, reach)
    ensures ExactThroughout(f, armed, steps) <==> Guarded(f, reach, steps)
    decreases |steps|
  {
    if steps != [] {
      if steps[0].Poll? {
        PollExactIff(f, armed, reach, steps[0].readable);
        hide Exact, Apply, ReadsFrom;
        if Exact(Apply(f, steps[0]), armed, |f.history|) {
          ExactThroughoutIff(Apply(f, steps[0]), armed, |f.history|, steps[1..]);
        }
      } else {
        ExactOtherwise(f, armed, reach, steps[0]);
        hide Exact, Apply, ReadsFrom;
        ExactThroughoutIff(Apply(f, steps[0]), armed, reach, steps[1..]);
      }
    }
  }

  // ---- It does happen ----

  /** A file that is armed, grows by two bytes and is polled. */
  function TwoBytesRead(): Followed
  {
    Apply(Apply(Apply(UNSEEN, Poll(true)), Append([65, 66])), Poll(true))
  }

  lemma TwoBytes()
    ensures var f := TwoBytesRead();
      && Exact(f, 0, 2) && f.history == [65, 66] && f.start == 0 && f.offset == Some(2)
    ensures Apply(TwoBytesRead(), Truncate(1, 1)).start == 1
  {
    var a := Apply(UNSEEN, Poll(true));
    assert a.delivered == [] && a.offset == Some(0);
    assert Exact(a, 0, 0);
    var b := Apply(a, Append([65, 66]));
    assert b.history == [65, 66] && b.delivered == [];
    PollExactIff(b, 0, 0, true);
    assert [65, 66][1..] == [66];
    assert FindNewline([66]) == None by { FirstNewline([66]); }
    assert Capped([65, 66], 1, 1) == [66];
    assert Content(TwoBytesRead()) == [65, 66];
  }

  /** A kept byte, delivered again. */
  lemma KeptByteRepeated()
    ensures Times(Apply(Apply(TwoBytesRead(), Truncate(1, 1)), Poll(true)).delivered, 1) == 2
  {
    TwoBytes();
    hide Capped, TwoBytesRead;
    var f := Apply(TwoBytesRead(), Truncate(1, 1));
    TimesAfterPoll(f, true, 1);
  }

  /** The offset outlives the truncation: the byte appended then is taken for the one cut away. */
  lemma NewByteSkipped()
    ensures var f := Apply(Apply(Apply(TwoBytesRead(), Truncate(1, 1)), Append([67])), Poll(true));
      f.history == [65, 66, 67] && Times(f.delivered, 2) == 0 && f.start + f.offset.value == 3
  {
    TwoBytes();
    hide Capped, TwoBytesRead;
    var f := Apply(Apply(TwoBytesRead(), Truncate(1, 1)), Append([67]));
    TimesAfterPoll(f, true, 2);
  }

  /** An open that fails after the size was taken: its bytes are behind the offset. */
  lemma UnreadableSkipped()
    ensures var f := Apply(Apply(TwoBytesRead(), Append([67])), Poll(false));
      f.history == [65, 66, 67] && Times(f.delivered, 2) == 0 && f.start + f.offset.value == 3
  {
    TwoBytes();
    hide TwoBytesRead;
    var f := Apply(TwoBytesRead(), Append([67]));
    TimesAfterPoll(f, false, 2);
  }

  // ---- Both processes on one file ----

  lemma {:induction false} RunMore(f: Followed, steps: seq<Step>, step: Step)
    requires f.start <= |f.history| == |f.survived|
    ensures Run(f, steps + [step]) == Apply(Run(f, steps), step)
    decreases |steps|
  {
    hide Apply;
    if steps == [] {
      assert (steps + [step])[0] == step && (steps + [step])[1..] == [];
      OneRun(f, step);
      assert steps + [step] == [step];
    } else {
      assert (steps + [step])[0] == steps[0] && (steps + [step])[1..] == steps[1..] + [step];
      RunMore(Apply(f, steps[0]), steps[1..], step);
    }
  }

  /** The blobs the watcher was given, against the spans of the history. */
  ghost predicate Blobs(f: Followed, blobs: seq<Bytes>)
  {
    InBounds(f) && |blobs| == |f.delivered|
    && forall k :: 0 <= k < |blobs| ==> blobs[k] == f.history[f.delivered[k].lo..f.delivered[k].hi]
  }

  lemma BlobsAppend(f: Followed, blobs: seq<Bytes>, data: Bytes)
    requires Blobs(f, blobs) && f.start <= |f.history| == |f.survived|
    ensures var f' := Apply(f, Append(data));
      Blobs(f', blobs) && Content(f') == Content(f) + data && f'.offset == f.offset
  {
    forall k | 0 <= k < |blobs|
      ensures (f.history + data)[f.delivered[k].lo..f.delivered[k].hi] == blobs[k]
    {
      SliceAppend(f.history, data, f.delivered[k].lo, f.delivered[k].hi);
    }
    DropAppend(f.history, data, f.start);
  }

  lemma BlobsPoll(f: Followed, blobs: seq<Bytes>, readable: bool)
    requires Blobs(f, blobs) && f.start <= |f.history| == |f.survived|
    ensures var f' := Apply(f, Poll(readable));
      var r := PollFile(f.offset, |Content(f)|);
      && Content(f') == Content(f) && f'.offset == Some(r.offset)
      && Blobs(f', if r.from < r.to && readable then blobs + [Content(f)[r.from..r.to]] else blobs)
  {
    var r := PollFile(f.offset, |Content(f)|);
    SliceOfDrop(f.history, f.start, r.from, r.to);
    var f' := Apply(f, Poll(readable));
    assert f'.delivered == if r.from < r.to && readable
                           then f.delivered + [Span(f.start + r.from, f.start + r.to)] else f.delivered;
    assert f'.history == f.history && f'.start == f.start && f'.offset == Some(r.offset);
    hide Apply, PollFile;
  }

  lemma SliceOfDrop(s: Bytes, i: nat, j: nat, k: nat)
    requires j <= k && i + k <= |s|
    ensures s[i..][j..k] == s[i + j..i + k]
  {
  }

  lemma BlobsTruncate(f: Followed, blobs: seq<Bytes>, cap: int, keep: int)
    requires Blobs(f, blobs) && f.start <= |f.history| == |f.survived|
    ensures var f' := Apply(f, Truncate(cap, keep)); Blobs(f', blobs) && f'.offset == f.offset
  {
    hide Capped, Content;
  }

  /** The cap's turn. */
  method TakeTruncate(dir: LogDir, path: string, cap: int, keep: int)
    requires dir.files.Keys == {path}
    modifies dir
    ensures var content := old(dir.files[path]);
      dir.files == map[path := if cap > 0 && |content| > cap then Capped(content, cap, keep) else content]
  {
    hide Capped;
    var truncated := dir.TruncateOversized([path], cap, keep);
    assert path in dir.files;
  }

  /** The watcher's turn. */
  method TakePoll(dir: LogDir, watcher: RelayWatcher, path: string, readable: bool, blobs0: seq<Bytes>,
                  ghost f: Followed)
      returns (blobs: seq<Bytes>)
    requires f.start <= |f.history| == |f.survived|
    requires dir.files == map[path := Content(f)]
    requires watcher.OffsetOf(path) == f.offset && Blobs(f, blobs0)
    modifies watcher
    ensures var f' := Apply(f, Poll(readable));
      Content(f') == Content(f) && watcher.OffsetOf(path) == f'.offset && Blobs(f', blobs)
  {
    BlobsPoll(f, blobs0, readable);
    hide Apply, Content, Blobs, PollFile;
    blobs := blobs0;
    var polled := watcher.Poll(dir, [path], if readable then {} else {path});
    if path in polled {
      blobs := blobs + [polled[path]];
    }
  }

  /** One step of one of the processes. */
  method TakeStep(dir: LogDir, watcher: RelayWatcher, path: string, blobs0: seq<Bytes>, ghost f: Followed, step: Step)
      returns (blobs: seq<Bytes>)
    requires f.start <= |f.history| == |f.survived|
    requires dir.files == map[path := Content(f)]
    requires watcher.OffsetOf(path) == f.offset && Blobs(f, blobs0)
    modifies dir, watcher
    ensures var f' := Apply(f, step);
      && dir.files == map[path := Content(f')]
      && watcher.OffsetOf(path) == f'.offset && Blobs(f', blobs)
  {
    blobs := blobs0;
    hide Blobs, Content, Apply, Capped, PollFile;
    match step
    case Append(data) =>
      BlobsAppend(f, blobs, data);
      dir.Append(path, data);
    case Truncate(cap, keep) =>
      BlobsTruncate(f, blobs, cap, keep);
      TruncateContent(f, cap, keep);
      TakeTruncate(dir, path, cap, keep);
    case Poll(readable) =>
      blobs := TakePoll(dir, watcher, path, readable, blobs, f);
  }

  /** The relay, the cap and the watcher on one file, in any order: the file, the offset and the
      blobs are those of the run. */
  method FollowFile(path: string, steps: seq<Step>)
      returns (dir: LogDir, watcher: RelayWatcher, blobs: seq<Bytes>)
    ensures var f := Run(UNSEEN, steps);
      && dir.files == map[path := Content(f)]
      && watcher.OffsetOf(path) == f.offset
      && Blobs(f, blobs)
  {
    dir := new LogDir();
    watcher := new RelayWatcher();
    dir.Append(path, []);
    blobs := [];
    ghost var f := UNSEEN;
    var i := 0;
    assert steps[..0] == [] && [] + [] == Content(f);
    hide Blobs, Content, Apply;
    while i < |steps|
      invariant 0 <= i <= |steps|
      invariant f.start <= |f.history| == |f.survived| && f == Run(UNSEEN, steps[..i])
      invariant dir.files == map[path := Content(f)]
      invariant watcher.OffsetOf(path) == f.offset && Blobs(f, blobs)
    {
      RunMore(UNSEEN, steps[..i], steps[i]);
      assert steps[..i + 1] == steps[..i] + [steps[i]];
      blobs := TakeStep(dir, watcher, path, blobs, f, steps[i]);
      f := Apply(f, steps[i]);
      i := i + 1;
    }
    assert steps[..i] == steps;
  }
}
