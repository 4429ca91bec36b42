/** Sightings of a running log: the stamps a poll reads, the times they are taken for, and the
    memory they leave. */
module Polls {
  import opened ByteStrings
  import opened Ages

  /** A frame of a device, logged at some second. */
  datatype Frame = Frame(dev: string, time: int)

  /** What the line in the log says of it. */
  datatype Line = Line(dev: string, stamp: Stamp)

  datatype Seen = Seen(dev: string, at: real)

  function Logged(frames: seq<Frame>): (lines: seq<Line>)
    ensures |lines| == |frames|
    ensures forall i :: 0 <= i < |lines| ==>
      lines[i] == Line(frames[i].dev, StampOf(frames[i].time)) && ValidStamp(lines[i].stamp)
  {
    seq(|frames|, i requires 0 <= i < |frames| => Line(frames[i].dev, StampOf(frames[i].time)))
  }

  ghost predicate ValidLines(lines: seq<Line>)
  {
    forall i :: 0 <= i < |lines| ==> ValidStamp(lines[i].stamp)
  }

  /** The times the lines are taken for. */
  function Reconstructed(lines: seq<Line>, now: real): (seen: seq<Seen>)
    requires ValidLines(lines)
    ensures |seen| == |lines|
    ensures forall i :: 0 <= i < |seen| ==>
      seen[i] == Seen(lines[i].dev, SightingEpoch(lines[i].stamp, now) as real)
  {
    seq(|lines|, i requires 0 <= i < |lines| => Seen(lines[i].dev, SightingEpoch(lines[i].stamp, now) as real))
  }

  /** The true ones. */
  function Truly(frames: seq<Frame>): (seen: seq<Seen>)
    ensures |seen| == |frames|
    ensures forall i :: 0 <= i < |seen| ==> seen[i] == Seen(frames[i].dev, frames[i].time as real)
  {
    seq(|frames|, i requires 0 <= i < |frames| => Seen(frames[i].dev, frames[i].time as real))
  }

  /** Every sighting raises its device's entry, from zero when there was none. */
  function Collected(seen: seq<Seen>): Sightings
  {
    if seen == [] then map[]
    else
      var before, s := Collected(seen[..|seen| - 1]), seen[|seen| - 1];
      before[s.dev := Max(s.at, Get(before, s.dev))]
  }

  /** The accumulation of poll. */
  method Collect(lines: seq<Line>, now: real) returns (sightings: Sightings)
    requires ValidLines(lines)
    ensures sightings == Collected(Reconstructed(lines, now))
  {
    sightings := map[];
    ghost var seen := Reconstructed(lines, now);
    var i := 0;
    assert seen[..0] == [];
    hide SightingEpoch;
    while i < |lines|
      invariant 0 <= i <= |lines| && sightings == Collected(seen[..i])
    {
      assert seen[..i + 1][..i] == seen[..i];
      var at := SightingEpoch(lines[i].stamp, now) as real;
      sightings := sightings[lines[i].dev := Max(at, Get(sightings, lines[i].dev))];
      i := i + 1;
    }
    assert seen[..i] == seen;
  }

  /** A device's entry is the maximum of its sightings and zero. */
  lemma {:induction false} CollectedIsMaximum(seen: seq<Seen>, dev: string)
    ensures var c := Collected(seen);
      && (dev in c <==> exists i :: 0 <= i < |seen| && seen[i].dev == dev)
      && (forall i :: 0 <= i < |seen| && seen[i].dev == dev ==> dev in c && seen[i].at <= c[dev])
      && (dev in c ==>
            || c[dev] == 0.0
            || exists i :: 0 <= i < |seen| && seen[i].dev == dev && seen[i].at == c[dev])
    decreases |seen|
  {
    if seen != [] {
      var before, last := seen[..|seen| - 1], seen[|seen| - 1];
      CollectedIsMaximum(before, dev);
      var c := Collected(before);
      if dev in c {
        var i :| 0 <= i < |before| && before[i].dev == dev;
        assert seen[i].dev == dev;
        if c[dev] != 0.0 {
          var k :| 0 <= k < |before| && before[k].dev == dev && before[k].at == c[dev];
          assert seen[k].dev == dev && seen[k].at == c[dev];
        }
      }
      forall i | 0 <= i < |seen| && seen[i].dev == dev
        ensures i == |seen| - 1 || (dev in c && seen[i].at <= c[dev])
      {
        if i < |before| {
          assert before[i] == seen[i];
        }
      }
    }
  }

  /** The frames logged between two polls, as the later one finds them. */
  datatype Poll = Poll(frames: seq<Frame>, devModels: map<string, string>, now: real)

  function ReadPass(p: Poll): Pass
  {
    Pass(p.devModels, Collected(Reconstructed(Logged(p.frames), p.now)), p.now)
  }

  function TruePass(p: Poll): Pass
  {
    Pass(p.devModels, Collected(Truly(p.frames)), p.now)
  }

  function ReadPasses(polls: seq<Poll>): (passes: seq<Pass>)
    ensures |passes| == |polls| && forall i :: 0 <= i < |polls| ==> passes[i] == ReadPass(polls[i])
  {
    seq(|polls|, i requires 0 <= i < |polls| => ReadPass(polls[i]))
  }

  function TruePasses(polls: seq<Poll>): (passes: seq<Pass>)
    ensures |passes| == |polls| && forall i :: 0 <= i < |polls| ==> passes[i] == TruePass(polls[i])
  {
    seq(|polls|, i requires 0 <= i < |polls| => TruePass(polls[i]))
  }

  /** Every frame is read less than 86100 seconds after it was logged. */
  ghost predicate Prompt(p: Poll)
  {
    forall i :: 0 <= i < |p.frames| ==> p.now - 86100.0 < p.frames[i].time as real <= p.now
  }

  lemma PromptIsTrue(p: Poll)
    requires Prompt(p)
    ensures ReadPass(p) == TruePass(p)
  {
    hide SightingEpoch, StampOf, Collected;
    forall i | 0 <= i < |p.frames|
      ensures Reconstructed(Logged(p.frames), p.now)[i] == Truly(p.frames)[i]
    {
      Recovers(p.frames[i].time, p.now);
    }
    assert Reconstructed(Logged(p.frames), p.now) == Truly(p.frames);
  }

  /** From the stamps alone, prompt polls leave the memory that the true times give. */
  lemma PromptPollsRecompute(seed: Sightings, polls: seq<Poll>)
    requires NonNegative(seed) && polls != [] && ClockRuns(TruePasses(polls))
    requires forall k :: 0 <= k < |polls| ==> Prompt(polls[k])
    ensures AfterPasses(seed, ReadPasses(polls))
      == Recomputed(seed, TruePasses(polls), polls[|polls| - 1].now)
  {
    hide ReadPass, Prompt;
    forall k | 0 <= k < |polls| ensures ReadPasses(polls)[k] == TruePasses(polls)[k] {
      PromptIsTrue(polls[k]);
    }
    assert ReadPasses(polls) == TruePasses(polls);
    MemoryIsRecomputed(seed, TruePasses(polls));
    hide AfterPasses, Recomputed;
  }

  /** A frame that counts: one of a device that stayed known from its poll on. */
  ghost predicate Counted(polls: seq<Poll>, dev: string, k: nat, i: nat)
    requires k < |polls| && i < |polls[k].frames|
  {
    && polls[k].frames[i].dev == dev
    && forall m :: k <= m < |polls| ==> Known(polls[m].devModels, dev)
  }

  /** A device in the memory is there with the latest true time of its frames that count, or of the
      seed. */
  lemma LatestTrueTime(seed: Sightings, polls: seq<Poll>, dev: string)
    requires NonNegative(seed) && polls != [] && ClockRuns(TruePasses(polls))
    requires forall k :: 0 <= k < |polls| ==> Prompt(polls[k])
    requires dev in AfterPasses(seed, ReadPasses(polls))
    ensures var at := AfterPasses(seed, ReadPasses(polls))[dev];
      && (forall k, i :: 0 <= k < |polls| && 0 <= i < |polls[k].frames| && Counted(polls, dev, k, i) ==>
            polls[k].frames[i].time as real <= at)
      && (|| at == 0.0
          || (dev in seed && at == seed[dev])
          || exists k, i :: 0 <= k < |polls| && 0 <= i < |polls[k].frames| && Counted(polls, dev, k, i)
                            && polls[k].frames[i].time as real == at)
  {
    var passes := TruePasses(polls);
    PromptPollsRecompute(seed, polls);
    BestIsMaximum(seed, passes, dev);
    var at := Best(seed, passes, dev).value;
    assert AfterPasses(seed, ReadPasses(polls))[dev] == at;
    hide AfterPasses, ReadPasses, Best, Prompt, ClockRuns;
    forall k, i | 0 <= k < |polls| && 0 <= i < |polls[k].frames| && Counted(polls, dev, k, i)
      ensures polls[k].frames[i].time as real <= at
    {
      FrameCounts(seed, polls, dev, k, i);
    }
    if at != 0.0 {
      var k :| -1 <= k < |passes| && Counts(seed, passes, dev, k) && SightingAt(seed, passes, dev, k) == at;
      if k >= 0 {
        var i := FrameOf(seed, polls, dev, k);
        assert Counted(polls, dev, k, i);
      }
    }
  }

  lemma FrameCounts(seed: Sightings, polls: seq<Poll>, dev: string, k: nat, i: nat)
    requires k < |polls| && i < |polls[k].frames| && Counted(polls, dev, k, i)
    ensures Counts(seed, TruePasses(polls), dev, k)
    ensures polls[k].frames[i].time as real <= SightingAt(seed, TruePasses(polls), dev, k)
  {
    CollectedIsMaximum(Truly(polls[k].frames), dev);
    hide Collected, Known;
    assert Truly(polls[k].frames)[i].dev == dev;
  }

  lemma FrameOf(seed: Sightings, polls: seq<Poll>, dev: string, k: nat) returns (i: nat)
    requires k < |polls| && Counts(seed, TruePasses(polls), dev, k)
    requires SightingAt(seed, TruePasses(polls), dev, k) != 0.0
    ensures i < |polls[k].frames| && Counted(polls, dev, k, i)
    ensures polls[k].frames[i].time as real == SightingAt(seed, TruePasses(polls), dev, k)
  {
    var seen := Truly(polls[k].frames);
    CollectedIsMaximum(seen, dev);
    hide Collected;
    i :| 0 <= i < |seen| && seen[i].dev == dev && seen[i].at == Collected(seen)[dev];
    forall m | k <= m < |polls| ensures Known(polls[m].devModels, dev) {
      assert TruePasses(polls)[m].devModels == polls[m].devModels;
    }
  }
}
