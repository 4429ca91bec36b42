/** Last-frame ages: date-less stamps turned back into times, a memory of the latest sightings
    that forgets the old ones, and the age published for each model. */
module Ages {
  import opened ByteStrings

  const DAY := 86400
  const MAX_MEMORY_AGE := 604800.0

  // ---- Stamps ----

  /** HH:MM:SS of a day that the log does not name. */
  datatype Stamp = Stamp(hh: nat, mm: nat, ss: nat)

  predicate ValidStamp(s: Stamp)
  {
    s.hh < 24 && s.mm < 60 && s.ss < 60
  }

  function SecondOfDay(s: Stamp): nat
  {
    s.hh * 3600 + s.mm * 60 + s.ss
  }

  /** The stamp the relay writes at second t, in UTC. */
  function StampOf(t: int): (s: Stamp)
    ensures ValidStamp(s) && SecondOfDay(s) == t % DAY
  {
    var second := t % DAY;
    Stamp(second / 3600, second % 3600 / 60, second % 60)
  }

  /** The first second of the UTC day that now is in. */
  function Midnight(now: real): (m: int)
    ensures m as real <= now < (m + DAY) as real && m % DAY == 0
  {
    now.Floor / DAY * DAY
  }

  /** _sighting_epoch: today at that time, or yesterday when that is over five minutes ahead. */
  function SightingEpoch(s: Stamp, now: real): int
    requires ValidStamp(s)
  {
    var cand := Midnight(now) + SecondOfDay(s);
    if cand as real > now + 300.0 then cand - DAY else cand
  }

  /** The reconstructed time is never over a day old, nor over five minutes ahead. */
  lemma EpochRange(s: Stamp, now: real)
    requires ValidStamp(s)
    ensures now - 86400.0 < SightingEpoch(s, now) as real <= now + 300.0
  {
    var m := Midnight(now);
    assert (m + DAY) as real == m as real + 86400.0;
  }

  /** A true time comes back exactly when it is of today and at most five minutes ahead, or of
      yesterday and less than 86100 seconds ago. */
  lemma RecoversIff(t: int, now: real)
    ensures SightingEpoch(StampOf(t), now) == t
      <==> || (Midnight(now) <= t < Midnight(now) + DAY && t as real <= now + 300.0)
           || (Midnight(now) - DAY <= t < Midnight(now) && t as real > now - 86100.0)
  {
    var m := Midnight(now);
    SameDay(t, m);
    assert (m + t % DAY) as real - 86400.0 == (m + t % DAY - DAY) as real;
  }

  /** Times in the window keep their second of the day. */
  lemma SameDay(t: int, m: int)
    requires m % DAY == 0
    ensures m <= t < m + DAY ==> t == m + t % DAY
    ensures m - DAY <= t < m ==> t == m + t % DAY - DAY
  {
    var d := t / DAY;
    assert t == d * DAY + t % DAY;
    assert m == m / DAY * DAY;
  }

  lemma Recovers(t: int, now: real)
    requires now - 86100.0 < t as real <= now
    ensures SightingEpoch(StampOf(t), now) == t
  {
    RecoversIff(t, now);
    assert (Midnight(now) + DAY) as real == Midnight(now) as real + 86400.0;
    assert (Midnight(now) - DAY) as real == Midnight(now) as real - 86400.0;
  }

  /** Both ways to miss: midnight, read half a second before it, and a time 86200 seconds old. */
  lemma StampsMisread()
    ensures SightingEpoch(StampOf(86400), 86399.5) == 0
    ensures SightingEpoch(StampOf(13800), 100000.0) == 100200
  {
    assert (86399.5).Floor == 86399 && (100000.0).Floor == 100000;
    assert Midnight(86399.5) == 0 && Midnight(100000.0) == 86400;
    assert SecondOfDay(StampOf(86400)) == 0 && SecondOfDay(StampOf(13800)) == 13800;
    hide Midnight, StampOf, SecondOfDay;
  }

  // ---- The memory ----

  type Sightings = map<string, real>

  function Max(a: real, b: real): (r: real)
    ensures r >= a && r >= b && (r == a || r == b)
  {
    if a >= b then a else b
  }

  function Get(m: Sightings, dev: string): real
  {
    if dev in m then m[dev] else 0.0
  }

  /** Every sighting raises its device's entry, from zero when there was none. */
  function Merge(memory: Sightings, sightings: Sightings): Sightings
  {
    map dev | dev in memory.Keys + sightings.Keys ::
      if dev in sightings then Max(sightings[dev], Get(memory, dev)) else memory[dev]
  }

  /** A device the map names a model for. */
  predicate Known(devModels: map<string, string>, dev: string)
  {
    dev in devModels && devModels[dev] != ""
  }

  function Prune(memory: Sightings, devModels: map<string, string>, now: real): Sightings
  {
    map dev | dev in memory && Known(devModels, dev) && now - memory[dev] <= MAX_MEMORY_AGE :: memory[dev]
  }

  datatype Pass = Pass(devModels: map<string, string>, sightings: Sightings, now: real)

  function AfterPass(memory: Sightings, p: Pass): Sightings
  {
    Prune(Merge(memory, p.sightings), p.devModels, p.now)
  }

  function AfterPasses(seed: Sightings, passes: seq<Pass>): Sightings
  {
    if passes == [] then seed
    else AfterPass(AfterPasses(seed, passes[..|passes| - 1]), passes[|passes| - 1])
  }

  /** The latest sighting of a device, in all passes since the last one at which it was unknown. */
  function Best(seed: Sightings, passes: seq<Pass>, dev: string): Option<real>
  {
    if passes == [] then (if dev in seed then Some(seed[dev]) else None)
    else
      var before := Best(seed, passes[..|passes| - 1], dev);
      var p := passes[|passes| - 1];
      if !Known(p.devModels, dev) then None
      else if dev !in p.sightings then before
      else Some(Max(p.sightings[dev], if before.Some? then before.value else 0.0))
  }

  ghost predicate ClockRuns(passes: seq<Pass>)
  {
    forall i, j :: 0 <= i < j < |passes| ==> passes[i].now <= passes[j].now
  }

  ghost predicate NonNegative(s: Sightings)
  {
    forall dev :: dev in s ==> s[dev] >= 0.0
  }

  /** The k-th sighting of a device counts when the device was known from that pass on; -1 is the
      seed. */
  ghost predicate Counts(seed: Sightings, passes: seq<Pass>, dev: string, k: int)
    requires -1 <= k < |passes|
  {
    && (if k == -1 then dev in seed else dev in passes[k].sightings)
    && forall i :: 0 <= i < |passes| && k <= i ==>
         dev in passes[i].devModels && passes[i].devModels[dev] != ""
  }

  function SightingAt(seed: Sightings, passes: seq<Pass>, dev: string, k: int): real
    requires -1 <= k < |passes|
    requires if k == -1 then dev in seed else dev in passes[k].sightings
  {
    if k == -1 then seed[dev] else passes[k].sightings[dev]
  }

  lemma CountsStep(seed: Sightings, passes: seq<Pass>, dev: string, k: int)
    requires passes != [] && -1 <= k < |passes|
    ensures var before, p := passes[..|passes| - 1], passes[|passes| - 1];
      if k == |before| then Counts(seed, passes, dev, k) <==> dev in p.sightings && Known(p.devModels, dev)
      else Counts(seed, passes, dev, k) <==> Counts(seed, before, dev, k) && Known(p.devModels, dev)
  {
    var before := passes[..|passes| - 1];
    assert forall i :: 0 <= i < |before| ==> before[i] == passes[i];
  }

  /** It is the maximum of the sightings that count, and never below zero once there was one. */
  lemma {:induction false} BestIsMaximum(seed: Sightings, passes: seq<Pass>, dev: string)
    ensures var best := Best(seed, passes, dev);
      && (best.Some? <==> exists k :: -1 <= k < |passes| && Counts(seed, passes, dev, k))
      && (forall k :: best.Some? && -1 <= k < |passes| && Counts(seed, passes, dev, k) ==>
            SightingAt(seed, passes, dev, k) <= best.value)
      && (best.Some? ==>
            || best.value == 0.0
            || exists k :: -1 <= k < |passes| && Counts(seed, passes, dev, k)
                           && SightingAt(seed, passes, dev, k) == best.value)
    decreases |passes|
  {
    if passes == [] {
      assert dev in seed ==> Counts(seed, passes, dev, -1);
    } else {
      var before, last := passes[..|passes| - 1], |passes| - 1;
      BestIsMaximum(seed, before, dev);
      var known := Known(passes[last].devModels, dev);
      forall k | -1 <= k < |passes|
        ensures Counts(seed, passes, dev, k)
          <==> known && if k == last then dev in passes[last].sightings else Counts(seed, before, dev, k)
        ensures k < last && Counts(seed, before, dev, k) ==>
          SightingAt(seed, passes, dev, k) == SightingAt(seed, before, dev, k)
      {
        CountsStep(seed, passes, dev, k);
      }
      BestStep(seed, passes, dev);
      var earlier := Best(seed, before, dev);
      hide Known, Best;
      if known && earlier.Some? {
        var k :| -1 <= k < |before| && Counts(seed, before, dev, k);
        assert Counts(seed, passes, dev, k);
        if earlier.value != 0.0 {
          var m :| -1 <= m < |before| && Counts(seed, before, dev, m)
                   && SightingAt(seed, before, dev, m) == earlier.value;
          assert Counts(seed, passes, dev, m);
        }
      }
      assert known && dev in passes[last].sightings ==> Counts(seed, passes, dev, last);
    }
  }

  lemma BestStep(seed: Sightings, passes: seq<Pass>, dev: string)
    requires passes != []
    ensures var before := Best(seed, passes[..|passes| - 1], dev);
      var p := passes[|passes| - 1];
      Best(seed, passes, dev)
        == if !Known(p.devModels, dev) then None
           else if dev !in p.sightings then before
           else Some(Max(p.sightings[dev], if before.Some? then before.value else 0.0))
  {
  }

  lemma {:induction false} BestNonNegative(seed: Sightings, passes: seq<Pass>, dev: string)
    requires NonNegative(seed)
    ensures Best(seed, passes, dev).Some? ==> Best(seed, passes, dev).value >= 0.0
    decreases |passes|
  {
    if passes != [] {
      BestNonNegative(seed, passes[..|passes| - 1], dev);
    }
  }

  /** The memory forgets and merges its way through the passes, and still holds what the whole
      history says: the latest sighting of a device since it is known, while that is at most seven
      days old, and nothing once it is older. */
  lemma {:induction false} MemoryIsHistory(seed: Sightings, passes: seq<Pass>, dev: string)
    requires NonNegative(seed)
    requires passes != [] && ClockRuns(passes)
    ensures var memory := AfterPasses(seed, passes);
      var best := Best(seed, passes, dev);
      && (dev in memory <==>
            best.Some? && passes[|passes| - 1].now - best.value <= 604800.0)
      && (dev in memory ==> memory[dev] == best.value)
    decreases |passes|
  {
    var before, p := passes[..|passes| - 1], passes[|passes| - 1];
    BestNonNegative(seed, before, dev);
    BestStep(seed, passes, dev);
    MemoryStep(seed, passes);
    if before != [] {
      assert before[|before| - 1] == passes[|passes| - 2];
      MemoryIsHistory(seed, before, dev);
    }
    hide AfterPasses, Best, Known;
  }

  lemma MemoryStep(seed: Sightings, passes: seq<Pass>)
    requires passes != []
    ensures AfterPasses(seed, passes)
      == AfterPass(AfterPasses(seed, passes[..|passes| - 1]), passes[|passes| - 1])
    ensures passes[..|passes| - 1] == [] ==> AfterPasses(seed, passes[..|passes| - 1]) == seed
  {
  }

  /** Everyone ever sighted. */
  function Everyone(seed: Sightings, passes: seq<Pass>): set<string>
  {
    if passes == [] then seed.Keys
    else Everyone(seed, passes[..|passes| - 1]) + passes[|passes| - 1].sightings.Keys
  }

  lemma {:induction false} BestIsOfSomeone(seed: Sightings, passes: seq<Pass>, dev: string)
    ensures Best(seed, passes, dev).Some? ==> dev in Everyone(seed, passes)
    decreases |passes|
  {
    if passes != [] {
      BestIsOfSomeone(seed, passes[..|passes| - 1], dev);
    }
  }

  /** The memory a process with the whole history at hand would compute at a time. */
  function Recomputed(seed: Sightings, passes: seq<Pass>, now: real): Sightings
  {
    map dev | dev in Everyone(seed, passes)
              && Best(seed, passes, dev).Some? && now - Best(seed, passes, dev).value <= MAX_MEMORY_AGE
      :: Best(seed, passes, dev).value
  }

  /** The memory is the recomputed one, entry for entry, whatever the device map does. */
  lemma MemoryIsRecomputed(seed: Sightings, passes: seq<Pass>)
    requires NonNegative(seed)
    requires passes != [] && ClockRuns(passes)
    ensures AfterPasses(seed, passes) == Recomputed(seed, passes, passes[|passes| - 1].now)
  {
    var memory, all := AfterPasses(seed, passes), Recomputed(seed, passes, passes[|passes| - 1].now);
    forall dev ensures dev in memory <==> dev in all
      ensures dev in memory ==> memory[dev] == all[dev]
    {
      BestIsOfSomeone(seed, passes, dev);
      MemoryIsHistory(seed, passes, dev);
      hide AfterPasses, Best;
    }
  }

  // ---- Publishing ----

  /** A store view: its model, if it names one, and when it was taken, if its stamp parses. */
  datatype View = View(model: string, epoch: Option<real>)

  predicate Dated(v: View)
  {
    v.model != "" && v.epoch.Some?
  }

  function AgeOf(v: View, now: real): real
    requires Dated(v)
  {
    Max(0.0, now - v.epoch.value)
  }

  /** The youngest of the first n views of a model, a view from the future being of age zero. */
  ghost predicate IsYoungest(views: seq<View>, n: nat, now: real, model: string, age: real)
    requires n <= |views|
  {
    && age >= 0.0
    && (exists i :: 0 <= i < n && views[i].model == model && views[i].epoch.Some?
                    && (age == now - views[i].epoch.value || (age == 0.0 && views[i].epoch.value > now)))
    && (forall i :: 0 <= i < n && views[i].model == model && views[i].epoch.Some? ==>
          age <= now - views[i].epoch.value || age == 0.0)
  }

  ghost predicate HasView(views: seq<View>, n: nat, model: string)
    requires n <= |views|
  {
    model != "" && exists i :: 0 <= i < n && views[i].model == model && views[i].epoch.Some?
  }

  /** store_model_ages: the youngest dated view of each model. */
  method StoreModelAges(views: seq<View>, now: real) returns (out: map<string, real>)
    ensures forall model :: model in out <==> HasView(views, |views|, model)
    ensures forall model :: model in out ==> IsYoungest(views, |views|, now, model, out[model])
  {
    out := map[];
    var i := 0;
    while i < |views|
      invariant 0 <= i <= |views|
      invariant forall model :: model in out <==> HasView(views, i, model)
      invariant forall model :: model in out ==> IsYoungest(views, i, now, model, out[model])
    {
      var v := views[i];
      ghost var out0 := out;
      if Dated(v) {
        var age := AgeOf(v, now);
        if v.model !in out || age < out[v.model] {
          out := out[v.model := age];
        }
      }
      forall model ensures model in out <==> HasView(views, i + 1, model)
        ensures model in out ==> IsYoungest(views, i + 1, now, model, out[model])
      {
        YoungestStep(views, i, now, model, out0, out);
      }
      i := i + 1;
    }
  }

  /** One more view, for one model. */
  lemma YoungestStep(views: seq<View>, i: nat, now: real, model: string,
                     out0: map<string, real>, out: map<string, real>)
    requires i < |views|
    requires model in out0 <==> HasView(views, i, model)
    requires model in out0 ==> IsYoungest(views, i, now, model, out0[model])
    requires var v := views[i];
      if Dated(v) && v.model == model && (model !in out0 || AgeOf(v, now) < out0[model])
      then model in out && out[model] == AgeOf(v, now)
      else (model in out <==> model in out0) && (model in out ==> out[model] == out0[model])
    ensures model in out <==> HasView(views, i + 1, model)
    ensures model in out ==> IsYoungest(views, i + 1, now, model, out[model])
  {
  }

  /** The latest time a model was seen, by memory or by store, and never before the epoch. */
  ghost predicate IsLatest(memory: Sightings, done: set<string>, devModels: map<string, string>,
                           store: map<string, real>, now: real, model: string, seen: real)
  {
    && seen >= 0.0
    && (forall dev :: dev in done && dev in memory && dev in devModels && devModels[dev] == model ==>
          memory[dev] <= seen)
    && (model in store ==> now - store[model] <= seen)
    && (|| seen == 0.0
        || (exists dev :: dev in done && dev in memory && dev in devModels && devModels[dev] == model
                          && memory[dev] == seen)
        || (model in store && now - store[model] == seen))
  }

  ghost predicate HasDevice(done: set<string>, devModels: map<string, string>, model: string)
  {
    exists dev :: dev in done && dev in devModels && devModels[dev] == model
  }

  /** Ages worked out from a memory and the store's views. */
  ghost predicate AgesFrom(memory: Sightings, devModels: map<string, string>, views: seq<View>, now: real,
                           ages: map<string, real>, seen: map<string, real>, store: map<string, real>)
  {
    && ages.Keys == seen.Keys
    && (forall model :: model in ages ==>
          ages[model] == if now < seen[model] then 0.0 else now - seen[model])
    && (forall model ::
          model in seen <==> HasDevice(memory.Keys, devModels, model) || HasView(views, |views|, model))
    && (forall model :: model in store <==> HasView(views, |views|, model))
    && (forall model :: model in store ==> IsYoungest(views, |views|, now, model, store[model]))
    && (forall model :: model in seen ==>
          IsLatest(memory, memory.Keys, devModels, store, now, model, seen[model]))
  }

  lemma LatestUnique(memory: Sightings, devModels: map<string, string>, store: map<string, real>, now: real,
                     model: string, a: real, b: real)
    requires IsLatest(memory, memory.Keys, devModels, store, now, model, a)
    requires IsLatest(memory, memory.Keys, devModels, store, now, model, b)
    ensures a == b
  {
  }

  lemma YoungestUnique(views: seq<View>, now: real, model: string, a: real, b: real)
    requires IsYoungest(views, |views|, now, model, a) && IsYoungest(views, |views|, now, model, b)
    ensures a == b
  {
  }

  /** Memory, views and clock leave one choice of ages. */
  lemma AgesUnique(memory: Sightings, devModels: map<string, string>, views: seq<View>, now: real,
                   ages: map<string, real>, seen: map<string, real>, store: map<string, real>,
                   ages': map<string, real>, seen': map<string, real>, store': map<string, real>)
    requires AgesFrom(memory, devModels, views, now, ages, seen, store)
    requires AgesFrom(memory, devModels, views, now, ages', seen', store')
    ensures ages == ages'
  {
    hide IsLatest, IsYoungest, HasDevice, HasView, Max;
    forall model | model in store ensures model in store' && store[model] == store'[model] {
      YoungestUnique(views, now, model, store[model], store'[model]);
    }
    assert store == store';
    forall model | model in ages ensures model in ages' && ages[model] == ages'[model] {
      LatestUnique(memory, devModels, store, now, model, seen[model], seen'[model]);
    }
    assert ages.Keys == ages'.Keys;
  }

  /** A memory seeded by the first n scans: exactly the scanned devices, each with the maximum of
      its sightings, if none is above zero with zero. */
  ghost predicate IsSeed(scans: seq<Sightings>, n: nat, memory: Sightings)
    requires n <= |scans|
  {
    && (forall dev :: dev in memory ==> memory[dev] >= 0.0)
    && (forall dev :: dev in memory <==> exists i :: 0 <= i < n && dev in scans[i])
    && (forall dev, i :: 0 <= i < n && dev in scans[i] ==> dev in memory && scans[i][dev] <= memory[dev])
    && (forall dev :: dev in memory && memory[dev] != 0.0 ==>
          exists i :: 0 <= i < n && dev in scans[i] && scans[i][dev] == memory[dev])
  }

  lemma SeedStep(scans: seq<Sightings>, i: nat, memory: Sightings)
    requires i < |scans| && IsSeed(scans, i, memory)
    ensures IsSeed(scans, i + 1, Merge(memory, scans[i]))
  {
    var next := Merge(memory, scans[i]);
    forall dev
      ensures dev in next <==> dev in memory || dev in scans[i]
      ensures dev in scans[i] ==> next[dev] == Max(scans[i][dev], Get(memory, dev))
      ensures dev in memory && dev !in scans[i] ==> next[dev] == memory[dev]
    {
    }
    hide Merge;
    forall dev | dev in next && next[dev] != 0.0
      ensures exists k :: 0 <= k < i + 1 && dev in scans[k] && scans[k][dev] == next[dev]
    {
      if dev in memory && next[dev] == memory[dev] {
        var k :| 0 <= k < i && dev in scans[k] && scans[k][dev] == memory[dev];
      } else {
        assert scans[i][dev] == next[dev];
      }
    }
  }

  class AgeMemory {
    var memory: Sightings

    /** seed_memory: the whole-file scans, merged. */
    constructor (scans: seq<Sightings>)
      ensures IsSeed(scans, |scans|, memory)
    {
      memory := map[];
      new;
      var i := 0;
      while i < |scans|
        invariant 0 <= i <= |scans| && IsSeed(scans, i, memory)
      {
        SeedStep(scans, i, memory);
        hide IsSeed, Merge;
        Note(scans[i]);
        i := i + 1;
      }
    }

    /** memory[dev] = max(seen, memory.get(dev, 0.0)) for every sighting. */
    method Note(sightings: Sightings)
      modifies this
      ensures memory == Merge(old(memory), sightings)
    {
      var todo := sightings.Keys;
      while todo != {}
        invariant todo <= sightings.Keys
        invariant memory.Keys == old(memory).Keys + (sightings.Keys - todo)
        invariant forall dev :: dev in memory ==>
          memory[dev] == if dev in sightings && dev !in todo
                         then Max(sightings[dev], Get(old(memory), dev)) else old(memory)[dev]
      {
        var dev :| dev in todo;
        memory := memory[dev := Max(sightings[dev], Get(memory, dev))];
        todo := todo - {dev};
      }
    }

    /** The entries of unknown devices, and the old ones, go. */
    method Forget(devModels: map<string, string>, now: real)
      modifies this
      ensures memory == Prune(old(memory), devModels, now)
    {
      var todo := memory.Keys;
      while todo != {}
        invariant todo <= memory.Keys <= old(memory).Keys
        invariant forall dev :: dev in memory ==> memory[dev] == old(memory)[dev]
        invariant forall dev :: dev in old(memory) && dev !in todo ==>
          (dev in memory <==> Known(devModels, dev) && now - old(memory)[dev] <= MAX_MEMORY_AGE)
        invariant forall dev :: dev in todo ==> dev in memory
      {
        var dev :| dev in todo;
        if !Known(devModels, dev) || now - memory[dev] > MAX_MEMORY_AGE {
          memory := memory - {dev};
        }
        todo := todo - {dev};
      }
    }

    /** publish_ages: one pass, and each model's age, with the times it was worked out from. */
    method Publish(p: Pass, views: seq<View>)
        returns (ages: map<string, real>, seen: map<string, real>, store: map<string, real>)
      modifies this
      ensures memory == AfterPass(old(memory), p)
      ensures AgesFrom(memory, p.devModels, views, p.now, ages, seen, store)
    {
      Note(p.sightings);
      Forget(p.devModels, p.now);
      store := StoreModelAges(views, p.now);
      seen := ModelsSeen(memory, p.devModels);
      seen := WithStore(memory, p.devModels, store, p.now, seen);
      ages := map model | model in seen :: Max(0.0, p.now - seen[model]);
    }
  }

  /** The first accumulation of publish_ages: the latest sighting of each model's devices. */
  method ModelsSeen(memory: Sightings, devModels: map<string, string>) returns (seen: map<string, real>)
    requires forall dev :: dev in memory ==> dev in devModels
    ensures forall model :: model in seen <==> HasDevice(memory.Keys, devModels, model)
    ensures forall model :: model in seen ==>
      IsLatest(memory, memory.Keys, devModels, map[], 0.0, model, seen[model])
  {
    seen := map[];
    var todo := memory.Keys;
    while todo != {}
      invariant todo <= memory.Keys
      invariant forall model :: model in seen <==> HasDevice(memory.Keys - todo, devModels, model)
      invariant forall model :: model in seen ==>
        IsLatest(memory, memory.Keys - todo, devModels, map[], 0.0, model, seen[model])
    {
      var dev :| dev in todo;
      var model := devModels[dev];
      seen := seen[model := Max(memory[dev], Get(seen, model))];
      ghost var done := memory.Keys - todo;
      todo := todo - {dev};
      assert memory.Keys - todo == done + {dev};
    }
    assert memory.Keys - todo == memory.Keys;
  }

  /** The second one: the store's views count too. */
  method WithStore(memory: Sightings, devModels: map<string, string>, store: map<string, real>,
                   now: real, seen0: map<string, real>) returns (seen: map<string, real>)
    requires forall model :: model in seen0 <==> HasDevice(memory.Keys, devModels, model)
    requires forall model :: model in seen0 ==>
      IsLatest(memory, memory.Keys, devModels, map[], 0.0, model, seen0[model])
    ensures seen.Keys == seen0.Keys + store.Keys
    ensures forall model :: model in seen ==>
      IsLatest(memory, memory.Keys, devModels, store, now, model, seen[model])
  {
    seen := seen0;
    var todo := store.Keys;
    while todo != {}
      invariant todo <= store.Keys
      invariant seen.Keys == seen0.Keys + (store.Keys - todo)
      invariant forall model :: model in seen ==>
        seen[model] == if model in store && model !in todo
                       then Max(now - store[model], Get(seen0, model)) else seen0[model]
    {
      var model :| model in todo;
      seen := seen[model := Max(now - store[model], Get(seen, model))];
      todo := todo - {model};
    }
    forall model | model in seen
      ensures IsLatest(memory, memory.Keys, devModels, store, now, model, seen[model])
    {
      if model !in seen0 {
        assert !HasDevice(memory.Keys, devModels, model);
      }
    }
  }

  /** One round of the publishing loop. */
  datatype Round = Round(pass: Pass, views: seq<View>)

  function Passes(rounds: seq<Round>): (passes: seq<Pass>)
    ensures |passes| == |rounds|
    ensures forall i :: 0 <= i < |rounds| ==> passes[i] == rounds[i].pass
  {
    seq(|rounds|, i requires 0 <= i < |rounds| => rounds[i].pass)
  }

  /** The memory after the first i rounds. */
  function MemoryAt(seed: Sightings, rounds: seq<Round>, i: nat): Sightings
    requires i <= |rounds|
  {
    AfterPasses(seed, Passes(rounds[..i]))
  }

  lemma MemoryAtStep(seed: Sightings, rounds: seq<Round>, i: nat)
    requires i < |rounds|
    ensures MemoryAt(seed, rounds, i + 1) == AfterPass(MemoryAt(seed, rounds, i), rounds[i].pass)
  {
    var passes := Passes(rounds[..i + 1]);
    assert passes[..|passes| - 1] == Passes(rounds[..i]) && passes[|passes| - 1] == rounds[i].pass;
    MemoryStep(seed, passes);
    hide AfterPasses, AfterPass;
  }

  lemma MemoryAtEnd(seed: Sightings, rounds: seq<Round>)
    requires NonNegative(seed) && rounds != [] && ClockRuns(Passes(rounds))
    ensures MemoryAt(seed, rounds, 0) == seed
    ensures MemoryAt(seed, rounds, |rounds|)
      == Recomputed(seed, Passes(rounds), rounds[|rounds| - 1].pass.now)
  {
    assert rounds[..|rounds|] == rounds && Passes(rounds[..0]) == [];
    MemoryIsRecomputed(seed, Passes(rounds));
  }

  /** Seeded once, then round after round: the ages last published are those worked out from the
      memory that a process with the whole history at hand would compute. */
  method PublishRun(scans: seq<Sightings>, rounds: seq<Round>)
      returns (seed: Sightings, ages: map<string, real>, seen: map<string, real>, store: map<string, real>)
    requires rounds != [] && ClockRuns(Passes(rounds))
    ensures IsSeed(scans, |scans|, seed)
    ensures var last := rounds[|rounds| - 1];
      AgesFrom(Recomputed(seed, Passes(rounds), last.pass.now), last.pass.devModels, last.views,
               last.pass.now, ages, seen, store)
  {
    var m := new AgeMemory(scans);
    seed := m.memory;
    MemoryAtEnd(seed, rounds);
    hide MemoryAt, IsSeed, AgesFrom, AfterPass, Recomputed, NonNegative, ClockRuns;
    ages, seen, store := map[], map[], map[];
    var i := 0;
    while i < |rounds|
      invariant 0 <= i <= |rounds|
      invariant m.memory == MemoryAt(seed, rounds, i)
      invariant i > 0 ==>
        AgesFrom(m.memory, rounds[i - 1].pass.devModels, rounds[i - 1].views, rounds[i - 1].pass.now, ages, seen, store)
    {
      MemoryAtStep(seed, rounds, i);
      ages, seen, store := m.Publish(rounds[i].pass, rounds[i].views);
      i := i + 1;
    }
  }
}
