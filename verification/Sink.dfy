/** The Home Assistant sink: one merged state per appliance model, announced before it is
    published, published only when it changed. */
module Sink {
  import opened ByteStrings
  import opened Ordering

  /** A payload value: text, or a dict such as the *_decoded ones. */
  datatype Val = Text(s: string) | Table(items: map<string, Val>)

  datatype Item = Item(key: string, val: Val)

  type View = map<string, Val>

  const COUNTDOWN := "reserve_countdown"
  const RESERVE := Text("WM_STATE_RESERVE")

  /** Keys that never reach the published view; diagData is one of them. */
  const EXCLUDED: set<string> := {
    "monData", "diagData", "option", "ts", "devId", "diagMonType", "modelName", "raw_text", "note",
    "raw_cloud_state"}

  predicate Excluded(k: string)
  {
    k in EXCLUDED
  }

  predicate Truthy(v: Val)
  {
    match v
    case Text(s) => s != ""
    case Table(items) => items != map[]
  }

  /** payload.get(k). */
  function Get(payload: seq<Item>, k: string): Option<Val>
  {
    if payload == [] then None
    else if payload[0].key == k then Some(payload[0].val)
    else Get(payload[1..], k)
  }

  predicate EndsWithDecoded(k: string)
  {
    |k| >= 8 && k[|k| - 8..] == "_decoded"
  }

  /** v.get(k) or "0". */
  function OrZero(items: map<string, Val>, k: string): Val
  {
    if k in items && Truthy(items[k]) then items[k] else Text("0")
  }

  /** The sink's surroundings: the identity a model name stands for, and the countdown's text
      from hours and minutes. */
  datatype Format = Format(stableKey: string -> string, countdown: (Val, Val) -> string)

  /** One payload item added to the view: decoded dicts are spread one level, and a reserved
      start adds its countdown. */
  function AddItem(fmt: Format, view: View, item: Item): View
  {
    if Excluded(item.key) then view
    else if EndsWithDecoded(item.key) && item.val.Table? then Spread(fmt, view, item.val.items)
    else view[item.key := item.val]
  }

  function Spread(fmt: Format, view: View, items: View): View
  {
    var view' := view + items;
    if "State" in items && items["State"] == RESERVE then
      view'[COUNTDOWN := Text(fmt.countdown(OrZero(items, "Reserve_Time_H"), OrZero(items, "Reserve_Time_M")))]
    else view'
  }

  function ViewOf(fmt: Format, payload: seq<Item>): View
  {
    if payload == [] then map[]
    else AddItem(fmt, ViewOf(fmt, payload[..|payload| - 1]), payload[|payload| - 1])
  }

  /** A state that is there and says something other than a reserved start. */
  predicate Running(view: View)
  {
    "State" in view && Truthy(view["State"]) && view["State"] != RESERVE
  }

  /** The merged view after a view: last known values win, and a fresh running state retires the
      countdown. */
  function MergeView(merged: View, view: View): View
  {
    if Running(view) then (merged + view)[COUNTDOWN := Text("")] else merged + view
  }

  datatype Call = Call(dev: string, payload: seq<Item>)

  /** The identity a payload is published under; none without a model name. */
  function Identity(fmt: Format, c: Call): Option<string>
  {
    match Get(c.payload, "modelName")
    case Some(Text(name)) => if name != "" then Some(fmt.stableKey(name)) else None
    case _ => None
  }

  // ---- What is sent to Home Assistant ----

  datatype Event =
    | Announced(id: string, fields: seq<string>)
    | ErrorAlert(id: string)
    | Published(id: string, state: View)

  function LastState(log: seq<Event>, id: string): Option<View>
  {
    if log == [] then None
    else
      var e := log[|log| - 1];
      if e.Published? && e.id == id then Some(e.state) else LastState(log[..|log| - 1], id)
  }

  function LastFields(log: seq<Event>, id: string): Option<seq<string>>
  {
    if log == [] then None
    else
      var e := log[|log| - 1];
      if e.Announced? && e.id == id then Some(e.fields) else LastFields(log[..|log| - 1], id)
  }

  /** What each event owes to those before it: a published state differs from the previous one,
      has all its keys, and exactly those that are announced; an announced list is sorted, without
      repeats, and has grown. */
  ghost predicate GoodEvent(before: seq<Event>, e: Event)
  {
    match e
    case Published(id, state) =>
      && LastState(before, id) != Some(state)
      && (LastState(before, id).Some? ==> LastState(before, id).value.Keys <= state.Keys)
      && LastFields(before, id).Some? && state.Keys == Members(LastFields(before, id).value)
    case Announced(id, fields) =>
      && Sorted(fields)
      && (LastFields(before, id).Some? ==> Members(LastFields(before, id).value) < Members(fields))
    case ErrorAlert(id) =>
      LastFields(before, id).Some? && "Error" in Members(LastFields(before, id).value)
  }

  ghost predicate GoodLog(log: seq<Event>)
  {
    log == [] || (GoodLog(log[..|log| - 1]) && GoodEvent(log[..|log| - 1], log[|log| - 1]))
  }

  lemma LogAppend(log: seq<Event>, e: Event)
    ensures GoodLog(log + [e]) <==> GoodLog(log) && GoodEvent(log, e)
    ensures forall id ::
      LastState(log + [e], id) == if e.Published? && e.id == id then Some(e.state) else LastState(log, id)
    ensures forall id ::
      LastFields(log + [e], id) == if e.Announced? && e.id == id then Some(e.fields) else LastFields(log, id)
  {
    assert (log + [e])[..|log|] == log;
  }

  lemma GoodPrefix(log: seq<Event>, n: nat)
    requires GoodLog(log) && n <= |log|
    ensures GoodLog(log[..n])
    ensures n < |log| ==> GoodEvent(log[..n], log[n])
    decreases |log|
  {
    hide GoodEvent;
    if n == |log| {
      assert log[..n] == log;
    } else {
      var before := log[..|log| - 1];
      assert before[..n] == log[..n];
      if n < |before| {
        assert before[n] == log[n];
      }
      GoodPrefix(before, n);
    }
  }

  lemma {:induction false} LastHasKeys(log: seq<Event>, i: nat)
    requires GoodLog(log) && i < |log| && log[i].Published?
    ensures LastState(log, log[i].id).Some?
    ensures log[i].state.Keys <= LastState(log, log[i].id).value.Keys
    decreases |log|
  {
    var before, e := log[..|log| - 1], log[|log| - 1];
    if i < |before| {
      assert before[i] == log[i];
      LastHasKeys(before, i);
    }
  }

  /** A key once published is in every later state of that identity: nothing announced ever goes
      missing, the countdown included. */
  lemma KeysStay(log: seq<Event>, i: nat, j: nat)
    requires GoodLog(log) && i < j < |log|
    requires log[i].Published? && log[j].Published? && log[i].id == log[j].id
    ensures log[i].state.Keys <= log[j].state.Keys
  {
    GoodPrefix(log, j);
    assert log[..j][i] == log[i];
    LastHasKeys(log[..j], i);
  }

  lemma {:induction false} FieldsWereAnnounced(log: seq<Event>, id: string) returns (i: nat)
    requires LastFields(log, id).Some?
    ensures i < |log| && log[i] == Announced(id, LastFields(log, id).value)
    decreases |log|
  {
    var before, e := log[..|log| - 1], log[|log| - 1];
    if e.Announced? && e.id == id {
      i := |log| - 1;
    } else {
      i := FieldsWereAnnounced(before, id);
      assert before[i] == log[i];
    }
  }

  /** The keys of a published state are a list announced earlier. */
  lemma AnnouncedFirst(log: seq<Event>, j: nat) returns (i: nat)
    requires GoodLog(log) && j < |log| && log[j].Published?
    ensures i < j && log[i].Announced? && log[i].id == log[j].id
    ensures log[j].state.Keys == Members(log[i].fields)
  {
    GoodPrefix(log, j);
    i := FieldsWereAnnounced(log[..j], log[j].id);
    assert log[..j][i] == log[i];
  }

  // ---- The caches against the log ----

  ghost predicate TracksLast(log: seq<Event>, last: map<string, View>)
  {
    forall id :: LastState(log, id) == if id in last then Some(last[id]) else None
  }

  ghost predicate TracksFields(log: seq<Event>, fields: map<string, seq<string>>)
  {
    && (forall id :: LastFields(log, id) == if id in fields then Some(fields[id]) else None)
    && (forall id :: id in fields ==> Sorted(fields[id]))
  }

  ghost predicate AllAnnounced(merged: map<string, View>, fields: map<string, seq<string>>)
  {
    merged.Keys == fields.Keys && forall id :: id in merged ==> merged[id].Keys == Members(fields[id])
  }

  ghost predicate Logged(log: seq<Event>, last: map<string, View>, fields: map<string, seq<string>>)
  {
    GoodLog(log) && TracksLast(log, last) && TracksFields(log, fields)
  }

  /** An alert is announced right behind every list with an error in it, and nowhere else. */
  ghost predicate AlertsFollow(log: seq<Event>)
  {
    && (forall i :: 0 <= i < |log| && log[i].Announced? && "Error" in log[i].fields ==>
          i + 1 < |log| && log[i + 1] == ErrorAlert(log[i].id))
    && (forall i :: 0 <= i < |log| && log[i].ErrorAlert? ==>
          0 < i && log[i - 1].Announced? && log[i - 1].id == log[i].id && "Error" in log[i - 1].fields)
  }

  lemma AnnouncedOf(merged: map<string, View>, fields: map<string, seq<string>>, id: string)
    requires AllAnnounced(merged, fields)
    ensures id in fields <==> id in merged
    ensures id in merged ==> merged[id].Keys == Members(fields[id])
  {
  }

  lemma AnnouncedMore(merged: map<string, View>, fields: map<string, seq<string>>, id: string, view: View,
                      fields': map<string, seq<string>>)
    requires AllAnnounced(merged, fields)
    requires fields'.Keys == fields.Keys + {id} && view.Keys == Members(fields'[id])
    requires forall i :: i != id && i in fields' ==> i in fields && fields'[i] == fields[i]
    ensures AllAnnounced(merged[id := view], fields')
  {
    hide Members;
  }

  lemma PublishedKeepsAlerts(log: seq<Event>, id: string, state: View)
    requires AlertsFollow(log)
    ensures AlertsFollow(log + [Published(id, state)])
  {
  }

  lemma AnnouncedKeepsAlerts(log: seq<Event>, id: string, list: seq<string>)
    requires AlertsFollow(log)
    ensures if "Error" in list then AlertsFollow(log + [Announced(id, list)] + [ErrorAlert(id)])
            else AlertsFollow(log + [Announced(id, list)])
  {
  }

  ghost predicate TracksMerged(fmt: Format, history: seq<Call>, merged: map<string, View>)
  {
    && (forall id :: Merged(fmt, history, id) == if id in merged then merged[id] else map[])
    && (forall id :: id in merged ==> merged[id] != map[])
  }

  ghost predicate TracksDevs(fmt: Format, history: seq<Call>, devById: map<string, string>)
  {
    forall id :: LatestDev(fmt, history, id) == if id in devById then Some(devById[id]) else None
  }

  lemma AnnounceLog(log: seq<Event>, last: map<string, View>, fields: map<string, seq<string>>,
                    id: string, list: seq<string>)
    requires Logged(log, last, fields)
    requires Sorted(list) && (id in fields ==> Members(fields[id]) < Members(list))
    ensures Logged(log + [Announced(id, list)], last, fields[id := list])
  {
    LogAppend(log, Announced(id, list));
    hide GoodLog, LastState, LastFields, Sorted, Members;
  }

  lemma AlertLog(log: seq<Event>, last: map<string, View>, fields: map<string, seq<string>>, id: string)
    requires Logged(log, last, fields)
    requires id in fields && "Error" in Members(fields[id])
    ensures Logged(log + [ErrorAlert(id)], last, fields)
  {
    LogAppend(log, ErrorAlert(id));
    hide GoodLog, LastState, LastFields, Sorted, Members;
  }

  lemma PublishLog(log: seq<Event>, last: map<string, View>, fields: map<string, seq<string>>,
                   id: string, state: View)
    requires Logged(log, last, fields)
    requires id in last ==> last[id] != state && last[id].Keys <= state.Keys
    requires id in fields && state.Keys == Members(fields[id])
    ensures Logged(log + [Published(id, state)], last[id := state], fields)
  {
    LogAppend(log, Published(id, state));
    hide GoodLog, LastState, LastFields, Sorted, Members;
  }

  // ---- The history ----

  /** The merged view of an identity after a history of calls. */
  function Merged(fmt: Format, history: seq<Call>, id: string): View
  {
    if history == [] then map[]
    else
      var before, c := Merged(fmt, history[..|history| - 1], id), history[|history| - 1];
      if Identity(fmt, c) == Some(id) && ViewOf(fmt, c.payload) != map[]
      then MergeView(before, ViewOf(fmt, c.payload))
      else before
  }

  /** The latest value a key had in a payload of the identity. */
  function Latest(fmt: Format, history: seq<Call>, id: string, key: string): Option<Val>
  {
    if history == [] then None
    else
      var c := history[|history| - 1];
      if Identity(fmt, c) == Some(id) && key in ViewOf(fmt, c.payload)
      then Some(ViewOf(fmt, c.payload)[key])
      else Latest(fmt, history[..|history| - 1], id, key)
  }

  function LatestDev(fmt: Format, history: seq<Call>, id: string): Option<string>
  {
    if history == [] then None
    else
      var c := history[|history| - 1];
      if Identity(fmt, c) == Some(id) then Some(c.dev)
      else LatestDev(fmt, history[..|history| - 1], id)
  }

  /** Apart from the countdown, the merged view is the latest value of every key ever carried. */
  lemma {:induction false} MergedIsLatest(fmt: Format, history: seq<Call>, id: string, key: string)
    requires key != COUNTDOWN
    ensures key in Merged(fmt, history, id) <==> Latest(fmt, history, id, key).Some?
    ensures key in Merged(fmt, history, id) ==>
      Latest(fmt, history, id, key) == Some(Merged(fmt, history, id)[key])
    decreases |history|
  {
    if history != [] {
      MergedIsLatest(fmt, history[..|history| - 1], id, key);
      hide ViewOf, Identity, Running;
    }
  }

  /** No payload brings its own countdown. */
  ghost predicate NoForeignCountdown(payload: seq<Item>)
  {
    forall i :: 0 <= i < |payload| ==>
      && payload[i].key != COUNTDOWN
      && (payload[i].val.Table? ==> COUNTDOWN !in payload[i].val.items)
  }

  function Without(payload: seq<Item>, key: string): seq<Item>
  {
    if payload == [] then []
    else
      var before, item := Without(payload[..|payload| - 1], key), payload[|payload| - 1];
      if item.key == key then before else before + [item]
  }

  /** Nothing under an excluded key reaches the view: not diagData's fields either, which a branch
      behind the exclusion is there for. */
  lemma {:induction false} ExcludedDropped(fmt: Format, payload: seq<Item>, key: string)
    requires Excluded(key)
    ensures ViewOf(fmt, payload) == ViewOf(fmt, Without(payload, key))
    decreases |payload|
  {
    if payload != [] {
      var before, item := payload[..|payload| - 1], payload[|payload| - 1];
      ExcludedDropped(fmt, before, key);
      if item.key != key {
        var kept := Without(before, key) + [item];
        assert kept[..|kept| - 1] == Without(before, key);
      }
    }
  }

  lemma DiagDataDropped(fmt: Format, payload: seq<Item>)
    ensures ViewOf(fmt, payload) == ViewOf(fmt, Without(payload, "diagData"))
  {
    ExcludedDropped(fmt, payload, "diagData");
  }

  /** The keys that are kept from the view, by name. */
  predicate IsExcluded(k: string)
  {
    || k == "monData" || k == "diagData" || k == "option" || k == "ts" || k == "devId" || k == "diagMonType"
    || k == "modelName" || k == "raw_text" || k == "note" || k == "raw_cloud_state"
  }

  /** An item whose dict is spread. */
  predicate IsSpread(item: Item)
  {
    |item.key| >= 8 && item.key[|item.key| - 8..] == "_decoded" && item.val.Table?
  }

  /** An item carries a key into the view: in the dict it is spread from, or as its own. */
  predicate Carries(item: Item, k: string)
  {
    !IsExcluded(item.key) && if IsSpread(item) then k in item.val.items else item.key == k
  }

  function Carried(item: Item, k: string): Val
    requires Carries(item, k)
  {
    if IsSpread(item) then item.val.items[k] else item.val
  }

  lemma ExcludedIs(k: string)
    ensures Excluded(k) <==> IsExcluded(k)
  {
  }

  /** What becomes of an item, but for the countdown. */
  lemma AddItemIs(fmt: Format, view: View, item: Item, k: string)
    requires k != "reserve_countdown"
    ensures var view' := AddItem(fmt, view, item);
      if Carries(item, k) then k in view' && view'[k] == Carried(item, k)
      else (k in view' <==> k in view) && (k in view ==> view'[k] == view[k])
  {
    hide Excluded, IsExcluded, Spread;
    ExcludedIs(item.key);
    if IsSpread(item) {
      SpreadIs(fmt, view, item.val.items, k);
    }
  }

  lemma SpreadIs(fmt: Format, view: View, items: View, k: string)
    requires k != COUNTDOWN
    ensures var view' := Spread(fmt, view, items);
      if k in items then k in view' && view'[k] == items[k]
      else (k in view' <==> k in view) && (k in view ==> view'[k] == view[k])
  {
    hide OrZero;
  }

  /** The last of some items that carries a key. */
  ghost predicate LastCarrier(payload: seq<Item>, i: nat, k: string)
    requires i < |payload|
  {
    Carries(payload[i], k) && forall j :: i < j < |payload| ==> !Carries(payload[j], k)
  }

  /** A key other than the countdown is in the view of a payload exactly when an item carries it, and
      then with what the last such item says. */
  lemma {:induction false} ViewHolds(fmt: Format, payload: seq<Item>, k: string)
    requires k != "reserve_countdown"
    ensures k in ViewOf(fmt, payload) <==> exists i :: 0 <= i < |payload| && Carries(payload[i], k)
    ensures forall i :: 0 <= i < |payload| && LastCarrier(payload, i, k) ==>
      k in ViewOf(fmt, payload) && ViewOf(fmt, payload)[k] == Carried(payload[i], k)
    decreases |payload|
  {
    hide AddItem, Carries, Carried, LastCarrier;
    if payload != [] {
      var before, item := payload[..|payload| - 1], payload[|payload| - 1];
      ViewHolds(fmt, before, k);
      AddItemIs(fmt, ViewOf(fmt, before), item, k);
      assert payload == before + [item];
      CarrierStep(before, item, k);
    }
  }

  lemma CarrierStep(before: seq<Item>, item: Item, k: string)
    ensures var payload := before + [item];
      && ((exists i :: 0 <= i < |payload| && Carries(payload[i], k))
          <==> Carries(item, k) || exists i :: 0 <= i < |before| && Carries(before[i], k))
      && (forall i :: 0 <= i < |payload| && LastCarrier(payload, i, k) ==>
            if i == |before| then Carries(item, k) else LastCarrier(before, i, k) && !Carries(item, k))
  {
    hide Carries;
    var payload := before + [item];
    assert payload[|before|] == item;
    forall i | 0 <= i < |before| ensures payload[i] == before[i] {
    }
  }

  /** A spread dict that says a start is reserved. */
  predicate Reserves(item: Item)
  {
    && !IsExcluded(item.key) && IsSpread(item)
    && "State" in item.val.items && item.val.items["State"] == Text("WM_STATE_RESERVE")
  }

  /** A field of such a dict, or "0" when it is missing or empty. */
  function FieldOrZero(item: Item, k: string): Val
    requires item.val.Table?
  {
    if k in item.val.items && item.val.items[k] != Text("") && item.val.items[k] != Table(map[])
    then item.val.items[k] else Text("0")
  }

  ghost predicate LastReserve(payload: seq<Item>, i: nat)
    requires i < |payload|
  {
    Reserves(payload[i]) && forall j :: i < j < |payload| ==> !Reserves(payload[j])
  }

  /** The countdown is in the view exactly when a start is reserved, and it is worked out from the
      hours and the minutes of the last dict that says so. */
  lemma {:induction false} CountdownHolds(fmt: Format, payload: seq<Item>)
    requires NoForeignCountdown(payload)
    ensures "reserve_countdown" in ViewOf(fmt, payload)
      <==> exists i :: 0 <= i < |payload| && Reserves(payload[i])
    ensures forall i :: 0 <= i < |payload| && LastReserve(payload, i) ==>
      && "reserve_countdown" in ViewOf(fmt, payload)
      && ViewOf(fmt, payload)["reserve_countdown"]
         == Text(fmt.countdown(FieldOrZero(payload[i], "Reserve_Time_H"), FieldOrZero(payload[i], "Reserve_Time_M")))
    decreases |payload|
  {
    hide AddItem, Reserves, FieldOrZero, LastReserve, NoForeignCountdown;
    if payload != [] {
      var before, item := payload[..|payload| - 1], payload[|payload| - 1];
      assert payload == before + [item];
      NoForeignParts(before, item);
      CountdownHolds(fmt, before);
      CountdownItem(fmt, ViewOf(fmt, before), item);
      ReserveStep(before, item);
    }
  }

  lemma NoForeignParts(before: seq<Item>, item: Item)
    requires NoForeignCountdown(before + [item])
    ensures NoForeignCountdown(before)
    ensures item.key != COUNTDOWN && (item.val.Table? ==> COUNTDOWN !in item.val.items)
  {
    var payload := before + [item];
    assert payload[|before|] == item;
    forall i | 0 <= i < |before| ensures payload[i] == before[i] {
    }
  }

  lemma ReserveStep(before: seq<Item>, item: Item)
    ensures var payload := before + [item];
      && ((exists i :: 0 <= i < |payload| && Reserves(payload[i]))
          <==> Reserves(item) || exists i :: 0 <= i < |before| && Reserves(before[i]))
      && (forall i :: 0 <= i < |payload| && LastReserve(payload, i) ==>
            if i == |before| then Reserves(item) else LastReserve(before, i) && !Reserves(item))
  {
    hide Reserves;
    var payload := before + [item];
    assert payload[|before|] == item;
    forall i | 0 <= i < |before| ensures payload[i] == before[i] {
    }
  }

  lemma CountdownItem(fmt: Format, view: View, item: Item)
    requires item.key != COUNTDOWN && (item.val.Table? ==> COUNTDOWN !in item.val.items)
    ensures var view' := AddItem(fmt, view, item);
      if Reserves(item) then
        && "reserve_countdown" in view'
        && view'["reserve_countdown"]
           == Text(fmt.countdown(FieldOrZero(item, "Reserve_Time_H"), FieldOrZero(item, "Reserve_Time_M")))
      else
        && ("reserve_countdown" in view' <==> "reserve_countdown" in view)
        && ("reserve_countdown" in view ==> view'["reserve_countdown"] == view["reserve_countdown"])
  {
    hide Excluded, IsExcluded, FieldOrZero, OrZero;
    ExcludedIs(item.key);
    if Reserves(item) {
      OrZeroIs(item, "Reserve_Time_H");
      OrZeroIs(item, "Reserve_Time_M");
    }
  }

  lemma OrZeroIs(item: Item, k: string)
    requires item.val.Table?
    ensures OrZero(item.val.items, k) == FieldOrZero(item, k)
  {
  }

  /** The identity of a payload is that of its model name, when it names one. */
  lemma {:induction false} IdentityIs(fmt: Format, c: Call)
    requires forall i, j :: 0 <= i < j < |c.payload| ==> c.payload[i].key != c.payload[j].key
    ensures forall name :: name != "" && Item("modelName", Text(name)) in c.payload ==>
      Identity(fmt, c) == Some(fmt.stableKey(name))
    ensures Identity(fmt, c).Some? ==>
      exists name :: name != "" && Item("modelName", Text(name)) in c.payload
        && Identity(fmt, c) == Some(fmt.stableKey(name))
  {
    GetIs(c.payload, "modelName");
  }

  lemma {:induction false} GetIs(payload: seq<Item>, k: string)
    requires forall i, j :: 0 <= i < j < |payload| ==> payload[i].key != payload[j].key
    ensures forall v :: Get(payload, k) == Some(v) <==> Item(k, v) in payload
  {
    if payload != [] {
      GetIs(payload[1..], k);
      assert payload == [payload[0]] + payload[1..];
      forall v | Item(k, v) in payload[1..] ensures payload[0].key != k {
        var i :| 0 <= i < |payload[1..]| && payload[1..][i] == Item(k, v);
        assert payload[i + 1].key == k;
      }
    }
  }

  /** Key by key: the new view's value wins over the old one, and a state that is neither empty nor
      reserved empties the countdown. */
  lemma MergeViewIs(merged: View, view: View, k: string)
    ensures var running :=
        && "State" in view && view["State"] != Text("") && view["State"] != Table(map[])
        && view["State"] != Text("WM_STATE_RESERVE");
      var m := MergeView(merged, view);
      if running && k == "reserve_countdown" then k in m && m[k] == Text("")
      else
        && (k in m <==> k in merged || k in view)
        && (k in m ==> m[k] == if k in view then view[k] else merged[k])
  {
  }

  /** A view has a countdown only together with a state. */
  lemma {:induction false} CountdownNeedsState(fmt: Format, payload: seq<Item>)
    requires NoForeignCountdown(payload)
    ensures COUNTDOWN in ViewOf(fmt, payload) ==> "State" in ViewOf(fmt, payload)
    decreases |payload|
  {
    if payload != [] {
      var before, item := payload[..|payload| - 1], payload[|payload| - 1];
      CountdownNeedsState(fmt, before);
      hide OrZero, EndsWithDecoded;
    }
  }

  /** In every merged view with a running state, the countdown is there and empty. */
  lemma {:induction false} CountdownRetired(fmt: Format, history: seq<Call>, id: string)
    requires forall i :: 0 <= i < |history| ==> NoForeignCountdown(history[i].payload)
    ensures var m := Merged(fmt, history, id);
      "State" in m && m["State"] != Text("") && m["State"] != Table(map[]) && m["State"] != Text("WM_STATE_RESERVE")
      ==> "reserve_countdown" in m && m["reserve_countdown"] == Text("")
    decreases |history|
  {
    if history != [] {
      var before, c := history[..|history| - 1], history[|history| - 1];
      CountdownRetired(fmt, before, id);
      CountdownNeedsState(fmt, c.payload);
      hide ViewOf, Identity, NoForeignCountdown;
    }
  }

  // ---- The sink ----

  class Sink {
    const fmt: Format
    var merged: map<string, View>
    var fields: map<string, seq<string>>
    var last: map<string, View>
    var devById: map<string, string>
    var log: seq<Event>
    ghost var history: seq<Call>

    constructor (fmt: Format)
      ensures Valid() && this.fmt == fmt && history == [] && log == []
    {
      this.fmt := fmt;
      merged, fields, last, devById, log, history := map[], map[], map[], map[], [], [];
    }

    /** The caches are the history: what is merged, what was last sent, what is announced, and
        who to send commands to. */
    ghost predicate Valid()
      reads this
    {
      && TracksMerged(fmt, history, merged)
      && last == merged
      && Logged(log, last, fields) && AlertsFollow(log) && AllAnnounced(merged, fields)
      && TracksDevs(fmt, history, devById)
    }

    function MergedNow(id: string): View
      reads this
    {
      if id in merged then merged[id] else map[]
    }

    /** The payload's view, item by item. */
    method BuildView(payload: seq<Item>) returns (view: View)
      ensures view == ViewOf(fmt, payload)
    {
      view := map[];
      var i := 0;
      assert payload[..0] == [];
      while i < |payload|
        invariant 0 <= i <= |payload| && view == ViewOf(fmt, payload[..i])
      {
        assert payload[..i + 1][..i] == payload[..i];
        view := AddItem(fmt, view, payload[i]);
        i := i + 1;
      }
      assert payload[..i] == payload;
    }

    /** Re-announces the fields when the merged view has new ones. */
    method Announce(id: string, view: View)
      requires Logged(log, last, fields) && AlertsFollow(log)
      requires view != map[] && (id in fields ==> Members(fields[id]) <= view.Keys)
      modifies `fields, `log
      ensures Logged(log, last, fields) && AlertsFollow(log)
      ensures id in fields && view.Keys == Members(fields[id])
      ensures fields.Keys == old(fields).Keys + {id}
      ensures forall i :: i != id && i in fields ==> fields[i] == old(fields)[i]
    {
      hide Logged, Sorted, AlertsFollow, Members;
      var known := if id in fields then Members(fields[id]) else {};
      if !(view.Keys <= known) {
        var list := Sort(known + view.Keys);
        AnnounceLog(log, last, fields, id, list);
        AnnouncedKeepsAlerts(log, id, list);
        InMembers(list, "Error");
        assert Members(list) == view.Keys;
        fields := fields[id := list];
        log := log + [Announced(id, list)];
        if "Error" in view {
          AlertLog(log, last, fields, id);
          log := log + [ErrorAlert(id)];
        }
      } else {
        var k :| k in view;
        assert k in known;
      }
    }

    /** One payload. */
    method Ingest(dev: string, payload: seq<Item>)
      requires Valid()
      modifies this
      ensures Valid()
      ensures history == old(history) + [Call(dev, payload)]
    {
      var c := Call(dev, payload);
      hide TracksMerged, TracksDevs, Logged, AlertsFollow, AllAnnounced;
      MergedSeen(fmt, history, merged, c);
      DevSeen(fmt, history, devById, c);
      history := history + [c];
      var identity := Identity(fmt, c);
      if identity == None {
        return;
      }
      var id := identity.value;
      devById := devById[id := dev];
      var view := BuildView(payload);
      if view == map[] {
        return;
      }
      hide ViewOf, MergeView, Identity;
      Publish(id, view);
    }

    /** The new merged view of an identity. */
    method Merge(id: string, view: View) returns (now: View)
      ensures now == MergeView(MergedNow(id), view)
    {
      now := MergedNow(id) + view;
      if Running(view) {
        now := now[COUNTDOWN := Text("")];
      }
    }

    /** The merge, the announcement and the publication of a non-empty view. */
    method Publish(id: string, view: View)
      requires view != map[] && last == merged
      requires Logged(log, last, fields) && AlertsFollow(log)
      requires AllAnnounced(merged, fields)
      modifies `merged, `fields, `last, `log
      ensures merged == old(merged)[id := MergeView(old(MergedNow(id)), view)] && last == merged
      ensures Logged(log, last, fields) && AlertsFollow(log)
      ensures AllAnnounced(merged, fields)
    {
      hide Logged, AlertsFollow, AllAnnounced, Members, Running, MergeView;
      var now := Merge(id, view);
      MergeGrows(MergedNow(id), view);
      AnnouncedOf(merged, fields, id);
      merged := merged[id := now];
      Announce(id, now);
      AnnouncedMore(old(merged), old(fields), id, now, fields);
      if id in last && last[id] == now {
        assert last == merged;
        return;
      }
      PublishLog(log, last, fields, id, now);
      PublishedKeepsAlerts(log, id, now);
      last := last[id := now];
      log := log + [Published(id, now)];
    }
  }

  /** What a call adds to the merged views. */
  lemma MergedSeen(fmt: Format, history: seq<Call>, merged: map<string, View>, c: Call)
    requires TracksMerged(fmt, history, merged)
    ensures var id := Identity(fmt, c);
      var view := ViewOf(fmt, c.payload);
      if id.Some? && view != map[] then
        var now := if id.value in merged then merged[id.value] else map[];
        TracksMerged(fmt, history + [c], merged[id.value := MergeView(now, view)])
      else TracksMerged(fmt, history + [c], merged)
  {
    HistoryAppend(fmt, history, c);
    var id, view := Identity(fmt, c), ViewOf(fmt, c.payload);
    hide ViewOf, Identity, MergeView, Merged;
    if id.Some? {
      MergeGrows(if id.value in merged then merged[id.value] else map[], view);
    }
  }

  /** And to the routing table. */
  lemma DevSeen(fmt: Format, history: seq<Call>, devById: map<string, string>, c: Call)
    requires TracksDevs(fmt, history, devById)
    ensures var id := Identity(fmt, c);
      TracksDevs(fmt, history + [c], if id.Some? then devById[id.value := c.dev] else devById)
  {
    HistoryAppend(fmt, history, c);
    hide Identity, LatestDev;
  }

  lemma MergeGrows(merged: View, view: View)
    ensures merged.Keys <= MergeView(merged, view).Keys
    ensures view != map[] ==> MergeView(merged, view) != map[]
  {
    if view != map[] {
      var k :| k in view;
      assert k in MergeView(merged, view);
    }
  }

  lemma HistoryAppend(fmt: Format, history: seq<Call>, c: Call)
    ensures forall id ::
      Merged(fmt, history + [c], id)
        == if Identity(fmt, c) == Some(id) && ViewOf(fmt, c.payload) != map[]
           then MergeView(Merged(fmt, history, id), ViewOf(fmt, c.payload))
           else Merged(fmt, history, id)
    ensures forall id ::
      LatestDev(fmt, history + [c], id)
        == if Identity(fmt, c) == Some(id) then Some(c.dev) else LatestDev(fmt, history, id)
  {
    hide ViewOf, Identity, MergeView;
    assert (history + [c])[..|history|] == history;
  }
}
