/** The commands a modelJson defines, and the states it decodes: a select's label and the label
    its wire value decodes to. */
module Vocabulary {
  import opened ByteStrings
  import opened Decimal
  import opened Ordering

  const UNKNOWN := "Unknown"

  // ---- The modelJson ----

  /** An ordered table from strings to strings: the option dict of an Enum. */
  datatype Choice = Choice(wire: string, text: string)

  /** A field of the protocol: its name, and where its bytes are. */
  datatype Place = Place(name: string, start: nat, length: nat)

  /** The entries of the Value section, by type. A reference names a table of the modelJson,
      whose rows may lack the comment that labels them. */
  datatype Meaning =
    | Enum(options: seq<Choice>)
    | Range(min: Option<int>, max: Option<int>)
    | Bits
    | Reference(table: map<string, Option<string>>)
    | Plain

  /** An action of ControlWifi: its value template already read into the placeholders it holds
      and the wire keys they stand next to. */
  datatype Action = Action(name: string, cmd: string, cmdOpt: string,
                           placeholders: seq<string>, wireKeys: map<string, string>)

  datatype ModelJson = ModelJson(protocol: seq<Place>, values: map<string, Meaning>, actions: seq<Action>)

  // ---- Labels ----

  /** clean_label: the text between "@" and "_W". The pattern's dot stops at a newline, and its
      end also matches before a final one. */
  function CleanLabel(text: string): string
  {
    if Marked(text) then text[1..|text| - 2]
    else if |text| > 0 && text[|text| - 1] == '\n' && Marked(text[..|text| - 1])
    then text[1..|text| - 3]
    else text
  }

  predicate Marked(text: string)
  {
    |text| >= 3 && text[0] == '@' && text[|text| - 2..] == "_W" && '\n' !in text[1..|text| - 2]
  }

  /** A text with LG's marks around it, with or without a final newline. */
  ghost predicate Wraps(text: string, inner: string)
  {
    '\n' !in inner && (text == "@" + inner + "_W" || text == "@" + inner + "_W\n")
  }

  /** The marks are taken off, */
  lemma MarksComeOff(text: string, inner: string)
    requires Wraps(text, inner)
    ensures CleanLabel(text) == inner
  {
    var marked := "@" + inner + "_W";
    assert marked[1..|marked| - 2] == inner && marked[|marked| - 2..] == "_W";
    if text != marked {
      assert text == marked + ['\n'] && text[..|text| - 1] == marked;
      assert text[|text| - 1] == '\n';
      assert text[|text| - 2..][1] == '\n' && "_W"[1] == 'W';
      assert !Marked(text);
      assert text[1..|text| - 3] == inner;
    }
  }

  /** and nothing else is changed. */
  lemma OtherLabelsStay(text: string)
    requires forall inner :: !Wraps(text, inner)
    ensures CleanLabel(text) == text
  {
    if Marked(text) {
      var inner := text[1..|text| - 2];
      assert text == "@" + inner + "_W";
      assert Wraps(text, inner);
    } else if |text| > 0 && text[|text| - 1] == '\n' && Marked(text[..|text| - 1]) {
      var cut := text[..|text| - 1];
      var inner := cut[1..|cut| - 2];
      assert cut == "@" + inner + "_W";
      assert text == cut + "\n";
      assert text == "@" + inner + "_W\n";
      assert Wraps(text, inner);
    }
  }

  function Find(options: seq<Choice>, wire: string): Option<string>
  {
    if options == [] then None
    else if options[0].wire == wire then Some(options[0].text)
    else Find(options[1..], wire)
  }

  // ---- Decoding a state ----

  /** The number big-endian bytes hold. */
  function BigEndian(s: Bytes): nat
  {
    if s == [] then 0 else BigEndian(s[..|s| - 1]) * 256 + s[|s| - 1]
  }

  method ReadNumber(s: Bytes) returns (value: nat)
    ensures value == BigEndian(s)
  {
    value := 0;
    var i := 0;
    assert s[..0] == [];
    while i < |s|
      invariant 0 <= i <= |s| && value == BigEndian(s[..i])
    {
      assert s[..i + 1][..i] == s[..i];
      value := value * 256 + s[i];
      i := i + 1;
    }
    assert s[..i] == s;
  }

  /** The text of one protocol field of a blob. */
  function RawValue(place: Place, data: Bytes): string
  {
    if place.start + place.length > |data| then UNKNOWN
    else Numeral(BigEndian(data[place.start..place.start + place.length]))
  }

  /** No later field of the protocol has the same name. */
  ghost predicate Last(protocol: seq<Place>, i: nat)
    requires i < |protocol|
  {
    forall m :: i < m < |protocol| ==> protocol[m].name != protocol[i].name
  }

  /** A field the blob is too short for is Unknown, and any other the decimal text of its bytes. */
  lemma RawValueIs(place: Place, data: Bytes)
    ensures RawValue(place, data) ==
      if place.start + place.length > |data| then "Unknown"
      else Numeral(BigEndian(data[place.start..place.start + place.length]))
  {
    hide Numeral, BigEndian;
  }

  function Power256(n: nat): nat
  {
    if n == 0 then 1 else 256 * Power256(n - 1)
  }

  /** The bytes of a field count from the high one down. */
  lemma {:induction false} BigEndianHigh(high: Byte, s: Bytes)
    ensures BigEndian([high] + s) == high * Power256(|s|) + BigEndian(s)
    decreases |s|
  {
    var t := [high] + s;
    if s == [] {
      assert t == [high] && t[..0] == [];
      assert BigEndian(t[..0]) == 0;
    } else {
      var front := s[..|s| - 1];
      assert t[..|t| - 1] == [high] + front && t[|t| - 1] == s[|s| - 1];
      BigEndianHigh(high, front);
      assert high * (256 * Power256(|front|)) == high * Power256(|front|) * 256;
    }
  }

  /** The last of some fields that has a name. */
  function LastOf(places: seq<Place>, name: string): (r: Option<nat>)
    ensures r.Some? ==> r.value < |places|
  {
    if places == [] then None
    else if places[|places| - 1].name == name then Some(|places| - 1)
    else LastOf(places[..|places| - 1], name)
  }

  lemma LastOfMore(places: seq<Place>, i: nat, name: string)
    requires i < |places|
    ensures LastOf(places[..i + 1], name)
      == if places[i].name == name then Some(i) else LastOf(places[..i], name)
  {
    var more := places[..i + 1];
    assert more[..|more| - 1] == places[..i] && more[|more| - 1] == places[i];
  }

  lemma {:induction false} LastOfIs(places: seq<Place>, i: nat)
    requires i < |places| && Last(places, i)
    ensures LastOf(places, places[i].name) == Some(i)
    decreases |places|
  {
    var before := places[..|places| - 1];
    if i < |before| {
      assert places[|places| - 1].name != places[i].name;
      assert before[i] == places[i];
      forall m | i < m < |before| ensures before[m].name != before[i].name {
        assert before[m] == places[m];
      }
      LastOfIs(before, i);
    }
  }

  lemma {:induction false} LastOfNamed(places: seq<Place>, name: string)
    ensures LastOf(places, name).Some? <==> exists i :: 0 <= i < |places| && places[i].name == name
    decreases |places|
  {
    if places != [] {
      var before := places[..|places| - 1];
      LastOfNamed(before, name);
      if LastOf(before, name).Some? {
        var i :| 0 <= i < |before| && before[i].name == name;
        assert places[i].name == name;
      }
      forall i | 0 <= i < |places| && places[i].name == name ensures LastOf(places, name).Some? {
        if i < |before| {
          assert before[i].name == name;
        }
      }
    }
  }

  /** Every name has the text of its last field. */
  ghost predicate DecodedFrom(protocol: seq<Place>, places: seq<Place>, data: Bytes, decoded: map<string, string>)
    requires |places| <= |protocol|
  {
    && (forall name :: name in decoded <==> LastOf(places, name).Some?)
    && (forall name :: name in decoded ==> decoded[name] == RawValue(protocol[LastOf(places, name).value], data))
  }

  lemma DecodedMore(protocol: seq<Place>, data: Bytes, n: nat, decoded: map<string, string>)
    requires n < |protocol| && DecodedFrom(protocol, protocol[..n], data, decoded)
    ensures DecodedFrom(protocol, protocol[..n + 1], data,
                        decoded[protocol[n].name := RawValue(protocol[n], data)])
  {
    hide RawValue, LastOf;
    var next := decoded[protocol[n].name := RawValue(protocol[n], data)];
    forall name
      ensures name in next <==> LastOf(protocol[..n + 1], name).Some?
      ensures name in next ==> next[name] == RawValue(protocol[LastOf(protocol[..n + 1], name).value], data)
    {
      LastOfMore(protocol, n, name);
      if protocol[n].name != name {
        assert name in next <==> name in decoded;
      }
    }
  }

  /** decode_monitor_binary. */
  method DecodeMonitorBinary(model: ModelJson, data: Bytes) returns (decoded: map<string, string>)
    ensures forall name :: name in decoded <==> exists i :: 0 <= i < |model.protocol| && model.protocol[i].name == name
    ensures forall i :: 0 <= i < |model.protocol| && Last(model.protocol, i) ==>
      decoded[model.protocol[i].name] == RawValue(model.protocol[i], data)
  {
    decoded := DecodeFields(model.protocol, data);
    hide RawValue, LastOf;
    forall name
      ensures name in decoded <==> exists i :: 0 <= i < |model.protocol| && model.protocol[i].name == name
    {
      LastOfNamed(model.protocol, name);
    }
    forall i | 0 <= i < |model.protocol| && Last(model.protocol, i)
      ensures LastOf(model.protocol, model.protocol[i].name) == Some(i)
    {
      LastOfIs(model.protocol, i);
    }
  }

  method DecodeFields(protocol: seq<Place>, data: Bytes) returns (decoded: map<string, string>)
    ensures DecodedFrom(protocol, protocol, data, decoded)
  {
    decoded := map[];
    var i := 0;
    assert protocol[..0] == [];
    while i < |protocol|
      invariant 0 <= i <= |protocol| && DecodedFrom(protocol, protocol[..i], data, decoded)
    {
      var item := protocol[i];
      DecodedMore(protocol, data, i, decoded);
      hide DecodedFrom;
      if item.start + item.length > |data| {
        decoded := decoded[item.name := UNKNOWN];
      } else {
        var value := ReadNumber(data[item.start..item.start + item.length]);
        decoded := decoded[item.name := Numeral(value)];
      }
      i := i + 1;
    }
    assert protocol[..i] == protocol;
  }

  /** enum_name and reference_name, cleaned; everything else verbatim. */
  function Friendly(model: ModelJson, name: string, raw: string): string
  {
    if name !in model.values then raw
    else
      match model.values[name]
      case Enum(options) =>
        var found := Find(options, raw);
        CleanLabel(if found.Some? then found.value else UNKNOWN)
      case Reference(table) =>
        if raw in table && table[raw].Some? && table[raw].value != "" then CleanLabel(table[raw].value)
        else raw
      case _ => raw
  }

  /** How a raw value is shown, by the type of its field: an Enum's label, or Unknown when the table
      does not have it; a reference's comment, or the value when it has none; anything else as it
      is. Labels and comments lose their marks. */
  lemma FriendlyIs(model: ModelJson, name: string, raw: string)
    ensures var shown := Friendly(model, name, raw);
      if name in model.values && model.values[name].Enum? then
        var found := Find(model.values[name].options, raw);
        shown == if found.Some? then CleanLabel(found.value) else "Unknown"
      else if name in model.values && model.values[name].Reference? then
        var table := model.values[name].table;
        shown == if raw in table && table[raw].Some? && table[raw].value != "" then CleanLabel(table[raw].value)
                 else raw
      else shown == raw
  {
    assert "Unknown"[0] == 'U' && "Unknown"[|"Unknown"| - 1] == 'n';
    assert CleanLabel("Unknown") == "Unknown";
    hide CleanLabel, Find;
  }

  /** decode_friendly, for a binary monitor. */
  method DecodeFriendly(model: ModelJson, data: Bytes) returns (out: map<string, string>)
    ensures forall name :: name in out <==> exists i :: 0 <= i < |model.protocol| && model.protocol[i].name == name
    ensures forall i :: 0 <= i < |model.protocol| && Last(model.protocol, i) ==>
      out[model.protocol[i].name]
        == Friendly(model, model.protocol[i].name, RawValue(model.protocol[i], data))
  {
    var decoded := DecodeMonitorBinary(model, data);
    out := map[];
    var todo := decoded.Keys;
    hide Friendly, RawValue;
    while todo != {}
      invariant todo <= decoded.Keys
      invariant out.Keys == decoded.Keys - todo
      invariant forall name :: name in out ==> out[name] == Friendly(model, name, decoded[name])
    {
      var name :| name in todo;
      out := out[name := Friendly(model, name, decoded[name])];
      todo := todo - {name};
    }
  }

  // ---- Commands ----

  datatype CommandField = CommandField(key: string, isRange: bool, options: seq<Choice>,
                                       min: Option<int>, max: Option<int>, wireKey: Option<string>)

  datatype Command = Command(name: string, cmd: string, cmdOpt: string, fields: seq<CommandField>)

  datatype CommandEntity = CommandEntity(component: string, cmd: string, cmdOpt: string,
                                         wireKey: Option<string>, options: seq<Choice>,
                                         min: Option<int>, max: Option<int>)

  datatype WireCommand = WireCommand(cmd: string, cmdOpt: string, key: string, value: string)

  function CleanAll(options: seq<Choice>): (r: seq<Choice>)
    ensures |r| == |options|
    ensures forall i :: 0 <= i < |r| ==> r[i] == Choice(options[i].wire, CleanLabel(options[i].text))
  {
    seq(|options|, i requires 0 <= i < |options| => Choice(options[i].wire, CleanLabel(options[i].text)))
  }

  /** One placeholder of an action. A Bit or Reference field has a list for its options, and
      cleaning a list raises: None. A field the Value section does not know, or a string, is an
      Enum without options. */
  function FieldOf(model: ModelJson, a: Action, key: string): Option<CommandField>
  {
    var wireKey := if key in a.wireKeys then Some(a.wireKeys[key]) else None;
    if key !in model.values then Some(CommandField(key, false, [], None, None, wireKey))
    else
      match model.values[key]
      case Range(min, max) => Some(CommandField(key, true, [], min, max, wireKey))
      case Enum(options) => Some(CommandField(key, false, CleanAll(options), None, None, wireKey))
      case Plain => Some(CommandField(key, false, [], None, None, wireKey))
      case _ => None
  }

  ghost predicate FieldsOf(model: ModelJson, a: Action, fields: seq<CommandField>)
  {
    |fields| == |a.placeholders|
    && forall i :: 0 <= i < |fields| ==> FieldOf(model, a, a.placeholders[i]) == Some(fields[i])
  }

  /** parse_commands: one command per action, or None when one of them raises. */
  method ParseCommands(model: ModelJson) returns (commands: Option<seq<Command>>)
    ensures commands.Some? ==> |commands.value| == |model.actions|
    ensures commands.Some? ==> forall i :: 0 <= i < |model.actions| ==>
      var c, a := commands.value[i], model.actions[i];
      c.name == a.name && c.cmd == a.cmd && c.cmdOpt == a.cmdOpt && FieldsOf(model, a, c.fields)
    ensures commands == None <==>
      exists i, j :: 0 <= i < |model.actions| && 0 <= j < |model.actions[i].placeholders|
        && FieldOf(model, model.actions[i], model.actions[i].placeholders[j]) == None
  {
    hide FieldOf;
    var done: seq<Command> := [];
    var i := 0;
    while i < |model.actions|
      invariant 0 <= i == |done| <= |model.actions|
      invariant forall k :: 0 <= k < i ==>
        var c, a := done[k], model.actions[k];
        c.name == a.name && c.cmd == a.cmd && c.cmdOpt == a.cmdOpt && FieldsOf(model, a, c.fields)
      invariant forall k, j :: 0 <= k < i && 0 <= j < |model.actions[k].placeholders| ==>
        FieldOf(model, model.actions[k], model.actions[k].placeholders[j]).Some?
    {
      var a := model.actions[i];
      var fields: seq<CommandField> := [];
      var j := 0;
      while j < |a.placeholders|
        invariant 0 <= j == |fields| <= |a.placeholders|
        invariant forall k :: 0 <= k < j ==> FieldOf(model, a, a.placeholders[k]) == Some(fields[k])
      {
        var f := FieldOf(model, a, a.placeholders[j]);
        if f == None {
          return None;
        }
        fields := fields + [f.value];
        j := j + 1;
      }
      done := done + [Command(a.name, a.cmd, a.cmdOpt, fields)];
      i := i + 1;
    }
    commands := Some(done);
  }

  function FieldEntity(c: Command, f: CommandField): CommandEntity
  {
    CommandEntity(if f.isRange then "number" else "select", c.cmd, c.cmdOpt,
                  Some(if f.wireKey.Some? && f.wireKey.value != "" then f.wireKey.value else f.key),
                  f.options, f.min, f.max)
  }

  function ButtonEntity(c: Command): CommandEntity
  {
    CommandEntity("button", c.cmd, c.cmdOpt, None, [], None, None)
  }

  function Expand(c: Command): seq<CommandEntity>
  {
    if c.fields == [] then [ButtonEntity(c)]
    else seq(|c.fields|, i requires 0 <= i < |c.fields| => FieldEntity(c, c.fields[i]))
  }

  predicate IsPublished(c: Command)
  {
    c.cmd != "" && c.cmdOpt == "Set"
  }

  predicate IsSet(a: Action)
  {
    a.cmd != "" && a.cmdOpt == "Set"
  }

  /** The entity that a placeholder p of an action stands for, in terms of the modelJson: its wire
      key is the one the template puts next to p, or p itself; a Range makes it a number with its
      bounds; an Enum a select with its table, labels cleaned; anything the Value section does not
      know, or a string, a select without a table. Bit and Reference fields make none. */
  ghost predicate Describes(model: ModelJson, a: Action, p: string, e: CommandEntity)
  {
    && e.cmd == a.cmd && e.cmdOpt == a.cmdOpt
    && e.wireKey == Some(if p in a.wireKeys && a.wireKeys[p] != "" then a.wireKeys[p] else p)
    && (if p in model.values && model.values[p].Range? then
          && e.component == "number" && e.options == []
          && e.min == model.values[p].min && e.max == model.values[p].max
        else
          && e.component == "select" && e.min == None && e.max == None
          && (if p in model.values && model.values[p].Enum? then
                var table := model.values[p].options;
                && |e.options| == |table|
                && forall i :: 0 <= i < |table| ==>
                     e.options[i].wire == table[i].wire && e.options[i].text == CleanLabel(table[i].text)
              else e.options == []))
    && Cleanable(model, p)
  }

  /** Cleaning the labels of a placeholder does not raise. */
  predicate Cleanable(model: ModelJson, p: string)
  {
    p in model.values ==> !model.values[p].Bits? && !model.values[p].Reference?
  }

  lemma SelectOfIs(model: ModelJson, a: Action, p: string, e: CommandEntity)
    ensures SelectOf(model, a, p) == Some(e) <==> Describes(model, a, p, e)
    ensures FieldOf(model, a, p) == None <==> !Cleanable(model, p)
  {
    hide CleanLabel;
    if Describes(model, a, p, e) && p in model.values && model.values[p].Enum? {
      assert e.options == CleanAll(model.values[p].options);
    }
  }

  /** What is published of a modelJson: the entities of the placeholders of its Set actions, and a
      button for a Set action without any. */
  ghost predicate Publishes(model: ModelJson, a: Action, e: CommandEntity)
  {
    && a.cmd != "" && a.cmdOpt == "Set"
    && (|| (exists j :: 0 <= j < |a.placeholders| && Describes(model, a, a.placeholders[j], e))
        || (a.placeholders == [] && e == CommandEntity("button", a.cmd, a.cmdOpt, None, [], None, None)))
  }

  lemma ComesFromIs(model: ModelJson, a: Action, e: CommandEntity)
    ensures ComesFrom(model, a, e) <==> Publishes(model, a, e)
  {
    hide SelectOf, Describes;
    forall j | 0 <= j < |a.placeholders|
      ensures SelectOf(model, a, a.placeholders[j]) == Some(e) <==> Describes(model, a, a.placeholders[j], e)
    {
      SelectOfIs(model, a, a.placeholders[j], e);
    }
  }

  /** The entity a placeholder of an action becomes. */
  function SelectOf(model: ModelJson, a: Action, key: string): Option<CommandEntity>
  {
    match FieldOf(model, a, key)
    case Some(f) => Some(FieldEntity(Command(a.name, a.cmd, a.cmdOpt, []), f))
    case None => None
  }

  /** Where a published entity comes from: a placeholder of a Set action, or a Set action that
      has none, as a button. */
  ghost predicate ComesFrom(model: ModelJson, a: Action, e: CommandEntity)
  {
    IsSet(a)
    && (|| (exists j :: 0 <= j < |a.placeholders| && SelectOf(model, a, a.placeholders[j]) == Some(e))
        || (a.placeholders == [] && e == ButtonEntity(Command(a.name, a.cmd, a.cmdOpt, []))))
  }

  /** all_entities: the entities of the Set commands, all of them and only those. */
  method AllEntities(model: ModelJson) returns (entities: Option<seq<CommandEntity>>)
    ensures entities.Some? ==> forall e ::
      e in entities.value <==> exists i :: 0 <= i < |model.actions| && Publishes(model, model.actions[i], e)
    ensures entities == None <==>
      exists i, j :: 0 <= i < |model.actions| && 0 <= j < |model.actions[i].placeholders|
        && !Cleanable(model, model.actions[i].placeholders[j])
  {
    entities := CollectEntities(model);
    forall e, i | 0 <= i < |model.actions|
      ensures ComesFrom(model, model.actions[i], e) <==> Publishes(model, model.actions[i], e)
    {
      ComesFromIs(model, model.actions[i], e);
    }
    forall i, j | 0 <= i < |model.actions| && 0 <= j < |model.actions[i].placeholders|
      ensures FieldOf(model, model.actions[i], model.actions[i].placeholders[j]) == None
        <==> !Cleanable(model, model.actions[i].placeholders[j])
    {
      SelectOfIs(model, model.actions[i], model.actions[i].placeholders[j],
                 ButtonEntity(Command("", "", "", [])));
    }
    hide ComesFrom, Publishes, FieldOf, Cleanable;
  }

  method CollectEntities(model: ModelJson) returns (entities: Option<seq<CommandEntity>>)
    ensures entities.Some? ==> forall e ::
      e in entities.value <==> exists i :: 0 <= i < |model.actions| && ComesFrom(model, model.actions[i], e)
    ensures entities == None <==>
      exists i, j :: 0 <= i < |model.actions| && 0 <= j < |model.actions[i].placeholders|
        && FieldOf(model, model.actions[i], model.actions[i].placeholders[j]) == None
  {
    var commands := ParseCommands(model);
    if commands == None {
      return None;
    }
    var cs := commands.value;
    var done: seq<CommandEntity> := [];
    var i := 0;
    while i < |cs|
      invariant 0 <= i <= |cs|
      invariant forall e ::
        e in done <==> exists k :: 0 <= k < i && ComesFrom(model, model.actions[k], e)
    {
      var a := model.actions[i];
      ghost var done0 := done;
      if IsPublished(cs[i]) {
        done := done + Expand(cs[i]);
      }
      forall e ensures e in done <==> e in done0 || ComesFrom(model, a, e) {
        ExpandComesFrom(model, a, cs[i], e);
      }
      hide ComesFrom;
      i := i + 1;
    }
    entities := Some(done);
  }

  /** A Set action without placeholders is published, as a button. */
  lemma ButtonPublished(model: ModelJson, i: nat)
    requires i < |model.actions| && IsSet(model.actions[i])
    ensures var a := model.actions[i];
      (exists e :: ComesFrom(model, a, e) && e.component == "button") <==> a.placeholders == []
  {
    var a := model.actions[i];
    if a.placeholders == [] {
      assert ComesFrom(model, a, ButtonEntity(Command(a.name, a.cmd, a.cmdOpt, [])));
    }
  }

  /** A Set action with a placeholder that the Value section does not know is published as a select
      with an empty table. */
  lemma EmptySelectPublished(model: ModelJson, a: Action, j: nat)
    requires IsSet(a) && j < |a.placeholders| && a.placeholders[j] !in model.values
    ensures exists e :: ComesFrom(model, a, e) && e.component == "select" && e.options == [] && e.wireKey.Some?
  {
    var e := SelectOf(model, a, a.placeholders[j]).value;
    assert SelectOf(model, a, a.placeholders[j]) == Some(e);
    assert ComesFrom(model, a, e);
  }

  lemma ExpandComesFrom(model: ModelJson, a: Action, c: Command, e: CommandEntity)
    requires c.name == a.name && c.cmd == a.cmd && c.cmdOpt == a.cmdOpt && FieldsOf(model, a, c.fields)
    ensures ComesFrom(model, a, e) <==> IsPublished(c) && e in Expand(c)
  {
    hide FieldOf;
    if c.fields != [] {
      forall j | 0 <= j < |c.fields| ensures SelectOf(model, a, a.placeholders[j]) == Some(Expand(c)[j]) {
      }
    }
  }

  // ---- From a label to the wire ----

  ghost predicate DistinctWires(options: seq<Choice>)
  {
    forall i, j :: 0 <= i < j < |options| ==> options[i].wire != options[j].wire
  }

  function Wires(options: seq<Choice>): set<string>
  {
    set c | c in options :: c.wire
  }

  /** ha_options: the labels in the order of the sorted wire values. */
  method HaOptions(e: CommandEntity) returns (labels: seq<string>, wires: seq<string>)
    requires DistinctWires(e.options)
    ensures Sorted(wires) && Members(wires) == Wires(e.options)
    ensures |labels| == |wires|
    ensures forall i :: 0 <= i < |labels| ==> Some(labels[i]) == Find(e.options, wires[i])
    ensures forall payload :: payload in labels <==> Offers(e, payload)
  {
    wires := Sort(Wires(e.options));
    labels := [];
    var i := 0;
    while i < |wires|
      invariant 0 <= i == |labels| <= |wires|
      invariant forall k :: 0 <= k < i ==> Some(labels[k]) == Find(e.options, wires[k])
    {
      assert wires[i] in Members(wires);
      FindSome(e.options, wires[i]);
      labels := labels + [Find(e.options, wires[i]).value];
      i := i + 1;
    }
    forall payload | Offers(e, payload) ensures payload in labels {
      var wire :| wire in Wires(e.options) && Find(e.options, wire) == Some(payload);
      assert wire in Members(wires);
      var k :| 0 <= k < |wires| && wires[k] == wire;
      assert labels[k] == payload;
    }
    forall payload | payload in labels ensures Offers(e, payload) {
      var k :| 0 <= k < |labels| && labels[k] == payload;
      assert wires[k] in Members(wires);
    }
  }

  lemma {:induction false} FindSome(options: seq<Choice>, wire: string)
    ensures Find(options, wire).Some? <==> wire in Wires(options)
  {
    if options != [] {
      FindSome(options[1..], wire);
      assert options == [options[0]] + options[1..];
    }
  }

  lemma {:induction false} FindAt(options: seq<Choice>, i: nat)
    requires DistinctWires(options) && i < |options|
    ensures Find(options, options[i].wire) == Some(options[i].text)
  {
    if i > 0 {
      assert options[0].wire != options[i].wire;
      FindAt(options[1..], i - 1);
    }
  }

  predicate HasLabel(options: seq<Choice>, payload: string)
  {
    exists i :: 0 <= i < |options| && options[i].text == payload
  }

  /** to_wire: the first option with that label; without options, any payload but the empty one. */
  method ToWire(e: CommandEntity, payload: string) returns (w: Option<WireCommand>)
    ensures w.Some? <==> Accepts(e, payload)
    ensures w.Some? ==> w.value.cmd == e.cmd && w.value.cmdOpt == e.cmdOpt && Some(w.value.key) == e.wireKey
    ensures w.Some? && e.options != [] ==>
      exists i :: 0 <= i < |e.options| && e.options[i] == Choice(w.value.value, payload)
        && forall k :: 0 <= k < i ==> e.options[k].text != payload
    ensures w.Some? && e.options == [] ==> w.value.value == payload
  {
    if e.wireKey == None {
      return None;
    }
    if e.options != [] {
      var i := 0;
      while i < |e.options|
        invariant 0 <= i <= |e.options|
        invariant forall k :: 0 <= k < i ==> e.options[k].text != payload
      {
        if payload == e.options[i].text {
          return Some(WireCommand(e.cmd, e.cmdOpt, e.wireKey.value, e.options[i].wire));
        }
        i := i + 1;
      }
      return None;
    }
    if payload == "" {
      return None;
    }
    w := Some(WireCommand(e.cmd, e.cmdOpt, e.wireKey.value, payload));
  }

  ghost predicate Accepts(e: CommandEntity, payload: string)
  {
    && e.wireKey.Some?
    && (if e.options != [] then HasLabel(e.options, payload) else payload != "")
  }

  /** A label is offered when some sorted wire value has it. */
  ghost predicate Offers(e: CommandEntity, payload: string)
  {
    exists wire :: wire in Wires(e.options) && Find(e.options, wire) == Some(payload)
  }

  /** A select accepts exactly the labels it offers, for every payload, unless its option table is
      empty: then it offers nothing and takes anything. */
  lemma AcceptsWhatItOffersIff(e: CommandEntity)
    requires e.wireKey.Some? && DistinctWires(e.options)
    ensures (forall payload :: Accepts(e, payload) <==> Offers(e, payload)) <==> e.options != []
  {
    if e.options == [] {
      assert Accepts(e, "x") && !Offers(e, "x");
    } else {
      forall payload ensures Accepts(e, payload) <==> Offers(e, payload) {
        OffersLabels(e.options, payload);
      }
    }
  }

  lemma OffersLabels(options: seq<Choice>, payload: string)
    requires DistinctWires(options)
    ensures HasLabel(options, payload)
      <==> exists wire :: wire in Wires(options) && Find(options, wire) == Some(payload)
  {
    if HasLabel(options, payload) {
      var i :| 0 <= i < |options| && options[i].text == payload;
      FindAt(options, i);
      assert options[i] in options;
      assert options[i].wire in Wires(options);
    }
    forall wire | wire in Wires(options) && Find(options, wire) == Some(payload)
      ensures HasLabel(options, payload)
    {
      var c :| c in options && c.wire == wire;
      var i :| 0 <= i < |options| && options[i] == c;
      FindAt(options, i);
    }
  }

  // ---- The loop ----

  /** The blob's bytes for a protocol field hold the number a wire value names. */
  ghost predicate Holds(place: Place, data: Bytes, wire: string)
  {
    && place.start + place.length <= |data|
    && Numeral(BigEndian(data[place.start..place.start + place.length])) == wire
  }

  /** Whatever label a select sends, a state that holds the wire value it sent decodes to that
      label, for every Enum field of any modelJson. */
  lemma LabelLoop(model: ModelJson, a: Action, place: Place, options: seq<Choice>, data: Bytes,
                  wire: string, payload: string)
    requires place.name in model.values && model.values[place.name] == Enum(options)
    requires DistinctWires(options)
    requires Choice(wire, payload) in SelectOf(model, a, place.name).value.options
    requires Holds(place, data, wire)
    ensures Friendly(model, place.name, RawValue(place, data)) == payload
  {
    var e := SelectOf(model, a, place.name).value;
    assert e.options == CleanAll(options);
    var i :| 0 <= i < |e.options| && e.options[i] == Choice(wire, payload);
    FindAt(options, i);
    hide SelectOf, FieldOf, CleanLabel, Numeral, BigEndian, DistinctWires;
  }

  /** And the other way: a label decoded from a known number is one its select accepts. */
  lemma DecodedIsAccepted(model: ModelJson, a: Action, place: Place, options: seq<Choice>, data: Bytes)
    requires place.name in model.values && model.values[place.name] == Enum(options)
    requires RawValue(place, data) in Wires(options)
    ensures Accepts(SelectOf(model, a, place.name).value, Friendly(model, place.name, RawValue(place, data)))
  {
    var raw := RawValue(place, data);
    var e := SelectOf(model, a, place.name).value;
    FindSome(options, raw);
    var i := FindIndex(options, raw);
    assert e.options[i].text == CleanLabel(options[i].text);
    hide RawValue, CleanLabel;
  }

  lemma {:induction false} FindIndex(options: seq<Choice>, wire: string) returns (i: nat)
    requires Find(options, wire).Some?
    ensures i < |options| && options[i].wire == wire && Find(options, wire) == Some(options[i].text)
  {
    if options[0].wire == wire {
      i := 0;
    } else {
      var k := FindIndex(options[1..], wire);
      i := k + 1;
    }
  }

  /** A label sent and read back, through both machines. */
  method SendAndDecode(model: ModelJson, a: Action, i: nat, options: seq<Choice>, data: Bytes, payload: string)
      returns (sent: Option<WireCommand>, shown: map<string, string>)
    requires i < |model.protocol| && Last(model.protocol, i)
    requires model.protocol[i].name in model.values
    requires model.values[model.protocol[i].name] == Enum(options)
    requires DistinctWires(options) && options != []
    ensures sent.Some? && Holds(model.protocol[i], data, sent.value.value) ==>
      model.protocol[i].name in shown && shown[model.protocol[i].name] == payload
  {
    var place := model.protocol[i];
    var e := SelectOf(model, a, place.name);
    sent := ToWire(e.value, payload);
    shown := DecodeFriendly(model, data);
    if sent.Some? && Holds(place, data, sent.value.value) {
      LabelLoop(model, a, place, options, data, sent.value.value, payload);
    }
  }
}
