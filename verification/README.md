# Verification of the local LG cloud

The repository is a stand-in for LG's cloud: a server that speaks the appliances' persistent
`:47878` protocol, a pump that forwards a washing machine's TLS connection to LG while listening
in, a follower of the relay logs, and a publisher of appliance states to Home Assistant. All of it
is stateful code that has to agree with something simple over every run. This project models that
code in Dafny and proves the agreement, for every byte stream, every interleaving, every history
and every modelJson.

`dafny verify dfyconfig.toml` checks the whole project.

## Modules

| file | what it models |
|---|---|
| `Bytes.dfy`, `PyObjects.dfy` | byte strings; Python values with ordered dicts; json, UTF-8, base64 and `str()` as functions with laws |
| `Len4.dfy` | the WM family's `[4-byte length][JSON]` decoder, which scans forward to resynchronise |
| `Msgpack.dfy`, `FridgeStream.dfy`, `CutMaps.dfy` | the MessagePack encoder and rewinding reader; the fridge's receive loop and its sanity limit; map frames cut short |
| `Protocol.dfy`, `Modes.dfy`, `ClosedLoop.dfy` | the server's reactions; terminate-only against passthrough; server and virtual appliance answering each other |
| `Decimal.dfy`, `Channel.dfy` | `str()` of ints; the registration table, message ids and every write, under interleaving |
| `Pump.dfy`, `Passthrough.dfy` | the two TLS endpoints and the progress-driven loop between them; pump and observer together |
| `LogFollow.dfy`, `Truncations.dfy` | log cap, in-place truncation and log following; when bytes are repeated or skipped |
| `Ages.dfy`, `Polls.dfy` | sighting times and the age memory; from logged frames through their stamps to the memory |
| `Ordering.dfy`, `Sink.dfy`, `Routing.dfy` | the Home Assistant sink with its caches, and the way of a command back to an appliance |
| `Vocabulary.dfy` | the commands and the state decoding a modelJson defines |
| `Replay.dfy` | the response reassembler of the replay store |

Code that updates state in place is modelled by methods and classes, each proved against a
function or a predicate about which the properties are then proved as lemmas. Library calls that
the protocol code only passes values through (JSON, UTF-8, base64, `str()`, the Content-Length
search, `stable_key`, the countdown text) are function-valued parameters. The laws used about
`json`, UTF-8, base64 and `str()` are in `PyObjects.Lawful`: parsing inverts printing of messages, dicts in which no key repeats at any depth, UTF-8
decodes what it encodes, `json.dumps` prints printable ASCII (its `ensure_ascii` default), and
empty base64 text is the empty blob; the others have none. Strings are sequences of Unicode
scalar values. A socket, a TLS engine, a selector and a thread schedule appear as the choices they
can make.

## What was found

Each of these is proved: an input or a run on which the code does not do what its comments or
neighbours promise, and the exact condition under which it does.

* The fridge's sanity limit (`server/control_channel.py:251-258`) is meant for garbage only, but it
  can drop a legitimate message: one whose JSON is 65535 bytes, the longest a str16 can carry,
  when the reads end one byte short of it (`FridgeStream.LongestTextDropped`). Streams come
  through in whatever reads of 1 to 4096 bytes exactly when no text is over 65534 bytes
  (`FridgeStream.DeliveryIff`).
* `_mp_encode` writes ints from 256 on with prefix 0xCD, which `MsgpackReader`
  refuses (`Msgpack.BigIntRefused`). Encoding
  and reading back is the identity exactly when all ints are below 256 (`Msgpack.NestedInverse`).
* A map cut short does not always wait, as a cut string does: cut between two items, its missing
  items read as `None` (`server/control_channel.py:176-177`) and it is delivered incomplete. The
  smallest case is the single byte 0x81 (`CutMaps.IncompleteMap`). A proper part of a map frame
  is delivered exactly when it ends between two items, at any depth, at or after the end of the
  head, and no int of 256 or more starts in it (`CutMaps.CutMapDelivered`); cut right behind such
  an int, it waits (`CutMaps.BigIntWaits`). The buffer bound `FridgeStream.NeverParks` holds
  regardless.
* `encode_message_len4` frames messages whose JSON is over 2^20 bytes, which its own decoder does
  not take as a frame: the decoder waits for all of an encoded message and then delivers it,
  whatever follows, exactly when the JSON is within the limit (`Len4.TakenAsFrameIff`).
* The two modes can part ways: a B64 body is ingested when terminating and not when observing if
  its `Cmd` is none the handler acknowledges or if it comes before any device id, and under
  another id after an empty one (`Modes.UnacknowledgedParts`, `Modes.NamelessParts`,
  `Modes.EmptyIdParts`). On one byte stream they ingest the same sequence exactly when no message
  is of these kinds (`Modes.RunBoth`).
* The entry of a closed connection can stay in the table: of one that changed its id, under the
  first one, or of one that never gave any, under "unknown" (`Channel.FirstIdStays`,
  `Channel.UnknownStays`). It stays exactly when that connection was the last to register the
  device, exited under another id or under "unknown", and no cleanup of a failed send dropped it
  (`Channel.ClosedEntryStaysIff`). Nothing stays when every connection goes by one id, other than
  "unknown" (`Channel.NothingStale`).
* A select whose option table is empty offers no label and forwards any non-empty payload; a `Set`
  action with a placeholder the Value section does not know is published as one
  (`Vocabulary.EmptySelectPublished`). A select accepts exactly what it offers exactly when its table is not empty
  (`Vocabulary.AcceptsWhatItOffersIff`).
* `all_entities` publishes a button for a `Set` action without placeholders, although the comment
  at `server/models/control_vocab.py:63-66` says that none reaches Home Assistant through it:
  a `Set` action becomes a button exactly when it has no placeholder (`Vocabulary.ButtonPublished`).
  `Vocabulary.AllEntities` says which entities are published, all of them and only those.
* `diagData` is in the sink's excluded keys, so the branch behind the exclusion that would publish
  its fields (`server/mqtt_bridge.py:196-201`) is never taken: the view is the one of the payload
  without it (`Sink.DiagDataDropped`).
* A stamp of just after midnight, read by a clock that still says just before it, is taken for
  the past morning, and a time 86100 seconds old or older can come back a day late
  (`Ages.StampsMisread`). `Ages.RecoversIff` gives the exact window.
* The log follower's "every line processed exactly once" (`server/observability.py:97`) can fail
  three ways: a byte that a truncation kept is delivered again, a byte appended after one is taken
  for one cut away, and an open that fails after the size was taken skips what it would have read
  (`Truncations.KeptByteRepeated`, `Truncations.NewByteSkipped`, `Truncations.UnreadableSkipped`).
  A run keeps the promise at every poll exactly when every poll reads from where the last delivery
  ended, or cannot read and has nothing to (`Truncations.ExactThroughoutIff`); a truncation between
  two polls does no harm exactly when it leaves just the bytes not delivered yet and the file is
  polled before it has grown back to the old offset (`Truncations.TruncationHarmlessIff`).
* The replay store is meant never to hold a truncated body (`tools/extract_replay_store.py:22-25`),
  but a connection that closes before all of its announced body came is stored as it is
  (`Replay.ShortBodyStored`). A stored body is shorter than its head announces exactly when some
  connection whose key was not stored yet closed that way (`Replay.ExtractsShortIff`).

## Model

| member | source | states |
|---|---|---|
| Len4.Header | server/control_channel.py:91-95 | the four big-endian bytes of the length, which the decoder reads back as the same length |
| Len4.Frame | server/control_channel.py:91-95 | a message whose JSON is within the frame limit is encoded, never refused |
| Len4.DecodeMessages | server/control_channel.py:103-141 | the decoder's loop computes the specification: an insane length costs one byte, a truncated frame waits, a complete frame is taken whether or not it parses, and only objects are messages |
| Len4.RemainderBound | server/control_channel.py:103-141 | what stays behind is a suffix of the input that the decoder can do nothing with yet, at most 2^20+3 bytes, for any bytes |
| Len4.ChunkingIndependence | server/control_channel.py:103-141 | decoding a+b is decoding a, then its remainder followed by b, for arbitrary a and b |
| Len4.ReceiveFromParked | server/control_channel.py:609-614 | a connection's receive loop equals one decoding of everything received |
| Len4.AnyChunking | server/control_channel.py:609-614 | two ways to cut one byte stream, valid or not, deliver the same messages and carry the same remainder |
| Len4.FrameFirst | server/control_channel.py:91-141 | a good frame is delivered first, whatever garbage follows it |
| Len4.FrameWaits | server/control_channel.py:126-127 | a proper part of a frame waits for the rest |
| Len4.TakenAsFrameIff | server/control_channel.py:91-141 | the decoder waits for every proper part of an encoded message and delivers the whole of it, whatever follows, if and only if its JSON is at most 2^20 bytes |
| Len4.SkipNoise | server/control_channel.py:112-122 | bytes without a zero are scanned away one by one and never pass for a sane length |
| Len4.NoisyStream | server/control_channel.py:103-141 | frames with zero-free noise before, between and after them decode to exactly their messages |
| Len4.Resynchronises | server/control_channel.py:103-141 | the same for a stream joined in the middle of a frame's text and cut into any chunks |
| Msgpack.MsgpackReader.Read | server/control_channel.py:174-207 | the reader returns the value, or raises for truncation or for the prefix, as its specification on the bytes ahead says, and moves exactly past the value |
| Msgpack.MsgpackReader.ReadHead | server/control_channel.py:178-207 | prefix byte and length bytes read one at a time give the format family and length of the value ahead, or run out |
| Msgpack.MsgpackReader.ReadByte | server/control_channel.py:169-172 | one byte forward, or an IndexError without moving |
| Msgpack.MsgpackReader.ReadShort | server/control_channel.py:190-194 | a big-endian length, or an IndexError when two bytes are not there |
| Msgpack.MsgpackReader.ReadStr | server/control_channel.py:209-214 | exactly n bytes decoded, or a truncation error |
| Msgpack.MsgpackReader.ReadMap | server/control_channel.py:216-222 | n keys and values in order, later duplicates overwriting earlier ones in place, and the first error of any of them |
| Msgpack.EncodesIff | server/control_channel.py:46-78 | the encoder has an encoding exactly for strings and dicts of up to 65535 bytes or entries, booleans, ints up to 65535, and dicts of these at any depth; it raises for everything else |
| Msgpack.EntriesEncodeIff | server/control_channel.py:67-68 | the same for the entries of a dict from any index on |
| Msgpack.ShortestForm | server/control_channel.py:46-77 | no head that the reader accepts for the same string, number of entries or int is shorter than the one the encoder takes |
| Msgpack.StrInverse | server/control_channel.py:46-54 | reading an encoded string, whatever follows it, returns it and stops at its end |
| Msgpack.NestedInverse | server/control_channel.py:57-78 | reading an encoded value followed by anything returns it and stops at its end if and only if all ints in it, at any depth, are below 256; otherwise the reader refuses |
| Msgpack.BigIntRefused | server/control_channel.py:77 | 256 is encoded, and its encoding refused |
| Msgpack.EntriesInverse | server/control_channel.py:67-68 | the same for the entries of a dict from any index on, read after those before it |
| FridgeStream.DecodeMessages | server/control_channel.py:225-259 | the loop with its rewinds and its sanity limit computes the specification |
| FridgeStream.ReadValueExtend | server/control_channel.py:174-222 | with more bytes, a refused prefix stays refused, a truncated value that completes ends past the old end, and one that completed before the end is unchanged |
| FridgeStream.ReadEntriesExtend | server/control_channel.py:216-222 | the same for the entries of a map |
| FridgeStream.ExhaustedMap | server/control_channel.py:176-177 | at the end of the buffer a map completes without an error; its missing entries leave one key, the text of None, with the value None |
| FridgeStream.UnblockedEndsLate | server/control_channel.py:229-248 | a stuck item that new bytes unblock ends past the old end of the buffer |
| FridgeStream.NeverParkStep | server/control_channel.py:609-614 | from a stuck buffer within the limit, one read of at most 4096 bytes leads to another such buffer |
| FridgeStream.NeverParks | server/control_channel.py:251-263 | for any bytes at all in reads of at most 4096, the carried buffer never exceeds 65536 bytes |
| FridgeStream.BoundIsReached | server/control_channel.py:251-263 | some stream makes it exactly 65536: the bound is the best one |
| FridgeStream.FrameFirst | server/control_channel.py:81-88 | an encode_message output is delivered first, whatever follows |
| FridgeStream.PartialFrame | server/control_channel.py:232-235 | a frame cut anywhere, its length header included, waits |
| FridgeStream.StreamPrefix | server/control_channel.py:225-259 | any prefix of a stream decodes to its complete messages and keeps a proper part of the next frame |
| FridgeStream.ReceiveStream | server/control_channel.py:609-614 | from any point inside a frame, any chunking of the rest of a stream delivers its messages with nothing left over |
| FridgeStream.WholeFrame | server/control_channel.py:609-614 | read as fast as the loop can from its start, any frame arrives, the longest one included |
| FridgeStream.PartDropped | server/control_channel.py:251-258 | all of the longest frame but its last byte, read as fast as the loop can, is dropped |
| FridgeStream.FrameByFrameDelivers | server/control_channel.py:609-614 | a stream read frame by frame comes through whole, long texts included |
| FridgeStream.JammedStream | server/control_channel.py:244-258 | behind a carried ASCII byte a stream never delivers more messages than it has |
| FridgeStream.LongestTextDropped | server/control_channel.py:251-258 | a stream with a 65535-byte text has reads of 1 to 4096 bytes in which it delivers too few messages |
| FridgeStream.DeliveryIff | server/control_channel.py:225-263 | the messages come through exactly, with an empty remainder, in whatever reads of 1 to 4096 bytes, if and only if no text is over 65534 bytes |
| CutMaps.WholeStarts | server/control_channel.py:57-78 | in all of an encoding an int of 256 or more starts unless all its ints are below |
| CutMaps.CutRead | server/control_channel.py:174-222 | a proper part of a value's encoding is refused if an int of 256 or more starts in it; otherwise it reads as what is left of the value, None for what is missing, if it ends between two items, and as truncated if it does not |
| CutMaps.CutEntries | server/control_channel.py:216-222 | the same for the entries of a dict from any index on |
| CutMaps.CutMapDelivered | server/control_channel.py:225-259 | a proper part of a map frame is delivered as a message, incomplete, if and only if it ends between two items, at any depth, at or after the end of the head, and no int of 256 or more starts in it; otherwise it waits, or is dropped over the limit |
| CutMaps.BigIntWaits | server/control_channel.py:207 | a map frame cut between two items, right behind an int of 256, delivers nothing |
| CutMaps.IncompleteMap | server/control_channel.py:176-177 | the single byte 0x81 is delivered as a message with one key and value of None |
| Protocol.ReplyEchoes | server/control_channel.py:487-501 | a reply is a 0000 ack with the message's own id and nothing else |
| Protocol.MessageLayout | server/control_channel.py:144-149 | a message has the device in its Header and nothing else there, and its id and its fields in its Body and nothing else there |
| Protocol.HeaderIdIs | server/control_channel.py:616 | the id a message carries is the text under x-lgedm-deviceId in its Header |
| Protocol.RepliesAre | server/control_channel.py:478-501 | a message is answered if and only if its Cmd is DevInfo or Alive, or Mon with CmdOpt Start or Stop; all that is sent for it is that ack and, exactly for DevInfo, a Mon Start whose id is made of the first eight characters of the device |
| Protocol.IngestIs | server/control_channel.py:503-526 | a snapshot is ingested if and only if the message is unanswered, its Format is B64 and its Data decodes to something, and then it is that blob under the device id |
| Protocol.AckFields | server/control_channel.py:489 | an ack carries the id given and ReturnCode 0000, and nothing else |
| Protocol.AcksAreSilent | server/control_channel.py:478-537 | no ack causes a reply on either side |
| Protocol.MonStartFields | server/control_channel.py:152-156 | the query carries Cmd Mon, CmdOpt Start and its id, nothing else, to the device given |
| Modes.Handler.Receive | server/control_channel.py:609-630 | one pass of the receive loop: buffer, device id, snapshots and replies are those of the decoded messages in order |
| Modes.Handler.Handle | server/control_channel.py:615-630 | one message: the device id it leaves and the snapshot it ingests; what is sent is a 0000 ack with its own id exactly for DevInfo, Alive and Mon Start or Stop, then a Mon Start exactly for DevInfo |
| Modes.Handler.Incoming | server/control_channel.py:478-537 | handle_incoming, branch by branch: the reply and the snapshot are those of the specification |
| Modes.TerminatedAppend | server/control_channel.py:615-630 | the snapshots of a+b are those of a, then those of b from the device id a left |
| Modes.AnswersAppend | server/control_channel.py:615-630 | so are the replies |
| Modes.LastDevAppend | server/control_channel.py:616 | the device id after a+b is the one b leaves after a |
| Modes.Observer.Observe | server/control_channel.py:350-363 | one chunk: buffer, device and snapshots are those of the decoded messages in order |
| Modes.Observer.See | server/control_channel.py:354-363 | one message: only a B64 body with Data, without Cmd, of a known device is ingested |
| Modes.ObservedIs | server/control_channel.py:345-364 | what the observer ingests of a message: the blob of a B64 body with Data and without Cmd, under the last id seen, and nothing else |
| Modes.StepAgrees | server/control_channel.py:345-364 | on one message the observer never ingests more, and the same exactly when the message has no unacknowledged Cmd and both go by the same id |
| Modes.IdStep | server/control_channel.py:355-357 | the two go by the same id after a message exactly when it carries a non-empty one, or none and they did before |
| Modes.IngestsAgree | server/control_channel.py:345-364 | over any messages the observer never ingests more, and the two ingest the same sequence if and only if no message diverges |
| Modes.TakeRead | server/control_channel.py:609-630 | one read of the handler's loop keeps what was ingested, replied and still to come in line with the whole |
| Modes.RunHandler | server/control_channel.py:609-630 | over any reads, what the terminate-only loop ingests, what it replies and the id it ends under are those of the messages of the stream, whatever the cuts |
| Modes.RunObserver | server/control_channel.py:345-364 | the observer over any chunks ingests what the messages of the stream say |
| Modes.RunBoth | server/control_channel.py:345-364 | for one byte stream cut in any two ways, both modes ingest the same sequence of snapshots if and only if no message diverges |
| Modes.UnacknowledgedParts | server/control_channel.py:359 | a reading under a command nobody acknowledges is ingested by the handler only |
| Modes.NamelessParts | server/control_channel.py:360-362 | so is a reading before any id |
| Modes.EmptyIdParts | server/control_channel.py:355-357 | a reading under an empty id is ingested by the two under different ids |
| Modes.ApplianceStreamsAgree | server/control_channel.py:487-526 | messages with non-empty ids whose Cmd is absent or acknowledged never diverge |
| ClosedLoop.FakeAppliance.ReactNext | tools/fake_appliance.py:148-157 | one message of a buffer moves its reply from those to come to those sent |
| ClosedLoop.FakeAppliance.React | tools/fake_appliance.py:147-157 | over a buffer's messages: the acks sent in order, their count, whether Mon Start came, and the id the pump will reuse |
| ClosedLoop.FakeAppliance.ReactTo | tools/fake_appliance.py:149-157 | one message: an ack for a Mon Start or an unanswered request, with its id or a new one, and silence otherwise |
| ClosedLoop.ApplianceReplyIs | tools/fake_appliance.py:149-173 | the appliance answers exactly a Mon Start and whatever has an id but no ReturnCode, by one 0000 ack under its own device id with the id of the message, or with a new one where that is missing or falsy |
| ClosedLoop.EchoedIs | tools/fake_appliance.py:173 | the id of an answer: the one of the message unless it is missing or falsy |
| ClosedLoop.ServerWork | server/control_channel.py:478-537 | the server's answers weigh one less than the message they answer |
| ClosedLoop.ApplianceWork | tools/fake_appliance.py:149-157 | so do the appliance's |
| ClosedLoop.DeliveryWork | server/control_channel.py:615-630 | delivering any message in flight, in any order, removes exactly one unit of work |
| ClosedLoop.Quiescence | tools/fake_appliance.py:147-157 | with timers off, from any messages in flight, no delivery schedule is longer than the initial work, and one has emptied the network exactly when it is that long |
| Decimal.ValueOfNumeral | server/models/model_json.py:59 | the decimal text of an int determines it |
| Decimal.NumeralInjective | server/control_channel.py:417 | different ints print differently |
| Decimal.NumeralCanonical | server/control_channel.py:417 | no leading zeros, and zero is "0" |
| PyObjects.PutExisting | server/control_channel.py:216-222 | storing under a key that is there keeps its place and changes nothing else |
| PyObjects.PutFresh | server/control_channel.py:216-222 | storing under a new key appends it |
| PyObjects.LookupAt | server/control_channel.py:482-485 | a key of a dict is found with its value |
| PyObjects.LookupNowhere | server/control_channel.py:482-485 | nothing is found exactly where the key is nowhere |
| Channel.ControlChannel.Register | server/control_channel.py:390-393 | the device's entry is this socket and codec, all others unchanged |
| Channel.ControlChannel.Unregister | server/control_channel.py:395-405 | the entry goes if no socket is given or it is still that socket's, and only then |
| Channel.ControlChannel.NextWid | server/control_channel.py:412-417 | the counter grows by one, and the id is "n-", the first eight characters of the device, "-" and the counter in decimal |
| Channel.ControlChannel.Push | server/control_channel.py:419-440 | one whole frame of the registered codec to the registered socket, or no frame and, for a failed send, no entry |
| Channel.ControlChannel.QueryState | server/control_channel.py:442-448 | a Mon Start with a new id, whatever the gate |
| Channel.ControlChannel.SendCommand | server/control_channel.py:450-466 | with control off nothing changes, not even the counter; with control on, a message with the device in its header and just a new id, the Cmd, the CmdOpt and the Value given and an empty Data in its body is pushed |
| Channel.CommandFields | server/control_channel.py:461-462 | a command carries its arguments: Cmd, CmdOpt, Value and id as given, Data empty, the device in the header, and no other field |
| Channel.PushUninterrupted | server/control_channel.py:419-440 | capture, send and cleanup taken without interference are the push above |
| Channel.QueryIsPush | server/control_channel.py:442-448 | the steps of a query taken without interference are the push of a Mon Start with the next id |
| Channel.CommandIsPush | server/control_channel.py:450-466 | those of a command, with control on, are the push of the command with the fields given and the next id; with control off they are nothing |
| Channel.SendQueue | server/control_channel.py:609-630 | a handler whose sends succeed writes its queue in order, each message a whole frame, and changes nothing else |
| Channel.HandlerTurn | server/control_channel.py:609-630 | a message that comes in registers its connection under its id, and then exactly the responses to it are written, in order |
| Channel.WidsDistinct | server/control_channel.py:412-417 | ids with different counters differ whatever the devices are called, and none is a handler's "-mon" id |
| Channel.IdsNeverRepeat | server/control_channel.py:412-417 | in every run, no minted id is a handler's Mon Start id or any later minted one, whoever the callers are |
| Channel.RegisteredStep | server/control_channel.py:390-440 | every step of every thread keeps the table in line with the latest registrations |
| Channel.RegistrationSafety | server/control_channel.py:390-440 | so does every run |
| Channel.EntryIsLatest | server/control_channel.py:390-440 | in every run a device's entry is its most recently registered socket; it is absent only if never registered, or that very socket failed a send or lost its handler |
| Channel.OnlyItsOwnSocketRemoves | server/control_channel.py:635-639 | an entry is removed only by its own socket's handler or by the cleanup of a failed send on that socket, never by a superseded one |
| Channel.HistoryStep | server/control_channel.py:390-440 | every step keeps it that the table is what the history says: the last to register, unless its handler unregistered the device or a failed send's cleanup dropped it |
| Channel.HistoryRun | server/control_channel.py:390-440 | so does every run |
| Channel.ClosedEntryStaysIff | server/control_channel.py:635-639 | in every run a closed connection still holds a device's entry if and only if it was the last to register it, exited under another id or under "unknown", and no cleanup of a failed send dropped it |
| Channel.FirstIdStays | server/control_channel.py:616-617 | a connection that changes its id leaves the first one in the table |
| Channel.UnknownStays | server/control_channel.py:636 | a connection that never gives an id leaves "unknown" in the table |
| Channel.SteadyStep | server/control_channel.py:616-617 | every step keeps connections that go by one id each registered under that id only |
| Channel.SteadyRun | server/control_channel.py:616-617 | so does every run |
| Channel.NothingStale | server/control_channel.py:635-639 | when every connection goes by one id, other than "unknown", no closed one has an entry |
| Channel.ResponsesReadOnly | server/control_channel.py:615-630 | whatever comes in, a handler answers with 0000 acks and Mon Starts only |
| Channel.CarriesStep | server/control_channel.py:419-466 | if all messages written or waiting have a property, and a step brings only such, they still all have it |
| Channel.GatedStep | server/control_channel.py:458-460 | with control off, every step keeps it that nothing else is written or waiting |
| Channel.GateHolds | server/control_channel.py:458-460 | so does every run |
| Channel.OnlyAcksAndMonStarts | server/control_channel.py:442-466 | with control off, every message ever written to any connection is a 0000 ack or a Mon Start |
| Channel.LogStep | server/control_channel.py:430-432 | a step writes at most once, at the end of the log, framed for its connection |
| Channel.FramedStep | server/control_channel.py:425-432 | every step keeps table, captured entries and log in line with the connections' codecs |
| Channel.FramingHolds | server/control_channel.py:425-432 | in every run every write is a whole frame of its connection's codec, or a part of one whose send failed |
| Channel.ResponsesAreMessages | server/control_channel.py:615-630 | a handler answers a well-formed message with well-formed messages |
| Channel.CommandIsMessage | server/control_channel.py:461-462 | a command of well-formed values is a well-formed message |
| Channel.MessagesStep | server/control_channel.py:419-466 | every step on well-formed input keeps it that only well-formed messages are written or waiting |
| Channel.OnlyMessages | server/control_channel.py:419-466 | in every run on well-formed input everything ever written is a well-formed message |
| Channel.WmPeerReceives | server/control_channel.py:599-621 | in every run a WM peer, on a socket none of whose sends failed and all of whose messages fit a frame, decodes exactly the messages written to it, in order, however it cuts them |
| Channel.FridgePeerWire | server/control_channel.py:599-621 | what is on the wire to a fridge peer none of whose sends failed is the stream of its messages |
| Channel.FridgePeerReceivesIff | server/control_channel.py:599-621 | such a peer decodes exactly the messages written to it, with nothing left over, in whatever reads of 1 to 4096 bytes, if and only if no text is over 65534 bytes |
| Channel.FridgePeerReceives | server/control_channel.py:599-621 | and then in chunks of any size |
| Pump.PlainAppend | server/wm_bridge.py:66-73 | the plaintext of joined ciphertext is the joined plaintext |
| Pump.PlainOfSeal | server/wm_bridge.py:146 | what is written comes out of its ciphertext |
| Pump.TakeFacts | server/wm_bridge.py:76-79 | a read takes a non-empty piece of the data in front and leaves the rest, and the measure falls by three per byte |
| Pump.End.constructor | server/wm_bridge.py:22-34 | a fresh endpoint satisfies the conservation invariant with empty logs, alive and without a fault |
| Pump.End.Flush | server/wm_bridge.py:37-47 | sent and pending bytes stay the same sequence; True means that no call failed and nothing waits that the socket would take, False that one call failed |
| Pump.End.Emit | server/wm_bridge.py:66-73 | ciphertext from the TLS layer goes to the end of what it has produced |
| Pump.End.EmitHello | server/wm_bridge.py:55 | so does the opening flight, once |
| Pump.End.Shake | server/wm_bridge.py:54-59 | a handshake call goes on until no handshake message is in front or none is needed any more; each one answered is one less that is needed |
| Pump.End.Kill | server/wm_bridge.py:60-63 | an end is marked dead only after a failed call or the end of its stream |
| Pump.End.DriveHandshake | server/wm_bridge.py:50-63 | true exactly on the call that completes, with no message needed any more; a finished or dead end is untouched; an end left alive has completed or waits for a message that is not there; it dies only by a failed call or the end of the stream; no application data is lost |
| Pump.End.AnswerRecord | server/wm_bridge.py:54-57 | answering a handshake message costs one unit and no data |
| Pump.End.Drain | server/wm_bridge.py:66-73 | ciphertext moves to the socket's queue in order, and true is progress |
| Pump.End.ReadPlain | server/wm_bridge.py:76-86 | None only with no data left and no end of stream; an empty chunk only after a failed call or at the end of the stream; a chunk of at most 65536 bytes is logged, shrinks the unread data and pays for its own forwarding |
| Pump.End.TakeData | server/wm_bridge.py:79 | some of the data in front, logged and gone from the unread data |
| Pump.End.WritePlain | server/wm_bridge.py:144-149 | all of the chunk goes to the ciphertext, or the call failed and none of it does |
| Pump.End.Feed | server/wm_bridge.py:89-101 | what arrives is appended to the input, an empty read marks the end of the stream, and false is a failed call |
| Pump.End.MoveOut | server/wm_bridge.py:171-178 | nothing is left in the TLS layer; the end is dead afterwards if and only if it was before or a send failed in this call; if none failed, nothing waits that the socket would take; progress lowers the measure |
| Pump.End.React | server/wm_bridge.py:194-199 | only a socket that takes bytes sends, in order and without loss, as much as it takes; the records, the data and the end of the stream that arrived are taken in; the end dies if and only if a call failed |
| Pump.EndToEnd | server/wm_bridge.py:131-178 | the plaintext on a destination's wire is a prefix of what arrived at the source |
| Pump.Bridge.constructor | server/wm_bridge.py:104-119 | two fresh endpoints make a conserving bridge |
| Pump.Bridge.Forward | server/wm_bridge.py:132-150 | the destination is given what was read, less at most the chunk whose write failed; the observer saw exactly the chunks read; progress lowers the measure; alive, nothing is left unread and neither stream has ended |
| Pump.Bridge.HandshakeBoth | server/wm_bridge.py:127-129 | both handshakes go on as far as they can, and an end dies only by a failed call or the end of its stream |
| Pump.Bridge.MoveBoth | server/wm_bridge.py:171-178 | both ends send all that their sockets take, whether or not an end is dead |
| Pump.Bridge.ForwardBoth | server/wm_bridge.py:131-169 | both directions, the second only if the first killed nobody |
| Pump.Bridge.Pass | server/wm_bridge.py:125-183 | an iteration that progressed and killed nobody strictly lowers the measure; one that did not progress has nothing left to do; whatever it did, an end is dead exactly when a call failed or a stream was read to its end |
| Pump.Bridge.Settle | server/wm_bridge.py:125-183 | the selector or a dead end is reached after at most measure+1 iterations |
| Pump.Bridge.Take | server/wm_bridge.py:187-199 | a wakeup feeds each end what arrived at it, an end dies there only by a failed call, and a timeout changes nothing |
| Pump.Bridge.Run | server/wm_bridge.py:124-209 | over any wakeups the bridge conserves both directions and closes, and what its ends were given is what arrived; if no call failed and no stream ended, both ends are alive and it closed only for the idle timeout or the end of the run; then, once each handshake has had the messages it needs, all that arrived was seen by the observers and is on the other socket, or waits because that socket takes no more; at the end of a stream, without a failed call, all of that stream has been forwarded likewise |
| Pump.Bridge.TakeNext | server/wm_bridge.py:187-199 | what the ends were given stays the wakeups so far, data and ends of stream |
| Pump.Bridge.Settled | server/wm_bridge.py:125-183 | and settling gives them nothing |
| Pump.NothingHeldBack | server/wm_bridge.py:180-187 | a parked bridge with both ends alive whose run is over has shown and forwarded all that arrived, once both handshakes have had what they need |
| Pump.ReadIsForwarded | server/wm_bridge.py:131-178 | where a stream was read to its end and no write failed, all of it was seen and is on the other socket, or waits because that takes no more |
| Pump.Ended | server/wm_bridge.py:180-181 | a bridge closes before its run is over only by a failed call or the end of a stream, and without a failed call the whole stream that ended has been forwarded |
| Pump.Faulted | server/wm_bridge.py:194-199 | or by a failed call in the wakeup itself |
| Pump.Conservation | server/wm_bridge.py:124-198 | at any moment, both ways: a prefix on the wire, and, while no call of the destination failed, sent, pending, outb and unread data make up all that arrived |
| Passthrough.Intercept | server/control_channel.py:583-595 | over any run of the pump the observer ingests what the plaintext that went through says; if no call failed and no stream ended, that is, once the handshakes have had what they need, all that arrived, forwarded unaltered, and it equals what a terminating handler ingests if and only if no message diverges |
| LogFollow.FirstNewline | server/logcap.py:48 | the find stops at the first byte 10, and finds nothing only where there is none |
| LogFollow.CappedSuffix | server/logcap.py:44-49 | a truncated file is a suffix of at most keep bytes, a quarter of the cap by default, starting right after the first byte 10 of the kept tail whenever it holds one |
| LogFollow.LogDir.TruncateOversized | server/logcap.py:28-56 | exactly the named files over the cap are rewritten, each to its suffix; the sizes returned are theirs; a cap of zero changes nothing |
| LogFollow.LogDir.Append | deploy/wm_relay.py:315-322 | the relay's append: the file's old contents followed by the data, every other file unchanged |
| LogFollow.RelayWatcher.PollOne | server/observability.py:120-136 | one file's turn: arming, restarting, the offset left, and the bytes read |
| LogFollow.RelayWatcher.Poll | server/observability.py:110-136 | per file: arming at the end, restarting after a truncation, the offset left, and the very bytes read |
| LogFollow.TruncateContent | server/logcap.py:44-52 | the followed file after a truncation is the suffix above |
| LogFollow.AppendKeeps | server/observability.py:110-136 | an append keeps the follower's delivery invariant |
| LogFollow.TruncateKeeps | server/observability.py:126-127 | so does a truncation at any time |
| LogFollow.PollKeeps | server/observability.py:120-136 | so does a poll, readable or not |
| LogFollow.RunKeeps | server/observability.py:110-136 | so does every interleaving |
| LogFollow.AtMostOncePerTruncation | server/observability.py:110-136 | over every interleaving of appends, truncations and polls a byte is delivered at most once, plus once per truncation it survived |
| LogFollow.IncreasingBetweenTruncations | server/observability.py:110-136 | between two truncations the ranges delivered are disjoint, increasing and beyond where the watcher stood |
| LogFollow.FollowPoll | server/observability.py:120-136 | a poll of an untruncated file gives the rest of what was appended |
| LogFollow.FollowRun | server/observability.py:110-136 | appends and polls in any order keep the watcher given exactly what it passed |
| LogFollow.ExactlyWhatWasAppended | server/observability.py:120-136 | with no truncation, the polled ranges concatenate to exactly what was appended after the arming poll |
| Truncations.PollExactIff | server/observability.py:120-136 | a poll of a watcher exact so far leaves it exact and up to date if and only if it reads from where the last delivery ended, or cannot read and has nothing to |
| Truncations.PollRepeatsIff | server/observability.py:126-134 | it gives some byte a second time if and only if it reads from before that place and some was delivered |
| Truncations.PollSkipsIff | server/observability.py:128-136 | it leaves out some new byte if and only if there is one and it reads from after the first of them, or cannot read |
| Truncations.GoneForGood | server/logcap.py:44-52 | what a truncation cut away is never delivered later |
| Truncations.TruncateLosesIff | server/logcap.py:44-52 | a truncation loses undelivered bytes for good if and only if what it leaves starts after the last delivery's end |
| Truncations.TruncationHarmlessIff | server/observability.py:126-134 | a real truncation between two polls does no harm if and only if it leaves just the undelivered bytes and the file is polled before it has grown back to the old offset |
| Truncations.ExactThroughoutIff | server/observability.py:110-136 | after every poll of a run of appends, truncations and polls each byte appended since the arming was delivered exactly once, if and only if every poll meets its guard |
| Truncations.KeptByteRepeated | server/observability.py:126-127 | a run on which a kept byte is delivered twice |
| Truncations.NewByteSkipped | server/observability.py:128-129 | a run on which the offset outlives a truncation and a new byte is passed over |
| Truncations.UnreadableSkipped | server/observability.py:130-136 | a run on which a failed open passes over a byte |
| Truncations.TakeTruncate | server/logcap.py:37-53 | the cap's step on one file |
| Truncations.TakePoll | server/observability.py:115-136 | the watcher's step on one file |
| Truncations.TakeStep | server/observability.py:110-136 | one step of either process is one step of the run |
| Truncations.FollowFile | server/observability.py:110-136 | relay, cap and watcher on one file, in any order: its contents, the offset and the blobs handed out are those of the run the lemmas speak of |
| Ages.StampOf | server/observability.py:61-67 | the HH:MM:SS of a time is its second of the UTC day |
| Ages.EpochRange | server/observability.py:61-72 | the reconstructed time is in (now-86400, now+300] for every stamp |
| Ages.RecoversIff | server/observability.py:61-72 | a true time comes back if and only if it is of today and at most 300 seconds ahead, or of yesterday and less than 86100 seconds ago |
| Ages.Recovers | server/observability.py:61-72 | so every time in (now-86100, now] comes back to the second |
| Ages.StampsMisread | server/observability.py:61-72 | midnight read just before it comes back a day early, and a time 86200 seconds old a day late |
| Ages.BestIsMaximum | server/observability.py:242-243 | the latest sighting of a device is the maximum of those in the seed and in the passes since the last one at which it was unknown, and at least zero |
| Ages.MemoryIsHistory | server/observability.py:242-246 | over any passes with a non-decreasing clock, a device's entry is that maximum if it is at most 604800 seconds old, and absent otherwise |
| Ages.MemoryIsRecomputed | server/observability.py:242-246 | the pruned memory equals the one recomputed from the whole history, whatever the device map does from pass to pass |
| Ages.BestIsOfSomeone | server/observability.py:242-243 | only a device once sighted has a latest sighting |
| Ages.StoreModelAges | server/observability.py:75-93 | exactly the models with a dated view, each with the age of its youngest one, zero for one from the future |
| Ages.SeedStep | server/observability.py:199-201 | one more scan keeps the memory the maximum of the scans |
| Ages.AgeMemory.constructor | server/observability.py:198-202 | the seed holds exactly the scanned devices, each with the maximum of its sightings and zero |
| Ages.AgeMemory.Note | server/observability.py:242-243 | every sighting raises its device's entry to the maximum, all others unchanged |
| Ages.AgeMemory.Forget | server/observability.py:244-246 | exactly the entries of unknown devices and those over seven days old go |
| Ages.AgeMemory.Publish | server/observability.py:228-255 | the memory after the pass; a model has an age exactly when a remembered device or a dated view has it; the age is counted from the latest of them |
| Ages.ModelsSeen | server/observability.py:248-251 | each model's latest sighting among its devices |
| Ages.WithStore | server/observability.py:252-253 | the latest of those and the store's view |
| Ages.LatestUnique | server/observability.py:248-253 | memory and store leave one choice of a model's latest time |
| Ages.AgesUnique | server/observability.py:248-255 | and one of the ages |
| Ages.PublishRun | server/observability.py:228-255 | over a seed and any rounds with a non-decreasing clock, the ages last published are those worked out from the memory recomputed from the whole history |
| Polls.Collect | server/observability.py:149-151 | the accumulation of a poll: every line's reconstructed time raises its device's sighting |
| Polls.CollectedIsMaximum | server/observability.py:151 | a device's sighting is the maximum of its lines' times and zero |
| Polls.PromptIsTrue | server/observability.py:61-72 | when every frame is read less than 86100 seconds after it was logged, the sightings rebuilt from the stamps are the true ones |
| Polls.PromptPollsRecompute | server/observability.py:110-151 | over any prompt polls the memory is the one the true times give over the whole history |
| Polls.LatestTrueTime | server/observability.py:242-246 | a device in it has the latest true time of its frames since it is known, or the seed's |
| Ordering.Sort | server/mqtt_bridge.py:217 | a strictly increasing list of exactly the members |
| Ordering.LessIff | server/mqtt_bridge.py:217 | the order of strings: the first difference decides, and without one the shorter string comes first |
| Ordering.SortedUnique | server/mqtt_bridge.py:217 | there is only one such list |
| Ordering.InsertSorted | server/mqtt_bridge.py:217 | inserting a new member keeps the order |
| Sink.Sink.constructor | server/mqtt_bridge.py:146-171 | empty caches are those of the empty history |
| Sink.Sink.BuildView | server/mqtt_bridge.py:180-203 | the loop over the payload builds its view, which ViewHolds and CountdownHolds describe key by key |
| Sink.Sink.Announce | server/mqtt_bridge.py:215-222 | after it exactly the keys of the merged view are announced, in a list that is sorted and has grown, with an error alert right behind it exactly when an error is among them; no other identity's list changed |
| Sink.Sink.Ingest | server/mqtt_bridge.py:146-227 | in every reachable state the caches are the fold of the history of calls, the last published state is the merged view, its keys are those announced, the log of publications is good, and an error alert stands right behind every announced list with an error and nowhere else |
| Sink.Sink.Publish | server/mqtt_bridge.py:206-227 | the identity's merged view is the old one updated, announced, and published unless unchanged |
| Sink.Sink.Merge | server/mqtt_bridge.py:206-212 | the merge and the retirement of the countdown |
| Sink.ViewHolds | server/mqtt_bridge.py:180-203 | a key other than the countdown is in the view of a payload if and only if an item that is not excluded carries it, a plain item of that key or a _decoded dict holding it, and its value is that of the last such item |
| Sink.CountdownHolds | server/mqtt_bridge.py:184-195 | the countdown is in the view exactly when a _decoded dict has State WM_STATE_RESERVE, and is worked out from Reserve_Time_H and Reserve_Time_M of the last such dict, "0" where they are missing or empty |
| Sink.AddItemIs | server/mqtt_bridge.py:180-203 | what one item does to each key of a view |
| Sink.CountdownItem | server/mqtt_bridge.py:184-195 | and to the countdown |
| Sink.ExcludedIs | server/mqtt_bridge.py:138-144 | the ten excluded keys, by name |
| Sink.IdentityIs | server/mqtt_bridge.py:156-161 | a payload is published under the stable key of its model name if and only if that is not empty |
| Sink.MergeViewIs | server/mqtt_bridge.py:206-212 | key by key: the new view wins over what was merged, and a State neither empty nor reserved empties the countdown |
| Sink.ExcludedDropped | server/mqtt_bridge.py:180-183 | a payload's view is that of the payload without the items under an excluded key |
| Sink.DiagDataDropped | server/mqtt_bridge.py:196-201 | no field of diagData reaches the view |
| Sink.MergedIsLatest | server/mqtt_bridge.py:206-213 | apart from the countdown, the merged view maps each key to its value in the latest payload that carried it |
| Sink.CountdownNeedsState | server/mqtt_bridge.py:184-195 | a view has a countdown only together with a State |
| Sink.CountdownRetired | server/mqtt_bridge.py:207-213 | whenever the merged State is non-empty and not WM_STATE_RESERVE, the countdown is there and is the empty string |
| Sink.KeysStay | server/mqtt_bridge.py:206-227 | a key once published is in every later state of that identity |
| Sink.AnnouncedFirst | server/mqtt_bridge.py:215-227 | the keys of a published state are a list announced earlier for that identity |
| Sink.AnnounceLog | server/mqtt_bridge.py:215-219 | a grown, sorted list extends a good log |
| Sink.AlertLog | server/mqtt_bridge.py:220-221 | an error alert only after Error was announced |
| Sink.PublishLog | server/mqtt_bridge.py:224-227 | a state that differs from the last one, keeps its keys and has exactly those announced extends a good log |
| Sink.AnnouncedKeepsAlerts | server/mqtt_bridge.py:219-221 | announcing a list, with an alert exactly when it has an error, keeps every list with an error followed by its alert |
| Sink.PublishedKeepsAlerts | server/mqtt_bridge.py:224-227 | so does a publication |
| Sink.MergedSeen | server/mqtt_bridge.py:204-213 | what one call adds to the merged views |
| Sink.DevSeen | server/mqtt_bridge.py:162-171 | the routing table is the last device to report under each identity |
| Routing.Router.OnMessage | server/mqtt_bridge.py:241-269 | a command reaches the device that last reported under the identity exactly when entity, device and payload are known and control is on: with a new id, the Cmd and CmdOpt of its entity, and a Value of one entry, the entity's wire key with the wire value of the label chosen, or with the payload; otherwise the channel, its message counter included, is untouched |
| Vocabulary.ReadNumber | server/models/model_json.py:56-58 | the shifting loop computes the big-endian number |
| Vocabulary.BigEndianHigh | server/models/model_json.py:56-58 | the first byte of a field counts for the highest power of 256 |
| Vocabulary.RawValueIs | server/models/model_json.py:50-59 | the text of a field: Unknown when the blob is too short, otherwise its number in decimal |
| Vocabulary.MarksComeOff | server/models/model_json.py:25-30 | a label in LG's marks, @ in front and _W behind, loses them, also before a final newline |
| Vocabulary.OtherLabelsStay | server/models/model_json.py:25-30 | and any other label stays what it is |
| Vocabulary.DecodeMonitorBinary | server/models/model_json.py:47-60 | every protocol field has the decimal text of its bytes, or Unknown when the blob is short; the last field of a name wins |
| Vocabulary.DecodeFriendly | server/models/model_json.py:92-106 | the same names, each with its cleaned enum or reference label, or verbatim |
| Vocabulary.FriendlyIs | server/models/model_json.py:92-106 | how a value is shown: the cleaned label of an Enum, Unknown when the table does not have it; the cleaned comment of a reference, or the value without one; anything else as it is |
| Vocabulary.ParseCommands | server/models/control_vocab.py:166-196 | one command per action with one field per placeholder, or an error exactly when some placeholder's options cannot be cleaned |
| Vocabulary.AllEntities | server/models/control_vocab.py:199-209 | exactly the entities that Set actions publish: for each placeholder one with the action's Cmd and CmdOpt and the wire key next to it in the template, or its own name; a number with the bounds of a Range, otherwise a select with the cleaned table of an Enum; a button for an action without placeholders; an error exactly when some placeholder is a Bit or Reference field |
| Vocabulary.SelectOfIs | server/models/control_vocab.py:92-101 | the entity of a placeholder is the one just described, on the modelJson alone |
| Vocabulary.ComesFromIs | server/models/control_vocab.py:199-209 | so are the entities an action publishes |
| Vocabulary.ButtonPublished | server/models/control_vocab.py:63-68 | a Set action becomes a button if and only if it has no placeholder |
| Vocabulary.EmptySelectPublished | server/models/control_vocab.py:180-192 | a Set action with a placeholder the Value section does not know is published as a select with an empty table |
| Vocabulary.ExpandComesFrom | server/models/control_vocab.py:59-72 | the entities of one command are those of its action |
| Vocabulary.HaOptions | server/models/control_vocab.py:103-105 | the labels in the order of the sorted wire values, and exactly the labels of the table |
| Vocabulary.ToWire | server/models/control_vocab.py:107-133 | accepted or rejected exactly as stated, with the entity's command and key and the wire value of the first option that has that label |
| Vocabulary.OffersLabels | server/models/control_vocab.py:103-105 | a label is in the table exactly when some sorted wire value offers it |
| Vocabulary.AcceptsWhatItOffersIff | server/models/control_vocab.py:103-133 | a select accepts exactly what it offers, for every payload, if and only if its table is not empty |
| Vocabulary.LabelLoop | server/models/model_json.py:92-106 | a blob whose field holds the wire value of a label decodes to that very label, for any Enum field, length and modelJson |
| Vocabulary.DecodedIsAccepted | server/models/control_vocab.py:121-124 | a label decoded from a known number is one its select accepts |
| Vocabulary.SendAndDecode | server/models/control_vocab.py:107-133 | the loop through both machines: what a select sends, shown back by a state that holds it, is the label that was chosen |
| Replay.FindBlankExtend | tools/extract_replay_store.py:28 | the first blank line stays the first when bytes are added |
| Replay.ParsedIsInBytes | tools/extract_replay_store.py:19-37 | a parsed response is a head, a blank line and a body of the announced length, at the start of the buffer |
| Replay.BlankIsFirst | tools/extract_replay_store.py:28 | the search finds the first blank line, and nothing only where there is none |
| Replay.ResponseIs | tools/extract_replay_store.py:26-37 | a buffer with a blank line parses exactly when it starts with HTTP and the head before the first blank line announces a length that is there; at the close it gives that head and all the rest exactly when it starts with HTTP |
| Replay.NoResponse | tools/extract_replay_store.py:29-30 | a buffer without one gives nothing, neither before nor at the close |
| Replay.LaidOutParses | tools/extract_replay_store.py:19-37 | and a response laid out like that parses to itself, whatever follows |
| Replay.StableUnderExtension | tools/extract_replay_store.py:19-37 | once a response parses, more bytes do not change it |
| Replay.Extract | tools/extract_replay_store.py:56-94 | the line loop computes the fold of its steps over the log |
| Replay.NeverOverwritten | tools/extract_replay_store.py:47-53 | a stored entry is never changed by later lines |
| Replay.PairStored | tools/extract_replay_store.py:40-53 | a whole connection on any store: its response, complete or as far as it got, is stored under endpoint, "|" and item exactly when there is one and nothing is stored there yet; nothing else changes |
| Replay.ParsedIsWhole | tools/extract_replay_store.py:34-37 | a response parsed while its connection is open is not shorter than announced |
| Replay.AtCloseShortIff | tools/extract_replay_store.py:65-73 | one made of what had come when the connection closed is shorter than announced exactly when its head announces a length |
| Replay.WholeStep | tools/extract_replay_store.py:61-93 | a line leaves a short body in a store without any if and only if it closes a connection short of its announced body and there is something to store |
| Replay.ShortStoredIff | tools/extract_replay_store.py:61-93 | over any lines, a short body gets stored if and only if some line does that |
| Replay.ExtractsShortIff | tools/extract_replay_store.py:56-94 | so over a whole log |
| Replay.ShortBodyStored | tools/extract_replay_store.py:65-75 | a request, a response head, part of its body and the close: the part is stored |
| Replay.CompleteStays | tools/extract_replay_store.py:87-88 | a complete response is not touched again before its connection closes |
| Replay.AfterBytes | tools/extract_replay_store.py:87-93 | where response bytes lead depends on the bytes, not on the chunks they came in |
| Replay.SameAfterClose | tools/extract_replay_store.py:65-76 | nor does the state after the close |
| Replay.ReassemblyInvariance | tools/extract_replay_store.py:56-94 | splitting a connection's response over log lines in another way never changes what the whole log stores |

## Left out

- Modes.Handler.Receive: its sends are taken to succeed and their encoding not to raise; failing sends and the way out of a handler are steps in `Channel`.
- Len4.FrameFirst: claims nothing for a message whose JSON is over 2^20 bytes, which the decoder does not take as a frame; what it makes of such bytes while scanning is not modelled further.
- Channel.WmPeerReceives: is about sockets all of whose messages fit a frame, for the same reason.
- Channel.EntryIsLatest: each `sendall` is one step, so the send locks of a connection are built in rather than proved to be needed.
- ClosedLoop.FakeAppliance.React: the connection, the pump and alive timers and the registration over HTTP are not part of this model; the claim is about timers off.
- Pump.Bridge.Run: TLS is an order-preserving byte channel; how many handshake messages an end needs, how much its socket takes, which calls fail and how a send is split are free choices, and every failed call is counted; certificates, `close_notify` and the clock behind the idle timeout are not modelled, nor an observer's exceptions: what it raises is only logged, and nothing of it is kept here.
- LogFollow.RelayWatcher.Poll: a poll is one atomic step over bytes; a write between `getsize` and `read`, and what the lines hold (sightings, EventMonitoring states), are not modelled.
- LogFollow.LogDir.TruncateOversized: an open or write that fails halfway is not modelled.
- Ages.AgeMemory.Publish: the payloads handed to the sink, and the device picked for each, are not modelled; neither is the search for stamps and devices in log lines, nor the parsing of ISO stamps, whose results are inputs. Times are reals; stamps are within range.
- Sink.Sink.Ingest: payload values are text or dicts, so numbers and lists are not told apart, and the model name is text; the countdown's formatting, which can raise on "Unknown" minutes, is a parameter.
- Sink.CountdownRetired: assumes no payload carries a `reserve_countdown` of its own.
- Routing.Router.OnMessage: the MQTT topic is taken as parsed and the entity table as given; its filling by the discovery step is not modelled.
- Vocabulary.DecodeFriendly: only monitors of type BINARY(BYTE), and only value types the code knows; an unknown type or a missing reference table raises in the source.
- Vocabulary.ParseCommands: an action's placeholders and wire keys are given, not matched out of its template; slugs and display names are left out.
- Vocabulary.LabelLoop: the wire value is a canonical decimal numeral, as the monitor prints it; a wire value such as "05" is held by no blob.
- Replay.Extract: lines come classified, each with a request or a response but not both; hex and UTF-8 decoding of the stored texts are left out.
- Messages whose Header or Body is not a dict, or whose device id is not a string, raise or behave otherwise in the source and are outside the model.
- Log lines on stderr, the family dispatch by first byte, the fallback when the upstream is unreachable and the polling thread are left out: they call the modelled parts.
- The HTTP server, its synthetic and replayed responses, MQTT discovery payloads, the other connectors, and the shell and router scripts are left out: they would add only easy members.
