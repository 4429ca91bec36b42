/** A command from Home Assistant, on its way to an appliance: the sink's routing, the entity's
    vocabulary and the control channel together. */
module Routing {
  import opened ByteStrings
  import opened PyObjects
  import opened Vocabulary
  import S = Sink
  import C = Channel

  datatype Command = Command(id: string, slug: string, payload: string)

  class Router {
    const sink: S.Sink
    const control: C.ControlChannel
    var entities: map<string, map<string, CommandEntity>>

    constructor (sink: S.Sink, control: C.ControlChannel)
      ensures this.sink == sink && this.control == control && entities == map[]
    {
      this.sink, this.control := sink, control;
      entities := map[];
    }

    predicate HasEntity(c: Command)
      reads this
    {
      c.id in entities && c.slug in entities[c.id]
    }

    /** _on_message, for a topic that parses: the command goes to the device that last reported
        under that identity, as the wire command its entity makes of the payload; an unknown
        entity, an identity nobody reported and a rejected payload all leave the channel alone. */
    method OnMessage(allowControl: bool, c: Command, sendOk: bool)
        returns (wire: Option<WireCommand>, r: C.PushResult, ghost m: Obj)
      requires sink.Valid()
      modifies control
      ensures wire.Some? <==>
        HasEntity(c) && S.LatestDev(sink.fmt, sink.history, c.id).Some? && Accepts(entities[c.id][c.slug], c.payload)
      ensures wire == None || !allowControl ==>
        && control.connections == old(control.connections) && control.frames == old(control.frames)
        && control.cmdCounter == old(control.cmdCounter)
      ensures wire.Some? && allowControl ==>
        var dev := S.LatestDev(sink.fmt, sink.history, c.id).value;
        var e := entities[c.id][c.slug];
        && control.cmdCounter == old(control.cmdCounter) + 1
        && e.wireKey.Some?
        && C.IsCommand(m, dev, C.Wid(dev, control.cmdCounter), Str(e.cmd), Str(e.cmdOpt),
                       Dict([Entry(e.wireKey.value, Str(wire.value.value))]))
        && (if e.options != [] then Choice(wire.value.value, c.payload) in e.options
            else wire.value.value == c.payload)
        && C.PushOutcome(control.lib, dev, m, sendOk, r,
                         old(control.connections), old(control.frames), control.connections, control.frames)
    {
      wire, r, m := None, C.NotConnected, PyNone;
      if !HasEntity(c) {
        return;
      }
      if c.id !in sink.devById {
        return;
      }
      wire := ToWire(entities[c.id][c.slug], c.payload);
      if wire == None {
        return;
      }
      hide C.IsCommand, C.PushOutcome, C.Wid;
      r, m := control.SendCommand(allowControl, sink.devById[c.id], Str(wire.value.cmd), Str(wire.value.cmdOpt),
                                  Dict([Entry(wire.value.key, Str(wire.value.value))]), sendOk);
    }
  }
}
