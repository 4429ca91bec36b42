/** Passthrough mode as a whole: the pump forwards the connection and the observer ingests what
    goes through it. The observer has no effect on the pump, so its calls are made in order at the
    end here. */
module Passthrough {
  import opened ByteStrings
  import opened PyObjects
  import opened Protocol
  import Modes
  import Len4
  import opened Pump

  /** The snapshots ingested are those of the plaintext that went through. If no call failed and
      neither stream ended, that is, after both handshakes, all that arrived; LG was given it
      unaltered, but for what its socket does not take yet; and it is what a terminating handler
      would have ingested exactly when no message diverges. */
  method Intercept(lib: Library, bridge: Bridge, wakeups: seq<Wakeup>)
      returns (n: nat, ingested: seq<Snapshot>)
    requires Lawful(lib)
    requires bridge.Valid() && bridge.Alive() && bridge.client.fed == []
    requires forall i :: 0 <= i < |wakeups| ==> GoodWakeup(wakeups[i])
    modifies bridge, bridge.client, bridge.up
    ensures bridge.Valid() && n <= |wakeups|
    ensures ingested == Modes.Observed(lib, None, Len4.Decode(lib, Flatten(bridge.clientSeen)).msgs)
    ensures bridge.Untroubled() && bridge.client.needs == 0 && bridge.up.needs == 0 ==>
      var arrived := Arrived(ClientData, wakeups[..n]);
      var msgs := Len4.Decode(lib, arrived).msgs;
      && (n == |wakeups| || (n > 0 && wakeups[n - 1] == Timeout(true)))
      && Flatten(bridge.clientSeen) == Plain(bridge.up.sent + bridge.up.pending) == arrived
      && (bridge.up.pending == [] || bridge.up.room == 0)
      && (ingested == Modes.Terminated(lib, "unknown", msgs) <==> Modes.NeverDiverges(lib, false, msgs))
  {
    hide Bridge.Valid, Len4.Decode, Plain, Flatten, Modes.Observed, Modes.Terminated, Modes.NeverDiverges, Arrived;
    n := bridge.Run(wakeups);
    ingested := Modes.RunObserver(lib, bridge.clientSeen);
    assert [] + Flatten(bridge.clientSeen) == Flatten(bridge.clientSeen);
    Len4.ReceiveFromParked(lib, [], bridge.clientSeen);
    var arrived := Arrived(ClientData, wakeups[..n]);
    assert [] + arrived == arrived;
    Modes.IngestsAgree(lib, "unknown", None, Len4.Decode(lib, arrived).msgs);
  }
}
