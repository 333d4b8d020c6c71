/** The older coordinator revision (coordinator.py at the repository root):
    the same load-bearing info and pin-config fetches, but one state fetch per
    configured pin and `pin_states` keyed by the integer pin. */
module LegacyCoordinator {
  import opened Json
  import opened Records

  /** The replies of one poll: the `k`-th state reply belongs to the `k`-th
      entry of the pin list. */
  datatype LegacyPollReplies = LegacyPollReplies(
    info: Response<DeviceInfo>,
    pinsConfig: Response<Option<seq<PinConfig>>>,
    pinStates: seq<Response<PinState>>)

  datatype LegacySnapshot = LegacySnapshot(
    deviceInfo: DeviceInfo,
    pinsConfig: seq<PinConfig>,
    pinStates: map<int, PinState>)

  datatype UpdateFailed = InfoStatus(status: int) | PinsConfigStatus(status: int) | Unreachable

  datatype LegacyPollResult = Refreshed(snapshot: LegacySnapshot) | Failed(reason: UpdateFailed)

  /** `pin_states` after fetching the state of every entry in turn. */
  function LegacyPinStates(entries: seq<PinConfig>, replies: seq<Response<PinState>>): (states: map<int, PinState>)
    ensures forall pin :: pin in states ==> exists k :: 0 <= k < |entries| && entries[k].pin == pin
    decreases |entries|
  {
    if entries == [] then map[]
    else
      var n := |entries| - 1;
      var states := LegacyPinStates(entries[..n], replies);
      assert forall k :: 0 <= k < n ==> entries[..n][k] == entries[k];
      if ReplyAt(replies, n).IsOk() then states[entries[n].pin := ReplyAt(replies, n).body] else states
  }

  /** A pin is a key of `pin_states` exactly when some fetch for it got a 200. */
  lemma {:induction false} LegacyPinStatesExact(entries: seq<PinConfig>, replies: seq<Response<PinState>>, pin: int)
    ensures pin in LegacyPinStates(entries, replies) <==>
      exists k :: 0 <= k < |entries| && entries[k].pin == pin && ReplyAt(replies, k).IsOk()
    decreases |entries|
  {
    if entries != [] {
      var n := |entries| - 1;
      var prefix := entries[..n];
      LegacyPinStatesExact(prefix, replies, pin);
      if !(ReplyAt(replies, n).IsOk() && entries[n].pin == pin) {
        if pin in LegacyPinStates(prefix, replies) {
          var k :| 0 <= k < |prefix| && prefix[k].pin == pin && ReplyAt(replies, k).IsOk();
          assert entries[k].pin == pin;
        }
        if exists k :: 0 <= k < |entries| && entries[k].pin == pin && ReplyAt(replies, k).IsOk() {
          var k :| 0 <= k < |entries| && entries[k].pin == pin && ReplyAt(replies, k).IsOk();
          assert k < n;
          assert prefix[k].pin == pin;
        }
      }
    }
  }

  /** The stored state is the body of the last successful fetch for that pin. */
  lemma {:induction false} LegacyPinStatesLastWins(entries: seq<PinConfig>, replies: seq<Response<PinState>>, k: nat)
    requires k < |entries| && ReplyAt(replies, k).IsOk()
    requires forall j :: k < j < |entries| && entries[j].pin == entries[k].pin ==> !ReplyAt(replies, j).IsOk()
    ensures entries[k].pin in LegacyPinStates(entries, replies)
    ensures LegacyPinStates(entries, replies)[entries[k].pin] == ReplyAt(replies, k).body
    decreases |entries|
  {
    var n := |entries| - 1;
    if k < n {
      LegacyPinStatesLastWins(entries[..n], replies, k);
    }
  }

  /** The outcome of `_async_update_data`. */
  function LegacyPoll(r: LegacyPollReplies): (result: LegacyPollResult)
    ensures result.Failed? <==> !r.info.IsOk() || !r.pinsConfig.IsOk()
    ensures result.Failed? && r.info.Reply? && r.info.status != 200 ==> result.reason == InfoStatus(r.info.status)
    ensures result.Failed? && r.info.IsOk() && r.pinsConfig.Reply? ==> result.reason == PinsConfigStatus(r.pinsConfig.status)
    ensures result.Refreshed? ==>
      result.snapshot.deviceInfo == r.info.body && result.snapshot.pinsConfig == Items(r.pinsConfig.body)
  {
    if r.info.TransportError? then Failed(Unreachable)
    else if r.info.status != 200 then Failed(InfoStatus(r.info.status))
    else if r.pinsConfig.TransportError? then Failed(Unreachable)
    else if r.pinsConfig.status != 200 then Failed(PinsConfigStatus(r.pinsConfig.status))
    else
      var pins := Items(r.pinsConfig.body);
      Refreshed(LegacySnapshot(r.info.body, pins, LegacyPinStates(pins, r.pinStates)))
  }

  /** The write requests of this revision. */
  datatype Request =
    | PinControl(pin: int, command: string, brightness: Option<int>)
    | PinConfigure(pin: int, pinType: string, name: string)

  class LegacyAdamCoordinator {
    const host: string
    const mac: string
    /** Every write request sent, in order. */
    var requests: seq<Request>
    /** How many times `async_request_refresh` was awaited. */
    var refreshRequests: nat

    constructor (host: string, mac: string)
      ensures this.host == host && this.mac == mac
      ensures requests == [] && refreshRequests == 0
    {
      this.host, this.mac := host, mac;
      requests, refreshRequests := [], 0;
    }

    /** `_async_update_data`: the state loop skips pins whose fetch failed. */
    method UpdateData(r: LegacyPollReplies) returns (result: LegacyPollResult)
      ensures result == LegacyPoll(r)
    {
      if r.info.TransportError? {
        return Failed(Unreachable);
      } else if r.info.status != 200 {
        return Failed(InfoStatus(r.info.status));
      }
      if r.pinsConfig.TransportError? {
        return Failed(Unreachable);
      } else if r.pinsConfig.status != 200 {
        return Failed(PinsConfigStatus(r.pinsConfig.status));
      }
      var pins := Items(r.pinsConfig.body);
      var pinStates: map<int, PinState> := map[];
      for i := 0 to |pins|
        invariant pinStates == LegacyPinStates(pins[..i], r.pinStates)
      {
        assert pins[..i + 1][..i] == pins[..i];
        var reply := ReplyAt(r.pinStates, i);
        if reply.Reply? && reply.status == 200 {
          pinStates := pinStates[pins[i].pin := reply.body];
        }
      }
      assert pins[..|pins|] == pins;
      result := Refreshed(LegacySnapshot(r.info.body, pins, pinStates));
    }

    /** `async_set_pin_state`: brightness is sent only when it was passed; a
        refresh is requested only on a 200. */
    method SetPinState(pin: int, command: string, brightness: Option<int>, result: WriteResult) returns (ok: bool)
      modifies this`requests, this`refreshRequests
      ensures requests == old(requests) + [PinControl(pin, command, brightness)]
      ensures ok == result.IsOk()
      ensures refreshRequests == old(refreshRequests) + (if ok then 1 else 0)
    {
      requests := requests + [PinControl(pin, command, brightness)];
      ok := result.Answered? && result.status == 200;
      if ok {
        refreshRequests := refreshRequests + 1;
      }
    }

    /** `async_configure_pin`: the same refresh-only-on-200 contract. */
    method ConfigurePin(pin: int, pinType: string, name: string, result: WriteResult) returns (ok: bool)
      modifies this`requests, this`refreshRequests
      ensures requests == old(requests) + [PinConfigure(pin, pinType, name)]
      ensures ok == result.IsOk()
      ensures refreshRequests == old(refreshRequests) + (if ok then 1 else 0)
    {
      requests := requests + [PinConfigure(pin, pinType, name)];
      ok := result.Answered? && result.status == 200;
      if ok {
        refreshRequests := refreshRequests + 1;
      }
    }
  }
}
