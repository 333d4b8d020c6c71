/** The decoded JSON records the controller returns, as far as the integration
    reads them. A key read with a default is a `Field`; a key read without one
    is an `Option`; a list read as `obj.get("items", [])` is an `Option` of a
    sequence whose `None` stands for the missing key. */
module Records {
  import opened Json

  /** The `type` of a configured pin; any other string, or a missing key, is
      `OtherType`, which no platform picks up. */
  datatype PinType = Light | Switch | Cover | BinarySensor | OtherType

  /** One entry of `/api/pins/config` (also the shape of the cover entries the
      coordinator synthesizes at pin `100 + coverId`). */
  datatype PinConfig = PinConfig(
    pin: int,
    kind: PinType,
    name: Field<string>,
    isInput: Field<bool>,
    buttonMode: Option<string>,
    coverId: Field<int>,
    inputUpPin: Field<int>,
    inputDownPin: Field<int>,
    outputUpPin: Field<int>,
    outputDownPin: Field<int>,
    upTimeSec: Field<int>,
    downTimeSec: Field<int>,
    interlock: Field<bool>,
    moving: Field<bool>,
    direction: Field<string>)

  /** One entry of `/api/covers/config`, the dedicated cover source. */
  datatype CoverConfig = CoverConfig(
    coverId: Option<int>,
    name: Field<string>,
    inputUpPin: Option<int>,
    inputDownPin: Option<int>,
    outputUpPin: Option<int>,
    outputDownPin: Option<int>,
    upTimeSec: Option<int>,
    downTimeSec: Option<int>,
    interlock: Field<bool>,
    moving: Field<bool>,
    direction: Field<string>)

  /** One entry of `/api/covers/state`. */
  datatype CoverState = CoverState(coverId: Option<int>, moving: Field<bool>, direction: Option<string>)

  /** The body of `/api/pin/state`. */
  datatype PinState = PinState(state: Field<bool>, brightness: Field<int>)

  /** The `{}` that entities read when no state is known for their pin. */
  const EmptyPinState := PinState(Absent, Absent)

  /** Python's `state.get("state", False)`: a missing key reads as False, a
      null as None. */
  function StateFlag(state: PinState): (on: Option<bool>)
    ensures on == Some(true) <==> state.state == Present(true)
    ensures state.state.Absent? ==> on == Some(false)
    ensures on == None <==> state.state.Null?
  {
    state.state.Get(false)
  }

  /** One entry of `/api/button/events`. */
  datatype ButtonEvent = ButtonEvent(inputPin: Option<int>, eventType: Option<string>)

  /** One entry of `/api/input/triggers`; the integration only passes these on. */
  datatype InputTrigger = InputTrigger(inputPin: Option<int>, outputPin: Option<int>)

  /** The body of `/api/info`. */
  datatype DeviceInfo = DeviceInfo(name: Field<string>, firmwareVersion: Option<string>)

  /** One relay of an XR8 expansion module. */
  datatype Relay = Relay(id: Option<int>, name: Field<string>)

  /** One entry of `/api/xr8/list`; `configured` is the truthiness of
      `module.get("configured", False)`. */
  datatype RelayModule = RelayModule(id: Option<int>, address: Field<int>, configured: bool, relays: Field<seq<Relay>>)

  /** `obj.get(key, [])` for a list-valued key. */
  function Items<T>(list: Option<seq<T>>): seq<T> {
    list.GetOr([])
  }

  /** The entries of one `type`, in list order: the setup filter of a platform. */
  function OfKind(entries: seq<PinConfig>, kind: PinType): (r: seq<PinConfig>)
    ensures |r| <= |entries|
    ensures forall p :: p in r ==> p.kind == kind && p in entries
    decreases |entries|
  {
    if entries == [] then []
    else
      var last := entries[|entries| - 1];
      OfKind(entries[..|entries| - 1], kind) + (if last.kind == kind then [last] else [])
  }

  /** Filtering a concatenation filters each part, so list order is kept. */
  lemma {:induction false} OfKindAppend(a: seq<PinConfig>, b: seq<PinConfig>, kind: PinType)
    ensures OfKind(a + b, kind) == OfKind(a, kind) + OfKind(b, kind)
    decreases |b|
  {
    if b == [] {
      assert a + b == a;
    } else {
      assert (a + b)[..|a + b| - 1] == a + b[..|b| - 1];
      OfKindAppend(a, b[..|b| - 1], kind);
    }
  }

  /** Every entry of the kind yields exactly one entity, and no other entry yields any. */
  lemma {:induction false} OfKindCount(entries: seq<PinConfig>, kind: PinType, p: PinConfig)
    ensures multiset(OfKind(entries, kind))[p] == if p.kind == kind then multiset(entries)[p] else 0
    decreases |entries|
  {
    if entries != [] {
      var prefix := entries[..|entries| - 1];
      OfKindCount(prefix, kind, p);
      assert entries == prefix + [entries[|entries| - 1]];
    }
  }
}
