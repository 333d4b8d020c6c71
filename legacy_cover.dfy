/** The cover platform of the older revision (iotix_adam/cover.py): a cover
    is a plain pin driven on and off, with no stop. */
module LegacyCover {
  import opened Json
  import opened Records
  import opened LegacyCoordinator
  import opened LegacyEntity

  datatype CoverFeature = Open | Close | Stop

  /** `_attr_supported_features`: open and close only. */
  const SupportedFeatures: set<CoverFeature> := {Open, Close}

  /** The pin configs that become covers: every entry of type cover, whatever
      its pin number. */
  function Covers(entries: seq<PinConfig>): (covers: seq<PinConfig>)
    ensures forall p :: p in covers ==> p.kind == Cover
    ensures forall p :: p in entries && p.kind == Cover ==> multiset(covers)[p] == multiset(entries)[p]
  {
    forall p | p in entries && p.kind == Cover
      ensures multiset(OfKind(entries, Cover))[p] == multiset(entries)[p]
    {
      OfKindCount(entries, Cover, p);
    }
    OfKind(entries, Cover)
  }

  /** `is_closed`: `not state.get("state", False)`; a missing or null state
      reads as closed. */
  function IsClosed(data: LegacySnapshot, pin: int): (closed: bool)
    ensures !closed <==> pin in data.pinStates && data.pinStates[pin].state == Present(true)
  {
    StateFlag(GetPinState(data, pin)) != Some(true)
  }

  /** `async_open_cover`: the pin is switched "on". */
  method OpenCover(coordinator: LegacyAdamCoordinator, pin: int, result: WriteResult)
    modifies coordinator`requests, coordinator`refreshRequests
    ensures coordinator.requests == old(coordinator.requests) + [PinControl(pin, "on", None)]
    ensures coordinator.refreshRequests == old(coordinator.refreshRequests) + (if result.IsOk() then 1 else 0)
  {
    var _ := coordinator.SetPinState(pin, "on", None, result);
  }

  /** `async_close_cover`: the pin is switched "off". */
  method CloseCover(coordinator: LegacyAdamCoordinator, pin: int, result: WriteResult)
    modifies coordinator`requests, coordinator`refreshRequests
    ensures coordinator.requests == old(coordinator.requests) + [PinControl(pin, "off", None)]
    ensures coordinator.refreshRequests == old(coordinator.refreshRequests) + (if result.IsOk() then 1 else 0)
  {
    var _ := coordinator.SetPinState(pin, "off", None, result);
  }
}
