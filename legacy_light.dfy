/** The light platform of the older revision (light.py). */
module LegacyLight {
  import opened Json
  import opened Records
  import opened LegacyCoordinator
  import opened LegacyEntity

  /** The pin configs that become lights: every entry of type light, in order. */
  function Lights(entries: seq<PinConfig>): (lights: seq<PinConfig>)
    ensures forall p :: p in lights ==> p.kind == Light
    ensures forall p :: p in entries && p.kind == Light ==> multiset(lights)[p] == multiset(entries)[p]
  {
    forall p | p in entries && p.kind == Light
      ensures multiset(OfKind(entries, Light))[p] == multiset(entries)[p]
    {
      OfKindCount(entries, Light, p);
    }
    OfKind(entries, Light)
  }

  /** `is_on`: the state flag, False when the pin has no state. */
  function IsOn(data: LegacySnapshot, pin: int): (on: Option<bool>)
    ensures pin !in data.pinStates ==> on == Some(false)
    ensures on == Some(true) <==> pin in data.pinStates && data.pinStates[pin].state == Present(true)
  {
    StateFlag(GetPinState(data, pin))
  }

  /** `brightness`: the state's brightness, 255 when missing. */
  function Brightness(data: LegacySnapshot, pin: int): (level: Option<int>)
    ensures pin !in data.pinStates ==> level == Some(255)
    ensures pin in data.pinStates && data.pinStates[pin].brightness.Present? ==>
      level == Some(data.pinStates[pin].brightness.value)
  {
    GetPinState(data, pin).brightness.Get(255)
  }

  /** `async_turn_on`: "on" with the requested brightness, 255 when none is given. */
  method TurnOn(coordinator: LegacyAdamCoordinator, pin: int, brightness: Option<int>, result: WriteResult)
    modifies coordinator`requests, coordinator`refreshRequests
    ensures coordinator.requests == old(coordinator.requests) + [PinControl(pin, "on", Some(brightness.GetOr(255)))]
    ensures coordinator.refreshRequests == old(coordinator.refreshRequests) + (if result.IsOk() then 1 else 0)
  {
    var level := brightness.GetOr(255);
    var _ := coordinator.SetPinState(pin, "on", Some(level), result);
  }

  /** `async_turn_off`: "off" with no brightness. */
  method TurnOff(coordinator: LegacyAdamCoordinator, pin: int, result: WriteResult)
    modifies coordinator`requests, coordinator`refreshRequests
    ensures coordinator.requests == old(coordinator.requests) + [PinControl(pin, "off", None)]
    ensures coordinator.refreshRequests == old(coordinator.refreshRequests) + (if result.IsOk() then 1 else 0)
  {
    var _ := coordinator.SetPinState(pin, "off", None, result);
  }
}
