/** The switch platform of the current integration
    (custom_components/iotix/switch.py). */
module SwitchPlatform {
  import opened Json
  import opened Records
  import opened Coordinator

  /** The pin configs that become switches: every entry of type switch, in order. */
  function Switches(entries: seq<PinConfig>): (switches: seq<PinConfig>)
    ensures forall p :: p in switches ==> p.kind == Switch
    ensures forall p :: p in entries && p.kind == Switch ==> multiset(switches)[p] == multiset(entries)[p]
  {
    forall p | p in entries && p.kind == Switch
      ensures multiset(OfKind(entries, Switch))[p] == multiset(entries)[p]
    {
      OfKindCount(entries, Switch, p);
    }
    OfKind(entries, Switch)
  }

  /** `is_on`: the `state` field of the switch's pin state, False when missing. */
  function IsOn(state: PinState): (on: Option<bool>)
    ensures state.state.Absent? ==> on == Some(false)
    ensures on == Some(true) <==> state.state == Present(true)
  {
    StateFlag(state)
  }

  /** `async_turn_on`: "on" for the switch's pin, no brightness. */
  method TurnOn(coordinator: AdamCoordinator, pin: int, result: WriteResult)
    modifies coordinator`requests, coordinator`refreshRequests
    ensures coordinator.requests == old(coordinator.requests) + [PinControl(pin, "on", None)]
    ensures coordinator.refreshRequests == old(coordinator.refreshRequests) + (if result.IsOk() then 1 else 0)
  {
    var _ := coordinator.SetPinState(pin, "on", None, result);
  }

  /** `async_turn_off`: "off" for the switch's pin. */
  method TurnOff(coordinator: AdamCoordinator, pin: int, result: WriteResult)
    modifies coordinator`requests, coordinator`refreshRequests
    ensures coordinator.requests == old(coordinator.requests) + [PinControl(pin, "off", None)]
    ensures coordinator.refreshRequests == old(coordinator.refreshRequests) + (if result.IsOk() then 1 else 0)
  {
    var _ := coordinator.SetPinState(pin, "off", None, result);
  }
}
