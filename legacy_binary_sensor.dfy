/** The binary-sensor platform of the older revision (binary_sensor.py): a
    read-only entity with no commands. */
module LegacyBinarySensor {
  import opened Json
  import opened Records
  import opened LegacyCoordinator
  import opened LegacyEntity

  /** The pin configs that become sensors: every entry of type binary_sensor,
      in order; no other type yields a sensor. */
  function Sensors(entries: seq<PinConfig>): (sensors: seq<PinConfig>)
    ensures forall p :: p in sensors ==> p.kind == BinarySensor
    ensures forall p :: p in entries && p.kind == BinarySensor ==> multiset(sensors)[p] == multiset(entries)[p]
  {
    forall p | p in entries && p.kind == BinarySensor
      ensures multiset(OfKind(entries, BinarySensor))[p] == multiset(entries)[p]
    {
      OfKindCount(entries, BinarySensor, p);
    }
    OfKind(entries, BinarySensor)
  }

  /** `is_on`: the state flag, False when the pin has no state. */
  function IsOn(data: LegacySnapshot, pin: int): (on: Option<bool>)
    ensures pin !in data.pinStates ==> on == Some(false)
    ensures on == Some(true) <==> pin in data.pinStates && data.pinStates[pin].state == Present(true)
  {
    StateFlag(GetPinState(data, pin))
  }
}
