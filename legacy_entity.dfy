/** The base entity of the older revision (entity.py at the repository root):
    values derived once from the pin config, and reads of the last snapshot by
    integer pin. */
module LegacyEntity {
  import opened Json
  import opened Text
  import opened Records
  import opened LegacyCoordinator

  /** `_attr_name`: the configured name, else `P{pin}`; an explicit null stays None. */
  function EntityName(p: PinConfig): (name: Option<string>)
    ensures p.name.Absent? ==> name == Some("P" + Decimal(p.pin))
    ensures p.name.Present? ==> name == Some(p.name.value)
  {
    p.name.Get("P" + Decimal(p.pin))
  }

  /** Unnamed pins get distinct default names. */
  lemma DefaultNamesDistinct(p: PinConfig, q: PinConfig)
    requires p.name.Absent? && q.name.Absent? && p.pin != q.pin
    ensures EntityName(p) != EntityName(q)
  {
    if EntityName(p) == EntityName(q) {
      PrefixedDecimalInjective("P", p.pin, q.pin);
    }
  }

  /** `_attr_unique_id`: `{mac}_pin_{pin}`. */
  function UniqueId(mac: string, pin: int): (id: string)
    ensures |id| > |mac| + 5 && id[..|mac| + 5] == mac + "_pin_"
    ensures pin >= 0 ==> AllDigits(id[|mac| + 5..]) && DecimalValue(id[|mac| + 5..]) == pin
  {
    DecimalSign(pin);
    NatDecimalRoundTrip(if pin < 0 then -pin else pin);
    var id := mac + "_pin_" + Decimal(pin);
    assert id[|mac| + 5..] == Decimal(pin);
    id
  }

  /** On one controller, distinct pins give distinct unique ids. */
  lemma UniqueIdInjective(mac: string, a: int, b: int)
    requires UniqueId(mac, a) == UniqueId(mac, b)
    ensures a == b
  {
    PrefixedDecimalInjective(mac + "_pin_", a, b);
  }

  /** The device name: the controller's `name`, else "Adam Controller". */
  function DeviceName(info: DeviceInfo): (name: Option<string>)
    ensures info.name.Absent? ==> name == Some("Adam Controller")
    ensures info.name.Present? ==> name == Some(info.name.value)
  {
    info.name.Get("Adam Controller")
  }

  /** `available`: the last update succeeded and the pin has a state. */
  function Available(lastUpdateSuccess: bool, data: LegacySnapshot, pin: int): (available: bool)
    ensures available ==> lastUpdateSuccess
    ensures available ==> pin in data.pinStates && GetPinState(data, pin) == data.pinStates[pin]
    ensures lastUpdateSuccess && !available ==> GetPinState(data, pin) == EmptyPinState
  {
    lastUpdateSuccess && pin in data.pinStates
  }

  /** After a successful poll, an entity is available exactly when some state
      fetch for its pin got a 200. */
  lemma AvailableAfterPoll(r: LegacyPollReplies, pin: int)
    requires LegacyPoll(r).Refreshed?
    ensures Available(true, LegacyPoll(r).snapshot, pin) <==>
      exists k :: 0 <= k < |Items(r.pinsConfig.body)| && Items(r.pinsConfig.body)[k].pin == pin
        && ReplyAt(r.pinStates, k).IsOk()
  {
    LegacyPinStatesExact(Items(r.pinsConfig.body), r.pinStates, pin);
  }

  /** `_get_pin_state`: the pin's state, or `{}` when it has none. */
  function GetPinState(data: LegacySnapshot, pin: int): (state: PinState)
    ensures pin in data.pinStates ==> state == data.pinStates[pin]
    ensures pin !in data.pinStates ==> state == EmptyPinState
  {
    if pin in data.pinStates then data.pinStates[pin] else EmptyPinState
  }

  /** An entity whose pin has no state reads as off. */
  lemma UnavailableReadsOff(data: LegacySnapshot, pin: int)
    requires !Available(true, data, pin)
    ensures StateFlag(GetPinState(data, pin)) == Some(false)
  {
  }
}
