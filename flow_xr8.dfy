/** The decisions of the option wizard's XR8 relay-module steps: which slot a
    new module takes, how the typed I2C address is read and checked, and which
    relay names are sent. */
module FlowXr8 {
  import opened Json
  import opened Text
  import opened Records

  // ---------------------------------------------------------------------------
  // Module lookup and free slots

  /** `next((m for m in modules if m.get("id") == id), None)`. */
  function FirstWithId(modules: seq<RelayModule>, id: int): (r: Option<RelayModule>)
    ensures r.None? <==> forall m :: m in modules ==> m.id != Some(id)
    ensures r.Some? ==> exists k :: (0 <= k < |modules| && modules[k] == r.value && r.value.id == Some(id) &&
      forall j :: 0 <= j < k ==> modules[j].id != Some(id))
    decreases |modules|
  {
    if modules == [] then None
    else if modules[0].id == Some(id) then Some(modules[0])
    else
      var r := FirstWithId(modules[1..], id);
      assert forall m :: m in modules ==> m == modules[0] || m in modules[1..];
      if r.Some? then
        var k :| 0 <= k < |modules[1..]| && modules[1..][k] == r.value && r.value.id == Some(id) &&
          forall j :: 0 <= j < k ==> modules[1..][j].id != Some(id);
        assert modules[k + 1] == r.value;
        assert forall j :: 0 <= j < k + 1 ==> modules[j].id != Some(id) by {
          forall j | 0 <= j < k + 1
            ensures modules[j].id != Some(id)
          {
            if j > 0 {
              assert modules[j] == modules[1..][j - 1];
            }
          }
        }
        r
      else r
  }

  /** Slot `i` may take a new module: no module has that id, or the first one
      that does is not configured. */
  predicate SlotFree(modules: seq<RelayModule>, i: int) {
    FirstWithId(modules, i).None? || !FirstWithId(modules, i).value.configured
  }

  /** The "add" action of `async_step_configure_xr8`: the lowest of the eight
      slots that is free, or none. */
  method FindFreeSlot(modules: seq<RelayModule>) returns (slot: Option<int>)
    ensures slot.Some? ==> 0 <= slot.value < 8 && SlotFree(modules, slot.value)
    ensures slot.Some? ==> forall j :: 0 <= j < slot.value ==> !SlotFree(modules, j)
    ensures slot.None? ==> forall j :: 0 <= j < 8 ==> !SlotFree(modules, j)
  {
    for i := 0 to 8
      invariant forall j :: 0 <= j < i ==> !SlotFree(modules, j)
    {
      var found := FirstWithId(modules, i);
      if found.None? || !found.value.configured {
        return Some(i);
      }
    }
    return None;
  }

  /** A slot no module claims is always offered before any later slot. */
  lemma UnclaimedSlotIsFree(modules: seq<RelayModule>, i: int)
    requires forall m :: m in modules ==> m.id != Some(i)
    ensures SlotFree(modules, i)
  {
  }

  // ---------------------------------------------------------------------------
  // Address text

  /** The text starts with `0x` or `0X`. */
  predicate HexPrefixed(text: string) {
    |text| >= 2 && text[0] == '0' && (text[1] == 'x' || text[1] == 'X')
  }

  /** `int(text, 16)` for prefixed text and `int(text)` otherwise, restricted to
      a prefix followed by hex digits, or to plain decimal digits; `None` is
      the `ValueError`. */
  function ParseAddress(text: string): (address: Option<int>)
    ensures address.Some? ==> address.value >= 0
    ensures address.Some? && HexPrefixed(text) ==> |text| > 2 && AllHex(text[2..])
    ensures address.Some? && !HexPrefixed(text) ==> |text| > 0 && AllDigits(text)
  {
    if HexPrefixed(text) then
      var digits := text[2..];
      if |digits| > 0 && AllHex(digits) then Some(HexValue(digits)) else None
    else if |text| > 0 && AllDigits(text) then Some(DecimalValue(text))
    else None
  }

  /** The address shown as `0x{address:02X}` reads back as the same address. */
  lemma HexAddressRoundTrip(address: nat)
    ensures ParseAddress("0x" + Hex02(address)) == Some(address)
  {
    Hex02RoundTrip(address);
    assert ("0x" + Hex02(address))[2..] == Hex02(address);
  }

  /** A plain decimal address reads back as itself. */
  lemma DecimalAddressRoundTrip(address: nat)
    ensures ParseAddress(NatDecimal(address)) == Some(address)
  {
    NatDecimalRoundTrip(address);
    var s := NatDecimal(address);
    assert |s| >= 2 ==> IsDigit(s[1]);
  }

  /** Text that is neither a prefixed hex number nor a decimal number is a
      format error; in particular a bare prefix or the empty text. */
  lemma MalformedAddresses()
    ensures ParseAddress("") == None
    ensures ParseAddress("0x") == None
    ensures ParseAddress("0xg") == None
    ensures ParseAddress("x20") == None
  {
    assert !IsDigit("x20"[0]);
    assert !IsHexDigit("0xg"[2]);
  }

  // ---------------------------------------------------------------------------
  // Address checks

  /** An MCP23017 expander answers on 0x20 to 0x27. */
  predicate InRange(address: int) {
    0x20 <= address <= 0x27
  }

  /** Another configured module, one with a different id, has the address. */
  predicate AddressTaken(modules: seq<RelayModule>, address: int, moduleId: int) {
    exists m :: m in modules && m.configured && m.address.Peek() == Some(address) && m.id != Some(moduleId)
  }

  datatype AddressError = InvalidAddressFormat | InvalidAddressRange | AddressInUse

  datatype AddressCheck = Accepted(address: int) | Rejected(error: AddressError)

  /** The checks of the add and edit steps, in their order: format, then
      range, then use by another module. */
  function CheckAddress(text: string, modules: seq<RelayModule>, moduleId: int): (c: AddressCheck)
    ensures c.Accepted? <==>
      ParseAddress(text).Some? && InRange(ParseAddress(text).value) && !AddressTaken(modules, ParseAddress(text).value, moduleId)
    ensures c.Accepted? ==> c.address == ParseAddress(text).value
    ensures c == Rejected(InvalidAddressFormat) <==> ParseAddress(text).None?
    ensures c == Rejected(InvalidAddressRange) <==> ParseAddress(text).Some? && !InRange(ParseAddress(text).value)
  {
    match ParseAddress(text)
    case None => Rejected(InvalidAddressFormat)
    case Some(address) =>
      if !InRange(address) then Rejected(InvalidAddressRange)
      else if AddressTaken(modules, address, moduleId) then Rejected(AddressInUse)
      else Accepted(address)
  }

  /** For a well-formed address in range, `address_in_use` is reported exactly
      when another configured module holds it. */
  lemma AddressInUseExactly(text: string, modules: seq<RelayModule>, moduleId: int)
    requires ParseAddress(text).Some? && InRange(ParseAddress(text).value)
    ensures CheckAddress(text, modules, moduleId) == Rejected(AddressInUse) <==>
      AddressTaken(modules, ParseAddress(text).value, moduleId)
  {
  }

  /** A module keeps its own address when edited: an address held only by
      modules with the same id is never in use. */
  lemma OwnAddressIsFree(modules: seq<RelayModule>, moduleId: int, address: int)
    requires forall m :: m in modules && m.configured && m.address.Peek() == Some(address) ==> m.id == Some(moduleId)
    requires InRange(address)
    ensures CheckAddress("0x" + Hex02(address), modules, moduleId) == Accepted(address)
  {
    HexAddressRoundTrip(address);
  }

  /** The add step's default text `0x20` is accepted unless another module uses it. */
  lemma AddDefaultAddress(modules: seq<RelayModule>, moduleId: int)
    ensures CheckAddress("0x20", modules, moduleId) ==
      if AddressTaken(modules, 0x20, moduleId) then Rejected(AddressInUse) else Accepted(0x20)
  {
    assert "0x20" == "0x" + Hex02(0x20);
    HexAddressRoundTrip(0x20);
  }

  /** The in-use loop of the add and edit steps, which returns at the first
      conflicting module. */
  method FindAddressConflict(modules: seq<RelayModule>, address: int, moduleId: int) returns (inUse: bool)
    ensures inUse == AddressTaken(modules, address, moduleId)
  {
    for i := 0 to |modules|
      invariant forall j :: 0 <= j < i ==>
        !(modules[j].configured && modules[j].address.Peek() == Some(address) && modules[j].id != Some(moduleId))
    {
      var m := modules[i];
      if m.configured && m.address.Peek() == Some(address) && m.id != Some(moduleId) {
        return true;
      }
    }
    return false;
  }

  /** The parsing, range check and in-use loop of one submitted address. */
  method ValidateAddress(text: string, modules: seq<RelayModule>, moduleId: int) returns (c: AddressCheck)
    ensures c == CheckAddress(text, modules, moduleId)
  {
    var parsed := ParseAddress(text);
    if parsed.None? {
      return Rejected(InvalidAddressFormat);
    }
    var address := parsed.value;
    if address < 0x20 || address > 0x27 {
      return Rejected(InvalidAddressRange);
    }
    var inUse := FindAddressConflict(modules, address, moduleId);
    if inUse {
      return Rejected(AddressInUse);
    }
    return Accepted(address);
  }

  /** The edit step's default text `0x{module.get("address", 0x20):02X}`; `None`
      when the stored address is null, which the formatting cannot render. */
  function EditAddressText(m: RelayModule): Option<string> {
    match m.address.Get(0x20)
    case None => None
    case Some(address) => Some("0x" + Hex02(address))
  }

  /** Submitting the edit form unchanged re-reads the module's own address
      (0x20 when it has none). */
  lemma EditAddressTextRoundTrip(m: RelayModule)
    requires m.address.Get(0x20).Some? && m.address.Get(0x20).value >= 0
    ensures EditAddressText(m).Some?
    ensures ParseAddress(EditAddressText(m).value) == m.address.Get(0x20)
  {
    HexAddressRoundTrip(m.address.Get(0x20).value);
  }

  // ---------------------------------------------------------------------------
  // Relay names

  /** The name a relay gets when the form leaves it out. */
  function DefaultRelayName(moduleId: int, i: int): string {
    "XR8_" + Decimal(moduleId + 1) + "_Relay_" + Decimal(i + 1)
  }

  /** The default names of one module's relays are pairwise distinct. */
  lemma DefaultRelayNamesDistinct(moduleId: int, i: int, j: int)
    requires DefaultRelayName(moduleId, i) == DefaultRelayName(moduleId, j)
    ensures i == j
  {
    PrefixedDecimalInjective("XR8_" + Decimal(moduleId + 1) + "_Relay_", i + 1, j + 1);
  }

  /** The eight relay names of the add and edit steps: the submitted
      `relay_{i}` value, else the default. */
  function RelayNameList(moduleId: int, relayInputs: map<int, string>): (names: seq<string>)
    ensures |names| == 8
    ensures forall i :: 0 <= i < 8 && i !in relayInputs ==> names[i] == DefaultRelayName(moduleId, i)
    ensures forall i :: 0 <= i < 8 && i in relayInputs ==> names[i] == relayInputs[i]
  {
    seq(8, i requires 0 <= i < 8 => if i in relayInputs then relayInputs[i] else DefaultRelayName(moduleId, i))
  }

  /** The name loop of the add and edit steps. */
  method RelayNames(moduleId: int, relayInputs: map<int, string>) returns (names: seq<string>)
    ensures names == RelayNameList(moduleId, relayInputs)
  {
    names := [];
    for i := 0 to 8
      invariant names == RelayNameList(moduleId, relayInputs)[..i]
    {
      var name := if i in relayInputs then relayInputs[i] else DefaultRelayName(moduleId, i);
      names := names + [name];
    }
  }

  /** What an add or edit step that got past the address checks leads to. */
  datatype Xr8Outcome =
    | ModuleList
    | AddressRejected(error: AddressError)
    | SaveFailed
    | FormattingFailed
}
