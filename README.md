# IoTiX Adam integration — a Dafny model

This project models the decision-making core of the Home Assistant integration
for the IoTiX "Adam" I/O controller. The controller has sixteen physical pins
numbered 0 to 15. It can also drive up to eight XR8 relay-expansion modules and
up to a handful of motorised covers. The integration polls the controller over
HTTP, publishes entities for its pins, and offers an option wizard that edits
the controller's configuration.

Every HTTP exchange is an input of the model. A `Response<T>` is either a reply
with a status and a decoded body, or a transport error. A `WriteResult` is a
status or a transport failure. JSON objects read with `.get(key, default)` are
`Field<T>` values: `Absent`, `Null` or `Present(v)`. So `Get(d)` returns exactly
what Python's `.get` returns, including the `None` an explicit null produces.

The modules follow the source files:

- `Json`, `Text`, `Records`: responses and fields; Python's `str()`,
  `int()`, `format(n, "02X")` and `lstrip("v")` on the strings the integration
  builds; and the decoded controller records.
- `Coordinator`: the polling coordinator of the current integration
  (`custom_components/iotix/coordinator.py`). This covers the cover merge, the
  pin-state keys, the soft-failing fetches and the button-event listener
  registry with its dispatch. The registry is a class with a map field. The
  commands issue one write and request a refresh only on a 200.
- `FlowPins`, `FlowXr8`, `FlowSave`, `FlowCover`, `ConfigFlow`: the option
  wizard (`custom_components/iotix/config_flow.py`). This covers:
  - the available-pin parsing, which sorts and deduplicates;
  - the XR8 virtual relay pins `1000 + module*100 + relay`;
  - the address parser and its range and in-use checks;
  - the free-slot search and the relay names;
  - the payloads of the pin and cover saves;
  - the cover editor's validation order and default pins;
  - `_get_cover_for_pin`.

  The wizard's own state is the class `ConfigFlow.OptionsFlow`.
- `CoverPlatform`, `EventPlatform`, `SwitchPlatform`, `FirmwareUpdate`: the
  entity platforms of the current integration.
- `LegacyCoordinator`, `LegacyEntity`, `LegacyLight`, `LegacyBinarySensor`,
  `LegacyCover`: the older revision at the repository root, whose `pin_states`
  map is keyed by integer pin.

Where the source is imperative, the model is imperative too: the listener
registry, the merge loop, the state loops, the wizard's fetch, the XR8 loop
with its early exit, the free-slot search, and the update entity's in-progress
flag. Each such method is proved equal to a specification function, and the
lemmas state what those functions guarantee.

Two points where the code decides:

- The coordinator passes cover timers through unchanged. Only the wizard's
  `_save_cover_config` raises them to at least one second.
- The coordinator's merge and the cover platform's setup deduplicate
  differently. The merge adds every dedicated cover whose id is not in the pin
  list, so a dedicated list that repeats an id yields two synthesized entries.
  The setup's own loop keeps a growing set of seen ids. Because the setup's
  first loop reads the already merged list, both duplicates still become
  entities with the same unique id. `CoverPlatform.SetupDedupesDedicated` and
  `CoverPlatform.MergedDuplicatesReachSetup` state the two behaviours side by
  side.

## Model

| member | source | states |
|---|---|---|
| Records.StateFlag | custom_components/iotix/switch.py:45-49 | `state.get("state", False)`: True exactly for a stored true, False when the key is missing, None for an explicit null |
| Records.OfKind | custom_components/iotix/switch.py:24-27 | a platform's setup filter keeps only entries of its type, each taken from the list |
| Records.OfKindAppend | custom_components/iotix/switch.py:24-27 | filtering a concatenation is filtering each part, so the list order is kept |
| Records.OfKindCount | custom_components/iotix/switch.py:24-27 | every entry of the type yields exactly as many entities as it occurs, and entries of other types yield none |
| Text.NatDecimalRoundTrip | custom_components/iotix/config_flow.py:1150-1153 | `str(n)` is a non-empty run of digits that `int()` reads back as `n` |
| Text.DecimalSign | custom_components/iotix/config_flow.py:1185 | `str(n)` is non-empty and starts with '-' exactly for negative numbers |
| Text.DecimalInjective | custom_components/iotix/cover.py:80 | distinct integers render to distinct decimal strings |
| Text.PrefixedDecimalInjective | custom_components/iotix/config_flow.py:1185 | two texts `prefix + str(n)` with the same prefix are equal only for equal numbers |
| Text.NatHexRoundTrip | custom_components/iotix/config_flow.py:1151 | hex rendering of a natural number reads back through `int(s, 16)` |
| Text.Hex02RoundTrip | custom_components/iotix/config_flow.py:1227 | the `02X` rendering is at least two hex digits and reads back as the number |
| Text.StripLeadingV | custom_components/iotix/update.py:141-142 | `lstrip("v")` returns a suffix that does not start with 'v', after dropping only 'v' characters |
| Text.StripLeadingVIdempotent | custom_components/iotix/update.py:141-142 | stripping the tag twice strips nothing more |
| Coordinator.Synthesized | custom_components/iotix/coordinator.py:117-140 | every synthesized entry is a cover at pin `100+id`, with an id not in the pin list, taken from a dedicated cover |
| Coordinator.MergedPins | custom_components/iotix/coordinator.py:116-140 | the raw pin list is an unchanged prefix, followed by at most one entry per dedicated cover |
| Coordinator.MergeCoverPins | custom_components/iotix/coordinator.py:116-140 | the append loop builds exactly the merged list |
| Coordinator.SynthesizedCover | custom_components/iotix/coordinator.py:123-139 | the synthesized pin is 100 + id, a cover output with that id; its name defaults to "Cover id+1" only when the key is missing (a null name stays null); interlock defaults to true, moving to false and direction to "stopped"; the pins and times are copied as given |
| Coordinator.SynthesizedCoversEveryNewId | custom_components/iotix/coordinator.py:117-140 | every dedicated cover with a non-null id the pin list lacks is synthesized |
| Coordinator.SynthesizedFromDedicated | custom_components/iotix/coordinator.py:117-140 | every synthesized entry comes from a dedicated cover with a new id |
| Coordinator.PinListWins | custom_components/iotix/coordinator.py:110-121 | a cover id of the pin list (its `coverId`, else `max(pin-100, 0)`) is never synthesized again; the id set is computed once |
| Coordinator.MergeExamplePinListWins | custom_components/iotix/coordinator.py:110-121 | with cover 2 in both sources the merged list is the pin list alone |
| Coordinator.MergeExampleDedicatedOnly | custom_components/iotix/coordinator.py:122-140 | a cover known only to the dedicated source gives one entry at pin 101 |
| Coordinator.MergeKeepsDedicatedDuplicates | custom_components/iotix/coordinator.py:117-140 | a dedicated list repeating cover 1 gives two entries at pin 101, because the id set is not updated in the loop |
| Coordinator.KeyTextInjective | custom_components/iotix/coordinator.py:148-149 | distinct `in_N`/`out_N` keys have distinct texts |
| Coordinator.StateQueries | custom_components/iotix/coordinator.py:143-149 | only non-cover entries below pin 100 are queried, and every key is below 100 |
| Coordinator.FetchPinStates | custom_components/iotix/coordinator.py:142-160 | the state loop builds exactly the specified `pin_states` map |
| Coordinator.PinStates | custom_components/iotix/coordinator.py:142-160 | every key of `pin_states` is the key of a fetch the poll issued, so only non-cover pins below 100 appear |
| Coordinator.PinStatesExact | custom_components/iotix/coordinator.py:142-160 | a key is present exactly when some fetch under that key got a 200; failures are skipped |
| Coordinator.PinStatesLastWins | custom_components/iotix/coordinator.py:150-157 | the stored state is the body of the last successful fetch under the key |
| Coordinator.CollectCoversState | custom_components/iotix/coordinator.py:162-173 | the loop builds exactly the specified `covers_state` map |
| Coordinator.CoversStateOf | custom_components/iotix/coordinator.py:162-173 | every stored state comes from the reply list and carries the `coverId` it is stored under |
| Coordinator.CoversStateExact | custom_components/iotix/coordinator.py:169-173 | an entry with a `coverId` is stored under it unless a later entry has the same id |
| Coordinator.CoversStateKeys | custom_components/iotix/coordinator.py:169-173 | only ids carried by some entry become keys; entries without `coverId` are dropped |
| Coordinator.RaisedSnoc | custom_components/iotix/coordinator.py:66-73 | a raising callback is logged once, after the earlier ones |
| Coordinator.DeliveriesAppend | custom_components/iotix/coordinator.py:58-60 | events are dispatched one after the other, in list order |
| Coordinator.DeliveredOnlyToRegistered | custom_components/iotix/coordinator.py:58-66 | every call goes to a callback registered on the pin of some event, with that event's type |
| Coordinator.Deliveries | custom_components/iotix/coordinator.py:58-66 | every callback call goes to a callback registered on that call's pin |
| Coordinator.DispatchExample | custom_components/iotix/coordinator.py:58-67 | two listeners on pin 5 both get one short press in registration order; a listener on pin 6 gets none |
| Coordinator.RegisterThenDeliver | custom_components/iotix/coordinator.py:52-67 | registering on a pin adds exactly one call per later event on that pin and none elsewhere |
| Coordinator.Registered | custom_components/iotix/coordinator.py:52-56 | the id goes at the end of its pin's list, a new list when the pin had none; every other pin keeps its list |
| Coordinator.Poll | custom_components/iotix/coordinator.py:75-231 | `UpdateFailed` exactly when info or pin config is not a 200, with the matching reason; otherwise a snapshot in which every other fetch degrades to its empty default |
| Coordinator.PollSnapshot | custom_components/iotix/coordinator.py:96-217 | the snapshot keeps the info body and the raw pin list as a prefix; its state keys are fetched keys below pin 100; covers-state entries sit under their own id; `triggers` keeps its default exactly when that fetch failed; without covers config the pin list is the raw one |
| Coordinator.FetchList | custom_components/iotix/coordinator.py:98-108 | a list fetch keeps its `[]` default unless it got a 200, and then holds the returned list (a null list is held as `[]`, see Left out) |
| Coordinator.FetchSnapshot | custom_components/iotix/coordinator.py:96-217 | the soft-failing fetches build exactly the specified snapshot |
| Coordinator.CallEach | custom_components/iotix/coordinator.py:64-73 | each callback of the pin is called once, in order; a raising one is logged and the rest still run |
| Coordinator.AdamCoordinator.constructor | custom_components/iotix/coordinator.py:37-50 | an empty listener registry and no traffic |
| Coordinator.AdamCoordinator.RegisterButtonEventListener | custom_components/iotix/coordinator.py:52-56 | the callback is appended to its pin's list, which is created when absent; other pins are unchanged |
| Coordinator.AdamCoordinator.TriggerButtonEvents | custom_components/iotix/coordinator.py:58-73 | the calls made are exactly the specified deliveries, and the logged errors are exactly the raising calls |
| Coordinator.AdamCoordinator.UpdateData | custom_components/iotix/coordinator.py:75-231 | the poll result; on success the fetched events are dispatched, and on failure nothing is dispatched |
| Coordinator.AdamCoordinator.RequestRefresh | custom_components/iotix/coordinator.py:254 | one more refresh request |
| Coordinator.AdamCoordinator.Send | custom_components/iotix/coordinator.py:246-259 | one request; True and one refresh exactly on a 200 |
| Coordinator.AdamCoordinator.SetPinState | custom_components/iotix/coordinator.py:233-259 | brightness is sent only when given; True with one refresh only on a 200 |
| Coordinator.AdamCoordinator.ConfigurePin | custom_components/iotix/coordinator.py:261-283 | one configure request; True with one refresh only on a 200 |
| Coordinator.AdamCoordinator.CoverCommand | custom_components/iotix/coordinator.py:285-304 | one cover command; True with one refresh only on a 200 |
| Coordinator.AdamCoordinator.ConfigureCover | custom_components/iotix/coordinator.py:306-343 | timers are passed through unclamped; True with one refresh only on a 200 |
| Coordinator.AdamCoordinator.ConfigureXr8Module | custom_components/iotix/coordinator.py:345-374 | relay names are sent exactly when exactly 8 are given; True with one refresh only on a 200 |
| FlowPins.HeadIsLeast | custom_components/iotix/config_flow.py:240-241 | the head of a sorted, duplicate-free list is its least element |
| FlowPins.ConsIncreasing | custom_components/iotix/config_flow.py:240-241 | putting a value below every element in front keeps the list strictly increasing |
| FlowPins.Insert | custom_components/iotix/config_flow.py:240-241 | inserting into a strictly increasing list keeps it strictly increasing and adds exactly the value |
| FlowPins.SortedSet | custom_components/iotix/config_flow.py:240-241 | `sorted(set(xs))` is strictly increasing and holds exactly the values of `xs` |
| FlowPins.SortedSetUnique | custom_components/iotix/config_flow.py:240-241 | two strictly increasing lists with the same elements are equal |
| FlowPins.SortedSetOfSorted | custom_components/iotix/config_flow.py:496-497 | sorting and deduplicating an already sorted list changes nothing |
| FlowPins.UsablePinsExact | custom_components/iotix/config_flow.py:226-239 | a number is kept exactly when some entry of that direction carries it and it lies in 0..15 |
| FlowPins.ParseAvailablePins | custom_components/iotix/config_flow.py:226-241 | the loop yields the sorted, deduplicated usable pins of each direction |
| FlowPins.ParsedPinsExact | custom_components/iotix/config_flow.py:226-241 | the parsed lists are strictly increasing and hold exactly the usable numbers |
| FlowPins.VirtualRelayPinDecode | custom_components/iotix/config_flow.py:259 | for relay ids 0..99 the module and relay are read back from the virtual pin |
| FlowPins.VirtualRelayPinInjective | custom_components/iotix/config_flow.py:259 | two relays with ids 0..99 never share a virtual pin |
| FlowPins.VirtualRelayPinNotPhysical | custom_components/iotix/config_flow.py:259 | relays of modules with non-negative ids are numbered 1000 and up, never a physical pin |
| FlowPins.VirtualRelayPin | custom_components/iotix/config_flow.py:259 | for relay ids 0..99 each module owns its own block of 100 numbers from 1000 + 100 * module id |
| FlowPins.ModuleRelayPinsFrom | custom_components/iotix/config_flow.py:251-261 | every pin of a module is the virtual pin of one of its relays |
| FlowPins.ModuleRelayPinsComplete | custom_components/iotix/config_flow.py:251-261 | a module the loop gets through contributes the virtual pin of every relay |
| FlowPins.RelayPinsFrom | custom_components/iotix/config_flow.py:244-261 | every virtual pin comes from a relay of a configured module; unconfigured modules contribute nothing |
| FlowPins.RelayPinsComplete | custom_components/iotix/config_flow.py:244-261 | the loop runs to the end exactly when every module can be read, and then every relay of every configured module is offered |
| FlowPins.AppendRelayPins | custom_components/iotix/config_flow.py:244-261 | the loop appends exactly the specified virtual pins and stops at the first error, keeping what it appended |
| FlowXr8.FirstWithId | custom_components/iotix/config_flow.py:1088 | the first module with that id, or none when no module has it |
| FlowXr8.FindFreeSlot | custom_components/iotix/config_flow.py:1085-1092 | the lowest of slots 0..7 with no module or an unconfigured one; none when all eight are taken |
| FlowXr8.UnclaimedSlotIsFree | custom_components/iotix/config_flow.py:1088-1089 | a slot no module claims is free |
| FlowXr8.HexAddressRoundTrip | custom_components/iotix/config_flow.py:1227-1231 | the text `0x{a:02X}` parses back as `a` |
| FlowXr8.DecimalAddressRoundTrip | custom_components/iotix/config_flow.py:1150-1153 | a decimal address parses back as itself |
| FlowXr8.MalformedAddresses | custom_components/iotix/config_flow.py:1162-1168 | empty text, a bare prefix, a bad hex digit and a stray `x` are format errors |
| FlowXr8.ParseAddress | custom_components/iotix/config_flow.py:1149-1153 | a read address is non-negative and comes either from a prefix followed by at least one hex digit, or from non-empty decimal text |
| FlowXr8.CheckAddress | custom_components/iotix/config_flow.py:1147-1180 | format error first, then range (0x20..0x27), then use by another configured module; accepted exactly when all three pass |
| FlowXr8.AddressInUseExactly | custom_components/iotix/config_flow.py:1172-1180 | a well-formed in-range address is in use exactly when another configured module with a different id holds it |
| FlowXr8.OwnAddressIsFree | custom_components/iotix/config_flow.py:1255-1265 | a module keeps its own address when edited |
| FlowXr8.AddDefaultAddress | custom_components/iotix/config_flow.py:1147 | the default text `0x20` is accepted unless another module uses it |
| FlowXr8.FindAddressConflict | custom_components/iotix/config_flow.py:1172-1180 | the early-return loop reports exactly the in-use condition |
| FlowXr8.ValidateAddress | custom_components/iotix/config_flow.py:1147-1180 | parsing, range check and in-use loop give exactly the address check |
| FlowXr8.EditAddressTextRoundTrip | custom_components/iotix/config_flow.py:1227-1233 | submitting the edit form unchanged re-reads the module's own address, 0x20 when it has none |
| FlowXr8.DefaultRelayNamesDistinct | custom_components/iotix/config_flow.py:1185 | the default names of one module's relays are pairwise distinct |
| FlowXr8.RelayNameList | custom_components/iotix/config_flow.py:1183-1186 | eight names, each the submitted `relay_i` or else the default |
| FlowXr8.RelayNames | custom_components/iotix/config_flow.py:1183-1186 | the loop builds exactly that list |
| FlowSave.SentType | custom_components/iotix/config_flow.py:922 | "button" is sent as "binary_sensor"; every other type as chosen |
| FlowSave.PinPayloadOf | custom_components/iotix/config_flow.py:916-935 | the payload carries the form's pin, name and direction, the sent type, and the optional button fields only when present |
| FlowSave.TriggerPosts | custom_components/iotix/config_flow.py:943-957 | at most two trigger requests; none targets output 255; a push request exactly when some press output was chosen |
| FlowSave.RejectedSaveSetsNoTrigger | custom_components/iotix/config_flow.py:937-957 | a configuration that did not get a 200 sets no trigger |
| FlowSave.ClassicTriggerExactly | custom_components/iotix/config_flow.py:945-946 | a classic trigger is sent exactly when the save got a 200 and the output is not 255 |
| FlowSave.PushButtonSave | custom_components/iotix/config_flow.py:855-864 | a push button is saved with 500 ms and 300 ms timings, and then one push-trigger request with the three outputs |
| FlowSave.AtLeastOneSecond | custom_components/iotix/config_flow.py:1049-1050 | `max(1, t)` |
| FlowSave.CoverPayloadOf | custom_components/iotix/config_flow.py:1042-1052 | the form's pins and name as given, and both timers at least one second |
| FlowSave.CoverTimersStable | custom_components/iotix/config_flow.py:1049-1050 | clamping is idempotent |
| FlowCover.PhysicalOnly | custom_components/iotix/config_flow.py:496-497 | keeps exactly the pins in 0..15 |
| FlowCover.CoverCandidates | custom_components/iotix/config_flow.py:496-497 | sorted, duplicate-free, and exactly the listed pins in 0..15 |
| FlowCover.CandidatesDropRelayPins | custom_components/iotix/config_flow.py:496-497 | refiltering the stored outputs drops exactly the appended relay pins |
| FlowCover.FormError | custom_components/iotix/config_flow.py:498-510 | too few inputs, then too few outputs, then equal inputs, then equal outputs; no error exactly when all checks pass |
| FlowCover.CountErrorsWin | custom_components/iotix/config_flow.py:498-510 | while pins are missing the count error is the only error, whatever was submitted |
| FlowCover.StoredCover | custom_components/iotix/config_flow.py:494 | a cover entry with that `coverId` that no earlier entry matches, or none exactly when no entry matches |
| FlowCover.CoverInterlock | custom_components/iotix/config_flow.py:521 | the stored entry's interlock, True when there is no entry or no key |
| FlowCover.FirstOther | custom_components/iotix/config_flow.py:548 | a member of the list, equal to the taken pin only when no other pin exists |
| FlowCover.FirstOtherOfDistinct | custom_components/iotix/config_flow.py:548 | on a duplicate-free list it is the first or the second element |
| FlowCover.ChooseUpDown | custom_components/iotix/config_flow.py:545-552 | up and down are both available and differ; a stored pin is kept when it is available |
| FlowCover.EditCoverDefaults | custom_components/iotix/config_flow.py:537-552 | the form's defaults: stored name or "Cover n", and distinct available up and down pins for inputs and outputs |
| FlowCover.CoverForPin | custom_components/iotix/config_flow.py:747-760 | the first cover entry at pin 100 or more whose up or down input (or output) is the pin, or none |
| FlowCover.CoverForPinFirst | custom_components/iotix/config_flow.py:749-760 | the first managing entry is the one found |
| FlowCover.SynthesizedCoverManagesItsInputs | custom_components/iotix/config_flow.py:749-760 | a synthesized cover is found for its own input pins |
| ConfigFlow.FetchedLists | custom_components/iotix/config_flow.py:188-261 | after a fetch the inputs and the physical outputs are sorted, duplicate-free physical pins, followed by the relay pins |
| ConfigFlow.CoverOutputsArePhysical | custom_components/iotix/config_flow.py:496-497 | with non-negative module and relay ids, the cover editor sees exactly the physical outputs |
| ConfigFlow.UnreachableFetchEmptiesLists | custom_components/iotix/config_flow.py:188-196 | an unreachable controller empties both pin lists and changes nothing else |
| ConfigFlow.CountError | custom_components/iotix/config_flow.py:498-502 | the error shown before any submission is exactly the count error of every form |
| ConfigFlow.OptionsFlow.constructor | custom_components/iotix/config_flow.py:164-180 | empty lists, no posts, no reloads |
| ConfigFlow.OptionsFlow.FetchPinData | custom_components/iotix/config_flow.py:188-261 | the stored lists become exactly the fetched data |
| ConfigFlow.OptionsFlow.GetCoverForPin | custom_components/iotix/config_flow.py:747-760 | the early-return loop finds exactly the first managing cover |
| ConfigFlow.OptionsFlow.SaveCoverConfig | custom_components/iotix/config_flow.py:1026-1067 | one cover post with clamped timers; on a 200 the data is fetched again and the entry reloaded |
| ConfigFlow.OptionsFlow.EditCover | custom_components/iotix/config_flow.py:484-552 | a save only when validation passes; back to the list exactly on a successful save; otherwise the form with the ordered error and, unless a count error, valid defaults |
| ConfigFlow.OptionsFlow.SavePinConfig | custom_components/iotix/config_flow.py:912-974 | the configure post, then trigger posts only on a 200; refetch and reload only on a 200 |
| ConfigFlow.OptionsFlow.AddXr8Module | custom_components/iotix/config_flow.py:1140-1212 | a rejected address sends nothing and requests no refresh; an accepted one sends the module configured with eight names, with one refresh and one reload only on success |
| ConfigFlow.OptionsFlow.EditXr8Module | custom_components/iotix/config_flow.py:1214-1303 | an unknown or unconfigured module sends nothing; a null stored address fails formatting before input is read; otherwise as adding (one refresh on success), without reload |
| ConfigFlow.OptionsFlow.DeleteXr8Module | custom_components/iotix/config_flow.py:1305-1331 | a confirmed delete of a configured module sends it unconfigured with its stored address and no names, with one refresh and one reload on success; always back to the list |
| CoverPlatform.DecimalIsNotNone | custom_components/iotix/cover.py:80 | a numeric cover id never renders as "None" |
| CoverPlatform.CoverUniqueIdInjective | custom_components/iotix/cover.py:80 | on one controller distinct cover ids give distinct unique ids |
| CoverPlatform.NewCoverEntity | custom_components/iotix/cover.py:79-80 | the cover id is `coverId`, else `max(pin-100, 0)`; the unique id is `{mac}_cover_{id}` |
| CoverPlatform.PinListCoverEntities | custom_components/iotix/cover.py:30-34 | one entity per pin-list cover at pin 100 or more |
| CoverPlatform.DedicatedCoverEntities | custom_components/iotix/cover.py:37-57 | dedicated covers with a non-null id not yet seen, pairwise distinct ids |
| CoverPlatform.PinListCoverIds | custom_components/iotix/cover.py:28-33 | every seen id belongs to a cover-type pin-list entry at pin 100 or above |
| CoverPlatform.SetupCovers | custom_components/iotix/cover.py:19-59 | the two loops build exactly the specified entities |
| CoverPlatform.AddPinListCovers | custom_components/iotix/cover.py:27-34 | the first loop builds the pin-list entities and the seen ids |
| CoverPlatform.AddDedicatedCovers | custom_components/iotix/cover.py:37-57 | the second loop appends exactly the dedicated entities, growing the seen set |
| CoverPlatform.PinListCoverIdsWitness | custom_components/iotix/cover.py:30-34 | every seen id belongs to a pin-list entity |
| CoverPlatform.DedicatedCoverage | custom_components/iotix/cover.py:37-57 | every dedicated cover id is seen or gets an entity |
| CoverPlatform.EveryDedicatedCoverHasAnEntity | custom_components/iotix/cover.py:27-57 | every dedicated cover id gets an entity, whatever the pin list holds |
| CoverPlatform.DedicatedEntitiesFresh | custom_components/iotix/cover.py:37-57 | dedicated entities never repeat a pin-list id, so at most one entity per id from that loop |
| CoverPlatform.PinListEntityIdSeen | custom_components/iotix/cover.py:32-34 | every pin-list entity's id is in the seen set |
| CoverPlatform.SetupDedupesDedicated | custom_components/iotix/cover.py:37-57 | the setup alone keeps one entity for a repeated dedicated id |
| CoverPlatform.MergedDuplicatesReachSetup | custom_components/iotix/cover.py:30-34 | the merged snapshot's duplicated cover yields two entities with the same unique id |
| CoverPlatform.MovingTowards | custom_components/iotix/cover.py:85-92 | true exactly when moving and heading that way; None for a null `moving` |
| CoverPlatform.IsOpening | custom_components/iotix/cover.py:83-86 | true exactly when moving and the direction is "up" |
| CoverPlatform.IsClosing | custom_components/iotix/cover.py:89-92 | true exactly when moving and the direction is "down" |
| CoverPlatform.OpeningClosingExclusive | custom_components/iotix/cover.py:83-92 | never opening and closing at once; neither without a state |
| CoverPlatform.IsClosed | custom_components/iotix/cover.py:95-100 | always unknown |
| CoverPlatform.SetupCoversAvailable | custom_components/iotix/cover.py:103-121 | every cover the setup builds is available while polls succeed |
| CoverPlatform.FailedPollUnavailable | custom_components/iotix/cover.py:105-106 | a failed poll makes every cover unavailable |
| CoverPlatform.CoverAvailable | custom_components/iotix/cover.py:103-121 | available only after a successful poll, and then for every id the setup's pin-list loop saw and every id of a dedicated cover; conversely, available exactly when the poll succeeded and the id is a cover id of the raw pin list or of a dedicated cover |
| CoverPlatform.SetupCoverConfig | custom_components/iotix/cover.py:42-55 | the setup's cover entry is pin 100 + id with the same name, interlock and pin defaults as the coordinator's synthesized entry, and carries no moving or direction |
| CoverPlatform.SetupConfigIsMergedWithoutMotion | custom_components/iotix/cover.py:42-55 | the setup's entry is the coordinator's synthesized entry with moving and direction removed |
| CoverPlatform.OpenCover | custom_components/iotix/cover.py:123-125 | "open" for the entity's own cover id; only the request log and the refresh count change |
| CoverPlatform.CloseCover | custom_components/iotix/cover.py:127-129 | "close" for the entity's own cover id; only the request log and the refresh count change |
| CoverPlatform.StopCover | custom_components/iotix/cover.py:131-133 | "stop" for the entity's own cover id; only the request log and the refresh count change |
| EventPlatform.EventEntities | custom_components/iotix/event.py:33-36 | only entries with truthy `isInput` and push mode, each numbered in order |
| EventPlatform.SetupEvents | custom_components/iotix/event.py:25-62 | the setup builds exactly those entities and each registers its listener |
| EventPlatform.RegisteredCount | custom_components/iotix/event.py:62 | a registration adds exactly one occurrence of that listener on that pin |
| EventPlatform.RegisterAllBelow | custom_components/iotix/event.py:62 | listeners not yet handed out are registered nowhere |
| EventPlatform.RegisterAllOnce | custom_components/iotix/event.py:62 | each entity's listener is registered exactly once, on its own pin |
| EventPlatform.FiredAppend | custom_components/iotix/event.py:64-72 | the events a listener fires for a concatenation of calls are those of each part |
| EventPlatform.FiredCallbackCalls | custom_components/iotix/event.py:64-72 | a listener registered c times fires the type c times |
| EventPlatform.FiredOneEvent | custom_components/iotix/event.py:64-72 | one event fires its type exactly on the entity of its pin |
| EventPlatform.ListenerSeesItsPin | custom_components/iotix/event.py:64-72 | a listener registered once fires exactly the types of the events on its pin, unchanged and in order |
| EventPlatform.EventEntityFiresItsPin | custom_components/iotix/event.py:50-72 | each entity the setup creates fires exactly the press types of its pin's events |
| EventPlatform.EventAvailable | custom_components/iotix/event.py:74-84 | False without a config; otherwise True exactly for a push-button input |
| EventPlatform.SetupEntitiesAvailable | custom_components/iotix/event.py:33-36 | every entity the setup creates is available |
| SwitchPlatform.Switches | custom_components/iotix/switch.py:24-27 | exactly the switch entries, with their multiplicity |
| SwitchPlatform.IsOn | custom_components/iotix/switch.py:45-49 | True exactly for a stored true; False when missing |
| SwitchPlatform.TurnOn | custom_components/iotix/switch.py:51-53 | "on" for its own pin with no brightness; only the request log and the refresh count change |
| SwitchPlatform.TurnOff | custom_components/iotix/switch.py:55-57 | "off" for its own pin; only the request log and the refresh count change |
| FirmwareUpdate.FirmwareAssetUrl | custom_components/iotix/update.py:145-153 | the URL of the first asset named `firmware.bin`, and none exactly when there is no such asset |
| FirmwareUpdate.AfterCheck | custom_components/iotix/update.py:127-164 | a failed request keeps version, URL and notes; otherwise the stripped tag and the firmware URL, else the release page |
| FirmwareUpdate.AfterCheckIdempotent | custom_components/iotix/update.py:127-164 | repeating a check with the same reply changes nothing more |
| FirmwareUpdate.CheckedVersionHasNoV | custom_components/iotix/update.py:141-142 | a remembered version never starts with 'v' |
| FirmwareUpdate.LatestVersion | custom_components/iotix/update.py:112-115 | the remembered version unless None or empty, else the installed one |
| FirmwareUpdate.InstalledVersionFromPoll | custom_components/iotix/update.py:107-115 | after a successful poll the installed version is the info reply's `firmware_version`, and it is the latest when nothing is remembered |
| FirmwareUpdate.NoCheckReportsInstalled | custom_components/iotix/update.py:112-115 | before any check the installed version is reported |
| FirmwareUpdate.UpdateEntity.constructor | custom_components/iotix/update.py:56-75 | nothing remembered and not in progress |
| FirmwareUpdate.UpdateEntity.CheckForUpdate | custom_components/iotix/update.py:127-164 | the remembered release becomes exactly the checked one |
| FirmwareUpdate.UpdateEntity.Install | custom_components/iotix/update.py:172-236 | no URL: nothing happens; otherwise in progress is set and then cleared on every way out, and a refresh only after download and upload succeed |
| LegacyCoordinator.LegacyPinStatesExact | coordinator.py:67-80 | a pin is a key exactly when some fetch for it got a 200 |
| LegacyCoordinator.LegacyPinStatesLastWins | coordinator.py:67-80 | the stored state is the last successful fetch's body |
| LegacyCoordinator.LegacyPinStates | coordinator.py:67-80 | every key of `pin_states` is the pin of a configured entry |
| LegacyCoordinator.LegacyPoll | coordinator.py:45-89 | `UpdateFailed` exactly when info or pin config fails (a null `pins` list aside, see Left out); the returned pin list is the fetched one unchanged |
| LegacyCoordinator.LegacyAdamCoordinator.constructor | coordinator.py:31-43 | no traffic |
| LegacyCoordinator.LegacyAdamCoordinator.UpdateData | coordinator.py:45-89 | the loop gives exactly the poll result |
| LegacyCoordinator.LegacyAdamCoordinator.SetPinState | coordinator.py:91-117 | brightness only when given; True with one refresh only on a 200 |
| LegacyCoordinator.LegacyAdamCoordinator.ConfigurePin | coordinator.py:119-141 | True with one refresh only on a 200 |
| LegacyEntity.EntityName | entity.py:27 | the configured name, else `P{pin}` |
| LegacyEntity.DefaultNamesDistinct | entity.py:27 | unnamed pins get distinct names |
| LegacyEntity.UniqueIdInjective | entity.py:30 | distinct pins give distinct unique ids |
| LegacyEntity.UniqueId | entity.py:30 | the id is the controller's MAC, then `_pin_`, then digits that read back as the pin |
| LegacyEntity.DeviceName | entity.py:36 | the controller's name, else "Adam Controller" |
| LegacyEntity.AvailableAfterPoll | entity.py:43-49 | after a successful poll, available exactly when some fetch of the pin's state got a 200 |
| LegacyEntity.Available | entity.py:43-49 | available only after a successful poll, and then the entity reads its pin's fetched state, never the empty default |
| LegacyEntity.GetPinState | entity.py:51-53 | the pin's state, else an empty record |
| LegacyEntity.UnavailableReadsOff | entity.py:51-53 | an entity without state reads as off |
| LegacyLight.Lights | light.py:28-31 | exactly the light entries, with their multiplicity |
| LegacyLight.IsOn | light.py:52-56 | True exactly for a stored true; False without state |
| LegacyLight.Brightness | light.py:58-62 | the stored brightness, else 255 |
| LegacyLight.TurnOn | light.py:64-72 | "on" with the requested brightness, 255 when none; only the request log and the refresh count change |
| LegacyLight.TurnOff | light.py:74-76 | "off" with no brightness; only the request log and the refresh count change |
| LegacyBinarySensor.Sensors | binary_sensor.py:22-25 | exactly the binary-sensor entries, with their multiplicity |
| LegacyBinarySensor.IsOn | binary_sensor.py:43-47 | True exactly for a stored true; False without state |
| LegacyCover.Covers | iotix_adam/cover.py:28-30 | every cover entry, with no pin restriction |
| LegacyCover.IsClosed | iotix_adam/cover.py:50-54 | open exactly when a stored true is present, so a missing state reads as closed |
| LegacyCover.OpenCover | iotix_adam/cover.py:56-58 | "on" for its own pin; only the request log and the refresh count change |
| LegacyCover.CloseCover | iotix_adam/cover.py:60-62 | "off" for its own pin; only the request log and the refresh count change |

## Left out

- HTTP transport, timeouts and JSON decoding: each reply is an input value, and a decoding failure is not modelled.
- Home Assistant plumbing: scheduling, debouncing, config-entry reloads, zeroconf, state writes and the device registry. Refreshes and reloads are counters, and state writes of the update entity are a trace.
- Form rendering, labels, voluptuous schemas and description strings, including forms shown before any input.
- Whether a submitted pin belongs to the offered choices, which voluptuous checks.
- The replies to the wizard's trigger requests, which the wizard ignores.
- FlowXr8.ParseAddress: reads a restricted grammar, either `0x`/`0X` plus hex digits or plain decimal digits. Python's `int()` also accepts surrounding whitespace, underscores and a sign, which the model rejects.
- FlowPins.ParseAvailablePins: a JSON boolean counts as an int in Python's `isinstance` check; the model reads the pin as an integer or nothing.
- A pin-list entry without a "pin" key raises a `KeyError` in the source; the model's records always carry a pin.
- Coordinator.Poll: a null `pins`, `covers` or `events` list is read as an empty list and the poll succeeds. In custom_components/iotix/coordinator.py:96, 107, 170 and 204 the source iterates that null, raises a TypeError that the narrow `except` does not catch, and the refresh fails. Likewise a null `triggers` or `modules` list in a 200 reply is stored as an empty list, where custom_components/iotix/coordinator.py:186 and 215 store None; the options flow's XR8 steps then fail when they iterate that None (custom_components/iotix/config_flow.py:1085-1092), while the model goes on with no modules. The model's reply bodies cannot tell a missing list from a null one.
- Coordinator.FetchList: holds `[]` for a null list in a 200 reply, where the source holds None (custom_components/iotix/coordinator.py:186, 215), for the reason given under Coordinator.Poll.
- LegacyCoordinator.LegacyPoll: a null `pins` list in a 200 pin-config reply is read as an empty list and the poll refreshes with no pin states; in coordinator.py:68 the source iterates that null, raises a TypeError that the narrow `except` does not catch, and the refresh fails.
- `custom_components/iotix/entity.py` is not part of this model: the current platforms receive the looked-up pin config and state as inputs.
- The firmware download and upload bodies, and the sleep before the controller restarts.
- `custom_components/iotix_adam/config_flow.py`, a form sequence with no decisions beyond those modelled here.
- Concurrency between commands and a poll in flight; logging.
- Home Assistant rejecting an unknown event type or a duplicate unique id.
