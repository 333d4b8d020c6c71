/** The option wizard (`IoTiXOptionsFlow`) as far as it decides anything: the
    pin lists it keeps between steps, the cover editor, pin saving, and the
    XR8 add, edit and delete steps. Form rendering is not modelled. */
module ConfigFlow {
  import opened Json
  import opened Records
  import opened Coordinator
  import opened FlowPins
  import opened FlowXr8
  import opened FlowSave
  import opened FlowCover

  /** The replies `_fetch_pin_data` reads, in request order. */
  datatype WizardReplies = WizardReplies(
    info: Response<DeviceInfo>,
    pinsConfig: Response<Option<seq<PinConfig>>>,
    available: Response<Option<seq<AvailablePin>>>,
    xr8: Response<Option<seq<RelayModule>>>)

  /** What the wizard remembers of the controller. */
  datatype PinData = PinData(deviceName: Option<string>, allPins: seq<PinConfig>, inputs: seq<int>, outputs: seq<int>)

  /** `_fetch_pin_data`: both pin lists are emptied first; a reply other than
      200 leaves its part as it was; a transport error ends the fetch, keeping
      what was already stored. */
  function Fetched(before: PinData, r: WizardReplies): PinData {
    var s0 := before.(inputs := [], outputs := []);
    if r.info.TransportError? then s0
    else
      var s1 := if r.info.status == 200 then s0.(deviceName := r.info.body.name.Get("IoTiX")) else s0;
      if r.pinsConfig.TransportError? then s1
      else
        var s2 := if r.pinsConfig.status == 200 then s1.(allPins := Items(r.pinsConfig.body)) else s1;
        if r.available.TransportError? then s2
        else
          var s3 :=
            if r.available.status == 200 then
              var entries := Items(r.available.body);
              s2.(inputs := SortedSet(UsablePins(entries, true)), outputs := SortedSet(UsablePins(entries, false)))
            else s2;
          if r.xr8.IsOk() then s3.(outputs := s3.outputs + RelayPins(Items(r.xr8.body)).pins) else s3
  }

  /** The physical outputs a fetch stores: the parsed available outputs when
      that reply was reached and got a 200, none otherwise. */
  function FetchedPhysicalOutputs(r: WizardReplies): seq<int> {
    if !r.info.TransportError? && !r.pinsConfig.TransportError? && r.available.IsOk()
    then SortedSet(UsablePins(Items(r.available.body), false))
    else []
  }

  /** The relay outputs a fetch stores: those of the XR8 reply when every
      earlier reply arrived and it got a 200. */
  function FetchedRelayOutputs(r: WizardReplies): seq<int> {
    if !r.info.TransportError? && !r.pinsConfig.TransportError? && !r.available.TransportError? && r.xr8.IsOk()
    then RelayPins(Items(r.xr8.body)).pins
    else []
  }

  /** After a fetch the inputs are sorted, duplicate-free physical pins, and
      the outputs are such a list followed by the relay pins. */
  lemma FetchedLists(before: PinData, r: WizardReplies)
    ensures var after := Fetched(before, r);
      && StrictlyIncreasing(after.inputs) && (forall n :: n in after.inputs ==> Physical(n))
      && after.outputs == FetchedPhysicalOutputs(r) + FetchedRelayOutputs(r)
    ensures StrictlyIncreasing(FetchedPhysicalOutputs(r)) && forall n :: n in FetchedPhysicalOutputs(r) ==> Physical(n)
  {
    if !r.info.TransportError? && !r.pinsConfig.TransportError? && r.available.IsOk() {
      forall n | n in FetchedPhysicalOutputs(r)
        ensures Physical(n)
      {
        UsablePinsExact(Items(r.available.body), false, n);
      }
      forall n | n in SortedSet(UsablePins(Items(r.available.body), true))
        ensures Physical(n)
      {
        UsablePinsExact(Items(r.available.body), true, n);
      }
    }
  }

  /** With non-negative module and relay ids, the cover editor's outputs are
      exactly the physical outputs: no relay is offered to drive a cover. */
  lemma CoverOutputsArePhysical(before: PinData, r: WizardReplies)
    requires r.xr8.Reply? ==> forall m :: m in Items(r.xr8.body) && m.id.Some? ==> m.id.value >= 0
    requires r.xr8.Reply? ==>
      forall m, x :: m in Items(r.xr8.body) && RelayList(m).Some? && x in RelayList(m).value && x.id.Some? ==> x.id.value >= 0
    ensures CoverCandidates(Fetched(before, r).outputs) == FetchedPhysicalOutputs(r)
  {
    FetchedLists(before, r);
    var relays := FetchedRelayOutputs(r);
    forall v | v in relays
      ensures !Physical(v)
    {
      RelayPinsFrom(Items(r.xr8.body), v);
      var m :| m in Items(r.xr8.body) && m.configured && m.id.Some? && RelayList(m).Some? &&
        exists x :: x in RelayList(m).value && x.id.Some? && v == VirtualRelayPin(m.id.value, x.id.value);
      var x :| x in RelayList(m).value && x.id.Some? && v == VirtualRelayPin(m.id.value, x.id.value);
      VirtualRelayPinNotPhysical(m.id.value, x.id.value);
    }
    CandidatesDropRelayPins(FetchedPhysicalOutputs(r), relays);
  }

  /** An unreachable controller empties both pin lists and changes nothing else. */
  lemma UnreachableFetchEmptiesLists(before: PinData, r: WizardReplies)
    requires r.info.TransportError?
    ensures Fetched(before, r) == before.(inputs := [], outputs := [])
  {
  }

  /** What the cover editor leads to. */
  datatype CoverEditOutcome =
    | CoverList
    | CoverFormShown(error: Option<CoverEditError>, defaults: Option<CoverDefaults>)

  /** The error shown before any form was submitted: only the count checks. */
  function CountError(inputs: seq<int>, outputs: seq<int>): (e: Option<CoverEditError>)
    ensures e.None? <==> |inputs| >= 2 && |outputs| >= 2
    ensures forall form :: e.Some? ==> FormError(inputs, outputs, form) == e
  {
    if |inputs| < 2 then Some(TwoInputsRequired)
    else if |outputs| < 2 then Some(TwoOutputsRequired)
    else None
  }

  class OptionsFlow {
    var deviceName: Option<string>
    /** `_all_pins`. */
    var allPins: seq<PinConfig>
    /** `_available_input_pins` and `_available_output_pins`. */
    var availableInputPins: seq<int>
    var availableOutputPins: seq<int>
    /** The requests the wizard posted itself, in order. */
    var posts: seq<Post>
    /** How many times the config entry was reloaded. */
    var reloads: nat

    constructor ()
      ensures deviceName == None && allPins == [] && availableInputPins == [] && availableOutputPins == []
      ensures posts == [] && reloads == 0
    {
      deviceName, allPins := None, [];
      availableInputPins, availableOutputPins := [], [];
      posts, reloads := [], 0;
    }

    function Data(): PinData
      reads this
    {
      PinData(deviceName, allPins, availableInputPins, availableOutputPins)
    }

    /** `_fetch_pin_data`. */
    method FetchPinData(r: WizardReplies)
      modifies this`deviceName, this`allPins, this`availableInputPins, this`availableOutputPins
      ensures Data() == Fetched(old(Data()), r)
    {
      availableInputPins, availableOutputPins := [], [];
      if r.info.TransportError? {
        return;
      }
      if r.info.status == 200 {
        deviceName := r.info.body.name.Get("IoTiX");
      }
      if r.pinsConfig.TransportError? {
        return;
      }
      if r.pinsConfig.status == 200 {
        allPins := Items(r.pinsConfig.body);
      }
      if r.available.TransportError? {
        return;
      }
      if r.available.status == 200 {
        availableInputPins, availableOutputPins := ParseAvailablePins(Items(r.available.body));
      }
      if r.xr8.Reply? && r.xr8.status == 200 {
        var complete;
        availableOutputPins, complete := AppendRelayPins(Items(r.xr8.body), availableOutputPins);
      }
    }

    /** `_get_cover_for_pin`. */
    method GetCoverForPin(pinNum: int, isInput: bool) returns (r: Option<PinConfig>)
      ensures r == CoverForPin(allPins, pinNum, isInput)
    {
      for i := 0 to |allPins|
        invariant forall j :: 0 <= j < i ==> !ManagesPin(allPins[j], pinNum, isInput)
      {
        var p := allPins[i];
        if p.kind != Cover {
          continue;
        }
        if p.pin < 100 {
          continue;
        }
        if isInput && (p.inputUpPin.Peek() == Some(pinNum) || p.inputDownPin.Peek() == Some(pinNum)) {
          CoverForPinFirst(allPins, i, pinNum, isInput);
          return Some(p);
        }
        if !isInput && (p.outputUpPin.Peek() == Some(pinNum) || p.outputDownPin.Peek() == Some(pinNum)) {
          CoverForPinFirst(allPins, i, pinNum, isInput);
          return Some(p);
        }
      }
      return None;
    }

    /** `_save_cover_config`: one post; on a 200 the lists are fetched again
        and the entry reloaded. */
    method SaveCoverConfig(coverId: int, form: CoverForm, interlock: Option<bool>, result: WriteResult,
                           refetch: WizardReplies) returns (ok: bool)
      modifies this`posts, this`reloads, this`deviceName, this`allPins, this`availableInputPins, this`availableOutputPins
      ensures posts == old(posts) + [CoverConfigurePost(CoverPayloadOf(coverId, form, interlock))]
      ensures ok == result.IsOk()
      ensures ok ==> Data() == Fetched(old(Data()), refetch) && reloads == old(reloads) + 1
      ensures !ok ==> Data() == old(Data()) && reloads == old(reloads)
    {
      posts := posts + [CoverConfigurePost(CoverPayloadOf(coverId, form, interlock))];
      ok := result.Answered? && result.status == 200;
      if ok {
        FetchPinData(refetch);
        reloads := reloads + 1;
      }
    }

    /** `async_step_edit_cover` for one cover. `form` is the submitted form,
        if any; the defaults are those of the lists before any save. */
    method EditCover(coverId: int, form: Option<CoverForm>, result: WriteResult, refetch: WizardReplies)
      returns (outcome: CoverEditOutcome)
      modifies this`posts, this`reloads, this`deviceName, this`allPins, this`availableInputPins, this`availableOutputPins
      ensures var inputs := CoverCandidates(old(availableInputPins));
              var outputs := CoverCandidates(old(availableOutputPins));
              var saving := form.Some? && FormError(inputs, outputs, form.value).None?;
        && (saving ==> posts == old(posts) + [CoverConfigurePost(CoverPayloadOf(coverId, form.value,
                                                                                CoverInterlock(StoredCover(old(allPins), coverId))))])
        && (!saving ==> posts == old(posts))
        && (outcome == CoverList <==> saving && result.IsOk())
        && (saving && result.IsOk() ==> Data() == Fetched(old(Data()), refetch) && reloads == old(reloads) + 1)
        && (!(saving && result.IsOk()) ==> Data() == old(Data()) && reloads == old(reloads))
        && (outcome.CoverFormShown? ==>
              outcome.error == (if saving then Some(CannotConnect)
                                else if form.Some? then FormError(inputs, outputs, form.value)
                                else CountError(inputs, outputs)))
        && (outcome.CoverFormShown? ==> (outcome.defaults.None? <==> CountError(inputs, outputs).Some?))
        && (outcome.CoverFormShown? && outcome.defaults.Some? ==>
              var d := outcome.defaults.value;
              && d.inputUp in inputs && d.inputDown in inputs && d.inputUp != d.inputDown
              && d.outputUp in outputs && d.outputDown in outputs && d.outputUp != d.outputDown)
    {
      var stored := StoredCover(allPins, coverId);
      var inputs := CoverCandidates(availableInputPins);
      var outputs := CoverCandidates(availableOutputPins);
      var error := CountError(inputs, outputs);
      if form.Some? {
        if error.Some? {
        } else if form.value.inputUp == form.value.inputDown {
          error := Some(InputsMustDiffer);
        } else if form.value.outputUp == form.value.outputDown {
          error := Some(OutputsMustDiffer);
        } else {
          var ok := SaveCoverConfig(coverId, form.value, CoverInterlock(stored), result, refetch);
          if ok {
            return CoverList;
          }
          error := Some(CannotConnect);
        }
      }
      if error == Some(TwoInputsRequired) || error == Some(TwoOutputsRequired) {
        return CoverFormShown(error, None);
      }
      var defaults := EditCoverDefaults(coverId, stored, inputs, outputs);
      outcome := CoverFormShown(error, Some(defaults));
    }

    /** `_save_pin_config`; the result says whether the wizard returns to the
        input list (otherwise the output list), which it does on every path. */
    method SavePinConfig(form: PinForm, result: WriteResult, refetch: WizardReplies) returns (backToInputs: bool)
      modifies this`posts, this`reloads, this`deviceName, this`allPins, this`availableInputPins, this`availableOutputPins
      ensures posts == old(posts) + SavePinPosts(form, result.IsOk())
      ensures result.IsOk() ==> Data() == Fetched(old(Data()), refetch) && reloads == old(reloads) + 1
      ensures !result.IsOk() ==> Data() == old(Data()) && reloads == old(reloads)
      ensures backToInputs == form.isInput
    {
      posts := posts + [PinConfigurePost(PinPayloadOf(form))];
      if result.Answered? && result.status == 200 {
        if form.triggerOutput.Some? && form.triggerOutput.value != NoOutput {
          posts := posts + [TriggerPost(form.pin, form.triggerOutput.value)];
        }
        if form.shortPressOutput.Some? || form.longPressOutput.Some? || form.doublePressOutput.Some? {
          posts := posts + [PushTriggersPost(form.pin, form.shortPressOutput.GetOr(NoOutput),
                                             form.longPressOutput.GetOr(NoOutput), form.doublePressOutput.GetOr(NoOutput))];
        }
        FetchPinData(refetch);
        reloads := reloads + 1;
      }
      backToInputs := form.isInput;
    }

    /** `async_step_add_xr8_module` with a submitted form for slot `moduleId`;
        `modules` is the coordinator's current module list. */
    method AddXr8Module(coordinator: AdamCoordinator, moduleId: int, addressText: Option<string>,
                        relayInputs: map<int, string>, modules: seq<RelayModule>, result: WriteResult)
      returns (outcome: Xr8Outcome)
      modifies this`reloads, coordinator`requests, coordinator`refreshRequests
      ensures var check := CheckAddress(addressText.GetOr("0x20"), modules, moduleId);
        && (check.Rejected? ==>
              && outcome == AddressRejected(check.error)
              && coordinator.requests == old(coordinator.requests)
              && coordinator.refreshRequests == old(coordinator.refreshRequests)
              && reloads == old(reloads))
        && (check.Accepted? ==>
              && coordinator.requests ==
                   old(coordinator.requests) + [Xr8Configure(moduleId, Some(check.address), true,
                                                             Some(RelayNameList(moduleId, relayInputs)))]
              && outcome == (if result.IsOk() then ModuleList else SaveFailed)
              && coordinator.refreshRequests == old(coordinator.refreshRequests) + (if result.IsOk() then 1 else 0)
              && reloads == old(reloads) + (if result.IsOk() then 1 else 0))
    {
      var check := ValidateAddress(addressText.GetOr("0x20"), modules, moduleId);
      if check.Rejected? {
        return AddressRejected(check.error);
      }
      var names := RelayNames(moduleId, relayInputs);
      var ok := coordinator.ConfigureXr8Module(moduleId, Some(check.address), true, Some(names), result);
      if ok {
        reloads := reloads + 1;
        return ModuleList;
      }
      return SaveFailed;
    }

    /** `async_step_edit_xr8_module` with a submitted form. The default address
        text is formatted before the form is read, so a module whose stored
        address is null fails there whatever was typed. The entry is not
        reloaded. */
    method EditXr8Module(coordinator: AdamCoordinator, moduleId: int, addressText: Option<string>,
                         relayInputs: map<int, string>, modules: seq<RelayModule>, result: WriteResult)
      returns (outcome: Xr8Outcome)
      modifies coordinator`requests, coordinator`refreshRequests
      ensures var found := FirstWithId(modules, moduleId);
        && (found.None? || !found.value.configured ==>
              outcome == ModuleList && coordinator.requests == old(coordinator.requests))
        && (found.Some? && found.value.configured && EditAddressText(found.value).None? ==>
              outcome == FormattingFailed && coordinator.requests == old(coordinator.requests))
        && (found.Some? && found.value.configured && EditAddressText(found.value).Some? ==>
              var check := CheckAddress(addressText.GetOr(EditAddressText(found.value).value), modules, moduleId);
              && (check.Rejected? ==>
                    outcome == AddressRejected(check.error) && coordinator.requests == old(coordinator.requests))
              && (check.Accepted? ==>
                    && coordinator.requests ==
                         old(coordinator.requests) + [Xr8Configure(moduleId, Some(check.address), true,
                                                                   Some(RelayNameList(moduleId, relayInputs)))]
                    && coordinator.refreshRequests ==
                         old(coordinator.refreshRequests) + (if result.IsOk() then 1 else 0)
                    && outcome == (if result.IsOk() then ModuleList else SaveFailed)))
      ensures coordinator.requests == old(coordinator.requests) ==>
        coordinator.refreshRequests == old(coordinator.refreshRequests)
    {
      var found := FirstWithId(modules, moduleId);
      if found.None? || !found.value.configured {
        return ModuleList;
      }
      var defaultText := EditAddressText(found.value);
      if defaultText.None? {
        return FormattingFailed;
      }
      var check := ValidateAddress(addressText.GetOr(defaultText.value), modules, moduleId);
      if check.Rejected? {
        return AddressRejected(check.error);
      }
      var names := RelayNames(moduleId, relayInputs);
      var ok := coordinator.ConfigureXr8Module(moduleId, Some(check.address), true, Some(names), result);
      outcome := if ok then ModuleList else SaveFailed;
    }

    /** `async_step_delete_xr8_module` with a submitted form: a confirmed
        delete marks the module unconfigured and sends no relay names. */
    method DeleteXr8Module(coordinator: AdamCoordinator, moduleId: int, confirm: bool,
                           modules: seq<RelayModule>, result: WriteResult) returns (outcome: Xr8Outcome)
      modifies this`reloads, coordinator`requests, coordinator`refreshRequests
      ensures outcome == ModuleList
      ensures var found := FirstWithId(modules, moduleId);
        && (found.Some? && found.value.configured && confirm ==>
              && coordinator.requests ==
                   old(coordinator.requests) + [Xr8Configure(moduleId, found.value.address.Get(0x20), false, None)]
              && coordinator.refreshRequests == old(coordinator.refreshRequests) + (if result.IsOk() then 1 else 0)
              && reloads == old(reloads) + (if result.IsOk() then 1 else 0))
        && (!(found.Some? && found.value.configured && confirm) ==>
              && coordinator.requests == old(coordinator.requests)
              && coordinator.refreshRequests == old(coordinator.refreshRequests)
              && reloads == old(reloads))
    {
      var found := FirstWithId(modules, moduleId);
      if found.Some? && found.value.configured && confirm {
        var ok := coordinator.ConfigureXr8Module(moduleId, found.value.address.Get(0x20), false, None, result);
        if ok {
          reloads := reloads + 1;
        }
      }
      outcome := ModuleList;
    }
  }
}
