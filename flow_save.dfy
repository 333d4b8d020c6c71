/** The requests the option wizard posts directly to the controller when a pin
    or a cover is saved: `/api/pin/configure`, `/api/input/trigger/set` and
    `/api/cover/configure`. */
module FlowSave {
  import opened Json

  /** An output number of 255 stands for "no output". */
  const NoOutput := 255

  /** The timing the push-button trigger step stores before saving. */
  const PushLongPressMs := 500
  const PushDoublePressMs := 300

  /** The wizard's collected `config_data` for one pin; optional keys are
      `None` when the step that sets them was not visited. */
  datatype PinForm = PinForm(
    pin: int,
    isInput: bool,
    pinType: string,
    name: string,
    buttonMode: Option<string>,
    longPressDuration: Option<int>,
    doublePressTimeframe: Option<int>,
    triggerOutput: Option<int>,
    shortPressOutput: Option<int>,
    longPressOutput: Option<int>,
    doublePressOutput: Option<int>)

  /** The body of `/api/pin/configure`. */
  datatype PinPayload = PinPayload(
    pin: int,
    pinType: string,
    name: string,
    isInput: bool,
    buttonMode: Option<string>,
    longPressDuration: Option<int>,
    doublePressTimeframe: Option<int>)

  /** The submitted cover form. */
  datatype CoverForm = CoverForm(
    name: string,
    inputUp: int,
    inputDown: int,
    outputUp: int,
    outputDown: int,
    upTimeSec: int,
    downTimeSec: int)

  /** The body of `/api/cover/configure`; `interlock` is null when the stored
      cover entry holds a null. */
  datatype CoverPayload = CoverPayload(
    coverId: int,
    name: string,
    inputUpPin: int,
    inputDownPin: int,
    outputUpPin: int,
    outputDownPin: int,
    upTimeSec: int,
    downTimeSec: int,
    interlock: Option<bool>)

  /** One request the wizard posts itself. */
  datatype Post =
    | PinConfigurePost(payload: PinPayload)
    | TriggerPost(inputPin: int, outputPin: int)
    | PushTriggersPost(inputPin: int, shortPressOutput: int, longPressOutput: int, doublePressOutput: int)
    | CoverConfigurePost(cover: CoverPayload)

  /** The `type` sent for a pin: the wizard's "button" is stored as a binary
      sensor, every other type as chosen. */
  function SentType(pinType: string): (sent: string)
    ensures sent != "button"
    ensures pinType != "button" ==> sent == pinType
    ensures pinType == "button" ==> sent == "binary_sensor"
  {
    if pinType == "button" then "binary_sensor" else pinType
  }

  /** The payload of `_save_pin_config`: the button mode and the timings only
      when the form holds them. */
  function PinPayloadOf(form: PinForm): (p: PinPayload)
    ensures p.pin == form.pin && p.name == form.name && p.isInput == form.isInput
    ensures p.pinType == SentType(form.pinType)
    ensures p.buttonMode == form.buttonMode
    ensures p.longPressDuration == form.longPressDuration && p.doublePressTimeframe == form.doublePressTimeframe
  {
    PinPayload(form.pin, SentType(form.pinType), form.name, form.isInput, form.buttonMode,
               form.longPressDuration, form.doublePressTimeframe)
  }

  /** The form holds at least one push-button output. */
  predicate HasPushOutputs(form: PinForm) {
    form.shortPressOutput.Some? || form.longPressOutput.Some? || form.doublePressOutput.Some?
  }

  /** The trigger requests that follow a successful `/api/pin/configure`: the
      classic trigger unless its output is "none", then the push triggers when
      any press output was chosen, each missing one sent as "none". */
  function TriggerPosts(form: PinForm): (posts: seq<Post>)
    ensures |posts| <= 2
    ensures forall p :: p in posts ==> p.TriggerPost? || p.PushTriggersPost?
    ensures forall p :: p in posts ==> p.inputPin == form.pin
    ensures forall p :: p in posts && p.TriggerPost? ==> p.outputPin != NoOutput && form.triggerOutput == Some(p.outputPin)
    ensures (exists p :: p in posts && p.PushTriggersPost?) <==> HasPushOutputs(form)
  {
    var classic :=
      if form.triggerOutput.Some? && form.triggerOutput.value != NoOutput
      then [TriggerPost(form.pin, form.triggerOutput.value)] else [];
    var push :=
      if HasPushOutputs(form)
      then [PushTriggersPost(form.pin, form.shortPressOutput.GetOr(NoOutput), form.longPressOutput.GetOr(NoOutput),
                             form.doublePressOutput.GetOr(NoOutput))]
      else [];
    assert push != [] ==> push[0] in classic + push;
    classic + push
  }

  /** Everything `_save_pin_config` posts: the configuration, and the trigger
      requests only when the configuration got a 200. */
  function SavePinPosts(form: PinForm, accepted: bool): seq<Post> {
    [PinConfigurePost(PinPayloadOf(form))] + (if accepted then TriggerPosts(form) else [])
  }

  /** A rejected or failed configuration sets no trigger at all. */
  lemma RejectedSaveSetsNoTrigger(form: PinForm)
    ensures SavePinPosts(form, false) == [PinConfigurePost(PinPayloadOf(form))]
    ensures forall p :: p in SavePinPosts(form, false) ==> p.PinConfigurePost?
  {
  }

  /** A classic trigger is set exactly when the save succeeded and the chosen
      output is not the "none" sentinel. */
  lemma ClassicTriggerExactly(form: PinForm, accepted: bool, output: int)
    ensures TriggerPost(form.pin, output) in SavePinPosts(form, accepted) <==>
      accepted && form.triggerOutput == Some(output) && output != NoOutput
  {
    var posts := SavePinPosts(form, accepted);
    if TriggerPost(form.pin, output) in posts {
      assert TriggerPost(form.pin, output) != posts[0];
    }
  }

  /** `async_step_push_triggers`: stores the three outputs and the fixed
      timings before saving. */
  function WithPushTriggers(form: PinForm, shortPress: int, longPress: int, doublePress: int): PinForm {
    form.(shortPressOutput := Some(shortPress), longPressOutput := Some(longPress),
          doublePressOutput := Some(doublePress), longPressDuration := Some(PushLongPressMs),
          doublePressTimeframe := Some(PushDoublePressMs))
  }

  /** Saving a push button sends the 500 ms / 300 ms timings and, on success,
      one push-trigger request with exactly the three chosen outputs. */
  lemma PushButtonSave(form: PinForm, shortPress: int, longPress: int, doublePress: int)
    ensures var p := PinPayloadOf(WithPushTriggers(form, shortPress, longPress, doublePress));
      p.longPressDuration == Some(500) && p.doublePressTimeframe == Some(300)
    ensures PushTriggersPost(form.pin, shortPress, longPress, doublePress) in
      SavePinPosts(WithPushTriggers(form, shortPress, longPress, doublePress), true)
  {
    var f := WithPushTriggers(form, shortPress, longPress, doublePress);
    var triggers := TriggerPosts(f);
    assert triggers[|triggers| - 1] == PushTriggersPost(form.pin, shortPress, longPress, doublePress);
    assert SavePinPosts(f, true)[|SavePinPosts(f, true)| - 1] == PushTriggersPost(form.pin, shortPress, longPress, doublePress);
  }

  /** Python's `max(1, t)` for a cover timer. */
  function AtLeastOneSecond(t: int): (r: int)
    ensures r >= 1
    ensures t >= 1 ==> r == t
    ensures t < 1 ==> r == 1
  {
    if t < 1 then 1 else t
  }

  /** The payload of `_save_cover_config`: the form's pins and name as given,
      both timers raised to at least one second. */
  function CoverPayloadOf(coverId: int, form: CoverForm, interlock: Option<bool>): (p: CoverPayload)
    ensures p.coverId == coverId && p.name == form.name && p.interlock == interlock
    ensures p.inputUpPin == form.inputUp && p.inputDownPin == form.inputDown
    ensures p.outputUpPin == form.outputUp && p.outputDownPin == form.outputDown
    ensures p.upTimeSec >= 1 && p.downTimeSec >= 1
    ensures p.upTimeSec == AtLeastOneSecond(form.upTimeSec) && p.downTimeSec == AtLeastOneSecond(form.downTimeSec)
  {
    CoverPayload(coverId, form.name, form.inputUp, form.inputDown, form.outputUp, form.outputDown,
                 AtLeastOneSecond(form.upTimeSec), AtLeastOneSecond(form.downTimeSec), interlock)
  }

  /** Clamping is idempotent: a payload's timers survive a second save unchanged. */
  lemma CoverTimersStable(coverId: int, form: CoverForm, interlock: Option<bool>)
    ensures var p := CoverPayloadOf(coverId, form, interlock);
      CoverPayloadOf(coverId, form.(upTimeSec := p.upTimeSec, downTimeSec := p.downTimeSec), interlock) == p
  {
  }
}
