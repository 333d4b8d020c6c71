/** The decisions of the option wizard's cover editor: which pins may drive a
    cover, which error a submitted form gets, which pins the form proposes, and
    which cover a pin already belongs to. */
module FlowCover {
  import opened Json
  import opened Text
  import opened Records
  import opened FlowPins
  import opened FlowSave

  // ---------------------------------------------------------------------------
  // Candidate pins

  /** The physical pins of a list, in list order; relay pins are dropped. */
  function PhysicalOnly(pins: seq<int>): (r: seq<int>)
    ensures forall n :: n in r <==> n in pins && Physical(n)
    decreases |pins|
  {
    if pins == [] then []
    else
      var last := pins[|pins| - 1];
      PhysicalOnly(pins[..|pins| - 1]) + (if Physical(last) then [last] else [])
  }

  /** `sorted(set(i for i in pins if 0 <= i < 16))`. */
  function CoverCandidates(pins: seq<int>): (r: seq<int>)
    ensures StrictlyIncreasing(r)
    ensures forall n :: n in r <==> n in pins && Physical(n)
  {
    SortedSet(PhysicalOnly(pins))
  }

  /** Filtering the available outputs again keeps exactly the physical
      outputs, whatever relay pins were appended after them. */
  lemma CandidatesDropRelayPins(physical: seq<int>, relays: seq<int>)
    requires StrictlyIncreasing(physical) && forall n :: n in physical ==> Physical(n)
    requires forall n :: n in relays ==> !Physical(n)
    ensures CoverCandidates(physical + relays) == physical
  {
    SortedSetUnique(CoverCandidates(physical + relays), physical);
  }

  // ---------------------------------------------------------------------------
  // Validation

  datatype CoverEditError =
    | TwoInputsRequired
    | TwoOutputsRequired
    | InputsMustDiffer
    | OutputsMustDiffer
    | CannotConnect

  /** The error a submitted cover form gets before anything is saved. */
  function FormError(inputs: seq<int>, outputs: seq<int>, form: CoverForm): (e: Option<CoverEditError>)
    ensures e.None? <==>
      |inputs| >= 2 && |outputs| >= 2 && form.inputUp != form.inputDown && form.outputUp != form.outputDown
    ensures |inputs| < 2 ==> e == Some(TwoInputsRequired)
    ensures |inputs| >= 2 && |outputs| < 2 ==> e == Some(TwoOutputsRequired)
    ensures |inputs| >= 2 && |outputs| >= 2 && form.inputUp == form.inputDown ==> e == Some(InputsMustDiffer)
    ensures |inputs| >= 2 && |outputs| >= 2 && form.inputUp != form.inputDown && form.outputUp == form.outputDown ==>
      e == Some(OutputsMustDiffer)
  {
    if |inputs| < 2 then Some(TwoInputsRequired)
    else if |outputs| < 2 then Some(TwoOutputsRequired)
    else if form.inputUp == form.inputDown then Some(InputsMustDiffer)
    else if form.outputUp == form.outputDown then Some(OutputsMustDiffer)
    else None
  }

  /** A count error is the only error a form can get while pins are missing,
      whatever was submitted. */
  lemma CountErrorsWin(inputs: seq<int>, outputs: seq<int>, a: CoverForm, b: CoverForm)
    requires |inputs| < 2 || |outputs| < 2
    ensures FormError(inputs, outputs, a) == FormError(inputs, outputs, b)
    ensures FormError(inputs, outputs, a) == Some(TwoInputsRequired) || FormError(inputs, outputs, a) == Some(TwoOutputsRequired)
  {
  }

  // ---------------------------------------------------------------------------
  // The stored cover entry

  /** `next((p for p in all_pins if p.get("type") == "cover" and p.get("coverId") == cover_id), None)`. */
  function StoredCover(allPins: seq<PinConfig>, coverId: int): (r: Option<PinConfig>)
    ensures r.Some? ==> r.value in allPins && r.value.kind == Cover && r.value.coverId.Peek() == Some(coverId)
    ensures r.None? <==> forall p :: p in allPins ==> !(p.kind == Cover && p.coverId.Peek() == Some(coverId))
    ensures r.Some? ==> exists k :: (0 <= k < |allPins| && allPins[k] == r.value &&
      forall j :: 0 <= j < k ==> !(allPins[j].kind == Cover && allPins[j].coverId.Peek() == Some(coverId)))
    decreases |allPins|
  {
    if allPins == [] then None
    else if allPins[0].kind == Cover && allPins[0].coverId.Peek() == Some(coverId) then Some(allPins[0])
    else
      var r := StoredCover(allPins[1..], coverId);
      assert forall p :: p in allPins ==> p == allPins[0] || p in allPins[1..];
      if r.Some? then
        var k :| 0 <= k < |allPins[1..]| && allPins[1..][k] == r.value &&
          forall j :: 0 <= j < k ==> !(allPins[1..][j].kind == Cover && allPins[1..][j].coverId.Peek() == Some(coverId));
        assert allPins[k + 1] == r.value;
        assert forall j :: 0 <= j < k + 1 ==> !(allPins[j].kind == Cover && allPins[j].coverId.Peek() == Some(coverId)) by {
          forall j | 0 <= j < k + 1
            ensures !(allPins[j].kind == Cover && allPins[j].coverId.Peek() == Some(coverId))
          {
            if j > 0 {
              assert allPins[j] == allPins[1..][j - 1];
            }
          }
        }
        r
      else r
  }

  /** The interlock saved with an edited cover: the stored entry's, True when
      it has none or there is no entry. */
  function CoverInterlock(stored: Option<PinConfig>): (interlock: Option<bool>)
    ensures stored.None? ==> interlock == Some(true)
    ensures stored.Some? && stored.value.interlock.Absent? ==> interlock == Some(true)
    ensures stored.Some? && stored.value.interlock.Present? ==> interlock == Some(stored.value.interlock.value)
  {
    match stored
    case None => Some(true)
    case Some(p) => p.interlock.Get(true)
  }

  // ---------------------------------------------------------------------------
  // Proposed pins

  /** `next((pin for pin in avail if pin != taken), avail[0])`. */
  function FirstOther(avail: seq<int>, taken: int): (r: int)
    requires |avail| > 0
    ensures r in avail
    ensures r == taken ==> forall p :: p in avail ==> p == taken
    decreases |avail|
  {
    if avail[0] != taken || |avail| == 1 then avail[0]
    else
      var rest := FirstOther(avail[1..], taken);
      assert forall p :: p in avail ==> p == avail[0] || p in avail[1..];
      if rest == taken then avail[0] else rest
  }

  /** On a duplicate-free list, the first pin other than `taken` is the first
      or the second entry. */
  lemma FirstOtherOfDistinct(avail: seq<int>, taken: int)
    requires StrictlyIncreasing(avail) && |avail| >= 2
    ensures FirstOther(avail, taken) == if avail[0] != taken then avail[0] else avail[1]
  {
    if avail[0] == taken {
      assert avail[1..][0] == avail[1];
    }
  }

  /** A pin the form proposes for one role: the stored one when there is an
      entry (`None` for a stored null), otherwise the fallback. */
  function Preset(stored: Option<PinConfig>, storedPin: Field<int>, fallback: int): Option<int> {
    if stored.Some? then storedPin.Get(fallback) else Some(fallback)
  }

  /** The reassignments of `async_step_edit_cover` for one up/down pair: a
      preset that is no longer available is replaced, and a down pin equal to
      the up pin is moved to the first other pin. */
  method ChooseUpDown(avail: seq<int>, upPreset: Option<int>, downPreset: Option<int>) returns (up: int, down: int)
    requires StrictlyIncreasing(avail) && |avail| >= 2
    ensures up in avail && down in avail && up != down
    ensures up == if upPreset.Some? && upPreset.value in avail then upPreset.value else avail[0]
    ensures down == if downPreset.Some? && downPreset.value in avail && downPreset.value != up
                    then downPreset.value else FirstOther(avail, up)
  {
    up := avail[0];
    if upPreset.Some? && upPreset.value in avail {
      up := upPreset.value;
    }
    var keepDown := downPreset.Some? && downPreset.value in avail && downPreset.value != up;
    if keepDown {
      down := downPreset.value;
    } else {
      FirstOtherOfDistinct(avail, up);
      down := FirstOther(avail, up);
    }
  }

  /** What the cover form proposes. */
  datatype CoverDefaults = CoverDefaults(
    name: Option<string>,
    inputUp: int,
    inputDown: int,
    outputUp: int,
    outputDown: int,
    upTimeSec: Option<int>,
    downTimeSec: Option<int>)

  /** The default name of a cover that has no stored name. */
  function DefaultCoverName(coverId: int): string {
    "Cover " + Decimal(coverId + 1)
  }

  /** The defaults of `async_step_edit_cover`, reached only when both
      candidate lists hold two pins. */
  method EditCoverDefaults(coverId: int, stored: Option<PinConfig>, inputs: seq<int>, outputs: seq<int>)
    returns (d: CoverDefaults)
    requires StrictlyIncreasing(inputs) && |inputs| >= 2
    requires StrictlyIncreasing(outputs) && |outputs| >= 2
    ensures d.inputUp in inputs && d.inputDown in inputs && d.inputUp != d.inputDown
    ensures d.outputUp in outputs && d.outputDown in outputs && d.outputUp != d.outputDown
    ensures stored.None? ==>
      d == CoverDefaults(Some(DefaultCoverName(coverId)), inputs[0], inputs[1], outputs[0], outputs[1], Some(15), Some(15))
    ensures stored.Some? ==>
      && d.name == stored.value.name.Get(DefaultCoverName(coverId))
      && d.upTimeSec == stored.value.upTimeSec.Get(15)
      && d.downTimeSec == stored.value.downTimeSec.Get(15)
    ensures stored.Some? && stored.value.inputUpPin.Present? && stored.value.inputUpPin.value in inputs ==>
      d.inputUp == stored.value.inputUpPin.value
    ensures stored.Some? && stored.value.outputUpPin.Present? && stored.value.outputUpPin.value in outputs ==>
      d.outputUp == stored.value.outputUpPin.value
  {
    var name := Some(DefaultCoverName(coverId));
    var upTime, downTime := Some(15), Some(15);
    var inUp, inDown, outUp, outDown := None, None, None, None;
    if stored.Some? {
      var p := stored.value;
      name := p.name.Get(DefaultCoverName(coverId));
      upTime, downTime := p.upTimeSec.Get(15), p.downTimeSec.Get(15);
    }
    inUp := Preset(stored, if stored.Some? then stored.value.inputUpPin else Absent, inputs[0]);
    inDown := Preset(stored, if stored.Some? then stored.value.inputDownPin else Absent, inputs[1]);
    outUp := Preset(stored, if stored.Some? then stored.value.outputUpPin else Absent, outputs[0]);
    outDown := Preset(stored, if stored.Some? then stored.value.outputDownPin else Absent, outputs[1]);
    var inputUp, inputDown := ChooseUpDown(inputs, inUp, inDown);
    var outputUp, outputDown := ChooseUpDown(outputs, outUp, outDown);
    d := CoverDefaults(name, inputUp, inputDown, outputUp, outputDown, upTime, downTime);
  }

  // ---------------------------------------------------------------------------
  // Pins that belong to a cover

  /** A pin-list cover entry (pin 100 and up) that drives `pinNum` through its
      up or down input, or its up or down output. */
  predicate ManagesPin(p: PinConfig, pinNum: int, isInput: bool) {
    && p.kind == Cover
    && p.pin >= 100
    && if isInput then p.inputUpPin.Peek() == Some(pinNum) || p.inputDownPin.Peek() == Some(pinNum)
       else p.outputUpPin.Peek() == Some(pinNum) || p.outputDownPin.Peek() == Some(pinNum)
  }

  /** The first entry that manages the pin, or none. */
  function CoverForPin(allPins: seq<PinConfig>, pinNum: int, isInput: bool): (r: Option<PinConfig>)
    ensures r.None? <==> forall p :: p in allPins ==> !ManagesPin(p, pinNum, isInput)
    ensures r.Some? ==> exists k :: (0 <= k < |allPins| && allPins[k] == r.value && ManagesPin(r.value, pinNum, isInput) &&
      forall j :: 0 <= j < k ==> !ManagesPin(allPins[j], pinNum, isInput))
    decreases |allPins|
  {
    if allPins == [] then None
    else if ManagesPin(allPins[0], pinNum, isInput) then Some(allPins[0])
    else
      var r := CoverForPin(allPins[1..], pinNum, isInput);
      assert forall p :: p in allPins ==> p == allPins[0] || p in allPins[1..];
      if r.Some? then
        var k :| 0 <= k < |allPins[1..]| && allPins[1..][k] == r.value && ManagesPin(r.value, pinNum, isInput) &&
          forall j :: 0 <= j < k ==> !ManagesPin(allPins[1..][j], pinNum, isInput);
        assert allPins[k + 1] == r.value;
        assert forall j :: 0 <= j < k + 1 ==> !ManagesPin(allPins[j], pinNum, isInput) by {
          forall j | 0 <= j < k + 1
            ensures !ManagesPin(allPins[j], pinNum, isInput)
          {
            if j > 0 {
              assert allPins[j] == allPins[1..][j - 1];
            }
          }
        }
        r
      else r
  }

  /** The first managing entry is the one found. */
  lemma CoverForPinFirst(allPins: seq<PinConfig>, i: int, pinNum: int, isInput: bool)
    requires 0 <= i < |allPins| && ManagesPin(allPins[i], pinNum, isInput)
    requires forall j :: 0 <= j < i ==> !ManagesPin(allPins[j], pinNum, isInput)
    ensures CoverForPin(allPins, pinNum, isInput) == Some(allPins[i])
  {
    assert allPins[i] in allPins;
    var r := CoverForPin(allPins, pinNum, isInput);
    var k :| 0 <= k < |allPins| && allPins[k] == r.value && ManagesPin(r.value, pinNum, isInput) &&
      forall j :: 0 <= j < k ==> !ManagesPin(allPins[j], pinNum, isInput);
    assert !(k < i) && !(i < k);
  }

  /** A cover synthesized from the dedicated list keeps its pins, so the pins
      of such a cover are reported as managed. */
  lemma SynthesizedCoverManagesItsInputs(p: PinConfig, pinNum: int)
    requires p.kind == Cover && p.pin >= 100 && p.inputUpPin == Present(pinNum)
    ensures CoverForPin([p], pinNum, true) == Some(p)
  {
  }
}
