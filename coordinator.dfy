/** The poll-cycle coordinator of the current integration
    (custom_components/iotix/coordinator.py): it turns the replies of one poll
    into a snapshot or a refresh failure, merges the two cover sources, keys pin
    state by direction and pin, fans button events out to registered listeners,
    and performs the single-write commands. */
module Coordinator {
  import opened Json
  import opened Text
  import opened Records

  // ===========================================================================
  // Cover merge: the pin list wins, dedicated covers fill the gaps

  /** The cover id a pin-list entry stands for: its `coverId`, or
      `max(pin - 100, 0)` when the key is missing (an explicit null gives None). */
  function PinCoverId(p: PinConfig): Option<int> {
    p.coverId.Get(if p.pin - 100 > 0 then p.pin - 100 else 0)
  }

  /** The ids of every cover entry of the pin list, computed once per poll. */
  function ExistingCoverIds(raw: seq<PinConfig>): set<Option<int>> {
    set p | p in raw && p.kind == Cover :: PinCoverId(p)
  }

  /** The pin-list-shaped entry built for a dedicated cover with id `id`. */
  function SynthesizedCover(c: CoverConfig, id: int): (r: PinConfig)
    ensures r.pin == 100 + id && r.kind == Cover && r.coverId == Present(id) && r.isInput == Present(false)
    ensures r.buttonMode.None?
    ensures c.name.Absent? ==> r.name == Present("Cover " + Decimal(id + 1))
    ensures c.name.Present? ==> r.name == Present(c.name.value)
    ensures c.name.Null? ==> r.name == Null
    ensures c.interlock.Absent? ==> r.interlock == Present(true)
    ensures c.interlock.Present? ==> r.interlock == Present(c.interlock.value)
    ensures c.interlock.Null? ==> r.interlock == Null
    ensures !r.inputUpPin.Absent? && r.inputUpPin.Peek() == c.inputUpPin
    ensures !r.inputDownPin.Absent? && r.inputDownPin.Peek() == c.inputDownPin
    ensures !r.outputUpPin.Absent? && r.outputUpPin.Peek() == c.outputUpPin
    ensures !r.outputDownPin.Absent? && r.outputDownPin.Peek() == c.outputDownPin
    ensures !r.upTimeSec.Absent? && r.upTimeSec.Peek() == c.upTimeSec
    ensures !r.downTimeSec.Absent? && r.downTimeSec.Peek() == c.downTimeSec
    ensures c.moving.Absent? ==> r.moving == Present(false)
    ensures c.moving.Present? ==> r.moving == Present(c.moving.value)
    ensures c.moving.Null? ==> r.moving == Null
    ensures c.direction.Absent? ==> r.direction == Present("stopped")
    ensures c.direction.Present? ==> r.direction == Present(c.direction.value)
    ensures c.direction.Null? ==> r.direction == Null
  {
    PinConfig(
      pin := 100 + id,
      kind := Cover,
      name := Store(c.name.Get("Cover " + Decimal(id + 1))),
      isInput := Present(false),
      buttonMode := None,
      coverId := Present(id),
      inputUpPin := Store(c.inputUpPin),
      inputDownPin := Store(c.inputDownPin),
      outputUpPin := Store(c.outputUpPin),
      outputDownPin := Store(c.outputDownPin),
      upTimeSec := Store(c.upTimeSec),
      downTimeSec := Store(c.downTimeSec),
      interlock := Store(c.interlock.Get(true)),
      moving := Store(c.moving.Get(false)),
      direction := Store(c.direction.Get("stopped")))
  }

  /** A dedicated cover is added when it has an id that the pin list lacks. */
  predicate AddsCover(c: CoverConfig, existing: set<Option<int>>) {
    c.coverId.Some? && c.coverId !in existing
  }

  /** The entries synthesized from the dedicated covers, in their order. The id
      set is fixed: two dedicated entries with the same new id both appear. */
  function Synthesized(covers: seq<CoverConfig>, existing: set<Option<int>>): (r: seq<PinConfig>)
    ensures |r| <= |covers|
    ensures forall q :: q in r ==>
      q.kind == Cover && q.coverId.Present? && Some(q.coverId.value) !in existing && q.pin == 100 + q.coverId.value
    decreases |covers|
  {
    if covers == [] then []
    else
      var last := covers[|covers| - 1];
      Synthesized(covers[..|covers| - 1], existing)
        + (if AddsCover(last, existing) then [SynthesizedCover(last, last.coverId.value)] else [])
  }

  /** The `pins_config` of a snapshot: the raw pin list, then the synthesized covers. */
  function MergedPins(raw: seq<PinConfig>, covers: seq<CoverConfig>): (merged: seq<PinConfig>)
    ensures |raw| <= |merged| <= |raw| + |covers|
    ensures merged[..|raw|] == raw
    ensures forall q :: q in merged[|raw|..] ==>
      q.kind == Cover && q.coverId.Present? && Some(q.coverId.value) !in ExistingCoverIds(raw)
      && q.pin == 100 + q.coverId.value
  {
    var r := raw + Synthesized(covers, ExistingCoverIds(raw));
    assert r[|raw|..] == Synthesized(covers, ExistingCoverIds(raw));
    r
  }

  /** The merge loop of a poll (append one entry per dedicated cover to add). */
  method MergeCoverPins(raw: seq<PinConfig>, covers: seq<CoverConfig>) returns (merged: seq<PinConfig>)
    ensures merged == MergedPins(raw, covers)
  {
    var existing := ExistingCoverIds(raw);
    merged := raw;
    var i := 0;
    while i < |covers|
      invariant 0 <= i <= |covers|
      invariant merged == raw + Synthesized(covers[..i], existing)
    {
      var cover := covers[i];
      assert covers[..i + 1][..i] == covers[..i];
      if cover.coverId.Some? && cover.coverId !in existing {
        merged := merged + [SynthesizedCover(cover, cover.coverId.value)];
      }
      i := i + 1;
    }
    assert covers[..|covers|] == covers;
  }

  /** Every dedicated cover with an id the pin list lacks is synthesized. */
  lemma {:induction false} SynthesizedCoversEveryNewId(covers: seq<CoverConfig>, existing: set<Option<int>>, c: CoverConfig)
    requires c in covers && AddsCover(c, existing)
    ensures SynthesizedCover(c, c.coverId.value) in Synthesized(covers, existing)
    decreases |covers|
  {
    var prefix := covers[..|covers| - 1];
    if c != covers[|covers| - 1] {
      assert c in prefix;
      SynthesizedCoversEveryNewId(prefix, existing, c);
    }
  }

  /** Every synthesized entry comes from a dedicated cover with a new id. */
  lemma {:induction false} SynthesizedFromDedicated(covers: seq<CoverConfig>, existing: set<Option<int>>, q: PinConfig)
    requires q in Synthesized(covers, existing)
    ensures exists c :: c in covers && AddsCover(c, existing) && q == SynthesizedCover(c, c.coverId.value)
    decreases |covers|
  {
    var prefix := covers[..|covers| - 1];
    var last := covers[|covers| - 1];
    if q in Synthesized(prefix, existing) {
      SynthesizedFromDedicated(prefix, existing, q);
      var c :| c in prefix && AddsCover(c, existing) && q == SynthesizedCover(c, c.coverId.value);
      assert c in covers;
    } else {
      assert last in covers;
    }
  }

  /** A cover id present in the pin list is never synthesized again, whatever
      the dedicated source says about it: the pin list wins. */
  lemma PinListWins(raw: seq<PinConfig>, covers: seq<CoverConfig>, p: PinConfig)
    requires p in raw && p.kind == Cover && PinCoverId(p).Some?
    ensures forall q :: q in MergedPins(raw, covers)[|raw|..] ==> q.coverId != Present(PinCoverId(p).value)
  {
    assert PinCoverId(p) in ExistingCoverIds(raw);
  }

  /** With a cover 2 in both sources, the merged list is the pin list alone. */
  lemma MergeExamplePinListWins(fromPins: PinConfig, dedicated: CoverConfig)
    requires fromPins.kind == Cover && fromPins.pin == 102 && fromPins.coverId == Present(2)
    requires dedicated.coverId == Some(2)
    ensures MergedPins([fromPins], [dedicated]) == [fromPins]
  {
    assert ExistingCoverIds([fromPins]) == {Some(2)};
  }

  /** A cover 1 known only to the dedicated source gives exactly one entry, at pin 101. */
  lemma MergeExampleDedicatedOnly(dedicated: CoverConfig)
    requires dedicated.coverId == Some(1)
    ensures MergedPins([], [dedicated]) == [SynthesizedCover(dedicated, 1)]
    ensures MergedPins([], [dedicated])[0].pin == 101
  {
    assert ExistingCoverIds([]) == {};
  }

  /** The dedicated source reporting cover 1 twice gives two entries at pin 101:
      unlike the cover platform's setup, the merge does not grow its id set. */
  lemma MergeKeepsDedicatedDuplicates(dedicated: CoverConfig)
    requires dedicated.coverId == Some(1)
    ensures MergedPins([], [dedicated, dedicated]) == [SynthesizedCover(dedicated, 1), SynthesizedCover(dedicated, 1)]
    ensures MergedPins([], [dedicated, dedicated])[1].pin == 101
  {
    var covers := [dedicated, dedicated];
    var existing := ExistingCoverIds([]);
    assert existing == {};
    assert covers[..1] == [dedicated];
    assert covers[..1][..0] == [];
    assert Synthesized(covers[..1], existing) == [SynthesizedCover(dedicated, 1)];
  }

  // ===========================================================================
  // Pin state: which pins are fetched and under which key

  /** The key `in_N` / `out_N` of the `pin_states` map. */
  datatype StateKey = StateKey(isInput: bool, pin: int)

  /** The key as the text the integration builds. */
  function KeyText(k: StateKey): string {
    (if k.isInput then "in_" else "out_") + Decimal(k.pin)
  }

  /** Keying by `StateKey` loses nothing: distinct keys have distinct texts. */
  lemma KeyTextInjective(a: StateKey, b: StateKey)
    requires KeyText(a) == KeyText(b)
    ensures a == b
  {
    assert KeyText(a)[0] == (if a.isInput then 'i' else 'o');
    assert KeyText(b)[0] == (if b.isInput then 'i' else 'o');
    PrefixedDecimalInjective(if a.isInput then "in_" else "out_", a.pin, b.pin);
  }

  /** `isInput` read with `type == "binary_sensor"` as its default; a null reads
      as false. */
  function IsInputFlag(p: PinConfig): bool {
    p.isInput.Get(p.kind == BinarySensor) == Some(true)
  }

  /** Only non-cover entries below pin 100 have their state fetched. */
  predicate Queried(p: PinConfig) {
    p.kind != Cover && p.pin < 100
  }

  function QueryKey(p: PinConfig): StateKey {
    StateKey(IsInputFlag(p), p.pin)
  }

  /** The keys of the state fetches of a poll, in the order they are issued. */
  function StateQueries(entries: seq<PinConfig>): (q: seq<StateKey>)
    ensures |q| <= |entries|
    ensures forall k :: k in q ==> k.pin < 100
    decreases |entries|
  {
    if entries == [] then []
    else
      var last := entries[|entries| - 1];
      StateQueries(entries[..|entries| - 1]) + (if Queried(last) then [QueryKey(last)] else [])
  }

  /** `pin_states` after fetching for `entries`: a 200 reply stores its body
      under the key, anything else is skipped. */
  function PinStates(entries: seq<PinConfig>, replies: seq<Response<PinState>>): (states: map<StateKey, PinState>)
    ensures forall k :: k in states ==> k in StateQueries(entries)
    decreases |entries|
  {
    if entries == [] then map[]
    else
      var prefix := entries[..|entries| - 1];
      var last := entries[|entries| - 1];
      var states := PinStates(prefix, replies);
      var reply := ReplyAt(replies, |StateQueries(prefix)|);
      if Queried(last) && reply.IsOk() then states[QueryKey(last) := reply.body] else states
  }

  /** The state loop of a poll. */
  method FetchPinStates(entries: seq<PinConfig>, replies: seq<Response<PinState>>) returns (states: map<StateKey, PinState>)
    ensures states == PinStates(entries, replies)
  {
    states := map[];
    var i, fetched := 0, 0;
    while i < |entries|
      invariant 0 <= i <= |entries|
      invariant fetched == |StateQueries(entries[..i])|
      invariant states == PinStates(entries[..i], replies)
    {
      var entry := entries[i];
      assert entries[..i + 1][..i] == entries[..i];
      if entry.kind != Cover && entry.pin < 100 {
        var key := StateKey(IsInputFlag(entry), entry.pin);
        var reply := ReplyAt(replies, fetched);
        fetched := fetched + 1;
        if reply.Reply? && reply.status == 200 {
          states := states[key := reply.body];
        }
      }
      i := i + 1;
    }
    assert entries[..|entries|] == entries;
  }

  /** A key is in `pin_states` exactly when some fetch under that key got a 200. */
  lemma {:induction false} PinStatesExact(entries: seq<PinConfig>, replies: seq<Response<PinState>>, key: StateKey)
    ensures key in PinStates(entries, replies) <==>
      exists k :: 0 <= k < |StateQueries(entries)| && StateQueries(entries)[k] == key && ReplyAt(replies, k).IsOk()
    decreases |entries|
  {
    if entries != [] {
      var prefix := entries[..|entries| - 1];
      var last := entries[|entries| - 1];
      PinStatesExact(prefix, replies, key);
      var q, qp := StateQueries(entries), StateQueries(prefix);
      if Queried(last) {
        assert q == qp + [QueryKey(last)];
        var n := |qp|;
        if ReplyAt(replies, n).IsOk() && QueryKey(last) == key {
          assert q[n] == key;
        } else {
          if key in PinStates(prefix, replies) {
            var j :| 0 <= j < |qp| && qp[j] == key && ReplyAt(replies, j).IsOk();
            assert q[j] == key;
          }
          if exists j :: 0 <= j < |q| && q[j] == key && ReplyAt(replies, j).IsOk() {
            var j :| 0 <= j < |q| && q[j] == key && ReplyAt(replies, j).IsOk();
            assert j < n;
            assert qp[j] == key;
          }
        }
      } else {
        assert q == qp;
      }
    }
  }

  /** The stored state is the body of the last successful fetch under that key. */
  lemma {:induction false} PinStatesLastWins(entries: seq<PinConfig>, replies: seq<Response<PinState>>, k: nat)
    requires k < |StateQueries(entries)| && ReplyAt(replies, k).IsOk()
    requires forall j :: k < j < |StateQueries(entries)| && StateQueries(entries)[j] == StateQueries(entries)[k] ==>
      !ReplyAt(replies, j).IsOk()
    ensures StateQueries(entries)[k] in PinStates(entries, replies)
    ensures PinStates(entries, replies)[StateQueries(entries)[k]] == ReplyAt(replies, k).body
    decreases |entries|
  {
    var prefix := entries[..|entries| - 1];
    var last := entries[|entries| - 1];
    var q, qp := StateQueries(entries), StateQueries(prefix);
    if Queried(last) {
      assert q == qp + [QueryKey(last)];
      if k < |qp| {
        forall j | k < j < |qp| && qp[j] == qp[k]
          ensures !ReplyAt(replies, j).IsOk()
        {
          assert q[j] == q[k];
        }
        PinStatesLastWins(prefix, replies, k);
      }
    } else {
      assert q == qp;
      PinStatesLastWins(prefix, replies, k);
    }
  }

  // ===========================================================================
  // Cover state keyed by cover id

  /** `covers_state`: each entry with a `coverId` stored under it, later
      entries replacing earlier ones; entries without an id are dropped. */
  function CoversStateOf(entries: seq<CoverState>): (states: map<int, CoverState>)
    ensures forall id :: id in states ==> states[id] in entries && states[id].coverId == Some(id)
    decreases |entries|
  {
    if entries == [] then map[]
    else
      var last := entries[|entries| - 1];
      var states := CoversStateOf(entries[..|entries| - 1]);
      if last.coverId.Some? then states[last.coverId.value := last] else states
  }

  method CollectCoversState(entries: seq<CoverState>) returns (states: map<int, CoverState>)
    ensures states == CoversStateOf(entries)
  {
    states := map[];
    for i := 0 to |entries|
      invariant states == CoversStateOf(entries[..i])
    {
      assert entries[..i + 1][..i] == entries[..i];
      var coverId := entries[i].coverId;
      if coverId.Some? {
        states := states[coverId.value := entries[i]];
      }
    }
    assert entries[..|entries|] == entries;
  }

  /** A cover id is a key of `covers_state` exactly when some entry carries it,
      and it maps to the last such entry. */
  lemma {:induction false} CoversStateExact(entries: seq<CoverState>, i: nat)
    requires i < |entries| && entries[i].coverId.Some?
    requires forall j :: i < j < |entries| ==> entries[j].coverId != entries[i].coverId
    ensures entries[i].coverId.value in CoversStateOf(entries)
    ensures CoversStateOf(entries)[entries[i].coverId.value] == entries[i]
    decreases |entries|
  {
    if i < |entries| - 1 {
      CoversStateExact(entries[..|entries| - 1], i);
    }
  }

  /** Only ids carried by some entry become keys of `covers_state`. */
  lemma {:induction false} CoversStateKeys(entries: seq<CoverState>, id: int)
    requires id in CoversStateOf(entries)
    ensures exists i :: 0 <= i < |entries| && entries[i].coverId == Some(id)
    decreases |entries|
  {
    var prefix := entries[..|entries| - 1];
    if entries[|entries| - 1].coverId != Some(id) {
      CoversStateKeys(prefix, id);
      var i :| 0 <= i < |prefix| && prefix[i].coverId == Some(id);
      assert entries[i].coverId == Some(id);
    }
  }

  // ===========================================================================
  // Button-event dispatch

  /** A registered callback, named by the listener that registered it. */
  type ListenerId = nat

  /** One call of a callback with the event type it was passed. */
  datatype Invocation = Invocation(listener: ListenerId, pin: int, eventType: Option<string>)

  /** The registry after `register_button_event_listener(pin, id)`. */
  function Registered(listeners: map<int, seq<ListenerId>>, pin: int, id: ListenerId): (after: map<int, seq<ListenerId>>)
    ensures after.Keys == listeners.Keys + {pin}
    ensures forall q :: q in listeners && q != pin ==> after[q] == listeners[q]
    ensures pin in listeners ==> after[pin] == listeners[pin] + [id]
    ensures pin !in listeners ==> after[pin] == [id]
  {
    listeners[pin := (if pin in listeners then listeners[pin] else []) + [id]]
  }

  /** One call per callback, in order, all with the same pin and event type. */
  function CallbackCalls(callbacks: seq<ListenerId>, pin: int, eventType: Option<string>): seq<Invocation> {
    seq(|callbacks|, j requires 0 <= j < |callbacks| => Invocation(callbacks[j], pin, eventType))
  }

  /** The calls one event causes: every callback on its pin, in registration order. */
  function EventDeliveries(listeners: map<int, seq<ListenerId>>, e: ButtonEvent): seq<Invocation> {
    if e.inputPin.Some? && e.inputPin.value in listeners then
      CallbackCalls(listeners[e.inputPin.value], e.inputPin.value, e.eventType)
    else []
  }

  /** The calls a list of events causes, event by event. */
  function Deliveries(listeners: map<int, seq<ListenerId>>, events: seq<ButtonEvent>): (calls: seq<Invocation>)
    ensures forall c :: c in calls ==> c.pin in listeners && c.listener in listeners[c.pin]
    decreases |events|
  {
    if events == [] then []
    else
      var last := EventDeliveries(listeners, events[|events| - 1]);
      assert forall c :: c in last ==> c.pin in listeners && c.listener in listeners[c.pin] by {
        forall c | c in last
          ensures c.pin in listeners && c.listener in listeners[c.pin]
        {
          var j :| 0 <= j < |last| && last[j] == c;
        }
      }
      Deliveries(listeners, events[..|events| - 1]) + last
  }

  /** The calls whose callback raised (and was logged). */
  function Raised(calls: seq<Invocation>, raises: Invocation -> bool): seq<Invocation>
    decreases |calls|
  {
    if calls == [] then []
    else
      var last := calls[|calls| - 1];
      Raised(calls[..|calls| - 1], raises) + (if raises(last) then [last] else [])
  }

  lemma RaisedSnoc(calls: seq<Invocation>, call: Invocation, raises: Invocation -> bool)
    ensures Raised(calls + [call], raises) == Raised(calls, raises) + (if raises(call) then [call] else [])
  {
    assert (calls + [call])[..|calls|] == calls;
  }

  /** Dispatching a concatenation is dispatching each part in turn. */
  lemma {:induction false} DeliveriesAppend(listeners: map<int, seq<ListenerId>>, a: seq<ButtonEvent>, b: seq<ButtonEvent>)
    ensures Deliveries(listeners, a + b) == Deliveries(listeners, a) + Deliveries(listeners, b)
    decreases |b|
  {
    if b == [] {
      assert a + b == a;
    } else {
      var b' := b[..|b| - 1];
      var e := b[|b| - 1];
      assert (a + b)[..|a + b| - 1] == a + b';
      assert (a + b)[|a + b| - 1] == e;
      assert Deliveries(listeners, a + b) == Deliveries(listeners, a + b') + EventDeliveries(listeners, e);
      assert Deliveries(listeners, b) == Deliveries(listeners, b') + EventDeliveries(listeners, e);
      DeliveriesAppend(listeners, a, b');
    }
  }

  /** Every call goes to a callback registered on the pin of an event of the
      list, with that event's type: pins without listeners cause nothing. */
  lemma {:induction false} DeliveredOnlyToRegistered(listeners: map<int, seq<ListenerId>>, events: seq<ButtonEvent>, call: Invocation)
    requires call in Deliveries(listeners, events)
    ensures call.pin in listeners && call.listener in listeners[call.pin]
    ensures exists e :: e in events && e.inputPin == Some(call.pin) && e.eventType == call.eventType
    decreases |events|
  {
    var prefix := events[..|events| - 1];
    var last := events[|events| - 1];
    if call in Deliveries(listeners, prefix) {
      DeliveredOnlyToRegistered(listeners, prefix, call);
      var e :| e in prefix && e.inputPin == Some(call.pin) && e.eventType == call.eventType;
      assert e in events;
    } else {
      var callbacks := listeners[last.inputPin.value];
      var j :| 0 <= j < |callbacks| && EventDeliveries(listeners, last)[j] == call;
      assert last in events;
    }
  }

  /** Two listeners on pin 5 both get one "short_press"; the one on pin 6 gets nothing. */
  lemma DispatchExample(a: ListenerId, b: ListenerId, c: ListenerId)
    ensures Deliveries(map[5 := [a, b], 6 := [c]], [ButtonEvent(Some(5), Some("short_press"))])
      == [Invocation(a, 5, Some("short_press")), Invocation(b, 5, Some("short_press"))]
  {
    var events := [ButtonEvent(Some(5), Some("short_press"))];
    assert events[..0] == [];
  }

  /** Registering on a pin adds exactly one call per later event on that pin,
      after the calls of the listeners already there. */
  lemma RegisterThenDeliver(listeners: map<int, seq<ListenerId>>, pin: int, id: ListenerId, e: ButtonEvent)
    ensures e.inputPin == Some(pin) ==>
      EventDeliveries(Registered(listeners, pin, id), e) == EventDeliveries(listeners, e) + [Invocation(id, pin, e.eventType)]
    ensures e.inputPin != Some(pin) ==>
      EventDeliveries(Registered(listeners, pin, id), e) == EventDeliveries(listeners, e)
  {
  }

  // ===========================================================================
  // One poll

  /** `triggers` keeps its `{}` default when the fetch fails, and is the
      returned list (or `[]`) when it succeeds. */
  datatype Triggers = NoTriggers | TriggerList(entries: seq<InputTrigger>)

  /** The replies the controller gives during one poll, in request order. */
  datatype PollReplies = PollReplies(
    info: Response<DeviceInfo>,
    pinsConfig: Response<Option<seq<PinConfig>>>,
    coversConfig: Response<Option<seq<CoverConfig>>>,
    pinStates: seq<Response<PinState>>,
    coversState: Response<Option<seq<CoverState>>>,
    triggers: Response<Option<seq<InputTrigger>>>,
    buttonEvents: Response<Option<seq<ButtonEvent>>>,
    xr8Modules: Response<Option<seq<RelayModule>>>)

  datatype Snapshot = Snapshot(
    deviceInfo: DeviceInfo,
    pinsConfig: seq<PinConfig>,
    pinStates: map<StateKey, PinState>,
    triggers: Triggers,
    buttonEvents: seq<ButtonEvent>,
    coversState: map<int, CoverState>,
    coversConfig: seq<CoverConfig>,
    xr8Modules: seq<RelayModule>)

  /** Why `UpdateFailed` was raised. */
  datatype UpdateFailed = InfoStatus(status: int) | PinsConfigStatus(status: int) | Unreachable

  datatype PollResult = Refreshed(snapshot: Snapshot) | Failed(reason: UpdateFailed)

  /** A soft-failing list fetch: the list on a 200, `[]` otherwise. */
  function SoftList<T>(r: Response<Option<seq<T>>>): seq<T> {
    Items(BodyOr(r, None))
  }

  function TriggersOf(r: Response<Option<seq<InputTrigger>>>): Triggers {
    if r.IsOk() then TriggerList(Items(r.body)) else NoTriggers
  }

  /** The snapshot of a poll whose two load-bearing fetches succeeded. */
  function PollSnapshot(r: PollReplies): (snapshot: Snapshot)
    requires r.info.IsOk() && r.pinsConfig.IsOk()
    ensures snapshot.deviceInfo == r.info.body
    ensures |Items(r.pinsConfig.body)| <= |snapshot.pinsConfig|
    ensures snapshot.pinsConfig[..|Items(r.pinsConfig.body)|] == Items(r.pinsConfig.body)
    ensures forall k :: k in snapshot.pinStates ==> k in StateQueries(snapshot.pinsConfig) && k.pin < 100
    ensures forall id :: id in snapshot.coversState ==> snapshot.coversState[id].coverId == Some(id)
    ensures snapshot.triggers.NoTriggers? <==> !r.triggers.IsOk()
    ensures !r.coversConfig.IsOk() ==> snapshot.coversConfig == [] && snapshot.pinsConfig == Items(r.pinsConfig.body)
  {
    var covers := SoftList(r.coversConfig);
    var merged := MergedPins(Items(r.pinsConfig.body), covers);
    Snapshot(
      deviceInfo := r.info.body,
      pinsConfig := merged,
      pinStates := PinStates(merged, r.pinStates),
      triggers := TriggersOf(r.triggers),
      buttonEvents := SoftList(r.buttonEvents),
      coversState := CoversStateOf(SoftList(r.coversState)),
      coversConfig := covers,
      xr8Modules := SoftList(r.xr8Modules))
  }

  /** The outcome of `_async_update_data`. */
  function Poll(r: PollReplies): (result: PollResult)
    ensures result.Failed? <==> !r.info.IsOk() || !r.pinsConfig.IsOk()
    ensures result.Failed? && r.info.Reply? && r.info.status != 200 ==> result.reason == InfoStatus(r.info.status)
    ensures result.Failed? && r.info.IsOk() && r.pinsConfig.Reply? ==> result.reason == PinsConfigStatus(r.pinsConfig.status)
    ensures result.Refreshed? ==>
      && result.snapshot.deviceInfo == r.info.body
      && |Items(r.pinsConfig.body)| <= |result.snapshot.pinsConfig|
      && result.snapshot.pinsConfig[..|Items(r.pinsConfig.body)|] == Items(r.pinsConfig.body)
      && (!r.coversConfig.IsOk() ==> result.snapshot.coversConfig == [] && result.snapshot.pinsConfig == Items(r.pinsConfig.body))
      && (!r.coversState.IsOk() ==> result.snapshot.coversState == map[])
      && (!r.triggers.IsOk() ==> result.snapshot.triggers == NoTriggers)
      && (!r.buttonEvents.IsOk() ==> result.snapshot.buttonEvents == [])
      && (!r.xr8Modules.IsOk() ==> result.snapshot.xr8Modules == [])
  {
    if r.info.TransportError? then Failed(Unreachable)
    else if r.info.status != 200 then Failed(InfoStatus(r.info.status))
    else if r.pinsConfig.TransportError? then Failed(Unreachable)
    else if r.pinsConfig.status != 200 then Failed(PinsConfigStatus(r.pinsConfig.status))
    else
      var raw := Items(r.pinsConfig.body);
      assert SoftList(r.coversConfig) == [] ==> MergedPins(raw, []) == raw;
      Refreshed(PollSnapshot(r))
  }

  /** One soft-failing list fetch: the list on a 200, `[]` otherwise. */
  method FetchList<T>(r: Response<Option<seq<T>>>) returns (list: seq<T>)
    ensures list == SoftList(r)
    ensures !r.IsOk() ==> list == []
  {
    list := [];
    if r.Reply? && r.status == 200 {
      list := Items(r.body);
    }
  }

  /** The fetches of a poll after the two load-bearing ones: each soft failure
      keeps its default and the poll goes on. */
  method FetchSnapshot(r: PollReplies) returns (snapshot: Snapshot)
    requires r.info.IsOk() && r.pinsConfig.IsOk()
    ensures snapshot == PollSnapshot(r)
  {
    var deviceInfo := r.info.body;
    var rawPins := Items(r.pinsConfig.body);
    var coversConfig := FetchList(r.coversConfig);
    var merged := MergeCoverPins(rawPins, coversConfig);
    var pinStates := FetchPinStates(merged, r.pinStates);
    var coverStates := FetchList(r.coversState);
    var coversState := CollectCoversState(coverStates);
    var triggers := NoTriggers;
    if r.triggers.Reply? && r.triggers.status == 200 {
      triggers := TriggerList(Items(r.triggers.body));
    }
    var buttonEvents := FetchList(r.buttonEvents);
    var xr8Modules := FetchList(r.xr8Modules);
    snapshot := Snapshot(deviceInfo, merged, pinStates, triggers, buttonEvents, coversState, coversConfig, xr8Modules);
  }

  // ===========================================================================
  // Commands

  /** The write requests the coordinator issues. */
  datatype Command =
    | PinControl(pin: int, command: string, brightness: Option<int>)
    | PinConfigure(pin: int, pinType: string, name: string)
    | CoverControl(targetCover: Option<int>, command: string)
    | CoverConfigure(coverId: int, name: string, inputUpPin: int, inputDownPin: int, outputUpPin: int,
                     outputDownPin: int, upTimeSec: int, downTimeSec: int, interlock: Option<bool>)
    | Xr8Configure(moduleId: int, address: Option<int>, configured: bool, relays: Option<seq<string>>)

  /** The `relays` field of an XR8 payload: only sent for exactly 8 names. */
  function Xr8Relays(relayNames: Option<seq<string>>): Option<seq<string>> {
    if relayNames.Some? && |relayNames.value| == 8 then relayNames else None
  }

  /** The inner loop of `_trigger_button_events`: each callback of one pin is
      called in turn, and one that raises is logged without stopping the rest. */
  method CallEach(callbacks: seq<ListenerId>, pin: int, eventType: Option<string>, raises: Invocation -> bool,
                  callsBefore: seq<Invocation>, errorsBefore: seq<Invocation>)
    returns (calls: seq<Invocation>, errors: seq<Invocation>)
    requires errorsBefore == Raised(callsBefore, raises)
    ensures calls == callsBefore + CallbackCalls(callbacks, pin, eventType)
    ensures errors == Raised(calls, raises)
  {
    calls, errors := callsBefore, errorsBefore;
    for j := 0 to |callbacks|
      invariant calls == callsBefore + CallbackCalls(callbacks, pin, eventType)[..j]
      invariant errors == Raised(calls, raises)
    {
      var call := Invocation(callbacks[j], pin, eventType);
      assert CallbackCalls(callbacks, pin, eventType)[..j + 1] == CallbackCalls(callbacks, pin, eventType)[..j] + [call];
      RaisedSnoc(calls, call, raises);
      calls := calls + [call];
      if raises(call) {
        errors := errors + [call];
      }
    }
    assert CallbackCalls(callbacks, pin, eventType)[..|callbacks|] == CallbackCalls(callbacks, pin, eventType);
  }

  class AdamCoordinator {
    const host: string
    const mac: string
    /** `_button_event_listeners`: pin to callbacks, in registration order. */
    var listeners: map<int, seq<ListenerId>>
    /** Every callback call made so far, in order. */
    var deliveries: seq<Invocation>
    /** The calls whose callback raised; each was logged and dispatch went on. */
    var callbackErrors: seq<Invocation>
    /** Every write request sent, in order. */
    var requests: seq<Command>
    /** How many times `async_request_refresh` was awaited. */
    var refreshRequests: nat

    constructor (host: string, mac: string)
      ensures this.host == host && this.mac == mac
      ensures listeners == map[] && deliveries == [] && callbackErrors == []
      ensures requests == [] && refreshRequests == 0
    {
      this.host, this.mac := host, mac;
      listeners, deliveries, callbackErrors := map[], [], [];
      requests, refreshRequests := [], 0;
    }

    /** `register_button_event_listener`. */
    method RegisterButtonEventListener(pin: int, id: ListenerId)
      modifies this`listeners
      ensures listeners == Registered(old(listeners), pin, id)
    {
      if pin !in listeners {
        listeners := listeners[pin := []];
      }
      listeners := listeners[pin := listeners[pin] + [id]];
    }

    /** `_trigger_button_events`: every callback of each event's pin is called
        in order; which calls raise has no influence on which calls are made. */
    method TriggerButtonEvents(events: seq<ButtonEvent>, raises: Invocation -> bool)
      returns (calls: seq<Invocation>, errors: seq<Invocation>)
      ensures calls == Deliveries(listeners, events)
      ensures errors == Raised(calls, raises)
    {
      calls, errors := [], [];
      for i := 0 to |events|
        invariant calls == Deliveries(listeners, events[..i])
        invariant errors == Raised(calls, raises)
      {
        var event := events[i];
        assert events[..i + 1][..i] == events[..i];
        if event.inputPin.Some? && event.inputPin.value in listeners {
          var pin := event.inputPin.value;
          calls, errors := CallEach(listeners[pin], pin, event.eventType, raises, calls, errors);
        }
      }
      assert events[..|events|] == events;
    }

    /** `_async_update_data`: the snapshot or the failure of one poll; the
        button events of a successful poll are dispatched before it returns. */
    method UpdateData(r: PollReplies, raises: Invocation -> bool) returns (result: PollResult)
      modifies this`deliveries, this`callbackErrors
      ensures result == Poll(r)
      ensures result.Refreshed? ==>
        && deliveries == old(deliveries) + Deliveries(listeners, result.snapshot.buttonEvents)
        && callbackErrors == old(callbackErrors) + Raised(Deliveries(listeners, result.snapshot.buttonEvents), raises)
      ensures result.Failed? ==> deliveries == old(deliveries) && callbackErrors == old(callbackErrors)
    {
      if r.info.TransportError? {
        return Failed(Unreachable);
      } else if r.info.status != 200 {
        return Failed(InfoStatus(r.info.status));
      }
      if r.pinsConfig.TransportError? {
        return Failed(Unreachable);
      } else if r.pinsConfig.status != 200 {
        return Failed(PinsConfigStatus(r.pinsConfig.status));
      }
      var snapshot := FetchSnapshot(r);
      var calls, errors := TriggerButtonEvents(snapshot.buttonEvents, raises);
      deliveries := deliveries + calls;
      callbackErrors := callbackErrors + errors;
      result := Refreshed(snapshot);
    }

    /** `async_request_refresh`, as other entities call it. */
    method RequestRefresh()
      modifies this`refreshRequests
      ensures refreshRequests == old(refreshRequests) + 1
    {
      refreshRequests := refreshRequests + 1;
    }

    /** One write request; a refresh is requested only when it got a 200. */
    method Send(command: Command, result: WriteResult) returns (ok: bool)
      modifies this`requests, this`refreshRequests
      ensures requests == old(requests) + [command]
      ensures ok == result.IsOk()
      ensures refreshRequests == old(refreshRequests) + (if ok then 1 else 0)
    {
      requests := requests + [command];
      if result.Answered? && result.status == 200 {
        refreshRequests := refreshRequests + 1;
        return true;
      }
      return false;
    }

    /** `async_set_pin_state`: brightness is sent only when it was passed. */
    method SetPinState(pin: int, command: string, brightness: Option<int>, result: WriteResult) returns (ok: bool)
      modifies this`requests, this`refreshRequests
      ensures requests == old(requests) + [PinControl(pin, command, brightness)]
      ensures ok == result.IsOk()
      ensures refreshRequests == old(refreshRequests) + (if ok then 1 else 0)
    {
      ok := Send(PinControl(pin, command, brightness), result);
    }

    /** `async_configure_pin`. */
    method ConfigurePin(pin: int, pinType: string, name: string, result: WriteResult) returns (ok: bool)
      modifies this`requests, this`refreshRequests
      ensures requests == old(requests) + [PinConfigure(pin, pinType, name)]
      ensures ok == result.IsOk()
      ensures refreshRequests == old(refreshRequests) + (if ok then 1 else 0)
    {
      ok := Send(PinConfigure(pin, pinType, name), result);
    }

    /** `async_cover_command`. */
    method CoverCommand(coverId: Option<int>, command: string, result: WriteResult) returns (ok: bool)
      modifies this`requests, this`refreshRequests
      ensures requests == old(requests) + [CoverControl(coverId, command)]
      ensures ok == result.IsOk()
      ensures refreshRequests == old(refreshRequests) + (if ok then 1 else 0)
    {
      ok := Send(CoverControl(coverId, command), result);
    }

    /** `async_configure_cover`: the timers are passed through unchanged. */
    method ConfigureCover(coverId: int, name: string, inputUpPin: int, inputDownPin: int, outputUpPin: int,
                          outputDownPin: int, upTimeSec: int, downTimeSec: int, interlock: bool, result: WriteResult)
      returns (ok: bool)
      modifies this`requests, this`refreshRequests
      ensures requests == old(requests) + [CoverConfigure(coverId, name, inputUpPin, inputDownPin, outputUpPin,
                                                          outputDownPin, upTimeSec, downTimeSec, Some(interlock))]
      ensures ok == result.IsOk()
      ensures refreshRequests == old(refreshRequests) + (if ok then 1 else 0)
    {
      ok := Send(CoverConfigure(coverId, name, inputUpPin, inputDownPin, outputUpPin, outputDownPin,
                                upTimeSec, downTimeSec, Some(interlock)), result);
    }

    /** `async_configure_xr8_module`: relay names travel only when there are
        exactly eight of them. */
    method ConfigureXr8Module(moduleId: int, address: Option<int>, configured: bool, relayNames: Option<seq<string>>,
                              result: WriteResult) returns (ok: bool)
      modifies this`requests, this`refreshRequests
      ensures requests == old(requests) + [Xr8Configure(moduleId, address, configured, Xr8Relays(relayNames))]
      ensures Xr8Relays(relayNames).Some? <==> relayNames.Some? && |relayNames.value| == 8
      ensures ok == result.IsOk()
      ensures refreshRequests == old(refreshRequests) + (if ok then 1 else 0)
    {
      var relays: Option<seq<string>> := None;
      if relayNames.Some? && |relayNames.value| == 8 {
        relays := relayNames;
      }
      ok := Send(Xr8Configure(moduleId, address, configured, relays), result);
    }
  }
}
