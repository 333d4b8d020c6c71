/** The event platform of the current integration
    (custom_components/iotix/event.py): one event entity per push-button
    input, each registering one listener with the coordinator and firing the
    press types it is handed. */
module EventPlatform {
  import opened Json
  import opened Records
  import opened Coordinator

  /** `_attr_event_types`. */
  const EventTypes: seq<string> := ["short_press", "long_press", "double_press"]

  /** The setup filter: `isInput` truthy and `buttonMode == "push"`. */
  predicate IsPushButton(p: PinConfig) {
    Truthy(p.isInput) && p.buttonMode == Some("push")
  }

  /** An `AdamButtonEvent` and the listener it registered. */
  datatype EventEntity = EventEntity(pin: int, config: PinConfig, listener: ListenerId)

  /** The entities the setup creates, the `k`-th registering listener `firstId + k`. */
  function EventEntities(entries: seq<PinConfig>, firstId: ListenerId): (r: seq<EventEntity>)
    ensures |r| <= |entries|
    ensures forall k :: 0 <= k < |r| ==> r[k].listener == firstId + k
    ensures forall e :: e in r ==> e.config in entries && IsPushButton(e.config) && e.pin == e.config.pin
    decreases |entries|
  {
    if entries == [] then []
    else
      var last := entries[|entries| - 1];
      var r := EventEntities(entries[..|entries| - 1], firstId);
      assert forall p :: p in entries[..|entries| - 1] ==> p in entries;
      r + (if IsPushButton(last) then [EventEntity(last.pin, last, firstId + |r|)] else [])
  }

  /** The registry after each entity registered its listener on its own pin. */
  function RegisterAll(listeners: map<int, seq<ListenerId>>, entities: seq<EventEntity>): map<int, seq<ListenerId>>
    decreases |entities|
  {
    if entities == [] then listeners
    else
      var last := entities[|entities| - 1];
      Registered(RegisterAll(listeners, entities[..|entities| - 1]), last.pin, last.listener)
  }

  /** The setup loop's step: one more entry appends at most one entity. */
  lemma EventEntitiesStep(entries: seq<PinConfig>, i: nat, firstId: ListenerId)
    requires i < |entries|
    ensures var before := EventEntities(entries[..i], firstId);
      EventEntities(entries[..i + 1], firstId) ==
        before + (if IsPushButton(entries[i]) then [EventEntity(entries[i].pin, entries[i], firstId + |before|)] else [])
  {
    assert entries[..i + 1][..i] == entries[..i];
  }

  /** Registering one more entity is one more `Registered`. */
  lemma RegisterAllStep(listeners: map<int, seq<ListenerId>>, entities: seq<EventEntity>, e: EventEntity)
    ensures RegisterAll(listeners, entities + [e]) == Registered(RegisterAll(listeners, entities), e.pin, e.listener)
  {
    assert (entities + [e])[..|entities|] == entities;
  }

  /** `async_setup_entry` with the constructors' registrations. */
  method SetupEvents(coordinator: AdamCoordinator, entries: seq<PinConfig>, firstId: ListenerId) returns (entities: seq<EventEntity>)
    modifies coordinator`listeners
    ensures entities == EventEntities(entries, firstId)
    ensures coordinator.listeners == RegisterAll(old(coordinator.listeners), entities)
  {
    entities := [];
    for i := 0 to |entries|
      invariant entities == EventEntities(entries[..i], firstId)
      invariant coordinator.listeners == RegisterAll(old(coordinator.listeners), entities)
    {
      var p := entries[i];
      EventEntitiesStep(entries, i, firstId);
      if Truthy(p.isInput) && p.buttonMode == Some("push") {
        var entity := EventEntity(p.pin, p, firstId + |entities|);
        coordinator.RegisterButtonEventListener(p.pin, entity.listener);
        RegisterAllStep(old(coordinator.listeners), entities, entity);
        entities := entities + [entity];
      }
    }
    assert entries[..|entries|] == entries;
  }

  /** How often listener `id` is registered on `pin`. */
  function Count(listeners: map<int, seq<ListenerId>>, pin: int, id: ListenerId): nat {
    if pin in listeners then multiset(listeners[pin])[id] else 0
  }

  /** Every listener already registered has an id below `firstId`. */
  predicate AllBelow(listeners: map<int, seq<ListenerId>>, firstId: ListenerId) {
    forall p :: p in listeners ==> forall x :: x in listeners[p] ==> x < firstId
  }

  /** The `j`-th entity registers listener `firstId + j`. */
  predicate Numbered(entities: seq<EventEntity>, firstId: ListenerId) {
    forall j :: 0 <= j < |entities| ==> entities[j].listener == firstId + j
  }

  lemma RegisteredCount(listeners: map<int, seq<ListenerId>>, p: int, x: ListenerId, pin: int, id: ListenerId)
    ensures Count(Registered(listeners, p, x), pin, id) == Count(listeners, pin, id) + (if pin == p && id == x then 1 else 0)
  {
  }

  /** The last registration of a list counts once for its own pin and listener. */
  lemma RegisterAllLast(listeners: map<int, seq<ListenerId>>, entities: seq<EventEntity>, pin: int, id: ListenerId)
    requires |entities| > 0
    ensures Count(RegisterAll(listeners, entities), pin, id) ==
      Count(RegisterAll(listeners, entities[..|entities| - 1]), pin, id)
        + (if pin == entities[|entities| - 1].pin && id == entities[|entities| - 1].listener then 1 else 0)
  {
    var n := |entities| - 1;
    RegisteredCount(RegisterAll(listeners, entities[..n]), entities[n].pin, entities[n].listener, pin, id);
  }

  /** Listeners not yet handed out are registered nowhere. */
  lemma {:induction false} RegisterAllBelow(listeners: map<int, seq<ListenerId>>, entities: seq<EventEntity>, firstId: ListenerId, pin: int, id: ListenerId)
    requires AllBelow(listeners, firstId) && Numbered(entities, firstId)
    requires id >= firstId + |entities|
    ensures Count(RegisterAll(listeners, entities), pin, id) == 0
    decreases |entities|
  {
    if entities == [] {
      if pin in listeners {
        assert id !in listeners[pin];
      }
    } else {
      var n := |entities| - 1;
      var prefix := entities[..n];
      assert Numbered(prefix, firstId);
      RegisterAllBelow(listeners, prefix, firstId, pin, id);
      RegisterAllLast(listeners, entities, pin, id);
    }
  }

  /** Each entity's listener is registered exactly once, on its own pin, and
      on no other pin. */
  lemma {:induction false} RegisterAllOnce(listeners: map<int, seq<ListenerId>>, entities: seq<EventEntity>, firstId: ListenerId, k: nat, pin: int)
    requires AllBelow(listeners, firstId) && Numbered(entities, firstId)
    requires k < |entities|
    ensures Count(RegisterAll(listeners, entities), pin, firstId + k) == if pin == entities[k].pin then 1 else 0
    decreases |entities|, 1
  {
    if k < |entities| - 1 {
      RegisterAllOnceEarlier(listeners, entities, firstId, k, pin);
    } else {
      RegisterAllOnceNewest(listeners, entities, firstId, pin);
    }
  }

  /** An entity before the last: the last registration is another listener's. */
  lemma {:induction false} RegisterAllOnceEarlier(listeners: map<int, seq<ListenerId>>, entities: seq<EventEntity>, firstId: ListenerId, k: nat, pin: int)
    requires AllBelow(listeners, firstId) && Numbered(entities, firstId)
    requires k < |entities| - 1
    ensures Count(RegisterAll(listeners, entities), pin, firstId + k) == if pin == entities[k].pin then 1 else 0
    decreases |entities|, 0
  {
    var n := |entities| - 1;
    var prefix := entities[..n];
    assert Numbered(prefix, firstId);
    assert prefix[k] == entities[k];
    assert entities[n].listener != firstId + k;
    RegisterAllLast(listeners, entities, pin, firstId + k);
    RegisterAllOnce(listeners, prefix, firstId, k, pin);
  }

  /** The last entity: its listener was registered nowhere before. */
  lemma RegisterAllOnceNewest(listeners: map<int, seq<ListenerId>>, entities: seq<EventEntity>, firstId: ListenerId, pin: int)
    requires AllBelow(listeners, firstId) && Numbered(entities, firstId)
    requires |entities| > 0
    ensures var n := |entities| - 1;
      Count(RegisterAll(listeners, entities), pin, firstId + n) == if pin == entities[n].pin then 1 else 0
  {
    var n := |entities| - 1;
    var prefix := entities[..n];
    assert Numbered(prefix, firstId);
    assert entities[n].listener == firstId + n;
    RegisterAllLast(listeners, entities, pin, firstId + n);
    RegisterAllBelow(listeners, prefix, firstId, pin, firstId + n);
  }

  /** The `k`-th entity's listener is on its own pin once and on no other pin's list. */
  lemma RegisterAllOnlyItsPin(listeners: map<int, seq<ListenerId>>, entities: seq<EventEntity>, firstId: ListenerId, k: nat)
    requires AllBelow(listeners, firstId) && Numbered(entities, firstId)
    requires k < |entities|
    ensures Count(RegisterAll(listeners, entities), entities[k].pin, firstId + k) == 1
    ensures forall q :: q in RegisterAll(listeners, entities) && q != entities[k].pin ==>
      firstId + k !in RegisterAll(listeners, entities)[q]
  {
    var m := RegisterAll(listeners, entities);
    RegisterAllOnce(listeners, entities, firstId, k, entities[k].pin);
    forall q | q in m && q != entities[k].pin
      ensures firstId + k !in m[q]
    {
      RegisterAllOnce(listeners, entities, firstId, k, q);
      assert multiset(m[q])[firstId + k] == 0;
    }
  }

  /** The event types handed to listener `id`, in call order. */
  function Fired(id: ListenerId, calls: seq<Invocation>): seq<Option<string>>
    decreases |calls|
  {
    if calls == [] then []
    else
      var last := calls[|calls| - 1];
      Fired(id, calls[..|calls| - 1]) + (if last.listener == id then [last.eventType] else [])
  }

  /** The event types of the events on `pin`, in order. */
  function EventTypesOn(events: seq<ButtonEvent>, pin: int): seq<Option<string>>
    decreases |events|
  {
    if events == [] then []
    else
      var last := events[|events| - 1];
      EventTypesOn(events[..|events| - 1], pin) + (if last.inputPin == Some(pin) then [last.eventType] else [])
  }

  function Repeat(t: Option<string>, n: nat): seq<Option<string>> {
    if n == 0 then [] else Repeat(t, n - 1) + [t]
  }

  lemma {:induction false} FiredAppend(id: ListenerId, a: seq<Invocation>, b: seq<Invocation>)
    ensures Fired(id, a + b) == Fired(id, a) + Fired(id, b)
    decreases |b|
  {
    if b == [] {
      assert a + b == a;
    } else {
      assert (a + b)[..|a + b| - 1] == a + b[..|b| - 1];
      FiredAppend(id, a, b[..|b| - 1]);
    }
  }

  /** A listener registered `c` times on a pin is handed the event type `c` times. */
  lemma {:induction false} FiredCallbackCalls(id: ListenerId, callbacks: seq<ListenerId>, pin: int, t: Option<string>)
    ensures Fired(id, CallbackCalls(callbacks, pin, t)) == Repeat(t, multiset(callbacks)[id])
    decreases |callbacks|
  {
    if callbacks != [] {
      var n := |callbacks| - 1;
      var calls := CallbackCalls(callbacks, pin, t);
      var front := CallbackCalls(callbacks[..n], pin, t);
      assert calls[..n] == front;
      assert calls[n] == Invocation(callbacks[n], pin, t);
      assert Fired(id, calls) == Fired(id, front) + (if callbacks[n] == id then [t] else []);
      FiredCallbackCalls(id, callbacks[..n], pin, t);
      assert callbacks == callbacks[..n] + [callbacks[n]];
      assert multiset(callbacks)[id] == multiset(callbacks[..n])[id] + (if callbacks[n] == id then 1 else 0);
    }
  }

  /** The types one event hands to a listener registered once on `pin` and
      nowhere else: its own type if it is on `pin`, nothing otherwise. */
  lemma FiredOneEvent(listeners: map<int, seq<ListenerId>>, e: ButtonEvent, id: ListenerId, pin: int)
    requires Count(listeners, pin, id) == 1
    requires forall q :: q in listeners && q != pin ==> id !in listeners[q]
    ensures Fired(id, EventDeliveries(listeners, e)) == if e.inputPin == Some(pin) then [e.eventType] else []
  {
    if e.inputPin.Some? && e.inputPin.value in listeners {
      var q := e.inputPin.value;
      FiredCallbackCalls(id, listeners[q], q, e.eventType);
      assert Repeat(e.eventType, 1) == [e.eventType];
    }
  }

  /** A listener registered once on `pin` and nowhere else is handed exactly
      the event types of the events on `pin`, in order. */
  lemma {:induction false} ListenerSeesItsPin(listeners: map<int, seq<ListenerId>>, events: seq<ButtonEvent>, id: ListenerId, pin: int)
    requires Count(listeners, pin, id) == 1
    requires forall q :: q in listeners && q != pin ==> id !in listeners[q]
    ensures Fired(id, Deliveries(listeners, events)) == EventTypesOn(events, pin)
    decreases |events|
  {
    if events != [] {
      var n := |events| - 1;
      ListenerSeesItsPin(listeners, events[..n], id, pin);
      FiredAppend(id, Deliveries(listeners, events[..n]), EventDeliveries(listeners, events[n]));
      FiredOneEvent(listeners, events[n], id, pin);
    }
  }

  /** The `k`-th event entity of a setup fires exactly the press types the
      controller reports on its pin, unchanged and in order. */
  lemma EventEntityFiresItsPin(listeners: map<int, seq<ListenerId>>, entries: seq<PinConfig>, firstId: ListenerId, k: nat, events: seq<ButtonEvent>)
    requires forall p :: p in listeners ==> forall x :: x in listeners[p] ==> x < firstId
    requires k < |EventEntities(entries, firstId)|
    ensures var entities := EventEntities(entries, firstId);
      Fired(firstId + k, Deliveries(RegisterAll(listeners, entities), events)) == EventTypesOn(events, entities[k].pin)
  {
    var entities := EventEntities(entries, firstId);
    assert AllBelow(listeners, firstId);
    assert Numbered(entities, firstId);
    RegisterAllOnlyItsPin(listeners, entities, firstId, k);
    ListenerSeesItsPin(RegisterAll(listeners, entities), events, firstId + k, entities[k].pin);
  }

  /** `available`: False without a pin config; otherwise
      `isInput` (default False) and `buttonMode == "push"`. */
  function EventAvailable(config: Option<PinConfig>): (available: Option<bool>)
    ensures available == Some(true) <==> config.Some? && IsPushButton(config.value)
    ensures config.None? ==> available == Some(false)
  {
    match config
    case None => Some(false)
    case Some(c) =>
      match c.isInput.Get(false)
      case None => None
      case Some(isInput) => if isInput then Some(c.buttonMode == Some("push")) else Some(false)
  }

  /** Every entity the setup creates is available while its config is unchanged. */
  lemma SetupEntitiesAvailable(entries: seq<PinConfig>, firstId: ListenerId, e: EventEntity)
    requires e in EventEntities(entries, firstId)
    ensures EventAvailable(Some(e.config)) == Some(true)
  {
  }
}
