/** The cover platform of the current integration
    (custom_components/iotix/cover.py): which covers become entities, the id
    and unique id of each, its motion flags and availability, and its commands. */
module CoverPlatform {
  import opened Json
  import opened Text
  import opened Records
  import opened Coordinator

  /** An `AdamCover`: the pin and config it was built from, its cover id and
      its unique id. */
  datatype CoverEntity = CoverEntity(pin: int, config: PinConfig, coverId: Option<int>, uniqueId: string)

  /** `str()` of a cover id that may be None. */
  function CoverIdText(id: Option<int>): string {
    if id.Some? then Decimal(id.value) else "None"
  }

  /** `{mac}_cover_{cover_id}`. */
  function CoverUniqueId(mac: string, id: Option<int>): string {
    mac + "_cover_" + CoverIdText(id)
  }

  lemma DecimalIsNotNone(n: int)
    ensures Decimal(n) != "None"
  {
    DecimalSign(n);
    if n >= 0 {
      NatDecimalRoundTrip(n);
      assert IsDigit(Decimal(n)[0]);
    }
  }

  /** On one controller, distinct cover ids give distinct unique ids. */
  lemma CoverUniqueIdInjective(mac: string, a: Option<int>, b: Option<int>)
    requires CoverUniqueId(mac, a) == CoverUniqueId(mac, b)
    ensures a == b
  {
    var prefix := mac + "_cover_";
    var x, y := CoverUniqueId(mac, a), CoverUniqueId(mac, b);
    assert CoverIdText(a) == x[|prefix|..];
    assert CoverIdText(b) == y[|prefix|..];
    if a.Some? {
      DecimalIsNotNone(a.value);
    }
    if b.Some? {
      DecimalIsNotNone(b.value);
    }
    if a.Some? && b.Some? {
      DecimalInjective(a.value, b.value);
    }
  }

  /** `AdamCover.__init__`: the id is `coverId`, else `max(pin - 100, 0)`. */
  function NewCoverEntity(mac: string, pin: int, config: PinConfig): (e: CoverEntity)
    ensures config.coverId.Absent? && pin >= 100 ==> e.coverId == Some(pin - 100)
    ensures config.coverId.Absent? && pin < 100 ==> e.coverId == Some(0)
    ensures config.coverId.Present? ==> e.coverId == Some(config.coverId.value)
    ensures e.uniqueId == CoverUniqueId(mac, e.coverId)
  {
    var id := config.coverId.Get(if pin - 100 > 0 then pin - 100 else 0);
    CoverEntity(pin, config, id, CoverUniqueId(mac, id))
  }

  /** The pin config the setup builds for a dedicated cover (no motion keys,
      unlike the coordinator's merge). */
  function SetupCoverConfig(c: CoverConfig, id: int): (r: PinConfig)
    ensures r.pin == 100 + id && r.kind == Cover && r.coverId == Present(id) && r.isInput == Present(false)
    ensures r.buttonMode.None?
    ensures c.name.Absent? ==> r.name == Present("Cover " + Decimal(id + 1))
    ensures c.name.Present? ==> r.name == Present(c.name.value)
    ensures c.name.Null? ==> r.name == Null
    ensures c.interlock.Absent? ==> r.interlock == Present(true)
    ensures c.interlock.Present? ==> r.interlock == Present(c.interlock.value)
    ensures c.interlock.Null? ==> r.interlock == Null
    ensures !r.inputUpPin.Absent? && r.inputUpPin.Peek() == c.inputUpPin
    ensures !r.inputDownPin.Absent? && r.inputDownPin.Peek() == c.inputDownPin
    ensures !r.outputUpPin.Absent? && r.outputUpPin.Peek() == c.outputUpPin
    ensures !r.outputDownPin.Absent? && r.outputDownPin.Peek() == c.outputDownPin
    ensures !r.upTimeSec.Absent? && r.upTimeSec.Peek() == c.upTimeSec
    ensures !r.downTimeSec.Absent? && r.downTimeSec.Peek() == c.downTimeSec
    ensures r.moving.Absent? && r.direction.Absent?
  {
    PinConfig(
      pin := 100 + id,
      kind := Cover,
      name := Store(c.name.Get("Cover " + Decimal(id + 1))),
      isInput := Present(false),
      buttonMode := None,
      coverId := Present(id),
      inputUpPin := Store(c.inputUpPin),
      inputDownPin := Store(c.inputDownPin),
      outputUpPin := Store(c.outputUpPin),
      outputDownPin := Store(c.outputDownPin),
      upTimeSec := Store(c.upTimeSec),
      downTimeSec := Store(c.downTimeSec),
      interlock := Store(c.interlock.Get(true)),
      moving := Absent,
      direction := Absent)
  }

  /** The setup's entry for a dedicated cover is the coordinator's merged
      entry without the two motion keys. */
  lemma SetupConfigIsMergedWithoutMotion(c: CoverConfig, id: int)
    ensures SetupCoverConfig(c, id) == SynthesizedCover(c, id).(moving := Absent, direction := Absent)
  {
  }

  /** Pin-list entries that become covers: type cover at pin 100 or above. */
  predicate PinListCover(p: PinConfig) {
    p.kind == Cover && p.pin >= 100
  }

  /** The entities of the first setup loop, one per pin-list cover, duplicates kept. */
  function PinListCoverEntities(mac: string, entries: seq<PinConfig>): (r: seq<CoverEntity>)
    ensures forall e :: e in r ==> exists p :: p in entries && PinListCover(p) && e == NewCoverEntity(mac, p.pin, p)
    decreases |entries|
  {
    if entries == [] then []
    else
      var last := entries[|entries| - 1];
      var r := PinListCoverEntities(mac, entries[..|entries| - 1]);
      assert forall p :: p in entries[..|entries| - 1] ==> p in entries;
      r + (if PinListCover(last) then [NewCoverEntity(mac, last.pin, last)] else [])
  }

  /** `seen_cover_ids` after the first setup loop. */
  function PinListCoverIds(entries: seq<PinConfig>): (ids: set<Option<int>>)
    ensures forall id :: id in ids ==> exists p :: p in entries && PinListCover(p) && PinCoverId(p) == id
    decreases |entries|
  {
    if entries == [] then {}
    else
      var last := entries[|entries| - 1];
      assert forall p :: p in entries[..|entries| - 1] ==> p in entries;
      PinListCoverIds(entries[..|entries| - 1]) + (if PinListCover(last) then {PinCoverId(last)} else {})
  }

  /** The entities of the second setup loop: each dedicated cover with an id
      not yet seen, the id then being seen. */
  function DedicatedCoverEntities(mac: string, covers: seq<CoverConfig>, seen: set<Option<int>>): (r: seq<CoverEntity>)
    ensures forall e :: e in r ==> e.coverId.Some? && e.coverId !in seen
    ensures forall i, j :: 0 <= i < j < |r| ==> r[i].coverId != r[j].coverId
    ensures forall e :: e in r ==> exists c :: c in covers && c.coverId == e.coverId
    decreases |covers|
  {
    if covers == [] then []
    else
      var c := covers[0];
      var rest := covers[1..];
      assert forall x :: x in rest ==> x in covers;
      if c.coverId.None? || c.coverId in seen then DedicatedCoverEntities(mac, rest, seen)
      else
        var id := c.coverId.value;
        [NewCoverEntity(mac, 100 + id, SetupCoverConfig(c, id))] + DedicatedCoverEntities(mac, rest, seen + {c.coverId})
  }

  /** The entities `async_setup_entry` adds, given the snapshot's two cover lists. */
  function SetupCoverEntities(mac: string, pinsConfig: seq<PinConfig>, coversConfig: seq<CoverConfig>): seq<CoverEntity> {
    PinListCoverEntities(mac, pinsConfig) + DedicatedCoverEntities(mac, coversConfig, PinListCoverIds(pinsConfig))
  }

  /** `async_setup_entry`: the pin-list loop, then the dedicated loop. */
  method SetupCovers(mac: string, pinsConfig: seq<PinConfig>, coversConfig: seq<CoverConfig>) returns (covers: seq<CoverEntity>)
    ensures covers == SetupCoverEntities(mac, pinsConfig, coversConfig)
  {
    var seen;
    covers, seen := AddPinListCovers(mac, pinsConfig);
    covers := AddDedicatedCovers(mac, coversConfig, covers, seen);
  }

  /** The first setup loop. */
  method AddPinListCovers(mac: string, pinsConfig: seq<PinConfig>) returns (covers: seq<CoverEntity>, seen: set<Option<int>>)
    ensures covers == PinListCoverEntities(mac, pinsConfig)
    ensures seen == PinListCoverIds(pinsConfig)
  {
    covers, seen := [], {};
    for i := 0 to |pinsConfig|
      invariant covers == PinListCoverEntities(mac, pinsConfig[..i])
      invariant seen == PinListCoverIds(pinsConfig[..i])
    {
      var p := pinsConfig[i];
      assert pinsConfig[..i + 1][..i] == pinsConfig[..i];
      if p.kind == Cover && p.pin >= 100 {
        seen := seen + {PinCoverId(p)};
        covers := covers + [NewCoverEntity(mac, p.pin, p)];
      }
    }
    assert pinsConfig[..|pinsConfig|] == pinsConfig;
  }

  /** The second setup loop, growing the set of seen ids. */
  method AddDedicatedCovers(mac: string, coversConfig: seq<CoverConfig>, fromPins: seq<CoverEntity>, seenByPins: set<Option<int>>)
    returns (covers: seq<CoverEntity>)
    ensures covers == fromPins + DedicatedCoverEntities(mac, coversConfig, seenByPins)
  {
    covers := fromPins;
    var seen := seenByPins;
    assert coversConfig[0..] == coversConfig;
    for i := 0 to |coversConfig|
      invariant covers + DedicatedCoverEntities(mac, coversConfig[i..], seen)
        == fromPins + DedicatedCoverEntities(mac, coversConfig, seenByPins)
    {
      var c := coversConfig[i];
      ghost var todo := coversConfig[i..];
      assert todo[0] == c && todo[1..] == coversConfig[i + 1..];
      if c.coverId.Some? && c.coverId !in seen {
        var id := c.coverId.value;
        var entity := NewCoverEntity(mac, 100 + id, SetupCoverConfig(c, id));
        assert DedicatedCoverEntities(mac, todo, seen)
          == [entity] + DedicatedCoverEntities(mac, coversConfig[i + 1..], seen + {c.coverId});
        covers := covers + [entity];
        seen := seen + {c.coverId};
      } else {
        assert DedicatedCoverEntities(mac, todo, seen) == DedicatedCoverEntities(mac, coversConfig[i + 1..], seen);
      }
    }
  }

  lemma {:induction false} PinListCoverIdsWitness(mac: string, entries: seq<PinConfig>, id: Option<int>)
    requires id in PinListCoverIds(entries)
    ensures exists e :: e in PinListCoverEntities(mac, entries) && e.coverId == id
    decreases |entries|
  {
    var prefix := entries[..|entries| - 1];
    var last := entries[|entries| - 1];
    if id in PinListCoverIds(prefix) {
      PinListCoverIdsWitness(mac, prefix, id);
      var e :| e in PinListCoverEntities(mac, prefix) && e.coverId == id;
      assert e in PinListCoverEntities(mac, entries);
    } else {
      assert NewCoverEntity(mac, last.pin, last) in PinListCoverEntities(mac, entries);
    }
  }

  lemma {:induction false} DedicatedCoverage(mac: string, covers: seq<CoverConfig>, seen: set<Option<int>>, c: CoverConfig)
    requires c in covers && c.coverId.Some?
    ensures c.coverId in seen || exists e :: e in DedicatedCoverEntities(mac, covers, seen) && e.coverId == c.coverId
    decreases |covers|
  {
    var head := covers[0];
    var r := DedicatedCoverEntities(mac, covers, seen);
    if head.coverId.None? || head.coverId in seen {
      if c != head {
        assert c in covers[1..];
        DedicatedCoverage(mac, covers[1..], seen, c);
      }
    } else {
      assert r[0].coverId == head.coverId;
      if c != head {
        assert c in covers[1..];
        DedicatedCoverage(mac, covers[1..], seen + {head.coverId}, c);
        if c.coverId != head.coverId && c.coverId !in seen {
          var e :| e in DedicatedCoverEntities(mac, covers[1..], seen + {head.coverId}) && e.coverId == c.coverId;
          assert e in r;
        }
      }
    }
  }

  /** Every cover id of the dedicated source gets an entity, whatever the pin list holds. */
  lemma EveryDedicatedCoverHasAnEntity(mac: string, pinsConfig: seq<PinConfig>, coversConfig: seq<CoverConfig>, c: CoverConfig)
    requires c in coversConfig && c.coverId.Some?
    ensures exists e :: e in SetupCoverEntities(mac, pinsConfig, coversConfig) && e.coverId == c.coverId
  {
    var seen := PinListCoverIds(pinsConfig);
    DedicatedCoverage(mac, coversConfig, seen, c);
    if c.coverId in seen {
      PinListCoverIdsWitness(mac, pinsConfig, c.coverId);
    }
  }

  /** The entities from the dedicated source have pairwise distinct ids, none
      of them an id of a pin-list cover. */
  lemma DedicatedEntitiesFresh(mac: string, pinsConfig: seq<PinConfig>, coversConfig: seq<CoverConfig>)
    ensures forall e :: e in DedicatedCoverEntities(mac, coversConfig, PinListCoverIds(pinsConfig)) ==>
      e.coverId !in PinListCoverIds(pinsConfig)
    ensures forall e, f :: e in PinListCoverEntities(mac, pinsConfig) && f in DedicatedCoverEntities(mac, coversConfig, PinListCoverIds(pinsConfig)) ==>
      e.coverId != f.coverId
  {
    forall e | e in PinListCoverEntities(mac, pinsConfig)
      ensures e.coverId in PinListCoverIds(pinsConfig)
    {
      PinListEntityIdSeen(mac, pinsConfig, e);
    }
  }

  lemma {:induction false} PinListEntityIdSeen(mac: string, entries: seq<PinConfig>, e: CoverEntity)
    requires e in PinListCoverEntities(mac, entries)
    ensures e.coverId in PinListCoverIds(entries)
    decreases |entries|
  {
    var prefix := entries[..|entries| - 1];
    if e in PinListCoverEntities(mac, prefix) {
      PinListEntityIdSeen(mac, prefix, e);
    }
  }

  /** The setup alone keeps one entity per id of the dedicated source... */
  lemma SetupDedupesDedicated(mac: string, dedicated: CoverConfig)
    requires dedicated.coverId == Some(1)
    ensures |SetupCoverEntities(mac, [], [dedicated, dedicated])| == 1
  {
    var covers := [dedicated, dedicated];
    assert covers[1..] == [dedicated];
    assert [dedicated][1..] == [];
    assert PinListCoverIds([]) == {};
    assert DedicatedCoverEntities(mac, [dedicated], {Some(1)}) == [];
    assert DedicatedCoverEntities(mac, covers, {})
      == [NewCoverEntity(mac, 101, SetupCoverConfig(dedicated, 1))] + DedicatedCoverEntities(mac, [dedicated], {} + {Some(1)});
    assert PinListCoverEntities(mac, []) == [];
    assert SetupCoverEntities(mac, [], covers) == DedicatedCoverEntities(mac, covers, {});
  }

  /** ...but the snapshot it reads is already merged, and the merge keeps both
      entries: the setup then builds two entities with the same unique id. */
  lemma MergedDuplicatesReachSetup(mac: string, dedicated: CoverConfig)
    requires dedicated.coverId == Some(1)
    ensures |SetupCoverEntities(mac, MergedPins([], [dedicated, dedicated]), [dedicated, dedicated])| == 2
    ensures SetupCoverEntities(mac, MergedPins([], [dedicated, dedicated]), [dedicated, dedicated])[0].uniqueId
         == SetupCoverEntities(mac, MergedPins([], [dedicated, dedicated]), [dedicated, dedicated])[1].uniqueId
  {
    var covers := [dedicated, dedicated];
    var s := SynthesizedCover(dedicated, 1);
    MergeKeepsDedicatedDuplicates(dedicated);
    var merged := MergedPins([], covers);
    assert merged == [s, s];
    assert merged[..1] == [s];
    assert merged[..1][..0] == [];
    assert PinCoverId(s) == Some(1);
    assert PinListCoverIds(merged[..1]) == {Some(1)};
    assert PinListCoverIds(merged) == {Some(1)};
    var e := NewCoverEntity(mac, 101, s);
    assert PinListCoverEntities(mac, merged[..1]) == [e];
    assert PinListCoverEntities(mac, merged) == [e, e];
    assert covers[1..] == [dedicated];
    assert [dedicated][1..] == [];
    assert DedicatedCoverEntities(mac, [dedicated], {Some(1)}) == [];
    assert DedicatedCoverEntities(mac, covers, {Some(1)}) == [];
  }

  // ===========================================================================
  // State and availability

  /** `covers_state.get(cover_id, {})`; a None id is never a key. */
  function StateOf(data: Snapshot, id: Option<int>): CoverState {
    if id.Some? && id.value in data.coversState then data.coversState[id.value] else CoverState(None, Absent, None)
  }

  /** `state.get("moving", False) and state.get("direction") == towards`:
      None when `moving` is null. */
  function MovingTowards(state: CoverState, towards: string): (r: Option<bool>)
    ensures r == Some(true) <==> state.moving == Present(true) && state.direction == Some(towards)
    ensures r == None <==> state.moving.Null?
  {
    match state.moving.Get(false)
    case None => None
    case Some(moving) => if moving then Some(state.direction == Some(towards)) else Some(false)
  }

  /** `is_opening`. */
  function IsOpening(data: Snapshot, id: Option<int>): (r: Option<bool>)
    ensures r == Some(true) <==> StateOf(data, id).moving == Present(true) && StateOf(data, id).direction == Some("up")
  {
    MovingTowards(StateOf(data, id), "up")
  }

  /** `is_closing`. */
  function IsClosing(data: Snapshot, id: Option<int>): (r: Option<bool>)
    ensures r == Some(true) <==> StateOf(data, id).moving == Present(true) && StateOf(data, id).direction == Some("down")
  {
    MovingTowards(StateOf(data, id), "down")
  }

  /** A cover is never reported opening and closing at once, and a cover
      without state is reported as neither. */
  lemma OpeningClosingExclusive(data: Snapshot, id: Option<int>)
    ensures !(IsOpening(data, id) == Some(true) && IsClosing(data, id) == Some(true))
    ensures (id.None? || id.value !in data.coversState) ==>
      IsOpening(data, id) == Some(false) && IsClosing(data, id) == Some(false)
  {
  }

  /** `is_closed`: the firmware reports no position, so always unknown. */
  function IsClosed(data: Snapshot, id: Option<int>): (closed: Option<bool>)
    ensures closed == None
  {
    None
  }

  /** `available`: the last poll succeeded and some cover of either list
      carries this cover id (a None id matches entries without one). The
      pin-list test also accepts cover entries below pin 100, which the
      setup never turns into entities. */
  function CoverAvailable(lastUpdateSuccess: bool, data: Snapshot, id: Option<int>): (available: bool)
    ensures available ==> lastUpdateSuccess
    ensures lastUpdateSuccess && id in PinListCoverIds(data.pinsConfig) ==> available
    ensures lastUpdateSuccess && (exists c :: c in data.coversConfig && c.coverId == id) ==> available
    ensures available <==>
      lastUpdateSuccess && (id in ExistingCoverIds(data.pinsConfig) || exists c :: c in data.coversConfig && c.coverId == id)
  {
    lastUpdateSuccess
    && ((exists p :: p in data.pinsConfig && p.kind == Cover && PinCoverId(p) == id)
        || (exists c :: c in data.coversConfig && c.coverId == id))
  }

  /** Every cover the setup builds from a snapshot is available while polls succeed. */
  lemma SetupCoversAvailable(mac: string, data: Snapshot, e: CoverEntity)
    requires e in SetupCoverEntities(mac, data.pinsConfig, data.coversConfig)
    ensures CoverAvailable(true, data, e.coverId)
  {
    if e in PinListCoverEntities(mac, data.pinsConfig) {
      var p :| p in data.pinsConfig && PinListCover(p) && e == NewCoverEntity(mac, p.pin, p);
      assert PinCoverId(p) == e.coverId;
    } else {
      assert e in DedicatedCoverEntities(mac, data.coversConfig, PinListCoverIds(data.pinsConfig));
    }
  }

  /** A failed poll makes every cover unavailable. */
  lemma FailedPollUnavailable(data: Snapshot, id: Option<int>)
    ensures !CoverAvailable(false, data, id)
  {
  }

  // ===========================================================================
  // Commands

  /** `async_open_cover`: "open" for the entity's own cover id. */
  method OpenCover(coordinator: AdamCoordinator, e: CoverEntity, result: WriteResult)
    modifies coordinator`requests, coordinator`refreshRequests
    ensures coordinator.requests == old(coordinator.requests) + [CoverControl(e.coverId, "open")]
    ensures coordinator.refreshRequests == old(coordinator.refreshRequests) + (if result.IsOk() then 1 else 0)
  {
    var _ := coordinator.CoverCommand(e.coverId, "open", result);
  }

  /** `async_close_cover`: "close" for the entity's own cover id. */
  method CloseCover(coordinator: AdamCoordinator, e: CoverEntity, result: WriteResult)
    modifies coordinator`requests, coordinator`refreshRequests
    ensures coordinator.requests == old(coordinator.requests) + [CoverControl(e.coverId, "close")]
    ensures coordinator.refreshRequests == old(coordinator.refreshRequests) + (if result.IsOk() then 1 else 0)
  {
    var _ := coordinator.CoverCommand(e.coverId, "close", result);
  }

  /** `async_stop_cover`: "stop" for the entity's own cover id. */
  method StopCover(coordinator: AdamCoordinator, e: CoverEntity, result: WriteResult)
    modifies coordinator`requests, coordinator`refreshRequests
    ensures coordinator.requests == old(coordinator.requests) + [CoverControl(e.coverId, "stop")]
    ensures coordinator.refreshRequests == old(coordinator.refreshRequests) + (if result.IsOk() then 1 else 0)
  {
    var _ := coordinator.CoverCommand(e.coverId, "stop", result);
  }
}
