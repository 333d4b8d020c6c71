/** The option wizard's view of the controller's pins: the available physical
    pins from `/api/pins/available`, deduplicated and sorted, and the virtual
    output pins that every relay of a configured XR8 module adds. */
module FlowPins {
  import opened Json
  import opened Records

  /** One entry of `/api/pins/available`. `pin` is the value of the "pin" key
      when it is an integer and `None` otherwise (missing, null or another
      type); `isInput` is the truthiness of `pin.get("isInput", False)`. */
  datatype AvailablePin = AvailablePin(pin: Option<int>, isInput: bool)

  /** The controller's own terminals are numbered 0 to 15. */
  predicate Physical(n: int) {
    0 <= n < 16
  }

  // ---------------------------------------------------------------------------
  // sorted(set(...))

  predicate StrictlyIncreasing(s: seq<int>) {
    forall i, j :: 0 <= i < j < |s| ==> s[i] < s[j]
  }

  /** The head of a strictly increasing list is its least element. */
  lemma HeadIsLeast(s: seq<int>)
    requires StrictlyIncreasing(s) && |s| > 0
    ensures forall y :: y in s ==> s[0] <= y
  {
    forall y | y in s
      ensures s[0] <= y
    {
      var k :| 0 <= k < |s| && s[k] == y;
    }
  }

  /** Putting a value below every element in front keeps a list strictly increasing. */
  lemma ConsIncreasing(a: int, t: seq<int>)
    requires StrictlyIncreasing(t)
    requires forall y :: y in t ==> a < y
    ensures StrictlyIncreasing([a] + t)
  {
    var s := [a] + t;
    forall i, j | 0 <= i < j < |s|
      ensures s[i] < s[j]
    {
      assert s[j] == t[j - 1];
      if i == 0 {
        assert t[j - 1] in t;
      } else {
        assert s[i] == t[i - 1];
      }
    }
  }

  /** Adds `x` to a strictly increasing list, keeping it strictly increasing. */
  function Insert(x: int, s: seq<int>): (r: seq<int>)
    requires StrictlyIncreasing(s)
    ensures StrictlyIncreasing(r)
    ensures forall y :: y in r <==> y == x || y in s
    decreases |s|
  {
    if s == [] then [x]
    else if x < s[0] then
      HeadIsLeast(s);
      ConsIncreasing(x, s);
      [x] + s
    else if x == s[0] then s
    else
      var rest := Insert(x, s[1..]);
      HeadIsLeast(s);
      assert forall y :: y in s[1..] ==> y in s && y != s[0];
      ConsIncreasing(s[0], rest);
      [s[0]] + rest
  }

  /** Python's `sorted(set(xs))`: the distinct values of `xs` in increasing order. */
  function SortedSet(xs: seq<int>): (r: seq<int>)
    ensures StrictlyIncreasing(r)
    ensures forall y :: y in r <==> y in xs
    decreases |xs|
  {
    if xs == [] then []
    else Insert(xs[|xs| - 1], SortedSet(xs[..|xs| - 1]))
  }

  /** A strictly increasing list is determined by its elements, so `SortedSet`
      is the only sorted, duplicate-free arrangement of the values. */
  lemma {:induction false} SortedSetUnique(a: seq<int>, b: seq<int>)
    requires StrictlyIncreasing(a) && StrictlyIncreasing(b)
    requires forall y :: y in a <==> y in b
    ensures a == b
    decreases |a|
  {
    assert b != [] ==> b[0] in b && b[0] in a;
    if a != [] {
      assert a[0] in a;
      assert b != [] by {
        assert a[0] in b;
      }
      assert a[0] == b[0] by {
        var k :| 0 <= k < |a| && a[k] == b[0];
        assert a[0] <= b[0];
        var l :| 0 <= l < |b| && b[l] == a[0];
        assert b[0] <= a[0];
      }
      forall y
        ensures y in a[1..] <==> y in b[1..]
      {
        if y in a[1..] {
          assert y in b && y != b[0];
        }
        if y in b[1..] {
          assert y in a && y != a[0];
        }
      }
      SortedSetUnique(a[1..], b[1..]);
      assert a == [a[0]] + a[1..] && b == [b[0]] + b[1..];
    }
  }

  /** Sorting and deduplicating an already sorted, duplicate-free list changes nothing. */
  lemma SortedSetOfSorted(s: seq<int>)
    requires StrictlyIncreasing(s)
    ensures SortedSet(s) == s
  {
    SortedSetUnique(SortedSet(s), s);
  }

  // ---------------------------------------------------------------------------
  // Available physical pins

  /** The usable pin numbers of one direction, in list order, duplicates kept:
      entries without an integer pin in 0..15 are skipped. */
  function UsablePins(entries: seq<AvailablePin>, input: bool): seq<int>
    decreases |entries|
  {
    if entries == [] then []
    else
      var e := entries[|entries| - 1];
      UsablePins(entries[..|entries| - 1], input) +
        (if e.pin.Some? && Physical(e.pin.value) && e.isInput == input then [e.pin.value] else [])
  }

  /** Some entry of that direction carries the number `n`. */
  predicate Carries(entries: seq<AvailablePin>, input: bool, n: int) {
    exists k :: 0 <= k < |entries| && entries[k].pin == Some(n) && entries[k].isInput == input
  }

  /** A number is usable exactly when some entry of that direction carries it
      and it lies in 0..15. */
  lemma {:induction false} UsablePinsExact(entries: seq<AvailablePin>, input: bool, n: int)
    ensures n in UsablePins(entries, input) <==> Physical(n) && Carries(entries, input, n)
    decreases |entries|
  {
    if entries != [] {
      var last := |entries| - 1;
      var prefix := entries[..last];
      var e := entries[last];
      UsablePinsExact(prefix, input, n);
      assert UsablePins(entries, input) ==
        UsablePins(prefix, input) + (if e.pin.Some? && Physical(e.pin.value) && e.isInput == input then [e.pin.value] else []);
      if Carries(entries, input, n) {
        var k :| 0 <= k < |entries| && entries[k].pin == Some(n) && entries[k].isInput == input;
        if k < last {
          assert prefix[k] == entries[k];
          assert Carries(prefix, input, n);
        }
      }
      if Carries(prefix, input, n) {
        var k :| 0 <= k < |prefix| && prefix[k].pin == Some(n) && prefix[k].isInput == input;
        assert entries[k] == prefix[k];
      }
      if e.pin == Some(n) && e.isInput == input {
        assert Carries(entries, input, n);
      }
    }
  }

  /** The available-pins loop of `_fetch_pin_data`: both lists come out sorted,
      duplicate-free and limited to 0..15. */
  method ParseAvailablePins(entries: seq<AvailablePin>) returns (inputs: seq<int>, outputs: seq<int>)
    ensures inputs == SortedSet(UsablePins(entries, true))
    ensures outputs == SortedSet(UsablePins(entries, false))
  {
    var inputPins: seq<int> := [];
    var outputPins: seq<int> := [];
    for i := 0 to |entries|
      invariant inputPins == UsablePins(entries[..i], true)
      invariant outputPins == UsablePins(entries[..i], false)
    {
      assert entries[..i + 1][..i] == entries[..i];
      var pinNum := entries[i].pin;
      if pinNum.None? || pinNum.value < 0 || pinNum.value >= 16 {
        continue;
      }
      if entries[i].isInput {
        inputPins := inputPins + [pinNum.value];
      } else {
        outputPins := outputPins + [pinNum.value];
      }
    }
    assert entries[..|entries|] == entries;
    inputs := SortedSet(inputPins);
    outputs := SortedSet(outputPins);
  }

  /** What the parsed lists hold: sorted, duplicate-free, and exactly the
      numbers in 0..15 that some entry of that direction carries. */
  lemma ParsedPinsExact(entries: seq<AvailablePin>, input: bool, n: int)
    ensures StrictlyIncreasing(SortedSet(UsablePins(entries, input)))
    ensures n in SortedSet(UsablePins(entries, input)) <==> Physical(n) && Carries(entries, input, n)
  {
    UsablePinsExact(entries, input, n);
  }

  // ---------------------------------------------------------------------------
  // Virtual relay pins

  /** The output number under which relay `relayId` of module `moduleId` is offered. */
  function VirtualRelayPin(moduleId: int, relayId: int): (pin: int)
    ensures 0 <= relayId < 100 ==> 1000 + 100 * moduleId <= pin < 1100 + 100 * moduleId
  {
    1000 + moduleId * 100 + relayId
  }

  /** For relay ids 0..99 the module and the relay can be read back from the number. */
  lemma VirtualRelayPinDecode(moduleId: int, relayId: int)
    requires 0 <= relayId < 100
    ensures (VirtualRelayPin(moduleId, relayId) - 1000) / 100 == moduleId
    ensures (VirtualRelayPin(moduleId, relayId) - 1000) % 100 == relayId
  {
    var v := VirtualRelayPin(moduleId, relayId) - 1000;
    var q, r := v / 100, v % 100;
    assert v == q * 100 + r && 0 <= r < 100;
    assert (q - moduleId) * 100 == relayId - r;
  }

  /** Two relays with ids in 0..99 never share a virtual pin. */
  lemma VirtualRelayPinInjective(m1: int, r1: int, m2: int, r2: int)
    requires 0 <= r1 < 100 && 0 <= r2 < 100
    requires VirtualRelayPin(m1, r1) == VirtualRelayPin(m2, r2)
    ensures m1 == m2 && r1 == r2
  {
    VirtualRelayPinDecode(m1, r1);
    VirtualRelayPinDecode(m2, r2);
  }

  /** Relays of modules with non-negative ids lie above every physical pin. */
  lemma VirtualRelayPinNotPhysical(moduleId: int, relayId: int)
    requires moduleId >= 0 && relayId >= 0
    ensures VirtualRelayPin(moduleId, relayId) >= 1000
    ensures !Physical(VirtualRelayPin(moduleId, relayId))
  {
  }

  /** The pins appended so far, and whether the loop ran to its end. A relay or
      module without an id makes the name default raise, which the bare
      `except` swallows: the pins appended before it stay. */
  datatype Collected = Collected(pins: seq<int>, complete: bool)

  function Then(done: seq<int>, rest: Collected): Collected {
    Collected(done + rest.pins, rest.complete)
  }

  /** The relays of one configured module. */
  function ModuleRelayPins(moduleId: Option<int>, relays: seq<Relay>): Collected
    decreases |relays|
  {
    if relays == [] then Collected([], true)
    else if moduleId.None? || relays[0].id.None? then Collected([], false)
    else Then([VirtualRelayPin(moduleId.value, relays[0].id.value)], ModuleRelayPins(moduleId, relays[1..]))
  }

  /** The relays of a module as `module.get("relays", [])` reads them; `None`
      for a null, which cannot be iterated. */
  function RelayList(m: RelayModule): Option<seq<Relay>> {
    m.relays.Get([])
  }

  /** The virtual pins of the XR8 loop of `_fetch_pin_data`, in module order. */
  function RelayPins(modules: seq<RelayModule>): Collected
    decreases |modules|
  {
    if modules == [] then Collected([], true)
    else
      var m := modules[0];
      if !m.configured then RelayPins(modules[1..])
      else match RelayList(m)
        case None => Collected([], false)
        case Some(relays) =>
          var own := ModuleRelayPins(m.id, relays);
          if own.complete then Then(own.pins, RelayPins(modules[1..])) else own
  }

  /** A module the XR8 loop passes without raising. */
  predicate Readable(m: RelayModule) {
    !m.configured ||
    (RelayList(m).Some? &&
     forall r :: r in RelayList(m).value ==> m.id.Some? && r.id.Some?)
  }

  /** Every pin of one module is the virtual pin of one of its relays. */
  lemma {:induction false} ModuleRelayPinsFrom(moduleId: Option<int>, relays: seq<Relay>, v: int)
    requires v in ModuleRelayPins(moduleId, relays).pins
    ensures moduleId.Some?
    ensures exists r :: r in relays && r.id.Some? && v == VirtualRelayPin(moduleId.value, r.id.value)
    decreases |relays|
  {
    var first := [VirtualRelayPin(moduleId.value, relays[0].id.value)];
    if v !in first {
      ModuleRelayPinsFrom(moduleId, relays[1..], v);
      var r :| r in relays[1..] && r.id.Some? && v == VirtualRelayPin(moduleId.value, r.id.value);
      assert r in relays;
    } else {
      assert relays[0] in relays;
    }
  }

  /** A module the loop gets through contributes every one of its relays. */
  lemma {:induction false} ModuleRelayPinsComplete(moduleId: Option<int>, relays: seq<Relay>)
    ensures ModuleRelayPins(moduleId, relays).complete <==>
      forall r :: r in relays ==> moduleId.Some? && r.id.Some?
    ensures ModuleRelayPins(moduleId, relays).complete ==>
      forall r :: r in relays ==> VirtualRelayPin(moduleId.value, r.id.value) in ModuleRelayPins(moduleId, relays).pins
    decreases |relays|
  {
    if relays != [] {
      var rest := ModuleRelayPins(moduleId, relays[1..]);
      ModuleRelayPinsComplete(moduleId, relays[1..]);
      assert forall r :: r in relays ==> r == relays[0] || r in relays[1..];
      if moduleId.Some? && relays[0].id.Some? {
        var head := VirtualRelayPin(moduleId.value, relays[0].id.value);
        assert ModuleRelayPins(moduleId, relays) == Collected([head] + rest.pins, rest.complete);
        assert head in [head] + rest.pins;
        assert forall v :: v in rest.pins ==> v in [head] + rest.pins;
      } else {
        assert !ModuleRelayPins(moduleId, relays).complete;
        assert relays[0] in relays;
      }
    }
  }

  /** Every virtual pin comes from a relay of a configured module; unconfigured
      modules contribute nothing. */
  lemma {:induction false} RelayPinsFrom(modules: seq<RelayModule>, v: int)
    requires v in RelayPins(modules).pins
    ensures exists m :: (m in modules && m.configured && m.id.Some? && RelayList(m).Some? &&
      exists r :: r in RelayList(m).value && r.id.Some? && v == VirtualRelayPin(m.id.value, r.id.value))
    decreases |modules|
  {
    var m := modules[0];
    if !m.configured {
      RelayPinsFrom(modules[1..], v);
      var m' :| m' in modules[1..] && m'.configured && m'.id.Some? && RelayList(m').Some? &&
        exists r :: r in RelayList(m').value && r.id.Some? && v == VirtualRelayPin(m'.id.value, r.id.value);
      assert m' in modules;
    } else {
      var relays := RelayList(m).value;
      var own := ModuleRelayPins(m.id, relays);
      if v in own.pins {
        ModuleRelayPinsFrom(m.id, relays, v);
        assert m in modules;
      } else {
        RelayPinsFrom(modules[1..], v);
        var m' :| m' in modules[1..] && m'.configured && m'.id.Some? && RelayList(m').Some? &&
          exists r :: r in RelayList(m').value && r.id.Some? && v == VirtualRelayPin(m'.id.value, r.id.value);
        assert m' in modules;
      }
    }
  }

  /** The loop runs to its end exactly when every module is readable, and then
      every relay of every configured module is offered. */
  lemma {:induction false} RelayPinsComplete(modules: seq<RelayModule>)
    ensures RelayPins(modules).complete <==> forall m :: m in modules ==> Readable(m)
    ensures RelayPins(modules).complete ==>
      forall m, r :: m in modules && m.configured && r in RelayList(m).value ==>
        VirtualRelayPin(m.id.value, r.id.value) in RelayPins(modules).pins
    decreases |modules|
  {
    if modules != [] {
      var m := modules[0];
      RelayPinsComplete(modules[1..]);
      assert modules == [m] + modules[1..];
      assert (forall x :: x in modules ==> Readable(x)) <==>
        Readable(m) && forall x :: x in modules[1..] ==> Readable(x);
      if m.configured && RelayList(m).Some? {
        ModuleRelayPinsComplete(m.id, RelayList(m).value);
      }
    }
  }

  /** The XR8 loop of `_fetch_pin_data`: appends the virtual pin of each relay
      of each configured module to `outputs`, and stops at the first module or
      relay without an id. */
  method AppendRelayPins(modules: seq<RelayModule>, outputs: seq<int>) returns (appended: seq<int>, complete: bool)
    ensures appended == outputs + RelayPins(modules).pins
    ensures complete == RelayPins(modules).complete
  {
    appended := outputs;
    for i := 0 to |modules|
      invariant appended + RelayPins(modules[i..]).pins == outputs + RelayPins(modules).pins
      invariant RelayPins(modules[i..]).complete == RelayPins(modules).complete
    {
      var m := modules[i];
      assert modules[i..][0] == m && modules[i..][1..] == modules[i + 1..];
      if !m.configured {
        continue;
      }
      if m.relays.Null? {
        return appended, false;
      }
      var relays := m.relays.Get([]).value;
      var before := appended;
      for j := 0 to |relays|
        invariant appended + ModuleRelayPins(m.id, relays[j..]).pins == before + ModuleRelayPins(m.id, relays).pins
        invariant ModuleRelayPins(m.id, relays[j..]).complete == ModuleRelayPins(m.id, relays).complete
      {
        assert relays[j..][1..] == relays[j + 1..];
        if m.id.None? || relays[j].id.None? {
          return appended, false;
        }
        appended := appended + [VirtualRelayPin(m.id.value, relays[j].id.value)];
      }
      assert relays[|relays|..] == [];
      assert RelayPins(modules[i..]) == Then(ModuleRelayPins(m.id, relays).pins, RelayPins(modules[i + 1..]));
      assert appended == before + ModuleRelayPins(m.id, relays).pins;
      assert appended + RelayPins(modules[i + 1..]).pins == before + RelayPins(modules[i..]).pins;
    }
    assert modules[|modules|..] == [];
    complete := true;
  }
}
