/** `_validate_devices`: each pass over the list decides its pairwise rule. */
module DeviceValidation {
  import opened Common
  import opened DeviceRules

  datatype Verdict =
    | Accepted
    | ShapeInvalid        // list length, duplicate id, or an invalid definition
    | BusConflict         // one bus asked for with two settings
    | PinConflict         // one GPIO for two signals
    | ChipConflict        // two devices that could bind one chip

  /** The first pass: ids and each definition on its own. */
  method CheckShape(ds: seq<Definition>) returns (ok: bool)
    ensures ok <==> ShapeOk(ds)
  {
    if ds == [] || |ds| > MAX_DEVICES {
      return false;
    }
    var seenIds: set<string> := {};
    for index := 0 to |ds|
      invariant seenIds == set k | 0 <= k < index :: ds[k].id
      invariant forall i :: 0 <= i < index ==> DefinitionOk(ds[i])
      invariant forall i, j :: 0 <= i < j < index ==> ds[i].id != ds[j].id
    {
      var id := ds[index].id;
      if id != "" {
        if id in seenIds {
          return false;
        }
        seenIds := seenIds + {id};
      }
      if !DefinitionOk(ds[index]) {
        return false;
      }
    }
    return true;
  }

  /** The second pass: `bus_owners` holds the setting of the first device on each bus. */
  method CheckBuses(ds: seq<Definition>) returns (ok: bool)
    ensures ok <==> BusesAgree(ds)
  {
    var busOwners: map<int, Setting> := map[];
    for index := 0 to |ds|
      invariant forall bus :: bus in busOwners ==>
                  exists i :: 0 <= i < index && ds[i].device.I2c?
                              && ds[i].device.bus == bus && SettingOf(ds[i].device) == busOwners[bus]
      invariant forall i :: 0 <= i < index && ds[i].device.I2c? ==>
                  ds[i].device.bus in busOwners && busOwners[ds[i].device.bus] == SettingOf(ds[i].device)
    {
      var device := ds[index].device;
      if device.I2c? {
        var setting := SettingOf(device);
        if device.bus !in busOwners {
          busOwners := busOwners[device.bus := setting];
        } else if busOwners[device.bus] != setting {
          return false;
        }
      }
    }
    return true;
  }

  /** The 1-Wire pins in use. */
  method OneWireOwners(ds: seq<Definition>) returns (owners: map<int, nat>)
    ensures forall pin :: pin in owners <==> exists i :: 0 <= i < |ds| && ds[i].device == OneWire(pin)
  {
    owners := map[];
    for index := 0 to |ds|
      invariant forall pin :: pin in owners <==> exists i :: 0 <= i < index && ds[i].device == OneWire(pin)
    {
      if ds[index].device.OneWire? && ds[index].device.pin !in owners {
        owners := owners[ds[index].device.pin := index];
      }
    }
  }

  // ---------------------------------------------------------------------------------------
  // GPIO ownership
  // ---------------------------------------------------------------------------------------

  function ProbePart(ds: seq<Definition>, n: nat): seq<Line>
    requires n < |ds|
  {
    if ds[n].device.Soil? then Lines(ds[n].device, n) else []
  }

  /** The lines of the soil sensors, and of the I2C devices, among the first `n`. */
  function ProbeLines(ds: seq<Definition>, n: nat): seq<Line>
    requires n <= |ds|
  {
    if n == 0 then []
    else ProbeLines(ds, n - 1) + ProbePart(ds, n - 1)
  }

  function BusLines(ds: seq<Definition>, n: nat): seq<Line>
    requires n <= |ds|
  {
    if n == 0 then []
    else BusLines(ds, n - 1) + (if ds[n - 1].device.I2c? then Lines(ds[n - 1].device, n - 1) else [])
  }

  /** No pin twice. */
  predicate PinsDistinct(lines: seq<Line>) {
    forall k, l :: 0 <= k < l < |lines| ==> lines[k].pin != lines[l].pin
  }

  predicate PinsOutside(lines: seq<Line>, pins: set<int>) {
    forall x :: x in lines ==> x.pin !in pins
  }

  /** What the soil pass asks of the soil sensors' lines, given the 1-Wire pins. */
  predicate Free(lines: seq<Line>, wires: set<int>) { PinsDistinct(lines) && PinsOutside(lines, wires) }

  /** An owner map that holds exactly these lines. */
  ghost predicate Owns(owners: map<int, Signal>, lines: seq<Line>) {
    && (forall x :: x in lines ==> x.pin in owners && owners[x.pin] == x.signal)
    && (forall pin :: pin in owners ==> Line(pin, owners[pin]) in lines)
  }

  /** Entering one more line. */
  lemma {:induction false} OneMoreLine(owners: map<int, Signal>, pins: set<int>, lines: seq<Line>, line: Line)
    requires Owns(owners, lines) && Free(lines, pins)
    ensures line.pin !in owners && line.pin !in pins <==> Free(lines + [line], pins)
    ensures line.pin !in owners ==> Owns(owners[line.pin := line.signal], lines + [line])
  {
    var all := lines + [line];
    assert all[|lines|] == line && line in all;
    forall x | x in lines
      ensures exists i :: 0 <= i < |lines| && all[i] == x
    {
      var i :| 0 <= i < |lines| && lines[i] == x;
      assert all[i] == x;
    }
    if line.pin in owners {
      assert Line(line.pin, owners[line.pin]) in lines;
    }
  }

  lemma {:induction false} PrefixDistinct(a: seq<Line>, b: seq<Line>, pins: set<int>)
    ensures Free(a + b, pins) ==> Free(a, pins)
  {
    assert (a + b)[..|a|] == a;
    if PinsDistinct(a + b) {
      forall k, l | 0 <= k < l < |a|
        ensures a[k].pin != a[l].pin
      {
        assert (a + b)[k] == a[k] && (a + b)[l] == a[l];
      }
    }
  }

  /** Enter one soil sensor's lines, unless a pin is taken. */
  method ClaimLines(lines: seq<Line>, wires: map<int, nat>, before: map<int, Signal>, ghost earlier: seq<Line>)
    returns (owners: Option<map<int, Signal>>)
    requires Owns(before, earlier) && Free(earlier, wires.Keys)
    ensures owners.Some? <==> Free(earlier + lines, wires.Keys)
    ensures owners.Some? ==> Owns(owners.value, earlier + lines)
  {
    var claimed := before;
    for k := 0 to |lines|
      invariant Owns(claimed, earlier + lines[..k])
      invariant Free(earlier + lines[..k], wires.Keys)
    {
      var line := lines[k];
      OneMoreLine(claimed, wires.Keys, earlier + lines[..k], line);
      assert earlier + lines[..k + 1] == earlier + lines[..k] + [line];
      if line.pin in claimed || line.pin in wires {
        PrefixDistinct(earlier + lines[..k + 1], lines[k + 1..], wires.Keys);
        assert earlier + lines[..k + 1] + lines[k + 1..] == earlier + lines;
        return None;
      }
      claimed := claimed[line.pin := line.signal];
    }
    assert lines[..|lines|] == lines;
    return Some(claimed);
  }

  lemma {:induction false} Regroup(a: seq<Line>, b: seq<Line>, c: seq<Line>)
    ensures a + b + c == a + (b + c)
  {
  }

  lemma {:induction false} ProbesBetween(ds: seq<Definition>, n: nat, m: nat) returns (rest: seq<Line>)
    requires n <= m <= |ds|
    ensures ProbeLines(ds, m) == ProbeLines(ds, n) + rest
    decreases m - n
  {
    if n == m {
      rest := [];
    } else {
      var later := ProbesBetween(ds, n + 1, m);
      rest := ProbePart(ds, n) + later;
      Regroup(ProbeLines(ds, n), ProbePart(ds, n), later);
    }
  }

  lemma {:induction false} NextProbes(ds: seq<Definition>, n: nat)
    requires n < |ds|
    ensures ProbeLines(ds, n + 1) == ProbeLines(ds, n) + ProbePart(ds, n)
    ensures !ds[n].device.Soil? ==> ProbeLines(ds, n + 1) == ProbeLines(ds, n)
  {
  }

  lemma {:induction false} ConflictStays(ds: seq<Definition>, n: nat, wires: set<int>)
    requires n <= |ds| && !Free(ProbeLines(ds, n), wires)
    ensures !Free(ProbeLines(ds, |ds|), wires)
  {
    var rest := ProbesBetween(ds, n, |ds|);
    PrefixDistinct(ProbeLines(ds, n), rest, wires);
  }

  method ClaimDevice(ds: seq<Definition>, index: nat, wires: map<int, nat>, before: map<int, Signal>)
    returns (owners: Option<map<int, Signal>>)
    requires index < |ds| && Owns(before, ProbeLines(ds, index)) && Free(ProbeLines(ds, index), wires.Keys)
    ensures owners.Some? ==> Free(ProbeLines(ds, index + 1), wires.Keys) && Owns(owners.value, ProbeLines(ds, index + 1))
    ensures owners.None? ==> !Free(ProbeLines(ds, |ds|), wires.Keys)
  {
    NextProbes(ds, index);
    if ds[index].device.Soil? {
      owners := ClaimLines(ProbePart(ds, index), wires, before, ProbeLines(ds, index));
      if owners.None? {
        ConflictStays(ds, index + 1, wires.Keys);
      }
    } else {
      owners := Some(before);
    }
  }

  /** The soil pass: `soil_pin_owners`, unless a pin is taken twice or by a 1-Wire device. */
  method SoilOwners(ds: seq<Definition>, wires: map<int, nat>) returns (owners: Option<map<int, Signal>>)
    ensures owners.Some? <==> Free(ProbeLines(ds, |ds|), wires.Keys)
    ensures owners.Some? ==> Owns(owners.value, ProbeLines(ds, |ds|))
  {
    owners := Some(map[]);
    for index := 0 to |ds|
      invariant owners.Some? && Owns(owners.value, ProbeLines(ds, index)) && Free(ProbeLines(ds, index), wires.Keys)
    {
      owners := ClaimDevice(ds, index, wires, owners.value);
      if owners.None? {
        return;
      }
    }
  }

  lemma {:induction false} BusLineOf(ds: seq<Definition>, n: nat, i: nat, x: Line)
    requires i < n <= |ds| && ds[i].device.I2c? && x in Lines(ds[i].device, i)
    ensures x in BusLines(ds, n)
  {
    if i < n - 1 {
      BusLineOf(ds, n - 1, i, x);
    }
  }

  /** The I2C pass: the lines each bus drives, defaults included, against the owners above. */
  method CheckBusLines(ds: seq<Definition>, wires: map<int, nat>, probes: map<int, Signal>) returns (ok: bool)
    ensures ok <==> PinsOutside(BusLines(ds, |ds|), wires.Keys + probes.Keys)
  {
    for index := 0 to |ds|
      invariant PinsOutside(BusLines(ds, index), wires.Keys + probes.Keys)
    {
      var device := ds[index].device;
      if device.I2c? {
        var lines := Lines(device, index);
        for k := 0 to 2
          invariant forall l :: 0 <= l < k ==> lines[l].pin !in wires.Keys + probes.Keys
        {
          if lines[k].pin in wires || lines[k].pin in probes {
            BusLineOf(ds, |ds|, index, lines[k]);
            return false;
          }
        }
      }
    }
    return true;
  }

  // ---------------------------------------------------------------------------------------
  // The passes over pins decide "one GPIO, one signal"
  // ---------------------------------------------------------------------------------------

  function PinsOf(lines: seq<Line>): set<int> { set x | x in lines :: x.pin }

  ghost predicate WirePins(ds: seq<Definition>, pins: set<int>) {
    forall pin :: pin in pins <==> exists i :: 0 <= i < |ds| && ds[i].device == OneWire(pin)
  }

  ghost predicate PinPassesOk(ds: seq<Definition>, wires: set<int>) {
    var probes, buses := ProbeLines(ds, |ds|), BusLines(ds, |ds|);
    Free(probes, wires) && PinsOutside(buses, wires + PinsOf(probes))
  }

  lemma {:induction false} InMiddle(a: seq<Line>, b: seq<Line>, c: seq<Line>, x: Line)
    requires x in b
    ensures x in a + b + c
  {
    var k :| 0 <= k < |b| && b[k] == x;
    assert (a + b + c)[|a| + k] == x;
  }

  lemma {:induction false} ProbesAround(ds: seq<Definition>, i: nat, n: nat) returns (rest: seq<Line>)
    requires i < n <= |ds|
    ensures ProbeLines(ds, n) == ProbeLines(ds, i) + ProbePart(ds, i) + rest
  {
    rest := ProbesBetween(ds, i + 1, n);
    NextProbes(ds, i);
  }

  lemma {:induction false} ProbeLineOf(ds: seq<Definition>, n: nat, i: nat, x: Line)
    requires i < n <= |ds| && x in ProbePart(ds, i)
    ensures x in ProbeLines(ds, n)
  {
    var rest := ProbesAround(ds, i, n);
    InMiddle(ProbeLines(ds, i), ProbePart(ds, i), rest, x);
  }

  predicate IsLine(ds: seq<Definition>, x: Line) {
    exists i :: 0 <= i < |ds| && x in Lines(ds[i].device, i)
  }

  lemma {:induction false} SamePinSameSignal(ds: seq<Definition>, x: Line, y: Line)
    requires OneSignalEach(ds) && IsLine(ds, x) && IsLine(ds, y) && x.pin == y.pin
    ensures x.signal == y.signal
  {
    var i :| 0 <= i < |ds| && x in Lines(ds[i].device, i);
    var j :| 0 <= j < |ds| && y in Lines(ds[j].device, j);
    assert Compatible(Lines(ds[i].device, i), Lines(ds[j].device, j));
  }

  lemma {:induction false} ProbePartFrom(ds: seq<Definition>, n: nat, x: Line)
    requires n < |ds| && x in ProbePart(ds, n)
    ensures IsLine(ds, x) && x.signal.Probe? && x.signal.device == n
  {
  }

  lemma {:induction false} ProbeLineFrom(ds: seq<Definition>, n: nat, x: Line)
    requires n <= |ds| && x in ProbeLines(ds, n)
    ensures IsLine(ds, x) && x.signal.Probe? && x.signal.device < n
  {
    NextProbes(ds, n - 1);
    if x in ProbeLines(ds, n - 1) {
      ProbeLineFrom(ds, n - 1, x);
    } else {
      ProbePartFrom(ds, n - 1, x);
    }
  }

  lemma {:induction false} BusLineFrom(ds: seq<Definition>, n: nat, x: Line)
    requires n <= |ds| && x in BusLines(ds, n)
    ensures IsLine(ds, x) && (x.signal.Sda? || x.signal.Scl?)
  {
    if x in BusLines(ds, n - 1) {
      BusLineFrom(ds, n - 1, x);
    } else {
      assert x in Lines(ds[n - 1].device, n - 1);
    }
  }

  /** Two I2C devices on any buses: the pin fixes the controller and the role. */
  lemma {:induction false} BusesCompatible(a: Device, b: Device, i: nat, j: nat)
    requires a.I2c? && b.I2c? && DeviceOk(a) && DeviceOk(b)
    ensures Compatible(Lines(a, i), Lines(b, j))
  {
    RoutingSeparates(a.bus, a.sda, a.scl);
    RoutingSeparates(b.bus, b.sda, b.scl);
  }

  lemma {:induction false} ProbePinFree(ds: seq<Definition>, wires: set<int>, i: nat, x: Line)
    requires PinPassesOk(ds, wires) && i < |ds| && ds[i].device.Soil? && x in Lines(ds[i].device, i)
    ensures x.pin !in wires && x in ProbeLines(ds, |ds|)
  {
    ProbeLineOf(ds, |ds|, i, x);
  }

  lemma {:induction false} BusPinFree(ds: seq<Definition>, wires: set<int>, i: nat, x: Line, y: Line)
    requires PinPassesOk(ds, wires) && i < |ds| && ds[i].device.I2c? && x in Lines(ds[i].device, i)
    ensures x.pin !in wires && (y in ProbeLines(ds, |ds|) ==> y.pin != x.pin)
  {
    BusLineOf(ds, |ds|, i, x);
  }

  predicate AllOk(ds: seq<Definition>) {
    forall i :: 0 <= i < |ds| ==> DefinitionOk(ds[i])
  }

  lemma {:induction false} SamePinSameLine(lines: seq<Line>, x: Line, y: Line)
    requires PinsDistinct(lines) && x in lines && y in lines && x.pin == y.pin
    ensures x == y
  {
  }

  lemma {:induction false} PassesSuffice(ds: seq<Definition>, wires: set<int>, i: nat, j: nat, x: Line, y: Line)
    requires AllOk(ds) && WirePins(ds, wires) && PinPassesOk(ds, wires) && i < |ds| && j < |ds|
    requires x in Lines(ds[i].device, i) && y in Lines(ds[j].device, j) && x.pin == y.pin
    ensures x.signal == y.signal
  {
    var a, b := ds[i].device, ds[j].device;
    assert DefinitionOk(ds[i]) && DefinitionOk(ds[j]);
    if a.I2c? && b.I2c? {
      BusesCompatible(a, b, i, j);
    } else if a.Soil? && b.Soil? {
      ProbePinFree(ds, wires, i, x);
      ProbePinFree(ds, wires, j, y);
      SamePinSameLine(ProbeLines(ds, |ds|), x, y);
    } else if !a.OneWire? || !b.OneWire? {
      if a.Soil? { ProbePinFree(ds, wires, i, x); }
      if b.Soil? { ProbePinFree(ds, wires, j, y); }
      if a.I2c? { BusPinFree(ds, wires, i, x, y); }
      if b.I2c? { BusPinFree(ds, wires, j, y, x); }
    }
  }

  lemma {:induction false} WithinOneProbe(d: Device, i: nat)
    requires d.Soil? && DeviceOk(d)
    ensures PinsDistinct(Lines(d, i)) && forall x :: x in Lines(d, i) ==> x.signal.Probe? && x.signal.device == i
  {
  }

  lemma {:induction false} ApartFromEarlier(ds: seq<Definition>, n: nat, x: Line, y: Line)
    requires OneSignalEach(ds) && n < |ds| && ds[n].device.Soil? && DeviceOk(ds[n].device)
    requires x in ProbeLines(ds, n) && y in Lines(ds[n].device, n)
    ensures x.pin != y.pin
  {
    ProbeLineFrom(ds, n, x);
    WithinOneProbe(ds[n].device, n);
    if x.pin == y.pin {
      SamePinSameSignal(ds, x, y);
    }
  }

  predicate ApartPins(a: seq<Line>, b: seq<Line>) {
    forall x, y :: x in a && y in b ==> x.pin != y.pin
  }

  /** A soil sensor's pins are apart from each other and from the earlier sensors'. */
  predicate ApartAt(ds: seq<Definition>, n: nat)
    requires n < |ds|
  {
    PinsDistinct(ProbePart(ds, n)) && ApartPins(ProbeLines(ds, n), ProbePart(ds, n))
  }

  lemma {:induction false} EachIsApart(ds: seq<Definition>, n: nat)
    requires AllOk(ds) && OneSignalEach(ds) && n < |ds|
    ensures ApartAt(ds, n)
  {
    if ds[n].device.Soil? {
      assert DefinitionOk(ds[n]);
      WithinOneProbe(ds[n].device, n);
      forall x, y | x in ProbeLines(ds, n) && y in ProbePart(ds, n)
        ensures x.pin != y.pin
      {
        ApartFromEarlier(ds, n, x, y);
      }
    }
  }

  lemma {:induction false} NextDistinct(ds: seq<Definition>, n: nat)
    requires n < |ds| && ApartAt(ds, n) && PinsDistinct(ProbeLines(ds, n))
    ensures PinsDistinct(ProbeLines(ds, n + 1))
  {
  }

  lemma {:induction false} ProbesDistinct(ds: seq<Definition>, n: nat)
    requires forall m {:trigger ApartAt(ds, m)} :: 0 <= m < |ds| ==> ApartAt(ds, m)
    requires n <= |ds|
    ensures PinsDistinct(ProbeLines(ds, n))
  {
    if n > 0 {
      ProbesDistinct(ds, n - 1);
      assert ApartAt(ds, n - 1);
      NextDistinct(ds, n - 1);
    }
  }

  lemma {:induction false} WireIsLine(ds: seq<Definition>, wires: set<int>, pin: int)
    requires WirePins(ds, wires) && pin in wires
    ensures IsLine(ds, Line(pin, Dq))
  {
  }

  lemma {:induction false} NotAWire(ds: seq<Definition>, wires: set<int>, x: Line)
    requires WirePins(ds, wires) && OneSignalEach(ds) && IsLine(ds, x) && !x.signal.Dq?
    ensures x.pin !in wires
  {
    if x.pin in wires {
      WireIsLine(ds, wires, x.pin);
      SamePinSameSignal(ds, x, Line(x.pin, Dq));
    }
  }

  lemma {:induction false} PassesNecessary(ds: seq<Definition>, wires: set<int>)
    requires ShapeOk(ds) && WirePins(ds, wires) && OneSignalEach(ds)
    ensures PinPassesOk(ds, wires)
  {
    var probes, buses := ProbeLines(ds, |ds|), BusLines(ds, |ds|);
    forall m | 0 <= m < |ds|
      ensures ApartAt(ds, m)
    {
      EachIsApart(ds, m);
    }
    ProbesDistinct(ds, |ds|);
    forall x | x in probes
      ensures x.pin !in wires
    {
      ProbeLineFrom(ds, |ds|, x);
      NotAWire(ds, wires, x);
    }
    forall x | x in buses
      ensures x.pin !in wires + PinsOf(probes)
    {
      BusLineFrom(ds, |ds|, x);
      NotAWire(ds, wires, x);
      forall y | y in probes
        ensures y.pin != x.pin
      {
        ProbeLineFrom(ds, |ds|, y);
        if y.pin == x.pin {
          SamePinSameSignal(ds, x, y);
        }
      }
    }
  }

  /** The two passes over pins accept exactly the lists in which each GPIO carries one signal. */
  lemma {:induction false} PinPassesDecide(ds: seq<Definition>, wires: set<int>)
    requires ShapeOk(ds) && WirePins(ds, wires)
    ensures PinPassesOk(ds, wires) <==> OneSignalEach(ds)
  {
    if PinPassesOk(ds, wires) {
      forall i, j, x, y | 0 <= i < |ds| && 0 <= j < |ds| && x in Lines(ds[i].device, i) && y in Lines(ds[j].device, j)
                          && x.pin == y.pin
        ensures x.signal == y.signal
      {
        PassesSuffice(ds, wires, i, j, x, y);
      }
    }
    if OneSignalEach(ds) {
      PassesNecessary(ds, wires);
    }
  }

  // ---------------------------------------------------------------------------------------
  // Physical chips
  // ---------------------------------------------------------------------------------------

  predicate SameType(a: Device, b: Device, sensor: Sensor) {
    SameBus(a, b) && a.sensor == sensor && b.sensor == sensor
  }

  /** No two devices of one type on one bus could bind one chip. */
  ghost predicate TypeChipsApart(ds: seq<Definition>, sensor: Sensor) {
    forall i, j :: 0 <= i < j < |ds| && SameType(ds[i].device, ds[j].device, sensor) ==>
      Disjoint(EffectiveCandidates(ds[i].device), EffectiveCandidates(ds[j].device))
  }

  lemma {:induction false} FixedAddressShared(ds: seq<Definition>, i: nat, j: nat)
    requires ShapeOk(ds) && i < j < |ds| && SameType(ds[i].device, ds[j].device, Ltr390)
    ensures !TypeChipsApart(ds, Ltr390)
  {
    assert DefinitionOk(ds[i]) && DefinitionOk(ds[j]);
    assert 83 in EffectiveCandidates(ds[i].device) && 83 in EffectiveCandidates(ds[j].device);
  }

  /** `owners` holds one LTR390 among the first `n` devices for each bus that has any. */
  ghost predicate Ltr390Owners(owners: map<int, nat>, ds: seq<Definition>, n: nat)
    requires n <= |ds|
  {
    && (forall i :: 0 <= i < n && ds[i].device.I2c? && ds[i].device.sensor == Ltr390 ==> ds[i].device.bus in owners)
    && (forall bus :: bus in owners ==>
          && owners[bus] < n && ds[owners[bus]].device.I2c?
          && ds[owners[bus]].device.sensor == Ltr390 && ds[owners[bus]].device.bus == bus)
  }

  lemma {:induction false} NextLtr390(owners: map<int, nat>, ds: seq<Definition>, n: nat)
    requires n < |ds| && Ltr390Owners(owners, ds, n)
    ensures var d := ds[n].device;
            if d.I2c? && d.sensor == Ltr390 then
              && Ltr390Owners(owners[d.bus := n], ds, n + 1)
              && (d.bus !in owners ==> forall i :: 0 <= i < n ==> !SameType(ds[i].device, d, Ltr390))
            else
              && Ltr390Owners(owners, ds, n + 1)
              && (forall i :: 0 <= i < n ==> !SameType(ds[i].device, d, Ltr390))
  {
  }

  /** The LTR390s: one fixed address, so at most one on each bus. */
  method CheckLtr390s(ds: seq<Definition>) returns (ok: bool)
    requires ShapeOk(ds)
    ensures ok <==> TypeChipsApart(ds, Ltr390)
  {
    var owners: map<int, nat> := map[];
    for index := 0 to |ds|
      invariant Ltr390Owners(owners, ds, index)
      invariant forall i, j :: 0 <= i < j < index ==> !SameType(ds[i].device, ds[j].device, Ltr390)
    {
      NextLtr390(owners, ds, index);
      var device := ds[index].device;
      if device.I2c? && device.sensor == Ltr390 {
        if device.bus in owners {
          FixedAddressShared(ds, owners[device.bus], index);
          return false;
        }
        owners := owners[device.bus := index];
      }
    }
    return true;
  }

  datatype Key = Key(sensor: Sensor, bus: int)

  predicate HasKey(d: Device, key: Key) { d.I2c? && d.sensor == key.sensor && d.bus == key.bus }

  /** The address lists of one type on one bus, among the first `n` devices, in order. */
  function Lists(ds: seq<Definition>, n: nat, key: Key): seq<seq<int>>
    requires n <= |ds|
  {
    if n == 0 then []
    else Lists(ds, n - 1, key) + (if HasKey(ds[n - 1].device, key) then [EffectiveCandidates(ds[n - 1].device)] else [])
  }

  /** A probe list of a two-address type. */
  predicate ProbeList(x: seq<int>, sensor: Sensor) {
    && x != []
    && (forall k :: 0 <= k < |x| ==> x[k] in Addresses(sensor))
    && (forall k, l :: 0 <= k < l < |x| ==> x[k] != x[l])
  }

  lemma {:induction false} ProbeLists(d: Device)
    requires d.I2c? && DeviceOk(d)
    ensures ProbeList(EffectiveCandidates(d), d.sensor)
  {
  }

  lemma {:induction false} NoThird(x: seq<int>, a: int, b: int)
    requires forall k :: 0 <= k < |x| ==> x[k] in [a, b]
    ensures |x| <= 2 || x[0] == x[1] || x[1] == x[2] || x[0] == x[2]
  {
  }

  /** Of two probe lists over the same two addresses, apart means one address each, and not the same
      one. */
  lemma {:induction false} ApartMeansSingle(x: seq<int>, y: seq<int>, sensor: Sensor)
    requires sensor != Ltr390 && ProbeList(x, sensor) && ProbeList(y, sensor)
    ensures Disjoint(x, y) <==> |x| == 1 && |y| == 1 && x[0] != y[0]
  {
    var addresses := Addresses(sensor);
    NoThird(x, addresses[0], addresses[1]);
    NoThird(y, addresses[0], addresses[1]);
    assert x[0] in x && y[0] in y;
    if |x| == 2 {
      assert x[1] in x && y[0] in x;
    }
    if |y| == 2 {
      assert y[1] in y && x[0] in y;
    }
  }

  predicate SingleAndDistinct(lists: seq<seq<int>>) {
    && (forall k :: 0 <= k < |lists| ==> |lists[k]| == 1)
    && (forall k, l :: 0 <= k < l < |lists| ==> lists[k][0] != lists[l][0])
  }

  predicate ListsApart(lists: seq<seq<int>>) {
    forall k, l :: 0 <= k < l < |lists| ==> Disjoint(lists[k], lists[l])
  }

  predicate GroupOk(lists: seq<seq<int>>) { |lists| < 2 || SingleAndDistinct(lists) }

  lemma {:induction false} GroupRule(lists: seq<seq<int>>, sensor: Sensor)
    requires sensor != Ltr390 && forall k :: 0 <= k < |lists| ==> ProbeList(lists[k], sensor)
    ensures GroupOk(lists) <==> ListsApart(lists)
  {
    forall k, l | 0 <= k < l < |lists|
      ensures Disjoint(lists[k], lists[l]) <==> |lists[k]| == 1 && |lists[l]| == 1 && lists[k][0] != lists[l][0]
    {
      ApartMeansSingle(lists[k], lists[l], sensor);
    }
    if ListsApart(lists) && |lists| >= 2 {
      forall k | 0 <= k < |lists|
        ensures |lists[k]| == 1
      {
        var other := if k == 0 then 1 else 0;
        assert Disjoint(lists[if k == 0 then 0 else other], lists[if k == 0 then other else k]);
      }
    }
  }

  /** One type on one bus: with two or more devices, each must name one address and none twice. */
  method CheckGroup(lists: seq<seq<int>>) returns (ok: bool)
    ensures ok <==> GroupOk(lists)
  {
    if |lists| < 2 {
      return true;
    }
    var addresses: set<int> := {};
    for k := 0 to |lists|
      invariant forall l :: 0 <= l < k ==> |lists[l]| == 1 && lists[l][0] in addresses
      invariant forall l, m :: 0 <= l < m < k ==> lists[l][0] != lists[m][0]
      invariant forall x :: x in addresses ==> exists l :: 0 <= l < k && lists[l][0] == x
    {
      var effective := lists[k];
      if |effective| != 1 {
        return false;
      }
      if effective[0] in addresses {
        ghost var l :| 0 <= l < k && lists[l][0] == effective[0];
        assert lists[l][0] == lists[k][0];
        return false;
      }
      addresses := addresses + {effective[0]};
    }
    return true;
  }

  /** `candidate_sensors` after the first `n` devices. */
  ghost predicate Gathered(sensors: map<Key, seq<seq<int>>>, ds: seq<Definition>, n: nat)
    requires n <= |ds|
  {
    && (forall key :: key in sensors ==> key.sensor != Ltr390 && sensors[key] == Lists(ds, n, key))
    && (forall key: Key :: key.sensor != Ltr390 && key !in sensors ==> Lists(ds, n, key) == [])
  }

  lemma {:induction false} ListsNext(ds: seq<Definition>, n: nat, key: Key)
    requires n < |ds|
    ensures Lists(ds, n + 1, key)
            == if HasKey(ds[n].device, key) then Lists(ds, n, key) + [EffectiveCandidates(ds[n].device)] else Lists(ds, n, key)
  {
  }

  lemma {:induction false} GatheredNext(before: map<Key, seq<seq<int>>>, after: map<Key, seq<seq<int>>>,
          ds: seq<Definition>, n: nat)
    requires n < |ds| && Gathered(before, ds, n)
    requires var d := ds[n].device;
             if d.I2c? && d.sensor != Ltr390 then
               var key := Key(d.sensor, d.bus);
               after == before[key := (if key in before then before[key] else []) + [EffectiveCandidates(d)]]
             else after == before
    ensures Gathered(after, ds, n + 1)
  {
  }

  method GatherCandidates(ds: seq<Definition>) returns (sensors: map<Key, seq<seq<int>>>)
    ensures Gathered(sensors, ds, |ds|)
  {
    sensors := map[];
    for index := 0 to |ds|
      invariant Gathered(sensors, ds, index)
    {
      var d := ds[index].device;
      ghost var before := sensors;
      if d.I2c? && d.sensor != Ltr390 {
        var key := Key(d.sensor, d.bus);
        var entries := if key in sensors then sensors[key] else [];
        sensors := sensors[key := entries + [EffectiveCandidates(d)]];
      }
      GatheredNext(before, sensors, ds, index);
    }
  }

  /** The BME280s and SHT35s, gathered by type and bus and then checked group by group. */
  method CheckCandidates(ds: seq<Definition>) returns (ok: bool)
    ensures ok <==> forall key: Key :: key.sensor != Ltr390 ==> GroupOk(Lists(ds, |ds|, key))
  {
    var sensors := GatherCandidates(ds);
    var keys := sensors.Keys;
    while keys != {}
      invariant keys <= sensors.Keys
      invariant forall key :: key in sensors.Keys - keys ==> GroupOk(sensors[key])
      decreases |keys|
    {
      var key :| key in keys;
      var good := CheckGroup(sensors[key]);
      if !good {
        return false;
      }
      keys := keys - {key};
    }
    return true;
  }

  // ---------------------------------------------------------------------------------------
  // The passes over sensors decide "one chip, one device"
  // ---------------------------------------------------------------------------------------

  lemma {:induction false} ListsFrom(ds: seq<Definition>, n: nat, key: Key, k: nat)
    requires n <= |ds| && k < |Lists(ds, n, key)|
    ensures exists i :: 0 <= i < n && HasKey(ds[i].device, key) && Lists(ds, n, key)[k] == EffectiveCandidates(ds[i].device)
  {
    if k < |Lists(ds, n - 1, key)| {
      ListsFrom(ds, n - 1, key, k);
    }
  }

  lemma {:induction false} ListsOf(ds: seq<Definition>, n: nat, key: Key, i: nat)
    requires i < n <= |ds| && HasKey(ds[i].device, key)
    ensures EffectiveCandidates(ds[i].device) in Lists(ds, n, key)
  {
    if i < n - 1 {
      ListsOf(ds, n - 1, key, i);
    }
  }

  ghost predicate KeyApart(ds: seq<Definition>, n: nat, key: Key)
    requires n <= |ds|
  {
    forall i, j :: 0 <= i < j < n && HasKey(ds[i].device, key) && HasKey(ds[j].device, key) ==>
      Disjoint(EffectiveCandidates(ds[i].device), EffectiveCandidates(ds[j].device))
  }

  lemma {:induction false} LastApart(earlier: seq<seq<int>>, last: seq<int>)
    ensures ListsApart(earlier + [last]) <==>
              ListsApart(earlier) && forall k :: 0 <= k < |earlier| ==> Disjoint(earlier[k], last)
  {
    var all := earlier + [last];
    assert forall k :: 0 <= k < |earlier| ==> all[k] == earlier[k];
    assert all[|earlier|] == last;
  }

  lemma {:induction false} LastKeyApart(ds: seq<Definition>, n: nat, key: Key, earlier: seq<seq<int>>, last: seq<int>)
    requires 0 < n <= |ds| && HasKey(ds[n - 1].device, key) && KeyApart(ds, n - 1, key)
    requires earlier == Lists(ds, n - 1, key) && last == EffectiveCandidates(ds[n - 1].device)
    requires forall k :: 0 <= k < |earlier| ==> Disjoint(earlier[k], last)
    ensures KeyApart(ds, n, key)
  {
    forall i | 0 <= i < n - 1 && HasKey(ds[i].device, key)
      ensures Disjoint(EffectiveCandidates(ds[i].device), last)
    {
      ListsOf(ds, n - 1, key, i);
    }
  }

  lemma {:induction false} LastListApart(ds: seq<Definition>, n: nat, key: Key)
    requires 0 < n <= |ds| && HasKey(ds[n - 1].device, key)
    requires ListsApart(Lists(ds, n - 1, key)) <==> KeyApart(ds, n - 1, key)
    ensures ListsApart(Lists(ds, n, key)) <==> KeyApart(ds, n, key)
  {
    var earlier, last := Lists(ds, n - 1, key), EffectiveCandidates(ds[n - 1].device);
    ListsNext(ds, n - 1, key);
    LastApart(earlier, last);
    if KeyApart(ds, n, key) {
      forall k | 0 <= k < |earlier|
        ensures Disjoint(earlier[k], last)
      {
        ListsFrom(ds, n - 1, key, k);
      }
    }
    if ListsApart(earlier + [last]) {
      LastKeyApart(ds, n, key, earlier, last);
    }
  }

  lemma {:induction false} ListsAreTheDevices(ds: seq<Definition>, n: nat, key: Key)
    requires n <= |ds|
    ensures ListsApart(Lists(ds, n, key)) <==> KeyApart(ds, n, key)
  {
    if n > 0 {
      ListsAreTheDevices(ds, n - 1, key);
      if HasKey(ds[n - 1].device, key) {
        LastListApart(ds, n, key);
      } else {
        assert Lists(ds, n, key) == Lists(ds, n - 1, key);
      }
    }
  }

  ghost predicate CandidatesOk(ds: seq<Definition>) {
    forall key: Key :: key.sensor != Ltr390 ==> GroupOk(Lists(ds, |ds|, key))
  }

  lemma {:induction false} KeyDecides(ds: seq<Definition>, key: Key)
    requires ShapeOk(ds) && key.sensor != Ltr390
    ensures GroupOk(Lists(ds, |ds|, key)) <==> KeyApart(ds, |ds|, key)
  {
    var lists := Lists(ds, |ds|, key);
    forall k | 0 <= k < |lists|
      ensures ProbeList(lists[k], key.sensor)
    {
      ListsFrom(ds, |ds|, key, k);
      var i :| 0 <= i < |ds| && HasKey(ds[i].device, key) && lists[k] == EffectiveCandidates(ds[i].device);
      assert DefinitionOk(ds[i]);
      ProbeLists(ds[i].device);
    }
    GroupRule(lists, key.sensor);
    ListsAreTheDevices(ds, |ds|, key);
  }

  /** Addresses of different types never meet. */
  lemma {:induction false} TypesApart(a: Device, b: Device)
    requires a.I2c? && b.I2c? && DeviceOk(a) && DeviceOk(b) && a.sensor != b.sensor
    ensures Disjoint(EffectiveCandidates(a), EffectiveCandidates(b))
  {
  }

  lemma {:induction false} PairApart(ds: seq<Definition>, i: nat, j: nat)
    requires ShapeOk(ds) && TypeChipsApart(ds, Ltr390) && CandidatesOk(ds)
    requires i < j < |ds| && SameBus(ds[i].device, ds[j].device)
    ensures Disjoint(EffectiveCandidates(ds[i].device), EffectiveCandidates(ds[j].device))
  {
    var a, b := ds[i].device, ds[j].device;
    assert DefinitionOk(ds[i]) && DefinitionOk(ds[j]);
    if a.sensor != b.sensor {
      TypesApart(a, b);
    } else if a.sensor == Ltr390 {
      assert SameType(a, b, Ltr390);
    } else {
      KeyDecides(ds, Key(a.sensor, a.bus));
    }
  }

  /** The passes over sensors accept exactly the lists in which no two devices can bind one chip. */
  lemma {:induction false} ChipPassesDecide(ds: seq<Definition>)
    requires ShapeOk(ds)
    ensures TypeChipsApart(ds, Ltr390) && CandidatesOk(ds) <==> OneChipEach(ds)
  {
    if TypeChipsApart(ds, Ltr390) && CandidatesOk(ds) {
      forall i, j | 0 <= i < j < |ds| && SameBus(ds[i].device, ds[j].device)
        ensures Disjoint(EffectiveCandidates(ds[i].device), EffectiveCandidates(ds[j].device))
      {
        PairApart(ds, i, j);
      }
    }
    if OneChipEach(ds) {
      forall key: Key | key.sensor != Ltr390
        ensures GroupOk(Lists(ds, |ds|, key))
      {
        KeyDecides(ds, key);
      }
    }
  }

  // ---------------------------------------------------------------------------------------
  // The whole check
  // ---------------------------------------------------------------------------------------

  lemma {:induction false} OwnedPins(owners: map<int, Signal>, lines: seq<Line>)
    requires Owns(owners, lines)
    ensures owners.Keys == PinsOf(lines)
  {
    forall pin | pin in owners
      ensures pin in PinsOf(lines)
    {
      assert Line(pin, owners[pin]) in lines;
    }
  }

  method RunPinPasses(ds: seq<Definition>, wires: map<int, nat>) returns (ok: bool)
    ensures ok <==> PinPassesOk(ds, wires.Keys)
  {
    var probes := SoilOwners(ds, wires);
    ok := false;
    if probes.Some? {
      OwnedPins(probes.value, ProbeLines(ds, |ds|));
      ok := CheckBusLines(ds, wires, probes.value);
    }
  }

  /** The passes over pins: no pin of an accepted list serves two purposes. */
  method CheckPins(ds: seq<Definition>) returns (ok: bool)
    requires ShapeOk(ds)
    ensures ok <==> OneSignalEach(ds)
    ensures ok <==> PinsApart(ds)
  {
    var wires := OneWireOwners(ds);
    ok := RunPinPasses(ds, wires);
    PinPassesDecide(ds, wires.Keys);
    SignalsArePins(ds);
  }

  /** `_validate_devices` accepts exactly the acceptable lists, and rejects each other one for the
      first rule it breaks; the rules are also told on the fields of the devices. */
  method ValidateDevices(ds: seq<Definition>) returns (verdict: Verdict)
    ensures verdict == Accepted <==> ShapeOk(ds) && SettingsAgree(ds) && PinsApart(ds) && AddressesApart(ds)
    ensures verdict == BusConflict <==> ShapeOk(ds) && !SettingsAgree(ds)
    ensures verdict == PinConflict <==> ShapeOk(ds) && SettingsAgree(ds) && !PinsApart(ds)
    ensures verdict == ChipConflict <==> ShapeOk(ds) && SettingsAgree(ds) && PinsApart(ds) && !AddressesApart(ds)
    ensures verdict == Accepted <==> Acceptable(ds)
    ensures verdict == ShapeInvalid <==> !ShapeOk(ds)
    ensures verdict == BusConflict <==> ShapeOk(ds) && !BusesAgree(ds)
    ensures verdict == PinConflict <==> ShapeOk(ds) && BusesAgree(ds) && !OneSignalEach(ds)
    ensures verdict == ChipConflict <==> ShapeOk(ds) && BusesAgree(ds) && OneSignalEach(ds) && !OneChipEach(ds)
  {
    BusesAreSettings(ds);
    SignalsArePins(ds);
    ChipsAreAddresses(ds);
    var ok := CheckShape(ds);
    if !ok {
      return ShapeInvalid;
    }
    ok := CheckBuses(ds);
    if !ok {
      return BusConflict;
    }
    ok := CheckPins(ds);
    if !ok {
      return PinConflict;
    }
    ChipPassesDecide(ds);
    ok := CheckLtr390s(ds);
    if !ok {
      return ChipConflict;
    }
    ok := CheckCandidates(ds);
    return if ok then Accepted else ChipConflict;
  }
}
