/** The rules a configured device list must satisfy, stated pairwise, and the checks of
    `_validate_devices` that decide them with owner maps. */
module DeviceRules {
  import opened Common

  // ---------------------------------------------------------------------------------------
  // Devices
  // ---------------------------------------------------------------------------------------

  const MAX_DEVICES: int := 16
  const DEFAULT_I2C_FREQ_HZ: int := 400000
  const MIN_FREQ_HZ: int := 100000

  datatype Sensor = Bme280 | Ltr390 | Sht35

  /** The wiring of a device.  `None` stands for an absent key. */
  datatype Device =
    | I2c(sensor: Sensor, bus: int, sda: Option<int>, scl: Option<int>, freq: Option<int>, candidates: Option<seq<int>>)
    | OneWire(pin: int)                                                  // ds18b20
    | Soil(adc: int, digital: Option<int>, power: Option<int>)           // yl69_fc28

  /** A definition; `otherwiseValid` is every per-device check not about wiring. */
  datatype Definition = Definition(id: string, device: Device, otherwiseValid: bool)

  // ---------------------------------------------------------------------------------------
  // Pin routing of the board
  // ---------------------------------------------------------------------------------------

  const USER_GPIO_PINS: set<int> :=
    {0, 1, 2, 3, 4, 5, 6, 7, 8, 9, 10, 11, 12, 13, 14, 15, 16, 17, 18, 19, 20, 21, 22, 26, 27, 28}

  const ADC_CAPABLE_PINS: set<int> := {26, 27, 28}

  function SdaMux(bus: int): set<int> {
    if bus == 0 then {0, 4, 8, 12, 16, 20, 24, 28} else {2, 6, 10, 14, 18, 22, 26}
  }

  function SclMux(bus: int): set<int> {
    if bus == 0 then {1, 5, 9, 13, 17, 21, 25, 29} else {3, 7, 11, 15, 19, 23, 27}
  }

  /** `_I2C_DEFAULT_PINS` */
  function DefaultSda(bus: int): int { if bus == 0 then 4 else 6 }

  function DefaultScl(bus: int): int { if bus == 0 then 5 else 7 }

  /** `effective_rp2_i2c_pins`: the lines the runtime drives. */
  function EffectiveSda(bus: int, sda: Option<int>): int { if sda.Some? then sda.value else DefaultSda(bus) }

  function EffectiveScl(bus: int, scl: Option<int>): int { if scl.Some? then scl.value else DefaultScl(bus) }

  /** `validate_rp2_i2c_pins` */
  predicate Routable(bus: int, sda: Option<int>, scl: Option<int>) {
    && (sda.Some? ==> sda.value in USER_GPIO_PINS)
    && (scl.Some? ==> scl.value in USER_GPIO_PINS)
    && !(sda.Some? && sda == scl)
    && (sda.Some? ==> sda.value in SdaMux(bus))
    && (scl.Some? ==> scl.value in SclMux(bus))
  }

  /** The GPIOs the boards expose: the others serve the wireless chip. */
  predicate OnHeader(pin: int) { 0 <= pin <= 28 && pin !in {23, 24, 25} }

  /** The multiplexer in one formula: a named pin can be routed exactly when it is on the header and its
      number modulo four is that of the controller and the role; the port's defaults are routable, so
      omitting a pin never changes which. */
  lemma {:induction false} RoutingSeparates(bus: int, sda: Option<int>, scl: Option<int>)
    requires bus in {0, 1}
    ensures Routable(bus, sda, scl) <==>
              && (sda.Some? ==> OnHeader(sda.value) && sda.value % 4 == 2 * bus)
              && (scl.Some? ==> OnHeader(scl.value) && scl.value % 4 == 2 * bus + 1)
    ensures Routable(bus, sda, scl) ==>
              && OnHeader(EffectiveSda(bus, sda)) && EffectiveSda(bus, sda) % 4 == 2 * bus
              && OnHeader(EffectiveScl(bus, scl)) && EffectiveScl(bus, scl) % 4 == 2 * bus + 1
  {
  }

  // ---------------------------------------------------------------------------------------
  // One device
  // ---------------------------------------------------------------------------------------

  function MaxFreq(sensor: Sensor): int { if sensor.Ltr390? then 400000 else 1000000 }

  function EffectiveFreq(freq: Option<int>): int { if freq.Some? then freq.value else DEFAULT_I2C_FREQ_HZ }

  /** The addresses a sensor can have: both candidates by default, or the LTR390's one. */
  function Addresses(sensor: Sensor): seq<int> {
    match sensor
    case Bme280 => [118, 119]
    case Sht35 => [68, 69]
    case Ltr390 => [83]
  }

  /** The addresses probed, in order. */
  function EffectiveCandidates(d: Device): seq<int>
    requires d.I2c?
  {
    if d.candidates.Some? then d.candidates.value else Addresses(d.sensor)
  }

  predicate DeviceOk(d: Device) {
    match d
    case I2c(sensor, bus, sda, scl, freq, candidates) =>
      && bus in {0, 1} && Routable(bus, sda, scl)
      && MIN_FREQ_HZ <= EffectiveFreq(freq) <= MaxFreq(sensor)
      && (candidates.Some? ==>
            && !sensor.Ltr390? && candidates.value != []
            && (forall k :: 0 <= k < |candidates.value| ==> candidates.value[k] in Addresses(sensor))
            && (forall k, l :: 0 <= k < l < |candidates.value| ==> candidates.value[k] != candidates.value[l]))
    case OneWire(pin) => pin in USER_GPIO_PINS
    case Soil(adc, digital, power) =>
      && adc in ADC_CAPABLE_PINS
      && (digital.Some? ==> digital.value in USER_GPIO_PINS && digital.value != adc)
      && (power.Some? ==> power.value in USER_GPIO_PINS && power.value != adc && power != digital)
  }

  predicate DefinitionOk(d: Definition) { d.id != "" && d.otherwiseValid && DeviceOk(d.device) }

  /** The settings the bus factory is asked for: an omitted pin stays distinct from a named one. */
  datatype Setting = Setting(sda: Option<int>, scl: Option<int>, freq: int)

  /** `i2c_bus_identity` after the bus. */
  function SettingOf(d: Device): Setting
    requires d.I2c?
  {
    Setting(d.sda, d.scl, EffectiveFreq(d.freq))
  }

  // ---------------------------------------------------------------------------------------
  // What a line carries
  // ---------------------------------------------------------------------------------------

  datatype Role = Adc | Digital | Power

  /** What a GPIO carries: an I2C line of a controller, a 1-Wire bus, or one pin of one soil sensor. */
  datatype Signal = Sda(bus: int) | Scl(bus: int) | Dq | Probe(device: nat, role: Role)

  datatype Line = Line(pin: int, signal: Signal)

  function Optional(pin: Option<int>, signal: Signal): seq<Line> {
    if pin.Some? then [Line(pin.value, signal)] else []
  }

  /** The lines device `i` drives. */
  function Lines(d: Device, i: nat): seq<Line> {
    match d
    case I2c(_, bus, sda, scl, _, _) => [Line(EffectiveSda(bus, sda), Sda(bus)), Line(EffectiveScl(bus, scl), Scl(bus))]
    case OneWire(pin) => [Line(pin, Dq)]
    case Soil(adc, digital, power) =>
      [Line(adc, Probe(i, Adc))] + Optional(digital, Probe(i, Digital)) + Optional(power, Probe(i, Power))
  }

  // ---------------------------------------------------------------------------------------
  // The rules for a whole list
  // ---------------------------------------------------------------------------------------

  predicate ShapeOk(ds: seq<Definition>) {
    && 0 < |ds| <= MAX_DEVICES
    && (forall i :: 0 <= i < |ds| ==> DefinitionOk(ds[i]))
    && (forall i, j :: 0 <= i < j < |ds| ==> ds[i].id != ds[j].id)
  }

  predicate SameBus(a: Device, b: Device) { a.I2c? && b.I2c? && a.bus == b.bus }

  /** One controller, one setting. */
  predicate BusesAgree(ds: seq<Definition>) {
    forall i, j :: 0 <= i < |ds| && 0 <= j < |ds| && SameBus(ds[i].device, ds[j].device) ==>
      SettingOf(ds[i].device) == SettingOf(ds[j].device)
  }

  predicate Compatible(a: seq<Line>, b: seq<Line>) {
    forall x, y :: x in a && y in b && x.pin == y.pin ==> x.signal == y.signal
  }

  /** One GPIO, one signal. */
  predicate OneSignalEach(ds: seq<Definition>) {
    forall i, j {:trigger Compatible(Lines(ds[i].device, i), Lines(ds[j].device, j))} ::
      0 <= i < |ds| && 0 <= j < |ds| ==> Compatible(Lines(ds[i].device, i), Lines(ds[j].device, j))
  }

  predicate Disjoint(a: seq<int>, b: seq<int>) {
    forall x :: x in a ==> x !in b
  }

  /** No two devices can bind one physical chip. */
  predicate OneChipEach(ds: seq<Definition>) {
    forall i, j :: 0 <= i < j < |ds| && SameBus(ds[i].device, ds[j].device) ==>
      Disjoint(EffectiveCandidates(ds[i].device), EffectiveCandidates(ds[j].device))
  }

  predicate Acceptable(ds: seq<Definition>) {
    ShapeOk(ds) && BusesAgree(ds) && OneSignalEach(ds) && OneChipEach(ds)
  }

  // ---------------------------------------------------------------------------------------
  // The rules read off the fields of the devices
  // ---------------------------------------------------------------------------------------

  /** The pin that serves an I2C line: the one named, or else the port's default. */
  predicate Serves(pin: int, named: Option<int>, bus: int, pin0: int, pin1: int) {
    if named.Some? then pin == named.value else pin == (if bus == 0 then pin0 else pin1)
  }

  predicate IsSda(d: Device, pin: int) { d.I2c? && Serves(pin, d.sda, d.bus, 4, 6) }

  predicate IsScl(d: Device, pin: int) { d.I2c? && Serves(pin, d.scl, d.bus, 5, 7) }

  predicate IsAdc(d: Device, pin: int) { d.Soil? && d.adc == pin }

  predicate IsDigital(d: Device, pin: int) { d.Soil? && d.digital == Some(pin) }

  predicate IsPower(d: Device, pin: int) { d.Soil? && d.power == Some(pin) }

  predicate IsData(d: Device, pin: int) { d.OneWire? && d.pin == pin }

  predicate Uses(d: Device, pin: int) {
    || IsSda(d, pin) || IsScl(d, pin) || IsData(d, pin)
    || IsAdc(d, pin) || IsDigital(d, pin) || IsPower(d, pin)
  }

  /** Two devices may meet at a pin on one 1-Wire bus, or on the same line of one controller. */
  predicate MayShare(a: Device, b: Device, pin: int) {
    || (IsData(a, pin) && IsData(b, pin))
    || (IsSda(a, pin) && IsSda(b, pin) && a.bus == b.bus)
    || (IsScl(a, pin) && IsScl(b, pin) && a.bus == b.bus)
  }

  /** At most one purpose of `d` is served by `pin`. */
  predicate OnceAt(d: Device, pin: int) {
    && !(IsSda(d, pin) && IsScl(d, pin))
    && !(IsAdc(d, pin) && IsDigital(d, pin)) && !(IsAdc(d, pin) && IsPower(d, pin)) && !(IsDigital(d, pin) && IsPower(d, pin))
  }

  /** No pin serves two purposes: two devices meet only where they may share, and no device uses one pin
      twice. */
  ghost predicate PinsApart(ds: seq<Definition>) {
    && (forall i, j, pin :: 0 <= i < j < |ds| && Uses(ds[i].device, pin) && Uses(ds[j].device, pin) ==>
          MayShare(ds[i].device, ds[j].device, pin))
    && (forall i, pin :: 0 <= i < |ds| ==> OnceAt(ds[i].device, pin))
  }

  /** The purpose a line states is the purpose its pin serves. */
  predicate Purpose(d: Device, i: nat, x: Line) {
    match x.signal
    case Sda(bus) => IsSda(d, x.pin) && d.bus == bus
    case Scl(bus) => IsScl(d, x.pin) && d.bus == bus
    case Dq => IsData(d, x.pin)
    case Probe(device, role) =>
      && device == i
      && match role
         case Adc => IsAdc(d, x.pin)
         case Digital => IsDigital(d, x.pin)
         case Power => IsPower(d, x.pin)
  }

  lemma {:induction false} InThree(a: seq<Line>, b: seq<Line>, c: seq<Line>, x: Line)
    ensures x in a + b + c <==> x in a || x in b || x in c
  {
  }

  /** The lines of a device are the purposes its pins serve, all of them and no others. */
  lemma {:induction false} LinesArePurposes(d: Device, i: nat, x: Line)
    ensures x in Lines(d, i) <==> Purpose(d, i, x)
  {
    if d.Soil? {
      InThree([Line(d.adc, Probe(i, Adc))], Optional(d.digital, Probe(i, Digital)), Optional(d.power, Probe(i, Power)), x);
    }
  }

  /** A purpose that a pin of `d` serves, as a line. */
  lemma {:induction false} UseHasLine(d: Device, i: nat, pin: int) returns (x: Line)
    requires Uses(d, pin)
    ensures x.pin == pin && x in Lines(d, i)
  {
    x := Line(pin, if IsSda(d, pin) then Sda(d.bus) else if IsScl(d, pin) then Scl(d.bus) else if IsData(d, pin) then Dq
                   else if IsAdc(d, pin) then Probe(i, Adc) else if IsDigital(d, pin) then Probe(i, Digital)
                   else Probe(i, Power));
    LinesArePurposes(d, i, x);
  }

  lemma {:induction false} CompatibleMayShare(a: Device, b: Device, i: nat, j: nat, pin: int)
    requires i != j && Compatible(Lines(a, i), Lines(b, j)) && Uses(a, pin) && Uses(b, pin)
    ensures MayShare(a, b, pin)
  {
    var x := UseHasLine(a, i, pin);
    var y := UseHasLine(b, j, pin);
    LinesArePurposes(a, i, x);
    LinesArePurposes(b, j, y);
  }

  lemma {:induction false} CompatibleOnce(d: Device, i: nat, pin: int)
    requires Compatible(Lines(d, i), Lines(d, i))
    ensures OnceAt(d, pin)
  {
    if d.I2c? {
      LinesArePurposes(d, i, Line(pin, Sda(d.bus)));
      LinesArePurposes(d, i, Line(pin, Scl(d.bus)));
    } else {
      LinesArePurposes(d, i, Line(pin, Probe(i, Adc)));
      LinesArePurposes(d, i, Line(pin, Probe(i, Digital)));
      LinesArePurposes(d, i, Line(pin, Probe(i, Power)));
    }
  }

  lemma {:induction false} PurposesAgree(a: Device, b: Device, i: nat, j: nat, x: Line, y: Line)
    requires Purpose(a, i, x) && Purpose(b, j, y) && x.pin == y.pin
    requires if i == j then a == b && OnceAt(a, x.pin) else MayShare(a, b, x.pin) && OnceAt(a, x.pin) && OnceAt(b, x.pin)
    ensures x.signal == y.signal
  {
  }

  lemma {:induction false} PurposesCompatible(ds: seq<Definition>, i: nat, j: nat)
    requires PinsApart(ds) && i < |ds| && j < |ds|
    ensures Compatible(Lines(ds[i].device, i), Lines(ds[j].device, j))
  {
    var (a, b) := (ds[i].device, ds[j].device);
    forall x, y | x in Lines(a, i) && y in Lines(b, j) && x.pin == y.pin
      ensures x.signal == y.signal
    {
      LinesArePurposes(a, i, x);
      LinesArePurposes(b, j, y);
      assert Uses(a, x.pin) && Uses(b, x.pin) && OnceAt(a, x.pin) && OnceAt(b, x.pin);
      if i < j {
        assert MayShare(a, b, x.pin);
      } else if j < i {
        assert MayShare(b, a, x.pin);
      }
      PurposesAgree(a, b, i, j, x, y);
    }
  }

  /** One signal for each GPIO is the same as no pin serving two purposes. */
  lemma {:induction false} SignalsArePins(ds: seq<Definition>)
    ensures OneSignalEach(ds) <==> PinsApart(ds)
  {
    if OneSignalEach(ds) {
      forall i, j, pin | 0 <= i < j < |ds| && Uses(ds[i].device, pin) && Uses(ds[j].device, pin)
        ensures MayShare(ds[i].device, ds[j].device, pin)
      {
        assert Compatible(Lines(ds[i].device, i), Lines(ds[j].device, j));
        CompatibleMayShare(ds[i].device, ds[j].device, i, j, pin);
      }
      forall i, pin | 0 <= i < |ds|
        ensures OnceAt(ds[i].device, pin)
      {
        assert Compatible(Lines(ds[i].device, i), Lines(ds[i].device, i));
        CompatibleOnce(ds[i].device, i, pin);
      }
    }
    if PinsApart(ds) {
      forall i, j | 0 <= i < |ds| && 0 <= j < |ds|
        ensures Compatible(Lines(ds[i].device, i), Lines(ds[j].device, j))
      {
        PurposesCompatible(ds, i, j);
      }
    }
  }

  /** The frequency of a controller: the one named, or else 400 kHz. */
  function FreqOf(d: Device): int
    requires d.I2c?
  {
    match d.freq
    case Some(hz) => hz
    case None => 400_000
  }

  /** Devices on one controller name the same pins, or omit the same ones, and run it at one frequency. */
  predicate SettingsAgree(ds: seq<Definition>) {
    forall i, j :: 0 <= i < |ds| && 0 <= j < |ds| && ds[i].device.I2c? && ds[j].device.I2c?
                   && ds[i].device.bus == ds[j].device.bus ==>
      && ds[i].device.sda == ds[j].device.sda && ds[i].device.scl == ds[j].device.scl
      && FreqOf(ds[i].device) == FreqOf(ds[j].device)
  }

  lemma {:induction false} BusesAreSettings(ds: seq<Definition>)
    ensures BusesAgree(ds) <==> SettingsAgree(ds)
  {
  }

  /** `address` is one the driver of `d` may bind. */
  predicate MayBind(d: Device, address: int) {
    && d.I2c?
    && match d.candidates
       case Some(named) => address in named
       case None =>
         match d.sensor
         case Bme280 => address in {0x76, 0x77}
         case Sht35 => address in {0x44, 0x45}
         case Ltr390 => address == 0x53
  }

  /** No address on one controller is open to two devices. */
  ghost predicate AddressesApart(ds: seq<Definition>) {
    forall i, j, address :: 0 <= i < j < |ds| && MayBind(ds[i].device, address) && MayBind(ds[j].device, address) ==>
      ds[i].device.bus != ds[j].device.bus
  }

  lemma {:induction false} CandidatesBind(d: Device, address: int)
    requires d.I2c?
    ensures address in EffectiveCandidates(d) <==> MayBind(d, address)
  {
  }

  lemma {:induction false} ChipsAreAddresses(ds: seq<Definition>)
    ensures OneChipEach(ds) <==> AddressesApart(ds)
  {
    forall i, address | 0 <= i < |ds| && ds[i].device.I2c?
      ensures address in EffectiveCandidates(ds[i].device) <==> MayBind(ds[i].device, address)
    {
      CandidatesBind(ds[i].device, address);
    }
  }
}
