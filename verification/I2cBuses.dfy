/** Core 1's I2C bus factory, which builds each controller once and refuses to reconfigure it. */
module I2cBuses {
  import opened Common
  import opened DeviceRules
  import opened DeviceValidation

  datatype Created =
    | Bus            // the controller, new or cached
    | Failed         // machine.I2C raised: nothing is cached
    | Conflict       // ValueError: the bus is already configured otherwise
    | NoBus          // the device has no I2C controller

  predicate Asks(d: Device, bus: int, setting: Setting) {
    d.I2c? && d.bus == bus && SettingOf(d) == setting
  }

  /** Every controller built so far is set as some device of the list asks. */
  ghost predicate BuiltFor(cache: map<int, Setting>, ds: seq<Definition>) {
    forall bus :: bus in cache ==> exists i :: 0 <= i < |ds| && Asks(ds[i].device, bus, cache[bus])
  }

  /** Any device of an accepted list asks for a controller as it was built, or for one not built. */
  lemma {:induction false} NeverConflicts(ds: seq<Definition>, cache: map<int, Setting>, i: nat)
    requires BusesAgree(ds) && BuiltFor(cache, ds) && i < |ds| && ds[i].device.I2c?
    ensures var d := ds[i].device;
            && (d.bus in cache ==> cache[d.bus] == SettingOf(d))
            && BuiltFor(cache[d.bus := SettingOf(d)], ds)
  {
  }

  class I2cBusFactory {
    var cache: map<int, Setting>

    constructor ()
      ensures cache == map[]
    {
      cache := map[];
    }

    /** `create(bus, sda, scl, freq_hz)` */
    method Create(bus: int, setting: Setting, constructs: bool) returns (r: Created)
      modifies this
      ensures r == Conflict <==> bus in old(cache) && old(cache)[bus] != setting
      ensures r == Bus ==> bus in cache && cache[bus] == setting
      ensures r == Bus || r == Conflict || r == Failed
      ensures r == Failed <==> bus !in old(cache) && !constructs
      ensures cache == if r == Bus then old(cache)[bus := setting] else old(cache)
    {
      if bus in cache {
        if cache[bus] == setting {
          return Bus;
        }
        return Conflict;
      }
      if !constructs {
        return Failed;
      }
      cache := cache[bus := setting];
      return Bus;
    }

    /** The arguments `create_device` gives the factory. */
    method CreateDevice(d: Device, constructs: bool) returns (r: Created)
      modifies this
      ensures r == NoBus <==> !d.I2c?
      ensures d.I2c? ==> (r == Conflict <==> d.bus in old(cache) && old(cache)[d.bus] != SettingOf(d))
      ensures cache == if r == Bus then old(cache)[d.bus := SettingOf(d)] else old(cache)
    {
      if !d.I2c? {
        return NoBus;
      }
      r := Create(d.bus, Setting(d.sda, d.scl, EffectiveFreq(d.freq)), constructs);
    }

    /** One device of a list whose buses agree. */
    method CreateOne(ds: seq<Definition>, i: nat, constructs: bool) returns (r: Created)
      requires BusesAgree(ds) && BuiltFor(cache, ds) && i < |ds|
      modifies this
      ensures BuiltFor(cache, ds) && r != Conflict && (r == NoBus <==> !ds[i].device.I2c?)
    {
      if ds[i].device.I2c? {
        NeverConflicts(ds, cache, i);
      }
      r := CreateDevice(ds[i].device, constructs);
    }

    /** However the devices of an accepted list are created, in whatever order, with whatever
        repetitions and construction failures, no creation meets a conflict. */
    method CreateAll(ds: seq<Definition>, order: seq<nat>, constructs: nat -> bool) returns (results: seq<Created>)
      requires Acceptable(ds) && BuiltFor(cache, ds)
      requires forall k :: 0 <= k < |order| ==> order[k] < |ds|
      modifies this
      ensures BuiltFor(cache, ds) && |results| == |order|
      ensures forall k :: 0 <= k < |results| ==> results[k] != Conflict
      ensures forall k :: 0 <= k < |results| ==> (results[k] == NoBus <==> !ds[order[k]].device.I2c?)
    {
      results := [];
      for k := 0 to |order|
        invariant BuiltFor(cache, ds) && |results| == k
        invariant forall l :: 0 <= l < k ==> results[l] != Conflict && (results[l] == NoBus <==> !ds[order[l]].device.I2c?)
      {
        var r := CreateOne(ds, order[k], constructs(k));
        results := results + [r];
      }
    }
  }
}
