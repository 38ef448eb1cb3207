/**
 The in-memory vehicle store: a map from id to vehicle record that the store
 changes in place. Every scan of the map visits each key exactly once in an
 order the language leaves unspecified; here a scan takes its next key from
 the set of keys not yet visited, whichever it happens to be.
 */
module Repository {
  import opened Vehicles
  import opened StoreSpec

  class VehicleMap {
    /** The stored records, by id. */
    var db: map<int, Vehicle>

    /** The store starts from the given map, or from an empty one when none
        (a nil map) is given. */
    constructor (db: Option<map<int, Vehicle>>)
      ensures this.db == if db.Some? then db.value else map[]
    {
      this.db := if db.Some? then db.value else map[];
    }

    /** A copy of every entry: the same keys holding the same records. */
    method FindAll() returns (v: map<int, Vehicle>, err: Option<Error>)
      ensures v == db && err == None
    {
      v := map[];
      var rest := db.Keys;
      while rest != {}
        invariant rest <= db.Keys
        invariant v.Keys == db.Keys - rest
        invariant forall k :: k in v ==> v[k] == db[k]
        decreases rest
      {
        SomeKey(rest);
        var key :| key in rest;
        v := v[key := db[key]];
        rest := rest - {key};
      }
      forall k ensures k in v.Keys <==> k in db.Keys { }
      forall k | k in v.Keys ensures v[k] == db[k] { }
      err := None;
    }

    /** The record under `id`; on an absent id the zero record and a
        not-found error made on the spot. */
    method FindById(id: int) returns (v: Vehicle, err: Option<Error>)
      ensures id in db ==> v == db[id] && err == None
      ensures id !in db ==> v == ZeroVehicle && err == Some(LookupFailed)
    {
      if id in db {
        v, err := db[id], None;
      } else {
        v, err := ZeroVehicle, Some(LookupFailed);
      }
    }

    /** The key the scan happened to visit last: some key of the store, not
        necessarily the largest, or 0 when the store is empty. */
    method FindLastId() returns (id: int, err: Option<Error>)
      ensures db.Keys == {} ==> id == 0
      ensures db.Keys != {} ==> id in db
      ensures err == None
    {
      id := 0;
      var rest := db.Keys;
      while rest != {}
        invariant rest <= db.Keys
        invariant rest == db.Keys ==> id == 0
        invariant rest != db.Keys ==> id in db
        decreases rest
      {
        SomeKey(rest);
        var key :| key in rest;
        id := key;
        rest := rest - {key};
      }
      err := None;
    }

    /** Stores `v` under its own id, replacing whatever was there; never fails. */
    method CreateVehicle(v: Vehicle) returns (err: Option<Error>)
      modifies this
      ensures db == old(db)[v.id := v] && err == None
      ensures v.id in db && db[v.id] == v
      ensures forall k :: k != v.id ==> (k in db <==> k in old(db)) && (k in db ==> db[k] == old(db)[k])
      ensures KeyedById(old(db)) ==> KeyedById(db)
    {
      db := db[v.id := v];
      err := None;
    }

    /** The entries whose record has the given color and fabrication year,
        under their own keys. */
    method FindByColorAndYear(color: string, year: int) returns (v: map<int, Vehicle>, err: Option<Error>)
      ensures forall k :: k in v <==> k in db && db[k].attributes.color == color && db[k].attributes.fabricationYear == year
      ensures forall k :: k in v ==> v[k] == db[k]
      ensures v == Select(db, ByColorAndYear(color, year)) && err == None
    {
      v := map[];
      var rest := db.Keys;
      while rest != {}
        invariant rest <= db.Keys
        invariant forall k :: k in v <==> k in db && k !in rest && Matches(ByColorAndYear(color, year), db[k])
        invariant forall k :: k in v ==> v[k] == db[k]
        decreases rest
      {
        SomeKey(rest);
        var key :| key in rest;
        var value := db[key];
        if value.attributes.color == color && value.attributes.fabricationYear == year {
          v := v[key := value];
        }
        rest := rest - {key};
      }
      SelectedEntries(db, ByColorAndYear(color, year), v);
      err := None;
    }

    /** The sum of the maximum speeds of the records of `brand` divided by
        their number: `None` when there is none (the source's NaN). No error
        is ever reported. */
    method FindAverageSpeedByBrand(brand: string) returns (averageSpeed: Option<real>, err: Option<Error>)
      ensures averageSpeed == AverageSpeed(db, brand) && err == None
    {
      var sum, count, seen := Tally(brand);
      SelectedEntries(db, ByBrand(brand), seen);
      averageSpeed := if count == 0 then None else Some(sum / (count as real));
      err := None;
    }

    /** The scan of the brand average: the sum of the maximum speeds of the
        records of `brand` and their number, with the entries they came from. */
    method Tally(brand: string) returns (sum: real, count: nat, ghost seen: map<int, Vehicle>)
      ensures forall k :: k in seen <==> k in db && Matches(ByBrand(brand), db[k])
      ensures forall k :: k in seen ==> seen[k] == db[k]
      ensures sum == SpeedSum(seen) && count == |seen|
    {
      sum, count, seen := 0.0, 0, map[];
      var rest := db.Keys;
      while rest != {}
        invariant rest <= db.Keys
        invariant forall k :: k in seen <==> k in db && k !in rest && Matches(ByBrand(brand), db[k])
        invariant forall k :: k in seen ==> seen[k] == db[k]
        invariant sum == SpeedSum(seen) && count == |seen|
        decreases rest
      {
        SomeKey(rest);
        var key :| key in rest;
        var value := db[key];
        if value.attributes.brand == brand {
          SpeedSumAdd(seen, key, value);
          seen := seen[key := value];
          sum := sum + value.attributes.maxSpeed;
          count := count + 1;
        }
        rest := rest - {key};
      }
    }

    /** Stores each element of `vs` under its own id, in order, so that a
        later element replaces an earlier one with the same id; never fails. */
    method CreateVehicles(vs: seq<Vehicle>) returns (err: Option<Error>)
      modifies this
      ensures db == StoreAll(old(db), vs) && err == None
      ensures KeyedById(old(db)) ==> KeyedById(db)
    {
      for i := 0 to |vs|
        invariant db == StoreAll(old(db), vs[..i])
      {
        assert vs[..i + 1][..i] == vs[..i];
        db := db[vs[i].id := vs[i]];
      }
      assert vs[..|vs|] == vs;
      if KeyedById(old(db)) { StoreAllKeyedById(old(db), vs); }
      err := None;
    }

    /** Sets the maximum speed of the record under `id`; fails with the
        shared not-found error, changing nothing, when `id` is absent. */
    method UpdateSpeed(id: int, speed: real) returns (err: Option<Error>)
      modifies this
      ensures id !in old(db) ==> err == Some(VehicleNotFound) && db == old(db)
      ensures id in old(db) ==> err == None && db == old(db)[id := WithMaxSpeed(old(db)[id], speed)]
      ensures KeyedById(old(db)) ==> KeyedById(db)
    {
      if id !in db {
        return Some(VehicleNotFound);
      }
      var vehicle := db[id];
      vehicle := WithMaxSpeed(vehicle, speed);
      db := db[id := vehicle];
      err := None;
    }

    /** The records whose fuel type is `fuelType`, one per matching entry, in
        scan order. */
    method FindByFuelType(fuelType: string) returns (v: seq<Vehicle>, err: Option<Error>, ghost keys: seq<int>)
      ensures Lists(db, ByFuelType(fuelType), keys, v) && err == None
    {
      v, keys := Scan(ByFuelType(fuelType));
      err := None;
    }

    /** Removes `id` if present; an absent id is not an error. */
    method DeleteVehicle(id: int) returns (err: Option<Error>)
      modifies this
      ensures db == old(db) - {id} && err == None
      ensures id !in db
      ensures forall k :: k != id ==> (k in db <==> k in old(db)) && (k in db ==> db[k] == old(db)[k])
      ensures KeyedById(old(db)) ==> KeyedById(db)
    {
      db := db - {id};
      err := None;
    }

    /** The records whose transmission is `transmissionType`, one per
        matching entry. */
    method FindByTransmissionType(transmissionType: string) returns (v: seq<Vehicle>, err: Option<Error>, ghost keys: seq<int>)
      ensures Lists(db, ByTransmission(transmissionType), keys, v) && err == None
    {
      v, keys := Scan(ByTransmission(transmissionType));
      err := None;
    }

    /** Sets the fuel type of the record under `id`; fails with the shared
        not-found error, changing nothing, when `id` is absent. */
    method UpdateFuel(id: int, fuelType: string) returns (err: Option<Error>)
      modifies this
      ensures id !in old(db) ==> err == Some(VehicleNotFound) && db == old(db)
      ensures id in old(db) ==> err == None && db == old(db)[id := WithFuelType(old(db)[id], fuelType)]
      ensures KeyedById(old(db)) ==> KeyedById(db)
    {
      if id !in db {
        return Some(VehicleNotFound);
      }
      var vehicle := db[id];
      vehicle := WithFuelType(vehicle, fuelType);
      db := db[id := vehicle];
      err := None;
    }

    /** The records whose length lies in [minLength, maxLength] and whose
        width lies in [minWidth, maxWidth], one per matching entry. */
    method FindByDimensions(minLength: real, maxLength: real, minWidth: real, maxWidth: real)
      returns (v: seq<Vehicle>, err: Option<Error>, ghost keys: seq<int>)
      ensures Lists(db, ByDimensions(minLength, maxLength, minWidth, maxWidth), keys, v) && err == None
    {
      v, keys := Scan(ByDimensions(minLength, maxLength, minWidth, maxWidth));
      err := None;
    }

    /** The records whose weight lies in [minWeight, maxWeight], one per matching
        entry. */
    method FindByWeight(minWeight: real, maxWeight: real) returns (v: seq<Vehicle>, err: Option<Error>, ghost keys: seq<int>)
      ensures Lists(db, ByWeight(minWeight, maxWeight), keys, v) && err == None
    {
      v, keys := Scan(ByWeight(minWeight, maxWeight));
      err := None;
    }

    /** The records of `brand` made from `startYear` to `endYear`, both
        included, one per matching entry. */
    method FindByBrandAndYearRange(brand: string, startYear: int, endYear: int)
      returns (v: seq<Vehicle>, err: Option<Error>, ghost keys: seq<int>)
      ensures Lists(db, ByBrandAndYearRange(brand, startYear, endYear), keys, v) && err == None
    {
      v, keys := Scan(ByBrandAndYearRange(brand, startYear, endYear));
      err := None;
    }

    /** The full scan the list-returning filters share: every record that
        passes `q` is appended once, with the key it was found under. */
    method Scan(q: Query) returns (v: seq<Vehicle>, ghost keys: seq<int>)
      ensures Lists(db, q, keys, v)
    {
      v, keys := [], [];
      var rest := db.Keys;
      while rest != {}
        invariant rest <= db.Keys
        invariant Distinct(keys)
        invariant forall k :: k in keys <==> k in db && k !in rest && Matches(q, db[k])
        invariant ValuesOf(db, keys, v)
        decreases rest
      {
        SomeKey(rest);
        var key :| key in rest;
        var value := db[key];
        if Matches(q, value) {
          v, keys := v + [value], keys + [key];
        }
        rest := rest - {key};
      }
    }
  }
}
