/**
 The vehicle service: the validator that checks a record's fields before it
 is stored, and the service object that hands every store operation on to
 the repository it was built with.
 */
module Service {
  import opened Vehicles
  import opened StoreSpec
  import opened Repository

  /** Whether `v` leaves `f` empty: the empty string for a text field, zero
      for a number. */
  predicate Fails(v: Vehicle, f: Field)
  {
    var a := v.attributes;
    match f
    case Brand => a.brand == ""
    case Model => a.model == ""
    case Registration => a.registration == ""
    case FabricationYear => a.fabricationYear == 0
    case Color => a.color == ""
    case MaxSpeed => a.maxSpeed == 0.0
    case FuelType => a.fuelType == ""
    case Transmission => a.transmission == ""
    case Height => a.dimensions.height == 0.0
    case Width => a.dimensions.width == 0.0
    case Weight => a.weight == 0.0
  }

  /** The position of `f` in the order the validator checks the fields. */
  function Rank(f: Field): (r: nat)
    ensures r < 11
  {
    match f
    case Brand => 0
    case Model => 1
    case Registration => 2
    case FabricationYear => 3
    case Color => 4
    case MaxSpeed => 5
    case FuelType => 6
    case Transmission => 7
    case Height => 8
    case Width => 9
    case Weight => 10
  }

  /** Checks the eleven required fields in a fixed order and reports the first
      one left empty; reports nothing when all are set. The id, the capacity
      and the length are not checked. */
  function ValidateVehicleData(vehicle: Vehicle): (r: Option<Error>)
    ensures r.None? ==> forall f :: !Fails(vehicle, f)
    ensures r.Some? ==> r.value.EmptyField? && Fails(vehicle, r.value.field)
    ensures r.Some? ==> forall g :: Rank(g) < Rank(r.value.field) ==> !Fails(vehicle, g)
  {
    var a := vehicle.attributes;
    if a.brand == "" then Some(EmptyField(Brand))
    else if a.model == "" then Some(EmptyField(Model))
    else if a.registration == "" then Some(EmptyField(Registration))
    else if a.fabricationYear == 0 then Some(EmptyField(FabricationYear))
    else if a.color == "" then Some(EmptyField(Color))
    else if a.maxSpeed == 0.0 then Some(EmptyField(MaxSpeed))
    else if a.fuelType == "" then Some(EmptyField(FuelType))
    else if a.transmission == "" then Some(EmptyField(Transmission))
    else if a.dimensions.height == 0.0 then Some(EmptyField(Height))
    else if a.dimensions.width == 0.0 then Some(EmptyField(Width))
    else if a.weight == 0.0 then Some(EmptyField(Weight))
    else None
  }

  /** The validator reports `f` exactly when `f` is empty and every field
      checked before it is set. */
  lemma FirstEmptyFieldReported(vehicle: Vehicle, f: Field)
    ensures ValidateVehicleData(vehicle) == Some(EmptyField(f)) <==>
            Fails(vehicle, f) && forall g :: Rank(g) < Rank(f) ==> !Fails(vehicle, g)
  {
    var r := ValidateVehicleData(vehicle);
    if Fails(vehicle, f) && forall g :: Rank(g) < Rank(f) ==> !Fails(vehicle, g) {
      var h := r.value.field;
      if Rank(h) == Rank(f) {
        RankInjective(h, f);
      }
    }
  }

  /** The validator accepts a record exactly when none of the checked fields
      is empty. */
  lemma ValidExactlyWhenComplete(vehicle: Vehicle)
    ensures ValidateVehicleData(vehicle).None? <==> forall f :: !Fails(vehicle, f)
  {
    var r := ValidateVehicleData(vehicle);
    if r.Some? {
      var f := r.value.field;
      assert Fails(vehicle, f);
    }
  }

  /** Distinct fields have distinct positions. */
  lemma RankInjective(f: Field, g: Field)
    requires Rank(f) == Rank(g)
    ensures f == g
  {
  }

  /** The validator looks at nothing but the eleven checked fields: two records
      that agree on whether each of them is empty get the same verdict, so
      the id, the capacity, the length and the values themselves are ignored. */
  lemma ValidationIgnoresUncheckedFields(v: Vehicle, w: Vehicle)
    requires forall f :: Fails(v, f) <==> Fails(w, f)
    ensures ValidateVehicleData(v) == ValidateVehicleData(w)
  {
    var rv, rw := ValidateVehicleData(v), ValidateVehicleData(w);
    if rv.Some? && rw.Some? {
      var f, g := rv.value.field, rw.value.field;
      if Rank(f) == Rank(g) {
        RankInjective(f, g);
      }
    }
  }

  /** A record with neither a fabrication year nor a color is reported for the
      year, which is checked first; one with only the brand missing is
      reported for the brand even when its capacity is zero. */
  lemma ValidationExamples()
    ensures var v := Vehicle(7, VehicleAttributes("Ford", "Ka", "AB123", "", 0, 4, 160.0, "gas", "manual", 900.0, Dimensions(1.5, 3.8, 1.7)));
            ValidateVehicleData(v) == Some(EmptyField(FabricationYear))
    ensures var v := Vehicle(8, VehicleAttributes("", "Ka", "AB123", "red", 2001, 0, 160.0, "gas", "manual", 900.0, Dimensions(1.5, 0.0, 1.7)));
            ValidateVehicleData(v) == Some(EmptyField(Brand))
    ensures var v := Vehicle(0, VehicleAttributes("Ford", "Ka", "AB123", "red", 2001, 0, 160.0, "gas", "manual", 900.0, Dimensions(1.5, 0.0, 1.7)));
            ValidateVehicleData(v) == None
  {
  }

  /** The service over one repository: every operation is the repository's,
      with the same results and the same effect on the store. */
  class VehicleDefault {
    const rp: VehicleMap

    constructor (rp: VehicleMap)
      ensures this.rp == rp
    {
      this.rp := rp;
    }

    method FindById(id: int) returns (v: Vehicle, err: Option<Error>)
      ensures id in rp.db ==> v == rp.db[id] && err == None
      ensures id !in rp.db ==> v == ZeroVehicle && err == Some(LookupFailed)
    {
      v, err := rp.FindById(id);
    }

    method FindLastId() returns (id: int, err: Option<Error>)
      ensures rp.db.Keys == {} ==> id == 0
      ensures rp.db.Keys != {} ==> id in rp.db
      ensures err == None
    {
      id, err := rp.FindLastId();
    }

    method FindAll() returns (v: map<int, Vehicle>, err: Option<Error>)
      ensures v == rp.db && err == None
    {
      v, err := rp.FindAll();
    }

    method CreateVehicle(v: Vehicle) returns (err: Option<Error>)
      modifies rp
      ensures rp.db == old(rp.db)[v.id := v] && err == None
      ensures KeyedById(old(rp.db)) ==> KeyedById(rp.db)
    {
      err := rp.CreateVehicle(v);
    }

    method FindByColorAndYear(color: string, year: int) returns (v: map<int, Vehicle>, err: Option<Error>)
      ensures forall k :: k in v <==> k in rp.db && rp.db[k].attributes.color == color && rp.db[k].attributes.fabricationYear == year
      ensures forall k :: k in v ==> v[k] == rp.db[k]
      ensures err == None
    {
      v, err := rp.FindByColorAndYear(color, year);
    }

    /** The repository's average, passed on unchanged: the message the source
        formats when the repository reports an error is discarded, so the
        repository's error is returned as it is. */
    method FindAverageSpeedByBrand(brand: string) returns (averageSpeed: Option<real>, err: Option<Error>)
      ensures averageSpeed == AverageSpeed(rp.db, brand) && err == None
      ensures averageSpeed.None? <==> forall k :: k in rp.db ==> rp.db[k].attributes.brand != brand
    {
      averageSpeed, err := rp.FindAverageSpeedByBrand(brand);
      AverageSpeedUndefined(rp.db, brand);
    }

    method CreateVehicles(v: seq<Vehicle>) returns (err: Option<Error>)
      modifies rp
      ensures rp.db == StoreAll(old(rp.db), v) && err == None
      ensures KeyedById(old(rp.db)) ==> KeyedById(rp.db)
    {
      err := rp.CreateVehicles(v);
    }

    method UpdateSpeed(id: int, speed: real) returns (err: Option<Error>)
      modifies rp
      ensures id !in old(rp.db) ==> err == Some(VehicleNotFound) && rp.db == old(rp.db)
      ensures id in old(rp.db) ==> err == None && rp.db == old(rp.db)[id := WithMaxSpeed(old(rp.db)[id], speed)]
    {
      err := rp.UpdateSpeed(id, speed);
    }

    method FindByFuelType(fuelType: string) returns (v: seq<Vehicle>, err: Option<Error>, ghost keys: seq<int>)
      ensures Lists(rp.db, ByFuelType(fuelType), keys, v) && err == None
    {
      v, err, keys := rp.FindByFuelType(fuelType);
    }

    method DeleteVehicle(id: int) returns (err: Option<Error>)
      modifies rp
      ensures rp.db == old(rp.db) - {id} && err == None
    {
      err := rp.DeleteVehicle(id);
    }

    method FindByTransmissionType(transmissionType: string) returns (v: seq<Vehicle>, err: Option<Error>, ghost keys: seq<int>)
      ensures Lists(rp.db, ByTransmission(transmissionType), keys, v) && err == None
    {
      v, err, keys := rp.FindByTransmissionType(transmissionType);
    }

    method UpdateFuel(id: int, fuelType: string) returns (err: Option<Error>)
      modifies rp
      ensures id !in old(rp.db) ==> err == Some(VehicleNotFound) && rp.db == old(rp.db)
      ensures id in old(rp.db) ==> err == None && rp.db == old(rp.db)[id := WithFuelType(old(rp.db)[id], fuelType)]
    {
      err := rp.UpdateFuel(id, fuelType);
    }

    method FindByDimensions(minLength: real, maxLength: real, minWidth: real, maxWidth: real)
      returns (v: seq<Vehicle>, err: Option<Error>, ghost keys: seq<int>)
      ensures Lists(rp.db, ByDimensions(minLength, maxLength, minWidth, maxWidth), keys, v) && err == None
    {
      v, err, keys := rp.FindByDimensions(minLength, maxLength, minWidth, maxWidth);
    }

    method FindByWeight(minWeight: real, maxWeight: real) returns (v: seq<Vehicle>, err: Option<Error>, ghost keys: seq<int>)
      ensures Lists(rp.db, ByWeight(minWeight, maxWeight), keys, v) && err == None
    {
      v, err, keys := rp.FindByWeight(minWeight, maxWeight);
    }

    method FindByBrandAndYearRange(brand: string, startYear: int, endYear: int)
      returns (v: seq<Vehicle>, err: Option<Error>, ghost keys: seq<int>)
      ensures Lists(rp.db, ByBrandAndYearRange(brand, startYear, endYear), keys, v) && err == None
    {
      v, err, keys := rp.FindByBrandAndYearRange(brand, startYear, endYear);
    }
  }
}
