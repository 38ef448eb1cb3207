/**
 The vehicle record kept by the store, and the errors the store and the
 service report. The Go struct's own declaration is not part of this model:
 its fields and their types are read off the code that builds a record in
 internal/handler/vehicle.go. Ids, years and capacity are `int`; every
 measurement is a `float64`, modelled here as `real` (the core only compares
 measurements, and sums speeds for the brand average).
 */
module Vehicles {

  datatype Option<+T> = None | Some(value: T)

  /** Height, length and width of a vehicle. */
  datatype Dimensions = Dimensions(height: real, length: real, width: real)

  /** Everything about a vehicle except its key. */
  datatype VehicleAttributes = VehicleAttributes(
    brand: string,
    model: string,
    registration: string,
    color: string,
    fabricationYear: int,
    capacity: int,
    maxSpeed: real,
    fuelType: string,
    transmission: string,
    weight: real,
    dimensions: Dimensions)

  datatype Vehicle = Vehicle(id: int, attributes: VehicleAttributes)

  /** Go's zero value of the vehicle struct, returned by a failed lookup. */
  const ZeroVehicle: Vehicle :=
    Vehicle(0, VehicleAttributes("", "", "", "", 0, 0, 0.0, "", "", 0.0, Dimensions(0.0, 0.0, 0.0)))

  /** The eleven fields the validator checks, named in the order it checks them. */
  datatype Field =
    | Brand | Model | Registration | FabricationYear | Color | MaxSpeed
    | FuelType | Transmission | Height | Width | Weight

  datatype Error =
    /** The shared not-found error value, returned by the two update operations. */
    | VehicleNotFound
    /** The error made on the spot by a failed lookup by id: its message also
        says the vehicle was not found, but it is a different error value, so a
        caller comparing against `VehicleNotFound` does not recognise it. */
    | LookupFailed
    /** The validator's error for the first field found empty or zero. */
    | EmptyField(field: Field)
}
