# Vehicle store and validator

A Dafny model of the core of a small Go vehicle-registry service:

- the in-memory store `VehicleMap`, which keeps vehicle records in a map from
  id to record and changes it in place;
- the service `VehicleDefault`, which checks a record's fields with
  `ValidateVehicleData` and hands every other operation on to the store.

Modules:

- `Vehicles` (`vehicles.dfy`): the vehicle record, the zero record, the
  validated fields and the error values.
- `StoreSpec` (`store_spec.dfy`): specification functions over the store's
  map. `Matches` is the test each filter applies to a record. `Select` is the
  sub-map of matching entries. `Lists` says that a sequence holds one record
  per matching entry, so a record stored under two keys appears twice, as
  the Go loop appends it twice. `SpeedSum` and `AverageSpeed` specify the brand
  average. `StoreAll` is the batch insert as a fold of single inserts. `WithMaxSpeed`
  and `WithFuelType` are the two narrow updates of one record. This module
  also holds the lemmas about these functions.
- `Repository` (`repository.dfy`): the class `VehicleMap`. Its field `db` is
  `map<int, Vehicle>`. Every scan is a loop over the set of keys not yet
  visited, and it takes whichever key the verifier picks. That models Go's
  unspecified map order, so each proof holds for every visiting order.
- `Service` (`service.dfy`): `ValidateVehicleData` as a pure function, and
  the class `VehicleDefault`, whose methods call the store and return its
  results unchanged.

How the source's behaviour is represented:

- A Go `error` result is an `Option<Error>`, where `None` stands for `nil`.
- Three error values are kept apart:
  - the shared not-found value the two updates return (`VehicleNotFound`);
  - the distinct error that a failed lookup by id creates on the spot
    (`LookupFailed`);
  - the validator's error for one field (`EmptyField(f)`).
- The list-returning filters return a sequence together with a ghost
  sequence of the keys each element came from. `Lists` ties both to the
  store. `ListingsAgree` proves that any two scans give the same multiset of
  records.
- `float64` is modelled as `real`. The core only compares these values, and
  sums and divides speeds for the average.

## Model

| member | source | states |
|---|---|---|
| Repository.VehicleMap.constructor | internal/repository/vehicle_map.go:9-16 | the store holds the given map, or an empty map when none (nil) is given |
| Repository.VehicleMap.FindAll | internal/repository/vehicle_map.go:25-33 | the result has exactly the store's keys with the same records; no error; the store is not changed |
| Repository.VehicleMap.FindById | internal/repository/vehicle_map.go:36-42 | a present id gives its record and no error; an absent id gives the zero record and the lookup error; the store is not changed |
| Repository.VehicleMap.FindLastId | internal/repository/vehicle_map.go:45-51 | 0 on an empty store, otherwise some key of the store (whichever the scan visits last, not necessarily the largest); no error |
| Repository.VehicleMap.CreateVehicle | internal/repository/vehicle_map.go:53-56 | `v.id` now holds `v`, replacing any earlier record; every other key keeps its entry or stays absent; no error; records stay keyed by their own id |
| Repository.VehicleMap.FindByColorAndYear | internal/repository/vehicle_map.go:59-70 | the result holds exactly the keys whose record has the given color and year, each with its record, i.e. the selection of that filter; no error |
| Repository.VehicleMap.FindAverageSpeedByBrand | internal/repository/vehicle_map.go:73-88 | the result is the specified average of the maximum speeds of the brand's records (`None` when the brand has none); no error is ever returned |
| Repository.VehicleMap.Tally | internal/repository/vehicle_map.go:78-83 | the scan of the average: the sum equals the speed sum of exactly the brand's entries, and the count equals their number |
| Repository.VehicleMap.CreateVehicles | internal/repository/vehicle_map.go:91-96 | the store becomes the old store with the elements inserted one after another, in input order; no error; records stay keyed by their own id |
| Repository.VehicleMap.UpdateSpeed | internal/repository/vehicle_map.go:99-110 | an absent id returns the shared not-found error and changes nothing; a present id has only its maximum speed replaced; no other key changes |
| Repository.VehicleMap.FindByFuelType | internal/repository/vehicle_map.go:113-121 | the result lists every record with that fuel type, one per matching entry, and nothing else; no error |
| Repository.VehicleMap.DeleteVehicle | internal/repository/vehicle_map.go:124-127 | the id is absent afterwards and every other key is unchanged; no error, also when the id was absent |
| Repository.VehicleMap.FindByTransmissionType | internal/repository/vehicle_map.go:130-138 | the result lists every record with that transmission, one per matching entry, and nothing else; no error |
| Repository.VehicleMap.UpdateFuel | internal/repository/vehicle_map.go:141-152 | an absent id returns the shared not-found error and changes nothing; a present id has only its fuel type replaced; no other key changes |
| Repository.VehicleMap.FindByDimensions | internal/repository/vehicle_map.go:155-163 | the result lists every record whose length and width lie in the inclusive ranges, one per matching entry, and nothing else; no error |
| Repository.VehicleMap.FindByWeight | internal/repository/vehicle_map.go:166-176 | the result lists every record whose weight lies in the inclusive range, one per matching entry, and nothing else; no error |
| Repository.VehicleMap.FindByBrandAndYearRange | internal/repository/vehicle_map.go:179-187 | the result lists every record of the brand whose year lies in the inclusive range, one per matching entry, and nothing else; no error |
| Repository.VehicleMap.Scan | internal/repository/vehicle_map.go:181-185 | the scan shared by the list filters appends the record of each matching entry once, with the key it was found under, and nothing else |
| StoreSpec.Matches | internal/repository/vehicle_map.go:158 | the test of each filter: equality on color and year (line 64), brand (line 79), fuel type (line 116) and transmission (line 133); inclusive bounds on length and width (line 158), weight (line 170) and, with the brand, year (line 182) |
| StoreSpec.ListedRecords | internal/repository/vehicle_map.go:113-121 | every listed record passes the filter, and every stored record that passes it is listed |
| StoreSpec.BoundsIncluded | internal/repository/vehicle_map.go:155-187 | the range filters are inclusive: a record lying exactly on a bound of the weight or year range is listed, and so is one whose length or width lies on a bound while the other lies in its range |
| StoreSpec.ListingsAgree | internal/repository/vehicle_map.go:130-138 | two scans of the same filter over the same store give the same records with the same multiplicities, whatever order the map is visited in |
| StoreSpec.SameKeysSameValues | internal/repository/vehicle_map.go:115-119 | two duplicate-free key sequences with the same keys list the same multiset of records |
| StoreSpec.SelectedEntries | internal/repository/vehicle_map.go:63-67 | a map holding exactly the entries of the store that pass a filter, with their records, is that filter's selection |
| StoreSpec.AverageSpeed | internal/repository/vehicle_map.go:86 | the reference for the brand average: the speed sum of the brand's entries divided by their number, undefined when there are none |
| StoreSpec.SpeedSumRemove | internal/repository/vehicle_map.go:78-83 | the speed sum can take out any entry first, so the sum does not depend on the order of the scan |
| StoreSpec.SpeedSumAdd | internal/repository/vehicle_map.go:79-82 | adding an entry under a new key adds its speed to the sum and one to the count |
| StoreSpec.AverageSpeedUndefined | internal/repository/vehicle_map.go:86 | the average is undefined (the source's zero-by-zero division) exactly when no record has the brand |
| StoreSpec.AverageSpeedExample | internal/repository/vehicle_map.go:73-88 | brand X at speeds 100 and 200 and brand Y at 50 give an X average of 150; brand Z has none |
| StoreSpec.StoreAll | internal/repository/vehicle_map.go:91-96 | the reference for the batch insert: the elements inserted one after another under their own ids, in input order |
| StoreSpec.StoreAllLaterWins | internal/repository/vehicle_map.go:92-94 | after a batch insert, an element that no later element shares an id with is what its id holds |
| StoreSpec.StoreAllUntouched | internal/repository/vehicle_map.go:92-94 | a key that no element of the batch carries keeps its entry, or stays absent |
| StoreSpec.StoreAllKeys | internal/repository/vehicle_map.go:91-96 | a batch insert adds exactly the batch's ids to the keys |
| StoreSpec.StoreAllKeyedById | internal/repository/vehicle_map.go:91-96 | a batch insert keeps every record stored under its own id |
| StoreSpec.CreateThenDelete | internal/repository/vehicle_map.go:124-127 | inserting under a fresh id and then deleting that id restores the store; a lookup in between finds the record |
| StoreSpec.WithMaxSpeed | internal/repository/vehicle_map.go:107 | the record gets the new speed, keeps its id, and keeps every other field |
| StoreSpec.WithFuelType | internal/repository/vehicle_map.go:149 | the record gets the new fuel type, keeps its id, and keeps every other field |
| Service.Fails | internal/service/vehicle_default.go:115-147 | the eleven tests of the validator: an empty string for brand, model, registration, color, fuel type and transmission; zero for year, maximum speed, height, width and weight |
| Service.Rank | internal/service/vehicle_default.go:115-147 | the order of the eleven tests, from brand (first) to weight (last): a position below 11 |
| Service.ValidateVehicleData | internal/service/vehicle_default.go:112-150 | no error means every checked field is set; an error names a field that is empty, and every field checked before it is set |
| Service.ValidExactlyWhenComplete | internal/service/vehicle_default.go:115-149 | the validator accepts a record if and only if none of the eleven checked fields is empty or zero |
| Service.FirstEmptyFieldReported | internal/service/vehicle_default.go:115-147 | field `f` is reported if and only if `f` is empty and every field checked before it is set |
| Service.ValidationIgnoresUncheckedFields | internal/service/vehicle_default.go:112-150 | two records that agree on which checked fields are empty get the same verdict, so the id, capacity and length never matter |
| Service.ValidationExamples | internal/service/vehicle_default.go:124-129 | a record missing both year and color is reported for the year; one missing the brand is reported for the brand; a complete one with zero capacity and length passes |
| Service.RankInjective | internal/service/vehicle_default.go:115-147 | no two checks share a position in the checking order |
| Service.VehicleDefault.constructor | internal/service/vehicle_default.go:10-12 | the service is bound to the given store |
| Service.VehicleDefault.FindById | internal/service/vehicle_default.go:21-24 | the store's lookup result and error, unchanged |
| Service.VehicleDefault.FindLastId | internal/service/vehicle_default.go:27-29 | the store's last-visited id, unchanged |
| Service.VehicleDefault.FindAll | internal/service/vehicle_default.go:31-34 | the store's full copy, unchanged |
| Service.VehicleDefault.CreateVehicle | internal/service/vehicle_default.go:37-40 | the store's insert, with the same effect and the same (absent) error |
| Service.VehicleDefault.FindByColorAndYear | internal/service/vehicle_default.go:43-46 | exactly the store's matching entries, with no error |
| Service.VehicleDefault.FindAverageSpeedByBrand | internal/service/vehicle_default.go:49-55 | the store's average and error, unchanged: `None` exactly when no record has the brand; the message formatted on the error path is thrown away |
| Service.VehicleDefault.CreateVehicles | internal/service/vehicle_default.go:58-61 | the store's batch insert, with the same effect and no error |
| Service.VehicleDefault.UpdateSpeed | internal/service/vehicle_default.go:64-67 | the store's speed update: the same error on an absent id, the same new state |
| Service.VehicleDefault.FindByFuelType | internal/service/vehicle_default.go:70-73 | the store's fuel-type listing, unchanged |
| Service.VehicleDefault.DeleteVehicle | internal/service/vehicle_default.go:76-79 | the store's delete, with the same effect and no error |
| Service.VehicleDefault.FindByTransmissionType | internal/service/vehicle_default.go:82-85 | the store's transmission listing, unchanged |
| Service.VehicleDefault.UpdateFuel | internal/service/vehicle_default.go:88-91 | the store's fuel update: the same error on an absent id, the same new state |
| Service.VehicleDefault.FindByDimensions | internal/service/vehicle_default.go:94-97 | the store's dimension listing, unchanged |
| Service.VehicleDefault.FindByWeight | internal/service/vehicle_default.go:100-103 | the store's weight listing, unchanged |
| Service.VehicleDefault.FindByBrandAndYearRange | internal/service/vehicle_default.go:106-109 | the store's brand-and-year listing, unchanged |

## Left out

- The vehicle struct and the shared not-found error `ErrVehicleNotFound`
  are declared in a file of the `internal` package that is not part of this
  model. The record's fields and their types follow their use in
  internal/handler/vehicle.go:148-167.
- The service's repository is a Go interface (internal/vehicle_repository.go).
  Here the service holds the concrete `VehicleMap`, which is the only
  implementation of that interface.
- `float64` arithmetic: speeds, sizes and weights are exact reals, so there
  is no rounding in the speed sum and the average.
- Repository.VehicleMap.FindAverageSpeedByBrand: the source divides zero by
  zero and returns NaN when no record has the brand. The model returns
  `None` instead of a NaN value, and as in the code it reports no error.
- Repository.VehicleMap.FindLastId: it returns whichever key the scan visits
  last. It is not specified as the largest key, because the Go code does not
  compute a maximum.
- Repository.VehicleMap.constructor: the Go store keeps the caller's map
  itself, so later changes through either reference are visible through the
  other. Dafny maps are values, so this sharing is not modelled. For the same
  reason, the copy that `FindAll` returns can never be aliased.
- Error message text is left out. The validator's error names the failed
  field, and the store's two not-found errors stay distinct values.
- Concurrency is left out: the store has no locking, and the model is
  sequential.
- The HTTP handler is left out (internal/handler/vehicle.go): URL and query
  parsing, JSON encoding, status codes, and the id arithmetic it does before
  it calls the store.
- Go's `int` is modelled as an unbounded integer. Ids and years are only
  compared and stored, so overflow cannot arise in the core.
