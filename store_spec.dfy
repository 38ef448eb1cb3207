/**
 The specification of the store: the predicates the store's full-scan
 filters apply to each record, and the functions over the store's map that
 specify what the store operations do:
 the sub-map of matching entries, the listing of matching records, the sum
 of speeds, the average speed, and the batch insert as a fold of single
 inserts.
 */
module StoreSpec {
  import opened Vehicles

  /** One filter of the store, with its targets. */
  datatype Query =
    | ByColorAndYear(color: string, year: int)
    | ByBrand(brand: string)
    | ByFuelType(fuelType: string)
    | ByTransmission(transmission: string)
    | ByDimensions(minLength: real, maxLength: real, minWidth: real, maxWidth: real)
    | ByWeight(minWeight: real, maxWeight: real)
    | ByBrandAndYearRange(brand: string, startYear: int, endYear: int)

  /** The test a filter applies to one record: equality on the targets, or
      inclusive bounds on both ends of a range. */
  predicate Matches(q: Query, v: Vehicle)
  {
    var a := v.attributes;
    match q
    case ByColorAndYear(color, year) => a.color == color && a.fabricationYear == year
    case ByBrand(brand) => a.brand == brand
    case ByFuelType(fuelType) => a.fuelType == fuelType
    case ByTransmission(transmission) => a.transmission == transmission
    case ByDimensions(minLength, maxLength, minWidth, maxWidth) =>
      a.dimensions.length >= minLength && a.dimensions.length <= maxLength &&
      a.dimensions.width >= minWidth && a.dimensions.width <= maxWidth
    case ByWeight(minWeight, maxWeight) => a.weight >= minWeight && a.weight <= maxWeight
    case ByBrandAndYearRange(brand, startYear, endYear) =>
      a.brand == brand && a.fabricationYear >= startYear && a.fabricationYear <= endYear
  }

  /** The entries of `db` whose record passes `q`, under their own keys. */
  function Select(db: map<int, Vehicle>, q: Query): map<int, Vehicle>
  {
    map k | k in db && Matches(q, db[k]) :: db[k]
  }

  /** A map holding exactly the entries of `db` that pass `q` is their selection. */
  lemma SelectedEntries(db: map<int, Vehicle>, q: Query, m: map<int, Vehicle>)
    requires forall k :: k in m <==> k in db && Matches(q, db[k])
    requires forall k :: k in m ==> m[k] == db[k]
    ensures m == Select(db, q)
  {
    var s := Select(db, q);
    forall k ensures k in m.Keys <==> k in s.Keys { }
    forall k | k in m.Keys ensures m[k] == s[k] { }
  }

  /** No key occurs twice in `ks`. */
  ghost predicate Distinct(ks: seq<int>)
  {
    forall i, j :: 0 <= i < j < |ks| ==> ks[i] != ks[j]
  }

  /** `vs` holds, position by position, the records stored under `ks`. */
  ghost predicate ValuesOf(db: map<int, Vehicle>, ks: seq<int>, vs: seq<Vehicle>)
  {
    |vs| == |ks| && forall i :: 0 <= i < |ks| ==> ks[i] in db && vs[i] == db[ks[i]]
  }

  /** `v` lists the records of `db` that pass `q` in the order of the keys
      `ks`: one element per matching entry and nothing else, so a record
      stored under two keys appears twice. */
  ghost predicate Lists(db: map<int, Vehicle>, q: Query, ks: seq<int>, v: seq<Vehicle>)
  {
    && Distinct(ks)
    && (forall k :: k in ks <==> k in db && Matches(q, db[k]))
    && ValuesOf(db, ks, v)
  }

  /** A listing has exactly the matching records in it. */
  lemma ListedRecords(db: map<int, Vehicle>, q: Query, ks: seq<int>, v: seq<Vehicle>)
    requires Lists(db, q, ks, v)
    ensures forall i :: 0 <= i < |v| ==> Matches(q, v[i])
    ensures forall k :: k in db && Matches(q, db[k]) ==> db[k] in v
  {
    forall k | k in db && Matches(q, db[k]) ensures db[k] in v {
      var i :| 0 <= i < |ks| && ks[i] == k;
      assert v[i] == db[k];
    }
  }

  /** The range filters include both ends of every range: a record lying
      exactly on a bound (for the dimensions, on a bound of the length or of
      the width, the other lying in its range) is listed. */
  lemma BoundsIncluded(db: map<int, Vehicle>, q: Query, ks: seq<int>, v: seq<Vehicle>, k: int)
    requires Lists(db, q, ks, v) && k in db
    requires var a := db[k].attributes;
      || (q.ByWeight? && q.minWeight <= q.maxWeight && (a.weight == q.minWeight || a.weight == q.maxWeight))
      || (q.ByDimensions? &&
          q.minLength <= a.dimensions.length <= q.maxLength &&
          q.minWidth <= a.dimensions.width <= q.maxWidth &&
          (|| a.dimensions.length == q.minLength || a.dimensions.length == q.maxLength
           || a.dimensions.width == q.minWidth || a.dimensions.width == q.maxWidth))
      || (q.ByBrandAndYearRange? && a.brand == q.brand && q.startYear <= q.endYear &&
          (a.fabricationYear == q.startYear || a.fabricationYear == q.endYear))
    ensures db[k] in v
  {
    ListedRecords(db, q, ks, v);
  }

  /** Two listings of the same filter over the same store hold the same
      records, each the same number of times: the order in which the store
      is scanned does not change the result beyond its order. */
  lemma ListingsAgree(db: map<int, Vehicle>, q: Query, k1: seq<int>, v1: seq<Vehicle>,
                      k2: seq<int>, v2: seq<Vehicle>)
    requires Lists(db, q, k1, v1) && Lists(db, q, k2, v2)
    ensures multiset(v1) == multiset(v2)
  {
    SameKeysSameValues(db, k1, v1, k2, v2);
  }

  /** `a` and `b` hold the same keys. */
  ghost predicate SameKeys(a: seq<int>, b: seq<int>)
  {
    forall k :: k in a <==> k in b
  }

  /** Two listings with the same keys, in whatever order, hold the same
      records the same number of times. */
  lemma {:induction false} SameKeysSameValues(db: map<int, Vehicle>, a: seq<int>, va: seq<Vehicle>,
                                              b: seq<int>, vb: seq<Vehicle>)
    requires Distinct(a) && Distinct(b) && SameKeys(a, b)
    requires ValuesOf(db, a, va) && ValuesOf(db, b, vb)
    ensures multiset(va) == multiset(vb)
    decreases |a|
  {
    if a == [] {
      FirstKeyShared(a, b);
    } else {
      var n := |a| - 1;
      assert a[n] in a;
      var j :| 0 <= j < |b| && b[j] == a[n];
      DropMatchingLast(a, b, j);
      DropAt(db, a, va, n);
      DropAt(db, b, vb, j);
      SameKeysSameValues(db, a[..n] + a[n + 1..], va[..n] + va[n + 1..], b[..j] + b[j + 1..], vb[..j] + vb[j + 1..]);
    }
  }

  lemma FirstKeyShared(a: seq<int>, b: seq<int>)
    requires SameKeys(a, b)
    ensures |b| > 0 ==> b[0] in a
  {
    if |b| > 0 { var k := b[0]; assert k in b; }
  }

  /** Dropping position `j` from a listing leaves a listing of the rest, and
      takes exactly one copy of that record out of the multiset. */
  lemma DropAt(db: map<int, Vehicle>, ks: seq<int>, vs: seq<Vehicle>, j: int)
    requires ValuesOf(db, ks, vs) && 0 <= j < |ks|
    ensures ValuesOf(db, ks[..j] + ks[j + 1..], vs[..j] + vs[j + 1..])
    ensures multiset(vs) == multiset(vs[..j] + vs[j + 1..]) + multiset{db[ks[j]]}
  {
    var ks', vs' := ks[..j] + ks[j + 1..], vs[..j] + vs[j + 1..];
    forall i | 0 <= i < |ks'| ensures ks'[i] in db && vs'[i] == db[ks'[i]] {
      if i < j { assert ks'[i] == ks[i] && vs'[i] == vs[i]; }
      else { assert ks'[i] == ks[i + 1] && vs'[i] == vs[i + 1]; }
    }
    assert vs == vs[..j] + [vs[j]] + vs[j + 1..];
  }

  /** Taking the last key of `a` out of both listings leaves two listings
      that again hold the same keys, once each. */
  lemma DropMatchingLast(a: seq<int>, b: seq<int>, j: int)
    requires Distinct(a) && Distinct(b) && SameKeys(a, b)
    requires |a| > 0 && 0 <= j < |b| && b[j] == a[|a| - 1]
    ensures Distinct(a[..|a| - 1]) && Distinct(b[..j] + b[j + 1..])
    ensures SameKeys(a[..|a| - 1], b[..j] + b[j + 1..])
  {
    var n := |a| - 1;
    var a', b' := a[..n], b[..j] + b[j + 1..];
    assert forall i :: 0 <= i < |b'| ==> b'[i] == b[if i < j then i else i + 1];
    forall k | k in a' ensures k in b' {
      var i :| 0 <= i < n && a[i] == k;
      assert k in b;
      var i' :| 0 <= i' < |b| && b[i'] == k;
      assert i' != j;
      if i' < j { assert b'[i'] == k; } else { assert b'[i' - 1] == k; }
    }
    forall k | k in b' ensures k in a' {
      var i :| 0 <= i < |b'| && b'[i] == k;
      var i' := if i < j then i else i + 1;
      assert b[i'] == k && i' != j;
      assert k in a;
      var h :| 0 <= h < |a| && a[h] == k;
      assert h != n;
      assert a'[h] == k;
    }
  }

  /** A non-empty key set has an element to pick. */
  lemma SomeKey(s: set<int>)
    requires s != {}
    ensures exists k :: k in s
  {
    if forall k :: k !in s { assert false; }
  }

  /** The sum of the maximum speeds held in `m`, in an arbitrary key order. */
  ghost function SpeedSum(m: map<int, Vehicle>): real
    decreases |m|
  {
    if m.Keys == {} then 0.0
    else
      SomeKey(m.Keys);
      var k :| k in m.Keys;
      assert |m - {k}| < |m| by { assert (m - {k}).Keys == m.Keys - {k}; }
      SpeedSum(m - {k}) + m[k].attributes.maxSpeed
  }

  lemma MapRemoveSize(m: map<int, Vehicle>, k: int)
    requires k in m
    ensures |m - {k}| == |m| - 1
  {
    assert (m - {k}).Keys == m.Keys - {k};
  }

  /** Any key may be taken out first: the sum does not depend on the order. */
  lemma {:induction false} SpeedSumRemove(m: map<int, Vehicle>, k: int)
    requires k in m
    ensures SpeedSum(m) == SpeedSum(m - {k}) + m[k].attributes.maxSpeed
    decreases |m|
  {
    var j :| j in m.Keys && SpeedSum(m) == SpeedSum(m - {j}) + m[j].attributes.maxSpeed;
    if j != k {
      var mj, mk := m - {j}, m - {k};
      MapRemoveSize(m, j);
      MapRemoveSize(m, k);
      assert k in mj && mj[k] == m[k];
      assert j in mk && mk[j] == m[j];
      SpeedSumRemove(mj, k);
      SpeedSumRemove(mk, j);
      assert mj - {k} == mk - {j};
    }
  }

  /** Adding an entry under a new key adds its speed to the sum and one to the count. */
  lemma SpeedSumAdd(m: map<int, Vehicle>, k: int, v: Vehicle)
    requires k !in m
    ensures SpeedSum(m[k := v]) == SpeedSum(m) + v.attributes.maxSpeed
    ensures |m[k := v]| == |m| + 1
  {
    var m' := m[k := v];
    SpeedSumRemove(m', k);
    assert m' - {k} == m;
    MapRemoveSize(m', k);
  }

  /** The average maximum speed over the records of `brand`. `None` stands for
      the result of dividing a zero sum by a zero count (a NaN), which the
      source returns when no record has that brand. */
  ghost function AverageSpeed(db: map<int, Vehicle>, brand: string): Option<real>
  {
    var s := Select(db, ByBrand(brand));
    if |s| == 0 then None else Some(SpeedSum(s) / (|s| as real))
  }

  /** The average is undefined exactly when no record has the brand. */
  lemma AverageSpeedUndefined(db: map<int, Vehicle>, brand: string)
    ensures AverageSpeed(db, brand).None? <==> forall k :: k in db ==> db[k].attributes.brand != brand
  {
    var s := Select(db, ByBrand(brand));
    if s.Keys == {} {
      assert |s| == |s.Keys| == 0;
      forall k | k in db ensures db[k].attributes.brand != brand {
        assert k !in s.Keys;
      }
    } else {
      SomeKey(s.Keys);
      var k0 :| k0 in s.Keys;
      assert |s| == |s.Keys| != 0;
      assert k0 in db && db[k0].attributes.brand == brand;
    }
  }

  /** A record of brand "X" at 100, one of brand "X" at 200 and one of brand
      "Y" at 50: the average of "X" is 150, and "Z" has no average. */
  lemma AverageSpeedExample()
    ensures var db := map[1 := Sample(1, "X", 100.0), 2 := Sample(2, "X", 200.0), 3 := Sample(3, "Y", 50.0)];
            AverageSpeed(db, "X") == Some(150.0) && AverageSpeed(db, "Z") == None
  {
    var db := map[1 := Sample(1, "X", 100.0), 2 := Sample(2, "X", 200.0), 3 := Sample(3, "Y", 50.0)];
    var s := Select(db, ByBrand("X"));
    assert s == map[1 := db[1], 2 := db[2]];
    assert |s| == 2 by { assert s.Keys == {1, 2}; }
    SpeedSumRemove(s, 1);
    var t := s - {1};
    assert t == map[2 := db[2]];
    SpeedSumRemove(t, 2);
    assert t - {2} == map[];
    var z := Select(db, ByBrand("Z"));
    assert z == map[];
  }

  function Sample(id: int, brand: string, speed: real): Vehicle
  {
    Vehicle(id, ZeroVehicle.attributes.(brand := brand, maxSpeed := speed))
  }

  /** The store after inserting `vs` one after another, each under its own id;
      it is defined from the last element so that a prefix is a prefix of the
      loop that performs it. */
  function StoreAll(db: map<int, Vehicle>, vs: seq<Vehicle>): map<int, Vehicle>
  {
    if vs == [] then db
    else
      var last := vs[|vs| - 1];
      StoreAll(db, vs[..|vs| - 1])[last.id := last]
  }

  /** After a batch insert, an element of the batch that no later element
      shares an id with is what its id holds: the later element wins. */
  lemma {:induction false} StoreAllLaterWins(db: map<int, Vehicle>, vs: seq<Vehicle>, i: int)
    requires 0 <= i < |vs|
    requires forall j :: i < j < |vs| ==> vs[j].id != vs[i].id
    ensures vs[i].id in StoreAll(db, vs) && StoreAll(db, vs)[vs[i].id] == vs[i]
  {
    if i < |vs| - 1 {
      StoreAllLaterWins(db, vs[..|vs| - 1], i);
    }
  }

  /** A key no element of the batch carries keeps its entry, or its absence. */
  lemma {:induction false} StoreAllUntouched(db: map<int, Vehicle>, vs: seq<Vehicle>, k: int)
    requires forall j :: 0 <= j < |vs| ==> vs[j].id != k
    ensures k in StoreAll(db, vs) <==> k in db
    ensures k in db ==> StoreAll(db, vs)[k] == db[k]
  {
    if vs != [] {
      StoreAllUntouched(db, vs[..|vs| - 1], k);
    }
  }

  /** A batch insert adds exactly the ids of the batch to the keys. */
  lemma {:induction false} StoreAllKeys(db: map<int, Vehicle>, vs: seq<Vehicle>)
    ensures StoreAll(db, vs).Keys == db.Keys + (set j | 0 <= j < |vs| :: vs[j].id)
  {
    if vs != [] {
      var init := vs[..|vs| - 1];
      StoreAllKeys(db, init);
      var ids := set j | 0 <= j < |vs| :: vs[j].id;
      var initIds := set j | 0 <= j < |init| :: init[j].id;
      assert ids == initIds + {vs[|vs| - 1].id} by {
        forall x | x in ids ensures x in initIds + {vs[|vs| - 1].id} {
          var j :| 0 <= j < |vs| && vs[j].id == x;
          if j < |vs| - 1 { assert init[j].id == x; }
        }
        forall x | x in initIds ensures x in ids {
          var j :| 0 <= j < |init| && init[j].id == x;
          assert vs[j].id == x;
        }
      }
    }
  }

  /** Every entry is stored under the record's own id. */
  ghost predicate KeyedById(db: map<int, Vehicle>)
  {
    forall k :: k in db ==> db[k].id == k
  }

  /** A batch insert keeps every entry under its record's own id. */
  lemma {:induction false} StoreAllKeyedById(db: map<int, Vehicle>, vs: seq<Vehicle>)
    requires KeyedById(db)
    ensures KeyedById(StoreAll(db, vs))
  {
    if vs != [] {
      StoreAllKeyedById(db, vs[..|vs| - 1]);
    }
  }

  /** Inserting a record under a fresh id and then deleting that id gives
      back the store as it was; a lookup in between finds the record. */
  lemma CreateThenDelete(db: map<int, Vehicle>, v: Vehicle)
    requires v.id !in db
    ensures v.id in db[v.id := v] && db[v.id := v][v.id] == v
    ensures db[v.id := v] - {v.id} == db
  {
    assert (db[v.id := v] - {v.id}).Keys == db.Keys;
  }

  /** The record with its maximum speed replaced. */
  function WithMaxSpeed(v: Vehicle, speed: real): (r: Vehicle)
    ensures r.attributes.maxSpeed == speed
    ensures r.id == v.id && r.attributes.(maxSpeed := v.attributes.maxSpeed) == v.attributes
  {
    v.(attributes := v.attributes.(maxSpeed := speed))
  }

  /** The record with its fuel type replaced. */
  function WithFuelType(v: Vehicle, fuelType: string): (r: Vehicle)
    ensures r.attributes.fuelType == fuelType
    ensures r.id == v.id && r.attributes.(fuelType := v.attributes.fuelType) == v.attributes
  {
    v.(attributes := v.attributes.(fuelType := fuelType))
  }
}
