/**
 * The cars slice of the website's global store (website/src/store/carsStore.ts).
 * Cars arrive as JSON objects; a car already in the list (same `InstanceId`) is
 * deep-merged with the incoming one, any other car is appended.
 */
module Cars {
  import opened Wrappers
  import opened Strings
  import opened KeyedList

  /** JSON values as a car record holds them. Objects map each own key to its value. */
  datatype Json =
    | Null
    | Bool(b: bool)
    | Num(n: int)
    | Str(s: string)
    | Arr(items: seq<Json>)
    | Obj(fields: map<string, Json>)

  type Car = map<string, Json>

  /** JavaScript truthiness; `None` is `undefined`. */
  predicate Truthy(v: Option<Json>) {
    match v
    case None => false
    case Some(Null) => false
    case Some(Bool(b)) => b
    case Some(Num(n)) => n != 0
    case Some(Str(s)) => s != ""
    case Some(Arr(_)) => true
    case Some(Obj(_)) => true
  }

  /** The own entries of a sequence: its indices, written in decimal, to its elements. */
  function IndexEntries(items: seq<Json>): (m: map<string, Json>)
    ensures |m.Keys| <= |items|
    decreases |items|
  {
    if items == [] then map[]
    else IndexEntries(items[..|items| - 1])[NatToString(|items| - 1) := items[|items| - 1]]
  }

  function Chars(s: string): (r: seq<Json>)
    ensures |r| == |s|
    ensures forall i :: 0 <= i < |s| ==> r[i] == Str([s[i]])
  {
    seq(|s|, i requires 0 <= i < |s| => Str([s[i]]))
  }

  /** `{ ...v }`: objects copy their entries, arrays and strings give their indices, the rest nothing. */
  function Spread(v: Json): map<string, Json> {
    match v
    case Obj(fields) => fields
    case Arr(items) => IndexEntries(items)
    case Str(s) => IndexEntries(Chars(s))
    case _ => map[]
  }

  /** `result[key] || {}`: the value held under `key` when it is truthy, otherwise an empty object. */
  function BaseFor(result: map<string, Json>, key: string): Json {
    if key in result && Truthy(Some(result[key])) then result[key] else Obj(map[])
  }

  /**
   * `mergeDeep(target, source)` for an object `source`: a copy of `target` in which
   * each key of `source` takes the source's value, except that a plain-object value
   * (not an array, not null) is merged recursively into what the copy holds there.
   */
  function MergeDeep(target: Json, source: Json): (r: map<string, Json>)
    requires source.Obj?
    ensures r.Keys == Spread(target).Keys + source.fields.Keys
    decreases source
  {
    var result := Spread(target);
    map key | key in result.Keys + source.fields.Keys ::
      if key !in source.fields then result[key]
      else
        var value := source.fields[key];
        if value.Obj? then Obj(MergeDeep(BaseFor(result, key), value)) else value
  }

  // ----- Properties of mergeDeep -----

  /**
   * Each key of the source wins: a scalar, null or array replaces, a plain object is
   * merged into the old value; a key the source lacks keeps the target's value.
   */
  lemma MergeDeepEntries(target: Json, source: Json, key: string)
    requires source.Obj?
    ensures var r := MergeDeep(target, source);
      && (key in source.fields && !source.fields[key].Obj? ==> r[key] == source.fields[key])
      && (key in source.fields && source.fields[key].Obj? ==>
            r[key] == Obj(MergeDeep(BaseFor(Spread(target), key), source.fields[key])))
      && (key !in source.fields && key in Spread(target) ==> r[key] == Spread(target)[key])
  {
  }

  /** Merging an empty object copies the target. */
  lemma MergeDeepEmpty(target: Json)
    ensures MergeDeep(target, Obj(map[])) == Spread(target)
  {
  }

  /** Merging a value into itself gives it back. */
  lemma {:induction false} MergeDeepSelf(v: Json)
    requires v.Obj?
    ensures MergeDeep(v, v) == v.fields
    decreases v
  {
    var r := MergeDeep(v, v);
    forall key | key in v.fields
      ensures r[key] == v.fields[key]
    {
      var w := v.fields[key];
      if w.Obj? {
        MergeDeepSelf(w);
      }
    }
  }

  /** Merging the same source twice is merging it once. */
  lemma {:induction false} MergeDeepIdempotent(target: Json, source: Json)
    requires source.Obj?
    ensures MergeDeep(Obj(MergeDeep(target, source)), source) == MergeDeep(target, source)
    decreases source
  {
    var once := MergeDeep(target, source);
    var twice := MergeDeep(Obj(once), source);
    assert Spread(Obj(once)) == once;
    assert twice.Keys == once.Keys;
    forall key | key in once
      ensures twice[key] == once[key]
    {
      if key in source.fields && source.fields[key].Obj? {
        var value := source.fields[key];
        var base := BaseFor(Spread(target), key);
        MergeDeepIdempotent(base, value);
        assert once[key] == Obj(MergeDeep(base, value));
        assert BaseFor(once, key) == once[key];
      }
    }
  }

  // ----- The cars slice -----

  /** `c.InstanceId`; `None` when the car has no such key. */
  function CarKey(c: Car): Option<Json> {
    if "InstanceId" in c then Some(c["InstanceId"]) else None
  }

  /** One step of `ADD_CARS`: merge into the car with the same `InstanceId`, or push. */
  function MergeUpsert(cars: seq<Car>, carToAdd: Car): seq<Car> {
    var index := FindIndex(cars, CarKey, CarKey(carToAdd));
    if index == -1 then cars + [carToAdd]
    else cars[index := MergeDeep(Obj(cars[index]), Obj(carToAdd))]
  }

  /** `ADD_CARS`' `forEach` over the given cars. */
  function MergeAll(cars: seq<Car>, carsToAdd: seq<Car>): seq<Car>
    decreases |carsToAdd|
  {
    if carsToAdd == [] then cars
    else MergeUpsert(MergeAll(cars, carsToAdd[..|carsToAdd| - 1]), carsToAdd[|carsToAdd| - 1])
  }

  /** Merging a car into one with the same `InstanceId` keeps that id. */
  lemma MergeKeepsKey(existing: Car, carToAdd: Car)
    requires CarKey(existing) == CarKey(carToAdd)
    ensures CarKey(MergeDeep(Obj(existing), Obj(carToAdd))) == CarKey(carToAdd)
  {
    var k := "InstanceId";
    if k in carToAdd && carToAdd[k].Obj? {
      MergeDeepSelf(carToAdd[k]);
    }
  }

  /**
   * A car with a new `InstanceId` is appended; otherwise the list keeps its length and
   * the car with that id becomes the merge of the old and the new one. Other cars are unchanged.
   */
  lemma MergeUpsertLookup(cars: seq<Car>, carToAdd: Car, k: Option<Json>)
    ensures var r := MergeUpsert(cars, carToAdd);
      Lookup(r, CarKey, k) ==
        if k != CarKey(carToAdd) then Lookup(cars, CarKey, k)
        else if Lookup(cars, CarKey, k).None? then Some(carToAdd)
        else Some(MergeDeep(Obj(Lookup(cars, CarKey, k).value), Obj(carToAdd)))
  {
    var r := MergeUpsert(cars, carToAdd);
    var i := FindIndex(cars, CarKey, CarKey(carToAdd));
    var a := FindIndex(cars, CarKey, k);
    if i != -1 {
      MergeKeepsKey(cars[i], carToAdd);
    }
    if k == CarKey(carToAdd) {
      FindIndexAt(r, CarKey, k, if i == -1 then |cars| else i);
    } else if a == -1 {
      FindIndexAbsent(r, CarKey, k);
    } else {
      FindIndexAt(r, CarKey, k, a);
    }
  }

  /** `ADD_CARS` keeps `InstanceId`s unique. */
  lemma MergeUpsertKeepsUnique(cars: seq<Car>, carToAdd: Car)
    requires KeysUnique(cars, CarKey)
    ensures KeysUnique(MergeUpsert(cars, carToAdd), CarKey)
  {
    var i := FindIndex(cars, CarKey, CarKey(carToAdd));
    if i != -1 {
      MergeKeepsKey(cars[i], carToAdd);
    }
  }

  lemma {:induction false} MergeAllKeepsUnique(cars: seq<Car>, carsToAdd: seq<Car>)
    requires KeysUnique(cars, CarKey)
    ensures KeysUnique(MergeAll(cars, carsToAdd), CarKey)
    decreases |carsToAdd|
  {
    if carsToAdd != [] {
      MergeAllKeepsUnique(cars, carsToAdd[..|carsToAdd| - 1]);
      MergeUpsertKeepsUnique(MergeAll(cars, carsToAdd[..|carsToAdd| - 1]), carsToAdd[|carsToAdd| - 1]);
    }
  }

  class CarsStore {
    var cars: seq<Car>
    var isLoading: bool
    var refresh: bool
    var offlineCars: bool

    /** The initial slice: no cars, loading, no refresh requested, online cars. */
    constructor ()
      ensures cars == [] && isLoading && !refresh && !offlineCars
    {
      cars := [];
      isLoading := true;
      refresh := false;
      offlineCars := false;
    }

    /**
     * `ADD_CARS`: on a copy of the list, each car is merged into the one with its
     * `InstanceId` or pushed. Each iteration clears `refresh`, so it stays set only
     * when no car was given.
     */
    method AddCars(carsToAdd: seq<Car>)
      modifies this
      ensures cars == MergeAll(old(cars), carsToAdd)
      ensures refresh == (old(refresh) && carsToAdd == [])
      ensures isLoading == old(isLoading) && offlineCars == old(offlineCars)
      ensures KeysUnique(old(cars), CarKey) ==> KeysUnique(cars, CarKey)
    {
      var updatedCars := cars;
      var i := 0;
      while i < |carsToAdd|
        invariant 0 <= i <= |carsToAdd|
        invariant updatedCars == MergeAll(old(cars), carsToAdd[..i])
        invariant refresh == (old(refresh) && i == 0)
        invariant isLoading == old(isLoading) && offlineCars == old(offlineCars)
        invariant KeysUnique(old(cars), CarKey) ==> KeysUnique(updatedCars, CarKey)
      {
        var carToAdd := carsToAdd[i];
        var index := FindIndex(updatedCars, CarKey, CarKey(carToAdd));
        if KeysUnique(old(cars), CarKey) {
          MergeUpsertKeepsUnique(updatedCars, carToAdd);
        }
        if index == -1 {
          updatedCars := updatedCars + [carToAdd];
        } else {
          var mergedCar := MergeDeep(Obj(updatedCars[index]), Obj(carToAdd));
          updatedCars := updatedCars[index := mergedCar];
        }
        refresh := false;
        assert carsToAdd[..i + 1][..i] == carsToAdd[..i];
        i := i + 1;
      }
      assert carsToAdd[..|carsToAdd|] == carsToAdd;
      cars := updatedCars;
    }

    /** `DELETE_CAR`: keep the cars whose `InstanceId` is not the given one. */
    method DeleteCar(instanceId: string)
      modifies this
      ensures cars == RemoveKeys(old(cars), CarKey, [Some(Str(instanceId))])
      ensures isLoading == old(isLoading) && refresh == old(refresh) && offlineCars == old(offlineCars)
    {
      cars := RemoveKeys(cars, CarKey, [Some(Str(instanceId))]);
    }

    /** `CARS_IS_LOADING`. */
    method SetIsLoading(loading: bool)
      modifies this
      ensures isLoading == loading
      ensures cars == old(cars) && refresh == old(refresh) && offlineCars == old(offlineCars)
    {
      isLoading := loading;
    }

    /** `REFRESH_CARS`: request a refresh of the online or the offline cars. */
    method RefreshCars(offline: bool)
      modifies this
      ensures refresh && offlineCars == offline
      ensures cars == old(cars) && isLoading == old(isLoading)
    {
      refresh := true;
      offlineCars := offline;
    }
  }
}
