/** The two car endpoints. `/api/cars` turns every loaded car into a list
    entry whose `photos_folder_id` is replaced by a `cover_image`;
    `/api/cars/{car_id}` finds the first car with that id and adds the full
    photo list. Both work on copies: the cached records are never changed. */
module Api {
  import opened Wrappers
  import opened TtlCache
  import opened Photos
  import opened Cars
  import opened Catalog
  import opened Sheet

  const COVER_IMAGE: string := "cover_image"
  const PHOTOS: string := "photos"

  /** `car.get("photos_folder_id")` handed to `load_photos`: the folder id
      when the field holds text, nothing otherwise. */
  function FolderOf(car: Record): Option<string> {
    if PHOTOS_FOLDER in car && car[PHOTOS_FOLDER].Str? then Some(car[PHOTOS_FOLDER].s) else None
  }

  /** The URL of the first photo, or null when there is none. */
  function Cover(photos: seq<Photo>): Value {
    if photos == [] then Null else Str(photos[0].url)
  }

  /** The list entry of a car: a copy with `cover_image` added and
      `photos_folder_id` dropped. */
  function ListEntry(car: Record, photos: seq<Photo>): Record {
    (car - {PHOTOS_FOLDER})[COVER_IMAGE := Cover(photos)]
  }

  /** The response of `/api/cars` for the loaded cars: the entries in the
      loaded order, or the failure of the first folder listing that raises. */
  function CarsView(cars: seq<Record>, drive: Drive): (r: Result<seq<Record>>)
    ensures r.Success? ==> |r.value| == |cars|
  {
    if cars == [] then Success([])
    else
      var init := CarsView(cars[..|cars| - 1], drive);
      var ps := FolderPhotos(FolderOf(cars[|cars| - 1]), drive);
      if init.Failure? then init
      else if ps.Failure? then Failure(ps.error)
      else Success(init.value + [ListEntry(cars[|cars| - 1], ps.value)])
  }

  /** A list entry keeps every field of its car except `photos_folder_id`,
      and its `cover_image` is the URL of the first image in the car's
      folder, or null. */
  predicate IsListEntry(car: Record, entry: Record, drive: Drive)
    requires FolderPhotos(FolderOf(car), drive).Success?
  {
    && entry.Keys == car.Keys - {PHOTOS_FOLDER} + {COVER_IMAGE}
    && entry[COVER_IMAGE] == Cover(FolderPhotos(FolderOf(car), drive).value)
    && forall k :: k in car && k != PHOTOS_FOLDER && k != COVER_IMAGE ==> entry[k] == car[k]
  }

  /** The list fails exactly when some car's folder listing fails; otherwise
      it has one entry per car, in order, each built from its own car. */
  lemma {:induction false} CarsViewSpec(cars: seq<Record>, drive: Drive)
    ensures CarsView(cars, drive).Failure? <==>
              exists i :: 0 <= i < |cars| && FolderPhotos(FolderOf(cars[i]), drive).Failure?
    ensures CarsView(cars, drive).Failure? ==> CarsView(cars, drive).error == UpstreamFailure
    ensures CarsView(cars, drive).Success? ==>
              var entries := CarsView(cars, drive).value;
              |entries| == |cars|
              && forall i :: 0 <= i < |cars| ==>
                   FolderPhotos(FolderOf(cars[i]), drive).Success? && IsListEntry(cars[i], entries[i], drive)
  {
    if cars != [] {
      var n := |cars| - 1;
      var init := cars[..n];
      CarsViewSpec(init, drive);
      if CarsView(init, drive).Failure? {
        var i :| 0 <= i < |init| && FolderPhotos(FolderOf(init[i]), drive).Failure?;
        assert cars[i] == init[i];
      } else if CarsView(cars, drive).Success? {
        var entries := CarsView(cars, drive).value;
        forall i | 0 <= i < |cars|
          ensures FolderPhotos(FolderOf(cars[i]), drive).Success? && IsListEntry(cars[i], entries[i], drive)
        {
          if i < n {
            assert cars[i] == init[i];
          }
        }
      } else {
        assert FolderPhotos(FolderOf(cars[n]), drive).Failure?;
      }
    }
  }

  /** The loop of `api_cars` over the loaded cars. */
  method ListView(cars: seq<Record>, drive: Drive) returns (r: Result<seq<Record>>)
    ensures r == CarsView(cars, drive)
    ensures r.Failure? <==> exists i :: 0 <= i < |cars| && FolderPhotos(FolderOf(cars[i]), drive).Failure?
    ensures r.Success? ==> |r.value| == |cars| && forall e :: e in r.value ==> PHOTOS_FOLDER !in e && COVER_IMAGE in e
  {
    var result: seq<Record> := [];
    for i := 0 to |cars|
      invariant CarsView(cars[..i], drive) == Success(result)
    {
      assert cars[..i + 1][..i] == cars[..i];
      var car := cars[i];
      var photos := LoadPhotos(FolderOf(car), drive);
      if photos.Failure? {
        CarsViewSpec(cars, drive);
        assert FolderPhotos(FolderOf(cars[i]), drive).Failure?;
        return Failure(photos.error);
      }
      var entry := (car - {PHOTOS_FOLDER})[COVER_IMAGE := if photos.value != [] then Str(photos.value[0].url) else Null];
      result := result + [entry];
    }
    assert cars[..|cars|] == cars;
    CarsViewSpec(cars, drive);
    r := Success(result);
  }

  /** `c["id"] == car_id`. */
  predicate Matches(car: Record, carId: string) {
    ID in car && car[ID] == Str(carId)
  }

  /** `next(c for c in cars if c["id"] == car_id)`: the position of the first
      car with that id, or None when no car has it. */
  function FirstMatch(cars: seq<Record>, carId: string): (r: Option<nat>)
    ensures r.None? <==> forall i :: 0 <= i < |cars| ==> !Matches(cars[i], carId)
    ensures r.Some? ==> r.value < |cars| && Matches(cars[r.value], carId)
                        && forall j :: 0 <= j < r.value ==> !Matches(cars[j], carId)
  {
    if cars == [] then None
    else if Matches(cars[0], carId) then Some(0)
    else
      var rest := FirstMatch(cars[1..], carId);
      assert forall i :: 1 <= i < |cars| ==> cars[i] == cars[1..][i - 1];
      if rest.None? then None else Some(rest.value + 1)
  }

  /** The detail entry of a car: a copy with the URLs of its photos, the first
      of them as `cover_image`, and without `photos_folder_id`. */
  function DetailEntry(car: Record, photos: seq<Photo>): Record {
    var urls := seq(|photos|, i requires 0 <= i < |photos| => photos[i].url);
    (car - {PHOTOS_FOLDER})[PHOTOS := StrList(urls)][COVER_IMAGE := if urls == [] then Null else Str(urls[0])]
  }

  /** The response of `/api/cars/{car_id}` for the loaded cars: 404 when no
      car has the id, the folder listing's failure, or the detail entry of the
      first car with the id. */
  function CarDetail(cars: seq<Record>, carId: string, drive: Drive): Result<Record> {
    match FirstMatch(cars, carId)
    case None => Failure(NotFound)
    case Some(i) =>
      var ps := FolderPhotos(FolderOf(cars[i]), drive);
      if ps.Failure? then Failure(ps.error) else Success(DetailEntry(cars[i], ps.value))
  }

  /** Entry `i` of a successful list is the list entry of car `i`. */
  lemma {:induction false} CarsViewAt(cars: seq<Record>, drive: Drive, i: nat)
    requires CarsView(cars, drive).Success? && i < |cars|
    ensures FolderPhotos(FolderOf(cars[i]), drive).Success?
    ensures CarsView(cars, drive).value[i] == ListEntry(cars[i], FolderPhotos(FolderOf(cars[i]), drive).value)
  {
    var n := |cars| - 1;
    if i < n {
      CarsViewAt(cars[..n], drive, i);
      assert cars[..n][i] == cars[i];
    }
  }

  /** Dropping `photos` from a detail entry leaves the list entry. */
  lemma DetailMinusPhotos(car: Record, photos: seq<Photo>)
    requires PHOTOS !in car
    ensures DetailEntry(car, photos) - {PHOTOS} == ListEntry(car, photos)
  {
    var d, e := DetailEntry(car, photos) - {PHOTOS}, ListEntry(car, photos);
    assert d.Keys == e.Keys;
    forall k | k in d ensures d[k] == e[k] {
    }
  }

  /** The detail of a car agrees with its list entry: the same `cover_image`,
      and the same fields apart from the added `photos`. */
  lemma DetailAgreesWithList(cars: seq<Record>, carId: string, drive: Drive)
    requires CarsView(cars, drive).Success? && FirstMatch(cars, carId).Some?
    requires forall c :: c in cars ==> PHOTOS !in c
    ensures CarDetail(cars, carId, drive).Success?
    ensures var i, d := FirstMatch(cars, carId).value, CarDetail(cars, carId, drive).value;
            d - {PHOTOS} == CarsView(cars, drive).value[i] && d[COVER_IMAGE] == CarsView(cars, drive).value[i][COVER_IMAGE]
  {
    var i := FirstMatch(cars, carId).value;
    CarsViewAt(cars, drive, i);
    assert cars[i] in cars;
    DetailMinusPhotos(cars[i], FolderPhotos(FolderOf(cars[i]), drive).value);
  }

  /** The rest of `api_car_detail` once the cars are loaded. */
  method DetailView(cars: seq<Record>, carId: string, drive: Drive) returns (r: Result<Record>)
    ensures r == CarDetail(cars, carId, drive)
    ensures r == Failure(NotFound) <==> forall i :: 0 <= i < |cars| ==> !Matches(cars[i], carId)
    ensures r.Success? ==>
              && r.value[ID] == Str(carId) && PHOTOS_FOLDER !in r.value
              && r.value[PHOTOS].StrList?
              && var urls := r.value[PHOTOS].items;
                 (forall u :: u in urls ==> exists id :: u == PhotoUrl(id))
                 && r.value[COVER_IMAGE] == if urls == [] then Null else Str(urls[0])
  {
    var found := FirstMatch(cars, carId);
    if found.None? {
      return Failure(NotFound);
    }
    var base := cars[found.value];
    var photos := LoadPhotos(FolderOf(base), drive);
    if photos.Failure? {
      return Failure(photos.error);
    }
    var urls := seq(|photos.value|, i requires 0 <= i < |photos.value| => photos.value[i].url);
    forall u | u in urls ensures exists id :: u == PhotoUrl(id) {
      var k :| 0 <= k < |urls| && urls[k] == u;
      assert photos.value[k] in photos.value;
    }
    var car := (base - {PHOTOS_FOLDER})[PHOTOS := StrList(urls)];
    car := car[COVER_IMAGE := if urls != [] then Str(urls[0]) else Null];
    r := Success(car);
  }

  /** `GET /api/cars`: load the cars (through the cache) and list them. The
      request fails when the spreadsheet cannot be read on a miss; otherwise
      the response is the list view of the cars the cache now holds. */
  method ApiCars(cache: Cache<Payload>, now: real, storedAt: real, svc: Services)
    returns (r: Result<seq<Record>>)
    requires Shaped(cache)
    modifies cache
    ensures Shaped(cache)
    ensures !Hit(old(cache.Get(CARS_KEY, CACHE_TTL_CARS, now))) && svc.sheet(CARS_SHEET).None? ==>
              r == Failure(UpstreamFailure) && cache.entries == old(cache.entries)
    ensures Hit(old(cache.Get(CARS_KEY, CACHE_TTL_CARS, now))) || svc.sheet(CARS_SHEET).Some? ==>
              CARS_KEY in cache.entries && r == CarsView(cache.entries[CARS_KEY].data.cars, svc.drive)
    // on a hit the cache, and so the cached cars, are left exactly as they were
    ensures Hit(old(cache.Get(CARS_KEY, CACHE_TTL_CARS, now))) ==>
              cache.entries == old(cache.entries)
              && r == CarsView(old(cache.entries[CARS_KEY].data.cars), svc.drive)
    // on a miss only the "cars" entry changes: a permutation of the listed cars
    ensures !Hit(old(cache.Get(CARS_KEY, CACHE_TTL_CARS, now))) && svc.sheet(CARS_SHEET).Some? ==>
              && CARS_KEY in cache.entries
              && cache.entries == old(cache.entries)[CARS_KEY := Entry(cache.entries[CARS_KEY].data, storedAt)]
              && multiset(cache.entries[CARS_KEY].data.cars) == multiset(Listed(Records(svc.sheet(CARS_SHEET).value)))
  {
    var cars := LoadCars(cache, now, storedAt, svc);
    if cars.Failure? {
      return Failure(cars.error);
    }
    r := ListView(cars.value, svc.drive);
  }

  /** `GET /api/cars/{car_id}`: load the cars (through the cache) and show the
      first one with that id. Not found is reported only when the cars were
      loaded and none has the id. */
  method ApiCarDetail(cache: Cache<Payload>, carId: string, now: real, storedAt: real, svc: Services)
    returns (r: Result<Record>)
    requires Shaped(cache)
    modifies cache
    ensures Shaped(cache)
    ensures !Hit(old(cache.Get(CARS_KEY, CACHE_TTL_CARS, now))) && svc.sheet(CARS_SHEET).None? ==>
              r == Failure(UpstreamFailure) && cache.entries == old(cache.entries)
    ensures Hit(old(cache.Get(CARS_KEY, CACHE_TTL_CARS, now))) || svc.sheet(CARS_SHEET).Some? ==>
              CARS_KEY in cache.entries && r == CarDetail(cache.entries[CARS_KEY].data.cars, carId, svc.drive)
    // on a hit the cache, and so the cached cars, are left exactly as they were
    ensures Hit(old(cache.Get(CARS_KEY, CACHE_TTL_CARS, now))) ==>
              cache.entries == old(cache.entries)
              && r == CarDetail(old(cache.entries[CARS_KEY].data.cars), carId, svc.drive)
    // on a miss only the "cars" entry changes: a permutation of the listed cars
    ensures !Hit(old(cache.Get(CARS_KEY, CACHE_TTL_CARS, now))) && svc.sheet(CARS_SHEET).Some? ==>
              && CARS_KEY in cache.entries
              && cache.entries == old(cache.entries)[CARS_KEY := Entry(cache.entries[CARS_KEY].data, storedAt)]
              && multiset(cache.entries[CARS_KEY].data.cars) == multiset(Listed(Records(svc.sheet(CARS_SHEET).value)))
  {
    var cars := LoadCars(cache, now, storedAt, svc);
    if cars.Failure? {
      return Failure(cars.error);
    }
    r := DetailView(cars.value, carId, svc.drive);
  }
}
