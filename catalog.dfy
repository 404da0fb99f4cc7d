/** The two read-through loaders over the shared cache: `load_cars` (TTL 300 s)
    and `load_profile` (TTL 1800 s). A cached value counts only when it is
    present, fresh and truthy in Python's sense; otherwise the loader reads
    the spreadsheet, builds the value, stores it and returns it. */
module Catalog {
  import opened Wrappers
  import opened TtlCache
  import opened Sheet
  import opened Photos
  import opened Cars

  const CARS_KEY: string := "cars"
  const PROFILE_KEY: string := "profile"
  const CARS_SHEET: string := "cars"
  const PROFILE_SHEET: string := "profile"
  const HERO_IMAGE: string := "hero_image"
  const CACHE_TTL_CARS: int := 300
  const CACHE_TTL_META: int := 1800

  /** What the loaders store: the car list under "cars", the profile record
      under "profile". */
  datatype Payload = CarList(cars: seq<Record>) | Profile(profile: Record)

  /** Python's truth value of the stored data (`if cached:`): an empty list
      or an empty dict is false. */
  predicate Truthy(p: Payload) {
    match p
    case CarList(cars) => cars != []
    case Profile(profile) => profile != map[]
  }

  /** A cache read the loader serves from. */
  predicate Hit(cached: Option<Payload>) {
    cached.Some? && Truthy(cached.value)
  }

  /** The services outside the process, as they answer during one request:
      the spreadsheet's `values().get` for a sheet name (None when the call
      raises; a reply without values is the empty list), the storage
      provider's listing, and the random generator behind the shuffle. */
  datatype Services = Services(
    sheet: string -> Option<seq<seq<string>>>,
    drive: Drive,
    draw: nat -> nat)

  /** A car the list may hold: all car fields, a non-blank trimmed id, and a
      status other than "hidden". */
  predicate ListedCar(c: Record) {
    c.Keys == CAR_KEYS && HasListedId(c) && c[STATUS] != Str(HIDDEN)
  }

  /** Only the loaders write the cache, each under its own key, so the cached
      car list, fresh or expired, holds only listed cars. */
  predicate Shaped(cache: Cache<Payload>)
    reads cache
  {
    && (CARS_KEY in cache.entries ==>
          cache.entries[CARS_KEY].data.CarList?
          && forall c :: c in cache.entries[CARS_KEY].data.cars ==> ListedCar(c))
    && (PROFILE_KEY in cache.entries ==> cache.entries[PROFILE_KEY].data.Profile?)
  }

  /** `load_cars()`. The cache is read at clock reading `now`; on a miss the
      spreadsheet is read, the list is built, shuffled and stored with the
      clock reading `storedAt` taken after the fetch. A failed read raises
      and stores nothing. */
  method LoadCars(cache: Cache<Payload>, now: real, storedAt: real, svc: Services)
    returns (r: Result<seq<Record>>)
    requires Shaped(cache)
    modifies cache
    ensures Shaped(cache)
    // a fresh, non-empty cached list is served as it is
    ensures Hit(old(cache.Get(CARS_KEY, CACHE_TTL_CARS, now))) ==>
              r == Success(old(cache.entries[CARS_KEY].data.cars)) && cache.entries == old(cache.entries)
    // a failed spreadsheet read is an error and leaves the cache as it was
    ensures r.Failure? <==> !Hit(old(cache.Get(CARS_KEY, CACHE_TTL_CARS, now))) && svc.sheet(CARS_SHEET).None?
    ensures r.Failure? ==> r.error == UpstreamFailure && cache.entries == old(cache.entries)
    // otherwise the listed records, in some order, replace the "cars" entry
    ensures !Hit(old(cache.Get(CARS_KEY, CACHE_TTL_CARS, now))) && r.Success? ==>
              && multiset(r.value) == multiset(Listed(Records(svc.sheet(CARS_SHEET).value)))
              && cache.entries == old(cache.entries)[CARS_KEY := Entry(CarList(r.value), storedAt)]
    // what is returned is what the cache now holds, and it is all listed cars
    ensures r.Success? ==> CARS_KEY in cache.entries && cache.entries[CARS_KEY].data == CarList(r.value)
    // whether served from the cache or freshly built, no hidden or id-less car
    ensures r.Success? ==> forall c :: c in r.value ==> ListedCar(c)
  {
    var cached := cache.Get(CARS_KEY, CACHE_TTL_CARS, now);
    if cached.Some? && Truthy(cached.value) {
      return Success(cached.value.cars);
    }
    var reply := svc.sheet(CARS_SHEET);
    if reply.None? {
      return Failure(UpstreamFailure);
    }
    var rows := ReadSheet(reply.value);
    var cars := BuildCars(rows);
    var shuffled := Shuffle(cars, svc.draw);
    assert forall c :: c in shuffled ==> ListedCar(c) by {
      forall c | c in shuffled ensures ListedCar(c) {
        assert c in multiset(shuffled);
      }
    }
    cache.Set(CARS_KEY, CarList(shuffled), storedAt);
    assert cache.entries[CARS_KEY].data.cars == shuffled;
    r := Success(shuffled);
  }

  /** After a miss that stored a non-empty list at `storedAt`, every read up to
      300 seconds later is a hit serving that same list in that same order; an
      empty list is never served from the cache. */
  lemma CarsServedWithinWindow(cache: Cache<Payload>, cars: seq<Record>, storedAt: real, t: real)
    requires CARS_KEY in cache.entries && cache.entries[CARS_KEY] == Entry(CarList(cars), storedAt)
    ensures Hit(cache.Get(CARS_KEY, CACHE_TTL_CARS, t)) <==> cars != [] && t - storedAt <= CACHE_TTL_CARS as real
    ensures Hit(cache.Get(CARS_KEY, CACHE_TTL_CARS, t)) ==> cache.Get(CARS_KEY, CACHE_TTL_CARS, t).value == CarList(cars)
  {
  }

  /** Every value of a decoded row as a string field. */
  function StrFields(row: Row): (p: Record)
    ensures p.Keys == row.Keys
    ensures forall k :: k in row ==> p[k] == Str(row[k])
  {
    map k | k in row :: Str(row[k])
  }

  /** The first record of the profile sheet, or {} when it has none. */
  function FirstRecord(values: seq<seq<string>>): Row {
    var rows := Records(values);
    if rows == [] then map[] else rows[0]
  }

  /** The hero image field: the first URL of the hero folder, or None. */
  function HeroValue(drive: Drive): Value {
    var ps := FolderPhotos(Some(HERO_FOLDER_ID), drive);
    if ps.Success? && ps.value != [] then Str(ps.value[0].url) else Null
  }

  /** The profile `load_profile` builds on a miss: the first record of the
      sheet (or {}) with the hero image attached. */
  function ProfileRecord(values: seq<seq<string>>, drive: Drive): Record {
    StrFields(FirstRecord(values))[HERO_IMAGE := HeroValue(drive)]
  }

  /** The built profile holds every field of the first sheet row as text, plus
      `hero_image`, which replaces a sheet column of that name. It is never
      empty, so it is never mistaken for a miss. */
  lemma ProfileRecordSpec(values: seq<seq<string>>, drive: Drive)
    ensures var first, p := FirstRecord(values), ProfileRecord(values, drive);
            && p.Keys == first.Keys + {HERO_IMAGE}
            && p[HERO_IMAGE] == HeroValue(drive)
            && (forall k :: k in first && k != HERO_IMAGE ==> p[k] == Str(first[k]))
            && Truthy(Profile(p))
  {
    assert HERO_IMAGE in ProfileRecord(values, drive);
  }

  /** `load_profile()`. On a miss the first data row of the "profile" sheet
      (or {}) gets a `hero_image` field and is stored with the clock reading
      `storedAt`. The stored dict always has that field, so it is never
      falsy and is served from the cache for the whole TTL window. */
  method LoadProfile(cache: Cache<Payload>, now: real, storedAt: real, svc: Services)
    returns (r: Result<Record>)
    requires Shaped(cache)
    modifies cache
    ensures Shaped(cache)
    ensures Hit(old(cache.Get(PROFILE_KEY, CACHE_TTL_META, now))) ==>
              r == Success(old(cache.entries[PROFILE_KEY].data.profile)) && cache.entries == old(cache.entries)
    ensures r.Failure? <==> !Hit(old(cache.Get(PROFILE_KEY, CACHE_TTL_META, now))) && svc.sheet(PROFILE_SHEET).None?
    ensures r.Failure? ==> r.error == UpstreamFailure && cache.entries == old(cache.entries)
    ensures !Hit(old(cache.Get(PROFILE_KEY, CACHE_TTL_META, now))) && r.Success? ==>
              && r.value == ProfileRecord(svc.sheet(PROFILE_SHEET).value, svc.drive)
              && cache.entries == old(cache.entries)[PROFILE_KEY := Entry(Profile(r.value), storedAt)]
              && forall t: real :: t - storedAt <= CACHE_TTL_META as real ==>
                   Hit(cache.Get(PROFILE_KEY, CACHE_TTL_META, t))
  {
    var cached := cache.Get(PROFILE_KEY, CACHE_TTL_META, now);
    if cached.Some? && Truthy(cached.value) {
      return Success(cached.value.profile);
    }
    var reply := svc.sheet(PROFILE_SHEET);
    if reply.None? {
      return Failure(UpstreamFailure);
    }
    var rows := ReadSheet(reply.value);
    var profile := if rows != [] then StrFields(rows[0]) else map[];
    var hero := LoadHeroImage(svc.drive);
    profile := profile[HERO_IMAGE := if hero.Some? then Str(hero.value) else Null];
    assert profile == ProfileRecord(reply.value, svc.drive);
    assert HERO_IMAGE in profile;
    cache.Set(PROFILE_KEY, Profile(profile), storedAt);
    r := Success(profile);
  }
}
