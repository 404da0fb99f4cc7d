# Car catalogue backend — a verified model

This project models the core of a small web backend for a used-car
catalogue. The catalogue lives in a spreadsheet ("cars" and "profile"
sheets). Photos live in folders of a cloud file store. The backend reads
both, shapes the data, and serves it as JSON. The parts modelled here are:

- **The TTL cache** (`TtlCache`). A process-wide map from a dataset name to
  the stored value and the clock reading at the write. It is modelled as a
  class whose `entries` map `Set` updates in place. The read, `Get`, is a
  function of the key, the reader's TTL and the clock.
- **Sheet decoding** (`Sheet`). The header row becomes the keys of every
  later row. Short rows are padded with "". A repeated header keeps the
  cell of its last column.
- **Text helpers** (`Text`). These are Python's `strip`, `lower`, `endswith`
  and `replace`, plus the two lenient parsers `parse_int` and
  `parse_float`. A parse failure gives "absent", never an error.
- **The photo resolver** (`Photos`). It lists a folder and keeps the
  `.jpg`/`.jpeg`/`.png` files, whatever their case. It maps each file id to
  a public display URL. The hero image is the first photo of a fixed
  folder, and a listing failure there is swallowed.
- **Car building** (`Cars`). Rows with a blank id or the status "hidden" are
  dropped. Each other row becomes a 13-field record. The list is shuffled
  once per load.
- **The read-through loaders** (`Catalog`). `load_cars` uses a 300 s TTL and
  `load_profile` a 1800 s TTL. They include Python's truthiness test on the
  cached value: an empty cached list counts as a miss.
- **The two car endpoints** (`Api`). The list view replaces each car's
  `photos_folder_id` with a `cover_image`. The detail view answers 404 for
  an unknown id and adds the full `photos` list.

Outside services are parameters, bundled in `Catalog.Services`:
- the spreadsheet read, as a function from a sheet name to its values
  (`None` when the call raises);
- the file listing, as a function from a folder id to its files in listing
  order (`None` when the call raises);
- the random source behind the shuffle, as a function `draw`.

The clock is also a parameter. The loaders take two readings, `now` for the
cache lookup and `storedAt` for the write, because the program reads the
clock once before fetching and once after. A raised exception is the
`Failure` case of `Wrappers.Result`. `UpstreamFailure` stands for a raising
service call and `NotFound` for the 404.

A car's status is `r.get("status", "active")` (main.py:207), which uses
"active" only when the row has no `status` key at all. `read_sheet` pads
missing cells with "" (main.py:101), so when the sheet has a status column,
a blank cell gives the status "" (`Cars.StatusCellCopied`).

## Model

| member | source | states |
|---|---|---|
| TtlCache.Cache.constructor | main.py:62 | the process starts with an empty cache |
| TtlCache.Cache.Get | main.py:65-71 | a read returns the stored data exactly when an entry exists and at most `ttl` seconds have passed since it was stored; otherwise absent |
| TtlCache.Cache.Set | main.py:74-78 | a write replaces the entry for the key with the data and the clock reading; afterwards a read of that key hits exactly within the TTL window; every other key reads as before |
| TtlCache.ExpiredStaysExpired | main.py:65-71 | an entry that reads as absent stays absent at every later clock reading |
| TtlCache.LongerTtlStillHits | main.py:65-71 | a read with a longer TTL finds the same data a shorter-TTL read finds |
| Sheet.FieldsKeys | main.py:99-101 | a decoded row's keys are exactly the headers |
| Sheet.FieldsValues | main.py:99-101 | a header holds the row's cell in its last column, or "" past the end of a short row |
| Sheet.ReadSheet | main.py:90-104 | no values give no records; otherwise one record per row after the header, keyed by exactly the headers, holding the row's cells (padded with "") |
| Text.TrimStart | main.py:188 | the result is a suffix of the input; what was cut is all whitespace; the result does not start with whitespace |
| Text.TrimEnd | main.py:188 | the result is a prefix of the input; what was cut is all whitespace; the result does not end with whitespace |
| Text.Strip | main.py:188 | the stripped text is no longer than the input and has no whitespace at either end |
| Text.StripCuts | main.py:188 | the stripped text is a contiguous slice of the input, and everything cut before and after it is whitespace |
| Text.StripEmpty | main.py:188-190 | an id strips to "" exactly when it is all whitespace, so a whitespace-only id drops the row |
| Text.StripIdempotent | main.py:188 | stripping twice is stripping once |
| Text.Lower | main.py:139 | lower-casing keeps the length and maps each character on its own |
| Text.Remove | main.py:118 | `replace(c, "")` leaves no `c` and never lengthens the text |
| Text.RemoveConcat | main.py:118 | removing a character from a concatenation removes it from each part |
| Text.ParseInt | main.py:107-111 | None for a missing value, for text holding an information separator and for text without a digit; a plain digit run reads as its value when it has at most 4300 digits and as None beyond, where `int` raises |
| Text.ParseIntRoundTrip | main.py:107-111 | every integer of at most 4300 digits, written as Python prints it, parses back to itself |
| Text.ParseFloatIgnoresSymbols | main.py:114-120 | `$` and `,` are ignored wherever they stand: removing them first does not change the parsed value |
| Text.PriceWithSymbols | main.py:114-120 | a price written as `$`, digits, `,`, digits reads as the number the digits spell |
| Text.ParseFloat | main.py:114-120 | None for a missing or empty value (`if not v`) and for text without a digit; a negative result only from text holding a minus sign |
| Photos.FolderPhotosSpec | main.py:136-152 | the photos of a listed folder are exactly its image files, in listing order, each with the URL built from its file id |
| Photos.ExtensionCaseIgnored | main.py:139-145 | `.JPG`, `.Jpeg` and `.PNG` files count as images, whatever the stem |
| Photos.LoadPhotos | main.py:126-152 | a missing or empty folder id gives no photos without asking the store; a raising listing fails; otherwise the image files in order, each URL derived from its id |
| Photos.LoadHeroImage | main.py:154-160 | the hero is the URL of the first image file in the hero folder; absent when there is none or when the listing raises, and never a failure |
| Cars.BuildCar | main.py:195-209 | every built record has exactly the thirteen car fields |
| Cars.BuildCarFields | main.py:188-207 | the built status is the row's status, or "active" only when the row has no status key; the id is the row's id stripped |
| Cars.BuildCarListed | main.py:187-193 | a row that passes both tests gives a record with a non-blank trimmed id and a status other than "hidden" |
| Cars.ListedSpec | main.py:187-209 | every listed record comes from a row that passes both tests, and none has a blank id or the status "hidden" |
| Cars.StatusCellCopied | main.py:207 | with a status column in the sheet, a record's status is that row's cell, so a blank cell gives "" and not "active" |
| Cars.BuildCars | main.py:185-209 | the loop builds the records of the passing rows in row order, at most one per row, none hidden and none without an id |
| Cars.Shuffle | main.py:211 | the shuffled list holds the same records, each as often, in some order |
| Catalog.LoadCars | main.py:179-213 | a fresh non-empty cached list is served unchanged; an empty or expired one is a miss; a failed sheet read fails and caches nothing; on a miss the result is a permutation of the listed cars and replaces the cache entry; no returned car is hidden or lacks an id |
| Catalog.CarsServedWithinWindow | main.py:180-182 | a stored non-empty list is served, in the same order, for 300 s after its store; an empty list never is |
| Catalog.ProfileRecordSpec | main.py:171-174 | the built profile holds every field of the first sheet row (or none), plus `hero_image`, the hero URL or null, which overrides a sheet column of that name; it is never empty |
| Catalog.LoadProfile | main.py:166-177 | a fresh non-empty cached profile is served unchanged; a failed sheet read fails and caches nothing; on a miss the built profile is returned, replaces the cache entry, and is a hit for the whole 1800 s window |
| Api.CarsView | main.py:237-246 | a successful list has one entry per loaded car |
| Api.CarsViewSpec | main.py:237-246 | the list fails exactly when some car's folder listing raises; otherwise entry i keeps every field of car i except `photos_folder_id` and adds its first image URL (or null) as `cover_image` |
| Api.ListView | main.py:237-246 | the loop computes the list view; no entry has `photos_folder_id` and every entry has `cover_image` |
| Api.FirstMatch | main.py:254-257 | absent exactly when no car has the id; otherwise the first position of a car with that id |
| Api.DetailAgreesWithList | main.py:259-264 | a car's detail is its list entry plus the `photos` field, with the same `cover_image` |
| Api.DetailView | main.py:254-266 | 404 exactly when no car has the id; otherwise the car with that id, without `photos_folder_id`, with its photo URLs and the first of them (or null) as cover |
| Api.ApiCars | main.py:231-246 | a failed sheet read on a miss fails the request and leaves the cache alone; otherwise the response is the list view of the cars the cache now holds, which fails when any car's photo listing raises; on a hit the cache is unchanged, on a miss only the "cars" entry is replaced, by a permutation of the listed cars |
| Api.ApiCarDetail | main.py:250-266 | a failed sheet read on a miss fails the request and leaves the cache alone; otherwise the response is the detail of the first cached car with the id, 404 when none has it, or a failure when that car's photo listing raises; on a hit the cache is unchanged, on a miss only the "cars" entry is replaced, by a permutation of the listed cars |

## Left out

- The spreadsheet and file-store clients, credentials, the web framework,
  CORS, `/health` and `/api/profile`: these are configuration and plumbing
  around the modelled functions. `/api/profile` only returns `load_profile()`.
- `append_user_event` and the users sheet: a fire-and-forget write whose
  failures are swallowed; it never changes a response.
- Logging (`print`) and concurrency between requests: requests are modelled
  one at a time.
- `PHOTOS_ROOT_FOLDER_ID` is defined but never used; `GOOGLE_SHEET_ID` is
  folded into the sheet-read parameter.
- The file listing query (parent folder, not trashed, ordered by name) is
  the store's business: the listing parameter returns the files already in
  that order.
- JSON key order and the in-place `dict` copy are not modelled: records are
  maps, and every view builds a new map, so the cached records are never
  changed.
- Text.ParseInt: accepts only optional surrounding whitespace, an optional
  sign and ASCII digits; Python's `int` also accepts `_` separators and
  non-ASCII decimal digits. Text holding an information separator
  (U+001C..U+001F) anywhere is rejected, as `int` does not skip those. The
  digit limit is CPython's default of 4300; a process that changes it with
  `sys.set_int_max_str_digits` or `PYTHONINTMAXSTRDIGITS` is not modelled.
- Text.ParseFloat: reads only plain decimals (digits with an optional point)
  as exact reals; Python's `float` also accepts exponents, `inf`, `nan`, `_`
  separators and non-ASCII decimal digits, and rounds to a binary double.
- Text.Lower: lower-cases ASCII letters only; Python's `lower` also maps
  non-ASCII letters.
- Cars.Shuffle: the Mersenne Twister generator is the `draw` parameter, so
  only the shuffle's permutation property is stated, not its distribution.
- Api.FolderOf: a `photos_folder_id` that is not text would be handed to the
  file store as it is; built cars always hold text there.
- Api.Matches: `c["id"]` on a record without an id would raise; built cars
  always have an id.
- TtlCache.ExpiredStaysExpired, TtlCache.LongerTtlStillHits and
  Catalog.CarsServedWithinWindow follow directly from the definitions.
