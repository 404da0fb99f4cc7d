/** `load_cars` without its cache: from spreadsheet rows to car records. A
    row is dropped when its trimmed `id` is empty or its `status` is exactly
    "hidden"; every other row becomes one record, and the list is shuffled. */
module Cars {
  import opened Wrappers
  import opened Text
  import opened Sequences
  import opened Sheet

  /** A field value of a record the API returns (a JSON value). */
  datatype Value = Null | Str(s: string) | Int(i: int) | Float(x: real) | StrList(items: seq<string>)

  /** A car or profile record: field name -> value (a Python dict). */
  type Record = map<string, Value>

  const ID: string := "id"
  const STATUS: string := "status"
  const HIDDEN: string := "hidden"
  const PHOTOS_FOLDER: string := "photos_folder_id"

  /** The fields of every car record `load_cars` builds. */
  const CAR_KEYS: set<string> := {
    "id", "brand", "model", "year", "price_usd", "price_krw", "mileage_km",
    "engine", "transmission", "fuel", "description", "status", "photos_folder_id"
  }

  /** `r.get(key, default)`. */
  function GetOr(r: Row, key: string, default: string): string {
    if key in r then r[key] else default
  }

  /** `r.get(key)`. */
  function Lookup(r: Row, key: string): Option<string> {
    if key in r then Some(r[key]) else None
  }

  function IntValue(v: Option<int>): Value {
    if v.Some? then Int(v.value) else Null
  }

  function FloatValue(v: Option<real>): Value {
    if v.Some? then Float(v.value) else Null
  }

  /** The two tests of `load_cars`' loop: a non-blank id, and a raw status
      other than "hidden". */
  predicate IsListed(r: Row) {
    Strip(GetOr(r, ID, "")) != "" && Lookup(r, STATUS) != Some(HIDDEN)
  }

  /** Field `field` of the record `load_cars` builds for a row. `id`,
      `brand`, `model` and `photos_folder_id` are stripped; the other text
      fields are copied as they are; `status` is "active" only when the row
      has no status key; the numbers are parsed, absent when they do not
      parse. */
  function CarField(r: Row, field: string): Value {
    match field
    case "id" => Str(Strip(GetOr(r, ID, "")))
    case "brand" => Str(Strip(GetOr(r, "brand", "")))
    case "model" => Str(Strip(GetOr(r, "model", "")))
    case "year" => IntValue(ParseInt(Lookup(r, "year")))
    case "price_usd" => FloatValue(ParseFloat(Lookup(r, "price_usd")))
    case "price_krw" => FloatValue(ParseFloat(Lookup(r, "price_krw")))
    case "mileage_km" => IntValue(ParseInt(Lookup(r, "mileage_km")))
    case "engine" => Str(GetOr(r, "engine", ""))
    case "transmission" => Str(GetOr(r, "transmission", ""))
    case "fuel" => Str(GetOr(r, "fuel", ""))
    case "description" => Str(GetOr(r, "description", ""))
    case "status" => Str(GetOr(r, STATUS, "active"))
    case "photos_folder_id" => Str(Strip(GetOr(r, PHOTOS_FOLDER, "")))
    case _ => Null
  }

  /** The record `load_cars` builds for a row: one entry per car field. */
  function BuildCar(r: Row): (c: Record)
    ensures c.Keys == CAR_KEYS
  {
    map field | field in CAR_KEYS :: CarField(r, field)
  }

  /** The record has a string id that is non-empty and has no whitespace at
      either end. */
  predicate HasListedId(c: Record) {
    ID in c && c[ID].Str? && c[ID].s != "" && Strip(c[ID].s) == c[ID].s
  }

  /** The status of a built record is the row's, or "active" when the row has
      none; its id is the row's id stripped. */
  lemma BuildCarFields(r: Row)
    ensures BuildCar(r)[STATUS] == Str(if STATUS in r then r[STATUS] else "active")
    ensures BuildCar(r)[ID] == Str(Strip(GetOr(r, ID, "")))
  {
    assert STATUS in CAR_KEYS && ID in CAR_KEYS;
    assert BuildCar(r)[STATUS] == CarField(r, STATUS);
    assert BuildCar(r)[ID] == CarField(r, ID);
  }

  /** The record of a listed row has a listed id and a status that is not
      "hidden". */
  lemma BuildCarListed(r: Row)
    requires IsListed(r)
    ensures HasListedId(BuildCar(r)) && BuildCar(r)[STATUS] != Str(HIDDEN)
  {
    BuildCarFields(r);
    StripIdempotent(GetOr(r, ID, ""));
  }

  /** The records of the rows `load_cars` keeps, in row order. */
  function Listed(rows: seq<Row>): seq<Record> {
    Select(rows, IsListed, BuildCar)
  }

  /** Every listed record came from a listed row, and none of them has a blank
      id or the status "hidden". */
  lemma {:induction false} ListedSpec(rows: seq<Row>)
    ensures forall c :: c in Listed(rows) ==>
              c.Keys == CAR_KEYS && HasListedId(c) && c[STATUS] != Str(HIDDEN)
    ensures forall c :: c in Listed(rows) ==> exists i :: 0 <= i < |rows| && IsListed(rows[i]) && c == BuildCar(rows[i])
  {
    SelectAt(rows, IsListed, BuildCar);
    var idx := Kept(rows, IsListed);
    var r := Listed(rows);
    forall c | c in r
      ensures c.Keys == CAR_KEYS && HasListedId(c) && c[STATUS] != Str(HIDDEN)
      ensures exists i :: 0 <= i < |rows| && IsListed(rows[i]) && c == BuildCar(rows[i])
    {
      var k :| 0 <= k < |r| && r[k] == c;
      BuildCarListed(rows[idx[k]]);
    }
  }

  /** With a `status` column in the sheet, the default "active" never
      applies: a blank status cell gives the status "". */
  lemma StatusCellCopied(values: seq<seq<string>>, j: nat, col: nat)
    requires values != [] && j < |values| - 1 && col < |values[0]|
    requires values[0][col] == STATUS && LastAmong(values[0], col, |values[0]|)
    ensures BuildCar(Records(values)[j])[STATUS] == Str(Cell(values[j + 1], col))
  {
    var headers, cells := values[0], values[j + 1];
    var row := Fields(headers, cells, |headers|);
    assert Records(values)[j] == row;
    FieldsValues(headers, cells, |headers|, col);
    assert STATUS in row && row[STATUS] == Cell(cells, col);
    BuildCarFields(row);
  }

  /** The loop of `load_cars` that walks the rows and appends the record of
      every listed row. */
  method BuildCars(rows: seq<Row>) returns (cars: seq<Record>)
    ensures cars == Listed(rows)
    ensures |cars| <= |rows|
    ensures forall c :: c in cars ==> c.Keys == CAR_KEYS && HasListedId(c) && c[STATUS] != Str(HIDDEN)
  {
    cars := [];
    for i := 0 to |rows|
      invariant cars == Select(rows[..i], IsListed, BuildCar)
    {
      var r := rows[i];
      assert rows[..i + 1][..i] == rows[..i];
      var carId := Strip(GetOr(r, ID, ""));
      if carId == "" {
        continue;
      }
      if Lookup(r, STATUS) == Some(HIDDEN) {
        continue;
      }
      cars := cars + [BuildCar(r)];
    }
    assert rows[..|rows|] == rows;
    ListedSpec(rows);
  }

  /** `random.shuffle(cars)`: CPython's Fisher-Yates pass, from the last
      position down to the second, swapping position `i` with position
      `draw(i) % (i + 1)`. `draw` stands for the random generator. The result
      holds the same records, each as often, in some order. */
  method Shuffle<T>(xs: seq<T>, draw: nat -> nat) returns (ys: seq<T>)
    ensures |ys| == |xs|
    ensures multiset(ys) == multiset(xs)
  {
    var a := new T[|xs|](k requires 0 <= k < |xs| => xs[k]);
    assert a[..] == xs;
    var i := a.Length;
    while i > 1
      invariant 0 <= i <= a.Length
      invariant multiset(a[..]) == multiset(xs)
    {
      i := i - 1;
      var j := draw(i) % (i + 1);
      a[i], a[j] := a[j], a[i];
    }
    ys := a[..];
  }
}
