/** `read_sheet` after the spreadsheet call: the first row of the returned
    values is the header, and every later row becomes a mapping from header
    to cell. */
module Sheet {

  /** One decoded row: header -> cell text. */
  type Row = map<string, string>

  /** `row[i] if i < len(row) else ""`: short rows are padded with "". */
  function Cell(row: seq<string>, i: nat): string {
    if i < |row| then row[i] else ""
  }

  /** The mapping the inner loop has built after its first `n` headers. */
  function Fields(headers: seq<string>, row: seq<string>, n: nat): Row
    requires n <= |headers|
  {
    if n == 0 then map[] else Fields(headers, row, n - 1)[headers[n - 1] := Cell(row, n - 1)]
  }

  /** Header `i` is not repeated among the first `n` headers after it. */
  predicate LastAmong(headers: seq<string>, i: nat, n: nat)
    requires i < n <= |headers|
  {
    forall k :: i < k < n ==> headers[k] != headers[i]
  }

  /** The keys are exactly the headers seen so far. */
  lemma {:induction false} FieldsKeys(headers: seq<string>, row: seq<string>, n: nat)
    requires n <= |headers|
    ensures forall h :: h in Fields(headers, row, n) <==> h in headers[..n]
  {
    if n > 0 {
      FieldsKeys(headers, row, n - 1);
      assert headers[..n] == headers[..n - 1] + [headers[n - 1]];
    }
  }

  /** Each header maps to the cell under its LAST occurrence: a repeated
      header is overwritten by the later column. */
  lemma {:induction false} FieldsValues(headers: seq<string>, row: seq<string>, n: nat, i: nat)
    requires i < n <= |headers| && LastAmong(headers, i, n)
    ensures headers[i] in Fields(headers, row, n) && Fields(headers, row, n)[headers[i]] == Cell(row, i)
  {
    if i < n - 1 {
      assert LastAmong(headers, i, n - 1);
      FieldsValues(headers, row, n - 1, i);
    }
  }

  /** The records `read_sheet` returns for the values the spreadsheet sent. */
  function Records(values: seq<seq<string>>): seq<Row> {
    if values == [] then []
    else seq(|values| - 1, j requires 0 <= j < |values| - 1 => Fields(values[0], values[j + 1], |values[0]|))
  }

  /** The decoding loop of `read_sheet`. No values give no records; otherwise
      there is one record per row after the header, its keys are exactly the
      headers, and each header holds the row's cell in that column ("" past
      the end of a short row; the last such column for a repeated header). */
  method ReadSheet(values: seq<seq<string>>) returns (data: seq<Row>)
    ensures data == Records(values)
    ensures values == [] ==> data == []
    ensures values != [] ==> |data| == |values| - 1
    ensures values != [] ==> forall j, h :: 0 <= j < |data| ==> (h in data[j] <==> h in values[0])
    ensures values != [] ==> forall j, i :: 0 <= j < |data| && 0 <= i < |values[0]| && LastAmong(values[0], i, |values[0]|) ==>
              values[0][i] in data[j] && data[j][values[0][i]] == Cell(values[j + 1], i)
  {
    if values == [] {
      return [];
    }
    var headers := values[0];
    var rows := values[1..];
    data := [];
    for j := 0 to |rows|
      invariant |data| == j
      invariant forall k :: 0 <= k < j ==> data[k] == Fields(headers, rows[k], |headers|)
    {
      var row := rows[j];
      var item: Row := map[];
      for i := 0 to |headers|
        invariant item == Fields(headers, row, i)
      {
        item := item[headers[i] := if i < |row| then row[i] else ""];
      }
      data := data + [item];
    }
    forall j, i | 0 <= j < |data| && 0 <= i < |headers| && LastAmong(headers, i, |headers|)
      ensures headers[i] in data[j] && data[j][headers[i]] == Cell(rows[j], i)
    {
      FieldsValues(headers, rows[j], |headers|, i);
    }
    forall j | 0 <= j < |data| {
      FieldsKeys(headers, rows[j], |headers|);
    }
    assert headers[..|headers|] == headers;
  }
}
