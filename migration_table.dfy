/**
 * The migration table builder: decodes a dimension-indexed statistics
 * response (category-to-position indices plus a flat, row-major value array)
 * into a table from short municipality code to a record of indicator values.
 */
module MigrationTable {
  import opened Wrappers
  import opened MunicipalityCodes

  /** One row of the table: indicator name to value (None: null or undefined). */
  type Record = map<string, Option<real>>

  /** The table: short municipality code to record. */
  type Table = map<string, Record>

  /** One entry of the area dimension's category index: code and position. */
  datatype AreaEntry = AreaEntry(code: string, position: int)

  /**
   * The `dimension` object: the area index (`Alue`) in iteration order and
   * the indicator keys (`Tiedot`) in column order. None: the dimension or
   * its category index is missing.
   */
  datatype Dimension = Dimension(areas: Option<seq<AreaEntry>>, indicators: Option<seq<string>>)

  /** The response: its `dimension` and its flat `value` array (None: JSON null). */
  datatype Response = Response(dimension: Option<Dimension>, value: Option<seq<Option<real>>>)

  /** The TypeError raised when a category index is read through a missing object. */
  datatype ParseError = MissingCategoryIndex

  /** `value[k]`: an index outside the array gives `undefined`. */
  function Cell(values: seq<Option<real>>, k: int): Option<real>
  {
    if 0 <= k < |values| then values[k] else None
  }

  /** The record of a row starting at `start`, after its first `j` indicator columns. */
  function RecordUpTo(types: seq<string>, j: nat, start: int, values: seq<Option<real>>): Record
    requires j <= |types|
  {
    if j == 0 then map[]
    else RecordUpTo(types, j - 1, start, values)[types[j - 1] := Cell(values, start + j - 1)]
  }

  /** The record of the area at row `position`. */
  function RecordAt(types: seq<string>, position: int, values: seq<Option<real>>): Record
  {
    RecordUpTo(types, |types|, position * |types|, values)
  }

  /** The table after the first `m` area entries. */
  function TableUpTo(areas: seq<AreaEntry>, m: nat, types: seq<string>, values: seq<Option<real>>): Table
    requires m <= |areas|
  {
    if m == 0 then map[]
    else TableUpTo(areas, m - 1, types, values)[Last3(areas[m - 1].code) := RecordAt(types, areas[m - 1].position, values)]
  }

  /** The response has a dimension and a value array. */
  predicate HasShape(response: Option<Response>)
  {
    response.Some? && response.value.dimension.Some? && response.value.value.Some?
  }

  /** The response has a shape and both category indices. */
  predicate Decodable(response: Option<Response>)
  {
    HasShape(response)
    && response.value.dimension.value.areas.Some?
    && response.value.dimension.value.indicators.Some?
  }

  /**
   * What `parseMigrationData` produces: the empty table for a missing
   * response, dimension or value array; a TypeError when a category index
   * is missing; otherwise the table of every area entry.
   */
  function BuildTable(response: Option<Response>): (r: Result<Table, ParseError>)
    ensures !HasShape(response) ==> r == Success(map[])
    ensures r.Failure? <==> HasShape(response) && !Decodable(response)
  {
    if !HasShape(response) then Success(map[])
    else
      var dimension := response.value.dimension.value;
      if dimension.areas.None? || dimension.indicators.None? then Failure(MissingCategoryIndex)
      else
        var areas := dimension.areas.value;
        Success(TableUpTo(areas, |areas|, dimension.indicators.value, response.value.value.value))
  }

  /** `parseMigrationData`: fills the table in place, area by area and column by column. */
  method ParseMigrationData(response: Option<Response>) returns (r: Result<Table, ParseError>)
    ensures r == BuildTable(response)
  {
    if response.None? || response.value.dimension.None? || response.value.value.None? {
      return Success(map[]);
    }
    var dimension, value := response.value.dimension.value, response.value.value.value;
    if dimension.areas.None? || dimension.indicators.None? {
      return Failure(MissingCategoryIndex);
    }
    var municipalities := dimension.areas.value;
    var migrationTypes := dimension.indicators.value;
    var result: Table := map[];
    var numTypes := |migrationTypes|;
    var m := 0;
    while m < |municipalities|
      invariant 0 <= m <= |municipalities|
      invariant result == TableUpTo(municipalities, m, migrationTypes, value)
    {
      var shortCode := Last3(municipalities[m].code);
      var start := municipalities[m].position * numTypes;
      ghost var before := result;
      result := result[shortCode := map[]];
      var i := 0;
      while i < numTypes
        invariant 0 <= i <= numTypes
        invariant result == before[shortCode := RecordUpTo(migrationTypes, i, start, value)]
      {
        result := result[shortCode := result[shortCode][migrationTypes[i] := Cell(value, start + i)]];
        i := i + 1;
      }
      m := m + 1;
    }
    return Success(result);
  }

  /** A record has exactly the indicator keys as fields. */
  lemma {:induction false} RecordKeys(types: seq<string>, j: nat, start: int, values: seq<Option<real>>)
    requires j <= |types|
    ensures RecordUpTo(types, j, start, values).Keys == set k | 0 <= k < j :: types[k]
  {
    if j > 0 {
      RecordKeys(types, j - 1, start, values);
      assert (set k | 0 <= k < j :: types[k]) == (set k | 0 <= k < j - 1 :: types[k]) + {types[j - 1]};
    }
  }

  /**
   * The field of indicator `i` holds `value[start + i]`, unless a later
   * column repeats the same indicator key.
   */
  lemma {:induction false} RecordField(types: seq<string>, j: nat, start: int, values: seq<Option<real>>, i: nat)
    requires i < j <= |types|
    requires forall k :: i < k < j ==> types[k] != types[i]
    ensures types[i] in RecordUpTo(types, j, start, values)
    ensures RecordUpTo(types, j, start, values)[types[i]] == Cell(values, start + i)
  {
    if i < j - 1 {
      RecordField(types, j - 1, start, values, i);
    }
  }

  /** The table's keys are the short codes of the area entries. */
  lemma {:induction false} TableKeys(areas: seq<AreaEntry>, m: nat, types: seq<string>, values: seq<Option<real>>)
    requires m <= |areas|
    ensures TableUpTo(areas, m, types, values).Keys == set k | 0 <= k < m :: Last3(areas[k].code)
  {
    if m > 0 {
      TableKeys(areas, m - 1, types, values);
      assert (set k | 0 <= k < m :: Last3(areas[k].code))
          == (set k | 0 <= k < m - 1 :: Last3(areas[k].code)) + {Last3(areas[m - 1].code)};
    }
  }

  /**
   * The last area entry with a given short code wins: its record replaces
   * the whole record of any earlier entry with the same short code.
   */
  lemma {:induction false} LastWriteWins(areas: seq<AreaEntry>, m: nat, types: seq<string>, values: seq<Option<real>>, i: nat)
    requires i < m <= |areas|
    requires forall k :: i < k < m ==> Last3(areas[k].code) != Last3(areas[i].code)
    ensures Last3(areas[i].code) in TableUpTo(areas, m, types, values)
    ensures TableUpTo(areas, m, types, values)[Last3(areas[i].code)] == RecordAt(types, areas[i].position, values)
  {
    if i < m - 1 {
      LastWriteWins(areas, m - 1, types, values, i);
    }
  }

  /** The decoded parts of a decodable response. */
  function AreasOf(response: Option<Response>): seq<AreaEntry>
    requires Decodable(response)
  {
    response.value.dimension.value.areas.value
  }

  function TypesOf(response: Option<Response>): seq<string>
    requires Decodable(response)
  {
    response.value.dimension.value.indicators.value
  }

  function ValuesOf(response: Option<Response>): seq<Option<real>>
    requires Decodable(response)
  {
    response.value.value.value
  }

  /**
   * The row-major join: for an area entry `(code, p)` not overwritten by a
   * later one, and an indicator at column `i` not repeated later, the table
   * holds `value[p * numTypes + i]` under `code.slice(-3)`; the table's keys
   * are exactly the short codes and every record's keys exactly the indicators.
   */
  lemma BuiltTable(response: Option<Response>, a: nat, i: nat)
    requires Decodable(response)
    requires a < |AreasOf(response)| && i < |TypesOf(response)|
    requires forall k :: a < k < |AreasOf(response)| ==> Last3(AreasOf(response)[k].code) != Last3(AreasOf(response)[a].code)
    requires forall k :: i < k < |TypesOf(response)| ==> TypesOf(response)[k] != TypesOf(response)[i]
    ensures BuildTable(response).Success?
    ensures var t, areas, types := BuildTable(response).value, AreasOf(response), TypesOf(response);
            var key := Last3(areas[a].code);
            && t.Keys == (set k | 0 <= k < |areas| :: Last3(areas[k].code))
            && key in t
            && t[key].Keys == (set k | 0 <= k < |types| :: types[k])
            && t[key][types[i]] == Cell(ValuesOf(response), areas[a].position * |types| + i)
  {
    var areas, types, values := AreasOf(response), TypesOf(response), ValuesOf(response);
    TableKeys(areas, |areas|, types, values);
    LastWriteWins(areas, |areas|, types, values, a);
    RecordKeys(types, |types|, areas[a].position * |types|, values);
    RecordField(types, |types|, areas[a].position * |types|, values, i);
  }

  /** Every key is the unpadded suffix of some area code: `min(3, |code|)` characters. */
  lemma KeyLengths(response: Option<Response>)
    requires Decodable(response)
    ensures var t, areas := BuildTable(response).value, AreasOf(response);
            forall key :: key in t ==>
              exists k :: 0 <= k < |areas| && key == Last3(areas[k].code)
                          && |key| == (if |areas[k].code| < 3 then |areas[k].code| else 3)
  {
    var areas := AreasOf(response);
    TableKeys(areas, |areas|, TypesOf(response), ValuesOf(response));
  }

  /** Row `p` of `n` columns lies inside an array of `rows * n` values. */
  lemma CellInRange(p: nat, i: nat, n: nat, rows: nat)
    requires p < rows && i < n
    ensures 0 <= p * n + i < rows * n
  {
    assert (p + 1) * n <= rows * n;
  }

  /**
   * When the value array has one row per area (`numAreas * numTypes` values)
   * and positions are rows, every field is the array cell itself, never an
   * out-of-range `undefined`.
   */
  lemma WellFormedCells(response: Option<Response>, a: nat, i: nat)
    requires Decodable(response)
    requires |ValuesOf(response)| == |AreasOf(response)| * |TypesOf(response)|
    requires a < |AreasOf(response)| && i < |TypesOf(response)|
    requires 0 <= AreasOf(response)[a].position < |AreasOf(response)|
    requires forall k :: a < k < |AreasOf(response)| ==> Last3(AreasOf(response)[k].code) != Last3(AreasOf(response)[a].code)
    requires forall k :: i < k < |TypesOf(response)| ==> TypesOf(response)[k] != TypesOf(response)[i]
    ensures var t, key := BuildTable(response).value, Last3(AreasOf(response)[a].code);
            var p, n := AreasOf(response)[a].position, |TypesOf(response)|;
            && key in t && TypesOf(response)[i] in t[key]
            && 0 <= p * n + i < |ValuesOf(response)|
            && t[key][TypesOf(response)[i]] == ValuesOf(response)[p * n + i]
  {
    var p, n := AreasOf(response)[a].position, |TypesOf(response)|;
    BuiltTable(response, a, i);
    CellInRange(p, i, n, |AreasOf(response)|);
  }

  /** A two-area, two-indicator response in the service's layout. */
  function ExampleResponse(): Option<Response>
  {
    Some(Response(
      Some(Dimension(Some([AreaEntry("KU049", 0), AreaEntry("KU091", 1)]), Some(["vm43_tulo", "vm43_lahto"]))),
      Some([Some(12.0), Some(3.0), Some(7.0), Some(9.0)])))
  }

  /** Decoding it gives one record per municipality, keyed by the last three characters. */
  lemma ExampleTable()
    ensures BuildTable(ExampleResponse()) == Success(map[
              "049" := map["vm43_tulo" := Some(12.0), "vm43_lahto" := Some(3.0)],
              "091" := map["vm43_tulo" := Some(7.0), "vm43_lahto" := Some(9.0)]])
  {
    var areas := [AreaEntry("KU049", 0), AreaEntry("KU091", 1)];
    var types := ["vm43_tulo", "vm43_lahto"];
    var values := [Some(12.0), Some(3.0), Some(7.0), Some(9.0)];
    assert Last3("KU049") == "049";
    assert Last3("KU091") == "091";
    assert RecordAt(types, 0, values) == map["vm43_tulo" := Some(12.0), "vm43_lahto" := Some(3.0)] by {
      assert RecordUpTo(types, 1, 0, values) == map["vm43_tulo" := Some(12.0)];
    }
    assert RecordAt(types, 1, values) == map["vm43_tulo" := Some(7.0), "vm43_lahto" := Some(9.0)] by {
      assert RecordUpTo(types, 1, 2, values) == map["vm43_tulo" := Some(7.0)];
    }
    assert TableUpTo(areas, 1, types, values) == map["049" := RecordAt(types, 0, values)];
  }
}
