/**
 * The feature styler and the popup decision: a boundary feature is joined
 * to the statistics table by its normalised `kunta` code.
 */
module FeatureStyler {
  import opened Wrappers
  import opened MunicipalityCodes
  import opened MigrationTable
  import opened Colorizer

  /** A feature's property bag: display name `nimi` and raw code `kunta`. */
  datatype Properties = Properties(nimi: Option<string>, kunta: RawCode)

  /** A boundary feature; its `properties` may be null or undefined. */
  datatype Feature = Feature(properties: Option<Properties>)

  /** The style handed to the map renderer. */
  datatype Style = Style(color: string, weight: int, fillOpacity: real, fillColor: Fill)

  /** What the popup shows: name, in-migration, out-migration and net migration. */
  datatype Popup = Popup(name: Option<string>, inflow: Option<real>, outflow: Option<real>, net: Option<real>)

  /** The TypeError raised by reading `nimi` through missing properties. */
  datatype InfoError = PropertiesMissing

  /** `table[code]`: the record, or `undefined`. */
  function Lookup(table: Table, code: string): (r: Option<Record>)
    ensures r.Some? <==> code in table
    ensures r.Some? ==> r.value == table[code]
  {
    if code in table then Some(table[code]) else None
  }

  /** `rec[key]`: a field absent from the record reads as `undefined`. */
  function Field(rec: Record, key: string): Option<real>
  {
    if key in rec then rec[key] else None
  }

  /** `(feature.properties ?? {}).kunta`. */
  function RawKunta(feature: Feature): RawCode
  {
    if feature.properties.Some? then feature.properties.value.kunta else Nullish
  }

  /** The record a feature joins to, if any. */
  function RecordFor(table: Table, feature: Feature): Option<Record>
  {
    Lookup(table, ToMunicipalityCode(RawKunta(feature)))
  }

  /**
   * `styleByMigration(table)(feature)`: constant stroke, fill from the
   * colouriser applied to the feature's record. The guard against an empty
   * code never fails, because a normalised code has three characters.
   */
  function StyleByMigration(table: Table, feature: Feature): (s: Style)
    ensures s.color == "#333" && s.weight == 1 && s.fillOpacity == 0.7
    ensures s.fillColor == Colorize(RecordFor(table, feature))
  {
    var code := ToMunicipalityCode(RawKunta(feature));
    var mig := if code != "" then Lookup(table, code) else None;
    Style("#333", 1, 0.7, Colorize(mig))
  }

  /**
   * The popup decision of `getInfo`: a popup exactly when the feature's code
   * is a key of the table. `getInfo` reads `properties.nimi` without a
   * fallback, so a feature without properties throws.
   */
  function PopupFor(table: Table, feature: Feature): (r: Result<Option<Popup>, InfoError>)
    ensures r.Failure? <==> feature.properties.None?
    ensures r.Success? ==> (r.value.Some? <==> RecordFor(table, feature).Some?)
    ensures r.Success? && r.value.Some? ==>
              var rec := RecordFor(table, feature).value;
              r.value.value == Popup(feature.properties.value.nimi,
                                     Field(rec, Inflow), Field(rec, Outflow), Field(rec, NetMigration))
  {
    if feature.properties.None? then Failure(PropertiesMissing)
    else
      var props := feature.properties.value;
      var code := ToMunicipalityCode(props.kunta);
      if code in table then
        var data := table[code];
        Success(Some(Popup(props.nimi, Field(data, Inflow), Field(data, Outflow), Field(data, NetMigration))))
      else Success(None)
  }

  /** A feature without a popup is drawn gray. */
  lemma NoPopupIsGray(table: Table, feature: Feature)
    requires PopupFor(table, feature) == Success(None)
    ensures StyleByMigration(table, feature).fillColor == Gray
  {
  }

  /** A feature without properties is looked up under "000". */
  lemma NoPropertiesUsesZeros(table: Table)
    ensures StyleByMigration(table, Feature(None)).fillColor == Colorize(Lookup(table, "000"))
  {
    AbsentIsZeros();
  }

  /**
   * When statistics are unavailable (no response, or one without dimension
   * or values) every feature is drawn gray and gets no popup.
   */
  lemma NoStatisticsAllGray(response: Option<Response>, feature: Feature)
    requires !HasShape(response)
    ensures BuildTable(response).Success?
    ensures StyleByMigration(BuildTable(response).value, feature).fillColor == Gray
    ensures PopupFor(BuildTable(response).value, feature).Success? ==>
              PopupFor(BuildTable(response).value, feature).value.None?
  {
  }

  /**
   * The join: a feature finds a record exactly when some area entry's short
   * code equals the feature's normalised code.
   */
  lemma JoinIff(response: Option<Response>, feature: Feature)
    requires Decodable(response)
    ensures RecordFor(BuildTable(response).value, feature).Some?
            <==> exists k :: 0 <= k < |AreasOf(response)|
                   && Last3(AreasOf(response)[k].code) == ToMunicipalityCode(RawKunta(feature))
  {
    var areas := AreasOf(response);
    TableKeys(areas, |areas|, TypesOf(response), ValuesOf(response));
  }

  /**
   * A feature code and an area code of three or more characters join when
   * they end in the same three characters ("049" and "KU049").
   */
  lemma SameSuffixJoins(response: Option<Response>, a: nat, s: string)
    requires Decodable(response) && a < |AreasOf(response)|
    requires |s| >= 3 && |AreasOf(response)[a].code| >= 3
    requires s[|s| - 3..] == Last3(AreasOf(response)[a].code)
    ensures RecordFor(BuildTable(response).value, Feature(Some(Properties(None, Str(s))))).Some?
  {
    JoinIff(response, Feature(Some(Properties(None, Str(s)))));
    assert Last3(AreasOf(response)[a].code) == ToMunicipalityCode(Str(s));
  }

  /**
   * An area code shorter than three characters is stored under its
   * unpadded self, which no normalised code equals: its record is never shown.
   */
  lemma ShortAreaCodeNeverJoins(code: string, feature: Feature)
    requires |code| < 3
    ensures ToMunicipalityCode(RawKunta(feature)) != Last3(code)
  {
  }

  /** The worked response on the map: "049" has ratio 4 and gets full green. */
  lemma ExampleSaturated()
    ensures StyleByMigration(BuildTable(ExampleResponse()).value,
                             Feature(Some(Properties(Some("Espoo"), Str("049"))))).fillColor == Hsl(120.0)
  {
    ExampleTable();
    var t := BuildTable(ExampleResponse()).value;
    ThreeCharsAreFixed("049");
    var rec := t["049"];
    assert Count(rec, Inflow) == 12.0 && Count(rec, Outflow) == 3.0;
    assert Cube(12.0 / 3.0) * 60.0 >= 120.0;
  }

  /** The number 91 is looked up as "091", ratio 7/9, hue `(7/9)^3 * 60`. */
  lemma ExampleNumericCode()
    ensures StyleByMigration(BuildTable(ExampleResponse()).value,
                             Feature(Some(Properties(None, Whole(91))))).fillColor == Hsl(20580.0 / 729.0)
  {
    ExampleTable();
    var t := BuildTable(ExampleResponse()).value;
    NinetyOne();
    var rec := t["091"];
    assert Count(rec, Inflow) == 7.0 && Count(rec, Outflow) == 9.0;
    assert Cube(7.0 / 9.0) * 60.0 == 20580.0 / 729.0;
  }

  /** A code the table lacks gets gray and no popup. */
  lemma ExampleUnknownCode()
    ensures var t, f := BuildTable(ExampleResponse()).value, Feature(Some(Properties(None, Str("999"))));
            StyleByMigration(t, f).fillColor == Gray && PopupFor(t, f) == Success(None)
  {
    ExampleTable();
    ThreeCharsAreFixed("999");
  }
}
