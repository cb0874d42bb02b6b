# Migration choropleth: data join and styling, modelled in Dafny

The repository draws a map of Finnish municipalities coloured by migration.
Boundary features come from a geographic service, and migration statistics
come from a PxWeb (JSON-stat style) statistics service. The two are joined by
a three-character municipality code. This project models the part of
`JS/scripts.js` that decides each municipality's colour and popup:

- `MunicipalityCodes` (`codes.dfy`): `toMunicipalityCode`. A raw code is
  `null`/`undefined`, a string or an integer. It is turned into its string
  form; the last three characters are kept and left-padded with `'0'`.
- `MigrationTable` (`migration_table.dfy`): `parseMigrationData`.
  - The response is a datatype: an optional dimension, with optional area
    entries `(code, position)` and optional indicator keys, plus an optional
    flat value array.
  - The imperative method `ParseMigrationData` fills the table in place with
    two nested loops. It is proved equal to the function `BuildTable`.
  - Each record field is the cell `position * numTypes + i`. An index outside
    the array reads as `undefined` (`None`).
  - Keys are `code.slice(-3)`, without padding.
- `Colorizer` (`colorize.dfy`): `Colorize`. Counts and hue are exact reals.
  The result is `Gray` or `Hsl(hue)`. The ratio is `Infinite` (zero outflow)
  or `Finite(q)`.
- `FeatureStyler` (`styler.dfy`):
  - `styleByMigration`: constant stroke `#333`, weight 1 and fill opacity 0.7.
    The fill is the colour of the feature's record.
  - The popup decision of `getInfo`.
  - Lemmas about the join between the boundary features and the table.
- `Wrappers` (`wrappers.dfy`): `Option` (JavaScript `undefined`/`null`) and
  `Result` (a thrown `TypeError`).

Three points where the code's behaviour is easy to misread; the model follows the code:

- The table is keyed by `code.slice(-3)` (`JS/scripts.js:128`), not by the
  padded normal form. An area code shorter than three characters is stored
  under a key that no normalised lookup can match (`ShortAreaCodeNeverJoins`).
- A response with no dimension or no value array gives the empty table. But a
  response whose dimension lacks the `Alue` or `Tiedot` category index makes
  lines 122-123/127 throw a `TypeError`, and nothing catches it. This is
  modelled as `Failure(MissingCategoryIndex)`, not as an empty table.
- `getInfo` reads `feature.properties.nimi` with no fallback, so it throws for
  a feature without properties. `styleByMigration` instead falls back to `{}`
  and looks that feature up under `"000"`.
- The style function returns weight 1. The `weight: 2` given to the layer
  (`JS/scripts.js:81`) is not part of the style.

## Model

| member | source | states |
|---|---|---|
| `MunicipalityCodes.ToMunicipalityCode` | JS/scripts.js:34-37 | the key always has exactly 3 characters: the last min(3, length) characters of the string form, preceded by '0's |
| `MunicipalityCodes.AbsentIsZeros` | JS/scripts.js:36 | `null`/`undefined` normalises to "000" |
| `MunicipalityCodes.ThreeCharsAreFixed` | JS/scripts.js:36 | a 3-character string is its own normal form |
| `MunicipalityCodes.Idempotent` | JS/scripts.js:36 | normalising a normalised code changes nothing |
| `MunicipalityCodes.SameKeyIffSameSuffix` | JS/scripts.js:36 | two strings of length ≥ 3 get the same key iff they end in the same 3 characters, whatever their prefix |
| `MunicipalityCodes.NumericCode` | JS/scripts.js:36 | a non-negative number n normalises to the zero-padded 3-digit numeral of n mod 1000 |
| `MunicipalityCodes.NinetyOne` | JS/scripts.js:36 | the number 91 normalises to "091" |
| `MunicipalityCodes.NegativeKeepsSign` | JS/scripts.js:36 | no digit check: -5 gives "0-5" and -49 gives "-49" |
| `MigrationTable.BuildTable` | JS/scripts.js:114-138 | empty table when the response, its dimension or its value array is missing; a TypeError exactly when a category index is missing from a present dimension |
| `MigrationTable.ParseMigrationData` | JS/scripts.js:114-138 | the in-place, two-loop fill produces exactly `BuildTable(response)` |
| `MigrationTable.RecordKeys` | JS/scripts.js:130-134 | a record's fields are exactly the indicator keys |
| `MigrationTable.RecordField` | JS/scripts.js:129-133 | the field of the indicator in column i holds `value[start + i]` (undefined when out of range), unless a later column repeats the key |
| `MigrationTable.TableKeys` | JS/scripts.js:127-131 | the table's key set is the set of `slice(-3)` suffixes of the area codes |
| `MigrationTable.LastWriteWins` | JS/scripts.js:127-131 | the last area entry with a given suffix owns the whole record under that key |
| `MigrationTable.BuiltTable` | JS/scripts.js:121-135 | for a decodable response: table keys = suffixes, record keys = indicators, and `table[last3(code)][type_i] = value[p * numTypes + i]` |
| `MigrationTable.KeyLengths` | JS/scripts.js:128 | every key is the unpadded `slice(-3)` of some area code and has min(3, |code|) characters |
| `MigrationTable.WellFormedCells` | JS/scripts.js:129-133 | with `numAreas * numTypes` values and positions inside the rows, every field is the array cell itself and never an out-of-range undefined |
| `MigrationTable.ExampleTable` | JS/scripts.js:114-138 | areas {KU049: 0, KU091: 1}, indicators [vm43_tulo, vm43_lahto] and values [12, 3, 7, 9] decode to "049" → {12, 3} and "091" → {7, 9} |
| `Colorizer.Count` | JS/scripts.js:43-44 | a count is ≥ 0; it is positive exactly when the field is present, non-null and positive, and then it is that value |
| `Colorizer.Colorize` | JS/scripts.js:40-56 | gray without a record; with a record, gray iff both clamped counts are 0; otherwise a hue in [0, 120] |
| `Colorizer.ZeroOutflowIsGreen` | JS/scripts.js:48-53 | positive inflow with zero outflow gives hue exactly 120 (infinite ratio) |
| `Colorizer.FiniteRatioHue` | JS/scripts.js:48-53 | with positive outflow the hue is min(120, (in/out)^3 * 60) |
| `Colorizer.HueMonotone` | JS/scripts.js:50-53 | the hue never decreases as the ratio grows, and the infinite ratio gives the largest hue |
| `Colorizer.SaturatesIff` | JS/scripts.js:50-53 | with positive outflow, full green iff in^3 ≥ 2 · out^3 |
| `Colorizer.ScaleInvariant` | JS/scripts.js:48-53 | scaling both counts by the same positive factor keeps the colour |
| `Colorizer.MoreInflowNoRedder` | JS/scripts.js:48-53 | at the same positive outflow, more inflow never lowers the hue |
| `Colorizer.AbsentOrNegativeIsZero` | JS/scripts.js:43-44 | a missing, null or negative count colours exactly like a count of 0 |
| `Colorizer.Examples` | JS/scripts.js:40-56 | counts (0,0) give gray, (10,0) give 120, (5,5) give 60, (1,10) give 0.06, and an empty record gives gray |
| `FeatureStyler.Lookup` | JS/scripts.js:62 | the lookup finds a record iff the code is a key, and then it is the table's record |
| `FeatureStyler.StyleByMigration` | JS/scripts.js:58-71 | stroke "#333", weight 1, fill opacity 0.7; the fill is the colour of the record under the normalised `kunta` (the empty-code guard never fires) |
| `FeatureStyler.PopupFor` | JS/scripts.js:97-111 | fails iff the feature has no properties; otherwise a popup iff the lookup hits, showing name, inflow, outflow and net from that record |
| `FeatureStyler.NoPopupIsGray` | JS/scripts.js:58-71 | a feature without a popup is drawn gray |
| `FeatureStyler.NoPropertiesUsesZeros` | JS/scripts.js:60-62 | a feature without properties is styled by the record under "000" |
| `FeatureStyler.NoStatisticsAllGray` | JS/scripts.js:116-119 | with no statistics (missing response, dimension or values) every feature is gray and has no popup |
| `FeatureStyler.JoinIff` | JS/scripts.js:101-102 | a feature finds a record iff some area code's suffix equals the feature's normalised code |
| `FeatureStyler.SameSuffixJoins` | JS/scripts.js:101-102 | a feature code and an area code, both of length ≥ 3 and with the same last 3 characters, join |
| `FeatureStyler.ShortAreaCodeNeverJoins` | JS/scripts.js:128 | an area code shorter than 3 characters is stored under a key that no normalised code equals |
| `FeatureStyler.ExampleSaturated` | JS/scripts.js:58-71 | in the worked table, "049" (ratio 4) is full green |
| `FeatureStyler.ExampleNumericCode` | JS/scripts.js:58-71 | in the worked table, the number 91 finds "091" and gets hue (7/9)^3 · 60 = 20580/729 |
| `FeatureStyler.ExampleUnknownCode` | JS/scripts.js:101-104 | a code missing from the table gets gray and no popup |

## Left out

- `fetchData` and `fetchMigrationData` (`JS/scripts.js:2-32`) are left out. They do HTTP GET/POST, JSON decoding and a catch that returns `null`. The model keeps only the consequence: a `null` response is `BuildTable(None)`, which is the empty table.
- `initMap` is left out: the Leaflet map, the GeoJSON layer, the tile layer and fitting the bounds. So are the `bindTooltip`/`bindPopup` calls. The tooltip is always bound to `nimi`; only the popup decision is modelled.
- Rendering is left out: the popup HTML and the `hsl(…, 75%, 50%)` / `#666666ff` strings. The model returns the `Popup` and `Fill` values.
- IEEE-754 arithmetic is not modelled. Counts are exact reals, so there is no rounding, no NaN and no infinite count. The infinite ratio is a branch of its own.
- The JavaScript key-order rules of `Object.entries` and `Object.keys` are not modelled. Area entries and indicator keys are taken as given sequences. Duplicates are allowed in those sequences, and the later one wins.
- `console.error` logging is left out.
- `MunicipalityCodes.ToMunicipalityCode`: characters are Unicode scalar values, not the UTF-16 code units that JavaScript's `slice` and `padStart` count. So a code containing a character outside the Basic Multilingual Plane is cut and padded differently. The same applies to the `slice(-3)` table keys built by `MigrationTable.BuildTable` and `MigrationTable.ParseMigrationData`. Codes made of digits and Latin letters are unaffected.
- `MunicipalityCodes.AsString` coerces only `null`/`undefined`, strings and integers. It does not model the exponent notation JavaScript uses for integers of magnitude ≥ 10^21. It also does not cover non-integral numbers, booleans or objects.
- Array values other than numbers and `null` (for example strings) are not modelled. Also, `undefined` from an out-of-range index and a JSON `null` cell are the same `None`: the two differ only in the popup text.
- `FeatureStyler.StyleByMigration` takes the table and the feature together. In the source, `styleByMigration(table)` returns a closure that is applied to each feature.
