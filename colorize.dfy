/**
 * The migration-ratio colouriser: a municipality's fill colour from its
 * in-migration and out-migration counts. Counts and hue are exact reals.
 */
module Colorizer {
  import opened Wrappers
  import opened MigrationTable

  /** Indicator keys of the statistics service. */
  const Inflow := "vm43_tulo"
  const Outflow := "vm43_lahto"
  const NetMigration := "vm43_netto"

  /** A fill colour: the neutral gray "#666666ff" or `hsl(hue, 75%, 50%)`. */
  datatype Fill = Gray | Hsl(hue: real)

  /** Inflow over outflow; zero outflow gives an infinite ratio. */
  datatype Ratio = Infinite | Finite(q: real)

  /** `Math.max(0, rec[key] ?? 0)`: a missing or negative count counts as 0. */
  function Count(rec: Record, key: string): (c: real)
    ensures c >= 0.0
    ensures c > 0.0 <==> key in rec && rec[key].Some? && rec[key].value > 0.0
    ensures c > 0.0 ==> c == rec[key].value
  {
    var v := if key in rec && rec[key].Some? then rec[key].value else 0.0;
    if v > 0.0 then v else 0.0
  }

  function Cube(x: real): real
  {
    x * x * x
  }

  lemma CubeNonNegative(x: real)
    requires x >= 0.0
    ensures Cube(x) >= 0.0
  {
  }

  /** Cubing is monotone on the non-negative reals. */
  lemma CubeMonotone(x: real, y: real)
    requires 0.0 <= x <= y
    ensures Cube(x) <= Cube(y)
  {
  }

  /** The cube of a quotient is the quotient of the cubes. */
  lemma CubeOfQuotient(p: real, n: real)
    requires n > 0.0
    ensures Cube(p / n) * Cube(n) == Cube(p)
    ensures Cube(n) > 0.0
  {
  }

  /** `Math.min(120, ratio^3 * 60)`, and 120 for an infinite ratio. */
  function Hue(ratio: Ratio): real
  {
    match ratio
    case Infinite => 120.0
    case Finite(q) =>
      var h := Cube(q) * 60.0;
      if h < 120.0 then h else 120.0
  }

  /**
   * `Colorize`: gray without a record or when both counts are 0, otherwise
   * a hue between 0 (red) and 120 (green).
   */
  function Colorize(mig: Option<Record>): (f: Fill)
    ensures mig.None? ==> f == Gray
    ensures mig.Some? ==>
              (f == Gray <==> Count(mig.value, Inflow) == 0.0 && Count(mig.value, Outflow) == 0.0)
    ensures f.Hsl? ==> 0.0 <= f.hue <= 120.0
  {
    match mig
    case None => Gray
    case Some(rec) =>
      var positive := Count(rec, Inflow);
      var negative := Count(rec, Outflow);
      if positive == 0.0 && negative == 0.0 then Gray
      else if negative == 0.0 then Hsl(Hue(Infinite))
      else
        CubeNonNegative(positive / negative);
        Hsl(Hue(Finite(positive / negative)))
  }

  /** Inflow without outflow saturates at full green. */
  lemma ZeroOutflowIsGreen(rec: Record)
    requires Count(rec, Outflow) == 0.0 < Count(rec, Inflow)
    ensures Colorize(Some(rec)) == Hsl(120.0)
  {
  }

  /** With outflow, the hue is `min(120, (in / out)^3 * 60)`. */
  lemma FiniteRatioHue(rec: Record)
    requires Count(rec, Outflow) > 0.0
    ensures var q := Count(rec, Inflow) / Count(rec, Outflow);
            Colorize(Some(rec)) == Hsl(if Cube(q) * 60.0 < 120.0 then Cube(q) * 60.0 else 120.0)
  {
  }

  /** The hue never decreases as the ratio grows, up to the infinite ratio. */
  lemma HueMonotone(r: real, s: real)
    requires 0.0 <= r <= s
    ensures Hue(Finite(r)) <= Hue(Finite(s)) <= Hue(Infinite)
  {
    CubeMonotone(r, s);
  }

  /**
   * Full green exactly when inflow cubed is at least twice outflow cubed,
   * that is when the ratio reaches the cube root of 2.
   */
  lemma SaturatesIff(rec: Record)
    requires Count(rec, Outflow) > 0.0
    ensures Colorize(Some(rec)) == Hsl(120.0)
            <==> Cube(Count(rec, Inflow)) >= 2.0 * Cube(Count(rec, Outflow))
  {
    var p, n := Count(rec, Inflow), Count(rec, Outflow);
    CubeOfQuotient(p, n);
    assert Cube(p / n) >= 2.0 <==> Cube(p / n) * Cube(n) >= 2.0 * Cube(n);
  }

  /** A record whose counts are these two values, and nothing else. */
  function Counts(inflow: real, outflow: real): (rec: Record)
    ensures Inflow in rec && Outflow in rec
  {
    map[Inflow := Some(inflow), Outflow := Some(outflow)]
  }

  /** Only the ratio matters: scaling both counts keeps the colour. */
  lemma ScaleInvariant(inflow: real, outflow: real, k: real)
    requires inflow >= 0.0 && outflow >= 0.0 && k > 0.0
    ensures Colorize(Some(Counts(k * inflow, k * outflow))) == Colorize(Some(Counts(inflow, outflow)))
  {
    assert Count(Counts(inflow, outflow), Inflow) == inflow;
    assert Count(Counts(inflow, outflow), Outflow) == outflow;
    assert Count(Counts(k * inflow, k * outflow), Inflow) == k * inflow;
    assert Count(Counts(k * inflow, k * outflow), Outflow) == k * outflow;
    if outflow > 0.0 {
      assert (k * inflow) / (k * outflow) == inflow / outflow;
    }
  }

  /** More inflow, with the same positive outflow, never gives a redder hue. */
  lemma MoreInflowNoRedder(a: real, b: real, outflow: real)
    requires 0.0 <= a <= b && outflow > 0.0
    ensures Colorize(Some(Counts(a, outflow))).hue <= Colorize(Some(Counts(b, outflow))).hue
  {
    assert Count(Counts(a, outflow), Inflow) == a;
    assert Count(Counts(b, outflow), Inflow) == b;
    assert Count(Counts(a, outflow), Outflow) == outflow;
    assert Count(Counts(b, outflow), Outflow) == outflow;
    assert a / outflow <= b / outflow;
    HueMonotone(a / outflow, b / outflow);
  }

  /** A count that is missing, null or negative colours like a count of 0. */
  lemma AbsentOrNegativeIsZero(rec: Record, key: string, v: real)
    requires v <= 0.0
    ensures Colorize(Some(rec - {key})) == Colorize(Some(rec[key := Some(0.0)]))
    ensures Colorize(Some(rec[key := None])) == Colorize(Some(rec[key := Some(0.0)]))
    ensures Colorize(Some(rec[key := Some(v)])) == Colorize(Some(rec[key := Some(0.0)]))
  {
  }

  /** The worked cases: balanced, empty, one-sided and ratio 0.1. */
  lemma Examples()
    ensures Colorize(Some(Counts(0.0, 0.0))) == Gray
    ensures Colorize(Some(Counts(10.0, 0.0))) == Hsl(120.0)
    ensures Colorize(Some(Counts(5.0, 5.0))) == Hsl(60.0)
    ensures Colorize(Some(Counts(1.0, 10.0))) == Hsl(0.06)
    ensures Colorize(Some(map[])) == Gray
  {
  }
}
