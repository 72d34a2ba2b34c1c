/**
 Coordinates as the two location services handle them: rounded to a fixed number of decimals,
 printed with "%.4f,%.4f" (or "%.2f,%.2f") to name a flight, and stored in a NUMERIC column to
 name a row. An IEEE number has a sign even when it is zero, so both the input and the rounded
 coordinate are kept here as sign and magnitude.
 */
module Coordinates {
  import opened Numerals
  import opened Text

  /** A parsed decimal number: Go's ParseFloat reads "-0" as the negative zero. */
  datatype Degrees = Degrees(negative: bool, size: real)

  /** A rounded coordinate; `units` counts ten-thousandths of a degree (hundredths for geocoding). */
  datatype Axis = Axis(negative: bool, units: nat) {
    function Value(): int {
      if negative then -(units as int) else units
    }
  }

  datatype Pos = Pos(lat: Axis, lon: Axis)

  /** The (lat, lon) pair of a cache row. NUMERIC has one zero only. */
  datatype RowKey = RowKey(lat: int, lon: int)

  function Power10(decimals: nat): (p: nat)
    ensures p >= 1
  {
    if decimals == 0 then 1 else 10 * Power10(decimals - 1)
  }

  function Scaled(d: Degrees, decimals: nat): (x: real)
    requires d.size >= 0.0
    ensures x >= 0.0
  {
    d.size * Power10(decimals) as real
  }

  /** Round half away from zero, as Go's math.Round does; the sign survives even when the result is zero. */
  function NormaliseAxis(d: Degrees, decimals: nat): Axis
    requires d.size >= 0.0
  {
    Axis(d.negative, (Scaled(d, decimals) + 0.5).Floor)
  }

  function Normalise(lat: Degrees, lon: Degrees, decimals: nat): Pos
    requires lat.size >= 0.0 && lon.size >= 0.0
  {
    Pos(NormaliseAxis(lat, decimals), NormaliseAxis(lon, decimals))
  }

  function RowOf(p: Pos): RowKey {
    RowKey(p.lat.Value(), p.lon.Value())
  }

  /** The last `width` decimal digits of `n`. */
  function Fraction(n: nat, width: nat): (s: string)
    ensures |s| == width
    ensures forall i :: 0 <= i < |s| ==> s[i] != ','
  {
    if width == 0 then "" else Fraction(n / 10, width - 1) + [DigitChar(n % 10)]
  }

  function Whole(n: nat, p: nat): nat
    requires p >= 1
  {
    n / p
  }

  function Rest(n: nat, p: nat): (r: nat)
    requires p >= 1
    ensures r < p
  {
    n % p
  }

  function PrintAxis(a: Axis, decimals: nat): string {
    Sign(a) + Print(Whole(a.units, Power10(decimals)), 10) + "." + Fraction(Rest(a.units, Power10(decimals)), decimals)
  }

  function Sign(a: Axis): string {
    if a.negative then "-" else ""
  }

  /** The singleflight key of a position. */
  function FlightKey(p: Pos, decimals: nat): string {
    PrintAxis(p.lat, decimals) + "," + PrintAxis(p.lon, decimals)
  }

  /** The signs of the two coordinates differ although both are zero. */
  predicate ZeroSignsDiffer(a: Axis, b: Axis) {
    a.units == 0 && b.units == 0 && a.negative != b.negative
  }

  /** A coordinate that is not a negative zero. */
  predicate Unsigned0(a: Axis) {
    a.units == 0 ==> !a.negative
  }

  predicate Canonical(p: Pos) {
    Unsigned0(p.lat) && Unsigned0(p.lon)
  }

  /** What a caller can check beforehand: no input rounds to a negative zero. */
  lemma CanonicalInput(lat: Degrees, lon: Degrees, decimals: nat)
    requires lat.size >= 0.0 && lon.size >= 0.0
    ensures Canonical(Normalise(lat, lon, decimals)) <==>
            && !(lat.negative && Scaled(lat, decimals) < 0.5)
            && !(lon.negative && Scaled(lon, decimals) < 0.5)
  {
    CanonicalAxis(lat, decimals);
    CanonicalAxis(lon, decimals);
  }

  lemma CanonicalAxis(d: Degrees, decimals: nat)
    requires d.size >= 0.0
    ensures Unsigned0(NormaliseAxis(d, decimals)) <==> !(d.negative && Scaled(d, decimals) < 0.5)
  {
    RoundsToZero(Scaled(d, decimals));
  }

  lemma RoundsToZero(x: real)
    requires x >= 0.0
    ensures (x + 0.5).Floor == 0 <==> x < 0.5
  {
    var f := (x + 0.5).Floor;
    assert f as real <= x + 0.5 < f as real + 1.0;
  }

  lemma {:induction false} FractionInjective(m: nat, n: nat, width: nat)
    requires m < Power10(width) && n < Power10(width)
    requires Fraction(m, width) == Fraction(n, width)
    ensures m == n
  {
    if width > 0 {
      var s, t := Fraction(m, width), Fraction(n, width);
      assert s[..width - 1] == Fraction(m / 10, width - 1);
      assert t[..width - 1] == Fraction(n / 10, width - 1);
      assert s[width - 1] == DigitChar(m % 10) && t[width - 1] == DigitChar(n % 10);
      DigitValueOf(m % 10);
      DigitValueOf(n % 10);
      FractionInjective(m / 10, n / 10, width - 1);
    }
  }

  lemma PrintAxisHasNoComma(a: Axis, decimals: nat)
    ensures ',' !in PrintAxis(a, decimals)
  {
    PrintHasNo(Whole(a.units, Power10(decimals)), 10, ',');
  }

  lemma PrintAxisInjective(a: Axis, b: Axis, decimals: nat)
    requires PrintAxis(a, decimals) == PrintAxis(b, decimals)
    ensures a == b
  {
    var p := Power10(decimals);
    var ia, ib := Print(Whole(a.units, p), 10), Print(Whole(b.units, p), 10);
    var fa, fb := Fraction(Rest(a.units, p), decimals), Fraction(Rest(b.units, p), decimals);
    assert PrintAxis(a, decimals) == Sign(a) + ia + "." + fa;
    assert PrintAxis(b, decimals) == Sign(b) + ib + "." + fb;
    SameEnds(Sign(a) + ia + ".", fa, Sign(b) + ib + ".", fb);
    SameEnds(Sign(a) + ia, ".", Sign(b) + ib, ".");
    SameSigned(a, ia, b, ib);
    SameParts(Whole(a.units, p), Rest(a.units, p), Whole(b.units, p), Rest(b.units, p), decimals);
    QuotientAndRemainder(a.units, b.units, p);
  }

  lemma SameParts(q: nat, r: nat, q': nat, r': nat, decimals: nat)
    requires Print(q, 10) == Print(q', 10)
    requires r < Power10(decimals) && r' < Power10(decimals)
    requires Fraction(r, decimals) == Fraction(r', decimals)
    ensures q == q' && r == r'
  {
    PrintInjective(q, q', 10);
    FractionInjective(r, r', decimals);
  }

  lemma QuotientAndRemainder(m: nat, n: nat, p: nat)
    requires p >= 1 && Whole(m, p) == Whole(n, p) && Rest(m, p) == Rest(n, p)
    ensures m == n
  {
    assert m == m / p * p + m % p;
    assert n == n / p * p + n % p;
  }

  lemma SameEnds(a: string, x: string, b: string, y: string)
    requires a + x == b + y && |x| == |y|
    ensures a == b && x == y
  {
    assert (a + x)[|a|..] == x && (b + y)[|b|..] == y;
    assert (a + x)[..|a|] == a && (b + y)[..|b|] == b;
  }

  lemma SameSigned(a: Axis, s: string, b: Axis, t: string)
    requires s != "" && t != "" && s[0] != '-' && t[0] != '-'
    requires Sign(a) + s == Sign(b) + t
    ensures a.negative == b.negative && s == t
  {
    assert (Sign(a) + s)[0] == if a.negative then '-' else s[0];
    assert (Sign(b) + t)[0] == if b.negative then '-' else t[0];
    SameTails(Sign(a), s, Sign(b), t);
  }

  lemma SameTails(a: string, x: string, b: string, y: string)
    requires a + x == b + y && |a| == |b|
    ensures x == y
  {
    assert (a + x)[|a|..] == x && (b + y)[|b|..] == y;
  }

  /** A flight key names a signed position: nothing is lost in printing. */
  lemma FlightKeyInjective(p: Pos, q: Pos, decimals: nat)
    ensures FlightKey(p, decimals) == FlightKey(q, decimals) <==> p == q
  {
    if FlightKey(p, decimals) == FlightKey(q, decimals) {
      SplitKey(p, decimals);
      SplitKey(q, decimals);
      var kp, kq := Split(FlightKey(p, decimals), ','), Split(FlightKey(q, decimals), ',');
      assert kp[0] == kq[0] && kp[1] == kq[1];
      PrintAxisInjective(p.lat, q.lat, decimals);
      PrintAxisInjective(p.lon, q.lon, decimals);
    }
  }

  lemma SplitKey(p: Pos, decimals: nat)
    ensures Split(FlightKey(p, decimals), ',') == [PrintAxis(p.lat, decimals), PrintAxis(p.lon, decimals)]
  {
    PrintAxisHasNoComma(p.lat, decimals);
    PrintAxisHasNoComma(p.lon, decimals);
    SplitAppend(PrintAxis(p.lat, decimals), ',', PrintAxis(p.lon, decimals));
    SplitWhole(PrintAxis(p.lat, decimals), ',');
    SplitWhole(PrintAxis(p.lon, decimals), ',');
  }

  /**
   Sharing a flight always means sharing a row. The converse, that one row has one flight, holds
   exactly when no coordinate is a zero carrying two different signs.
   */
  lemma FlightsVersusRows(p: Pos, q: Pos, decimals: nat)
    ensures FlightKey(p, decimals) == FlightKey(q, decimals) <==>
            RowOf(p) == RowOf(q) && !ZeroSignsDiffer(p.lat, q.lat) && !ZeroSignsDiffer(p.lon, q.lon)
  {
    FlightKeyInjective(p, q, decimals);
  }

  /** Without negative zeros, requests share a flight exactly when they share a row. */
  lemma OneFlightPerRow(p: Pos, q: Pos, decimals: nat)
    requires Canonical(p) && Canonical(q)
    ensures FlightKey(p, decimals) == FlightKey(q, decimals) <==> RowOf(p) == RowOf(q)
  {
    FlightsVersusRows(p, q, decimals);
  }
}
