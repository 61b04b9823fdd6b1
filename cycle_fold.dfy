/**
  The cycle folding of `display_scatter` (app.py:103-111): the column
  `Cycle_Length = Date % cycle_year` is written into the shared table, and the
  scatter plots it against `Mean_Number`, one point per row.
*/
module CycleFold {
  import opened Wrappers
  import opened SunspotData

  /** Python's (and numpy's) floating `%` by an integer divisor: the result has
      the sign of the divisor; pandas gives NaN for a zero divisor. */
  function Phase(d: real, p: int): (r: Option<real>)
    ensures r.Some? <==> p != 0
    ensures p > 0 ==> 0.0 <= r.value < p as real
    ensures p < 0 ==> p as real < r.value <= 0.0
  {
    if p == 0 then None
    else
      var q := d / (p as real);
      PhaseBounds(d, p as real, q);
      Some(d - (p as real) * (q.Floor as real))
  }

  lemma PhaseBounds(d: real, p: real, q: real)
    requires p != 0.0 && q == d / p
    ensures p > 0.0 ==> 0.0 <= d - p * (q.Floor as real) < p
    ensures p < 0.0 ==> p < d - p * (q.Floor as real) <= 0.0
  {
    var f := q.Floor as real;
    var x := q - f;
    assert d == p * q;
    var r := d - p * f;
    assert r == p * x;
    assert 0.0 <= x < 1.0;
    if p > 0.0 {
      ScaleUnit(p, x, r);
    } else {
      ScaleUnit(-p, x, -r);
    }
  }

  /** The phase is the one value in the divisor's half-open range that differs
      from the date by a whole number of periods. */
  lemma PhaseUnique(d: real, p: int, k: int, q: real)
    requires p != 0
    requires d == (k as real) * (p as real) + q
    requires p > 0 ==> 0.0 <= q < p as real
    requires p < 0 ==> p as real < q <= 0.0
    ensures Phase(d, p) == Some(q)
  {
    var pr := p as real;
    RemainderFraction(q, pr);
    FloorQuotient(d, pr, k, q);
    Recombine(d, pr, k, q);
    var f := (d / pr).Floor as real;
    PhaseValue(d, p);
    MulCong(pr, f, k as real);
    assert d - pr * f == q;
    assert Phase(d, p).value == q;
  }

  // Helpers for the non-linear steps above.

  lemma RemainderFraction(q: real, p: real)
    requires p != 0.0
    requires p > 0.0 ==> 0.0 <= q < p
    requires p < 0.0 ==> p < q <= 0.0
    ensures p * (q / p) == q
    ensures 0.0 <= q / p < 1.0
  {
    var z := q / p;
    assert p * z == q;
    if p > 0.0 {
      DivUnit(q, p);
    } else {
      DivUnit(-q, -p);
      NegDiv(q, p);
    }
  }

  lemma FloorQuotient(d: real, p: real, k: int, q: real)
    requires p != 0.0 && d == (k as real) * p + q
    requires p * (q / p) == q && 0.0 <= q / p < 1.0
    ensures (d / p).Floor == k
  {
    QuotientSplit(d, p, k as real, q, q / p);
    FloorOfSum(k, q / p);
  }

  lemma Recombine(d: real, p: real, k: int, q: real)
    requires d == (k as real) * p + q
    ensures d - p * (k as real) == q
  {
  }

  lemma PhaseValue(d: real, p: int)
    requires p != 0
    ensures Phase(d, p) == Some(d - (p as real) * ((d / (p as real)).Floor as real))
  {
  }

  lemma MulCong(a: real, x: real, y: real)
    requires x == y
    ensures a * x == a * y
  {
  }

  lemma NegDiv(q: real, p: real)
    requires p != 0.0
    ensures (-q) / (-p) == q / p
  {
    var z := q / p;
    assert p * z == q;
    assert (-p) * z == -q;
    CancelDiv(-q, -p, z);
  }

  lemma QuotientSplit(d: real, p: real, k: real, q: real, z: real)
    requires p != 0.0 && d == k * p + q && p * z == q
    ensures d / p == k + z
  {
    assert p * (k + z) == p * k + p * z;
    assert d == p * (k + z);
    CancelDiv(d, p, k + z);
  }

  lemma FloorOfSum(k: int, z: real)
    requires 0.0 <= z < 1.0
    ensures ((k as real) + z).Floor == k
  {
  }

  lemma ScaleUnit(p: real, x: real, r: real)
    requires p > 0.0 && 0.0 <= x < 1.0 && r == p * x
    ensures 0.0 <= r < p
  {
    MulNonNeg(p, x);
    var y := 1.0 - x;
    MulPos(p, y);
    assert p * y == p - p * x;
  }

  lemma MulPos(c: real, y: real)
    requires c > 0.0 && y > 0.0
    ensures c * y > 0.0
  {
  }

  lemma MulNonNeg(c: real, y: real)
    requires c > 0.0 && y >= 0.0
    ensures c * y >= 0.0
  {
  }

  lemma PosFactor(c: real, y: real)
    requires c > 0.0 && c * y > 0.0
    ensures y > 0.0
  {
  }

  lemma NonNegFactor(c: real, y: real)
    requires c > 0.0 && c * y >= 0.0
    ensures y >= 0.0
  {
  }

  lemma DivUnit(a: real, b: real)
    requires b > 0.0 && 0.0 <= a < b
    ensures 0.0 <= a / b < 1.0
  {
    var x := a / b;
    assert b * x == a;
    assert b * (1.0 - x) == b - a;
    PosFactor(b, 1.0 - x);
    NonNegFactor(b, x);
  }

  lemma CancelDiv(d: real, c: real, w: real)
    requires c != 0.0 && d == c * w
    ensures d / c == w
  {
    var t := d / c;
    assert c * t == d;
    assert c * (t - w) == 0.0;
  }

  /** Shifting a date by whole periods leaves its phase unchanged. */
  lemma PhasePeriodic(d: real, p: int, k: int)
    ensures Phase(d + (k as real) * (p as real), p) == Phase(d, p)
  {
    if p != 0 {
      var q := Phase(d, p).value;
      var f := (d / (p as real)).Floor;
      assert d == (f as real) * (p as real) + q;
      PhaseUnique(d + (k as real) * (p as real), p, f + k, q);
    }
  }

  /** The table after `sunspot_df['Cycle_Length'] = sunspot_df['Date'] % cycle_year`:
      every row gets its phase, and nothing else about any row changes. */
  function Fold(t: seq<Record>, p: int): (u: seq<Record>)
    ensures |u| == |t|
    ensures forall i :: 0 <= i < |t| ==> u[i].cycleLength == Phase(t[i].date, p)
    ensures forall i :: 0 <= i < |t| ==>
      u[i].year == t[i].year && u[i].month == t[i].month && u[i].date == t[i].date &&
      u[i].meanNumber == t[i].meanNumber && u[i].sd == t[i].sd &&
      u[i].observations == t[i].observations && u[i].marker == t[i].marker
  {
    seq(|t|, i requires 0 <= i < |t| => t[i].(cycleLength := Phase(t[i].date, p)))
  }

  /** One scatter marker: x is the `Cycle_Length` cell, y the `Mean_Number` cell. */
  datatype Point = Point(phase: Option<real>, meanNumber: real)

  /** The markers of app.py:111, one per row of the table, in row order. */
  function ScatterPoints(t: seq<Record>): (pts: seq<Point>)
    ensures |pts| == |t|
    ensures forall i :: 0 <= i < |t| ==> pts[i] == Point(t[i].cycleLength, t[i].meanNumber)
  {
    if t == [] then []
    else
      var rest := ScatterPoints(t[1..]);
      assert forall i :: 1 <= i < |t| ==> t[1..][i - 1] == t[i];
      [Point(t[0].cycleLength, t[0].meanNumber)] + rest
  }

  /** The scatter of a folded table: one point per row (no row is dropped,
      since the `dropna()` result is discarded), pairing the row's phase with
      its unchanged `Mean_Number`. */
  lemma ScatterOfFold(t: seq<Record>, p: int)
    ensures |ScatterPoints(Fold(t, p))| == |t|
    ensures forall i :: 0 <= i < |t| ==>
      ScatterPoints(Fold(t, p))[i] == Point(Phase(t[i].date, p), t[i].meanNumber)
  {
  }

  /** For a positive period every plotted phase is defined and lies in
      `[0, period)`. */
  lemma ScatterPhaseRange(t: seq<Record>, p: int)
    requires p > 0
    ensures forall pt :: pt in ScatterPoints(Fold(t, p)) ==>
      pt.phase.Some? && 0.0 <= pt.phase.value < p as real
  {
    ScatterOfFold(t, p);
  }

  /** The multiset of plotted sunspot numbers is that of the table. */
  lemma {:induction false} ScatterKeepsMeans(t: seq<Record>)
    ensures multiset(MeanNumbers(t)) == multiset(Means(ScatterPoints(t)))
  {
    if t != [] {
      ScatterKeepsMeans(t[1..]);
      assert MeanNumbers(t) == [t[0].meanNumber] + MeanNumbers(t[1..]);
      var pts := ScatterPoints(t);
      assert pts[1..] == ScatterPoints(t[1..]);
      assert Means(pts) == [pts[0].meanNumber] + Means(pts[1..]);
    }
  }

  /** The y values of a list of markers. */
  function Means(pts: seq<Point>): (ys: seq<real>)
    ensures |ys| == |pts|
  {
    if pts == [] then [] else [pts[0].meanNumber] + Means(pts[1..])
  }

  /** Writing the column again overwrites it: on the shared table only the
      latest period counts, and repeating the same period changes nothing. */
  lemma FoldOverwrites(t: seq<Record>, p1: int, p2: int)
    ensures Fold(Fold(t, p1), p2) == Fold(t, p2)
  {
  }
}
