/**
  The two chart callbacks of the dashboard over the table it loaded at start-up
  (the global `data` of app.py:7-8): `display_graph` (app.py:72-93) and
  `display_scatter` (app.py:101-117). The scatter callback writes its column
  into that shared table, so the table is an object here.
*/
module Dashboard {
  import opened Wrappers
  import opened SunspotData
  import opened RangeFilter
  import opened Smoothing
  import opened CycleFold

  /** What `display_graph` plots: the selected rows (the "monthly" line) and
      the smoothing column beside them (the "smoothed" line). */
  datatype Graph = Graph(selected: seq<Record>, smoothing: seq<Option<real>>)

  /** `display_graph(year_range, number_mean)` on the table `data`, with
      `year_range = [lo, hi]`. */
  function GraphView(data: seq<Record>, lo: int, hi: int, numberMean: int): (r: Result<Graph, Error>)
    ensures r.Failure? <==> numberMean < 0
    ensures r.Failure? ==> r.error == InvalidWindow(numberMean)
    ensures r.Success? ==> r.value.selected == SelectYears(data, lo, hi)
    ensures r.Success? ==> forall i :: 0 <= i < |r.value.selected| ==> InRange(r.value.selected[i], lo, hi)
    ensures r.Success? ==> |r.value.smoothing| == |r.value.selected|
    ensures r.Success? ==> forall i :: 0 <= i < |r.value.selected| ==>
      r.value.smoothing[i] == WindowMean(MeanNumbers(r.value.selected), numberMean, i)
  {
    var selected := SelectYears(data, lo, hi);
    SelectSound(data, lo, hi);
    match Smooth(MeanNumbers(selected), numberMean)
    case Failure(e) => Failure(e)
    case Success(smoothing) => Success(Graph(selected, smoothing))
  }

  /** Selecting rows and writing the phase column commute. */
  lemma {:induction false} SelectFold(t: seq<Record>, lo: int, hi: int, p: int)
    ensures SelectYears(Fold(t, p), lo, hi) == Fold(SelectYears(t, lo, hi), p)
  {
    if t != [] {
      SelectFold(t[1..], lo, hi, p);
      assert Fold(t, p)[1..] == Fold(t[1..], p);
      var rest := SelectYears(t[1..], lo, hi);
      if InRange(t[0], lo, hi) {
        assert Fold([t[0]] + rest, p) == [Fold(t, p)[0]] + Fold(rest, p);
      }
    }
  }

  /** The column `display_scatter` writes into the shared table never changes
      what `display_graph` draws: the same rows are selected (apart from their
      `Cycle_Length` cell) and the smoothing line is the same. */
  lemma GraphIgnoresFold(t: seq<Record>, p: int, lo: int, hi: int, numberMean: int)
    ensures GraphView(Fold(t, p), lo, hi, numberMean).Success? == GraphView(t, lo, hi, numberMean).Success?
    ensures GraphView(t, lo, hi, numberMean).Success? ==>
      GraphView(Fold(t, p), lo, hi, numberMean).value.selected == Fold(GraphView(t, lo, hi, numberMean).value.selected, p) &&
      GraphView(Fold(t, p), lo, hi, numberMean).value.smoothing == GraphView(t, lo, hi, numberMean).value.smoothing
  {
    SelectFold(t, lo, hi, p);
    var u := SelectYears(t, lo, hi);
    assert MeanNumbers(Fold(u, p)) == MeanNumbers(u);
  }

  /** The three-row scenario: years 1749-1751 with means 10, 20, 30; the range
      1750-1751 selects the last two rows, and a window of 2 smooths them to
      NaN followed by 25. */
  lemma ThreeRowGraph()
    ensures var t := [Row(1749, 10.0), Row(1750, 20.0), Row(1751, 30.0)];
      GraphView(t, 1750, 1751, 2) == Success(Graph([t[1], t[2]], [None, Some(25.0)]))
  {
    var t := [Row(1749, 10.0), Row(1750, 20.0), Row(1751, 30.0)];
    assert SelectYears(t, 1750, 1751) == [t[1], t[2]] by {
      assert t[1..][1..][1..] == [];
      assert t[1..][1..] == [t[2]];
    }
    var xs := MeanNumbers([t[1], t[2]]);
    assert xs == [20.0, 30.0];
    assert xs[0..2] == xs;
    assert xs[..1] == [20.0];
    assert [20.0][..0] == [];
    assert Sum([20.0]) == 20.0;
    assert Sum(xs) == 50.0;
    var sm := RollingMean(xs, 2);
    assert sm == [None, Some(25.0)];
  }

  /** Folding with period 1 maps whole-year dates to phase 0. */
  lemma ThreeRowFold()
    ensures var t := [Row(1749, 10.0), Row(1750, 20.0), Row(1751, 30.0)];
      forall i :: 0 <= i < 3 ==> Fold(t, 1)[i].cycleLength == Some(0.0)
  {
    var t := [Row(1749, 10.0), Row(1750, 20.0), Row(1751, 30.0)];
    PhaseUnique(1749.0, 1, 1749, 0.0);
    PhaseUnique(1750.0, 1, 1750, 0.0);
    PhaseUnique(1751.0, 1, 1751, 0.0);
  }

  /** A January row of the given year, dated at the whole year. */
  function Row(year: int, meanNumber: real): Record
  {
    Record(year, 1, year as real, meanNumber, 0.0, 0, 0, None)
  }

  /** The shared global table `data`, which `display_scatter` changes in place
      through its alias `sunspot_df` (app.py:103). */
  class SunspotTable {
    var rows: array<Record>
    var hasCycleLength: bool   // whether the `Cycle_Length` column exists yet

    /** The table as loaded: the given rows, without a `Cycle_Length` column. */
    constructor (t: seq<Record>)
      requires forall i :: 0 <= i < |t| ==> t[i].cycleLength == None
      ensures fresh(rows)
      ensures rows[..] == t && !hasCycleLength
    {
      rows := new Record[|t|](i requires 0 <= i < |t| => t[i]);
      hasCycleLength := false;
    }

    /** `display_graph` reads the shared table and changes nothing. */
    method DisplayGraph(lo: int, hi: int, numberMean: int) returns (r: Result<Graph, Error>)
      ensures r == GraphView(rows[..], lo, hi, numberMean)
    {
      r := GraphView(rows[..], lo, hi, numberMean);
    }

    /** `display_scatter(cycle_year)`: writes every row's phase into the shared
      table (the `dropna()` before it builds a table that is thrown away, so
      no row is removed), then plots phase against `Mean_Number`. */
    method DisplayScatter(cycleYear: int) returns (points: seq<Point>)
      modifies this, rows
      ensures rows == old(rows) && hasCycleLength
      ensures rows[..] == Fold(old(rows[..]), cycleYear)
      ensures points == ScatterPoints(rows[..])
    {
      forall i | 0 <= i < rows.Length {
        rows[i] := rows[i].(cycleLength := Phase(rows[i].date, cycleYear));
      }
      hasCycleLength := true;
      points := ScatterPoints(rows[..]);
    }
  }

  /** Two scatter callbacks followed by a graph callback, as the dashboard
      runs them one after another on the shared table: the column holds the
      latest period's phases and the graph is the one of the loaded table. */
  method CallbackSequence(t: seq<Record>, p1: int, p2: int, lo: int, hi: int, numberMean: int)
    returns (pts: seq<Point>, g: Result<Graph, Error>)
    requires forall i :: 0 <= i < |t| ==> t[i].cycleLength == None
    ensures |pts| == |t|
    ensures forall i :: 0 <= i < |t| ==> pts[i] == Point(Phase(t[i].date, p2), t[i].meanNumber)
    ensures g.Success? == GraphView(t, lo, hi, numberMean).Success?
    ensures g.Success? ==> g.value.selected == Fold(GraphView(t, lo, hi, numberMean).value.selected, p2)
    ensures g.Success? ==> g.value.smoothing == GraphView(t, lo, hi, numberMean).value.smoothing
  {
    var table := new SunspotTable(t);
    var _ := table.DisplayScatter(p1);
    pts := table.DisplayScatter(p2);
    g := table.DisplayGraph(lo, hi, numberMean);
    FoldOverwrites(t, p1, p2);
    ScatterOfFold(t, p2);
    GraphIgnoresFold(t, p2, lo, hi, numberMean);
  }
}
