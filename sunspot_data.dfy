/**
  The table the dashboard loads once at start-up from the monthly sunspot file
  (app.py:7-8), one `Record` per row, in file order. Loading itself is not part
  of this model; a table is given as a value.
*/
module SunspotData {
  import opened Wrappers

  /** One row: the seven named columns of the file, plus the `Cycle_Length`
      column that the scatter callback adds to the shared table. Before that
      column exists every row holds `None` there. */
  datatype Record = Record(
    year: int,
    month: int,
    date: real,           // decimal year, e.g. 1749.042
    meanNumber: real,     // monthly mean sunspot number
    sd: real,             // "S.D."
    observations: int,
    marker: int,
    cycleLength: Option<real>)

  /** The exceptions the modelled callbacks can raise. */
  datatype Error =
    | InvalidWindow(window: int)   // pandas' ValueError for a negative rolling window
    | KeyError(key: string)      // dictionary miss in the image lookup

  /** The `Mean_Number` column of a table, in row order. */
  function MeanNumbers(t: seq<Record>): (xs: seq<real>)
    ensures |xs| == |t|
    ensures forall i :: 0 <= i < |t| ==> xs[i] == t[i].meanNumber
  {
    seq(|t|, i requires 0 <= i < |t| => t[i].meanNumber)
  }

  /** Years never decrease along the table: the file is ordered by date. */
  ghost predicate YearsSorted(t: seq<Record>)
  {
    forall i, j :: 0 <= i < j < |t| ==> t[i].year <= t[j].year
  }
}
