# Sunspot dashboard: a verified model of its data transformations

The sunspot dashboard is a small Dash application (`app.py`). At start-up it
loads the monthly mean sunspot number series and serves three interactive
views:

* a line chart of the monthly means for a range of years, with a trailing
  moving average over a chosen number of months (`display_graph`);
* a scatter of every month's mean against its date folded modulo a chosen
  cycle length in years (`display_scatter`);
* a real-time image of the sun, looked up by filter name (`image_filter`),
  with a dropdown listing the filter names.

This project models the computations behind those views in Dafny and proves
what they guarantee:

* the year-range selection;
* pandas' rolling mean;
* Python's floating `%`;
* the column written in place into the shared table;
* the dictionary lookup and the sorted option list.

Files, one module each:

| file | module | models |
|---|---|---|
| `wrappers.dfy` | `Wrappers` | `Option` (a float cell, `None` = NaN) and `Result` (a raised exception) |
| `sunspot_data.dfy` | `SunspotData` | the row `Record` and the errors `InvalidWindow` and `KeyError` |
| `range_filter.dfy` | `RangeFilter` | the boolean mask of app.py:74 |
| `smoothing.dfy` | `Smoothing` | `rolling(number_mean).mean()` of app.py:83 |
| `cycle_fold.dfy` | `CycleFold` | `Date % cycle_year` and the scatter points of app.py:110-111 |
| `image_resolver.dfy` | `ImageResolver` | `real_time`, `image_filter` and the dropdown options |
| `dashboard.dfy` | `Dashboard` | the two chart callbacks and the shared table `data` as a class |

Modelling decisions:

* `Date`, `Mean_Number` and `S.D.` are mathematical `real`s. A NaN that
  pandas produces is `None` in an `Option<real>`.
* The rolling mean is defined the way pandas computes it. A running window
  sum adds the value that enters the window and subtracts the one that leaves.
  It is proved equal to the reference definition: the sum of the last `w`
  values divided by `w`, defined exactly from position `w - 1` on. This holds
  for every window: 0, 1, and windows longer than the series. A negative
  window raises pandas' `ValueError`, modelled as `Failure(InvalidWindow(w))`.
* The boolean mask at app.py:74 builds a new table. The `smoothing` column
  of app.py:83 is therefore written into that copy, not into the shared
  table. `GraphView` returns it beside the selected rows.
* `Date % cycle_year` is Python's floored modulo, `d - p * floor(d / p)`,
  which takes the sign of the divisor. pandas returns NaN for a zero divisor,
  modelled as `None`. The slider only offers periods 1 to 20. For those, every
  phase lies in `[0, p)`, and it is the unique such value that differs from
  the date by a whole number of periods.
* `display_scatter` makes `sunspot_df` an alias of the global `data` and then
  assigns a column. That writes `Cycle_Length` into the shared table in
  place. The table is therefore the class `Dashboard.SunspotTable`. It holds
  an `array<Record>` and a flag saying whether the column exists yet.
  `DisplayScatter` updates every row's `cycleLength` field in one parallel
  `forall` assignment, matching the vectorised column write, and leaves every
  other field alone.
* The `dropna()` on app.py:104 returns a new table that nobody keeps, so the
  model removes no row. The scatter has exactly one point per table row.
* `display_graph` selects from the same shared table. It is proved that the
  written column never changes what that callback draws.
* Python orders strings lexicographically by code point, with a proper prefix
  first. This is `StrLess`. `sorted(list(set(keys)))` is `SortedLabels`. It
  repeatedly takes the least remaining label, so each label appears once, in
  increasing order.

Behaviour of the code that the model keeps as written:

* A period of 0 gives NaN and a negative period gives Python's modulo;
  neither raises an error.
* The scatter callback writes `Cycle_Length` into the shared loaded table.
* The year mask keeps rows wherever they stand. The view is guaranteed to be
  one contiguous block when the table is ordered by year (`SelectContiguous`);
  on an unordered table the kept rows may be scattered.

## Model

| member | source | states |
|---|---|---|
| RangeFilter.InRange | app.py:74 | the mask is inclusive at both ends, and no row passes it when `lo > hi` |
| RangeFilter.SelectYears | app.py:74 | applying the mask never yields more rows than the table has |
| RangeFilter.SelectSound | app.py:74 | every selected row satisfies `year_range[0] <= Year <= year_range[1]` |
| RangeFilter.SelectCount | app.py:74 | a row occurs in the selection as often as in the table when it passes the mask, and never otherwise |
| RangeFilter.SelectMembership | app.py:74 | a row is selected iff it is in the table and passes the mask (both directions) |
| RangeFilter.SelectIsSubsequence | app.py:74 | the selection is an order-preserving subsequence of the table |
| RangeFilter.SelectAppend | app.py:74 | selecting from a concatenation concatenates the selections (the mask is applied row by row, in order) |
| RangeFilter.SelectIdempotent | app.py:74 | applying the same mask again returns the selection unchanged |
| RangeFilter.SelectAllOrNothing | app.py:74 | a table whose rows all pass the mask is kept whole; one whose rows all fail it gives an empty view |
| RangeFilter.SelectInvertedEmpty | app.py:74 | bounds with `lo > hi` select nothing and raise no error |
| RangeFilter.SelectContiguous | app.py:74 | on a table ordered by year the selection is the block between the first row with year >= lo and the last with year <= hi |
| Smoothing.RollingMean | app.py:83 | pandas' sliding-sum rolling mean is aligned with its input, defined exactly from position w-1 on (never for w = 0), and equals the mean of the last w values there |
| Smoothing.WindowMean | app.py:83 | the windowed mean is defined exactly when the window is non-empty and fits before position i, and then times w gives the sum of the last w values |
| Smoothing.RollingFrom | app.py:83 | the sliding sum emits one entry for each remaining position of the series |
| Smoothing.RollingFromCorrect | app.py:83 | the running window sum (add the entering value, drop the leaving one) yields the windowed mean at every later position |
| Smoothing.Smooth | app.py:83 | a negative window fails with InvalidWindow; any other window gives the rolling mean, one entry per row |
| Smoothing.WindowOneIdentity | app.py:83 | window 1 (the slider default) leaves every entry defined and equal to the original Mean_Number |
| Smoothing.UndefinedWindows | app.py:83 | window 0 (the slider minimum) and any window longer than the view leave every entry NaN |
| Smoothing.MeanWithinWindow | app.py:83 | a defined smoothed value lies within any bounds of the values in its window |
| CycleFold.Phase | app.py:110 | `Date % cycle_year` is NaN exactly for a zero period, lies in [0, p) for p > 0 and in (p, 0] for p < 0 |
| CycleFold.PhaseUnique | app.py:110 | the phase is the only value in that range that differs from the date by a whole number of periods |
| CycleFold.PhasePeriodic | app.py:110 | dates a whole number of periods apart have the same phase |
| CycleFold.Fold | app.py:110 | the column write gives every row its phase and leaves Year, Month, Date, Mean_Number, S.D., observations and marker of every row untouched |
| CycleFold.ScatterPoints | app.py:111 | the scatter has one point per table row, pairing that row's Cycle_Length with its Mean_Number, in table order |
| CycleFold.ScatterOfFold | app.py:104-111 | the scatter of the folded table has one point per row (no row dropped), pairing the row's phase with its unchanged Mean_Number |
| CycleFold.ScatterPhaseRange | app.py:110-111 | for a positive period every plotted phase is defined and in [0, period) |
| CycleFold.ScatterKeepsMeans | app.py:111 | the plotted sunspot numbers are, as a multiset, those of the table |
| CycleFold.FoldOverwrites | app.py:103-110 | writing the column again replaces it: only the latest period counts, and repeating a period changes nothing |
| ImageResolver.ImageFilter | app.py:127 | a label in `real_time` gives its URL, any other label fails with a KeyError naming it |
| ImageResolver.ImageFilterEit171 | app.py:11 | the label "EIT 171" gives its configured URL |
| ImageResolver.ImageFilterEit195 | app.py:12 | the label "EIT 195" gives its configured URL |
| ImageResolver.ImageFilterEit284 | app.py:13 | the label "EIT 284" gives its configured URL |
| ImageResolver.ImageFilterEit304 | app.py:14 | the label "EIT304" gives its configured URL |
| ImageResolver.ImageFilterHmi | app.py:15 | the label "SDO/HMI Magnetogram" gives its configured URL |
| ImageResolver.ImageFilterLascoC2 | app.py:16 | the label "LASCO C2" gives its configured URL |
| ImageResolver.ImageFilterLascoC3 | app.py:17 | the label "LASCO C3" gives its configured URL |
| ImageResolver.ImageFilterMdi | app.py:18 | the label "MDI Continuum" gives its configured URL |
| ImageResolver.ImageFilterUnknown | app.py:127 | a label outside the dictionary, "nonexistent", fails with a KeyError naming it |
| ImageResolver.RealTimeLabels | app.py:11-19 | the dictionary's labels are exactly the eight of the literal |
| ImageResolver.SortedLabels | app.py:54 | `sorted(list(set(...)))` lists every label of the set, and nothing else, in strictly increasing string order |
| ImageResolver.StrictlySortedUnique | app.py:54 | two strictly increasing lists with the same elements are equal, so the option list is determined by the label set |
| ImageResolver.DropdownOptions | app.py:54 | the option list is in strictly increasing string order and holds exactly the labels of `real_time` |
| ImageResolver.DropdownOptionsValue | app.py:54 | the dropdown offers exactly the eight labels, in Python's string order |
| ImageResolver.DropdownMatchesLookup | app.py:54 | every option resolves in `image_filter`, and every label of the dictionary is offered exactly once |
| Dashboard.GraphView | app.py:72-93 | `display_graph` fails only for a negative window; otherwise the plotted rows are exactly the mask's selection, every one in range, and the smoothing line is aligned with the rows and is their windowed mean |
| Dashboard.SelectFold | app.py:74 | selecting rows and writing the phase column commute |
| Dashboard.GraphIgnoresFold | app.py:83 | the column that `display_scatter` writes into the shared table never changes the rows or the smoothing line that `display_graph` draws |
| Dashboard.ThreeRowGraph | app.py:74-83 | years 1749-1751 with means 10, 20, 30: range 1750-1751 selects the last two rows, and window 2 gives [NaN, 25] |
| Dashboard.ThreeRowFold | app.py:110 | period 1 folds the whole-year dates 1749, 1750 and 1751 to phase 0 |
| Dashboard.SunspotTable.constructor | app.py:7-8 | the loaded table holds the given rows and no Cycle_Length column |
| Dashboard.SunspotTable.DisplayGraph | app.py:72-93 | the graph callback reads the shared table without changing it |
| Dashboard.SunspotTable.DisplayScatter | app.py:101-117 | the scatter callback writes every row's phase into the shared array in place, changes no other field and keeps every row, then plots phase against Mean_Number |
| Dashboard.CallbackSequence | app.py:101-111 | two scatter callbacks and then a graph callback on one table: the points carry the latest period's phases; the graph plots the selected rows of the loaded table with the latest period's Cycle_Length, and the smoothing line and the plotted Date / Mean_Number are those of the loaded table |

## Left out

- Loading the CSV file from a fixed path with `pd.read_csv` (app.py:7-8): file I/O and library parsing. A table is given to the model as a value.
- A NaN read from the file: the model holds `Mean_Number` as a number. The published file marks missing months with -1, which the code averages like any other value, and so does the model.
- The Dash app, its layout, widgets, callback wiring and `app.run_server` (app.py:21-62, 65-70, 97-100, 120-123, 130): UI and server plumbing. The sliders only supply the ranges the lemmas mention.
- Plotly figure construction and styling (app.py:76-91, 107-116): rendering only. The model keeps the data each trace plots.
- `datetime.datetime.now()` (app.py:59) and the refresh link (app.py:61): the clock and HTTP navigation.
- The feedback string `'You have selected {} to {}'` (app.py:93): plain string formatting of the two bounds.
- IEEE-754 rounding in the mean and in `%`, and the Kahan compensation pandas adds to its sliding sum: the model computes with exact reals.
- `year_range` as a Python list: the range slider always supplies two values, so the model takes them as two integers.
- Concurrent callbacks sharing the mutated global table: the model runs callbacks one after another.
