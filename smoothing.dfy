/**
  The smoothing line of `display_graph` (app.py:83):
  `selected_df['Mean_Number'].rolling(number_mean).mean()`, a trailing moving
  average whose `min_periods` defaults to the window, so a position with fewer
  than `number_mean` rows behind it (itself included) is NaN.
*/
module Smoothing {
  import opened Wrappers
  import opened SunspotData

  /** The sum of a sequence of values, added up from the front. */
  function Sum(s: seq<real>): real
  {
    if s == [] then 0.0 else Sum(s[..|s| - 1]) + s[|s| - 1]
  }

  /** The reference definition: entry `i` of the smoothed series is the
      arithmetic mean of the `w` values ending at `i`, or NaN when fewer than
      `w` of them exist or the window is empty. */
  function WindowMean(xs: seq<real>, w: nat, i: nat): (m: Option<real>)
    requires i < |xs|
    ensures m.Some? <==> 1 <= w <= i + 1
    ensures m.Some? ==> m.value * (w as real) == Sum(xs[i + 1 - w..i + 1])
  {
    if 0 < w <= i + 1 then Some(Sum(xs[i + 1 - w..i + 1]) / (w as real)) else None
  }

  /** Where the window of `w` values ending just before position `i` starts. */
  function WindowStart(i: nat, w: nat): nat
  {
    if i >= w then i - w else 0
  }

  /** pandas' sliding computation: `run` is the sum of the values in the window
      ending before `i`; each step adds the value entering the window, removes
      the one leaving it, and emits the mean once the window is full. */
  function RollingFrom(xs: seq<real>, w: nat, i: nat, run: real): (r: seq<Option<real>>)
    requires i <= |xs|
    ensures |r| == |xs| - i
    decreases |xs| - i
  {
    if i == |xs| then []
    else
      var run' := run + xs[i] - (if i >= w then xs[i - w] else 0.0);
      [if w > 0 && i + 1 >= w then Some(run' / (w as real)) else None] + RollingFrom(xs, w, i + 1, run')
  }

  /** `Series.rolling(w).mean()` for a non-negative window: a series aligned
      index for index with its input, defined exactly from position `w - 1` on,
      where it is the mean of the last `w` values. */
  function RollingMean(xs: seq<real>, w: nat): (r: seq<Option<real>>)
    ensures |r| == |xs|
    ensures forall i :: 0 <= i < |xs| ==> r[i] == WindowMean(xs, w, i)
    ensures forall i :: 0 <= i < |xs| ==> (r[i].Some? <==> 0 < w && w - 1 <= i)
  {
    RollingFromCorrect(xs, w, 0, 0.0);
    RollingFrom(xs, w, 0, 0.0)
  }

  /** The smoothing column of app.py:83 for window `number_mean`: pandas
      rejects a negative window with a ValueError. */
  function Smooth(xs: seq<real>, window: int): (r: Result<seq<Option<real>>, Error>)
    ensures r.Failure? <==> window < 0
    ensures r.Failure? ==> r.error == InvalidWindow(window)
    ensures r.Success? ==> |r.value| == |xs|
    ensures r.Success? ==> forall i :: 0 <= i < |xs| ==> r.value[i] == WindowMean(xs, window, i)
  {
    if window < 0 then Failure(InvalidWindow(window)) else Success(RollingMean(xs, window))
  }

  lemma {:induction false} SumFront(s: seq<real>)
    requires s != []
    ensures Sum(s) == s[0] + Sum(s[1..])
  {
    if |s| > 1 {
      SumFront(s[..|s| - 1]);
      assert s[..|s| - 1][1..] == s[1..][..|s[1..]| - 1];
    } else {
      assert s[..|s| - 1] == [] && s[1..] == [];
    }
  }

  /** One step of the sliding sum keeps it equal to the sum of its window. */
  lemma StepSum(xs: seq<real>, w: nat, i: nat)
    requires i < |xs|
    ensures Sum(xs[WindowStart(i, w)..i]) + xs[i] - (if i >= w then xs[i - w] else 0.0)
         == Sum(xs[WindowStart(i + 1, w)..i + 1])
  {
    var a := WindowStart(i, w);
    assert xs[a..i + 1][..|xs[a..i + 1]| - 1] == xs[a..i];
    assert Sum(xs[a..i + 1]) == Sum(xs[a..i]) + xs[i];
    if i >= w {
      SumFront(xs[a..i + 1]);
      assert xs[a..i + 1][1..] == xs[a + 1..i + 1];
    }
  }

  lemma {:induction false} RollingFromCorrect(xs: seq<real>, w: nat, i: nat, run: real)
    requires i <= |xs|
    requires run == Sum(xs[WindowStart(i, w)..i])
    ensures forall k :: i <= k < |xs| ==> RollingFrom(xs, w, i, run)[k - i] == WindowMean(xs, w, k)
    decreases |xs| - i
  {
    if i < |xs| {
      var run' := run + xs[i] - (if i >= w then xs[i - w] else 0.0);
      StepSum(xs, w, i);
      RollingFromCorrect(xs, w, i + 1, run');
      var r := RollingFrom(xs, w, i, run);
      assert r[1..] == RollingFrom(xs, w, i + 1, run');
      forall k | i < k < |xs|
        ensures r[k - i] == WindowMean(xs, w, k)
      {
        assert r[k - i] == r[1..][k - (i + 1)];
      }
    }
  }

  /** Window 1, the slider's default, reproduces the input exactly. */
  lemma WindowOneIdentity(xs: seq<real>)
    ensures forall i :: 0 <= i < |xs| ==> RollingMean(xs, 1)[i] == Some(xs[i])
  {
    forall i | 0 <= i < |xs|
      ensures RollingMean(xs, 1)[i] == Some(xs[i])
    {
      var s := xs[i..i + 1];
      assert s[..|s| - 1] == [];
      assert Sum(s) == xs[i];
    }
  }

  /** Window 0, the slider's minimum, and any window longer than the series
      leave every entry NaN. */
  lemma UndefinedWindows(xs: seq<real>, w: nat)
    requires w == 0 || w > |xs|
    ensures forall i :: 0 <= i < |xs| ==> RollingMean(xs, w)[i] == None
  {
  }

  /** A defined entry lies between any lower and upper bound of the values of
      its window: smoothing never leaves the range of the data it averages. */
  lemma MeanWithinWindow(xs: seq<real>, w: nat, i: nat, lo: real, hi: real)
    requires i < |xs|
    requires RollingMean(xs, w)[i].Some?
    requires forall j :: i + 1 - w <= j <= i ==> lo <= xs[j] <= hi
    ensures lo <= RollingMean(xs, w)[i].value <= hi
  {
    var s := xs[i + 1 - w..i + 1];
    assert forall j :: 0 <= j < |s| ==> s[j] == xs[i + 1 - w + j];
    SumBounds(s, lo, hi);
    DivBounds(Sum(s), w as real, lo, hi);
  }

  lemma DivBounds(a: real, d: real, lo: real, hi: real)
    requires d > 0.0
    requires d * lo <= a <= d * hi
    ensures lo <= a / d <= hi
  {
    assert a == d * (a / d);
  }

  lemma {:induction false} SumBounds(s: seq<real>, lo: real, hi: real)
    requires forall j :: 0 <= j < |s| ==> lo <= s[j] <= hi
    ensures (|s| as real) * lo <= Sum(s) <= (|s| as real) * hi
  {
    if s != [] {
      var init := s[..|s| - 1];
      assert forall j :: 0 <= j < |init| ==> init[j] == s[j];
      SumBounds(init, lo, hi);
      assert Sum(s) == Sum(init) + s[|s| - 1];
      var n := |init| as real;
      assert (|s| as real) == n + 1.0;
      assert n * lo <= Sum(init) <= n * hi;
      assert lo <= s[|s| - 1] <= hi;
      assert (n + 1.0) * lo == n * lo + lo;
      assert (n + 1.0) * hi == n * hi + hi;
      assert n * lo + lo <= Sum(s) <= n * hi + hi;
    }
  }
}
