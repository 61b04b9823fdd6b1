/**
  The year-range selection of `display_graph` (app.py:74): the boolean mask
  `(Year >= year_range[0]) & (Year <= year_range[1])` applied to the table.
*/
module RangeFilter {
  import opened SunspotData

  /** The mask of app.py:74 for one row: inclusive at both ends. */
  predicate InRange(r: Record, lo: int, hi: int)
    ensures InRange(r, lo, hi) ==> lo <= hi
  {
    lo <= r.year && r.year <= hi
  }

  /** The rows whose mask entry is true, in their original order. */
  function SelectYears(t: seq<Record>, lo: int, hi: int): (v: seq<Record>)
    ensures |v| <= |t|
  {
    if t == [] then []
    else (if InRange(t[0], lo, hi) then [t[0]] else []) + SelectYears(t[1..], lo, hi)
  }

  /** `a` is `b` with some rows left out and the rest kept in order. */
  ghost predicate Subsequence(a: seq<Record>, b: seq<Record>)
    decreases |b|
  {
    if a == [] then true
    else if b == [] then false
    else (a[0] == b[0] && Subsequence(a[1..], b[1..])) || Subsequence(a, b[1..])
  }

  /** Every selected row satisfies the mask. */
  lemma {:induction false} SelectSound(t: seq<Record>, lo: int, hi: int)
    ensures forall i :: 0 <= i < |SelectYears(t, lo, hi)| ==> InRange(SelectYears(t, lo, hi)[i], lo, hi)
  {
    if t != [] {
      SelectSound(t[1..], lo, hi);
    }
  }

  /** A row occurs in the selection exactly as often as it occurs in the table
      when it satisfies the mask, and not at all otherwise. */
  lemma {:induction false} SelectCount(t: seq<Record>, lo: int, hi: int, r: Record)
    ensures multiset(SelectYears(t, lo, hi))[r] == if InRange(r, lo, hi) then multiset(t)[r] else 0
  {
    if t != [] {
      var u := t[1..];
      SelectCount(u, lo, hi, r);
      var head := if InRange(t[0], lo, hi) then [t[0]] else [];
      assert SelectYears(t, lo, hi) == head + SelectYears(u, lo, hi);
      assert multiset(SelectYears(t, lo, hi)) == multiset(head) + multiset(SelectYears(u, lo, hi));
      assert t == [t[0]] + u;
      assert multiset(t) == multiset([t[0]]) + multiset(u);
    }
  }

  /** Membership in both directions: a row is selected iff it is in the table
      and satisfies the mask. */
  lemma SelectMembership(t: seq<Record>, lo: int, hi: int)
    ensures forall r :: r in SelectYears(t, lo, hi) <==> r in t && InRange(r, lo, hi)
  {
    forall r
      ensures r in SelectYears(t, lo, hi) <==> r in t && InRange(r, lo, hi)
    {
      SelectCount(t, lo, hi, r);
    }
  }

  /** The selection is an order-preserving subsequence of the table. */
  lemma {:induction false} SelectIsSubsequence(t: seq<Record>, lo: int, hi: int)
    ensures Subsequence(SelectYears(t, lo, hi), t)
  {
    if t != [] {
      SelectIsSubsequence(t[1..], lo, hi);
      var rest := SelectYears(t[1..], lo, hi);
      if InRange(t[0], lo, hi) {
        assert SelectYears(t, lo, hi) == [t[0]] + rest;
        assert ([t[0]] + rest)[1..] == rest;
      } else {
        assert SelectYears(t, lo, hi) == rest;
        SkipPrefix(rest, t);
      }
    }
  }

  lemma {:induction false} SkipPrefix(a: seq<Record>, b: seq<Record>)
    requires b != [] && Subsequence(a, b[1..])
    ensures Subsequence(a, b)
  {
  }

  /** Selecting from a concatenation selects from each part. */
  lemma {:induction false} SelectAppend(t1: seq<Record>, t2: seq<Record>, lo: int, hi: int)
    ensures SelectYears(t1 + t2, lo, hi) == SelectYears(t1, lo, hi) + SelectYears(t2, lo, hi)
  {
    if t1 != [] {
      SelectAppend(t1[1..], t2, lo, hi);
      assert (t1 + t2)[1..] == t1[1..] + t2;
      assert (t1 + t2)[0] == t1[0];
    } else {
      assert t1 + t2 == t2;
    }
  }

  /** Applying the same mask a second time changes nothing. */
  lemma {:induction false} SelectIdempotent(t: seq<Record>, lo: int, hi: int)
    ensures SelectYears(SelectYears(t, lo, hi), lo, hi) == SelectYears(t, lo, hi)
  {
    if t != [] {
      SelectIdempotent(t[1..], lo, hi);
      var rest := SelectYears(t[1..], lo, hi);
      if InRange(t[0], lo, hi) {
        var v := [t[0]] + rest;
        assert v[0] == t[0] && v[1..] == rest;
        assert SelectYears(t, lo, hi) == v;
        assert SelectYears(v, lo, hi) == [t[0]] + SelectYears(rest, lo, hi);
      } else {
        assert SelectYears(t, lo, hi) == rest;
      }
    }
  }

  /** A table whose rows all satisfy the mask is selected entirely, and one
      whose rows all fail it yields nothing. */
  lemma {:induction false} SelectAllOrNothing(t: seq<Record>, lo: int, hi: int)
    ensures (forall i :: 0 <= i < |t| ==> InRange(t[i], lo, hi)) ==> SelectYears(t, lo, hi) == t
    ensures (forall i :: 0 <= i < |t| ==> !InRange(t[i], lo, hi)) ==> SelectYears(t, lo, hi) == []
  {
    if t != [] {
      var u := t[1..];
      SelectAllOrNothing(u, lo, hi);
      if forall i :: 0 <= i < |t| ==> InRange(t[i], lo, hi) {
        assert forall i :: 0 <= i < |u| ==> InRange(u[i], lo, hi) by {
          forall i | 0 <= i < |u| ensures InRange(u[i], lo, hi) {
            assert u[i] == t[i + 1];
          }
        }
        assert t == [t[0]] + u;
      }
      if forall i :: 0 <= i < |t| ==> !InRange(t[i], lo, hi) {
        assert forall i :: 0 <= i < |u| ==> !InRange(u[i], lo, hi) by {
          forall i | 0 <= i < |u| ensures !InRange(u[i], lo, hi) {
            assert u[i] == t[i + 1];
          }
        }
        assert !InRange(t[0], lo, hi);
      }
    }
  }

  /** Inverted bounds (`year_range[0] > year_range[1]`) select nothing: the
      source raises no error for them. */
  lemma SelectInvertedEmpty(t: seq<Record>, lo: int, hi: int)
    requires lo > hi
    ensures SelectYears(t, lo, hi) == []
  {
    SelectAllOrNothing(t, lo, hi);
  }

  /** The number of leading rows of a table whose year is below `lo`. */
  function CountBelow(t: seq<Record>, lo: int): nat
  {
    if t == [] || t[0].year >= lo then 0 else 1 + CountBelow(t[1..], lo)
  }

  /** On a table ordered by year the selection is one contiguous block:
      the rows from the first with year >= lo up to the last with year <= hi. */
  lemma {:induction false} SelectContiguous(t: seq<Record>, lo: int, hi: int)
    requires YearsSorted(t)
    requires lo <= hi
    ensures CountBelow(t, lo) <= CountBelow(t, hi + 1) <= |t|
    ensures SelectYears(t, lo, hi) == t[CountBelow(t, lo)..CountBelow(t, hi + 1)]
  {
    if t != [] {
      var u := t[1..];
      assert YearsSorted(u) by {
        assert forall i :: 0 <= i < |u| ==> u[i] == t[i + 1];
      }
      SelectContiguous(u, lo, hi);
      var a, b := CountBelow(u, lo), CountBelow(u, hi + 1);
      if t[0].year < lo {
        SkipFirst(t, lo, hi, a, b);
      } else if t[0].year <= hi {
        NoneBelow(u, lo, t[0].year);
        KeepFirst(t, lo, hi, b);
      } else {
        NoneBelow(u, hi + 1, t[0].year);
        SelectAllOrNothing(u, lo, hi);
      }
    }
  }

  /** A leading row outside the range shifts the selected block by one. */
  lemma SkipFirst(t: seq<Record>, lo: int, hi: int, a: nat, b: nat)
    requires t != [] && !InRange(t[0], lo, hi)
    requires a <= b <= |t| - 1
    requires SelectYears(t[1..], lo, hi) == t[1..][a..b]
    ensures SelectYears(t, lo, hi) == t[a + 1..b + 1]
  {
    assert forall k :: 0 <= k < b - a ==> t[1..][a..b][k] == t[a + 1 + k];
    assert t[1..][a..b] == t[a + 1..b + 1];
  }

  /** A leading row inside the range extends a block that starts at the front. */
  lemma KeepFirst(t: seq<Record>, lo: int, hi: int, b: nat)
    requires t != [] && InRange(t[0], lo, hi)
    requires b <= |t| - 1
    requires SelectYears(t[1..], lo, hi) == t[1..][..b]
    ensures SelectYears(t, lo, hi) == t[..b + 1]
  {
    assert [t[0]] + t[1..][..b] == t[..b + 1];
  }

  /** In a table ordered by year whose years are all at least `y >= lo`, no row
      lies below `lo`. */
  lemma {:induction false} NoneBelow(t: seq<Record>, lo: int, y: int)
    requires YearsSorted(t)
    requires lo <= y
    requires forall i :: 0 <= i < |t| ==> y <= t[i].year
    ensures CountBelow(t, lo) == 0
  {
  }
}
