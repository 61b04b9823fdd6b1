/**
  The real-time image of the sun: the label-to-URL dictionary `real_time`
  (app.py:11-19), the dropdown listing its labels (app.py:54) and the
  `image_filter` callback that looks the chosen label up (app.py:125-128).
*/
module ImageResolver {
  import opened Wrappers
  import opened SunspotData

  /** `real_time`: the dictionary literal of app.py:11-19. */
  const RealTime: map<string, string> := map[
    "EIT 171" := "https://soho.nascom.nasa.gov/data/realtime/eit_171/512/latest.jpg",
    "EIT 195" := "https://soho.nascom.nasa.gov/data/realtime/eit_195/512/latest.jpg",
    "EIT 284" := "https://soho.nascom.nasa.gov/data/realtime/eit_284/512/latest.jpg",
    "EIT304" := "https://soho.nascom.nasa.gov/data/realtime/eit_304/512/latest.jpg",
    "SDO/HMI Magnetogram" := "https://soho.nascom.nasa.gov/data/realtime/hmi_mag/512/latest.jpg",
    "LASCO C2" := "https://soho.nascom.nasa.gov/data/realtime/c2/512/latest.jpg",
    "LASCO C3" := "https://soho.nascom.nasa.gov/data/realtime/c3/512/latest.jpg",
    "MDI Continuum" := "https://soho.nascom.nasa.gov/data/realtime/hmi_igr/1024/latest.jpg"
  ]

  /** `real_time[image_filter]`: the configured URL of a known label, a
      KeyError naming the label for any other. */
  function ImageFilter(key: string): (r: Result<string, Error>)
    ensures r.Success? <==> key in RealTime
    ensures r.Success? ==> r.value == RealTime[key]
    ensures r.Failure? ==> r.error == KeyError(key)
  {
    if key in RealTime then Success(RealTime[key]) else Failure(KeyError(key))
  }

  /** Labels of equal length differ at a named character, so a lookup need not
      search for one. */
  lemma SameLengthLabelsDiffer()
    ensures "EIT 171" != "EIT 195" && "EIT 171" != "EIT 284" && "EIT 195" != "EIT 284"
    ensures "LASCO C2" != "LASCO C3"
  {
    assert "EIT 171"[5] != "EIT 195"[5];
    assert "EIT 171"[4] != "EIT 284"[4];
    assert "EIT 195"[4] != "EIT 284"[4];
    assert "LASCO C2"[7] != "LASCO C3"[7];
  }

  // Each label of the dictionary resolves to its own URL, one lemma per label.

  lemma ImageFilterEit171()
    ensures ImageFilter("EIT 171") == Success("https://soho.nascom.nasa.gov/data/realtime/eit_171/512/latest.jpg")
  {
    SameLengthLabelsDiffer();
  }

  lemma ImageFilterEit195()
    ensures ImageFilter("EIT 195") == Success("https://soho.nascom.nasa.gov/data/realtime/eit_195/512/latest.jpg")
  {
    SameLengthLabelsDiffer();
  }

  lemma ImageFilterEit284()
    ensures ImageFilter("EIT 284") == Success("https://soho.nascom.nasa.gov/data/realtime/eit_284/512/latest.jpg")
  {
    SameLengthLabelsDiffer();
  }

  lemma ImageFilterEit304()
    ensures ImageFilter("EIT304") == Success("https://soho.nascom.nasa.gov/data/realtime/eit_304/512/latest.jpg")
  {
  }

  lemma ImageFilterHmi()
    ensures ImageFilter("SDO/HMI Magnetogram") == Success("https://soho.nascom.nasa.gov/data/realtime/hmi_mag/512/latest.jpg")
  {
  }

  lemma ImageFilterLascoC2()
    ensures ImageFilter("LASCO C2") == Success("https://soho.nascom.nasa.gov/data/realtime/c2/512/latest.jpg")
  {
    SameLengthLabelsDiffer();
  }

  lemma ImageFilterLascoC3()
    ensures ImageFilter("LASCO C3") == Success("https://soho.nascom.nasa.gov/data/realtime/c3/512/latest.jpg")
  {
    SameLengthLabelsDiffer();
  }

  lemma ImageFilterMdi()
    ensures ImageFilter("MDI Continuum") == Success("https://soho.nascom.nasa.gov/data/realtime/hmi_igr/1024/latest.jpg")
  {
  }

  /** A label outside the dictionary raises a KeyError naming it. */
  lemma ImageFilterUnknown()
    ensures ImageFilter("nonexistent") == Failure(KeyError("nonexistent"))
  {
  }

  /** The dictionary's labels are exactly the eight of the literal. */
  lemma RealTimeLabels()
    ensures forall k :: k in RealTime <==> k in ["EIT 171", "EIT 195", "EIT 284", "EIT304",
                                                 "SDO/HMI Magnetogram", "LASCO C2", "LASCO C3", "MDI Continuum"]
  {
  }

  // ---- The dropdown: sorted(list(set(real_time.keys()))) ----

  /** Python's `<` on strings: lexicographic by code point, a proper prefix
      coming first. */
  predicate StrLess(a: string, b: string)
  {
    if a == [] then b != []
    else if b == [] then false
    else if a[0] != b[0] then a[0] < b[0]
    else StrLess(a[1..], b[1..])
  }

  lemma {:induction false} StrLessIrreflexive(a: string)
    ensures !StrLess(a, a)
  {
    if a != [] {
      StrLessIrreflexive(a[1..]);
    }
  }

  lemma {:induction false} StrLessTransitive(a: string, b: string, c: string)
    requires StrLess(a, b) && StrLess(b, c)
    ensures StrLess(a, c)
  {
    if a != [] && b != [] && c != [] && a[0] == b[0] && b[0] == c[0] {
      StrLessTransitive(a[1..], b[1..], c[1..]);
    }
  }

  lemma {:induction false} StrLessTotal(a: string, b: string)
    requires a != b
    ensures StrLess(a, b) || StrLess(b, a)
  {
    if a != [] && b != [] && a[0] == b[0] {
      assert a == [a[0]] + a[1..] && b == [b[0]] + b[1..];
      StrLessTotal(a[1..], b[1..]);
    }
  }

  lemma StrLessAsymmetric(a: string, b: string)
    requires StrLess(a, b)
    ensures !StrLess(b, a)
  {
    if StrLess(b, a) {
      StrLessTransitive(a, b, a);
      StrLessIrreflexive(a);
    }
  }

  /** Strictly increasing: sorted, and every element listed once. */
  ghost predicate StrictlySorted(s: seq<string>)
  {
    forall i, j :: 0 <= i < j < |s| ==> StrLess(s[i], s[j])
  }

  /** `m` is the least element of `s`. */
  predicate IsLeast(s: set<string>, m: string)
  {
    m in s && forall y :: y in s && y != m ==> StrLess(m, y)
  }

  lemma {:induction false} LeastExists(s: set<string>)
    requires s != {}
    ensures exists m :: IsLeast(s, m)
    decreases |s|
  {
    var x :| x in s;
    if s - {x} == {} {
      assert forall y :: y in s ==> y in s - {x} || y == x;
      assert IsLeast(s, x);
    } else {
      LeastExists(s - {x});
      var m :| IsLeast(s - {x}, m);
      StrLessTotal(m, x);
      if StrLess(m, x) {
        assert IsLeast(s, m);
      } else {
        forall y | y in s && y != x ensures StrLess(x, y) {
          if y != m {
            StrLessTransitive(x, m, y);
          }
        }
        assert IsLeast(s, x);
      }
    }
  }

  lemma LeastUnique(s: set<string>)
    ensures forall m, m' :: IsLeast(s, m) && IsLeast(s, m') ==> m == m'
  {
    forall m, m' | IsLeast(s, m) && IsLeast(s, m') ensures m == m' {
      if m != m' {
        StrLessAsymmetric(m, m');
      }
    }
  }

  /** `sorted(list(s))` for a set of labels: each label once, in increasing
      order. */
  function SortedLabels(s: set<string>): (r: seq<string>)
    ensures StrictlySorted(r)
    ensures forall y :: y in r <==> y in s
    decreases |s|
  {
    if s == {} then []
    else
      LeastExists(s);
      LeastUnique(s);
      var m :| IsLeast(s, m);
      var rest := SortedLabels(s - {m});
      assert forall j :: 0 <= j < |rest| ==> StrLess(m, rest[j]) by {
        forall j | 0 <= j < |rest| ensures StrLess(m, rest[j]) {
          assert rest[j] in rest;
          assert rest[j] in s - {m};
        }
      }
      [m] + rest
  }

  /** The dropdown's options (app.py:54): the dictionary's labels, de-duplicated
      and sorted. */
  function DropdownOptions(): (opts: seq<string>)
    ensures StrictlySorted(opts)
    ensures forall y :: y in opts <==> y in RealTime
  {
    SortedLabels(RealTime.Keys)
  }

  /** Every option the dropdown offers resolves, and every label of the
      dictionary is offered exactly once. */
  lemma DropdownMatchesLookup()
    ensures forall o :: o in DropdownOptions() ==> ImageFilter(o).Success?
    ensures forall k :: k in RealTime ==> multiset(DropdownOptions())[k] == 1
  {
    var opts := DropdownOptions();
    forall k | k in RealTime ensures multiset(opts)[k] == 1 {
      OnceInStrictlySorted(opts, k);
    }
  }

  /** An element of a strictly increasing list occurs in it once. */
  lemma {:induction false} OnceInStrictlySorted(s: seq<string>, y: string)
    requires StrictlySorted(s) && y in s
    ensures multiset(s)[y] == 1
  {
    assert s == [s[0]] + s[1..];
    assert StrictlySorted(s[1..]) by {
      forall i, j | 0 <= i < j < |s[1..]| ensures StrLess(s[1..][i], s[1..][j]) {
        assert s[1..][i] == s[i + 1] && s[1..][j] == s[j + 1];
      }
    }
    MinNotInTail(s, y);
    if y == s[0] {
      assert y !in s[1..];
    } else {
      OnceInStrictlySorted(s[1..], y);
    }
  }

  /** Two strictly increasing lists with the same elements are equal. */
  lemma {:induction false} StrictlySortedUnique(a: seq<string>, b: seq<string>)
    requires StrictlySorted(a) && StrictlySorted(b)
    requires forall y :: y in a <==> y in b
    ensures a == b
  {
    EmptyWhenNoElements(a);
    EmptyWhenNoElements(b);
    if a != [] && b != [] {
      assert a[0] in a && b[0] in b;
      var i :| 0 <= i < |b| && b[i] == a[0];
      var j :| 0 <= j < |a| && a[j] == b[0];
      if i != 0 && j != 0 {
        assert StrLess(b[0], b[i]);
        StrLessAsymmetric(b[0], a[0]);
        assert false;
      }
      forall y
        ensures y in a[1..] <==> y in b[1..]
      {
        MinNotInTail(a, y);
        MinNotInTail(b, y);
      }
      assert StrictlySorted(a[1..]) by {
        forall i, j | 0 <= i < j < |a[1..]| ensures StrLess(a[1..][i], a[1..][j]) {
          assert a[1..][i] == a[i + 1] && a[1..][j] == a[j + 1];
        }
      }
      assert StrictlySorted(b[1..]) by {
        forall i, j | 0 <= i < j < |b[1..]| ensures StrLess(b[1..][i], b[1..][j]) {
          assert b[1..][i] == b[i + 1] && b[1..][j] == b[j + 1];
        }
      }
      StrictlySortedUnique(a[1..], b[1..]);
      assert a == [a[0]] + a[1..] && b == [b[0]] + b[1..];
    }
  }

  lemma EmptyWhenNoElements(s: seq<string>)
    ensures s == [] <==> forall y :: y !in s
  {
    if s != [] {
      assert s[0] in s;
    }
  }

  lemma MinNotInTail(s: seq<string>, y: string)
    requires StrictlySorted(s) && s != []
    ensures y in s[1..] <==> y in s && y != s[0]
  {
    if y in s[1..] {
      var j :| 0 <= j < |s[1..]| && s[1..][j] == y;
      assert StrLess(s[0], s[j + 1]);
      StrLessIrreflexive(s[0]);
    }
    if y in s && y != s[0] {
      var j :| 0 <= j < |s| && s[j] == y;
      assert s[1..][j - 1] == y;
    }
  }

  /** The dropdown lists the eight labels exactly once each, in Python's
      string order. */
  lemma DropdownOptionsValue()
    ensures DropdownOptions() == ["EIT 171", "EIT 195", "EIT 284", "EIT304",
                                  "LASCO C2", "LASCO C3", "MDI Continuum", "SDO/HMI Magnetogram"]
  {
    ExpectedOptionsSorted();
    ExpectedOptionsLabels();
    StrictlySortedUnique(DropdownOptions(), ["EIT 171", "EIT 195", "EIT 284", "EIT304",
                                             "LASCO C2", "LASCO C3", "MDI Continuum", "SDO/HMI Magnetogram"]);
  }

  /** The eight labels in the listed order are strictly increasing. */
  lemma ExpectedOptionsSorted()
    ensures StrictlySorted(["EIT 171", "EIT 195", "EIT 284", "EIT304",
                            "LASCO C2", "LASCO C3", "MDI Continuum", "SDO/HMI Magnetogram"])
  {
    EightSorted("EIT 171", "EIT 195", "EIT 284", "EIT304",
                "LASCO C2", "LASCO C3", "MDI Continuum", "SDO/HMI Magnetogram",
                5, 4, 3, 0, 7, 0, 0);
  }

  /** The listed labels are exactly the dropdown's options. */
  lemma ExpectedOptionsLabels()
    ensures forall y :: y in DropdownOptions() <==> y in ["EIT 171", "EIT 195", "EIT 284", "EIT304",
                                                          "LASCO C2", "LASCO C3", "MDI Continuum", "SDO/HMI Magnetogram"]
  {
    RealTimeLabels();
  }

  /** `a` and `b` agree before position `k` and `a` has the smaller character there. */
  predicate DiffersFirstAt(a: string, b: string, k: nat)
  {
    k < |a| && k < |b| && a[k] < b[k] && forall j :: 0 <= j < k ==> a[j] == b[j]
  }

  /** Strings are ordered by their first differing character. */
  lemma {:induction false} StrLessAt(a: string, b: string, k: nat)
    requires DiffersFirstAt(a, b, k)
    ensures StrLess(a, b)
  {
    if k > 0 {
      StrLessAt(a[1..], b[1..], k - 1);
    }
  }

  /** Eight strings, each differing first from the next at the given position
      with a smaller character, are strictly increasing. */
  lemma EightSorted(a: string, b: string, c: string, d: string, e: string, f: string, g: string, h: string,
                    k1: nat, k2: nat, k3: nat, k4: nat, k5: nat, k6: nat, k7: nat)
    requires DiffersFirstAt(a, b, k1) && DiffersFirstAt(b, c, k2) && DiffersFirstAt(c, d, k3)
    requires DiffersFirstAt(d, e, k4) && DiffersFirstAt(e, f, k5) && DiffersFirstAt(f, g, k6)
    requires DiffersFirstAt(g, h, k7)
    ensures StrictlySorted([a, b, c, d, e, f, g, h])
  {
    StrLessAt(a, b, k1);
    StrLessAt(b, c, k2);
    StrLessAt(c, d, k3);
    StrLessAt(d, e, k4);
    StrLessAt(e, f, k5);
    StrLessAt(f, g, k6);
    StrLessAt(g, h, k7);
    ChainSorted([a, b, c, d, e, f, g, h]);
  }

  /** A list where each element is below the next is strictly increasing. */
  lemma {:induction false} ChainSorted(s: seq<string>)
    requires forall i :: 0 <= i < |s| - 1 ==> StrLess(s[i], s[i + 1])
    ensures StrictlySorted(s)
  {
    if |s| > 1 {
      var t := s[1..];
      assert forall i :: 0 <= i < |t| - 1 ==> StrLess(t[i], t[i + 1]) by {
        forall i | 0 <= i < |t| - 1 ensures StrLess(t[i], t[i + 1]) {
          assert t[i] == s[i + 1] && t[i + 1] == s[i + 2];
        }
      }
      ChainSorted(t);
      forall i, j | 0 <= i < j < |s| ensures StrLess(s[i], s[j]) {
        if i > 0 {
          assert s[i] == t[i - 1] && s[j] == t[j - 1];
        } else if j > 1 {
          assert s[1] == t[0] && s[j] == t[j - 1];
          StrLessTransitive(s[0], s[1], s[j]);
        }
      }
    }
  }
}
