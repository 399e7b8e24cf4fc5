/**
 Progress samples and the cleaning pipeline that the estimator runs before
 fitting: drop non-finite percentages, clamp the rest to [0,100], and sort
 stably by time (LINQ `Where`, `Select`, `OrderBy`).

 A percentage is a real number or a non-finite IEEE value (NaN or an
 infinity); times are `DateTime` ticks (100 ns units).
 */
module ProgressPoints {

  datatype Percentage = Finite(value: real) | NonFinite

  /** `record ProgressPoint(double Percentage, DateTime Time)` */
  datatype ProgressPoint = ProgressPoint(percentage: Percentage, time: int)

  /** Every percentage is finite and lies in [0,100]. */
  predicate InRange(s: seq<ProgressPoint>)
  {
    forall i :: 0 <= i < |s| ==> s[i].percentage.Finite? && 0.0 <= s[i].percentage.value <= 100.0
  }

  /** Non-decreasing by time. */
  predicate SortedByTime(s: seq<ProgressPoint>)
  {
    forall i, j :: 0 <= i < j < |s| ==> s[i].time <= s[j].time
  }

  /** `Math.Max(0, Math.Min(100, v))` */
  function Clamp(v: real): (r: real)
    ensures 0.0 <= r <= 100.0
    ensures 0.0 <= v <= 100.0 ==> r == v
    ensures v < 0.0 ==> r == 0.0
    ensures v > 100.0 ==> r == 100.0
  {
    var low := if 100.0 < v then 100.0 else v;
    if 0.0 < low then low else 0.0
  }

  /** Number of points whose percentage is finite. */
  function CountFinite(s: seq<ProgressPoint>): nat
  {
    if s == [] then 0 else (if s[0].percentage.Finite? then 1 else 0) + CountFinite(s[1..])
  }

  /** The `Where` (finite only) and `Select` (clamp) stages, in input order. */
  function FilterClamp(s: seq<ProgressPoint>): (r: seq<ProgressPoint>)
    ensures InRange(r)
    ensures |r| == CountFinite(s)
    ensures forall i :: 0 <= i < |r| ==> exists j :: 0 <= j < |s| && s[j].time == r[i].time
  {
    if s == [] then []
    else
      var rest := FilterClamp(s[1..]);
      match s[0].percentage
      case NonFinite => rest
      case Finite(v) => [ProgressPoint(Finite(Clamp(v)), s[0].time)] + rest
  }

  /** Inserts `x` into a time-sorted sequence before the first point that is
      not earlier than it, so that `x` precedes the equal-time points that
      came after it in the input. */
  function InsertByTime(x: ProgressPoint, s: seq<ProgressPoint>): seq<ProgressPoint>
  {
    if s == [] || x.time <= s[0].time then [x] + s
    else [s[0]] + InsertByTime(x, s[1..])
  }

  /** The `OrderBy(p => p.Time)` stage: a stable sort by time. */
  function SortByTime(s: seq<ProgressPoint>): seq<ProgressPoint>
  {
    if s == [] then [] else InsertByTime(s[0], SortByTime(s[1..]))
  }

  /** The subsequence of points stamped with time `t`. Two sequences with the
      same such subsequence for every `t` hold the same points, and points
      with equal times in the same relative order. */
  function WithTime(s: seq<ProgressPoint>, t: int): seq<ProgressPoint>
  {
    if s == [] then [] else (if s[0].time == t then [s[0]] else []) + WithTime(s[1..], t)
  }

  /** The whole cleaning pipeline of EstimateRemaining. */
  function Clean(s: seq<ProgressPoint>): (r: seq<ProgressPoint>)
    ensures InRange(r)
    ensures SortedByTime(r)
    ensures |r| == CountFinite(s)
    ensures multiset(r) == multiset(FilterClamp(s))
    ensures forall t :: WithTime(r, t) == WithTime(FilterClamp(s), t)
  {
    var f := FilterClamp(s);
    SortByTimeSorted(f);
    SortByTimeStable(f);
    SortByTimePermutes(f);
    InRangePermutation(f, SortByTime(f));
    assert |SortByTime(f)| == |multiset(SortByTime(f))| == |multiset(f)| == |f|;
    SortByTime(f)
  }

  // ---------------------------------------------------------------------
  // Lemmas about the filter/clamp stage

  /** Filtering and clamping distributes over concatenation: the stage is a
      point-by-point map. */
  lemma {:induction false} FilterClampConcat(a: seq<ProgressPoint>, b: seq<ProgressPoint>)
    ensures FilterClamp(a + b) == FilterClamp(a) + FilterClamp(b)
  {
    if a == [] {
      assert a + b == b;
    } else {
      assert (a + b)[0] == a[0];
      assert (a + b)[1..] == a[1..] + b;
      FilterClampConcat(a[1..], b);
    }
  }

  /** Points already finite and in range pass through unchanged. */
  lemma {:induction false} FilterClampKeepsInRange(s: seq<ProgressPoint>)
    requires InRange(s)
    ensures FilterClamp(s) == s
  {
    if s != [] {
      var rest := s[1..];
      InRangeTail(s);
      FilterClampKeepsInRange(rest);
      var v := s[0].percentage.value;
      assert s[0] == ProgressPoint(Finite(Clamp(v)), s[0].time);
      calc {
        FilterClamp(s);
        [ProgressPoint(Finite(Clamp(v)), s[0].time)] + FilterClamp(rest);
        [s[0]] + rest;
        s;
      }
    }
  }

  lemma InRangeTail(s: seq<ProgressPoint>)
    requires s != [] && InRange(s)
    ensures InRange(s[1..])
  {
    forall i | 0 <= i < |s[1..]| ensures s[1..][i] == s[i + 1] { }
  }

  lemma SortedTail(s: seq<ProgressPoint>)
    requires s != [] && SortedByTime(s)
    ensures SortedByTime(s[1..])
  {
    forall i, j | 0 <= i < j < |s[1..]| ensures s[1..][i].time <= s[1..][j].time {
      assert s[1..][i] == s[i + 1] && s[1..][j] == s[j + 1];
    }
  }

  /** Cleaning twice is cleaning once. */
  lemma FilterClampIdempotent(s: seq<ProgressPoint>)
    ensures FilterClamp(FilterClamp(s)) == FilterClamp(s)
  {
    FilterClampKeepsInRange(FilterClamp(s));
  }

  /** A point whose percentage is not finite is dropped; a finite one becomes
      one clamped point with its time. */
  lemma FilterClampSingleton(p: ProgressPoint)
    ensures p.percentage.NonFinite? ==> FilterClamp([p]) == []
    ensures p.percentage.Finite? ==>
      FilterClamp([p]) == [ProgressPoint(Finite(Clamp(p.percentage.value)), p.time)]
  {
    assert [p][1..] == [];
  }

  // ---------------------------------------------------------------------
  // Lemmas about the stable sort

  lemma {:induction false} InsertByTimePermutes(x: ProgressPoint, s: seq<ProgressPoint>)
    ensures multiset(InsertByTime(x, s)) == multiset(s) + multiset{x}
  {
    if s != [] && x.time > s[0].time {
      InsertByTimePermutes(x, s[1..]);
      assert s == [s[0]] + s[1..];
    }
  }

  lemma {:induction false} SortByTimePermutes(s: seq<ProgressPoint>)
    ensures multiset(SortByTime(s)) == multiset(s)
  {
    if s != [] {
      SortByTimePermutes(s[1..]);
      InsertByTimePermutes(s[0], SortByTime(s[1..]));
      assert s == [s[0]] + s[1..];
    }
  }

  lemma {:induction false} InsertByTimeSorted(x: ProgressPoint, s: seq<ProgressPoint>)
    requires SortedByTime(s)
    ensures SortedByTime(InsertByTime(x, s))
  {
    if s != [] && x.time > s[0].time {
      SortedTail(s);
      InsertByTimeSorted(x, s[1..]);
      var rest := InsertByTime(x, s[1..]);
      InsertAfterHead(x, s, rest);
      SortedCons(s[0], rest);
    }
  }

  /** Every point of `InsertByTime(x, s[1..])` is no earlier than `s[0]`
      when `x` is later than it. */
  lemma InsertAfterHead(x: ProgressPoint, s: seq<ProgressPoint>, rest: seq<ProgressPoint>)
    requires s != [] && SortedByTime(s) && x.time > s[0].time
    requires rest == InsertByTime(x, s[1..])
    ensures forall k :: 0 <= k < |rest| ==> s[0].time <= rest[k].time
  {
    InsertByTimePermutes(x, s[1..]);
    forall k | 0 <= k < |rest| ensures s[0].time <= rest[k].time {
      assert rest[k] in multiset(rest);
      if rest[k] != x {
        assert rest[k] in multiset(s[1..]);
        var j :| 0 <= j < |s[1..]| && s[1..][j] == rest[k];
        assert s[1..][j] == s[j + 1];
      }
    }
  }

  lemma SortedCons(p: ProgressPoint, rest: seq<ProgressPoint>)
    requires SortedByTime(rest)
    requires forall k :: 0 <= k < |rest| ==> p.time <= rest[k].time
    ensures SortedByTime([p] + rest)
  {
    var r := [p] + rest;
    forall i, j | 0 <= i < j < |r| ensures r[i].time <= r[j].time {
      assert r[j] == rest[j - 1];
      if i > 0 {
        assert r[i] == rest[i - 1];
      }
    }
  }

  lemma {:induction false} SortByTimeSorted(s: seq<ProgressPoint>)
    ensures SortedByTime(SortByTime(s))
  {
    if s != [] {
      SortByTimeSorted(s[1..]);
      InsertByTimeSorted(s[0], SortByTime(s[1..]));
    }
  }

  lemma WithTimeCons(x: ProgressPoint, s: seq<ProgressPoint>, t: int)
    ensures WithTime([x] + s, t) == (if x.time == t then [x] else []) + WithTime(s, t)
  {
    assert ([x] + s)[0] == x;
    assert ([x] + s)[1..] == s;
  }

  /** Inserting keeps the points of each time in order, with `x` first among
      those of its own time. */
  lemma {:induction false} InsertByTimeStable(x: ProgressPoint, s: seq<ProgressPoint>, t: int)
    requires SortedByTime(s)
    ensures WithTime(InsertByTime(x, s), t) == (if x.time == t then [x] else []) + WithTime(s, t)
  {
    if s == [] || x.time <= s[0].time {
      WithTimeCons(x, s, t);
    } else {
      SortedTail(s);
      InsertByTimeStable(x, s[1..], t);
      WithTimeCons(s[0], InsertByTime(x, s[1..]), t);
      WithTimeCons(s[0], s[1..], t);
      assert s == [s[0]] + s[1..];
    }
  }

  /** The sort is stable. */
  lemma {:induction false} SortByTimeStable(s: seq<ProgressPoint>)
    ensures forall t :: WithTime(SortByTime(s), t) == WithTime(s, t)
  {
    if s != [] {
      SortByTimeStable(s[1..]);
      SortByTimeSorted(s[1..]);
      forall t ensures WithTime(SortByTime(s), t) == WithTime(s, t) {
        InsertByTimeStable(s[0], SortByTime(s[1..]), t);
        WithTimeCons(s[0], s[1..], t);
        assert s == [s[0]] + s[1..];
      }
    }
  }

  /** Sorting an already sorted sequence changes nothing. */
  lemma {:induction false} SortByTimeOfSorted(s: seq<ProgressPoint>)
    requires SortedByTime(s)
    ensures SortByTime(s) == s
  {
    if s != [] {
      SortedTail(s);
      SortByTimeOfSorted(s[1..]);
      assert s == [s[0]] + s[1..];
    }
  }

  lemma InRangePermutation(a: seq<ProgressPoint>, b: seq<ProgressPoint>)
    requires InRange(a)
    requires multiset(b) == multiset(a)
    ensures InRange(b)
  {
    forall i | 0 <= i < |b|
      ensures b[i].percentage.Finite? && 0.0 <= b[i].percentage.value <= 100.0
    {
      assert b[i] in multiset(a);
      var j :| 0 <= j < |a| && a[j] == b[i];
    }
  }

  /** Cleaning already clean samples is the identity. */
  lemma CleanIdempotent(s: seq<ProgressPoint>)
    ensures Clean(Clean(s)) == Clean(s)
  {
    FilterClampKeepsInRange(Clean(s));
    SortByTimeOfSorted(Clean(s));
  }
}
