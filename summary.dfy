/** The posterior summariser of `SamplingResult._values`: sort the sample table by
    `lnprob`, take the top row as the most-probable point, find the first row that
    falls 0.5 below the maximum, and from the row after it fold elementwise maxima
    and minima into bounds seeded with the most-probable point. */
module Summary {
  import opened Results
  import opened Chains

  /** An `UncertainValue`: a value with its upper and lower deviations and the
      number of standard deviations they stand for. The constructor only stores
      its arguments; an omitted lower deviation stays absent and the default
      is one sigma. */
  datatype UncertainValue = UncertainValue(value: real, plus: real, minus: Option<real> := None, nSigma: real := 1.0)

  /** Built from a value and an upper deviation alone, an `UncertainValue` keeps
      both, has no lower deviation and stands for one sigma. */
  lemma UncertainValueDefaults(value: real, plus: real)
    ensures var u := UncertainValue(value, plus);
            u.value == value && u.plus == plus && u.minus == None && u.nSigma == 1.0
  {
  }

  /** The fixed log-probability drop that delimits the credible region. */
  const Drop: real := 0.5

  // ---------------------------------------------------------------------------
  // Sorting the table by descending `lnprob`

  predicate SortedByLnprob(rows: seq<Row>) {
    forall i, j :: 0 <= i < j < |rows| ==> rows[i].lnprob >= rows[j].lnprob
  }

  /** Inserts `x` before the first row whose `lnprob` is not larger than its own. */
  function Insert(x: Row, rows: seq<Row>): (r: seq<Row>)
    ensures |r| == |rows| + 1
  {
    if rows == [] || x.lnprob >= rows[0].lnprob then [x] + rows
    else [rows[0]] + Insert(x, rows[1..])
  }

  /** Inserting adds `x` and keeps every other row. */
  lemma {:induction false} InsertPermutes(x: Row, rows: seq<Row>)
    ensures multiset(Insert(x, rows)) == multiset(rows) + multiset{x}
  {
    if !(rows == [] || x.lnprob >= rows[0].lnprob) {
      assert rows == [rows[0]] + rows[1..];
      InsertPermutes(x, rows[1..]);
    }
  }

  /** Inserting a row no higher than a bound into rows no higher than it leaves
      every row no higher than it. */
  lemma {:induction false} InsertBelow(x: Row, rows: seq<Row>, b: real)
    requires x.lnprob <= b
    requires forall i :: 0 <= i < |rows| ==> rows[i].lnprob <= b
    ensures forall i :: 0 <= i < |Insert(x, rows)| ==> Insert(x, rows)[i].lnprob <= b
    decreases |rows|
  {
    if !(rows == [] || x.lnprob >= rows[0].lnprob) {
      var rest := Insert(x, rows[1..]);
      InsertBelow(x, rows[1..], b);
      assert Insert(x, rows) == [rows[0]] + rest;
    }
  }

  lemma {:induction false} InsertSorted(x: Row, rows: seq<Row>)
    requires SortedByLnprob(rows)
    ensures SortedByLnprob(Insert(x, rows))
    decreases |rows|
  {
    if !(rows == [] || x.lnprob >= rows[0].lnprob) {
      var rest := Insert(x, rows[1..]);
      InsertSorted(x, rows[1..]);
      InsertBelow(x, rows[1..], rows[0].lnprob);
      var r := Insert(x, rows);
      assert r == [rows[0]] + rest;
      forall i, j | 0 <= i < j < |r| ensures r[i].lnprob >= r[j].lnprob {
        if i > 0 {
          assert r[i] == rest[i - 1] && r[j] == rest[j - 1];
        } else {
          assert r[j] == rest[j - 1];
        }
      }
    }
  }

  /** A descending sort of the table by `lnprob` (insertion sort; one admissible
      order among rows of equal `lnprob`). */
  function SortByLnprob(rows: seq<Row>): (r: seq<Row>)
    ensures |r| == |rows|
  {
    if rows == [] then [] else Insert(rows[0], SortByLnprob(rows[1..]))
  }

  /** The sort rearranges the rows into descending `lnprob` order. */
  lemma {:induction false} SortByLnprobSorts(rows: seq<Row>)
    ensures multiset(SortByLnprob(rows)) == multiset(rows)
    ensures SortedByLnprob(SortByLnprob(rows))
  {
    if rows != [] {
      assert rows == [rows[0]] + rows[1..];
      SortByLnprobSorts(rows[1..]);
      InsertSorted(rows[0], SortByLnprob(rows[1..]));
      InsertPermutes(rows[0], SortByLnprob(rows[1..]));
    }
  }

  /** Two tables that are permutations of each other hold the same rows. */
  lemma SameRows(rows: seq<Row>, s: seq<Row>, ndim: nat)
    requires multiset(s) == multiset(rows) && Uniform(rows, ndim)
    ensures Uniform(s, ndim)
    ensures forall i :: 0 <= i < |s| ==> s[i] in rows
    ensures forall j :: 0 <= j < |rows| ==> rows[j] in s
  {
    forall i | 0 <= i < |s| ensures s[i] in rows {
      assert s[i] in multiset(s);
    }
    forall j | 0 <= j < |rows| ensures rows[j] in s {
      assert rows[j] in multiset(rows);
    }
  }

  lemma SortKeepsRows(rows: seq<Row>, ndim: nat)
    requires Uniform(rows, ndim)
    ensures Uniform(SortByLnprob(rows), ndim)
    ensures forall i :: 0 <= i < |rows| ==> SortByLnprob(rows)[i] in rows
    ensures forall j :: 0 <= j < |rows| ==> rows[j] in SortByLnprob(rows)
  {
    SortByLnprobSorts(rows);
    SameRows(rows, SortByLnprob(rows), ndim);
  }

  lemma SortedPermutationTop(rows: seq<Row>, s: seq<Row>, ndim: nat)
    requires |rows| > 0 && Uniform(rows, ndim)
    requires multiset(s) == multiset(rows) && SortedByLnprob(s)
    ensures |s| > 0
    ensures MaxLnprob(s) == MaxLnprob(rows) && s[0].lnprob == MaxLnprob(rows)
  {
    SameRows(rows, s, ndim);
    assert |s| == |multiset(s)| == |rows|;
    MaxLnprobIsMax(rows);
    MaxLnprobIsMax(s);
    var j :| 0 <= j < |rows| && rows[j].lnprob == MaxLnprob(rows);
    var i :| 0 <= i < |s| && s[i] == rows[j];
    var j0 :| 0 <= j0 < |rows| && rows[j0] == s[0];
    assert s[0].lnprob >= s[i].lnprob;
    assert rows[j0].lnprob <= MaxLnprob(rows);
    var m :| 0 <= m < |s| && s[m].lnprob == MaxLnprob(s);
    assert s[0].lnprob >= s[m].lnprob;
  }

  /** The top row of the sorted table carries the table's maximum `lnprob`. */
  lemma SortedTopIsMax(rows: seq<Row>, ndim: nat)
    requires |rows| > 0 && Uniform(rows, ndim)
    ensures MaxLnprob(SortByLnprob(rows)) == MaxLnprob(rows)
    ensures SortByLnprob(rows)[0].lnprob == MaxLnprob(rows)
  {
    SortByLnprobSorts(rows);
    SortedPermutationTop(rows, SortByLnprob(rows), ndim);
  }

  // ---------------------------------------------------------------------------
  // The threshold scan

  /** The first index from `i` on whose `lnprob` is not above `cutoff`, or `|rows|`. */
  function FirstAtOrBelow(rows: seq<Row>, cutoff: real, i: nat): (t: nat)
    requires i <= |rows|
    ensures i <= t <= |rows|
    decreases |rows| - i
  {
    if i < |rows| && rows[i].lnprob > cutoff then FirstAtOrBelow(rows, cutoff, i + 1) else i
  }

  /** Every row the scan passes lies above `cutoff`, and the row it stops at, if
      any, does not. */
  lemma {:induction false} FirstAtOrBelowIsFirst(rows: seq<Row>, cutoff: real, i: nat)
    requires i <= |rows|
    ensures var t := FirstAtOrBelow(rows, cutoff, i);
            && (forall j :: i <= j < t ==> rows[j].lnprob > cutoff)
            && (t < |rows| ==> rows[t].lnprob <= cutoff)
    decreases |rows| - i
  {
    if i < |rows| && rows[i].lnprob > cutoff {
      FirstAtOrBelowIsFirst(rows, cutoff, i + 1);
    }
  }

  /** The index at which the threshold scan of `_values` stops: the first row whose
      `lnprob` is at most `Drop` below the maximum, or `|rows|` when there is none. */
  function Threshold(rows: seq<Row>): (t: nat)
    requires |rows| > 0
    ensures t <= |rows|
  {
    FirstAtOrBelow(rows, MaxLnprob(rows) - Drop, 0)
  }

  /** The threshold scan. Its loop condition reads row `i` before it tests
      `i` against the number of rows, so when every row lies within `Drop` of
      the maximum the scan reads one row past the end and raises `IndexError`. */
  method ThresholdIndex(rows: seq<Row>) returns (r: Result<nat>)
    ensures |rows| == 0 ==> r == Err(IndexOutOfRange)
    ensures |rows| > 0 ==>
              var t := Threshold(rows);
              r == if t == |rows| then Err(IndexOutOfRange) else Ok(t)
    ensures r.Ok? ==>
              && r.value < |rows|
              && rows[r.value].lnprob <= MaxLnprob(rows) - Drop
              && forall j :: 0 <= j < r.value ==> rows[j].lnprob > MaxLnprob(rows) - Drop
    ensures r.Err? ==> forall j :: 0 <= j < |rows| ==> rows[j].lnprob > MaxLnprob(rows) - Drop
  {
    if |rows| == 0 {
      return Err(IndexOutOfRange);
    }
    var cutoff := MaxLnprob(rows) - Drop;
    var i := 0;
    while true
      invariant 0 <= i <= |rows|
      invariant forall j :: 0 <= j < i ==> rows[j].lnprob > cutoff
      invariant FirstAtOrBelow(rows, cutoff, i) == FirstAtOrBelow(rows, cutoff, 0)
      decreases |rows| - i
    {
      if i == |rows| {
        // reading row `i` fails before the bound on `i` is checked
        return Err(IndexOutOfRange);
      }
      if !(rows[i].lnprob > cutoff) {
        break;
      }
      i := i + 1;
    }
    r := Ok(i);
  }

  // ---------------------------------------------------------------------------
  // find_bound: folding elementwise maxima (or minima) into the most-probable point

  /** Which bound `find_bound` builds: elementwise maxima for the upper one,
      elementwise minima for the lower one. */
  datatype Direction = Upper | Lower

  /** The fold's combining function on one component. */
  function Pick(dir: Direction, a: real, b: real): real {
    match dir
    case Upper => if a >= b then a else b
    case Lower => if a <= b then a else b
  }

  /** `x` is at least as far in direction `dir` as `y`. */
  predicate Beyond(dir: Direction, x: real, y: real) {
    match dir
    case Upper => x >= y
    case Lower => x <= y
  }

  /** The combining function applied component by component. */
  function Combine(dir: Direction, a: seq<real>, b: seq<real>): (r: seq<real>)
    requires |a| == |b|
    ensures |r| == |a|
  {
    seq(|a|, k requires 0 <= k < |a| => Pick(dir, a[k], b[k]))
  }

  /** Some component of `b` still equals the most-probable point's. */
  predicate Touches(b: seq<real>, mp: seq<real>)
    requires |b| == |mp|
  {
    exists k :: 0 <= k < |b| && b[k] == mp[k]
  }

  /** `acc` folded with `f` over the parameter vectors of `rows`, left to right. */
  function Fold(dir: Direction, acc: seq<real>, rows: seq<Row>): (r: seq<real>)
    requires Uniform(rows, |acc|)
    ensures |r| == |acc|
    decreases |rows|
  {
    if rows == [] then acc
    else Combine(dir, Fold(dir, acc, rows[..|rows| - 1]), rows[|rows| - 1].params)
  }

  /** Each component of the fold is beyond the seed and beyond every folded row, and
      equals the seed or one of those rows: it is their maximum (or minimum). */
  lemma {:induction false} FoldIsExtreme(dir: Direction, acc: seq<real>, rows: seq<Row>, k: nat)
    requires Uniform(rows, |acc|) && k < |acc|
    ensures Beyond(dir, Fold(dir, acc, rows)[k], acc[k])
    ensures forall j :: 0 <= j < |rows| ==> Beyond(dir, Fold(dir, acc, rows)[k], rows[j].params[k])
    ensures Fold(dir, acc, rows)[k] == acc[k] || exists j :: 0 <= j < |rows| && Fold(dir, acc, rows)[k] == rows[j].params[k]
    decreases |rows|
  {
    if rows != [] {
      var front := rows[..|rows| - 1];
      FoldIsExtreme(dir, acc, front, k);
      assert forall j :: 0 <= j < |front| ==> front[j] == rows[j];
      var f := Fold(dir, acc, front)[k];
      var last := rows[|rows| - 1].params[k];
      assert Fold(dir, acc, rows)[k] == Pick(dir, f, last);
      if Fold(dir, acc, rows)[k] != acc[k] && Fold(dir, acc, rows)[k] != last {
        var j :| 0 <= j < |front| && f == front[j].params[k];
        assert Fold(dir, acc, rows)[k] == rows[j].params[k];
      }
    }
  }

  /** Where the loop of `find_bound(f, start)` stops, scanning from `i`: the first
      index at which no component of the accumulator equals `mp`, or `|rows|`. */
  function BoundStop(rows: seq<Row>, mp: seq<real>, dir: Direction, start: nat, i: nat): (stop: nat)
    requires start <= i <= |rows| && Uniform(rows, |mp|)
    ensures i <= stop <= |rows|
    decreases |rows| - i
  {
    if i < |rows| && Touches(Fold(dir, mp, rows[start..i]), mp) then BoundStop(rows, mp, dir, start, i + 1) else i
  }

  /** Every index the loop of `find_bound` passes leaves the accumulator
      touching `mp`. */
  lemma {:induction false} BoundStopTouches(rows: seq<Row>, mp: seq<real>, dir: Direction, start: nat, i: nat)
    requires start <= i <= |rows| && Uniform(rows, |mp|)
    ensures forall j :: i <= j < BoundStop(rows, mp, dir, start, i) ==> Touches(Fold(dir, mp, rows[start..j]), mp)
    decreases |rows| - i
  {
    if i < |rows| && Touches(Fold(dir, mp, rows[start..i]), mp) {
      BoundStopTouches(rows, mp, dir, start, i + 1);
    }
  }

  /** The loop stops early only at an accumulator with no component equal to `mp`. */
  lemma {:induction false} BoundStopDeparts(rows: seq<Row>, mp: seq<real>, dir: Direction, start: nat, i: nat)
    requires start <= i <= |rows| && Uniform(rows, |mp|)
    ensures var stop := BoundStop(rows, mp, dir, start, i);
            stop < |rows| ==> !Touches(Fold(dir, mp, rows[start..stop]), mp)
    decreases |rows| - i
  {
    if i < |rows| && Touches(Fold(dir, mp, rows[start..i]), mp) {
      BoundStopDeparts(rows, mp, dir, start, i + 1);
    }
  }

  /** The loop of `find_bound` runs while some component of the accumulator still
      equals `mp` and rows remain: every index it passes leaves the accumulator
      touching `mp`, and it stops early only once no component does. */
  lemma BoundStopIsFirstDeparture(rows: seq<Row>, mp: seq<real>, dir: Direction, start: nat, i: nat)
    requires start <= i <= |rows| && Uniform(rows, |mp|)
    ensures var stop := BoundStop(rows, mp, dir, start, i);
            && (forall j :: i <= j < stop ==> Touches(Fold(dir, mp, rows[start..j]), mp))
            && (stop < |rows| ==> !Touches(Fold(dir, mp, rows[start..stop]), mp))
  {
    BoundStopTouches(rows, mp, dir, start, i);
    BoundStopDeparts(rows, mp, dir, start, i);
  }

  /** What `find_bound(f, start)` returns: the fold of `f` over `mp` and the rows
      from `start` up to where the loop stops. */
  function Bound(rows: seq<Row>, dir: Direction, start: nat): (b: seq<real>)
    requires |rows| > 0 && Uniform(rows, |rows[0].params|) && start <= |rows|
    ensures |b| == |rows[0].params|
  {
    var mp := rows[0].params;
    Fold(dir, mp, rows[start..BoundStop(rows, mp, dir, start, start)])
  }

  lemma FoldStep(dir: Direction, acc: seq<real>, rows: seq<Row>, start: nat, i: nat)
    requires start <= i < |rows| && Uniform(rows, |acc|)
    ensures Fold(dir, acc, rows[start..i + 1]) == Combine(dir, Fold(dir, acc, rows[start..i]), rows[i].params)
  {
    assert rows[start..i + 1][..i - start] == rows[start..i];
  }

  method FindBound(rows: seq<Row>, dir: Direction, start: nat) returns (b: seq<real>)
    requires |rows| > 0 && Uniform(rows, |rows[0].params|) && start <= |rows|
    ensures b == Bound(rows, dir, start)
    ensures |b| == |rows[0].params|
    ensures forall k :: 0 <= k < |b| ==> Beyond(dir, b[k], rows[0].params[k])
  {
    var mp := rows[0].params;
    b := rows[0].params;
    var i := start;
    while Touches(b, mp) && i < |rows|
      invariant start <= i <= |rows|
      invariant b == Fold(dir, mp, rows[start..i])
      invariant BoundStop(rows, mp, dir, start, i) == BoundStop(rows, mp, dir, start, start)
      decreases |rows| - i
    {
      FoldStep(dir, mp, rows, start, i);
      b := Combine(dir, b, rows[i].params);
      i := i + 1;
    }
    forall k | 0 <= k < |b| ensures Beyond(dir, b[k], mp[k]) {
      FoldIsExtreme(dir, mp, rows[start..i], k);
    }
  }

  // ---------------------------------------------------------------------------
  // _values

  /** One value per parameter: the most-probable coordinate, its distance to
      the upper bound, and its distance to the lower bound. */
  function Report(mp: seq<real>, upper: seq<real>, lower: seq<real>, ndim: nat): (r: seq<UncertainValue>)
    requires |mp| == ndim && |upper| == ndim && |lower| == ndim
    ensures |r| == ndim
  {
    seq(ndim, k requires 0 <= k < ndim => UncertainValue(mp[k], upper[k] - mp[k], Some(mp[k] - lower[k])))
  }

  /** `_values` on a table that is already sorted. */
  function SummaryOfSorted(rows: seq<Row>, ndim: nat): (r: Result<seq<UncertainValue>>)
    requires Uniform(rows, ndim)
  {
    if |rows| == 0 then Err(IndexOutOfRange)
    else
      var t := Threshold(rows);
      if t == |rows| then Err(IndexOutOfRange)
      else Ok(Report(rows[0].params, Bound(rows, Upper, t + 1), Bound(rows, Lower, t + 1), ndim))
  }

  /** `_values(d)`: sort, then summarise. */
  function SummaryOf(d: seq<Row>, ndim: nat): Result<seq<UncertainValue>>
    requires Uniform(d, ndim)
  {
    SortKeepsRows(d, ndim);
    SummaryOfSorted(SortByLnprob(d), ndim)
  }

  /** One value per parameter, in model order, taken from the top row, with
      non-negative deviations on both sides and the default one sigma. */
  lemma SummaryOfSortedShape(rows: seq<Row>, ndim: nat)
    requires Uniform(rows, ndim)
    ensures SummaryOfSorted(rows, ndim).Ok? ==>
              var vs := SummaryOfSorted(rows, ndim).value;
              && |vs| == ndim
              && forall k :: 0 <= k < ndim ==>
                   && vs[k].value == rows[0].params[k]
                   && vs[k].plus >= 0.0
                   && vs[k].minus.Some? && vs[k].minus.value >= 0.0
                   && vs[k].nSigma == 1.0
  {
    if SummaryOfSorted(rows, ndim).Ok? {
      var mp := rows[0].params;
      var t := Threshold(rows);
      var su := BoundStop(rows, mp, Upper, t + 1, t + 1);
      var sl := BoundStop(rows, mp, Lower, t + 1, t + 1);
      var up, lo := Bound(rows, Upper, t + 1), Bound(rows, Lower, t + 1);
      forall k | 0 <= k < ndim ensures up[k] >= mp[k] && lo[k] <= mp[k] {
        FoldIsExtreme(Upper, mp, rows[t + 1..su], k);
        FoldIsExtreme(Lower, mp, rows[t + 1..sl], k);
      }
      assert SummaryOfSorted(rows, ndim) == Ok(Report(mp, up, lo, ndim));
    }
  }

  /** The summary's values are the parameters of a sample at the table's maximum
      `lnprob`, one per parameter in model order. */
  lemma SummaryIsMostProbable(d: seq<Row>, ndim: nat)
    requires Uniform(d, ndim)
    ensures SummaryOf(d, ndim).Ok? ==>
              && |d| > 0
              && |SummaryOf(d, ndim).value| == ndim
              && exists j :: IsBest(d, j) &&
                   forall k :: 0 <= k < ndim ==> SummaryOf(d, ndim).value[k].value == d[j].params[k]
  {
    var s := SortByLnprob(d);
    SortKeepsRows(d, ndim);
    SummaryOfSortedShape(s, ndim);
    if SummaryOf(d, ndim).Ok? {
      SortedTopIsMax(d, ndim);
      var j :| 0 <= j < |d| && d[j] == s[0];
      assert IsBest(d, j);
    }
  }

  /** `_values` raises exactly when the table is empty or no row falls `Drop` below
      the maximum. */
  lemma SummaryFailsIff(d: seq<Row>, ndim: nat)
    requires Uniform(d, ndim)
    ensures SummaryOf(d, ndim).Err? <==> |d| == 0 || forall j :: 0 <= j < |d| ==> d[j].lnprob > MaxLnprob(d) - Drop
  {
    var s := SortByLnprob(d);
    SortKeepsRows(d, ndim);
    assert SummaryOf(d, ndim) == SummaryOfSorted(s, ndim);
    if |d| > 0 {
      SortedTopIsMax(d, ndim);
      var cutoff := MaxLnprob(d) - Drop;
      var t := FirstAtOrBelow(s, cutoff, 0);
      FirstAtOrBelowIsFirst(s, cutoff, 0);
      assert SummaryOfSorted(s, ndim).Err? <==> t == |s|;
      if t < |s| {
        var j :| 0 <= j < |d| && d[j] == s[t];
        assert d[j].lnprob <= cutoff;
      } else {
        forall j | 0 <= j < |d| ensures d[j].lnprob > cutoff {
          var i :| 0 <= i < |s| && s[i] == d[j];
        }
      }
    }
  }

  /** `find_bound(f, start)` is the extreme, in the direction of `f`, of the
      most-probable point and of every row the loop visited, and it is attained by
      one of them. */
  lemma BoundIsExtremeOfScan(rows: seq<Row>, dir: Direction, start: nat, k: nat)
    requires |rows| > 0 && Uniform(rows, |rows[0].params|) && start <= |rows| && k < |rows[0].params|
    ensures
      var stop := BoundStop(rows, rows[0].params, dir, start, start);
      var b := Bound(rows, dir, start)[k];
      && Beyond(dir, b, rows[0].params[k])
      && (forall j :: start <= j < stop ==> Beyond(dir, b, rows[j].params[k]))
      && (b == rows[0].params[k] || exists j :: start <= j < stop && rows[j].params[k] == b)
  {
    var mp := rows[0].params;
    var stop := BoundStop(rows, mp, dir, start, start);
    var scanned := rows[start..stop];
    FoldIsExtreme(dir, mp, scanned, k);
    assert forall j :: start <= j < stop ==> rows[j] == scanned[j - start];
    var b := Fold(dir, mp, scanned)[k];
    if b != mp[k] {
      var i :| 0 <= i < |scanned| && b == scanned[i].params[k];
      assert rows[start + i] == scanned[i];
    }
  }

  /** The reported interval `[value - minus, value + plus]` is exactly the pair of
      bounds found from the row after the threshold row. */
  lemma SummaryIntervalIsBounds(rows: seq<Row>, ndim: nat, k: nat)
    requires Uniform(rows, ndim) && SummaryOfSorted(rows, ndim).Ok? && k < ndim
    ensures
      var v := SummaryOfSorted(rows, ndim).value[k];
      var t := Threshold(rows);
      && t < |rows|
      && v.minus.Some?
      && v.value == rows[0].params[k]
      && v.value + v.plus == Bound(rows, Upper, t + 1)[k]
      && v.value - v.minus.value == Bound(rows, Lower, t + 1)[k]
  {
  }

  lemma {:induction false} FoldOfSeedCopies(dir: Direction, acc: seq<real>, rows: seq<Row>)
    requires Uniform(rows, |acc|)
    requires forall j :: 0 <= j < |rows| ==> rows[j].params == acc
    ensures Fold(dir, acc, rows) == acc
    decreases |rows|
  {
    if rows != [] {
      FoldOfSeedCopies(dir, acc, rows[..|rows| - 1]);
      assert Combine(dir, acc, acc) == acc;
    }
  }

  /** `find_bound` from `start` gives back the most-probable point when every row
      from `start` on repeats it. */
  lemma BoundOfSeedCopies(rows: seq<Row>, dir: Direction, start: nat)
    requires |rows| > 0 && Uniform(rows, |rows[0].params|) && start <= |rows|
    requires forall j :: start <= j < |rows| ==> rows[j].params == rows[0].params
    ensures Bound(rows, dir, start) == rows[0].params
  {
    var mp := rows[0].params;
    var run := rows[start..BoundStop(rows, mp, dir, start, start)];
    assert forall j :: 0 <= j < |run| ==> run[j] == rows[start + j];
    FoldOfSeedCopies(dir, mp, run);
  }

  /** A degenerate posterior: when every row after the threshold row repeats the
      most-probable point (in particular when the threshold row is the last row),
      every parameter gets `plus == minus == 0`. Nothing downstream rejects such a
      zero-width interval. */
  lemma DegenerateTableGivesZeroWidth(rows: seq<Row>, ndim: nat)
    requires Uniform(rows, ndim) && SummaryOfSorted(rows, ndim).Ok?
    requires var t := Threshold(rows);
             forall j :: t + 1 <= j < |rows| ==> rows[j].params == rows[0].params
    ensures forall k :: 0 <= k < ndim ==>
              SummaryOfSorted(rows, ndim).value[k].plus == 0.0 &&
              SummaryOfSorted(rows, ndim).value[k].minus == Some(0.0)
  {
    var mp := rows[0].params;
    var t := Threshold(rows);
    BoundOfSeedCopies(rows, Upper, t + 1);
    BoundOfSeedCopies(rows, Lower, t + 1);
    assert SummaryOfSorted(rows, ndim) == Ok(Report(mp, mp, mp, ndim));
  }

  method Values(d: seq<Row>, ndim: nat) returns (r: Result<seq<UncertainValue>>)
    requires Uniform(d, ndim)
    ensures r == SummaryOf(d, ndim)
    ensures r.Ok? ==> |r.value| == ndim && |d| > 0 && |SortByLnprob(d)[0].params| == ndim
    ensures r.Ok? ==> forall k :: 0 <= k < ndim ==>
              && r.value[k].value == SortByLnprob(d)[0].params[k]
              && r.value[k].plus >= 0.0
              && r.value[k].minus.Some? && r.value[k].minus.value >= 0.0
  {
    var sorted := SortByLnprob(d);
    SortKeepsRows(d, ndim);
    SummaryOfSortedShape(sorted, ndim);
    assert SummaryOf(d, ndim) == SummaryOfSorted(sorted, ndim);
    if |sorted| == 0 {
      return Err(IndexOutOfRange);
    }
    var t := ThresholdIndex(sorted);
    if t.Err? {
      return Err(t.error);
    }
    var upper := FindBound(sorted, Upper, t.value + 1);
    var lower := FindBound(sorted, Lower, t.value + 1);
    r := Ok(Report(sorted[0].params, upper, lower, ndim));
    assert r == SummaryOfSorted(sorted, ndim);
  }
}
