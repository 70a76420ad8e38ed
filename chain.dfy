/** The sampler's raw output (a walker × step × parameter chain and the matching
    walker × step log-probability trace) and the two read-only views that
    `EmceeResult` derives from it: the flattened, thinned sample table
    (`data_frame`) and the most-probable samples (`most_probable_values`). */
module Chains {
  import opened Results

  /** One row of the sample table: the parameter values in model order, then `lnprob`. */
  datatype Row = Row(params: seq<real>, lnprob: real)

  /** `sampler.chain` and `sampler.lnprobability`. */
  datatype Chain = Chain(positions: seq<seq<seq<real>>>, lnprobability: seq<seq<real>>)

  /** The chain has exactly `walkers` walkers, `steps` steps and `ndim` parameters per position. */
  predicate Shaped(c: Chain, walkers: nat, steps: nat, ndim: nat) {
    && |c.positions| == walkers
    && |c.lnprobability| == walkers
    && (forall w :: 0 <= w < walkers ==> |c.positions[w]| == steps && |c.lnprobability[w]| == steps)
    && HasDim(c, ndim)
  }

  /** Every position of the chain has `ndim` coordinates. */
  predicate HasDim(c: Chain, ndim: nat) {
    forall w, s :: 0 <= w < |c.positions| && 0 <= s < |c.positions[w]| ==> |c.positions[w][s]| == ndim
  }

  /** `lnprobability.shape[1]` (taken as 0 when there are no walkers). */
  function Steps(c: Chain): nat {
    if |c.lnprobability| == 0 then 0 else |c.lnprobability[0]|
  }

  /** The two arrays are rectangular and agree on the walker and step axes. */
  predicate Rectangular(c: Chain) {
    && |c.positions| == |c.lnprobability|
    && forall w :: 0 <= w < |c.positions| ==> |c.positions[w]| == Steps(c) && |c.lnprobability[w]| == Steps(c)
  }

  lemma ShapedIsRectangular(c: Chain, walkers: nat, steps: nat, ndim: nat)
    requires Shaped(c, walkers, steps, ndim)
    ensures Rectangular(c) && HasDim(c, ndim)
    ensures walkers > 0 ==> Steps(c) == steps
  {
  }

  /** Every row of a table has `ndim` parameter columns. */
  predicate Uniform(rows: seq<Row>, ndim: nat) {
    forall j :: 0 <= j < |rows| ==> |rows[j].params| == ndim
  }

  // ---------------------------------------------------------------------------
  // Python's `int(x)` on a float and the builtin `max`

  /** `int(x)`: truncation toward zero. */
  function TruncateToInt(x: real): (n: int)
    ensures x >= 0.0 ==> n >= 0 && n as real <= x < n as real + 1.0
    ensures x < 0.0 ==> n <= 0 && n as real - 1.0 < x <= n as real
  {
    if x >= 0.0 then x.Floor else -((-x).Floor)
  }

  /** `max(xs)` of a non-empty sequence. */
  function MaxOf(xs: seq<real>): (m: real)
    requires |xs| > 0
    ensures m in xs
    ensures forall j :: 0 <= j < |xs| ==> xs[j] <= m
  {
    if |xs| == 1 then xs[0]
    else
      var rest := MaxOf(xs[1..]);
      if xs[0] >= rest then xs[0] else rest
  }

  /** The largest `lnprob` of a non-empty table. */
  function MaxLnprob(rows: seq<Row>): real
    requires |rows| > 0
  {
    if |rows| == 1 then rows[0].lnprob
    else
      var rest := MaxLnprob(rows[1..]);
      if rows[0].lnprob >= rest then rows[0].lnprob else rest
  }

  /** `MaxLnprob` is the `lnprob` of some row, and no row's is larger. */
  lemma {:induction false} MaxLnprobIsMax(rows: seq<Row>)
    requires |rows| > 0
    ensures exists j :: 0 <= j < |rows| && rows[j].lnprob == MaxLnprob(rows)
    ensures forall j :: 0 <= j < |rows| ==> rows[j].lnprob <= MaxLnprob(rows)
  {
    if |rows| > 1 {
      MaxLnprobIsMax(rows[1..]);
      assert forall j :: 1 <= j < |rows| ==> rows[j] == rows[1..][j - 1];
      if rows[0].lnprob < MaxLnprob(rows[1..]) {
        var j :| 0 <= j < |rows[1..]| && rows[1..][j].lnprob == MaxLnprob(rows[1..]);
        assert rows[j + 1].lnprob == MaxLnprob(rows);
      } else {
        assert rows[0].lnprob == MaxLnprob(rows);
      }
    } else {
      assert rows[0].lnprob == MaxLnprob(rows);
    }
  }

  // ---------------------------------------------------------------------------
  // Slicing `a[start::step]` along the step axis (start given, stop omitted)

  /** The start index after Python's slice normalisation, for an omitted stop. */
  function SliceStart(n: nat, start: int, step: int): (s: int)
    requires step != 0
    ensures step > 0 ==> 0 <= s <= n
    ensures step < 0 ==> -1 <= s < n
  {
    if start < 0 then
      (if start + n < 0 then (if step < 0 then -1 else 0) else start + n)
    else if start >= n then
      (if step < 0 then n - 1 else n)
    else start
  }

  /** `lo, lo + step, …` while below `n`. */
  function Ascending(lo: nat, n: nat, step: nat): (r: seq<nat>)
    requires step > 0
    ensures forall j :: 0 <= j < |r| ==> lo <= r[j] < n
    decreases n - lo
  {
    if lo >= n then [] else [lo] + Ascending(lo + step, n, step)
  }

  /** `hi, hi + step, …` while not below 0, for a negative `step`. */
  function Descending(hi: int, step: int): (r: seq<nat>)
    requires step < 0
    ensures forall j :: 0 <= j < |r| ==> r[j] <= hi
    decreases hi + 1
  {
    if hi < 0 then [] else [hi as nat] + Descending(hi + step, step)
  }

  /** The number of elements of `range(hi, -1, step)` for a negative `step`. */
  function RangeDownLength(hi: int, step: int): nat
    requires step < 0
  {
    if hi < 0 then 0 else hi / (-step) + 1
  }

  /** The step indices that `a[start::step]` keeps of an axis of length `n`;
      a zero step raises `ValueError`. */
  function SliceIndices(n: nat, start: int, step: int): (r: Result<seq<nat>>)
    ensures r.Err? <==> step == 0
    ensures r.Ok? ==> forall j :: 0 <= j < |r.value| ==> r.value[j] < n
  {
    if step == 0 then Err(ZeroSliceStep)
    else if step > 0 then Ok(Ascending(SliceStart(n, start, step), n, step))
    else Ok(Descending(SliceStart(n, start, step), step))
  }

  /** The number of elements of `range(lo, n, step)`. */
  function RangeLength(lo: nat, n: nat, step: nat): nat
    requires step > 0
  {
    if lo < n then (n - lo - 1) / step + 1 else 0
  }

  lemma MulAtLeast(a: int, b: nat)
    requires a >= 1
    ensures a * b >= b
  {
    assert a * b == (a - 1) * b + b;
  }

  /** Division by a positive stride is determined by quotient and remainder. */
  lemma DivUnique(x: nat, step: nat, q: nat, r: nat)
    requires 0 <= r < step && x == q * step + r
    ensures x / step == q
  {
    var q2, r2 := x / step, x % step;
    if q2 > q {
      MulAtLeast(q2 - q, step);
    } else if q2 < q {
      MulAtLeast(q - q2, step);
    }
  }

  lemma {:induction false} AscendingLength(lo: nat, n: nat, step: nat)
    requires step > 0
    ensures |Ascending(lo, n, step)| == RangeLength(lo, n, step)
    decreases n - lo
  {
    if lo < n {
      AscendingLength(lo + step, n, step);
      var x := n - lo - 1;
      if lo + step < n {
        var y := n - lo - step - 1;
        DivUnique(x, step, y / step + 1, y % step);
      } else {
        DivUnique(x, step, 0, x);
      }
    }
  }

  lemma {:induction false} AscendingAt(lo: nat, n: nat, step: nat, j: nat)
    requires step > 0 && j < |Ascending(lo, n, step)|
    ensures Ascending(lo, n, step)[j] == lo + j * step
    decreases j
  {
    if j > 0 {
      AscendingAt(lo + step, n, step, j - 1);
      assert lo + step + (j - 1) * step == lo + j * step;
    }
  }

  lemma {:induction false} DescendingLength(hi: int, step: int)
    requires step < 0
    ensures |Descending(hi, step)| == RangeDownLength(hi, step)
    decreases hi + 1
  {
    if hi >= 0 {
      DescendingLength(hi + step, step);
      if hi + step >= 0 {
        var y := hi + step;
        DivUnique(hi, -step, y / (-step) + 1, y % (-step));
      } else {
        DivUnique(hi, -step, 0, hi);
      }
    }
  }

  lemma {:induction false} DescendingAt(hi: int, step: int, j: nat)
    requires step < 0 && j < |Descending(hi, step)|
    ensures Descending(hi, step)[j] == hi + j * step
    decreases j
  {
    if j > 0 {
      DescendingAt(hi + step, step, j - 1);
      assert hi + step + (j - 1) * step == hi + j * step;
    }
  }

  /** The kept indices of `a[hi::step]`, for a negative `step`, are those of
      `range(hi, -1, step)`. */
  lemma DescendingIsRange(hi: int, step: int)
    requires step < 0
    ensures |Descending(hi, step)| == RangeDownLength(hi, step)
    ensures forall j :: 0 <= j < |Descending(hi, step)| ==> Descending(hi, step)[j] == hi + j * step
  {
    DescendingLength(hi, step);
    forall j | 0 <= j < |Descending(hi, step)| ensures Descending(hi, step)[j] == hi + j * step {
      DescendingAt(hi, step, j);
    }
  }

  /** The kept indices of `a[lo::step]` are those of `range(lo, n, step)`. */
  lemma AscendingIsRange(lo: nat, n: nat, step: nat)
    requires step > 0
    ensures |Ascending(lo, n, step)| == RangeLength(lo, n, step)
    ensures forall j :: 0 <= j < |Ascending(lo, n, step)| ==> Ascending(lo, n, step)[j] == lo + j * step
  {
    AscendingLength(lo, n, step);
    forall j | 0 <= j < |Ascending(lo, n, step)| ensures Ascending(lo, n, step)[j] == lo + j * step {
      AscendingAt(lo, n, step, j);
    }
  }

  // ---------------------------------------------------------------------------
  // Flattening the kept steps of every walker into one table, walker by walker

  /** The kept step indices are valid for one walker's trace. */
  predicate Covers(pos: seq<seq<real>>, lnp: seq<real>, kept: seq<nat>) {
    forall j :: 0 <= j < |kept| ==> kept[j] < |pos| && kept[j] < |lnp|
  }

  /** The rows of one walker, in step order. */
  function WalkerRows(pos: seq<seq<real>>, lnp: seq<real>, kept: seq<nat>): (r: seq<Row>)
    requires Covers(pos, lnp, kept)
  {
    seq(|kept|, j requires 0 <= j < |kept| => Row(pos[kept[j]], lnp[kept[j]]))
  }

  /** Walker-major concatenation of every walker's rows (C-order reshape). */
  function Flatten(ps: seq<seq<seq<real>>>, ls: seq<seq<real>>, kept: seq<nat>): (r: seq<Row>)
    requires |ps| == |ls|
    requires forall w :: 0 <= w < |ps| ==> Covers(ps[w], ls[w], kept)
    decreases |ps|
  {
    if ps == [] then [] else WalkerRows(ps[0], ls[0], kept) + Flatten(ps[1..], ls[1..], kept)
  }

  lemma {:induction false} FlattenLength(ps: seq<seq<seq<real>>>, ls: seq<seq<real>>, kept: seq<nat>)
    requires |ps| == |ls|
    requires forall w :: 0 <= w < |ps| ==> Covers(ps[w], ls[w], kept)
    ensures |Flatten(ps, ls, kept)| == |ps| * |kept|
    decreases |ps|
  {
    if ps != [] {
      FlattenLength(ps[1..], ls[1..], kept);
      assert |ps| * |kept| == |kept| + (|ps| - 1) * |kept|;
    }
  }

  /** Row `w·K + j` of the flattened table is walker `w` at the `j`-th kept step,
      with its own `lnprob`: the parameter rows and the `lnprob` column stay aligned. */
  lemma {:induction false} FlattenAt(ps: seq<seq<seq<real>>>, ls: seq<seq<real>>, kept: seq<nat>, w: nat, j: nat)
    requires |ps| == |ls|
    requires forall v :: 0 <= v < |ps| ==> Covers(ps[v], ls[v], kept)
    requires w < |ps| && j < |kept|
    ensures w * |kept| + j < |Flatten(ps, ls, kept)|
    ensures Flatten(ps, ls, kept)[w * |kept| + j] == Row(ps[w][kept[j]], ls[w][kept[j]])
    decreases w
  {
    var head := WalkerRows(ps[0], ls[0], kept);
    var rest := Flatten(ps[1..], ls[1..], kept);
    assert Flatten(ps, ls, kept) == head + rest;
    if w > 0 {
      FlattenAt(ps[1..], ls[1..], kept, w - 1, j);
      assert w * |kept| + j == |kept| + ((w - 1) * |kept| + j);
    }
  }

  lemma {:induction false} FlattenUniform(ps: seq<seq<seq<real>>>, ls: seq<seq<real>>, kept: seq<nat>, ndim: nat)
    requires |ps| == |ls|
    requires forall w :: 0 <= w < |ps| ==> Covers(ps[w], ls[w], kept)
    requires forall w, s :: 0 <= w < |ps| && 0 <= s < |ps[w]| ==> |ps[w][s]| == ndim
    ensures Uniform(Flatten(ps, ls, kept), ndim)
    decreases |ps|
  {
    if ps != [] {
      FlattenUniform(ps[1..], ls[1..], kept, ndim);
      assert forall w, s :: 0 <= w < |ps[1..]| && 0 <= s < |ps[1..][w]| ==> ps[1..][w][s] == ps[w + 1][s];
    }
  }

  // ---------------------------------------------------------------------------
  // data_frame

  /** The `thin` argument of `data_frame`: `'acor'`, `None` or an integer stride. */
  datatype Thin = Acor | NoThin | Stride(step: int)

  /** The stride `data_frame` slices with: `int(max(acor))` for `'acor'`, 1 for `None`. */
  function ThinStep(thin: Thin, acor: seq<real>): (r: Result<int>)
    ensures r.Err? <==> thin == Acor && acor == []
    ensures thin == Acor && acor != [] ==> r == Ok(TruncateToInt(MaxOf(acor)))
    ensures thin == NoThin ==> r == Ok(1)
    ensures thin.Stride? ==> r == Ok(thin.step)
  {
    match thin
    case Acor => if acor == [] then Err(EmptySequence) else Ok(TruncateToInt(MaxOf(acor)))
    case NoThin => Ok(1)
    case Stride(k) => Ok(k)
  }

  lemma RectangularCovers(c: Chain, kept: seq<nat>)
    requires Rectangular(c)
    requires forall j :: 0 <= j < |kept| ==> kept[j] < Steps(c)
    ensures forall w :: 0 <= w < |c.positions| ==> Covers(c.positions[w], c.lnprobability[w], kept)
  {
  }

  /** `data_frame(burn_in, thin)`: one row per walker and kept step, walker-major,
      parameter columns in model order followed by `lnprob`. The `acor` argument
      stands for the sampler's autocorrelation times. */
  function DataFrame(c: Chain, ndim: nat, burnIn: int, thin: Thin, acor: seq<real>): (r: Result<seq<Row>>)
    requires Rectangular(c) && HasDim(c, ndim)
    ensures r.Err? <==> (thin == Acor && (acor == [] || TruncateToInt(MaxOf(acor)) == 0)) || thin == Stride(0) || ndim == 0
    ensures r.Ok? ==> Uniform(r.value, ndim)
  {
    match ThinStep(thin, acor)
    case Err(e) => Err(e)
    case Ok(step) =>
      match SliceIndices(Steps(c), burnIn, step)
      case Err(e) => Err(e)
      case Ok(kept) =>
        if ndim == 0 then Err(BadReshape) else
        RectangularCovers(c, kept);
        FlattenUniform(c.positions, c.lnprobability, kept, ndim);
        Ok(Flatten(c.positions, c.lnprobability, kept))
  }

  /** With a non-negative burn-in and a positive stride the table has
      `walkers × |range(burn_in, nsteps, thin)|` rows, and the row of walker `w`
      at kept step `j` is `chain[w][burn_in + j·thin]` with `lnprobability[w][burn_in + j·thin]`. */
  lemma DataFrameLayout(c: Chain, ndim: nat, burnIn: nat, thin: Thin, acor: seq<real>, step: nat, w: nat, j: nat)
    requires Rectangular(c) && HasDim(c, ndim)
    requires ThinStep(thin, acor) == Ok(step as int) && step > 0
    ensures DataFrame(c, ndim, burnIn, thin, acor).Ok? <==> ndim > 0
    ensures DataFrame(c, ndim, burnIn, thin, acor).Ok? ==>
              |DataFrame(c, ndim, burnIn, thin, acor).value| == |c.positions| * RangeLength(burnIn, Steps(c), step)
    ensures DataFrame(c, ndim, burnIn, thin, acor).Ok? && w < |c.positions| && j < RangeLength(burnIn, Steps(c), step) ==>
              && burnIn + j * step < Steps(c)
              && var i := w * RangeLength(burnIn, Steps(c), step) + j;
                 i < |DataFrame(c, ndim, burnIn, thin, acor).value| &&
                 DataFrame(c, ndim, burnIn, thin, acor).value[i]
                 == Row(c.positions[w][burnIn + j * step], c.lnprobability[w][burnIn + j * step])
  {
    var n := Steps(c);
    var lo := SliceStart(n, burnIn, step);
    assert lo == if burnIn >= n then n else burnIn;
    var kept := Ascending(lo, n, step);
    AscendingIsRange(lo, n, step);
    assert |kept| == RangeLength(burnIn, n, step);
    RectangularCovers(c, kept);
    if ndim > 0 {
      assert DataFrame(c, ndim, burnIn, thin, acor) == Ok(Flatten(c.positions, c.lnprobability, kept));
    }
    FlattenLength(c.positions, c.lnprobability, kept);
    if ndim > 0 && w < |c.positions| && j < |kept| {
      FlattenAt(c.positions, c.lnprobability, kept, w, j);
      assert kept[j] == burnIn + j * step;
    }
  }

  /** `range(n)` as a sequence of step indices. */
  function Range(n: nat): (r: seq<nat>)
    ensures |r| == n
  {
    seq(n, i => i)
  }

  /** Every sample of the chain in C order: the table `data_frame(thin=None)` gives. */
  function AllSamples(c: Chain): seq<Row>
    requires Rectangular(c)
  {
    RectangularCovers(c, Range(Steps(c)));
    Flatten(c.positions, c.lnprobability, Range(Steps(c)))
  }

  /** `data_frame(thin=None)` keeps every one of the samples; without
      parameters its `reshape(-1, 0)` raises. */
  lemma NoThinIsAllSamples(c: Chain, ndim: nat, acor: seq<real>)
    requires Rectangular(c) && HasDim(c, ndim)
    ensures DataFrame(c, ndim, 0, NoThin, acor) == if ndim == 0 then Err(BadReshape) else Ok(AllSamples(c))
  {
    var n := Steps(c);
    AscendingIsRange(0, n, 1);
    var kept := Ascending(0, n, 1);
    assert kept == Range(n);
  }

  /** There are `walkers × nsteps` samples, each with one coordinate per parameter. */
  lemma AllSamplesShape(c: Chain, ndim: nat)
    requires Rectangular(c) && HasDim(c, ndim)
    ensures |AllSamples(c)| == |c.positions| * Steps(c)
    ensures Uniform(AllSamples(c), ndim)
  {
    var kept := Range(Steps(c));
    RectangularCovers(c, kept);
    FlattenLength(c.positions, c.lnprobability, kept);
    FlattenUniform(c.positions, c.lnprobability, kept, ndim);
  }

  // ---------------------------------------------------------------------------
  // most_probable_values

  /** The parameter vectors of the rows whose `lnprob` equals `m`, in table
      order: the positions that the boolean mask of `lnprobability == m`
      selects from the chain. */
  function AtLevel(rows: seq<Row>, m: real): (pts: seq<seq<real>>)
    ensures |pts| <= |rows|
  {
    if rows == [] then []
    else if rows[0].lnprob == m then [rows[0].params] + AtLevel(rows[1..], m)
    else AtLevel(rows[1..], m)
  }

  /** `p` is the vector of some row at level `m`. */
  predicate AtLevelRow(rows: seq<Row>, m: real, p: seq<real>) {
    exists j :: 0 <= j < |rows| && rows[j].lnprob == m && rows[j].params == p
  }

  /** The row behind the `i`-th vector listed: a row at level `m` with that
      vector. */
  lemma {:induction false} AtLevelWitness(rows: seq<Row>, m: real, i: nat) returns (j: nat)
    requires i < |AtLevel(rows, m)|
    ensures j < |rows| && rows[j].lnprob == m && rows[j].params == AtLevel(rows, m)[i]
    decreases |rows|
  {
    var tail := rows[1..];
    if rows[0].lnprob == m {
      assert AtLevel(rows, m) == [rows[0].params] + AtLevel(tail, m);
      if i == 0 {
        j := 0;
      } else {
        var k := AtLevelWitness(tail, m, i - 1);
        j := k + 1;
        assert rows[j] == tail[k];
      }
    } else {
      assert AtLevel(rows, m) == AtLevel(tail, m);
      var k := AtLevelWitness(tail, m, i);
      j := k + 1;
      assert rows[j] == tail[k];
    }
  }

  /** Every vector it lists belongs to a row at level `m`, and every row at that
      level has its vector listed. */
  lemma {:induction false} AtLevelMembers(rows: seq<Row>, m: real)
    ensures var pts := AtLevel(rows, m);
            && (forall i :: 0 <= i < |pts| ==> AtLevelRow(rows, m, pts[i]))
            && (forall j :: 0 <= j < |rows| && rows[j].lnprob == m ==> rows[j].params in pts)
  {
    var pts := AtLevel(rows, m);
    forall i | 0 <= i < |pts| ensures AtLevelRow(rows, m, pts[i]) {
      var j := AtLevelWitness(rows, m, i);
    }
    if rows != [] {
      AtLevelMembers(rows[1..], m);
      assert forall j :: 1 <= j < |rows| ==> rows[j] == rows[1..][j - 1];
    }
  }

  /** The selection keeps table order and duplicates: selecting from two tables
      one after the other lists the first's vectors, then the second's, and a
      single row contributes its own vector exactly when it is at level `m`. */
  lemma {:induction false} AtLevelSplits(a: seq<Row>, b: seq<Row>, m: real)
    ensures AtLevel(a + b, m) == AtLevel(a, m) + AtLevel(b, m)
    ensures |a| == 1 ==> AtLevel(a, m) == if a[0].lnprob == m then [a[0].params] else []
    decreases |a|
  {
    if a != [] {
      assert (a + b)[0] == a[0] && (a + b)[1..] == a[1..] + b;
      AtLevelSplits(a[1..], b, m);
      if |a| == 1 {
        assert AtLevel(a[1..], m) == [];
      }
    } else {
      assert a + b == b;
    }
  }

  /** The smallest `k`-th coordinate among the vectors. */
  function ColumnMin(pts: seq<seq<real>>, k: nat): (m: real)
    requires |pts| > 0 && forall i :: 0 <= i < |pts| ==> k < |pts[i]|
    ensures exists i :: 0 <= i < |pts| && pts[i][k] == m
    ensures forall i :: 0 <= i < |pts| ==> m <= pts[i][k]
  {
    if |pts| == 1 then pts[0][k]
    else
      var rest := ColumnMin(pts[1..], k);
      assert forall i :: 1 <= i < |pts| ==> pts[i] == pts[1..][i - 1];
      if pts[0][k] <= rest then pts[0][k] else rest
  }

  /** The largest `k`-th coordinate among the vectors. */
  function ColumnMax(pts: seq<seq<real>>, k: nat): (m: real)
    requires |pts| > 0 && forall i :: 0 <= i < |pts| ==> k < |pts[i]|
    ensures exists i :: 0 <= i < |pts| && pts[i][k] == m
    ensures forall i :: 0 <= i < |pts| ==> pts[i][k] <= m
  {
    if |pts| == 1 then pts[0][k]
    else
      var rest := ColumnMax(pts[1..], k);
      assert forall i :: 1 <= i < |pts| ==> pts[i] == pts[1..][i - 1];
      if pts[0][k] >= rest then pts[0][k] else rest
  }

  /** Some coordinate has a column minimum different from its column maximum. */
  predicate AnyColumnVaries(pts: seq<seq<real>>, ndim: nat)
    requires |pts| > 0 && forall i :: 0 <= i < |pts| ==> |pts[i]| == ndim
  {
    exists k :: 0 <= k < ndim && ColumnMin(pts, k) != ColumnMax(pts, k)
  }

  /** The column test of `most_probable_values` holds exactly when two of the
      most-probable vectors differ. */
  lemma ColumnsVaryIffRowsDiffer(pts: seq<seq<real>>, ndim: nat)
    requires |pts| > 0 && forall i :: 0 <= i < |pts| ==> |pts[i]| == ndim
    ensures AnyColumnVaries(pts, ndim) <==> exists i :: 0 <= i < |pts| && pts[i] != pts[0]
  {
    if AnyColumnVaries(pts, ndim) {
      var k :| 0 <= k < ndim && ColumnMin(pts, k) != ColumnMax(pts, k);
      var a :| 0 <= a < |pts| && pts[a][k] == ColumnMin(pts, k);
      var b :| 0 <= b < |pts| && pts[b][k] == ColumnMax(pts, k);
      if pts[a] == pts[0] {
        assert pts[b] != pts[0];
      } else {
        assert pts[a] != pts[0];
      }
    } else {
      forall i | 0 <= i < |pts| ensures pts[i] == pts[0] {
        forall k | 0 <= k < ndim ensures pts[i][k] == pts[0][k] {
          assert ColumnMin(pts, k) == ColumnMax(pts, k);
        }
      }
    }
  }

  /** What `most_probable_values` returns: one vector when every most-probable
      sample agrees, otherwise all of them. */
  datatype MostProbable = Single(point: seq<real>) | Several(points: seq<seq<real>>)

  /** A sample of the table at the table's maximum `lnprob`. */
  predicate IsBest(rows: seq<Row>, j: int)
    requires |rows| > 0
  {
    0 <= j < |rows| && rows[j].lnprob == MaxLnprob(rows)
  }

  /** `p` is the vector of some best sample. */
  ghost predicate BestVector(rows: seq<Row>, p: seq<real>)
    requires |rows| > 0
  {
    exists j :: IsBest(rows, j) && rows[j].params == p
  }

  /** There is a vector at the maximum `lnprob`, and each has one coordinate per
      parameter. */
  lemma AtMaxShape(rows: seq<Row>, ndim: nat)
    requires |rows| > 0 && Uniform(rows, ndim)
    ensures var pts := AtLevel(rows, MaxLnprob(rows));
            |pts| > 0 && forall i :: 0 <= i < |pts| ==> |pts[i]| == ndim
  {
    var m := MaxLnprob(rows);
    var pts := AtLevel(rows, m);
    AtLevelMembers(rows, m);
    MaxLnprobIsMax(rows);
    var j :| 0 <= j < |rows| && rows[j].lnprob == m;
    assert rows[j].params in pts;
    forall i | 0 <= i < |pts| ensures |pts[i]| == ndim {
      var j := AtLevelWitness(rows, m, i);
    }
  }

  /** The vectors at the maximum `lnprob` are exactly those of the best samples. */
  lemma AtMaxAreBest(rows: seq<Row>)
    requires |rows| > 0
    ensures var pts := AtLevel(rows, MaxLnprob(rows));
            && (forall i :: 0 <= i < |pts| ==> BestVector(rows, pts[i]))
            && (forall j :: IsBest(rows, j) ==> rows[j].params in pts)
  {
    var m := MaxLnprob(rows);
    var pts := AtLevel(rows, m);
    AtLevelMembers(rows, m);
    forall i | 0 <= i < |pts| ensures BestVector(rows, pts[i]) {
      var j := AtLevelWitness(rows, m, i);
      assert IsBest(rows, j);
    }
    forall j | 0 <= j < |rows| && IsBest(rows, j) ensures rows[j].params in pts {
      assert rows[j].lnprob == m;
    }
  }

  /** The most-probable selection over a sample table in C order, as
      `most_probable_values` makes it: the vectors of the samples at the
      maximum `lnprob`, collapsed to one vector when they all agree. */
  function MostProbableOf(rows: seq<Row>, ndim: nat): (r: Result<MostProbable>)
    requires Uniform(rows, ndim)
    ensures r.Err? <==> |rows| == 0
  {
    if |rows| == 0 then Err(EmptySequence)
    else
      var pts := AtLevel(rows, MaxLnprob(rows));
      AtMaxShape(rows, ndim);
      if AnyColumnVaries(pts, ndim) then Ok(Several(pts)) else Ok(Single(pts[0]))
  }

  /** When the vectors at the maximum all agree, theirs is the vector of every
      best sample. */
  lemma AllAtMaxAgree(rows: seq<Row>, pts: seq<seq<real>>)
    requires |rows| > 0 && pts == AtLevel(rows, MaxLnprob(rows)) && |pts| > 0
    requires forall i :: 0 <= i < |pts| ==> pts[i] == pts[0]
    ensures exists j :: IsBest(rows, j) && rows[j].params == pts[0]
    ensures forall j :: IsBest(rows, j) ==> rows[j].params == pts[0]
  {
    AtMaxAreBest(rows);
    forall j | IsBest(rows, j) ensures rows[j].params == pts[0] {
      var i :| 0 <= i < |pts| && pts[i] == rows[j].params;
    }
  }

  /** A single vector is the vector of every best sample; several vectors are
      the vectors of the best samples, not all equal, each best sample's among
      them. */
  lemma MostProbableIsBest(rows: seq<Row>, ndim: nat)
    requires Uniform(rows, ndim)
    ensures var r := MostProbableOf(rows, ndim);
            && (r.Ok? && r.value.Single? ==>
                  && (exists j :: IsBest(rows, j) && rows[j].params == r.value.point)
                  && (forall j :: IsBest(rows, j) ==> rows[j].params == r.value.point))
            && (r.Ok? && r.value.Several? ==>
                  && (forall i :: 0 <= i < |r.value.points| ==> BestVector(rows, r.value.points[i]))
                  && (forall j :: IsBest(rows, j) ==> rows[j].params in r.value.points)
                  && (exists i :: 0 <= i < |r.value.points| && r.value.points[i] != r.value.points[0]))
  {
    if |rows| > 0 {
      var pts := AtLevel(rows, MaxLnprob(rows));
      AtMaxShape(rows, ndim);
      ColumnsVaryIffRowsDiffer(pts, ndim);
      if AnyColumnVaries(pts, ndim) {
        assert MostProbableOf(rows, ndim) == Ok(Several(pts));
        AtMaxAreBest(rows);
      } else {
        assert MostProbableOf(rows, ndim) == Ok(Single(pts[0]));
        AllAtMaxAgree(rows, pts);
      }
    }
  }

  /** `most_probable_values()` on the chain: an empty chain raises in
      `lnprobability.max()`; otherwise the selection over every sample. */
  function MostProbableValues(c: Chain, ndim: nat): (r: Result<MostProbable>)
    requires Rectangular(c) && HasDim(c, ndim)
    ensures r.Err? <==> |c.positions| * Steps(c) == 0
  {
    AllSamplesShape(c, ndim);
    MostProbableOf(AllSamples(c), ndim)
  }
}
