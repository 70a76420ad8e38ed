/** The `Emcee` front end and the `EmceeResult` it returns: drawing the initial
    walker positions from the priors (`make_guess`), one sampling run (`sample`),
    the posterior summary of a run (`values`) and the priors refined from it
    (`updated_priors`). The ensemble sampler itself, the priors' random draws and
    their refinement are collaborators, passed in as functions. */
module Emcee {
  import opened Results
  import opened Chains
  import opened Summary

  /** A parameter prior of the model, opaque here apart from its name. */
  datatype Prior = Prior(name: string, hyper: seq<real>)

  /** The model: its parameters, in model order. */
  datatype Model = Model(parameters: seq<Prior>)

  /** An image (the data being fitted), opaque here. */
  datatype Image = Image(pixels: seq<real>)

  /** One row per walker, one column per parameter. */
  type Matrix = seq<seq<real>>

  /** What `EnsembleSampler(...).run_mcmc(p0, n_samples)` is handed. */
  datatype RunRequest = RunRequest(
    model: Model,
    data: Image,
    nwalkers: nat,
    ndim: nat,
    threads: Option<nat>,
    p0: Matrix,
    nSamples: nat)

  /** What the sampler holds afterwards: the chain and the per-parameter
      autocorrelation times `acor`. */
  datatype Run = Run(chain: Chain, acor: seq<real>)

  /** The code this model calls but does not contain.
      - `draw(p, w)`: entry `w` of `p.sample(size=nwalkers)`;
      - `updated(p, v, e)`: `prior.updated(p, v, e)`;
      - `subset(d, f)`: `make_subset_data(d, f)`;
      - `run(q)`: a fresh `EnsembleSampler` run for the request `q`. */
  datatype Collaborators = Collaborators(
    draw: (Prior, nat) -> real,
    updated: (Prior, UncertainValue, real) -> Prior,
    subset: (Image, Option<real>) -> Image,
    run: RunRequest -> Run)

  /** The sampler's own guarantee: the chain of a run has `nwalkers` walkers,
      `nSamples` steps and `ndim` coordinates per position. */
  ghost predicate KeepsShape(run: RunRequest -> Run) {
    forall q :: Shaped(run(q).chain, q.nwalkers, q.nSamples, q.ndim)
  }

  // ---------------------------------------------------------------------------
  // Emcee

  /** An `Emcee` object: the data it holds is already preprocessed and subset. */
  datatype Emcee = Emcee(model: Model, data: Image, nwalkers: nat, threads: Option<nat>)

  /** `Emcee.__init__` for a single image: `preprocess` defaults to the identity,
      and the data kept is `make_subset_data(preprocess(data), random_subset)`. */
  function NewEmcee(model: Model, data: Image, nwalkers: nat, randomSubset: Option<real>,
                    threads: Option<nat>, preprocess: Option<Image -> Image>,
                    co: Collaborators): (e: Emcee)
    ensures e.model == model && e.nwalkers == nwalkers && e.threads == threads
    ensures preprocess.None? ==> e.data == co.subset(data, randomSubset)
    ensures preprocess.Some? ==> e.data == co.subset(preprocess.value(data), randomSubset)
  {
    var prepared := if preprocess.Some? then preprocess.value(data) else data;
    Emcee(model, co.subset(prepared, randomSubset), nwalkers, threads)
  }

  /** Column `j` of `m`. */
  function Column(m: Matrix, j: nat): (c: seq<real>)
    requires forall i :: 0 <= i < |m| ==> j < |m[i]|
    ensures |c| == |m|
  {
    seq(|m|, i requires 0 <= i < |m| => m[i][j])
  }

  /** The first `n` columns of `m`, as rows. */
  function TransposePrefix(m: Matrix, cols: nat, n: nat): (t: Matrix)
    requires n <= cols && forall i :: 0 <= i < |m| ==> |m[i]| == cols
    ensures |t| == n
    decreases n
  {
    if n == 0 then [] else TransposePrefix(m, cols, n - 1) + [Column(m, n - 1)]
  }

  /** Row `j` of the prefix is column `j` of `m`. */
  lemma {:induction false} TransposePrefixColumns(m: Matrix, cols: nat, n: nat)
    requires n <= cols && forall i :: 0 <= i < |m| ==> |m[i]| == cols
    ensures forall j :: 0 <= j < n ==> TransposePrefix(m, cols, n)[j] == Column(m, j)
    decreases n
  {
    if n > 0 {
      TransposePrefixColumns(m, cols, n - 1);
    }
  }

  /** `m.T` for a matrix with `cols` columns, built column by column. */
  function Transpose(m: Matrix, cols: nat): (t: Matrix)
    requires forall i :: 0 <= i < |m| ==> |m[i]| == cols
    ensures |t| == cols
  {
    TransposePrefix(m, cols, cols)
  }

  /** `m.T` has `|m|` columns, and its entry `[j][i]` is `m[i][j]`. */
  lemma TransposeEntries(m: Matrix, cols: nat)
    requires forall i :: 0 <= i < |m| ==> |m[i]| == cols
    ensures var t := Transpose(m, cols);
            && (forall j :: 0 <= j < cols ==> |t[j]| == |m|)
            && (forall j, i :: 0 <= j < cols && 0 <= i < |m| ==> t[j][i] == m[i][j])
  {
    TransposePrefixColumns(m, cols, cols);
  }

  /** Transposing twice gives the matrix back. */
  lemma TransposeTwice(m: Matrix, cols: nat)
    requires forall i :: 0 <= i < |m| ==> |m[i]| == cols
    ensures var t := Transpose(m, cols);
            (forall j :: 0 <= j < cols ==> |t[j]| == |m|) && Transpose(t, |m|) == m
  {
    var t := Transpose(m, cols);
    TransposeEntries(m, cols);
    var tt := Transpose(t, |m|);
    TransposeEntries(t, |m|);
    assert |tt| == |m|;
    forall i | 0 <= i < |m| ensures tt[i] == m[i] {
      assert |tt[i]| == cols == |m[i]|;
      forall j | 0 <= j < cols ensures tt[i][j] == m[i][j] {
        assert tt[i][j] == t[j][i];
      }
    }
  }

  /** `p.sample(size=n)`. */
  function Draws(draw: (Prior, nat) -> real, p: Prior, n: nat): (xs: seq<real>)
    ensures |xs| == n
  {
    seq(n, w requires 0 <= w < n => draw(p, w))
  }

  /** `np.vstack([p.sample(size=nwalkers) for p in priors])`: row `k` holds the
      draws from prior `k`. */
  function Stack(priors: seq<Prior>, nwalkers: nat, draw: (Prior, nat) -> real): (m: Matrix)
    ensures |m| == |priors|
  {
    if priors == [] then []
    else Stack(priors[..|priors| - 1], nwalkers, draw) + [Draws(draw, priors[|priors| - 1], nwalkers)]
  }

  /** Row `k` of the stack is the draws from prior `k`. */
  lemma {:induction false} StackRows(priors: seq<Prior>, nwalkers: nat, draw: (Prior, nat) -> real)
    ensures forall k :: 0 <= k < |priors| ==> Stack(priors, nwalkers, draw)[k] == Draws(draw, priors[k], nwalkers)
  {
    if priors != [] {
      StackRows(priors[..|priors| - 1], nwalkers, draw);
    }
  }

  /** `np.vstack([p.sample(size=nwalkers) for p in priors]).T`: an
      `nwalkers × |priors|` matrix whose column `k` holds the draws from prior
      `k`; `vstack` of no arrays raises. */
  function Guess(priors: seq<Prior>, nwalkers: nat, draw: (Prior, nat) -> real): (r: Result<Matrix>)
    ensures r.Err? <==> |priors| == 0
    ensures r.Err? ==> r.error == NothingToStack
    ensures r.Ok? ==> |r.value| == nwalkers
  {
    if |priors| == 0 then Err(NothingToStack)
    else
      StackRows(priors, nwalkers, draw);
      Ok(Transpose(Stack(priors, nwalkers, draw), nwalkers))
  }

  /** Walker `w`'s starting point has one coordinate per prior, coordinate `k`
      being the `w`-th draw from prior `k`. */
  lemma GuessDraws(priors: seq<Prior>, nwalkers: nat, draw: (Prior, nat) -> real)
    ensures var r := Guess(priors, nwalkers, draw);
            r.Ok? ==>
              && (forall w :: 0 <= w < nwalkers ==> |r.value[w]| == |priors|)
              && (forall w, k :: 0 <= w < nwalkers && 0 <= k < |priors| ==> r.value[w][k] == draw(priors[k], w))
  {
    if |priors| > 0 {
      var m := Stack(priors, nwalkers, draw);
      StackRows(priors, nwalkers, draw);
      TransposeEntries(m, nwalkers);
    }
  }

  /** `Emcee.make_guess`: one row of initial positions per walker, drawn from the
      model's priors; a model without parameters has nothing to stack. */
  function MakeGuess(e: Emcee, draw: (Prior, nat) -> real): (r: Result<Matrix>)
    ensures r.Err? <==> |e.model.parameters| == 0
    ensures r.Ok? ==> |r.value| == e.nwalkers
  {
    Guess(e.model.parameters, e.nwalkers, draw)
  }

  /** The request `sample` hands the sampler built by `make_sampler`: the model's
      parameter count as dimension, the object's walkers, data and threads. */
  function Request(e: Emcee, nSamples: nat, p0: Matrix): (q: RunRequest)
    ensures q.model == e.model && q.data == e.data && q.nwalkers == e.nwalkers
    ensures q.ndim == |e.model.parameters| && q.threads == e.threads
    ensures q.p0 == p0 && q.nSamples == nSamples
  {
    RunRequest(e.model, e.data, e.nwalkers, |e.model.parameters|, e.threads, p0, nSamples)
  }

  /** What `EmceeResult(sampler, model)` keeps. */
  datatype EmceeResult = EmceeResult(run: Run, model: Model)

  /** Where the walkers of `sample(n_samples, p0)` start: `p0`, or `make_guess()`
      when it is `None`. */
  function Start(e: Emcee, p0: Option<Matrix>, draw: (Prior, nat) -> real): (r: Result<Matrix>)
    ensures r.Err? <==> p0.None? && |e.model.parameters| == 0
    ensures r.Err? ==> r.error == NothingToStack
    ensures p0.Some? ==> r == Ok(p0.value)
    ensures p0.None? ==> r == Guess(e.model.parameters, e.nwalkers, draw)
  {
    if p0.Some? then Ok(p0.value) else MakeGuess(e, draw)
  }

  /** `Emcee.sample(n_samples, p0)`: one run of a fresh sampler from `Start`,
      wrapped with the model; it fails only when there is no `p0` and the model
      has no parameters to draw from. */
  function Sample(e: Emcee, nSamples: nat, p0: Option<Matrix>, co: Collaborators): (r: Result<EmceeResult>)
    ensures r.Err? <==> p0.None? && |e.model.parameters| == 0
    ensures r.Err? ==> r.error == NothingToStack
    ensures r.Ok? ==> r.value.model == e.model
    ensures r.Ok? ==> r.value.run == co.run(Request(e, nSamples, Start(e, p0, co.draw).value))
  {
    match Start(e, p0, co.draw)
    case Err(err) => Err(err)
    case Ok(p) => Ok(EmceeResult(co.run(Request(e, nSamples, p)), e.model))
  }

  // ---------------------------------------------------------------------------
  // EmceeResult

  /** The number of model parameters, `len(self._names)`. */
  function Ndim(r: EmceeResult): nat {
    |r.model.parameters|
  }

  /** The chain is rectangular with one coordinate per model parameter. */
  predicate WellShaped(r: EmceeResult) {
    Rectangular(r.run.chain) && HasDim(r.run.chain, Ndim(r))
  }

  /** A run by a sampler that keeps its shape, for a request whose dimension is
      the model's parameter count, gives a well-shaped result with the requested
      walkers and steps. */
  lemma RunIsWellShaped(run: RunRequest -> Run, q: RunRequest, model: Model)
    requires KeepsShape(run) && q.ndim == |model.parameters|
    ensures var r := EmceeResult(run(q), model);
            && WellShaped(r)
            && |r.run.chain.positions| == q.nwalkers
            && (q.nwalkers > 0 ==> Steps(r.run.chain) == q.nSamples)
  {
    assert Shaped(run(q).chain, q.nwalkers, q.nSamples, q.ndim);
    ShapedIsRectangular(run(q).chain, q.nwalkers, q.nSamples, q.ndim);
  }

  /** So is every result of `sample`. */
  lemma SampleIsWellShaped(e: Emcee, nSamples: nat, p0: Option<Matrix>, co: Collaborators)
    requires KeepsShape(co.run)
    ensures Sample(e, nSamples, p0, co).Ok? ==>
              var r := Sample(e, nSamples, p0, co).value;
              && WellShaped(r)
              && |r.run.chain.positions| == e.nwalkers
              && (e.nwalkers > 0 ==> Steps(r.run.chain) == nSamples)
  {
    if Sample(e, nSamples, p0, co).Ok? {
      RunIsWellShaped(co.run, Request(e, nSamples, Start(e, p0, co.draw).value), e.model);
    }
  }

  /** `EmceeResult.values()`: `_values` of `data_frame(thin=None)`, the table of
      every sample. */
  function ResultValues(r: EmceeResult): (vs: Result<seq<UncertainValue>>)
    requires WellShaped(r)
    ensures vs.Ok? ==> |vs.value| == Ndim(r)
  {
    match DataFrame(r.run.chain, Ndim(r), 0, NoThin, r.run.acor)
    case Err(e) => Err(e)
    case Ok(d) => SummaryOf(d, Ndim(r))
  }

  /** The `value` fields of a summary, in parameter order. */
  function Estimates(vs: seq<UncertainValue>): (e: seq<real>)
    ensures |e| == |vs| && forall k :: 0 <= k < |vs| ==> e[k] == vs[k].value
  {
    seq(|vs|, k requires 0 <= k < |vs| => vs[k].value)
  }

  /** `values()` fails exactly when the model has no parameters, the chain is
      empty or every sample lies within `Drop` of the maximum `lnprob`; when it
      succeeds its estimates are the parameters of a most-probable sample, with
      non-negative spreads. */
  lemma ResultValuesMeaning(r: EmceeResult)
    requires WellShaped(r)
    ensures var d := AllSamples(r.run.chain);
            ResultValues(r).Err? <==>
              Ndim(r) == 0 || |d| == 0 || forall j :: 0 <= j < |d| ==> d[j].lnprob > MaxLnprob(d) - Drop
    ensures ResultValues(r).Ok? ==>
              var d := AllSamples(r.run.chain);
              var vs := ResultValues(r).value;
              && |d| > 0
              && (exists j :: IsBest(d, j) && d[j].params == Estimates(vs))
              && forall k :: 0 <= k < |vs| ==>
                   vs[k].plus >= 0.0 && vs[k].minus.Some? && vs[k].minus.value >= 0.0
  {
    var ndim := Ndim(r);
    var d := AllSamples(r.run.chain);
    NoThinIsAllSamples(r.run.chain, ndim, r.run.acor);
    AllSamplesShape(r.run.chain, ndim);
    if ndim > 0 {
      assert ResultValues(r) == SummaryOf(d, ndim);
      SummaryFailsIff(d, ndim);
      SummaryIsMostProbable(d, ndim);
      var s := SortByLnprob(d);
      SortKeepsRows(d, ndim);
      assert SummaryOf(d, ndim) == SummaryOfSorted(s, ndim);
      SummaryOfSortedShape(s, ndim);
      if ResultValues(r).Ok? {
        var vs := ResultValues(r).value;
        var j :| IsBest(d, j) && forall k :: 0 <= k < ndim ==> vs[k].value == d[j].params[k];
        assert d[j].params == Estimates(vs);
      }
    }
  }

  /** The estimates `values()` reports agree with `most_probable_values()`: they
      are its single vector, or one of its several vectors. */
  lemma ValuesAgreeWithMostProbable(r: EmceeResult)
    requires WellShaped(r)
    ensures ResultValues(r).Ok? ==>
              var mp := MostProbableValues(r.run.chain, Ndim(r));
              var e := Estimates(ResultValues(r).value);
              && mp.Ok?
              && (mp.value.Single? ==> e == mp.value.point)
              && (mp.value.Several? ==> e in mp.value.points)
  {
    if ResultValues(r).Ok? {
      ResultValuesMeaning(r);
      var d := AllSamples(r.run.chain);
      NoThinIsAllSamples(r.run.chain, Ndim(r), r.run.acor);
      assert MostProbableValues(r.run.chain, Ndim(r)) == MostProbableOf(d, Ndim(r));
      MostProbableIsBest(d, Ndim(r));
    }
  }

  /** `zip(parameters, values, extra)` fed to `prior.updated`: it stops at the
      shortest of the three. */
  function Zip3Updated(ps: seq<Prior>, vs: seq<UncertainValue>, extra: seq<real>,
                       updated: (Prior, UncertainValue, real) -> Prior): (r: seq<Prior>)
    ensures |r| <= |ps| && |r| <= |vs| && |r| <= |extra|
    ensures |r| == |ps| || |r| == |vs| || |r| == |extra|
  {
    var n := if |ps| <= |vs| && |ps| <= |extra| then |ps| else if |vs| <= |extra| then |vs| else |extra|;
    seq(n, k requires 0 <= k < n => updated(ps[k], vs[k], extra[k]))
  }

  /** `np.zeros(n)`. */
  function Zeros(n: nat): (z: seq<real>)
    ensures |z| == n
  {
    seq(n, k => 0.0)
  }

  /** `EmceeResult.updated_priors(extra_uncertainty)`: one refined prior per model
      parameter (fewer if `extra_uncertainty` is shorter), refined from that
      parameter's summary; the extra uncertainty defaults to zeros. */
  function UpdatedPriors(r: EmceeResult, extra: Option<seq<real>>, updated: (Prior, UncertainValue, real) -> Prior): (ps: Result<seq<Prior>>)
    requires WellShaped(r)
    ensures ps.Err? <==> ResultValues(r).Err?
  {
    var xs := if extra.Some? then extra.value else Zeros(Ndim(r));
    match ResultValues(r)
    case Err(err) => Err(err)
    case Ok(vs) => Ok(Zip3Updated(r.model.parameters, vs, xs, updated))
  }

  /** Refined prior `k` is parameter `k`'s prior refined from its own summary and
      extra uncertainty `k`; there are as many as parameters and extra
      uncertainties allow. */
  lemma UpdatedPriorsEntries(r: EmceeResult, extra: Option<seq<real>>, updated: (Prior, UncertainValue, real) -> Prior)
    requires WellShaped(r)
    ensures UpdatedPriors(r, extra, updated).Ok? ==>
              var ps := UpdatedPriors(r, extra, updated).value;
              var xs := if extra.Some? then extra.value else Zeros(Ndim(r));
              && |ps| == (if |xs| < Ndim(r) then |xs| else Ndim(r))
              && forall k :: 0 <= k < |ps| ==>
                   ps[k] == updated(r.model.parameters[k], ResultValues(r).value[k], xs[k])
  {
  }

  /** With the default extra uncertainty there is one refined prior per model
      parameter, each refined from that parameter's own summary with no extra
      uncertainty. */
  lemma DefaultUpdatedPriorsPerParameter(r: EmceeResult, updated: (Prior, UncertainValue, real) -> Prior)
    requires WellShaped(r)
    ensures UpdatedPriors(r, None, updated).Ok? ==>
              var ps := UpdatedPriors(r, None, updated).value;
              && |ps| == Ndim(r)
              && forall k :: 0 <= k < Ndim(r) ==>
                   ps[k] == updated(r.model.parameters[k], ResultValues(r).value[k], 0.0)
  {
    UpdatedPriorsEntries(r, None, updated);
  }
}
