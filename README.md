# holopy MCMC bookkeeping, modelled in Dafny

This project models the logic that `holopy/fitting/mcmc.py` wraps around an
external ensemble MCMC sampler (emcee). It covers four pieces:

- **The posterior summariser** `SamplingResult._values` and its `find_bound`.
  It sorts the sample table by `lnprob`, takes the top row as the
  most-probable point and scans for the first row 0.5 below the maximum. From
  the row after that threshold row it folds elementwise maxima and minima into
  bounds seeded with the most-probable point. It then reports one
  `UncertainValue` per parameter.
- **The chain views of `EmceeResult`.** `data_frame` flattens and thins the
  walker × step × parameter chain. `values` summarises every sample.
  `most_probable_values` picks the samples at the maximum `lnprob`.
  `updated_priors` refines each prior from its parameter's summary.
- **`Emcee`.** Its constructor for a single image, `make_guess` (walker start
  positions drawn from the priors) and `sample` (one sampler run).
- **The stage schedule of `subset_tempering`.** Preliminary runs on growing
  data subsets, each seeded from the priors that the run before it refined,
  then one final run.

Modules, in dependency order:

- `Results` (`results.dfy`): `Option`, `Result`, and the exceptions the code
  raises itself.
- `Chains` (`chain.dfy`): the raw chain, the `data_frame` table and
  `most_probable_values`.
- `Summary` (`summary.dfy`): `_values`, `find_bound` and `UncertainValue`.
- `Emcee` (`emcee.dfy`): `Emcee`, `make_guess`, `sample`, `EmceeResult.values`
  and `updated_priors`.
- `Schedule` (`schedule.dfy`): the control flow of a staged schedule, generic
  in what a stage computes.
- `Tempering` (`tempering.dfy`): `subset_tempering` as an instance of that
  schedule, plus the imperative loop itself.

Two forms are used:

- The loops of the source are methods with loop invariants. These are the
  threshold scan, `find_bound`, `_values` and the stage loop of
  `subset_tempering`.
- The slicing, reshaping and comprehension expressions are functions. Each
  method is proved equal to a specification function, and the properties are
  lemmas about those functions.

The code this model calls but does not contain is passed in as functions
(`Emcee.Collaborators`):

- `prior.sample` becomes a deterministic `draw(prior, walker)`;
- `prior.updated`;
- `make_subset_data`;
- the sampler's `run_mcmc`.

These are total, deterministic functions. Of their results, the model
uses one property: the sampler's chain has the requested numbers of walkers,
steps and coordinates (`Emcee.KeepsShape`).

Behaviour of the code worth knowing:

- **`find_bound` uses one accumulator for all parameters.** It keeps scanning
  while *any* component still equals the most-probable point, and stops only
  once every component differs.
- **The threshold scan stops at the first row whose `lnprob` is at most
  `max - 0.5`.** When no row is that low, it reads past the last row and
  raises `IndexError`.
- **Refined priors are never checked.** Nothing rejects a zero-width or
  otherwise degenerate refined prior (the TODO at `mcmc.py:121`). A degenerate
  summary is passed on, and the next stage draws from it.
- **An empty thinned table is not an error** when the model has parameters. A
  burn-in or stride that keeps no rows gives an empty table.
- **A model without parameters makes `data_frame` raise.** `reshape(-1, 0)`
  (`mcmc.py:300`) cannot infer its `-1` axis, so `data_frame` raises
  `ValueError` for every burn-in and stride that get past the slice, and with it
  `values()` and `updated_priors()` raise too.
- **`UncertainValue`'s `minus` defaults to `None`.**
- **The final stage is built without `preprocess`.** The preliminary stages
  pass it (line 117), the final stage does not (line 127). So the final run
  subsets the image as given.

## Model

| member | source | states |
|---|---|---|
| Chains.TruncateToInt | holopy/fitting/mcmc.py:293 | `int(x)` truncates toward zero: the result lies within one of `x` on the side of zero |
| Chains.MaxOf | holopy/fitting/mcmc.py:293 | `max(acor)` is an element of the sequence and no element exceeds it |
| Chains.MaxLnprobIsMax | holopy/fitting/mcmc.py:201 | the table maximum `lnprob` is attained by some row and bounds every row |
| Chains.SliceStart | holopy/fitting/mcmc.py:296 | Python's normalised slice start lies in `[0, n]` for a positive step and in `[-1, n)` for a negative one |
| Chains.SliceIndices | holopy/fitting/mcmc.py:296 | `burn_in::thin` fails exactly on a zero stride; otherwise every kept index is a valid step (which ones: `AscendingIsRange`, `DescendingIsRange`) |
| Chains.DescendingIsRange | holopy/fitting/mcmc.py:296 | a negative-stride slice from the normalised start `hi` keeps `|range(hi, -1, thin)|` steps, the `j`-th being `hi + j·thin` |
| Chains.AscendingIsRange | holopy/fitting/mcmc.py:296 | a positive-stride slice keeps `|range(burn_in, nsteps, thin)|` steps, the `j`-th being `burn_in + j·thin` |
| Chains.FlattenLength | holopy/fitting/mcmc.py:296-302 | the flattened table has one row per walker and kept step |
| Chains.FlattenAt | holopy/fitting/mcmc.py:296-302 | row `w·K + j` is walker `w` at kept step `j`, and its `lnprob` comes from the same walker and step |
| Chains.FlattenUniform | holopy/fitting/mcmc.py:299-300 | every flattened row has one column per model parameter |
| Chains.ThinStep | holopy/fitting/mcmc.py:292-295 | `'acor'` fails only on an empty `acor` and otherwise strides by `int(max(acor))`; `None` means stride 1; an integer is used as given |
| Chains.DataFrame | holopy/fitting/mcmc.py:292-304 | the table fails exactly when the stride is zero (including `'acor'` truncating to 0), `acor` is empty, or the model has no parameters (`reshape(-1, 0)`); every row has `ndim` parameter columns |
| Chains.DataFrameLayout | holopy/fitting/mcmc.py:292-302 | for a non-negative burn-in and positive stride the table exists exactly when the model has parameters; then there are `walkers × |range(burn_in, nsteps, thin)|` rows; walker `w` at kept step `j` holds `chain[w][burn_in + j·thin]` and `lnprobability[w][burn_in + j·thin]` |
| Chains.NoThinIsAllSamples | holopy/fitting/mcmc.py:292-307 | `data_frame(thin=None)` is the table of every sample, and raises for a model without parameters |
| Chains.AllSamplesShape | holopy/fitting/mcmc.py:307 | the unthinned table has `walkers × nsteps` rows, each with `ndim` coordinates |
| Chains.MaxLnprob | holopy/fitting/mcmc.py:201 | no contract of its own; `MaxLnprobIsMax` states that it is the table maximum |
| Chains.Flatten | holopy/fitting/mcmc.py:299-302 | no contract of its own; `FlattenLength`, `FlattenAt` and `FlattenUniform` state its layout |
| Chains.AllSamples | holopy/fitting/mcmc.py:299-302 | no contract of its own; `AllSamplesShape` and `NoThinIsAllSamples` state that it is the unthinned table |
| Chains.AtLevel | holopy/fitting/mcmc.py:317-318 | the mask selection lists no more vectors than the table has rows |
| Chains.AtLevelWitness | holopy/fitting/mcmc.py:317-318 | every listed vector is the vector of a row at the given `lnprob` |
| Chains.AtLevelMembers | holopy/fitting/mcmc.py:317-318 | the mask selection lists exactly the vectors of the rows at the given `lnprob` |
| Chains.AtLevelSplits | holopy/fitting/mcmc.py:317-318 | the selection keeps table order and duplicates: a concatenated table selects the first part's vectors then the second's, and one row contributes its vector exactly when it is at the level |
| Chains.ColumnMin | holopy/fitting/mcmc.py:320 | the column minimum is attained and bounds the column from below |
| Chains.ColumnMax | holopy/fitting/mcmc.py:320 | the column maximum is attained and bounds the column from above |
| Chains.ColumnsVaryIffRowsDiffer | holopy/fitting/mcmc.py:320 | some column's min differs from its max if and only if two selected vectors differ |
| Chains.AtMaxShape | holopy/fitting/mcmc.py:317-318 | a non-empty table has at least one vector at its maximum, each with `ndim` coordinates |
| Chains.AtMaxAreBest | holopy/fitting/mcmc.py:317-318 | the vectors at the maximum are exactly the vectors of the most-probable samples |
| Chains.MostProbableOf | holopy/fitting/mcmc.py:316-325 | the selection fails exactly on an empty table |
| Chains.AllAtMaxAgree | holopy/fitting/mcmc.py:320-323 | when all vectors at the maximum agree, that vector is the vector of every best sample |
| Chains.MostProbableIsBest | holopy/fitting/mcmc.py:316-325 | a single result is the vector of every best sample; several results are all best samples' vectors, include each best sample's, and are not all equal |
| Chains.MostProbableValues | holopy/fitting/mcmc.py:316-318 | `most_probable_values()` fails exactly when the chain holds no sample |
| Summary.UncertainValueDefaults | holopy/fitting/mcmc.py:369-373 | `UncertainValue(value, plus)` keeps both arguments, has `minus == None` and `n_sigma == 1` |
| Summary.SortByLnprob | holopy/fitting/mcmc.py:191 | the sort keeps the number of rows; `SortByLnprobSorts` states that it is a descending permutation |
| Summary.InsertPermutes | holopy/fitting/mcmc.py:191 | inserting a row adds exactly that row |
| Summary.InsertSorted | holopy/fitting/mcmc.py:191 | inserting into a descending table keeps it descending |
| Summary.SortByLnprobSorts | holopy/fitting/mcmc.py:191 | the sort is a permutation of the table into descending `lnprob` order |
| Summary.SortKeepsRows | holopy/fitting/mcmc.py:191 | the sorted table holds the same rows, each with `ndim` parameters |
| Summary.SortedPermutationTop | holopy/fitting/mcmc.py:191-192 | any descending permutation of a table starts with a row at the table's maximum |
| Summary.SortedTopIsMax | holopy/fitting/mcmc.py:191-192 | the top row of the sorted table carries the maximum `lnprob` |
| Summary.FirstAtOrBelow | holopy/fitting/mcmc.py:200-202 | the scan from `i` stops at an index between `i` and the table length |
| Summary.Threshold | holopy/fitting/mcmc.py:200-202 | the threshold index lies within the table or one past its end; `ThresholdIndex` states that it is the first row at or below the cutoff |
| Summary.FirstAtOrBelowIsFirst | holopy/fitting/mcmc.py:200-202 | every row the scan passes lies above the cutoff, and the row it stops at does not |
| Summary.ThresholdIndex | holopy/fitting/mcmc.py:200-202 | the scan returns the first index with `lnprob <= max - 0.5`, all before it being above; when there is none it raises `IndexError` |
| Summary.Bound | holopy/fitting/mcmc.py:193-198 | `find_bound` gives one component per parameter; `BoundIsExtremeOfScan` states which extreme |
| Summary.FoldIsExtreme | holopy/fitting/mcmc.py:193-198 | each folded component is the maximum (or minimum) of the seed and the folded rows, and is attained by one of them |
| Summary.BoundStopTouches | holopy/fitting/mcmc.py:195 | every index the loop passes leaves the accumulator with a component still equal to `mp` |
| Summary.BoundStopDeparts | holopy/fitting/mcmc.py:195 | the loop stops before the last row only at an accumulator with no component equal to `mp` |
| Summary.BoundStopIsFirstDeparture | holopy/fitting/mcmc.py:195 | the loop passes only accumulators that still touch `mp`, and stops early only at one that does not |
| Summary.FindBound | holopy/fitting/mcmc.py:193-198 | the loop returns the fold over `mp` and the rows up to the first departure, and never lies behind `mp` |
| Summary.BoundIsExtremeOfScan | holopy/fitting/mcmc.py:193-198 | `find_bound` is the extreme of `mp` and the visited rows in each component, attained by one of them |
| Summary.BoundOfSeedCopies | holopy/fitting/mcmc.py:193-198 | `find_bound` gives back `mp` when every remaining row repeats it |
| Summary.Report | holopy/fitting/mcmc.py:204-206 | one `UncertainValue` per parameter; `SummaryOfSortedShape` and `SummaryIntervalIsBounds` state its fields |
| Summary.SummaryOfSorted | holopy/fitting/mcmc.py:190-206 | no contract of its own; `SummaryOfSortedShape`, `SummaryIntervalIsBounds` and `SummaryFailsIff` state what it reports |
| Summary.SummaryOf | holopy/fitting/mcmc.py:190-206 | no contract of its own; `SummaryIsMostProbable` and `SummaryFailsIff` state what `_values` reports |
| Summary.SummaryOfSortedShape | holopy/fitting/mcmc.py:204-206 | one value per parameter, taken from the top row, with `plus >= 0`, `minus >= 0` and one sigma |
| Summary.SummaryIntervalIsBounds | holopy/fitting/mcmc.py:204-206 | `value + plus` is the upper bound and `value - minus` the lower bound, both found from the row after the threshold row |
| Summary.DegenerateTableGivesZeroWidth | holopy/fitting/mcmc.py:204-206 | when every row after the threshold row repeats `mp`, every parameter gets `plus == minus == 0` |
| Summary.SummaryIsMostProbable | holopy/fitting/mcmc.py:190-206 | the reported values are, in model order, the parameters of a sample at the maximum `lnprob` |
| Summary.SummaryFailsIff | holopy/fitting/mcmc.py:190-202 | `_values` raises exactly when the table is empty or every row lies within 0.5 of the maximum |
| Summary.Values | holopy/fitting/mcmc.py:190-206 | the imperative `_values` computes the summary: values from the top sorted row, non-negative deviations |
| Emcee.NewEmcee | holopy/fitting/mcmc.py:25-36 | the object keeps the model, walkers and threads, and the subset of the preprocessed image (of the image itself without `preprocess`) |
| Emcee.Transpose | holopy/fitting/mcmc.py:40 | the transpose has one row per column; `TransposeEntries` states its entries |
| Emcee.Draws | holopy/fitting/mcmc.py:40 | `p.sample(size=nwalkers)` gives `nwalkers` draws |
| Emcee.Stack | holopy/fitting/mcmc.py:40 | the stack has one row per prior; `StackRows` states its rows |
| Emcee.TransposeEntries | holopy/fitting/mcmc.py:40 | the transpose has entry `[j][i] == m[i][j]` |
| Emcee.TransposeTwice | holopy/fitting/mcmc.py:40 | transposing twice gives the matrix back |
| Emcee.StackRows | holopy/fitting/mcmc.py:40 | row `k` of the stack holds the draws from prior `k` |
| Emcee.Guess | holopy/fitting/mcmc.py:40 | stacking fails exactly when there are no priors; otherwise there is one row per walker |
| Emcee.GuessDraws | holopy/fitting/mcmc.py:39-40 | walker `w` starts with coordinate `k` equal to the `w`-th draw from prior `k` |
| Emcee.MakeGuess | holopy/fitting/mcmc.py:39-40 | `make_guess` fails exactly for a model without parameters and gives `nwalkers` rows otherwise |
| Emcee.Request | holopy/fitting/mcmc.py:42-50 | the sampler gets the object's model, data, walkers and threads, the parameter count as dimension, and the given `p0` and length |
| Emcee.Start | holopy/fitting/mcmc.py:47-48 | the walkers start from `p0`, or from `make_guess()` when `p0` is `None` |
| Emcee.Sample | holopy/fitting/mcmc.py:45-52 | `sample` fails exactly without `p0` and without parameters; otherwise it wraps the run of that request with the model |
| Emcee.RunIsWellShaped | holopy/fitting/mcmc.py:50-52 | a run keeping the requested shape gives a rectangular chain with `nwalkers` walkers and `n_samples` steps |
| Emcee.SampleIsWellShaped | holopy/fitting/mcmc.py:45-52 | every result of `sample` has that shape |
| Emcee.ResultValues | holopy/fitting/mcmc.py:306-308 | `values()`, `_values` of `data_frame(thin=None)`, reports one value per model parameter |
| Emcee.ResultValuesMeaning | holopy/fitting/mcmc.py:306-308 | `values()` fails exactly when the model has no parameters, the chain is empty or every sample lies within 0.5 of the maximum; its estimates are a most-probable sample's parameters with non-negative spreads |
| Emcee.ValuesAgreeWithMostProbable | holopy/fitting/mcmc.py:306-308 | the estimates of `values()` are the vector of `most_probable_values()`, or one of its vectors |
| Emcee.Zip3Updated | holopy/fitting/mcmc.py:335-336 | `zip` stops at the shortest of the three sequences |
| Emcee.Zeros | holopy/fitting/mcmc.py:334 | `np.zeros(n)` has `n` entries |
| Emcee.UpdatedPriors | holopy/fitting/mcmc.py:332-336 | `updated_priors` fails exactly when `values()` does |
| Emcee.UpdatedPriorsEntries | holopy/fitting/mcmc.py:332-336 | refined prior `k` is prior `k` refined with summary `k` and extra uncertainty `k`, for as many as both allow |
| Emcee.DefaultUpdatedPriorsPerParameter | holopy/fitting/mcmc.py:333-336 | with the default zeros there is one refined prior per parameter, with no extra uncertainty |
| Schedule.Rest | holopy/fitting/mcmc.py:114-124 | no contract of its own; `RestOutcome` and `RestFailure` state how the stage loop ends |
| Schedule.Requests | holopy/fitting/mcmc.py:114-124 | no contract of its own; `RequestsLinked` states how the stage requests are made |
| Schedule.Final | holopy/fitting/mcmc.py:126-131 | no contract of its own; `FinalFailure` and `NoStages` state its outcomes |
| Schedule.AllRequests | holopy/fitting/mcmc.py:114-131 | no contract of its own; `ScheduleLinked`, `StageInput`, `FinalInput` and `SeedInput` state its requests |
| Schedule.RequestsLinked | holopy/fitting/mcmc.py:114-124 | at most one request per stage; the first is made from the entry `p0`, each later one from the seed of the run before it |
| Schedule.RestOutcome | holopy/fitting/mcmc.py:114-124 | the loop completes exactly when every stage made its request and the last seed was drawn, and then leaves that seed |
| Schedule.RestFailure | holopy/fitting/mcmc.py:114-124 | a failed loop reports the error of the stage start or the seed that failed |
| Schedule.ScheduleLinked | holopy/fitting/mcmc.py:114-128 | one request per stage and then the final one exactly when the final request was made, each made from the seed of the run before it |
| Schedule.StageInput | holopy/fitting/mcmc.py:114-118 | every stage request is what its stage makes from some `p0` |
| Schedule.FinalInput | holopy/fitting/mcmc.py:126-128 | the final request is what the final stage makes from some `p0` |
| Schedule.SeedInput | holopy/fitting/mcmc.py:118-128 | every request but the last yields a seed, and the next request is made from it |
| Schedule.FinalFailure | holopy/fitting/mcmc.py:114-128 | when seeded stages always start, a schedule that fails after a request fails in the seed of its last request |
| Schedule.NoStages | holopy/fitting/mcmc.py:114-128 | with no stages the schedule is the final request alone, made from no `p0` |
| Tempering.Seed | holopy/fitting/mcmc.py:119-122 | the next `p0` fails exactly when `values()` fails or there are no parameters, so a zero-width refined prior passes; it has `nwalkers` rows |
| Tempering.SeedDraws | holopy/fitting/mcmc.py:119-122 | a successful seed has `nwalkers` rows of one coordinate per parameter, walker `w`'s coordinate `k` being the `w`-th draw from parameter `k`'s prior refined with summary `k` and no extra uncertainty |
| Tempering.SeedFrom | holopy/fitting/mcmc.py:118-122 | a seed has `nwalkers` rows |
| Tempering.StageEmcee | holopy/fitting/mcmc.py:115-117 | stage `i`'s sampler object keeps the model, walkers and threads, and holds the subset `fractions[i]` of the preprocessed image |
| Tempering.FinalEmcee | holopy/fitting/mcmc.py:127 | the final sampler object keeps the model, walkers and threads, and holds the subset `fractions[-1]` of the image without `preprocess` |
| Tempering.StageStart | holopy/fitting/mcmc.py:115-118 | stage `i` reads `fractions[i]` and runs `stage_len` samples of the preprocessed image's subset, from `p0` or `make_guess()` |
| Tempering.FinalStart | holopy/fitting/mcmc.py:126-128 | the final stage runs `final_len` samples of the subset `fractions[-1]` of the image without `preprocess` |
| Tempering.Tempering | holopy/fitting/mcmc.py:126-131 | `subset_tempering` returns a result for the caller's model |
| Tempering.Rest | holopy/fitting/mcmc.py:114-124 | no contract of its own; the stage loop of `subset_tempering`, whose outcomes `Schedule.RestOutcome` and `Schedule.RestFailure` state |
| Tempering.Calls | holopy/fitting/mcmc.py:114-131 | no contract of its own; the sampler runs in order, which `CallArguments`, `FirstCallGuesses` and `CallsSeeded` describe |
| Tempering.SubsetTempering | holopy/fitting/mcmc.py:114-131 | the imperative loop returns exactly the result of the schedule |
| Tempering.SeedFromRun | holopy/fitting/mcmc.py:118-122 | each stage's result is well shaped and its seed fails exactly when `values()` fails or there are no parameters |
| Tempering.CallArguments | holopy/fitting/mcmc.py:115-128 | at most one request per fraction: stage `k` samples the preprocessed `fractions[k]` subset for `stage_len` steps, the last samples the raw `fractions[-1]` subset for `final_len` |
| Tempering.FirstCallGuesses | holopy/fitting/mcmc.py:114-118 | the first request starts from `make_guess()` |
| Tempering.CallsSeeded | holopy/fitting/mcmc.py:118-122 | every later request starts from the seed drawn from the previous run's refined priors |
| Tempering.TemperingIsFinalRun | holopy/fitting/mcmc.py:101-131 | it succeeds exactly when it makes one request per fraction, and returns the final run's result; no fractions is an `IndexError` |
| Tempering.NoStagesIsOneRun | holopy/fitting/mcmc.py:101-102 | `stages == 0` is a single final run from `make_guess()` |
| Tempering.NoParametersNoRuns | holopy/fitting/mcmc.py:114-118 | a model without parameters fails before any run |
| Tempering.FailureIsRefinement | holopy/fitting/mcmc.py:118-122 | a schedule that fails after a run fails because `values()` of that run raised |

## Left out

- **What the sampler runs.** Emcee's `EnsembleSampler` internals, `acor`,
  `acceptance_fraction` and the walker dynamics are left out. A run is an
  opaque function, assumed to keep the requested shape (`KeepsShape`).
- **Randomness.** `prior.sample` is a fixed function of prior and walker
  index. `prior.updated` and `make_subset_data` are opaque functions.
- **Floating point.** Sample values, `lnprob` and `acor` are exact reals. NaN,
  infinities and rounding are not modelled.
- **The fractions and their inputs.** The `np.logspace`/`log10` computation of
  the fractions (and with it `min_pixels`, `max_pixels` and `n_pixels`) is
  left out: the fractions are an input, and `stages` is their count minus one.
- **Threads, timing and logging.** `threads='all'` and `multiprocessing`, the
  timing, `log` and its `sample_string`, and the warning that
  `most_probable_values` prints when several samples share the maximum
  (`mcmc.py:321`) are left out. Threads are passed
  through as an opaque option.
- **Exceptions raised by the collaborators.** `run_mcmc`, `prior.sample`,
  `prior.updated` and `make_subset_data` are total functions here. In the
  source an exception raised inside any of them would end `subset_tempering`
  (and `sample`); those error paths are not modelled.
- **List data in `Emcee.__init__`.** The constructor's branch for a list of
  frames is left out; only a single image is modelled.
- **`include_lnprob=False` in `data_frame`.** It is left out; only the callers
  that are themselves left out use it.
- **Column labels.** Tables are rows of parameter vectors in model order.
  Column names, `DataFrame` column ordering and duplicate parameter names are
  not modelled.
- **Sort order among ties.** `sort_values` is an insertion sort that is one
  admissible order among rows of equal `lnprob`. pandas' sort is not stable,
  so the order among ties may differ.
- **Plotting, display and persistence.** `_pairplots`, `plot_traces`,
  `plot_lnprob`, `_repr_html_`, `UncertainValue._repr_latex_`, `save`, `load`
  and `load_sampling` are left out.
- **Broken callers.** `PTemcee` and `timeseries` are left out, because they
  cannot run as written.
- Tempering.SeedFrom: its branch for a malformed sampler result only makes the
  function total. It is unreachable under `KeepsShape` (`SeedFromRun`), so
  nothing is stated about it.
