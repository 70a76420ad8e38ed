/** `subset_tempering`: a schedule of short sampling runs on growing random
    subsets of the image, each seeding the next from the priors refined by its
    result, then one long final run. The subset fractions are an input here. */
module Tempering {
  import opened Results
  import opened Chains
  import opened Summary
  import opened Emcee
  import Schedule

  /** The arguments of `subset_tempering` that the schedule depends on, with the
      subset fractions already computed (`fractions[:-1]` for the preliminary
      stages, `fractions[-1]` for the final one). */
  datatype Config = Config(
    model: Model,
    data: Image,
    fractions: seq<real>,
    finalLen: nat,
    nwalkers: nat,
    threads: Option<nat>,
    stageLen: nat,
    preprocess: Option<Image -> Image>)

  /** The number of preliminary stages. */
  function Stages(cfg: Config): nat
    requires |cfg.fractions| > 0
  {
    |cfg.fractions| - 1
  }

  /** The `Emcee` of preliminary stage `i`: subset fraction `fractions[i]`, with
      `preprocess`. */
  function StageEmcee(cfg: Config, co: Collaborators, i: nat): (e: Emcee)
    requires i < |cfg.fractions|
    ensures e.model == cfg.model && e.nwalkers == cfg.nwalkers && e.threads == cfg.threads
    ensures e.data == co.subset(Prepared(cfg), Some(cfg.fractions[i]))
  {
    NewEmcee(cfg.model, cfg.data, cfg.nwalkers, Some(cfg.fractions[i]), cfg.threads, cfg.preprocess, co)
  }

  /** The `Emcee` of the final stage: subset fraction `fractions[-1]`, built
      without passing `preprocess`. */
  function FinalEmcee(cfg: Config, co: Collaborators): (e: Emcee)
    requires |cfg.fractions| > 0
    ensures e.model == cfg.model && e.nwalkers == cfg.nwalkers && e.threads == cfg.threads
    ensures e.data == co.subset(cfg.data, Some(cfg.fractions[Stages(cfg)]))
  {
    NewEmcee(cfg.model, cfg.data, cfg.nwalkers, Some(cfg.fractions[Stages(cfg)]), cfg.threads, None, co)
  }

  /** The image every preliminary stage subsets: `data` after `preprocess`. */
  function Prepared(cfg: Config): Image {
    if cfg.preprocess.Some? then cfg.preprocess.value(cfg.data) else cfg.data
  }

  /** What every request of the schedule shares: the model, its dimension, the
      walkers and the threads. */
  predicate SameRun(cfg: Config, q: RunRequest) {
    && q.model == cfg.model && q.ndim == |cfg.model.parameters|
    && q.nwalkers == cfg.nwalkers && q.threads == cfg.threads
  }

  /** `q` is the request of preliminary stage `k`: `stage_len` samples on the
      `fractions[k]` subset of the preprocessed image. */
  predicate IsStageCall(cfg: Config, co: Collaborators, k: nat, q: RunRequest)
    requires k < |cfg.fractions|
  {
    && SameRun(cfg, q) && q.nSamples == cfg.stageLen
    && q.data == co.subset(Prepared(cfg), Some(cfg.fractions[k]))
  }

  /** `q` is the request of the final stage: `final_len` samples on the
      `fractions[-1]` subset of the image as given, without `preprocess`. */
  predicate IsFinalCall(cfg: Config, co: Collaborators, q: RunRequest)
    requires |cfg.fractions| > 0
  {
    && SameRun(cfg, q) && q.nSamples == cfg.finalLen
    && q.data == co.subset(cfg.data, Some(cfg.fractions[Stages(cfg)]))
  }

  /** The next stage's `p0` drawn from the priors refined by `result`:
      `result.updated_priors()`, then
      `np.vstack([p.sample(size=nwalkers) for p in new_pars]).T`. The refined
      priors are used as they come: nothing checks for a zero-width prior. */
  function Seed(cfg: Config, co: Collaborators, result: EmceeResult): (r: Result<Matrix>)
    requires WellShaped(result)
    ensures r.Err? <==> ResultValues(result).Err? || Ndim(result) == 0
    ensures r.Ok? ==> |r.value| == cfg.nwalkers
  {
    match UpdatedPriors(result, None, co.updated)
    case Err(err) => Err(err)
    case Ok(newPars) => Guess(newPars, cfg.nwalkers, co.draw)
  }

  /** What the next stage's `p0` holds: walker `w` starts at the `w`-th draw
      from each parameter's prior refined by that parameter's summary, with no
      extra uncertainty. */
  lemma SeedDraws(cfg: Config, co: Collaborators, result: EmceeResult)
    requires WellShaped(result)
    ensures Seed(cfg, co, result).Ok? ==>
              var p0 := Seed(cfg, co, result).value;
              && ResultValues(result).Ok?
              && |p0| == cfg.nwalkers
              && forall w :: 0 <= w < cfg.nwalkers ==>
                   && |p0[w]| == Ndim(result)
                   && forall k :: 0 <= k < Ndim(result) ==>
                        p0[w][k] == co.draw(co.updated(result.model.parameters[k], ResultValues(result).value[k], 0.0), w)
  {
    if Seed(cfg, co, result).Ok? {
      var ps := UpdatedPriors(result, None, co.updated).value;
      DefaultUpdatedPriorsPerParameter(result, co.updated);
      GuessDraws(ps, cfg.nwalkers, co.draw);
    }
  }

  /** The seed drawn from the result of the sampler run for `q`. A sampler that
      keeps its shape always gives a well-shaped result (`SeedFromRun`); the
      other branch only makes the function total. */
  function SeedFrom(cfg: Config, co: Collaborators, q: RunRequest): (r: Result<Matrix>)
    ensures r.Ok? ==> |r.value| == cfg.nwalkers
  {
    var result := EmceeResult(co.run(q), cfg.model);
    if WellShaped(result) then Seed(cfg, co, result) else Err(IndexOutOfRange)
  }

  /** The request preliminary stage `i` makes from `p0`: `stage_len` samples
      from `p0`, or from `make_guess()` when there is none; reading
      `fractions[i]` past the end is an `IndexError`. */
  function StageStart(cfg: Config, co: Collaborators, i: nat, p0: Option<Matrix>): (r: Result<RunRequest>)
    ensures r.Err? <==> i >= |cfg.fractions| || (p0.None? && |cfg.model.parameters| == 0)
    ensures r.Err? ==> r.error == if i >= |cfg.fractions| then IndexOutOfRange else NothingToStack
    ensures r.Ok? ==> i < |cfg.fractions| && IsStageCall(cfg, co, i, r.value)
    ensures r.Ok? && p0.Some? ==> r.value.p0 == p0.value
    ensures r.Ok? && p0.None? ==> Guess(cfg.model.parameters, cfg.nwalkers, co.draw) == Ok(r.value.p0)
  {
    if i >= |cfg.fractions| then Err(IndexOutOfRange)
    else
      var e := StageEmcee(cfg, co, i);
      match Start(e, p0, co.draw)
      case Err(err) => Err(err)
      case Ok(p) => Ok(Request(e, cfg.stageLen, p))
  }

  /** The request the final stage makes from the `p0` the loop leaves. */
  function FinalStart(cfg: Config, co: Collaborators, p0: Option<Matrix>): (r: Result<RunRequest>)
    requires |cfg.fractions| > 0
    ensures r.Err? <==> p0.None? && |cfg.model.parameters| == 0
    ensures r.Err? ==> r.error == NothingToStack
    ensures r.Ok? ==> IsFinalCall(cfg, co, r.value)
    ensures r.Ok? && p0.Some? ==> r.value.p0 == p0.value
    ensures r.Ok? && p0.None? ==> Guess(cfg.model.parameters, cfg.nwalkers, co.draw) == Ok(r.value.p0)
  {
    var e := FinalEmcee(cfg, co);
    match Start(e, p0, co.draw)
    case Err(err) => Err(err)
    case Ok(p) => Ok(Request(e, cfg.finalLen, p))
  }

  /** `StageStart` as the schedule's stage start. */
  function StartOf(cfg: Config, co: Collaborators): (nat, Option<Matrix>) -> Result<RunRequest> {
    (i: nat, p0: Option<Matrix>) => StageStart(cfg, co, i, p0)
  }

  /** `SeedFrom` as the schedule's seed. */
  function SeedOf(cfg: Config, co: Collaborators): RunRequest -> Result<Matrix> {
    (q: RunRequest) => SeedFrom(cfg, co, q)
  }

  /** `FinalStart` as the schedule's final request. */
  function FinalOf(cfg: Config, co: Collaborators): Option<Matrix> -> Result<RunRequest>
    requires |cfg.fractions| > 0
  {
    (p0: Option<Matrix>) => FinalStart(cfg, co, p0)
  }

  /** The stage loop of `subset_tempering` from stage `i` on, entered with `p0`:
      the `p0` left after the last preliminary stage, or the error that ended
      one of them. */
  function Rest(cfg: Config, co: Collaborators, i: nat, p0: Option<Matrix>): Result<Option<Matrix>>
    requires |cfg.fractions| > 0
  {
    Schedule.Rest(Stages(cfg), StartOf(cfg, co), SeedOf(cfg, co), i, p0)
  }

  /** What `subset_tempering` returns: the final stage's result. `fractions[-1]`
      is read before any stage runs, so no fractions at all is an `IndexError`. */
  function Tempering(cfg: Config, co: Collaborators): (r: Result<EmceeResult>)
    ensures r.Ok? ==> r.value.model == cfg.model
  {
    if |cfg.fractions| == 0 then Err(IndexOutOfRange)
    else
      match Schedule.Final(Stages(cfg), StartOf(cfg, co), SeedOf(cfg, co), FinalOf(cfg, co))
      case Err(err) => Err(err)
      case Ok(q) => Ok(EmceeResult(co.run(q), cfg.model))
  }

  /** Every sampler request `subset_tempering` makes, in order: the preliminary
      stages', then the final stage's when the loop gets that far. */
  function Calls(cfg: Config, co: Collaborators): seq<RunRequest> {
    if |cfg.fractions| == 0 then []
    else Schedule.AllRequests(Stages(cfg), StartOf(cfg, co), SeedOf(cfg, co), FinalOf(cfg, co))
  }

  /** `subset_tempering`: the stage loop reassigning `p0`, then the final run. */
  method SubsetTempering(cfg: Config, co: Collaborators) returns (r: Result<EmceeResult>)
    requires KeepsShape(co.run)
    ensures r == Tempering(cfg, co)
  {
    if |cfg.fractions| == 0 {
      return Err(IndexOutOfRange);
    }
    var stages := |cfg.fractions| - 1;
    var p0: Option<Matrix> := None;
    for i := 0 to stages
      invariant Rest(cfg, co, i, p0) == Rest(cfg, co, 0, None)
    {
      var emcee := StageEmcee(cfg, co, i);
      var result := Sample(emcee, cfg.stageLen, p0, co);
      if result.Err? {
        return Err(result.error);
      }
      SampleIsWellShaped(emcee, cfg.stageLen, p0, co);
      var next := Seed(cfg, co, result.value);
      if next.Err? {
        return Err(next.error);
      }
      p0 := Some(next.value);
    }
    var emcee := FinalEmcee(cfg, co);
    r := Sample(emcee, cfg.finalLen, p0, co);
  }

  /** A sampler that keeps its shape gives a well-shaped result for every
      request of the schedule, and its seed is the one `Seed` draws from it:
      it fails exactly when `values()` fails or there are no parameters. */
  lemma SeedFromRun(cfg: Config, co: Collaborators, q: RunRequest)
    requires KeepsShape(co.run) && q.ndim == |cfg.model.parameters|
    ensures WellShaped(EmceeResult(co.run(q), cfg.model))
    ensures SeedFrom(cfg, co, q) == Seed(cfg, co, EmceeResult(co.run(q), cfg.model))
    ensures SeedFrom(cfg, co, q).Err? <==>
              ResultValues(EmceeResult(co.run(q), cfg.model)).Err? || |cfg.model.parameters| == 0
  {
  }

  /** The requests of `subset_tempering`, in order: one per preliminary stage
      on that stage's subset of the preprocessed image, then one final request
      on the last subset of the image as given, as far as the schedule gets. */
  lemma CallArguments(cfg: Config, co: Collaborators)
    ensures var cs := Calls(cfg, co);
            && |cs| <= |cfg.fractions|
            && (forall k :: 0 <= k < |cs| && k + 1 < |cfg.fractions| ==> IsStageCall(cfg, co, k, cs[k]))
            && (0 < |cs| == |cfg.fractions| ==> IsFinalCall(cfg, co, cs[|cs| - 1]))
  {
    if |cfg.fractions| > 0 {
      var n, st, sd, fi := Stages(cfg), StartOf(cfg, co), SeedOf(cfg, co), FinalOf(cfg, co);
      var cs := Calls(cfg, co);
      assert cs == Schedule.AllRequests(n, st, sd, fi);
      Schedule.ScheduleLinked(n, st, sd, fi);
      forall k | 0 <= k < |cs| && k + 1 < |cfg.fractions|
        ensures IsStageCall(cfg, co, k, cs[k])
      {
        var p := Schedule.StageInput(n, st, sd, fi, k);
      }
      if 0 < |cs| == |cfg.fractions| {
        var p := Schedule.FinalInput(n, st, sd, fi);
      }
    }
  }

  /** The first request starts from `make_guess()`. */
  lemma FirstCallGuesses(cfg: Config, co: Collaborators)
    ensures var cs := Calls(cfg, co);
            |cs| > 0 ==> Guess(cfg.model.parameters, cfg.nwalkers, co.draw) == Ok(cs[0].p0)
  {
  }

  /** Every request after the first starts from the seed drawn from the run
      before it. */
  lemma CallsSeeded(cfg: Config, co: Collaborators)
    ensures var cs := Calls(cfg, co);
            forall k :: 0 <= k < |cs| - 1 ==> SeedFrom(cfg, co, cs[k]) == Ok(cs[k + 1].p0)
  {
    if |cfg.fractions| > 0 {
      var n, st, sd, fi := Stages(cfg), StartOf(cfg, co), SeedOf(cfg, co), FinalOf(cfg, co);
      var cs := Calls(cfg, co);
      assert cs == Schedule.AllRequests(n, st, sd, fi);
      forall k | 0 <= k < |cs| - 1
        ensures SeedFrom(cfg, co, cs[k]) == Ok(cs[k + 1].p0)
      {
        var m := Schedule.SeedInput(n, st, sd, fi, k);
      }
    }
  }

  /** `subset_tempering` succeeds exactly when it makes every request, one per
      fraction, and then returns the result of the last, the final run. */
  lemma TemperingIsFinalRun(cfg: Config, co: Collaborators)
    ensures var cs := Calls(cfg, co);
            && (Tempering(cfg, co).Ok? <==> |cfg.fractions| > 0 && |cs| == |cfg.fractions|)
            && (Tempering(cfg, co).Ok? ==> Tempering(cfg, co).value == EmceeResult(co.run(cs[|cs| - 1]), cfg.model))
            && (|cfg.fractions| == 0 ==> Tempering(cfg, co) == Err(IndexOutOfRange))
  {
    if |cfg.fractions| > 0 {
      var n, st, sd, fi := Stages(cfg), StartOf(cfg, co), SeedOf(cfg, co), FinalOf(cfg, co);
      var cs, f := Calls(cfg, co), Schedule.Final(n, st, sd, fi);
      assert cs == Schedule.AllRequests(n, st, sd, fi);
      Schedule.ScheduleLinked(n, st, sd, fi);
      if f.Ok? {
        assert Tempering(cfg, co) == Ok(EmceeResult(co.run(f.value), cfg.model));
      } else {
        assert Tempering(cfg, co) == Err(f.error);
      }
    }
  }

  /** With a single fraction there are no preliminary stages: one run of the
      final `Emcee` from `make_guess()`, the only request. */
  lemma NoStagesIsOneRun(cfg: Config, co: Collaborators)
    requires |cfg.fractions| == 1
    ensures Tempering(cfg, co) == Sample(FinalEmcee(cfg, co), cfg.finalLen, None, co)
    ensures |cfg.model.parameters| > 0 ==>
              Calls(cfg, co) == [Request(FinalEmcee(cfg, co), cfg.finalLen, Guess(cfg.model.parameters, cfg.nwalkers, co.draw).value)]
  {
    Schedule.NoStages(StartOf(cfg, co), SeedOf(cfg, co), FinalOf(cfg, co));
  }

  /** A model without parameters has nothing for `make_guess` to stack: the
      first stage fails before any run. */
  lemma NoParametersNoRuns(cfg: Config, co: Collaborators)
    requires |cfg.fractions| > 0 && |cfg.model.parameters| == 0
    ensures Tempering(cfg, co) == Err(NothingToStack)
    ensures Calls(cfg, co) == []
  {
  }

  /** A schedule that fails after its first request fails in the refinement of
      the last run it made: `values()` of that run raised. */
  lemma FailureIsRefinement(cfg: Config, co: Collaborators)
    requires KeepsShape(co.run)
    ensures var cs := Calls(cfg, co);
            Tempering(cfg, co).Err? && |cs| > 0 ==>
              && SeedFrom(cfg, co, cs[|cs| - 1]) == Err(Tempering(cfg, co).error)
              && WellShaped(EmceeResult(co.run(cs[|cs| - 1]), cfg.model))
              && ResultValues(EmceeResult(co.run(cs[|cs| - 1]), cfg.model)).Err?
  {
    var cs := Calls(cfg, co);
    if Tempering(cfg, co).Err? && |cs| > 0 {
      var n, st, sd, fi := Stages(cfg), StartOf(cfg, co), SeedOf(cfg, co), FinalOf(cfg, co);
      Schedule.FinalFailure(n, st, sd, fi);
      CallArguments(cfg, co);
      var last := cs[|cs| - 1];
      assert SameRun(cfg, last);
      SeedFromRun(cfg, co, last);
    }
  }
}
