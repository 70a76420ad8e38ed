/** The control flow of a tempering schedule, independent of what a stage
    computes: `n` preliminary stages, stage `i` turning the `p0` it is given
    into a sampler request `start(i, p0)` (or failing to), the result of that
    request's run giving the next stage's `p0` through `seed`, and a final
    request `final(p0)` made from the `p0` the last stage leaves. */
module Schedule {
  import opened Results

  /** The stage loop from stage `i` on, entered with `p0`: the `p0` it leaves,
      or the first error of a stage. */
  function Rest<Q, M>(n: nat, start: (nat, Option<M>) -> Result<Q>, seed: Q -> Result<M>,
                      i: nat, p0: Option<M>): Result<Option<M>>
    decreases n - i
  {
    if i >= n then Ok(p0)
    else
      match start(i, p0)
      case Err(err) => Err(err)
      case Ok(q) =>
        match seed(q)
        case Err(err) => Err(err)
        case Ok(m) => Rest(n, start, seed, i + 1, Some(m))
  }

  /** The requests the stages from `i` on make, in order, up to the first
      failure: a stage that cannot start makes none, and one whose seed fails
      makes its own and ends the loop. */
  function Requests<Q, M>(n: nat, start: (nat, Option<M>) -> Result<Q>, seed: Q -> Result<M>,
                          i: nat, p0: Option<M>): seq<Q>
    decreases n - i
  {
    if i >= n then []
    else
      match start(i, p0)
      case Err(_) => []
      case Ok(q) =>
        [q] +
        match seed(q)
        case Err(_) => []
        case Ok(m) => Requests(n, start, seed, i + 1, Some(m))
  }

  /** The final request, made from the `p0` the whole loop leaves; the loop is
      entered with no `p0`. */
  function Final<Q, M>(n: nat, start: (nat, Option<M>) -> Result<Q>, seed: Q -> Result<M>,
                       final: Option<M> -> Result<Q>): Result<Q>
  {
    match Rest(n, start, seed, 0, None)
    case Err(err) => Err(err)
    case Ok(p0) => final(p0)
  }

  /** Every request of the schedule, in order. */
  function AllRequests<Q, M>(n: nat, start: (nat, Option<M>) -> Result<Q>, seed: Q -> Result<M>,
                             final: Option<M> -> Result<Q>): seq<Q>
  {
    Requests(n, start, seed, 0, None) +
    match Final(n, start, seed, final)
    case Err(_) => []
    case Ok(q) => [q]
  }

  /** At most one request per stage; the first is made from `p0`, and each later
      one from the seed of the run before it. */
  lemma {:induction false} RequestsLinked<Q, M>(n: nat, start: (nat, Option<M>) -> Result<Q>, seed: Q -> Result<M>,
                                                i: nat, p0: Option<M>)
    requires i <= n
    ensures var qs := Requests(n, start, seed, i, p0);
            && i + |qs| <= n
            && (|qs| > 0 ==> start(i, p0) == Ok(qs[0]))
            && (forall k :: 0 <= k < |qs| - 1 ==>
                  seed(qs[k]).Ok? && start(i + k + 1, Some(seed(qs[k]).value)) == Ok(qs[k + 1]))
    decreases n - i
  {
    var qs := Requests(n, start, seed, i, p0);
    if i < n && start(i, p0).Ok? {
      var q := start(i, p0).value;
      if seed(q).Ok? {
        var m := seed(q).value;
        var rest := Requests(n, start, seed, i + 1, Some(m));
        assert qs == [q] + rest;
        RequestsLinked(n, start, seed, i + 1, Some(m));
        forall k | 0 <= k < |qs| - 1
          ensures seed(qs[k]).Ok? && start(i + k + 1, Some(seed(qs[k]).value)) == Ok(qs[k + 1])
        {
          assert qs[k + 1] == rest[k];
          if k > 0 {
            assert qs[k] == rest[k - 1];
          }
        }
      } else {
        assert qs == [q];
      }
    }
  }

  /** The loop gets through all its stages exactly when every stage made its
      request and the last seed could be drawn; it then leaves that seed, or
      `p0` when there were no stages to run. */
  lemma {:induction false} RestOutcome<Q, M>(n: nat, start: (nat, Option<M>) -> Result<Q>, seed: Q -> Result<M>,
                                           i: nat, p0: Option<M>)
    requires i <= n
    ensures var qs := Requests(n, start, seed, i, p0);
            var r := Rest(n, start, seed, i, p0);
            && (r.Ok? <==> i + |qs| == n && (|qs| == 0 || seed(qs[|qs| - 1]).Ok?))
            && (r.Ok? && |qs| == 0 ==> r.value == p0)
            && (r.Ok? && |qs| > 0 ==> r.value == Some(seed(qs[|qs| - 1]).value))
    decreases n - i
  {
    var qs := Requests(n, start, seed, i, p0);
    if i < n && start(i, p0).Ok? {
      var q := start(i, p0).value;
      if seed(q).Ok? {
        var m := seed(q).value;
        var rest := Requests(n, start, seed, i + 1, Some(m));
        assert qs == [q] + rest;
        RestOutcome(n, start, seed, i + 1, Some(m));
        if |rest| > 0 {
          assert qs[|qs| - 1] == rest[|rest| - 1];
        }
      } else {
        assert qs == [q];
      }
    }
  }

  /** A loop that fails reports the error of the stage that failed: the start
      of the stage after the last request, or the seed of the last request. */
  lemma {:induction false} RestFailure<Q, M>(n: nat, start: (nat, Option<M>) -> Result<Q>, seed: Q -> Result<M>,
                                           i: nat, p0: Option<M>)
    requires i <= n
    ensures var qs := Requests(n, start, seed, i, p0);
            var r := Rest(n, start, seed, i, p0);
            r.Err? ==>
              || (|qs| == 0 && start(i, p0) == Err(r.error))
              || (|qs| > 0 && seed(qs[|qs| - 1]) == Err(r.error))
              || (|qs| > 0 && seed(qs[|qs| - 1]).Ok? && start(i + |qs|, Some(seed(qs[|qs| - 1]).value)) == Err(r.error))
    decreases n - i
  {
    var qs := Requests(n, start, seed, i, p0);
    if i < n && start(i, p0).Ok? {
      var q := start(i, p0).value;
      if seed(q).Ok? {
        var m := seed(q).value;
        var rest := Requests(n, start, seed, i + 1, Some(m));
        assert qs == [q] + rest;
        RestFailure(n, start, seed, i + 1, Some(m));
        if |rest| > 0 {
          assert qs[|qs| - 1] == rest[|rest| - 1];
        }
      } else {
        assert qs == [q];
      }
    }
  }

  /** The whole schedule: one request per stage and a final one exactly when the
      final request could be made, which is then the last; the first request is
      made from no `p0`, each stage's from the seed of the run before it, and
      the final one from the seed of the last stage's run (or from no `p0` when
      there are no stages). */
  lemma ScheduleLinked<Q, M>(n: nat, start: (nat, Option<M>) -> Result<Q>, seed: Q -> Result<M>,
                             final: Option<M> -> Result<Q>)
    ensures var qs := AllRequests(n, start, seed, final);
            var f := Final(n, start, seed, final);
            && |qs| <= n + 1
            && (f.Ok? <==> |qs| == n + 1)
            && (f.Ok? ==> qs[n] == f.value)
            && (|qs| > 0 && n == 0 ==> final(None) == Ok(qs[0]))
            && (|qs| > 0 && n > 0 ==> start(0, None) == Ok(qs[0]))
            && (forall k :: 0 <= k < |qs| - 1 ==> seed(qs[k]).Ok?)
            && (forall k :: 0 <= k < |qs| - 1 && k + 1 < n ==>
                  start(k + 1, Some(seed(qs[k]).value)) == Ok(qs[k + 1]))
            && (|qs| == n + 1 && n > 0 ==> final(Some(seed(qs[n - 1]).value)) == Ok(qs[n]))
  {
    var rs := Requests(n, start, seed, 0, None);
    RequestsLinked(n, start, seed, 0, None);
    RestOutcome(n, start, seed, 0, None);
    var qs := AllRequests(n, start, seed, final);
    var f := Final(n, start, seed, final);
    if f.Ok? {
      assert qs == rs + [f.value];
      forall k | 0 <= k < |qs| - 1
        ensures seed(qs[k]).Ok?
        ensures k + 1 < n ==> start(k + 1, Some(seed(qs[k]).value)) == Ok(qs[k + 1])
      {
        assert qs[k] == rs[k];
        if k + 1 < n {
          assert qs[k + 1] == rs[k + 1];
        }
      }
    } else {
      assert qs == rs;
    }
  }

  /** The `p0` from which the stage request number `k` of the schedule was
      made. */
  lemma StageInput<Q, M>(n: nat, start: (nat, Option<M>) -> Result<Q>, seed: Q -> Result<M>,
                         final: Option<M> -> Result<Q>, k: nat) returns (p: Option<M>)
    requires k < n && k < |AllRequests(n, start, seed, final)|
    ensures start(k, p) == Ok(AllRequests(n, start, seed, final)[k])
  {
    ScheduleLinked(n, start, seed, final);
    var qs := AllRequests(n, start, seed, final);
    p := if k == 0 then None else Some(seed(qs[k - 1]).value);
  }

  /** The `p0` from which the final request of a complete schedule was made. */
  lemma FinalInput<Q, M>(n: nat, start: (nat, Option<M>) -> Result<Q>, seed: Q -> Result<M>,
                         final: Option<M> -> Result<Q>) returns (p: Option<M>)
    requires |AllRequests(n, start, seed, final)| == n + 1
    ensures final(p) == Ok(AllRequests(n, start, seed, final)[n])
  {
    ScheduleLinked(n, start, seed, final);
    var qs := AllRequests(n, start, seed, final);
    p := if n == 0 then None else Some(seed(qs[n - 1]).value);
  }

  /** The seed drawn from request number `k` of the schedule, when a request
      follows it: the next stage's request, or the final one, is made from it. */
  lemma SeedInput<Q, M>(n: nat, start: (nat, Option<M>) -> Result<Q>, seed: Q -> Result<M>,
                        final: Option<M> -> Result<Q>, k: nat) returns (m: M)
    requires k + 1 < |AllRequests(n, start, seed, final)|
    ensures var qs := AllRequests(n, start, seed, final);
            && k + 1 <= n
            && seed(qs[k]) == Ok(m)
            && (k + 1 < n ==> start(k + 1, Some(m)) == Ok(qs[k + 1]))
            && (k + 1 == n ==> final(Some(m)) == Ok(qs[k + 1]))
  {
    ScheduleLinked(n, start, seed, final);
    var qs := AllRequests(n, start, seed, final);
    m := seed(qs[k]).value;
  }

  /** When a stage given a seed, and the final request given one, always start,
      a schedule that fails after making a request fails in the seed of the
      last request it made. */
  lemma FinalFailure<Q, M>(n: nat, start: (nat, Option<M>) -> Result<Q>, seed: Q -> Result<M>,
                           final: Option<M> -> Result<Q>)
    requires forall i: nat, q: Q :: i < n && seed(q).Ok? ==> start(i, Some(seed(q).value)).Ok?
    requires forall q: Q :: seed(q).Ok? ==> final(Some(seed(q).value)).Ok?
    ensures var qs := AllRequests(n, start, seed, final);
            var f := Final(n, start, seed, final);
            f.Err? && |qs| > 0 ==> seed(qs[|qs| - 1]) == Err(f.error)
  {
    var qs := AllRequests(n, start, seed, final);
    var f := Final(n, start, seed, final);
    if f.Err? && |qs| > 0 {
      var rs := Requests(n, start, seed, 0, None);
      assert qs == rs;
      RequestsLinked(n, start, seed, 0, None);
      RestOutcome(n, start, seed, 0, None);
      RestFailure(n, start, seed, 0, None);
      var last := rs[|rs| - 1];
      if seed(last).Ok? {
        SeededStarts(n, start, seed, final, last, |rs|);
      }
    }
  }

  /** The assumptions of `FinalFailure` at the request `q` and stage `j`. */
  lemma SeededStarts<Q, M>(n: nat, start: (nat, Option<M>) -> Result<Q>, seed: Q -> Result<M>,
                           final: Option<M> -> Result<Q>, q: Q, j: nat)
    requires forall i: nat, q: Q :: i < n && seed(q).Ok? ==> start(i, Some(seed(q).value)).Ok?
    requires forall q: Q :: seed(q).Ok? ==> final(Some(seed(q).value)).Ok?
    requires seed(q).Ok?
    ensures final(Some(seed(q).value)).Ok?
    ensures j < n ==> start(j, Some(seed(q).value)).Ok?
  {
  }

  /** With no stages the schedule is the final request alone, made from no
      `p0`. */
  lemma NoStages<Q, M>(start: (nat, Option<M>) -> Result<Q>, seed: Q -> Result<M>,
                       final: Option<M> -> Result<Q>)
    ensures Final(0, start, seed, final) == final(None)
    ensures AllRequests(0, start, seed, final) == if final(None).Ok? then [final(None).value] else []
  {
  }
}
