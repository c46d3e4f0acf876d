/**
 * What a whole run of the claim loop does, read off its specification:
 * attempts follow the candidate order pass after pass and are numbered
 * 1, 2, 3, ...; no failure ends the run; each failure costs one sleep and
 * each completed pass one more; the first success writes the record once and
 * is the last attempt.
 */
module Runs {
  import opened Options
  import opened Launch
  import opened Scheduler

  /** The candidates of `q` passes, one pass after the other. */
  function Repeat(cands: seq<Candidate>, q: nat): seq<Candidate> {
    if q == 0 then [] else Repeat(cands, q - 1) + cands
  }

  /** `q` passes hold `q` times as many candidates as one. */
  lemma {:induction false} RepeatLength(cands: seq<Candidate>, q: nat)
    ensures |Repeat(cands, q)| == q * |cands|
  {
    if q > 0 {
      RepeatLength(cands, q - 1);
    }
  }

  /** Pass `q` (counting from 1) follows the first `q - 1`: the same candidates up to there, then `cands` again. */
  lemma RepeatStep(cands: seq<Candidate>, q: nat)
    requires q > 0
    ensures Repeat(cands, q) == Repeat(cands, q - 1) + cands
    ensures forall k :: 0 <= k < |Repeat(cands, q - 1)| ==> Repeat(cands, q)[k] == Repeat(cands, q - 1)[k]
    ensures forall a :: 0 <= a <= |Repeat(cands, q - 1)| ==> Repeat(cands, q)[..a] == Repeat(cands, q - 1)[..a]
  {
  }

  // ---------------------------------------------------------------------
  // One pass
  // ---------------------------------------------------------------------

  /** A pass tries a prefix of the candidates; it tries them all unless it succeeds, and a success is at least one attempt. */
  lemma {:induction false} PassLength(ctx: Context, cands: seq<Candidate>, p0: Progress)
    requires p0.claim.None?
    ensures var p := PassSpec(ctx, cands, p0);
      && p0.attempts <= p.attempts <= p0.attempts + |cands|
      && (p.claim.None? ==> p.attempts == p0.attempts + |cands|)
      && (p.claim.Some? ==> p0.attempts < p.attempts)
  {
    if cands != [] {
      PassLength(ctx, cands[..|cands| - 1], p0);
    }
  }

  /** The attempts of a pass are its candidates in order, numbered on from `p0`'s counter. */
  lemma {:induction false} PassTrace(ctx: Context, cands: seq<Candidate>, p0: Progress)
    requires p0.claim.None?
    ensures var p := PassSpec(ctx, cands, p0);
      p0.attempts <= p.attempts <= p0.attempts + |cands|
      && Attempts(p.events) == Attempts(p0.events) + Enumerate(cands[..p.attempts - p0.attempts], p0.attempts)
  {
    PassLength(ctx, cands, p0);
    if cands == [] {
      assert cands[..0] == [];
    } else {
      var xs := cands[..|cands| - 1];
      PassTrace(ctx, xs, p0);
      PassLength(ctx, xs, p0);
      var q := PassSpec(ctx, xs, p0);
      assert PassSpec(ctx, cands, p0) == if q.claim.Some? then q else Step(ctx, q, cands[|cands| - 1]);
      PassTraceLast(ctx, cands, p0, q, PassSpec(ctx, cands, p0));
    }
  }

  /** The inductive step of `PassTrace`: from the attempts of `cands` less its last (`q`) to those after one more step (`p`). */
  lemma PassTraceLast(ctx: Context, cands: seq<Candidate>, p0: Progress, q: Progress, p: Progress)
    requires cands != []
    requires p == if q.claim.Some? then q else Step(ctx, q, cands[|cands| - 1])
    requires p0.attempts <= q.attempts <= p0.attempts + |cands| - 1
    requires q.claim.None? ==> q.attempts == p0.attempts + |cands| - 1
    requires Attempts(q.events) == Attempts(p0.events) + Enumerate(cands[..|cands| - 1][..q.attempts - p0.attempts], p0.attempts)
    requires p0.attempts <= p.attempts <= p0.attempts + |cands|
    ensures Attempts(p.events) == Attempts(p0.events) + Enumerate(cands[..p.attempts - p0.attempts], p0.attempts)
  {
    StepTrace(ctx, q, cands[|cands| - 1]);
    TraceLast(Attempts(p0.events), Attempts(q.events), Attempts(p.events), cands, p0.attempts, q.attempts, p.attempts,
              q.claim.Some?);
  }

  /** A step numbers one more attempt, with the next number. */
  lemma StepTrace(ctx: Context, q: Progress, c: Candidate)
    ensures Step(ctx, q, c).attempts == q.attempts + 1
    ensures Attempts(Step(ctx, q, c).events) == Attempts(q.events) + [(q.attempts + 1, c)]
  {
    StepCounts(ctx, q, c);
  }

  /**
   * The numbered attempts after the last candidate of `cands`: the same as
   * before it when the pass had already claimed, one more pair otherwise.
   */
  lemma TraceLast(prior: seq<(nat, Candidate)>, aq: seq<(nat, Candidate)>, ap: seq<(nat, Candidate)>,
                  cands: seq<Candidate>, a0: nat, nq: nat, np: nat, claimed: bool)
    requires cands != [] && a0 <= nq <= a0 + |cands| - 1
    requires aq == prior + Enumerate(cands[..|cands| - 1][..nq - a0], a0)
    requires claimed ==> ap == aq && np == nq
    requires !claimed ==> nq == a0 + |cands| - 1 && np == nq + 1 && ap == aq + [(np, cands[|cands| - 1])]
    ensures ap == prior + Enumerate(cands[..np - a0], a0)
  {
    var xs := cands[..|cands| - 1];
    var c := cands[|cands| - 1];
    if claimed {
      assert xs[..nq - a0] == cands[..np - a0];
    } else {
      assert xs[..nq - a0] == xs;
      assert cands[..np - a0] == cands == xs + [c];
      TraceSnoc(prior, xs, c, a0);
    }
  }

  /** Numbering one more candidate after a numbered prefix extends the numbering by that candidate. */
  lemma TraceSnoc(prior: seq<(nat, Candidate)>, xs: seq<Candidate>, c: Candidate, start: nat)
    ensures prior + Enumerate(xs, start) + [(start + |xs| + 1, c)] == prior + Enumerate(xs + [c], start)
  {
    EnumerateSnoc(xs, c, start);
  }



  /**
   * Every attempt of a pass but the last failed, and so did the last one
   * when the pass ended without a claim.
   */
  lemma {:induction false} PassFailures(ctx: Context, cands: seq<Candidate>, p0: Progress)
    requires p0.claim.None?
    ensures var p := PassSpec(ctx, cands, p0);
      forall k :: 0 <= k < |cands| && (k < p.attempts - p0.attempts - 1 || p.claim.None?)
        ==> !Succeeds(ctx, p0.attempts + k + 1, cands[k])
  {
    if cands != [] {
      var xs := cands[..|cands| - 1];
      PassFailures(ctx, xs, p0);
      PassLength(ctx, xs, p0);
      PassLength(ctx, cands, p0);
      assert forall k :: 0 <= k < |xs| ==> cands[k] == xs[k];
      var q := PassSpec(ctx, xs, p0);
      if q.claim.None? {
        StepCounts(ctx, q, cands[|cands| - 1]);
      }
    }
  }

  /**
   * A pass that ends with a claim ended on a successful attempt: the claim
   * is that attempt's result, and the record holding it is the last event.
   */
  lemma {:induction false} PassClaim(ctx: Context, cands: seq<Candidate>, p0: Progress)
    requires p0.claim.None?
    ensures var p := PassSpec(ctx, cands, p0);
      p.claim.Some? ==>
        && p0.attempts < p.attempts <= p0.attempts + |cands|
        && Succeeds(ctx, p.attempts, cands[p.attempts - p0.attempts - 1])
        && p.claim.value == Claim(Outcome(ctx, p.attempts, cands[p.attempts - p0.attempts - 1]).instanceId,
                                  Outcome(ctx, p.attempts, cands[p.attempts - p0.attempts - 1]).publicIp)
        && p.events != [] && p.events[|p.events| - 1] == WriteSuccess(SuccessRecord(p.claim.value))
  {
    PassLength(ctx, cands, p0);
    if cands != [] {
      var xs := cands[..|cands| - 1];
      PassClaim(ctx, xs, p0);
      PassLength(ctx, xs, p0);
      assert forall k :: 0 <= k < |xs| ==> cands[k] == xs[k];
      var q := PassSpec(ctx, xs, p0);
      if q.claim.None? {
        StepCounts(ctx, q, cands[|cands| - 1]);
      }
    }
  }

  /** A pass writes the record once if it succeeds and never otherwise, and sleeps once per failed attempt. */
  lemma {:induction false} PassCounts(ctx: Context, cands: seq<Candidate>, p0: Progress)
    requires p0.claim.None?
    ensures var p := PassSpec(ctx, cands, p0);
      && p0.attempts <= p.attempts
      && Writes(p.events) == Writes(p0.events) + (if p.claim.Some? then 1 else 0)
      && Sleeps(p.events) == Sleeps(p0.events) + (p.attempts - p0.attempts) - (if p.claim.Some? then 1 else 0)
  {
    PassLength(ctx, cands, p0);
    if cands != [] {
      var xs := cands[..|cands| - 1];
      var q := PassSpec(ctx, xs, p0);
      PassCounts(ctx, xs, p0);
      if q.claim.None? {
        StepCounts(ctx, q, cands[|cands| - 1]);
      }
    }
  }

  // ---------------------------------------------------------------------
  // A whole run
  // ---------------------------------------------------------------------

  /** A run makes at most one attempt per candidate of each pass, and exactly that many without a claim. */
  lemma {:induction false} RunLength(ctx: Context, cands: seq<Candidate>, passes: nat)
    ensures var r := RunSpec(ctx, cands, passes);
      && r.attempts <= |Repeat(cands, passes)|
      && (r.claim.None? ==> r.attempts == |Repeat(cands, passes)|)
  {
    if passes > 0 {
      RunLength(ctx, cands, passes - 1);
      var r' := RunSpec(ctx, cands, passes - 1);
      if r'.claim.None? {
        PassLength(ctx, cands, r');
      }
    }
  }

  /**
   * A pass of the run after unsuccessful ones: the run ends where the pass
   * does, with the pass's attempts, claim and record, plus one sleep when the
   * pass did not succeed.
   */
  lemma RunStepCounts(ctx: Context, cands: seq<Candidate>, passes: nat)
    requires passes > 0 && RunSpec(ctx, cands, passes - 1).claim.None?
    ensures var r := RunSpec(ctx, cands, passes);
      var p := PassSpec(ctx, cands, RunSpec(ctx, cands, passes - 1));
      && r.attempts == p.attempts
      && r.claim == p.claim
      && Attempts(r.events) == Attempts(p.events)
      && Writes(r.events) == Writes(p.events)
      && Sleeps(r.events) == Sleeps(p.events) + (if p.claim.None? then 1 else 0)
  {
    var p := PassSpec(ctx, cands, RunSpec(ctx, cands, passes - 1));
    if p.claim.None? {
      CountsAppend(p.events, [Sleep(ctx.sleepSeconds)]);
      CountsOne(Sleep(ctx.sleepSeconds));
    }
  }

  /** The pass after `passes - 1` unsuccessful ones continues the trace with its own attempts. */
  lemma RunTraceStep(ctx: Context, cands: seq<Candidate>, passes: nat)
    requires passes > 0
    requires var r := RunSpec(ctx, cands, passes - 1);
      && r.claim.None?
      && r.attempts == |Repeat(cands, passes - 1)|
      && Attempts(r.events) == Enumerate(Repeat(cands, passes - 1), 0)
    ensures var r := RunSpec(ctx, cands, passes);
      && r.attempts <= |Repeat(cands, passes)|
      && (r.claim.None? ==> r.attempts == |Repeat(cands, passes)|)
      && Attempts(r.events) == Enumerate(Repeat(cands, passes)[..r.attempts], 0)
  {
    var front := Repeat(cands, passes - 1);
    RunLength(ctx, cands, passes);
    RunStepCounts(ctx, cands, passes);
    PassAfterTrace(ctx, cands, RunSpec(ctx, cands, passes - 1), front);
    assert Repeat(cands, passes) == front + cands;
  }

  /** A pass that starts after the numbered attempts of `front` continues that numbering with its own candidates. */
  lemma PassAfterTrace(ctx: Context, cands: seq<Candidate>, r0: Progress, front: seq<Candidate>)
    requires r0.claim.None? && r0.attempts == |front| && Attempts(r0.events) == Enumerate(front, 0)
    ensures var p := PassSpec(ctx, cands, r0);
      && p.attempts <= |front + cands|
      && Attempts(p.events) == Enumerate((front + cands)[..p.attempts], 0)
  {
    var p := PassSpec(ctx, cands, r0);
    PassTrace(ctx, cands, r0);
    NextPassTrace(front, cands, Attempts(r0.events), Attempts(p.events), r0.attempts, p.attempts);
  }

  /**
   * The numbered candidates of the earlier passes, followed by the first
   * candidates of the next pass numbered on from there, are the numbered
   * prefix of the whole schedule.
   */
  lemma NextPassTrace(front: seq<Candidate>, cands: seq<Candidate>, prior: seq<(nat, Candidate)>,
                      total: seq<(nat, Candidate)>, a0: nat, a1: nat)
    requires prior == Enumerate(front, 0) && a0 == |front| && a0 <= a1 <= a0 + |cands|
    requires total == prior + Enumerate(cands[..a1 - a0], a0)
    ensures total == Enumerate((front + cands)[..a1], 0)
  {
    var m := a1 - a0;
    assert (front + cands)[..a1] == front + cands[..m];
    EnumerateAppend(front, cands[..m], 0);
  }

  /**
   * A run tries the first `attempts` candidates of its passes, in order and
   * numbered from 1; without a claim, all of them.
   */
  lemma {:induction false} RunTrace(ctx: Context, cands: seq<Candidate>, passes: nat)
    ensures var r := RunSpec(ctx, cands, passes);
      && r.attempts <= |Repeat(cands, passes)|
      && (r.claim.None? ==> r.attempts == |Repeat(cands, passes)|)
      && Attempts(r.events) == Enumerate(Repeat(cands, passes)[..r.attempts], 0)
  {
    if passes > 0 {
      var r' := RunSpec(ctx, cands, passes - 1);
      RunTrace(ctx, cands, passes - 1);
      RepeatStep(cands, passes);
      if r'.claim.None? {
        assert Repeat(cands, passes - 1)[..r'.attempts] == Repeat(cands, passes - 1);
        RunTraceStep(ctx, cands, passes);
      }
    }
  }

  /** Every attempt of a run but the last failed, and without a claim the last one failed too. */
  lemma {:induction false} RunFailures(ctx: Context, cands: seq<Candidate>, passes: nat)
    ensures var r := RunSpec(ctx, cands, passes);
      var sched := Repeat(cands, passes);
      forall k :: 0 <= k < |sched| && k < r.attempts && (k < r.attempts - 1 || r.claim.None?)
        ==> !Succeeds(ctx, k + 1, sched[k])
  {
    if passes > 0 {
      var r' := RunSpec(ctx, cands, passes - 1);
      var front := Repeat(cands, passes - 1);
      RunFailures(ctx, cands, passes - 1);
      RunLength(ctx, cands, passes - 1);
      assert Repeat(cands, passes) == front + cands;
      RunFailuresLast(ctx, cands, front, r', RunSpec(ctx, cands, passes));
    }
  }

  /** The inductive step of `RunFailures`: from the run `r'` over `front` to the run `r` one pass longer. */
  lemma RunFailuresLast(ctx: Context, cands: seq<Candidate>, front: seq<Candidate>, r': Progress, r: Progress)
    requires r == if r'.claim.Some? then r'
                  else var p := PassSpec(ctx, cands, r');
                    if p.claim.Some? then p else Progress(p.events + [Sleep(ctx.sleepSeconds)], p.attempts, None)
    requires r'.attempts <= |front| && (r'.claim.None? ==> r'.attempts == |front|)
    requires forall k :: 0 <= k < |front| && k < r'.attempts && (k < r'.attempts - 1 || r'.claim.None?)
                         ==> !Succeeds(ctx, k + 1, front[k])
    ensures forall k :: 0 <= k < |front + cands| && k < r.attempts && (k < r.attempts - 1 || r.claim.None?)
                        ==> !Succeeds(ctx, k + 1, (front + cands)[k])
  {
    if r'.claim.None? {
      PassFailures(ctx, cands, r');
      PassLength(ctx, cands, r');
    }
    forall k | 0 <= k < |front + cands| && k < r.attempts && (k < r.attempts - 1 || r.claim.None?)
      ensures !Succeeds(ctx, k + 1, (front + cands)[k])
    {
      if k < |front| {
        assert (front + cands)[k] == front[k];
      } else {
        assert (front + cands)[k] == cands[k - |front|];
      }
    }
  }

  /**
   * A run that ends with a claim ended on a successful attempt: the claim is
   * that attempt's result, and the record holding it is the last event.
   */
  lemma {:induction false} RunClaim(ctx: Context, cands: seq<Candidate>, passes: nat)
    ensures var r := RunSpec(ctx, cands, passes);
      r.claim.Some? ==>
        && 0 < r.attempts <= |Repeat(cands, passes)|
        && Succeeds(ctx, r.attempts, Repeat(cands, passes)[r.attempts - 1])
        && r.claim.value == Claim(Outcome(ctx, r.attempts, Repeat(cands, passes)[r.attempts - 1]).instanceId,
                                  Outcome(ctx, r.attempts, Repeat(cands, passes)[r.attempts - 1]).publicIp)
        && r.events != [] && r.events[|r.events| - 1] == WriteSuccess(SuccessRecord(r.claim.value))
  {
    if passes > 0 {
      var r' := RunSpec(ctx, cands, passes - 1);
      var front := Repeat(cands, passes - 1);
      RunClaim(ctx, cands, passes - 1);
      RunLength(ctx, cands, passes - 1);
      assert Repeat(cands, passes) == front + cands;
      RunClaimLast(ctx, cands, front, r', RunSpec(ctx, cands, passes));
    }
  }

  /** The inductive step of `RunClaim`: from the run `r'` over `front` to the run `r` one pass longer. */
  lemma RunClaimLast(ctx: Context, cands: seq<Candidate>, front: seq<Candidate>, r': Progress, r: Progress)
    requires r == if r'.claim.Some? then r'
                  else var p := PassSpec(ctx, cands, r');
                    if p.claim.Some? then p else Progress(p.events + [Sleep(ctx.sleepSeconds)], p.attempts, None)
    requires r'.attempts <= |front| && (r'.claim.None? ==> r'.attempts == |front|)
    requires r'.claim.Some? ==>
        && 0 < r'.attempts <= |front|
        && Succeeds(ctx, r'.attempts, front[r'.attempts - 1])
        && r'.claim.value == Claim(Outcome(ctx, r'.attempts, front[r'.attempts - 1]).instanceId,
                                   Outcome(ctx, r'.attempts, front[r'.attempts - 1]).publicIp)
        && r'.events != [] && r'.events[|r'.events| - 1] == WriteSuccess(SuccessRecord(r'.claim.value))
    ensures r.claim.Some? ==>
        && 0 < r.attempts <= |front + cands|
        && Succeeds(ctx, r.attempts, (front + cands)[r.attempts - 1])
        && r.claim.value == Claim(Outcome(ctx, r.attempts, (front + cands)[r.attempts - 1]).instanceId,
                                  Outcome(ctx, r.attempts, (front + cands)[r.attempts - 1]).publicIp)
        && r.events != [] && r.events[|r.events| - 1] == WriteSuccess(SuccessRecord(r.claim.value))
  {
    if r'.claim.Some? {
      assert (front + cands)[r'.attempts - 1] == front[r'.attempts - 1];
    } else {
      PassClaimAfter(ctx, cands, r', front);
    }
  }

  /** A pass that starts after the attempts of `front` and claims, claims with the result of its last attempt, in the numbering of `front + cands`. */
  lemma PassClaimAfter(ctx: Context, cands: seq<Candidate>, r0: Progress, front: seq<Candidate>)
    requires r0.claim.None? && r0.attempts == |front|
    ensures var p := PassSpec(ctx, cands, r0);
      p.claim.Some? ==>
        && 0 < p.attempts <= |front + cands|
        && Succeeds(ctx, p.attempts, (front + cands)[p.attempts - 1])
        && p.claim.value == Claim(Outcome(ctx, p.attempts, (front + cands)[p.attempts - 1]).instanceId,
                                  Outcome(ctx, p.attempts, (front + cands)[p.attempts - 1]).publicIp)
        && p.events != [] && p.events[|p.events| - 1] == WriteSuccess(SuccessRecord(p.claim.value))
  {
    var p := PassSpec(ctx, cands, r0);
    PassClaim(ctx, cands, r0);
    if p.claim.Some? {
      assert (front + cands)[p.attempts - 1] == cands[p.attempts - r0.attempts - 1];
    }
  }

  /** A run writes the record once if it claims and never otherwise. */
  lemma {:induction false} RunWrites(ctx: Context, cands: seq<Candidate>, passes: nat)
    ensures var r := RunSpec(ctx, cands, passes);
      Writes(r.events) == if r.claim.Some? then 1 else 0
  {
    if passes > 0 {
      var r' := RunSpec(ctx, cands, passes - 1);
      RunWrites(ctx, cands, passes - 1);
      if r'.claim.None? {
        PassCounts(ctx, cands, r');
        RunStepCounts(ctx, cands, passes);
      }
    }
  }

  /** A run without a claim sleeps once after every attempt and once after every pass. */
  lemma {:induction false} RunSleeps(ctx: Context, cands: seq<Candidate>, passes: nat)
    ensures var r := RunSpec(ctx, cands, passes);
      r.claim.None? ==> Sleeps(r.events) == r.attempts + passes
  {
    if passes > 0 {
      var r' := RunSpec(ctx, cands, passes - 1);
      RunSleeps(ctx, cands, passes - 1);
      if r'.claim.None? {
        PassCounts(ctx, cands, r');
        RunStepCounts(ctx, cands, passes);
      }
    }
  }

  /**
   * A run that claims in pass `q + 1` ends inside that pass and has slept
   * once after each attempt but the last and once after each of the `q`
   * passes before it, however many passes it was allowed.
   */
  lemma RunSleepsClaimed(ctx: Context, cands: seq<Candidate>, passes: nat, q: nat)
    requires q < passes
    requires RunSpec(ctx, cands, q).claim.None? && RunSpec(ctx, cands, q + 1).claim.Some?
    ensures var r := RunSpec(ctx, cands, passes);
      && r.claim.Some?
      && |Repeat(cands, q)| < r.attempts <= |Repeat(cands, q)| + |cands|
      && Sleeps(r.events) + 1 == r.attempts + q
  {
    var r' := RunSpec(ctx, cands, q);
    RunSleeps(ctx, cands, q);
    RunLength(ctx, cands, q);
    PassCounts(ctx, cands, r');
    PassLength(ctx, cands, r');
    RunStepCounts(ctx, cands, q + 1);
    RunClaimSticks(ctx, cands, q + 1, passes);
  }

  /** A run records one `Trying` notice per attempt. */
  lemma RunAttemptCount(ctx: Context, cands: seq<Candidate>, passes: nat)
    ensures var r := RunSpec(ctx, cands, passes);
      |Attempts(r.events)| == r.attempts
  {
    RunTrace(ctx, cands, passes);
  }

  /**
   * A run that claims made its last attempt, numbered `attempts`, with
   * `try_launch` returning the claim, and wrote the record once, last.
   */
  lemma RunClaimRecord(ctx: Context, cands: seq<Candidate>, passes: nat)
    ensures var r := RunSpec(ctx, cands, passes);
      var n := |Attempts(r.events)|;
      r.claim.Some? ==>
        && 0 < n <= |Repeat(cands, passes)|
        && Outcome(ctx, n, Repeat(cands, passes)[n - 1]) == Launched(r.claim.value.instanceId, r.claim.value.publicIp)
        && Writes(r.events) == 1
        && r.events[|r.events| - 1] == WriteSuccess(SuccessRecord(r.claim.value))
  {
    RunAttemptCount(ctx, cands, passes);
    RunClaim(ctx, cands, passes);
    RunWrites(ctx, cands, passes);
  }

  /**
   * The first successful attempt within the passes ends the run: its result
   * is the claim and no later candidate is tried.
   */
  lemma FirstSuccessEndsRun(ctx: Context, cands: seq<Candidate>, passes: nat, n: nat)
    requires 0 < n <= |Repeat(cands, passes)|
    requires Succeeds(ctx, n, Repeat(cands, passes)[n - 1])
    requires forall k :: 0 <= k < n - 1 ==> !Succeeds(ctx, k + 1, Repeat(cands, passes)[k])
    ensures var r := RunSpec(ctx, cands, passes);
      && r.attempts == n
      && r.claim == Some(Claim(Outcome(ctx, n, Repeat(cands, passes)[n - 1]).instanceId,
                               Outcome(ctx, n, Repeat(cands, passes)[n - 1]).publicIp))
  {
    var r := RunSpec(ctx, cands, passes);
    RunLength(ctx, cands, passes);
    RunFailures(ctx, cands, passes);
    RunClaim(ctx, cands, passes);
    assert r.claim.Some? && r.attempts >= n;
  }

  /**
   * If no attempt of the `passes * |cands|` succeeds, the run tries them all,
   * sleeps once after each and once after each pass, and claims and writes
   * nothing.
   */
  lemma FailuresNeverEndRun(ctx: Context, cands: seq<Candidate>, passes: nat)
    requires forall k :: 0 <= k < |Repeat(cands, passes)| ==> !Succeeds(ctx, k + 1, Repeat(cands, passes)[k])
    ensures var r := RunSpec(ctx, cands, passes);
      && r.claim.None?
      && r.attempts == passes * |cands|
      && Sleeps(r.events) == passes * |cands| + passes
      && Writes(r.events) == 0
  {
    RepeatLength(cands, passes);
    RunLength(ctx, cands, passes);
    RunClaim(ctx, cands, passes);
    RunWrites(ctx, cands, passes);
    RunSleeps(ctx, cands, passes);
  }
}
