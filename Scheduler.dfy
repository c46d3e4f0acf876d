/**
 * The claim loop: candidates (domain x OCPU count) are tried in a fixed
 * order, pass after pass, until one launch succeeds. Every failed attempt is
 * followed by one sleep, every full pass by one more, and a success writes
 * the two-line success record and ends the loop.
 *
 * Sleeps, notifications and the record file are recorded as `Event`s;
 * `try_launch` is the `outcome` of the run's `Context`, which `ContextOf`
 * builds from the provider's behaviour (a `launch` oracle); the loop, which
 * never ends on its own, is followed for a given number of passes.
 */
module Scheduler {
  import opened Options
  import opened Text
  import opened Launch

  // ---------------------------------------------------------------------
  // Candidates
  // ---------------------------------------------------------------------

  /** One placement to try: a domain, an OCPU count and the memory that goes with it. */
  datatype Candidate = Candidate(ad: string, ocpus: nat, memGb: int)

  /** The candidates of one domain, in OCPU order. */
  function Row(ad: string, ocpus: seq<nat>, memPerOcpu: int): (r: seq<Candidate>)
    ensures |r| == |ocpus|
    ensures forall j :: 0 <= j < |ocpus| ==> r[j] == Candidate(ad, ocpus[j], ocpus[j] * memPerOcpu)
  {
    seq(|ocpus|, j requires 0 <= j < |ocpus| => Candidate(ad, ocpus[j], ocpus[j] * memPerOcpu))
  }

  /** The nested `for ad ... for ocpu ...` order: all sizes of the first domain, then of the next. */
  function Candidates(ads: seq<string>, ocpus: seq<nat>, memPerOcpu: int): (r: seq<Candidate>)
    ensures |r| == |ads| * |ocpus|
  {
    if ads == [] then []
    else Candidates(ads[..|ads| - 1], ocpus, memPerOcpu) + Row(ads[|ads| - 1], ocpus, memPerOcpu)
  }

  /** Domain-major, OCPU-minor: candidate `i * |ocpus| + j` is domain `i` with OCPU count `j` and its memory. */
  lemma {:induction false} CandidatesAt(ads: seq<string>, ocpus: seq<nat>, memPerOcpu: int, i: nat, j: nat)
    requires i < |ads| && j < |ocpus|
    ensures i * |ocpus| + j < |Candidates(ads, ocpus, memPerOcpu)|
    ensures Candidates(ads, ocpus, memPerOcpu)[i * |ocpus| + j] == Candidate(ads[i], ocpus[j], ocpus[j] * memPerOcpu)
  {
    var front := ads[..|ads| - 1];
    var cs := Candidates(ads, ocpus, memPerOcpu);
    var prev := Candidates(front, ocpus, memPerOcpu);
    var k := i * |ocpus| + j;
    IndexInBlock(i, j, |ocpus|, |ads|);
    if i < |front| {
      CandidatesAt(front, ocpus, memPerOcpu, i, j);
      IndexInBlock(i, j, |ocpus|, |front|);
      assert cs[k] == prev[k];
    } else {
      assert i * |ocpus| == |prev|;
      assert cs[k] == Row(ads[i], ocpus, memPerOcpu)[j];
    }
  }

  /** Position `j` of block `i`, in blocks of `n`, lies before the end of `m` blocks. */
  lemma {:induction false} IndexInBlock(i: nat, j: nat, n: nat, m: nat)
    requires i < m && j < n
    ensures i * n + j < m * n
  {
    assert m * n == (m - 1) * n + n;
    if i + 1 < m {
      IndexInBlock(i, j, n, m - 1);
    }
  }

  /** The candidates of the first `i` domains are where the whole sequence starts. */
  lemma {:induction false} CandidatesPrefix(ads: seq<string>, ocpus: seq<nat>, memPerOcpu: int, i: nat)
    requires i <= |ads|
    ensures Candidates(ads[..i], ocpus, memPerOcpu) <= Candidates(ads, ocpus, memPerOcpu)
  {
    if i < |ads| {
      var front := ads[..|ads| - 1];
      CandidatesPrefix(front, ocpus, memPerOcpu, i);
      assert front[..i] == ads[..i];
    } else {
      assert ads[..i] == ads;
    }
  }

  // ---------------------------------------------------------------------
  // What the loop records
  // ---------------------------------------------------------------------

  /** The status lines the script sends, by content. */
  datatype Notice =
    | Started(region: string)
    | NoImageFound
    | Trying(attempt: nat, cand: Candidate)
    | Claimed(instanceId: string, publicIp: string)
    | CapacityShort(cand: Candidate, seconds: nat)
    | OtherError(message: string, seconds: nat)
    | Crashed(text: string, seconds: nat)

  /** One observable step of a run. */
  datatype Event =
    | Notify(notice: Notice)
    | Sleep(seconds: nat)
    | WriteSuccess(content: string)

  /** A successful claim: the instance and its public address. */
  datatype Claim = Claim(instanceId: string, publicIp: string)

  /** Contents of the success record: the instance id and the address, one per line. */
  function SuccessRecord(c: Claim): string {
    c.instanceId + "\n" + c.publicIp + "\n"
  }

  /** The record has exactly two lines, the id and then the address (when neither holds a line break). */
  lemma SuccessRecordLines(c: Claim)
    requires '\n' !in c.instanceId && '\n' !in c.publicIp
    ensures Split(SuccessRecord(c), '\n') == [c.instanceId, c.publicIp, ""]
  {
    assert SuccessRecord(c) == c.instanceId + ['\n'] + (c.publicIp + ['\n'] + "");
    SplitAtSeparator(c.instanceId, '\n', c.publicIp + ['\n'] + "");
    SplitAtSeparator(c.publicIp, '\n', "");
  }

  /** The (attempt number, candidate) pairs of the `Trying` notices, in order. */
  function Attempts(e: seq<Event>): seq<(nat, Candidate)> {
    if e == [] then []
    else
      var last := e[|e| - 1];
      Attempts(e[..|e| - 1])
        + (if last.Notify? && last.notice.Trying? then [(last.notice.attempt, last.notice.cand)] else [])
  }

  /** The number of sleeps. */
  function Sleeps(e: seq<Event>): nat {
    if e == [] then 0 else Sleeps(e[..|e| - 1]) + (if e[|e| - 1].Sleep? then 1 else 0)
  }

  /** The number of times the success record is written. */
  function Writes(e: seq<Event>): nat {
    if e == [] then 0 else Writes(e[..|e| - 1]) + (if e[|e| - 1].WriteSuccess? then 1 else 0)
  }

  /** The three counts distribute over concatenation. */
  lemma {:induction false} CountsAppend(a: seq<Event>, b: seq<Event>)
    ensures Attempts(a + b) == Attempts(a) + Attempts(b)
    ensures Sleeps(a + b) == Sleeps(a) + Sleeps(b)
    ensures Writes(a + b) == Writes(a) + Writes(b)
  {
    if b == [] {
      assert a + b == a;
    } else {
      var b' := b[..|b| - 1];
      CountsAppend(a, b');
      assert (a + b)[..|a + b| - 1] == a + b';
    }
  }

  /** Numbers the candidates `start + 1`, `start + 2`, ... */
  function Enumerate(cs: seq<Candidate>, start: nat): (r: seq<(nat, Candidate)>)
    ensures |r| == |cs|
    ensures forall k :: 0 <= k < |cs| ==> r[k] == (start + k + 1, cs[k])
  {
    seq(|cs|, k requires 0 <= k < |cs| => (start + k + 1, cs[k]))
  }

  lemma EnumerateSnoc(xs: seq<Candidate>, c: Candidate, start: nat)
    ensures Enumerate(xs + [c], start) == Enumerate(xs, start) + [(start + |xs| + 1, c)]
  {
    assert forall k :: 0 <= k <= |xs| ==>
      Enumerate(xs + [c], start)[k] == (Enumerate(xs, start) + [(start + |xs| + 1, c)])[k];
  }

  lemma EnumerateAppend(xs: seq<Candidate>, ys: seq<Candidate>, start: nat)
    ensures Enumerate(xs + ys, start) == Enumerate(xs, start) + Enumerate(ys, start + |xs|)
  {
    assert forall k :: 0 <= k < |xs| + |ys| ==>
      Enumerate(xs + ys, start)[k] == (Enumerate(xs, start) + Enumerate(ys, start + |xs|))[k];
  }

  // ---------------------------------------------------------------------
  // One attempt
  // ---------------------------------------------------------------------

  /** The run's fixed parameters: the sleep length and what `try_launch` gives for attempt `n` with candidate `c`. */
  datatype Context = Context(sleepSeconds: nat, outcome: (nat, Candidate) -> AttemptResult)

  /**
   * The context of a run with this name prefix and sleep length whose
   * provider's calls for attempt `n` with candidate `c` end as `launch(n, c)`.
   */
  function ContextOf(prefix: string, sleepSeconds: nat, launch: (nat, Candidate) -> LaunchOutcome): Context {
    Context(sleepSeconds, (n: nat, c: Candidate) => TryLaunch(prefix, c.ad, c.ocpus, c.memGb, launch(n, c)))
  }

  /** The result of `try_launch` on attempt `n` with candidate `c`. */
  function Outcome(ctx: Context, n: nat, c: Candidate): AttemptResult {
    ctx.outcome(n, c)
  }

  predicate Succeeds(ctx: Context, n: nat, c: Candidate) {
    Outcome(ctx, n, c).Launched?
  }

  /**
   * What attempt `n` with candidate `c` records: the attempt notice; then on
   * success the success notice and the record; on a capacity shortage, any
   * other `RuntimeError` or any other exception, its notice and one sleep.
   */
  function AttemptEvents(ctx: Context, n: nat, c: Candidate): seq<Event> {
    var s := ctx.sleepSeconds;
    [Notify(Trying(n, c))] +
      match Outcome(ctx, n, c)
      case Launched(inst, ip) => [Notify(Claimed(inst, ip)), WriteSuccess(SuccessRecord(Claim(inst, ip)))]
      case RuntimeFailure(msg) =>
        [if msg == CapacityVerdict then Notify(CapacityShort(c, s)) else Notify(OtherError(msg, s)), Sleep(s)]
      case Unexpected(_, text) => [Notify(Crashed(text, s)), Sleep(s)]
  }

  /**
   * Each attempt announces itself once; a success writes the record once,
   * as its last event, and does not sleep; any failure sleeps exactly once,
   * as its last event, and writes nothing.
   */
  lemma AttemptCounts(ctx: Context, n: nat, c: Candidate)
    ensures var e := AttemptEvents(ctx, n, c);
      && Attempts(e) == [(n, c)]
      && (Succeeds(ctx, n, c) ==>
            && Sleeps(e) == 0 && Writes(e) == 1
            && e[|e| - 1] == WriteSuccess(SuccessRecord(Claim(Outcome(ctx, n, c).instanceId, Outcome(ctx, n, c).publicIp))))
      && (!Succeeds(ctx, n, c) ==>
            Sleeps(e) == 1 && Writes(e) == 0 && e[|e| - 1] == Sleep(ctx.sleepSeconds))
  {
    var e := AttemptEvents(ctx, n, c);
    var tail := e[1..];
    assert e == [Notify(Trying(n, c))] + tail && |tail| == 2;
    CountsOne(Notify(Trying(n, c)));
    CountsOne(tail[0]);
    CountsOne(tail[1]);
    assert tail == [tail[0]] + [tail[1]];
    CountsAppend([tail[0]], [tail[1]]);
    CountsAppend([Notify(Trying(n, c))], tail);
  }

  lemma CountsOne(x: Event)
    ensures Attempts([x]) == if x.Notify? && x.notice.Trying? then [(x.notice.attempt, x.notice.cand)] else []
    ensures Sleeps([x]) == if x.Sleep? then 1 else 0
    ensures Writes([x]) == if x.WriteSuccess? then 1 else 0
  {
    assert [x][..0] == [];
  }

  // ---------------------------------------------------------------------
  // The loop as a function
  // ---------------------------------------------------------------------

  /** The record of a run so far: its events, the attempt counter and the claim, if any. */
  datatype Progress = Progress(events: seq<Event>, attempts: nat, claim: Option<Claim>)

  /** One attempt after the progress `p`. */
  function Step(ctx: Context, p: Progress, c: Candidate): Progress {
    var n := p.attempts + 1;
    var res := Outcome(ctx, n, c);
    Progress(p.events + AttemptEvents(ctx, n, c), n,
             if res.Launched? then Some(Claim(res.instanceId, res.publicIp)) else None)
  }

  /**
   * A step adds one attempt, numbered next; it claims exactly when that
   * attempt succeeds, and then ends on the record; otherwise it sleeps once.
   */
  lemma StepCounts(ctx: Context, p: Progress, c: Candidate)
    ensures var q := Step(ctx, p, c);
      && q.attempts == p.attempts + 1
      && Attempts(q.events) == Attempts(p.events) + [(p.attempts + 1, c)]
      && Sleeps(q.events) == Sleeps(p.events) + (if q.claim.Some? then 0 else 1)
      && Writes(q.events) == Writes(p.events) + (if q.claim.Some? then 1 else 0)
      && (q.claim.Some? <==> Succeeds(ctx, p.attempts + 1, c))
      && (q.claim.Some? ==> q.events[|q.events| - 1] == WriteSuccess(SuccessRecord(q.claim.value)))
  {
    var n: nat := p.attempts + 1;
    var e := AttemptEvents(ctx, n, c);
    CountsAppend(p.events, e);
    AttemptCounts(ctx, n, c);
    assert (p.events + e)[|p.events + e| - 1] == e[|e| - 1];
  }

  /** Trying `cands` in order after `p0`, stopping at the first success. */
  function PassSpec(ctx: Context, cands: seq<Candidate>, p0: Progress): Progress
    requires p0.claim.None?
  {
    if cands == [] then p0
    else
      var p := PassSpec(ctx, cands[..|cands| - 1], p0);
      if p.claim.Some? then p else Step(ctx, p, cands[|cands| - 1])
  }

  /** `passes` passes of the `while True` loop; after a pass with no success, one more sleep. */
  function RunSpec(ctx: Context, cands: seq<Candidate>, passes: nat): Progress {
    if passes == 0 then Progress([], 0, None)
    else
      var r := RunSpec(ctx, cands, passes - 1);
      if r.claim.Some? then r
      else
        var p := PassSpec(ctx, cands, r);
        if p.claim.Some? then p else Progress(p.events + [Sleep(ctx.sleepSeconds)], p.attempts, None)
  }

  /** Once a pass has succeeded, later candidates change nothing. */
  lemma {:induction false} PassClaimSticks(ctx: Context, xs: seq<Candidate>, ys: seq<Candidate>, p0: Progress)
    requires p0.claim.None?
    requires PassSpec(ctx, xs, p0).claim.Some?
    ensures PassSpec(ctx, xs + ys, p0) == PassSpec(ctx, xs, p0)
  {
    if ys == [] {
      assert xs + ys == xs;
    } else {
      var ys' := ys[..|ys| - 1];
      PassClaimSticks(ctx, xs, ys', p0);
      assert (xs + ys)[..|xs + ys| - 1] == xs + ys';
    }
  }

  /** Once a run has succeeded, later passes change nothing. */
  lemma {:induction false} RunClaimSticks(ctx: Context, cands: seq<Candidate>, k: nat, n: nat)
    requires k <= n
    requires RunSpec(ctx, cands, k).claim.Some?
    ensures RunSpec(ctx, cands, n) == RunSpec(ctx, cands, k)
  {
    if n > k {
      RunClaimSticks(ctx, cands, k, n - 1);
    }
  }

  // ---------------------------------------------------------------------
  // The loop as a method
  // ---------------------------------------------------------------------

  /**
   * The guarded body of the loop for one candidate: announce the attempt,
   * run it, and on success write the record; on any failure announce it and
   * sleep once.
   */
  method RunAttempt(ctx: Context, n: nat, c: Candidate) returns (e: seq<Event>, res: AttemptResult)
    ensures res == Outcome(ctx, n, c)
    ensures e == AttemptEvents(ctx, n, c)
  {
    e := [Notify(Trying(n, c))];
    var s := ctx.sleepSeconds;
    res := ctx.outcome(n, c);
    match res {
      case Launched(inst, ip) =>
        e := e + [Notify(Claimed(inst, ip)), WriteSuccess(inst + "\n" + ip + "\n")];
      case RuntimeFailure(msg) =>
        if msg == CapacityVerdict {
          e := e + [Notify(CapacityShort(c, s))];
        } else {
          e := e + [Notify(OtherError(msg, s))];
        }
        e := e + [Sleep(s)];
      case Unexpected(_, text) =>
        e := e + [Notify(Crashed(text, s)), Sleep(s)];
    }
  }

  /** The candidates of the first `i` domains, then the first `j` sizes of domain `i`. */
  function Visited(adOrder: seq<string>, ocpus: seq<nat>, memPerOcpu: int, i: nat, j: nat): (r: seq<Candidate>)
    requires i < |adOrder| && j <= |ocpus|
    ensures |r| == i * |ocpus| + j
  {
    Candidates(adOrder[..i], ocpus, memPerOcpu) + Row(adOrder[i], ocpus[..j], memPerOcpu)
  }

  /** A domain's visit starts where the earlier domains end, and all its sizes complete the first `i + 1` domains. */
  lemma VisitedEnds(adOrder: seq<string>, ocpus: seq<nat>, memPerOcpu: int, i: nat)
    requires i < |adOrder|
    ensures Visited(adOrder, ocpus, memPerOcpu, i, 0) == Candidates(adOrder[..i], ocpus, memPerOcpu)
    ensures Visited(adOrder, ocpus, memPerOcpu, i, |ocpus|) == Candidates(adOrder[..i + 1], ocpus, memPerOcpu)
  {
    assert Row(adOrder[i], ocpus[..0], memPerOcpu) == [];
    assert ocpus[..|ocpus|] == ocpus;
    assert adOrder[..i + 1][..i] == adOrder[..i];
  }

  /** Visiting one more size appends that candidate. */
  lemma VisitedStep(adOrder: seq<string>, ocpus: seq<nat>, memPerOcpu: int, i: nat, j: nat)
    requires i < |adOrder| && j < |ocpus|
    ensures Visited(adOrder, ocpus, memPerOcpu, i, j + 1)
            == Visited(adOrder, ocpus, memPerOcpu, i, j) + [Candidate(adOrder[i], ocpus[j], ocpus[j] * memPerOcpu)]
  {
    assert Row(adOrder[i], ocpus[..j + 1], memPerOcpu)
           == Row(adOrder[i], ocpus[..j], memPerOcpu) + [Candidate(adOrder[i], ocpus[j], ocpus[j] * memPerOcpu)];
  }

  /** What has been visited is where the full candidate sequence starts. */
  lemma VisitedPrefix(adOrder: seq<string>, ocpus: seq<nat>, memPerOcpu: int, i: nat, j: nat)
    requires i < |adOrder| && j <= |ocpus|
    ensures Visited(adOrder, ocpus, memPerOcpu, i, j) <= Candidates(adOrder, ocpus, memPerOcpu)
  {
    CandidatesPrefix(adOrder, ocpus, memPerOcpu, i + 1);
    var full := Candidates(adOrder[..i + 1], ocpus, memPerOcpu);
    assert Row(adOrder[i], ocpus[..j], memPerOcpu) <= Row(adOrder[i], ocpus, memPerOcpu);
    assert Visited(adOrder, ocpus, memPerOcpu, i, j) <= full by {
      assert adOrder[..i + 1][..i] == adOrder[..i];
      assert full == Candidates(adOrder[..i], ocpus, memPerOcpu) + Row(adOrder[i], ocpus, memPerOcpu);
    }
  }

  /** Trying one more candidate is one more step, unless the pass has already succeeded. */
  lemma PassSpecSnoc(ctx: Context, xs: seq<Candidate>, c: Candidate, p0: Progress)
    requires p0.claim.None?
    ensures PassSpec(ctx, xs + [c], p0)
            == var p := PassSpec(ctx, xs, p0); if p.claim.Some? then p else Step(ctx, p, c)
  {
    assert (xs + [c])[..|xs + [c]| - 1] == xs;
  }

  /** A success in the middle of a pass is the final state of the whole run. */
  lemma SuccessEndsRun(ctx: Context, cands: seq<Candidate>, visited: seq<Candidate>, pass: nat, passes: nat, r0: Progress)
    requires visited <= cands && pass < passes
    requires r0.claim.None? && RunSpec(ctx, cands, pass) == r0
    requires PassSpec(ctx, visited, r0).claim.Some?
    ensures RunSpec(ctx, cands, passes) == PassSpec(ctx, visited, r0)
  {
    assert cands == visited + cands[|visited|..];
    PassClaimSticks(ctx, visited, cands[|visited|..], r0);
    RunClaimSticks(ctx, cands, pass + 1, passes);
  }

  /** One iteration of the inner loop advances the pass specification by the candidate it tries. */
  lemma InnerStep(ctx: Context, adOrder: seq<string>, ocpus: seq<nat>, memPerOcpu: int, i: nat, j: nat,
                  r0: Progress, p: Progress, tried: seq<Event>, res: AttemptResult)
    requires i < |adOrder| && j < |ocpus| && r0.claim.None? && p.claim.None?
    requires PassSpec(ctx, Visited(adOrder, ocpus, memPerOcpu, i, j), r0) == p
    requires var c := Candidate(adOrder[i], ocpus[j], ocpus[j] * memPerOcpu);
      tried == AttemptEvents(ctx, p.attempts + 1, c) && res == Outcome(ctx, p.attempts + 1, c)
    ensures PassSpec(ctx, Visited(adOrder, ocpus, memPerOcpu, i, j + 1), r0)
            == Progress(p.events + tried, p.attempts + 1,
                        if res.Launched? then Some(Claim(res.instanceId, res.publicIp)) else None)
  {
    var c := Candidate(adOrder[i], ocpus[j], ocpus[j] * memPerOcpu);
    VisitedStep(adOrder, ocpus, memPerOcpu, i, j);
    PassSpecSnoc(ctx, Visited(adOrder, ocpus, memPerOcpu, i, j), c, r0);
  }

  /** A success in the middle of a domain's visit is the final state of the whole pass. */
  lemma SuccessEndsPass(ctx: Context, adOrder: seq<string>, ocpus: seq<nat>, memPerOcpu: int, i: nat, j: nat, r0: Progress)
    requires i < |adOrder| && j <= |ocpus| && r0.claim.None?
    requires PassSpec(ctx, Visited(adOrder, ocpus, memPerOcpu, i, j), r0).claim.Some?
    ensures PassSpec(ctx, Candidates(adOrder, ocpus, memPerOcpu), r0) == PassSpec(ctx, Visited(adOrder, ocpus, memPerOcpu, i, j), r0)
  {
    var visited := Visited(adOrder, ocpus, memPerOcpu, i, j);
    var cands := Candidates(adOrder, ocpus, memPerOcpu);
    VisitedPrefix(adOrder, ocpus, memPerOcpu, i, j);
    assert cands == visited + cands[|visited|..];
    PassClaimSticks(ctx, visited, cands[|visited|..], r0);
  }

  /**
   * The inner `for` loop of `main` for the domain `adOrder[i]`: one attempt
   * per OCPU count, stopping at the first success.
   */
  method TryDomain(ctx: Context, adOrder: seq<string>, ocpus: seq<nat>, memPerOcpu: int, i: nat,
                   ghost r0: Progress, events0: seq<Event>, attempt0: nat)
    returns (events: seq<Event>, attempt: nat, claim: Option<Claim>)
    requires i < |adOrder| && r0.claim.None?
    requires PassSpec(ctx, Candidates(adOrder[..i], ocpus, memPerOcpu), r0) == Progress(events0, attempt0, None)
    ensures claim.None? ==>
      PassSpec(ctx, Candidates(adOrder[..i + 1], ocpus, memPerOcpu), r0) == Progress(events, attempt, None)
    ensures claim.Some? ==>
      PassSpec(ctx, Candidates(adOrder, ocpus, memPerOcpu), r0) == Progress(events, attempt, claim)
  {
    events, attempt, claim := events0, attempt0, None;
    var ad := adOrder[i];
    VisitedEnds(adOrder, ocpus, memPerOcpu, i);
    for j := 0 to |ocpus|
      invariant PassSpec(ctx, Visited(adOrder, ocpus, memPerOcpu, i, j), r0) == Progress(events, attempt, None)
    {
      var ocpu := ocpus[j];
      var mem := ocpu * memPerOcpu;
      attempt := attempt + 1;
      var c := Candidate(ad, ocpu, mem);
      var tried, res := RunAttempt(ctx, attempt, c);
      InnerStep(ctx, adOrder, ocpus, memPerOcpu, i, j, r0, Progress(events, attempt - 1, None), tried, res);
      events := events + tried;
      if res.Launched? {
        claim := Some(Claim(res.instanceId, res.publicIp));
        SuccessEndsPass(ctx, adOrder, ocpus, memPerOcpu, i, j + 1, r0);
        return;
      }
    }
  }

  /**
   * The `while True` loop of `main`, followed for `passes` passes: nested
   * loops over the domains and the OCPU counts, the attempt counter, the
   * sleeps, and the early return after writing the success record.
   */
  method RetryLoop(ctx: Context, adOrder: seq<string>, ocpus: seq<nat>, memPerOcpu: int, passes: nat)
    returns (events: seq<Event>, attempt: nat, claim: Option<Claim>)
    ensures Progress(events, attempt, claim) == RunSpec(ctx, Candidates(adOrder, ocpus, memPerOcpu), passes)
  {
    ghost var cands := Candidates(adOrder, ocpus, memPerOcpu);
    events, attempt, claim := [], 0, None;
    var pass := 0;
    while pass < passes
      invariant pass <= passes
      invariant RunSpec(ctx, cands, pass) == Progress(events, attempt, None)
      invariant claim.None?
    {
      ghost var r0 := Progress(events, attempt, None);
      for i := 0 to |adOrder|
        invariant PassSpec(ctx, Candidates(adOrder[..i], ocpus, memPerOcpu), r0) == Progress(events, attempt, None)
        invariant claim.None?
      {
        events, attempt, claim := TryDomain(ctx, adOrder, ocpus, memPerOcpu, i, r0, events, attempt);
        if claim.Some? {
          SuccessEndsRun(ctx, cands, cands, pass, passes, r0);
          return;
        }
      }
      assert adOrder[..|adOrder|] == adOrder;
      events := events + [Sleep(ctx.sleepSeconds)];
      pass := pass + 1;
    }
  }
}
