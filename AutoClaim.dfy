/**
 * The script's entry point: the settings it refuses to start without, the
 * checks made before anything is launched, the choice of image and of the
 * domain order, and then the claim loop.
 *
 * Settings are read from the environment (after `.env` is loaded) once, at
 * start-up; `Environment` holds them as the script sees them. What the
 * machine and the provider answer is a `World`: whether the SSH key file
 * exists, the configured region, the domain listing (absent when it raised),
 * the image listing, and how each launch request ends.
 */
module AutoClaim {
  import opened Options
  import opened Text
  import opened Settings
  import opened Domains
  import opened Images
  import opened Launch
  import opened Scheduler
  import opened Runs

  /** The settings `main` uses; `SLEEP_SECONDS` and `MEM_PER_OCPU` already read by `int()`. */
  datatype Environment = Environment(
    compartment: Option<string>,
    subnet: Option<string>,
    imageOcid: Option<string>,
    namePrefix: Option<string>,
    sleepSeconds: nat,
    ads: Option<string>,
    ocpus: Option<string>,
    memPerOcpu: int)

  /** What the machine and the provider answer. */
  datatype World = World(
    keyExists: bool,
    region: string,
    discoveredAds: Option<seq<string>>,
    images: seq<Image>,
    launch: (string, nat, Candidate) -> LaunchOutcome)

  /** The name prefix used when `INSTANCE_NAME_PREFIX` is unset. */
  const DefaultPrefix: string := "a1-free"

  /**
   * How `main` finishes: exit status 1 for missing settings or a missing key
   * file, status 0 when no image is found, a normal return after a claim;
   * `StillTrying` is a run that has not claimed within the passes followed.
   */
  datatype Ending =
    | MissingSettings(names: seq<string>)
    | KeyNotFound
    | NoImage
    | Succeeded(claim: Claim)
    | StillTrying

  /** The required settings that are unset or empty, compartment before subnet. */
  function Missing(env: Environment): (r: seq<string>)
    ensures "COMPARTMENT_OCID" in r <==> !Truthy(env.compartment)
    ensures "SUBNET_OCID" in r <==> !Truthy(env.subnet)
    ensures |r| <= 2
    ensures forall k :: 0 <= k < |r| ==> r[k] in {"COMPARTMENT_OCID", "SUBNET_OCID"}
    ensures |r| == 2 ==> r == ["COMPARTMENT_OCID", "SUBNET_OCID"]
  {
    (if Truthy(env.compartment) then [] else ["COMPARTMENT_OCID"])
      + (if Truthy(env.subnet) then [] else ["SUBNET_OCID"])
  }

  /** The domains in visiting order: the configured ones the provider has, else the provider's, else the configured. */
  function VisitOrder(env: Environment, world: World): seq<string> {
    var configured := ParseAds(env.ads);
    AdOrder(configured, ListAvailabilityDomains(world.discoveredAds, configured))
  }

  /** The candidates of one pass. */
  function Schedule(env: Environment, world: World): seq<Candidate> {
    Candidates(VisitOrder(env, world), ParseOcpus(env.ocpus), env.memPerOcpu)
  }

  /** `try_launch` as the loop calls it: with the chosen image, the name prefix and the sleep setting. */
  function LoopContext(env: Environment, world: World, imageId: string): Context {
    ContextOf(env.namePrefix.GetOr(DefaultPrefix), env.sleepSeconds, (n: nat, c: Candidate) => world.launch(imageId, n, c))
  }

  /** What `main` does when the loop is followed for `passes` passes: how it ends, and the events on the way. */
  function Script(env: Environment, world: World, passes: nat): (Ending, seq<Event>) {
    var miss := Missing(env);
    if miss != [] then (MissingSettings(miss), [])
    else if !world.keyExists then (KeyNotFound, [])
    else
      var start := [Notify(Started(world.region))];
      var image := ResolveImage(env.imageOcid, world.images);
      if !Truthy(image) then (NoImage, start + [Notify(NoImageFound)])
      else
        var r := RunSpec(LoopContext(env, world, image.value), Schedule(env, world), passes);
        (if r.claim.Some? then Succeeded(r.claim.value) else StillTrying, start + r.events)
  }

  /** `main`, with the endless loop followed for `passes` passes. */
  method Run(env: Environment, world: World, passes: nat) returns (ending: Ending, events: seq<Event>)
    ensures (ending, events) == Script(env, world, passes)
  {
    var miss := [];
    if !Truthy(env.compartment) {
      miss := miss + ["COMPARTMENT_OCID"];
    }
    if !Truthy(env.subnet) {
      miss := miss + ["SUBNET_OCID"];
    }
    assert miss == Missing(env);
    if miss != [] {
      return MissingSettings(miss), [];
    }
    if !world.keyExists {
      return KeyNotFound, [];
    }
    events := [Notify(Started(world.region))];
    var configured := ParseAds(env.ads);
    var adOrder := AdOrder(configured, ListAvailabilityDomains(world.discoveredAds, configured));
    var image: Option<string> := Some(Strip(env.imageOcid.GetOr("")));
    if image.value == "" {
      image := PickLatestUbuntuArmImage(world.images);
    }
    if !Truthy(image) {
      return NoImage, events + [Notify(NoImageFound)];
    }
    var loopEvents, attempt, claim := RetryLoop(LoopContext(env, world, image.value), adOrder, ParseOcpus(env.ocpus), env.memPerOcpu, passes);
    events := events + loopEvents;
    ending := if claim.Some? then Succeeded(claim.value) else StillTrying;
  }

  // ---------------------------------------------------------------------
  // What a run of the script guarantees
  // ---------------------------------------------------------------------

  /**
   * The checks come first and stop the script before any attempt, sleep or
   * record: missing settings (all of them named), then a missing key file,
   * then no usable image, which is only reached after the start notice.
   */
  lemma ChecksComeFirst(env: Environment, world: World, passes: nat)
    ensures var (ending, events) := Script(env, world, passes);
      && (ending.MissingSettings? <==> !Truthy(env.compartment) || !Truthy(env.subnet))
      && (ending.MissingSettings? ==> ending.names == Missing(env) && events == [])
      && (ending == KeyNotFound <==> Truthy(env.compartment) && Truthy(env.subnet) && !world.keyExists)
      && (ending == KeyNotFound ==> events == [])
      && (ending == NoImage <==> Truthy(env.compartment) && Truthy(env.subnet) && world.keyExists
                                 && !Truthy(ResolveImage(env.imageOcid, world.images)))
      && (ending == NoImage ==> Attempts(events) == [] && Sleeps(events) == 0 && Writes(events) == 0
                                && events == [Notify(Started(world.region)), Notify(NoImageFound)])
  {
    var miss := Missing(env);
    var image := ResolveImage(env.imageOcid, world.images);
    if miss != [] {
      assert Script(env, world, passes) == (MissingSettings(miss), []);
    } else if !world.keyExists {
      assert Script(env, world, passes) == (KeyNotFound, []);
    } else if !Truthy(image) {
      var start := [Notify(Started(world.region))];
      assert Script(env, world, passes) == (NoImage, start + [Notify(NoImageFound)]);
      CountsAppend(start, [Notify(NoImageFound)]);
      CountsOne(Notify(Started(world.region)));
      CountsOne(Notify(NoImageFound));
    } else {
      LoopNeedsChecks(env, world, passes);
      assert Script(env, world, passes).0.Succeeded? || Script(env, world, passes).0 == StillTrying;
    }
  }

  /** The script only reaches its loop, and so only ends there, when every check passed. */
  lemma LoopNeedsChecks(env: Environment, world: World, passes: nat)
    ensures var (ending, _) := Script(env, world, passes);
      ending.Succeeded? || ending == StillTrying ==>
        Truthy(env.compartment) && Truthy(env.subnet) && world.keyExists
        && Truthy(ResolveImage(env.imageOcid, world.images))
  {
  }

  /** Once past the checks, the events are the start notice followed by the loop's. */
  lemma LoopEvents(env: Environment, world: World, passes: nat)
    requires Truthy(env.compartment) && Truthy(env.subnet) && world.keyExists
    requires Truthy(ResolveImage(env.imageOcid, world.images))
    ensures var (ending, events) := Script(env, world, passes);
      var r := RunSpec(LoopContext(env, world, ResolveImage(env.imageOcid, world.images).value), Schedule(env, world), passes);
      && events != [] && events[0] == Notify(Started(world.region))
      && (ending.Succeeded? <==> r.claim.Some?)
      && (ending.Succeeded? ==> r.claim == Some(ending.claim))
      && Attempts(events) == Attempts(r.events)
      && Sleeps(events) == Sleeps(r.events)
      && Writes(events) == Writes(r.events)
      && (r.events != [] ==> events[|events| - 1] == r.events[|r.events| - 1])
  {
    var r := RunSpec(LoopContext(env, world, ResolveImage(env.imageOcid, world.images).value), Schedule(env, world), passes);
    assert Missing(env) == [];
    StartThen(world.region, r.events);
  }

  /** The start notice in front of some events adds no attempt, sleep or record, and keeps the last event. */
  lemma StartThen(region: string, loop: seq<Event>)
    ensures var events := [Notify(Started(region))] + loop;
      && events[0] == Notify(Started(region))
      && Attempts(events) == Attempts(loop)
      && Sleeps(events) == Sleeps(loop)
      && Writes(events) == Writes(loop)
      && (loop != [] ==> events[|events| - 1] == loop[|loop| - 1])
  {
    CountsAppend([Notify(Started(region))], loop);
    CountsOne(Notify(Started(region)));
  }

  /**
   * The attempts the script makes are the candidates of its passes in order,
   * numbered 1, 2, 3, ...; without a claim it has tried every candidate of
   * every pass.
   */
  lemma ScriptTrace(env: Environment, world: World, passes: nat)
    ensures var (ending, events) := Script(env, world, passes);
      var sched := Repeat(Schedule(env, world), passes);
      && |Attempts(events)| <= |sched|
      && Attempts(events) == Enumerate(sched[..|Attempts(events)|], 0)
      && (ending == StillTrying ==> |Attempts(events)| == passes * |Schedule(env, world)|)
  {
    var (ending, events) := Script(env, world, passes);
    var sched := Repeat(Schedule(env, world), passes);
    ChecksComeFirst(env, world, passes);
    var image := ResolveImage(env.imageOcid, world.images);
    if Truthy(env.compartment) && Truthy(env.subnet) && world.keyExists && Truthy(image) {
      var ctx := LoopContext(env, world, image.value);
      LoopEvents(env, world, passes);
      RunTrace(ctx, Schedule(env, world), passes);
      RepeatLength(Schedule(env, world), passes);
    } else {
      assert sched[..0] == [];
    }
  }

  /**
   * A claim is the result of the script's last attempt, which succeeded; the
   * record holding it is written exactly once, as the last event.
   */
  lemma ScriptClaim(env: Environment, world: World, passes: nat)
    ensures var (ending, events) := Script(env, world, passes);
      var sched := Repeat(Schedule(env, world), passes);
      var n := |Attempts(events)|;
      ending.Succeeded? ==>
        && 0 < n <= |sched|
        && Outcome(LoopContext(env, world, ResolveImage(env.imageOcid, world.images).value), n, sched[n - 1])
           == Launched(ending.claim.instanceId, ending.claim.publicIp)
        && Writes(events) == 1
        && events[|events| - 1] == WriteSuccess(SuccessRecord(ending.claim))
  {
    var (ending, events) := Script(env, world, passes);
    if ending.Succeeded? {
      LoopNeedsChecks(env, world, passes);
      var ctx := LoopContext(env, world, ResolveImage(env.imageOcid, world.images).value);
      LoopEvents(env, world, passes);
      RunClaimRecord(ctx, Schedule(env, world), passes);
    }
  }

  /** Without a claim nothing is written, and the script has slept once after every attempt and once after every pass. */
  lemma ScriptUnclaimed(env: Environment, world: World, passes: nat)
    ensures var (ending, events) := Script(env, world, passes);
      ending == StillTrying ==> Writes(events) == 0 && Sleeps(events) == |Attempts(events)| + passes
  {
    var (ending, events) := Script(env, world, passes);
    ChecksComeFirst(env, world, passes);
    if ending == StillTrying {
      var ctx := LoopContext(env, world, ResolveImage(env.imageOcid, world.images).value);
      var cands := Schedule(env, world);
      LoopEvents(env, world, passes);
      RunWrites(ctx, cands, passes);
      RunSleeps(ctx, cands, passes);
      RunTrace(ctx, cands, passes);
    }
  }

  /**
   * If attempt `n` is the first whose launch succeeds, the script claims that
   * instance and makes no later attempt.
   */
  lemma FirstSuccessClaims(env: Environment, world: World, passes: nat, n: nat)
    requires Truthy(env.compartment) && Truthy(env.subnet) && world.keyExists
    requires Truthy(ResolveImage(env.imageOcid, world.images))
    requires var ctx := LoopContext(env, world, ResolveImage(env.imageOcid, world.images).value);
      var sched := Repeat(Schedule(env, world), passes);
      && 0 < n <= |sched|
      && Succeeds(ctx, n, sched[n - 1])
      && forall k :: 0 <= k < n - 1 ==> !Succeeds(ctx, k + 1, sched[k])
    ensures var (ending, events) := Script(env, world, passes);
      var ctx := LoopContext(env, world, ResolveImage(env.imageOcid, world.images).value);
      var c := Repeat(Schedule(env, world), passes)[n - 1];
      && ending == Succeeded(Claim(Outcome(ctx, n, c).instanceId, Outcome(ctx, n, c).publicIp))
      && |Attempts(events)| == n
  {
    var ctx := LoopContext(env, world, ResolveImage(env.imageOcid, world.images).value);
    var cands := Schedule(env, world);
    LoopEvents(env, world, passes);
    FirstSuccessEndsRun(ctx, cands, passes, n);
    RunTrace(ctx, cands, passes);
  }
}
