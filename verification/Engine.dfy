/** The engine as the source writes it: an object that updates its counters and budget while it loops over
    targets, talking to a Docker client, a stop flag and dice. `Tick` is proved equal to EngineSpec.Tick. */
module Engine {
  import opened Wrappers
  import opened Config
  import opened Discovery
  import opened Chaos
  import opened EngineSpec

  /** The engine's dependencies, with the log of every use made of them. */
  class World {
    const env: Env
    var log: seq<Event>

    constructor (env: Env)
      ensures this.env == env && log == []
    {
      this.env, this.log := env, [];
    }

    method StopRequested() returns (stop: bool)
      modifies this
      ensures stop == env.Flag(|old(log)|) && log == old(log) + [ReadFlag(stop)]
    {
      stop := env.Flag(|log|);
      log := log + [ReadFlag(stop)];
    }

    method ListContainers() returns (reply: ListReply)
      modifies this
      ensures reply == env.list(|old(log)|) && log == old(log) + [ListCall(reply)]
    {
      reply := env.list(|log|);
      log := log + [ListCall(reply)];
    }

    method Draw() returns (value: real)
      modifies this
      ensures value == env.dice(|old(log)|) && log == old(log) + [Roll]
    {
      value := env.dice(|log|);
      log := log + [Roll];
    }

    method Strike(action: Action, id: string, timeout: int) returns (reply: StrikeReply)
      modifies this
      ensures reply == env.strike(|old(log)|) && log == old(log) + [StrikeCall(action, id, timeout, reply)]
    {
      reply := env.strike(|log|);
      log := log + [StrikeCall(action, id, timeout, reply)];
    }
  }

  class ChaosEngine {
    const world: World
    const cfg: Config
    const dryRun: bool
    const discoverOnly: bool
    const roller: ChaosRoller
    var forcedRoll: Option<bool>
    var rolls: nat
    var strikes: nat
    var errors: nat
    var runBudgetUsed: int

    function Model(): State
      reads this, roller, world
    {
      State(cfg, dryRun, discoverOnly, roller.probability, forcedRoll, roller.rolls, rolls, strikes, errors,
            runBudgetUsed, world.log)
    }

    constructor (world: World, cfg: Config, dryRunOverride: Option<bool>, discoverOnly: bool)
      ensures this.world == world && fresh(roller) && world.log == old(world.log)
      ensures Model() == Initial(cfg, dryRunOverride, discoverOnly).(log := world.log)
    {
      this.world, this.cfg, this.discoverOnly := world, cfg, discoverOnly;
      dryRun := if dryRunOverride.Some? then dryRunOverride.value else cfg.dryRun;
      var r := new ChaosRoller();
      roller := r;
      forcedRoll, rolls, strikes, errors, runBudgetUsed := None, 0, 0, 0, 0;
      new;
      roller.SetProbability(Some(cfg.chaosProbability));
    }

    method ForceNextRoll(fires: bool)
      modifies this
      ensures Model() == old(Model()).(forced := Some(fires))
    {
      forcedRoll := Some(fires);
    }

    /** One tick; false if discovery failed. */
    method Tick() returns (ok: bool)
      modifies this, roller, world
      ensures Model() == EngineSpec.Tick(old(Model()), world.env)
      ensures ok == !DiscoveryFails(old(Model()), world.env)
    {
      var stop := world.StopRequested();
      if stop { return true; }
      var reply := world.ListContainers();
      if reply.ListFailed? {
        errors := errors + 1;
        return false;
      }
      var matched := MatchContainers(reply.cs, cfg.targets);
      if matched == [] { return true; }
      MatchesAreIndexed(reply.cs, cfg.targets, |reply.cs|);
      StrikeIfFired(matched);
      ok := true;
    }

    /** The second guard, the gate and the sweep (lines 82 to 108). */
    method StrikeIfFired(matched: seq<Matched>)
      requires Indexed(matched, cfg.targets)
      modifies this, roller, world
      ensures Model() == Arm(old(Model()), matched, world.env)
    {
      var stop := world.StopRequested();
      if stop { return; }
      if discoverOnly { return; }
      ghost var s := Model();
      var fires := ShouldStrike();
      if fires {
        var selected := ActionBudget(matched, cfg.maxPerCycle, cfg.maxPerRun, runBudgetUsed);
        assert selected == Selected(s, matched);
        ExecuteStrikes(selected);
      }
    }

    method ShouldStrike() returns (fires: bool)
      modifies this, roller, world
      ensures fires == Fires(old(Model()), world.env)
      ensures Model() == Rolled(old(Model()))
    {
      rolls := rolls + 1;
      var value := world.Draw();
      if forcedRoll.Some? {
        fires := forcedRoll.value;
        forcedRoll := None;
        return;
      }
      fires := roller.Roll(value);
    }

    method ExecuteStrikes(armed: seq<Matched>)
      requires Indexed(armed, cfg.targets)
      modifies this, roller, world
      ensures Model() == Sweep(old(Model()), armed, world.env)
    {
      ghost var result := Sweep(Model(), armed, world.env);
      for i := 0 to |armed|
        invariant Sweep(Model(), armed[i..], world.env) == result
      {
        var stop := world.StopRequested();
        if stop { return; }
        if dryRun { continue; }
        StrikeTarget(armed[i]);
      }
    }

    /** The body of the loop for one target (lines 145 to 187). */
    method StrikeTarget(m: Matched)
      requires m.ruleIndex < |cfg.targets|
      modifies this, roller, world
      ensures Model() == StrikeOne(old(Model()), m, world.env)
    {
      var rule := cfg.targets[m.ruleIndex];
      var reply := world.Strike(rule.action, m.container.id, cfg.stopTimeout);
      if reply.ok {
        strikes := strikes + 1;
        runBudgetUsed := runBudgetUsed + 1;
      } else if reply.httpStatus != 404 && reply.httpStatus != 409 {
        errors := errors + 1;
      }
    }
  }
}
