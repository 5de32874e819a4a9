/** One engine tick as a sequence of observable steps (src/engine.cpp). The log of steps is the clock: another
    thread may set the stop flag between any two of them, and Docker's answers and the dice may depend on
    the moment in any way. */
module EngineSpec {
  import opened Wrappers
  import opened Config
  import opened Discovery
  import opened Chaos

  datatype ListReply = Listed(cs: seq<Container>) | ListFailed

  datatype StrikeReply = StrikeReply(ok: bool, httpStatus: int)

  /** A step that the outside world can see. */
  datatype Event =
    | ReadFlag(set_: bool)
    | ListCall(reply: ListReply)
    | Roll
    | StrikeCall(action: Action, id: string, timeout: int, outcome: StrikeReply)
  {
    /** Work that a shutdown is meant to prevent. */
    predicate IsAction() { !ReadFlag? }
  }

  /** The environment. The stop flag is never cleared, so the moment it is set describes it. */
  datatype Env = Env(stopAt: Option<nat>, list: nat -> ListReply, strike: nat -> StrikeReply, dice: nat -> real) {
    predicate Flag(now: nat) { stopAt.Some? && stopAt.value <= now }
  }

  datatype State = State(
    cfg: Config, dryRun: bool, discoverOnly: bool, probability: real, forced: Option<bool>,
    rollerRolls: nat, rolls: nat, strikes: nat, errors: nat, used: int, log: seq<Event>)
  {
    function Now(): nat { |log| }
    function Logged(e: Event): State { this.(log := log + [e]) }
  }

  function Initial(cfg: Config, dryRunOverride: Option<bool>, discoverOnly: bool): State {
    State(cfg, if dryRunOverride.Some? then dryRunOverride.value else cfg.dryRun, discoverOnly,
          Clamp(Some(cfg.chaosProbability)), None, 0, 0, 0, 0, 0, [])
  }

  /** Reading the stop flag is a step of its own. */
  function Observe(s: State, env: Env): State { s.Logged(ReadFlag(env.Flag(s.Now()))) }

  function Tick(s: State, env: Env): State {
    if env.Flag(s.Now()) then Observe(s, env) else Discover(Observe(s, env), env)
  }

  predicate DiscoveryFails(s: State, env: Env) {
    !env.Flag(s.Now()) && env.list(s.Now() + 1).ListFailed?
  }

  function Discover(s: State, env: Env): State {
    var reply := env.list(s.Now());
    var s1 := s.Logged(ListCall(reply));
    match reply
    case ListFailed => s1.(errors := s1.errors + 1)
    case Listed(cs) =>
      var matched := MatchAll(cs, s.cfg.targets);
      if matched == [] then s1 else Arm(s1, matched, env)
  }

  function Arm(s: State, matched: seq<Matched>, env: Env): State {
    if env.Flag(s.Now()) || s.discoverOnly then Observe(s, env)
    else
      var s1 := Observe(s, env);
      if Fires(s1, env) then Sweep(Rolled(s1), Selected(s1, matched), env) else Rolled(s1)
  }

  function Fires(s: State, env: Env): bool {
    if s.forced.Some? then s.forced.value else env.dice(s.Now()) < s.probability
  }

  function Rolled(s: State): State {
    s.Logged(Roll).(rolls := s.rolls + 1, forced := None,
                    rollerRolls := s.rollerRolls + if s.forced.Some? then 0 else 1)
  }

  function Selected(s: State, matched: seq<Matched>): seq<Matched> {
    ActionBudget(matched, s.cfg.maxPerCycle, s.cfg.maxPerRun, s.used)
  }

  /** The strike loop over the targets left; a target without a rule does not exist in any run. */
  function Sweep(s: State, targets: seq<Matched>, env: Env): State
    decreases |targets|
  {
    if targets == [] then s
    else if env.Flag(s.Now()) then Observe(s, env)
    else
      var s1 := Observe(s, env);
      Sweep(if s.dryRun then s1 else StrikeOne(s1, targets[0], env), targets[1..], env)
  }

  function RuleAction(cfg: Config, m: Matched): Action {
    if m.ruleIndex < |cfg.targets| then cfg.targets[m.ruleIndex].action else Kill
  }

  predicate Skipped(r: StrikeReply) { !r.ok && (r.httpStatus == 404 || r.httpStatus == 409) }

  predicate Failed(r: StrikeReply) { !r.ok && !Skipped(r) }

  function StrikeOne(s: State, m: Matched, env: Env): State {
    var r := env.strike(s.Now());
    var s1 := s.Logged(StrikeCall(RuleAction(s.cfg, m), m.container.id, s.cfg.stopTimeout, r));
    if r.ok then s1.(strikes := s.strikes + 1, used := s.used + 1)
    else if Skipped(r) then s1
    else s1.(errors := s.errors + 1)
  }

  /** What the daemon does between two moments: a tick, a look at the stop flag by the scheduler, or the
      test hook that fixes the next roll. */
  datatype Move = DoTick | Look | Force(fires: bool)

  function Step(s: State, env: Env, move: Move): State {
    match move
    case DoTick => Tick(s, env)
    case Look => Observe(s, env)
    case Force(fires) => s.(forced := Some(fires))
  }

  /** The state after any plan of moves. */
  function Run(s: State, env: Env, plan: seq<Move>): State {
    if plan == [] then s else Step(Run(s, env, plan[..|plan| - 1]), env, plan[|plan| - 1])
  }

  lemma RunMore(s: State, env: Env, plan: seq<Move>, move: Move)
    ensures Run(s, env, plan + [move]) == Step(Run(s, env, plan), env, move)
  {
    assert (plan + [move])[..|plan|] == plan;
  }
}
