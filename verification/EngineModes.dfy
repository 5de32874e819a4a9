/** What the configuration, the command line and the budget decide about a run: when nothing is struck, and when
    exactly what is. */
module EngineModes {
  import opened Wrappers
  import opened Config
  import opened Discovery
  import opened Chaos
  import opened EngineSpec
  import opened EngineRuns
  import opened EngineLateAction

  // ---- modes without strikes ----

  lemma {:induction false} NoneCounted(log: seq<Event>, i: nat)
    requires Count(log, Calls) == 0 && i < |log|
    ensures !log[i].StrikeCall?
    decreases |log|
  {
    if i < |log| - 1 {
      NoneCounted(log[..|log| - 1], i);
      assert log[..|log| - 1][i] == log[i];
    }
  }

  /** The modes in which the daemon must not touch a container: discovery only, dry-run on the command line, or
      dry-run in the configuration without a contrary word on the command line. */
  predicate HandsOff(cfg: Config, dryRunOverride: Option<bool>, discoverOnly: bool) {
    discoverOnly || dryRunOverride == Some(true) || (dryRunOverride.None? && cfg.dryRun)
  }

  /** In these modes no run contains a stop or kill call. */
  lemma NothingStruck(cfg: Config, dryRunOverride: Option<bool>, discoverOnly: bool, env: Env, plan: seq<Move>)
    requires HandsOff(cfg, dryRunOverride, discoverOnly)
    ensures var log := Run(Initial(cfg, dryRunOverride, discoverOnly), env, plan).log;
      forall i :: 0 <= i < |log| ==> !log[i].StrikeCall?
  {
    hide Run, Count;
    RunAccounts(cfg, dryRunOverride, discoverOnly, env, plan);
    var log := Run(Initial(cfg, dryRunOverride, discoverOnly), env, plan).log;
    forall i | 0 <= i < |log| ensures !log[i].StrikeCall? { NoneCounted(log, i); }
  }

  // ---- what a live tick strikes ----

  /** `k` is the largest number of strikes that the matches, the cap per cycle (at least one) and what is left of
      a positive cap per run allow. */
  predicate Largest(k: int, matches: int, cfg: Config, struck: int) {
    var cycle := if cfg.maxPerCycle < 1 then 1 else cfg.maxPerCycle;
    && 0 <= k <= matches && k <= cycle && (cfg.maxPerRun > 0 ==> struck + k <= cfg.maxPerRun)
    && (k == matches || k == cycle || (cfg.maxPerRun > 0 && struck + k == cfg.maxPerRun))
  }

  lemma SelectedLargest(s: State, matched: seq<Matched>)
    requires s.cfg.maxPerRun > 0 ==> 0 <= s.used <= s.cfg.maxPerRun
    ensures Largest(|Selected(s, matched)|, |matched|, s.cfg, s.used)
  {
  }

  /** The tick passes both guards, discovery succeeds and something matches. */
  predicate FindsTargets(s: State, env: Env) {
    var t := s.Now();
    && !env.Flag(t) && env.list(t + 1).Listed?
    && MatchAll(env.list(t + 1).cs, s.cfg.targets) != [] && !env.Flag(t + 2)
  }

  /** The gate opens: a forced result says so, or the roll is below the configured probability. */
  predicate Opens(cfg: Config, forced: Option<bool>, roll: real) {
    match forced case Some(fires) => fires case None => roll < cfg.chaosProbability
  }

  /** After any run, the gate of the next tick compares its roll with the configured probability. */
  lemma GateIsConfigured(cfg: Config, dryRunOverride: Option<bool>, discoverOnly: bool, env: Env, plan: seq<Move>)
    requires 0.0 <= cfg.chaosProbability <= 1.0
    ensures var s := Run(Initial(cfg, dryRunOverride, discoverOnly), env, plan);
      GateFires(s, env) <==> Opens(cfg, s.forced, env.dice(s.Now() + 3))
  {
    hide Run, Accounts;
    RunAccounts(cfg, dryRunOverride, discoverOnly, env, plan);
  }

  /** In live mode, a tick that finds targets, whose gate opens, and that sees no stop, strikes the first matching
      containers, as many as the caps allow: at least one unless the cap per run is used up. */
  lemma LiveTick(cfg: Config, dryRunOverride: Option<bool>, env: Env, plan: seq<Move>) returns (k: nat)
    requires 0.0 <= cfg.chaosProbability <= 1.0
    requires dryRunOverride == Some(false) || (dryRunOverride.None? && !cfg.dryRun)
    requires var s := Run(Initial(cfg, dryRunOverride, false), env, plan);
      && FindsTargets(s, env) && Opens(cfg, s.forced, env.dice(s.Now() + 3)) && !env.Flag(Tick(s, env).Now())
    ensures var s := Run(Initial(cfg, dryRunOverride, false), env, plan);
      && k <= |Armed(s, env)| && Largest(k, |Armed(s, env)|, cfg, Count(s.log, Strikes))
      && Struck(Tick(s, env).log) == Struck(s.log) + Ids(Armed(s, env)[..k])
      && ((cfg.maxPerRun > 0 ==> Count(s.log, Strikes) < cfg.maxPerRun) ==> k > 0)
  {
    hide Run, Tick, Count, Struck, MatchAll, Selected, Ids;
    var s := Run(Initial(cfg, dryRunOverride, false), env, plan);
    RunAccounts(cfg, dryRunOverride, false, env, plan);
    GateIsConfigured(cfg, dryRunOverride, false, env, plan);
    k := TickAttempts(s, env);
    SelectedLargest(s, Armed(s, env));
  }

  /** A gate that stays shut strikes nothing. */
  lemma ShutGate(cfg: Config, dryRunOverride: Option<bool>, discoverOnly: bool, env: Env, plan: seq<Move>)
    requires 0.0 <= cfg.chaosProbability <= 1.0
    requires var s := Run(Initial(cfg, dryRunOverride, discoverOnly), env, plan);
      !Opens(cfg, s.forced, env.dice(s.Now() + 3))
    ensures var s := Run(Initial(cfg, dryRunOverride, discoverOnly), env, plan);
      Struck(Tick(s, env).log) == Struck(s.log)
  {
    hide Run, Tick, Count, Struck, MatchAll;
    var s := Run(Initial(cfg, dryRunOverride, discoverOnly), env, plan);
    GateIsConfigured(cfg, dryRunOverride, discoverOnly, env, plan);
    var k := TickAttempts(s, env);
    assert Ids(Armed(s, env)[..0]) == [] && Struck(s.log) + [] == Struck(s.log);
  }

  // ---- what a tick reports ----

  /** A tick reports failure exactly if its one list call failed. */
  lemma FailureReported(s: State, env: Env)
    ensures Count(Tick(s, env).log, FailedLists) == Count(s.log, FailedLists) + if DiscoveryFails(s, env) then 1 else 0
  {
    hide Sweep, MatchAll, ActionBudget, Count;
    var s1 := Observe(s, env);
    LoggedCounts(s, ReadFlag(env.Flag(s.Now())));
    var reply := env.list(s1.Now());
    LoggedCounts(s1, ListCall(reply));
    if reply.Listed? {
      var s2 := s1.Logged(ListCall(reply));
      var s3 := Observe(s2, env);
      LoggedCounts(s2, ReadFlag(env.Flag(s2.Now())));
      LoggedCounts(s3, Roll);
      SweepLists(Rolled(s3), Selected(s3, MatchAll(reply.cs, s.cfg.targets)), env);
    }
  }

  lemma {:induction false} SweepLists(s: State, targets: seq<Matched>, env: Env)
    ensures Count(Sweep(s, targets, env).log, FailedLists) == Count(s.log, FailedLists)
    decreases |targets|
  {
    hide Count;
    if targets != [] {
      var s1 := Observe(s, env);
      LoggedCounts(s, ReadFlag(env.Flag(s.Now())));
      if !env.Flag(s.Now()) {
        var m := targets[0];
        var r := env.strike(s1.Now());
        LoggedCounts(s1, StrikeCall(RuleAction(s.cfg, m), m.container.id, s.cfg.stopTimeout, r));
        SweepLists(if s.dryRun then s1 else StrikeOne(s1, m, env), targets[1..], env);
      }
    }
  }

  // ---- what a tick sees of a stop ----

  /** From moment `from` on, every look at the stop flag told the truth, and none but the last step saw it set. */
  predicate StopsAtOnce(log: seq<Event>, from: nat, env: Env) {
    && (forall i :: from <= i < |log| && log[i].ReadFlag? ==> log[i].set_ == env.Flag(i))
    && (forall i :: from <= i < |log| - 1 ==> log[i] != ReadFlag(true))
  }

  lemma LookStops(log: seq<Event>, from: nat, env: Env)
    requires from <= |log| && StopsAtOnce(log, from, env)
    requires from < |log| ==> log[|log| - 1] != ReadFlag(true)
    ensures StopsAtOnce(log + [ReadFlag(env.Flag(|log|))], from, env)
  {
  }

  lemma ActionStops(log: seq<Event>, from: nat, env: Env, e: Event)
    requires from < |log| && StopsAtOnce(log, from, env) && log[|log| - 1] == ReadFlag(false) && e.IsAction()
    ensures StopsAtOnce(log + [e], from, env)
  {
  }

  lemma {:induction false} SweepStops(s: State, targets: seq<Matched>, env: Env, from: nat)
    requires from < |s.log| && StopsAtOnce(s.log, from, env) && s.log[|s.log| - 1] != ReadFlag(true)
    ensures StopsAtOnce(Sweep(s, targets, env).log, from, env)
    decreases |targets|
  {
    hide StopsAtOnce;
    if targets != [] {
      LookStops(s.log, from, env);
      if !env.Flag(s.Now()) {
        var s1, m := Observe(s, env), targets[0];
        if s.dryRun {
          SweepStops(s1, targets[1..], env, from);
        } else {
          var r := env.strike(s1.Now());
          ActionStops(s1.log, from, env, StrikeCall(RuleAction(s.cfg, m), m.container.id, s.cfg.stopTimeout, r));
          SweepStops(StrikeOne(s1, m, env), targets[1..], env, from);
        }
      }
    }
  }

  /** A tick does nothing more once it has seen the stop flag set. */
  lemma TickStops(s: State, env: Env)
    ensures StopsAtOnce(Tick(s, env).log, s.Now(), env) && s.log < Tick(s, env).log
  {
    hide StopsAtOnce, Sweep, MatchAll, ActionBudget;
    var from := s.Now();
    NothingSeen(s.log, env);
    LookStops(s.log, from, env);
    TickGrows(s, env);
    if !env.Flag(s.Now()) {
      var s1 := Observe(s, env);
      var reply := env.list(s1.Now());
      ActionStops(s1.log, from, env, ListCall(reply));
      if reply.Listed? {
        var s2 := s1.Logged(ListCall(reply));
        LookStops(s2.log, from, env);
        if !env.Flag(s2.Now()) {
          var s3 := Observe(s2, env);
          ActionStops(s3.log, from, env, Roll);
          SweepStops(Rolled(s3), Selected(s3, MatchAll(reply.cs, s.cfg.targets)), env, from);
        }
      }
    }
  }

  lemma NothingSeen(log: seq<Event>, env: Env)
    ensures StopsAtOnce(log, |log|, env)
  {
  }

  /** A look that sees no stop can follow any steps of this kind; the flag is never cleared. */
  lemma LookGoesOn(log: seq<Event>, from: nat, env: Env)
    requires from <= |log| && StopsAtOnce(log, from, env) && !env.Flag(|log|)
    ensures StopsAtOnce(log + [ReadFlag(false)], from, env)
  {
  }

  lemma StopsJoin(log: seq<Event>, more: seq<Event>, from: nat, env: Env)
    requires from < |log| && StopsAtOnce(log, from, env) && log[|log| - 1] == ReadFlag(false)
    requires log < more && StopsAtOnce(more, |log|, env)
    ensures StopsAtOnce(more, from, env)
  {
    forall i | from <= i < |log| ensures more[i] == log[i] { }
  }
}
