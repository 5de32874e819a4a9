/** The bound of EngineRuns.ShutdownSafety is reached: exactly when an action begins after the stop flag is set, and
    that every action of every run can be the one. */
module EngineLateAction {
  import opened Wrappers
  import opened Config
  import opened Discovery
  import opened Chaos
  import opened EngineSpec
  import opened EngineRuns

  /** An action begins after the stop if and only if one begins at the very moment of it. */
  lemma LateActionIff(cfg: Config, dryRunOverride: Option<bool>, discoverOnly: bool, env: Env, plan: seq<Move>)
    requires env.stopAt.Some?
    ensures var log, t := Run(Initial(cfg, dryRunOverride, discoverOnly), env, plan).log, env.stopAt.value;
      (exists i :: t <= i < |log| && log[i].IsAction()) <==> t < |log| && log[t].IsAction()
  {
    hide Run;
    var log := Run(Initial(cfg, dryRunOverride, discoverOnly), env, plan).log;
    if i: nat :| env.stopAt.value <= i < |log| && log[i].IsAction() {
      ShutdownSafety(cfg, dryRunOverride, discoverOnly, env, plan, i);
    }
  }

  // ---- two environments that part at one moment ----

  /** The environments differ at most in the stop flag, and only from moment `i` on. */
  ghost predicate SameUntil(env: Env, other: Env, i: nat) {
    && other == env.(stopAt := other.stopAt)
    && !(env.stopAt.Some? && env.stopAt.value < i) && !(other.stopAt.Some? && other.stopAt.value < i)
  }

  /** The states are the same until moment `i` has passed; from then on their logs agree up to it. */
  predicate Matching(s: State, t: State, i: nat) {
    || (s == t && s.Now() <= i)
    || (i < s.Now() && i < t.Now() && s.log[..i + 1] == t.log[..i + 1])
  }

  /** If moment `i` has passed, it was not a look at the stop flag. */
  predicate ActsAt(s: State, i: nat) { i < s.Now() ==> s.log[i].IsAction() }

  lemma BothGrow(s: State, a: State, b: State, i: nat)
    requires i < s.Now() && s.log <= a.log && s.log <= b.log
    ensures Matching(a, b, i)
  {
  }

  lemma {:induction false} SweepGrows(s: State, targets: seq<Matched>, env: Env)
    ensures s.log <= Sweep(s, targets, env).log
    ensures targets != [] ==> Observe(s, env).log <= Sweep(s, targets, env).log
    decreases |targets|
  {
    if targets != [] && !env.Flag(s.Now()) {
      var s1 := Observe(s, env);
      SweepGrows(if s.dryRun then s1 else StrikeOne(s1, targets[0], env), targets[1..], env);
    }
  }

  lemma ArmGrows(s: State, matched: seq<Matched>, env: Env)
    ensures s.log <= Arm(s, matched, env).log && Observe(s, env).log <= Arm(s, matched, env).log
  {
    hide Sweep, ActionBudget;
    var s1 := Observe(s, env);
    SweepGrows(Rolled(s1), Selected(s1, matched), env);
  }

  lemma TickGrows(s: State, env: Env)
    ensures s.log <= Tick(s, env).log && Observe(s, env).log <= Tick(s, env).log
    ensures env.list(s.Now() + 1).Listed? && !env.Flag(s.Now()) ==>
      Observe(s, env).Logged(ListCall(env.list(s.Now() + 1))).log <= Tick(s, env).log
  {
    hide Arm, MatchAll;
    var s1 := Observe(s, env);
    var reply := env.list(s1.Now());
    if reply.Listed? { ArmGrows(s1.Logged(ListCall(reply)), MatchAll(reply.cs, s.cfg.targets), env); }
  }

  lemma StepGrows(s: State, env: Env, move: Move)
    ensures s.log <= Step(s, env, move).log
  {
    hide Tick;
    TickGrows(s, env);
  }

  lemma {:induction false} SweepMatches(s: State, targets: seq<Matched>, env: Env, other: Env, i: nat)
    requires SameUntil(env, other, i) && s.Now() <= i && ActsAt(Sweep(s, targets, env), i)
    ensures Matching(Sweep(s, targets, env), Sweep(s, targets, other), i)
    decreases |targets|
  {
    if targets != [] {
      SweepGrows(s, targets, env);
      assert Observe(s, env).log[s.Now()].ReadFlag?;
      assert s.Now() < i && Observe(s, env) == Observe(s, other);
      var s1, rest := Observe(s, env), targets[1..];
      var s2 := if s.dryRun then s1 else StrikeOne(s1, targets[0], env);
      if s2.Now() <= i {
        SweepMatches(s2, rest, env, other, i);
      } else {
        SweepGrows(s2, rest, env);
        SweepGrows(s2, rest, other);
        BothGrow(s2, Sweep(s2, rest, env), Sweep(s2, rest, other), i);
      }
    }
  }

  lemma ArmMatches(s: State, matched: seq<Matched>, env: Env, other: Env, i: nat)
    requires SameUntil(env, other, i) && s.Now() <= i && ActsAt(Arm(s, matched, env), i)
    ensures Matching(Arm(s, matched, env), Arm(s, matched, other), i)
  {
    hide Sweep, ActionBudget;
    ArmGrows(s, matched, env);
    assert Observe(s, env).log[s.Now()].ReadFlag?;
    assert s.Now() < i && Observe(s, env) == Observe(s, other);
    if !s.discoverOnly {
      var s1 := Observe(s, env);
      var s2, selected := Rolled(s1), Selected(s1, matched);
      if s2.Now() <= i {
        if Fires(s1, env) { SweepMatches(s2, selected, env, other, i); }
      } else {
        SweepGrows(s2, selected, env);
        SweepGrows(s2, selected, other);
      }
    }
  }

  lemma TickMatches(s: State, env: Env, other: Env, i: nat)
    requires SameUntil(env, other, i) && s.Now() <= i && ActsAt(Tick(s, env), i)
    ensures Matching(Tick(s, env), Tick(s, other), i)
  {
    hide Arm, MatchAll;
    TickGrows(s, env);
    assert Observe(s, env).log[s.Now()].ReadFlag?;
    assert s.Now() < i && Observe(s, env) == Observe(s, other);
    var s1 := Observe(s, env);
    var reply := env.list(s1.Now());
    if reply.Listed? {
      var s2, matched := s1.Logged(ListCall(reply)), MatchAll(reply.cs, s.cfg.targets);
      if s2.Now() <= i {
        if matched != [] { ArmMatches(s2, matched, env, other, i); }
      } else {
        ArmGrows(s2, matched, env);
        ArmGrows(s2, matched, other);
      }
    }
  }

  lemma StepMatches(s: State, move: Move, env: Env, other: Env, i: nat)
    requires SameUntil(env, other, i) && s.Now() <= i && ActsAt(Step(s, env, move), i)
    ensures Matching(Step(s, env, move), Step(s, other, move), i)
  {
    hide Tick;
    match move
    case DoTick => TickMatches(s, env, other, i);
    case Look => assert Observe(s, env).log[s.Now()].ReadFlag?;
    case Force(_) =>
  }

  lemma {:induction false} RunMatches(s: State, plan: seq<Move>, env: Env, other: Env, i: nat)
    requires SameUntil(env, other, i) && s.Now() <= i && ActsAt(Run(s, env, plan), i)
    ensures Matching(Run(s, env, plan), Run(s, other, plan), i)
  {
    hide Step;
    if plan != [] {
      var init, move := plan[..|plan| - 1], plan[|plan| - 1];
      var a, b := Run(s, env, init), Run(s, other, init);
      StepGrows(a, env, move);
      RunMatches(s, init, env, other, i);
      if a == b && a.Now() <= i {
        StepMatches(a, move, env, other, i);
      } else {
        StepGrows(b, other, move);
      }
    }
  }

  /** Any action of any run can be the one after the stop: in the environment that differs only in setting the
      stop flag at its moment, the run is the same up to and including it. */
  lemma LateActionHappens(cfg: Config, dryRunOverride: Option<bool>, discoverOnly: bool, env: Env, plan: seq<Move>,
                          i: nat)
    requires i < |Run(Initial(cfg, dryRunOverride, discoverOnly), env, plan).log|
    requires Run(Initial(cfg, dryRunOverride, discoverOnly), env, plan).log[i].IsAction()
    requires env.stopAt.Some? ==> i <= env.stopAt.value
    ensures var s := Initial(cfg, dryRunOverride, discoverOnly);
      var log, late := Run(s, env, plan).log, Run(s, env.(stopAt := Some(i)), plan).log;
      i < |late| && late[..i + 1] == log[..i + 1] && late[i].IsAction()
  {
    hide Run;
    var s := Initial(cfg, dryRunOverride, discoverOnly);
    RunMatches(s, plan, env, env.(stopAt := Some(i)), i);
    assert Run(s, env, plan).log[..i + 1][i] == Run(s, env, plan).log[i];
  }
}
