/** Safety of whole runs of the engine, for every environment: when the stop flag is set, what Docker answers
    and what the dice show. */
module EngineRuns {
  import opened Wrappers
  import opened Config
  import opened Discovery
  import opened Chaos
  import opened EngineSpec

  // ---- shutdown safety ----

  /** Every flag read tells the truth, and every action directly follows a read that saw no stop. */
  predicate Guarded(log: seq<Event>, env: Env) {
    && (forall i :: 0 <= i < |log| && log[i].ReadFlag? ==> log[i].set_ == env.Flag(i))
    && (forall i :: 0 <= i < |log| && log[i].IsAction() ==> 0 < i && log[i - 1] == ReadFlag(false))
  }

  lemma ObserveGuarded(s: State, env: Env)
    requires Guarded(s.log, env)
    ensures Guarded(Observe(s, env).log, env)
  {
  }

  lemma ActionGuarded(s: State, e: Event, env: Env)
    requires Guarded(s.log, env) && e.IsAction()
    requires s.log != [] && s.log[|s.log| - 1] == ReadFlag(false)
    ensures Guarded(s.Logged(e).log, env)
  {
  }

  lemma {:induction false} SweepGuarded(s: State, targets: seq<Matched>, env: Env)
    requires Guarded(s.log, env)
    ensures Guarded(Sweep(s, targets, env).log, env)
    decreases |targets|
  {
    hide Guarded;
    if targets != [] {
      ObserveGuarded(s, env);
      if !env.Flag(s.Now()) {
        var s1 := Observe(s, env);
        if s.dryRun {
          SweepGuarded(s1, targets[1..], env);
        } else {
          var r := env.strike(s1.Now());
          var m := targets[0];
          ActionGuarded(s1, StrikeCall(RuleAction(s.cfg, m), m.container.id, s.cfg.stopTimeout, r), env);
          SweepGuarded(StrikeOne(s1, targets[0], env), targets[1..], env);
        }
      }
    }
  }

  lemma ArmGuarded(s: State, matched: seq<Matched>, env: Env)
    requires Guarded(s.log, env)
    ensures Guarded(Arm(s, matched, env).log, env)
  {
    hide Guarded, Sweep, Selected;
    ObserveGuarded(s, env);
    if !env.Flag(s.Now()) {
      var s1 := Observe(s, env);
      ActionGuarded(s1, Roll, env);
      SweepGuarded(Rolled(s1), Selected(s1, matched), env);
    }
  }

  lemma TickGuarded(s: State, env: Env)
    requires Guarded(s.log, env)
    ensures Guarded(Tick(s, env).log, env)
  {
    hide Guarded, Arm, MatchAll;
    ObserveGuarded(s, env);
    if !env.Flag(s.Now()) {
      var s1 := Observe(s, env);
      var reply := env.list(s1.Now());
      ActionGuarded(s1, ListCall(reply), env);
      if reply.Listed? { ArmGuarded(s1.Logged(ListCall(reply)), MatchAll(reply.cs, s.cfg.targets), env); }
    }
  }

  lemma {:induction false} RunGuarded(s: State, env: Env, plan: seq<Move>)
    requires Guarded(s.log, env)
    ensures Guarded(Run(s, env, plan).log, env)
  {
    hide Guarded, Tick, Observe;
    if plan != [] {
      var before := Run(s, env, plan[..|plan| - 1]);
      RunGuarded(s, env, plan[..|plan| - 1]);
      TickGuarded(before, env);
      ObserveGuarded(before, env);
    }
  }

  /** Over any run, at most one action of any kind (a list, stop or kill call, or a roll) begins once the
      stop flag is set, and it is the one whose guard had already been passed. */
  lemma ShutdownSafety(cfg: Config, dryRunOverride: Option<bool>, discoverOnly: bool, env: Env, plan: seq<Move>, i: nat)
    requires env.stopAt.Some?
    ensures var log := Run(Initial(cfg, dryRunOverride, discoverOnly), env, plan).log;
      env.stopAt.value <= i < |log| && log[i].IsAction() ==>
        i == env.stopAt.value && 0 < i && log[i - 1] == ReadFlag(false)
  {
    hide Run;
    var s := Initial(cfg, dryRunOverride, discoverOnly);
    RunGuarded(s, env, plan);
    var log := Run(s, env, plan).log;
    if i < |log| && log[i].IsAction() { assert log[i - 1].ReadFlag?; }
  }

  // ---- counting ----

  datatype Kind = Lists | FailedLists | Rolls | Calls | Strikes | Skips | Failures

  predicate Is(e: Event, kind: Kind) {
    match kind
    case Lists => e.ListCall?
    case FailedLists => e.ListCall? && e.reply.ListFailed?
    case Rolls => e.Roll?
    case Calls => e.StrikeCall?
    case Strikes => e.StrikeCall? && e.outcome.ok
    case Skips => e.StrikeCall? && !e.outcome.ok && e.outcome.httpStatus in {404, 409}
    case Failures => e.StrikeCall? && !e.outcome.ok && e.outcome.httpStatus !in {404, 409}
  }

  function Count(log: seq<Event>, kind: Kind): nat {
    if log == [] then 0 else Count(log[..|log| - 1], kind) + if Is(log[|log| - 1], kind) then 1 else 0
  }

  lemma CountLogged(log: seq<Event>, e: Event, kind: Kind)
    ensures Count(log + [e], kind) == Count(log, kind) + if Is(e, kind) then 1 else 0
  {
    assert (log + [e])[..|log|] == log;
  }

  /** The counters agree with the log; budget and mode are respected. */
  ghost predicate Accounts(s: State) {
    && s.rolls == Count(s.log, Rolls)
    && s.strikes == Count(s.log, Strikes) == s.used
    && s.errors == Count(s.log, Failures) + Count(s.log, FailedLists)
    && Count(s.log, Calls) == Count(s.log, Strikes) + Count(s.log, Skips) + Count(s.log, Failures)
    && (s.cfg.maxPerRun > 0 ==> s.used <= s.cfg.maxPerRun)
    && (s.dryRun || s.discoverOnly ==> Count(s.log, Calls) == 0)
  }

  predicate SameSetup(s: State, t: State) {
    && s.cfg == t.cfg && s.dryRun == t.dryRun && s.discoverOnly == t.discoverOnly && s.probability == t.probability
  }

  lemma LoggedCounts(s: State, e: Event)
    ensures forall kind: Kind :: Count(s.Logged(e).log, kind) == Count(s.log, kind) + if Is(e, kind) then 1 else 0
  {
    hide Count, Is;
    forall kind: Kind ensures Count(s.Logged(e).log, kind) == Count(s.log, kind) + if Is(e, kind) then 1 else 0 {
      CountLogged(s.log, e, kind);
    }
  }

  lemma ObserveAccounts(s: State, env: Env)
    requires Accounts(s)
    ensures Accounts(Observe(s, env)) && Count(Observe(s, env).log, Calls) == Count(s.log, Calls)
    ensures Count(Observe(s, env).log, Rolls) == Count(s.log, Rolls)
  {
    hide Count;
    LoggedCounts(s, ReadFlag(env.Flag(s.Now())));
  }

  lemma StrikeAccounts(s: State, m: Matched, env: Env)
    requires Accounts(s) && !s.dryRun && !s.discoverOnly
    requires s.cfg.maxPerRun > 0 ==> s.used < s.cfg.maxPerRun
    ensures var t := StrikeOne(s, m, env);
      && Accounts(t) && SameSetup(s, t) && s.used <= t.used <= s.used + 1 && t.rolls == s.rolls
      && Count(t.log, Calls) == Count(s.log, Calls) + 1
  {
    hide Count;
    LoggedCounts(s, StrikeCall(RuleAction(s.cfg, m), m.container.id, s.cfg.stopTimeout, env.strike(s.Now())));
  }

  /** A sweep over targets within the budget keeps the accounts and makes at most one call per target. */
  lemma {:induction false} SweepAccounts(s: State, targets: seq<Matched>, env: Env)
    requires Accounts(s) && !s.discoverOnly
    requires s.cfg.maxPerRun > 0 ==> s.used + |targets| <= s.cfg.maxPerRun || targets == []
    ensures var t := Sweep(s, targets, env);
      && Accounts(t) && SameSetup(s, t) && t.rolls == s.rolls
      && Count(t.log, Calls) <= Count(s.log, Calls) + |targets|
    decreases |targets|
  {
    hide Accounts, Count, StrikeOne;
    if targets != [] {
      ObserveAccounts(s, env);
      var s1 := Observe(s, env);
      if !env.Flag(s.Now()) {
        if s.dryRun {
          SweepAccounts(s1, targets[1..], env);
        } else {
          StrikeAccounts(s1, targets[0], env);
          SweepAccounts(StrikeOne(s1, targets[0], env), targets[1..], env);
        }
      }
    }
  }

  lemma RollAccounts(s: State)
    requires Accounts(s)
    ensures Accounts(Rolled(s)) && Count(Rolled(s).log, Calls) == Count(s.log, Calls)
  {
    hide Count;
    LoggedCounts(s, Roll);
  }

  lemma BudgetFits(s: State, matched: seq<Matched>)
    requires Accounts(s)
    ensures s.cfg.maxPerRun > 0 ==> s.used + |Selected(s, matched)| <= s.cfg.maxPerRun || Selected(s, matched) == []
    ensures |Selected(s, matched)| <= Allowance(s.cfg.maxPerCycle, s.cfg.maxPerRun, s.used)
  {
    hide Count;
  }

  lemma ArmAccounts(s: State, matched: seq<Matched>, env: Env)
    requires Accounts(s)
    ensures var t := Arm(s, matched, env);
      && Accounts(t) && SameSetup(s, t)
      && Count(t.log, Calls) <= Count(s.log, Calls) + Allowance(s.cfg.maxPerCycle, s.cfg.maxPerRun, s.used)
      && t.rolls == s.rolls + if env.Flag(s.Now()) || s.discoverOnly then 0 else 1
  {
    hide Accounts, Count, Sweep, Selected, Allowance, Fires;
    ObserveAccounts(s, env);
    var s1 := Observe(s, env);
    if !(env.Flag(s.Now()) || s.discoverOnly) {
      RollAccounts(s1);
      BudgetFits(s1, matched);
      SweepAccounts(Rolled(s1), Selected(s1, matched), env);
    }
  }

  /** The tick reaches the dice: neither guard saw a stop, discovery succeeded, something matched, and the
      engine is not in discover-only mode. */
  predicate ReachesDice(s: State, env: Env) {
    var t := s.Now();
    && !env.Flag(t) && env.list(t + 1).Listed?
    && MatchAll(env.list(t + 1).cs, s.cfg.targets) != []
    && !env.Flag(t + 2) && !s.discoverOnly
  }

  /** One tick keeps the accounts; its stop and kill calls number at most the cycle cap and the run budget
      left; and it rolls exactly when it reaches the dice. */
  lemma TickAccounts(s: State, env: Env)
    requires Accounts(s)
    ensures var t := Tick(s, env);
      && Accounts(t) && SameSetup(s, t)
      && Count(t.log, Calls) <= Count(s.log, Calls) + Allowance(s.cfg.maxPerCycle, s.cfg.maxPerRun, s.used)
      && t.rolls == s.rolls + if ReachesDice(s, env) then 1 else 0
  {
    hide Count, Arm, MatchAll, Allowance;
    ObserveAccounts(s, env);
    if !env.Flag(s.Now()) {
      var s1 := Observe(s, env);
      var reply := env.list(s1.Now());
      LoggedCounts(s1, ListCall(reply));
      if reply.Listed? {
        var s2 := s1.Logged(ListCall(reply));
        ArmAccounts(s2, MatchAll(reply.cs, s.cfg.targets), env);
      }
    }
  }

  /** How many ticks of a run reach the dice. */
  function DiceTicks(s: State, env: Env, plan: seq<Move>): nat {
    if plan == [] then 0
    else
      var before := plan[..|plan| - 1];
      DiceTicks(s, env, before) + if plan[|plan| - 1].DoTick? && ReachesDice(Run(s, env, before), env) then 1 else 0
  }

  /** Blast radius and conservation over any run: see `Accounts` for the balance. */
  lemma {:induction false} RunAccounts(cfg: Config, dryRunOverride: Option<bool>, discoverOnly: bool, env: Env,
                                       plan: seq<Move>)
    ensures var s := Run(Initial(cfg, dryRunOverride, discoverOnly), env, plan);
      && Accounts(s) && SameSetup(Initial(cfg, dryRunOverride, discoverOnly), s)
      && s.rolls == DiceTicks(Initial(cfg, dryRunOverride, discoverOnly), env, plan)
  {
    hide Accounts, Tick, ReachesDice;
    var s := Initial(cfg, dryRunOverride, discoverOnly);
    if plan == [] {
      InitialAccounts(s);
    } else {
      var init := plan[..|plan| - 1];
      RunAccounts(cfg, dryRunOverride, discoverOnly, env, init);
      var before := Run(s, env, init);
      TickAccounts(before, env);
      ObserveAccounts(before, env);
      if plan[|plan| - 1].Force? { ForceAccounts(before, plan[|plan| - 1].fires); }
    }
  }

  lemma ForceAccounts(s: State, fires: bool)
    requires Accounts(s)
    ensures Accounts(s.(forced := Some(fires)))
  {
  }

  lemma InitialAccounts(s: State)
    requires s.log == [] && s.rolls == s.strikes == s.errors == 0 && s.used == 0
    ensures Accounts(s)
  {
  }

  // ---- which containers are struck ----

  /** The ids named in stop and kill calls, in order. */
  function Struck(log: seq<Event>): seq<string> {
    if log == [] then []
    else Struck(log[..|log| - 1]) + if log[|log| - 1].StrikeCall? then [log[|log| - 1].id] else []
  }

  function Ids(ms: seq<Matched>): seq<string> { seq(|ms|, i requires 0 <= i < |ms| => ms[i].container.id) }

  lemma StruckLogged(log: seq<Event>, e: Event)
    ensures Struck(log + [e]) == Struck(log) + if e.StrikeCall? then [e.id] else []
  {
    assert (log + [e])[..|log|] == log;
  }

  /** A sweep attempts an initial segment of its targets: none in dry-run, all if no stop is seen. */
  lemma {:induction false} SweepAttempts(s: State, targets: seq<Matched>, env: Env) returns (k: nat)
    ensures k <= |targets| && Struck(Sweep(s, targets, env).log) == Struck(s.log) + Ids(targets[..k])
    ensures s.dryRun ==> k == 0
    ensures !s.dryRun && !env.Flag(Sweep(s, targets, env).Now()) ==> k == |targets|
    ensures Sweep(s, targets, env).Now() >= s.Now()
    decreases |targets|
  {
    hide Struck;
    k := 0;
    assert Ids(targets[..0]) == [] && Struck(s.log) + [] == Struck(s.log);
    if targets != [] {
      StruckLogged(s.log, ReadFlag(env.Flag(s.Now())));
      var s1 := Observe(s, env);
      if !env.Flag(s.Now()) {
        var m, rest := targets[0], targets[1..];
        if s.dryRun {
          var j := SweepAttempts(s1, rest, env);
          assert Ids(rest[..0]) == [];
        } else {
          var r := env.strike(s1.Now());
          StruckLogged(s1.log, StrikeCall(RuleAction(s.cfg, m), m.container.id, s.cfg.stopTimeout, r));
          var j := SweepAttempts(StrikeOne(s1, m, env), rest, env);
          k := j + 1;
          assert targets[..k] == [m] + rest[..j];
          assert Ids(targets[..k]) == [m.container.id] + Ids(rest[..j]);
        }
      }
    }
  }

  /** The matching containers of the list that a tick starting in `s` receives. */
  function Armed(s: State, env: Env): seq<Matched> {
    match env.list(s.Now() + 1) case ListFailed => [] case Listed(cs) => MatchAll(cs, s.cfg.targets)
  }

  /** The gate of a tick that starts in `s`: a forced result, or the roll at the fourth step. */
  predicate GateFires(s: State, env: Env) {
    if s.forced.Some? then s.forced.value else env.dice(s.Now() + 3) < s.probability
  }

  /** The containers a tick attempts are an initial segment of the matching containers, in match order: none
      if the tick does not reach the dice or the gate does not fire, and everything the budget allows if it
      does and no stop is seen. */
  lemma TickAttempts(s: State, env: Env) returns (k: nat)
    ensures k <= |Armed(s, env)| && Struck(Tick(s, env).log) == Struck(s.log) + Ids(Armed(s, env)[..k])
    ensures !(ReachesDice(s, env) && GateFires(s, env)) || s.dryRun ==> k == 0
    ensures ReachesDice(s, env) && GateFires(s, env) && !s.dryRun && !env.Flag(Tick(s, env).Now()) ==>
      k == |Selected(s, Armed(s, env))|
  {
    hide Struck, Sweep, MatchAll, ActionBudget;
    k := 0;
    var s1 := Observe(s, env);
    StruckLogged(s.log, ReadFlag(env.Flag(s.Now())));
    var reply := env.list(s1.Now());
    StruckLogged(s1.log, ListCall(reply));
    assert Ids(Armed(s, env)[..0]) == [] && Struck(s.log) + [] == Struck(s.log);
    if reply.Listed? {
      var matched := MatchAll(reply.cs, s.cfg.targets);
      assert Ids(matched[..0]) == [] && Struck(s.log) + [] == Struck(s.log);
      var s2 := s1.Logged(ListCall(reply));
      var s3 := Observe(s2, env);
      StruckLogged(s2.log, ReadFlag(env.Flag(s2.Now())));
      StruckLogged(s3.log, Roll);
      var selected := Selected(s3, matched);
      var j := SweepAttempts(Rolled(s3), selected, env);
      assert selected[..j] == matched[..j];
      if !env.Flag(s.Now()) && matched != [] && !env.Flag(s2.Now()) && !s.discoverOnly && Fires(s3, env) { k := j; }
    }
  }

  // ---- the gate ----

  lemma {:induction false} SweepKeepsGate(s: State, targets: seq<Matched>, env: Env)
    ensures var t := Sweep(s, targets, env); t.forced == s.forced && t.rollerRolls == s.rollerRolls
    decreases |targets|
  {
    if targets != [] && !env.Flag(s.Now()) {
      var s1 := Observe(s, env);
      SweepKeepsGate(if s.dryRun then s1 else StrikeOne(s1, targets[0], env), targets[1..], env);
    }
  }

  /** A forced result is used by exactly the next tick that reaches the dice, and replaces its roll. */
  lemma TickGate(s: State, env: Env)
    ensures var t := Tick(s, env);
      && t.forced == (if ReachesDice(s, env) then None else s.forced)
      && t.rollerRolls == s.rollerRolls + if ReachesDice(s, env) && s.forced.None? then 1 else 0
  {
    hide Sweep, MatchAll, ActionBudget;
    var s1 := Observe(s, env);
    var reply := env.list(s1.Now());
    if reply.Listed? {
      var s3 := Observe(s1.Logged(ListCall(reply)), env);
      SweepKeepsGate(Rolled(s3), Selected(s3, MatchAll(reply.cs, s.cfg.targets)), env);
    }
  }

  /** Rolls lie in [0, 1), so a probability of zero never fires and a probability of one always does. */
  lemma CertainGates(cfg: Config, dryRunOverride: Option<bool>, discoverOnly: bool, env: Env, plan: seq<Move>)
    requires forall now: nat :: 0.0 <= env.dice(now) < 1.0
    ensures var s := Run(Initial(cfg, dryRunOverride, discoverOnly), env, plan);
      s.forced.None? ==>
        && (cfg.chaosProbability <= 0.0 ==> !GateFires(s, env))
        && (cfg.chaosProbability >= 1.0 ==> GateFires(s, env))
  {
    hide Run, Accounts;
    RunAccounts(cfg, dryRunOverride, discoverOnly, env, plan);
  }
}
