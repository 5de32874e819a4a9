/** From configuration text and Docker's answers to the requests that are sent: every strike of every run is
    aimed at a listed container by the rule that matched it, and its request path says exactly that. */
module EndToEnd {
  import opened Wrappers
  import opened JsonSyntax
  import opened Config
  import opened Discovery
  import opened Chaos
  import opened DockerApi
  import opened EngineSpec

  /** The request path of a strike. */
  function PathFor(action: Action, id: string, timeout: int): Option<string> {
    match action case Stop => StopContainerPath(id, timeout) case Kill => KillContainerPath(id)
  }

  /** The path exists, and reading it back gives the id, the action and, for a stop, the timeout. */
  predicate Addresses(action: Action, id: string, timeout: int) {
    && timeout >= 0 && PathFor(action, id, timeout).Some?
    && ParsePath(PathFor(action, id, timeout).value)
       == Some(match action case Stop => StopOrder(id, timeout) case Kill => KillOrder(id))
  }

  lemma ValidIdsAddress(cfg: Config, action: Action, id: string)
    requires Sane(cfg) && IsValidContainerId(id)
    ensures Addresses(action, id, cfg.stopTimeout)
  {
    hide IsValidContainerId, StopContainerPath, KillContainerPath, ParsePath;
    StopPathRoundTrip(id, cfg.stopTimeout);
    KillPathRoundTrip(id);
  }

  // ---- one tick's selection ----

  /** `m` is container `k` of the list with the least rule that hits it. */
  predicate FromList(m: Matched, cs: seq<Container>, rules: seq<TargetRule>) {
    exists k :: 0 <= k < |cs| && MatchAt(cs, rules, k, m)
  }

  predicate AllFromList(ms: seq<Matched>, cs: seq<Container>, rules: seq<TargetRule>) {
    forall i :: 0 <= i < |ms| ==> FromList(ms[i], cs, rules)
  }

  lemma MatchesComeFromList(cs: seq<Container>, rules: seq<TargetRule>)
    ensures AllFromList(MatchAll(cs, rules), cs, rules)
  {
    hide MatchAt;
    var ms := MatchAll(cs, rules);
    var source := MatchingIsSelection(cs, rules, |cs|);
    forall i | 0 <= i < |ms| ensures FromList(ms[i], cs, rules) {
      assert MatchAt(cs, rules, source[i], ms[i]);
    }
  }

  /** For an accepted configuration and an accepted list, every selected target carries a rule index in
      range, a valid id and a request path that reads back as that strike. */
  lemma SelectedTargetsAreSound(root: Json, value: string -> real, body: string, inRange: string -> bool,
                                used: int, i: nat)
    requires Validated(root, DEFAULTS, value).Some? && ContainerList(body, inRange).Some?
    ensures var cfg, cs := Validated(root, DEFAULTS, value).value, ContainerList(body, inRange).value;
      var selected := ActionBudget(MatchAll(cs, cfg.targets), cfg.maxPerCycle, cfg.maxPerRun, used);
      i < |selected| ==>
        && LeastHit(selected[i].container, cfg.targets, selected[i].ruleIndex) && selected[i].container in cs
        && IsValidContainerId(selected[i].container.id)
        && Addresses(cfg.targets[selected[i].ruleIndex].action, selected[i].container.id, cfg.stopTimeout)
  {
    hide Validated, ContainerList, Matches, Sane, Addresses, IsValidContainerId, LeastHit, CleanNames;
    var cfg, cs := Validated(root, DEFAULTS, value).value, ContainerList(body, inRange).value;
    AcceptedIsSane(root, value);
    ListedContainersAreClean(body, inRange);
    MatchesComeFromList(cs, cfg.targets);
    var ms := MatchAll(cs, cfg.targets);
    if i < |ActionBudget(ms, cfg.maxPerCycle, cfg.maxPerRun, used)| {
      assert FromList(ms[i], cs, cfg.targets);
      RuleInRange(ms[i].container, cfg.targets, ms[i].ruleIndex);
      ValidIdsAddress(cfg, cfg.targets[ms[i].ruleIndex].action, ms[i].container.id);
    }
  }

  lemma RuleInRange(c: Container, rules: seq<TargetRule>, r: nat)
    requires LeastHit(c, rules, r)
    ensures r < |rules|
  {
  }

  // ---- whole runs ----

  /** The last list received before step `i` is the one at step `j`. */
  predicate LastList(log: seq<Event>, i: nat, j: nat, cs: seq<Container>) {
    j < i <= |log| && log[j] == ListCall(Listed(cs)) && forall k :: j < k < i ==> !log[k].ListCall?
  }

  /** The call `e` strikes a container of `cs`, as the first rule that hits it demands. */
  ghost predicate Demanded(e: Event, cs: seq<Container>, cfg: Config) {
    && e.StrikeCall? && e.timeout == cfg.stopTimeout
    && exists m :: FromList(m, cs, cfg.targets) && e.id == m.container.id && e.action == RuleAction(cfg, m)
  }

  /** Every strike is demanded by the last list received before it. */
  ghost predicate Justified(log: seq<Event>, cfg: Config) {
    forall i :: 0 <= i < |log| && log[i].StrikeCall? ==>
      exists j, cs :: LastList(log, i, j, cs) && Demanded(log[i], cs, cfg)
  }

  lemma JustifiedMore(log: seq<Event>, e: Event, cfg: Config)
    requires Justified(log, cfg)
    requires e.StrikeCall? ==> exists j, cs :: LastList(log, |log|, j, cs) && Demanded(e, cs, cfg)
    ensures Justified(log + [e], cfg)
  {
    hide Demanded;
    forall i | 0 <= i <= |log| && (log + [e])[i].StrikeCall?
      ensures exists j, cs :: LastList(log + [e], i, j, cs) && Demanded((log + [e])[i], cs, cfg)
    {
      var j, cs :| LastList(log, i, j, cs) && Demanded((log + [e])[i], cs, cfg);
      assert LastList(log + [e], i, j, cs);
    }
  }

  lemma {:induction false} SweepJustified(s: State, targets: seq<Matched>, env: Env, j: nat, cs: seq<Container>)
    requires Justified(s.log, s.cfg) && LastList(s.log, s.Now(), j, cs) && AllFromList(targets, cs, s.cfg.targets)
    ensures Justified(Sweep(s, targets, env).log, s.cfg)
    decreases |targets|
  {
    hide Justified, FromList;
    if targets != [] {
      JustifiedMore(s.log, ReadFlag(env.Flag(s.Now())), s.cfg);
      if !env.Flag(s.Now()) {
        var s1 := Observe(s, env);
        if s.dryRun {
          SweepJustified(s1, targets[1..], env, j, cs);
        } else {
          var m := targets[0];
          var e := StrikeCall(RuleAction(s.cfg, m), m.container.id, s.cfg.stopTimeout, env.strike(s1.Now()));
          assert FromList(m, cs, s.cfg.targets);
          assert LastList(s1.log, s1.Now(), j, cs) && Demanded(e, cs, s.cfg);
          JustifiedMore(s1.log, e, s.cfg);
          SweepJustified(StrikeOne(s1, m, env), targets[1..], env, j, cs);
        }
      }
    }
  }

  lemma ArmJustified(s: State, matched: seq<Matched>, env: Env, j: nat, cs: seq<Container>)
    requires Justified(s.log, s.cfg) && LastList(s.log, s.Now(), j, cs) && AllFromList(matched, cs, s.cfg.targets)
    ensures Justified(Arm(s, matched, env).log, s.cfg)
  {
    hide Justified, Sweep, FromList, ActionBudget;
    JustifiedMore(s.log, ReadFlag(env.Flag(s.Now())), s.cfg);
    if !(env.Flag(s.Now()) || s.discoverOnly) {
      var s1 := Observe(s, env);
      JustifiedMore(s1.log, Roll, s.cfg);
      SweepJustified(Rolled(s1), Selected(s1, matched), env, j, cs);
    }
  }

  lemma TickJustified(s: State, env: Env)
    requires Justified(s.log, s.cfg)
    ensures Justified(Tick(s, env).log, s.cfg)
  {
    hide Justified, Arm, MatchAll, AllFromList;
    JustifiedMore(s.log, ReadFlag(env.Flag(s.Now())), s.cfg);
    if !env.Flag(s.Now()) {
      var s1 := Observe(s, env);
      var reply := env.list(s1.Now());
      JustifiedMore(s1.log, ListCall(reply), s.cfg);
      if reply.Listed? {
        var s2 := s1.Logged(ListCall(reply));
        MatchesComeFromList(reply.cs, s.cfg.targets);
        ArmJustified(s2, MatchAll(reply.cs, s.cfg.targets), env, s1.Now(), reply.cs);
      }
    }
  }

  lemma {:induction false} SweepSetup(s: State, targets: seq<Matched>, env: Env)
    ensures Sweep(s, targets, env).cfg == s.cfg
    ensures forall i :: 0 <= i < |Sweep(s, targets, env).log| && Sweep(s, targets, env).log[i].ListCall? ==>
      i < |s.log| && Sweep(s, targets, env).log[i] == s.log[i]
    decreases |targets|
  {
    if targets != [] && !env.Flag(s.Now()) {
      var s1 := Observe(s, env);
      SweepSetup(if s.dryRun then s1 else StrikeOne(s1, targets[0], env), targets[1..], env);
    }
  }

  /** Every list in the log is what Docker answered at that moment. */
  ghost predicate ListsAreReplies(log: seq<Event>, env: Env) {
    forall i :: 0 <= i < |log| && log[i].ListCall? ==> log[i].reply == env.list(i)
  }

  lemma TickSetup(s: State, env: Env)
    requires ListsAreReplies(s.log, env)
    ensures Tick(s, env).cfg == s.cfg && ListsAreReplies(Tick(s, env).log, env)
  {
    hide Sweep, MatchAll, ActionBudget;
    var s1 := Observe(s, env);
    var reply := env.list(s1.Now());
    var s2 := s1.Logged(ListCall(reply));
    if reply.Listed? {
      var s3 := Observe(s2, env);
      SweepSetup(Rolled(s3), Selected(s3, MatchAll(reply.cs, s.cfg.targets)), env);
    }
  }

  lemma {:induction false} RunJustified(s: State, env: Env, plan: seq<Move>)
    requires Justified(s.log, s.cfg) && ListsAreReplies(s.log, env)
    ensures var t := Run(s, env, plan); t.cfg == s.cfg && Justified(t.log, s.cfg) && ListsAreReplies(t.log, env)
  {
    hide Justified, Tick;
    if plan != [] {
      var before := Run(s, env, plan[..|plan| - 1]);
      RunJustified(s, env, plan[..|plan| - 1]);
      TickJustified(before, env);
      TickSetup(before, env);
      JustifiedMore(before.log, ReadFlag(env.Flag(before.Now())), s.cfg);
    }
  }

  /** Docker's answers, as far as they are accepted, come out of the list parser. */
  ghost predicate ParsedReplies(env: Env) {
    forall t: nat :: env.list(t).Listed? ==>
      exists body, inRange :: ContainerList(body, inRange) == Some(env.list(t).cs)
  }

  /** Over any run under an accepted configuration, every strike is aimed at a container of the last list
      received, by the first rule that hits it; and its request path exists and reads back as that strike. */
  lemma EveryStrikeIsSound(root: Json, value: string -> real, dryRunOverride: Option<bool>, discoverOnly: bool,
                           env: Env, plan: seq<Move>, i: nat)
    returns (j: nat, m: Matched)
    requires Validated(root, DEFAULTS, value).Some? && ParsedReplies(env)
    ensures var cfg := Validated(root, DEFAULTS, value).value;
      var log := Run(Initial(cfg, dryRunOverride, discoverOnly), env, plan).log;
      i < |log| && log[i].StrikeCall? ==>
        && env.list(j).Listed? && LastList(log, i, j, env.list(j).cs)
        && m.container in env.list(j).cs && LeastHit(m.container, cfg.targets, m.ruleIndex)
        && log[i].id == m.container.id && log[i].action == cfg.targets[m.ruleIndex].action
        && Addresses(log[i].action, log[i].id, cfg.stopTimeout) && log[i].timeout == cfg.stopTimeout
  {
    hide Validated, ContainerList, Sane, Addresses, IsValidContainerId, LeastHit, CleanNames, Run;
    var cfg := Validated(root, DEFAULTS, value).value;
    AcceptedIsSane(root, value);
    var s := Initial(cfg, dryRunOverride, discoverOnly);
    RunJustified(s, env, plan);
    var log := Run(s, env, plan).log;
    if i < |log| && log[i].StrikeCall? {
      var j', cs :| LastList(log, i, j', cs) && Demanded(log[i], cs, cfg);
      var m' :| FromList(m', cs, cfg.targets) && log[i].id == m'.container.id && log[i].action == RuleAction(cfg, m');
      j, m := j', m';
      var body, inRange :| ContainerList(body, inRange) == Some(env.list(j).cs);
      ListedContainersAreClean(body, inRange);
      RuleInRange(m.container, cfg.targets, m.ruleIndex);
      ValidIdsAddress(cfg, log[i].action, log[i].id);
    } else {
      j, m := 0, Matched(Container("", [], "", "", ""), 0);
    }
  }
}
