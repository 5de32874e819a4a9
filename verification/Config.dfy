/** The configuration model and its validation (src/config.cpp, include/forger/config.hpp). A number's value is
    taken from `value`, an arbitrary conversion of lexemes to reals. */
module Config {
  import opened Wrappers
  import opened Text
  import opened JsonSyntax

  datatype Action = Stop | Kill

  datatype TargetRule = TargetRule(nameMatch: string, action: Action)

  datatype Config = Config(
    intervalSeconds: int, chaosProbability: real, dockerSocket: string, stopTimeout: int, dryRun: bool,
    maxPerCycle: int, maxPerRun: int, logLevel: string, targets: seq<TargetRule>)

  const DEFAULTS := Config(5, 0.3, "/var/run/docker.sock", 10, true, 1, 0, "info", [])

  // ---- trimming and case ----

  function TrimStart(s: string): string {
    if s != "" && IsWs(s[0]) then TrimStart(s[1..]) else s
  }

  function TrimEnd(s: string): string {
    if s != "" && IsWs(s[|s| - 1]) then TrimEnd(s[..|s| - 1]) else s
  }

  function Trim(s: string): string { TrimEnd(TrimStart(s)) }

  /** `t` is `s` without the white space around it. */
  predicate Trims(s: string, t: string, before: string, after: string) {
    && s == before + t + after && AllWs(before) && AllWs(after)
    && (t == "" || (!IsWs(t[0]) && !IsWs(t[|t| - 1])))
  }

  lemma {:induction false} TrimStartSound(s: string) returns (before: string)
    ensures s == before + TrimStart(s) && AllWs(before)
    ensures TrimStart(s) == "" || !IsWs(TrimStart(s)[0])
  {
    if s != "" && IsWs(s[0]) {
      var rest := TrimStartSound(s[1..]);
      before := [s[0]] + rest;
    } else {
      before := "";
    }
  }

  lemma {:induction false} TrimEndSound(s: string) returns (after: string)
    ensures s == TrimEnd(s) + after && AllWs(after)
    ensures TrimEnd(s) == "" || !IsWs(TrimEnd(s)[|TrimEnd(s)| - 1])
  {
    if s != "" && IsWs(s[|s| - 1]) {
      var rest := TrimEndSound(s[..|s| - 1]);
      after := rest + [s[|s| - 1]];
    } else {
      after := "";
    }
  }

  /** Trimming removes exactly the white space around the text, and it is the only way to do so. */
  lemma TrimIsExact(s: string, t: string, before: string, after: string)
    ensures exists b, a :: Trims(s, Trim(s), b, a)
    ensures Trims(s, t, before, after) ==> t == Trim(s)
  {
    var b := TrimStartSound(s);
    var a := TrimEndSound(TrimStart(s));
    assert Trims(s, Trim(s), b, a) by {
      if Trim(s) != "" { assert Trim(s)[0] == TrimStart(s)[0]; }
    }
    if Trims(s, t, before, after) { TrimUnique(s, t, before, after); }
  }

  lemma {:induction false} TrimUnique(s: string, t: string, before: string, after: string)
    requires Trims(s, t, before, after)
    ensures t == Trim(s)
    decreases |before| + |after|
  {
    if before != "" {
      assert s[1..] == before[1..] + t + after;
      TrimUnique(s[1..], t, before[1..], after);
    } else if after != "" && t != "" {
      var s', after' := s[..|s| - 1], after[..|after| - 1];
      assert s == t + after && s' == "" + t + after';
      TrimUnique(s', t, "", after');
    } else if t == "" {
      assert s == after;
      if s != "" {
        assert s[1..] == "" + "" + after[1..];
        TrimUnique(s[1..], "", "", after[1..]);
      }
    } else {
      assert s == t;
    }
  }

  function ActionFromString(s: string): Option<Action> {
    var v := Lower(Trim(s));
    if v == "stop" then Some(Stop) else if v == "kill" then Some(Kill) else None
  }

  // ---- fields ----

  /** `Json::find`. */
  function Lookup(root: Json, key: string): Option<Json> {
    if root.Obj? && key in root.members then Some(root.members[key]) else None
  }

  /** An integer field in a range; an absent field keeps what was there. */
  function IntField(root: Json, key: string, low: int, high: int, current: int, value: string -> real): Option<int> {
    match Lookup(root, key)
    case None => Some(current)
    case Some(Num(lexeme)) =>
      var v := value(lexeme);
      if v == v.Floor as real && low as real <= v <= high as real then Some(v.Floor) else None
    case Some(_) => None
  }

  function ProbabilityField(root: Json, current: real, value: string -> real): Option<real> {
    match Lookup(root, "chaos_probability")
    case None => Some(current)
    case Some(Num(lexeme)) => if 0.0 <= value(lexeme) <= 1.0 then Some(value(lexeme)) else None
    case Some(_) => None
  }

  function SocketField(root: Json, current: string): Option<string> {
    match Lookup(root, "docker_socket")
    case None => Some(current)
    case Some(Str(s)) => if s == "" then None else Some(s)
    case Some(_) => None
  }

  function DryRunField(root: Json, current: bool): Option<bool> {
    match Lookup(root, "dry_run")
    case None => Some(current)
    case Some(Bool(b)) => Some(b)
    case Some(_) => None
  }

  predicate IsLogLevel(s: string) { s == "debug" || s == "info" || s == "warn" || s == "error" }

  function LogLevelField(root: Json, current: string): Option<string> {
    match Lookup(root, "log_level")
    case None => Some(current)
    case Some(Str(s)) => if IsLogLevel(Lower(Trim(s))) then Some(Lower(Trim(s))) else None
    case Some(_) => None
  }

  function ReadRule(entry: Json): Option<TargetRule> {
    match (Lookup(entry, "name_match"), Lookup(entry, "action"))
    case (Some(Str(name)), Some(Str(action))) =>
      if Trim(name) == "" then None
      else (match ActionFromString(action)
            case None => None
            case Some(a) => Some(TargetRule(Trim(name), a)))
    case _ => None
  }

  /** The rules of the first `n` entries, or nothing if one of them is bad. */
  function ReadRules(entries: seq<Json>, n: nat): Option<seq<TargetRule>>
    requires n <= |entries|
  {
    if n == 0 then Some([])
    else match (ReadRules(entries, n - 1), ReadRule(entries[n - 1]))
      case (Some(rules), Some(rule)) => Some(rules + [rule])
      case _ => None
  }

  function TargetsField(root: Json, current: seq<TargetRule>): Option<seq<TargetRule>> {
    match Lookup(root, "targets")
    case Some(Arr(entries)) =>
      if entries == [] then None
      else (match ReadRules(entries, |entries|) case None => None case Some(rules) => Some(current + rules))
    case _ => None
  }

  /** The configuration that validation produces, or nothing if it rejects the document. */
  function Validated(root: Json, cfg: Config, value: string -> real): Option<Config> {
    if !root.Obj? then None
    else match (IntField(root, "interval_seconds", 1, 86400, cfg.intervalSeconds, value),
                ProbabilityField(root, cfg.chaosProbability, value),
                SocketField(root, cfg.dockerSocket),
                IntField(root, "stop_timeout_seconds", 1, 600, cfg.stopTimeout, value),
                DryRunField(root, cfg.dryRun),
                IntField(root, "max_actions_per_cycle", 1, 1000, cfg.maxPerCycle, value),
                IntField(root, "max_actions_per_run", 0, 1000000, cfg.maxPerRun, value),
                LogLevelField(root, cfg.logLevel),
                TargetsField(root, cfg.targets))
      case (Some(interval), Some(p), Some(socket), Some(timeout), Some(dry), Some(cycle), Some(run), Some(level),
            Some(targets)) =>
        Some(Config(interval, p, socket, timeout, dry, cycle, run, level, targets))
      case _ => None
  }

  /** `validate_config`: the fields in order, then the rules in a loop. */
  method ValidateConfig(root: Json, cfg: Config, value: string -> real) returns (r: Option<Config>)
    ensures r == Validated(root, cfg, value)
  {
    if !root.Obj? { return None; }
    var interval := IntField(root, "interval_seconds", 1, 86400, cfg.intervalSeconds, value);
    if interval.None? { return None; }
    var p := ProbabilityField(root, cfg.chaosProbability, value);
    if p.None? { return None; }
    var socket := SocketField(root, cfg.dockerSocket);
    if socket.None? { return None; }
    var timeout := IntField(root, "stop_timeout_seconds", 1, 600, cfg.stopTimeout, value);
    if timeout.None? { return None; }
    var dry := DryRunField(root, cfg.dryRun);
    if dry.None? { return None; }
    var cycle := IntField(root, "max_actions_per_cycle", 1, 1000, cfg.maxPerCycle, value);
    if cycle.None? { return None; }
    var run := IntField(root, "max_actions_per_run", 0, 1000000, cfg.maxPerRun, value);
    if run.None? { return None; }
    var level := LogLevelField(root, cfg.logLevel);
    if level.None? { return None; }
    var targets := ReadTargets(root, cfg.targets);
    if targets.None? { return None; }
    r := Some(Config(interval.value, p.value, socket.value, timeout.value, dry.value, cycle.value, run.value,
                     level.value, targets.value));
  }

  method ReadTargets(root: Json, current: seq<TargetRule>) returns (r: Option<seq<TargetRule>>)
    ensures r == TargetsField(root, current)
  {
    var targets := Lookup(root, "targets");
    if targets.None? || !targets.value.Arr? || targets.value.items == [] { return None; }
    hide ReadRule;
    var entries, index, rules := targets.value.items, 0, current;
    while index < |entries|
      invariant index <= |entries|
      invariant ReadRules(entries, index).Some? && rules == current + ReadRules(entries, index).value
    {
      var rule := ReadRule(entries[index]);
      if rule.None? {
        BadRuleStays(entries, index + 1, |entries|);
        return None;
      }
      rules := rules + [rule.value];
      index := index + 1;
    }
    r := Some(rules);
  }

  lemma {:induction false} BadRuleStays(entries: seq<Json>, k: nat, n: nat)
    requires k <= n <= |entries| && ReadRules(entries, k).None?
    ensures ReadRules(entries, n).None?
    decreases n
  {
    if k < n { BadRuleStays(entries, k, n - 1); }
  }

  // ---- what an accepted configuration guarantees ----

  predicate RuleSane(rule: TargetRule) {
    rule.nameMatch != "" && !IsWs(rule.nameMatch[0]) && !IsWs(rule.nameMatch[|rule.nameMatch| - 1])
  }

  predicate Sane(cfg: Config) {
    && 1 <= cfg.intervalSeconds <= 86400 && 0.0 <= cfg.chaosProbability <= 1.0
    && cfg.dockerSocket != "" && 1 <= cfg.stopTimeout <= 600
    && 1 <= cfg.maxPerCycle <= 1000 && 0 <= cfg.maxPerRun <= 1000000
    && IsLogLevel(cfg.logLevel)
    && cfg.targets != [] && forall i :: 0 <= i < |cfg.targets| ==> RuleSane(cfg.targets[i])
  }

  lemma {:induction false} RulesSane(entries: seq<Json>, n: nat)
    requires n <= |entries| && ReadRules(entries, n).Some?
    ensures var rules := ReadRules(entries, n).value;
      |rules| == n && forall i :: 0 <= i < n ==> RuleSane(rules[i]) && ReadRule(entries[i]) == Some(rules[i])
  {
    hide ReadRule;
    if n > 0 {
      RulesSane(entries, n - 1);
      RuleIsSane(entries[n - 1]);
    }
  }

  lemma RuleIsSane(entry: Json)
    requires ReadRule(entry).Some?
    ensures RuleSane(ReadRule(entry).value)
  {
    hide Trim;
    TrimIsExact(Lookup(entry, "name_match").value.s, "", "", "");
  }

  /** Every field of an accepted configuration is in its range, for any conversion of numbers. */
  lemma AcceptedIsSane(root: Json, value: string -> real)
    requires Validated(root, DEFAULTS, value).Some?
    ensures Sane(Validated(root, DEFAULTS, value).value)
  {
    hide ReadRules, Trim, Lower;
    var entries := Lookup(root, "targets").value.items;
    RulesSane(entries, |entries|);
    assert [] + ReadRules(entries, |entries|).value == ReadRules(entries, |entries|).value;
  }

  // ---- what an accepted configuration was read from ----

  /** The number at `key` is exactly `got`; without one, `got` is the default. */
  predicate NumberRead(root: Json, key: string, got: real, absent: real, value: string -> real) {
    match Lookup(root, key) case None => got == absent case Some(j) => j.Num? && value(j.lexeme) == got
  }

  predicate IsRuleOf(rule: TargetRule, entry: Json) {
    && entry.Obj? && "name_match" in entry.members && "action" in entry.members
    && var name, action := entry.members["name_match"], entry.members["action"];
       && name.Str? && action.Str? && rule.nameMatch == Trim(name.s)
       && Lower(Trim(action.s)) == match rule.action case Stop => "stop" case Kill => "kill"
  }

  /** Every field comes from its own key, numbers without any loss, and the rules are those of the list, in
      its order. */
  lemma AcceptedReads(root: Json, value: string -> real)
    requires Validated(root, DEFAULTS, value).Some?
    ensures var cfg := Validated(root, DEFAULTS, value).value;
      && NumberRead(root, "interval_seconds", cfg.intervalSeconds as real, 5.0, value)
      && NumberRead(root, "chaos_probability", cfg.chaosProbability, 0.3, value)
      && NumberRead(root, "stop_timeout_seconds", cfg.stopTimeout as real, 10.0, value)
      && NumberRead(root, "max_actions_per_cycle", cfg.maxPerCycle as real, 1.0, value)
      && NumberRead(root, "max_actions_per_run", cfg.maxPerRun as real, 0.0, value)
      && (Lookup(root, "dry_run").None? ==> cfg.dryRun)
      && (Lookup(root, "dry_run").Some? ==> Lookup(root, "dry_run") == Some(Bool(cfg.dryRun)))
      && (Lookup(root, "docker_socket").None? ==> cfg.dockerSocket == "/var/run/docker.sock")
      && (Lookup(root, "docker_socket").Some? ==> Lookup(root, "docker_socket") == Some(Str(cfg.dockerSocket)))
      && (Lookup(root, "log_level").None? ==> cfg.logLevel == "info")
      && (Lookup(root, "log_level").Some? ==>
            Lookup(root, "log_level").value.Str? && cfg.logLevel == Lower(Trim(Lookup(root, "log_level").value.s)))
      && Lookup(root, "targets").Some? && Lookup(root, "targets").value.Arr?
      && var entries := Lookup(root, "targets").value.items;
         |cfg.targets| == |entries| && forall i :: 0 <= i < |entries| ==> IsRuleOf(cfg.targets[i], entries[i])
  {
    hide ReadRules, Trim, Lower, Lookup, IsRuleOf;
    var entries := Lookup(root, "targets").value.items;
    var rules := ReadRules(entries, |entries|).value;
    RulesSane(entries, |entries|);
    assert [] + rules == rules;
    forall i | 0 <= i < |entries| ensures IsRuleOf(rules[i], entries[i]) { RuleIsRead(entries[i]); }
  }

  lemma RuleIsRead(entry: Json)
    requires ReadRule(entry).Some?
    ensures IsRuleOf(ReadRule(entry).value, entry)
  {
    hide Trim, Lower;
  }

  // ---- which documents are accepted ----

  /** An optional key holds a whole number from `low` to `high`. */
  predicate WholeNumber(root: Json, key: string, low: int, high: int, value: string -> real) {
    Lookup(root, key).Some? ==>
      && Lookup(root, key).value.Num?
      && var v := value(Lookup(root, key).value.lexeme);
         v.Floor as real == v && low <= v.Floor <= high
  }

  predicate OptionalBool(root: Json, key: string) { Lookup(root, key).Some? ==> Lookup(root, key).value.Bool? }

  predicate OptionalText(root: Json, key: string, ok: string -> bool) {
    Lookup(root, key).Some? ==> Lookup(root, key).value.Str? && ok(Lookup(root, key).value.s)
  }

  /** A rule needs a pattern that is not blank, and "stop" or "kill" for its action, in any case and with any white
      space around it. */
  predicate GoodRule(entry: Json) {
    && Lookup(entry, "name_match").Some? && Lookup(entry, "name_match").value.Str?
    && Trim(Lookup(entry, "name_match").value.s) != ""
    && Lookup(entry, "action").Some? && Lookup(entry, "action").value.Str?
    && Lower(Trim(Lookup(entry, "action").value.s)) in {"stop", "kill"}
  }

  predicate GoodTargets(root: Json) {
    && Lookup(root, "targets").Some? && Lookup(root, "targets").value.Arr?
    && var entries := Lookup(root, "targets").value.items;
       entries != [] && forall i :: 0 <= i < |entries| ==> GoodRule(entries[i])
  }

  predicate Acceptable(root: Json, value: string -> real) {
    && root.Obj?
    && WholeNumber(root, "interval_seconds", 1, 86400, value)
    && (Lookup(root, "chaos_probability").Some? ==>
          && Lookup(root, "chaos_probability").value.Num?
          && 0.0 <= value(Lookup(root, "chaos_probability").value.lexeme) <= 1.0)
    && OptionalText(root, "docker_socket", s => s != "")
    && WholeNumber(root, "stop_timeout_seconds", 1, 600, value)
    && OptionalBool(root, "dry_run")
    && WholeNumber(root, "max_actions_per_cycle", 1, 1000, value)
    && WholeNumber(root, "max_actions_per_run", 0, 1000000, value)
    && OptionalText(root, "log_level", s => Lower(Trim(s)) in {"debug", "info", "warn", "error"})
    && GoodTargets(root)
  }

  lemma IntFieldIff(root: Json, key: string, low: int, high: int, current: int, value: string -> real)
    ensures IntField(root, key, low, high, current, value).Some? <==> WholeNumber(root, key, low, high, value)
  {
    hide Lookup;
  }

  lemma RuleIff(entry: Json)
    ensures ReadRule(entry).Some? <==> GoodRule(entry)
  {
    hide Lookup, Trim, Lower;
  }

  lemma {:induction false} RulesIff(entries: seq<Json>, n: nat)
    requires n <= |entries|
    ensures ReadRules(entries, n).Some? <==> forall i :: 0 <= i < n ==> GoodRule(entries[i])
  {
    hide ReadRule, GoodRule;
    if n > 0 {
      RulesIff(entries, n - 1);
      RuleIff(entries[n - 1]);
    }
  }

  lemma TargetsIff(root: Json, current: seq<TargetRule>)
    ensures TargetsField(root, current).Some? <==> GoodTargets(root)
  {
    hide Lookup, ReadRules, GoodRule;
    var targets := Lookup(root, "targets");
    if targets.Some? && targets.value.Arr? { RulesIff(targets.value.items, |targets.value.items|); }
  }

  /** A document is accepted exactly if every key that is present holds what it should, and the rules are there. */
  lemma AcceptedIff(root: Json, value: string -> real)
    ensures Validated(root, DEFAULTS, value).Some? <==> Acceptable(root, value)
  {
    hide Lookup, IntField, TargetsField, WholeNumber, GoodTargets, Trim, Lower;
    IntFieldIff(root, "interval_seconds", 1, 86400, DEFAULTS.intervalSeconds, value);
    IntFieldIff(root, "stop_timeout_seconds", 1, 600, DEFAULTS.stopTimeout, value);
    IntFieldIff(root, "max_actions_per_cycle", 1, 1000, DEFAULTS.maxPerCycle, value);
    IntFieldIff(root, "max_actions_per_run", 0, 1000000, DEFAULTS.maxPerRun, value);
    TargetsIff(root, DEFAULTS.targets);
  }
}
