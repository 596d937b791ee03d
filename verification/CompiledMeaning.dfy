/** What a successful compile promises to evaluation, for both payloads. */
module CompiledMeaning {
  import opened Text
  import opened Graphs
  import opened Bucketing
  import opened Outcomes
  import opened Rollout
  import opened ScopeAgreement
  import opened Inclusion
  import opened Ruleset
  import opened Evaluation
  import opened Guards
  import opened Visibility
  import opened FilterMeaning
  import opened CycleSearch
  import opened Compiler

  /** Without problems, every flag serves only declared variations and every prerequisite exists. */
  lemma ValidFlagServesDeclared(flags: seq<Flag>, segments: seq<Segment>, i: nat)
    requires i < |flags| && forall p :: !IsProblem(flags, segments, p)
    ensures ServesDeclared(CompiledFlag(flags[i], IndexVariations(flags[i].variations)))
    ensures forall required <- flags[i].prerequisites :: required.flagKey in FlagKeys(flags)
  {
    hide IndexVariations, ValidDistribution, IsTreeProblem, Refs;
    var flag, keys := flags[i], SegmentKeys(segments);
    var variations := IndexVariations(flag.variations);
    forall p ensures !IsFlagProblem(flag, keys, p) && !IsMissingPrerequisite(flag, FlagKeys(flags), p) {
      assert !IsProblem(flags, segments, p);
      assert !IsOneFlagProblem(flags, i, keys, p);
    }
    assert !IsFlagProblem(flag, keys, NoVariations(flag.key));
    assert !IsFlagProblem(flag, keys, UndeclaredDefault(flag.key));
    assert !IsFlagProblem(flag, keys, UndeclaredOff(flag.key));
    forall k | k in VariationKeys(flag.variations) ensures k in variations {
      IndexVariationsMeaning(flag.variations, k);
    }
    forall rule | rule in flag.rules
      ensures RuleServesDeclared(CompiledFlag(flag, variations), rule)
    {
      var j :| 0 <= j < |flag.rules| && flag.rules[j] == rule;
      ValidRuleServesDeclared(flag, j, keys);
    }
    forall required | required in flag.prerequisites ensures required.flagKey in FlagKeys(flags) {
      var j :| 0 <= j < |flag.prerequisites| && flag.prerequisites[j] == required;
      assert !IsMissingPrerequisite(flag, FlagKeys(flags), MissingPrerequisite(flag.key, required.flagKey));
    }
  }

  lemma ValidRuleServesDeclared(flag: Flag, j: nat, keys: set<JsString>)
    requires j < |flag.rules| && flag.variations != [] && forall p :: !IsFlagProblem(flag, keys, p)
    ensures RuleServesDeclared(CompiledFlag(flag, IndexVariations(flag.variations)), flag.rules[j])
  {
    hide IndexVariations, ValidDistribution, IsTreeProblem, Refs;
    var rule := flag.rules[j];
    forall p ensures !IsRuleProblem(flag, j, keys, p) {
      assert !IsFlagProblem(flag, keys, p);
    }
    assert !IsRuleProblem(flag, j, keys, UndeclaredServe(flag.key, j));
    assert !IsRuleProblem(flag, j, keys, BadDistribution(flag.key, j));
    forall k | k in VariationKeys(flag.variations) ensures k in IndexVariations(flag.variations) {
      IndexVariationsMeaning(flag.variations, k);
    }
    if rule.serve.Split? {
      forall slice | slice in rule.serve.rollout ensures slice.variationKey in VariationKeys(flag.variations) {
        var n :| 0 <= n < |rule.serve.rollout| && rule.serve.rollout[n] == slice;
        assert !IsRuleProblem(flag, j, keys, UndeclaredSlice(flag.key, j, slice.variationKey));
      }
    }
  }

  /** The environment of a payload built from valid flags. */
  ghost predicate Sound(env: Environment) {
    && (forall k <- env.flags :: ServesDeclared(env.flags[k]))
    && (forall k <- env.flags :: PrerequisiteKeys(env.flags[k].flag) <= env.flags.Keys)
    && Acyclic(FlagGraph(env.flags))
  }

  lemma ServerPayloadSound(snapshot: Snapshot)
    requires WellFormed(snapshot.flags, snapshot.segments)
    ensures Sound(ServerEnvironment(snapshot))
  {
    hide ServesDeclared, IsProblem;
    var env := ServerEnvironment(snapshot);
    forall k | k in env.flags
      ensures ServesDeclared(env.flags[k]) && PrerequisiteKeys(env.flags[k].flag) <= env.flags.Keys
    {
      IndexFlagsMeaning(snapshot.flags, k);
      var i :| 0 <= i < |snapshot.flags| && env.flags[k].flag == snapshot.flags[i];
      ValidFlagServesDeclared(snapshot.flags, snapshot.segments, i);
      forall r | r in PrerequisiteKeys(env.flags[k].flag) ensures r in env.flags {
        IndexFlagsMeaning(snapshot.flags, r);
      }
    }
  }

  lemma ClientPayloadSound(snapshot: Snapshot)
    requires WellFormed(snapshot.flags, snapshot.segments)
    ensures Sound(ClientEnvironment(snapshot))
  {
    hide RuleServesDeclared, IsProblem, Acyclic, IndexFlags, KeepSafeRules;
    var server, client := ServerEnvironment(snapshot), ClientEnvironment(snapshot);
    var safe := SafeKeys(snapshot.segments);
    ServerPayloadSound(snapshot);
    forall k ensures k in client.flags <==> k in server.flags {
      FilteredFlagIndex(snapshot.flags, safe, k);
    }
    assert client.flags.Keys == server.flags.Keys;
    forall k | k in client.flags
      ensures client.flags[k] == CompiledFlag(FilterFlag(server.flags[k].flag, safe), server.flags[k].variations)
      ensures ServesDeclared(client.flags[k])
              && PrerequisiteKeys(client.flags[k].flag) == PrerequisiteKeys(server.flags[k].flag)
    {
      FilteredFlagIndex(snapshot.flags, safe, k);
      FilteredStaysDeclared(server.flags[k], safe);
    }
    assert FlagGraph(client.flags) == FlagGraph(server.flags);
  }

  lemma FilteredStaysDeclared(compiled: CompiledFlag, safe: set<JsString>)
    requires ServesDeclared(compiled)
    ensures ServesDeclared(CompiledFlag(FilterFlag(compiled.flag, safe), compiled.variations))
  {
    hide RuleServesDeclared, KeepSafeRules;
    var filtered := CompiledFlag(FilterFlag(compiled.flag, safe), compiled.variations);
    forall rule | rule in filtered.flag.rules ensures RuleServesDeclared(filtered, rule) {
      KeptRules(compiled.flag.rules, safe, rule);
      SameDeclared(compiled, filtered, rule);
    }
  }

  lemma SameDeclared(a: CompiledFlag, b: CompiledFlag, rule: Rule)
    requires a.variations == b.variations
    ensures RuleServesDeclared(a, rule) == RuleServesDeclared(b, rule)
  {
  }

  /** The result is not an error and serves a declared variation with its declared value. */
  ghost predicate Healthy(env: Environment, flagKey: JsString, result: EvaluationResult) {
    && flagKey in env.flags
    && !result.reason.Failure?
    && result.variationKey in env.flags[flagKey].variations
    && result.value == env.flags[flagKey].variations[result.variationKey].value
  }

  lemma SoundFlagHealthy(env: Environment, flagKey: JsString, req: Request, fallback: Value)
    requires Sound(env) && flagKey in env.flags
    ensures Healthy(env, flagKey, EvaluateFlagValue(flagKey, req, env, fallback))
  {
    hide FirstMatch, FailedPrerequisite, RuleServesDeclared, ServeRule;
    var compiled := env.flags[flagKey];
    var rules := compiled.flag.rules;
    FirstMatchMeaning(rules, req, env.segments);
    if FirstMatch(rules, req, env.segments).Some? {
      ServeRuleOutcome(compiled, FirstMatch(rules, req, env.segments).value, req, fallback);
    }
  }

  lemma {:induction false} FailedOneIsUnmet(prerequisites: seq<Prerequisite>, serves: JsString -> JsString)
    ensures var failed := FailedByOracle(prerequisites, serves);
            failed.Some? ==>
              exists p <- prerequisites :: p.flagKey == failed.value && serves(p.flagKey) != p.variationKey
  {
    if prerequisites != [] && serves(prerequisites[0].flagKey) == prerequisites[0].variationKey {
      FailedOneIsUnmet(prerequisites[1..], serves);
      var failed := FailedByOracle(prerequisites[1..], serves);
      if failed.Some? {
        var p :| p in prerequisites[1..] && p.flagKey == failed.value && serves(p.flagKey) != p.variationKey;
        assert p in prerequisites;
      }
    } else if prerequisites != [] {
      assert prerequisites[0] in prerequisites;
    }
  }

  /**
   * A failed prerequisite is a healthy flag that, evaluated on its own, serves another variation: never an artefact
   * of a guard.
   */
  lemma SoundPrerequisiteFailure(env: Environment, flagKey: JsString, req: Request, fallback: Value)
    requires Sound(env) && flagKey in env.flags
    requires EvaluateFlagValue(flagKey, req, env, fallback).reason.PrerequisiteFailed?
    ensures var failed := EvaluateFlagValue(flagKey, req, env, fallback).reason.flagKey;
            var alone := EvaluateFlagValue(failed, req, env, Undefined);
            && Healthy(env, failed, alone)
            && exists p <- env.flags[flagKey].flag.prerequisites ::
                 p.flagKey == failed && alone.variationKey != p.variationKey
  {
    hide Evaluate, EvaluatePlainly, ServesDeclared, FailedByOracle, Healthy, OnCycle;
    var scope := env.flags.Keys;
    assert AcyclicScope(FlagGraph(env.flags), scope);
    GuardedServesSolves(req, env, scope);
    var serves := GuardedServes(req, env);
    PrerequisiteGuardTransparent(flagKey, req, env, fallback, scope, serves);
    BlamedIsFailed(env, flagKey, req, fallback, serves);
    var prerequisites := env.flags[flagKey].flag.prerequisites;
    FailedOneIsUnmet(prerequisites, serves);
    var failed := EvaluateFlagValue(flagKey, req, env, fallback).reason.flagKey;
    var p :| p in prerequisites && p.flagKey == failed && serves(p.flagKey) != p.variationKey;
    assert failed in PrerequisiteKeys(env.flags[flagKey].flag);
    SoundFlagHealthy(env, failed, req, Undefined);
  }

  lemma BlamedIsFailed(env: Environment, flagKey: JsString, req: Request, fallback: Value, serves: JsString -> JsString)
    requires flagKey in env.flags
    requires EvaluatePlainly(flagKey, req, env, fallback, serves).reason.PrerequisiteFailed?
    ensures FailedByOracle(env.flags[flagKey].flag.prerequisites, serves)
            == Some(EvaluatePlainly(flagKey, req, env, fallback, serves).reason.flagKey)
  {
    hide FirstMatch, FailedByOracle;
    ServingIsNoPrerequisiteFailure(env, flagKey, req, fallback);
  }

  /** Serving rules never blames a prerequisite. */
  lemma ServingIsNoPrerequisiteFailure(env: Environment, flagKey: JsString, req: Request, fallback: Value)
    requires flagKey in env.flags
    ensures var compiled := env.flags[flagKey];
            !ServeRules(compiled, compiled.flag.rules, req, env.segments, fallback).reason.PrerequisiteFailed?
  {
    hide FirstMatch;
  }

  // ----- what each reason says

  predicate Unmet(prerequisites: seq<Prerequisite>, serves: JsString -> JsString) {
    exists p <- prerequisites :: serves(p.flagKey) != p.variationKey
  }

  /** Rule i is the first to match. */
  ghost predicate FirstToMatch(rules: seq<Rule>, req: Request, segments: Segments, i: int) {
    && 0 <= i < |rules| && Matches(rules[i].when, req, segments, {})
    && forall j :: 0 <= j < i ==> !Matches(rules[j].when, req, segments, {})
  }

  /** The result carries what a rule serves: its fixed variation, or the slice of the context's bucket. */
  ghost predicate ServedBy(flag: Flag, rule: Rule, req: Request, result: EvaluationResult) {
    match rule.serve
    case Fixed(variationKey) => result.variationKey == variationKey && result.bucket == None
    case Split(rollout) =>
      && ResolveBucketKey(flag, req).Some?
      && var bucket := BucketFor(flag.key, flag.salt, ResolveBucketKey(flag, req).value);
         result.bucket == Some(bucket) && KeyFor(rollout, bucket) == Some(result.variationKey)
  }

  /** Every reason states the facts about flag and request that it stands for, and what was served because of them. */
  ghost predicate Explained(flag: Flag, req: Request, segments: Segments, serves: JsString -> JsString,
      result: EvaluationResult) {
    match result.reason
    case Off => !flag.enabled && result.variationKey == flag.offVariationKey && result.bucket == None
    case PrerequisiteFailed(_) =>
      flag.enabled && Unmet(flag.prerequisites, serves) && result.variationKey == flag.offVariationKey
        && result.bucket == None
    case RuleMatch(ruleId) =>
      && flag.enabled && !Unmet(flag.prerequisites, serves)
      && exists i ::
           FirstToMatch(flag.rules, req, segments, i) && flag.rules[i].id == ruleId
           && ServedBy(flag, flag.rules[i], req, result)
    case Default =>
      && flag.enabled && !Unmet(flag.prerequisites, serves)
      && result.variationKey == flag.defaultVariationKey && result.bucket == None
      && forall i :: FirstToMatch(flag.rules, req, segments, i) ==> !Places(flag, flag.rules[i], req)
    case Failure(_) => false
  }

  lemma {:induction false} FailedMeansUnmet(prerequisites: seq<Prerequisite>, serves: JsString -> JsString)
    ensures FailedByOracle(prerequisites, serves).Some? <==> Unmet(prerequisites, serves)
  {
    if prerequisites != [] {
      FailedMeansUnmet(prerequisites[1..], serves);
      assert forall p :: p in prerequisites <==> p == prerequisites[0] || p in prerequisites[1..];
    }
  }

  lemma OneFirst(rules: seq<Rule>, req: Request, segments: Segments) returns (n: int)
    ensures FirstMatch(rules, req, segments).None? ==> forall i :: !FirstToMatch(rules, req, segments, i)
    ensures FirstMatch(rules, req, segments).Some? ==>
              && 0 <= n < |rules| && rules[n] in rules
              && FirstToMatch(rules, req, segments, n) && rules[n] == FirstMatch(rules, req, segments).value
              && forall i :: FirstToMatch(rules, req, segments, i) ==>
                 rules[i] == FirstMatch(rules, req, segments).value
  {
    hide Matches, FirstMatch;
    n := 0;
    FirstMatchMeaning(rules, req, segments);
    if FirstMatch(rules, req, segments).Some? {
      var rule := FirstMatch(rules, req, segments).value;
      n :| 0 <= n < |rules| && rules[n] == rule && Matches(rule.when, req, segments, {})
               && forall j :: 0 <= j < n ==> !Matches(rules[j].when, req, segments, {});
      assert FirstToMatch(rules, req, segments, n);
    } else {
      forall i | 0 <= i < |rules| ensures !Matches(rules[i].when, req, segments, {}) {
        assert rules[i] in rules;
      }
    }
  }

  lemma RuleExplained(compiled: CompiledFlag, rule: Rule, req: Request, fallback: Value)
    requires RuleServesDeclared(compiled, rule) && compiled.flag.defaultVariationKey in compiled.variations
    ensures var result := ServeRule(compiled, rule, req, fallback);
            if Places(compiled.flag, rule, req) then
              result.reason == RuleMatch(rule.id) && ServedBy(compiled.flag, rule, req, result)
            else
              result.reason == Default && result.variationKey == compiled.flag.defaultVariationKey
              && result.bucket == None
  {
    hide ResolveBucketKey, KeyFor, BucketFor, ValidDistribution;
    if rule.serve.Split? && ResolveBucketKey(compiled.flag, req).Some? {
      var bucketKey := ResolveBucketKey(compiled.flag, req).value;
      EveryBucketServed(rule.serve.rollout, BucketFor(compiled.flag.key, compiled.flag.salt, bucketKey));
    }
  }

  lemma RulesExplained(compiled: CompiledFlag, req: Request, segments: Segments, fallback: Value,
      serves: JsString -> JsString)
    requires ServesDeclared(compiled) && compiled.flag.enabled && !Unmet(compiled.flag.prerequisites, serves)
    ensures Explained(compiled.flag, req, segments, serves,
            ServeRules(compiled, compiled.flag.rules, req, segments, fallback))
  {
    hide FirstMatch, FirstToMatch, ServeRule, ServedBy, Places, RuleServesDeclared, Unmet;
    var rules := compiled.flag.rules;
    var i := OneFirst(rules, req, segments);
    if FirstMatch(rules, req, segments).Some? {
      RuleExplained(compiled, rules[i], req, fallback);
    }
  }

  /**
   * In a sound environment the reason is the whole story: it holds of the flag and the request, and the variation
   * follows from it.
   */
  lemma ReasonExplainsResult(env: Environment, flagKey: JsString, req: Request, fallback: Value)
    requires Sound(env) && flagKey in env.flags
    ensures Explained(env.flags[flagKey].flag, req, env.segments, GuardedServes(req, env),
            EvaluateFlagValue(flagKey, req, env, fallback))
  {
    hide Evaluate, ServesDeclared, FailedByOracle, ServeRules, Unmet, OnCycle, FlagGraph;
    var scope := env.flags.Keys;
    var compiled, serves := env.flags[flagKey], GuardedServes(req, env);
    SoundScope(env);
    GuardedServesSolves(req, env, scope);
    PrerequisiteGuardTransparent(flagKey, req, env, fallback, scope, serves);
    FailedMeansUnmet(compiled.flag.prerequisites, serves);
    DefaultsDeclared(compiled);
    if compiled.flag.enabled && !Unmet(compiled.flag.prerequisites, serves) {
      RulesExplained(compiled, req, env.segments, fallback, serves);
    }
  }

  lemma SoundScope(env: Environment)
    requires Sound(env)
    ensures AcyclicScope(FlagGraph(env.flags), env.flags.Keys)
  {
    hide OnCycle;
  }

  lemma DefaultsDeclared(compiled: CompiledFlag)
    requires ServesDeclared(compiled)
    ensures compiled.flag.offVariationKey in compiled.variations
  {
  }

  /**
   * Compile implies evaluate: for every flag of either payload and every request, evaluation
   * gives no error, serves a declared variation, explains it, and blames a prerequisite only for what it serves.
   */
  lemma CompileImpliesEvaluate(snapshot: Snapshot, kind: KeyKind, flagKey: JsString, req: Request, fallback: Value)
    requires WellFormed(snapshot.flags, snapshot.segments)
    requires exists flag <- Payload(snapshot, kind).flags :: flag.key == flagKey
    ensures var env := Index(Payload(snapshot, kind));
            var result := EvaluateFlagValue(flagKey, req, env, fallback);
            && Healthy(env, flagKey, result)
            && Explained(env.flags[flagKey].flag, req, env.segments, GuardedServes(req, env), result)
            && (result.reason.PrerequisiteFailed? ==>
                 var alone := EvaluateFlagValue(result.reason.flagKey, req, env, Undefined);
                 && Healthy(env, result.reason.flagKey, alone)
                 && exists p <- env.flags[flagKey].flag.prerequisites ::
                      p.flagKey == result.reason.flagKey && alone.variationKey != p.variationKey)
  {
    hide Evaluate, ServesDeclared, IsProblem, Healthy, Acyclic, Explained;
    var env := Index(Payload(snapshot, kind));
    match kind {
      case ServerKey => ServerPayloadSound(snapshot);
      case ClientKey => ClientPayloadSound(snapshot);
    }
    IndexFlagsMeaning(Payload(snapshot, kind).flags, flagKey);
    SoundFlagHealthy(env, flagKey, req, fallback);
    ReasonExplainsResult(env, flagKey, req, fallback);
    if EvaluateFlagValue(flagKey, req, env, fallback).reason.PrerequisiteFailed? {
      SoundPrerequisiteFailure(env, flagKey, req, fallback);
    }
  }

  /** The flags of a ruleset that compiles form an acyclic scope. */
  lemma CompiledScope(snapshot: Snapshot)
    requires WellFormed(snapshot.flags, snapshot.segments)
    ensures var server := ServerEnvironment(snapshot); AcyclicScope(FlagGraph(server.flags), server.flags.Keys)
    ensures forall k :: k in ServerEnvironment(snapshot).flags <==> exists flag <- snapshot.flags :: flag.key == k
  {
    hide ServesDeclared, IsProblem, OnCycle, IndexFlags;
    var server := ServerEnvironment(snapshot);
    ServerPayloadSound(snapshot);
    SoundScope(server);
    forall k ensures k in server.flags <==> exists flag <- snapshot.flags :: flag.key == k {
      IndexFlagsMeaning(snapshot.flags, k);
    }
  }

  /**
   * For a ruleset that compiles: on one request both payloads give every flag one result exactly when no flag
   * diverges.
   */
  lemma CompiledSidesAgreeExactly(snapshot: Snapshot, req: Request)
    requires WellFormed(snapshot.flags, snapshot.segments) && UniqueSegmentKeys(snapshot.segments)
    requires forall flag <- snapshot.flags :: DistinctRuleIds(flag.rules)
    ensures (forall flag <- snapshot.flags :: SidesAgree(snapshot, flag.key, req))
            <==> (forall flag <- snapshot.flags :: !Diverges(snapshot, flag.key, req))
  {
    hide SidesAgree, Diverges, ServesDeclared, IsProblem, OnCycle, DistinctRuleIds, IndexFlags;
    var server := ServerEnvironment(snapshot);
    var scope := server.flags.Keys;
    CompiledScope(snapshot);
    ServerPayloadSound(snapshot);
    forall k | k in scope ensures Validated(server.flags[k]) {
      IndexFlagsMeaning(snapshot.flags, k);
    }
    ScopeAgreesExactly(snapshot, req, scope);
    forall flag | flag in snapshot.flags ensures flag.key in scope {}
  }

  /**
   * For a ruleset that compiles, checked once before it is published: if every flag passes the test at the variations
   * that others require of it, a flag that passes it at a variation is never more included there.
   */
  lemma CompiledNeverMoreIncluded(
      snapshot: Snapshot, flagKey: JsString, req: Request, fallback: Value, variationKey: JsString)
    requires WellFormed(snapshot.flags, snapshot.segments) && UniqueSegmentKeys(snapshot.segments)
    requires RequirementsKeepExcluded(snapshot, ServerEnvironment(snapshot).flags.Keys)
    requires KeepsExcluded(snapshot, flagKey, variationKey)
    ensures !MoreIncluded(snapshot, flagKey, req, fallback, variationKey)
  {
    hide WellFormed, ServerEnvironment, ClientEnvironment, KeepsExcluded, RequirementsKeepExcluded, AcyclicScope,
         FlagGraph, Evaluate;
    var scope := ServerEnvironment(snapshot).flags.Keys;
    CompiledScope(snapshot);
    if flagKey in scope {
      NeverMoreIncluded(snapshot, flagKey, req, fallback, scope, variationKey);
    } else {
      UnknownOnBothSides(snapshot, flagKey, req, fallback);
    }
  }

  /**
   * For a ruleset that compiles, on one request: no flag is more included on the client at any variation exactly when
   * stripping changes no pick of a flag whose rules decide on the server.
   */
  lemma CompiledNowhereMoreIncludedExactly(snapshot: Snapshot, req: Request)
    requires WellFormed(snapshot.flags, snapshot.segments) && UniqueSegmentKeys(snapshot.segments)
    ensures (forall flag <- snapshot.flags :: NowhereMoreIncluded(snapshot, flag.key, req))
            <==> (forall flag <- snapshot.flags :: !PicksDiffer(snapshot, flag.key, req))
  {
    hide WellFormed, ServerEnvironment, AcyclicScope, FlagGraph, NowhereMoreIncluded, PicksDiffer;
    var scope := ServerEnvironment(snapshot).flags.Keys;
    CompiledScope(snapshot);
    ScopeNeverMoreIncludedExactly(snapshot, req, scope);
    forall flag | flag in snapshot.flags ensures flag.key in scope {}
  }
}
