/** What a flag's rules come to: the variation they pick, the default they leave, and the one error they can end in. */
module Outcomes {
  import opened Text
  import opened Bucketing
  import opened Rollout
  import opened Ruleset
  import opened Evaluation

  /** The flag is enabled and its prerequisites are met, so its rules decide. */
  ghost predicate RulesDecide(env: Environment, flagKey: JsString, req: Request) {
    && flagKey in env.flags
    && env.flags[flagKey].flag.enabled
    && FailedPrerequisite(env.flags[flagKey].flag.prerequisites, req, env, {} + {flagKey}) == None
  }

  function BucketOf(flag: Flag, req: Request): (bucket: nat)
    requires ResolveBucketKey(flag, req).Some?
    ensures bucket < BUCKET_SPACE
  {
    BucketFor(flag.key, flag.salt, ResolveBucketKey(flag, req).value)
  }

  /**
   * The variation a rule stands for: its own, that of the context's slice, or the default if there is nothing to
   * place.
   */
  function Picks(flag: Flag, rule: Option<Rule>, req: Request): JsString {
    match rule
    case None => flag.defaultVariationKey
    case Some(r) =>
      match r.serve
      case Fixed(variationKey) => variationKey
      case Split(rollout) =>
        if ResolveBucketKey(flag, req).None? then flag.defaultVariationKey
        else KeyFor(rollout, BucketOf(flag, req)).GetOr([])
  }

  /** Whatever becomes of value and reason, the variation named is the one picked by the first match. */
  lemma ServesWhatIsPicked(compiled: CompiledFlag, rules: seq<Rule>, req: Request, segments: Segments, fallback: Value)
    ensures ServeRules(compiled, rules, req, segments, fallback).variationKey
            == Picks(compiled.flag, FirstMatch(rules, req, segments), req)
  {
    hide FirstMatch, KeyFor, BucketFor, ResolveBucketKey;
  }

  /** Any flag names what its rules pick when they decide, and its off variation otherwise. */
  lemma ServedVariation(env: Environment, flagKey: JsString, req: Request, fallback: Value)
    requires flagKey in env.flags
    ensures var flag := env.flags[flagKey].flag;
            EvaluateFlagValue(flagKey, req, env, fallback).variationKey ==
            if RulesDecide(env, flagKey, req) then Picks(flag, FirstMatch(flag.rules, req, env.segments), req)
            else flag.offVariationKey
  {
    hide FirstMatch, FailedPrerequisite, ServeRules, Picks;
    var compiled := env.flags[flagKey];
    ServesWhatIsPicked(compiled, compiled.flag.rules, req, env.segments, fallback);
  }

  // ----- rollouts that serve nothing

  /** The rule is a rollout, the context has a bucket, and the walk ends without serving it. */
  predicate LeftUnserved(flag: Flag, rule: Rule, req: Request) {
    && rule.serve.Split?
    && ResolveBucketKey(flag, req).Some?
    && KeyFor(rule.serve.rollout, BucketOf(flag, req)).None?
  }

  /** The error names a rule exactly when that rule is the first match and leaves the context unserved. */
  lemma MalformedRolloutExactly(env: Environment, flagKey: JsString, req: Request, fallback: Value, ruleId: JsString)
    requires RulesDecide(env, flagKey, req)
    ensures var flag := env.flags[flagKey].flag;
            var first := FirstMatch(flag.rules, req, env.segments);
            EvaluateFlagValue(flagKey, req, env, fallback).reason == Failure(MalformedRollout(ruleId))
            <==> first.Some? && first.value.id == ruleId && LeftUnserved(flag, first.value, req)
  {
    hide FirstMatch, FailedPrerequisite, KeyFor, BucketFor, ResolveBucketKey;
  }

  /**
   * With non-negative weights, a rollout leaves a placed context unserved exactly when its weights do not exceed the
   * bucket.
   */
  lemma LeftUnservedExactly(flag: Flag, rule: Rule, req: Request)
    requires rule.serve.Split? && ResolveBucketKey(flag, req).Some?
    requires forall s <- rule.serve.rollout :: s.weight >= 0.0
    ensures LeftUnserved(flag, rule, req)
            <==> Cumulative(rule.serve.rollout, |rule.serve.rollout|) <= BucketOf(flag, req) as real
  {
    hide KeyFor, BucketFor, ResolveBucketKey;
    UnservedExactly(rule.serve.rollout, BucketOf(flag, req));
  }

  /**
   * When the default is served: exactly when no rule matches or the first match has no bucket to place the context in.
   * A rollout that leaves the context unserved never falls back to it.
   */
  lemma DefaultServedExactly(env: Environment, flagKey: JsString, req: Request, fallback: Value)
    requires RulesDecide(env, flagKey, req)
    requires env.flags[flagKey].flag.defaultVariationKey in env.flags[flagKey].variations
    ensures var flag := env.flags[flagKey].flag;
            var first := FirstMatch(flag.rules, req, env.segments);
            EvaluateFlagValue(flagKey, req, env, fallback).reason == Default
            <==> first.None? || !Places(flag, first.value, req)
    ensures var flag := env.flags[flagKey].flag;
            var first := FirstMatch(flag.rules, req, env.segments);
            first.Some? && LeftUnserved(flag, first.value, req) ==>
              EvaluateFlagValue(flagKey, req, env, fallback)
              == EvaluationResult(fallback, [], Failure(MalformedRollout(first.value.id)), None)
  {
    hide FirstMatch, FailedPrerequisite, KeyFor, BucketFor, ResolveBucketKey;
  }

  const ON: JsString := [111, 110]
  const OFF: JsString := [111, 102, 102]
  const NAME: JsString := [102]

  /** A rollout whose one slice has no weight. */
  const UNSERVING: Flag := Flag(
    NAME, true, [], KEY_ATTRIBUTE,
    [Variation(ON, Undefined), Variation(OFF, Undefined)],
    OFF, OFF, [],
    [Rule([49], And([]), Split([Slice(ON, 0.0)]))])

  const UNSERVING_SNAPSHOT: Snapshot := Snapshot([], 1, [UNSERVING], [], [])

  /** On it every request ends in the error and the caller's fallback, not in the default variation. */
  lemma MalformedRolloutIsAnError(req: Request, fallback: Value)
    ensures EvaluateFlagValue(NAME, req, Index(UNSERVING_SNAPSHOT), fallback)
            == EvaluationResult(fallback, [], Failure(MalformedRollout([49])), None)
  {
    hide IndexVariations, BucketFor, FirstMatch, KeyFor;
    var env := Index(UNSERVING_SNAPSHOT);
    OneFlagIndexed(UNSERVING);
    IndexVariationsMeaning(UNSERVING.variations, OFF);
    assert UNSERVING.variations[1] in UNSERVING.variations;
    assert env.flags[NAME].flag == UNSERVING;
    assert FailedPrerequisite([], req, env, {} + {NAME}) == None;
    var rule := UNSERVING.rules[0];
    OneRuleMatches(rule, req, env.segments);
    assert UNSERVING.rules == [rule];
    NothingServed(BucketOf(UNSERVING, req));
    DefaultServedExactly(env, NAME, req, fallback);
  }

  lemma NothingServed(bucket: nat)
    ensures KeyFor([Slice(ON, 0.0)], bucket) == None
  {
    var slices := [Slice(ON, 0.0)];
    assert Cumulative(slices, 1) == Cumulative(slices, 0) + 0.0;
    UnservedExactly(slices, bucket);
  }

  lemma OneRuleMatches(rule: Rule, req: Request, segments: Segments)
    requires rule.when == And([])
    ensures FirstMatch([rule], req, segments) == Some(rule)
  {
    EmptyConjunctionMatches(req, segments);
  }

  lemma EmptyConjunctionMatches(req: Request, segments: Segments)
    ensures Matches(And([]), req, segments, {})
  {
    assert AllMatch([], req, segments, {});
  }

  lemma OneFlagIndexed(flag: Flag)
    ensures IndexFlags([flag]) == map[flag.key := CompiledFlag(flag, IndexVariations(flag.variations))]
  {
    assert [flag][..0] == [];
  }
}
