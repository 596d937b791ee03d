/**
 * Whether a client can be more included than the server: the exact condition, a test on
 * the rules alone that rules it out for every request, and a ruleset where it happens.
 */
module Inclusion {
  import opened Text
  import opened Graphs
  import opened Bucketing
  import opened Rollout
  import opened Ruleset
  import opened Evaluation
  import opened Outcomes
  import opened Guards
  import opened Visibility
  import opened FilterMeaning
  import opened ScopeAgreement
  import opened CycleSearch
  import opened Compiler

  /** The client serves a variation that the server, for the same request, does not. */
  ghost predicate MoreIncluded(snapshot: Snapshot, flagKey: JsString, req: Request, fallback: Value,
      variationKey: JsString) {
    && EvaluateFlagValue(flagKey, req, ClientEnvironment(snapshot), fallback).variationKey == variationKey
    && EvaluateFlagValue(flagKey, req, ServerEnvironment(snapshot), fallback).variationKey != variationKey
  }

  /** What both sides serve of any flag, whatever its prerequisites lost: on the client only kept rules can match. */
  lemma BothSidesServe(snapshot: Snapshot, flagKey: JsString, req: Request, fallback: Value)
    requires UniqueSegmentKeys(snapshot.segments) && flagKey in ServerEnvironment(snapshot).flags
    ensures var server, client := ServerEnvironment(snapshot), ClientEnvironment(snapshot);
            var flag := server.flags[flagKey].flag;
            var kept := KeepSafeRules(flag.rules, SafeKeys(snapshot.segments));
            && EvaluateFlagValue(flagKey, req, server, fallback).variationKey ==
               (if RulesDecide(server, flagKey, req) then Picks(flag, FirstMatch(flag.rules, req, server.segments), req)
                else flag.offVariationKey)
            && EvaluateFlagValue(flagKey, req, client, fallback).variationKey ==
               (if RulesDecide(client, flagKey, req) then Picks(flag, FirstMatch(kept, req, server.segments), req)
                else flag.offVariationKey)
  {
    hide SafeKeys, KeepSafeRules, FirstMatch, FailedPrerequisite, ServeRules, Evaluate, Picks, IndexFlags,
         IndexSegments;
    var server, client := ServerEnvironment(snapshot), ClientEnvironment(snapshot);
    ServedVariation(server, flagKey, req, fallback);
    ClientRules(snapshot, flagKey, req, fallback);
    ServedVariation(client, flagKey, req, fallback);
    KeptRulesMatchSame(snapshot, server.flags[flagKey].flag.rules, req);
    SamePicks(server.flags[flagKey].flag, client.flags[flagKey].flag, req);
  }

  /** What is picked does not depend on the other rules. */
  lemma SamePicks(a: Flag, b: Flag, req: Request)
    requires b == a.(rules := b.rules)
    ensures forall rule :: Picks(a, rule, req) == Picks(b, rule, req)
  {
  }

  /**
   * Exactly when a client is more included at a variation: both sides let the rules decide, and a stripped first match
   * picks something else while the first kept match picks the variation; or prerequisites are met on one side alone,
   * whose rules, or the other side's off variation, make the difference.
   */
  lemma ClientMoreIncludedExactly(
      snapshot: Snapshot, flagKey: JsString, req: Request, fallback: Value, variationKey: JsString)
    requires UniqueSegmentKeys(snapshot.segments)
    ensures var server, client := ServerEnvironment(snapshot), ClientEnvironment(snapshot);
            MoreIncluded(snapshot, flagKey, req, fallback, variationKey)
            <==>
            && flagKey in server.flags
            && var flag, safe := server.flags[flagKey].flag, SafeKeys(snapshot.segments);
               var onServer, onClient := RulesDecide(server, flagKey, req), RulesDecide(client, flagKey, req);
               var first := FirstMatch(flag.rules, req, server.segments);
               var firstKept := FirstMatch(KeepSafeRules(flag.rules, safe), req, server.segments);
               || (onServer && onClient && first.Some? && !IsRuleClientSafe(first.value, safe)
                   && Picks(flag, first, req) != variationKey && Picks(flag, firstKept, req) == variationKey)
               || (!onServer && onClient
                   && flag.offVariationKey != variationKey && Picks(flag, firstKept, req) == variationKey)
               || (onServer && !onClient
                   && Picks(flag, first, req) != variationKey && flag.offVariationKey == variationKey)
  {
    hide SafeKeys, KeepSafeRules, FirstMatch, FailedPrerequisite, Evaluate, Picks, IndexFlags, IndexSegments;
    var server := ServerEnvironment(snapshot);
    if flagKey in server.flags {
      BothSidesServe(snapshot, flagKey, req, fallback);
      FirstMatchAmongKept(server.flags[flagKey].flag.rules, SafeKeys(snapshot.segments), req, server.segments);
    } else {
      UnknownOnBothSides(snapshot, flagKey, req, fallback);
    }
  }

  lemma UnknownOnBothSides(snapshot: Snapshot, flagKey: JsString, req: Request, fallback: Value)
    requires flagKey !in ServerEnvironment(snapshot).flags
    ensures EvaluateFlagValue(flagKey, req, ClientEnvironment(snapshot), fallback)
            == EvaluateFlagValue(flagKey, req, ServerEnvironment(snapshot), fallback)
  {
    hide SafeKeys, IndexFlags;
    FilteredFlagIndex(snapshot.flags, SafeKeys(snapshot.segments), flagKey);
  }

  /**
   * For a flag whose transitive prerequisites lost no rule: exactly when the first match is a stripped rule that picks
   * something else while the first kept match picks the variation.
   */
  lemma IntactMoreIncludedExactly(
      snapshot: Snapshot, flagKey: JsString, req: Request, fallback: Value, scope: set<JsString>,
      variationKey: JsString)
    requires UniqueSegmentKeys(snapshot.segments) && Intact(snapshot, scope)
    requires flagKey in ServerEnvironment(snapshot).flags ==>
               PrerequisiteKeys(ServerEnvironment(snapshot).flags[flagKey].flag) <= scope
    ensures var server := ServerEnvironment(snapshot);
            MoreIncluded(snapshot, flagKey, req, fallback, variationKey)
            <==>
            && RulesDecide(server, flagKey, req)
            && var flag, safe := server.flags[flagKey].flag, SafeKeys(snapshot.segments);
               var first := FirstMatch(flag.rules, req, server.segments);
               var firstKept := FirstMatch(KeepSafeRules(flag.rules, safe), req, server.segments);
               && first.Some? && !IsRuleClientSafe(first.value, safe)
               && Picks(flag, first, req) != variationKey
               && Picks(flag, firstKept, req) == variationKey
  {
    hide SafeKeys, KeepSafeRules, FirstMatch, FailedPrerequisite, ServeRules, Picks;
    var server := ServerEnvironment(snapshot);
    ClientServesKeptRules(snapshot, flagKey, req, fallback, scope);
    if RulesDecide(server, flagKey, req) {
      var compiled, safe := server.flags[flagKey], SafeKeys(snapshot.segments);
      ServesWhatIsPicked(compiled, compiled.flag.rules, req, server.segments, fallback);
      ServesWhatIsPicked(compiled, KeepSafeRules(compiled.flag.rules, safe), req, server.segments, fallback);
      FirstMatchAmongKept(compiled.flag.rules, safe, req, server.segments);
    }
  }

  // ----- a test on the rules alone

  /** Some context could be given the variation by the rule. */
  ghost predicate MayPick(flag: Flag, rule: Rule, variationKey: JsString) {
    match rule.serve
    case Fixed(fixed) => fixed == variationKey
    case Split(rollout) =>
      || flag.defaultVariationKey == variationKey
      || (exists s <- rollout :: s.weight > 0.0 && s.variationKey == variationKey)
      || (variationKey == [] && !ValidDistribution(rollout))
  }

  /** Every context is given the variation by the rule. */
  ghost predicate AlwaysPicks(flag: Flag, rule: Rule, variationKey: JsString) {
    match rule.serve
    case Fixed(fixed) => fixed == variationKey
    case Split(rollout) =>
      && flag.defaultVariationKey == variationKey
      && ValidDistribution(rollout)
      && forall s <- rollout :: s.weight > 0.0 ==> s.variationKey == variationKey
  }

  /** A walk over any weights serves a slice of positive weight. */
  lemma {:induction false} ServedSliceHasWeight(slices: seq<Slice>, bucket: nat, start: nat)
    requires start <= |slices| && Cumulative(slices, start) <= bucket as real
    ensures var i := SliceFrom(slices, bucket, start); i.Some? ==> slices[i.value].weight > 0.0
    decreases |slices| - start
  {
    if start < |slices| && Cumulative(slices, start + 1) <= bucket as real {
      ServedSliceHasWeight(slices, bucket, start + 1);
    }
  }

  lemma PickWithin(flag: Flag, rule: Rule, req: Request, variationKey: JsString)
    ensures AlwaysPicks(flag, rule, variationKey) ==> Picks(flag, Some(rule), req) == variationKey
    ensures Picks(flag, Some(rule), req) == variationKey ==> MayPick(flag, rule, variationKey)
  {
    hide BucketFor, ResolveBucketKey, SliceFrom, Cumulative;
    if rule.serve.Split? && ResolveBucketKey(flag, req).Some? {
      var rollout, bucket := rule.serve.rollout, BucketOf(flag, req);
      assert Cumulative(rollout, 0) <= bucket as real by { NoWeightYet(rollout); }
      ServedSliceHasWeight(rollout, bucket, 0);
      if SliceFor(rollout, bucket).Some? {
        assert rollout[SliceFor(rollout, bucket).value] in rollout;
      } else if ValidDistribution(rollout) {
        EveryBucketServed(rollout, bucket);
      }
    }
  }

  lemma NoWeightYet(slices: seq<Slice>)
    ensures Cumulative(slices, 0) == 0.0
  {
  }

  /**
   * What an author can check before publishing: each stripped rule gives everyone the variation,
   * or after it neither a kept rule nor the default can give it to anyone.
   */
  ghost predicate StrippedSafely(flag: Flag, safe: set<JsString>, variationKey: JsString) {
    forall i :: 0 <= i < |flag.rules| && !IsRuleClientSafe(flag.rules[i], safe) ==>
      AlwaysPicks(flag, flag.rules[i], variationKey) || OutOfReachAfter(flag, safe, i, variationKey)
  }

  ghost predicate OutOfReachAfter(flag: Flag, safe: set<JsString>, i: int, variationKey: JsString) {
    && flag.defaultVariationKey != variationKey
    && forall j :: 0 <= j < |flag.rules| && i < j && IsRuleClientSafe(flag.rules[j], safe) ==>
         !MayPick(flag, flag.rules[j], variationKey)
  }

  /** The first kept match comes after a stripped first match. */
  lemma {:induction false} KeptMatchComesLater(
      rules: seq<Rule>, safe: set<JsString>, req: Request, segments: Segments) returns (i: nat, j: nat)
    requires FirstMatch(rules, req, segments).Some? && !IsRuleClientSafe(FirstMatch(rules, req, segments).value, safe)
    ensures i < |rules| && rules[i] == FirstMatch(rules, req, segments).value
    ensures var firstKept := FirstMatch(KeepSafeRules(rules, safe), req, segments);
            firstKept.Some? ==> i < j < |rules| && rules[j] == firstKept.value && IsRuleClientSafe(rules[j], safe)
  {
    if Matches(rules[0].when, req, segments, {}) {
      i, j := 0, 0;
      var firstKept := FirstMatch(KeepSafeRules(rules, safe), req, segments);
      if firstKept.Some? {
        FirstMatchMeaning(KeepSafeRules(rules, safe), req, segments);
        KeptRules(rules, safe, firstKept.value);
        j :| 0 <= j < |rules| && rules[j] == firstKept.value;
      }
    } else {
      i, j := KeptMatchComesLater(rules[1..], safe, req, segments);
      i, j := i + 1, j + 1;
      if IsRuleClientSafe(rules[0], safe) {
        assert KeepSafeRules(rules, safe)[1..] == KeepSafeRules(rules[1..], safe);
      }
    }
  }

  /** A first kept match that picks the variation is preceded by nothing stripped that picks another. */
  lemma PickedOnlyWithServer(flag: Flag, safe: set<JsString>, req: Request, segments: Segments, variationKey: JsString)
    requires StrippedSafely(flag, safe, variationKey)
    requires Picks(flag, FirstMatch(KeepSafeRules(flag.rules, safe), req, segments), req) == variationKey
    ensures Picks(flag, FirstMatch(flag.rules, req, segments), req) == variationKey
  {
    hide KeepSafeRules, FirstMatch, IsRuleClientSafe, AlwaysPicks, MayPick, BucketFor, ResolveBucketKey, KeyFor;
    FirstMatchAmongKept(flag.rules, safe, req, segments);
    var first := FirstMatch(flag.rules, req, segments);
    if first.Some? && !IsRuleClientSafe(first.value, safe) {
      var i, j := KeptMatchComesLater(flag.rules, safe, req, segments);
      PickWithin(flag, flag.rules[i], req, variationKey);
      if FirstMatch(KeepSafeRules(flag.rules, safe), req, segments).Some? {
        PickWithin(flag, flag.rules[j], req, variationKey);
      }
    }
  }

  /** A flag whose prerequisites lost no rule and which passes the test is never more included at the variation. */
  lemma IntactNeverMoreIncluded(
      snapshot: Snapshot, flagKey: JsString, req: Request, fallback: Value, scope: set<JsString>,
      variationKey: JsString)
    requires UniqueSegmentKeys(snapshot.segments) && Intact(snapshot, scope)
    requires flagKey in ServerEnvironment(snapshot).flags ==>
               && PrerequisiteKeys(ServerEnvironment(snapshot).flags[flagKey].flag) <= scope
               && StrippedSafely(
                    ServerEnvironment(snapshot).flags[flagKey].flag, SafeKeys(snapshot.segments), variationKey)
    ensures !MoreIncluded(snapshot, flagKey, req, fallback, variationKey)
  {
    hide SafeKeys, KeepSafeRules, FirstMatch, FailedPrerequisite, Evaluate, IsRuleClientSafe, AlwaysPicks, MayPick,
         MoreIncluded;
    IntactMoreIncludedExactly(snapshot, flagKey, req, fallback, scope, variationKey);
    if MoreIncluded(snapshot, flagKey, req, fallback, variationKey) {
      var server := ServerEnvironment(snapshot);
      PickedOnlyWithServer(
        server.flags[flagKey].flag, SafeKeys(snapshot.segments), req, server.segments, variationKey);
    }
  }

  // ----- the test over prerequisites

  /** The variation named does not depend on the caller's fallback. */
  lemma FallbackIsNoMatter(flagKey: JsString, req: Request, env: Environment, fallback: Value)
    ensures EvaluateFlagValue(flagKey, req, env, fallback).variationKey == GuardedServes(req, env)(flagKey)
  {
    hide RulesDecide, Picks, FirstMatch, FailedPrerequisite, ServeRules;
    if flagKey in env.flags {
      ServedVariation(env, flagKey, req, fallback);
      ServedVariation(env, flagKey, req, Undefined);
    }
  }

  lemma MoreIncludedAlone(
      snapshot: Snapshot, flagKey: JsString, req: Request, fallback: Value, variationKey: JsString)
    ensures MoreIncluded(snapshot, flagKey, req, fallback, variationKey)
            <==> GuardedServes(req, ClientEnvironment(snapshot))(flagKey) == variationKey
                 != GuardedServes(req, ServerEnvironment(snapshot))(flagKey)
  {
    hide ServerEnvironment, ClientEnvironment, GuardedServes, Evaluate;
    FallbackIsNoMatter(flagKey, req, ServerEnvironment(snapshot), fallback);
    FallbackIsNoMatter(flagKey, req, ClientEnvironment(snapshot), fallback);
  }

  /**
   * The test for one flag, lost rules of prerequisites included: it passes the test on its rules, and either its off
   * variation is another or nothing that its prerequisites reach lost a rule.
   */
  ghost predicate KeepsExcluded(snapshot: Snapshot, flagKey: JsString, variationKey: JsString) {
    var server := ServerEnvironment(snapshot);
    flagKey in server.flags ==>
      && StrippedSafely(server.flags[flagKey].flag, SafeKeys(snapshot.segments), variationKey)
      && (server.flags[flagKey].flag.offVariationKey != variationKey || PrerequisitesIntact(snapshot, flagKey))
  }

  /** Every flag that a flag of the scope requires passes the test at the variation required. */
  ghost predicate RequirementsKeepExcluded(snapshot: Snapshot, scope: set<JsString>) {
    var server := ServerEnvironment(snapshot);
    forall k <- scope :: k in server.flags ==>
      forall p <- server.flags[k].flag.prerequisites :: KeepsExcluded(snapshot, p.flagKey, p.variationKey)
  }

  /** The client names the variation only if the server does. */
  ghost predicate OnlyWithServer(snapshot: Snapshot, flagKey: JsString, req: Request, variationKey: JsString) {
    GuardedServes(req, ClientEnvironment(snapshot))(flagKey) == variationKey ==>
      GuardedServes(req, ServerEnvironment(snapshot))(flagKey) == variationKey
  }

  lemma {:induction false} MetOnlyWithServer(snapshot: Snapshot, prerequisites: seq<Prerequisite>, req: Request)
    requires forall p <- prerequisites :: OnlyWithServer(snapshot, p.flagKey, req, p.variationKey)
    ensures FailedByOracle(prerequisites, GuardedServes(req, ClientEnvironment(snapshot))) == None ==>
              FailedByOracle(prerequisites, GuardedServes(req, ServerEnvironment(snapshot))) == None
  {
    hide GuardedServes, ServerEnvironment, ClientEnvironment;
    if prerequisites != [] {
      assert prerequisites[0] in prerequisites && forall p :: p in prerequisites[1..] ==> p in prerequisites;
      MetOnlyWithServer(snapshot, prerequisites[1..], req);
    }
  }

  /** If each requirement is met on the client only if it is on the server, so are all of them together. */
  lemma DecidesOnlyWithServer(snapshot: Snapshot, flagKey: JsString, req: Request, scope: set<JsString>)
    requires UniqueSegmentKeys(snapshot.segments) && flagKey in scope
    requires AcyclicScope(FlagGraph(ServerEnvironment(snapshot).flags), scope)
    requires flagKey in ServerEnvironment(snapshot).flags
    requires forall p <- ServerEnvironment(snapshot).flags[flagKey].flag.prerequisites ::
               OnlyWithServer(snapshot, p.flagKey, req, p.variationKey)
    ensures RulesDecide(ClientEnvironment(snapshot), flagKey, req) ==>
              RulesDecide(ServerEnvironment(snapshot), flagKey, req)
  {
    hide SafeKeys, FailedByOracle, FailedPrerequisite, OnlyWithServer, GuardedServes, IndexFlags, IndexSegments,
         AcyclicScope;
    var server, client := ServerEnvironment(snapshot), ClientEnvironment(snapshot);
    SameFlagGraph(snapshot);
    FilteredFlagIndex(snapshot.flags, SafeKeys(snapshot.segments), flagKey);
    PrerequisitesUnderGuardedServes(flagKey, req, server, scope);
    PrerequisitesUnderGuardedServes(flagKey, req, client, scope);
    MetOnlyWithServer(snapshot, server.flags[flagKey].flag.prerequisites, req);
  }

  /** One flag, given that its rules decide on the client only if they do on the server. */
  lemma FlagOnlyWithServer(snapshot: Snapshot, flagKey: JsString, req: Request, variationKey: JsString)
    requires UniqueSegmentKeys(snapshot.segments) && flagKey in ServerEnvironment(snapshot).flags
    requires KeepsExcluded(snapshot, flagKey, variationKey)
    requires RulesDecide(ClientEnvironment(snapshot), flagKey, req) ==>
               RulesDecide(ServerEnvironment(snapshot), flagKey, req)
    ensures OnlyWithServer(snapshot, flagKey, req, variationKey)
  {
    hide SafeKeys, KeepSafeRules, FirstMatch, Picks, Evaluate, StrippedSafely, PrerequisitesIntact, RulesDecide,
         IndexFlags, IndexSegments;
    var server := ServerEnvironment(snapshot);
    var flag := server.flags[flagKey].flag;
    BothSidesServe(snapshot, flagKey, req, Undefined);
    if flag.offVariationKey != variationKey {
      if GuardedServes(req, ClientEnvironment(snapshot))(flagKey) == variationKey {
        PickedOnlyWithServer(flag, SafeKeys(snapshot.segments), req, server.segments, variationKey);
      }
    } else {
      IntactScopeExactly(snapshot, flagKey);
      var scope :| Intact(snapshot, scope) && PrerequisiteKeys(flag) <= scope;
      IntactNeverMoreIncluded(snapshot, flagKey, req, Undefined, scope, variationKey);
    }
  }

  lemma {:induction false} ServedOnlyWithServer(
      snapshot: Snapshot, flagKey: JsString, req: Request, scope: set<JsString>, variationKey: JsString,
      seen: set<JsString>)
    requires UniqueSegmentKeys(snapshot.segments) && flagKey in scope
    requires AcyclicScope(FlagGraph(ServerEnvironment(snapshot).flags), scope)
    requires RequirementsKeepExcluded(snapshot, scope) && KeepsExcluded(snapshot, flagKey, variationKey)
    requires Ancestors(FlagGraph(ServerEnvironment(snapshot).flags), seen, {flagKey})
    ensures OnlyWithServer(snapshot, flagKey, req, variationKey)
    decreases ServerEnvironment(snapshot).flags.Keys - seen
  {
    hide ServerEnvironment, ClientEnvironment, KeepsExcluded, OnlyWithServer, RulesDecide;
    var server := ServerEnvironment(snapshot);
    var g := FlagGraph(server.flags);
    if flagKey in server.flags {
      assert !OnCycle(g, flagKey) && flagKey !in seen;
      AncestorsStep(g, seen, flagKey);
      forall p | p in server.flags[flagKey].flag.prerequisites
        ensures OnlyWithServer(snapshot, p.flagKey, req, p.variationKey)
      {
        assert p.flagKey in g[flagKey];
        ServedOnlyWithServer(snapshot, p.flagKey, req, scope, p.variationKey, seen + {flagKey});
      }
      DecidesOnlyWithServer(snapshot, flagKey, req, scope);
      FlagOnlyWithServer(snapshot, flagKey, req, variationKey);
    } else {
      UnknownOnlyWithServer(snapshot, flagKey, req, variationKey);
    }
  }

  lemma UnknownOnlyWithServer(snapshot: Snapshot, flagKey: JsString, req: Request, variationKey: JsString)
    requires flagKey !in ServerEnvironment(snapshot).flags
    ensures OnlyWithServer(snapshot, flagKey, req, variationKey)
  {
    hide ServerEnvironment, ClientEnvironment, Evaluate;
    UnknownOnBothSides(snapshot, flagKey, req, Undefined);
  }

  /**
   * What an author can check before publishing: on an acyclic prerequisite scope where every flag passes the test at
   * the variations required of it, a flag that passes it at a variation is never more included there, whatever the
   * request and whichever rules its prerequisites lost.
   */
  lemma NeverMoreIncluded(
      snapshot: Snapshot, flagKey: JsString, req: Request, fallback: Value, scope: set<JsString>,
      variationKey: JsString)
    requires UniqueSegmentKeys(snapshot.segments) && flagKey in scope
    requires AcyclicScope(FlagGraph(ServerEnvironment(snapshot).flags), scope)
    requires RequirementsKeepExcluded(snapshot, scope) && KeepsExcluded(snapshot, flagKey, variationKey)
    ensures !MoreIncluded(snapshot, flagKey, req, fallback, variationKey)
  {
    hide ServerEnvironment, ClientEnvironment, KeepsExcluded, RequirementsKeepExcluded, RulesDecide, Evaluate,
         AcyclicScope, FlagGraph, GuardedServes, MoreIncluded;
    ServedOnlyWithServer(snapshot, flagKey, req, scope, variationKey, {});
    MoreIncludedAlone(snapshot, flagKey, req, fallback, variationKey);
  }

  // ----- exactly when nothing in a scope is more included anywhere

  /** The rules decide on the server, and stripping changes what they pick. */
  ghost predicate PicksDiffer(snapshot: Snapshot, flagKey: JsString, req: Request) {
    var server := ServerEnvironment(snapshot);
    && RulesDecide(server, flagKey, req)
    && var flag := server.flags[flagKey].flag;
       var kept := KeepSafeRules(flag.rules, SafeKeys(snapshot.segments));
       Picks(flag, FirstMatch(flag.rules, req, server.segments), req)
       != Picks(flag, FirstMatch(kept, req, server.segments), req)
  }

  ghost predicate NowhereMoreIncluded(snapshot: Snapshot, flagKey: JsString, req: Request) {
    forall fallback, variationKey :: !MoreIncluded(snapshot, flagKey, req, fallback, variationKey)
  }

  /** Being more included at no variation is naming the same one. */
  lemma NowhereMeansSame(snapshot: Snapshot, flagKey: JsString, req: Request)
    ensures NowhereMoreIncluded(snapshot, flagKey, req) <==> SameVariation(snapshot, flagKey, req)
  {
    hide ServerEnvironment, ClientEnvironment, GuardedServes, MoreIncluded;
    var server, client := ServerEnvironment(snapshot), ClientEnvironment(snapshot);
    forall fallback, variationKey
      ensures MoreIncluded(snapshot, flagKey, req, fallback, variationKey)
              <==> GuardedServes(req, client)(flagKey) == variationKey != GuardedServes(req, server)(flagKey)
    {
      MoreIncludedAlone(snapshot, flagKey, req, fallback, variationKey);
    }
    if !SameVariation(snapshot, flagKey, req) {
      assert MoreIncluded(snapshot, flagKey, req, Undefined, GuardedServes(req, client)(flagKey));
    }
  }

  lemma {:induction false} SamePicksSameVariation(
      snapshot: Snapshot, flagKey: JsString, req: Request, scope: set<JsString>, seen: set<JsString>)
    requires UniqueSegmentKeys(snapshot.segments) && flagKey in scope
    requires AcyclicScope(FlagGraph(ServerEnvironment(snapshot).flags), scope)
    requires forall k <- scope :: !PicksDiffer(snapshot, k, req)
    requires Ancestors(FlagGraph(ServerEnvironment(snapshot).flags), seen, {flagKey})
    ensures SameVariation(snapshot, flagKey, req)
    decreases ServerEnvironment(snapshot).flags.Keys - seen
  {
    hide ServerEnvironment, ClientEnvironment, PicksDiffer, SameVariation, RulesDecide;
    var server := ServerEnvironment(snapshot);
    var g := FlagGraph(server.flags);
    if flagKey in server.flags {
      assert !OnCycle(g, flagKey) && flagKey !in seen;
      AncestorsStep(g, seen, flagKey);
      forall k | k in PrerequisiteKeys(server.flags[flagKey].flag) ensures SameVariation(snapshot, k, req) {
        SamePicksSameVariation(snapshot, k, req, scope, seen + {flagKey});
      }
      SameRequirements(snapshot, flagKey, req, scope);
      SameFlagVariation(snapshot, flagKey, req);
    } else {
      UnknownSameVariation(snapshot, flagKey, req);
    }
  }

  lemma SameFlagVariation(snapshot: Snapshot, flagKey: JsString, req: Request)
    requires UniqueSegmentKeys(snapshot.segments) && flagKey in ServerEnvironment(snapshot).flags
    requires RulesDecide(ClientEnvironment(snapshot), flagKey, req)
             == RulesDecide(ServerEnvironment(snapshot), flagKey, req)
    ensures SameVariation(snapshot, flagKey, req) <==> !PicksDiffer(snapshot, flagKey, req)
  {
    hide ServerEnvironment, ClientEnvironment, SafeKeys, KeepSafeRules, FirstMatch, Picks, Evaluate, RulesDecide,
         GuardedServes;
    BothSidesServe(snapshot, flagKey, req, Undefined);
    FallbackIsNoMatter(flagKey, req, ServerEnvironment(snapshot), Undefined);
    FallbackIsNoMatter(flagKey, req, ClientEnvironment(snapshot), Undefined);
  }

  lemma UnknownSameVariation(snapshot: Snapshot, flagKey: JsString, req: Request)
    requires flagKey !in ServerEnvironment(snapshot).flags
    ensures SameVariation(snapshot, flagKey, req) && !PicksDiffer(snapshot, flagKey, req)
  {
    hide ServerEnvironment, ClientEnvironment, Evaluate;
    UnknownOnBothSides(snapshot, flagKey, req, Undefined);
  }

  lemma SameVariationSamePicks(snapshot: Snapshot, flagKey: JsString, req: Request, scope: set<JsString>)
    requires UniqueSegmentKeys(snapshot.segments) && flagKey in scope
    requires AcyclicScope(FlagGraph(ServerEnvironment(snapshot).flags), scope)
    requires forall k <- scope :: SameVariation(snapshot, k, req)
    ensures !PicksDiffer(snapshot, flagKey, req)
  {
    hide ServerEnvironment, ClientEnvironment, PicksDiffer, SameVariation, RulesDecide, AcyclicScope, FlagGraph;
    if flagKey in ServerEnvironment(snapshot).flags {
      SameDecision(snapshot, flagKey, req, scope);
      SameFlagVariation(snapshot, flagKey, req);
    } else {
      UnknownSameVariation(snapshot, flagKey, req);
    }
  }

  /**
   * On an acyclic scope, for one request, no flag is more included at any variation exactly when stripping changes no
   * pick of a flag whose rules decide on the server.
   */
  lemma ScopeNeverMoreIncludedExactly(snapshot: Snapshot, req: Request, scope: set<JsString>)
    requires UniqueSegmentKeys(snapshot.segments) && AcyclicScope(FlagGraph(ServerEnvironment(snapshot).flags), scope)
    ensures (forall k <- scope :: NowhereMoreIncluded(snapshot, k, req))
            <==> (forall k <- scope :: !PicksDiffer(snapshot, k, req))
  {
    hide ServerEnvironment, ClientEnvironment, PicksDiffer, SameVariation, NowhereMoreIncluded, AcyclicScope, FlagGraph;
    forall k | k in scope
      ensures NowhereMoreIncluded(snapshot, k, req) <==> SameVariation(snapshot, k, req)
    {
      NowhereMeansSame(snapshot, k, req);
    }
    if forall k <- scope :: !PicksDiffer(snapshot, k, req) {
      forall k | k in scope ensures SameVariation(snapshot, k, req) {
        SamePicksSameVariation(snapshot, k, req, scope, {});
      }
    }
    if forall k <- scope :: NowhereMoreIncluded(snapshot, k, req) {
      forall k | k in scope ensures !PicksDiffer(snapshot, k, req) {
        SameVariationSamePicks(snapshot, k, req, scope);
      }
    }
  }

  // ----- the blanket claim that a client is never more included fails

  /** A server-only rule serves off before a public rule serves on. */
  const EXCLUDING: Flag := Flag(
    NAME, true, [], KEY_ATTRIBUTE,
    [Variation(ON, Undefined), Variation(OFF, Undefined)],
    OFF, OFF, [],
    [Rule([49], Condition(KEY_ATTRIBUTE, Neq, [Null], Server), Fixed(OFF)), Rule([50], And([]), Fixed(ON))])

  /** That flag as the client has it. */
  const EXCLUDING_KEPT: Flag := EXCLUDING.(rules := [EXCLUDING.rules[1]])

  const DEPENDENT_NAME: JsString := [103]

  /** No rules of its own: on for whoever is served on by the other flag. */
  const DEPENDENT: Flag := Flag(
    DEPENDENT_NAME, true, [], KEY_ATTRIBUTE,
    [Variation(ON, Undefined), Variation(OFF, Undefined)],
    ON, OFF, [Prerequisite(NAME, ON)], [])

  const EXCLUDING_SNAPSHOT: Snapshot := Snapshot([], 1, [EXCLUDING, DEPENDENT], [], [])

  lemma OnOffVariations()
    ensures VariationKeys(EXCLUDING.variations) == {ON, OFF} && DistinctVariations(EXCLUDING.variations)
    ensures IndexVariations(EXCLUDING.variations).Keys == {ON, OFF}
    ensures DEPENDENT.variations == EXCLUDING.variations
  {
    var variations := EXCLUDING.variations;
    assert variations[0] in variations && variations[1] in variations;
    assert |ON| != |OFF|;
    forall k ensures k in IndexVariations(variations) <==> k in {ON, OFF} {
      IndexVariationsMeaning(variations, k);
    }
  }

  lemma ExcludingRule(i: nat)
    requires i < 2
    ensures RuleProblems(EXCLUDING, i, {}) == []
  {
    hide VariationKeys;
    OnOffVariations();
    assert InsertRefs(EXCLUDING.rules[i].when, []) == [];
  }

  lemma ExcludingReport()
    ensures FlagProblems(EXCLUDING, {}) == []
  {
    hide RuleProblems, VariationKeys, DistinctVariations, IndexVariations;
    OnOffVariations();
    ExcludingRule(0);
    ExcludingRule(1);
    assert RulesProblems(EXCLUDING, 1, {}) == RulesProblems(EXCLUDING, 0, {}) + [] == [];
    assert RulesProblems(EXCLUDING, 2, {}) == RulesProblems(EXCLUDING, 1, {}) + [] == [];
  }

  lemma DependentReport(flagKeys: set<JsString>)
    requires NAME in flagKeys
    ensures FlagProblems(DEPENDENT, {}) == [] && PrerequisiteProblems(DEPENDENT, 1, flagKeys) == []
  {
    hide VariationKeys, DistinctVariations, IndexVariations;
    OnOffVariations();
    assert PrerequisiteProblems(DEPENDENT, 0, flagKeys) == [];
  }

  lemma NothingToReport()
    ensures ProblemReport(EXCLUDING_SNAPSHOT.flags, []) == []
  {
    hide FlagProblems;
    var flags := EXCLUDING_SNAPSHOT.flags;
    assert SegmentKeys([]) == {};
    assert flags[0] in flags && NAME in FlagKeys(flags);
    ExcludingReport();
    DependentReport(FlagKeys(flags));
    assert PrerequisiteProblems(EXCLUDING, 0, FlagKeys(flags)) == [];
    assert FlagsProblems(flags, 1, {}) == FlagsProblems(flags, 0, {}) + [] + [] == [];
    assert FlagsProblems(flags, 2, {}) == FlagsProblems(flags, 1, {}) + [] + [] == [];
  }

  lemma TwoFlagsIndexed(a: Flag, b: Flag)
    requires a.key != b.key
    ensures IndexFlags([a, b]).Keys == {a.key, b.key}
    ensures IndexFlags([a, b])[a.key] == CompiledFlag(a, IndexVariations(a.variations))
    ensures IndexFlags([a, b])[b.key] == CompiledFlag(b, IndexVariations(b.variations))
  {
    hide IndexVariations;
    OneFlagIndexed(a);
    assert [a, b][..1] == [a];
  }

  lemma NoLoop()
    ensures Acyclic(PrerequisiteGraph(EXCLUDING_SNAPSHOT.flags))
  {
    hide IndexVariations;
    var g := PrerequisiteGraph(EXCLUDING_SNAPSHOT.flags);
    TwoFlagsIndexed(EXCLUDING, DEPENDENT);
    assert g.Keys == {NAME, DEPENDENT_NAME};
    assert g[NAME] == {} && g[DEPENDENT_NAME] == {NAME};
    var order := [NAME, DEPENDENT_NAME];
    assert order[0] != order[1] && NAME in order[..1];
    assert IsRank(g, order);
    RankMeansAcyclic(g, order);
  }

  /** The compiler accepts the ruleset. */
  lemma ExcludingCompiles()
    ensures WellFormed(EXCLUDING_SNAPSHOT.flags, EXCLUDING_SNAPSHOT.segments)
  {
    hide IsProblem, ProblemReport, Acyclic;
    NothingToReport();
    NoLoop();
    ReportMeaning(EXCLUDING_SNAPSHOT.flags, []);
    forall p ensures !IsProblem(EXCLUDING_SNAPSHOT.flags, [], p) {
      assert p !in ProblemReport(EXCLUDING_SNAPSHOT.flags, []);
    }
  }

  lemma ExcludingOnServer(req: Request, env: Environment, fallback: Value, seen: set<JsString>)
    requires req.applies(Neq, Str(req.context.key), [Null]) && NAME !in seen
    requires NAME in env.flags && env.flags[NAME] == CompiledFlag(EXCLUDING, IndexVariations(EXCLUDING.variations))
    ensures Evaluate(NAME, req, env, fallback, seen).variationKey == OFF
  {
    hide IndexVariations, ResolveBucketKey;
    OnOffVariations();
    assert FailedPrerequisite([], req, env, seen + {NAME}) == None;
    assert FirstMatch(EXCLUDING.rules, req, env.segments) == Some(EXCLUDING.rules[0]);
  }

  lemma ExcludingOnClient(req: Request, env: Environment, fallback: Value, seen: set<JsString>)
    requires NAME !in seen && NAME in env.flags
    requires env.flags[NAME] == CompiledFlag(EXCLUDING_KEPT, IndexVariations(EXCLUDING.variations))
    ensures Evaluate(NAME, req, env, fallback, seen).variationKey == ON
  {
    hide IndexVariations, ResolveBucketKey;
    OnOffVariations();
    assert FailedPrerequisite([], req, env, seen + {NAME}) == None;
    OneRuleMatches(EXCLUDING.rules[1], req, env.segments);
  }

  /** What each side has: the server both flags, the client the second rule of the first and all of the second. */
  lemma ExcludingPayloads()
    ensures var server, client := ServerEnvironment(EXCLUDING_SNAPSHOT), ClientEnvironment(EXCLUDING_SNAPSHOT);
            var variations := IndexVariations(EXCLUDING.variations);
            && server.flags.Keys == client.flags.Keys == {NAME, DEPENDENT_NAME}
            && server.flags[NAME] == CompiledFlag(EXCLUDING, variations)
            && client.flags[NAME] == CompiledFlag(EXCLUDING_KEPT, variations)
            && server.flags[DEPENDENT_NAME] == client.flags[DEPENDENT_NAME] == CompiledFlag(DEPENDENT, variations)
  {
    hide SafeKeys, IndexFlags, IndexVariations;
    var safe := SafeKeys([]);
    OneKept(EXCLUDING.rules[0], EXCLUDING.rules[1], safe);
    assert EXCLUDING.rules == [EXCLUDING.rules[0], EXCLUDING.rules[1]];
    assert FilterFlag(EXCLUDING, safe) == EXCLUDING_KEPT;
    assert KeepSafeRules([], safe) == [];
    assert FilterFlag(DEPENDENT, safe) == DEPENDENT;
    assert FilterFlags(EXCLUDING_SNAPSHOT.flags, safe) == [EXCLUDING_KEPT, DEPENDENT];
    TwoFlagsIndexed(EXCLUDING, DEPENDENT);
    TwoFlagsIndexed(EXCLUDING_KEPT, DEPENDENT);
    OnOffVariations();
  }

  lemma OneKept(first: Rule, second: Rule, safe: set<JsString>)
    requires !IsRuleClientSafe(first, safe) && IsRuleClientSafe(second, safe)
    ensures KeepSafeRules([first, second], safe) == [second]
  {
    assert [first, second][1..] == [second];
    assert [second][1..] == [];
    assert KeepSafeRules([second], safe) == [second] + KeepSafeRules([], safe);
  }

  /** The client gets on, the server off: a stripped rule decided. */
  lemma ClientCanBeMoreIncluded(req: Request, fallback: Value)
    requires req.applies(Neq, Str(req.context.key), [Null])
    ensures WellFormed(EXCLUDING_SNAPSHOT.flags, EXCLUDING_SNAPSHOT.segments)
    ensures EvaluateFlagValue(NAME, req, ServerEnvironment(EXCLUDING_SNAPSHOT), fallback).variationKey == OFF
    ensures EvaluateFlagValue(NAME, req, ClientEnvironment(EXCLUDING_SNAPSHOT), fallback).variationKey == ON
  {
    hide WellFormed, Evaluate, ServerEnvironment, ClientEnvironment;
    ExcludingCompiles();
    ExcludingPayloads();
    ExcludingOnServer(req, ServerEnvironment(EXCLUDING_SNAPSHOT), fallback, {});
    ExcludingOnClient(req, ClientEnvironment(EXCLUDING_SNAPSHOT), fallback, {});
  }

  lemma DependentFollows(req: Request, env: Environment, fallback: Value)
    requires DEPENDENT_NAME in env.flags
    requires env.flags[DEPENDENT_NAME] == CompiledFlag(DEPENDENT, IndexVariations(EXCLUDING.variations))
    ensures EvaluateFlagValue(DEPENDENT_NAME, req, env, fallback).variationKey ==
            if Evaluate(NAME, req, env, Undefined, {DEPENDENT_NAME}).variationKey == ON then ON else OFF
  {
    hide IndexVariations, ResolveBucketKey, Evaluate;
    ServedVariation(env, DEPENDENT_NAME, req, fallback);
    var prerequisites := DEPENDENT.prerequisites;
    assert {} + {DEPENDENT_NAME} == {DEPENDENT_NAME};
    assert prerequisites[1..] == [] && prerequisites[0] == Prerequisite(NAME, ON);
    assert FailedPrerequisite([], req, env, {DEPENDENT_NAME}) == None;
    assert FailedPrerequisite(prerequisites, req, env, {DEPENDENT_NAME}).None?
        <==> Evaluate(NAME, req, env, Undefined, {DEPENDENT_NAME}).variationKey == ON;
    assert FirstMatch([], req, env.segments) == None;
  }

  /** So it is for a flag that lost no rule, whose own rules pass the test: its prerequisite is more included. */
  lemma PrerequisiteCanIncludeMore(req: Request, fallback: Value)
    requires req.applies(Neq, Str(req.context.key), [Null])
    ensures StrippedSafely(DEPENDENT, SafeKeys(EXCLUDING_SNAPSHOT.segments), ON)
    ensures MoreIncluded(EXCLUDING_SNAPSHOT, DEPENDENT_NAME, req, fallback, ON)
  {
    hide Evaluate, ServerEnvironment, ClientEnvironment, SafeKeys, IndexVariations;
    ExcludingPayloads();
    DependentFollows(req, ServerEnvironment(EXCLUDING_SNAPSHOT), fallback);
    DependentFollows(req, ClientEnvironment(EXCLUDING_SNAPSHOT), fallback);
    ExcludingOnServer(req, ServerEnvironment(EXCLUDING_SNAPSHOT), Undefined, {DEPENDENT_NAME});
    ExcludingOnClient(req, ClientEnvironment(EXCLUDING_SNAPSHOT), Undefined, {DEPENDENT_NAME});
  }
}
