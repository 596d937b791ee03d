/**
 * Filtering seen from a whole prerequisite scope: the two sides agree on all its flags exactly when none of them
 * diverges.
 */
module ScopeAgreement {
  import opened Text
  import opened Graphs
  import opened Ruleset
  import opened Evaluation
  import opened Outcomes
  import opened Guards
  import opened Visibility
  import opened FilterMeaning

  /** Client and server give one result, whatever the fallback. */
  ghost predicate SidesAgree(snapshot: Snapshot, flagKey: JsString, req: Request) {
    forall fallback ::
      EvaluateFlagValue(flagKey, req, ClientEnvironment(snapshot), fallback)
      == EvaluateFlagValue(flagKey, req, ServerEnvironment(snapshot), fallback)
  }

  /** Filtering keeps flags and prerequisites, so cycles too. */
  lemma SameFlagGraph(snapshot: Snapshot)
    ensures FlagGraph(ClientEnvironment(snapshot).flags) == FlagGraph(ServerEnvironment(snapshot).flags)
  {
    hide SafeKeys, IndexFlags, IndexSegments, KeepSafeRules;
    var safe := SafeKeys(snapshot.segments);
    var server, client := ServerEnvironment(snapshot), ClientEnvironment(snapshot);
    forall k
      ensures k in client.flags <==> k in server.flags
      ensures k in server.flags ==> PrerequisiteKeys(client.flags[k].flag) == PrerequisiteKeys(server.flags[k].flag)
    {
      FilteredFlagIndex(snapshot.flags, safe, k);
    }
  }

  /** Under one oracle for prerequisites, a flag that does not diverge comes out the same on both sides. */
  lemma PlainlySame(
      snapshot: Snapshot, flagKey: JsString, req: Request, fallback: Value, scope: set<JsString>,
      serves: JsString -> JsString)
    requires UniqueSegmentKeys(snapshot.segments) && flagKey in scope
    requires AcyclicScope(FlagGraph(ServerEnvironment(snapshot).flags), scope)
    requires serves == GuardedServes(req, ServerEnvironment(snapshot)) && !Diverges(snapshot, flagKey, req)
    ensures EvaluatePlainly(flagKey, req, ClientEnvironment(snapshot), fallback, serves)
            == EvaluatePlainly(flagKey, req, ServerEnvironment(snapshot), fallback, serves)
  {
    hide SafeKeys, ServeRules, FailedByOracle, FailedPrerequisite, StrippedDecides, Evaluate, IndexFlags, IndexSegments,
      FlagGraph, AcyclicScope;
    var server := ServerEnvironment(snapshot);
    FilteredFlagIndex(snapshot.flags, SafeKeys(snapshot.segments), flagKey);
    if flagKey in server.flags {
      ClientRules(snapshot, flagKey, req, fallback);
      PrerequisitesUnderGuardedServes(flagKey, req, server, scope);
      if RulesDecide(server, flagKey, req) {
        UnstrippedServesSame(server.flags[flagKey], SafeKeys(snapshot.segments), req, server.segments, fallback);
      }
    }
  }

  /** If no flag of an acyclic scope diverges for a request, the sides agree on every flag of it, rules lost or not. */
  lemma ScopeAgrees(snapshot: Snapshot, req: Request, scope: set<JsString>)
    requires UniqueSegmentKeys(snapshot.segments) && AcyclicScope(FlagGraph(ServerEnvironment(snapshot).flags), scope)
    requires forall k <- scope :: !Diverges(snapshot, k, req)
    ensures forall k <- scope :: SidesAgree(snapshot, k, req)
  {
    hide Evaluate, EvaluatePlainly, Diverges, ClientEnvironment, ServerEnvironment, FlagGraph, AcyclicScope;
    var server, client := ServerEnvironment(snapshot), ClientEnvironment(snapshot);
    var serves := GuardedServes(req, server);
    SameFlagGraph(snapshot);
    GuardedServesSolves(req, server, scope);
    forall k, fallback | k in scope
      ensures EvaluatePlainly(k, req, client, fallback, serves) == EvaluatePlainly(k, req, server, fallback, serves)
    {
      PlainlySame(snapshot, k, req, fallback, scope, serves);
    }
    assert SolvesFlags(serves, req, client, scope);
    forall k, fallback | k in scope
      ensures EvaluateFlagValue(k, req, client, fallback) == EvaluateFlagValue(k, req, server, fallback)
    {
      PrerequisiteGuardTransparent(k, req, client, fallback, scope, serves);
      PrerequisiteGuardTransparent(k, req, server, fallback, scope, serves);
    }
  }

  lemma {:induction false} SameOracleSameFailure(
      prerequisites: seq<Prerequisite>, serves1: JsString -> JsString, serves2: JsString -> JsString)
    requires forall p <- prerequisites :: serves1(p.flagKey) == serves2(p.flagKey)
    ensures FailedByOracle(prerequisites, serves1) == FailedByOracle(prerequisites, serves2)
  {
    if prerequisites != [] {
      assert prerequisites[0] in prerequisites && forall p :: p in prerequisites[1..] ==> p in prerequisites;
      SameOracleSameFailure(prerequisites[1..], serves1, serves2);
    }
  }

  /** Client and server name one variation. */
  ghost predicate SameVariation(snapshot: Snapshot, flagKey: JsString, req: Request) {
    GuardedServes(req, ServerEnvironment(snapshot))(flagKey) ==
    GuardedServes(req, ClientEnvironment(snapshot))(flagKey)
  }

  lemma SameServes(snapshot: Snapshot, flagKey: JsString, req: Request)
    requires SidesAgree(snapshot, flagKey, req)
    ensures SameVariation(snapshot, flagKey, req)
  {
    hide Evaluate, ServerEnvironment, ClientEnvironment;
    var server, client := ServerEnvironment(snapshot), ClientEnvironment(snapshot);
    assert EvaluateFlagValue(flagKey, req, client, Undefined) == EvaluateFlagValue(flagKey, req, server, Undefined);
  }

  lemma PrerequisitesServeSame(snapshot: Snapshot, compiled: CompiledFlag, req: Request, scope: set<JsString>)
    requires PrerequisiteKeys(compiled.flag) <= scope && forall k <- scope :: SameVariation(snapshot, k, req)
    ensures FailedByOracle(compiled.flag.prerequisites, GuardedServes(req, ServerEnvironment(snapshot)))
            == FailedByOracle(compiled.flag.prerequisites, GuardedServes(req, ClientEnvironment(snapshot)))
  {
    hide GuardedServes, FailedByOracle, ServerEnvironment, ClientEnvironment;
    var serves1, serves2 := GuardedServes(req, ServerEnvironment(snapshot)),
      GuardedServes(req, ClientEnvironment(snapshot));
    forall p | p in compiled.flag.prerequisites ensures serves1(p.flagKey) == serves2(p.flagKey) {
      assert p.flagKey in PrerequisiteKeys(compiled.flag);
      assert SameVariation(snapshot, p.flagKey, req);
    }
    SameOracleSameFailure(compiled.flag.prerequisites, serves1, serves2);
  }

  /** Where the sides name the same variations for what a flag requires, they agree on whether that is met. */
  lemma SameRequirements(snapshot: Snapshot, flagKey: JsString, req: Request, scope: set<JsString>)
    requires UniqueSegmentKeys(snapshot.segments) && flagKey in scope && flagKey in ServerEnvironment(snapshot).flags
    requires AcyclicScope(FlagGraph(ServerEnvironment(snapshot).flags), scope)
    requires forall k <- PrerequisiteKeys(ServerEnvironment(snapshot).flags[flagKey].flag) ::
               SameVariation(snapshot, k, req)
    ensures RulesDecide(ClientEnvironment(snapshot), flagKey, req)
            == RulesDecide(ServerEnvironment(snapshot), flagKey, req)
  {
    hide SafeKeys, FailedByOracle, FailedPrerequisite, SameVariation, GuardedServes, IndexFlags, IndexSegments,
         AcyclicScope;
    var server, client := ServerEnvironment(snapshot), ClientEnvironment(snapshot);
    SameFlagGraph(snapshot);
    FilteredFlagIndex(snapshot.flags, SafeKeys(snapshot.segments), flagKey);
    PrerequisitesUnderGuardedServes(flagKey, req, server, scope);
    PrerequisitesUnderGuardedServes(flagKey, req, client, scope);
    PrerequisitesServeSame(
      snapshot, server.flags[flagKey], req, PrerequisiteKeys(server.flags[flagKey].flag));
  }

  /** Where the sides name the same variations on the scope, they agree on whether prerequisites are met. */
  lemma SameDecision(snapshot: Snapshot, flagKey: JsString, req: Request, scope: set<JsString>)
    requires UniqueSegmentKeys(snapshot.segments) && flagKey in scope
    requires AcyclicScope(FlagGraph(ServerEnvironment(snapshot).flags), scope)
    requires forall k <- scope :: SameVariation(snapshot, k, req)
    ensures RulesDecide(ClientEnvironment(snapshot), flagKey, req) ==
            RulesDecide(ServerEnvironment(snapshot), flagKey, req)
  {
    hide SameVariation, RulesDecide, ServerEnvironment, ClientEnvironment, FlagGraph;
    var server := ServerEnvironment(snapshot);
    if flagKey in server.flags {
      RequirementsInScope(server, scope, flagKey);
      SameRequirements(snapshot, flagKey, req, scope);
    } else {
      UnknownDecidesNothing(snapshot, flagKey, req);
    }
  }

  lemma UnknownDecidesNothing(snapshot: Snapshot, flagKey: JsString, req: Request)
    requires flagKey !in ServerEnvironment(snapshot).flags
    ensures !RulesDecide(ServerEnvironment(snapshot), flagKey, req)
    ensures !RulesDecide(ClientEnvironment(snapshot), flagKey, req)
  {
    hide SafeKeys, IndexFlags;
    FilteredFlagIndex(snapshot.flags, SafeKeys(snapshot.segments), flagKey);
  }

  lemma RequirementsInScope(env: Environment, scope: set<JsString>, k: JsString)
    requires AcyclicScope(FlagGraph(env.flags), scope) && k in scope && k in env.flags
    ensures PrerequisiteKeys(env.flags[k].flag) <= scope
  {
    assert FlagGraph(env.flags)[k] == PrerequisiteKeys(env.flags[k].flag);
  }

  /** A flag that passed validation and has distinct rule ids. */
  ghost predicate Validated(compiled: CompiledFlag) {
    ServesDeclared(compiled) && DistinctRuleIds(compiled.flag.rules)
  }

  lemma DivergenceShows(snapshot: Snapshot, flagKey: JsString, req: Request, scope: set<JsString>)
    requires UniqueSegmentKeys(snapshot.segments) && flagKey in scope
    requires AcyclicScope(FlagGraph(ServerEnvironment(snapshot).flags), scope)
    requires forall k <- scope :: SidesAgree(snapshot, k, req)
    requires flagKey in ServerEnvironment(snapshot).flags ==> Validated(ServerEnvironment(snapshot).flags[flagKey])
    ensures !Diverges(snapshot, flagKey, req)
  {
    hide SafeKeys, StrippedDecides, FailedPrerequisite, ServerEnvironment, ClientEnvironment, SameVariation, Evaluate,
         AcyclicScope, FlagGraph, Validated;
    if Diverges(snapshot, flagKey, req) {
      forall k | k in scope ensures SameVariation(snapshot, k, req) {
        SameServes(snapshot, k, req);
      }
      SameDecision(snapshot, flagKey, req, scope);
      DivergentResultsDiffer(snapshot, flagKey, req);
    }
  }

  lemma DivergentResultsDiffer(snapshot: Snapshot, flagKey: JsString, req: Request)
    requires UniqueSegmentKeys(snapshot.segments) && Diverges(snapshot, flagKey, req)
    requires RulesDecide(ClientEnvironment(snapshot), flagKey, req)
             && Validated(ServerEnvironment(snapshot).flags[flagKey])
    ensures EvaluateFlagValue(flagKey, req, ClientEnvironment(snapshot), Undefined)
            != EvaluateFlagValue(flagKey, req, ServerEnvironment(snapshot), Undefined)
  {
    hide SafeKeys, ServeRules, FailedPrerequisite, StrippedDecides, IndexFlags, IndexSegments, ServesDeclared,
         DistinctRuleIds;
    var server := ServerEnvironment(snapshot);
    ClientRules(snapshot, flagKey, req, Undefined);
    StrippedServesDifferently(server.flags[flagKey], SafeKeys(snapshot.segments), req, server.segments, Undefined);
  }

  /** The exact condition for a whole acyclic scope of validated flags. */
  lemma ScopeAgreesExactly(snapshot: Snapshot, req: Request, scope: set<JsString>)
    requires UniqueSegmentKeys(snapshot.segments) && AcyclicScope(FlagGraph(ServerEnvironment(snapshot).flags), scope)
    requires forall k <- scope :: k in ServerEnvironment(snapshot).flags ==>
             Validated(ServerEnvironment(snapshot).flags[k])
    ensures (forall k <- scope :: SidesAgree(snapshot, k, req)) <==> (forall k <- scope :: !Diverges(snapshot, k, req))
  {
    hide SidesAgree, Diverges, AcyclicScope, FlagGraph, ServerEnvironment, Validated;
    if forall k <- scope :: !Diverges(snapshot, k, req) {
      ScopeAgrees(snapshot, req, scope);
    }
    if forall k <- scope :: SidesAgree(snapshot, k, req) {
      forall k | k in scope ensures !Diverges(snapshot, k, req) {
        DivergenceShows(snapshot, k, req, scope);
      }
    }
  }
}
