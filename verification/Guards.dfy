/**
 * What the cycle guards do. Away from cycles they change nothing: the guarded evaluator
 * computes the one solution of the plain recursive equations, in which a segment
 * reference means its segment and a prerequisite means its flag.
 */
module Guards {
  import opened Text
  import opened Graphs
  import opened Ruleset
  import opened Evaluation
  import opened Locality

  /** Matching without guards: the truth of every segment is given by an oracle. */
  function Holds(node: RuleNode, req: Request, segments: Segments, truth: JsString -> bool): bool {
    match node
    case Condition(attribute, operator, values, _) =>
      ApplyOperator(req, operator, ResolveAttribute(req.context, attribute), values)
    case And(children) => AllHold(children, req, segments, truth)
    case Or(children) => AnyHolds(children, req, segments, truth)
    case Not(children) => !AllHold(children, req, segments, truth)
    case SegmentRef(key, negate) => key in segments && truth(key) != negate
    case Unknown => false
  }

  function AllHold(children: seq<RuleNode>, req: Request, segments: Segments, truth: JsString -> bool): bool {
    forall child <- children :: Holds(child, req, segments, truth)
  }

  function AnyHolds(children: seq<RuleNode>, req: Request, segments: Segments, truth: JsString -> bool): bool {
    exists child <- children :: Holds(child, req, segments, truth)
  }

  /** The oracle agrees with the tree of every segment in the scope. */
  ghost predicate SolvesSegments(truth: JsString -> bool, req: Request, segments: Segments, scope: set<JsString>) {
    forall k <- scope :: k in segments ==> truth(k) == Holds(segments[k].when, req, segments, truth)
  }

  /** Everything being expanded leads to everything still referred to. */
  ghost predicate Ancestors(g: Graph, seen: set<JsString>, refs: set<JsString>) {
    forall s, r :: s in seen && r in refs ==> Leads(g, s, r)
  }

  lemma AncestorsStep(g: Graph, seen: set<JsString>, k: JsString)
    requires k in g && Ancestors(g, seen, {k})
    ensures Ancestors(g, seen + {k}, g[k])
  {
    forall s, r | s in seen + {k} && r in g[k] ensures Leads(g, s, r) {
      EdgeLeads(g, k, r);
      if s in seen {
        assert Leads(g, s, k);
        LeadsReaches(g, k, r);
        LeadsThenReaches(g, s, k, r);
      }
    }
  }

  lemma {:induction false} GuardsTransparentForNode(
      node: RuleNode, req: Request, segments: Segments, scope: set<JsString>, truth: JsString -> bool,
      seen: set<JsString>)
    requires AcyclicScope(SegmentGraph(segments), scope) && Refs(node) <= scope
    requires SolvesSegments(truth, req, segments, scope)
    requires Ancestors(SegmentGraph(segments), seen, Refs(node))
    ensures Matches(node, req, segments, seen) == Holds(node, req, segments, truth)
    decreases segments.Keys - seen, node
  {
    var g := SegmentGraph(segments);
    match node {
      case Condition(_, _, _, _) =>
      case And(children) => GuardsTransparentForAll(children, req, segments, scope, truth, seen);
      case Or(children) => GuardsTransparentForAll(children, req, segments, scope, truth, seen);
      case Not(children) => GuardsTransparentForAll(children, req, segments, scope, truth, seen);
      case SegmentRef(k, _) =>
        assert k in Refs(node);
        assert !OnCycle(g, k) && k !in seen;
        if k in segments {
          AncestorsStep(g, seen, k);
          GuardsTransparentForNode(segments[k].when, req, segments, scope, truth, seen + {k});
        }
      case Unknown =>
    }
  }

  lemma {:induction false} GuardsTransparentForAll(
      children: seq<RuleNode>, req: Request, segments: Segments, scope: set<JsString>, truth: JsString -> bool,
      seen: set<JsString>)
    requires AcyclicScope(SegmentGraph(segments), scope) && ChildRefs(children) <= scope
    requires SolvesSegments(truth, req, segments, scope)
    requires Ancestors(SegmentGraph(segments), seen, ChildRefs(children))
    ensures AllMatch(children, req, segments, seen) == AllHold(children, req, segments, truth)
    ensures AnyMatches(children, req, segments, seen) == AnyHolds(children, req, segments, truth)
    decreases segments.Keys - seen, children
  {
    if children != [] {
      GuardsTransparentForNode(children[0], req, segments, scope, truth, seen);
      GuardsTransparentForAll(children[1..], req, segments, scope, truth, seen);
      assert forall c :: c in children <==> c == children[0] || c in children[1..];
    }
  }

  /** Where no cycle is reachable, the guarded matcher equals the plain meaning of the tree. */
  lemma SegmentGuardsTransparent(node: RuleNode, req: Request, segments: Segments, scope: set<JsString>,
      truth: JsString -> bool)
    requires AcyclicScope(SegmentGraph(segments), scope) && Refs(node) <= scope
    requires SolvesSegments(truth, req, segments, scope)
    ensures Matches(node, req, segments, {}) == Holds(node, req, segments, truth)
  {
    GuardsTransparentForNode(node, req, segments, scope, truth, {});
  }

  lemma {:induction false} SeenIrrelevant(
      node: RuleNode, req: Request, segments: Segments, scope: set<JsString>, seen1: set<JsString>,
      seen2: set<JsString>)
    requires AcyclicScope(SegmentGraph(segments), scope) && Refs(node) <= scope
    requires Ancestors(SegmentGraph(segments), seen1, Refs(node))
             && Ancestors(SegmentGraph(segments), seen2, Refs(node))
    ensures Matches(node, req, segments, seen1) == Matches(node, req, segments, seen2)
    decreases segments.Keys - seen1, node
  {
    var g := SegmentGraph(segments);
    match node {
      case Condition(_, _, _, _) =>
      case And(children) => SeenIrrelevantForAll(children, req, segments, scope, seen1, seen2);
      case Or(children) => SeenIrrelevantForAll(children, req, segments, scope, seen1, seen2);
      case Not(children) => SeenIrrelevantForAll(children, req, segments, scope, seen1, seen2);
      case SegmentRef(k, _) =>
        assert k in Refs(node) && !OnCycle(g, k);
        assert k !in seen1 && k !in seen2;
        if k in segments {
          AncestorsStep(g, seen1, k);
          AncestorsStep(g, seen2, k);
          SeenIrrelevant(segments[k].when, req, segments, scope, seen1 + {k}, seen2 + {k});
        }
      case Unknown =>
    }
  }

  lemma {:induction false} SeenIrrelevantForAll(
      children: seq<RuleNode>, req: Request, segments: Segments, scope: set<JsString>, seen1: set<JsString>,
      seen2: set<JsString>)
    requires AcyclicScope(SegmentGraph(segments), scope) && ChildRefs(children) <= scope
    requires Ancestors(SegmentGraph(segments), seen1, ChildRefs(children))
    requires Ancestors(SegmentGraph(segments), seen2, ChildRefs(children))
    ensures AllMatch(children, req, segments, seen1) == AllMatch(children, req, segments, seen2)
    ensures AnyMatches(children, req, segments, seen1) == AnyMatches(children, req, segments, seen2)
    decreases segments.Keys - seen1, children
  {
    if children != [] {
      SeenIrrelevant(children[0], req, segments, scope, seen1, seen2);
      SeenIrrelevantForAll(children[1..], req, segments, scope, seen1, seen2);
    }
  }

  /** The truth that the guarded matcher gives a segment on its own. */
  function GuardedTruth(req: Request, segments: Segments): JsString -> bool {
    (k: JsString) => Matches(SegmentRef(k, false), req, segments, {})
  }

  lemma {:induction false} HoldsUnderGuardedTruth(node: RuleNode, req: Request, segments: Segments,
      scope: set<JsString>)
    requires AcyclicScope(SegmentGraph(segments), scope) && Refs(node) <= scope
    ensures Holds(node, req, segments, GuardedTruth(req, segments)) == Matches(node, req, segments, {})
    decreases node
  {
    match node {
      case Condition(_, _, _, _) =>
      case And(children) => AllHoldUnderGuardedTruth(children, req, segments, scope);
      case Or(children) => AllHoldUnderGuardedTruth(children, req, segments, scope);
      case Not(children) => AllHoldUnderGuardedTruth(children, req, segments, scope);
      case SegmentRef(k, negate) =>
      case Unknown =>
    }
  }

  lemma {:induction false} AllHoldUnderGuardedTruth(children: seq<RuleNode>, req: Request, segments: Segments,
      scope: set<JsString>)
    requires AcyclicScope(SegmentGraph(segments), scope) && ChildRefs(children) <= scope
    ensures AllHold(children, req, segments, GuardedTruth(req, segments)) == AllMatch(children, req, segments, {})
    ensures AnyHolds(children, req, segments, GuardedTruth(req, segments)) == AnyMatches(children, req, segments, {})
    decreases children
  {
    if children != [] {
      HoldsUnderGuardedTruth(children[0], req, segments, scope);
      AllHoldUnderGuardedTruth(children[1..], req, segments, scope);
      assert forall c :: c in children <==> c == children[0] || c in children[1..];
    }
  }

  /** The plain equations do have a solution where no cycle is reachable: the guarded matcher itself. */
  lemma GuardedTruthSolves(req: Request, segments: Segments, scope: set<JsString>)
    requires AcyclicScope(SegmentGraph(segments), scope)
    ensures SolvesSegments(GuardedTruth(req, segments), req, segments, scope)
  {
    var g := SegmentGraph(segments);
    forall k | k in scope && k in segments
      ensures GuardedTruth(req, segments)(k) == Holds(segments[k].when, req, segments, GuardedTruth(req, segments))
    {
      HoldsUnderGuardedTruth(segments[k].when, req, segments, scope);
      AncestorsStep(g, {}, k);
      SeenIrrelevant(segments[k].when, req, segments, scope, {} + {k}, {});
    }
  }

  // ----- prerequisites

  /** The first prerequisite whose flag does not serve the required variation, by an oracle for what flags serve. */
  function FailedByOracle(prerequisites: seq<Prerequisite>, serves: JsString -> JsString): Option<JsString> {
    if prerequisites == [] then None
    else if serves(prerequisites[0].flagKey) != prerequisites[0].variationKey then Some(prerequisites[0].flagKey)
    else FailedByOracle(prerequisites[1..], serves)
  }

  /** Evaluation with prerequisites answered by an oracle; rules are still matched by the guarded matcher. */
  function EvaluatePlainly(flagKey: JsString, req: Request, env: Environment, fallback: Value,
      serves: JsString -> JsString): EvaluationResult {
    if flagKey !in env.flags then ErrorResult(fallback, UnknownFlag(flagKey))
    else
      var compiled := env.flags[flagKey];
      if !compiled.flag.enabled then ResultFor(compiled, compiled.flag.offVariationKey, Off, fallback, None)
      else
        match FailedByOracle(compiled.flag.prerequisites, serves)
        case Some(failed) => ResultFor(compiled, compiled.flag.offVariationKey, PrerequisiteFailed(failed), fallback,
          None)
        case None => ServeRules(compiled, compiled.flag.rules, req, env.segments, fallback)
  }

  ghost predicate SolvesFlags(serves: JsString -> JsString, req: Request, env: Environment, scope: set<JsString>) {
    forall k <- scope :: serves(k) == EvaluatePlainly(k, req, env, Undefined, serves).variationKey
  }

  lemma {:induction false} PrerequisiteGuardTransparentFor(
      flagKey: JsString, req: Request, env: Environment, fallback: Value,
      scope: set<JsString>, serves: JsString -> JsString, seen: set<JsString>)
    requires AcyclicScope(FlagGraph(env.flags), scope) && flagKey in scope
    requires SolvesFlags(serves, req, env, scope)
    requires Ancestors(FlagGraph(env.flags), seen, {flagKey})
    ensures Evaluate(flagKey, req, env, fallback, seen) == EvaluatePlainly(flagKey, req, env, fallback, serves)
    decreases env.flags.Keys - seen, 0
  {
    hide ServeRules, ResultFor;
    var g := FlagGraph(env.flags);
    if flagKey in env.flags {
      assert !OnCycle(g, flagKey) && flagKey !in seen;
      AncestorsStep(g, seen, flagKey);
      var prerequisites := env.flags[flagKey].flag.prerequisites;
      assert forall p <- prerequisites :: p.flagKey in g[flagKey];
      PrerequisitesTransparent(prerequisites, req, env, scope, serves, seen + {flagKey});
    }
  }

  lemma {:induction false} PrerequisitesTransparent(
      prerequisites: seq<Prerequisite>, req: Request, env: Environment,
      scope: set<JsString>, serves: JsString -> JsString, seen: set<JsString>)
    requires AcyclicScope(FlagGraph(env.flags), scope) && SolvesFlags(serves, req, env, scope)
    requires forall p <- prerequisites :: p.flagKey in scope
    requires forall p <- prerequisites :: Ancestors(FlagGraph(env.flags), seen, {p.flagKey})
    ensures FailedPrerequisite(prerequisites, req, env, seen) == FailedByOracle(prerequisites, serves)
    decreases env.flags.Keys - seen, 1 + |prerequisites|
  {
    if prerequisites != [] {
      assert prerequisites[0] in prerequisites;
      assert forall p :: p in prerequisites[1..] ==> p in prerequisites;
      PrerequisiteGuardTransparentFor(prerequisites[0].flagKey, req, env, Undefined, scope, serves, seen);
      PrerequisitesTransparent(prerequisites[1..], req, env, scope, serves, seen);
    }
  }

  /** Where no prerequisite cycle is reachable, the guarded evaluator meets prerequisites in their plain meaning. */
  lemma PrerequisiteGuardTransparent(
      flagKey: JsString, req: Request, env: Environment, fallback: Value, scope: set<JsString>,
      serves: JsString -> JsString)
    requires AcyclicScope(FlagGraph(env.flags), scope) && flagKey in scope
    requires SolvesFlags(serves, req, env, scope)
    ensures EvaluateFlagValue(flagKey, req, env, fallback) == EvaluatePlainly(flagKey, req, env, fallback, serves)
  {
    PrerequisiteGuardTransparentFor(flagKey, req, env, fallback, scope, serves, {});
  }

  lemma {:induction false} SeenFlagsIrrelevant(
      flagKey: JsString, req: Request, env: Environment, fallback: Value,
      scope: set<JsString>, seen1: set<JsString>, seen2: set<JsString>)
    requires AcyclicScope(FlagGraph(env.flags), scope) && flagKey in scope
    requires Ancestors(FlagGraph(env.flags), seen1, {flagKey}) && Ancestors(FlagGraph(env.flags), seen2, {flagKey})
    ensures Evaluate(flagKey, req, env, fallback, seen1) == Evaluate(flagKey, req, env, fallback, seen2)
    decreases env.flags.Keys - seen1, 0
  {
    hide ServeRules, ResultFor;
    var g := FlagGraph(env.flags);
    if flagKey in env.flags {
      assert !OnCycle(g, flagKey) && flagKey !in seen1 && flagKey !in seen2;
      AncestorsStep(g, seen1, flagKey);
      AncestorsStep(g, seen2, flagKey);
      var prerequisites := env.flags[flagKey].flag.prerequisites;
      assert forall p <- prerequisites :: p.flagKey in g[flagKey];
      SeenFlagsIrrelevantForAll(prerequisites, req, env, scope, seen1 + {flagKey}, seen2 + {flagKey});
    }
  }

  lemma {:induction false} SeenFlagsIrrelevantForAll(
      prerequisites: seq<Prerequisite>, req: Request, env: Environment,
      scope: set<JsString>, seen1: set<JsString>, seen2: set<JsString>)
    requires AcyclicScope(FlagGraph(env.flags), scope)
    requires forall p <- prerequisites :: p.flagKey in scope
    requires forall p <- prerequisites :: Ancestors(FlagGraph(env.flags), seen1, {p.flagKey})
    requires forall p <- prerequisites :: Ancestors(FlagGraph(env.flags), seen2, {p.flagKey})
    ensures FailedPrerequisite(prerequisites, req, env, seen1) == FailedPrerequisite(prerequisites, req, env, seen2)
    decreases env.flags.Keys - seen1, 1 + |prerequisites|
  {
    if prerequisites != [] {
      assert prerequisites[0] in prerequisites;
      assert forall p :: p in prerequisites[1..] ==> p in prerequisites;
      SeenFlagsIrrelevant(prerequisites[0].flagKey, req, env, Undefined, scope, seen1, seen2);
      SeenFlagsIrrelevantForAll(prerequisites[1..], req, env, scope, seen1, seen2);
    }
  }

  /** What the guarded evaluator says a flag serves on its own. */
  function GuardedServes(req: Request, env: Environment): JsString -> JsString {
    (k: JsString) => Evaluate(k, req, env, Undefined, {}).variationKey
  }

  lemma {:induction false} FailedUnderGuardedServes(
      prerequisites: seq<Prerequisite>, req: Request, env: Environment, scope: set<JsString>)
    requires AcyclicScope(FlagGraph(env.flags), scope)
    requires forall p <- prerequisites :: p.flagKey in scope
    ensures FailedByOracle(prerequisites, GuardedServes(req, env)) == FailedPrerequisite(prerequisites, req, env, {})
  {
    if prerequisites != [] {
      assert forall p :: p in prerequisites[1..] ==> p in prerequisites;
      FailedUnderGuardedServes(prerequisites[1..], req, env, scope);
    }
  }

  lemma PrerequisitesUnderGuardedServes(k: JsString, req: Request, env: Environment, scope: set<JsString>)
    requires AcyclicScope(FlagGraph(env.flags), scope) && k in scope && k in env.flags
    ensures FailedByOracle(env.flags[k].flag.prerequisites, GuardedServes(req, env))
            == FailedPrerequisite(env.flags[k].flag.prerequisites, req, env, {} + {k})
  {
    hide Evaluate, FailedByOracle, FailedPrerequisite;
    var g := FlagGraph(env.flags);
    var prerequisites := env.flags[k].flag.prerequisites;
    assert forall p <- prerequisites :: p.flagKey in g[k];
    AncestorsStep(g, {}, k);
    FailedUnderGuardedServes(prerequisites, req, env, scope);
    SeenFlagsIrrelevantForAll(prerequisites, req, env, scope, {} + {k}, {});
  }

  /** The plain equations for flags do have a solution where no cycle is reachable. */
  lemma GuardedServesSolves(req: Request, env: Environment, scope: set<JsString>)
    requires AcyclicScope(FlagGraph(env.flags), scope)
    ensures SolvesFlags(GuardedServes(req, env), req, env, scope)
  {
    hide ServeRules, ResultFor, FailedByOracle, FailedPrerequisite, FlagGraph, AcyclicScope;
    forall k | k in scope
      ensures GuardedServes(req, env)(k) == EvaluatePlainly(k, req, env, Undefined,
              GuardedServes(req, env)).variationKey
    {
      if k in env.flags {
        PrerequisitesUnderGuardedServes(k, req, env, scope);
      }
    }
  }

  // ----- stated on what is reachable

  lemma NoReachableCycle(g: Graph, roots: set<JsString>)
    requires forall k <- ReachableSet(g, roots) :: !OnCycle(g, k)
    ensures AcyclicScope(g, ReachableSet(g, roots)) && roots <= ReachableSet(g, roots)
  {
    ReachableSetClosed(g, roots);
  }

  /** Where no segment reachable from a node lies on a cycle, the guarded matcher gives the node its plain meaning. */
  lemma MatcherGuardsTransparent(node: RuleNode, req: Request, segments: Segments)
    requires forall k <- ReachableSet(SegmentGraph(segments), Refs(node)) :: !OnCycle(SegmentGraph(segments), k)
    ensures var truth := GuardedTruth(req, segments);
            && SolvesSegments(truth, req, segments, ReachableSet(SegmentGraph(segments), Refs(node)))
            && Matches(node, req, segments, {}) == Holds(node, req, segments, truth)
    ensures forall truth :: SolvesSegments(truth, req, segments, ReachableSet(SegmentGraph(segments), Refs(node))) ==>
      Matches(node, req, segments, {}) == Holds(node, req, segments, truth)
  {
    hide ReachableSet, SolvesSegments, Holds, Matches, GuardedTruth, AcyclicScope;
    var g := SegmentGraph(segments);
    var scope := ReachableSet(g, Refs(node));
    NoReachableCycle(g, Refs(node));
    GuardedTruthSolves(req, segments, scope);
    forall truth | SolvesSegments(truth, req, segments, scope)
      ensures Matches(node, req, segments, {}) == Holds(node, req, segments, truth)
    {
      SegmentGuardsTransparent(node, req, segments, scope, truth);
    }
  }

  /**
   * Where no flag reachable by prerequisites lies on a cycle, the guarded evaluator evaluates as if there were no
   * guard on prerequisites.
   */
  lemma EvaluatorGuardTransparent(flagKey: JsString, req: Request, env: Environment, fallback: Value)
    requires forall k <- ReachableSet(FlagGraph(env.flags), {flagKey}) :: !OnCycle(FlagGraph(env.flags), k)
    ensures var serves := GuardedServes(req, env);
            && SolvesFlags(serves, req, env, ReachableSet(FlagGraph(env.flags), {flagKey}))
            && EvaluateFlagValue(flagKey, req, env, fallback) == EvaluatePlainly(flagKey, req, env, fallback, serves)
    ensures forall serves :: SolvesFlags(serves, req, env, ReachableSet(FlagGraph(env.flags), {flagKey})) ==>
      EvaluateFlagValue(flagKey, req, env, fallback) == EvaluatePlainly(flagKey, req, env, fallback, serves)
  {
    hide ReachableSet, SolvesFlags, Evaluate, EvaluatePlainly, GuardedServes, AcyclicScope;
    var g := FlagGraph(env.flags);
    var scope := ReachableSet(g, {flagKey});
    NoReachableCycle(g, {flagKey});
    GuardedServesSolves(req, env, scope);
    forall serves | SolvesFlags(serves, req, env, scope)
      ensures EvaluateFlagValue(flagKey, req, env, fallback) == EvaluatePlainly(flagKey, req, env, fallback, serves)
    {
      PrerequisiteGuardTransparent(flagKey, req, env, fallback, scope, serves);
    }
  }

  // ----- both guards at once

  /** The first rule that holds, in declaration order, without the guard. */
  function FirstToHold(rules: seq<Rule>, req: Request, segments: Segments, truth: JsString -> bool): Option<Rule> {
    if rules == [] then None
    else if Holds(rules[0].when, req, segments, truth) then Some(rules[0])
    else FirstToHold(rules[1..], req, segments, truth)
  }

  lemma {:induction false} FirstMatchIsFirstToHold(
      rules: seq<Rule>, req: Request, segments: Segments, scope: set<JsString>, truth: JsString -> bool)
    requires AcyclicScope(SegmentGraph(segments), scope) && SolvesSegments(truth, req, segments, scope)
    requires forall rule <- rules :: Refs(rule.when) <= scope
    ensures FirstMatch(rules, req, segments) == FirstToHold(rules, req, segments, truth)
  {
    hide Matches, Holds, AcyclicScope, SolvesSegments, Refs;
    if rules != [] {
      assert rules[0] in rules && forall rule :: rule in rules[1..] ==> rule in rules;
      SegmentGuardsTransparent(rules[0].when, req, segments, scope, truth);
      FirstMatchIsFirstToHold(rules[1..], req, segments, scope, truth);
    }
  }

  /** Evaluation without any guard: one oracle says what flags serve, another which segments hold. */
  function EvaluateUnguarded(
      flagKey: JsString, req: Request, env: Environment, fallback: Value, serves: JsString -> JsString,
      truth: JsString -> bool): EvaluationResult
  {
    if flagKey !in env.flags then ErrorResult(fallback, UnknownFlag(flagKey))
    else
      var compiled := env.flags[flagKey];
      if !compiled.flag.enabled then ResultFor(compiled, compiled.flag.offVariationKey, Off, fallback, None)
      else
        match FailedByOracle(compiled.flag.prerequisites, serves)
        case Some(failed) =>
          ResultFor(compiled, compiled.flag.offVariationKey, PrerequisiteFailed(failed), fallback, None)
        case None =>
          match FirstToHold(compiled.flag.rules, req, env.segments, truth)
          case None => DefaultResult(compiled, fallback)
          case Some(rule) => ServeRule(compiled, rule, req, fallback)
  }

  /** The oracles agree with every flag of one scope and every segment of the other. */
  ghost predicate SolvesBoth(
      serves: JsString -> JsString, truth: JsString -> bool, req: Request, env: Environment,
      flagScope: set<JsString>, segmentScope: set<JsString>)
  {
    && SolvesSegments(truth, req, env.segments, segmentScope)
    && forall k <- flagScope :: serves(k) == EvaluateUnguarded(k, req, env, Undefined, serves, truth).variationKey
  }

  /** The rules of the flags refer to segments of an acyclic scope only. */
  ghost predicate RulesWithin(env: Environment, flagScope: set<JsString>, segmentScope: set<JsString>) {
    && AcyclicScope(SegmentGraph(env.segments), segmentScope)
    && forall k <- flagScope :: k in env.flags ==>
         forall rule <- env.flags[k].flag.rules :: Refs(rule.when) <= segmentScope
  }

  lemma UnguardedIsPlain(
      flagKey: JsString, req: Request, env: Environment, fallback: Value, serves: JsString -> JsString,
      truth: JsString -> bool, flagScope: set<JsString>, segmentScope: set<JsString>)
    requires RulesWithin(env, flagScope, segmentScope) && flagKey in flagScope
    requires SolvesSegments(truth, req, env.segments, segmentScope)
    ensures EvaluateUnguarded(flagKey, req, env, fallback, serves, truth)
            == EvaluatePlainly(flagKey, req, env, fallback, serves)
  {
    hide AcyclicScope, SolvesSegments, FirstMatch, FirstToHold, FailedByOracle, ServeRule, ResultFor, Refs;
    if flagKey in env.flags {
      FirstMatchIsFirstToHold(env.flags[flagKey].flag.rules, req, env.segments, segmentScope, truth);
    }
  }

  /** On acyclic scopes the guarded evaluator is every solution of the equations without guards. */
  lemma GuardsTransparent(
      flagKey: JsString, req: Request, env: Environment, fallback: Value, serves: JsString -> JsString,
      truth: JsString -> bool, flagScope: set<JsString>, segmentScope: set<JsString>)
    requires AcyclicScope(FlagGraph(env.flags), flagScope) && flagKey in flagScope
    requires RulesWithin(env, flagScope, segmentScope)
    requires SolvesBoth(serves, truth, req, env, flagScope, segmentScope)
    ensures EvaluateFlagValue(flagKey, req, env, fallback)
            == EvaluateUnguarded(flagKey, req, env, fallback, serves, truth)
  {
    hide AcyclicScope, SolvesSegments, RulesWithin, EvaluatePlainly, EvaluateUnguarded, Evaluate, FlagGraph;
    forall k | k in flagScope
      ensures serves(k) == EvaluatePlainly(k, req, env, Undefined, serves).variationKey
    {
      UnguardedIsPlain(k, req, env, Undefined, serves, truth, flagScope, segmentScope);
    }
    UnguardedIsPlain(flagKey, req, env, fallback, serves, truth, flagScope, segmentScope);
    PrerequisiteGuardTransparent(flagKey, req, env, fallback, flagScope, serves);
  }

  /** The guarded evaluator and matcher solve them. */
  lemma GuardedSolvesBoth(req: Request, env: Environment, flagScope: set<JsString>, segmentScope: set<JsString>)
    requires AcyclicScope(FlagGraph(env.flags), flagScope) && RulesWithin(env, flagScope, segmentScope)
    ensures SolvesBoth(
              GuardedServes(req, env), GuardedTruth(req, env.segments), req, env, flagScope, segmentScope)
  {
    hide AcyclicScope, SolvesSegments, EvaluatePlainly, EvaluateUnguarded, GuardedServes, GuardedTruth, FlagGraph, Refs;
    var serves, truth := GuardedServes(req, env), GuardedTruth(req, env.segments);
    GuardedServesSolves(req, env, flagScope);
    GuardedTruthSolves(req, env.segments, segmentScope);
    forall k | k in flagScope
      ensures serves(k) == EvaluateUnguarded(k, req, env, Undefined, serves, truth).variationKey
    {
      UnguardedIsPlain(k, req, env, Undefined, serves, truth, flagScope, segmentScope);
    }
  }

  /** Nothing that evaluating the flag can reach, flag or segment, lies on a cycle. */
  ghost predicate NothingReachableCyclic(env: Environment, flagKey: JsString) {
    && (forall k <- ReachableFlags(env, flagKey) :: !OnCycle(FlagGraph(env.flags), k))
    && (forall k <- ReachableSegments(env, flagKey) :: !OnCycle(SegmentGraph(env.segments), k))
  }

  lemma ReachableIsAcyclic(env: Environment, flagKey: JsString)
    requires NothingReachableCyclic(env, flagKey)
    ensures AcyclicScope(FlagGraph(env.flags), ReachableFlags(env, flagKey)) && flagKey in ReachableFlags(env, flagKey)
    ensures RulesWithin(env, ReachableFlags(env, flagKey), ReachableSegments(env, flagKey))
  {
    hide ReachableSet, FlagGraph, SegmentGraph, Refs, AcyclicScope, OnCycle;
    var flags := ReachableFlags(env, flagKey);
    NoReachableCycle(FlagGraph(env.flags), {flagKey});
    NoReachableCycle(SegmentGraph(env.segments), RuleRefs(env.flags, flags));
    forall k, rule | k in flags && k in env.flags && rule in env.flags[k].flag.rules
      ensures Refs(rule.when) <= ReachableSegments(env, flagKey)
    {
      assert Refs(rule.when) <= RuleRefs(env.flags, flags);
    }
  }

  /**
   * If nothing reachable lies on a cycle, evaluation has its plain recursive meaning, without a guard anywhere: the
   * equations for reachable flags and segments have a solution, and evaluation agrees with every solution.
   */
  lemma EvaluationHasPlainMeaning(flagKey: JsString, req: Request, env: Environment, fallback: Value)
    requires NothingReachableCyclic(env, flagKey)
    ensures SolvesBoth(GuardedServes(req, env), GuardedTruth(req, env.segments), req, env,
              ReachableFlags(env, flagKey), ReachableSegments(env, flagKey))
    ensures forall serves, truth ::
              SolvesBoth(serves, truth, req, env, ReachableFlags(env, flagKey), ReachableSegments(env, flagKey)) ==>
                EvaluateFlagValue(flagKey, req, env, fallback)
                == EvaluateUnguarded(flagKey, req, env, fallback, serves, truth)
  {
    hide ReachableFlags, ReachableSegments, SolvesBoth, Evaluate, EvaluateUnguarded, GuardedServes, GuardedTruth,
         AcyclicScope, RulesWithin, FlagGraph, NothingReachableCyclic;
    var flags, segments := ReachableFlags(env, flagKey), ReachableSegments(env, flagKey);
    ReachableIsAcyclic(env, flagKey);
    GuardedSolvesBoth(req, env, flags, segments);
    forall serves, truth | SolvesBoth(serves, truth, req, env, flags, segments)
      ensures EvaluateFlagValue(flagKey, req, env, fallback)
              == EvaluateUnguarded(flagKey, req, env, fallback, serves, truth)
    {
      GuardsTransparent(flagKey, req, env, fallback, serves, truth, flags, segments);
    }
  }
}
