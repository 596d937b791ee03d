/** Evaluation depends only on what is reachable, even when cycles are present. */
module Locality {
  import opened Text
  import opened Graphs
  import opened Ruleset
  import opened Evaluation

  /** Two segment maps agree on a scope that is closed under references. */
  ghost predicate SegmentsAgree(a: Segments, b: Segments, scope: set<JsString>) {
    && ClosedScope(SegmentGraph(a), scope)
    && forall k <- scope :: (k in a <==> k in b) && (k in a ==> a[k] == b[k])
  }

  lemma {:induction false} MatchesLocal(node: RuleNode, req: Request, a: Segments, b: Segments, scope: set<JsString>,
      seen: set<JsString>)
    requires SegmentsAgree(a, b, scope) && Refs(node) <= scope
    ensures Matches(node, req, a, seen) == Matches(node, req, b, seen)
    decreases a.Keys - seen, node
  {
    match node {
      case Condition(_, _, _, _) =>
      case And(children) => AllMatchLocal(children, req, a, b, scope, seen);
      case Or(children) => AllMatchLocal(children, req, a, b, scope, seen);
      case Not(children) => AllMatchLocal(children, req, a, b, scope, seen);
      case SegmentRef(k, _) =>
        assert k in Refs(node);
        if k !in seen && k in a {
          assert SegmentGraph(a)[k] <= scope;
          MatchesLocal(a[k].when, req, a, b, scope, seen + {k});
        }
      case Unknown =>
    }
  }

  lemma {:induction false} AllMatchLocal(children: seq<RuleNode>, req: Request, a: Segments, b: Segments,
      scope: set<JsString>, seen: set<JsString>)
    requires SegmentsAgree(a, b, scope) && ChildRefs(children) <= scope
    ensures AllMatch(children, req, a, seen) == AllMatch(children, req, b, seen)
    ensures AnyMatches(children, req, a, seen) == AnyMatches(children, req, b, seen)
    decreases a.Keys - seen, children
  {
    if children != [] {
      MatchesLocal(children[0], req, a, b, scope, seen);
      AllMatchLocal(children[1..], req, a, b, scope, seen);
    }
  }

  lemma {:induction false} FirstMatchLocal(rules: seq<Rule>, req: Request, a: Segments, b: Segments,
      scope: set<JsString>)
    requires SegmentsAgree(a, b, scope) && forall r <- rules :: Refs(r.when) <= scope
    ensures FirstMatch(rules, req, a) == FirstMatch(rules, req, b)
  {
    if rules != [] {
      assert rules[0] in rules;
      assert forall r :: r in rules[1..] ==> r in rules;
      MatchesLocal(rules[0].when, req, a, b, scope, {});
      FirstMatchLocal(rules[1..], req, a, b, scope);
    }
  }

  /** Two environments agree on the flags of one closed scope and on the segments their rules can reach. */
  ghost predicate EnvironmentsAgree(a: Environment, b: Environment, flagScope: set<JsString>,
      segmentScope: set<JsString>) {
    && SegmentsAgree(a.segments, b.segments, segmentScope)
    && ClosedScope(FlagGraph(a.flags), flagScope)
    && (forall k <- flagScope :: (k in a.flags <==> k in b.flags) && (k in a.flags ==> a.flags[k] == b.flags[k]))
    && (forall k <- flagScope :: k in a.flags ==> forall r <- a.flags[k].flag.rules :: Refs(r.when) <= segmentScope)
  }

  lemma {:induction false} EvaluateLocal(
      flagKey: JsString, req: Request, a: Environment, b: Environment, fallback: Value,
      flagScope: set<JsString>, segmentScope: set<JsString>, seen: set<JsString>)
    requires EnvironmentsAgree(a, b, flagScope, segmentScope) && flagKey in flagScope
    ensures Evaluate(flagKey, req, a, fallback, seen) == Evaluate(flagKey, req, b, fallback, seen)
    decreases a.flags.Keys - seen, 0
  {
    hide ServeRule, ResultFor;
    if flagKey in a.flags && flagKey !in seen {
      var flag := a.flags[flagKey].flag;
      assert FlagGraph(a.flags)[flagKey] <= flagScope;
      assert forall p <- flag.prerequisites :: p.flagKey in FlagGraph(a.flags)[flagKey];
      PrerequisitesLocal(flag.prerequisites, req, a, b, flagScope, segmentScope, seen + {flagKey});
      FirstMatchLocal(flag.rules, req, a.segments, b.segments, segmentScope);
    }
  }

  lemma {:induction false} PrerequisitesLocal(
      prerequisites: seq<Prerequisite>, req: Request, a: Environment, b: Environment,
      flagScope: set<JsString>, segmentScope: set<JsString>, seen: set<JsString>)
    requires EnvironmentsAgree(a, b, flagScope, segmentScope)
    requires forall p <- prerequisites :: p.flagKey in flagScope
    ensures FailedPrerequisite(prerequisites, req, a, seen) == FailedPrerequisite(prerequisites, req, b, seen)
    decreases a.flags.Keys - seen, 1 + |prerequisites|
  {
    if prerequisites != [] {
      assert prerequisites[0] in prerequisites;
      assert forall p :: p in prerequisites[1..] ==> p in prerequisites;
      EvaluateLocal(prerequisites[0].flagKey, req, a, b, Undefined, flagScope, segmentScope, seen);
      PrerequisitesLocal(prerequisites[1..], req, a, b, flagScope, segmentScope, seen);
    }
  }

  // ----- stated on what is reachable

  ghost predicate SameSegment(a: Segments, b: Segments, k: JsString) {
    (k in a <==> k in b) && (k in a ==> a[k] == b[k])
  }

  ghost predicate SameFlag(a: Environment, b: Environment, k: JsString) {
    (k in a.flags <==> k in b.flags) && (k in a.flags ==> a.flags[k] == b.flags[k])
  }

  /** Matching depends only on the segments that can be reached from the node. */
  lemma MatchesDependOnReachable(node: RuleNode, req: Request, a: Segments, b: Segments, seen: set<JsString>)
    requires forall k <- ReachableSet(SegmentGraph(a), Refs(node)) :: SameSegment(a, b, k)
    ensures Matches(node, req, a, seen) == Matches(node, req, b, seen)
  {
    var scope := ReachableSet(SegmentGraph(a), Refs(node));
    ReachableSetClosed(SegmentGraph(a), Refs(node));
    assert forall k <- scope :: SameSegment(a, b, k);
    MatchesLocal(node, req, a, b, scope, seen);
  }

  /** The segments that the rules of some flags refer to. */
  ghost function RuleRefs(flags: map<JsString, CompiledFlag>, keys: set<JsString>): set<JsString> {
    set k, rule, s | k in keys && k in flags && rule in flags[k].flag.rules && s in Refs(rule.when) :: s
  }

  /** The flags that can be reached by prerequisites. */
  ghost function ReachableFlags(env: Environment, flagKey: JsString): set<JsString> {
    ReachableSet(FlagGraph(env.flags), {flagKey})
  }

  /** The segments that can be reached from the rules of those flags. */
  ghost function ReachableSegments(env: Environment, flagKey: JsString): set<JsString> {
    ReachableSet(SegmentGraph(env.segments), RuleRefs(env.flags, ReachableFlags(env, flagKey)))
  }

  /** Evaluation depends only on the flags and segments that can be reached from the flag, cycles or not. */
  lemma EvaluateDependsOnReachable(flagKey: JsString, req: Request, a: Environment, b: Environment, fallback: Value)
    requires forall k <- ReachableFlags(a, flagKey) :: SameFlag(a, b, k)
    requires forall k <- ReachableSegments(a, flagKey) :: SameSegment(a.segments, b.segments, k)
    ensures EvaluateFlagValue(flagKey, req, a, fallback) == EvaluateFlagValue(flagKey, req, b, fallback)
  {
    hide ReachableSet, Evaluate, FlagGraph, SegmentGraph, Refs, ClosedScope;
    var flags, segments := ReachableFlags(a, flagKey), ReachableSegments(a, flagKey);
    ReachableSetClosed(FlagGraph(a.flags), {flagKey});
    ReachableSetClosed(SegmentGraph(a.segments), RuleRefs(a.flags, flags));
    assert forall k <- flags :: SameFlag(a, b, k);
    assert forall k <- segments :: SameSegment(a.segments, b.segments, k);
    forall k, rule | k in flags && k in a.flags && rule in a.flags[k].flag.rules
      ensures Refs(rule.when) <= segments
    {
      assert Refs(rule.when) <= RuleRefs(a.flags, flags);
    }
    EvaluateLocal(flagKey, req, a, b, fallback, flags, segments, {});
  }
}
