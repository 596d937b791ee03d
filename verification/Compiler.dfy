/** Compiling a ruleset: validation of trees, flags and prerequisites, then both payloads. */
module Compiler {
  import opened Text
  import opened Graphs
  import opened Rollout
  import opened Ruleset
  import opened Evaluation
  import opened Visibility
  import opened CycleSearch

  const MAX_DEPTH: nat := 32

  datatype NodeProblem = TooDeep | EmptyAttribute | NoValues | EmptySegmentKey | UnknownKind

  datatype Place = InSegment(segmentKey: JsString) | InRule(flagKey: JsString, index: nat)

  datatype Problem =
    | InTree(place: Place, path: seq<nat>, problem: NodeProblem)
    | NoVariations(flagKey: JsString)
    | DuplicateVariations(flagKey: JsString)
    | UndeclaredDefault(flagKey: JsString)
    | UndeclaredOff(flagKey: JsString)
    | UnknownSegment(flagKey: JsString, index: nat, segmentKey: JsString)
    | UndeclaredServe(flagKey: JsString, index: nat)
    | BadDistribution(flagKey: JsString, index: nat)
    | UndeclaredSlice(flagKey: JsString, index: nat, variationKey: JsString)
    | MissingPrerequisite(flagKey: JsString, requiredKey: JsString)
    | PrerequisiteLoop(walk: seq<JsString>)

  /** The problems array that validation shares and appends to. */
  class ProblemList {
    var list: seq<Problem>

    constructor ()
      ensures list == []
    {
      list := [];
    }

    method Push(problem: Problem)
      modifies this
      ensures list == old(list) + [problem]
    {
      list := list + [problem];
    }
  }

  // ----- trees

  function Children(node: RuleNode): seq<RuleNode> {
    if node.And? || node.Or? || node.Not? then node.children else []
  }

  /** The node at a position, given as the child indices from the root. */
  function NodeAt(node: RuleNode, path: seq<nat>): Option<RuleNode>
    decreases |path|
  {
    if path == [] then Some(node)
    else if path[0] < |Children(node)| then NodeAt(Children(node)[path[0]], path[1..])
    else None
  }

  /** What can be wrong with one node by itself. */
  predicate LocalProblem(node: RuleNode, problem: NodeProblem) {
    match problem
    case EmptyAttribute => node.Condition? && node.attribute == []
    case NoValues => node.Condition? && node.values == []
    case EmptySegmentKey => node.SegmentRef? && node.segmentKey == []
    case UnknownKind => node.Unknown?
    case TooDeep => false
  }

  /** A tree has a problem at a position: a bad node no deeper than the limit, or any node just past it. */
  predicate TreeProblem(node: RuleNode, depth: nat, path: seq<nat>, problem: NodeProblem) {
    && NodeAt(node, path).Some?
    && if depth + |path| <= MAX_DEPTH then LocalProblem(NodeAt(node, path).value, problem)
       else depth + |path| == MAX_DEPTH + 1 && problem == TooDeep
  }

  ghost predicate IsTreeProblem(place: Place, prefix: seq<nat>, node: RuleNode, p: Problem) {
    p.InTree? && p.place == place && prefix <= p.path && TreeProblem(node, |prefix|, p.path[|prefix|..], p.problem)
  }

  /** The problems below a node are its own and those of its children. */
  lemma TreeProblemStep(place: Place, prefix: seq<nat>, node: RuleNode, p: Problem)
    requires |prefix| <= MAX_DEPTH
    ensures IsTreeProblem(place, prefix, node, p) <==>
      || (p.InTree? && p == InTree(place, prefix, p.problem) && LocalProblem(node, p.problem))
      || exists i :: 0 <= i < |Children(node)| && IsTreeProblem(place, prefix + [i], Children(node)[i], p)
  {
    if p.InTree? && p.place == place && prefix <= p.path {
      var rest := p.path[|prefix|..];
      if rest == [] {
        assert p.path == prefix;
      } else {
        var i := rest[0];
        assert prefix + [i] <= p.path && p.path[|prefix| + 1..] == rest[1..];
        assert i < |Children(node)| ==>
            IsTreeProblem(place, prefix, node, p) == IsTreeProblem(place, prefix + [i], Children(node)[i], p);
        forall j | 0 <= j < |Children(node)| && IsTreeProblem(place, prefix + [j], Children(node)[j], p)
          ensures j == i
        {
          assert p.path[|prefix|] == (prefix + [j])[|prefix|];
        }
      }
    } else {
      forall j | 0 <= j < |Children(node)|
        ensures !IsTreeProblem(place, prefix + [j], Children(node)[j], p)
      {
        assert p.InTree? && prefix + [j] <= p.path ==> prefix <= p.path;
      }
    }
  }

  /** The problems of a tree in the order in which they are found. */
  function TreeProblems(node: RuleNode, place: Place, path: seq<nat>): seq<Problem>
    decreases node, 0
  {
    if |path| > MAX_DEPTH then [InTree(place, path, TooDeep)]
    else
      match node
      case Condition(attribute, _, values, _) =>
        (if attribute == [] then [InTree(place, path, EmptyAttribute)] else [])
        + (if values == [] then [InTree(place, path, NoValues)] else [])
      case And(children) => ChildProblems(children, |children|, place, path)
      case Or(children) => ChildProblems(children, |children|, place, path)
      case Not(children) => ChildProblems(children, |children|, place, path)
      case SegmentRef(segmentKey, _) => if segmentKey == [] then [InTree(place, path, EmptySegmentKey)] else []
      case Unknown => [InTree(place, path, UnknownKind)]
  }

  function ChildProblems(children: seq<RuleNode>, n: nat, place: Place, path: seq<nat>): seq<Problem>
    requires n <= |children|
    decreases children, n
  {
    if n == 0 then []
    else ChildProblems(children, n - 1, place, path) + TreeProblems(children[n - 1], place, path + [n - 1])
  }

  method ValidateRuleNode(node: RuleNode, place: Place, path: seq<nat>, problems: ProblemList, depth: nat)
    requires depth == |path|
    modifies problems
    ensures problems.list == old(problems.list) + TreeProblems(node, place, path)
    decreases node
  {
    if depth > MAX_DEPTH {
      problems.Push(InTree(place, path, TooDeep));
      return;
    }
    match node {
      case Condition(attribute, _, values, _) =>
        if attribute == [] {
          problems.Push(InTree(place, path, EmptyAttribute));
        }
        if |values| == 0 {
          problems.Push(InTree(place, path, NoValues));
        }
      case And(_) => ValidateChildren(node.children, place, path, problems, depth);
      case Or(_) => ValidateChildren(node.children, place, path, problems, depth);
      case Not(_) => ValidateChildren(node.children, place, path, problems, depth);
      case SegmentRef(segmentKey, _) =>
        if segmentKey == [] {
          problems.Push(InTree(place, path, EmptySegmentKey));
        }
      case Unknown =>
        problems.Push(InTree(place, path, UnknownKind));
    }
  }

  method ValidateChildren(children: seq<RuleNode>, place: Place, path: seq<nat>, problems: ProblemList, depth: nat)
    requires depth == |path|
    modifies problems
    ensures problems.list == old(problems.list) + ChildProblems(children, |children|, place, path)
    decreases children
  {
    hide TreeProblems;
    for i := 0 to |children|
      invariant problems.list == old(problems.list) + ChildProblems(children, i, place, path)
    {
      ValidateRuleNode(children[i], place, path + [i], problems, depth + 1);
    }
  }

  /** The list names exactly the bad nodes up to the depth limit and every node just past it. */
  lemma {:induction false} TreeProblemsMeaning(node: RuleNode, place: Place, path: seq<nat>, p: Problem)
    requires |path| <= MAX_DEPTH + 1
    ensures p in TreeProblems(node, place, path) <==> IsTreeProblem(place, path, node, p)
    decreases node, 0
  {
    hide IsTreeProblem, ChildProblems;
    if |path| > MAX_DEPTH {
      TooDeepOnly(place, path, node, p);
    } else {
      TreeProblemStep(place, path, node, p);
      match node {
        case Condition(_, _, _, _) =>
        case And(children) => ChildProblemsMeaning(children, |children|, place, path, p);
        case Or(children) => ChildProblemsMeaning(children, |children|, place, path, p);
        case Not(children) => ChildProblemsMeaning(children, |children|, place, path, p);
        case SegmentRef(_, _) =>
        case Unknown =>
      }
    }
  }

  lemma {:induction false} ChildProblemsMeaning(children: seq<RuleNode>, n: nat, place: Place, path: seq<nat>,
      p: Problem)
    requires n <= |children| && |path| <= MAX_DEPTH
    ensures p in ChildProblems(children, n, place, path) <==>
      exists i :: 0 <= i < n && IsTreeProblem(place, path + [i], children[i], p)
    decreases children, n
  {
    hide IsTreeProblem, TreeProblems;
    if n > 0 {
      ChildProblemsMeaning(children, n - 1, place, path, p);
      TreeProblemsMeaning(children[n - 1], place, path + [n - 1], p);
    }
  }

  lemma TooDeepOnly(place: Place, path: seq<nat>, node: RuleNode, p: Problem)
    requires |path| == MAX_DEPTH + 1
    ensures IsTreeProblem(place, path, node, p) <==> p == InTree(place, path, TooDeep)
  {
    if IsTreeProblem(place, path, node, p) {
      assert |p.path| == |path|;
    }
    assert path[|path|..] == [];
  }

  // ----- flags

  predicate DistinctVariations(variations: seq<Variation>) {
    forall i, j :: 0 <= i < j < |variations| ==> variations[i].key != variations[j].key
  }

  function VariationKeys(variations: seq<Variation>): set<JsString> {
    set v <- variations :: v.key
  }

  ghost predicate IsRuleProblem(flag: Flag, index: nat, segmentKeys: set<JsString>, p: Problem)
    requires index < |flag.rules|
  {
    var rule, declared := flag.rules[index], VariationKeys(flag.variations);
    || IsTreeProblem(InRule(flag.key, index), [], rule.when, p)
    || (p.UnknownSegment? && p == UnknownSegment(flag.key, index, p.segmentKey)
       && p.segmentKey in Refs(rule.when) - segmentKeys)
    || (p == UndeclaredServe(flag.key, index) && rule.serve.Fixed? && rule.serve.variationKey !in declared)
    || (p == BadDistribution(flag.key, index) && rule.serve.Split? && !ValidDistribution(rule.serve.rollout))
    || (p.UndeclaredSlice? && p == UndeclaredSlice(flag.key, index, p.variationKey) && rule.serve.Split?
        && p.variationKey !in declared
        && exists j :: 0 <= j < |rule.serve.rollout| && rule.serve.rollout[j].variationKey == p.variationKey)
  }

  /** What is wrong with a flag. Without variations nothing else is reported. */
  ghost predicate IsFlagProblem(flag: Flag, segmentKeys: set<JsString>, p: Problem) {
    if flag.variations == [] then p == NoVariations(flag.key)
    else
      || (p == DuplicateVariations(flag.key) && !DistinctVariations(flag.variations))
      || (p == UndeclaredDefault(flag.key) && flag.defaultVariationKey !in VariationKeys(flag.variations))
      || (p == UndeclaredOff(flag.key) && flag.offVariationKey !in VariationKeys(flag.variations))
      || exists i :: 0 <= i < |flag.rules| && IsRuleProblem(flag, i, segmentKeys, p)
  }

  lemma VariationKeysStep(rest: seq<Variation>, last: Variation)
    ensures VariationKeys(rest + [last]) == VariationKeys(rest) + {last.key}
    ensures DistinctVariations(rest + [last]) <==> DistinctVariations(rest) && last.key !in VariationKeys(rest)
  {
    var all := rest + [last];
    forall v ensures v in all <==> v in rest || v == last {}
    if last.key in VariationKeys(rest) {
      var v :| v in rest && v.key == last.key;
      var i :| 0 <= i < |rest| && rest[i] == v;
      assert all[i].key == all[|rest|].key;
    } else {
      forall i | 0 <= i < |rest| ensures all[i].key != last.key {
        assert all[i] in rest;
      }
      if DistinctVariations(all) {
        forall i, j | 0 <= i < j < |rest| ensures rest[i].key != rest[j].key {
          assert all[i].key != all[j].key;
        }
      }
    }
  }

  /** A list has as many keys as elements exactly when no key repeats. */
  lemma {:induction false} KeyCountMeansDistinct(variations: seq<Variation>)
    ensures |VariationKeys(variations)| <= |variations|
    ensures |VariationKeys(variations)| == |variations| <==> DistinctVariations(variations)
  {
    hide VariationKeys, DistinctVariations;
    if variations != [] {
      var n := |variations| - 1;
      var rest, last := variations[..n], variations[n];
      KeyCountMeansDistinct(rest);
      assert variations == rest + [last];
      VariationKeysStep(rest, last);
    } else {
      NoVariationsNoKeys();
    }
  }

  lemma NoVariationsNoKeys()
    ensures VariationKeys([]) == {} && DistinctVariations([])
  {
  }

  function UnknownSegments(flagKey: JsString, index: nat, keys: seq<JsString>, n: nat,
      segmentKeys: set<JsString>): seq<Problem>
    requires n <= |keys|
  {
    if n == 0 then []
    else
      UnknownSegments(flagKey, index, keys, n - 1, segmentKeys)
      + if keys[n - 1] !in segmentKeys then [UnknownSegment(flagKey, index, keys[n - 1])] else []
  }

  function UndeclaredSlices(flagKey: JsString, index: nat, rollout: seq<Slice>, n: nat,
      declared: set<JsString>): seq<Problem>
    requires n <= |rollout|
  {
    if n == 0 then []
    else
      var key := rollout[n - 1].variationKey;
      UndeclaredSlices(flagKey, index, rollout, n - 1, declared)
      + if key !in declared then [UndeclaredSlice(flagKey, index, key)] else []
  }

  ghost function ServeProblems(flagKey: JsString, index: nat, serve: Serve, declared: set<JsString>): seq<Problem> {
    match serve
    case Fixed(variationKey) => if variationKey !in declared then [UndeclaredServe(flagKey, index)] else []
    case Split(rollout) =>
      (if ValidDistribution(rollout) then [] else [BadDistribution(flagKey, index)])
      + UndeclaredSlices(flagKey, index, rollout, |rollout|, declared)
  }

  /** A rule's problems in order: its tree, the segments it refers to where first met, and what it serves. */
  ghost function RuleProblems(flag: Flag, index: nat, segmentKeys: set<JsString>): seq<Problem>
    requires index < |flag.rules|
  {
    var rule := flag.rules[index];
    var keys := InsertRefs(rule.when, []);
    TreeProblems(rule.when, InRule(flag.key, index), [])
    + UnknownSegments(flag.key, index, keys, |keys|, segmentKeys)
    + ServeProblems(flag.key, index, rule.serve, VariationKeys(flag.variations))
  }

  ghost function RulesProblems(flag: Flag, n: nat, segmentKeys: set<JsString>): seq<Problem>
    requires n <= |flag.rules|
  {
    if n == 0 then [] else RulesProblems(flag, n - 1, segmentKeys) + RuleProblems(flag, n - 1, segmentKeys)
  }

  ghost function VariationProblems(flag: Flag): seq<Problem> {
    (if DistinctVariations(flag.variations) then [] else [DuplicateVariations(flag.key)])
    + (if flag.defaultVariationKey !in VariationKeys(flag.variations) then [UndeclaredDefault(flag.key)] else [])
    + (if flag.offVariationKey !in VariationKeys(flag.variations) then [UndeclaredOff(flag.key)] else [])
  }

  /** A flag's problems in order; without variations nothing else is looked at. */
  ghost function FlagProblems(flag: Flag, segmentKeys: set<JsString>): seq<Problem> {
    if flag.variations == [] then [NoVariations(flag.key)]
    else VariationProblems(flag) + RulesProblems(flag, |flag.rules|, segmentKeys)
  }

  method ValidateRule(flag: Flag, index: nat, segmentKeys: set<JsString>, problems: ProblemList)
    requires index < |flag.rules|
    modifies problems
    ensures problems.list == old(problems.list) + RuleProblems(flag, index, segmentKeys)
  {
    hide TreeProblems, InsertRefs, ValidDistribution;
    var rule, declared := flag.rules[index], VariationKeys(flag.variations);
    ValidateRuleNode(rule.when, InRule(flag.key, index), [], problems, 0);
    ghost var afterTree := problems.list;

    var references := new OrderedKeys();
    ReferencedSegments(rule.when, references);
    for i := 0 to |references.order|
      invariant references.order == InsertRefs(rule.when, [])
      invariant problems.list == afterTree + UnknownSegments(flag.key, index, references.order, i, segmentKeys)
    {
      if references.order[i] !in segmentKeys {
        problems.Push(UnknownSegment(flag.key, index, references.order[i]));
      }
    }

    if rule.serve.Fixed? {
      if rule.serve.variationKey !in declared {
        problems.Push(UndeclaredServe(flag.key, index));
      }
    } else {
      var valid := IsValidDistribution(rule.serve.rollout);
      if !valid {
        problems.Push(BadDistribution(flag.key, index));
      }
      ValidateSlices(flag.key, index, rule.serve.rollout, declared, problems);
    }
  }

  method ValidateSlices(flagKey: JsString, index: nat, rollout: seq<Slice>, declared: set<JsString>,
      problems: ProblemList)
    modifies problems
    ensures problems.list == old(problems.list) + UndeclaredSlices(flagKey, index, rollout, |rollout|, declared)
  {
    for i := 0 to |rollout|
      invariant problems.list == old(problems.list) + UndeclaredSlices(flagKey, index, rollout, i, declared)
    {
      if rollout[i].variationKey !in declared {
        problems.Push(UndeclaredSlice(flagKey, index, rollout[i].variationKey));
      }
    }
  }

  method ValidateFlag(flag: Flag, segmentKeys: set<JsString>, problems: ProblemList)
    modifies problems
    ensures problems.list == old(problems.list) + FlagProblems(flag, segmentKeys)
  {
    hide RuleProblems, DistinctVariations;
    var variationKeys := VariationKeys(flag.variations);
    KeyCountMeansDistinct(flag.variations);
    NoKeysMeansNoVariations(flag.variations);
    if |variationKeys| == 0 {
      problems.Push(NoVariations(flag.key));
      return;
    }
    if |variationKeys| != |flag.variations| {
      problems.Push(DuplicateVariations(flag.key));
    }
    if flag.defaultVariationKey !in variationKeys {
      problems.Push(UndeclaredDefault(flag.key));
    }
    if flag.offVariationKey !in variationKeys {
      problems.Push(UndeclaredOff(flag.key));
    }
    ghost var before := problems.list;
    assert before == old(problems.list) + VariationProblems(flag);
    for i := 0 to |flag.rules|
      invariant problems.list == before + RulesProblems(flag, i, segmentKeys)
    {
      ValidateRule(flag, i, segmentKeys, problems);
    }
  }

  // ----- what the flag lists hold

  lemma {:induction false} UnknownSegmentsMeaning(
      flagKey: JsString, index: nat, keys: seq<JsString>, n: nat, segmentKeys: set<JsString>, p: Problem)
    requires n <= |keys|
    ensures p in UnknownSegments(flagKey, index, keys, n, segmentKeys) <==>
      p.UnknownSegment? && p == UnknownSegment(flagKey, index, p.segmentKey)
      && p.segmentKey in keys[..n] && p.segmentKey !in segmentKeys
  {
    if n > 0 {
      UnknownSegmentsMeaning(flagKey, index, keys, n - 1, segmentKeys, p);
      assert keys[..n] == keys[..n - 1] + [keys[n - 1]];
    }
  }

  lemma {:induction false} UndeclaredSlicesMeaning(
      flagKey: JsString, index: nat, rollout: seq<Slice>, n: nat, declared: set<JsString>, p: Problem)
    requires n <= |rollout|
    ensures p in UndeclaredSlices(flagKey, index, rollout, n, declared) <==>
      p.UndeclaredSlice? && p == UndeclaredSlice(flagKey, index, p.variationKey)
      && p.variationKey !in declared && exists j :: 0 <= j < n && rollout[j].variationKey == p.variationKey
  {
    if n > 0 {
      UndeclaredSlicesMeaning(flagKey, index, rollout, n - 1, declared, p);
    }
  }

  lemma RuleProblemsMeaning(flag: Flag, index: nat, segmentKeys: set<JsString>, p: Problem)
    requires index < |flag.rules|
    ensures p in RuleProblems(flag, index, segmentKeys) <==> IsRuleProblem(flag, index, segmentKeys, p)
  {
    hide TreeProblems, IsTreeProblem, InsertRefs, Refs, ValidDistribution, UnknownSegments, UndeclaredSlices,
         VariationKeys;
    var rule := flag.rules[index];
    var keys := InsertRefs(rule.when, []);
    TreeProblemsMeaning(rule.when, InRule(flag.key, index), [], p);
    InsertRefsMeaning(rule.when, []);
    UnknownSegmentsMeaning(flag.key, index, keys, |keys|, segmentKeys, p);
    assert keys[..|keys|] == keys;
    if rule.serve.Split? {
      var rollout := rule.serve.rollout;
      UndeclaredSlicesMeaning(flag.key, index, rollout, |rollout|, VariationKeys(flag.variations), p);
    }
  }

  lemma {:induction false} RulesProblemsMeaning(flag: Flag, n: nat, segmentKeys: set<JsString>, p: Problem)
    requires n <= |flag.rules|
    ensures p in RulesProblems(flag, n, segmentKeys) <==>
            exists i :: 0 <= i < n && IsRuleProblem(flag, i, segmentKeys, p)
  {
    hide RuleProblems, IsRuleProblem;
    if n > 0 {
      RulesProblemsMeaning(flag, n - 1, segmentKeys, p);
      RuleProblemsMeaning(flag, n - 1, segmentKeys, p);
    }
  }

  lemma FlagProblemsMeaning(flag: Flag, segmentKeys: set<JsString>, p: Problem)
    ensures p in FlagProblems(flag, segmentKeys) <==> IsFlagProblem(flag, segmentKeys, p)
  {
    hide RulesProblems, IsRuleProblem, DistinctVariations, VariationKeys;
    RulesProblemsMeaning(flag, |flag.rules|, segmentKeys, p);
  }

  lemma NoKeysMeansNoVariations(variations: seq<Variation>)
    ensures variations != [] ==> variations[0].key in VariationKeys(variations)
  {
    if variations != [] {
      assert variations[0] in variations;
    }
  }

  // ----- the whole ruleset

  function FlagKeys(flags: seq<Flag>): set<JsString> {
    set flag <- flags :: flag.key
  }

  ghost predicate IsSegmentsProblem(segments: seq<Segment>, p: Problem) {
    exists j :: 0 <= j < |segments| && IsTreeProblem(InSegment(segments[j].key), [], segments[j].when, p)
  }

  ghost predicate IsMissingPrerequisite(flag: Flag, flagKeys: set<JsString>, p: Problem) {
    && p.MissingPrerequisite? && p.flagKey == flag.key && p.requiredKey !in flagKeys
    && exists j :: 0 <= j < |flag.prerequisites| && flag.prerequisites[j].flagKey == p.requiredKey
  }

  ghost predicate IsOneFlagProblem(flags: seq<Flag>, j: nat, segmentKeys: set<JsString>, p: Problem)
    requires j < |flags|
  {
    IsFlagProblem(flags[j], segmentKeys, p) || IsMissingPrerequisite(flags[j], FlagKeys(flags), p)
  }

  /** Every problem that validation reports, other than a prerequisite loop. */
  ghost predicate IsProblem(flags: seq<Flag>, segments: seq<Segment>, p: Problem) {
    || IsSegmentsProblem(segments, p)
    || exists j :: 0 <= j < |flags| && IsOneFlagProblem(flags, j, SegmentKeys(segments), p)
  }

  ghost predicate WellFormed(flags: seq<Flag>, segments: seq<Segment>) {
    && (forall p :: !IsProblem(flags, segments, p))
    && Acyclic(PrerequisiteGraph(flags))
  }

  datatype CompileResult =
    | Compiled(server: Snapshot, client: Snapshot)
    | Invalid(problems: seq<Problem>)
    | WouldLeak(leaks: seq<Leak>)

  function SegmentsProblems(segments: seq<Segment>, n: nat): seq<Problem>
    requires n <= |segments|
  {
    if n == 0 then []
    else SegmentsProblems(segments, n - 1) + TreeProblems(segments[n - 1].when, InSegment(segments[n - 1].key), [])
  }

  function PrerequisiteProblems(flag: Flag, n: nat, flagKeys: set<JsString>): seq<Problem>
    requires n <= |flag.prerequisites|
  {
    if n == 0 then []
    else
      var required := flag.prerequisites[n - 1].flagKey;
      PrerequisiteProblems(flag, n - 1, flagKeys)
      + if required !in flagKeys then [MissingPrerequisite(flag.key, required)] else []
  }

  ghost function FlagsProblems(flags: seq<Flag>, n: nat, segmentKeys: set<JsString>): seq<Problem>
    requires n <= |flags|
  {
    if n == 0 then []
    else
      FlagsProblems(flags, n - 1, segmentKeys)
      + FlagProblems(flags[n - 1], segmentKeys)
      + PrerequisiteProblems(flags[n - 1], |flags[n - 1].prerequisites|, FlagKeys(flags))
  }

  /** The report of validation in order, short of a prerequisite loop. */
  ghost function ProblemReport(flags: seq<Flag>, segments: seq<Segment>): seq<Problem> {
    SegmentsProblems(segments, |segments|) + FlagsProblems(flags, |flags|, SegmentKeys(segments))
  }

  method ValidateSegments(segments: seq<Segment>, problems: ProblemList)
    modifies problems
    ensures problems.list == old(problems.list) + SegmentsProblems(segments, |segments|)
  {
    hide TreeProblems;
    for i := 0 to |segments|
      invariant problems.list == old(problems.list) + SegmentsProblems(segments, i)
    {
      ValidateRuleNode(segments[i].when, InSegment(segments[i].key), [], problems, 0);
    }
  }

  method ValidatePrerequisites(flag: Flag, flagKeys: set<JsString>, problems: ProblemList)
    modifies problems
    ensures problems.list == old(problems.list) + PrerequisiteProblems(flag, |flag.prerequisites|, flagKeys)
  {
    for i := 0 to |flag.prerequisites|
      invariant problems.list == old(problems.list) + PrerequisiteProblems(flag, i, flagKeys)
    {
      if flag.prerequisites[i].flagKey !in flagKeys {
        problems.Push(MissingPrerequisite(flag.key, flag.prerequisites[i].flagKey));
      }
    }
  }

  method ValidateFlags(flags: seq<Flag>, segmentKeys: set<JsString>, problems: ProblemList)
    modifies problems
    ensures problems.list == old(problems.list) + FlagsProblems(flags, |flags|, segmentKeys)
  {
    hide FlagProblems, PrerequisiteProblems;
    var flagKeys := FlagKeys(flags);
    for i := 0 to |flags|
      invariant problems.list == old(problems.list) + FlagsProblems(flags, i, segmentKeys)
    {
      ValidateFlag(flags[i], segmentKeys, problems);
      ValidatePrerequisites(flags[i], flagKeys, problems);
    }
  }

  /**
   * Rejects exactly the rulesets with a problem, and reports every problem in order, a loop last.
   * A ruleset without problems compiles, unless a safe segment shares its key with a server-only one.
   */
  method CompileRuleset(environmentKey: JsString, version: int, flags: seq<Flag>, segments: seq<Segment>,
      servedAt: JsString)
    returns (result: CompileResult)
    ensures result.Invalid? <==> !WellFormed(flags, segments)
    ensures result.Invalid? ==>
      if Acyclic(PrerequisiteGraph(flags)) then result.problems == ProblemReport(flags, segments)
      else exists walk :: IsCycle(PrerequisiteGraph(flags), walk)
                          && result.problems == ProblemReport(flags, segments) + [PrerequisiteLoop(walk)]
    ensures result.Compiled? ==>
      && result.server == Snapshot(environmentKey, version, flags, segments, servedAt)
      && result.client == Payload(result.server, ClientKey)
    ensures result.WouldLeak? ==>
      && !UniqueSegmentKeys(segments)
      && result.leaks == LeakReport(Payload(Snapshot(environmentKey, version, flags, segments, servedAt), ClientKey))
    ensures result.WouldLeak? <==>
      && WellFormed(flags, segments)
      && exists segment <- segments :: segment.key in SafeKeys(segments) && ContainsServerOnly(segment.when)
  {
    hide IsProblem, SegmentsProblems, FlagsProblems, Payload, LeakReport, IsLeak, Acyclic, IsCycle;
    var problems := new ProblemList();
    ValidateSegments(segments, problems);
    ValidateFlags(flags, SegmentKeys(segments), problems);
    assert problems.list == ProblemReport(flags, segments);
    ReportMeaning(flags, segments);

    var cycle := FindPrerequisiteCycle(flags);
    if cycle.Some? {
      problems.Push(PrerequisiteLoop(cycle.value));
    }
    if |problems.list| > 0 {
      assert cycle.None? ==> problems.list[0] in problems.list;
      return Invalid(problems.list);
    }
    var server := Snapshot(environmentKey, version, flags, segments, servedAt);
    var client := FilterSnapshotForKey(server, ClientKey);
    var leaks := FindServerOnlyLeaks(client);
    LeaksOfClientPayload(server);
    if |leaks| > 0 {
      assert leaks[0] in leaks;
      return WouldLeak(leaks);
    }
    return Compiled(server, client);
  }

  lemma {:induction false} SegmentsProblemsMeaning(segments: seq<Segment>, n: nat, p: Problem)
    requires n <= |segments|
    ensures p in SegmentsProblems(segments, n) <==>
      exists j :: 0 <= j < n && IsTreeProblem(InSegment(segments[j].key), [], segments[j].when, p)
  {
    hide TreeProblems, IsTreeProblem;
    if n > 0 {
      SegmentsProblemsMeaning(segments, n - 1, p);
      TreeProblemsMeaning(segments[n - 1].when, InSegment(segments[n - 1].key), [], p);
    }
  }

  lemma {:induction false} PrerequisiteProblemsMeaning(flag: Flag, n: nat, flagKeys: set<JsString>, p: Problem)
    requires n <= |flag.prerequisites|
    ensures p in PrerequisiteProblems(flag, n, flagKeys) <==>
      && p.MissingPrerequisite? && p.flagKey == flag.key && p.requiredKey !in flagKeys
      && exists j :: 0 <= j < n && flag.prerequisites[j].flagKey == p.requiredKey
  {
    if n > 0 {
      PrerequisiteProblemsMeaning(flag, n - 1, flagKeys, p);
    }
  }

  lemma {:induction false} FlagsProblemsMeaning(flags: seq<Flag>, n: nat, segmentKeys: set<JsString>, p: Problem)
    requires n <= |flags|
    ensures p in FlagsProblems(flags, n, segmentKeys) <==>
      exists j :: 0 <= j < n && IsOneFlagProblem(flags, j, segmentKeys, p)
  {
    hide FlagProblems, IsFlagProblem, PrerequisiteProblems, FlagKeys;
    if n > 0 {
      FlagsProblemsMeaning(flags, n - 1, segmentKeys, p);
      FlagProblemsMeaning(flags[n - 1], segmentKeys, p);
      PrerequisiteProblemsMeaning(flags[n - 1], |flags[n - 1].prerequisites|, FlagKeys(flags), p);
      assert p in FlagsProblems(flags, n, segmentKeys) <==>
             p in FlagsProblems(flags, n - 1, segmentKeys) || IsOneFlagProblem(flags, n - 1, segmentKeys, p);
    }
  }

  /** The report holds every problem and nothing else. */
  lemma ReportMeaning(flags: seq<Flag>, segments: seq<Segment>)
    ensures forall p :: p in ProblemReport(flags, segments) <==> IsProblem(flags, segments, p)
  {
    hide SegmentsProblems, FlagsProblems, IsTreeProblem, IsOneFlagProblem;
    forall p ensures p in ProblemReport(flags, segments) <==> IsProblem(flags, segments, p) {
      SegmentsProblemsMeaning(segments, |segments|, p);
      FlagsProblemsMeaning(flags, |flags|, SegmentKeys(segments), p);
    }
  }
}
