/** Flag evaluation: the indexed snapshot, rule matching and the first-match walk. */
module Evaluation {
  import opened Text
  import opened Graphs
  import opened Rollout
  import opened Bucketing
  import opened Ruleset

  /** A flag with its variation lookup precomputed. */
  datatype CompiledFlag = CompiledFlag(flag: Flag, variations: map<JsString, Variation>)

  datatype Environment = Environment(flags: map<JsString, CompiledFlag>, segments: map<JsString, Segment>)

  datatype Context = Context(key: JsString, attributes: map<JsString, AttributeValue>)

  /**
   * One evaluation request. The operators and the stringification of attribute values are
   * library code; here they are arbitrary functions that come with the request.
   */
  datatype Request = Request(
    context: Context,
    applies: (Operator, AttributeValue, seq<AttributeValue>) -> bool,
    text: AttributeValue -> JsString)

  datatype Error =
    | UnknownFlag(flagKey: JsString)
    | PrerequisiteCycle(flagKey: JsString)
    | UnknownVariation(variationKey: JsString)
    | MalformedRollout(ruleId: JsString)

  datatype Reason =
    | Off
    | PrerequisiteFailed(flagKey: JsString)
    | RuleMatch(ruleId: JsString)
    | Default
    | Failure(error: Error)

  datatype EvaluationResult = EvaluationResult(value: Value, variationKey: JsString, reason: Reason,
      bucket: Option<nat>)

  // ----- indexing

  function IndexVariations(variations: seq<Variation>): map<JsString, Variation> {
    if variations == [] then map[]
    else
      var last := variations[|variations| - 1];
      IndexVariations(variations[..|variations| - 1])[last.key := last]
  }

  function IndexFlags(flags: seq<Flag>): map<JsString, CompiledFlag> {
    if flags == [] then map[]
    else
      var last := flags[|flags| - 1];
      IndexFlags(flags[..|flags| - 1])[last.key := CompiledFlag(last, IndexVariations(last.variations))]
  }

  function IndexSegments(segments: seq<Segment>): map<JsString, Segment> {
    if segments == [] then map[]
    else
      var last := segments[|segments| - 1];
      IndexSegments(segments[..|segments| - 1])[last.key := last]
  }

  function Index(snapshot: Snapshot): Environment {
    Environment(IndexFlags(snapshot.flags), IndexSegments(snapshot.segments))
  }

  method IndexSnapshot(snapshot: Snapshot) returns (env: Environment)
    ensures env == Index(snapshot)
  {
    var flags: map<JsString, CompiledFlag> := map[];
    for i := 0 to |snapshot.flags|
      invariant flags == IndexFlags(snapshot.flags[..i])
    {
      var flag := snapshot.flags[i];
      var variations: map<JsString, Variation> := map[];
      for j := 0 to |flag.variations|
        invariant variations == IndexVariations(flag.variations[..j])
      {
        variations := variations[flag.variations[j].key := flag.variations[j]];
        assert flag.variations[..j + 1][..j] == flag.variations[..j];
      }
      assert flag.variations[..|flag.variations|] == flag.variations;
      flags := flags[flag.key := CompiledFlag(flag, variations)];
      assert snapshot.flags[..i + 1][..i] == snapshot.flags[..i];
    }
    var segments: map<JsString, Segment> := map[];
    for i := 0 to |snapshot.segments|
      invariant segments == IndexSegments(snapshot.segments[..i])
    {
      segments := segments[snapshot.segments[i].key := snapshot.segments[i]];
      assert snapshot.segments[..i + 1][..i] == snapshot.segments[..i];
    }
    assert snapshot.flags[..|snapshot.flags|] == snapshot.flags;
    assert snapshot.segments[..|snapshot.segments|] == snapshot.segments;
    env := Environment(flags, segments);
  }

  /** Looking a segment up finds the last one declared under that key, and only declared keys are found. */
  lemma {:induction false} IndexSegmentsMeaning(segments: seq<Segment>, k: JsString)
    ensures k in IndexSegments(segments) <==> exists s <- segments :: s.key == k
    ensures k in IndexSegments(segments) ==>
              exists i :: 0 <= i < |segments| && segments[i].key == k && IndexSegments(segments)[k] == segments[i]
                          && forall j :: i < j < |segments| ==> segments[j].key != k
  {
    if segments != [] {
      var n := |segments| - 1;
      var rest := segments[..n];
      IndexSegmentsMeaning(rest, k);
      assert segments[n] in segments;
      if segments[n].key == k {
        assert IndexSegments(segments)[k] == segments[n];
      } else {
        if k in IndexSegments(rest) {
          var i :| 0 <= i < |rest| && rest[i].key == k && IndexSegments(rest)[k] == rest[i]
                   && forall j :: i < j < |rest| ==> rest[j].key != k;
          assert segments[i] == rest[i] && segments[i] in segments;
          forall j | i < j < |segments| ensures segments[j].key != k {
            if j < n { assert segments[j] == rest[j]; }
          }
        }
        if s :| s in segments && s.key == k {
          var j :| 0 <= j < |segments| && segments[j] == s;
          assert rest[j] == s && s in rest;
        }
      }
    }
  }

  /** Looking a flag up finds the last one declared under that key, and only declared keys are found. */
  lemma {:induction false} IndexFlagsMeaning(flags: seq<Flag>, k: JsString)
    ensures k in IndexFlags(flags) <==> exists f <- flags :: f.key == k
    ensures k in IndexFlags(flags) ==>
              && IndexFlags(flags)[k].variations == IndexVariations(IndexFlags(flags)[k].flag.variations)
              && exists i :: 0 <= i < |flags| && flags[i].key == k && IndexFlags(flags)[k].flag == flags[i]
                             && forall j :: i < j < |flags| ==> flags[j].key != k
  {
    hide IndexVariations;
    if flags != [] {
      var n := |flags| - 1;
      var rest := flags[..n];
      IndexFlagsMeaning(rest, k);
      assert flags[n] in flags;
      if flags[n].key == k {
        assert IndexFlags(flags)[k].flag == flags[n];
      } else {
        if k in IndexFlags(rest) {
          var i :| 0 <= i < |rest| && rest[i].key == k && IndexFlags(rest)[k].flag == rest[i]
                   && forall j :: i < j < |rest| ==> rest[j].key != k;
          assert flags[i] == rest[i] && flags[i] in flags;
          forall j | i < j < |flags| ensures flags[j].key != k {
            if j < n { assert flags[j] == rest[j]; }
          }
        }
        if f :| f in flags && f.key == k {
          var j :| 0 <= j < |flags| && flags[j] == f;
          assert rest[j] == f && f in rest;
        }
      }
    }
  }

  /** Looking a variation up finds the last one declared under that key, and only declared keys are found. */
  lemma {:induction false} IndexVariationsMeaning(variations: seq<Variation>, k: JsString)
    ensures k in IndexVariations(variations) <==> exists v <- variations :: v.key == k
    ensures k in IndexVariations(variations) ==>
              exists i :: 0 <= i < |variations| && variations[i].key == k
                && IndexVariations(variations)[k] == variations[i]
                && forall j :: i < j < |variations| ==> variations[j].key != k
  {
    if variations != [] {
      var n := |variations| - 1;
      var rest := variations[..n];
      IndexVariationsMeaning(rest, k);
      assert variations[n] in variations;
      if variations[n].key == k {
        assert IndexVariations(variations)[k] == variations[n];
      } else {
        if k in IndexVariations(rest) {
          var i :| 0 <= i < |rest| && rest[i].key == k && IndexVariations(rest)[k] == rest[i]
                   && forall j :: i < j < |rest| ==> rest[j].key != k;
          assert variations[i] == rest[i] && variations[i] in variations;
          forall j | i < j < |variations| ensures variations[j].key != k {
            if j < n { assert variations[j] == rest[j]; }
          }
        }
        if v :| v in variations && v.key == k {
          var j :| 0 <= j < |variations| && variations[j] == v;
          assert rest[j] == v && v in rest;
        }
      }
    }
  }

  // ----- matching

  const KEY_ATTRIBUTE: JsString := [107, 101, 121]

  function ResolveAttribute(context: Context, attribute: JsString): Option<AttributeValue> {
    if attribute == KEY_ATTRIBUTE then Some(Str(context.key))
    else if attribute in context.attributes then Some(context.attributes[attribute])
    else None
  }

  /** An absent attribute never matches, whatever the operator. */
  function ApplyOperator(req: Request, operator: Operator, attribute: Option<AttributeValue>,
      values: seq<AttributeValue>): bool {
    attribute.Some? && req.applies(operator, attribute.value, values)
  }

  type Segments = map<JsString, Segment>

  /**
   * Whether a node matches. seen holds the segments being expanded around this node; a
   * reference to one of them, or to a segment that does not exist, fails closed.
   */
  function Matches(node: RuleNode, req: Request, segments: Segments, seen: set<JsString>): bool
    decreases segments.Keys - seen, node
  {
    match node
    case Condition(attribute, operator, values, _) =>
      ApplyOperator(req, operator, ResolveAttribute(req.context, attribute), values)
    case And(children) => AllMatch(children, req, segments, seen)
    case Or(children) => AnyMatches(children, req, segments, seen)
    case Not(children) => !AllMatch(children, req, segments, seen)
    case SegmentRef(key, negate) =>
      if key in seen || key !in segments then false
      else
        var matched := Matches(segments[key].when, req, segments, seen + {key});
        if negate then !matched else matched
    case Unknown => false
  }

  function AllMatch(children: seq<RuleNode>, req: Request, segments: Segments, seen: set<JsString>): bool
    decreases segments.Keys - seen, children
  {
    children == [] || (Matches(children[0], req, segments, seen) && AllMatch(children[1..], req, segments, seen))
  }

  function AnyMatches(children: seq<RuleNode>, req: Request, segments: Segments, seen: set<JsString>): bool
    decreases segments.Keys - seen, children
  {
    children != [] && (Matches(children[0], req, segments, seen) || AnyMatches(children[1..], req, segments, seen))
  }

  ghost function SeenKeys(seen: KeySet?): set<JsString>
    reads seen
  {
    if seen == null then {} else seen.keys
  }

  /** The code's matcher: one mutable seen set, allocated on the first segment, and restored on every return path. */
  method MatchNode(node: RuleNode, req: Request, env: Environment, seenSegments: KeySet?) returns (matched: bool)
    modifies seenSegments
    ensures seenSegments != null ==> seenSegments.keys == old(seenSegments.keys)
    ensures matched == Matches(node, req, env.segments, old(SeenKeys(seenSegments)))
    decreases env.segments.Keys - SeenKeys(seenSegments), node
  {
    ghost var before := SeenKeys(seenSegments);
    match node {
      case Condition(attribute, operator, values, _) =>
        return ApplyOperator(req, operator, ResolveAttribute(req.context, attribute), values);
      case And(children) =>
        for i := 0 to |children|
          invariant SeenKeys(seenSegments) == before
          invariant AllMatch(children, req, env.segments, before) == AllMatch(children[i..], req, env.segments, before)
        {
          var child := MatchNode(children[i], req, env, seenSegments);
          if !child {
            return false;
          }
        }
        return true;
      case Or(children) =>
        for i := 0 to |children|
          invariant SeenKeys(seenSegments) == before
          invariant AnyMatches(children, req, env.segments, before) ==
                    AnyMatches(children[i..], req, env.segments, before)
        {
          var child := MatchNode(children[i], req, env, seenSegments);
          if child {
            return true;
          }
        }
        return false;
      case Not(children) =>
        for i := 0 to |children|
          invariant SeenKeys(seenSegments) == before
          invariant AllMatch(children, req, env.segments, before) == AllMatch(children[i..], req, env.segments, before)
        {
          var child := MatchNode(children[i], req, env, seenSegments);
          if !child {
            return true;
          }
        }
        return false;
      case SegmentRef(key, negate) =>
        var seen := seenSegments;
        if seen == null {
          seen := new KeySet();
        }
        if key in seen.keys {
          return false;
        }
        if key !in env.segments {
          return false;
        }
        seen.keys := seen.keys + {key};
        var inner := MatchNode(env.segments[key].when, req, env, seen);
        seen.keys := seen.keys - {key};
        return if negate then !inner else inner;
      case Unknown =>
        return false;
    }
  }

  // ----- serving

  function ResolveBucketKey(flag: Flag, req: Request): Option<JsString> {
    match ResolveAttribute(req.context, flag.bucketBy)
    case None => None
    case Some(raw) => if raw.Null? then None else Some(req.text(raw))
  }

  function ResultFor(compiled: CompiledFlag, variationKey: JsString, reason: Reason, fallback: Value,
      bucket: Option<nat>): EvaluationResult {
    if variationKey !in compiled.variations then
      EvaluationResult(fallback, variationKey, Failure(UnknownVariation(variationKey)), None)
    else
      EvaluationResult(compiled.variations[variationKey].value, variationKey, reason, bucket)
  }

  function DefaultResult(compiled: CompiledFlag, fallback: Value): EvaluationResult {
    ResultFor(compiled, compiled.flag.defaultVariationKey, Default, fallback, None)
  }

  /** What the first matching rule serves; None means it cannot place the context and the walk stops. */
  function ServeRule(compiled: CompiledFlag, rule: Rule, req: Request, fallback: Value): EvaluationResult {
    match rule.serve
    case Fixed(variationKey) => ResultFor(compiled, variationKey, RuleMatch(rule.id), fallback, None)
    case Split(rollout) =>
      match ResolveBucketKey(compiled.flag, req)
      case None => DefaultResult(compiled, fallback)
      case Some(bucketKey) =>
        var bucket := BucketFor(compiled.flag.key, compiled.flag.salt, bucketKey);
        match KeyFor(rollout, bucket)
        case None => EvaluationResult(fallback, [], Failure(MalformedRollout(rule.id)), None)
        case Some(variationKey) => ResultFor(compiled, variationKey, RuleMatch(rule.id), fallback, Some(bucket))
  }

  /** The first rule that matches, in declaration order. */
  function FirstMatch(rules: seq<Rule>, req: Request, segments: Segments): Option<Rule> {
    if rules == [] then None
    else if Matches(rules[0].when, req, segments, {}) then Some(rules[0])
    else FirstMatch(rules[1..], req, segments)
  }

  function ServeRules(compiled: CompiledFlag, rules: seq<Rule>, req: Request, segments: Segments,
      fallback: Value): EvaluationResult {
    match FirstMatch(rules, req, segments)
    case None => DefaultResult(compiled, fallback)
    case Some(rule) => ServeRule(compiled, rule, req, fallback)
  }

  function ErrorResult(fallback: Value, error: Error): EvaluationResult {
    EvaluationResult(fallback, [], Failure(error), None)
  }

  /** Evaluates a flag while the flags in seen are being evaluated around it. */
  function Evaluate(flagKey: JsString, req: Request, env: Environment, fallback: Value,
      seen: set<JsString>): EvaluationResult
    decreases env.flags.Keys - seen, 0
  {
    if flagKey !in env.flags then ErrorResult(fallback, UnknownFlag(flagKey))
    else if flagKey in seen then ErrorResult(fallback, PrerequisiteCycle(flagKey))
    else
      var compiled := env.flags[flagKey];
      if !compiled.flag.enabled then
        ResultFor(compiled, compiled.flag.offVariationKey, Off, fallback, None)
      else
        match FailedPrerequisite(compiled.flag.prerequisites, req, env, seen + {flagKey})
        case Some(failed) =>
          ResultFor(compiled, compiled.flag.offVariationKey, PrerequisiteFailed(failed), fallback, None)
        case None =>
          ServeRules(compiled, compiled.flag.rules, req, env.segments, fallback)
  }

  /** The first prerequisite whose flag does not serve the required variation. */
  function FailedPrerequisite(prerequisites: seq<Prerequisite>, req: Request, env: Environment,
      seen: set<JsString>): Option<JsString>
    decreases env.flags.Keys - seen, 1 + |prerequisites|
  {
    if prerequisites == [] then None
    else if
      Evaluate(prerequisites[0].flagKey, req, env, Undefined, seen).variationKey != prerequisites[0].variationKey
    then
      Some(prerequisites[0].flagKey)
    else FailedPrerequisite(prerequisites[1..], req, env, seen)
  }

  /** The code's evaluator: a shared mutable set of flags in progress, restored on every return path. */
  method EvaluateInternal(flagKey: JsString, req: Request, env: Environment, fallback: Value, seenFlags: KeySet)
    returns (result: EvaluationResult)
    modifies seenFlags
    ensures seenFlags.keys == old(seenFlags.keys)
    ensures result == Evaluate(flagKey, req, env, fallback, old(seenFlags.keys))
    decreases env.flags.Keys - seenFlags.keys
  {
    ghost var seen := seenFlags.keys;
    if flagKey !in env.flags {
      return ErrorResult(fallback, UnknownFlag(flagKey));
    }
    var compiled := env.flags[flagKey];
    if flagKey in seenFlags.keys {
      return ErrorResult(fallback, PrerequisiteCycle(flagKey));
    }
    seenFlags.keys := seenFlags.keys + {flagKey};
    var flag := compiled.flag;

    if !flag.enabled {
      seenFlags.keys := seenFlags.keys - {flagKey};
      return ResultFor(compiled, flag.offVariationKey, Off, fallback, None);
    }

    var prerequisites := flag.prerequisites;
    for i := 0 to |prerequisites|
      invariant seenFlags.keys == seen + {flagKey}
      invariant FailedPrerequisite(prerequisites, req, env, seen + {flagKey})
                == FailedPrerequisite(prerequisites[i..], req, env, seen + {flagKey})
    {
      var upstream := EvaluateInternal(prerequisites[i].flagKey, req, env, Undefined, seenFlags);
      if upstream.variationKey != prerequisites[i].variationKey {
        seenFlags.keys := seenFlags.keys - {flagKey};
        return ResultFor(compiled, flag.offVariationKey, PrerequisiteFailed(prerequisites[i].flagKey), fallback, None);
      }
    }

    var rules := flag.rules;
    for i := 0 to |rules|
      invariant seenFlags.keys == seen + {flagKey}
      invariant FirstMatch(rules, req, env.segments) == FirstMatch(rules[i..], req, env.segments)
    {
      var rule := rules[i];
      var matched := MatchNode(rule.when, req, env, null);
      if !matched {
        continue;
      }
      seenFlags.keys := seenFlags.keys - {flagKey};
      if rule.serve.Fixed? {
        return ResultFor(compiled, rule.serve.variationKey, RuleMatch(rule.id), fallback, None);
      }
      var bucketKey := ResolveBucketKey(flag, req);
      if bucketKey.None? {
        return ResultFor(compiled, flag.defaultVariationKey, Default, fallback, None);
      }
      var bucket := BucketFor(flag.key, flag.salt, bucketKey.value);
      var variationKey := VariationForBucket(rule.serve.rollout, bucket);
      if variationKey.None? {
        return ErrorResult(fallback, MalformedRollout(rule.id));
      }
      return ResultFor(compiled, variationKey.value, RuleMatch(rule.id), fallback, Some(bucket));
    }

    seenFlags.keys := seenFlags.keys - {flagKey};
    return ResultFor(compiled, flag.defaultVariationKey, Default, fallback, None);
  }

  function EvaluateFlagValue(flagKey: JsString, req: Request, env: Environment, fallback: Value): EvaluationResult {
    Evaluate(flagKey, req, env, fallback, {})
  }

  method EvaluateFlag(flagKey: JsString, req: Request, env: Environment, fallback: Value)
      returns (result: EvaluationResult)
    ensures result == EvaluateFlagValue(flagKey, req, env, fallback)
  {
    var seenFlags := new KeySet();
    result := EvaluateInternal(flagKey, req, env, fallback, seenFlags);
  }

  // ----- the reference graphs

  function SegmentGraph(segments: Segments): Graph {
    map k | k in segments :: Refs(segments[k].when)
  }

  function PrerequisiteKeys(flag: Flag): set<JsString> {
    set p <- flag.prerequisites :: p.flagKey
  }

  function FlagGraph(flags: map<JsString, CompiledFlag>): Graph {
    map k | k in flags :: PrerequisiteKeys(flags[k].flag)
  }

  // ----- flags that cannot fail

  /** Everything a flag can serve is a declared variation, and its rollouts are complete. */
  ghost predicate ServesDeclared(compiled: CompiledFlag) {
    && compiled.flag.defaultVariationKey in compiled.variations
    && compiled.flag.offVariationKey in compiled.variations
    && forall rule <- compiled.flag.rules :: RuleServesDeclared(compiled, rule)
  }

  ghost predicate RuleServesDeclared(compiled: CompiledFlag, rule: Rule) {
    match rule.serve
    case Fixed(variationKey) => variationKey in compiled.variations
    case Split(rollout) =>
      ValidDistribution(rollout) && forall slice <- rollout :: slice.variationKey in compiled.variations
  }

  /** A rule places a context when it serves a fixed variation or the context has a bucketing key. */
  predicate Places(flag: Flag, rule: Rule, req: Request) {
    rule.serve.Fixed? || ResolveBucketKey(flag, req).Some?
  }

  lemma ServeRuleOutcome(compiled: CompiledFlag, rule: Rule, req: Request, fallback: Value)
    requires RuleServesDeclared(compiled, rule) && compiled.flag.defaultVariationKey in compiled.variations
    ensures var result := ServeRule(compiled, rule, req, fallback);
            && result.variationKey in compiled.variations
            && result.value == compiled.variations[result.variationKey].value
            && result.reason == if Places(compiled.flag, rule, req) then RuleMatch(rule.id) else Default
  {
    if rule.serve.Split? && ResolveBucketKey(compiled.flag, req).Some? {
      var bucket := BucketFor(compiled.flag.key, compiled.flag.salt, ResolveBucketKey(compiled.flag, req).value);
      EveryBucketServed(rule.serve.rollout, bucket);
    }
  }

  lemma {:induction false} FirstMatchMeaning(rules: seq<Rule>, req: Request, segments: Segments)
    ensures match FirstMatch(rules, req, segments)
            case None => forall rule <- rules :: !Matches(rule.when, req, segments, {})
            case Some(rule) =>
              exists i :: 0 <= i < |rules| && rules[i] == rule && Matches(rule.when, req, segments, {})
                          && forall j :: 0 <= j < i ==> !Matches(rules[j].when, req, segments, {})
  {
    if rules != [] && !Matches(rules[0].when, req, segments, {}) {
      FirstMatchMeaning(rules[1..], req, segments);
      match FirstMatch(rules[1..], req, segments) {
        case None =>
          assert forall rule :: rule in rules ==> rule == rules[0] || rule in rules[1..];
        case Some(rule) =>
          var i :| 0 <= i < |rules[1..]| && rules[1..][i] == rule && Matches(rule.when, req, segments, {})
                   && forall j :: 0 <= j < i ==> !Matches(rules[1..][j].when, req, segments, {});
          assert rules[i + 1] == rule;
          forall j | 0 <= j < i + 1 ensures !Matches(rules[j].when, req, segments, {}) {
            if j > 0 { assert rules[j] == rules[1..][j - 1]; }
          }
      }
    }
  }
}
