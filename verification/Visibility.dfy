/** Payload filtering: which segments and rules may reach a client key, and what is left of a snapshot. */
module Visibility {
  import opened Text
  import opened Graphs
  import opened Ruleset
  import opened Evaluation

  datatype KeyKind = ClientKey | ServerKey

  /** Some node of the tree is a server-only condition or of a kind this version does not know. */
  predicate ContainsServerOnly(node: RuleNode) {
    match node
    case Condition(_, _, _, visibility) => visibility == Server
    case And(children) => exists child <- children :: ContainsServerOnly(child)
    case Or(children) => exists child <- children :: ContainsServerOnly(child)
    case Not(children) => exists child <- children :: ContainsServerOnly(child)
    case SegmentRef(_, _) => false
    case Unknown => true
  }

  /** Adds the keys that a tree refers to, in the order in which they are met. */
  method ReferencedSegments(node: RuleNode, into: OrderedKeys)
    modifies into
    ensures into.order == InsertRefs(node, old(into.order))
    decreases node
  {
    match node {
      case SegmentRef(segmentKey, _) => into.Add(segmentKey);
      case And(_) => ReferencedByChildren(node.children, into);
      case Or(_) => ReferencedByChildren(node.children, into);
      case Not(_) => ReferencedByChildren(node.children, into);
      case Condition(_, _, _, _) =>
      case Unknown =>
    }
  }

  method ReferencedByChildren(children: seq<RuleNode>, into: OrderedKeys)
    modifies into
    ensures into.order == InsertChildRefs(children, |children|, old(into.order))
    decreases children
  {
    for i := 0 to |children|
      invariant into.order == InsertChildRefs(children, i, old(into.order))
    {
      ReferencedSegments(children[i], into);
    }
  }

  /** A segment is safe given a set of safe keys: nothing server-only in its own tree, and only safe references. */
  predicate Supports(segment: Segment, safe: set<JsString>) {
    !ContainsServerOnly(segment.when) && Refs(segment.when) <= safe
  }

  ghost predicate ClosedUnderSupport(segments: seq<Segment>, safe: set<JsString>) {
    forall segment <- segments :: Supports(segment, safe) ==> segment.key in safe
  }

  function SegmentKeys(segments: seq<Segment>): set<JsString> {
    set segment <- segments :: segment.key
  }

  /** The least set of keys that is closed under support. */
  ghost function SafeKeys(segments: seq<Segment>): set<JsString> {
    set k | k in SegmentKeys(segments) && forall t: set<JsString> :: ClosedUnderSupport(segments, t) ==> k in t
  }

  lemma SafeKeysBelowClosed(segments: seq<Segment>, t: set<JsString>)
    requires ClosedUnderSupport(segments, t)
    ensures SafeKeys(segments) <= t
  {
  }

  lemma SafeKeysClosed(segments: seq<Segment>)
    ensures ClosedUnderSupport(segments, SafeKeys(segments))
  {
    var safe := SafeKeys(segments);
    forall segment | segment in segments && Supports(segment, safe)
      ensures segment.key in safe
    {
      forall t: set<JsString> | ClosedUnderSupport(segments, t)
        ensures segment.key in t
      {
        SafeKeysBelowClosed(segments, t);
      }
    }
  }

  lemma UnsupportedIsUnsafe(segments: seq<Segment>, k: JsString)
    requires forall segment <- segments :: segment.key == k ==> !Supports(segment, SafeKeys(segments))
    ensures k !in SafeKeys(segments)
  {
    SafeKeysClosed(segments);
    var t := SafeKeys(segments) - {k};
    forall segment | segment in segments && Supports(segment, t) ensures segment.key in t {
      assert Supports(segment, SafeKeys(segments));
    }
    SafeKeysBelowClosed(segments, t);
  }

  /** A safe key has a segment that the safe keys support: the least closed set is a fixed point. */
  lemma SafeKeysSupported(segments: seq<Segment>, k: JsString)
    requires k in SafeKeys(segments)
    ensures exists segment <- segments :: segment.key == k && Supports(segment, SafeKeys(segments))
  {
    if forall segment <- segments :: segment.key == k ==> !Supports(segment, SafeKeys(segments)) {
      UnsupportedIsUnsafe(segments, k);
    }
  }

  method AllIn(dependencies: seq<JsString>, safe: set<JsString>) returns (dependenciesSafe: bool)
    ensures dependenciesSafe <==> forall k <- dependencies :: k in safe
  {
    for i := 0 to |dependencies|
      invariant forall j :: 0 <= j < i ==> dependencies[j] in safe
    {
      if dependencies[i] !in safe {
        return false;
      }
    }
    return true;
  }

  /** The loop to a fixed point computes exactly the least one, for any list of segments. */
  method ClientSafeSegments(segments: seq<Segment>) returns (safe: set<JsString>)
    ensures safe == SafeKeys(segments)
  {
    hide SafeKeys, ContainsServerOnly, Refs, InsertRefs;
    SafeKeysClosed(segments);
    ghost var least := SafeKeys(segments);
    safe := {};
    var changed := true;
    while changed
      invariant safe <= least
      invariant !changed ==> ClosedUnderSupport(segments, safe)
      decreases least - safe, changed
    {
      changed := false;
      ghost var before := safe;
      for i := 0 to |segments|
        invariant before <= safe <= least
        invariant changed <==> before != safe
        invariant !changed ==> forall j :: 0 <= j < i ==> Supports(segments[j], safe) ==> segments[j].key in safe
      {
        var segment := segments[i];
        if segment.key in safe {
          continue;
        }
        if ContainsServerOnly(segment.when) {
          continue;
        }
        var dependencies := new OrderedKeys();
        ReferencedSegments(segment.when, dependencies);
        InsertRefsMeaning(segment.when, []);
        var dependenciesSafe := AllIn(dependencies.order, safe);
        if dependenciesSafe {
          assert Supports(segment, safe) && Supports(segment, least);
          safe := safe + {segment.key};
          changed := true;
        }
      }
    }
    SafeKeysBelowClosed(segments, safe);
  }

  /** The order of the list, and repetitions in it, do not matter. */
  lemma SafeKeysIgnoreOrder(a: seq<Segment>, b: seq<Segment>)
    requires forall s :: s in a <==> s in b
    ensures SafeKeys(a) == SafeKeys(b)
  {
    SafeKeysClosed(a);
    SafeKeysClosed(b);
    assert ClosedUnderSupport(b, SafeKeys(a)) && ClosedUnderSupport(a, SafeKeys(b));
    SafeKeysBelowClosed(a, SafeKeys(b));
    SafeKeysBelowClosed(b, SafeKeys(a));
  }

  // ----- what safety means in the reference graph

  /** Everything reachable exists, carries nothing server-only and lies on no cycle. */
  ghost predicate CleanClosure(segments: Segments, k: JsString) {
    forall j :: Reaches(SegmentGraph(segments), k, j) ==>
      j in segments && !ContainsServerOnly(segments[j].when) && !OnCycle(SegmentGraph(segments), j)
  }

  /** With unique keys, a declared segment is found under its key. */
  lemma UniqueSegmentIndexed(segments: seq<Segment>, segment: Segment)
    requires UniqueSegmentKeys(segments) && segment in segments
    ensures segment.key in IndexSegments(segments) && IndexSegments(segments)[segment.key] == segment
  {
    IndexSegmentsMeaning(segments, segment.key);
  }

  lemma SafeSegmentIndexed(segments: seq<Segment>, k: JsString)
    requires UniqueSegmentKeys(segments) && k in SafeKeys(segments)
    ensures k in IndexSegments(segments) && Supports(IndexSegments(segments)[k], SafeKeys(segments))
  {
    SafeKeysSupported(segments, k);
    var segment :| segment in segments && segment.key == k && Supports(segment, SafeKeys(segments));
    UniqueSegmentIndexed(segments, segment);
  }

  /** Clean keys are closed under support, so every safe key is clean. */
  lemma SafeMeansClean(segments: seq<Segment>, k: JsString)
    requires UniqueSegmentKeys(segments) && k in SafeKeys(segments)
    ensures CleanClosure(IndexSegments(segments), k)
  {
    var index := IndexSegments(segments);
    var clean := set j | j in SegmentKeys(segments) && CleanClosure(index, j);
    forall segment | segment in segments && Supports(segment, clean)
      ensures segment.key in clean
    {
      UniqueSegmentIndexed(segments, segment);
      CleanStep(index, segment.key);
    }
    SafeKeysBelowClosed(segments, clean);
  }

  lemma CleanStep(index: Segments, k: JsString)
    requires k in index && !ContainsServerOnly(index[k].when)
    requires forall r <- Refs(index[k].when) :: CleanClosure(index, r)
    ensures CleanClosure(index, k)
  {
    var g := SegmentGraph(index);
    if OnCycle(g, k) {
      var r := FirstStep(g, k, k);
      assert false;
    }
    forall j | Reaches(g, k, j)
      ensures j in index && !ContainsServerOnly(index[j].when) && !OnCycle(g, j)
    {
      if j != k {
        var r := ReachesCases(g, k, j);
        assert CleanClosure(index, r);
      }
    }
  }

  /** A clean key is safe: its closure is finite and acyclic, so support can be built from the bottom up. */
  lemma {:induction false} CleanMeansSafe(segments: seq<Segment>, k: JsString, above: set<JsString>)
    requires UniqueSegmentKeys(segments) && CleanClosure(IndexSegments(segments), k)
    requires forall a <- above :: Leads(SegmentGraph(IndexSegments(segments)), a, k)
    ensures k in SafeKeys(segments)
    decreases IndexSegments(segments).Keys - above
  {
    var index := IndexSegments(segments);
    var g := SegmentGraph(index);
    ReachesSelf(g, k);
    assert k in index && !OnCycle(g, k) && k !in above;
    forall r | r in Refs(index[k].when)
      ensures r in SafeKeys(segments)
    {
      EdgeLeads(g, k, r);
      LeadsReaches(g, k, r);
      forall j | Reaches(g, r, j) ensures Reaches(g, k, j) {
        ReachesTransitive(g, k, r, j);
      }
      forall a | a in above + {k} ensures Leads(g, a, r) {
        if a in above {
          LeadsThenReaches(g, a, k, r);
        }
      }
      CleanMeansSafe(segments, r, above + {k});
    }
    IndexSegmentsMeaning(segments, k);
    SafeKeysClosed(segments);
    assert Supports(index[k], SafeKeys(segments));
  }

  /**
   * A segment is safe exactly when its whole reference closure has no server-only condition, no missing segment and
   * no cycle.
   */
  lemma SafeExactlyClean(segments: seq<Segment>, k: JsString)
    requires UniqueSegmentKeys(segments)
    ensures k in SafeKeys(segments) <==> CleanClosure(IndexSegments(segments), k)
  {
    if k in SafeKeys(segments) {
      SafeMeansClean(segments, k);
    }
    if CleanClosure(IndexSegments(segments), k) {
      CleanMeansSafe(segments, k, {});
    }
  }

  // ----- the filter

  predicate IsRuleClientSafe(rule: Rule, safe: set<JsString>) {
    !ContainsServerOnly(rule.when) && Refs(rule.when) <= safe
  }

  function KeepSafeRules(rules: seq<Rule>, safe: set<JsString>): seq<Rule> {
    if rules == [] then []
    else if IsRuleClientSafe(rules[0], safe) then [rules[0]] + KeepSafeRules(rules[1..], safe)
    else KeepSafeRules(rules[1..], safe)
  }

  function FilterFlag(flag: Flag, safe: set<JsString>): Flag {
    flag.(rules := KeepSafeRules(flag.rules, safe))
  }

  function FilterFlags(flags: seq<Flag>, safe: set<JsString>): (r: seq<Flag>)
    ensures |r| == |flags| && forall i :: 0 <= i < |flags| ==> r[i] == FilterFlag(flags[i], safe)
  {
    seq(|flags|, i requires 0 <= i < |flags| => FilterFlag(flags[i], safe))
  }

  function KeepSafeSegments(segments: seq<Segment>, safe: set<JsString>): seq<Segment> {
    if segments == [] then []
    else if segments[0].key in safe then [segments[0]] + KeepSafeSegments(segments[1..], safe)
    else KeepSafeSegments(segments[1..], safe)
  }

  function FilterWith(snapshot: Snapshot, safe: set<JsString>): Snapshot {
    snapshot.(flags := FilterFlags(snapshot.flags, safe), segments := KeepSafeSegments(snapshot.segments, safe))
  }

  /** The payload for a key kind. */
  ghost function Payload(snapshot: Snapshot, kind: KeyKind): Snapshot {
    match kind
    case ServerKey => snapshot
    case ClientKey => FilterWith(snapshot, SafeKeys(snapshot.segments))
  }

  method FilterSnapshotForKey(snapshot: Snapshot, kind: KeyKind) returns (payload: Snapshot)
    ensures payload == Payload(snapshot, kind)
  {
    if kind == ServerKey {
      return snapshot;
    }
    var safeSegments := ClientSafeSegments(snapshot.segments);
    return FilterWith(snapshot, safeSegments);
  }

  lemma {:induction false} KeptRules(rules: seq<Rule>, safe: set<JsString>, rule: Rule)
    ensures rule in KeepSafeRules(rules, safe) <==> rule in rules && IsRuleClientSafe(rule, safe)
  {
    if rules != [] {
      KeptRules(rules[1..], safe, rule);
      assert rule in rules <==> rule == rules[0] || rule in rules[1..];
    }
  }

  lemma {:induction false} KeptSegments(segments: seq<Segment>, safe: set<JsString>, segment: Segment)
    ensures segment in KeepSafeSegments(segments, safe) <==> segment in segments && segment.key in safe
  {
    if segments != [] {
      KeptSegments(segments[1..], safe, segment);
      assert segment in segments <==> segment == segments[0] || segment in segments[1..];
    }
  }

  /** Filtering the segments does not change which keys are safe, whether or not keys are unique. */
  lemma SafeKeysSurviveFilter(segments: seq<Segment>)
    ensures SafeKeys(KeepSafeSegments(segments, SafeKeys(segments))) == SafeKeys(segments)
  {
    var safe := SafeKeys(segments);
    var kept := KeepSafeSegments(segments, safe);
    forall s ensures s in kept <==> s in segments && s.key in safe {
      KeptSegments(segments, safe, s);
    }
    SafeKeysClosed(segments);
    SafeKeysClosed(kept);
    assert ClosedUnderSupport(kept, safe);
    SafeKeysBelowClosed(kept, safe);
    var again := SafeKeys(kept);
    assert again <= safe;
    forall s | s in segments && Supports(s, again) ensures s.key in again {
      assert Supports(s, safe);
    }
    SafeKeysBelowClosed(segments, again);
  }

  lemma {:induction false} KeepRulesTwice(rules: seq<Rule>, safe: set<JsString>)
    ensures KeepSafeRules(KeepSafeRules(rules, safe), safe) == KeepSafeRules(rules, safe)
  {
    if rules != [] {
      KeepRulesTwice(rules[1..], safe);
      if IsRuleClientSafe(rules[0], safe) {
        assert KeepSafeRules(rules, safe)[1..] == KeepSafeRules(rules[1..], safe);
      }
    }
  }

  lemma {:induction false} KeepSegmentsTwice(segments: seq<Segment>, safe: set<JsString>)
    ensures KeepSafeSegments(KeepSafeSegments(segments, safe), safe) == KeepSafeSegments(segments, safe)
  {
    if segments != [] {
      KeepSegmentsTwice(segments[1..], safe);
      if segments[0].key in safe {
        assert KeepSafeSegments(segments, safe)[1..] == KeepSafeSegments(segments[1..], safe);
      }
    }
  }

  /** Filtering a client payload again changes nothing. */
  lemma FilterIdempotent(snapshot: Snapshot)
    ensures Payload(Payload(snapshot, ClientKey), ClientKey) == Payload(snapshot, ClientKey)
  {
    var safe := SafeKeys(snapshot.segments);
    var once := Payload(snapshot, ClientKey);
    SafeKeysSurviveFilter(snapshot.segments);
    KeepSegmentsTwice(snapshot.segments, safe);
    forall i | 0 <= i < |snapshot.flags|
      ensures FilterFlag(once.flags[i], safe) == once.flags[i]
    {
      KeepRulesTwice(snapshot.flags[i].rules, safe);
    }
    assert FilterFlags(once.flags, safe) == once.flags;
  }

  // ----- the leak check

  datatype Leak =
    | SegmentLeak(segmentKey: JsString)
    | RuleLeak(flagKey: JsString, ruleId: JsString)
    | MissingSegment(flagKey: JsString, ruleId: JsString, segmentKey: JsString)

  ghost predicate IsRuleLeak(flagKey: JsString, rule: Rule, segmentKeys: set<JsString>, leak: Leak) {
    || (leak == RuleLeak(flagKey, rule.id) && ContainsServerOnly(rule.when))
    || (leak.MissingSegment? && leak.segmentKey in Refs(rule.when) - segmentKeys
        && leak == MissingSegment(flagKey, rule.id, leak.segmentKey))
  }

  /** What counts as a leak: server-only material in a segment or a rule, or a rule whose segment is absent. */
  ghost predicate IsLeak(snapshot: Snapshot, leak: Leak) {
    || (exists segment <- snapshot.segments :: ContainsServerOnly(segment.when) && leak == SegmentLeak(segment.key))
    || (exists flag <- snapshot.flags, rule <- flag.rules ::
       IsRuleLeak(flag.key, rule, SegmentKeys(snapshot.segments), leak))
  }

  function SegmentLeaks(segments: seq<Segment>, n: nat): seq<Leak>
    requires n <= |segments|
  {
    if n == 0 then []
    else
      var last := segments[n - 1];
      SegmentLeaks(segments, n - 1) + if ContainsServerOnly(last.when) then [SegmentLeak(last.key)] else []
  }

  function MissingSegments(flagKey: JsString, ruleId: JsString, keys: seq<JsString>, n: nat,
      segmentKeys: set<JsString>): seq<Leak>
    requires n <= |keys|
  {
    if n == 0 then []
    else
      MissingSegments(flagKey, ruleId, keys, n - 1, segmentKeys)
      + if keys[n - 1] !in segmentKeys then [MissingSegment(flagKey, ruleId, keys[n - 1])] else []
  }

  function RuleLeaks(flagKey: JsString, rule: Rule, segmentKeys: set<JsString>): seq<Leak> {
    var keys := InsertRefs(rule.when, []);
    (if ContainsServerOnly(rule.when) then [RuleLeak(flagKey, rule.id)] else [])
    + MissingSegments(flagKey, rule.id, keys, |keys|, segmentKeys)
  }

  function RulesLeaks(flag: Flag, n: nat, segmentKeys: set<JsString>): seq<Leak>
    requires n <= |flag.rules|
  {
    if n == 0 then [] else RulesLeaks(flag, n - 1, segmentKeys) + RuleLeaks(flag.key, flag.rules[n - 1], segmentKeys)
  }

  function FlagsLeaks(flags: seq<Flag>, n: nat, segmentKeys: set<JsString>): seq<Leak>
    requires n <= |flags|
  {
    if n == 0 then []
    else FlagsLeaks(flags, n - 1, segmentKeys) + RulesLeaks(flags[n - 1], |flags[n - 1].rules|, segmentKeys)
  }

  /** The report in order: segments first, then flag by flag and rule by rule. */
  function LeakReport(snapshot: Snapshot): seq<Leak> {
    SegmentLeaks(snapshot.segments, |snapshot.segments|)
    + FlagsLeaks(snapshot.flags, |snapshot.flags|, SegmentKeys(snapshot.segments))
  }

  method FindServerOnlyLeaks(snapshot: Snapshot) returns (leaks: seq<Leak>)
    ensures leaks == LeakReport(snapshot)
    ensures forall leak :: leak in leaks <==> IsLeak(snapshot, leak)
  {
    hide ContainsServerOnly, InsertRefs, IsLeak, SegmentKeys;
    leaks := [];
    var segmentKeys := SegmentKeys(snapshot.segments);
    for i := 0 to |snapshot.segments|
      invariant leaks == SegmentLeaks(snapshot.segments, i)
    {
      if ContainsServerOnly(snapshot.segments[i].when) {
        leaks := leaks + [SegmentLeak(snapshot.segments[i].key)];
      }
    }
    ghost var fromSegments := leaks;
    for i := 0 to |snapshot.flags|
      invariant leaks == fromSegments + FlagsLeaks(snapshot.flags, i, segmentKeys)
    {
      var found := LeaksOfFlag(snapshot.flags[i], segmentKeys);
      leaks := leaks + found;
    }
    LeakReportMeaning(snapshot);
  }

  method LeaksOfFlag(flag: Flag, segmentKeys: set<JsString>) returns (leaks: seq<Leak>)
    ensures leaks == RulesLeaks(flag, |flag.rules|, segmentKeys)
  {
    hide ContainsServerOnly, InsertRefs;
    leaks := [];
    for i := 0 to |flag.rules|
      invariant leaks == RulesLeaks(flag, i, segmentKeys)
    {
      var rule := flag.rules[i];
      if ContainsServerOnly(rule.when) {
        leaks := leaks + [RuleLeak(flag.key, rule.id)];
      }
      ghost var before := leaks;
      var references := new OrderedKeys();
      ReferencedSegments(rule.when, references);
      for j := 0 to |references.order|
        invariant references.order == InsertRefs(rule.when, [])
        invariant leaks == before + MissingSegments(flag.key, rule.id, references.order, j, segmentKeys)
      {
        if references.order[j] !in segmentKeys {
          leaks := leaks + [MissingSegment(flag.key, rule.id, references.order[j])];
        }
      }
    }
  }

  lemma {:induction false} SegmentLeaksMeaning(segments: seq<Segment>, n: nat, leak: Leak)
    requires n <= |segments|
    ensures leak in SegmentLeaks(segments, n) <==>
      exists j :: 0 <= j < n && ContainsServerOnly(segments[j].when) && leak == SegmentLeak(segments[j].key)
  {
    hide ContainsServerOnly;
    if n > 0 {
      SegmentLeaksMeaning(segments, n - 1, leak);
    }
  }

  lemma {:induction false} MissingSegmentsMeaning(
      flagKey: JsString, ruleId: JsString, keys: seq<JsString>, n: nat, segmentKeys: set<JsString>, leak: Leak)
    requires n <= |keys|
    ensures leak in MissingSegments(flagKey, ruleId, keys, n, segmentKeys) <==>
      leak.MissingSegment? && leak == MissingSegment(flagKey, ruleId, leak.segmentKey)
      && leak.segmentKey in keys[..n] && leak.segmentKey !in segmentKeys
  {
    if n > 0 {
      MissingSegmentsMeaning(flagKey, ruleId, keys, n - 1, segmentKeys, leak);
      assert keys[..n] == keys[..n - 1] + [keys[n - 1]];
    }
  }

  lemma RuleLeaksMeaning(flagKey: JsString, rule: Rule, segmentKeys: set<JsString>, leak: Leak)
    ensures leak in RuleLeaks(flagKey, rule, segmentKeys) <==> IsRuleLeak(flagKey, rule, segmentKeys, leak)
  {
    hide ContainsServerOnly, InsertRefs, Refs;
    var keys := InsertRefs(rule.when, []);
    InsertRefsMeaning(rule.when, []);
    MissingSegmentsMeaning(flagKey, rule.id, keys, |keys|, segmentKeys, leak);
    assert keys[..|keys|] == keys;
  }

  lemma {:induction false} RulesLeaksMeaning(flag: Flag, n: nat, segmentKeys: set<JsString>, leak: Leak)
    requires n <= |flag.rules|
    ensures leak in RulesLeaks(flag, n, segmentKeys) <==>
      exists j :: 0 <= j < n && IsRuleLeak(flag.key, flag.rules[j], segmentKeys, leak)
  {
    hide RuleLeaks, IsRuleLeak;
    if n > 0 {
      RulesLeaksMeaning(flag, n - 1, segmentKeys, leak);
      RuleLeaksMeaning(flag.key, flag.rules[n - 1], segmentKeys, leak);
    }
  }

  lemma {:induction false} FlagsLeaksMeaning(flags: seq<Flag>, n: nat, segmentKeys: set<JsString>, leak: Leak)
    requires n <= |flags|
    ensures leak in FlagsLeaks(flags, n, segmentKeys) <==>
      exists i, j :: 0 <= i < n && 0 <= j < |flags[i].rules|
        && IsRuleLeak(flags[i].key, flags[i].rules[j], segmentKeys, leak)
  {
    hide RulesLeaks, IsRuleLeak;
    if n > 0 {
      FlagsLeaksMeaning(flags, n - 1, segmentKeys, leak);
      RulesLeaksMeaning(flags[n - 1], |flags[n - 1].rules|, segmentKeys, leak);
    }
  }

  lemma LeakReportMeaning(snapshot: Snapshot)
    ensures forall leak :: leak in LeakReport(snapshot) <==> IsLeak(snapshot, leak)
  {
    forall leak ensures leak in LeakReport(snapshot) <==> IsLeak(snapshot, leak) {
      OneLeakMeaning(snapshot, leak);
    }
  }

  lemma OneLeakMeaning(snapshot: Snapshot, leak: Leak)
    ensures leak in LeakReport(snapshot) <==> IsLeak(snapshot, leak)
  {
    hide ContainsServerOnly, IsRuleLeak, SegmentLeaks, FlagsLeaks, SegmentKeys;
    var segments, flags := snapshot.segments, snapshot.flags;
    var keys := SegmentKeys(segments);
    SegmentLeaksMeaning(segments, |segments|, leak);
    FlagsLeaksMeaning(flags, |flags|, keys, leak);
    if s :| s in segments && ContainsServerOnly(s.when) && leak == SegmentLeak(s.key) {
      var j :| 0 <= j < |segments| && segments[j] == s;
      assert ContainsServerOnly(segments[j].when);
    }
    if f, r :| f in flags && r in f.rules && IsRuleLeak(f.key, r, keys, leak) {
      var i :| 0 <= i < |flags| && flags[i] == f;
      var j :| 0 <= j < |f.rules| && f.rules[j] == r;
      assert IsRuleLeak(flags[i].key, flags[i].rules[j], keys, leak);
    }
  }

  /**
   * No leak is found in a client payload, unless a kept key has a second segment
   * declared under it that is server-only; with unique keys there is no such segment.
   */
  lemma LeaksOfClientPayload(snapshot: Snapshot)
    ensures (exists leak :: IsLeak(Payload(snapshot, ClientKey), leak))
            <==> exists segment <- snapshot.segments ::
              segment.key in SafeKeys(snapshot.segments) && ContainsServerOnly(segment.when)
    ensures UniqueSegmentKeys(snapshot.segments) ==> forall leak :: !IsLeak(Payload(snapshot, ClientKey), leak)
  {
    var safe := SafeKeys(snapshot.segments);
    var client := Payload(snapshot, ClientKey);
    forall s ensures s in client.segments <==> s in snapshot.segments && s.key in safe {
      KeptSegments(snapshot.segments, safe, s);
    }
    forall k | k in safe ensures k in SegmentKeys(client.segments) {
      SafeKeysSupported(snapshot.segments, k);
    }
    forall flag, rule, leak | flag in client.flags && rule in flag.rules
      ensures !IsRuleLeak(flag.key, rule, SegmentKeys(client.segments), leak)
    {
      var i :| 0 <= i < |client.flags| && client.flags[i] == flag;
      KeptRules(snapshot.flags[i].rules, safe, rule);
    }
    forall segment | segment in snapshot.segments && segment.key in safe && ContainsServerOnly(segment.when)
      ensures IsLeak(client, SegmentLeak(segment.key)) && !UniqueSegmentKeys(snapshot.segments)
    {
      if UniqueSegmentKeys(snapshot.segments) {
        SafeSegmentIndexed(snapshot.segments, segment.key);
        UniqueSegmentIndexed(snapshot.segments, segment);
        assert false;
      }
      assert segment in client.segments;
    }
  }
}
