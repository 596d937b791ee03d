/** What filtering does to meaning: client and server evaluations of the same flag, compared. */
module FilterMeaning {
  import opened Text
  import opened Graphs
  import opened Ruleset
  import opened Evaluation
  import opened Locality
  import opened Outcomes
  import opened Visibility

  ghost function ServerEnvironment(snapshot: Snapshot): Environment {
    Index(Payload(snapshot, ServerKey))
  }

  ghost function ClientEnvironment(snapshot: Snapshot): Environment {
    Index(Payload(snapshot, ClientKey))
  }

  lemma {:induction false} FilteredFlagIndex(flags: seq<Flag>, safe: set<JsString>, k: JsString)
    ensures k in IndexFlags(FilterFlags(flags, safe)) <==> k in IndexFlags(flags)
    ensures k in IndexFlags(flags) ==>
              IndexFlags(FilterFlags(flags, safe))[k]
              == CompiledFlag(FilterFlag(IndexFlags(flags)[k].flag, safe), IndexFlags(flags)[k].variations)
  {
    if flags != [] {
      var n := |flags| - 1;
      FilteredFlagIndex(flags[..n], safe, k);
      assert FilterFlags(flags, safe)[..n] == FilterFlags(flags[..n], safe);
    }
  }

  /** Safe segments are in both payloads, and the safe keys are closed under references. */
  lemma PayloadSegmentsAgree(snapshot: Snapshot)
    requires UniqueSegmentKeys(snapshot.segments)
    ensures SegmentsAgree(ServerEnvironment(snapshot).segments, ClientEnvironment(snapshot).segments,
            SafeKeys(snapshot.segments))
  {
    var segments := snapshot.segments;
    var safe := SafeKeys(segments);
    var kept := KeepSafeSegments(segments, safe);
    forall k | k in safe
      ensures k in IndexSegments(segments) && k in IndexSegments(kept)
      ensures IndexSegments(segments)[k] == IndexSegments(kept)[k]
      ensures Refs(IndexSegments(segments)[k].when) <= safe
    {
      SafeSegmentIndexed(segments, k);
      IndexSegmentsMeaning(segments, k);
      var s := IndexSegments(segments)[k];
      KeptSegments(segments, safe, s);
      IndexSegmentsMeaning(kept, k);
      var t := IndexSegments(kept)[k];
      KeptSegments(segments, safe, t);
      UniqueSegmentIndexed(segments, t);
    }
  }

  /** A rule that reaches the client matches there exactly when it matches on the server. */
  lemma KeptRuleMatchesSame(snapshot: Snapshot, rule: Rule, req: Request)
    requires UniqueSegmentKeys(snapshot.segments)
    requires IsRuleClientSafe(rule, SafeKeys(snapshot.segments))
    ensures Matches(rule.when, req, ClientEnvironment(snapshot).segments, {})
            == Matches(rule.when, req, ServerEnvironment(snapshot).segments, {})
  {
    PayloadSegmentsAgree(snapshot);
    MatchesLocal(rule.when, req, ServerEnvironment(snapshot).segments, ClientEnvironment(snapshot).segments,
                 SafeKeys(snapshot.segments), {});
  }

  lemma KeptRulesMatchSame(snapshot: Snapshot, rules: seq<Rule>, req: Request)
    requires UniqueSegmentKeys(snapshot.segments)
    ensures var kept := KeepSafeRules(rules, SafeKeys(snapshot.segments));
            FirstMatch(kept, req, ClientEnvironment(snapshot).segments) ==
              FirstMatch(kept, req, ServerEnvironment(snapshot).segments)
  {
    var safe := SafeKeys(snapshot.segments);
    var kept := KeepSafeRules(rules, safe);
    forall r | r in kept ensures Refs(r.when) <= safe {
      KeptRules(rules, safe, r);
    }
    PayloadSegmentsAgree(snapshot);
    FirstMatchLocal(kept, req, ServerEnvironment(snapshot).segments, ClientEnvironment(snapshot).segments, safe);
  }

  /** Dropping rules other than the first match leaves the first match. */
  lemma {:induction false} FirstMatchAmongKept(rules: seq<Rule>, safe: set<JsString>, req: Request, segments: Segments)
    ensures var first := FirstMatch(rules, req, segments);
            (first.None? || IsRuleClientSafe(first.value, safe))
            ==> FirstMatch(KeepSafeRules(rules, safe), req, segments) == first
  {
    if rules != [] {
      FirstMatchAmongKept(rules[1..], safe, req, segments);
      if IsRuleClientSafe(rules[0], safe) {
        assert KeepSafeRules(rules, safe)[1..] == KeepSafeRules(rules[1..], safe);
      }
    }
  }

  /** The flags of the scope, which contains everything they require, lost no rule. */
  ghost predicate Intact(snapshot: Snapshot, scope: set<JsString>) {
    var server := ServerEnvironment(snapshot);
    && ClosedScope(FlagGraph(server.flags), scope)
    && forall k <- scope :: k in server.flags ==>
         forall rule <- server.flags[k].flag.rules :: IsRuleClientSafe(rule, SafeKeys(snapshot.segments))
  }

  /** No flag reachable from the flag's prerequisites lost a rule. */
  ghost predicate PrerequisitesIntact(snapshot: Snapshot, flagKey: JsString)
    requires flagKey in ServerEnvironment(snapshot).flags
  {
    var server := ServerEnvironment(snapshot);
    forall k <- ReachableSet(FlagGraph(server.flags), PrerequisiteKeys(server.flags[flagKey].flag)) ::
      k in server.flags ==>
      forall rule <- server.flags[k].flag.rules :: IsRuleClientSafe(rule, SafeKeys(snapshot.segments))
  }

  /** An intact scope for a flag's prerequisites is there to be found exactly when what they reach is intact. */
  lemma IntactScopeExactly(snapshot: Snapshot, flagKey: JsString)
    requires flagKey in ServerEnvironment(snapshot).flags
    ensures PrerequisitesIntact(snapshot, flagKey) <==>
            exists scope ::
              Intact(snapshot, scope) && PrerequisiteKeys(ServerEnvironment(snapshot).flags[flagKey].flag) <= scope
  {
    hide SafeKeys, IsRuleClientSafe, ReachableSet, FlagGraph, ServerEnvironment, ClosedScope, PrerequisiteKeys;
    var server := ServerEnvironment(snapshot);
    var roots := PrerequisiteKeys(server.flags[flagKey].flag);
    var reached := ReachableSet(FlagGraph(server.flags), roots);
    ReachableSetClosed(FlagGraph(server.flags), roots);
    if PrerequisitesIntact(snapshot, flagKey) {
      assert Intact(snapshot, reached);
    }
    if scope :| Intact(snapshot, scope) && roots <= scope {
      ReachableSetLeast(FlagGraph(server.flags), roots, scope);
    }
  }

  lemma {:induction false} NothingDropped(rules: seq<Rule>, safe: set<JsString>)
    requires forall rule <- rules :: IsRuleClientSafe(rule, safe)
    ensures KeepSafeRules(rules, safe) == rules
  {
    if rules != [] {
      assert rules[0] in rules && forall r :: r in rules[1..] ==> r in rules;
      NothingDropped(rules[1..], safe);
    }
  }

  lemma IntactFlagsAgree(snapshot: Snapshot, scope: set<JsString>)
    requires UniqueSegmentKeys(snapshot.segments) && Intact(snapshot, scope)
    ensures EnvironmentsAgree(ServerEnvironment(snapshot), ClientEnvironment(snapshot), scope,
            SafeKeys(snapshot.segments))
  {
    var safe := SafeKeys(snapshot.segments);
    var server, client := ServerEnvironment(snapshot), ClientEnvironment(snapshot);
    PayloadSegmentsAgree(snapshot);
    forall k | k in scope
      ensures k in server.flags <==> k in client.flags
      ensures k in server.flags ==> server.flags[k] == client.flags[k]
    {
      FilteredFlagIndex(snapshot.flags, safe, k);
      if k in server.flags {
        NothingDropped(server.flags[k].flag.rules, safe);
      }
    }
  }

  /** The client's rules serve what the server's kept rules serve. */
  lemma ClientRules(snapshot: Snapshot, flagKey: JsString, req: Request, fallback: Value)
    requires UniqueSegmentKeys(snapshot.segments) && flagKey in ServerEnvironment(snapshot).flags
    ensures var server, client := ServerEnvironment(snapshot), ClientEnvironment(snapshot);
            var safe := SafeKeys(snapshot.segments);
            var compiled := server.flags[flagKey];
            && flagKey in client.flags
            && client.flags[flagKey] == CompiledFlag(FilterFlag(compiled.flag, safe), compiled.variations)
            && ServeRules(client.flags[flagKey], client.flags[flagKey].flag.rules, req, client.segments, fallback)
               == ServeRules(compiled, KeepSafeRules(compiled.flag.rules, safe), req, server.segments, fallback)
  {
    hide SafeKeys, KeepSafeRules, FirstMatch, IndexFlags, IndexSegments, ServeRule, ResultFor;
    var safe := SafeKeys(snapshot.segments);
    var server, client := ServerEnvironment(snapshot), ClientEnvironment(snapshot);
    FilteredFlagIndex(snapshot.flags, safe, flagKey);
    KeptRulesMatchSame(snapshot, server.flags[flagKey].flag.rules, req);
    SameServing(server.flags[flagKey], client.flags[flagKey], req, fallback);
  }

  /** What the client payload makes of a flag: the server's evaluation with the stripped rules left out. */
  lemma ClientServesKeptRules(snapshot: Snapshot, flagKey: JsString, req: Request, fallback: Value,
      scope: set<JsString>)
    requires UniqueSegmentKeys(snapshot.segments) && Intact(snapshot, scope)
    requires flagKey in ServerEnvironment(snapshot).flags ==>
               PrerequisiteKeys(ServerEnvironment(snapshot).flags[flagKey].flag) <= scope
    ensures var server, client := ServerEnvironment(snapshot), ClientEnvironment(snapshot);
            && RulesDecide(client, flagKey, req) == RulesDecide(server, flagKey, req)
            && EvaluateFlagValue(flagKey, req, client, fallback) ==
               if RulesDecide(server, flagKey, req)
               then ServeRules(server.flags[flagKey],
                               KeepSafeRules(server.flags[flagKey].flag.rules, SafeKeys(snapshot.segments)),
                               req, server.segments, fallback)
               else EvaluateFlagValue(flagKey, req, server, fallback)
  {
    hide SafeKeys, KeepSafeRules, FirstMatch, FailedPrerequisite, IndexFlags, IndexSegments, ServeRules;
    var safe := SafeKeys(snapshot.segments);
    var server, client := ServerEnvironment(snapshot), ClientEnvironment(snapshot);
    FilteredFlagIndex(snapshot.flags, safe, flagKey);
    if flagKey in server.flags {
      IntactFlagsAgree(snapshot, scope);
      var compiled := server.flags[flagKey];
      assert forall p <- compiled.flag.prerequisites :: p.flagKey in PrerequisiteKeys(compiled.flag);
      PrerequisitesLocal(compiled.flag.prerequisites, req, server, client, scope, safe, {} + {flagKey});
      ClientRules(snapshot, flagKey, req, fallback);
    }
  }

  /** What a rule serves does not depend on the other rules of its flag. */
  lemma SameServing(a: CompiledFlag, b: CompiledFlag, req: Request, fallback: Value)
    requires b == CompiledFlag(a.flag.(rules := b.flag.rules), a.variations)
    ensures forall rule :: ServeRule(a, rule, req, fallback) == ServeRule(b, rule, req, fallback)
    ensures DefaultResult(a, fallback) == DefaultResult(b, fallback)
    ensures forall k, reason :: ResultFor(a, k, reason, fallback, None) == ResultFor(b, k, reason, fallback, None)
  {
  }

  // ----- where client and server part

  /** The first match is a stripped rule, and it or the first match among the kept rules would place the context. */
  ghost predicate StrippedDecides(flag: Flag, safe: set<JsString>, req: Request, segments: Segments) {
    var first := FirstMatch(flag.rules, req, segments);
    var firstKept := FirstMatch(KeepSafeRules(flag.rules, safe), req, segments);
    && first.Some? && !IsRuleClientSafe(first.value, safe)
    && (Places(flag, first.value, req) || (firstKept.Some? && Places(flag, firstKept.value, req)))
  }

  /** The server's first matching rule was stripped, and it or the client's first match would place the context. */
  ghost predicate Diverges(snapshot: Snapshot, flagKey: JsString, req: Request) {
    var server := ServerEnvironment(snapshot);
    && RulesDecide(server, flagKey, req)
    && StrippedDecides(server.flags[flagKey].flag, SafeKeys(snapshot.segments), req, server.segments)
  }

  lemma UnstrippedServesSame(compiled: CompiledFlag, safe: set<JsString>, req: Request, segments: Segments,
      fallback: Value)
    requires !StrippedDecides(compiled.flag, safe, req, segments)
    ensures ServeRules(compiled, KeepSafeRules(compiled.flag.rules, safe), req, segments, fallback)
            == ServeRules(compiled, compiled.flag.rules, req, segments, fallback)
  {
    hide KeepSafeRules, FirstMatch, ResultFor, ResolveBucketKey;
    FirstMatchAmongKept(compiled.flag.rules, safe, req, segments);
  }

  predicate DistinctRuleIds(rules: seq<Rule>) {
    forall r, s :: r in rules && s in rules && r.id == s.id ==> r == s
  }

  /** With declared variations and distinct ids, a stripped decision always shows in the result. */
  lemma StrippedServesDifferently(compiled: CompiledFlag, safe: set<JsString>, req: Request, segments: Segments,
      fallback: Value)
    requires ServesDeclared(compiled) && DistinctRuleIds(compiled.flag.rules)
    requires StrippedDecides(compiled.flag, safe, req, segments)
    ensures ServeRules(compiled, KeepSafeRules(compiled.flag.rules, safe), req, segments, fallback)
            != ServeRules(compiled, compiled.flag.rules, req, segments, fallback)
  {
    hide KeepSafeRules, FirstMatch, ResultFor, ServeRule, ResolveBucketKey;
    var rules := compiled.flag.rules;
    var first := FirstMatch(rules, req, segments).value;
    FirstMatchMeaning(rules, req, segments);
    ServeRuleOutcome(compiled, first, req, fallback);
    var kept := KeepSafeRules(rules, safe);
    var firstKept := FirstMatch(kept, req, segments);
    FirstMatchMeaning(kept, req, segments);
    if firstKept.Some? {
      KeptRules(rules, safe, firstKept.value);
      ServeRuleOutcome(compiled, firstKept.value, req, fallback);
      assert firstKept.value.id != first.id;
    } else {
      DefaultReason(compiled, fallback);
    }
  }

  lemma DefaultReason(compiled: CompiledFlag, fallback: Value)
    requires compiled.flag.defaultVariationKey in compiled.variations
    ensures DefaultResult(compiled, fallback).reason == Default
  {
  }

  /** Unless the server's first match was stripped and something places the context, both sides give one result. */
  lemma FilterPreservesMeaning(snapshot: Snapshot, flagKey: JsString, req: Request, fallback: Value,
      scope: set<JsString>)
    requires UniqueSegmentKeys(snapshot.segments) && Intact(snapshot, scope)
    requires flagKey in ServerEnvironment(snapshot).flags ==>
               PrerequisiteKeys(ServerEnvironment(snapshot).flags[flagKey].flag) <= scope
    requires !Diverges(snapshot, flagKey, req)
    ensures EvaluateFlagValue(flagKey, req, ClientEnvironment(snapshot), fallback)
            == EvaluateFlagValue(flagKey, req, ServerEnvironment(snapshot), fallback)
  {
    hide SafeKeys, KeepSafeRules, FirstMatch, FailedPrerequisite, ServeRules, StrippedDecides;
    var server := ServerEnvironment(snapshot);
    ClientServesKeptRules(snapshot, flagKey, req, fallback, scope);
    if RulesDecide(server, flagKey, req) {
      UnstrippedServesSame(server.flags[flagKey], SafeKeys(snapshot.segments), req, server.segments, fallback);
    }
  }

  /** For a flag that passed validation and has distinct rule ids, that exception is exact. */
  lemma FilterExact(snapshot: Snapshot, flagKey: JsString, req: Request, fallback: Value, scope: set<JsString>)
    requires UniqueSegmentKeys(snapshot.segments) && Intact(snapshot, scope)
    requires flagKey in ServerEnvironment(snapshot).flags ==>
               && PrerequisiteKeys(ServerEnvironment(snapshot).flags[flagKey].flag) <= scope
               && ServesDeclared(ServerEnvironment(snapshot).flags[flagKey])
               && DistinctRuleIds(ServerEnvironment(snapshot).flags[flagKey].flag.rules)
    ensures EvaluateFlagValue(flagKey, req, ClientEnvironment(snapshot), fallback)
            == EvaluateFlagValue(flagKey, req, ServerEnvironment(snapshot), fallback)
            <==> !Diverges(snapshot, flagKey, req)
  {
    hide SafeKeys, KeepSafeRules, FirstMatch, FailedPrerequisite, ServeRules, StrippedDecides, ServesDeclared;
    if !Diverges(snapshot, flagKey, req) {
      FilterPreservesMeaning(snapshot, flagKey, req, fallback, scope);
    } else {
      var server := ServerEnvironment(snapshot);
      ClientServesKeptRules(snapshot, flagKey, req, fallback, scope);
      StrippedServesDifferently(server.flags[flagKey], SafeKeys(snapshot.segments), req, server.segments, fallback);
    }
  }
}
