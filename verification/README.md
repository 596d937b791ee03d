# Flagship, verified

Flagship is a feature-flag platform: a control plane compiles rulesets, a data plane pushes them to clients over
server-sent events, and SDKs in three languages evaluate flags in-process. This project models its core and proves
what the parts promise each other. `dafny verify dfyconfig.toml` checks everything.

**Deterministic bucketing** (`Words`, `Murmur`, `MurmurPorts`, `MurmurInjective`, `Utf8`, `Bucketing`, `Rollout`).
Words are integers with bit-by-bit XOR and OR. `Murmur` is the hash as arithmetic on bytes; the TypeScript, Java and
Go versions are separate loops, each in its own integer dialect (signed results of `|`, `<<` and `^`, `Math.imul`,
`>>> 0`; signed `int` with sign-extended bytes; wrapping `uint32`), and each is proved to compute it. The rollout walk
exists three times too, with the running totals of each language.

**Evaluation** (`Ruleset`, `Evaluation`, `Outcomes`, `Guards`, `Locality`). The matcher and the evaluator are methods
over shared mutable key sets, proved equal to functions over persistent sets, and these to an unguarded meaning
wherever no cycle can be reached. `Outcomes` says which rule, bucket or malformed rollout decides a flag.

**Payload filtering** (`Visibility`, `FilterMeaning`, `Inclusion`, `ScopeAgreement`). The safe-segment loop, the
filter, the leak check, what filtering does to the meaning of a flag, when it serves a client more than the server
would, and when a whole prerequisite scope agrees on both sides.

**Compilation** (`Graphs`, `CycleSearch`, `Compiler`, `CompiledMeaning`). Validation appends to one shared list; the
prerequisite search is a depth-first search with a mutable state map and path stack. `CompiledMeaning` connects the
compiler, the filter and the evaluator.

**Delivery** (`Store`, `Sse`, `Hub`, `Client`, `Delivery`, `DeliverySafety`, `DeliveryProgress`, `DeliveryReconnect`,
`Wire`, `HubAccounting`). Store, frame writer, hub and client guard are classes. `Delivery` is the protocol as
interleaved atomic steps: commit; lock one shard, send to one subscriber, unlock; evict one; the two halves of a
removal; subscribe, count; replay, fetch after a full resync; deliver, read, hang up, reconnect with the last id; shut
one shard down. `DeliverySafety` proves an invariant of every step and what it means when things settle,
`DeliveryProgress` that they do settle, `DeliveryReconnect` that they still do when evicted clients keep coming back,
`Wire` that the printed bytes carry the protocol's cursors, and `HubAccounting` that the hub's books balance at every
point. Reconnecting with the id of the last frame and reading the stream follow sections 9.2.3 to 9.2.6 of the WHATWG
HTML Standard; byte encodings follow section 3 of RFC 3629.

**Exposures** (`Exposure`, with the sums in `Sums`). The SDK buffer and the ingest writer, with their asynchronous
calls split at every point where other code can run.

Where the code and its own documentation disagree, the model follows the code:

- `packages/core/src/visibility.ts:107-111` and `docs/DESIGN-DECISIONS.md:113-114` say a client is never more included
  than on the server. In a ruleset that compiles, `Inclusion.ClientCanBeMoreIncluded` is a flag that is, since a
  stripped rule served the off variation first, and `Inclusion.PrerequisiteCanIncludeMore` one that lost no rule
  itself but requires that flag. `Inclusion.ClientMoreIncludedExactly` says exactly when it happens to a flag, in
  terms of whether prerequisites are met on each side and what its rules pick;
  `Inclusion.ScopeNeverMoreIncludedExactly` says when it happens to no flag of an acyclic prerequisite scope.
  `Inclusion.NeverMoreIncluded` and `CompiledMeaning.CompiledNeverMoreIncluded` give a test for every request at once,
  made before publishing: the rules of the flag and of everything required of its prerequisites must pass it.
- `packages/core/src/bucketing.ts:30-31` says callers use the default variation on a malformed rollout. The evaluator
  answers with an error and the caller's own value (`packages/core/src/evaluate.ts:242-248`), as
  `Outcomes.MalformedRolloutIsAnError` shows on a flag. `Outcomes.MalformedRolloutExactly` and
  `Outcomes.LeftUnservedExactly` say when that happens, `Outcomes.DefaultServedExactly` when the default is served.
- `apps/data-plane/internal/store/store.go:151-152` says a client citing a future version, or one never published,
  cannot be reconciled by replay. A future cursor gets an empty replay from the branch before
  (`Store.FutureCursorIsReplayed`), and a never-published one inside a version gap an ordinary replay
  (`Store.GapCursorIsReplayed`). `Store.FullResyncExactly` says which cursors are refused, and
  `Store.UnpublishedCursorExactly` which of those that were never published.

The hub's `totalDropped` counts every removal of a registered subscriber, an ordinary disconnect included
(`apps/data-plane/internal/hub/hub.go:194`), and the model counts so too.

## Model

| member | source | states |
|---|---|---|
| `MurmurJs.Hash32` | packages/core/src/murmur.ts:26-74 | the typed-array version, through signed 32-bit bit operations and `Math.imul`, returns for any seed the reference hash of the first `byteLength` bytes, zeros standing for bytes past the end of the buffer and the length taken modulo 2^32; whatever lies beyond them in the buffer does not matter |
| `MurmurJava.Hash32` | sdks/java/src/com/flagship/sdk/MurmurHash3.java:43-96 | the signed-`int` version on sign-extended bytes, widened at the end, returns that same reference hash |
| `MurmurGo.Hash32` | sdks/go/murmur.go:16-63 | the wrapping `uint32` version returns that same reference hash, with the length taken modulo 2^32 |
| `MurmurInjective.BlockChangeNeverCollides` | packages/core/src/murmur.ts:31-44 | inputs of one length that differ only inside one aligned 4-byte block always have different hashes, for every seed |
| `MurmurInjective.TailChangeNeverCollides` | packages/core/src/murmur.ts:48-63 | inputs of one length that differ only in the last 1-3 bytes after the blocks always have different hashes |
| `MurmurInjective.SeedChangeNeverCollides` | packages/core/src/murmur.ts:26-74 | for a fixed input, distinct seeds always give distinct hashes |
| `MurmurInjective.EmptyStringHashesToZero` | docs/DESIGN-DECISIONS.md:139 | the published vector for the empty input with seed 0 |
| `Utf8.EncodeRoundTrip` | packages/core/src/murmur.ts:76-101 | decoding the encoded bytes gives back exactly the string's scalar values, unpaired surrogates read as U+FFFD |
| `Utf8.EncodedLength` | packages/core/src/murmur.ts:92-93 | every UTF-16 string takes at most three bytes per code unit |
| `Utf8.EncodeInto` | packages/core/src/murmur.ts:101 | never writes past the buffer, writes a prefix of the encoding, writes all of it when it fits, and leaves the rest of the buffer as it was |
| `Bucketing.StringHasher.HashString` | packages/core/src/murmur.ts:90-103 | through the reused and regrown scratch buffer, the hash depends on string and seed alone, whatever stale bytes earlier calls left; calls can follow each other without limit |
| `Bucketing.StringHashIsHashOfEncoding` | packages/core/src/murmur.ts:90-103 | for encodings below 2^32 bytes that is the reference hash of the exact UTF-8 encoding |
| `Bucketing.StringHasher.Bucket` | packages/core/src/bucketing.ts:19-21 | the bucket computed through the shared buffer depends only on flag key, salt and bucket key |
| `Bucketing.BucketIsOfEncoding` | packages/core/src/bucketing.ts:19-21 | and it is the bucket of the encoded input's bytes, which the three ports share |
| `Bucketing.BucketInEveryPort` | sdks/java/src/com/flagship/sdk/Bucketing.java:33-37 | on the same bytes, signed in Java and unsigned elsewhere, all three ports give one bucket in [0, 100000) |
| `Bucketing.JoinUnambiguous` | packages/core/src/bucketing.ts:7-13 | without separators in flag key and salt, the joined input determines all three parts |
| `Rollout.VariationForBucket` | packages/core/src/bucketing.ts:33-43 | serves the first slice whose cumulative weight exceeds the bucket, for any real weights, and nothing if none does |
| `Rollout.IsValidDistribution` | packages/core/src/bucketing.ts:46-54 | true exactly when all weights are non-negative integers and sum to 100000; an empty list never is |
| `Rollout.SliceExact` | packages/core/src/bucketing.ts:33-43 | with non-negative weights a bucket is served slice i if and only if it lies between the cumulative weights before and after i |
| `Rollout.UnservedExactly` | packages/core/src/bucketing.ts:33-43 | with non-negative weights no slice is served if and only if the weights add up to no more than the bucket |
| `Rollout.EveryBucketServed` | packages/core/src/bucketing.ts:33-54 | a valid distribution serves every bucket of the space, from one of its own slices |
| `Rollout.RolloutCounts` | packages/core/src/bucketing.ts:33-54 | with distinct keys, exactly weight-many of the 100000 buckets are served each variation |
| `Rollout.RolloutSticky` | packages/core/src/bucketing.ts:27-28 | growing one slice while earlier slices stay moves nobody out of the slices up to it |
| `RolloutJava.VariationForBucket` | sdks/java/src/com/flagship/sdk/Bucketing.java:49-58 | serves the first entry whose wrapped `int` total exceeds the bucket; without overflow that is what the reference walk serves |
| `RolloutJava.IsValidDistribution` | sdks/java/src/com/flagship/sdk/Bucketing.java:61-73 | with its 64-bit total, which no list of at most 2^31 - 1 entries overflows, it accepts exactly the distributions the reference accepts |
| `RolloutJava.ValidMeansNoOverflow` | sdks/java/src/com/flagship/sdk/Bucketing.java:49-73 | no running total of a valid distribution overflows, so the ports agree on every valid distribution |
| `RolloutJava.AgreesExactlyWithoutOverflow` | sdks/java/src/com/flagship/sdk/Bucketing.java:49-58 | with non-negative weights the walk stops at the reference's slice if and only if the true total up to that slice is below 2^31 |
| `RolloutGo.VariationForBucket` | sdks/go/bucket.go:35-44 | the same statement for wrapped `uint32` totals |
| `RolloutGo.ValidMeansNoOverflow` | sdks/go/bucket.go:35-44 | no running total of a valid distribution wraps |
| `RolloutGo.AgreesExactlyWithoutOverflow` | sdks/go/bucket.go:35-44 | the walk stops at the reference's slice if and only if the true total up to that slice is below 2^32 |
| `Evaluation.IndexSnapshot` | packages/core/src/evaluate.ts:44-56 | the nested loops build the index that the lookup lemmas describe |
| `Evaluation.IndexFlagsMeaning` | packages/core/src/evaluate.ts:45-50 | a key is indexed if and only if a flag declares it, and the last such flag wins |
| `Evaluation.IndexSegmentsMeaning` | packages/core/src/evaluate.ts:52-53 | a key is indexed if and only if a segment declares it, and the last such segment wins |
| `Evaluation.IndexVariationsMeaning` | packages/core/src/evaluate.ts:47-48 | a variation is indexed under exactly the declared keys, and the last one declared under a key wins |
| `Evaluation.MatchNode` | packages/core/src/evaluate.ts:75-137 | terminates on every ruleset, cyclic ones included, restores the shared seen set on every return path, and answers what the persistent-set matcher answers |
| `Evaluation.EvaluateInternal` | packages/core/src/evaluate.ts:173-256 | terminates on every ruleset, restores the shared set of flags in progress, and returns what the persistent-set evaluator returns |
| `Evaluation.EvaluateFlag` | packages/core/src/evaluate.ts:262-280 | evaluation from an empty set, which is what all lemmas below are about |
| `Evaluation.FirstMatchMeaning` | packages/core/src/evaluate.ts:225-227 | the rule taken matches and no earlier one does; none is taken only if none matches |
| `Evaluation.ServeRuleOutcome` | packages/core/src/evaluate.ts:229-249 | a rule that serves declared variations always yields a declared variation with its own value, and the reason says whether the context could be placed |
| `Outcomes.MalformedRolloutExactly` | packages/core/src/evaluate.ts:233-249 | the reason is a malformed rollout in a given rule if and only if that rule is the first to match and its rollout leaves the bucket of a context that can be placed unserved |
| `Outcomes.LeftUnservedExactly` | packages/core/src/evaluate.ts:240-242 | for non-negative weights a rollout leaves the context unserved if and only if its weights add up to no more than the context's bucket |
| `Outcomes.DefaultServedExactly` | packages/core/src/evaluate.ts:233-255 | the default is served if and only if no rule matches or the first match cannot place the context; an unserved bucket gives the caller's value and an error instead |
| `Outcomes.MalformedRolloutIsAnError` | packages/core/src/bucketing.ts:30-31 | a flag with a default variation whose rollout serves nobody: every request gets the error and its own fallback, not the default |
| `Guards.SegmentGuardsTransparent` | packages/core/src/evaluate.ts:116-128 | where no segment cycle is reachable, the guarded matcher equals the plain meaning, under any oracle that solves the segments' equations |
| `Guards.MatcherGuardsTransparent` | packages/core/src/evaluate.ts:116-128 | the same for the segments a node reaches and no others: if none of them lies on a cycle, matching is the plain meaning under every solution of their equations, the guarded matcher among them |
| `Guards.GuardedTruthSolves` | packages/core/src/evaluate.ts:116-128 | such an oracle exists: the guarded matcher itself |
| `Guards.PrerequisiteGuardTransparent` | packages/core/src/evaluate.ts:189-223 | where no prerequisite cycle is reachable, the guarded evaluator equals evaluation with prerequisites answered by any solution of the flags' equations; rules are still matched with the segment guard |
| `Guards.EvaluatorGuardTransparent` | packages/core/src/evaluate.ts:189-223 | the same for the flags a flag reaches and no others, the guarded evaluator being one of the solutions; the segment guard stays |
| `Guards.GuardedServesSolves` | packages/core/src/evaluate.ts:189-223 | the flags' equations without the prerequisite guard have a solution there: what the guarded evaluator serves |
| `Guards.EvaluationHasPlainMeaning` | packages/core/src/evaluate.ts:116-223 | both guards at once: if no flag and no segment that evaluation can reach lies on a cycle, the equations without any guard have a solution, and evaluation agrees with every solution, value, reason and bucket included |
| `Locality.MatchesLocal` | packages/core/src/evaluate.ts:75-137 | matching agrees on two rulesets that agree on a closed set of segments around the node, cycles or not |
| `Locality.MatchesDependOnReachable` | packages/core/src/evaluate.ts:75-137 | matching depends only on the segments reachable from the node |
| `Locality.EvaluateLocal` | packages/core/src/evaluate.ts:173-256 | evaluation agrees on two rulesets that agree on a closed set of flags and the segments their rules reach, cycles or not |
| `Locality.EvaluateDependsOnReachable` | packages/core/src/evaluate.ts:173-256 | evaluation depends only on the flags reachable by prerequisites and the segments reachable from their rules |
| `Visibility.ReferencedSegments` | packages/core/src/visibility.ts:45-59 | adds exactly the referenced keys to the shared set, in the order of first meeting |
| `Visibility.ClientSafeSegments` | packages/core/src/visibility.ts:68-94 | the loop terminates and returns exactly the least set closed under support, duplicate keys included |
| `Visibility.SafeKeysSupported` | packages/core/src/visibility.ts:61-67 | that least set is a fixed point: every safe key has a segment that the safe keys support |
| `Visibility.SafeKeysIgnoreOrder` | packages/core/src/visibility.ts:68-94 | order and repetition in the list do not change the answer |
| `Visibility.SafeExactlyClean` | packages/core/src/visibility.ts:61-67 | with unique keys a segment is safe if and only if its whole reference closure has no server-only node, no missing segment and no cycle |
| `Visibility.FilterSnapshotForKey` | packages/core/src/visibility.ts:122-132 | a server key gets the snapshot, a client key exactly the rules and segments that the least safe set allows |
| `Visibility.KeptRules` | packages/core/src/visibility.ts:97-114 | a rule reaches the client if and only if it was declared and its tree and references are safe |
| `Visibility.FilterIdempotent` | packages/core/src/visibility.ts:122-132 | filtering a client payload again changes nothing, duplicate keys included |
| `Visibility.FindServerOnlyLeaks` | packages/core/src/visibility.ts:141-166 | returns the leaks in order: server-only segments, then per flag and rule a server-only tree before each missing segment |
| `Visibility.LeakReportMeaning` | packages/core/src/visibility.ts:141-166 | that list holds exactly the server-only segments, the server-only rules and the rules whose segment is missing |
| `Visibility.LeaksOfClientPayload` | packages/core/src/visibility.ts:122-166 | the leaks of a client payload are exactly the safe keys that a server-only segment shares; with unique keys there are none |
| `FilterMeaning.KeptRuleMatchesSame` | packages/core/src/visibility.ts:97-132 | a rule that reaches the client matches there if and only if it matches on the server |
| `FilterMeaning.ClientServesKeptRules` | packages/core/src/visibility.ts:105-132 | for a flag whose transitive prerequisites lost no rule, the client's result is the server's with the stripped rules left out |
| `FilterMeaning.FilterPreservesMeaning` | packages/core/src/visibility.ts:105-132 | such a flag gives one value, variation, reason and bucket on both sides unless the server's first match was stripped and something places the context |
| `FilterMeaning.FilterExact` | packages/core/src/visibility.ts:105-132 | for a validated flag with distinct rule ids that exception is exact: the results agree if and only if it does not hold |
| `FilterMeaning.IntactScopeExactly` | packages/core/src/visibility.ts:105-132 | the closed scope of prerequisites that lost no rule, asked for above, exists if and only if nothing that the prerequisites reach lost one |
| `Inclusion.BothSidesServe` | packages/core/src/visibility.ts:105-132 | whatever prerequisites lost, each side serves what its first match picks, among the kept rules on the client, if its rules decide, and the off variation otherwise |
| `Inclusion.ClientMoreIncludedExactly` | packages/core/src/visibility.ts:107-111 | for every flag, a client serves a variation that the server does not if and only if prerequisites are met on both sides and a stripped first match picks something else while the first kept match picks the variation, or prerequisites are met on one side alone and rules or off variation make the difference |
| `Inclusion.IntactMoreIncludedExactly` | packages/core/src/visibility.ts:107-111 | for a flag whose transitive prerequisites lost no rule, only the first of these can happen |
| `Inclusion.ScopeNeverMoreIncludedExactly` | packages/core/src/visibility.ts:107-111 | on an acyclic prerequisite scope, for one request, no flag is more included at any variation if and only if stripping changes no pick of a flag whose rules decide on the server |
| `Inclusion.ClientCanBeMoreIncluded` | packages/core/src/visibility.ts:107-111 | a well-formed ruleset and request for which the client is more included than the server |
| `Inclusion.PrerequisiteCanIncludeMore` | packages/core/src/visibility.ts:107-111 | in the same ruleset a flag that lost no rule is more included, because the flag it requires is |
| `Inclusion.NeverMoreIncluded` | packages/core/src/visibility.ts:107-111 | for every request, on an acyclic prerequisite scope: if each flag passes the test at the variations required of it (each stripped rule serves everyone that variation or nothing after it could serve it, and the off variation is another or no prerequisite lost a rule), a flag that passes it at a variation is never more included there |
| `Inclusion.IntactNeverMoreIncluded` | packages/core/src/visibility.ts:107-111 | where transitive prerequisites lost no rule, the test on the flag's own rules is enough, cycles or not |
| `ScopeAgreement.ScopeAgreesExactly` | packages/core/src/visibility.ts:105-132 | on an acyclic prerequisite scope of validated flags, all flags agree on both sides if and only if none of them diverges, whether or not they lost rules |
| `CycleSearch.CycleFinder.Visit` | apps/control-plane/src/ruleset.ts:266-285 | a path returned is a cycle; otherwise the stack is as before, holds exactly the visiting keys and is a walk in the graph, and the key is finished after everything it requires |
| `CycleSearch.FindPrerequisiteCycle` | apps/control-plane/src/ruleset.ts:261-292 | a path returned starts and ends at one key along prerequisite edges; nothing is returned if and only if the graph is acyclic, with a topological order to show for it |
| `Compiler.ValidateRuleNode` | apps/control-plane/src/ruleset.ts:65-122 | appends to the shared list the bad nodes up to depth 32 and every node just past it, each with its position, in traversal order |
| `Compiler.TreeProblemsMeaning` | apps/control-plane/src/ruleset.ts:65-122 | membership in that list, node by node: a problem is there if and only if the node at its position has it |
| `Compiler.ValidateFlag` | apps/control-plane/src/ruleset.ts:124-168 | appends exactly the flag's problems in order, and nothing else once a flag has no variations |
| `Compiler.ValidateRule` | apps/control-plane/src/ruleset.ts:141-167 | appends exactly the rule's problems in order: its tree, unknown segments, undeclared variations, a bad distribution |
| `Compiler.KeyCountMeansDistinct` | apps/control-plane/src/ruleset.ts:125-133 | comparing the number of keys with the number of variations detects exactly the repeated keys |
| `Compiler.CompileRuleset` | apps/control-plane/src/ruleset.ts:184-253 | rejects exactly the malformed rulesets with exactly their ordered problem list, otherwise returns both payloads; the second rejection gives exactly the ordered leaks and needs a duplicate segment key |
| `Compiler.ReportMeaning` | apps/control-plane/src/ruleset.ts:184-232 | the ordered list holds exactly the problems that the separate rules for trees, flags and segments define |
| `CompiledMeaning.CompileImpliesEvaluate` | apps/control-plane/src/ruleset.ts:184-253 | for every flag of either payload of a ruleset that compiles and every request, evaluation gives no error, serves a declared variation with its value, the reason explains the result, and a prerequisite is blamed only when that flag on its own serves another variation |
| `CompiledMeaning.CompiledSidesAgreeExactly` | packages/core/src/visibility.ts:105-132 | for a well-formed ruleset with unique segment keys and distinct rule ids, one request gets the same from both payloads for every flag if and only if no flag diverges |
| `CompiledMeaning.CompiledNeverMoreIncluded` | packages/core/src/visibility.ts:107-111 | for a ruleset that compiles, that test made once on all its flags excludes the flag from ever being more included at the variation |
| `CompiledMeaning.CompiledNowhereMoreIncludedExactly` | packages/core/src/visibility.ts:107-111 | for a ruleset that compiles, on one request no flag is more included anywhere if and only if stripping changes no pick of a flag whose rules decide on the server |
| `CompiledMeaning.ReasonExplainsResult` | packages/core/src/evaluate.ts:199-252 | in a sound environment each reason holds of flag and request and fixes what was served: off if and only if disabled, a failed prerequisite if and only if some required flag on its own serves something else, a rule if and only if it is the first to match and can place the context, with the slice of that context's bucket, and the default otherwise |
| `CompiledMeaning.SoundPrerequisiteFailure` | packages/core/src/evaluate.ts:207-223 | in a sound environment a prerequisite failure is never an artefact of a guard |
| `Store.SnapshotStore.Publish` | apps/data-plane/internal/store/store.go:73-116 | accepts exactly the versions that advance, appends them to the accepted log, and the state kept is always the log's last entry and its last min(n, historySize) entries |
| `Store.SnapshotStore.Current` | apps/data-plane/internal/store/store.go:122-131 | the last accepted snapshot, or none if nothing was ever accepted |
| `Store.SnapshotStore.Resume` | apps/data-plane/internal/store/store.go:137-169 | from the bounded history it answers what the whole log would answer |
| `Store.CommitKeepsHistory` | apps/data-plane/internal/store/store.go:97-103 | appending and dropping the oldest keeps exactly the tail of the log |
| `Store.HistoryIsEnough` | apps/data-plane/internal/store/store.go:157-168 | a cursor that passes the gap check has missed nothing that the history dropped, even with version gaps |
| `Store.ReplayExact` | apps/data-plane/internal/store/store.go:163-168 | a replay holds every accepted snapshot above the cursor and nothing else, in increasing order |
| `Store.ResumeReachesCurrent` | apps/data-plane/internal/store/store.go:137-169 | whenever no resync is asked for, the cursor is already current or the last replayed snapshot is |
| `Store.FullResyncExactly` | apps/data-plane/internal/store/store.go:146-161 | a full resync is asked for if and only if the cursor is below the current version and more than one below the oldest version kept |
| `Store.UnpublishedCursorExactly` | apps/data-plane/internal/store/store.go:151-161 | a cursor that was never published is refused exactly when it lies more than one below the oldest version kept, else replayed; a future one gets an empty replay |
| `Store.FutureCursorIsReplayed` | apps/data-plane/internal/store/store.go:146-152 | a future cursor that is not refused |
| `Store.GapCursorIsReplayed` | apps/data-plane/internal/store/store.go:151-168 | a never-published cursor inside a version gap that is not refused |
| `Sse.FormatVersion` | apps/data-plane/internal/store/store.go:183-197 | never overruns the 20-byte buffer it fills backwards, gives the decimal digits of every non-negative 64-bit version, and nothing for a negative one |
| `Sse.VersionIdRoundTrip` | apps/data-plane/internal/api/api.go:327-337 | the printed id of every version below 2^63 parses back to that version |
| `Sse.ResponseWriter.WriteEvent` | apps/data-plane/internal/api/api.go:379-394 | appends exactly the lines of one frame, one data line for each line of the payload |
| `Sse.WriteAll` | apps/data-plane/internal/api/api.go:282-310 | the handler's loop leaves exactly the lines of its frames and keep-alives, in order |
| `Sse.StreamRoundTrip` | apps/data-plane/internal/api/api.go:379-394 | a standard reader of any sequence of frames and keep-alives dispatches the same events with the same payloads and ends with the id of the last frame that had one |
| `Wire.StreamKeepsCursor` | apps/data-plane/internal/api/api.go:320-337 | for any frames and keep-alives, parsing the last event id that a standard reader of the printed stream ends with gives the protocol's cursor; resync frames leave it alone |
| `Wire.ReadingTheWire` | packages/sdk-js/src/client.ts:100-110 | reading a wire to its end leaves the protocol's client with that cursor and the version that the client's guard gives for those frames |
| `Wire.BytesCarryTheCursor` | apps/data-plane/internal/api/api.go:320-337 | after any run, whatever is on a client's wire can be printed, with any payloads free of carriage returns and any keep-alives between, and a standard reader of those bytes ends with the cursor of the protocol's client once it has read its wire |
| `Hub.SubscriberHub.Subscribe` | apps/data-plane/internal/hub/hub.go:155-175 | registers a fresh subscriber under its id, an id in use included, and keeps the sharded maps, the registry and the counter in step; the counter exceeds the registry by exactly the registrations written over |
| `Hub.SubscriberHub.Remove` | apps/data-plane/internal/hub/hub.go:182-203 | removes whatever is registered under the subscriber's id, counts it once, and closes the subscriber with the first reason given; with nothing registered no counter changes |
| `Hub.SubscriberHub.Broadcast` | apps/data-plane/internal/hub/hub.go:210-237 | every subscriber of the environment with room has the message appended, every full one is evicted as slow, nobody else changes, and the counts returned add up |
| `Hub.SubscriberHub.CloseAll` | apps/data-plane/internal/hub/hub.go:240-253 | empties every shard, closes every registered subscriber as disconnected, touches no buffer and counts nothing as dropped |
| `Hub.Subscriber.Close` | apps/data-plane/internal/hub/hub.go:90-98 | closes once; a second close keeps the first reason |
| `Client.FlagshipClient.ApplySnapshot` | packages/sdk-js/src/client.ts:100-110 | applies exactly the newer snapshots, keeps the index in step, and moves the version as the delivery protocol assumes |
| `Client.FlagshipClient.Evaluate` | packages/sdk-js/src/client.ts:72-85 | evaluates against the snapshot held, without one gives the fallback, and records an exposure if and only if a variation was seen |
| `Client.HighestWins` | packages/sdk-js/src/client.ts:93-104 | however frames are ordered, delayed or repeated, the version held is the highest one seen |
| `DeliverySafety.SafeKept` | apps/data-plane/internal/api/api.go:269-309 | every step of every interleaving keeps: each connection past its replay has a client at the current version, or that version on the wire or buffered or owed by a broadcast, or is being evicted or off the registry, or was opened with a cursor that is current or newer |
| `DeliverySafety.ReplaySendsCurrentExactly` | apps/data-plane/internal/api/api.go:339-375 | replaying sends the current version, or goes on to fetch it, if and only if the cursor cited is below it |
| `DeliverySafety.ReplayOnTrack` | apps/data-plane/internal/api/api.go:339-375 | replaying leaves the client at the current version, or that version on its wire, or a cursor cited that has reached it |
| `DeliverySafety.RunsStaySafe` | apps/data-plane/internal/store/store.go:85-113 | the invariant holds after every run |
| `DeliverySafety.SettledMeansConverged` | apps/data-plane/internal/api/api.go:269-309 | after any run from the start, once nothing is in progress every registered client that joined citing no more than it held has exactly the store's current version, or a bootstrap newer than it, whatever the other clients cite |
| `DeliverySafety.SettledUnlessLeftBehind` | apps/data-plane/internal/api/api.go:269-309 | for any registered client then: it is up to date if and only if not below a current version that the cursor of its connection has reached |
| `DeliverySafety.CitingMoreThanHeldIsLeftBehind` | apps/data-plane/internal/api/api.go:349-375 | a run where a client that holds nothing cites the current version, is sent nothing, and settles holding nothing |
| `DeliverySafety.RunsNeverRegress` | packages/sdk-js/src/client.ts:93-104 | over any run the log only grows and neither the store's nor any client's version ever decreases |
| `DeliveryProgress.InternalRunsAreBounded` | apps/data-plane/internal/hub/hub.go:210-237 | without new input, a run from a reachable state is no longer than the work left in it |
| `DeliveryProgress.StuckMeansSettled` | apps/data-plane/internal/api/api.go:282-309 | a reachable state with no internal step enabled has settled: no lock, buffer or connection is ever stuck |
| `DeliveryProgress.CanSettle` | apps/data-plane/internal/api/api.go:269-309 | from every reachable state some run of internal steps settles |
| `DeliveryProgress.EventualConvergence` | apps/data-plane/internal/api/api.go:269-309 | once input stops the protocol takes boundedly many steps, and where it stops every client still registered is up to date if it joined citing no more than it held, and otherwise unless it is left behind its own cursor |
| `DeliveryReconnect.SettlingStepLower` | apps/data-plane/internal/hub/hub.go:210-237 | with reconnecting added, every step still lowers one lexicographic measure: broadcasts' shards left first, then turns, ranks and work |
| `DeliveryReconnect.QuietMeansSettled` | apps/data-plane/internal/api/api.go:282-309 | a state where nothing more happens has settled, with every client attached and registered |
| `DeliveryReconnect.ScheduleComesToRest` | apps/data-plane/internal/hub/hub.go:9-12 | every schedule that acts while it can comes to rest after finitely many steps |
| `DeliveryReconnect.ReconnectingClientsConverge` | apps/data-plane/internal/hub/hub.go:9-12 | after any run, once publishing stops and dropped clients keep reconnecting, every schedule rests where every client, evicted or not, is up to date if it joined citing no more than it held, and otherwise unless it is left behind its own cursor |
| `HubAccounting.AccountedKept` | apps/data-plane/internal/hub/hub.go:155-253 | every step keeps: registrations are partitioned into present, dropped once and shut down; the counters are exact up to subscribes not yet counted; a closed subscriber is off the registry; no buffer exceeds its capacity |
| `HubRuns.HubBooksBalance` | apps/data-plane/internal/hub/hub.go:155-253 | after any run, registrations made equal those present plus `totalDropped` plus those shut down, and `connected` is exact up to subscribes not yet counted |
| `ExposureModel.ExposureBuffer.SamplingRate` | packages/sdk-js/src/exposure.ts:112-117 | within [0, 1] while the queue is within its cap, and 1 exactly while occupancy is at most the threshold |
| `ExposureModel.RateFalls` | packages/sdk-js/src/exposure.ts:112-117 | between an empty and a full queue the rate never rises with occupancy, for any threshold |
| `ExposureModel.RateAtFullQueue` | packages/sdk-js/src/exposure.ts:112-117 | at a full queue the rate is zero if the threshold is below one, and one otherwise |
| `ExposureModel.ExposureBuffer.Record` | packages/sdk-js/src/exposure.ts:125-160 | exactly one of closed, dropped, sampled out and accepted; an accepted event is logged, stamped with its position, and starts a send if it fills the batch |
| `ExposureModel.ExposureBuffer.Flush` | packages/sdk-js/src/exposure.ts:169-176 | starts a send of the whole queue unless one is outstanding; conservation is kept |
| `ExposureModel.ExposureBuffer.SendSucceeded` | packages/sdk-js/src/exposure.ts:176-183 | the batch moves from in flight to settled and is counted as sent |
| `ExposureModel.ExposureBuffer.SendFailed` | packages/sdk-js/src/exposure.ts:178-180 | the batch is settled as failed while sends stay blocked until its error has been reported |
| `ExposureModel.ExposureBuffer.Close` | packages/sdk-js/src/exposure.ts:187-194 | recording stops; with no send outstanding the queue is empty afterwards |
| `ExposureModel.ExposureBuffer.LoggedKeysDistinct` | packages/sdk-js/src/exposure.ts:148-151 | two recorded events that took generated dedupe keys never share one |
| `ExposureModel.Interleave` | packages/sdk-js/src/exposure.ts:125-194 | after any interleaving, the recorded events are, in order, those settled, then those in flight, then those queued; all are counted; the queue is bounded |
| `ExposureModel.CountsAddUp` | packages/sdk-js/src/exposure.ts:176-180 | every settled event is counted once, as sent or as failed |
| `ExposureModel.GeneratedKeysDistinct` | packages/sdk-js/src/exposure.ts:148-151 | whatever the colons in the other parts, equal generated keys mean equal sequence numbers |
| `ExposureWriterModel.ExposureWriter.Enqueue` | apps/control-plane/src/exposures.ts:203-229 | refuses exactly the batches that would exceed the bound, takes empty ones without a write, and keeps the books |
| `ExposureWriterModel.ExposureWriter.Settle` | apps/control-plane/src/exposures.ts:215-221 | an answer moves the rows to written or failed once, while they still count against the bound |
| `ExposureWriterModel.ExposureWriter.Finalise` | apps/control-plane/src/exposures.ts:222-225 | a settled write leaves the bound in a later step |
| `ExposureWriterModel.ExposureWriter.DrainedMeansSettled` | apps/control-plane/src/exposures.ts:235-241 | when draining ends, everything accepted was written or failed and nothing counts against the bound |
| `ExposureWriterModel.ExposureWriter.Drain` | apps/control-plane/src/exposures.ts:235-241 | the draining loop ends only with nothing in flight and everything accepted written or failed, is still waiting only if a write is, and takes one wave unless something is enqueued meanwhile |

## Left out

- HTTP routing, authentication, ETags, Postgres and ClickHouse: input and output. Publishes arrive at the store with
  arbitrary versions in arbitrary order, which covers lost and reordered pushes.
- The console, the experiment statistics (floating-point approximations), `stats` getters and `isEnabled`.
- Condition operators and the conversion of attribute values to strings: arbitrary total functions that come with each
  request. An absent attribute never matches, as in the code.
- `Compiler.ValidateRuleNode`: JSON shape errors are not modelled, because trees are typed. The depth limit, empty
  attributes, empty value lists, empty segment keys, unknown node kinds and all reference checks are kept.
- `Compiler.ValidateRule`: JSON shape errors in serve objects are not modelled, for the same reason.
- `Compiler.CompileRuleset`: rows are typed; reading them from the database is not part of this model.
- Problem and leak texts: entries are data with their positions. Their order and repetition are kept.
- Clocks and timers: flush ticks are steps, the sampling draw is a parameter, timestamps and keep-alive timing are not
  modelled; a run may contain any step at any time.
- `Rollout.VariationForBucket`: weights are reals, so rounding of non-integer weights, NaN and infinities are not
  modelled; sums of integer weights below 2^53 are exact in the original.
- `Bucketing.BucketInEveryPort`: stated on bytes, because the Java and Go string encoders are library code; unpaired
  surrogates across languages are therefore not covered.
- `Store.SnapshotStore.Publish`: returns the message to broadcast instead of calling the hub, because the broadcast
  happens after the lock is released; the interleaving of the two is what `Delivery` models.
- `Store.SnapshotStore.Resume`: the code may ask for a full resync that a version gap makes unnecessary; when it asks
  is `Store.FullResyncExactly`.
- `Hub.SubscriberHub.Subscribe`: the counter that makes ids is not part of this model, so any id may come.
- `Hub.SubscriberHub.Broadcast`: one call at a time; overlapping calls are the subject of `Delivery`, `DeliverySafety`
  and `HubAccounting`, where each section under a lock is split no further than one send.
- `DeliverySafety.SafeKept`: one environment; the payload's version is taken to be the frame's id; the `sent` counter
  is left out. Clients join with any bootstrap and cite any cursor. The SDK's own `start()` is a stub, so reconnecting
  is that of an event source.
- `DeliverySafety.SettledMeansConverged`: clients that cite a cursor above what they hold are left to
  `DeliverySafety.SettledUnlessLeftBehind`, because the code can leave them behind.
- `DeliveryProgress.EventualConvergence`: leaves out clients evicted and not yet back, who are the subject of
  `DeliveryReconnect`. It needs no fairness, because every internal step uses up work; a handler that never takes its
  turn is a run that has not stopped yet.
- `ExposureModel.ExposureBuffer.SamplingRate`: real arithmetic; rounding of the quotient is not modelled.
- `ExposureModel.ExposureBuffer.Close`: with a send outstanding the queue is not drained, because flushing returns
  early there.
- `ExposureWriterModel.ExposureWriter.Drain`: what happens while it waits is a list of events; that promises settle is
  up to the sink.
