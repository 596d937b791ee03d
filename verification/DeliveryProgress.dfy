/**
 * The protocol settles: without new input every run is bounded, a run that cannot go on
 * has settled, and so from every reachable state convergence can be and will be reached.
 */
module DeliveryProgress {
  import opened Text
  import opened Store
  import opened Delivery
  import opened DeliverySafety
  import opened HubAccounting
  import opened HubRuns
  import opened Sums
  import Words

  /** A step that needs no publish, no client and no hang-up. */
  predicate Internal(step: Step) {
    !(step.Publish? || step.Join? || step.Subscribe? || step.SeeHangup? || step.Disconnect? || step.CloseShard?)
  }

  // ----- the work left to do

  function RawWeight(shards: nat, members: nat, b: Broadcast): int {
    (shards - b.shard) * (4 * members + 2) - (if b.holding then 4 * members + 1 else 0) + 4 * |b.todo|
      + 3 * |b.evict| + 1
  }

  /** What is left of a broadcast, with at most members subscribers in a shard. */
  function BroadcastWeight(shards: nat, members: nat, b: Broadcast): nat {
    if b.shard <= shards && (b.holding ==> b.shard < shards) then
      WeightPositive(shards, members, b);
      RawWeight(shards, members, b)
    else 0
  }

  function PhaseWeight(logged: nat, phase: Phase): nat {
    match phase
    case Replaying => logged + 9
    case Resyncing => 7
    case Streaming => 5
    case Returning => 3
    case Closed => 0
  }

  function ConnectionWeight(logged: nat, conn: Connection): nat {
    PhaseWeight(logged, conn.phase) + 2 * |conn.buffer| + |conn.wire|
  }

  lemma WeightPositive(shards: nat, members: nat, b: Broadcast)
    requires b.shard <= shards && (b.holding ==> b.shard < shards)
    ensures RawWeight(shards, members, b) > 0
  {
    if b.shard < shards {
      Words.MulMonotone(1, shards - b.shard, 4 * members + 2);
    }
  }

  ghost function BroadcastWeights(c: Config, s: State): map<nat, nat> {
    map b | b in s.broadcasts :: BroadcastWeight(c.shards, |s.connections|, s.broadcasts[b])
  }

  ghost function ConnectionWeights(s: State): map<nat, nat> {
    map id | id in s.connections :: ConnectionWeight(|s.log|, s.connections[id])
  }

  ghost function WorkLeft(c: Config, s: State): nat {
    Sum(BroadcastWeights(c, s)) + Sum(ConnectionWeights(s)) + |s.closing| + |s.uncounted|
  }

  // ----- every internal step does some of it

  lemma {:induction false} NewerNoLonger(log: seq<Snapshot>, cursor: int)
    ensures |Newer(log, cursor)| <= |log|
  {
    if log != [] {
      NewerNoLonger(log[..|log| - 1], cursor);
    }
  }

  lemma ReplayNoLonger(log: seq<Snapshot>, historySize: nat, cursor: int)
    requires historySize > 0
    ensures var frames := ReplayFrames(log, historySize, cursor);
            frames.Some? ==> |frames.value| <= |log| + 1
  {
    NewerNoLonger(log, cursor);
  }

  /** A step on one connection that lightens it, at the price of at most one more close to do. */
  lemma ConnectionLightened(c: Config, s: State, t: State, id: nat)
    requires Structure(c, s) && Structure(c, t) && id in s.connections && id in t.connections
    requires t.log == s.log && t.broadcasts == s.broadcasts && t.connections == s.connections[id := t.connections[id]]
    requires t.uncounted == s.uncounted
    requires ConnectionWeight(|s.log|, t.connections[id]) + |t.closing|
             < ConnectionWeight(|s.log|, s.connections[id]) + |s.closing|
    ensures WorkLeft(c, t) < WorkLeft(c, s)
  {
    hide Structure, Sum, ConnectionWeight, BroadcastWeight;
    assert t.connections.Keys == s.connections.Keys;
    assert BroadcastWeights(c, t) == BroadcastWeights(c, s);
    ConnectionsReweighed(s, t, id);
  }

  /** A step on one broadcast that lightens it, at the price of less for one connection and the closes to do. */
  lemma BroadcastLightened(c: Config, s: State, t: State, b: nat)
    requires Structure(c, s) && Structure(c, t) && b in s.broadcasts && b in t.broadcasts
    requires t.log == s.log && t.broadcasts == s.broadcasts[b := t.broadcasts[b]]
             && t.connections.Keys == s.connections.Keys
    requires t.uncounted == s.uncounted
    requires BroadcastWeight(c.shards, |s.connections|, t.broadcasts[b]) + Sum(ConnectionWeights(t)) + |t.closing|
             < BroadcastWeight(c.shards, |s.connections|, s.broadcasts[b]) + Sum(ConnectionWeights(s)) + |s.closing|
    ensures WorkLeft(c, t) < WorkLeft(c, s)
  {
    hide Structure, Sum, BroadcastWeight;
    assert |t.connections| == |s.connections| by {
      assert |t.connections| == |t.connections.Keys|;
    }
    WeightOf(c, t, b);
    SumUpdate(BroadcastWeights(c, s), b, BroadcastWeights(c, t)[b]);
    assert BroadcastWeights(c, t) == BroadcastWeights(c, s)[b := BroadcastWeights(c, t)[b]];
  }

  lemma WeightOf(c: Config, s: State, b: nat)
    requires Structure(c, s) && b in s.broadcasts
    ensures BroadcastWeights(c, s)[b] == BroadcastWeight(c.shards, |s.connections|, s.broadcasts[b])
  {
  }

  lemma LockWeight(shards: nat, members: nat, b: Broadcast, todo: set<nat>)
    requires b.shard < shards && !b.holding && b.todo == {} && |todo| <= members
    ensures BroadcastWeight(shards, members, b.(holding := true, todo := todo)) < BroadcastWeight(shards, members, b)
  {
  }

  lemma SameConnections(s: State, t: State)
    requires t.connections == s.connections && t.log == s.log
    ensures ConnectionWeights(t) == ConnectionWeights(s)
  {
  }

  lemma LockLightens(c: Config, s: State, b: nat)
    requires ValidConfig(c) && Structure(c, s) && Enabled(c, s, LockShard(b)) && s.broadcasts[b].todo == {}
    requires Structure(c, Apply(c, s, LockShard(b)))
    ensures WorkLeft(c, Apply(c, s, LockShard(b))) < WorkLeft(c, s)
  {
    assert Members(c, s, s.broadcasts[b].shard) <= s.connections.Keys;
    hide Sum, Structure, BroadcastWeight, BroadcastWeights, ConnectionWeights, WorkLeft, Members;
    var members := Members(c, s, s.broadcasts[b].shard);
    SmallerSet(members, s.connections.Keys);
    assert |s.connections| == |s.connections.Keys|;
    LockWeight(c.shards, |s.connections|, s.broadcasts[b], members);
    var t := Apply(c, s, LockShard(b));
    assert ConnectionWeights(t) == ConnectionWeights(s) by { SameConnections(s, t); }
    BroadcastLightened(c, s, t, b);
  }

  lemma UnlockWeight(shards: nat, members: nat, b: Broadcast)
    requires b.holding && b.shard < shards
    ensures BroadcastWeight(shards, members, b.(holding := false, shard := b.shard + 1))
            < BroadcastWeight(shards, members, b)
  {
    var left, each := shards - b.shard, 4 * members + 2;
    assert left * each == (left - 1) * each + each;
  }

  lemma SendWeight(shards: nat, members: nat, b: Broadcast, id: nat)
    requires b.holding && b.shard < shards && id in b.todo
    ensures var rest := b.(todo := b.todo - {id});
            && BroadcastWeight(shards, members, rest) + 4 == BroadcastWeight(shards, members, b)
            && BroadcastWeight(shards, members, rest.(evict := rest.evict + {id})) < BroadcastWeight(shards, members, b)
  {
    assert |b.todo - {id}| == |b.todo| - 1;
    assert |b.evict + {id}| <= |b.evict| + 1;
  }

  lemma FinishWeight(shards: nat, members: nat, b: Broadcast)
    requires b.shard == shards && !b.holding
    ensures BroadcastWeight(shards, members, b) > 0
  {
  }

  lemma UnlockLightens(c: Config, s: State, b: nat)
    requires ValidConfig(c) && Structure(c, s) && Enabled(c, s, UnlockShard(b))
    requires Structure(c, Apply(c, s, UnlockShard(b)))
    ensures WorkLeft(c, Apply(c, s, UnlockShard(b))) < WorkLeft(c, s)
  {
    assert BroadcastInOrder(c, s, s.broadcasts[b]);
    hide Structure, BroadcastWeight, Sum;
    UnlockWeight(c.shards, |s.connections|, s.broadcasts[b]);
    BroadcastLightened(c, s, Apply(c, s, UnlockShard(b)), b);
  }

  lemma ConnectionsReweighed(s: State, t: State, id: nat)
    requires id in s.connections && t.log == s.log && id in t.connections
    requires t.connections == s.connections[id := t.connections[id]]
    ensures Sum(ConnectionWeights(t)) + ConnectionWeight(|s.log|, s.connections[id])
            == Sum(ConnectionWeights(s)) + ConnectionWeight(|s.log|, t.connections[id])
  {
    hide Sum, ConnectionWeight;
    SumUpdate(ConnectionWeights(s), id, ConnectionWeight(|s.log|, t.connections[id]));
    assert ConnectionWeights(t) == ConnectionWeights(s)[id := ConnectionWeight(|s.log|, t.connections[id])];
  }

  /** A send moves weight from the broadcast to the connection, or to its eviction, and loses some. */
  lemma SendShifts(c: Config, s: State, b: nat, id: nat)
    requires Enabled(c, s, Send(b, id)) && s.broadcasts[b].shard < c.shards
    ensures var t := SendOne(c, s, b, id);
            && t.log == s.log && t.closing == s.closing && t.uncounted == s.uncounted
            && b in t.broadcasts && t.broadcasts == s.broadcasts[b := t.broadcasts[b]]
            && id in t.connections && t.connections == s.connections[id := t.connections[id]]
            && BroadcastWeight(c.shards, |s.connections|, t.broadcasts[b])
               + ConnectionWeight(|s.log|, t.connections[id])
               < BroadcastWeight(c.shards, |s.connections|, s.broadcasts[b])
                 + ConnectionWeight(|s.log|, s.connections[id])
  {
    hide BroadcastWeight;
    SendWeight(c.shards, |s.connections|, s.broadcasts[b], id);
  }

  lemma SendLightens(c: Config, s: State, b: nat, id: nat)
    requires ValidConfig(c) && Structure(c, s) && Enabled(c, s, Send(b, id))
    requires Structure(c, Apply(c, s, Send(b, id)))
    ensures WorkLeft(c, Apply(c, s, Send(b, id))) < WorkLeft(c, s)
  {
    assert BroadcastInOrder(c, s, s.broadcasts[b]);
    hide Sum, Structure, BroadcastWeight, WorkLeft, BroadcastWeights, ConnectionWeights, ConnectionWeight, SendOne;
    var t := SendOne(c, s, b, id);
    SendShifts(c, s, b, id);
    ConnectionsReweighed(s, t, id);
    assert t.connections.Keys == s.connections.Keys;
    BroadcastLightened(c, s, t, b);
  }

  lemma EvictLightens(c: Config, s: State, b: nat, id: nat)
    requires ValidConfig(c) && Structure(c, s) && Enabled(c, s, Evict(b, id))
    requires Structure(c, Apply(c, s, Evict(b, id)))
    ensures WorkLeft(c, Apply(c, s, Evict(b, id))) < WorkLeft(c, s)
  {
    hide Sum, Structure, Unlocked;
    var t := Apply(c, s, Evict(b, id));
    assert |t.broadcasts[b].evict| == |s.broadcasts[b].evict| - 1;
    assert |t.closing| <= |s.closing| + 1;
    BroadcastLightened(c, s, t, b);
  }

  lemma FinishLightens(c: Config, s: State, b: nat)
    requires ValidConfig(c) && Structure(c, s) && Enabled(c, s, FinishBroadcast(b))
    requires Structure(c, Apply(c, s, FinishBroadcast(b)))
    ensures WorkLeft(c, Apply(c, s, FinishBroadcast(b))) < WorkLeft(c, s)
  {
    hide Sum, BroadcastWeight, ConnectionWeight, Structure;
    var t := Apply(c, s, FinishBroadcast(b));
    SumWithout(BroadcastWeights(c, s), b);
    assert BroadcastWeights(c, t) == BroadcastWeights(c, s) - {b};
    assert ConnectionWeights(t) == ConnectionWeights(s);
    FinishWeight(c.shards, |s.connections|, s.broadcasts[b]);
  }

  lemma CountLightens(c: Config, s: State, id: nat)
    requires ValidConfig(c) && Structure(c, s) && Enabled(c, s, Count(id))
    requires Structure(c, Apply(c, s, Count(id)))
    ensures WorkLeft(c, Apply(c, s, Count(id))) < WorkLeft(c, s)
  {
    hide Sum, BroadcastWeight, ConnectionWeight, Structure;
    var t := Apply(c, s, Count(id));
    assert |t.uncounted| == |s.uncounted| - 1;
    assert BroadcastWeights(c, t) == BroadcastWeights(c, s);
    assert ConnectionWeights(t) == ConnectionWeights(s);
  }

  lemma ReplayLightens(c: Config, s: State, step: Step)
    requires ValidConfig(c) && Structure(c, s) && Enabled(c, s, step) && Structure(c, Apply(c, s, step))
    requires step.ReplayHistory?
    ensures WorkLeft(c, Apply(c, s, step)) < WorkLeft(c, s)
  {
    hide Sum, Structure, Unlocked, ReplayFrames, CurrentOf, WorkLeft;
    var t := Apply(c, s, step);
    ReplayNoLonger(s.log, c.historySize, s.connections[step.id].cursor);
    ConnectionLightened(c, s, t, step.id);
  }

  lemma CloseLightens(c: Config, s: State, step: Step)
    requires ValidConfig(c) && Structure(c, s) && Enabled(c, s, step) && Structure(c, Apply(c, s, step))
    requires step.CloseSubscriber?
    ensures WorkLeft(c, Apply(c, s, step)) < WorkLeft(c, s)
  {
    hide Sum, Structure, Unlocked, ReplayFrames, CurrentOf, WorkLeft;
    var t := Apply(c, s, step);
    assert |t.closing| == |s.closing| - 1;
    ConnectionLightened(c, s, t, step.id);
  }

  lemma UnsubscribeLightens(c: Config, s: State, step: Step)
    requires ValidConfig(c) && Structure(c, s) && Enabled(c, s, step) && Structure(c, Apply(c, s, step))
    requires step.Unsubscribe?
    ensures WorkLeft(c, Apply(c, s, step)) < WorkLeft(c, s)
  {
    hide Sum, Structure, Unlocked, ReplayFrames, CurrentOf, WorkLeft;
    var t := Apply(c, s, step);
    assert |t.closing| <= |s.closing| + 1;
    ConnectionLightened(c, s, t, step.id);
  }

  lemma FrameLightens(c: Config, s: State, step: Step)
    requires ValidConfig(c) && Structure(c, s) && Enabled(c, s, step) && Structure(c, Apply(c, s, step))
    requires step.ReadCurrent? || step.Deliver? || step.SeeDone? || step.SeeHangup?
    ensures WorkLeft(c, Apply(c, s, step)) < WorkLeft(c, s)
  {
    hide Sum, Structure, Unlocked, ReplayFrames, CurrentOf, WorkLeft;
    var t := Apply(c, s, step);
    ConnectionLightened(c, s, t, step.id);
  }

  lemma ReceiveLightens(c: Config, s: State, k: nat)
    requires ValidConfig(c) && Structure(c, s) && Enabled(c, s, Receive(k))
    requires Structure(c, Apply(c, s, Receive(k)))
    ensures WorkLeft(c, Apply(c, s, Receive(k))) < WorkLeft(c, s)
  {
    hide Sum, Structure;
    ConnectionLightened(c, s, Apply(c, s, Receive(k)), s.clients[k].connection.value);
  }

  /** A broadcast that is not inside a shard has nothing to send there. */
  ghost predicate TodoOnlyInside(s: State) {
    forall b <- s.broadcasts :: !s.broadcasts[b].holding ==> s.broadcasts[b].todo == {}
  }

  lemma BroadcastTodoKept(c: Config, s: State, step: Step)
    requires ValidConfig(c) && TodoOnlyInside(s) && Enabled(c, s, step) && BroadcastStep(step)
    ensures TodoOnlyInside(Apply(c, s, step))
  {
    hide Unlocked, ReplayFrames, Members, CurrentOf;
  }

  lemma TodoKept(c: Config, s: State, step: Step)
    requires ValidConfig(c) && TodoOnlyInside(s) && Enabled(c, s, step)
    ensures TodoOnlyInside(Apply(c, s, step))
  {
    hide Unlocked, ReplayFrames, Members, CurrentOf;
    if BroadcastStep(step) {
      BroadcastTodoKept(c, s, step);
    } else if !step.Publish? {
      OtherStepKeepsBroadcasts(c, s, step);
    }
  }

  lemma InternalStepLightens(c: Config, s: State, step: Step)
    requires ValidConfig(c) && Safe(c, s) && TodoOnlyInside(s) && Enabled(c, s, step) && Internal(step)
    requires Structure(c, Apply(c, s, step))
    ensures WorkLeft(c, Apply(c, s, step)) < WorkLeft(c, s)
  {
    hide WorkLeft, Structure, Converging, InFlightKnown, ClientKnownAll, Unlocked, ReplayFrames;
    match step {
      case LockShard(b) => LockLightens(c, s, b);
      case UnlockShard(b) => UnlockLightens(c, s, b);
      case Send(b, id) => SendLightens(c, s, b, id);
      case Evict(b, id) => EvictLightens(c, s, b, id);
      case FinishBroadcast(b) => FinishLightens(c, s, b);
      case Count(id) => CountLightens(c, s, id);
      case Receive(k) => ReceiveLightens(c, s, k);
      case CloseSubscriber(_, _) => CloseLightens(c, s, step);
      case ReplayHistory(_) => ReplayLightens(c, s, step);
      case ReadCurrent(_) => FrameLightens(c, s, step);
      case Deliver(_) => FrameLightens(c, s, step);
      case SeeDone(_) => FrameLightens(c, s, step);
      case Unsubscribe(_) => UnsubscribeLightens(c, s, step);
    }
  }

  // ----- a protocol with nothing to do has settled

  ghost predicate Stuck(c: Config, s: State) {
    forall step: Step :: Internal(step) ==> !Enabled(c, s, step)
  }

  /** While a broadcast is in progress, something about it is enabled: a lock held can be worked off and released. */
  lemma BroadcastHasStep(c: Config, s: State, b: nat) returns (step: Step)
    requires ValidConfig(c) && Structure(c, s) && b in s.broadcasts
    ensures Internal(step) && Enabled(c, s, step)
  {
    hide Increasing, ConnectionsInOrder, ClientsInOrder;
    if h :| h in s.broadcasts && s.broadcasts[h].holding {
      assert BroadcastInOrder(c, s, s.broadcasts[h]);
      if s.broadcasts[h].todo == {} {
        step := UnlockShard(h);
      } else {
        var id :| id in s.broadcasts[h].todo;
        step := Send(h, id);
      }
    } else {
      assert BroadcastInOrder(c, s, s.broadcasts[b]);
      if s.broadcasts[b].shard < c.shards {
        step := LockShard(b);
      } else if s.broadcasts[b].evict == {} {
        step := FinishBroadcast(b);
      } else {
        var id :| id in s.broadcasts[b].evict;
        step := Evict(b, id);
      }
    }
  }

  /** A registered, attached connection with nothing enabled is streaming, with nothing buffered or unread. */
  lemma StuckConnection(c: Config, s: State, k: nat)
    requires ValidConfig(c) && Stuck(c, s) && s.broadcasts == map[] && Attached(s, k)
             && s.clients[k].connection.value in s.registered
    requires ConnectionAccounted(c, s, s.clients[k].connection.value)
    ensures var conn := s.connections[s.clients[k].connection.value];
            conn.phase == Streaming && conn.buffer == [] && conn.wire == []
  {
    hide Unlocked;
    var id := s.clients[k].connection.value;
    assert !Enabled(c, s, Count(id));
    assert !Enabled(c, s, ReplayHistory(id));
    assert !Enabled(c, s, ReadCurrent(id));
    assert !Enabled(c, s, Deliver(id));
    assert !Enabled(c, s, Receive(k));
    NothingReturning(c, s, id);
  }

  /** Without broadcasts no lock is held, so a handler on its way out can unsubscribe. */
  lemma NothingReturning(c: Config, s: State, id: nat)
    requires Stuck(c, s) && s.broadcasts == map[] && id in s.connections
    ensures s.connections[id].phase != Returning
  {
    assert !Enabled(c, s, Unsubscribe(id));
  }

  lemma NoBroadcasts(c: Config, s: State)
    requires ValidConfig(c) && Structure(c, s) && Stuck(c, s)
    ensures s.broadcasts == map[]
  {
    hide Structure, Enabled;
    if b :| b in s.broadcasts {
      var step := BroadcastHasStep(c, s, b);
      assert false;
    }
  }

  lemma StuckMeansSettled(c: Config, s: State)
    requires ValidConfig(c) && Safe(c, s) && Accounted(c, s) && Stuck(c, s)
    ensures Settled(s)
  {
    hide Safe, RegistrationsAccounted, CountersAccounted, ConnectionAccounted, Structure, Stuck;
    StructureOf(c, s);
    NoBroadcasts(c, s);
    forall k | Attached(s, k) && s.clients[k].connection.value in s.registered
      ensures var conn := s.connections[s.clients[k].connection.value];
              conn.phase == Streaming && conn.buffer == [] && conn.wire == []
    {
      StuckConnection(c, s, k);
    }
  }

  lemma StructureOf(c: Config, s: State)
    requires Safe(c, s)
    ensures Structure(c, s)
  {
  }

  // ----- runs

  /** What every reachable state satisfies: the protocol's invariants together. */
  ghost predicate Sane(c: Config, s: State) {
    Safe(c, s) && Accounted(c, s) && TodoOnlyInside(s)
  }

  lemma SaneKept(c: Config, s: State, step: Step)
    requires ValidConfig(c) && Sane(c, s) && Enabled(c, s, step)
    ensures Sane(c, Apply(c, s, step))
  {
    hide Apply, Enabled, Accounted, TodoOnlyInside;
    SafeKept(c, s, step);
    EvictedKnown(c, s, step);
    AccountedKept(c, s, step);
    TodoKept(c, s, step);
  }

  lemma {:induction false} RunsStaySane(c: Config, s: State, steps: seq<Step>)
    requires ValidConfig(c) && Sane(c, s) && IsRun(c, s, steps)
    ensures Sane(c, After(c, s, steps))
    decreases |steps|
  {
    hide Apply, Enabled, Sane;
    if steps != [] {
      SaneKept(c, s, steps[0]);
      RunsStaySane(c, Apply(c, s, steps[0]), steps[1..]);
    }
  }

  lemma ReachableIsSane(c: Config, steps: seq<Step>)
    requires ValidConfig(c) && IsRun(c, INITIAL, steps)
    ensures Sane(c, After(c, INITIAL, steps))
  {
    hide IsRun, After;
    InitiallySafe(c);
    RunsStaySane(c, INITIAL, steps);
  }

  /** Without new input a run cannot be longer than the work left when it starts. */
  lemma {:induction false} InternalRunsAreBounded(c: Config, s: State, steps: seq<Step>)
    requires ValidConfig(c) && Sane(c, s) && IsRun(c, s, steps)
    requires forall step <- steps :: Internal(step)
    ensures |steps| <= WorkLeft(c, s)
    decreases |steps|
  {
    hide Apply, Enabled, Structure, WorkLeft, Internal;
    StructureOf(c, s);
    if steps != [] {
      var t := Apply(c, s, steps[0]);
      assert steps[0] in steps && forall step :: step in steps[1..] ==> step in steps;
      SaneKept(c, s, steps[0]);
      StructureOf(c, t);
      InternalStepLightens(c, s, steps[0]);
      InternalRunsAreBounded(c, t, steps[1..]);
    }
  }

  /** From any sane state some internal run settles: the protocol never gets stuck short of it. */
  lemma {:induction false} CanSettle(c: Config, s: State) returns (steps: seq<Step>)
    requires ValidConfig(c) && Sane(c, s)
    ensures IsRun(c, s, steps) && Settled(After(c, s, steps))
    ensures forall step <- steps :: Internal(step)
    decreases WorkLeft(c, s)
  {
    hide Apply, Enabled, Structure, WorkLeft, Internal, Settled, Safe, Accounted;
    StructureOf(c, s);
    if Stuck(c, s) {
      StuckMeansSettled(c, s);
      steps := [];
    } else {
      var step :| Internal(step) && Enabled(c, s, step);
      SaneKept(c, s, step);
      StructureOf(c, Apply(c, s, step));
      InternalStepLightens(c, s, step);
      var rest := CanSettle(c, Apply(c, s, step));
      steps := [step] + rest;
      assert steps[1..] == rest;
    }
  }

  lemma {:induction false} RunConcat(c: Config, s: State, a: seq<Step>, b: seq<Step>)
    requires ValidConfig(c) && IsRun(c, s, a) && IsRun(c, After(c, s, a), b)
    ensures IsRun(c, s, a + b) && After(c, s, a + b) == After(c, After(c, s, a), b)
    decreases |a|
  {
    hide Apply, Enabled;
    if a == [] {
      assert a + b == b;
    } else {
      assert (a + b)[1..] == a[1..] + b;
      RunConcat(c, Apply(c, s, a[0]), a[1..], b);
    }
  }

  /**
   * Eventual convergence: once input stops, a run of internal steps can only be so long, and if it stops
   * because nothing more is enabled, every client still connected is up to date unless its cursor promised more
   * than it held; if the client joined honestly, it is up to date.
   */
  lemma EventualConvergence(c: Config, past: seq<Step>, future: seq<Step>)
    requires ValidConfig(c) && IsRun(c, INITIAL, past) && IsRun(c, After(c, INITIAL, past), future)
    requires forall step <- future :: Internal(step)
    ensures |future| <= WorkLeft(c, After(c, INITIAL, past))
    ensures var s := After(c, After(c, INITIAL, past), future);
            Stuck(c, s) && s.log != [] ==>
              forall k <- s.clients :: Attached(s, k) && s.clients[k].connection.value in s.registered ==>
                (UpToDate(s, k) <==> !LeftBehind(s, k)) && (JoinsHonestly(past, k) ==> UpToDate(s, k))
  {
    hide Apply, Enabled, Structure, WorkLeft, Settled, Safe, Accounted, IsRun, After, Stuck, UpToDate, LeftBehind;
    var s := After(c, After(c, INITIAL, past), future);
    ReachableIsSane(c, past);
    InternalRunsAreBounded(c, After(c, INITIAL, past), future);
    RunConcat(c, INITIAL, past, future);
    ReachableIsSane(c, past + future);
    if Stuck(c, s) && s.log != [] {
      StuckMeansSettled(c, s);
      forall k | Attached(s, k) && s.clients[k].connection.value in s.registered
        ensures (UpToDate(s, k) <==> !LeftBehind(s, k)) && (JoinsHonestly(past, k) ==> UpToDate(s, k))
      {
        SettledUnlessLeftBehind(c, past + future, k);
        if JoinsHonestly(past, k) {
          assert forall step :: step in past + future ==> step in past || step in future;
          SettledMeansConverged(c, past + future, k);
        }
      }
    }
  }
}
