/**
 * Clients that keep reconnecting. An evicted client drops the closed connection and subscribes again, and may be
 * evicted again; still, once publishing stops, every schedule comes to rest, and then every client is current.
 */
module DeliveryReconnect {
  import opened Text
  import opened Store
  import opened Delivery
  import opened DeliverySafety
  import opened HubAccounting
  import opened HubRuns
  import opened DeliveryProgress
  import opened Sums

  /** No client is on the connection's other end. */
  ghost predicate Abandoned(s: State, id: nat) {
    forall k <- s.clients :: s.clients[k].connection != Some(id)
  }

  /** The server has closed the client's connection, and the client has read all of it. */
  predicate ReadToTheEnd(s: State, k: nat) {
    && k in s.clients && s.clients[k].connection.Some?
    && s.clients[k].connection.value in s.connections
    && s.connections[s.clients[k].connection.value].phase == Closed
    && s.connections[s.clients[k].connection.value].wire == []
  }

  /**
   * What goes on without publishes, new clients or a wish to leave: reconnecting and noticing that a peer is gone
   * included.
   */
  ghost predicate Settles(s: State, step: Step) {
    match step
    case Disconnect(k) => ReadToTheEnd(s, k)
    case Subscribe(_) => true
    case SeeHangup(id) => Abandoned(s, id)
    case _ => Internal(step)
  }

  // ----- who has left the registry is on the way out

  ghost predicate Leaving(s: State, id: nat)
    requires id in s.connections
  {
    s.connections[id].done || s.connections[id].phase == Closed || (id, true) in s.closing || (id, false) in s.closing
  }

  ghost predicate LeaversClosing(s: State) {
    forall id <- s.connections :: id !in s.registered ==> Leaving(s, id)
  }

  lemma BroadcastLeaversKept(c: Config, s: State, step: Step)
    requires ValidConfig(c) && LeaversClosing(s) && Enabled(c, s, step) && BroadcastStep(step)
    ensures LeaversClosing(Apply(c, s, step))
  {
    hide Unlocked, ReplayFrames, Members, CurrentOf;
    var t := Apply(c, s, step);
    forall id | id in t.connections && id !in t.registered ensures Leaving(t, id) {
      assert id !in s.registered ==> Leaving(s, id);
    }
  }

  lemma HandlerLeaversKept(c: Config, s: State, step: Step)
    requires ValidConfig(c) && LeaversClosing(s) && Enabled(c, s, step) && HandlerStep(step)
    ensures LeaversClosing(Apply(c, s, step))
  {
    hide Unlocked, ReplayFrames, Members, CurrentOf;
    var t := Apply(c, s, step);
    forall id | id in t.connections && id !in t.registered ensures Leaving(t, id) {
      assert Leaving(s, id);
    }
  }

  lemma OtherLeaversKept(c: Config, s: State, step: Step)
    requires ValidConfig(c) && LeaversClosing(s) && Enabled(c, s, step) && !BroadcastStep(step) && !HandlerStep(step)
    ensures LeaversClosing(Apply(c, s, step))
  {
    hide Unlocked, ReplayFrames, CurrentOf;
    var t := Apply(c, s, step);
    forall id | id in t.connections && id !in t.registered ensures Leaving(t, id) {
      assert id in s.connections && id !in s.registered ==> Leaving(s, id);
    }
  }

  /** The protocol's invariants and what reconnecting adds to them. */
  ghost predicate Ready(c: Config, s: State) {
    Sane(c, s) && LeaversClosing(s)
  }

  lemma ReadyKept(c: Config, s: State, step: Step)
    requires ValidConfig(c) && Ready(c, s) && Enabled(c, s, step)
    ensures Ready(c, Apply(c, s, step))
  {
    hide Apply, Enabled, Sane, LeaversClosing;
    SaneKept(c, s, step);
    if BroadcastStep(step) {
      BroadcastLeaversKept(c, s, step);
    } else if HandlerStep(step) {
      HandlerLeaversKept(c, s, step);
    } else {
      OtherLeaversKept(c, s, step);
    }
  }

  lemma {:induction false} RunsStayReady(c: Config, s: State, steps: seq<Step>)
    requires ValidConfig(c) && Ready(c, s) && IsRun(c, s, steps)
    ensures Ready(c, After(c, s, steps))
    decreases |steps|
  {
    hide Apply, Enabled, Ready;
    if steps != [] {
      ReadyKept(c, s, steps[0]);
      RunsStayReady(c, Apply(c, s, steps[0]), steps[1..]);
    }
  }

  lemma InitiallyReady(c: Config)
    requires ValidConfig(c)
    ensures Ready(c, INITIAL)
  {
    InitiallySafe(c);
  }

  // ----- a measure: what broadcasts have to walk, to send and to evict, then who has to reconnect, then the rest

  function Stage(shards: nat, b: Broadcast): nat {
    if b.shard <= shards then 2 * (shards - b.shard) + (if b.holding then 0 else 1) else 0
  }

  function Turns(b: Broadcast): nat {
    2 * |b.todo| + |b.evict|
  }

  /** The connection is off the registry, or its handler is about to take it off. */
  ghost predicate Doomed(s: State, id: nat)
    requires id in s.connections
  {
    id !in s.registered || s.connections[id].phase == Returning
  }

  ghost function Rank(s: State, k: nat): nat
    requires k in s.clients
  {
    if !Attached(s, k) then 1 else if Doomed(s, s.clients[k].connection.value) then 2 else 0
  }

  ghost function Stages(c: Config, s: State): map<nat, nat> {
    map b | b in s.broadcasts :: Stage(c.shards, s.broadcasts[b])
  }

  ghost function AllTurns(s: State): map<nat, nat> {
    map b | b in s.broadcasts :: Turns(s.broadcasts[b])
  }

  ghost function Ranks(s: State): map<nat, nat> {
    map k | k in s.clients :: Rank(s, k)
  }

  /** The measure goes down in lexicographic order. */
  ghost predicate Lower(c: Config, t: State, s: State) {
    var walk0, walk := Sum(Stages(c, t)), Sum(Stages(c, s));
    var turn0, turn := Sum(AllTurns(t)), Sum(AllTurns(s));
    var rank0, rank := Sum(Ranks(t)), Sum(Ranks(s));
    || walk0 < walk
    || (walk0 == walk && turn0 < turn)
    || (walk0 == walk && turn0 == turn && rank0 < rank)
    || (walk0 == walk && turn0 == turn && rank0 == rank && WorkLeft(c, t) < WorkLeft(c, s))
  }

  lemma OneStageLower(c: Config, s: State, t: State, b: nat)
    requires b in s.broadcasts && b in t.broadcasts && t.broadcasts == s.broadcasts[b := t.broadcasts[b]]
    requires Stage(c.shards, t.broadcasts[b]) < Stage(c.shards, s.broadcasts[b])
    ensures Lower(c, t, s)
  {
    hide Sum, Stage, AllTurns, Ranks, WorkLeft;
    SumLess(Stages(c, t), Stages(c, s), b);
  }

  lemma OneTurnLower(c: Config, s: State, t: State, b: nat)
    requires b in s.broadcasts && b in t.broadcasts && t.broadcasts == s.broadcasts[b := t.broadcasts[b]]
    requires Stage(c.shards, t.broadcasts[b]) == Stage(c.shards, s.broadcasts[b])
    requires Turns(t.broadcasts[b]) < Turns(s.broadcasts[b])
    ensures Lower(c, t, s)
  {
    hide Sum, Stage, Turns, Ranks, WorkLeft;
    assert Stages(c, t) == Stages(c, s);
    SumLess(AllTurns(t), AllTurns(s), b);
  }

  lemma FinishLower(c: Config, s: State, b: nat)
    requires ValidConfig(c) && Enabled(c, s, FinishBroadcast(b))
    ensures Lower(c, Apply(c, s, FinishBroadcast(b)), s)
  {
    hide Sum, AllTurns, Ranks, WorkLeft;
    var t := Apply(c, s, FinishBroadcast(b));
    SumWithout(Stages(c, s), b);
    assert Stages(c, t) == Stages(c, s) - {b};
  }

  lemma SendTurn(b: Broadcast, id: nat)
    requires id in b.todo
    ensures var rest := b.(todo := b.todo - {id});
            Turns(rest) < Turns(b) && Turns(rest.(evict := rest.evict + {id})) < Turns(b)
  {
    assert |b.todo - {id}| == |b.todo| - 1;
    assert |b.evict + {id}| <= |b.evict| + 1;
  }

  lemma EvictTurn(b: Broadcast, id: nat)
    requires id in b.evict
    ensures Turns(b.(evict := b.evict - {id})) < Turns(b)
  {
    assert |b.evict - {id}| == |b.evict| - 1;
  }

  lemma WalkLower(c: Config, s: State, step: Step)
    requires ValidConfig(c) && BroadcastsInOrder(c, s) && Enabled(c, s, step) && (step.LockShard? || step.UnlockShard?)
    ensures Lower(c, Apply(c, s, step), s)
  {
    assert BroadcastInOrder(c, s, s.broadcasts[step.b]);
    hide Lower, BroadcastsInOrder, Members;
    OneStageLower(c, s, Apply(c, s, step), step.b);
  }

  lemma SendLower(c: Config, s: State, b: nat, id: nat)
    requires ValidConfig(c) && Enabled(c, s, Send(b, id))
    ensures Lower(c, Apply(c, s, Send(b, id)), s)
  {
    hide Lower, Turns;
    SendTurn(s.broadcasts[b], id);
    OneTurnLower(c, s, SendOne(c, s, b, id), b);
  }

  lemma EvictLower(c: Config, s: State, b: nat, id: nat)
    requires ValidConfig(c) && Enabled(c, s, Evict(b, id))
    ensures Lower(c, Apply(c, s, Evict(b, id)), s)
  {
    hide Lower, Turns, Unlocked;
    EvictTurn(s.broadcasts[b], id);
    OneTurnLower(c, s, Apply(c, s, Evict(b, id)), b);
  }

  lemma BroadcastStepLower(c: Config, s: State, step: Step)
    requires ValidConfig(c) && BroadcastsInOrder(c, s) && Enabled(c, s, step) && BroadcastStep(step)
    ensures Lower(c, Apply(c, s, step), s)
  {
    hide BroadcastsInOrder, Lower, Enabled, Apply;
    match step {
      case Send(b, id) => SendLower(c, s, b, id);
      case Evict(b, id) => EvictLower(c, s, b, id);
      case FinishBroadcast(b) => FinishLower(c, s, b);
      case _ => WalkLower(c, s, step);
    }
  }

  // ----- reconnecting

  lemma SameBroadcasts(c: Config, s: State, t: State)
    requires t.broadcasts == s.broadcasts
    ensures Stages(c, t) == Stages(c, s) && AllTurns(t) == AllTurns(s)
  {
  }

  lemma OneRankLower(c: Config, s: State, t: State, k: nat)
    requires t.broadcasts == s.broadcasts && t.clients.Keys == s.clients.Keys && k in s.clients
    requires forall j <- s.clients :: Rank(t, j) <= Rank(s, j)
    requires Rank(t, k) < Rank(s, k)
    ensures Lower(c, t, s)
  {
    hide Sum, Rank, WorkLeft, Stages, AllTurns;
    SameBroadcasts(c, s, t);
    SumLess(Ranks(t), Ranks(s), k);
  }

  lemma SubscribeRank(c: Config, s: State, k: nat, j: nat)
    requires ValidConfig(c) && Structure(c, s) && Enabled(c, s, Subscribe(k)) && j in s.clients
    ensures var t := Apply(c, s, Subscribe(k));
            j in t.clients && Rank(t, j) <= Rank(s, j) && (j == k ==> Rank(t, j) == 0 && Rank(s, j) == 1)
  {
    hide Unlocked, Increasing, BroadcastsInOrder;
  }

  lemma SubscribeLower(c: Config, s: State, k: nat)
    requires ValidConfig(c) && Structure(c, s) && Enabled(c, s, Subscribe(k))
    ensures Lower(c, Apply(c, s, Subscribe(k)), s)
  {
    hide Structure, Lower, Rank, Unlocked;
    var t := Apply(c, s, Subscribe(k));
    forall j | j in s.clients ensures Rank(t, j) <= Rank(s, j) {
      SubscribeRank(c, s, k, j);
    }
    SubscribeRank(c, s, k, k);
    OneRankLower(c, s, t, k);
  }

  lemma DisconnectRank(c: Config, s: State, k: nat, j: nat)
    requires ValidConfig(c) && Enabled(c, s, Disconnect(k)) && ReadToTheEnd(s, k) && j in s.clients
    requires ConnectionAccounted(c, s, s.clients[k].connection.value)
    ensures var t := Apply(c, s, Disconnect(k));
            && t.broadcasts == s.broadcasts && t.clients.Keys == s.clients.Keys
            && Rank(t, j) <= Rank(s, j) && (j == k ==> Rank(t, j) == 1 && Rank(s, j) == 2)
  {
  }

  lemma DisconnectLower(c: Config, s: State, k: nat)
    requires ValidConfig(c) && Accounted(c, s) && Enabled(c, s, Disconnect(k)) && ReadToTheEnd(s, k)
    ensures Lower(c, Apply(c, s, Disconnect(k)), s)
  {
    assert ConnectionAccounted(c, s, s.clients[k].connection.value);
    hide Lower, Rank, Accounted, ConnectionAccounted, Apply;
    var t := Apply(c, s, Disconnect(k));
    DisconnectRank(c, s, k, k);
    forall j | j in s.clients ensures Rank(t, j) <= Rank(s, j) {
      DisconnectRank(c, s, k, j);
    }
    OneRankLower(c, s, t, k);
  }

  // ----- the other steps

  /** Nobody's rank rises: clients keep their connections, and none they are on is newly doomed. */
  ghost predicate RanksKept(s: State, t: State) {
    && t.broadcasts == s.broadcasts && t.clients.Keys == s.clients.Keys
    && forall k <- s.clients :: Rank(t, k) <= Rank(s, k)
  }

  lemma KeptIsLower(c: Config, s: State, t: State)
    requires RanksKept(s, t) && WorkLeft(c, t) < WorkLeft(c, s)
    ensures Lower(c, t, s)
  {
    hide Sum, Rank, WorkLeft, Stages, AllTurns;
    SameBroadcasts(c, s, t);
    SumMonotone(Ranks(t), Ranks(s));
  }

  lemma HandlerRanksKept(c: Config, s: State, step: Step)
    requires ValidConfig(c) && Accounted(c, s) && Enabled(c, s, step) && HandlerStep(step) && Settles(s, step)
    ensures RanksKept(s, Apply(c, s, step))
  {
    hide Unlocked, ReplayFrames, CurrentOf, RegistrationsAccounted, CountersAccounted;
    var t := Apply(c, s, step);
    assert ConnectionAccounted(c, s, step.id);
    forall k | k in s.clients ensures k in t.clients && Rank(t, k) <= Rank(s, k) {
      assert step.SeeHangup? ==> s.clients[k].connection != Some(step.id);
    }
  }

  lemma PlainRanksKept(c: Config, s: State, step: Step)
    requires ValidConfig(c) && Enabled(c, s, step) && (step.Count? || step.Receive? || step.Unsubscribe?)
    ensures RanksKept(s, Apply(c, s, step))
  {
    hide Unlocked;
    var t := Apply(c, s, step);
    forall k | k in s.clients ensures k in t.clients && Rank(t, k) <= Rank(s, k) {}
  }

  lemma OtherStepLower(c: Config, s: State, step: Step)
    requires ValidConfig(c) && Sane(c, s) && Enabled(c, s, step) && Settles(s, step)
    requires !BroadcastStep(step) && !step.Subscribe? && !step.Disconnect?
    ensures Lower(c, Apply(c, s, step), s)
  {
    hide Apply, Enabled, Safe, Accounted, TodoOnlyInside, Structure, Lower, RanksKept, WorkLeft, Abandoned;
    StructureOf(c, s);
    SaneKept(c, s, step);
    StructureOf(c, Apply(c, s, step));
    if HandlerStep(step) {
      HandlerRanksKept(c, s, step);
    } else {
      PlainRanksKept(c, s, step);
    }
    if step.SeeHangup? {
      FrameLightens(c, s, step);
    } else {
      InternalStepLightens(c, s, step);
    }
    KeptIsLower(c, s, Apply(c, s, step));
  }

  /** Every settling step brings the measure down. */
  lemma SettlingStepLower(c: Config, s: State, step: Step)
    requires ValidConfig(c) && Sane(c, s) && Enabled(c, s, step) && Settles(s, step)
    ensures Lower(c, Apply(c, s, step), s)
  {
    hide Apply, Enabled, Safe, Accounted, TodoOnlyInside, Structure, Lower, ReadToTheEnd, Abandoned;
    StructureOf(c, s);
    if BroadcastStep(step) {
      BroadcastStepLower(c, s, step);
    } else if step.Subscribe? {
      SubscribeLower(c, s, step.client);
    } else if step.Disconnect? {
      DisconnectLower(c, s, step.client);
    } else {
      OtherStepLower(c, s, step);
    }
  }

  // ----- at rest

  ghost predicate Quiet(c: Config, s: State) {
    forall step: Step :: Settles(s, step) ==> !Enabled(c, s, step)
  }

  lemma QuietIsStuck(c: Config, s: State)
    requires Quiet(c, s)
    ensures Stuck(c, s)
  {
    hide Enabled;
    forall step: Step | Internal(step) ensures !Enabled(c, s, step) {
      assert Settles(s, step);
    }
  }

  /** At rest every client is on a connection. */
  lemma QuietIsAttached(c: Config, s: State, k: nat)
    requires Structure(c, s) && Quiet(c, s) && s.broadcasts == map[] && k in s.clients
    ensures Attached(s, k)
  {
    hide Increasing, BroadcastsInOrder, ConnectionsInOrder;
    assert Settles(s, Subscribe(k));
    assert !Enabled(c, s, Subscribe(k));
  }

  /** At rest no handler is under way, no close is pending, and an unread connection would be read. */
  lemma QuietConnection(c: Config, s: State, id: nat)
    requires Stuck(c, s) && s.broadcasts == map[] && id in s.connections && LeaversClosing(s) && id !in s.registered
    ensures s.connections[id].phase == Closed
  {
    assert !Enabled(c, s, CloseSubscriber(id, true));
    assert !Enabled(c, s, CloseSubscriber(id, false));
    assert Leaving(s, id);
    assert !Enabled(c, s, Count(id));
    assert !Enabled(c, s, ReplayHistory(id));
    assert !Enabled(c, s, ReadCurrent(id));
    assert !Enabled(c, s, SeeDone(id));
    assert !Enabled(c, s, Unsubscribe(id));
  }

  /** At rest every client is on a registered connection: one whose connection was closed would reconnect. */
  lemma QuietIsRegistered(c: Config, s: State, k: nat)
    requires Quiet(c, s) && Stuck(c, s) && s.broadcasts == map[] && Attached(s, k) && LeaversClosing(s)
    ensures s.clients[k].connection.value in s.registered
  {
    hide LeaversClosing, Stuck, Settles, Enabled;
    var id := s.clients[k].connection.value;
    if id !in s.registered {
      QuietConnection(c, s, id);
      NothingUnread(c, s, k);
      ClosedCanBeDropped(c, s, k);
    }
  }

  lemma ClosedCanBeDropped(c: Config, s: State, k: nat)
    requires Attached(s, k) && s.connections[s.clients[k].connection.value].phase == Closed
    requires s.connections[s.clients[k].connection.value].wire == []
    ensures Settles(s, Disconnect(k)) && Enabled(c, s, Disconnect(k))
  {
  }

  lemma NothingUnread(c: Config, s: State, k: nat)
    requires Stuck(c, s) && Attached(s, k)
    ensures s.connections[s.clients[k].connection.value].wire == []
  {
    assert !Enabled(c, s, Receive(k));
  }

  /** At rest, everything has settled and every client is on a registered connection. */
  lemma QuietMeansSettled(c: Config, s: State)
    requires ValidConfig(c) && Ready(c, s) && Quiet(c, s)
    ensures Settled(s) && forall k <- s.clients :: Attached(s, k) && s.clients[k].connection.value in s.registered
  {
    hide Quiet, Stuck, Structure, Safe, Accounted, TodoOnlyInside, LeaversClosing, Settled;
    QuietIsStuck(c, s);
    StructureOf(c, s);
    NoBroadcasts(c, s);
    StuckMeansSettled(c, s);
    forall k | k in s.clients ensures Attached(s, k) && s.clients[k].connection.value in s.registered {
      QuietIsAttached(c, s, k);
      QuietIsRegistered(c, s, k);
    }
  }

  // ----- schedules

  /** A run of settling steps. */
  ghost predicate SettlingRun(c: Config, s: State, steps: seq<Step>)
    requires c.historySize > 0
    decreases |steps|
  {
    steps == [] ||
    (Enabled(c, s, steps[0]) && Settles(s, steps[0]) && SettlingRun(c, Apply(c, s, steps[0]), steps[1..]))
  }

  lemma {:induction false} OneStepLonger(c: Config, s: State, steps: seq<Step>, step: Step)
    requires c.historySize > 0 && SettlingRun(c, s, steps) && IsRun(c, s, steps)
    requires Enabled(c, After(c, s, steps), step) && Settles(After(c, s, steps), step)
    ensures SettlingRun(c, s, steps + [step]) && IsRun(c, s, steps + [step])
    ensures After(c, s, steps + [step]) == Apply(c, After(c, s, steps), step)
    decreases |steps|
  {
    hide Apply, Enabled, Settles;
    var longer := steps + [step];
    if steps == [] {
      assert longer[0] == step && longer[1..] == [];
    } else {
      assert longer[0] == steps[0] && longer[1..] == steps[1..] + [step];
      OneStepLonger(c, Apply(c, s, steps[0]), steps[1..], step);
    }
  }

  /** A schedule chooses the next step from the steps so far. */
  type Schedule = seq<Step> -> Step

  ghost predicate Follows(schedule: Schedule, steps: seq<Step>) {
    forall i :: 0 <= i < |steps| ==> steps[i] == schedule(steps[..i])
  }

  /** As long as something settling can be done, the schedule does something settling. */
  ghost predicate Diligent(c: Config, s: State, schedule: Schedule)
    requires c.historySize > 0
  {
    forall steps :: SettlingRun(c, s, steps) && IsRun(c, s, steps) && !Quiet(c, After(c, s, steps)) ==>
      Enabled(c, After(c, s, steps), schedule(steps)) && Settles(After(c, s, steps), schedule(steps))
  }

  /** Whatever a diligent schedule chooses, it comes to rest. */
  lemma {:induction false} ScheduleComesToRest(c: Config, s: State, schedule: Schedule, sofar: seq<Step>, t: State)
    returns (steps: seq<Step>)
    requires ValidConfig(c) && Diligent(c, s, schedule) && Follows(schedule, sofar)
    requires SettlingRun(c, s, sofar) && IsRun(c, s, sofar) && t == After(c, s, sofar) && Ready(c, t)
    ensures SettlingRun(c, s, steps) && IsRun(c, s, steps) && Follows(schedule, steps)
    ensures Quiet(c, After(c, s, steps))
    decreases Sum(Stages(c, t)), Sum(AllTurns(t)), Sum(Ranks(t)), WorkLeft(c, t)
  {
    hide Apply, Enabled, Settles, SettlingRun, IsRun, After, Quiet, Sane, LeaversClosing, Sum, WorkLeft, Stages,
         AllTurns, Ranks;
    if Quiet(c, t) {
      steps := sofar;
    } else {
      var step := schedule(sofar);
      assert Enabled(c, t, step) && Settles(t, step);
      OneStepLonger(c, s, sofar, step);
      ReadyKept(c, t, step);
      SettlingStepLower(c, t, step);
      OneMoreFollows(schedule, sofar);
      steps := ScheduleComesToRest(c, s, schedule, sofar + [step], Apply(c, t, step));
    }
  }

  lemma OneMoreFollows(schedule: Schedule, steps: seq<Step>)
    requires Follows(schedule, steps)
    ensures Follows(schedule, steps + [schedule(steps)])
  {
    var longer := steps + [schedule(steps)];
    forall i | 0 <= i < |longer| ensures longer[i] == schedule(longer[..i]) {
      assert longer[..i] == steps[..i];
      assert i == |steps| ==> steps[..i] == steps;
    }
  }

  lemma ServerStepKeepsLog(c: Config, s: State, step: Step)
    requires ValidConfig(c) && Enabled(c, s, step) && (BroadcastStep(step) || HandlerStep(step))
    ensures Apply(c, s, step).log == s.log && Apply(c, s, step).clients == s.clients
  {
    hide Unlocked, ReplayFrames, CurrentOf, Members;
  }

  lemma ClientStepKeepsLog(c: Config, s: State, step: Step)
    requires ValidConfig(c) && Enabled(c, s, step)
    requires step.Subscribe? || step.Count? || step.Unsubscribe? || step.Receive? || step.Disconnect?
    ensures Apply(c, s, step).log == s.log && Apply(c, s, step).clients.Keys == s.clients.Keys
  {
    hide Unlocked;
  }

  /** Settling publishes nothing, and no client comes or goes for good. */
  lemma SettlingKeepsLog(c: Config, s: State, step: Step)
    requires ValidConfig(c) && Enabled(c, s, step) && Settles(s, step)
    ensures Apply(c, s, step).log == s.log && Apply(c, s, step).clients.Keys == s.clients.Keys
  {
    hide Apply, Enabled, ReadToTheEnd, Abandoned;
    if BroadcastStep(step) || HandlerStep(step) {
      ServerStepKeepsLog(c, s, step);
    } else {
      ClientStepKeepsLog(c, s, step);
    }
  }

  lemma {:induction false} SettlingRunKeepsLog(c: Config, s: State, steps: seq<Step>)
    requires ValidConfig(c) && SettlingRun(c, s, steps) && IsRun(c, s, steps)
    ensures After(c, s, steps).log == s.log && After(c, s, steps).clients.Keys == s.clients.Keys
    decreases |steps|
  {
    hide Apply, Enabled, Settles;
    if steps != [] {
      SettlingKeepsLog(c, s, steps[0]);
      SettlingRunKeepsLog(c, Apply(c, s, steps[0]), steps[1..]);
    }
  }

  lemma {:induction false} NobodyJoins(c: Config, s: State, steps: seq<Step>)
    requires ValidConfig(c) && SettlingRun(c, s, steps)
    ensures forall step <- steps :: !step.Join?
    decreases |steps|
  {
    hide Apply, Enabled;
    if steps != [] {
      NobodyJoins(c, Apply(c, s, steps[0]), steps[1..]);
    }
  }

  /**
   * After any run, let publishing stop and clients reconnect whenever the server closes on them. Whatever is scheduled
   * when, evictions and all, the protocol comes to rest, and then every client is up to date unless its cursor promised
   * more than it held; if the client joined honestly, it is up to date.
   */
  lemma ReconnectingClientsConverge(c: Config, past: seq<Step>, schedule: Schedule) returns (future: seq<Step>)
    requires ValidConfig(c) && IsRun(c, INITIAL, past) && Diligent(c, After(c, INITIAL, past), schedule)
    ensures var s := After(c, INITIAL, past);
            SettlingRun(c, s, future) && IsRun(c, s, future) && Follows(schedule, future)
    ensures var s, t := After(c, INITIAL, past), After(c, After(c, INITIAL, past), future);
            && Quiet(c, t) && t.log == s.log && t.clients.Keys == s.clients.Keys
            && (s.log != [] ==>
                 forall k <- t.clients ::
                   && Attached(t, k)
                   && (UpToDate(t, k) <==> !LeftBehind(t, k)) && (JoinsHonestly(past, k) ==> UpToDate(t, k)))
  {
    hide Apply, Enabled, IsRun, After, Settles, SettlingRun, Quiet, Diligent, Ready, Settled, UpToDate, LeftBehind;
    var s := After(c, INITIAL, past);
    InitiallyReady(c);
    RunsStayReady(c, INITIAL, past);
    NoStepsYet(c, s, schedule);
    future := ScheduleComesToRest(c, s, schedule, [], s);
    var t := After(c, s, future);
    SettlingRunKeepsLog(c, s, future);
    RunConcat(c, INITIAL, past, future);
    RunsStayReady(c, INITIAL, past + future);
    QuietMeansSettled(c, t);
    NobodyJoins(c, s, future);
    if s.log != [] {
      forall k | k in t.clients
        ensures Attached(t, k)
        ensures (UpToDate(t, k) <==> !LeftBehind(t, k)) && (JoinsHonestly(past, k) ==> UpToDate(t, k))
      {
        SettledUnlessLeftBehind(c, past + future, k);
        if JoinsHonestly(past, k) {
          assert forall step :: step in past + future ==> step in past || step in future;
          SettledMeansConverged(c, past + future, k);
        }
      }
    }
  }

  lemma NoStepsYet(c: Config, s: State, schedule: Schedule)
    requires c.historySize > 0
    ensures SettlingRun(c, s, []) && IsRun(c, s, []) && After(c, s, []) == s && Follows(schedule, [])
  {
  }
}
