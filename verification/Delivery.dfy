/**
 * Ruleset delivery as interleaved atomic steps, for one environment: publishes that
 * overlap, broadcasts that walk the shards one lock at a time and send to one subscriber
 * at a time, evictions after the walk, connections that subscribe before they replay, and
 * clients that drop, reconnect with the id of the last frame they read, and guard versions.
 */
module Delivery {
  import opened Text
  import opened Store

  datatype Config = Config(shards: nat, bufferSize: nat, historySize: nat, shardOf: nat -> nat)

  ghost predicate ValidConfig(c: Config) {
    && c.shards > 0 && c.bufferSize > 0 && c.historySize > 0
    && forall id :: c.shardOf(id) < c.shards
  }

  datatype Frame = Ruleset(version: int) | Resync

  /** Where the connection's handler is. */
  datatype Phase = Replaying | Resyncing | Streaming | Returning | Closed

  /** One stream connection: its subscriber, its handler and the frames written but not yet read. */
  datatype Connection = Connection(
    client: nat,
    cursor: int,
    phase: Phase,
    buffer: seq<int>,
    done: bool,
    slow: bool,
    wire: seq<Frame>)

  /** A client holds a version (-1 for none), the id of the last frame it read, and at most one connection. */
  datatype Client = Client(bootstrap: int, version: int, cursor: int, connection: Option<nat>)

  /** A broadcast stands before a shard, or holds that shard's read lock with subscribers still to send to. */
  datatype Broadcast = Broadcast(version: int, shard: nat, holding: bool, todo: set<nat>, evict: set<nat>)

  datatype State = State(
    log: seq<Snapshot>,
    broadcasts: map<nat, Broadcast>,
    nextBroadcast: nat,
    connections: map<nat, Connection>,
    nextId: nat,
    registered: set<nat>,
    uncounted: set<nat>,
    closing: set<(nat, bool)>,
    clients: map<nat, Client>,
    connected: int,
    totalDropped: nat,
    slowConsumers: nat,
    dropped: set<nat>,
    slowDropped: set<nat>,
    shutDown: set<nat>)

  const INITIAL: State := State([], map[], 0, map[], 0, {}, {}, {}, map[], 0, 0, 0, {}, {}, {})

  datatype Step =
    | Publish(snapshot: Snapshot)
    | LockShard(b: nat)
    | Send(b: nat, id: nat)
    | UnlockShard(b: nat)
    | Evict(b: nat, id: nat)
    | FinishBroadcast(b: nat)
    | CloseSubscriber(id: nat, slow: bool)
    | Join(client: nat, bootstrap: int, cursor: int)
    | Subscribe(client: nat)
    | Count(id: nat)
    | ReplayHistory(id: nat)
    | ReadCurrent(id: nat)
    | Deliver(id: nat)
    | SeeDone(id: nat)
    | SeeHangup(id: nat)
    | Unsubscribe(id: nat)
    | Receive(client: nat)
    | Disconnect(client: nat)
    | CloseShard(shard: nat)

  /** A step of one broadcast. */
  predicate BroadcastStep(step: Step) {
    step.LockShard? || step.Send? || step.UnlockShard? || step.Evict? || step.FinishBroadcast?
  }

  /** A step of one connection's handler, short of unsubscribing. */
  predicate HandlerStep(step: Step) {
    step.CloseSubscriber? || step.ReplayHistory? || step.ReadCurrent? || step.Deliver? || step.SeeDone?
      || step.SeeHangup?
  }

  function CurrentVersion(s: State): int {
    CurrentOf(s.log).version
  }

  /** No broadcast holds the read lock, so a writer can take the shard. */
  predicate Unlocked(s: State, shard: nat) {
    forall b <- s.broadcasts :: s.broadcasts[b].holding ==> s.broadcasts[b].shard != shard
  }

  predicate Enabled(c: Config, s: State, step: Step) {
    match step
    case Publish(snapshot) => snapshot.version > 0 && snapshot.version > CurrentVersion(s)
    case LockShard(b) => b in s.broadcasts && !s.broadcasts[b].holding && s.broadcasts[b].shard < c.shards
    case Send(b, id) => b in s.broadcasts && s.broadcasts[b].holding && id in s.broadcasts[b].todo
      && id in s.connections
    case UnlockShard(b) => b in s.broadcasts && s.broadcasts[b].holding && s.broadcasts[b].todo == {}
    case Evict(b, id) =>
      && b in s.broadcasts && s.broadcasts[b].shard == c.shards && !s.broadcasts[b].holding
         && id in s.broadcasts[b].evict
      && Unlocked(s, c.shardOf(id))
    case FinishBroadcast(b) =>
      b in s.broadcasts && s.broadcasts[b].shard == c.shards && !s.broadcasts[b].holding && s.broadcasts[b].evict == {}
    case CloseSubscriber(id, slow) => (id, slow) in s.closing && id in s.connections
    case Join(client, bootstrap, cursor) => client !in s.clients && bootstrap >= -1
    case Subscribe(client) => client in s.clients && s.clients[client].connection == None
      && Unlocked(s, c.shardOf(s.nextId))
    case Count(id) => id in s.uncounted
    case ReplayHistory(id) => id in s.connections && s.connections[id].phase == Replaying && id !in s.uncounted
    case ReadCurrent(id) => id in s.connections && s.connections[id].phase == Resyncing
    case Deliver(id) => id in s.connections && s.connections[id].phase == Streaming && s.connections[id].buffer != []
    case SeeDone(id) => id in s.connections && s.connections[id].phase == Streaming && s.connections[id].done
    case SeeHangup(id) => id in s.connections && s.connections[id].phase == Streaming
    case Unsubscribe(id) => id in s.connections && s.connections[id].phase == Returning && Unlocked(s, c.shardOf(id))
    case Receive(client) =>
      && client in s.clients && s.clients[client].connection.Some?
      && s.clients[client].connection.value in s.connections
      && s.connections[s.clients[client].connection.value].wire != []
    case Disconnect(client) => client in s.clients && s.clients[client].connection.Some?
    case CloseShard(shard) => Unlocked(s, shard)
  }

  function Versions(snapshots: seq<Snapshot>): (r: seq<Frame>)
    ensures |r| == |snapshots|
  {
    seq(|snapshots|, i requires 0 <= i < |snapshots| => Ruleset(snapshots[i].version))
  }

  /** The frames that replaying writes, or None when the handler goes on to fetch the current snapshot. */
  function ReplayFrames(log: seq<Snapshot>, historySize: nat, cursor: int): Option<seq<Frame>>
    requires historySize > 0
  {
    if cursor <= 0 then Some(if log == [] then [] else [Ruleset(CurrentOf(log).version)])
    else
      match ResumeOf(log, historySize, cursor)
      case UnknownEnvironment => Some([])
      case FullResync => None
      case Replay(missed) => Some(Versions(missed))
  }

  /** Dropping a subscriber from its shard's map, with the counters that go with it, then leaving its close to do. */
  function Remove(s: State, id: nat, slow: bool): State {
    if id in s.registered then
      s.(registered := s.registered - {id},
         connected := s.connected - 1,
         totalDropped := s.totalDropped + 1,
         slowConsumers := s.slowConsumers + if slow then 1 else 0,
         dropped := s.dropped + {id},
         slowDropped := s.slowDropped + if slow then {id} else {},
         closing := s.closing + {(id, slow)})
    else s.(closing := s.closing + {(id, slow)})
  }

  /** close runs once: the first reason stays. */
  function CloseOnce(conn: Connection, slow: bool): Connection {
    if conn.done then conn else conn.(done := true, slow := slow)
  }

  /** The version guard of the client. */
  function ApplyVersion(held: int, next: int): int {
    if held != -1 && next <= held then held else next
  }

  function Members(c: Config, s: State, shard: nat): set<nat> {
    set id | id in s.registered && c.shardOf(id) == shard
  }

  function UpdateBroadcast(s: State, b: nat, broadcast: Broadcast): State {
    s.(broadcasts := s.broadcasts[b := broadcast])
  }

  function UpdateConnection(s: State, id: nat, conn: Connection): State {
    s.(connections := s.connections[id := conn])
  }

  function UpdateClient(s: State, client: nat, record: Client): State {
    s.(clients := s.clients[client := record])
  }

  function SendOne(c: Config, s: State, b: nat, id: nat): State
    requires b in s.broadcasts && id in s.connections
  {
    var broadcast, conn := s.broadcasts[b], s.connections[id];
    var rest := broadcast.(todo := broadcast.todo - {id});
    if |conn.buffer| < c.bufferSize then
      UpdateConnection(UpdateBroadcast(s, b, rest), id, conn.(buffer := conn.buffer + [broadcast.version]))
    else UpdateBroadcast(s, b, rest.(evict := rest.evict + {id}))
  }

  function ReceiveOne(s: State, client: nat): State
    requires client in s.clients && s.clients[client].connection.Some?
    requires s.clients[client].connection.value in s.connections
    requires s.connections[s.clients[client].connection.value].wire != []
  {
    var record := s.clients[client];
    var id := record.connection.value;
    var conn := s.connections[id];
    var read := UpdateConnection(s, id, conn.(wire := conn.wire[1..]));
    match conn.wire[0]
    case Resync => read
    case Ruleset(v) => UpdateClient(read, client, record.(version := ApplyVersion(record.version, v), cursor := v))
  }

  function CloseMembers(s: State, members: set<nat>): State {
    s.(registered := s.registered - members,
       connected := s.connected - |members|,
       shutDown := s.shutDown + members,
       connections := map id | id in s.connections ::
         if id in members then CloseOnce(s.connections[id], false) else s.connections[id])
  }

  function Apply(c: Config, s: State, step: Step): State
    requires c.historySize > 0 && Enabled(c, s, step)
  {
    match step
    case Publish(snapshot) =>
      s.(log := s.log + [snapshot],
         broadcasts := s.broadcasts[s.nextBroadcast := Broadcast(snapshot.version, 0, false, {}, {})],
         nextBroadcast := s.nextBroadcast + 1)
    case LockShard(b) =>
      UpdateBroadcast(s, b, s.broadcasts[b].(holding := true, todo := Members(c, s, s.broadcasts[b].shard)))
    case Send(b, id) => SendOne(c, s, b, id)
    case UnlockShard(b) =>
      UpdateBroadcast(s, b, s.broadcasts[b].(holding := false, shard := s.broadcasts[b].shard + 1))
    case Evict(b, id) =>
      Remove(UpdateBroadcast(s, b, s.broadcasts[b].(evict := s.broadcasts[b].evict - {id})), id, true)
    case FinishBroadcast(b) => s.(broadcasts := s.broadcasts - {b})
    case CloseSubscriber(id, slow) =>
      UpdateConnection(s.(closing := s.closing - {(id, slow)}), id, CloseOnce(s.connections[id], slow))
    case Join(client, bootstrap, cursor) => UpdateClient(s, client, Client(bootstrap, bootstrap, cursor, None))
    case Subscribe(client) =>
      var id := s.nextId;
      UpdateClient(
        s.(connections := s.connections[id := Connection(client, s.clients[client].cursor, Replaying, [], false,
          false, [])],
           nextId := id + 1,
           registered := s.registered + {id},
           uncounted := s.uncounted + {id}),
        client, s.clients[client].(connection := Some(id)))
    case Count(id) => s.(uncounted := s.uncounted - {id}, connected := s.connected + 1)
    case ReplayHistory(id) =>
      var conn := s.connections[id];
      (match ReplayFrames(s.log, c.historySize, conn.cursor)
       case None => UpdateConnection(s, id, conn.(phase := Resyncing))
       case Some(frames) => UpdateConnection(s, id, conn.(phase := Streaming, wire := conn.wire + frames)))
    case ReadCurrent(id) =>
      var conn := s.connections[id];
      UpdateConnection(s, id, conn.(phase := Streaming,
                                    wire := conn.wire + if s.log == [] then [] else [Ruleset(CurrentVersion(s))]))
    case Deliver(id) =>
      var conn := s.connections[id];
      UpdateConnection(s, id, conn.(buffer := conn.buffer[1..], wire := conn.wire + [Ruleset(conn.buffer[0])]))
    case SeeDone(id) =>
      var conn := s.connections[id];
      UpdateConnection(s, id, conn.(phase := Returning, wire := conn.wire + if conn.slow then [Resync] else []))
    case SeeHangup(id) => UpdateConnection(s, id, s.connections[id].(phase := Returning))
    case Unsubscribe(id) => Remove(UpdateConnection(s, id, s.connections[id].(phase := Closed)), id, false)
    case Receive(client) => ReceiveOne(s, client)
    case Disconnect(client) => UpdateClient(s, client, s.clients[client].(connection := None))
    case CloseShard(shard) => CloseMembers(s, Members(c, s, shard))
  }

  // ----- runs

  ghost predicate IsRun(c: Config, s: State, steps: seq<Step>)
    requires c.historySize > 0
    decreases |steps|
  {
    steps == [] || (Enabled(c, s, steps[0]) && IsRun(c, Apply(c, s, steps[0]), steps[1..]))
  }

  ghost function After(c: Config, s: State, steps: seq<Step>): State
    requires c.historySize > 0 && IsRun(c, s, steps)
    decreases |steps|
  {
    if steps == [] then s else After(c, Apply(c, s, steps[0]), steps[1..])
  }
}
