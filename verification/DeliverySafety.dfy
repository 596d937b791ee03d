/** Convergence of the delivery protocol: what every step keeps, and what that means once things settle. */
module DeliverySafety {
  import opened Text
  import opened Store
  import opened Delivery

  /** Broadcasts stand within the shards and name known subscribers. */
  ghost predicate BroadcastsInOrder(c: Config, s: State) {
    && (forall b <- s.broadcasts :: b < s.nextBroadcast)
    && (forall b <- s.broadcasts :: BroadcastInOrder(c, s, s.broadcasts[b]))
  }

  ghost predicate BroadcastInOrder(c: Config, s: State, broadcast: Broadcast) {
    && broadcast.shard <= c.shards
    && (broadcast.holding ==> broadcast.shard < c.shards)
    && broadcast.todo <= s.connections.Keys
    && broadcast.evict <= s.connections.Keys
  }

  /** Connections have fresh ids and known clients; what refers to a connection refers to a known one. */
  ghost predicate ConnectionsInOrder(s: State) {
    && (forall id <- s.connections :: id < s.nextId && s.connections[id].client in s.clients)
    && s.registered <= s.connections.Keys
    && s.uncounted <= s.connections.Keys
    && (forall p <- s.closing :: p.0 in s.connections)
  }

  ghost predicate ClientsInOrder(s: State) {
    forall k <- s.clients :: s.clients[k].connection.Some? ==>
      s.clients[k].connection.value in s.connections && s.connections[s.clients[k].connection.value].client == k
  }

  ghost predicate Structure(c: Config, s: State) {
    Increasing(s.log) && BroadcastsInOrder(c, s) && ConnectionsInOrder(s) && ClientsInOrder(s)
  }

  /** v was accepted by the store. */
  ghost predicate Published(s: State, v: int) {
    exists i :: 0 <= i < |s.log| && s.log[i].version == v
  }

  /** Everything in flight was published. */
  ghost predicate InFlightKnown(s: State) {
    && (forall b <- s.broadcasts :: Published(s, s.broadcasts[b].version))
    && (forall id <- s.connections, v <- s.connections[id].buffer :: Published(s, v))
    && (forall id <- s.connections, f <- s.connections[id].wire :: f.Ruleset? ==> Published(s, f.version))
  }

  ghost predicate Attached(s: State, k: nat) {
    k in s.clients && s.clients[k].connection.Some? && s.clients[k].connection.value in s.connections
  }

  /** A client holds its bootstrap or something published. */
  ghost predicate ClientKnown(s: State, k: nat)
    requires k in s.clients
  {
    var client := s.clients[k];
    && (client.version == client.bootstrap || Published(s, client.version))
    && client.bootstrap <= client.version && -1 <= client.version
  }

  ghost predicate ClientKnownAll(s: State) {
    forall k <- s.clients :: ClientKnown(s, k)
  }

  /** A broadcast has still to send to the subscriber: its shard is ahead, or locked with the send to do. */
  ghost predicate Owes(c: Config, broadcast: Broadcast, id: nat) {
    || broadcast.shard < c.shardOf(id)
    || (broadcast.shard == c.shardOf(id) && (!broadcast.holding || id in broadcast.todo))
  }

  ghost predicate Pending(c: Config, s: State, id: nat, v: int) {
    exists b <- s.broadcasts :: s.broadcasts[b].version == v && Owes(c, s.broadcasts[b], id)
  }

  ghost predicate OnEvictList(s: State, id: nat) {
    exists b <- s.broadcasts :: id in s.broadcasts[b].evict
  }

  /** The connection will bring its client to v, or is on its way out. */
  ghost predicate OnTrack(c: Config, s: State, id: nat, v: int)
    requires id in s.connections && s.connections[id].client in s.clients
  {
    || s.clients[s.connections[id].client].version >= v
    || Ruleset(v) in s.connections[id].wire
    || v in s.connections[id].buffer
    || Pending(c, s, id, v)
    || OnEvictList(s, id)
    || id !in s.registered
  }

  /** The connection was opened with a cursor that nothing published so far has passed, so its replay sent nothing. */
  ghost predicate Ahead(s: State, id: nat)
    requires id in s.connections
  {
    CurrentVersion(s) <= s.connections[id].cursor
  }

  /** Every attached connection past its replay is on track for the store's current version, or opened ahead of it. */
  ghost predicate Converging(c: Config, s: State)
    requires Structure(c, s)
  {
    forall k <- s.clients :: Attached(s, k) && s.log != [] ==>
      var id := s.clients[k].connection.value;
      s.connections[id].phase == Streaming ==> OnTrack(c, s, id, CurrentVersion(s)) || Ahead(s, id)
  }

  ghost predicate Safe(c: Config, s: State) {
    Structure(c, s) && InFlightKnown(s) && ClientKnownAll(s) && Converging(c, s)
  }

  // ----- each step keeps the structure

  lemma ConnectionUpdateKeeps(c: Config, s: State, id: nat, conn: Connection)
    requires Structure(c, s) && id in s.connections && conn.client == s.connections[id].client
    ensures Structure(c, UpdateConnection(s, id, conn))
  {
    hide Increasing;
    assert UpdateConnection(s, id, conn).connections.Keys == s.connections.Keys;
  }

  lemma BroadcastUpdateKeeps(c: Config, s: State, b: nat, broadcast: Broadcast)
    requires Structure(c, s) && b in s.broadcasts && BroadcastInOrder(c, s, broadcast)
    ensures Structure(c, UpdateBroadcast(s, b, broadcast))
  {
    hide Increasing;
  }

  lemma ClientUpdateKeeps(c: Config, s: State, k: nat, record: Client)
    requires Structure(c, s)
    requires record.connection.Some? ==>
               record.connection.value in s.connections && s.connections[record.connection.value].client == k
    ensures Structure(c, UpdateClient(s, k, record))
  {
    hide Increasing;
  }

  lemma RemoveKeeps(c: Config, s: State, id: nat, slow: bool)
    requires Structure(c, s) && id in s.connections
    ensures Structure(c, Remove(s, id, slow))
  {
    hide Increasing;
  }

  lemma CloseMembersKeeps(c: Config, s: State, members: set<nat>)
    requires Structure(c, s)
    ensures Structure(c, CloseMembers(s, members))
  {
    hide Increasing;
    assert CloseMembers(s, members).connections.Keys == s.connections.Keys;
  }

  lemma PublishKeeps(c: Config, s: State, snapshot: Snapshot)
    requires ValidConfig(c) && Structure(c, s) && Enabled(c, s, Publish(snapshot))
    ensures Structure(c, Apply(c, s, Publish(snapshot)))
  {
    hide Increasing;
    IncreasingAppend(s.log, snapshot);
  }

  lemma SubscribeKeeps(c: Config, s: State, k: nat)
    requires ValidConfig(c) && Structure(c, s) && Enabled(c, s, Subscribe(k))
    ensures Structure(c, Apply(c, s, Subscribe(k)))
  {
    hide Increasing;
    assert s.nextId !in s.connections;
  }

  lemma ShrinkingKeeps(c: Config, s: State, step: Step)
    requires ValidConfig(c) && Structure(c, s) && Enabled(c, s, step)
    requires step.FinishBroadcast? || step.Count?
    ensures Structure(c, Apply(c, s, step))
  {
    hide Increasing;
  }

  lemma MembersKnown(c: Config, s: State, shard: nat)
    requires ConnectionsInOrder(s)
    ensures Members(c, s, shard) <= s.connections.Keys
  {
  }

  lemma StructureKept(c: Config, s: State, step: Step)
    requires ValidConfig(c) && Structure(c, s) && Enabled(c, s, step)
    ensures Structure(c, Apply(c, s, step))
  {
    hide Increasing, ReplayFrames, Unlocked, CurrentOf, ValidConfig, Members;
    if HandlerStep(step) {
      HandlerKeeps(c, s, step);
      return;
    }
    match step {
      case Publish(snapshot) => PublishKeeps(c, s, snapshot);
      case LockShard(b) =>
        MembersKnown(c, s, s.broadcasts[b].shard);
        BroadcastUpdateKeeps(c, s, b, s.broadcasts[b].(holding := true, todo := Members(c, s, s.broadcasts[b].shard)));
      case Send(b, id) => SendKeeps(c, s, b, id);
      case UnlockShard(b) =>
        BroadcastUpdateKeeps(c, s, b, s.broadcasts[b].(holding := false, shard := s.broadcasts[b].shard + 1));
      case Evict(b, id) => EvictKeeps(c, s, b, id);
      case FinishBroadcast(_) => ShrinkingKeeps(c, s, step);
      case Join(client, bootstrap, cursor) => ClientUpdateKeeps(c, s, client,
        Client(bootstrap, bootstrap, cursor, None));
      case Subscribe(client) => SubscribeKeeps(c, s, client);
      case Count(_) => ShrinkingKeeps(c, s, step);
      case Disconnect(client) => ClientUpdateKeeps(c, s, client, s.clients[client].(connection := None));
      case CloseShard(shard) => CloseMembersKeeps(c, s, Members(c, s, shard));
      case Receive(client) => ReceiveKeeps(c, s, client);
      case Unsubscribe(id) =>
        ConnectionUpdateKeeps(c, s, id, s.connections[id].(phase := Closed));
        RemoveKeeps(c, UpdateConnection(s, id, s.connections[id].(phase := Closed)), id, false);
    }
  }

  lemma SendKeeps(c: Config, s: State, b: nat, id: nat)
    requires Structure(c, s) && Enabled(c, s, Send(b, id))
    ensures Structure(c, SendOne(c, s, b, id))
  {
    var broadcast, conn := s.broadcasts[b], s.connections[id];
    var rest := broadcast.(todo := broadcast.todo - {id});
    BroadcastUpdateKeeps(c, s, b, rest);
    BroadcastUpdateKeeps(c, s, b, rest.(evict := rest.evict + {id}));
    ConnectionUpdateKeeps(c, UpdateBroadcast(s, b, rest), id, conn.(buffer := conn.buffer + [broadcast.version]));
  }

  lemma EvictKeeps(c: Config, s: State, b: nat, id: nat)
    requires ValidConfig(c) && Structure(c, s) && Enabled(c, s, Evict(b, id))
    ensures Structure(c, Apply(c, s, Evict(b, id)))
  {
    var shorter := s.broadcasts[b].(evict := s.broadcasts[b].evict - {id});
    BroadcastUpdateKeeps(c, s, b, shorter);
    RemoveKeeps(c, UpdateBroadcast(s, b, shorter), id, true);
  }

  lemma ReceiveKeeps(c: Config, s: State, client: nat)
    requires Structure(c, s) && Enabled(c, s, Receive(client))
    ensures Structure(c, ReceiveOne(s, client))
  {
    hide Increasing;
    var record := s.clients[client];
    var id := record.connection.value;
    var conn := s.connections[id];
    var read := UpdateConnection(s, id, conn.(wire := conn.wire[1..]));
    ConnectionUpdateKeeps(c, s, id, conn.(wire := conn.wire[1..]));
    if conn.wire[0].Ruleset? {
      var v := conn.wire[0].version;
      ClientUpdateKeeps(c, read, client, record.(version := ApplyVersion(record.version, v), cursor := v));
    }
  }

  /** A handler's own step changes one connection, and for a close the list of closes to do. */
  lemma HandlerKeeps(c: Config, s: State, step: Step)
    requires ValidConfig(c) && Structure(c, s) && Enabled(c, s, step) && HandlerStep(step)
    ensures Structure(c, Apply(c, s, step))
  {
    hide Increasing, ReplayFrames, CurrentOf;
    var next := Apply(c, s, step);
    var id := step.id;
    assert next.connections == s.connections[id := next.connections[id]];
    var fewer := s.(closing := next.closing);
    assert Structure(c, fewer);
    ConnectionUpdateKeeps(c, fewer, id, next.connections[id]);
    assert next == UpdateConnection(fewer, id, next.connections[id]);
  }

  // ----- each step keeps what is in flight published

  ghost predicate ConnectionKnown(s: State, conn: Connection) {
    && (forall v <- conn.buffer :: Published(s, v))
    && (forall f <- conn.wire :: f.Ruleset? ==> Published(s, f.version))
  }

  lemma PublishedGrows(s: State, t: State, v: int)
    requires s.log <= t.log && Published(s, v)
    ensures Published(t, v)
  {
    var i :| 0 <= i < |s.log| && s.log[i].version == v;
    assert t.log[i] == s.log[i];
  }

  lemma CurrentPublished(s: State)
    requires s.log != []
    ensures Published(s, CurrentVersion(s))
  {
    assert s.log[|s.log| - 1].version == CurrentVersion(s);
  }

  lemma VersionsPublished(s: State, missed: seq<Snapshot>)
    requires forall m <- missed :: m in s.log
    ensures forall f <- Versions(missed) :: f.Ruleset? && Published(s, f.version)
  {
    forall f | f in Versions(missed) ensures f.Ruleset? && Published(s, f.version) {
      var i :| 0 <= i < |missed| && Versions(missed)[i] == f;
      assert missed[i] in s.log;
      var j :| 0 <= j < |s.log| && s.log[j] == missed[i];
    }
  }

  lemma ReplayPublished(s: State, historySize: nat, cursor: int)
    requires historySize > 0 && Increasing(s.log)
    ensures var frames := ReplayFrames(s.log, historySize, cursor);
            frames.Some? ==> forall f <- frames.value :: f.Ruleset? ==> Published(s, f.version)
  {
    hide Newer, HistoryOf, Versions, Published;
    if s.log != [] {
      CurrentPublished(s);
      ReplayExact(s.log, cursor);
      VersionsPublished(s, Newer(s.log, cursor));
      VersionsPublished(s, []);
    }
  }

  lemma ConnectionUpdateKnown(s: State, id: nat, conn: Connection)
    requires InFlightKnown(s) && id in s.connections && ConnectionKnown(s, conn)
    ensures InFlightKnown(UpdateConnection(s, id, conn))
  {
    var t := UpdateConnection(s, id, conn);
    forall v ensures Published(t, v) == Published(s, v) {}
  }

  lemma ReplayConnectionKnown(c: Config, s: State, id: nat)
    requires ValidConfig(c) && Structure(c, s) && InFlightKnown(s) && Enabled(c, s, ReplayHistory(id))
    ensures ConnectionKnown(s, Apply(c, s, ReplayHistory(id)).connections[id])
  {
    hide Published, Increasing, ReplayFrames, BroadcastsInOrder, ConnectionsInOrder, ClientsInOrder;
    assert ConnectionKnown(s, s.connections[id]);
    ReplayPublished(s, c.historySize, s.connections[id].cursor);
  }

  lemma ReadConnectionKnown(c: Config, s: State, id: nat)
    requires ValidConfig(c) && InFlightKnown(s) && Enabled(c, s, ReadCurrent(id))
    ensures ConnectionKnown(s, Apply(c, s, ReadCurrent(id)).connections[id])
  {
    hide Published, CurrentOf;
    assert ConnectionKnown(s, s.connections[id]);
    if s.log != [] {
      CurrentPublished(s);
    }
  }

  lemma MovingConnectionKnown(c: Config, s: State, step: Step)
    requires ValidConfig(c) && InFlightKnown(s) && Enabled(c, s, step)
    requires step.Deliver? || step.CloseSubscriber? || step.SeeDone? || step.SeeHangup? || step.Unsubscribe?
    ensures ConnectionKnown(s, Apply(c, s, step).connections[step.id])
  {
    hide Published, Unlocked;
    var conn := s.connections[step.id];
    assert ConnectionKnown(s, conn);
    if step.Deliver? {
      assert conn.buffer[0] in conn.buffer;
      assert forall v :: v in conn.buffer[1..] ==> v in conn.buffer;
    }
  }

  lemma HandlerConnectionKnown(c: Config, s: State, step: Step)
    requires ValidConfig(c) && Structure(c, s) && InFlightKnown(s) && Enabled(c, s, step)
    requires HandlerStep(step) || step.Unsubscribe?
    ensures step.id in Apply(c, s, step).connections && ConnectionKnown(s, Apply(c, s, step).connections[step.id])
  {
    hide Structure, InFlightKnown, ConnectionKnown, Unlocked, ReplayFrames, CurrentOf;
    match step {
      case ReplayHistory(id) => ReplayConnectionKnown(c, s, id);
      case ReadCurrent(id) => ReadConnectionKnown(c, s, id);
      case _ => MovingConnectionKnown(c, s, step);
    }
  }

  lemma InFlightSame(s: State, t: State)
    requires InFlightKnown(s) && s.log == t.log && s.connections == t.connections
    requires forall b <- t.broadcasts :: b in s.broadcasts && t.broadcasts[b].version == s.broadcasts[b].version
    ensures InFlightKnown(t)
  {
    forall v ensures Published(t, v) == Published(s, v) {}
  }

  lemma SendKnown(c: Config, s: State, b: nat, id: nat)
    requires InFlightKnown(s) && Enabled(c, s, Send(b, id))
    ensures InFlightKnown(SendOne(c, s, b, id))
  {
    hide Published;
    var broadcast, conn := s.broadcasts[b], s.connections[id];
    var rest := broadcast.(todo := broadcast.todo - {id});
    InFlightSame(s, UpdateBroadcast(s, b, rest));
    InFlightSame(s, UpdateBroadcast(s, b, rest.(evict := rest.evict + {id})));
    var t := UpdateBroadcast(s, b, rest);
    assert Published(t, broadcast.version);
    ConnectionUpdateKnown(t, id, conn.(buffer := conn.buffer + [broadcast.version]));
  }

  lemma PublishInFlight(c: Config, s: State, snapshot: Snapshot)
    requires ValidConfig(c) && InFlightKnown(s) && Enabled(c, s, Publish(snapshot))
    ensures InFlightKnown(Apply(c, s, Publish(snapshot)))
  {
    var t := Apply(c, s, Publish(snapshot));
    forall v | Published(s, v) ensures Published(t, v) {
      PublishedGrows(s, t, v);
    }
    assert t.log[|s.log|].version == snapshot.version;
  }

  lemma CloseMembersKnown(s: State, members: set<nat>)
    requires InFlightKnown(s)
    ensures InFlightKnown(CloseMembers(s, members))
  {
    var t := CloseMembers(s, members);
    forall v ensures Published(t, v) == Published(s, v) {}
  }

  lemma SubscribeInFlight(c: Config, s: State, k: nat)
    requires ValidConfig(c) && InFlightKnown(s) && Enabled(c, s, Subscribe(k))
    ensures InFlightKnown(Apply(c, s, Subscribe(k)))
  {
    var t := Apply(c, s, Subscribe(k));
    forall v ensures Published(t, v) == Published(s, v) {}
  }

  lemma PlainStepInFlight(c: Config, s: State, step: Step)
    requires ValidConfig(c) && InFlightKnown(s) && Enabled(c, s, step)
    requires (BroadcastStep(step) && !step.Send?) || step.Join? || step.Count? || step.Disconnect?
    ensures InFlightKnown(Apply(c, s, step))
  {
    hide Published, InFlightKnown, Unlocked, ReplayFrames, CurrentOf, Members;
    InFlightSame(s, Apply(c, s, step));
  }

  lemma InFlightKept(c: Config, s: State, step: Step)
    requires ValidConfig(c) && Structure(c, s) && InFlightKnown(s) && Enabled(c, s, step)
    ensures InFlightKnown(Apply(c, s, step))
  {
    hide Published, InFlightKnown, Unlocked, Structure, ReplayFrames, CurrentOf, Members, Enabled;
    if HandlerStep(step) || step.Unsubscribe? {
      HandlerInFlight(c, s, step);
    } else {
      match step {
        case Publish(snapshot) => PublishInFlight(c, s, snapshot);
        case Send(b, id) => SendKnown(c, s, b, id);
        case Subscribe(k) => SubscribeInFlight(c, s, k);
        case CloseShard(shard) => CloseMembersKnown(s, Members(c, s, shard));
        case Receive(k) => ReceiveInFlight(c, s, k);
        case _ => PlainStepInFlight(c, s, step);
      }
    }
  }

  lemma HandlerInFlight(c: Config, s: State, step: Step)
    requires ValidConfig(c) && Structure(c, s) && InFlightKnown(s) && Enabled(c, s, step)
    requires HandlerStep(step) || step.Unsubscribe?
    ensures InFlightKnown(Apply(c, s, step))
  {
    hide Published, Unlocked, Structure, InFlightKnown, ConnectionKnown, ReplayFrames, CurrentOf;
    var t := Apply(c, s, step);
    HandlerConnectionKnown(c, s, step);
    ConnectionUpdateKnown(s, step.id, t.connections[step.id]);
    InFlightSame(UpdateConnection(s, step.id, t.connections[step.id]), t);
  }

  lemma ReceiveInFlight(c: Config, s: State, k: nat)
    requires ValidConfig(c) && InFlightKnown(s) && Enabled(c, s, Receive(k))
    ensures InFlightKnown(ReceiveOne(s, k))
  {
    hide Published;
    var id := s.clients[k].connection.value;
    var conn := s.connections[id];
    assert forall f :: f in conn.wire[1..] ==> f in conn.wire;
    ConnectionUpdateKnown(s, id, conn.(wire := conn.wire[1..]));
    InFlightSame(UpdateConnection(s, id, conn.(wire := conn.wire[1..])), ReceiveOne(s, k));
  }

  // ----- each step keeps what clients hold and cite

  /** A client that a step does not touch keeps its guarantees. */
  lemma UntouchedClientKnown(s: State, t: State, k: nat)
    requires k in s.clients && k in t.clients && t.clients[k] == s.clients[k] && s.log <= t.log
    requires ClientKnown(s, k)
    ensures ClientKnown(t, k)
  {
    if Published(s, s.clients[k].version) {
      PublishedGrows(s, t, s.clients[k].version);
    }
  }

  lemma ReceivedClientKnown(c: Config, s: State, k: nat)
    requires ValidConfig(c) && Structure(c, s) && InFlightKnown(s) && ClientKnownAll(s) && Enabled(c, s, Receive(k))
    ensures ClientKnown(ReceiveOne(s, k), k)
  {
    hide Increasing;
    var conn := s.connections[s.clients[k].connection.value];
    var t := ReceiveOne(s, k);
    forall v ensures Published(t, v) == Published(s, v) {}
    assert ClientKnown(s, k);
    assert conn.wire[0] in conn.wire;
    if conn.wire[0].Ruleset? {
      PublishedPositive(s, conn.wire[0].version);
    }
  }

  lemma PublishedPositive(s: State, v: int)
    requires Increasing(s.log) && Published(s, v)
    ensures 0 < v <= CurrentVersion(s)
  {
    var i :| 0 <= i < |s.log| && s.log[i].version == v;
  }

  /** Clients, and which connection and cursor each has, are as before; the log may have grown. */
  ghost predicate CursorsKept(s: State, t: State, k: nat)
    requires k in s.clients
  {
    && t.clients == s.clients && s.log <= t.log
    && (Attached(t, k) <==> Attached(s, k))
    && (Attached(s, k) ==>
         t.connections[s.clients[k].connection.value].cursor == s.connections[s.clients[k].connection.value].cursor)
  }

  lemma BroadcastStepKeepsCursors(c: Config, s: State, step: Step, k: nat)
    requires ValidConfig(c) && Enabled(c, s, step) && k in s.clients && BroadcastStep(step)
    ensures CursorsKept(s, Apply(c, s, step), k)
  {
    hide Unlocked, ReplayFrames, CurrentOf, Members;
  }

  lemma HandlerStepKeepsCursors(c: Config, s: State, step: Step, k: nat)
    requires ValidConfig(c) && Enabled(c, s, step) && k in s.clients && HandlerStep(step)
    ensures CursorsKept(s, Apply(c, s, step), k)
  {
    hide Unlocked, ReplayFrames, CurrentOf, Members;
  }

  lemma OtherStepKeepsCursors(c: Config, s: State, step: Step, k: nat)
    requires ValidConfig(c) && Enabled(c, s, step) && k in s.clients
    requires step.Publish? || step.Count? || step.Unsubscribe? || step.CloseShard?
    ensures CursorsKept(s, Apply(c, s, step), k)
  {
    hide Unlocked, ReplayFrames, CurrentOf, Members;
  }

  /** Steps other than joining, subscribing, receiving and leaving keep every client and every cursor. */
  lemma QuietStepKeepsCursors(c: Config, s: State, step: Step, k: nat)
    requires ValidConfig(c) && Enabled(c, s, step) && k in s.clients
    requires !step.Join? && !step.Subscribe? && !step.Receive? && !step.Disconnect?
    ensures CursorsKept(s, Apply(c, s, step), k)
  {
    hide Apply, Enabled, CursorsKept;
    if BroadcastStep(step) {
      BroadcastStepKeepsCursors(c, s, step, k);
    } else if HandlerStep(step) {
      HandlerStepKeepsCursors(c, s, step, k);
    } else {
      OtherStepKeepsCursors(c, s, step, k);
    }
  }

  lemma ClientsKept(c: Config, s: State, step: Step)
    requires ValidConfig(c) && Structure(c, s) && InFlightKnown(s) && ClientKnownAll(s) && Enabled(c, s, step)
    ensures ClientKnownAll(Apply(c, s, step))
  {
    hide Published, Unlocked, Increasing, ReplayFrames, CurrentOf, Members, InFlightKnown;
    var t := Apply(c, s, step);
    forall k | k in t.clients ensures ClientKnown(t, k) {
      if !step.Join? && !step.Subscribe? && !step.Receive? && !step.Disconnect? {
        QuietStepKeepsCursors(c, s, step, k);
        UntouchedClientKnown(s, t, k);
      } else {
        BusyStepKnown(c, s, step, k);
      }
    }
  }

  lemma BusyStepKnown(c: Config, s: State, step: Step, k: nat)
    requires ValidConfig(c) && Structure(c, s) && InFlightKnown(s) && ClientKnownAll(s) && Enabled(c, s, step)
    requires step.Join? || step.Subscribe? || step.Receive? || step.Disconnect?
    requires k in Apply(c, s, step).clients
    ensures ClientKnown(Apply(c, s, step), k)
  {
    hide Published, Unlocked, Increasing, InFlightKnown;
    if step.client != k {
      BusyStepSparesOthers(c, s, step, k);
      UntouchedClientKnown(s, Apply(c, s, step), k);
    } else if step.Receive? {
      ReceivedClientKnown(c, s, k);
    } else {
      OwnStepKnown(c, s, step);
    }
  }

  lemma BusyStepSparesOthers(c: Config, s: State, step: Step, k: nat)
    requires ValidConfig(c) && Structure(c, s) && Enabled(c, s, step)
    requires step.Join? || step.Subscribe? || step.Receive? || step.Disconnect?
    requires k in Apply(c, s, step).clients && step.client != k
    ensures var t := Apply(c, s, step);
            && k in s.clients && t.clients[k] == s.clients[k] && t.log == s.log
            && (Attached(t, k) ==>
                 && Attached(s, k)
                 && t.connections[s.clients[k].connection.value].cursor ==
                    s.connections[s.clients[k].connection.value].cursor)
  {
    hide Unlocked, Increasing, BroadcastsInOrder;
  }

  lemma OwnStepKnown(c: Config, s: State, step: Step)
    requires ValidConfig(c) && ClientKnownAll(s) && Enabled(c, s, step)
    requires step.Join? || step.Subscribe? || step.Disconnect?
    ensures ClientKnown(Apply(c, s, step), step.client)
  {
    hide Unlocked, Published;
    var t := Apply(c, s, step);
    SameLogSamePublished(s, t);
    if !step.Join? {
      assert ClientKnown(s, step.client);
    }
  }

  lemma SameLogSamePublished(s: State, t: State)
    requires s.log == t.log
    ensures forall v :: Published(s, v) == Published(t, v)
  {
  }

  // ----- each step keeps every attached connection on track

  /** What a connection relies on for v is still there, or has done its work. */
  ghost predicate NoWorse(c: Config, s: State, t: State, id: nat, v: int) {
    && id in s.connections && id in t.connections
    && s.connections[id].client in s.clients && t.connections[id].client in t.clients
    && t.connections[id].client == s.connections[id].client
    && s.clients[s.connections[id].client].version <= t.clients[s.connections[id].client].version
    && (Ruleset(v) in s.connections[id].wire ==>
         Ruleset(v) in t.connections[id].wire || t.clients[s.connections[id].client].version >= v)
    && (v in s.connections[id].buffer ==> v in t.connections[id].buffer || Ruleset(v) in t.connections[id].wire)
    && (id in t.registered ==> id in s.registered)
  }

  /**
   * Every broadcast that owed the subscriber still does, or has buffered its version, or evicts it; evictions stand
   * until done.
   */
  ghost predicate BroadcastsNoWorse(c: Config, s: State, t: State, id: nat)
    requires id in t.connections
  {
    && (forall b <- s.broadcasts :: Owes(c, s.broadcasts[b], id) ==>
         && b in t.broadcasts && t.broadcasts[b].version == s.broadcasts[b].version
         && (Owes(c, t.broadcasts[b], id) || id in t.broadcasts[b].evict || id !in t.registered
             || t.broadcasts[b].version in t.connections[id].buffer))
    && (forall b <- s.broadcasts :: id in s.broadcasts[b].evict ==>
         (b in t.broadcasts && id in t.broadcasts[b].evict) || id !in t.registered)
  }

  lemma StaysOnTrack(c: Config, s: State, t: State, id: nat, v: int)
    requires id in s.connections && id in t.connections
    requires s.connections[id].client in s.clients && t.connections[id].client in t.clients
    requires NoWorse(c, s, t, id, v) && BroadcastsNoWorse(c, s, t, id) && OnTrack(c, s, id, v)
    ensures OnTrack(c, t, id, v)
  {
    hide Owes;
    if Pending(c, s, id, v) {
      var b :| b in s.broadcasts && s.broadcasts[b].version == v && Owes(c, s.broadcasts[b], id);
      assert b in t.broadcasts && t.broadcasts[b].version == v;
    } else if OnEvictList(s, id) {
      var b :| b in s.broadcasts && id in s.broadcasts[b].evict;
    }
  }

  lemma BroadcastStepNoWorse(c: Config, s: State, step: Step, id: nat)
    requires ValidConfig(c) && Enabled(c, s, step) && id in s.connections
    requires BroadcastStep(step)
    ensures BroadcastsNoWorse(c, s, Apply(c, s, step), id)
  {
    hide Unlocked;
    assert c.shardOf(id) < c.shards;
  }

  lemma OtherStepKeepsBroadcasts(c: Config, s: State, step: Step)
    requires ValidConfig(c) && Enabled(c, s, step)
    requires !step.Publish? && !BroadcastStep(step)
    ensures Apply(c, s, step).broadcasts == s.broadcasts
  {
    hide Unlocked, ReplayFrames;
  }

  lemma StepBroadcastsNoWorse(c: Config, s: State, step: Step, id: nat)
    requires ValidConfig(c) && Structure(c, s) && Enabled(c, s, step) && id in s.connections
             && id in Apply(c, s, step).connections
    requires !step.Publish?
    ensures BroadcastsNoWorse(c, s, Apply(c, s, step), id)
  {
    hide Unlocked, Increasing, Apply, Enabled, Owes;
    if BroadcastStep(step) {
      BroadcastStepNoWorse(c, s, step, id);
    } else {
      OtherStepKeepsBroadcasts(c, s, step);
    }
  }

  lemma ReceiveNoWorse(c: Config, s: State, k: nat, id: nat, v: int)
    requires ValidConfig(c) && Structure(c, s) && InFlightKnown(s) && ClientKnownAll(s) && Enabled(c, s, Receive(k))
    requires id in s.connections
    requires Attached(s, s.connections[id].client) && s.clients[s.connections[id].client].connection.value == id
    ensures NoWorse(c, s, ReceiveOne(s, k), id, v)
  {
    hide Increasing;
    var conn := s.connections[s.clients[k].connection.value];
    assert ClientKnown(s, k);
    assert conn.wire == [conn.wire[0]] + conn.wire[1..];
    assert conn.wire[0] in conn.wire;
    if conn.wire[0].Ruleset? {
      PublishedPositive(s, conn.wire[0].version);
    }
  }

  lemma DeliverNoWorse(c: Config, s: State, deliver: nat, id: nat, v: int)
    requires ValidConfig(c) && Structure(c, s) && Enabled(c, s, Deliver(deliver)) && id in s.connections
    ensures NoWorse(c, s, Apply(c, s, Deliver(deliver)), id, v)
  {
    hide Increasing;
    var conn := s.connections[deliver];
    assert conn.buffer == [conn.buffer[0]] + conn.buffer[1..];
  }

  lemma BroadcastStepKeepsTrack(c: Config, s: State, step: Step, id: nat, v: int)
    requires ValidConfig(c) && Enabled(c, s, step) && id in s.connections && s.connections[id].client in s.clients
    requires BroadcastStep(step)
    ensures NoWorse(c, s, Apply(c, s, step), id, v)
  {
    hide Unlocked, ReplayFrames, CurrentOf, Members;
  }

  lemma HandlerStepKeepsTrack(c: Config, s: State, step: Step, id: nat, v: int)
    requires ValidConfig(c) && Enabled(c, s, step) && id in s.connections && s.connections[id].client in s.clients
    requires HandlerStep(step) && !step.Deliver?
    ensures NoWorse(c, s, Apply(c, s, step), id, v)
  {
    hide Unlocked, ReplayFrames, CurrentOf, Members;
  }

  lemma ClientStepKeepsTrack(c: Config, s: State, step: Step, id: nat, v: int)
    requires ValidConfig(c) && Enabled(c, s, step) && id in s.connections && s.connections[id].client in s.clients
             && id < s.nextId
    requires step.Join? || step.Subscribe? || step.Disconnect?
    ensures NoWorse(c, s, Apply(c, s, step), id, v)
  {
    hide Unlocked, ReplayFrames, CurrentOf, Members;
  }

  lemma ClosingStepKeepsTrack(c: Config, s: State, step: Step, id: nat, v: int)
    requires ValidConfig(c) && Enabled(c, s, step) && id in s.connections && s.connections[id].client in s.clients
    requires step.Count? || step.Unsubscribe? || step.CloseShard?
    ensures NoWorse(c, s, Apply(c, s, step), id, v)
  {
    hide Unlocked, ReplayFrames, CurrentOf, Members;
  }

  lemma SimpleStepNoWorse(c: Config, s: State, step: Step, id: nat, v: int)
    requires ValidConfig(c) && Structure(c, s) && Enabled(c, s, step) && id in s.connections
    requires !step.Receive? && !step.Deliver? && !step.Publish?
    ensures NoWorse(c, s, Apply(c, s, step), id, v)
  {
    hide Apply, Enabled, Increasing, BroadcastsInOrder, ClientsInOrder, NoWorse;
    if BroadcastStep(step) {
      BroadcastStepKeepsTrack(c, s, step, id, v);
    } else if HandlerStep(step) {
      HandlerStepKeepsTrack(c, s, step, id, v);
    } else if step.Count? || step.Unsubscribe? || step.CloseShard? {
      ClosingStepKeepsTrack(c, s, step, id, v);
    } else {
      ClientStepKeepsTrack(c, s, step, id, v);
    }
  }

  /** The client kept its connection and was streaming, unless the step was its replay. */
  ghost predicate WasStreaming(s: State, t: State, step: Step, k: nat)
    requires Attached(t, k)
  {
    && t.log == s.log && Attached(s, k) && t.clients[k].connection == s.clients[k].connection
    && (|| s.connections[s.clients[k].connection.value].phase == Streaming
        || step == ReplayHistory(s.clients[k].connection.value)
        || step == ReadCurrent(s.clients[k].connection.value))
  }

  ghost predicate StreamingClient(s: State, k: nat) {
    Attached(s, k) && s.connections[s.clients[k].connection.value].phase == Streaming
  }

  lemma BroadcastStepStreaming(c: Config, s: State, step: Step, k: nat)
    requires ValidConfig(c) && Enabled(c, s, step) && StreamingClient(Apply(c, s, step), k)
    requires BroadcastStep(step)
    ensures WasStreaming(s, Apply(c, s, step), step, k)
  {
    hide Unlocked, ReplayFrames, CurrentOf, Members;
  }

  lemma HandlerStepStreaming(c: Config, s: State, step: Step, k: nat)
    requires ValidConfig(c) && Enabled(c, s, step) && StreamingClient(Apply(c, s, step), k)
    requires HandlerStep(step)
    ensures WasStreaming(s, Apply(c, s, step), step, k)
  {
    hide Unlocked, ReplayFrames, CurrentOf, Members;
  }

  lemma OtherStepStreaming(c: Config, s: State, step: Step, k: nat)
    requires ValidConfig(c) && Structure(c, s) && Enabled(c, s, step) && StreamingClient(Apply(c, s, step), k)
    requires step.Join? || step.Subscribe? || step.Count? || step.Disconnect?
    ensures WasStreaming(s, Apply(c, s, step), step, k)
  {
    hide Increasing, Unlocked, ReplayFrames, CurrentOf, Members;
  }

  lemma ClosingStepStreaming(c: Config, s: State, step: Step, k: nat)
    requires ValidConfig(c) && Enabled(c, s, step) && StreamingClient(Apply(c, s, step), k)
    requires step.Unsubscribe? || step.CloseShard? || step.Receive?
    ensures WasStreaming(s, Apply(c, s, step), step, k)
  {
    hide Unlocked, ReplayFrames, CurrentOf, Members;
  }

  /** A client that is attached and streaming after a step was so before, unless the step was its replay. */
  lemma StreamingBefore(c: Config, s: State, step: Step, k: nat)
    requires ValidConfig(c) && Structure(c, s) && Enabled(c, s, step) && !step.Publish?
    requires StreamingClient(Apply(c, s, step), k)
    ensures WasStreaming(s, Apply(c, s, step), step, k)
  {
    hide Apply, Enabled, Structure, WasStreaming, StreamingClient;
    if BroadcastStep(step) {
      BroadcastStepStreaming(c, s, step, k);
    } else if HandlerStep(step) {
      HandlerStepStreaming(c, s, step, k);
    } else if step.Unsubscribe? || step.CloseShard? || step.Receive? {
      ClosingStepStreaming(c, s, step, k);
    } else {
      OtherStepStreaming(c, s, step, k);
    }
  }

  /** Replaying puts the current version on the wire exactly when the cursor has not reached it. */
  lemma ReplaySendsCurrentExactly(log: seq<Snapshot>, historySize: nat, cursor: int)
    requires historySize > 0 && Increasing(log) && log != []
    ensures var frames := ReplayFrames(log, historySize, cursor);
            frames.None? || Ruleset(CurrentOf(log).version) in frames.value <==> cursor < CurrentOf(log).version
  {
    hide Increasing, ResumeOf, HistoryOf;
    LastIsPositive(log);
    if cursor >= CurrentOf(log).version {
      CurrentMissesNothing(log, historySize, cursor);
    } else if cursor > 0 {
      ResumeReachesCurrent(log, historySize, cursor);
      var missed := ResumeOf(log, historySize, cursor);
      ResumeKnows(log, historySize, cursor);
      if missed.Replay? && missed.missed != [] {
        assert Versions(missed.missed)[|missed.missed| - 1] == Ruleset(CurrentOf(log).version);
      }
    }
  }

  lemma CurrentMissesNothing(log: seq<Snapshot>, historySize: nat, cursor: int)
    requires historySize > 0 && log != [] && cursor >= CurrentOf(log).version > 0
    ensures ReplayFrames(log, historySize, cursor) == Some([])
  {
  }

  lemma LastIsPositive(log: seq<Snapshot>)
    requires Increasing(log) && log != []
    ensures CurrentOf(log).version > 0
  {
  }

  /** Replaying leaves the client current, the current version on its wire, or the connection ahead of both. */
  lemma ReplayOnTrack(c: Config, s: State, step: Step, k: nat)
    requires ValidConfig(c) && Structure(c, s) && Enabled(c, s, step)
    requires Attached(s, k) && s.log != []
    requires step == ReplayHistory(s.clients[k].connection.value) || step == ReadCurrent(s.clients[k].connection.value)
    requires Apply(c, s, step).connections[s.clients[k].connection.value].phase == Streaming
    ensures var t := Apply(c, s, step);
            || Ruleset(CurrentVersion(s)) in t.connections[s.clients[k].connection.value].wire
            || Ahead(t, s.clients[k].connection.value)
  {
    hide Increasing, Unlocked, ReplayFrames;
    ReplaySendsCurrentExactly(s.log, c.historySize, s.connections[s.clients[k].connection.value].cursor);
  }

  lemma ResumeKnows(log: seq<Snapshot>, historySize: nat, cursor: int)
    requires historySize > 0 && log != []
    ensures ResumeOf(log, historySize, cursor) != UnknownEnvironment
  {
  }

  lemma PublishPending(c: Config, s: State, snapshot: Snapshot, id: nat)
    requires ValidConfig(c) && Structure(c, s) && Enabled(c, s, Publish(snapshot))
    ensures Pending(c, Apply(c, s, Publish(snapshot)), id, snapshot.version)
    ensures CurrentVersion(Apply(c, s, Publish(snapshot))) == snapshot.version
  {
    var t := Apply(c, s, Publish(snapshot));
    assert Owes(c, t.broadcasts[s.nextBroadcast], id);
  }

  ghost predicate SameCursor(s: State, t: State, id: nat) {
    id in s.connections && id in t.connections && t.connections[id].cursor == s.connections[id].cursor
  }

  lemma BroadcastStepKeepsCursor(c: Config, s: State, step: Step, id: nat)
    requires ValidConfig(c) && Enabled(c, s, step) && id in s.connections && BroadcastStep(step)
    ensures SameCursor(s, Apply(c, s, step), id)
  {
    hide Unlocked, ReplayFrames, CurrentOf, Members;
  }

  lemma HandlerStepKeepsCursor(c: Config, s: State, step: Step, id: nat)
    requires ValidConfig(c) && Enabled(c, s, step) && id in s.connections && HandlerStep(step)
    ensures SameCursor(s, Apply(c, s, step), id)
  {
    hide Unlocked, ReplayFrames, CurrentOf, Members;
  }

  lemma OtherStepKeepsCursor(c: Config, s: State, step: Step, id: nat)
    requires ValidConfig(c) && Enabled(c, s, step) && id in s.connections && id < s.nextId
    requires !BroadcastStep(step) && !HandlerStep(step)
    ensures SameCursor(s, Apply(c, s, step), id)
  {
    hide Unlocked, ReplayFrames, CurrentOf, Members;
  }

  /** A connection keeps the cursor it was opened with. */
  lemma ConnectionKeepsCursor(c: Config, s: State, step: Step, id: nat)
    requires ValidConfig(c) && Structure(c, s) && Enabled(c, s, step) && id in s.connections
    ensures SameCursor(s, Apply(c, s, step), id)
  {
    hide Apply, Enabled, SameCursor, Increasing, BroadcastsInOrder, ClientsInOrder;
    if BroadcastStep(step) {
      BroadcastStepKeepsCursor(c, s, step, id);
    } else if HandlerStep(step) {
      HandlerStepKeepsCursor(c, s, step, id);
    } else {
      OtherStepKeepsCursor(c, s, step, id);
    }
  }

  lemma ConvergingKept(c: Config, s: State, step: Step)
    requires ValidConfig(c) && Safe(c, s) && Enabled(c, s, step)
    requires Structure(c, Apply(c, s, step))
    ensures Converging(c, Apply(c, s, step))
  {
    hide Apply, Enabled, InFlightKnown, ClientKnownAll, Pending, OnEvictList, Increasing, BroadcastsInOrder,
         BroadcastsNoWorse, NoWorse;
    var t := Apply(c, s, step);
    forall k | Attached(t, k) && t.log != [] && t.connections[t.clients[k].connection.value].phase == Streaming
      ensures OnTrack(c, t, t.clients[k].connection.value, CurrentVersion(t))
              || Ahead(t, t.clients[k].connection.value)
    {
      var id := t.clients[k].connection.value;
      if step.Publish? {
        PublishPending(c, s, step.snapshot, id);
      } else {
        StreamingBefore(c, s, step, k);
        if s.connections[id].phase == Streaming {
          assert OnTrack(c, s, id, CurrentVersion(s)) || Ahead(s, id);
          if Ahead(s, id) {
            ConnectionKeepsCursor(c, s, step, id);
          } else {
            StepBroadcastsNoWorse(c, s, step, id);
            StepNoWorse(c, s, step, k, CurrentVersion(s));
            StaysOnTrack(c, s, t, id, CurrentVersion(s));
          }
        } else {
          ReplayOnTrack(c, s, step, k);
        }
      }
    }
  }

  lemma StepNoWorse(c: Config, s: State, step: Step, k: nat, v: int)
    requires ValidConfig(c) && Safe(c, s) && Enabled(c, s, step) && !step.Publish?
    requires Attached(s, k)
    ensures NoWorse(c, s, Apply(c, s, step), s.clients[k].connection.value, v)
  {
    hide Unlocked, Increasing, ReplayFrames, CurrentOf, Members, InFlightKnown, ClientKnownAll, Pending, OnEvictList;
    var id := s.clients[k].connection.value;
    match step {
      case Receive(client) => ReceiveNoWorse(c, s, client, id, v);
      case Deliver(deliver) => DeliverNoWorse(c, s, deliver, id, v);
      case _ => SimpleStepNoWorse(c, s, step, id, v);
    }
  }

  /** Every step of every interleaving keeps the protocol safe. */
  lemma SafeKept(c: Config, s: State, step: Step)
    requires ValidConfig(c) && Safe(c, s) && Enabled(c, s, step)
    ensures Safe(c, Apply(c, s, step))
  {
    hide Apply, Enabled, Structure, InFlightKnown, ClientKnownAll, Converging;
    StructureKept(c, s, step);
    InFlightKept(c, s, step);
    ClientsKept(c, s, step);
    ConvergingKept(c, s, step);
  }

  lemma InitiallySafe(c: Config)
    requires ValidConfig(c)
    ensures Safe(c, INITIAL)
  {
  }

  lemma {:induction false} RunsStaySafe(c: Config, s: State, steps: seq<Step>)
    requires ValidConfig(c) && Safe(c, s) && IsRun(c, s, steps)
    ensures Safe(c, After(c, s, steps))
    decreases |steps|
  {
    hide Apply, Enabled, Safe;
    if steps != [] {
      SafeKept(c, s, steps[0]);
      RunsStaySafe(c, Apply(c, s, steps[0]), steps[1..]);
    }
  }

  // ----- what it means

  /**
   * Nothing left to do: no broadcast in progress, and every registered attached connection is streaming with nothing
   * buffered or unread.
   */
  ghost predicate Settled(s: State) {
    && s.broadcasts == map[]
    && forall k <- s.clients :: Attached(s, k) && s.clients[k].connection.value in s.registered ==>
         var conn := s.connections[s.clients[k].connection.value];
         conn.phase == Streaming && conn.buffer == [] && conn.wire == []
  }

  /** The client holds the store's current version, or a bootstrap that is newer. */
  ghost predicate UpToDate(s: State, k: nat)
    requires k in s.clients
  {
    s.clients[k].version ==
    if s.clients[k].bootstrap > CurrentVersion(s) then s.clients[k].bootstrap else CurrentVersion(s)
  }

  /** The client's connection was opened with a cursor that is current or newer, though the client holds less. */
  ghost predicate LeftBehind(s: State, k: nat)
    requires Attached(s, k)
  {
    s.clients[k].version < CurrentVersion(s) <= s.connections[s.clients[k].connection.value].cursor
  }

  lemma SettledClient(c: Config, s: State, k: nat)
    requires Safe(c, s) && Settled(s) && s.log != []
    requires Attached(s, k) && s.clients[k].connection.value in s.registered
    ensures UpToDate(s, k) || LeftBehind(s, k)
  {
    var id := s.clients[k].connection.value;
    assert OnTrack(c, s, id, CurrentVersion(s)) || Ahead(s, id);
    assert ClientKnown(s, k);
    if Published(s, s.clients[k].version) {
      PublishedPositive(s, s.clients[k].version);
    }
  }

  /**
   * After any run from the start, once things settle every client with a registered connection
   * is up to date, unless it cited a cursor that promises more than it holds.
   */
  lemma SettledUnlessLeftBehind(c: Config, steps: seq<Step>, k: nat)
    requires ValidConfig(c) && IsRun(c, INITIAL, steps) && Settled(After(c, INITIAL, steps))
    requires Attached(After(c, INITIAL, steps), k) && After(c, INITIAL, steps).log != []
    requires After(c, INITIAL, steps).clients[k].connection.value in After(c, INITIAL, steps).registered
    ensures UpToDate(After(c, INITIAL, steps), k) <==> !LeftBehind(After(c, INITIAL, steps), k)
  {
    hide IsRun, After, Enabled, Apply, Safe, Settled;
    InitiallySafe(c);
    RunsStaySafe(c, INITIAL, steps);
    SettledClient(c, After(c, INITIAL, steps), k);
  }

  // ----- clients that cite no more than they hold

  ghost predicate CitesHeld(s: State, k: nat)
    requires k in s.clients
  {
    var client := s.clients[k];
    && (client.cursor <= 0 || client.cursor <= client.version)
    && (Attached(s, k) ==>
         var conn := s.connections[client.connection.value];
         conn.cursor <= 0 || conn.cursor <= client.version)
  }

  /** When the client joined, its cursor was no newer than its bootstrap. */
  ghost predicate JoinsHonestly(steps: seq<Step>, k: nat) {
    forall step <- steps :: step.Join? && step.client == k ==> step.cursor <= 0 || step.cursor <= step.bootstrap
  }

  lemma ReceiveCitesHeld(c: Config, s: State, k: nat)
    requires ValidConfig(c) && Structure(c, s) && InFlightKnown(s) && ClientKnownAll(s) && Enabled(c, s, Receive(k))
    requires CitesHeld(s, k)
    ensures CitesHeld(ReceiveOne(s, k), k)
  {
    hide Increasing;
    var conn := s.connections[s.clients[k].connection.value];
    assert ClientKnown(s, k);
    assert conn.wire[0] in conn.wire;
    if conn.wire[0].Ruleset? {
      PublishedPositive(s, conn.wire[0].version);
    }
  }

  lemma OwnStepCitesHeld(c: Config, s: State, step: Step)
    requires ValidConfig(c) && Structure(c, s) && Enabled(c, s, step)
    requires step.Join? || step.Subscribe? || step.Disconnect?
    requires if step.Join? then step.cursor <= 0 || step.cursor <= step.bootstrap else CitesHeld(s, step.client)
    ensures CitesHeld(Apply(c, s, step), step.client)
  {
    hide Unlocked, Increasing, BroadcastsInOrder;
  }

  /** Every step keeps it: a client's cursor moves only with what it reads. */
  lemma CitesHeldKept(c: Config, s: State, step: Step, k: nat)
    requires ValidConfig(c) && Safe(c, s) && Enabled(c, s, step) && k in Apply(c, s, step).clients
    requires k in s.clients ==> CitesHeld(s, k)
    requires JoinsHonestly([step], k)
    ensures CitesHeld(Apply(c, s, step), k)
  {
    hide Apply, Enabled, Structure, InFlightKnown, ClientKnownAll, Converging;
    assert step in [step];
    if !step.Join? && !step.Subscribe? && !step.Receive? && !step.Disconnect? {
      ClientSetKept(c, s, step);
      QuietStepKeepsCursors(c, s, step, k);
    } else if step.client != k {
      BusyStepSparesOthers(c, s, step, k);
    } else if step.Join? {
      OwnStepCitesHeld(c, s, step);
    } else {
      OwnClientPresent(c, s, step);
      if step.Receive? {
        ReceiveIsReceiveOne(c, s, k);
        ReceiveCitesHeld(c, s, k);
      } else {
        OwnStepCitesHeld(c, s, step);
      }
    }
  }

  lemma ReceiveIsReceiveOne(c: Config, s: State, k: nat)
    requires ValidConfig(c) && Enabled(c, s, Receive(k))
    ensures Apply(c, s, Receive(k)) == ReceiveOne(s, k)
    ensures s.clients[k].connection.Some?
  {
  }

  lemma ClientSetKept(c: Config, s: State, step: Step)
    requires ValidConfig(c) && Enabled(c, s, step)
    requires !step.Join? && !step.Subscribe? && !step.Receive? && !step.Disconnect?
    ensures Apply(c, s, step).clients.Keys == s.clients.Keys
  {
    if BroadcastStep(step) || HandlerStep(step) {
      ServerStepNeverRegresses(c, s, step);
    } else {
      assert step.Publish? || step.Count? || step.Unsubscribe? || step.CloseShard?;
      hide Unlocked, ReplayFrames, CurrentOf, Members;
    }
  }

  lemma OwnClientPresent(c: Config, s: State, step: Step)
    requires ValidConfig(c) && Enabled(c, s, step) && (step.Subscribe? || step.Receive? || step.Disconnect?)
    ensures step.client in s.clients
  {
    hide Unlocked;
  }

  lemma {:induction false} HonestClientsCiteHeld(c: Config, s: State, steps: seq<Step>, k: nat)
    requires ValidConfig(c) && Safe(c, s) && IsRun(c, s, steps) && JoinsHonestly(steps, k)
    requires k in s.clients ==> CitesHeld(s, k)
    ensures k in After(c, s, steps).clients ==> CitesHeld(After(c, s, steps), k)
    decreases |steps|
  {
    hide Apply, Enabled, Safe, CitesHeld;
    if steps != [] {
      assert forall step :: step in steps[1..] ==> step in steps;
      SafeKept(c, s, steps[0]);
      if k in Apply(c, s, steps[0]).clients {
        CitesHeldKept(c, s, steps[0], k);
      }
      HonestClientsCiteHeld(c, Apply(c, s, steps[0]), steps[1..], k);
    }
  }

  /** A client that joined honestly is up to date once things settle, whatever the others cite. */
  lemma SettledMeansConverged(c: Config, steps: seq<Step>, k: nat)
    requires ValidConfig(c) && IsRun(c, INITIAL, steps) && Settled(After(c, INITIAL, steps))
    requires Attached(After(c, INITIAL, steps), k) && After(c, INITIAL, steps).log != []
    requires After(c, INITIAL, steps).clients[k].connection.value in After(c, INITIAL, steps).registered
    requires JoinsHonestly(steps, k)
    ensures UpToDate(After(c, INITIAL, steps), k)
  {
    hide IsRun, After, Enabled, Apply, Settled, UpToDate, Safe;
    InitiallySafe(c);
    RunsStaySafe(c, INITIAL, steps);
    HonestClientsCiteHeld(c, INITIAL, steps, k);
    SettledUnlessLeftBehind(c, steps, k);
    CurrentIsPositive(c, After(c, INITIAL, steps));
  }

  lemma CurrentIsPositive(c: Config, s: State)
    requires Safe(c, s) && s.log != []
    ensures CurrentVersion(s) > 0
  {
    LastIsPositive(s.log);
  }

  lemma Before(c: Config, s: State, step: Step, rest: seq<Step>)
    requires c.historySize > 0 && Enabled(c, s, step) && IsRun(c, Apply(c, s, step), rest)
    ensures IsRun(c, s, [step] + rest) && After(c, s, [step] + rest) == After(c, Apply(c, s, step), rest)
  {
    assert ([step] + rest)[1..] == rest;
  }

  /** One ruleset published and sent to everyone there was. */
  ghost function Announced(snapshot: Snapshot): State {
    INITIAL.(log := [snapshot], nextBroadcast := 1)
  }

  lemma Announcing(c: Config, snapshot: Snapshot, rest: seq<Step>) returns (steps: seq<Step>)
    requires ValidConfig(c) && c.shards == 1 && snapshot.version > 0 && IsRun(c, Announced(snapshot), rest)
    ensures IsRun(c, INITIAL, steps) && After(c, INITIAL, steps) == After(c, Announced(snapshot), rest)
  {
    var s1 := Apply(c, INITIAL, Publish(snapshot));
    var s2 := Apply(c, s1, LockShard(0));
    assert Members(c, s1, 0) == {};
    var s3 := Apply(c, s2, UnlockShard(0));
    var s4 := Apply(c, s3, FinishBroadcast(0));
    assert s4.broadcasts == map[];
    assert s4 == Announced(snapshot);
    hide Apply, Enabled, IsRun, After;
    Before(c, s3, FinishBroadcast(0), rest);
    Before(c, s2, UnlockShard(0), [FinishBroadcast(0)] + rest);
    Before(c, s1, LockShard(0), [UnlockShard(0)] + ([FinishBroadcast(0)] + rest));
    steps := [Publish(snapshot)] + ([LockShard(0)] + ([UnlockShard(0)] + ([FinishBroadcast(0)] + rest)));
    Before(c, INITIAL, Publish(snapshot), [LockShard(0)] + ([UnlockShard(0)] + ([FinishBroadcast(0)] + rest)));
  }

  /** A client that joined afterwards, citing that ruleset but holding nothing, and has been replayed to. */
  ghost function JoinedAhead(snapshot: Snapshot): State {
    Announced(snapshot).(
      clients := map[0 := Client(-1, -1, snapshot.version, Some(0))],
      connections := map[0 := Connection(0, snapshot.version, Streaming, [], false, false, [])],
      nextId := 1, registered := {0}, connected := 1)
  }

  lemma JoiningAhead(c: Config, snapshot: Snapshot) returns (steps: seq<Step>)
    requires ValidConfig(c) && snapshot.version > 0
    ensures IsRun(c, Announced(snapshot), steps) && After(c, Announced(snapshot), steps) == JoinedAhead(snapshot)
  {
    var s := Announced(snapshot);
    var s1 := Apply(c, s, Join(0, -1, snapshot.version));
    var s2 := Apply(c, s1, Subscribe(0));
    var s3 := Apply(c, s2, Count(0));
    CurrentMissesNothing(s.log, c.historySize, snapshot.version);
    var s4 := Apply(c, s3, ReplayHistory(0));
    assert s3.connections[0] == Connection(0, snapshot.version, Replaying, [], false, false, []);
    assert s4.connections[0] == Connection(0, snapshot.version, Streaming, [], false, false, []);
    assert s4.connections.Keys == {0};
    assert s4.clients == JoinedAhead(snapshot).clients;
    assert s4.connections == JoinedAhead(snapshot).connections;
    assert s4.registered == {0} && s4.uncounted == {};
    assert s4 == JoinedAhead(snapshot);
    hide Apply, Enabled, IsRun, After;
    assert IsRun(c, s4, []) && After(c, s4, []) == s4 by { NoSteps(c, s4); }
    Before(c, s3, ReplayHistory(0), []);
    Before(c, s2, Count(0), [ReplayHistory(0)] + []);
    Before(c, s1, Subscribe(0), [Count(0)] + ([ReplayHistory(0)] + []));
    steps := [Join(0, -1, snapshot.version)] + ([Subscribe(0)] + ([Count(0)] + ([ReplayHistory(0)] + [])));
    Before(c, s, Join(0, -1, snapshot.version), [Subscribe(0)] + ([Count(0)] + ([ReplayHistory(0)] + [])));
  }

  lemma NoSteps(c: Config, s: State)
    requires c.historySize > 0
    ensures IsRun(c, s, []) && After(c, s, []) == s
  {
  }

  /** A client that holds nothing and cites the current version is sent nothing, and settles holding nothing. */
  lemma CitingMoreThanHeldIsLeftBehind(c: Config, snapshot: Snapshot) returns (steps: seq<Step>)
    requires ValidConfig(c) && c.shards == 1 && snapshot.version > 0
    ensures IsRun(c, INITIAL, steps) && Settled(After(c, INITIAL, steps))
    ensures var s := After(c, INITIAL, steps);
            && Attached(s, 0) && s.clients[0].connection.value in s.registered
            && CurrentVersion(s) == snapshot.version && s.clients[0].version == -1 && LeftBehind(s, 0)
  {
    var rest := JoiningAhead(c, snapshot);
    steps := Announcing(c, snapshot, rest);
    hide IsRun, After;
    assert After(c, INITIAL, steps) == JoinedAhead(snapshot);
  }

  /** The store's log and the clients' versions only go up. */
  ghost predicate NoRegress(s: State, t: State) {
    && s.log <= t.log && CurrentVersion(s) <= CurrentVersion(t)
    && forall k <- s.clients :: k in t.clients && s.clients[k].version <= t.clients[k].version
  }

  lemma ReceiveNeverRegresses(c: Config, s: State, k: nat)
    requires Increasing(s.log) && InFlightKnown(s) && ClientKnownAll(s) && Enabled(c, s, Receive(k))
    ensures NoRegress(s, ReceiveOne(s, k))
  {
    hide Increasing, Published;
    var conn := s.connections[s.clients[k].connection.value];
    assert ClientKnown(s, k);
    assert conn.wire[0] in conn.wire;
    if conn.wire[0].Ruleset? {
      PublishedPositive(s, conn.wire[0].version);
    }
  }

  lemma ServerStepNeverRegresses(c: Config, s: State, step: Step)
    requires ValidConfig(c) && Enabled(c, s, step) && (BroadcastStep(step) || HandlerStep(step))
    ensures Apply(c, s, step).clients == s.clients && Apply(c, s, step).log == s.log
  {
    hide Unlocked, ReplayFrames, CurrentOf, Members;
  }

  lemma OtherStepNeverRegresses(c: Config, s: State, step: Step)
    requires ValidConfig(c) && Enabled(c, s, step) && !step.Receive? && !BroadcastStep(step) && !HandlerStep(step)
    ensures NoRegress(s, Apply(c, s, step))
  {
    hide Unlocked, ReplayFrames, Members;
  }

  lemma SameNeverRegresses(s: State, t: State)
    requires t.clients == s.clients && t.log == s.log
    ensures NoRegress(s, t)
  {
  }

  /** No step takes a version away from a client or from the store. */
  lemma VersionsNeverDecrease(c: Config, s: State, step: Step)
    requires ValidConfig(c) && Safe(c, s) && Enabled(c, s, step)
    ensures NoRegress(s, Apply(c, s, step))
  {
    hide Increasing, Converging, NoRegress, InFlightKnown, ClientKnownAll;
    if step.Receive? {
      ReceiveNeverRegresses(c, s, step.client);
    } else if BroadcastStep(step) || HandlerStep(step) {
      ServerStepNeverRegresses(c, s, step);
      SameNeverRegresses(s, Apply(c, s, step));
    } else {
      OtherStepNeverRegresses(c, s, step);
    }
  }

  /** Over a whole run the store's version and every client's version only go up, and the log only grows. */
  lemma {:induction false} RunsNeverRegress(c: Config, s: State, steps: seq<Step>)
    requires ValidConfig(c) && Safe(c, s) && IsRun(c, s, steps)
    ensures NoRegress(s, After(c, s, steps))
    decreases |steps|
  {
    hide Apply, Enabled, Safe;
    if steps != [] {
      SafeKept(c, s, steps[0]);
      VersionsNeverDecrease(c, s, steps[0]);
      RunsNeverRegress(c, Apply(c, s, steps[0]), steps[1..]);
    }
  }
}
