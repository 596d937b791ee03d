/** The hub's counters and buffers under every interleaving. */
module HubAccounting {
  import opened Text
  import opened Store
  import opened Delivery

  /** Every registration is still present, was counted as dropped once, or was removed by shutdown. */
  ghost predicate Partitioned(
      ids: set<nat>, nextId: nat, registered: set<nat>, dropped: set<nat>, slowDropped: set<nat>, shutDown: set<nat>)
  {
    && ids == registered + dropped + shutDown
    && registered !! dropped && registered !! shutDown && dropped !! shutDown
    && slowDropped <= dropped
    && |ids| == nextId
    && forall id <- ids :: id < nextId
  }

  ghost predicate RegistrationsAccounted(s: State) {
    && Partitioned(s.connections.Keys, s.nextId, s.registered, s.dropped, s.slowDropped, s.shutDown)
    && s.uncounted <= s.connections.Keys
    && (forall p <- s.closing :: p.0 in s.connections && p.0 !in s.registered)
  }

  lemma OneMoreRegistration(
      ids: set<nat>, nextId: nat, registered: set<nat>, dropped: set<nat>, slowDropped: set<nat>, shutDown: set<nat>)
    requires Partitioned(ids, nextId, registered, dropped, slowDropped, shutDown)
    ensures Partitioned(ids + {nextId}, nextId + 1, registered + {nextId}, dropped, slowDropped, shutDown)
    ensures nextId !in ids
  {
  }

  ghost predicate CountersAccounted(s: State) {
    && s.connected + |s.uncounted| == |s.registered|
    && s.totalDropped == |s.dropped|
    && s.slowConsumers == |s.slowDropped|
  }

  ghost predicate ConnectionAccounted(c: Config, s: State, id: nat)
    requires id in s.connections
  {
    && |s.connections[id].buffer| <= c.bufferSize
    && (s.connections[id].done || s.connections[id].phase == Closed ==> id !in s.registered)
  }

  ghost predicate Accounted(c: Config, s: State) {
    && RegistrationsAccounted(s)
    && CountersAccounted(s)
    && forall id <- s.connections :: ConnectionAccounted(c, s, id)
  }

  lemma RemoveCounters(s: State, id: nat, slow: bool)
    requires RegistrationsAccounted(s) && CountersAccounted(s)
    ensures CountersAccounted(Remove(s, id, slow))
  {
    var t := Remove(s, id, slow);
    if id in s.registered {
      assert |t.dropped| == |s.dropped| + 1;
      assert |t.registered| == |s.registered| - 1;
      assert slow ==> id !in s.slowDropped && |t.slowDropped| == |s.slowDropped| + 1;
      assert !slow ==> t.slowDropped == s.slowDropped;
    }
  }

  lemma RemoveRegistrations(s: State, id: nat, slow: bool)
    requires RegistrationsAccounted(s) && id in s.connections
    ensures RegistrationsAccounted(Remove(s, id, slow))
  {
  }

  lemma RemoveAccounted(c: Config, s: State, id: nat, slow: bool)
    requires Accounted(c, s) && id in s.connections
    ensures Accounted(c, Remove(s, id, slow))
  {
    hide RegistrationsAccounted, CountersAccounted;
    RemoveCounters(s, id, slow);
    RemoveRegistrations(s, id, slow);
    var t := Remove(s, id, slow);
    forall i | i in t.connections ensures ConnectionAccounted(c, t, i) {
      assert ConnectionAccounted(c, s, i);
    }
  }

  lemma CloseMembersRegistrations(s: State, members: set<nat>)
    requires RegistrationsAccounted(s) && members <= s.registered
    ensures RegistrationsAccounted(CloseMembers(s, members))
  {
    assert CloseMembers(s, members).connections.Keys == s.connections.Keys;
  }

  lemma CloseMembersCounters(s: State, members: set<nat>)
    requires CountersAccounted(s) && members <= s.registered
    ensures CountersAccounted(CloseMembers(s, members))
  {
    assert |s.registered - members| == |s.registered| - |members|;
  }

  /** Shutdown takes members off the registry without counting them as dropped. */
  lemma CloseMembersAccounted(c: Config, s: State, members: set<nat>)
    requires Accounted(c, s) && members <= s.registered
    ensures Accounted(c, CloseMembers(s, members))
  {
    CloseMembersRegistrations(s, members);
    CloseMembersCounters(s, members);
    hide RegistrationsAccounted, CountersAccounted;
    var t := CloseMembers(s, members);
    forall i | i in t.connections ensures ConnectionAccounted(c, t, i) {
      assert ConnectionAccounted(c, s, i);
    }
  }

  /** What subscribing changes in the registry. */
  ghost predicate Registers(s: State, t: State, id: nat) {
    && id == s.nextId && t.nextId == id + 1
    && id in t.connections && t.connections == s.connections[id := t.connections[id]]
    && t.connections[id].buffer == [] && !t.connections[id].done && t.connections[id].phase == Replaying
    && t.registered == s.registered + {id} && t.uncounted == s.uncounted + {id} && t.closing == s.closing
    && t.connected == s.connected && t.totalDropped == s.totalDropped && t.slowConsumers == s.slowConsumers
    && t.dropped == s.dropped && t.slowDropped == s.slowDropped && t.shutDown == s.shutDown
  }

  lemma SubscribeRegisters(c: Config, s: State, k: nat)
    requires ValidConfig(c) && Enabled(c, s, Subscribe(k))
    ensures Registers(s, Apply(c, s, Subscribe(k)), s.nextId)
  {
    hide Unlocked;
  }

  lemma RegisterKeepsRegistrations(s: State, t: State, id: nat)
    requires RegistrationsAccounted(s) && Registers(s, t, id)
    ensures RegistrationsAccounted(t) && id !in s.connections && id !in s.registered && id !in s.uncounted
  {
    OneMoreRegistration(s.connections.Keys, id, s.registered, s.dropped, s.slowDropped, s.shutDown);
    assert t.connections.Keys == s.connections.Keys + {id};
    assert s.registered <= s.connections.Keys;
    hide Partitioned;
    assert forall p <- t.closing :: p.0 in t.connections && p.0 !in t.registered;
  }

  lemma RegisterKeepsCounters(s: State, t: State, id: nat)
    requires CountersAccounted(s) && Registers(s, t, id) && id !in s.registered && id !in s.uncounted
    ensures CountersAccounted(t)
  {
    assert |s.registered + {id}| == |s.registered| + 1;
    assert |s.uncounted + {id}| == |s.uncounted| + 1;
  }

  lemma RegisterKeepsConnections(c: Config, s: State, t: State, id: nat, i: nat)
    requires Registers(s, t, id) && i in t.connections
    requires i in s.connections ==> ConnectionAccounted(c, s, i)
    ensures ConnectionAccounted(c, t, i)
  {
  }

  lemma SubscribeAccounted(c: Config, s: State, k: nat)
    requires ValidConfig(c) && Accounted(c, s) && Enabled(c, s, Subscribe(k))
    ensures Accounted(c, Apply(c, s, Subscribe(k)))
  {
    hide Apply, Enabled, RegistrationsAccounted, CountersAccounted, ConnectionAccounted, Registers;
    var t := Apply(c, s, Subscribe(k));
    SubscribeRegisters(c, s, k);
    RegisterKeepsRegistrations(s, t, s.nextId);
    RegisterKeepsCounters(s, t, s.nextId);
    forall i | i in t.connections ensures ConnectionAccounted(c, t, i) {
      RegisterKeepsConnections(c, s, t, s.nextId, i);
    }
  }

  lemma CountAccounted(c: Config, s: State, id: nat)
    requires ValidConfig(c) && Accounted(c, s) && Enabled(c, s, Count(id))
    ensures Accounted(c, Apply(c, s, Count(id)))
  {
    var t := Apply(c, s, Count(id));
    assert |t.uncounted| == |s.uncounted| - 1;
    forall i | i in t.connections ensures ConnectionAccounted(c, t, i) {
      assert ConnectionAccounted(c, s, i);
    }
  }

  /** Updating one connection within bounds, and shortening the list of closes, keeps the books. */
  lemma ConnectionStepAccounted(c: Config, s: State, t: State, id: nat)
    requires Accounted(c, s) && id in s.connections && id in t.connections
    requires t == s.(connections := s.connections[id := t.connections[id]], broadcasts := t.broadcasts,
                     clients := t.clients, closing := t.closing)
    requires t.closing <= s.closing && ConnectionAccounted(c, t, id)
    ensures Accounted(c, t)
  {
    assert t.connections.Keys == s.connections.Keys;
    forall i | i in t.connections ensures ConnectionAccounted(c, t, i) {
      assert ConnectionAccounted(c, s, i);
    }
  }

  /** Steps that leave connections, registry and counters alone. */
  lemma UntouchedAccounted(c: Config, s: State, t: State)
    requires Accounted(c, s)
    requires t == s.(log := t.log, broadcasts := t.broadcasts, nextBroadcast := t.nextBroadcast, clients := t.clients)
    ensures Accounted(c, t)
  {
    forall i | i in t.connections ensures ConnectionAccounted(c, t, i) {
      assert ConnectionAccounted(c, s, i);
    }
  }

  lemma HandlerStepAccounted(c: Config, s: State, step: Step)
    requires ValidConfig(c) && Accounted(c, s) && Enabled(c, s, step) && HandlerStep(step)
    ensures Accounted(c, Apply(c, s, step))
  {
    hide ReplayFrames, RegistrationsAccounted, CountersAccounted, CurrentOf;
    assert ConnectionAccounted(c, s, step.id);
    if step.CloseSubscriber? {
      ClosingUnregistered(s, step.id, step.slow);
    }
    ConnectionStepAccounted(c, s, Apply(c, s, step), step.id);
  }

  lemma ClosingUnregistered(s: State, id: nat, slow: bool)
    requires RegistrationsAccounted(s) && (id, slow) in s.closing
    ensures id !in s.registered
  {
  }

  lemma SendAccounted(c: Config, s: State, b: nat, id: nat)
    requires ValidConfig(c) && Accounted(c, s) && Enabled(c, s, Send(b, id))
    ensures Accounted(c, Apply(c, s, Send(b, id)))
  {
    hide RegistrationsAccounted, CountersAccounted;
    var t := Apply(c, s, Send(b, id));
    assert ConnectionAccounted(c, s, id);
    if |s.connections[id].buffer| < c.bufferSize {
      ConnectionStepAccounted(c, s, t, id);
    } else {
      UntouchedAccounted(c, s, t);
    }
  }

  lemma ReceiveAccounted(c: Config, s: State, k: nat)
    requires ValidConfig(c) && Accounted(c, s) && Enabled(c, s, Receive(k))
    ensures Accounted(c, Apply(c, s, Receive(k)))
  {
    hide RegistrationsAccounted, CountersAccounted;
    var id := s.clients[k].connection.value;
    assert ConnectionAccounted(c, s, id);
    ConnectionStepAccounted(c, s, Apply(c, s, Receive(k)), id);
  }

  lemma EvictAccounted(c: Config, s: State, b: nat, id: nat)
    requires ValidConfig(c) && Accounted(c, s) && Enabled(c, s, Evict(b, id)) && id in s.connections
    ensures Accounted(c, Apply(c, s, Evict(b, id)))
  {
    hide Accounted, Unlocked;
    var shorter := UpdateBroadcast(s, b, s.broadcasts[b].(evict := s.broadcasts[b].evict - {id}));
    UntouchedAccounted(c, s, shorter);
    RemoveAccounted(c, shorter, id, true);
  }

  lemma UnsubscribeAccounted(c: Config, s: State, id: nat)
    requires ValidConfig(c) && Accounted(c, s) && Enabled(c, s, Unsubscribe(id))
    ensures Accounted(c, Apply(c, s, Unsubscribe(id)))
  {
    hide RegistrationsAccounted, CountersAccounted, Unlocked;
    RemoveAccounted(c, s, id, false);
    var removed := Remove(s, id, false);
    assert ConnectionAccounted(c, removed, id);
    var closed := UpdateConnection(removed, id, s.connections[id].(phase := Closed));
    ConnectionStepAccounted(c, removed, closed, id);
    assert Apply(c, s, Unsubscribe(id)) == closed;
  }

  /** Every step keeps the accounts; an eviction list names known subscribers. */
  lemma AccountedKept(c: Config, s: State, step: Step)
    requires ValidConfig(c) && Accounted(c, s) && Enabled(c, s, step)
    requires step.Evict? ==> step.id in s.connections
    ensures Accounted(c, Apply(c, s, step))
  {
    hide Accounted, ReplayFrames, Unlocked, ConnectionAccounted, CurrentOf;
    match step {
      case Subscribe(k) => SubscribeAccounted(c, s, k);
      case Count(id) => CountAccounted(c, s, id);
      case Send(b, id) => SendAccounted(c, s, b, id);
      case Receive(k) => ReceiveAccounted(c, s, k);
      case Evict(b, id) => EvictAccounted(c, s, b, id);
      case Unsubscribe(id) => UnsubscribeAccounted(c, s, id);
      case CloseShard(shard) => CloseMembersAccounted(c, s, Members(c, s, shard));
      case Publish(_) => UntouchedAccounted(c, s, Apply(c, s, step));
      case LockShard(_) => UntouchedAccounted(c, s, Apply(c, s, step));
      case UnlockShard(_) => UntouchedAccounted(c, s, Apply(c, s, step));
      case FinishBroadcast(_) => UntouchedAccounted(c, s, Apply(c, s, step));
      case Join(_, _, _) => UntouchedAccounted(c, s, Apply(c, s, step));
      case Disconnect(_) => UntouchedAccounted(c, s, Apply(c, s, step));
      case CloseSubscriber(_, _) => HandlerStepAccounted(c, s, step);
      case ReplayHistory(_) => HandlerStepAccounted(c, s, step);
      case ReadCurrent(_) => HandlerStepAccounted(c, s, step);
      case Deliver(_) => HandlerStepAccounted(c, s, step);
      case SeeDone(_) => HandlerStepAccounted(c, s, step);
      case SeeHangup(_) => HandlerStepAccounted(c, s, step);
    }
  }
}

/** The accounts over whole runs. */
module HubRuns {
  import opened Delivery
  import opened DeliverySafety
  import opened HubAccounting

  lemma {:induction false} RunsStayAccounted(c: Config, s: State, steps: seq<Step>)
    requires ValidConfig(c) && Safe(c, s) && Accounted(c, s) && IsRun(c, s, steps)
    ensures Accounted(c, After(c, s, steps))
    decreases |steps|
  {
    hide Apply, Accounted;
    if steps != [] {
      SafeKept(c, s, steps[0]);
      EvictedKnown(c, s, steps[0]);
      AccountedKept(c, s, steps[0]);
      RunsStayAccounted(c, Apply(c, s, steps[0]), steps[1..]);
    }
  }

  lemma EvictedKnown(c: Config, s: State, step: Step)
    requires Structure(c, s) && Enabled(c, s, step)
    ensures step.Evict? ==> step.id in s.connections
  {
    if step.Evict? {
      assert BroadcastInOrder(c, s, s.broadcasts[step.b]);
    }
  }

  /**
   * After any run: registrations made equal those present plus those counted as dropped plus those shut down,
   * the connection counter is exact up to subscribes not yet counted, a closed subscriber is off the
   * registry, and no buffer exceeds its capacity.
   */
  lemma HubBooksBalance(c: Config, steps: seq<Step>)
    requires ValidConfig(c) && IsRun(c, INITIAL, steps)
    ensures var s := After(c, INITIAL, steps);
            && s.nextId == |s.registered| + s.totalDropped + |s.shutDown|
            && s.connected + |s.uncounted| == |s.registered|
            && s.slowConsumers <= s.totalDropped
            && (forall id <- s.connections :: s.connections[id].done ==> id !in s.registered)
            && (forall id <- s.connections :: |s.connections[id].buffer| <= c.bufferSize)
  {
    hide IsRun, After, Safe;
    InitiallySafe(c);
    RunsStayAccounted(c, INITIAL, steps);
    var s := After(c, INITIAL, steps);
    var all := s.connections.Keys;
    assert |s.registered + s.dropped| == |s.registered| + |s.dropped|;
    assert |all| == |s.registered + s.dropped| + |s.shutDown|;
    SmallerSet(s.slowDropped, s.dropped);
    forall id | id in s.connections ensures ConnectionAccounted(c, s, id) {}
  }

  lemma SmallerSet(a: set<nat>, b: set<nat>)
    requires a <= b
    ensures |a| <= |b|
  {
    assert b == a + (b - a);
  }
}
