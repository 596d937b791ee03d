/** The sharded registry as one goroutine at a time sees it: a flat map of subscribers with bounded buffers. */
module Hub {
  import opened Text
  import opened Words
  import opened Store

  type Id = seq<Byte>

  const FNV_OFFSET: Word := 2166136261
  const FNV_PRIME: Word := 16777619

  /** FNV-1a over the bytes of an id. */
  function Fnv32a(id: Id): Word {
    if id == [] then FNV_OFFSET
    else Wrap(XorWord(Fnv32a(id[..|id| - 1]), id[|id| - 1]) * FNV_PRIME)
  }

  datatype DropReason = DropClosed | DropSlowConsumer

  class Subscriber {
    const id: Id
    const environment: string
    const capacity: nat
    var messages: seq<Message>
    var done: bool
    var reason: DropReason

    constructor (id: Id, environment: string, capacity: nat)
      ensures this.id == id && this.environment == environment && this.capacity == capacity
      ensures messages == [] && !done
    {
      this.id := id;
      this.environment := environment;
      this.capacity := capacity;
      messages := [];
      done := false;
      reason := DropClosed;
    }

    /** Closes once; a second close keeps the first reason. */
    method Close(reason: DropReason)
      modifies this
      ensures done && messages == old(messages)
      ensures this.reason == if old(done) then old(this.reason) else reason
    {
      if !done {
        this.reason := reason;
        done := true;
      }
    }

    /** A send that never blocks: false when the buffer is full. */
    method Offer(message: Message) returns (accepted: bool)
      modifies this
      ensures accepted == (|old(messages)| < capacity)
      ensures messages == if accepted then old(messages) + [message] else old(messages)
      ensures done == old(done) && reason == old(reason)
    {
      accepted := |messages| < capacity;
      if accepted {
        messages := messages + [message];
      }
    }
  }

  function ShardOf(shardCount: nat, id: Id): (i: nat)
    requires shardCount > 0
    ensures i < shardCount
  {
    Fnv32a(id) % shardCount
  }

  type Shard = map<string, map<Id, Subscriber>>

  /** The subscriber under an environment and id, if the shard has one. */
  predicate Holds(shard: Shard, environment: string, id: Id) {
    environment in shard && id in shard[environment]
  }

  /** Every subscriber sits in the shard of its id, under its environment; there are no empty environments. */
  ghost predicate Sharded(n: nat, shards: seq<Shard>, registry: map<(string, Id), Subscriber>)
    requires n > 0
  {
    && |shards| == n
    && (forall e, id :: (e, id) in registry <==> Holds(shards[ShardOf(n, id)], e, id))
    && (forall e, id :: (e, id) in registry ==> shards[ShardOf(n, id)][e][id] == registry[(e, id)])
    && (forall i, e :: 0 <= i < n && e in shards[i] ==> shards[i][e] != map[])
    && (forall i, e, id :: 0 <= i < n && Holds(shards[i], e, id) ==> ShardOf(n, id) == i)
  }

  function Put(shard: Shard, environment: string, id: Id, subscriber: Subscriber): Shard {
    var byId: map<Id, Subscriber> := if environment in shard then shard[environment] else map[];
    shard[environment := byId[id := subscriber]]
  }

  function Delete(shard: Shard, environment: string, id: Id): Shard
    requires environment in shard
  {
    var byId := shard[environment] - {id};
    if byId == map[] then shard - {environment} else shard[environment := byId]
  }

  lemma PutHolds(shard: Shard, environment: string, id: Id, subscriber: Subscriber, e: string, i: Id)
    ensures Holds(Put(shard, environment, id, subscriber), e, i) <==>
            (e == environment && i == id) || Holds(shard, e, i)
    ensures Holds(Put(shard, environment, id, subscriber), e, i) ==>
              Put(shard, environment, id, subscriber)[e][i] == if e == environment && i == id then subscriber
                else shard[e][i]
  {
  }

  lemma DeleteHolds(shard: Shard, environment: string, id: Id, e: string, i: Id)
    requires environment in shard
    ensures Holds(Delete(shard, environment, id), e, i) <==> Holds(shard, e, i) && !(e == environment && i == id)
    ensures Holds(Delete(shard, environment, id), e, i) ==> Delete(shard, environment, id)[e][i] == shard[e][i]
  {
    if environment in shard && i in shard[environment] && i != id {
      assert i in shard[environment] - {id};
    }
  }

  lemma PutSharded(n: nat, shards: seq<Shard>, registry: map<(string, Id), Subscriber>, environment: string, id: Id,
      subscriber: Subscriber)
    requires n > 0 && Sharded(n, shards, registry)
    ensures var i := ShardOf(n, id);
            Sharded(n, shards[i := Put(shards[i], environment, id, subscriber)],
              registry[(environment, id) := subscriber])
  {
    hide Holds, ShardOf;
    var at := ShardOf(n, id);
    forall e, i ensures Holds(Put(shards[at], environment, id, subscriber), e, i) <==>
      (e == environment && i == id) || Holds(shards[at], e, i) {
      PutHolds(shards[at], environment, id, subscriber, e, i);
    }
    forall e, i | Holds(Put(shards[at], environment, id, subscriber), e, i)
      ensures HeldIs(Put(shards[at], environment, id, subscriber), e, i,
                     if e == environment && i == id then subscriber else registry[(e, i)])
    {
      PutHolds(shards[at], environment, id, subscriber, e, i);
    }
  }

  ghost predicate HeldIs(shard: Shard, e: string, i: Id, subscriber: Subscriber) {
    Holds(shard, e, i) && shard[e][i] == subscriber
  }

  lemma DeleteLeavesNoEmpty(shard: Shard, environment: string, id: Id)
    requires environment in shard && forall e <- shard :: shard[e] != map[]
    ensures forall e <- Delete(shard, environment, id) :: Delete(shard, environment, id)[e] != map[]
  {
  }

  lemma DeleteSharded(n: nat, shards: seq<Shard>, registry: map<(string, Id), Subscriber>, environment: string, id: Id)
    requires n > 0 && Sharded(n, shards, registry) && (environment, id) in registry
    ensures var i := ShardOf(n, id);
            && Holds(shards[i], environment, id)
            && Sharded(n, shards[i := Delete(shards[i], environment, id)], registry - {(environment, id)})
  {
    var at := ShardOf(n, id);
    assert Holds(shards[at], environment, id) && environment in shards[at];
    hide ShardOf, Delete, Holds;
    var after := Delete(shards[at], environment, id);
    DeleteLeavesNoEmpty(shards[at], environment, id);
    forall e, i ensures Holds(after, e, i) <==> Holds(shards[at], e, i) && !(e == environment && i == id) {
      DeleteHolds(shards[at], environment, id, e, i);
    }
    forall e, i | Holds(after, e, i)
      ensures HeldIs(after, e, i, registry[(e, i)])
    {
      DeleteHolds(shards[at], environment, id, e, i);
    }
  }

  lemma PutSize(registry: map<(string, Id), Subscriber>, k: (string, Id), subscriber: Subscriber)
    ensures |registry[k := subscriber]| == |registry| + if k in registry then 0 else 1
  {
    assert registry[k := subscriber].Keys == registry.Keys + {k};
  }

  lemma OneLess(registry: map<(string, Id), Subscriber>, k: (string, Id))
    requires k in registry
    ensures |registry - {k}| == |registry| - 1
  {
    assert (registry - {k}).Keys == registry.Keys - {k};
  }

  class SubscriberHub {
    const shardCount: nat
    const bufferSize: nat
    var shards: seq<map<string, map<Id, Subscriber>>>
    var connected: int
    var totalDropped: nat
    var slowConsumers: nat
    var sent: nat
    /** The registry without its sharding. */
    ghost var registry: map<(string, Id), Subscriber>
    /** Registrations that a later one under the same environment and id has replaced. */
    ghost var overwritten: nat

    constructor (shards: int, bufferSize: int)
      ensures Valid() && registry == map[] && overwritten == totalDropped == slowConsumers == sent == 0
      ensures shardCount == (if shards <= 0 then 32 else shards) && this.bufferSize == if bufferSize <= 0 then 16
              else bufferSize
    {
      var count := if shards <= 0 then 32 else shards;
      shardCount := count;
      this.bufferSize := if bufferSize <= 0 then 16 else bufferSize;
      this.shards := seq(count, i => map[]);
      connected := 0;
      totalDropped, slowConsumers, sent := 0, 0, 0;
      registry, overwritten := map[], 0;
    }

    function ShardFor(id: Id): nat
      requires shardCount > 0
    {
      ShardOf(shardCount, id)
    }

    ghost predicate Entry(k: (string, Id), subscriber: Subscriber)
      reads subscriber
    {
      && subscriber.environment == k.0 && subscriber.id == k.1 && subscriber.capacity == bufferSize
      && !subscriber.done && |subscriber.messages| <= bufferSize
    }

    ghost predicate Entries(subscribers: map<(string, Id), Subscriber>)
      reads subscribers.Values
    {
      forall k <- subscribers :: Entry(k, subscribers[k])
    }

    ghost predicate Valid()
      reads this`shards, this`connected, this`registry, this`overwritten, registry.Values
    {
      && shardCount > 0 && bufferSize > 0
      && Sharded(shardCount, shards, registry)
      && Entries(registry)
      && connected == |registry| + overwritten
    }

    /**
     * Registers under the environment and id; a registration already there is replaced, neither closed nor
     * uncounted.
     */
    method Subscribe(id: Id, environment: string) returns (subscriber: Subscriber)
      requires Valid()
      modifies this
      ensures Valid() && fresh(subscriber) && subscriber.messages == []
      ensures registry == old(registry)[(environment, id) := subscriber]
      ensures overwritten == old(overwritten) + if (environment, id) in old(registry) then 1 else 0
      ensures totalDropped == old(totalDropped) && slowConsumers == old(slowConsumers) && sent == old(sent)
    {
      hide Sharded, ShardOf, Put, Entries;
      subscriber := new Subscriber(id, environment, bufferSize);
      EntriesWith(registry, (environment, id), subscriber);
      PutSharded(shardCount, shards, registry, environment, id, subscriber);
      PutSize(registry, (environment, id), subscriber);
      var i := ShardFor(id);
      assert |shards| == shardCount by { ShardCount(); }
      shards := shards[i := Put(shards[i], environment, id, subscriber)];
      connected := connected + 1;
      overwritten := overwritten + if (environment, id) in registry then 1 else 0;
      registry := registry[(environment, id) := subscriber];
    }

    lemma ShardCount()
      requires shardCount > 0 && Sharded(shardCount, shards, registry)
      ensures |shards| == shardCount
    {
    }

    lemma EntriesWithout(subscribers: map<(string, Id), Subscriber>, k: (string, Id))
      requires Entries(subscribers)
      ensures Entries(subscribers - {k})
    {
      hide Entry;
    }

    lemma EntriesWith(subscribers: map<(string, Id), Subscriber>, k: (string, Id), subscriber: Subscriber)
      requires Entries(subscribers) && Entry(k, subscriber)
      ensures Entries(subscribers[k := subscriber])
    {
      hide Entry;
    }

    /** Takes one entry out of its shard. */
    method DeleteEntry(environment: string, id: Id)
      requires Valid() && (environment, id) in registry
      modifies this`shards, this`connected, this`registry
      ensures Valid()
      ensures registry == old(registry) - {(environment, id)} && |registry| == |old(registry)| - 1
    {
      hide Sharded, Delete, ShardOf, Holds, Entries;
      var i := ShardFor(id);
      EntriesWithout(registry, (environment, id));
      RegisteredIffHeld(environment, id);
      DeleteSharded(shardCount, shards, registry, environment, id);
      OneLess(registry, (environment, id));
      ghost var rest := registry - {(environment, id)};
      var left := shards[i := Delete(shards[i], environment, id)];
      assert Sharded(shardCount, left, rest) && Entries(rest);
      shards := left;
      connected := connected - 1;
      registry := rest;
    }

    /** The part of a removal under the shard's lock: the entry and the counters. */
    method Unregister(environment: string, id: Id, reason: DropReason)
      requires Valid()
      modifies this
      ensures Valid()
      ensures registry == old(registry) - {(environment, id)} && overwritten == old(overwritten)
      ensures totalDropped == old(totalDropped) + |old(registry)| - |registry|
      ensures slowConsumers == old(slowConsumers) + if reason == DropSlowConsumer then |old(registry)| - |registry|
              else 0
      ensures sent == old(sent)
    {
      hide Valid, ShardOf, Holds;
      RegisteredNow(environment, id);
      if Holds(shards[ShardFor(id)], environment, id) {
        DeleteEntry(environment, id);
        totalDropped := totalDropped + 1;
        if reason == DropSlowConsumer {
          slowConsumers := slowConsumers + 1;
        }
      } else {
        assert registry - {(environment, id)} == registry;
      }
    }

    lemma RegisteredNow(environment: string, id: Id)
      requires Valid()
      ensures shardCount > 0 && |shards| == shardCount
      ensures (environment, id) in registry <==> Holds(shards[ShardFor(id)], environment, id)
    {
      hide Entry;
      RegisteredIffHeld(environment, id);
    }

    lemma RegisteredIffHeld(environment: string, id: Id)
      requires shardCount > 0 && Sharded(shardCount, shards, registry)
      ensures |shards| == shardCount
      ensures (environment, id) in registry <==> Holds(shards[ShardFor(id)], environment, id)
      ensures Holds(shards[ShardFor(id)], environment, id) ==> environment in shards[ShardFor(id)]
    {
    }

    /**
     * Removes whatever is registered under the subscriber's environment and id, and closes the subscriber itself.
     * They differ only if the id was taken over; then the newer registration goes, without being closed.
     */
    method Remove(subscriber: Subscriber, reason: DropReason)
      requires Valid()
      modifies this, subscriber
      ensures Valid()
      ensures registry == old(registry) - {KeyOf(subscriber)} && overwritten == old(overwritten)
      ensures totalDropped == old(totalDropped) + |old(registry)| - |registry|
      ensures slowConsumers == old(slowConsumers) + if reason == DropSlowConsumer then |old(registry)| - |registry|
              else 0
      ensures sent == old(sent)
      ensures subscriber.done && subscriber.messages == old(subscriber.messages)
      ensures subscriber.reason == if old(subscriber.done) then old(subscriber.reason) else reason
    {
      hide Sharded;
      Unregister(subscriber.environment, subscriber.id, reason);
      assert forall k <- registry :: Entry(k, registry[k]) && registry[k] != subscriber;
      subscriber.Close(reason);
    }

    /** The buffers of the registered subscribers. */
    ghost function Buffers(): map<(string, Id), seq<Message>>
      reads this`registry, registry.Values
    {
      Messages(registry)
    }

    /** The list names registered subscribers of the environment, once each: those visited whose buffer was full. */
    ghost predicate Evicting(environment: string, was: map<(string, Id), seq<Message>>, visited: set<Id>,
        evict: seq<Subscriber>)
      reads this
    {
      && (forall s <- evict ::
           s.environment == environment && (environment, s.id) in registry && registry[(environment, s.id)] == s)
      && (forall id :: id in IdsIn(evict) <==>
           id in visited && (environment, id) in was && |was[(environment, id)]| >= bufferSize)
      && (forall i, j :: 0 <= i < j < |evict| ==> evict[i].id != evict[j].id)
    }

    /** Offers the message, without blocking, to every subscriber of the environment; the full ones go on the list. */
    method SendAll(environment: string, message: Message) returns (delivered: nat, evict: seq<Subscriber>)
      requires Valid()
      modifies registry.Values
      ensures Valid()
      ensures var ids := IdsOf(registry, environment);
              && Buffers() == OfferedTo(old(Buffers()), environment, message, ids, bufferSize)
              && Evicting(environment, old(Buffers()), ids, evict)
              && delivered + |evict| == |ids|
    {
      hide Sharded, ShardOf, Fnv32a, Evicting, OfferedTo, Buffers, Entry, IdsOf;
      NothingOffered(environment, message);
      delivered, evict := 0, [];
      ghost var was := Buffers();
      ghost var visited: set<Id> := {};
      ShardCount();
      for i := 0 to |shards|
        invariant Valid()
        invariant forall id :: id in visited <==> (environment, id) in registry && ShardOf(shardCount, id) < i
        invariant Buffers() == OfferedTo(was, environment, message, visited, bufferSize)
        invariant Evicting(environment, was, visited, evict)
        invariant delivered + |evict| == |visited|
      {
        var subscribers: map<Id, Subscriber> := if environment in shards[i] then shards[i][environment] else map[];
        ShardContents(i, environment, subscribers);
        var more, full := SendShard(environment, message, subscribers, was, visited, evict);
        delivered, evict := delivered + more, full;
        visited := visited + subscribers.Keys;
      }
      AllVisited(environment, visited);
    }

    lemma AllVisited(environment: string, visited: set<Id>)
      requires forall id :: id in visited <==> (environment, id) in registry
      ensures visited == IdsOf(registry, environment)
    {
      forall id | id in visited ensures id in IdsOf(registry, environment) {
        assert (environment, id) in registry;
      }
    }

    method SendShard(environment: string, message: Message, subscribers: map<Id, Subscriber>,
                     ghost was: map<(string, Id), seq<Message>>, ghost before: set<Id>, evicting: seq<Subscriber>)
      returns (delivered: nat, evict: seq<Subscriber>)
      requires Valid()
      requires forall id <- subscribers ::
                 (environment, id) in registry && subscribers[id] == registry[(environment, id)] && id !in before
      requires was.Keys == registry.Keys && Buffers() == OfferedTo(was, environment, message, before, bufferSize)
      requires Evicting(environment, was, before, evicting)
      modifies registry.Values
      ensures Valid()
      ensures Buffers() == OfferedTo(was, environment, message, before + subscribers.Keys, bufferSize)
      ensures Evicting(environment, was, before + subscribers.Keys, evict)
      ensures delivered + |evict| == |evicting| + |before + subscribers.Keys| - |before|
    {
      hide Valid, Evicting, OfferedTo, Buffers;
      delivered, evict := 0, evicting;
      var remaining := subscribers.Keys;
      ghost var visited := before;
      while remaining != {}
        invariant Valid()
        invariant remaining <= subscribers.Keys && remaining !! visited
        invariant visited + remaining == before + subscribers.Keys
        invariant Buffers() == OfferedTo(was, environment, message, visited, bufferSize)
        invariant Evicting(environment, was, visited, evict)
        invariant delivered + |evict| == |evicting| + |visited| - |before|
        decreases remaining
      {
        var id :| id in remaining;
        remaining := remaining - {id};
        var accepted := OfferOne(environment, message, id, subscribers[id], was, visited);
        EntryMatches(environment, id);
        if accepted {
          EvictingSkip(environment, was, visited, evict, id);
          delivered := delivered + 1;
        } else {
          EvictingOneMore(environment, was, visited, evict, subscribers[id]);
          evict := evict + [subscribers[id]];
        }
        visited := visited + {id};
      }
    }

    lemma EntryMatches(environment: string, id: Id)
      requires Valid() && (environment, id) in registry
      ensures registry[(environment, id)].environment == environment && registry[(environment, id)].id == id
    {
      hide Sharded;
      assert Entry((environment, id), registry[(environment, id)]);
    }

    /** One non-blocking send. */
    method OfferOne(environment: string, message: Message, id: Id, subscriber: Subscriber,
                    ghost was: map<(string, Id), seq<Message>>, ghost visited: set<Id>)
      returns (accepted: bool)
      requires Valid() && (environment, id) in registry && registry[(environment, id)] == subscriber && id !in visited
      requires was.Keys == registry.Keys && Buffers() == OfferedTo(was, environment, message, visited, bufferSize)
      modifies subscriber
      ensures Valid()
      ensures accepted == (|was[(environment, id)]| < bufferSize)
      ensures Buffers() == OfferedTo(was, environment, message, visited + {id}, bufferSize)
    {
      hide Sharded;
      ghost var k := (environment, id);
      assert Entry(k, subscriber);
      assert Buffers()[k] == subscriber.messages == was[k];
      accepted := subscriber.Offer(message);
      forall j | j in registry && j != k ensures registry[j] != subscriber {
        assert Entry(j, registry[j]);
      }
    }

    lemma EvictingOneMore(environment: string, was: map<(string, Id), seq<Message>>, visited: set<Id>,
        evict: seq<Subscriber>, subscriber: Subscriber)
      requires Evicting(environment, was, visited, evict)
      requires subscriber.environment == environment && subscriber.id !in visited
      requires (environment, subscriber.id) in registry && registry[(environment, subscriber.id)] == subscriber
      requires (environment, subscriber.id) in was && |was[(environment, subscriber.id)]| >= bufferSize
      ensures Evicting(environment, was, visited + {subscriber.id}, evict + [subscriber])
    {
      var more := evict + [subscriber];
      forall id ensures id in IdsIn(more) <==> id in IdsIn(evict) || id == subscriber.id {
        assert subscriber in more && forall s :: s in more <==> s in evict || s == subscriber;
      }
      forall i | 0 <= i < |evict| ensures evict[i].id != subscriber.id {
        assert evict[i] in evict;
      }
    }

    lemma EvictingSkip(environment: string, was: map<(string, Id), seq<Message>>, visited: set<Id>,
        evict: seq<Subscriber>, id: Id)
      requires Evicting(environment, was, visited, evict)
      requires (environment, id) in was && |was[(environment, id)]| < bufferSize
      ensures Evicting(environment, was, visited + {id}, evict)
    {
    }

    lemma NothingOffered(environment: string, message: Message)
      requires Valid()
      ensures Buffers() == OfferedTo(Buffers(), environment, message, {}, bufferSize)
      ensures Evicting(environment, Buffers(), {}, [])
      ensures Buffers().Keys == registry.Keys
    {
      hide Sharded, Entry;
      assert Buffers().Keys == registry.Keys;
    }

    /** Removes the listed subscribers, after the broadcast has let go of every shard. */
    method EvictAll(evict: seq<Subscriber>)
      requires Valid()
      requires Listed(registry, evict) && forall s <- evict :: !s.done
      modifies this, evict
      ensures Valid()
      ensures registry == old(registry) - KeysIn(evict) && |registry| == |old(registry)| - |evict|
      ensures totalDropped == old(totalDropped) + |evict| && slowConsumers == old(slowConsumers) + |evict|
              && sent == old(sent)
      ensures overwritten == old(overwritten)
      ensures forall s <- evict :: s.messages == old(s.messages) && s.done && s.reason == DropSlowConsumer
    {
      hide Valid, KeysIn, KeyOf, Listed, EvictedUpTo;
      ghost var start, was := registry, seq(|evict|, i requires 0 <= i < |evict| reads evict => evict[i].messages);
      NoKeys();
      NoneEvicted(evict, was);
      for i := 0 to |evict|
        invariant Valid()
        invariant registry == start - KeysIn(evict[..i]) && |registry| == |start| - i
        invariant totalDropped == old(totalDropped) + i && slowConsumers == old(slowConsumers) + i && sent == old(sent)
        invariant overwritten == old(overwritten)
        invariant EvictedUpTo(evict, was, i)
      {
        NextEvicted(start, evict, i);
        EvictNext(evict, was, i);
      }
      assert evict[..|evict|] == evict;
      AllEvicted(evict, was);
    }

    /** The first i are closed as slow, the others open, and no buffer has changed. */
    static ghost predicate EvictedUpTo(evict: seq<Subscriber>, was: seq<seq<Message>>, i: nat)
      reads evict
    {
      && |was| == |evict|
      && (forall j :: 0 <= j < |evict| ==> evict[j].messages == was[j])
      && (forall j :: 0 <= j < |evict| ==> evict[j].done == (j < i))
      && (forall j :: 0 <= j < |evict| && j < i ==> evict[j].reason == DropSlowConsumer)
    }

    lemma NoneEvicted(evict: seq<Subscriber>, was: seq<seq<Message>>)
      requires forall s <- evict :: !s.done
      requires |was| == |evict| && forall i :: 0 <= i < |evict| ==> was[i] == evict[i].messages
      ensures EvictedUpTo(evict, was, 0)
    {
    }

    lemma AllEvicted(evict: seq<Subscriber>, was: seq<seq<Message>>)
      requires EvictedUpTo(evict, was, |evict|)
      ensures forall i :: 0 <= i < |evict| ==>
                evict[i].messages == was[i] && evict[i].done && evict[i].reason == DropSlowConsumer
    {
    }

    method EvictNext(evict: seq<Subscriber>, ghost was: seq<seq<Message>>, i: nat)
      requires Valid() && i < |evict| && EvictedUpTo(evict, was, i)
      requires KeyOf(evict[i]) in registry && forall j :: 0 <= j < |evict| && j != i ==> evict[j] != evict[i]
      modifies this, evict[i]
      ensures Valid() && EvictedUpTo(evict, was, i + 1)
      ensures registry == old(registry) - {KeyOf(evict[i])}
      ensures totalDropped == old(totalDropped) + |old(registry)| - |registry|
      ensures slowConsumers == old(slowConsumers) + |old(registry)| - |registry|
      ensures sent == old(sent) && overwritten == old(overwritten)
    {
      hide Valid, KeyOf;
      Remove(evict[i], DropSlowConsumer);
    }

    /** The evictions seen from the registry: exactly the listed entries go, closed as slow, and no buffer changes. */
    method EvictListed(evict: seq<Subscriber>)
      requires Valid() && Listed(registry, evict)
      modifies this, registry.Values
      ensures Valid()
      ensures registry == old(registry) - KeysIn(evict) && |registry| == |old(registry)| - |evict|
      ensures totalDropped == old(totalDropped) + |evict| && slowConsumers == old(slowConsumers) + |evict|
              && sent == old(sent)
      ensures overwritten == old(overwritten)
      ensures Messages(old(registry)) == old(Buffers())
      ensures forall k <- old(registry) :: k !in registry ==>
              old(registry)[k].done && old(registry)[k].reason == DropSlowConsumer
    {
      hide Sharded;
      ghost var start, offered := registry, Buffers();
      forall s | s in evict ensures !s.done && s in start.Values {
        assert Entry(KeyOf(s), registry[KeyOf(s)]);
      }
      hide Entry, Valid;
      EvictAll(evict);
      forall k | k in start ensures start[k].messages == offered[k] {
        assert start[k] in evict || start[k].messages == offered[k];
      }
      MessagesSame(start, offered);
    }

    /** The subscribers that were full are exactly the ones that go. */
    method EvictFull(environment: string, ghost was: map<(string, Id), seq<Message>>, evict: seq<Subscriber>)
      requires Valid() && was.Keys == registry.Keys && Evicting(environment, was, IdsOf(registry, environment), evict)
      modifies this, registry.Values
      ensures Valid()
      ensures registry == KeepRoomy(old(registry), was, environment, bufferSize)
              && |registry| == |old(registry)| - |evict|
      ensures totalDropped == old(totalDropped) + |evict| && slowConsumers == old(slowConsumers) + |evict|
              && sent == old(sent)
      ensures overwritten == old(overwritten)
      ensures Messages(old(registry)) == old(Buffers())
      ensures forall k <- old(registry) :: k !in registry ==>
              old(registry)[k].done && old(registry)[k].reason == DropSlowConsumer
    {
      hide Valid, Buffers, Evicting, IdsOf, KeepRoomy, KeysIn, Listed, Messages;
      EvictListIsFull(environment, was, evict);
      EvictListed(evict);
    }

    /**
     * Delivers to every subscriber of the environment with room, evicts every one without, and touches nothing else.
     */
    method Broadcast(environment: string, message: Message) returns (delivered: nat, dropped: nat)
      requires Valid()
      modifies this, registry.Values
      ensures Valid()
      ensures registry == KeepRoomy(old(registry), old(Buffers()), environment, bufferSize)
      ensures Messages(old(registry)) == OfferedTo(old(Buffers()), environment, message,
              IdsOf(old(registry), environment), bufferSize)
      ensures forall k <- old(registry) :: k !in registry ==>
              old(registry)[k].done && old(registry)[k].reason == DropSlowConsumer
      ensures delivered + dropped == |IdsOf(old(registry), environment)| && dropped == |old(registry)| - |registry|
      ensures totalDropped == old(totalDropped) + dropped && slowConsumers == old(slowConsumers) + dropped
      ensures sent == old(sent) + delivered && overwritten == old(overwritten)
    {
      hide Valid, Buffers, OfferedTo, Evicting, IdsOf, KeepRoomy, Messages;
      ghost var was := Buffers();
      NothingOffered(environment, message);
      var evict: seq<Subscriber>;
      delivered, evict := SendAll(environment, message);
      dropped := |evict|;
      EvictFull(environment, was, evict);
      sent := sent + delivered;
    }

    /** Disconnects every subscriber, for shutdown; these are not counted as dropped. */
    method CloseAll()
      requires Valid()
      modifies this, registry.Values
      ensures Valid() && registry == map[] && connected == overwritten == old(overwritten)
      ensures forall k <- old(registry) :: old(registry)[k].done && old(registry)[k].reason == DropClosed
      ensures Messages(old(registry)) == old(Buffers())
      ensures totalDropped == old(totalDropped) && slowConsumers == old(slowConsumers) && sent == old(sent)
    {
      ghost var start, was := registry, Buffers();
      NothingClosedYet();
      HasShards();
      AllAhead(shardCount, start);
      hide Valid, ClosedSince, Ahead, Buffers, Messages;
      CloseShards(start, was);
      AllClosed(start, was);
    }

    method CloseShards(ghost start: map<(string, Id), Subscriber>, ghost was: map<(string, Id), seq<Message>>)
      requires Valid() && shardCount > 0 && registry == start && Ahead(shardCount, registry, start, 0)
      requires ClosedSince(start, was, registry.Keys)
      modifies this`shards, this`connected, this`registry, registry.Values
      ensures Valid() && registry == map[] && ClosedSince(start, was, registry.Keys)
    {
      hide Valid, ClosedSince, Ahead;
      for i := 0 to shardCount
        invariant Valid() && Ahead(shardCount, registry, start, i) && ClosedSince(start, was, registry.Keys)
      {
        CloseShard(i, start, was);
      }
      NoneAhead(shardCount, registry, start);
    }

    lemma HasShards()
      requires Valid()
      ensures shardCount > 0 && |shards| == shardCount
    {
    }

    lemma NothingClosedYet()
      requires Valid()
      ensures ClosedSince(registry, Buffers(), registry.Keys)
    {
      hide Sharded;
      forall k | k in registry ensures KeyOf(registry[k]) == k {
        assert Entry(k, registry[k]);
      }
    }

    lemma AllClosed(start: map<(string, Id), Subscriber>, was: map<(string, Id), seq<Message>>)
      requires Valid() && registry == map[] && ClosedSince(start, was, registry.Keys)
      ensures connected == overwritten && Messages(start) == was
      ensures forall k <- start :: start[k].done && start[k].reason == DropClosed
    {
      hide Sharded;
      MessagesSame(start, was);
    }

    /** Of the subscribers there at the start, the ones gone were closed, and no buffer changed. */
    static ghost predicate ClosedSince(
        start: map<(string, Id), Subscriber>, was: map<(string, Id), seq<Message>>, present: set<(string, Id)>)
      reads start.Values
    {
      && was.Keys == start.Keys
      && (forall k <- start :: KeyOf(start[k]) == k)
      && (forall k <- start :: k !in present ==> start[k].done && start[k].reason == DropClosed)
      && (forall k <- start :: start[k].messages == was[k])
    }

    /** One shard of the shutdown, under its lock. */
    method CloseShard(i: nat, ghost start: map<(string, Id), Subscriber>, ghost was: map<(string, Id), seq<Message>>)
      requires Valid() && i < shardCount && Ahead(shardCount, registry, start, i)
               && ClosedSince(start, was, registry.Keys)
      modifies this`shards, this`connected, this`registry, registry.Values
      ensures Valid() && Ahead(shardCount, registry, start, i + 1) && ClosedSince(start, was, registry.Keys)
      ensures registry.Values <= old(registry).Values
    {
      hide Valid, ClosedSince, Ahead;
      ghost var first := registry;
      HasShards();
      while shards[i] != map[]
        invariant Valid() && |shards| == shardCount && registry.Values <= first.Values
        invariant Ahead(shardCount, registry, start, i) && ClosedSince(start, was, registry.Keys)
        decreases |registry|
      {
        var environment :| environment in shards[i];
        EnvironmentsNotEmpty(i, environment);
        var id :| id in shards[i][environment];
        InShard(i, environment, id);
        AheadWithout(shardCount, registry, start, i, (environment, id));
        CloseEntry(environment, id, shards[i][environment][id], start, was);
        HasShards();
      }
      EmptyShard(i, start);
    }

    /** Takes one subscriber off the registry and closes it, both under the shard's lock. */
    method CloseEntry(environment: string, id: Id, subscriber: Subscriber,
                      ghost start: map<(string, Id), Subscriber>, ghost was: map<(string, Id), seq<Message>>)
      requires Valid() && (environment, id) in registry && registry[(environment, id)] == subscriber
      requires (environment, id) in start && start[(environment, id)] == subscriber
      requires ClosedSince(start, was, registry.Keys)
      modifies this`shards, this`connected, this`registry, subscriber
      ensures Valid() && registry == old(registry) - {(environment, id)} && |registry| == |old(registry)| - 1
      ensures ClosedSince(start, was, registry.Keys)
    {
      hide Valid, ClosedSince, KeyOf;
      ghost var present := registry.Keys;
      OthersDiffer(environment, id);
      DeleteEntry(environment, id);
      assert registry.Keys == present - {(environment, id)};
      MarkClosed(subscriber, start, was, present);
    }

    /** Closes the one subscriber that has just left the registry. */
    static method MarkClosed(
        subscriber: Subscriber, ghost start: map<(string, Id), Subscriber>,
        ghost was: map<(string, Id), seq<Message>>, ghost present: set<(string, Id)>)
      requires !subscriber.done && ClosedSince(start, was, present)
      requires KeyOf(subscriber) in start && start[KeyOf(subscriber)] == subscriber
      modifies subscriber
      ensures ClosedSince(start, was, present - {KeyOf(subscriber)})
    {
      subscriber.Close(DropClosed);
    }

    lemma EnvironmentsNotEmpty(i: nat, environment: string)
      requires Valid() && i < |shards| && environment in shards[i]
      ensures shards[i][environment] != map[]
    {
      hide Entry;
    }

    lemma InShard(i: nat, environment: string, id: Id)
      requires Valid() && i < |shards| && environment in shards[i] && id in shards[i][environment]
      ensures (environment, id) in registry && registry[(environment, id)] == shards[i][environment][id]
    {
      hide Entry;
      assert Holds(shards[i], environment, id);
    }

    lemma EmptyShard(i: nat, start: map<(string, Id), Subscriber>)
      requires Valid() && i < shardCount && |shards| == shardCount && shards[i] == map[]
               && Ahead(shardCount, registry, start, i)
      ensures Ahead(shardCount, registry, start, i + 1)
    {
      hide ShardOf, Entry;
      forall k | k in registry ensures ShardOf(shardCount, k.1) != i {
        assert Holds(shards[ShardOf(shardCount, k.1)], k.0, k.1);
      }
    }

    /** Different keys hold different subscribers, all of them open. */
    lemma OthersDiffer(environment: string, id: Id)
      requires Valid() && (environment, id) in registry
      ensures forall k <- registry :: k != (environment, id) ==> registry[k] != registry[(environment, id)]
      ensures KeyOf(registry[(environment, id)]) == (environment, id) && !registry[(environment, id)].done
    {
      hide Sharded;
      assert Entry((environment, id), registry[(environment, id)]);
      forall k | k in registry && k != (environment, id) ensures registry[k] != registry[(environment, id)] {
        assert Entry(k, registry[k]) && Entry((environment, id), registry[(environment, id)]);
      }
    }

    lemma EvictListIsFull(environment: string, was: map<(string, Id), seq<Message>>, evict: seq<Subscriber>)
      requires Evicting(environment, was, IdsOf(registry, environment), evict)
      ensures was.Keys == registry.Keys ==>
                registry - KeysIn(evict) == KeepRoomy(registry, was, environment, bufferSize)
      ensures Listed(registry, evict)
    {
      forall k | k in registry && was.Keys == registry.Keys
        ensures k in KeysIn(evict) <==> k.0 == environment && |was[k]| >= bufferSize
      {
        assert k.0 == environment ==> k.1 in IdsOf(registry, environment);
        if k in KeysIn(evict) {
          var s :| s in evict && KeyOf(s) == k;
          assert s.id in IdsIn(evict);
        }
      }
    }

    /** The subscribers of one shard's environment are the registered ones whose id belongs there. */
    lemma ShardContents(i: nat, environment: string, subscribers: map<Id, Subscriber>)
      requires shardCount > 0 && Sharded(shardCount, shards, registry) && i < |shards|
      requires subscribers == if environment in shards[i] then shards[i][environment] else map[]
      ensures forall id :: id in subscribers <==> (environment, id) in registry && ShardOf(shardCount, id) == i
      ensures forall id <- subscribers :: subscribers[id] == registry[(environment, id)]
    {
      hide ShardOf;
      forall id ensures id in subscribers <==> Holds(shards[i], environment, id) {}
    }
  }

  /** What is left of a registry once the shards before i are empty. */
  ghost predicate Ahead(n: nat, left: map<(string, Id), Subscriber>, start: map<(string, Id), Subscriber>, i: nat)
    requires n > 0
    ensures Ahead(n, left, start, i) ==> left.Values <= start.Values
  {
    && left.Keys <= start.Keys
    && (forall k <- left :: left[k] == start[k])
    && forall k <- left :: ShardOf(n, k.1) >= i
  }

  lemma AllAhead(n: nat, start: map<(string, Id), Subscriber>)
    requires n > 0
    ensures Ahead(n, start, start, 0)
  {
    hide ShardOf;
  }

  lemma NoneAhead(n: nat, left: map<(string, Id), Subscriber>, start: map<(string, Id), Subscriber>)
    requires n > 0 && Ahead(n, left, start, n)
    ensures left == map[]
  {
    hide ShardOf;
    assert left.Keys == {};
  }

  lemma AheadWithout(
      n: nat, left: map<(string, Id), Subscriber>, start: map<(string, Id), Subscriber>, i: nat, k: (string, Id))
    requires n > 0 && k in left && Ahead(n, left, start, i)
    ensures k in start && start[k] == left[k] && Ahead(n, left - {k}, start, i) && (left - {k}).Values <= left.Values
  {
    hide ShardOf;
  }

  /** The buffers of some subscribers, by key. */
  ghost function Messages(subscribers: map<(string, Id), Subscriber>): map<(string, Id), seq<Message>>
    reads subscribers.Values
  {
    map k | k in subscribers :: subscribers[k].messages
  }

  lemma MessagesSame(subscribers: map<(string, Id), Subscriber>, buffers: map<(string, Id), seq<Message>>)
    requires buffers.Keys == subscribers.Keys
    requires forall k <- subscribers :: subscribers[k].messages == buffers[k]
    ensures Messages(subscribers) == buffers
  {
  }

  ghost function IdsIn(subscribers: seq<Subscriber>): set<Id> {
    set s | s in subscribers :: s.id
  }

  ghost function KeyOf(s: Subscriber): (string, Id) {
    (s.environment, s.id)
  }

  ghost function KeysIn(subscribers: seq<Subscriber>): set<(string, Id)> {
    set s | s in subscribers :: KeyOf(s)
  }

  lemma NoKeys()
    ensures KeysIn([]) == {}
  {
  }

  /** The list names registered subscribers, once each. */
  ghost predicate Listed(registry: map<(string, Id), Subscriber>, evict: seq<Subscriber>) {
    && (forall s <- evict :: KeyOf(s) in registry && registry[KeyOf(s)] == s)
    && forall i, j :: 0 <= i < j < |evict| ==> KeyOf(evict[i]) != KeyOf(evict[j])
  }

  /** Among distinct keys, the next one is not among those before it. */
  lemma NextListed(registry: map<(string, Id), Subscriber>, evict: seq<Subscriber>, i: nat)
    requires i < |evict| && Listed(registry, evict)
    ensures KeyOf(evict[i]) !in KeysIn(evict[..i])
    ensures KeysIn(evict[..i + 1]) == KeysIn(evict[..i]) + {KeyOf(evict[i])}
    ensures forall j :: 0 <= j < |evict| && j != i ==> evict[j] != evict[i]
  {
    hide KeyOf;
    forall s | s in evict[..i] ensures KeyOf(s) != KeyOf(evict[i]) {
      var j :| 0 <= j < i && evict[j] == s;
    }
    assert evict[..i + 1] == evict[..i] + [evict[i]];
  }

  lemma NextEvicted(registry: map<(string, Id), Subscriber>, evict: seq<Subscriber>, i: nat)
    requires i < |evict| && Listed(registry, evict)
    ensures var rest := registry - KeysIn(evict[..i]);
            && KeyOf(evict[i]) in rest && rest[KeyOf(evict[i])] == evict[i]
            && registry - KeysIn(evict[..i + 1]) == rest - {KeyOf(evict[i])}
            && |rest - {KeyOf(evict[i])}| == |rest| - 1
    ensures forall j :: 0 <= j < |evict| && j != i ==> evict[j] != evict[i]
  {
    hide KeyOf, KeysIn;
    assert evict[i] in evict;
    NextListed(registry, evict, i);
    OneLess(registry - KeysIn(evict[..i]), KeyOf(evict[i]));
    assert registry - KeysIn(evict[..i + 1]) == (registry - KeysIn(evict[..i])) - {KeyOf(evict[i])};
  }

  /** The registry without the subscribers of an environment whose buffer was full. */
  ghost function KeepRoomy(
      registry: map<(string, Id), Subscriber>, was: map<(string, Id), seq<Message>>, environment: string,
      capacity: nat): map<(string, Id), Subscriber>
  {
    map k | k in registry && !(k.0 == environment && k in was && |was[k]| >= capacity) :: registry[k]
  }

  /** The registered ids of an environment. */
  ghost function IdsOf(registry: map<(string, Id), Subscriber>, environment: string): set<Id> {
    set k | k in registry && k.0 == environment :: k.1
  }

  /** The buffers after offering a message to some subscribers of an environment. */
  ghost function OfferedTo(
      was: map<(string, Id), seq<Message>>, environment: string, message: Message, ids: set<Id>,
      capacity: nat): map<(string, Id), seq<Message>>
  {
    map k | k in was :: if k.0 == environment && k.1 in ids && |was[k]| < capacity then was[k] + [message] else was[k]
  }
}
