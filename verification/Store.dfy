/** The snapshot store: monotonic versions per environment and a bounded history for resuming streams. */
module Store {
  import opened Text
  import Sse

  type Int64 = x: int | -0x8000_0000_0000_0000 <= x < 0x8000_0000_0000_0000

  const DEFAULT_HISTORY_SIZE: nat := 64

  datatype Snapshot = Snapshot(environment: string, version: Int64, payload: seq<Byte>)

  const NO_SNAPSHOT: Snapshot := Snapshot("", 0, [])

  datatype EnvironmentState = EnvironmentState(current: Snapshot, history: seq<Snapshot>)

  /** What goes to the hub when a publish is accepted. */
  datatype Message = Message(id: seq<Byte>, event: seq<Byte>, data: seq<Byte>, version: Int64)

  datatype PublishResult = Accepted(snapshot: Snapshot) | NotPositive | Stale(current: Snapshot)

  datatype ResumeResult = UnknownEnvironment | FullResync | Replay(missed: seq<Snapshot>)

  // ----- the accepted log, which determines everything the store keeps

  /** Every accepted version is positive and higher than the one before. */
  ghost predicate Increasing(log: seq<Snapshot>) {
    && (forall i :: 0 <= i < |log| ==> log[i].version > 0)
    && (forall i, j :: 0 <= i < j < |log| ==> log[i].version < log[j].version)
  }

  function CurrentOf(log: seq<Snapshot>): Snapshot {
    if log == [] then NO_SNAPSHOT else log[|log| - 1]
  }

  /** The last min(n, historySize) accepted snapshots, oldest first. */
  function HistoryOf(log: seq<Snapshot>, historySize: nat): seq<Snapshot> {
    if |log| <= historySize then log else log[|log| - historySize..]
  }

  function StateOf(log: seq<Snapshot>, historySize: nat): EnvironmentState {
    EnvironmentState(CurrentOf(log), HistoryOf(log, historySize))
  }

  /** The snapshots above a version, in order. */
  function Newer(snapshots: seq<Snapshot>, afterVersion: int): seq<Snapshot> {
    if snapshots == [] then []
    else
      var n := |snapshots| - 1;
      Newer(snapshots[..n], afterVersion) + if snapshots[n].version > afterVersion then [snapshots[n]] else []
  }

  /** What a client at a version is owed, in terms of everything ever accepted. */
  function ResumeOf(log: seq<Snapshot>, historySize: nat, afterVersion: int): ResumeResult
    requires historySize > 0
  {
    if log == [] then UnknownEnvironment
    else if afterVersion >= CurrentOf(log).version then Replay([])
    else if afterVersion < HistoryOf(log, historySize)[0].version - 1 then FullResync
    else Replay(Newer(log, afterVersion))
  }

  class SnapshotStore {
    var environments: map<string, EnvironmentState>
    const historySize: nat
    /** Every snapshot accepted so far, per environment. */
    ghost var logs: map<string, seq<Snapshot>>

    constructor (historySize: int)
      ensures Valid() && logs == map[]
      ensures this.historySize == if historySize <= 0 then DEFAULT_HISTORY_SIZE else historySize
    {
      this.historySize := if historySize <= 0 then DEFAULT_HISTORY_SIZE else historySize;
      environments := map[];
      logs := map[];
    }

    ghost predicate Valid()
      reads this
    {
      && historySize > 0
      && environments.Keys == logs.Keys
      && forall e <- logs :: logs[e] != [] && Increasing(logs[e]) && environments[e] == StateOf(logs[e], historySize)
    }

    ghost function LogOf(environment: string): seq<Snapshot>
      reads this
    {
      if environment in logs then logs[environment] else []
    }

    /** Commits a snapshot whose version advances, and names the message to broadcast once the lock is released. */
    method Publish(environment: string, version: Int64, payload: seq<Byte>)
      returns (result: PublishResult, broadcast: Option<Message>)
      requires Valid()
      modifies this
      ensures Valid()
      ensures result == if version <= 0 then NotPositive
                        else if CurrentOf(old(LogOf(environment))).version >= version then
                          Stale(CurrentOf(old(LogOf(environment))))
                        else Accepted(Snapshot(environment, version, payload))
      ensures logs == if result.Accepted? then old(logs)[environment := old(LogOf(environment)) + [result.snapshot]]
              else old(logs)
      ensures broadcast == if result.Accepted? then Some(Message(Decimal(version), Sse.RULESET, payload, version))
              else None
    {
      hide Increasing, HistoryOf;
      if version <= 0 {
        return NotPositive, None;
      }
      var snapshot := Snapshot(environment, version, payload);
      var state := EnvironmentState(NO_SNAPSHOT, []);
      if environment in environments {
        state := environments[environment];
      }
      if state.current.version >= version {
        return Stale(state.current), None;
      }
      ghost var log := LogOf(environment);
      var history := state.history + [snapshot];
      if |history| > historySize {
        history := history[1..];
      }
      environments := environments[environment := EnvironmentState(snapshot, history)];
      CommitKeepsHistory(log, snapshot, historySize);
      IncreasingAppend(log, snapshot);
      EmptyHistory(historySize);
      logs := logs[environment := log + [snapshot]];
      var id := Sse.FormatVersion(version);
      return Accepted(snapshot), Some(Message(id, Sse.RULESET, payload, version));
    }

    method Current(environment: string) returns (current: Option<Snapshot>)
      requires Valid()
      ensures current == if environment in logs then Some(CurrentOf(logs[environment])) else None
    {
      if environment !in environments || environments[environment].current.version == 0 {
        return None;
      }
      return Some(environments[environment].current);
    }

    /** Replays from the bounded history exactly what the whole log would give, or asks for a full resync. */
    method Resume(environment: string, afterVersion: Int64) returns (result: ResumeResult)
      requires Valid()
      ensures result == ResumeOf(LogOf(environment), historySize, afterVersion)
    {
      if environment !in environments || environments[environment].current.version == 0 {
        return UnknownEnvironment;
      }
      var state := environments[environment];
      if afterVersion >= state.current.version {
        return Replay([]);
      }
      if |state.history| == 0 {
        return FullResync;
      }
      var oldest := state.history[0].version;
      if afterVersion < oldest as int - 1 {
        return FullResync;
      }
      var missed := [];
      for i := 0 to |state.history|
        invariant missed == Newer(state.history[..i], afterVersion)
      {
        assert state.history[..i + 1][..i] == state.history[..i];
        if state.history[i].version > afterVersion {
          missed := missed + [state.history[i]];
        }
      }
      assert state.history[..|state.history|] == state.history;
      HistoryIsEnough(logs[environment], historySize, afterVersion);
      return Replay(missed);
    }
  }

  /** Appending and dropping the oldest keeps exactly the tail of the log. */
  lemma CommitKeepsHistory(log: seq<Snapshot>, snapshot: Snapshot, historySize: nat)
    requires historySize > 0
    ensures var history := HistoryOf(log, historySize) + [snapshot];
            HistoryOf(log + [snapshot], historySize) == if |history| > historySize then history[1..] else history
  {
  }

  lemma IncreasingAppend(log: seq<Snapshot>, snapshot: Snapshot)
    ensures Increasing([])
    ensures Increasing(log) && snapshot.version > 0 && CurrentOf(log).version < snapshot.version ==>
            Increasing(log + [snapshot])
    ensures CurrentOf(log + [snapshot]) == snapshot
  {
  }

  lemma EmptyHistory(historySize: nat)
    ensures HistoryOf([], historySize) == []
  {
  }

  lemma {:induction false} NewerConcat(a: seq<Snapshot>, b: seq<Snapshot>, afterVersion: int)
    ensures Newer(a + b, afterVersion) == Newer(a, afterVersion) + Newer(b, afterVersion)
  {
    if b == [] {
      assert a + b == a;
    } else {
      var n := |b| - 1;
      var last := if b[n].version > afterVersion then [b[n]] else [];
      NewerConcat(a, b[..n], afterVersion);
      assert (a + b)[..|a + b| - 1] == a + b[..n];
      assert Newer(a, afterVersion) + (Newer(b[..n], afterVersion) + last) ==
             Newer(a, afterVersion) + Newer(b[..n], afterVersion) + last;
    }
  }

  lemma {:induction false} NothingNewer(snapshots: seq<Snapshot>, afterVersion: int)
    requires forall s <- snapshots :: s.version <= afterVersion
    ensures Newer(snapshots, afterVersion) == []
  {
    if snapshots != [] {
      var n := |snapshots| - 1;
      assert snapshots[n] in snapshots && forall s :: s in snapshots[..n] ==> s in snapshots;
      NothingNewer(snapshots[..n], afterVersion);
    }
  }

  /** Whatever the history no longer holds, a cursor at or above its oldest entry minus one has already passed. */
  lemma HistoryIsEnough(log: seq<Snapshot>, historySize: nat, afterVersion: int)
    requires historySize > 0 && log != [] && Increasing(log)
    requires afterVersion >= HistoryOf(log, historySize)[0].version - 1
    ensures Newer(HistoryOf(log, historySize), afterVersion) == Newer(log, afterVersion)
  {
    if |log| > historySize {
      var n := |log| - historySize;
      assert log == log[..n] + log[n..];
      NewerConcat(log[..n], log[n..], afterVersion);
      forall s | s in log[..n] ensures s.version <= afterVersion {
        var i :| 0 <= i < n && log[i] == s;
        assert log[i].version < log[n].version;
      }
      NothingNewer(log[..n], afterVersion);
    }
  }

  lemma {:induction false} NewerMembers(log: seq<Snapshot>, afterVersion: int)
    ensures forall s :: s in Newer(log, afterVersion) <==> s in log && s.version > afterVersion
  {
    if log != [] {
      var n := |log| - 1;
      NewerMembers(log[..n], afterVersion);
      assert forall s :: s in log <==> s in log[..n] || s == log[n];
    }
  }

  lemma PrefixIncreasing(log: seq<Snapshot>, n: nat)
    requires n < |log| && Increasing(log)
    ensures Increasing(log[..n]) && log[n].version > 0
    ensures forall s <- log[..n] :: s.version < log[n].version
  {
    forall s | s in log[..n] ensures s.version < log[n].version {
      var i :| 0 <= i < n && log[i] == s;
    }
  }

  lemma {:induction false} NewerIncreasing(log: seq<Snapshot>, afterVersion: int)
    requires Increasing(log)
    ensures Increasing(Newer(log, afterVersion))
  {
    hide Increasing;
    if log != [] {
      var n := |log| - 1;
      var shorter := Newer(log[..n], afterVersion);
      PrefixIncreasing(log, n);
      NewerIncreasing(log[..n], afterVersion);
      NewerMembers(log[..n], afterVersion);
      assert shorter != [] ==> CurrentOf(shorter) in shorter;
      IncreasingAppend(shorter, log[n]);
      assert shorter + [] == shorter;
    } else {
      IncreasingAppend([], NO_SNAPSHOT);
    }
  }

  /** A replay holds exactly the accepted snapshots above the cursor, in increasing order. */
  lemma ReplayExact(log: seq<Snapshot>, afterVersion: int)
    requires Increasing(log)
    ensures forall s :: s in Newer(log, afterVersion) <==> s in log && s.version > afterVersion
    ensures Increasing(Newer(log, afterVersion))
  {
    NewerMembers(log, afterVersion);
    NewerIncreasing(log, afterVersion);
  }

  /**
   * Whatever resume answers, the client ends at the current version: it is already there, or the last replayed frame
   * is.
   */
  lemma ResumeReachesCurrent(log: seq<Snapshot>, historySize: nat, afterVersion: int)
    requires historySize > 0 && Increasing(log) && log != []
    ensures var result := ResumeOf(log, historySize, afterVersion);
            result.Replay? ==>
              if result.missed == [] then afterVersion >= CurrentOf(log).version
              else result.missed[|result.missed| - 1] == CurrentOf(log)
  {
    assert log[|log| - 1] == CurrentOf(log);
  }

  // ----- which cursors are refused

  /** A full resync is asked for exactly below the current version and more than one below the oldest version kept. */
  lemma FullResyncExactly(log: seq<Snapshot>, historySize: nat, afterVersion: int)
    requires historySize > 0 && log != []
    ensures ResumeOf(log, historySize, afterVersion) == FullResync <==>
      afterVersion < CurrentOf(log).version && afterVersion < HistoryOf(log, historySize)[0].version - 1
  {
  }

  /**
   * A cursor that was never published is refused only if it lies more than one below the oldest version kept.
   * Every other one is taken at its word, inside a version gap as well as above the current version.
   */
  lemma UnpublishedCursorExactly(log: seq<Snapshot>, historySize: nat, afterVersion: int)
    requires historySize > 0 && log != [] && Increasing(log) && forall s <- log :: s.version != afterVersion
    ensures ResumeOf(log, historySize, afterVersion) ==
            if afterVersion < HistoryOf(log, historySize)[0].version - 1 then FullResync
              else Replay(Newer(log, afterVersion))
    ensures afterVersion > CurrentOf(log).version ==> ResumeOf(log, historySize, afterVersion) == Replay([])
  {
    forall s | s in log ensures s.version <= CurrentOf(log).version {
      var i :| 0 <= i < |log| && log[i] == s;
    }
    assert HistoryOf(log, historySize)[0] in log;
    if afterVersion >= CurrentOf(log).version {
      NothingNewer(log, afterVersion);
    }
  }

  /** A client that cites a version from the future is answered with an empty replay. */
  lemma FutureCursorIsReplayed(a: Snapshot)
    requires a.version == 5
    ensures ResumeOf([a], DEFAULT_HISTORY_SIZE, 7) == Replay([])
  {
  }

  /** A client that cites a version skipped between two accepted ones is replayed the later one. */
  lemma GapCursorIsReplayed(a: Snapshot, b: Snapshot)
    requires a.version == 5 && b.version == 9
    ensures ResumeOf([a, b], DEFAULT_HISTORY_SIZE, 7) == Replay([b])
  {
    var log := [a, b];
    assert log[..1] == [a] && [a][..0] == [];
    assert Newer([a], 7) == [];
  }
}
