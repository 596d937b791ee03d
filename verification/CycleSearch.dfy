/** The depth-first search for a prerequisite cycle. */
module CycleSearch {
  import opened Text
  import opened Graphs
  import opened Ruleset
  import opened Evaluation

  datatype Mark = Visiting | Done

  /** The graph that evaluation follows: the last flag declared under a key decides. */
  function PrerequisiteGraph(flags: seq<Flag>): Graph {
    FlagGraph(IndexFlags(flags))
  }

  /** A closed walk: it starts and ends at the same key and follows prerequisite edges. */
  ghost predicate IsCycle(g: Graph, walk: seq<JsString>) {
    |walk| > 1 && walk[0] == walk[|walk| - 1] && IsPath(g, walk)
  }

  /** The stack holds exactly the visiting keys, once each, and is a walk in the graph. */
  ghost predicate StackValid(g: Graph, state: map<JsString, Mark>, path: seq<JsString>) {
    && (forall k :: k in path <==> k in state && state[k] == Visiting)
    && (forall i, j :: 0 <= i < j < |path| ==> path[i] != path[j])
    && (forall i :: 0 < i < |path| ==> Edge(g, path[i - 1], path[i]))
  }

  /** The finished keys are the done keys, once each, every one after everything it requires. */
  ghost predicate FinishedValid(g: Graph, state: map<JsString, Mark>, finished: seq<JsString>) {
    && (forall k :: k in finished <==> k in state && state[k] == Done)
    && (forall i, j :: 0 <= i < |finished| && 0 <= j < |finished| && finished[i] == finished[j] ==> i == j)
    && (forall i, b :: 0 <= i < |finished| && Edge(g, finished[i], b) && b in g ==> b in finished[..i])
  }

  lemma EnterKeeps(g: Graph, state: map<JsString, Mark>, path: seq<JsString>, finished: seq<JsString>, key: JsString)
    requires StackValid(g, state, path) && FinishedValid(g, state, finished) && key !in state
    requires path != [] ==> Edge(g, path[|path| - 1], key)
    ensures StackValid(g, state[key := Visiting], path + [key])
    ensures FinishedValid(g, state[key := Visiting], finished)
  {
    hide Edge;
  }

  lemma LeaveKeepsStack(g: Graph, state: map<JsString, Mark>, path: seq<JsString>)
    requires StackValid(g, state, path) && path != []
    ensures StackValid(g, state[path[|path| - 1] := Done], path[..|path| - 1])
  {
    hide Edge;
    var n := |path| - 1;
    assert path == path[..n] + [path[n]];
    forall i | 0 < i < n ensures Edge(g, path[..n][i - 1], path[..n][i]) {
      assert Edge(g, path[i - 1], path[i]);
    }
  }

  lemma LeaveKeepsFinished(g: Graph, state: map<JsString, Mark>, finished: seq<JsString>, key: JsString)
    requires FinishedValid(g, state, finished) && key in state && state[key] == Visiting
    requires forall b :: Edge(g, key, b) && b in g ==> b in finished
    ensures FinishedValid(g, state[key := Done], finished + [key])
  {
    hide Edge;
    Finish(g, finished, key);
  }

  class CycleFinder {
    const byKey: map<JsString, CompiledFlag>
    var state: map<JsString, Mark>
    var path: seq<JsString>
    /** The keys in the order in which their visits finished. */
    ghost var finished: seq<JsString>

    constructor (flags: seq<Flag>)
      ensures byKey == IndexFlags(flags)
      ensures Valid() && path == [] && finished == []
    {
      byKey := IndexFlags(flags);
      state := map[];
      path := [];
      finished := [];
    }

    ghost predicate Valid()
      reads this
    {
      && state.Keys <= byKey.Keys
      && StackValid(FlagGraph(byKey), state, path)
      && FinishedValid(FlagGraph(byKey), state, finished)
    }

    method IndexOf(key: JsString) returns (i: nat)
      requires key in path
      ensures i < |path| && path[i] == key
    {
      i := 0;
      while path[i] != key
        invariant i < |path| && key !in path[..i]
        decreases |path| - i
      {
        i := i + 1;
      }
    }

    method Enter(key: JsString)
      requires Valid() && key in byKey && key !in state
      requires path != [] ==> Edge(FlagGraph(byKey), path[|path| - 1], key)
      modifies this
      ensures Valid() && path == old(path) + [key] && finished == old(finished)
      ensures state.Keys == old(state.Keys) + {key}
    {
      hide FlagGraph, Edge, StackValid, FinishedValid;
      EnterKeeps(FlagGraph(byKey), state, path, finished, key);
      state := state[key := Visiting];
      path := path + [key];
    }

    method Leave(key: JsString)
      requires Valid() && path != [] && path[|path| - 1] == key
      requires forall b :: Edge(FlagGraph(byKey), key, b) && b in byKey ==> b in finished
      modifies this
      ensures Valid() && path == old(path)[..|old(path)| - 1] && finished == old(finished) + [key]
      ensures state.Keys == old(state.Keys)
    {
      ghost var g := FlagGraph(byKey);
      assert g.Keys == byKey.Keys && key in state && state[key] == Visiting;
      hide FlagGraph, Edge, StackValid, FinishedValid;
      LeaveKeepsStack(g, state, path);
      LeaveKeepsFinished(g, state, finished, key);
      path := path[..|path| - 1];
      state := state[key := Done];
      finished := finished + [key];
    }

    method Visit(key: JsString) returns (found: Option<seq<JsString>>)
      requires Valid()
      requires path != [] ==> Edge(FlagGraph(byKey), path[|path| - 1], key)
      modifies this
      ensures found.None? ==>
        && Valid()
        && path == old(path)
        && old(finished) <= finished
        && old(state.Keys) <= state.Keys
        && (key in byKey ==> key in finished)
      ensures found.Some? ==> IsCycle(FlagGraph(byKey), found.value)
      decreases byKey.Keys - state.Keys
    {
      hide FlagGraph, Edge, StackValid, FinishedValid, IsCycle;
      ghost var g := FlagGraph(byKey);
      MarksMean(g, state, path, finished, key);
      if key in state && state[key] == Done {
        return None;
      }
      if key in state && state[key] == Visiting {
        var start := IndexOf(key);
        CloseWalk(g, state, path, start);
        return Some(path[start..] + [key]);
      }
      if key !in byKey {
        return None;
      }

      Enter(key);
      var prerequisites := byKey[key].flag.prerequisites;
      ghost var stack := path;
      EdgesOf(byKey, key);
      for i := 0 to |prerequisites|
        invariant Valid() && path == stack && old(finished) <= finished
        invariant old(state.Keys) + {key} <= state.Keys
        invariant forall j :: 0 <= j < i && prerequisites[j].flagKey in byKey ==> prerequisites[j].flagKey in finished
      {
        ghost var before := finished;
        found := Visit(prerequisites[i].flagKey);
        if found.Some? {
          return;
        }
        assert forall k :: k in before ==> k in finished;
      }

      Leave(key);
      return None;
    }
  }

  /** The edges of a known key are its prerequisites, in list order. */
  lemma EdgesOf(byKey: map<JsString, CompiledFlag>, key: JsString)
    requires key in byKey
    ensures var prerequisites := byKey[key].flag.prerequisites;
            forall b :: Edge(FlagGraph(byKey), key, b) <==>
              exists j :: 0 <= j < |prerequisites| && prerequisites[j].flagKey == b
  {
    var prerequisites := byKey[key].flag.prerequisites;
    assert forall p :: p in prerequisites <==> exists j :: 0 <= j < |prerequisites| && prerequisites[j] == p;
  }

  lemma MarksMean(g: Graph, state: map<JsString, Mark>, path: seq<JsString>, finished: seq<JsString>, key: JsString)
    requires StackValid(g, state, path) && FinishedValid(g, state, finished)
    ensures key in state && state[key] == Visiting ==> key in path
    ensures key in state && state[key] == Done ==> key in finished
  {
  }

  /** From a key on the stack, the rest of the stack and one more edge back close a cycle. */
  lemma CloseWalk(g: Graph, state: map<JsString, Mark>, path: seq<JsString>, start: nat)
    requires start < |path| && StackValid(g, state, path)
    requires Edge(g, path[|path| - 1], path[start])
    ensures IsCycle(g, path[start..] + [path[start]])
  {
    var cycle := path[start..] + [path[start]];
    forall i | 0 < i < |cycle| ensures Edge(g, cycle[i - 1], cycle[i]) {
      if i < |cycle| - 1 {
        assert Edge(g, path[start + i - 1], path[start + i]);
      }
    }
  }

  /** Appending a key after everything it requires keeps the order topological. */
  lemma Finish(g: Graph, order: seq<JsString>, key: JsString)
    requires forall i, b :: 0 <= i < |order| && Edge(g, order[i], b) && b in g ==> b in order[..i]
    requires forall b :: Edge(g, key, b) && b in g ==> b in order
    ensures forall i, b :: 0 <= i < |order + [key]| && Edge(g, (order + [key])[i], b) && b in g ==>
            b in (order + [key])[..i]
  {
    forall i, b | 0 <= i < |order + [key]| && Edge(g, (order + [key])[i], b) && b in g
      ensures b in (order + [key])[..i]
    {
      if i < |order| {
        assert (order + [key])[..i] == order[..i];
      } else {
        assert (order + [key])[..i] == order;
      }
    }
  }

  /** Once every key has been visited without a cycle, the finishing order is a topological rank. */
  lemma AllFinished(flags: seq<Flag>, state: map<JsString, Mark>, finished: seq<JsString>)
    requires FinishedValid(PrerequisiteGraph(flags), state, finished)
    requires forall j :: 0 <= j < |flags| ==> flags[j].key in finished
    ensures IsRank(PrerequisiteGraph(flags), finished) && Acyclic(PrerequisiteGraph(flags))
  {
    hide Edge, Acyclic;
    var g := PrerequisiteGraph(flags);
    forall k | k in g ensures k in finished {
      IndexFlagsMeaning(flags, k);
    }
    RankMeansAcyclic(g, finished);
  }

  /** A reported path is a cycle, and nothing is reported exactly when there is none. */
  method FindPrerequisiteCycle(flags: seq<Flag>) returns (found: Option<seq<JsString>>)
    ensures found.Some? ==> IsCycle(PrerequisiteGraph(flags), found.value)
    ensures found.None? ==> exists order :: IsRank(PrerequisiteGraph(flags), order)
    ensures found.None? <==> Acyclic(PrerequisiteGraph(flags))
  {
    hide FlagGraph, Edge, StackValid, FinishedValid, IsCycle, IsRank, Acyclic;
    var finder := new CycleFinder(flags);
    for i := 0 to |flags|
      invariant fresh(finder) && finder.byKey == IndexFlags(flags)
      invariant finder.Valid() && finder.path == []
      invariant forall j :: 0 <= j < i ==> flags[j].key in finder.finished
    {
      ghost var before := finder.finished;
      IndexFlagsMeaning(flags, flags[i].key);
      assert flags[i] in flags;
      found := finder.Visit(flags[i].key);
      if found.Some? {
        CycleRefutes(PrerequisiteGraph(flags), found.value);
        return;
      }
      assert forall k :: k in before ==> k in finder.finished;
    }
    found := None;
    AllFinished(flags, finder.state, finder.finished);
  }

  lemma CycleRefutes(g: Graph, walk: seq<JsString>)
    requires IsCycle(g, walk)
    ensures !Acyclic(g)
  {
    assert PathFrom(g, walk, walk[0], walk[0]);
    assert OnCycle(g, walk[0]);
  }
}
