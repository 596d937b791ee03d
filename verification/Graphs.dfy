/**
 * Reachability in a finite reference graph. Both segment references and flag
 * prerequisites are read as such a graph: a key maps to the keys it refers to,
 * and a key that is referred to but absent is a dangling reference.
 */
module Graphs {
  import opened Text

  type Graph = map<JsString, set<JsString>>

  ghost predicate Edge(g: Graph, a: JsString, b: JsString) {
    a in g && b in g[a]
  }

  ghost predicate IsPath(g: Graph, p: seq<JsString>) {
    |p| > 0 && forall i :: 0 < i < |p| ==> Edge(g, p[i - 1], p[i])
  }

  ghost predicate PathFrom(g: Graph, p: seq<JsString>, a: JsString, b: JsString) {
    IsPath(g, p) && p[0] == a && p[|p| - 1] == b
  }

  /** b can be reached from a in zero or more steps. */
  ghost predicate Reaches(g: Graph, a: JsString, b: JsString) {
    exists p :: PathFrom(g, p, a, b)
  }

  /** b can be reached from a in one or more steps. */
  ghost predicate Leads(g: Graph, a: JsString, b: JsString) {
    exists p :: |p| > 1 && PathFrom(g, p, a, b)
  }

  ghost predicate OnCycle(g: Graph, k: JsString) {
    Leads(g, k, k)
  }

  ghost predicate Acyclic(g: Graph) {
    forall k :: !OnCycle(g, k)
  }

  /** The scope contains whatever its keys refer to. */
  ghost predicate ClosedScope(g: Graph, scope: set<JsString>) {
    forall k <- scope :: k in g ==> g[k] <= scope
  }

  /** No key of a closed scope lies on a cycle. */
  ghost predicate AcyclicScope(g: Graph, scope: set<JsString>) {
    ClosedScope(g, scope) && forall k <- scope :: !OnCycle(g, k)
  }

  lemma ReachesSelf(g: Graph, a: JsString)
    ensures Reaches(g, a, a)
  {
    assert PathFrom(g, [a], a, a);
  }

  lemma EdgeLeads(g: Graph, a: JsString, b: JsString)
    requires Edge(g, a, b)
    ensures Leads(g, a, b)
  {
    assert PathFrom(g, [a, b], a, b);
  }

  lemma LeadsReaches(g: Graph, a: JsString, b: JsString)
    requires Leads(g, a, b)
    ensures Reaches(g, a, b)
  {
  }

  lemma ConcatPaths(g: Graph, p: seq<JsString>, q: seq<JsString>, a: JsString, b: JsString, c: JsString)
    requires PathFrom(g, p, a, b) && PathFrom(g, q, b, c)
    ensures PathFrom(g, p + q[1..], a, c)
  {
    var r := p + q[1..];
    forall i | 0 < i < |r|
      ensures Edge(g, r[i - 1], r[i])
    {
      if i > |p| {
        assert Edge(g, q[i - |p|], q[i - |p| + 1]);
      } else if i == |p| {
        assert Edge(g, q[0], q[1]);
      }
    }
  }

  /** One or more steps followed by zero or more steps. */
  lemma LeadsThenReaches(g: Graph, a: JsString, b: JsString, c: JsString)
    requires Leads(g, a, b) && Reaches(g, b, c)
    ensures Leads(g, a, c)
  {
    var p :| |p| > 1 && PathFrom(g, p, a, b);
    var q :| PathFrom(g, q, b, c);
    ConcatPaths(g, p, q, a, b, c);
    assert |p + q[1..]| > 1;
  }

  lemma ReachesTransitive(g: Graph, a: JsString, b: JsString, c: JsString)
    requires Reaches(g, a, b) && Reaches(g, b, c)
    ensures Reaches(g, a, c)
  {
    var p :| PathFrom(g, p, a, b);
    var q :| PathFrom(g, q, b, c);
    ConcatPaths(g, p, q, a, b, c);
  }

  /** A nonempty walk starts with an edge. */
  lemma FirstStep(g: Graph, a: JsString, c: JsString) returns (b: JsString)
    requires Leads(g, a, c)
    ensures Edge(g, a, b) && Reaches(g, b, c)
  {
    var p :| |p| > 1 && PathFrom(g, p, a, c);
    b := p[1];
    assert Edge(g, p[0], p[1]);
    var q := p[1..];
    forall i | 0 < i < |q|
      ensures Edge(g, q[i - 1], q[i])
    {
      assert Edge(g, p[i], p[i + 1]);
    }
    assert PathFrom(g, q, b, c);
  }

  /** What a key reaches is the key itself or is reached from something it refers to. */
  lemma ReachesCases(g: Graph, a: JsString, c: JsString) returns (b: JsString)
    requires Reaches(g, a, c) && a != c
    ensures Edge(g, a, b) && Reaches(g, b, c)
  {
    var p :| PathFrom(g, p, a, c);
    assert |p| > 1;
    b := FirstStep(g, a, c);
  }

  /** A scope closed under references contains everything reachable from its keys. */
  lemma {:induction false} ScopeContainsPath(g: Graph, scope: set<JsString>, p: seq<JsString>)
    requires ClosedScope(g, scope) && IsPath(g, p) && p[0] in scope
    ensures p[|p| - 1] in scope
  {
    if |p| > 1 {
      var q := p[..|p| - 1];
      assert IsPath(g, q) by {
        forall i | 0 < i < |q| ensures Edge(g, q[i - 1], q[i]) { assert Edge(g, p[i - 1], p[i]); }
      }
      ScopeContainsPath(g, scope, q);
      assert Edge(g, p[|p| - 2], p[|p| - 1]);
    }
  }

  // ----- everything that can be reached

  /** All keys that some keys reach, themselves and dangling references included. */
  ghost function ReachableSet(g: Graph, roots: set<JsString>): set<JsString> {
    set k | k in roots + g.Keys + Targets(g) && ReachedFromAny(g, roots, k)
  }

  ghost function Targets(g: Graph): set<JsString> {
    set a, b | a in g && b in g[a] :: b
  }

  ghost predicate ReachedFromAny(g: Graph, roots: set<JsString>, k: JsString) {
    exists r <- roots :: Reaches(g, r, k)
  }

  lemma ReachableSetHolds(g: Graph, roots: set<JsString>, k: JsString)
    ensures k in ReachableSet(g, roots) <==> ReachedFromAny(g, roots, k)
  {
    if r :| r in roots && Reaches(g, r, k) {
      var p :| PathFrom(g, p, r, k);
      if |p| > 1 {
        assert Edge(g, p[|p| - 2], p[|p| - 1]);
      }
    }
  }

  /** The set is closed under references and holds its roots. */
  lemma ReachableSetClosed(g: Graph, roots: set<JsString>)
    ensures roots <= ReachableSet(g, roots) && ClosedScope(g, ReachableSet(g, roots))
  {
    forall r | r in roots ensures r in ReachableSet(g, roots) {
      ReachesSelf(g, r);
    }
    forall a, b | a in ReachableSet(g, roots) && a in g && b in g[a] ensures b in ReachableSet(g, roots) {
      var r :| r in roots && Reaches(g, r, a);
      EdgeLeads(g, a, b);
      LeadsReaches(g, a, b);
      ReachesTransitive(g, r, a, b);
      ReachableSetHolds(g, roots, b);
    }
  }

  /** It is the least such set: any closed scope that holds the roots holds all of it. */
  lemma ReachableSetLeast(g: Graph, roots: set<JsString>, scope: set<JsString>)
    requires ClosedScope(g, scope) && roots <= scope
    ensures ReachableSet(g, roots) <= scope
  {
    forall k | k in ReachableSet(g, roots) ensures k in scope {
      var r :| r in roots && Reaches(g, r, k);
      var p :| PathFrom(g, p, r, k);
      ScopeContainsPath(g, scope, p);
    }
  }

  // ----- topological order

  /** Every reference to a known key points strictly earlier in the order: the order is a topological rank. */
  ghost predicate IsRank(g: Graph, order: seq<JsString>) {
    && (forall k <- g :: k in order)
    && (forall i, j :: 0 <= i < |order| && 0 <= j < |order| && order[i] == order[j] ==> i == j)
    && (forall i, b :: 0 <= i < |order| && Edge(g, order[i], b) && b in g ==> b in order[..i])
  }

  ghost function RankOf(order: seq<JsString>, k: JsString): (i: nat)
    requires k in order
    ensures i < |order| && order[i] == k
  {
    var i :| 0 <= i < |order| && order[i] == k;
    i
  }

  lemma {:induction false} RankDecreasesAlong(g: Graph, order: seq<JsString>, p: seq<JsString>)
    requires IsRank(g, order) && IsPath(g, p) && |p| > 1 && p[|p| - 1] in g
    ensures p[0] in g && RankOf(order, p[|p| - 1]) < RankOf(order, p[0])
  {
    assert Edge(g, p[0], p[1]);
    var i := RankOf(order, p[0]);
    if |p| > 2 {
      var q := p[1..];
      assert IsPath(g, q) by {
        forall i | 0 < i < |q| ensures Edge(g, q[i - 1], q[i]) { assert Edge(g, p[i], p[i + 1]); }
      }
      RankDecreasesAlong(g, order, q);
    }
    assert p[1] in order[..i];
  }

  /** A graph with a topological rank has no cycle. */
  lemma RankMeansAcyclic(g: Graph, order: seq<JsString>)
    requires IsRank(g, order)
    ensures Acyclic(g)
  {
    forall k ensures !OnCycle(g, k) {
      if OnCycle(g, k) {
        var p :| |p| > 1 && PathFrom(g, p, k, k);
        assert Edge(g, p[0], p[1]);
        RankDecreasesAlong(g, order, p);
      }
    }
  }
}
