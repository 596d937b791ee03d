/** The wire contract: rule trees, flags, segments and snapshots. */
module Ruleset {
  import opened Text
  import opened Rollout

  datatype AttributeValue = Str(text: JsString) | Num(number: real) | Bool(flag: bool) | Null

  datatype Operator =
    | Eq | Neq | In | NotIn | Contains | StartsWith | EndsWith | MatchesPattern
    | Gt | Gte | Lt | Lte | SemverGt | SemverLt

  datatype Visibility = Client | Server

  /** Unknown stands for a node kind this version of the code does not know. */
  datatype RuleNode =
    | Condition(attribute: JsString, operator: Operator, values: seq<AttributeValue>, visibility: Visibility)
    | And(children: seq<RuleNode>)
    | Or(children: seq<RuleNode>)
    | Not(children: seq<RuleNode>)
    | SegmentRef(segmentKey: JsString, negate: bool)
    | Unknown

  datatype Value = Undefined | Json(text: JsString)

  datatype Variation = Variation(key: JsString, value: Value)

  datatype Serve = Fixed(variationKey: JsString) | Split(rollout: seq<Slice>)

  datatype Rule = Rule(id: JsString, when: RuleNode, serve: Serve)

  datatype Prerequisite = Prerequisite(flagKey: JsString, variationKey: JsString)

  datatype Flag = Flag(
    key: JsString,
    enabled: bool,
    salt: JsString,
    bucketBy: JsString,
    variations: seq<Variation>,
    defaultVariationKey: JsString,
    offVariationKey: JsString,
    prerequisites: seq<Prerequisite>,
    rules: seq<Rule>)

  datatype Segment = Segment(key: JsString, when: RuleNode)

  datatype Snapshot = Snapshot(
    environmentKey: JsString,
    version: int,
    flags: seq<Flag>,
    segments: seq<Segment>,
    servedAt: JsString)

  /** A mutable set of keys, shared by reference as the code's Set objects are. */
  class KeySet {
    var keys: set<JsString>

    constructor ()
      ensures keys == {}
    {
      keys := {};
    }
  }

  /** A mutable set of keys that keeps the order in which keys were first added. */
  class OrderedKeys {
    var order: seq<JsString>

    constructor ()
      ensures order == []
    {
      order := [];
    }

    method Add(key: JsString)
      modifies this
      ensures order == Insert(old(order), key)
    {
      if key !in order {
        order := order + [key];
      }
    }
  }

  function Insert(order: seq<JsString>, key: JsString): seq<JsString> {
    if key in order then order else order + [key]
  }

  /** The keys of the segment nodes of a tree, at any depth. */
  function Refs(node: RuleNode): set<JsString> {
    match node
    case SegmentRef(key, _) => {key}
    case And(children) => ChildRefs(children)
    case Or(children) => ChildRefs(children)
    case Not(children) => ChildRefs(children)
    case Condition(_, _, _, _) => {}
    case Unknown => {}
  }

  function ChildRefs(children: seq<RuleNode>): set<JsString> {
    if children == [] then {} else Refs(children[0]) + ChildRefs(children[1..])
  }

  lemma {:induction false} ChildRefsMeaning(children: seq<RuleNode>, k: JsString)
    ensures k in ChildRefs(children) <==> exists i :: 0 <= i < |children| && k in Refs(children[i])
  {
    if children != [] {
      ChildRefsMeaning(children[1..], k);
      if i :| 0 <= i < |children| && k in Refs(children[i]) && k !in Refs(children[0]) {
        assert children[1..][i - 1] == children[i];
      }
    }
  }

  /** The keys held after walking a tree: those held before, then each new one where it is first met. */
  function InsertRefs(node: RuleNode, order: seq<JsString>): seq<JsString>
    decreases node, 0
  {
    match node
    case SegmentRef(key, _) => Insert(order, key)
    case And(children) => InsertChildRefs(children, |children|, order)
    case Or(children) => InsertChildRefs(children, |children|, order)
    case Not(children) => InsertChildRefs(children, |children|, order)
    case Condition(_, _, _, _) => order
    case Unknown => order
  }

  function InsertChildRefs(children: seq<RuleNode>, n: nat, order: seq<JsString>): seq<JsString>
    requires n <= |children|
    decreases children, n
  {
    if n == 0 then order else InsertRefs(children[n - 1], InsertChildRefs(children, n - 1, order))
  }

  predicate Distinct(order: seq<JsString>) {
    forall i, j :: 0 <= i < j < |order| ==> order[i] != order[j]
  }

  /** The walk adds exactly the referenced keys, and no key twice. */
  lemma {:induction false} InsertRefsMeaning(node: RuleNode, order: seq<JsString>)
    ensures forall k :: k in InsertRefs(node, order) <==> k in order || k in Refs(node)
    ensures Distinct(order) ==> Distinct(InsertRefs(node, order))
    decreases node, 0
  {
    match node {
      case SegmentRef(key, _) =>
      case And(children) => AllChildRefsMeaning(children, order);
      case Or(children) => AllChildRefsMeaning(children, order);
      case Not(children) => AllChildRefsMeaning(children, order);
      case Condition(_, _, _, _) =>
      case Unknown =>
    }
  }

  lemma {:induction false} AllChildRefsMeaning(children: seq<RuleNode>, order: seq<JsString>)
    ensures forall k :: k in InsertChildRefs(children, |children|, order) <==> k in order || k in ChildRefs(children)
    ensures Distinct(order) ==> Distinct(InsertChildRefs(children, |children|, order))
    decreases children, |children| + 1
  {
    hide ChildRefs, Refs, InsertChildRefs, Distinct;
    InsertChildRefsMeaning(children, |children|, order);
    forall k ensures k in ChildRefs(children) <==> exists i :: 0 <= i < |children| && k in Refs(children[i]) {
      ChildRefsMeaning(children, k);
    }
  }

  lemma {:induction false} InsertChildRefsMeaning(children: seq<RuleNode>, n: nat, order: seq<JsString>)
    requires n <= |children|
    ensures forall k :: k in InsertChildRefs(children, n, order) <==>
      k in order || exists i :: 0 <= i < n && k in Refs(children[i])
    ensures Distinct(order) ==> Distinct(InsertChildRefs(children, n, order))
    decreases children, n
  {
    hide Refs, InsertRefs, Distinct;
    if n > 0 {
      InsertChildRefsMeaning(children, n - 1, order);
      InsertRefsMeaning(children[n - 1], InsertChildRefs(children, n - 1, order));
    }
  }

  predicate UniqueSegmentKeys(segments: seq<Segment>) {
    forall i, j :: 0 <= i < j < |segments| ==> segments[i].key != segments[j].key
  }
}
