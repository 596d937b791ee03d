/** The in-process client: the version guard and evaluation against the ruleset it holds. */
module Client {
  import opened Text
  import opened Ruleset
  import opened Evaluation
  import Delivery

  datatype Exposure = Exposure(
    flagKey: JsString,
    variationKey: JsString,
    contextKey: JsString,
    rulesetVersion: int,
    reason: Reason)

  datatype Outcome = NoRuleset(value: Value) | Evaluated(result: EvaluationResult)

  class FlagshipClient {
    var snapshot: Option<Snapshot>
    /** None until a first snapshot arrives, and from then on the index of `snapshot`: see `Valid`. */
    var env: Option<Environment>

    constructor (bootstrap: Option<Snapshot>)
      ensures Valid() && snapshot == bootstrap
    {
      snapshot := bootstrap;
      env := None;
      new;
      if bootstrap.Some? {
        Apply(bootstrap.value);
      }
    }

    /** The index is the index of the snapshot held. */
    ghost predicate Valid()
      reads this
    {
      env == if snapshot.None? then None else Some(Index(snapshot.value))
    }

    function Version(): int
      reads this
    {
      if snapshot.None? then -1 else snapshot.value.version
    }

    method Apply(next: Snapshot)
      modifies this
      ensures Valid() && snapshot == Some(next)
    {
      snapshot := Some(next);
      var index := IndexSnapshot(next);
      env := Some(index);
    }

    /** Takes a snapshot over exactly when nothing or a smaller version is held; otherwise changes nothing. */
    method ApplySnapshot(next: Snapshot) returns (applied: bool)
      requires Valid()
      modifies this
      ensures Valid()
      ensures applied <==> old(snapshot).None? || next.version > old(Version())
      ensures snapshot == if applied then Some(next) else old(snapshot)
      ensures old(snapshot).None? || old(Version()) >= 0 ==>
              Version() == Delivery.ApplyVersion(old(Version()), next.version)
    {
      if snapshot.Some? && next.version <= snapshot.value.version {
        return false;
      }
      Apply(next);
      return true;
    }

    /** The evaluator's answer for the snapshot held, with the exposure that a reason other than failure calls for. */
    method Evaluate(flagKey: JsString, req: Request, fallback: Value)
        returns (outcome: Outcome, exposure: Option<Exposure>)
      requires Valid()
      ensures outcome == if snapshot.None? then NoRuleset(fallback)
                         else Evaluated(EvaluateFlagValue(flagKey, req, Index(snapshot.value), fallback))
      ensures exposure.Some? <==> outcome.Evaluated? && !outcome.result.reason.Failure?
      ensures exposure.Some? ==>
        exposure.value == Exposure(flagKey, outcome.result.variationKey, req.context.key, Version(),
          outcome.result.reason)
    {
      if env.None? {
        return NoRuleset(fallback), None;
      }
      var result := EvaluateFlag(flagKey, req, env.value, fallback);
      outcome := Evaluated(result);
      if result.reason.Failure? {
        return outcome, None;
      }
      return outcome, Some(Exposure(flagKey, result.variationKey, req.context.key, Version(), result.reason));
    }
  }

  /** The version held after frames arrive one by one. */
  function ApplyAll(held: int, frames: seq<int>): int {
    if frames == [] then held else Delivery.ApplyVersion(ApplyAll(held, frames[..|frames| - 1]), frames[|frames| - 1])
  }

  /** However frames are ordered, delayed or repeated, the version held is the highest one seen. */
  lemma {:induction false} HighestWins(held: int, frames: seq<int>)
    requires held >= -1 && forall v <- frames :: v > 0
    ensures ApplyAll(held, frames) == held || ApplyAll(held, frames) in frames
    ensures ApplyAll(held, frames) >= held && forall v <- frames :: ApplyAll(held, frames) >= v
  {
    if frames != [] {
      var n := |frames| - 1;
      assert frames == frames[..n] + [frames[n]];
      assert frames[n] in frames && forall v :: v in frames[..n] ==> v in frames;
      HighestWins(held, frames[..n]);
    }
  }
}
