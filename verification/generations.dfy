/** The three generations side by side.

    rocket.hpp feeds `default_collector` one value at a time, simple.hpp
    feeds its collectors one value at a time after a size hint, and
    simplesig.hpp hands the whole range of results to a batch collector
    at the end. When every connected slot is free of side effects, the
    three signals holding the same connected slots in the same order
    report the same outcome for `invoke` (the last value or the error) and,
    for the two later generations, the same `get_all` vector. */
module Generations {
  import opened Optional
  import opened Slots
  import StableList
  import RocketSignal
  import RocketEmission
  import RocketBehaviour
  import SimpleSignal
  import SimpleEmission
  import SimpleSigSignal
  import SimpleSigEmission
  import Collectors

  /** The outcome `invoke` reports for a list of connected slots that have
      no side effects: `invocation_slot_error` if one threw, otherwise the
      value of the last slot that returned. */
  function Expected(bs: seq<Behaviour>): Result<Option<int>>
  {
    if AnyThrows(bs) then Err(InvocationSlotError) else Ok(Collectors.DefaultOf(Returned(bs)))
  }

  /** simple.hpp and simplesig.hpp agree on every quiet emission: the same
      values reach the collector, the same error is reported, the default
      selector returns the same optional, and `invoke_get_all` (simplesig)
      returns the vector the range collector builds (simple.hpp). */
  lemma SimpleGenerationsAgree(s1: SimpleSignal.Signal, th: SimpleEmission.ThreadData, rule: SimpleEmission.EraseRule,
                               f1: nat, s2: SimpleSigSignal.Signal, f2: nat)
    requires SimpleSignal.Counted(s1) && SimpleSignal.AllQuiet(StableList.Values(s1))
    requires f1 >= |StableList.Order(s1)|
    requires SimpleSigSignal.Wf(s2) && !s2.locked && SimpleSigEmission.QuietFrom(s2.entries, 0)
    requires f2 >= |s2.entries|
    requires SimpleSignal.Present(StableList.Values(s1)) == SimpleSigSignal.Live(s2.entries)
    ensures var e1, e2 := SimpleEmission.Invoke(s1, th, rule, f1), SimpleSigEmission.InvokeGeneric(s2, f2);
      && e1.values == e2.values && e1.error == e2.error
      && SimpleEmission.Result(e1) == SimpleSigEmission.DefaultResult(e2) == Expected(SimpleSigSignal.Live(s2.entries))
      && SimpleEmission.VoidResult(e1) == SimpleSigEmission.VoidResult(e2)
      && SimpleEmission.RangeResult(s1, e1) == SimpleSigEmission.GetAll(e2)
  {
    var e1, e2 := SimpleEmission.Invoke(s1, th, rule, f1), SimpleSigEmission.InvokeGeneric(s2, f2);
    SimpleEmission.QuietInvoke(s1, th, rule, f1);
    SimpleEmission.QuietResults(s1, th, rule, f1);
    SimpleSigEmission.QuietInvoke(s2, f2);
    SimpleSigEmission.QuietResults(s2, f2);
    SimpleSigEmission.DefaultSelectorsAgree(e2);
  }

  /** rocket.hpp agrees with simplesig.hpp on every quiet emission: the same
      values reach the collector and `invoke` reports the same outcome. */
  lemma RocketGenerationsAgree(r: RocketSignal.Signal, th: RocketEmission.ThreadData, f0: nat,
                               s2: SimpleSigSignal.Signal, f2: nat)
    requires RocketSignal.Valid(r) && |StableList.Order(r)| <= f0
    requires forall b | b in StableList.Values(r) :: Quiet(b)
    requires SimpleSigSignal.Wf(s2) && !s2.locked && SimpleSigEmission.QuietFrom(s2.entries, 0)
    requires f2 >= |s2.entries|
    requires StableList.Values(r) == SimpleSigSignal.Live(s2.entries)
    ensures var e0, e2 := RocketEmission.Invoke(r, th, f0), SimpleSigEmission.InvokeGeneric(s2, f2);
      && RocketEmission.Result(e0) == SimpleSigEmission.DefaultResult(e2) == Expected(StableList.Values(r))
  {
    var e2 := SimpleSigEmission.InvokeGeneric(s2, f2);
    RocketBehaviour.QuietEmission(r, th, f0);
    SimpleSigEmission.QuietResults(s2, f2);
  }
}
