/** Slots as scripted behaviours.

    The library stores each slot as an opaque `std::function`. Here a slot is a
    script: the side effects its body performs, in order, and then whether it
    returns a value or throws. Every generation of the library runs the same
    scripts; each one interprets the effects against its own data structures. */
module Slots {

  /** How a slot body ends: with a return value, or by throwing. */
  datatype SlotOutcome = Returns(value: int) | Throws

  /** One side effect a slot body can perform on the signal that is calling it. */
  datatype Effect =
    | AbortEmission                          // `abort_emission()` (rocket.hpp only)
    | DisconnectSelf                         // `current_connection().disconnect()`
    | DisconnectNode(target: nat)            // `disconnect()` on a handle to another subscription
    | ClearSignal                            // `signal.clear()`
    | ConnectSlot(slot: Behaviour, first: bool)  // `signal.connect(slot, first)`
    | EmitAgain                              // re-entrant `signal(args...)`

  /** A scripted slot: its effects, then its outcome. */
  datatype Behaviour = Behaviour(effects: seq<Effect>, outcome: SlotOutcome)

  /** A slot with no side effects on the signal. */
  predicate Quiet(b: Behaviour)
  {
    b.effects == []
  }

  /** A slot whose only side effect, if any, is to request an abort. */
  predicate AbortOnly(b: Behaviour)
  {
    forall i | 0 <= i < |b.effects| :: b.effects[i] == AbortEmission
  }

  /** The values a sequence of completed slot calls hands to the collector:
      those of the calls that returned, in call order. */
  function Returned(bs: seq<Behaviour>): (vs: seq<int>)
    ensures |vs| <= |bs|
    ensures (forall i | 0 <= i < |bs| :: bs[i].outcome.Returns?) ==> |vs| == |bs|
    decreases |bs|
  {
    if |bs| == 0 then []
    else
      var rest := Returned(bs[..|bs| - 1]);
      match bs[|bs| - 1].outcome
      case Returns(v) => rest + [v]
      case Throws => rest
  }

  /** Whether any of a sequence of slot calls threw. */
  predicate AnyThrows(bs: seq<Behaviour>)
  {
    exists i | 0 <= i < |bs| :: bs[i].outcome.Throws?
  }

  /** When every call returns, the collector sees every value, in call order. */
  lemma {:induction false} ReturnedAllValues(bs: seq<Behaviour>)
    requires forall i | 0 <= i < |bs| :: bs[i].outcome.Returns?
    ensures forall i | 0 <= i < |bs| :: Returned(bs)[i] == bs[i].outcome.value
    decreases |bs|
  {
    if |bs| > 0 {
      ReturnedAllValues(bs[..|bs| - 1]);
    }
  }

  /** The values of two runs of calls, one after the other, are the values
      of the first run followed by those of the second. */
  lemma {:induction false} ReturnedConcat(xs: seq<Behaviour>, ys: seq<Behaviour>)
    ensures Returned(xs + ys) == Returned(xs) + Returned(ys)
    decreases |ys|
  {
    if |ys| == 0 {
      assert xs + ys == xs;
    } else {
      var init, b := ys[..|ys| - 1], ys[|ys| - 1];
      var front := xs + init;
      assert ys == init + [b];
      assert xs + ys == front + [b];
      ReturnedSnoc(ys, init, b);
      ReturnedSnoc(xs + ys, front, b);
      ReturnedConcat(xs, init);
    }
  }

  /** `Returned` of a run with one more call at its end. */
  lemma ReturnedSnoc(bs: seq<Behaviour>, init: seq<Behaviour>, b: Behaviour)
    requires bs == init + [b]
    ensures Returned(bs) == Returned(init) + (if b.outcome.Throws? then [] else [b.outcome.value])
  {
    assert bs[..|bs| - 1] == init;
  }

  lemma AnyThrowsConcat(xs: seq<Behaviour>, ys: seq<Behaviour>)
    ensures AnyThrows(xs + ys) == (AnyThrows(xs) || AnyThrows(ys))
  {
    var all := xs + ys;
    if AnyThrows(xs) {
      var i :| 0 <= i < |xs| && xs[i].outcome.Throws?;
      assert all[i] == xs[i];
    }
    if AnyThrows(ys) {
      var i :| 0 <= i < |ys| && ys[i].outcome.Throws?;
      assert all[|xs| + i] == ys[i];
    }
    if AnyThrows(all) {
      var i :| 0 <= i < |all| && all[i].outcome.Throws?;
      if i >= |xs| {
        assert ys[i - |xs|] == all[i];
      }
    }
  }

  /** What a single completed call contributes. */
  lemma ReturnedOne(b: Behaviour)
    ensures Returned([b]) == (if b.outcome.Throws? then [] else [b.outcome.value])
    ensures AnyThrows([b]) == b.outcome.Throws?
  {
    assert [b][..0] == [];
    if b.outcome.Throws? {
      assert [b][0].outcome.Throws?;
    }
  }
}
