/** Emission in rocket.hpp (v1.3): `signal::invoke` and the per-thread
    context it publishes.

    The thread-local `thread_local_data` becomes an explicit record threaded
    through the emission. A slot is a scripted behaviour (module `Slots`);
    running it applies its effects to the connection list in order, then
    either hands a value to the collector or throws. A re-entrant emission
    from inside a slot is a nested `Invoke`, so the three functions below are
    mutually recursive; `fuel` bounds the number of steps, and an emission
    that would run longer (a slot that keeps appending copies of itself, or
    keeps re-emitting) ends in `OutOfFuel`. */
module RocketEmission {
  import opened Links
  import opened Slots
  import opened Optional
  import StableList
  import opened RocketSignal
  import Collectors

  /** `thread_local_data`: the node whose slot is running
      (`current_connection`) and the abort request (`emission_aborted`). */
  datatype ThreadData = ThreadData(current: Ptr, aborted: bool)

  /** How a walk over the connections ended. */
  datatype Status =
    | Finished   // the cursor reached `tail`
    | Aborted    // the loop was left after a slot called `abort_emission()`
    | OutOfFuel  // still running when the step bound ran out
    | Fault      // the cursor was not a node of the list: `assert(current != nullptr)` fails

  /** An emission: the list and the thread data afterwards, the nodes whose
      slots were called (in order), the values handed to the collector, and
      whether any slot threw. */
  datatype Emission = Emission(sig: Signal, th: ThreadData, called: seq<nat>, values: seq<int>, error: bool, status: Status)

  /** The effects of one slot body: the list and thread data afterwards,
      whether the body threw before its end, and whether a nested emission
      ran out of fuel or faulted. */
  datatype SlotRun = SlotRun(sig: Signal, th: ThreadData, threw: bool, status: Status)

  /** `invoke(args...)` up to the point where it throws or returns: an
      `abort_scope` sets `emission_aborted` to false for the walk and
      restores it afterwards. */
  function Invoke(sig: Signal, th: ThreadData, fuel: nat): (e: Emission)
    ensures |e.values| <= |e.called|
    decreases fuel, 2, 0
  {
    var w := Walk(sig, th.(aborted := false), sig.first, fuel);
    w.(th := w.th.(aborted := th.aborted))
  }

  /** The loop of `invoke` from the cursor `cur`. A node that is not
      connected is stepped over; a connected one has its slot called. */
  function Walk(sig: Signal, th: ThreadData, cur: Ptr, fuel: nat): (e: Emission)
    ensures |e.values| <= |e.called|
    decreases fuel, 1, 1
  {
    if cur == Tail then Emission(sig, th, [], [], false, Finished)
    else if fuel == 0 then Emission(sig, th, [], [], false, OutOfFuel)
    else if !cur.Node? || cur.id !in sig.links then Emission(sig, th, [], [], false, Fault)
    else if sig.links[cur.id].prev == Null then Walk(sig, th, sig.links[cur.id].next, fuel - 1)
    else Call(sig, th, cur.id, fuel)
  }

  /** One round of the loop on the connected node `id`: a `connection_scope`
      publishes it as `current_connection` while its slot runs. */
  function Call(sig: Signal, th: ThreadData, id: nat, fuel: nat): (e: Emission)
    requires id in sig.links && fuel > 0
    ensures |e.values| <= |e.called|
    decreases fuel, 1, 0
  {
    var slot := sig.links[id].value;
    Finish(th, id, slot, RunEffects(sig, th.(current := Node(id)), slot.effects, fuel - 1), fuel - 1)
  }

  /** The rest of the round once the slot of `id` has run: the scope restores
      the previous `current_connection`, an exception sets the error flag, and
      an abort request ends the loop. Otherwise the cursor moves to the
      node's `next` as it is after the slot ran. */
  function Finish(th: ThreadData, id: nat, slot: Behaviour, run: SlotRun, fuel: nat): (e: Emission)
    ensures |e.values| <= |e.called|
    decreases fuel, 1, 2
  {
    var th' := run.th.(current := th.current);
    var threw := run.threw || slot.outcome.Throws?;
    var vals := if threw then [] else [slot.outcome.value];
    if run.status != Finished then Emission(run.sig, th', [id], [], threw, run.status)
    else if th'.aborted then Emission(run.sig, th', [id], vals, threw, Aborted)
    else Continued(id, vals, threw, Walk(run.sig, th', StableList.Next(run.sig, Node(id)), fuel))
  }

  /** One side effect other than a nested emission. */
  function Apply(sig: Signal, th: ThreadData, effect: Effect): (Signal, ThreadData)
    requires !effect.EmitAgain?
  {
    match effect
    case AbortEmission =>
      // `abort_emission()`
      (sig, th.(aborted := true))
    case DisconnectSelf =>
      // `current_connection().disconnect()`; a null `current_connection` disconnects nothing
      (if th.current.Node? then Disconnect(sig, th.current.id) else sig, th)
    case DisconnectNode(target) =>
      (Disconnect(sig, target), th)
    case ClearSignal =>
      (Clear(sig), th)
    case ConnectSlot(b, first) =>
      (Connect(sig, b, first).0, th)
  }

  /** A slot body's effects, in order. A nested emission that throws
      `invocation_slot_error` ends the body with that exception. */
  function RunEffects(sig: Signal, th: ThreadData, effects: seq<Effect>, fuel: nat): SlotRun
    decreases fuel, 0, |effects|
  {
    if effects == [] then SlotRun(sig, th, false, Finished)
    else if !effects[0].EmitAgain? then
      var (sig', th') := Apply(sig, th, effects[0]);
      RunEffects(sig', th', effects[1..], fuel)
    else if fuel == 0 then SlotRun(sig, th, false, OutOfFuel)
    else
      var e := Invoke(sig, th, fuel - 1);
      if e.status == OutOfFuel || e.status == Fault then SlotRun(e.sig, e.th, false, e.status)
      else if e.error then SlotRun(e.sig, e.th, true, Finished)
      else RunEffects(e.sig, e.th, effects[1..], fuel)
  }

  /** What `invoke` hands back after the loop: `invocation_slot_error` if a
      slot threw, otherwise `default_collector`'s result, the last value as
      an optional. */
  function Result(e: Emission): Result<Option<int>>
  {
    if e.error then Err(InvocationSlotError) else Ok(Collectors.DefaultOf(e.values))
  }

  // ---------------------------------------------------------------------------
  // Safety: the cursor never leaves the list, and a node that is already
  // disconnected is never called.
  // ---------------------------------------------------------------------------

  /** What the loop guarantees about an emission `e` that started on the
      valid list `sig` with thread data `th`: the cursor never left the list,
      the list is still valid and keeps every node and slot, the published
      `current_connection` is restored, and no slot of a node that was
      already disconnected at the start was called. */
  ghost predicate SafeFrom(sig: Signal, th: ThreadData, e: Emission)
  {
    && e.status != Fault
    && Valid(e.sig) && Persists(sig, e.sig)
    && e.th.current == th.current
    && (forall x | x in e.called :: !Disconnected(sig, x))
  }

  lemma InvokeSafe(sig: Signal, th: ThreadData, fuel: nat)
    requires Valid(sig)
    ensures var e := Invoke(sig, th, fuel);
      && e.status != Fault
      && Valid(e.sig) && Persists(sig, e.sig)
      && e.th == th
      && (forall x | x in e.called :: !Disconnected(sig, x))
    decreases fuel, 2, 0
  {
    if sig.first.Node? {
      assert sig.first.id in StableList.Order(sig);
    }
    WalkSafe(sig, th.(aborted := false), sig.first, fuel);
  }

  lemma WalkSafe(sig: Signal, th: ThreadData, cur: Ptr, fuel: nat)
    requires Valid(sig) && (cur == Tail || (cur.Node? && cur.id in sig.links))
    ensures SafeFrom(sig, th, Walk(sig, th, cur, fuel))
    decreases fuel, 1, 1
  {
    if cur != Tail && fuel > 0 {
      var e := Walk(sig, th, cur, fuel);
      if sig.links[cur.id].prev == Null {
        SkipSafe(sig, th, cur, fuel, e);
      } else {
        // the round that calls the slot of a connected node
        var slot, th1 := sig.links[cur.id].value, th.(current := cur);
        var run := RunOf(sig, th1, slot.effects, fuel - 1);
        WalkCallIs(sig, th, th1, cur, fuel, slot, run, e);
        FinishSafe(sig, th, cur.id, slot, run, fuel - 1, e);
      }
    }
  }

  /** The round of the loop that steps over a disconnected node. */
  lemma SkipSafe(sig: Signal, th: ThreadData, cur: Ptr, fuel: nat, e: Emission)
    requires Valid(sig) && cur.Node? && Disconnected(sig, cur.id) && fuel > 0
    requires e == Walk(sig, th, cur, fuel)
    ensures SafeFrom(sig, th, e)
    decreases fuel, 1, 0
  {
    NextInList(sig, cur.id);
    WalkSafe(sig, th, sig.links[cur.id].next, fuel - 1);
  }

  /** The emission of a round that called `id` and went on with `rest`. */
  function Continued(id: nat, vals: seq<int>, threw: bool, rest: Emission): (e: Emission)
    ensures e.sig == rest.sig && e.th == rest.th && e.status == rest.status
    ensures e.called == [id] + rest.called && e.values == vals + rest.values
    ensures e.error == (threw || rest.error)
  {
    rest.(called := [id] + rest.called, values := vals + rest.values, error := threw || rest.error)
  }

  /** A round of the loop on a connected node is the call of its slot. */
  lemma WalkCallIs(sig: Signal, th: ThreadData, th1: ThreadData, cur: Ptr, fuel: nat, slot: Behaviour, run: SlotRun, e: Emission)
    requires cur.Node? && Connected(sig, cur.id) && fuel > 0
    requires slot == sig.links[cur.id].value && th1 == th.(current := cur)
    requires run == RunEffects(sig, th1, slot.effects, fuel - 1)
    requires e == Walk(sig, th, cur, fuel)
    ensures e == Finish(th, cur.id, slot, run, fuel - 1)
  {
  }

  lemma FinishSafe(sig: Signal, th: ThreadData, id: nat, slot: Behaviour, run: SlotRun, fuel: nat, e: Emission)
    requires Connected(sig, id)
    requires RunOk(sig, run) && e == Finish(th, id, slot, run, fuel)
    ensures SafeFrom(sig, th, e)
    decreases fuel, 1, 3
  {
    var th' := run.th.(current := th.current);
    var threw := run.threw || slot.outcome.Throws?;
    var vals := if threw then [] else [slot.outcome.value];
    if run.status == Finished && !th'.aborted {
      GoOnSafe(sig, th, th', id, vals, threw, run.sig, fuel);
    } else if run.status != Finished {
      StoppedSafe(sig, th, th', id, run.sig, [], threw, run.status);
    } else {
      StoppedSafe(sig, th, th', id, run.sig, vals, threw, Aborted);
    }
  }

  lemma StoppedSafe(sig: Signal, th: ThreadData, th': ThreadData, id: nat, mid: Signal,
                    vals: seq<int>, threw: bool, status: Status)
    requires Connected(sig, id) && th'.current == th.current && status != Fault
    requires Valid(mid) && Persists(sig, mid)
    ensures SafeFrom(sig, th, Emission(mid, th', [id], vals, threw, status))
  {
  }

  /** The rest of the loop after the slot of `id` ran and left the list
      `mid`, and the round that called `id` together with it. */
  lemma GoOnSafe(sig: Signal, th: ThreadData, th': ThreadData, id: nat, vals: seq<int>, threw: bool,
                 mid: Signal, fuel: nat)
    requires Connected(sig, id) && th'.current == th.current
    requires Valid(mid) && Persists(sig, mid)
    ensures SafeFrom(sig, th, Continued(id, vals, threw, Walk(mid, th', StableList.Next(mid, Node(id)), fuel)))
    decreases fuel, 1, 2
  {
    assert id in mid.links;
    NextInList(mid, id);
    var next := StableList.Next(mid, Node(id));
    WalkSafe(mid, th', next, fuel);
    var e := Walk(mid, th', next, fuel);
    PersistsTrans(sig, mid, e.sig);
    forall x | x in e.called
      ensures !Disconnected(sig, x)
    {
      assert !Disconnected(mid, x);
    }
  }

  lemma ApplySafe(sig: Signal, th: ThreadData, effect: Effect)
    requires Valid(sig) && !effect.EmitAgain?
    ensures var (sig', th') := Apply(sig, th, effect);
      Valid(sig') && Persists(sig, sig') && th'.current == th.current
  {
    match effect
    case AbortEmission =>
    case DisconnectSelf =>
      if th.current.Node? {
        DisconnectRemoves(sig, th.current.id);
      }
    case DisconnectNode(target) =>
      DisconnectRemoves(sig, target);
    case ClearSignal =>
      ClearDisconnectsAll(sig);
    case ConnectSlot(b, first) =>
      ConnectInserts(sig, b, first);
  }

  /** A slot body that ran from the valid list `sig` left a valid list
      that keeps every node and slot of `sig`. */
  ghost predicate RunOk(sig: Signal, run: SlotRun)
  {
    run.status != Fault && Valid(run.sig) && Persists(sig, run.sig)
  }

  /** `RunSafe`, handing back the run it is about. */
  lemma RunOf(sig: Signal, th: ThreadData, effects: seq<Effect>, fuel: nat) returns (run: SlotRun)
    requires Valid(sig)
    ensures run == RunEffects(sig, th, effects, fuel)
    ensures RunOk(sig, run) && run.th.current == th.current
    decreases fuel, 0, |effects| + 1
  {
    RunSafe(sig, th, effects, fuel);
    run := RunEffects(sig, th, effects, fuel);
  }

  lemma RunSafe(sig: Signal, th: ThreadData, effects: seq<Effect>, fuel: nat)
    requires Valid(sig)
    ensures var run := RunEffects(sig, th, effects, fuel);
      && run.status != Fault
      && Valid(run.sig) && Persists(sig, run.sig)
      && run.th.current == th.current
    decreases fuel, 0, |effects|
  {
    if effects == [] {
    } else if !effects[0].EmitAgain? {
      var (sig', th') := Apply(sig, th, effects[0]);
      ApplySafe(sig, th, effects[0]);
      RunSafe(sig', th', effects[1..], fuel);
      PersistsTrans(sig, sig', RunEffects(sig', th', effects[1..], fuel).sig);
    } else if fuel > 0 {
      InvokeSafe(sig, th, fuel - 1);
      var e := Invoke(sig, th, fuel - 1);
      if e.status != OutOfFuel && !e.error {
        RunSafe(e.sig, e.th, effects[1..], fuel);
        PersistsTrans(sig, e.sig, RunEffects(e.sig, e.th, effects[1..], fuel).sig);
      }
    }
  }
}
