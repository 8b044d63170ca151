/** Emission in simplesig.hpp (v1.0): `invoke_generic`, `invoke_get_all` and
    `invoke_impl`.

    `invoke_generic` first asserts that the signal is not already emitting,
    then holds `recursion_lock` for the whole walk. The walk goes over the
    deque by position: an entry whose slot is null is erased where it
    stands, any other entry's slot is called and the walk moves one
    position on. An exception from a slot sets the error flag, and one
    `invocation_slot_error` is thrown after the walk. The non-void forms
    gather every returned value into a vector first and hand the whole
    vector to the selector.

    A slot that re-enters the signal meets the assertion, which ends the
    program; the status `RecursionAsserted` records that. simplesig.hpp has
    no `current_connection()`: a `DisconnectSelf` step is read as the slot
    disconnecting its own node through a handle it holds. It has no
    `abort_emission()` either, so an `AbortEmission` step does nothing.

    A `connect` from inside a slot grows the deque, which in C++ invalidates
    the walk's iterator; the model resumes the walk right after the entry
    whose slot ran. */
module SimpleSigEmission {
  import opened Optional
  import opened Slots
  import opened SimpleSigSignal
  import RangeCollectors
  import Collectors

  /** How a walk ended. */
  datatype Status =
    | Finished           // the iterator reached `end()`
    | OutOfFuel          // still running when the step bound ran out
    | RecursionAsserted  // `assert(!recursion_lock)` failed

  /** An emission: the signal afterwards, the nodes whose slots were called
      (in order), the values gathered by `invoke_get_all`, and whether any
      slot threw. */
  datatype Emission = Emission(sig: Signal, called: seq<nat>, values: seq<int>, error: bool, status: Status)

  /** The effects of one slot body: the signal afterwards, whether the body
      threw before its end, and how a nested emission ended. */
  datatype SlotRun = SlotRun(sig: Signal, threw: bool, status: Status)

  /** The position of node `id` in a run of entries, `|es|` if absent. */
  function Find(es: seq<Entry>, id: nat): (i: nat)
    ensures i <= |es|
    ensures i < |es| ==> es[i].id == id
    ensures forall k | 0 <= k < i :: es[k].id != id
    decreases |es|
  {
    if es == [] then 0 else if es[0].id == id then 0 else 1 + Find(es[1..], id)
  }

  /** The position after node `id`: where the walk resumes after its slot. */
  function After(es: seq<Entry>, id: nat): (i: nat)
    ensures i <= |es|
  {
    var k := Find(es, id);
    if k < |es| then k + 1 else |es|
  }

  /** `invoke_generic(func)` up to the point where it throws or returns. */
  function InvokeGeneric(sig: Signal, fuel: nat): (e: Emission)
    decreases fuel, 2, 0
  {
    if sig.locked then Emission(sig, [], [], false, RecursionAsserted)
    else
      var e := Walk(sig.(locked := true), 0, fuel);
      e.(sig := e.sig.(locked := false))
  }

  /** The loop from position `i`. */
  function Walk(sig: Signal, i: nat, fuel: nat): (e: Emission)
    decreases fuel, 1, 1
  {
    if i >= |sig.entries| then Emission(sig, [], [], false, Finished)
    else if fuel == 0 then Emission(sig, [], [], false, OutOfFuel)
    else match sig.entries[i].slot
      case None =>
        Walk(sig.(entries := sig.entries[..i] + sig.entries[i + 1..]), i, fuel - 1)
      case Some(slot) =>
        Call(sig, sig.entries[i].id, slot, fuel)
  }

  /** One round on a connected entry: the slot runs, a return value is
      gathered, an exception sets the error flag, and the walk resumes
      after the entry. */
  function Call(sig: Signal, id: nat, slot: Behaviour, fuel: nat): (e: Emission)
    requires fuel > 0
    decreases fuel, 1, 0
  {
    var run := RunEffects(sig, id, slot.effects, fuel - 1);
    var threw := run.threw || slot.outcome.Throws?;
    var vals := if threw then [] else [slot.outcome.value];
    if run.status != Finished then Emission(run.sig, [id], [], threw, run.status)
    else Continued(id, vals, threw, Walk(run.sig, After(run.sig.entries, id), fuel - 1))
  }

  /** The emission of a round that called `id` and went on with `rest`. */
  function Continued(id: nat, vals: seq<int>, threw: bool, rest: Emission): (e: Emission)
    ensures e.sig == rest.sig && e.status == rest.status
    ensures e.called == [id] + rest.called && e.values == vals + rest.values
    ensures e.error == (threw || rest.error)
  {
    rest.(called := [id] + rest.called, values := vals + rest.values, error := threw || rest.error)
  }

  /** One side effect other than a nested emission, by the slot of node `id`. */
  function Apply(sig: Signal, id: nat, effect: Effect): Signal
    requires !effect.EmitAgain?
  {
    match effect
    case AbortEmission => sig
    case DisconnectSelf => NullSlot(sig, id)
    case DisconnectNode(target) => NullSlot(sig, target)
    case ClearSignal => Clear(sig)
    case ConnectSlot(b, first) => Connect(sig, b, first).0
  }

  /** A slot body's effects, in order. */
  function RunEffects(sig: Signal, id: nat, effects: seq<Effect>, fuel: nat): SlotRun
    decreases fuel, 0, |effects|
  {
    if effects == [] then SlotRun(sig, false, Finished)
    else if !effects[0].EmitAgain? then RunEffects(Apply(sig, id, effects[0]), id, effects[1..], fuel)
    else if fuel == 0 then SlotRun(sig, false, OutOfFuel)
    else
      var e := InvokeGeneric(sig, fuel - 1);
      if e.status != Finished then SlotRun(e.sig, false, e.status)
      else if e.error then SlotRun(e.sig, true, Finished)
      else RunEffects(e.sig, id, effects[1..], fuel)
  }

  /** The void `invoke`: `invocation_slot_error`, or nothing. */
  function VoidResult(e: Emission): Result<()>
  {
    if e.error then Err(InvocationSlotError) else Ok(())
  }

  /** `invoke_get_all`: the vector of returned values, unless a slot threw. */
  function GetAll(e: Emission): Result<seq<int>>
  {
    if e.error then Err(InvocationSlotError) else Ok(e.values)
  }

  /** The non-void `invoke` with the default selector `last<optional<R>>`,
      applied to the whole vector. */
  function DefaultResult(e: Emission): Result<Option<int>>
  {
    if e.error then Err(InvocationSlotError)
    else Ok(RangeCollectors.LastBidirectional(None, seq(|e.values|, k requires 0 <= k < |e.values| => Some(e.values[k]))))
  }

  // ---------------------------------------------------------------------------
  // Re-entrance and the recursion lock.
  // ---------------------------------------------------------------------------

  /** Any emission releases the lock when it returns, and any emission
      started while the lock is held stops at the assertion without
      calling a slot or touching the deque. */
  lemma LockReleased(sig: Signal, fuel: nat)
    ensures var e := InvokeGeneric(sig, fuel);
      && (!sig.locked ==> !e.sig.locked)
      && (sig.locked ==> e.status == RecursionAsserted && e.called == [] && e.sig == sig)
  {
  }

  /** A slot that re-enters the signal it is called from meets the
      assertion: the emission stops after calling that slot alone, and the
      lock is released. */
  lemma ReentryAsserts(sig: Signal, id: nat, rest: seq<Effect>, out: SlotOutcome, fuel: nat)
    requires !sig.locked && sig.entries != [] && sig.entries[0] == Entry(id, Some(Behaviour([EmitAgain] + rest, out)))
    requires fuel >= 2
    ensures var e := InvokeGeneric(sig, fuel);
      && e.status == RecursionAsserted && e.called == [id] && !e.sig.locked
  {
    var s := sig.(locked := true);
    var q := Behaviour([EmitAgain] + rest, out);
    assert Walk(s, 0, fuel) == Call(s, id, q, fuel);
    assert RunEffects(s, id, q.effects, fuel - 1).status == RecursionAsserted;
  }

  // ---------------------------------------------------------------------------
  // Quiet slots: every connected slot is called once, in order, and every
  // disconnected entry is erased.
  // ---------------------------------------------------------------------------

  /** Slots with no side effects on the signal, from position `i` on. */
  ghost predicate QuietFrom(es: seq<Entry>, i: nat)
  {
    forall k | i <= k < |es| :: es[k].slot.Some? ==> Quiet(es[k].slot.value)
  }

  /** No id repeats. */
  ghost predicate Unique(es: seq<Entry>)
  {
    forall i, j | 0 <= i < j < |es| :: es[i].id != es[j].id
  }

  /** When every connected slot of a well-formed, idle signal is quiet and
      the fuel covers the deque, the emission calls exactly the connected
      slots, in order, gathers their values, reports an error exactly when
      one threw, and leaves only the connected entries in the deque. */
  lemma QuietInvoke(sig: Signal, fuel: nat)
    requires Wf(sig) && !sig.locked && QuietFrom(sig.entries, 0) && fuel >= |sig.entries|
    ensures var e := InvokeGeneric(sig, fuel); var live := LiveEntries(sig.entries);
      && e.status == Finished && !e.sig.locked && e.sig.nextId == sig.nextId
      && e.sig.entries == live
      && e.called == Ids(live)
      && e.values == Returned(Live(sig.entries))
      && e.error == AnyThrows(Live(sig.entries))
  {
    var s := sig.(locked := true);
    QuietStart(s, fuel);
    QuietRunOutcome(s, [], sig.entries);
    assert [] + LiveEntries(sig.entries) == LiveEntries(sig.entries);
  }

  lemma QuietStart(s: Signal, fuel: nat)
    requires Unique(s.entries) && QuietFrom(s.entries, 0) && fuel >= |s.entries|
    ensures Walk(s, 0, fuel) == QuietRun(s, [], s.entries)
  {
    assert [] + s.entries == s.entries;
    QuietWalk(s, [], s.entries, fuel);
  }

  /** The quiet walk without fuel or slot bodies: the reference the walk is
      compared with. */
  function QuietRun(sig: Signal, pre: seq<Entry>, rest: seq<Entry>): Emission
    decreases |rest|
  {
    if rest == [] then Emission(sig.(entries := pre), [], [], false, Finished)
    else if rest[0].slot.None? then QuietRun(sig, pre, rest[1..])
    else
      var q := rest[0].slot.value;
      var threw := q.outcome.Throws?;
      Continued(rest[0].id, if threw then [] else [q.outcome.value], threw, QuietRun(sig, pre + [rest[0]], rest[1..]))
  }

  /** The walk from the split `pre + rest` runs as the reference does. */
  lemma {:induction false} QuietWalk(sig: Signal, pre: seq<Entry>, rest: seq<Entry>, fuel: nat)
    requires sig.entries == pre + rest && Unique(pre + rest) && QuietFrom(rest, 0) && fuel >= |rest|
    ensures Walk(sig, |pre|, fuel) == QuietRun(sig, pre, rest)
    decreases |rest|
  {
    if rest == [] {
      assert pre + rest == pre;
    } else if rest[0].slot.None? {
      var sig' := DropStep(sig, pre, rest, fuel);
      QuietWalk(sig', pre, rest[1..], fuel - 1);
      QuietRunFrame(sig, pre + rest[1..], pre, rest[1..]);
    } else {
      CallStep(sig, pre, rest, fuel);
      QuietWalk(sig, pre + [rest[0]], rest[1..], fuel - 1);
    }
  }

  lemma DropStep(sig: Signal, pre: seq<Entry>, rest: seq<Entry>, fuel: nat) returns (sig': Signal)
    requires sig.entries == pre + rest && Unique(pre + rest) && QuietFrom(rest, 0) && fuel >= |rest|
    requires rest != [] && rest[0].slot.None?
    ensures sig' == sig.(entries := pre + rest[1..])
    ensures Walk(sig, |pre|, fuel) == Walk(sig', |pre|, fuel - 1)
    ensures sig'.entries == pre + rest[1..] && Unique(pre + rest[1..]) && QuietFrom(rest[1..], 0) && fuel - 1 >= |rest[1..]|
  {
    var i := |pre|;
    assert sig.entries[i] == rest[0];
    assert sig.entries[..i] + sig.entries[i + 1..] == pre + rest[1..];
    sig' := sig.(entries := pre + rest[1..]);
    UniqueDrop(pre, rest);
  }

  lemma UniqueDrop(pre: seq<Entry>, rest: seq<Entry>)
    requires Unique(pre + rest) && rest != []
    ensures Unique(pre + rest[1..])
  {
    var a, b := pre + rest, pre + rest[1..];
    forall i, j | 0 <= i < j < |b|
      ensures b[i].id != b[j].id
    {
      var i' := if i < |pre| then i else i + 1;
      var j' := if j < |pre| then j else j + 1;
      assert b[i] == a[i'] && b[j] == a[j'];
    }
  }

  lemma CallStep(sig: Signal, pre: seq<Entry>, rest: seq<Entry>, fuel: nat)
    requires sig.entries == pre + rest && Unique(pre + rest) && QuietFrom(rest, 0) && fuel >= |rest|
    requires rest != [] && rest[0].slot.Some?
    ensures var q := rest[0].slot.value; var threw := q.outcome.Throws?;
      Walk(sig, |pre|, fuel) == Continued(rest[0].id, if threw then [] else [q.outcome.value], threw, Walk(sig, |pre + [rest[0]]|, fuel - 1))
    ensures sig.entries == (pre + [rest[0]]) + rest[1..] && Unique((pre + [rest[0]]) + rest[1..])
    ensures QuietFrom(rest[1..], 0) && fuel - 1 >= |rest[1..]|
  {
    var i := |pre|;
    var q := rest[0].slot.value;
    assert sig.entries[i] == rest[0];
    assert Quiet(q);
    assert RunEffects(sig, rest[0].id, q.effects, fuel - 1) == SlotRun(sig, false, Finished);
    FindUnique(sig.entries, i);
    assert (pre + [rest[0]]) + rest[1..] == pre + rest;
  }

  /** In a run without repeated ids, node `es[i].id` is found at `i`. */
  lemma FindUnique(es: seq<Entry>, i: nat)
    requires Unique(es) && i < |es|
    ensures Find(es, es[i].id) == i && After(es, es[i].id) == i + 1
  {
  }

  /** What the reference run hands back. */
  lemma {:induction false} QuietRunOutcome(sig: Signal, pre: seq<Entry>, rest: seq<Entry>)
    ensures QuietOutcome(QuietRun(sig, pre, rest), sig, pre, rest)
    decreases |rest|
  {
    if rest == [] {
      assert pre + [] == pre;
      assert Live(rest) == [];
    } else if rest[0].slot.None? {
      QuietRunOutcome(sig, pre, rest[1..]);
      DropOutcome(QuietRun(sig, pre, rest[1..]), sig, pre, rest);
    } else {
      QuietRunOutcome(sig, pre + [rest[0]], rest[1..]);
      CallOutcome(QuietRun(sig, pre + [rest[0]], rest[1..]), sig, pre, rest);
    }
  }

  /** The emission of a quiet walk over `rest`, started with `pre` behind
      the cursor. */
  ghost predicate QuietOutcome(e: Emission, sig: Signal, pre: seq<Entry>, rest: seq<Entry>)
  {
    var live := LiveEntries(rest);
    && e.status == Finished && e.sig == sig.(entries := pre + live)
    && e.called == Ids(live)
    && e.values == Returned(Live(rest))
    && e.error == AnyThrows(Live(rest))
  }

  lemma DropOutcome(e: Emission, sig: Signal, pre: seq<Entry>, rest: seq<Entry>)
    requires rest != [] && rest[0].slot.None?
    requires QuietOutcome(e, sig, pre, rest[1..])
    ensures QuietOutcome(e, sig, pre, rest)
  {
    LiveSkip(rest);
  }

  lemma CallOutcome(e: Emission, sig: Signal, pre: seq<Entry>, rest: seq<Entry>)
    requires rest != [] && rest[0].slot.Some?
    requires QuietOutcome(e, sig, pre + [rest[0]], rest[1..])
    ensures var q := rest[0].slot.value; var threw := q.outcome.Throws?;
      QuietOutcome(Continued(rest[0].id, if threw then [] else [q.outcome.value], threw, e), sig, pre, rest)
  {
    var q := rest[0].slot.value;
    LiveTake(rest);
    CallValues(q, Live(rest[1..]));
    assert (pre + [rest[0]]) + LiveEntries(rest[1..]) == pre + LiveEntries(rest);
    assert Ids(LiveEntries(rest)) == [rest[0].id] + Ids(LiveEntries(rest[1..]));
  }

  /** A disconnected first entry adds nothing to `LiveEntries` or `Live`. */
  lemma LiveSkip(rest: seq<Entry>)
    requires rest != [] && rest[0].slot.None?
    ensures LiveEntries(rest) == LiveEntries(rest[1..]) && Live(rest) == Live(rest[1..])
  {
  }

  /** A connected first entry comes first in `LiveEntries` and `Live`. */
  lemma LiveTake(rest: seq<Entry>)
    requires rest != [] && rest[0].slot.Some?
    ensures LiveEntries(rest) == [rest[0]] + LiveEntries(rest[1..])
    ensures Live(rest) == [rest[0].slot.value] + Live(rest[1..])
  {
    var l := LiveEntries(rest);
    assert l == [rest[0]] + LiveEntries(rest[1..]);
    assert SlotsOf(l) == [rest[0].slot.value] + SlotsOf(LiveEntries(rest[1..]));
  }

  /** The seq side of a called entry: what reaches the selector. */
  lemma CallValues(q: Behaviour, bs: seq<Behaviour>)
    ensures var threw := q.outcome.Throws?;
      && (if threw then [] else [q.outcome.value]) + Returned(bs) == Returned([q] + bs)
      && (threw || AnyThrows(bs)) == AnyThrows([q] + bs)
  {
    ReturnedConcat([q], bs);
    AnyThrowsConcat([q], bs);
    ReturnedOne(q);
  }

  /** The reference run does not look at the entries of the signal it is
      given. */
  lemma {:induction false} QuietRunFrame(sig: Signal, x: seq<Entry>, pre: seq<Entry>, rest: seq<Entry>)
    ensures QuietRun(sig.(entries := x), pre, rest) == QuietRun(sig, pre, rest)
    decreases |rest|
  {
    if rest != [] {
      if rest[0].slot.None? {
        QuietRunFrame(sig, x, pre, rest[1..]);
      } else {
        QuietRunFrame(sig, x, pre + [rest[0]], rest[1..]);
      }
    }
  }

  /** With quiet slots, what `invoke` hands back: the void form throws
      exactly when a slot threw; otherwise `invoke_get_all` gives every
      returned value in deque order and the default selector the last one. */
  lemma QuietResults(sig: Signal, fuel: nat)
    requires Wf(sig) && !sig.locked && QuietFrom(sig.entries, 0) && fuel >= |sig.entries|
    ensures var e := InvokeGeneric(sig, fuel); var bs := Live(sig.entries);
      && (VoidResult(e) == if AnyThrows(bs) then Err(InvocationSlotError) else Ok(()))
      && (GetAll(e) == if AnyThrows(bs) then Err(InvocationSlotError) else Ok(Returned(bs)))
      && (!AnyThrows(bs) && Returned(bs) == [] ==> DefaultResult(e) == Ok(None))
      && (!AnyThrows(bs) && Returned(bs) != [] ==> DefaultResult(e) == Ok(Some(Returned(bs)[|Returned(bs)| - 1])))
  {
    QuietInvoke(sig, fuel);
  }

  // ---------------------------------------------------------------------------
  // `clear()` from inside a slot.
  // ---------------------------------------------------------------------------

  /** A walk over entries that are all disconnected erases them all. */
  lemma {:induction false} DropAll(sig: Signal, i: nat, fuel: nat)
    requires i <= |sig.entries| && fuel >= |sig.entries| - i
    requires forall k | i <= k < |sig.entries| :: sig.entries[k].slot.None?
    ensures Walk(sig, i, fuel) == Emission(sig.(entries := sig.entries[..i]), [], [], false, Finished)
    decreases |sig.entries| - i
  {
    if i == |sig.entries| {
      assert sig.entries[..i] == sig.entries;
    } else {
      var es' := sig.entries[..i] + sig.entries[i + 1..];
      DropAll(sig.(entries := es'), i, fuel - 1);
      assert es'[..i] == sig.entries[..i];
    }
  }

  /** When the first slot clears the signal, the lock makes `clear()` only
      disconnect the nodes; the walk then erases every entry after the
      first and calls nothing more. The first entry stays, disconnected. */
  lemma ClearFromFirstSlot(sig: Signal, id: nat, v: int, fuel: nat)
    requires Wf(sig) && !sig.locked && sig.entries != []
    requires sig.entries[0] == Entry(id, Some(Behaviour([ClearSignal], Returns(v))))
    requires fuel >= |sig.entries| + 1
    ensures var e := InvokeGeneric(sig, fuel);
      && e.status == Finished && e.called == [id] && e.values == [v] && !e.error
      && e.sig.entries == [Entry(id, None)] && !e.sig.locked
  {
    var s := sig.(locked := true);
    var q := Behaviour([ClearSignal], Returns(v));
    var c := Clear(s);
    assert RunEffects(s, id, q.effects, fuel - 1) == RunEffects(c, id, [], fuel - 1);
    assert c.entries[0] == Entry(id, None);
    FindUnique(c.entries, 0);
    assert Walk(s, 0, fuel) == Continued(id, [v], false, Walk(c, 1, fuel - 1));
    DropAll(c, 1, fuel - 1);
    assert c.entries[..1] == [Entry(id, None)];
  }

  // ---------------------------------------------------------------------------
  // The same connections, two generations.
  // ---------------------------------------------------------------------------

  /** The batch `last` selector of simplesig.hpp over the gathered values
      agrees with the incremental default collector of the other two
      generations over the same values. */
  lemma DefaultSelectorsAgree(e: Emission)
    ensures DefaultResult(e) == (if e.error then Err(InvocationSlotError) else Ok(Collectors.DefaultOf(e.values)))
  {
  }
}
