/** Emission in simple.hpp (v1.1): `signal::invoke`, void and non-void.

    The loop walks the list from `begin()` to `end()`. An entry whose slot
    is null is erased where it stands, and the loop goes on from the
    iterator `erase` hands back. Otherwise the iterator is advanced first,
    then the slot runs under a `connection_scope` that publishes it as
    `current_connection`. An exception from the slot sets the error flag,
    and one `invocation_slot_error` is thrown after the loop.

    Slots are scripts (module `Slots`). A nested emission is a nested
    `Invoke`, so the functions below are mutually recursive, and `fuel`
    bounds the number of steps. simple.hpp has no `abort_emission()`, so an
    `AbortEmission` step does nothing here.

    `EraseRule` selects how the loop erases a null entry. `AsWritten` is the
    source: it always erases. `Guarded` erases only an entry that is still
    in the list, and steps past a link that a `clear()` inside a slot has
    already taken out. */
module SimpleEmission {
  import opened Links
  import opened Optional
  import opened Slots
  import StableList
  import opened SimpleSignal
  import Collectors

  /** `thread_local_data`: the node whose slot is running. */
  datatype ThreadData = ThreadData(current: Ptr)

  /** How a walk over the connections ended. */
  datatype Status =
    | Finished   // the iterator reached `end()`
    | OutOfFuel  // still running when the step bound ran out
    | Fault      // the iterator was not a link of the list

  /** An emission: the list and the thread data afterwards, the links whose
      slots were called (in order), the values handed to the selector, and
      whether any slot threw. */
  datatype Emission = Emission(sig: Signal, th: ThreadData, called: seq<nat>, values: seq<int>, error: bool, status: Status)

  /** The effects of one slot body: the list and thread data afterwards,
      whether the body threw before its end, and how a nested emission ended. */
  datatype SlotRun = SlotRun(sig: Signal, th: ThreadData, threw: bool, status: Status)

  /** How the loop erases a null entry. */
  datatype EraseRule = AsWritten | Guarded

  /** `itr = connections.erase(itr)` on the entry at `pos`. */
  function LazyErase(sig: Signal, pos: Ptr, rule: EraseRule): (r: (Signal, Ptr))
    requires pos.Node? && pos.id in sig.links
    ensures r.0.links.Keys == sig.links.Keys
  {
    if rule == Guarded && pos.id !in StableList.Order(sig) then (sig, sig.links[pos.id].next)
    else StableList.Erase(sig, pos)
  }

  /** `invoke(args...)` up to the point where it throws or returns. */
  function Invoke(sig: Signal, th: ThreadData, rule: EraseRule, fuel: nat): (e: Emission)
    ensures |e.values| <= |e.called|
    decreases fuel, 2, 0
  {
    Walk(sig, th, rule, sig.first, fuel)
  }

  /** The loop from the iterator `cur`. */
  function Walk(sig: Signal, th: ThreadData, rule: EraseRule, cur: Ptr, fuel: nat): (e: Emission)
    ensures |e.values| <= |e.called|
    decreases fuel, 1, 1
  {
    if cur == Tail then Emission(sig, th, [], [], false, Finished)
    else if fuel == 0 then Emission(sig, th, [], [], false, OutOfFuel)
    else if !cur.Node? || cur.id !in sig.links then Emission(sig, th, [], [], false, Fault)
    else match sig.links[cur.id].value
      case None =>
        var (sig', next) := LazyErase(sig, cur, rule);
        Walk(sig', th, rule, next, fuel - 1)
      case Some(slot) =>
        Call(sig, th, rule, cur.id, slot, fuel)
  }

  /** One round of the loop on a link whose slot is set: `++itr`, then the
      slot runs with the link published as `current_connection`. */
  function Call(sig: Signal, th: ThreadData, rule: EraseRule, id: nat, slot: Behaviour, fuel: nat): (e: Emission)
    requires id in sig.links && fuel > 0
    ensures |e.values| <= |e.called|
    decreases fuel, 1, 0
  {
    var next := sig.links[id].next;
    Finish(th, rule, id, slot, next, RunEffects(sig, th.(current := Node(id)), rule, slot.effects, fuel - 1), fuel - 1)
  }

  /** The rest of the round: the scope restores `current_connection`, an
      exception sets the error flag, a returned value goes to the selector,
      and the loop goes on from the iterator advanced before the call. */
  function Finish(th: ThreadData, rule: EraseRule, id: nat, slot: Behaviour, next: Ptr, run: SlotRun, fuel: nat): (e: Emission)
    ensures |e.values| <= |e.called|
    decreases fuel, 1, 2
  {
    var th' := run.th.(current := th.current);
    var threw := run.threw || slot.outcome.Throws?;
    var vals := if threw then [] else [slot.outcome.value];
    if run.status != Finished then Emission(run.sig, th', [id], [], threw, run.status)
    else Continued(id, vals, threw, Walk(run.sig, th', rule, next, fuel))
  }

  /** The emission of a round that called `id` and went on with `rest`. */
  function Continued(id: nat, vals: seq<int>, threw: bool, rest: Emission): (e: Emission)
    ensures e.sig == rest.sig && e.th == rest.th && e.status == rest.status
    ensures e.called == [id] + rest.called && e.values == vals + rest.values
    ensures e.error == (threw || rest.error)
  {
    rest.(called := [id] + rest.called, values := vals + rest.values, error := threw || rest.error)
  }

  /** One side effect other than a nested emission. */
  function Apply(sig: Signal, th: ThreadData, effect: Effect): (r: Signal)
    requires !effect.EmitAgain?
    ensures sig.links.Keys <= r.links.Keys
  {
    match effect
    case AbortEmission =>
      sig
    case DisconnectSelf =>
      // `current_connection().disconnect()`; with no current connection the handle is empty
      if th.current.Node? then NullSlot(sig, th.current.id) else sig
    case DisconnectNode(target) =>
      NullSlot(sig, target)
    case ClearSignal =>
      Clear(sig)
    case ConnectSlot(b, first) =>
      Connect(sig, b, first).0
  }

  /** A slot body's effects, in order. A nested emission that throws
      `invocation_slot_error` ends the body with that exception. */
  function RunEffects(sig: Signal, th: ThreadData, rule: EraseRule, effects: seq<Effect>, fuel: nat): SlotRun
    decreases fuel, 0, |effects|
  {
    if effects == [] then SlotRun(sig, th, false, Finished)
    else if !effects[0].EmitAgain? then RunEffects(Apply(sig, th, effects[0]), th, rule, effects[1..], fuel)
    else if fuel == 0 then SlotRun(sig, th, false, OutOfFuel)
    else
      var e := Invoke(sig, th, rule, fuel - 1);
      if e.status != Finished then SlotRun(e.sig, e.th, false, e.status)
      else if e.error then SlotRun(e.sig, e.th, true, Finished)
      else RunEffects(e.sig, e.th, rule, effects[1..], fuel)
  }

  /** What the void `invoke` ends with: `invocation_slot_error`, or nothing. */
  function VoidResult(e: Emission): Result<()>
  {
    if e.error then Err(InvocationSlotError) else Ok(())
  }

  /** What the non-void `invoke` with the default selector hands back:
      `invocation_slot_error`, or the last value as an optional. */
  function Result(e: Emission): Result<Option<int>>
  {
    if e.error then Err(InvocationSlotError) else Ok(Collectors.DefaultOf(e.values))
  }

  /** The non-void `invoke` with the `range` selector: `hint(size())` is
      taken before the loop, on the list the emission starts from. */
  function RangeResult(start: Signal, e: Emission): Result<seq<int>>
  {
    if e.error then Err(InvocationSlotError) else Ok(Collectors.RangeOf(StableList.Size(start), e.values))
  }

  // ---------------------------------------------------------------------------
  // Safety: the iterator never leaves the list, and under the guarded erase
  // `size()` keeps counting the entries.
  // ---------------------------------------------------------------------------

  /** The invariant an emission keeps: `Closed` always, `Counted` when it is
      asked for. */
  ghost predicate Sound(sig: Signal, counted: bool)
  {
    if counted then Counted(sig) else Closed(sig)
  }

  /** What the loop guarantees about an emission `e` that started on `sig`
      with thread data `th`. */
  ghost predicate SafeFrom(sig: Signal, th: ThreadData, counted: bool, e: Emission)
  {
    && e.status != Fault
    && Sound(e.sig, counted)
    && sig.links.Keys <= e.sig.links.Keys
    && e.th == th
  }

  lemma SoundClosed(sig: Signal, counted: bool)
    requires Sound(sig, counted)
    ensures Closed(sig)
  {
  }

  /** Whatever the slots do, an emission from a `Closed` list never steps
      off the list, leaves it `Closed`, keeps every link, and restores
      `current_connection`. This holds for the source's erase as written. */
  lemma InvokeNeverFaults(sig: Signal, th: ThreadData, rule: EraseRule, fuel: nat)
    requires Closed(sig)
    ensures var e := Invoke(sig, th, rule, fuel);
      && e.status != Fault
      && Closed(e.sig)
      && sig.links.Keys <= e.sig.links.Keys
      && e.th == th
  {
    InvokeSafe(sig, th, rule, fuel, false);
  }

  /** With the guarded erase, whatever the slots do, `size()` still counts
      the entries after an emission. */
  lemma GuardedInvokeCounts(sig: Signal, th: ThreadData, fuel: nat)
    requires Counted(sig)
    ensures var e := Invoke(sig, th, Guarded, fuel);
      && e.status != Fault
      && Counted(e.sig)
      && e.th == th
  {
    InvokeSafe(sig, th, Guarded, fuel, true);
  }

  lemma InvokeSafe(sig: Signal, th: ThreadData, rule: EraseRule, fuel: nat, counted: bool)
    requires Sound(sig, counted) && (counted ==> rule == Guarded)
    ensures SafeFrom(sig, th, counted, Invoke(sig, th, rule, fuel))
    decreases fuel, 2, 0
  {
    SoundClosed(sig, counted);
    WalkSafe(sig, th, rule, sig.first, fuel, counted);
  }

  lemma WalkSafe(sig: Signal, th: ThreadData, rule: EraseRule, cur: Ptr, fuel: nat, counted: bool)
    requires Sound(sig, counted) && (counted ==> rule == Guarded) && Leads(sig, cur)
    ensures SafeFrom(sig, th, counted, Walk(sig, th, rule, cur, fuel))
    decreases fuel, 1, 1
  {
    if cur != Tail && fuel > 0 {
      match sig.links[cur.id].value
      case None =>
        var (sig', next) := LazyErase(sig, cur, rule);
        LazyEraseSafe(sig, cur, rule, counted);
        WalkSafe(sig', th, rule, next, fuel - 1, counted);
      case Some(slot) =>
        CallSafe(sig, th, rule, cur.id, slot, fuel, counted);
    }
  }

  lemma LazyEraseSafe(sig: Signal, pos: Ptr, rule: EraseRule, counted: bool)
    requires Sound(sig, counted) && (counted ==> rule == Guarded) && pos.Node? && pos.id in sig.links
    ensures var (r, next) := LazyErase(sig, pos, rule);
      Sound(r, counted) && Leads(r, next)
  {
    SoundClosed(sig, counted);
    if rule == Guarded && pos.id !in StableList.Order(sig) {
    } else {
      EraseClosed(sig, pos);
      if counted {
        EraseCounted(sig, pos);
      }
    }
  }

  lemma CallSafe(sig: Signal, th: ThreadData, rule: EraseRule, id: nat, slot: Behaviour, fuel: nat, counted: bool)
    requires Sound(sig, counted) && (counted ==> rule == Guarded) && id in sig.links && fuel > 0
    ensures SafeFrom(sig, th, counted, Call(sig, th, rule, id, slot, fuel))
    decreases fuel, 1, 0
  {
    SoundClosed(sig, counted);
    var next := sig.links[id].next;
    var run := RunOf(sig, th.(current := Node(id)), rule, slot.effects, fuel - 1, counted);
    FinishSafe(sig, th, rule, id, slot, next, run, fuel - 1, counted, Call(sig, th, rule, id, slot, fuel));
  }

  lemma FinishSafe(sig: Signal, th: ThreadData, rule: EraseRule, id: nat, slot: Behaviour, next: Ptr, run: SlotRun,
                   fuel: nat, counted: bool, e: Emission)
    requires (counted ==> rule == Guarded) && Leads(sig, next)
    requires run.status != Fault && Sound(run.sig, counted) && sig.links.Keys <= run.sig.links.Keys
    requires e == Finish(th, rule, id, slot, next, run, fuel)
    ensures SafeFrom(sig, th, counted, e)
    decreases fuel, 1, 3
  {
    var th' := run.th.(current := th.current);
    assert th' == th;
    if run.status == Finished {
      WalkSafe(run.sig, th', rule, next, fuel, counted);
    }
  }

  lemma ApplySafe(sig: Signal, th: ThreadData, effect: Effect, counted: bool)
    requires Sound(sig, counted) && !effect.EmitAgain?
    ensures Sound(Apply(sig, th, effect), counted)
  {
    SoundClosed(sig, counted);
    match effect
    case AbortEmission =>
    case DisconnectSelf =>
      if th.current.Node? {
        NullSlotSound(sig, th.current.id, counted);
      }
    case DisconnectNode(target) =>
      NullSlotSound(sig, target, counted);
    case ClearSignal =>
      ClearClosed(sig);
      if counted {
        ClearCounted(sig);
      }
    case ConnectSlot(b, first) =>
      MakeLinkClosed(sig, if first then sig.first else Tail, Some(b));
      if counted {
        ConnectCounted(sig, b, first);
      }
  }

  lemma NullSlotSound(sig: Signal, id: nat, counted: bool)
    requires Sound(sig, counted)
    ensures Sound(NullSlot(sig, id), counted)
  {
    if counted {
      NullSlotKeeps(sig, id);
    } else {
      NullSlotClosed(sig, id);
    }
  }

  /** `RunSafe`, handing back the run it is about. */
  lemma RunOf(sig: Signal, th: ThreadData, rule: EraseRule, effects: seq<Effect>, fuel: nat, counted: bool) returns (run: SlotRun)
    requires Sound(sig, counted) && (counted ==> rule == Guarded)
    ensures run == RunEffects(sig, th, rule, effects, fuel)
    ensures run.status != Fault && Sound(run.sig, counted) && sig.links.Keys <= run.sig.links.Keys && run.th == th
    decreases fuel, 0, |effects| + 1
  {
    RunSafe(sig, th, rule, effects, fuel, counted);
    run := RunEffects(sig, th, rule, effects, fuel);
  }

  lemma RunSafe(sig: Signal, th: ThreadData, rule: EraseRule, effects: seq<Effect>, fuel: nat, counted: bool)
    requires Sound(sig, counted) && (counted ==> rule == Guarded)
    ensures var run := RunEffects(sig, th, rule, effects, fuel);
      && run.status != Fault
      && Sound(run.sig, counted)
      && sig.links.Keys <= run.sig.links.Keys
      && run.th == th
    decreases fuel, 0, |effects|
  {
    if effects == [] {
    } else if !effects[0].EmitAgain? {
      ApplySafe(sig, th, effects[0], counted);
      RunSafe(Apply(sig, th, effects[0]), th, rule, effects[1..], fuel, counted);
    } else if fuel > 0 {
      InvokeSafe(sig, th, rule, fuel - 1, counted);
      var e := Invoke(sig, th, rule, fuel - 1);
      if e.status == Finished && !e.error {
        RunSafe(e.sig, e.th, rule, effects[1..], fuel, counted);
      }
    }
  }

  // ---------------------------------------------------------------------------
  // Emission over slots with no side effects.
  // ---------------------------------------------------------------------------

  /** What a walk over the entries `b` (ids) holding `vb` (slots), after the
      entries `a` holding `va` that it has already passed, ends with. */
  ghost predicate QuietOutcome(e: Emission, th: ThreadData, a: seq<nat>, va: seq<Slot>, b: seq<nat>, vb: seq<Slot>)
    requires |b| == |vb|
  {
    && e.status == Finished && e.th == th
    && CountedAs(e.sig, a + LiveIds(b, vb))
    && StableList.ValuesOf(e.sig, a + LiveIds(b, vb)) == va + Wrap(Present(vb))
    && e.called == LiveIds(b, vb)
    && e.values == Returned(Present(vb))
    && e.error == AnyThrows(Present(vb))
  }

  /** The list `sig` split at the walk's position: `a` behind, `b` ahead. */
  ghost predicate SplitAt(sig: Signal, a: seq<nat>, va: seq<Slot>, b: seq<nat>, vb: seq<Slot>)
  {
    && CountedAs(sig, a + b)
    && StableList.ValuesOf(sig, a + b) == va + vb
    && |va| == |a| && |vb| == |b|
  }

  /** When no slot has side effects, an emission calls every connected
      entry once, in list order; erases every disconnected one; hands the
      selector the value of every slot that returned, in order; and reports
      an error exactly when some slot threw. Both erase rules agree here. */
  lemma QuietInvoke(sig: Signal, th: ThreadData, rule: EraseRule, fuel: nat)
    requires Counted(sig) && AllQuiet(StableList.Values(sig)) && fuel >= |StableList.Order(sig)|
    ensures var e := Invoke(sig, th, rule, fuel); var vs := StableList.Values(sig);
      && e.status == Finished && e.th == th && Counted(e.sig)
      && e.called == LiveIds(StableList.Order(sig), vs)
      && StableList.Order(e.sig) == e.called
      && StableList.Values(e.sig) == Wrap(Present(vs))
      && e.values == Returned(Present(vs))
      && e.error == AnyThrows(Present(vs))
  {
    var s, vs := StableList.Order(sig), StableList.Values(sig);
    QuietStart(sig, th, rule, s, vs, fuel);
    var e := Invoke(sig, th, rule, fuel);
    var s' := LiveIds(s, vs);
    CountedOf(e.sig, s', |s'|);
  }

  lemma QuietStart(sig: Signal, th: ThreadData, rule: EraseRule, s: seq<nat>, vs: seq<Slot>, fuel: nat)
    requires CountedAs(sig, s) && StableList.ValuesOf(sig, s) == vs && AllQuiet(vs) && fuel >= |s|
    ensures var e := Invoke(sig, th, rule, fuel);
      && e.status == Finished && e.th == th
      && CountedAs(e.sig, LiveIds(s, vs))
      && StableList.ValuesOf(e.sig, LiveIds(s, vs)) == Wrap(Present(vs))
      && e.called == LiveIds(s, vs)
      && e.values == Returned(Present(vs))
      && e.error == AnyThrows(Present(vs))
  {
    var a: seq<nat>, va: seq<Slot> := [], [];
    assert a + s == s && va + vs == vs;
    assert sig.first == PtrAt(a + s, |a|);
    assert WalkPre(sig, a, va, s, vs, fuel);
    QuietWalkRuns(sig, th, rule, a, va, s, vs, fuel);
    QuietRunOutcome(sig, th, a, va, s, vs);
    assert a + LiveIds(s, vs) == LiveIds(s, vs);
    assert va + Wrap(Present(vs)) == Wrap(Present(vs));
  }

  /** The emission over the entries `b` holding `vb` when no slot has side
      effects, built directly: each disconnected entry is erased, each
      connected one is called with the list as it is. */
  ghost function QuietRun(sig: Signal, th: ThreadData, b: seq<nat>, vb: seq<Slot>): (e: Emission)
    requires |b| == |vb|
    decreases |b|
  {
    if b == [] then Emission(sig, th, [], [], false, Finished)
    else if vb[0].None? then QuietRun(StableList.Erase(sig, Node(b[0])).0, th, b[1..], vb[1..])
    else
      var q := vb[0].value;
      var threw := q.outcome.Throws?;
      Continued(b[0], if threw then [] else [q.outcome.value], threw, QuietRun(sig, th, b[1..], vb[1..]))
  }

  /** The list is split at the walk's position, every entry ahead is quiet,
      and there is fuel for every entry ahead. */
  ghost predicate WalkPre(sig: Signal, a: seq<nat>, va: seq<Slot>, b: seq<nat>, vb: seq<Slot>, fuel: nat)
  {
    SplitAt(sig, a, va, b, vb) && AllQuiet(vb) && fuel >= |b|
  }

  /** The loop of `invoke`, from the entry after `a`, is `QuietRun`. */
  lemma {:induction false} QuietWalkRuns(sig: Signal, th: ThreadData, rule: EraseRule, a: seq<nat>, va: seq<Slot>,
                                         b: seq<nat>, vb: seq<Slot>, fuel: nat)
    requires WalkPre(sig, a, va, b, vb, fuel)
    ensures |b| == |vb| && Walk(sig, th, rule, PtrAt(a + b, |a|), fuel) == QuietRun(sig, th, b, vb)
    decreases |b|, 1
  {
    if b == [] {
      WalkRunsEnd(sig, th, rule, a, b, vb, fuel);
    } else if vb[0].None? {
      WalkRunsDrop(sig, th, rule, a, va, b, vb, fuel);
    } else {
      WalkRunsCall(sig, th, rule, a, va, b, vb, fuel);
    }
  }

  lemma {:induction false} WalkRunsDrop(sig: Signal, th: ThreadData, rule: EraseRule, a: seq<nat>, va: seq<Slot>,
                                        b: seq<nat>, vb: seq<Slot>, fuel: nat)
    requires WalkPre(sig, a, va, b, vb, fuel) && b != [] && vb[0].None?
    ensures |b| == |vb| && Walk(sig, th, rule, PtrAt(a + b, |a|), fuel) == QuietRun(sig, th, b, vb)
    decreases |b|, 0
  {
    var r, b', vb', fuel' := DropPre(sig, a, va, b, vb, fuel);
    DropRuns(sig, th, b, vb);
    QuietWalkRuns(r, th, rule, a, va, b', vb', fuel');
    WalkDrop(sig, th, rule, PtrAt(a + b, |a|), fuel, r, PtrAt(a + b', |a|), fuel');
  }

  lemma {:induction false} WalkRunsCall(sig: Signal, th: ThreadData, rule: EraseRule, a: seq<nat>, va: seq<Slot>,
                                        b: seq<nat>, vb: seq<Slot>, fuel: nat)
    requires WalkPre(sig, a, va, b, vb, fuel) && b != [] && vb[0].Some?
    ensures |b| == |vb| && Walk(sig, th, rule, PtrAt(a + b, |a|), fuel) == QuietRun(sig, th, b, vb)
    decreases |b|, 0
  {
    var a', va', b', vb', fuel' := CallPre(sig, a, va, b, vb, fuel);
    var q := vb[0].value;
    var threw := q.outcome.Throws?;
    var vals := if threw then [] else [q.outcome.value];
    CallRuns(sig, th, b, vb, b', vb', vals, threw);
    QuietWalkRuns(sig, th, rule, a', va', b', vb', fuel');
    WalkQuietCall(sig, th, rule, PtrAt(a + b, |a|), q, fuel, PtrAt(a' + b', |a'|), fuel', vals, threw);
  }

  lemma WalkRunsEnd(sig: Signal, th: ThreadData, rule: EraseRule, a: seq<nat>, b: seq<nat>, vb: seq<Slot>, fuel: nat)
    requires b == [] && vb == []
    ensures Walk(sig, th, rule, PtrAt(a + b, |a|), fuel) == QuietRun(sig, th, b, vb)
  {
    assert a + b == a;
  }

  /** What `QuietRun` ends with, after the entries `a` holding `va`. */
  lemma {:induction false} QuietRunOutcome(sig: Signal, th: ThreadData, a: seq<nat>, va: seq<Slot>,
                                           b: seq<nat>, vb: seq<Slot>)
    requires SplitAt(sig, a, va, b, vb)
    ensures QuietOutcome(QuietRun(sig, th, b, vb), th, a, va, b, vb)
    decreases |b|
  {
    if b == [] {
      QuietEnd(sig, th, a, va, b, vb);
    } else if vb[0].None? {
      var pos := Node(b[0]);
      DropSplit(sig, a, va, b, vb, pos);
      var r := StableList.Erase(sig, pos).0;
      QuietRunOutcome(r, th, a, va, b[1..], vb[1..]);
      DropOutcome(QuietRun(r, th, b[1..], vb[1..]), th, a, va, b, vb);
    } else {
      CallSplit(sig, a, va, b, vb);
      QuietRunOutcome(sig, th, a + [b[0]], va + [vb[0]], b[1..], vb[1..]);
      CallOutcome(QuietRun(sig, th, b[1..], vb[1..]), th, a, va, b, vb);
    }
  }

  lemma QuietEnd(sig: Signal, th: ThreadData, a: seq<nat>, va: seq<Slot>, b: seq<nat>, vb: seq<Slot>)
    requires SplitAt(sig, a, va, b, vb) && b == []
    ensures QuietOutcome(QuietRun(sig, th, b, vb), th, a, va, b, vb)
  {
    assert a + b == a && va + vb == va;
    assert Present(vb) == [] && LiveIds(b, vb) == [];
    assert a + [] == a && va + Wrap([]) == va;
  }

  /** The entry the walk stands on, and its slot. */
  lemma StandsOn(sig: Signal, a: seq<nat>, va: seq<Slot>, b: seq<nat>, vb: seq<Slot>)
    requires SplitAt(sig, a, va, b, vb) && b != []
    ensures b[0] in sig.links && sig.links[b[0]].value == vb[0]
    ensures PtrAt(a + b, |a|) == Node(b[0])
    ensures (a + b)[|a|] == b[0]
  {
    var s := a + b;
    assert s[|a|] == b[0];
    assert StableList.ValuesOf(sig, s)[|a|] == sig.links[s[|a|]].value;
    assert (va + vb)[|a|] == vb[0];
  }

  /** Seq facts about the position `|a|` of `a + b`. */
  lemma CutAt<X>(a: seq<X>, b: seq<X>)
    requires b != []
    ensures (a + b)[..|a|] + (a + b)[|a| + 1..] == a + b[1..]
    ensures a + b == (a + [b[0]]) + b[1..]
  {
    assert (a + b)[..|a|] == a;
    assert (a + b)[|a| + 1..] == b[1..];
  }

  lemma NextAt(a: seq<nat>, b: seq<nat>)
    requires b != []
    ensures PtrAt(a + b, |a| + 1) == PtrAt(a + b[1..], |a|)
    ensures PtrAt(a + b, |a| + 1) == PtrAt((a + [b[0]]) + b[1..], |a + [b[0]]|)
  {
    CutAt(a, b);
  }

  /** The loop on a null entry that is still in the list: it is erased, and
      the walk goes on from its successor. */
  lemma WalkDrop(sig: Signal, th: ThreadData, rule: EraseRule, cur: Ptr, fuel: nat, r: Signal, next: Ptr, fuel': nat)
    requires cur.Node? && cur.id in sig.links && sig.links[cur.id].value == None && cur.id in StableList.Order(sig)
    requires fuel > 0 && fuel' == fuel - 1
    requires r == StableList.Erase(sig, cur).0 && next == StableList.Erase(sig, cur).1
    ensures Walk(sig, th, rule, cur, fuel) == Walk(r, th, rule, next, fuel')
  {
  }

  /** The loop on an entry with a quiet slot: it is called, and the walk
      goes on from the link after it, with the list as it was. */
  lemma WalkQuietCall(sig: Signal, th: ThreadData, rule: EraseRule, cur: Ptr, q: Behaviour, fuel: nat, next: Ptr, fuel': nat,
                       vals: seq<int>, threw: bool)
    requires cur.Node? && cur.id in sig.links && sig.links[cur.id].value == Some(q) && Quiet(q)
    requires fuel > 0 && fuel' == fuel - 1 && next == sig.links[cur.id].next
    requires threw == q.outcome.Throws? && vals == (if threw then [] else [q.outcome.value])
    ensures Walk(sig, th, rule, cur, fuel) == Continued(cur.id, vals, threw, Walk(sig, th, rule, next, fuel'))
  {
    var th1 := th.(current := cur);
    var run := RunEffects(sig, th1, rule, q.effects, fuel - 1);
    assert run == SlotRun(sig, th1, false, Finished);
    assert th1.(current := th.current) == th;
    assert Walk(sig, th, rule, cur, fuel) == Call(sig, th, rule, cur.id, q, fuel);
    assert Call(sig, th, rule, cur.id, q, fuel) == Finish(th, rule, cur.id, q, next, run, fuel - 1);
  }

  /** The seq side of a dropped entry. */
  lemma DropSeqs(a: seq<nat>, va: seq<Slot>, b: seq<nat>, vb: seq<Slot>)
    requires |b| == |vb| && b != [] && vb[0].None?
    ensures LiveIds(b, vb) == LiveIds(b[1..], vb[1..])
    ensures Present(vb) == Present(vb[1..])
  {
    assert b == [b[0]] + b[1..] && vb == [vb[0]] + vb[1..];
    LiveIdsCons(b[0], b[1..], vb[0], vb[1..]);
    PresentCons(vb[0], vb[1..]);
  }

  /** The seq side of a called entry: the ids and slots that stay. */
  lemma CallIds(a: seq<nat>, va: seq<Slot>, b: seq<nat>, vb: seq<Slot>)
    requires |b| == |vb| && b != [] && vb[0].Some?
    ensures [b[0]] + LiveIds(b[1..], vb[1..]) == LiveIds(b, vb)
    ensures (a + [b[0]]) + LiveIds(b[1..], vb[1..]) == a + LiveIds(b, vb)
  {
    assert b == [b[0]] + b[1..] && vb == [vb[0]] + vb[1..];
    LiveIdsCons(b[0], b[1..], vb[0], vb[1..]);
  }

  lemma CallSlots(va: seq<Slot>, vb: seq<Slot>)
    requires vb != [] && vb[0].Some?
    ensures [vb[0].value] + Present(vb[1..]) == Present(vb)
    ensures (va + [vb[0]]) + Wrap(Present(vb[1..])) == va + Wrap(Present(vb))
  {
    var h, p := vb[0].value, Present(vb[1..]);
    assert vb == [vb[0]] + vb[1..];
    PresentCons(vb[0], vb[1..]);
    WrapCons(h, p);
    assert (va + [vb[0]]) + Wrap(p) == va + ([Some(h)] + Wrap(p));
  }

  /** The seq side of a called entry: what reaches the selector. */
  lemma CallValues(q: Behaviour, bs: seq<Behaviour>)
    ensures var threw := q.outcome.Throws?;
      && (if threw then [] else [q.outcome.value]) + Returned(bs) == Returned([q] + bs)
      && (threw || AnyThrows(bs)) == AnyThrows([q] + bs)
  {
    ReturnedConcat([q], bs);
    AnyThrowsConcat([q], bs);
    ReturnedOne(q);
  }

  /** The list side of a round on a disconnected entry: after the erase
      the list is split at the same place, one entry shorter. */
  lemma DropPre(sig: Signal, a: seq<nat>, va: seq<Slot>, b: seq<nat>, vb: seq<Slot>, fuel: nat)
      returns (r: Signal, b': seq<nat>, vb': seq<Slot>, fuel': nat)
    requires WalkPre(sig, a, va, b, vb, fuel) && b != [] && vb[0].None?
    ensures WalkPre(r, a, va, b', vb', fuel') && |b'| < |b| && |b| == |vb|
    ensures b[0] in sig.links && sig.links[b[0]].value == None && b[0] in StableList.Order(sig)
    ensures fuel > 0 && fuel' == fuel - 1
    ensures PtrAt(a + b, |a|) == Node(b[0])
    ensures r == StableList.Erase(sig, Node(b[0])).0 && StableList.Erase(sig, Node(b[0])).1 == PtrAt(a + b', |a|)
    ensures b' == b[1..] && vb' == vb[1..]
  {
    StandsOn(sig, a, va, b, vb);
    StableList.OrderOfRepr(sig, a + b);
    DropSplit(sig, a, va, b, vb, Node(b[0]));
    QuietTail(vb);
    r, b', vb', fuel' := StableList.Erase(sig, Node(b[0])).0, b[1..], vb[1..], fuel - 1;
  }

  lemma DropRuns(sig: Signal, th: ThreadData, b: seq<nat>, vb: seq<Slot>)
    requires |b| == |vb| && b != [] && vb[0].None?
    ensures QuietRun(sig, th, b, vb) == QuietRun(StableList.Erase(sig, Node(b[0])).0, th, b[1..], vb[1..])
  {
  }

  lemma QuietTail(vb: seq<Slot>)
    requires AllQuiet(vb) && vb != []
    ensures AllQuiet(vb[1..])
  {
    forall i | 0 <= i < |vb| - 1
      ensures vb[1..][i].Some? ==> Quiet(vb[1..][i].value)
    {
      assert vb[1..][i] == vb[i + 1];
    }
  }

  /** After erasing the entry at the walk's position, the list is split
      there with that entry gone, and the walk stands on its successor. */
  lemma DropSplit(sig: Signal, a: seq<nat>, va: seq<Slot>, b: seq<nat>, vb: seq<Slot>, pos: Ptr)
    requires SplitAt(sig, a, va, b, vb) && b != [] && pos == Node(b[0])
    ensures SplitAt(StableList.Erase(sig, pos).0, a, va, b[1..], vb[1..])
    ensures StableList.Erase(sig, pos).1 == PtrAt(a + b[1..], |a|)
  {
    var s := a + b;
    assert s[|a|] == b[0];
    EraseCountedAs(sig, s, |a|, pos);
    EraseValuesAt(sig, s, |a|, pos);
    CutAt(a, b);
    CutAt(va, vb);
    NextAt(a, b);
  }

  lemma DropOutcome(e: Emission, th: ThreadData, a: seq<nat>, va: seq<Slot>, b: seq<nat>, vb: seq<Slot>)
    requires |b| == |vb| && b != [] && vb[0].None?
    requires QuietOutcome(e, th, a, va, b[1..], vb[1..])
    ensures QuietOutcome(e, th, a, va, b, vb)
  {
    DropSeqs(a, va, b, vb);
  }

  /** The list side of a round on a connected entry: the list is split one
      entry further on, at the link after the entry. */
  lemma CallPre(sig: Signal, a: seq<nat>, va: seq<Slot>, b: seq<nat>, vb: seq<Slot>, fuel: nat)
      returns (a': seq<nat>, va': seq<Slot>, b': seq<nat>, vb': seq<Slot>, fuel': nat)
    requires WalkPre(sig, a, va, b, vb, fuel) && b != [] && vb[0].Some?
    ensures WalkPre(sig, a', va', b', vb', fuel') && |b'| < |b| && |b| == |vb|
    ensures b[0] in sig.links && sig.links[b[0]].value == Some(vb[0].value) && Quiet(vb[0].value)
    ensures fuel > 0 && fuel' == fuel - 1
    ensures PtrAt(a + b, |a|) == Node(b[0]) && sig.links[b[0]].next == PtrAt(a' + b', |a'|)
    ensures b' == b[1..] && vb' == vb[1..]
  {
    StandsOn(sig, a, va, b, vb);
    CallSplit(sig, a, va, b, vb);
    QuietTail(vb);
    a', va', b', vb', fuel' := a + [b[0]], va + [vb[0]], b[1..], vb[1..], fuel - 1;
  }

  lemma CallRuns(sig: Signal, th: ThreadData, b: seq<nat>, vb: seq<Slot>, b': seq<nat>, vb': seq<Slot>,
                 vals: seq<int>, threw: bool)
    requires |b| == |vb| && b != [] && vb[0].Some? && b' == b[1..] && vb' == vb[1..]
    requires threw == vb[0].value.outcome.Throws? && vals == (if threw then [] else [vb[0].value.outcome.value])
    ensures QuietRun(sig, th, b, vb) == Continued(b[0], vals, threw, QuietRun(sig, th, b', vb'))
  {
  }

  /** What the three forms of `invoke` hand back when every connected slot
      is quiet: the void form throws `invocation_slot_error` exactly when
      some slot throws; otherwise the default selector gives the last value
      returned, if any, and the `range` selector every value returned, in
      list order. */
  lemma QuietResults(sig: Signal, th: ThreadData, rule: EraseRule, fuel: nat)
    requires Counted(sig) && AllQuiet(StableList.Values(sig)) && fuel >= |StableList.Order(sig)|
    ensures var e := Invoke(sig, th, rule, fuel); var bs := Present(StableList.Values(sig));
      && (VoidResult(e) == if AnyThrows(bs) then Err(InvocationSlotError) else Ok(()))
      && (AnyThrows(bs) ==> Result(e) == Err(InvocationSlotError) && RangeResult(sig, e) == Err(InvocationSlotError))
      && (!AnyThrows(bs) && Returned(bs) == [] ==> Result(e) == Ok(None))
      && (!AnyThrows(bs) && Returned(bs) != [] ==> Result(e) == Ok(Some(Returned(bs)[|Returned(bs)| - 1])))
      && (!AnyThrows(bs) ==> RangeResult(sig, e) == Ok(Returned(bs)))
  {
    QuietInvoke(sig, th, rule, fuel);
    var e := Invoke(sig, th, rule, fuel);
    Collectors.RangeIgnoresHint(StableList.Size(sig), e.values);
  }

  /** Past a called entry, the list is split one entry further on, and the
      link after the entry is the walk's next position. */
  lemma CallSplit(sig: Signal, a: seq<nat>, va: seq<Slot>, b: seq<nat>, vb: seq<Slot>)
    requires SplitAt(sig, a, va, b, vb) && b != []
    ensures b[0] in sig.links
    ensures SplitAt(sig, a + [b[0]], va + [vb[0]], b[1..], vb[1..])
    ensures sig.links[b[0]].next == PtrAt((a + [b[0]]) + b[1..], |a + [b[0]]|)
  {
    var s := a + b;
    assert s[|a|] == b[0];
    assert sig.links[s[|a|]].next == PtrAt(s, |a| + 1);
    CutAt(a, b);
    CutAt(va, vb);
    NextAt(a, b);
  }

  lemma CallOutcome(rest: Emission, th: ThreadData, a: seq<nat>, va: seq<Slot>, b: seq<nat>, vb: seq<Slot>)
    requires |b| == |vb| && b != [] && vb[0].Some?
    requires QuietOutcome(rest, th, a + [b[0]], va + [vb[0]], b[1..], vb[1..])
    ensures var q := vb[0].value; var threw := q.outcome.Throws?;
      QuietOutcome(Continued(b[0], if threw then [] else [q.outcome.value], threw, rest), th, a, va, b, vb)
  {
    CallIds(a, va, b, vb);
    CallSlots(va, vb);
    CallValues(vb[0].value, Present(vb[1..]));
  }

  // ---------------------------------------------------------------------------
  // The stale erase: a slot clears the signal while a disconnected entry
  // is still ahead of the loop.
  // ---------------------------------------------------------------------------

  /** As written, `invoke` on `[x, y]`, where `x`'s slot calls `clear()` and
      `y` was disconnected earlier, erases `y` a second time: the list ends
      empty, yet `size()` has wrapped round to `SIZE_MAX` and the signal is
      no longer `Counted`. */
  lemma StaleEraseWrapsSize(sig: Signal, th: ThreadData, x: nat, y: nat, v: int, fuel: nat)
    requires Counted(sig) && StableList.Order(sig) == [x, y]
    requires sig.links[x].value == Some(Behaviour([ClearSignal], Returns(v))) && sig.links[y].value == None
    requires fuel >= 2
    ensures var e := Invoke(sig, th, AsWritten, fuel);
      && e.status == Finished && e.called == [x] && e.values == [v] && !e.error
      && StableList.IsEmpty(e.sig) && StableList.Size(e.sig) == StableList.SIZE_MODULUS - 1
      && !Counted(e.sig)
  {
    var c := StaleSetup(sig, x, y);
    var r := StableList.Erase(c, Node(y)).0;
    WalkClearCall(sig, th, AsWritten, Node(x), sig.links[x].value.value, fuel, Node(y), fuel - 1, c);
    WalkStaleErase(c, th, Node(y), fuel - 1, r, fuel - 2);
    StaleWrapped(sig, y, r);
  }

  /** With the guarded erase, the same emission steps past `y` and leaves an
      empty list whose `size()` is zero. */
  lemma GuardedStaleEraseCounts(sig: Signal, th: ThreadData, x: nat, y: nat, v: int, fuel: nat)
    requires Counted(sig) && StableList.Order(sig) == [x, y]
    requires sig.links[x].value == Some(Behaviour([ClearSignal], Returns(v))) && sig.links[y].value == None
    requires fuel >= 2
    ensures var e := Invoke(sig, th, Guarded, fuel);
      && e.status == Finished && e.called == [x] && e.values == [v] && !e.error
      && StableList.IsEmpty(e.sig) && StableList.Size(e.sig) == 0
      && Counted(e.sig)
  {
    var c := StaleSetup(sig, x, y);
    WalkClearCall(sig, th, Guarded, Node(x), sig.links[x].value.value, fuel, Node(y), fuel - 1, c);
    WalkStaleSkip(c, th, Node(y), fuel - 1, fuel - 2);
    ClearCounted(sig);
  }

  /** The list facts both scenarios start from. */
  lemma StaleSetup(sig: Signal, x: nat, y: nat) returns (c: Signal)
    requires Counted(sig) && StableList.Order(sig) == [x, y]
    ensures StableList.Valid(sig) && c == Clear(sig)
    ensures sig.first == Node(x) && x in sig.links && sig.links[x].next == Node(y)
    ensures y in c.links && c.links[y].value == sig.links[y].value && c.links[y].next == Tail
    ensures y in StableList.Order(sig) && StableList.Order(c) == []
  {
    CountedValid(sig);
    var s := StableList.Order(sig);
    assert sig.links[s[0]].next == PtrAt(s, 1);
    StableList.ClearEmpties(sig);
    c := Clear(sig);
    assert c.links[y] == sig.links[y].(prev := Head, next := Tail);
  }

  /** The erase after the clear: the counter wraps and nothing else moves. */
  lemma StaleWrapped(sig: Signal, y: nat, r: Signal)
    requires StableList.Valid(sig) && y in StableList.Order(sig)
    requires r == StableList.Erase(Clear(sig), Node(y)).0
    ensures StableList.IsEmpty(r) && StableList.Size(r) == StableList.SIZE_MODULUS - 1
    ensures !Counted(r)
  {
    StableList.EraseAfterClear(sig, y);
  }

  /** A round on a link whose slot only calls `clear()` and returns. */
  lemma WalkClearCall(sig: Signal, th: ThreadData, rule: EraseRule, cur: Ptr, q: Behaviour, fuel: nat, next: Ptr, fuel': nat, c: Signal)
    requires cur.Node? && cur.id in sig.links && sig.links[cur.id].value == Some(q)
    requires q.effects == [ClearSignal] && q.outcome.Returns?
    requires fuel > 0 && fuel' == fuel - 1 && next == sig.links[cur.id].next && c == Clear(sig)
    ensures Walk(sig, th, rule, cur, fuel) == Continued(cur.id, [q.outcome.value], false, Walk(c, th, rule, next, fuel'))
  {
    var th1 := th.(current := cur);
    var run := RunEffects(sig, th1, rule, q.effects, fuel');
    assert q.effects[0] == ClearSignal && q.effects[1..] == [];
    assert run == RunEffects(Apply(sig, th1, ClearSignal), th1, rule, [], fuel');
    assert run == SlotRun(c, th1, false, Finished);
    assert th1.(current := th.current) == th;
    assert Walk(sig, th, rule, cur, fuel) == Call(sig, th, rule, cur.id, q, fuel);
    assert Call(sig, th, rule, cur.id, q, fuel) == Finish(th, rule, cur.id, q, next, run, fuel');
  }

  /** As written, the loop erases the cleared link again and reaches `end()`. */
  lemma WalkStaleErase(c: Signal, th: ThreadData, cur: Ptr, fuel: nat, r: Signal, fuel': nat)
    requires cur.Node? && cur.id in c.links && c.links[cur.id].value == None && c.links[cur.id].next == Tail
    requires fuel > 0 && fuel' == fuel - 1 && r == StableList.Erase(c, cur).0
    ensures Walk(c, th, AsWritten, cur, fuel) == Emission(r, th, [], [], false, Finished)
  {
    assert StableList.Erase(c, cur).1 == Tail;
  }

  /** With the guarded erase, the loop steps past the cleared link. */
  lemma WalkStaleSkip(c: Signal, th: ThreadData, cur: Ptr, fuel: nat, fuel': nat)
    requires cur.Node? && cur.id in c.links && c.links[cur.id].value == None && c.links[cur.id].next == Tail
    requires StableList.Order(c) == []
    requires fuel > 0 && fuel' == fuel - 1
    ensures Walk(c, th, Guarded, cur, fuel) == Emission(c, th, [], [], false, Finished)
  {
  }

  // ---------------------------------------------------------------------------
  // The same double erase without `clear()`: a nested emission erases the
  // disconnected entry the outer loop's iterator already points at.
  // ---------------------------------------------------------------------------

  /** On `[x, y]` with `y` disconnected, an emission whose first slot does
      nothing but return calls `x` and erases `y`: this is what a nested
      emission, started by `x`'s slot, leaves behind. */
  lemma NestedEraseOfStale(sig: Signal, th: ThreadData, rule: EraseRule, x: nat, y: nat, v: int, fuel: nat)
    requires Counted(sig) && StableList.Order(sig) == [x, y]
    requires sig.links[x].value == Some(Behaviour([], Returns(v))) && sig.links[y].value == None
    requires fuel >= 2
    ensures var e, r := Invoke(sig, th, rule, fuel), StableList.Erase(sig, Node(y)).0;
      && e == Emission(r, th, [x], [v], false, Finished)
      && StableList.Valid(r) && StableList.Order(r) == [x] && r.links[y] == sig.links[y]
  {
    CountedValid(sig);
    var s := StableList.Order(sig);
    assert sig.links[s[0]].next == PtrAt(s, 1) && sig.links[s[1]].next == Tail;
    StableList.EraseRemoves(sig, Node(y));
    var q := sig.links[x].value.value;
    var th1 := th.(current := Node(x));
    var run := RunEffects(sig, th1, rule, q.effects, fuel - 1);
    assert run == SlotRun(sig, th1, false, Finished);
    assert th1.(current := th.current) == th;
    assert sig.first == Node(x) && sig.links[x].next == Node(y);
    assert Walk(sig, th, rule, Node(x), fuel) == Call(sig, th, rule, x, q, fuel);
    assert Call(sig, th, rule, x, q, fuel) == Finish(th, rule, x, q, Node(y), run, fuel - 1);
    var r := StableList.Erase(sig, Node(y)).0;
    assert y in StableList.Order(sig);
    assert LazyErase(sig, Node(y), rule) == (r, Tail);
    assert Walk(sig, th, rule, Node(y), fuel - 1) == Emission(r, th, [], [], false, Finished);
  }

  /** Back in the outer loop, whose iterator was advanced to `y` before the
      slot ran: as written the loop finds `y`'s slot null and erases it a
      second time, so `size()` reads 0 while `x` is still on the list. The
      guarded erase steps past `y` and keeps the count. */
  lemma ResumeAtErasedEntry(sig: Signal, th: ThreadData, x: nat, y: nat, fuel: nat)
    requires Counted(sig) && StableList.Order(sig) == [x, y] && sig.links[y].value == None
    requires fuel > 0
    ensures var r := StableList.Erase(sig, Node(y)).0; var e := Walk(r, th, AsWritten, Node(y), fuel);
      && e.status == Finished && e.called == [] && !e.error
      && StableList.Repr(e.sig, [x]) && StableList.Order(e.sig) == [x] && StableList.Size(e.sig) == 0 && !Counted(e.sig)
      && e.sig.links == r.links
      && Walk(r, th, Guarded, Node(y), fuel) == Emission(r, th, [], [], false, Finished)
      && StableList.Size(r) == |StableList.Order(r)| == 1
  {
    CountedValid(sig);
    var s := StableList.Order(sig);
    assert s[0] == x && s[1] == y;
    assert sig.links[s[1]].prev == Node(x) && sig.links[s[1]].next == Tail;
    StableList.EraseRemoves(sig, Node(y));
    var r := StableList.Erase(sig, Node(y)).0;
    assert StableList.Order(r) == [x];
    var t := [x];
    assert r.links[t[0]].next == Tail && r.last == Node(x);
    assert r.links[y] == sig.links[y];
    assert StableList.SetNext(r, Node(x), Tail) == r by {
      assert r.links[x := r.links[x].(next := Tail)] == r.links;
    }
    assert StableList.Rewire(r, Node(x), Tail) == r;
    var u := r.(elements := 0);
    assert StableList.Erase(r, Node(y)) == (u, Tail);
    assert StableList.Repr(u, [x]);
    StableList.OrderOfRepr(u, [x]);
    assert x != y;
  }

  /** Once `x` is disconnected too, the next emission erases it from a
      counter that already reads 0: as written `size()` wraps round to
      `SIZE_MAX` on an empty list. */
  lemma LaterEraseWraps(u: Signal, th: ThreadData, x: nat, fuel: nat)
    requires StableList.Repr(u, [x]) && u.elements == 0
    requires fuel >= 2
    ensures var e := Invoke(NullSlot(u, x), th, AsWritten, fuel);
      && e.status == Finished && e.called == [] && !e.error
      && StableList.IsEmpty(e.sig) && StableList.Size(e.sig) == StableList.SIZE_MODULUS - 1
      && !Counted(e.sig)
  {
    var n := NullSlot(u, x);
    var t := [x];
    assert t[0] in u.links && n.links[x].value == None;
    assert n.links[t[0]].next == Tail && n.links[t[0]].prev == Head && n.first == Node(x) && n.last == Node(x);
    assert StableList.Prev(n, Node(x)) == Head && StableList.Next(n, Node(x)) == Tail;
    var w := StableList.Rewire(n, Head, Tail);
    assert w == n.(first := Tail, last := Head);
    var r := w.(elements := StableList.Dec(0));
    assert StableList.Erase(n, Node(x)) == (r, Tail);
    assert Walk(n, th, AsWritten, Node(x), fuel) == Walk(r, th, AsWritten, Tail, fuel - 1);
    assert StableList.Repr(r, []);
    StableList.OrderOfRepr(r, []);
  }
}
