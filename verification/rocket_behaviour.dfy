/** What an emission of rocket.hpp (v1.3) does, for slots with known
    scripts: the order of the calls, and how a slot that aborts the
    emission, disconnects itself or another subscription, clears the
    signal or connects a new slot changes the rest of the loop. */
module RocketBehaviour {
  import opened Links
  import opened Slots
  import opened Optional
  import StableList
  import opened RocketSignal
  import opened RocketEmission
  import Collectors
  import RocketHandles

  /** An emission `e` preceded by calls to the slots `bs` of the nodes `ids`. */
  function Prefixed(ids: seq<nat>, bs: seq<Behaviour>, e: Emission): Emission
  {
    e.(called := ids + e.called, values := Returned(bs) + e.values, error := AnyThrows(bs) || e.error)
  }

  lemma {:induction false} PrefixedNone(e: Emission)
    ensures Prefixed([], [], e) == e
  {
    assert [] + e.called == e.called && [] + e.values == e.values;
  }

  /** Two runs of calls, one after the other. */
  lemma {:induction false} PrefixedConcat(ids: seq<nat>, bs: seq<Behaviour>, ids': seq<nat>, bs': seq<Behaviour>, e: Emission)
    ensures Prefixed(ids, bs, Prefixed(ids', bs', e)) == Prefixed(ids + ids', bs + bs', e)
  {
    ReturnedConcat(bs, bs');
    AnyThrowsConcat(bs, bs');
    assert ids + (ids' + e.called) == (ids + ids') + e.called;
    assert Returned(bs) + (Returned(bs') + e.values) == (Returned(bs) + Returned(bs')) + e.values;
  }

  lemma {:induction false} PrefixedStep(s: seq<nat>, vs: seq<Behaviour>, i: nat, j: nat, e: Emission)
    requires i < j <= |s| && |vs| == |s|
    ensures Prefixed([s[i]], [vs[i]], Prefixed(s[i + 1..j], vs[i + 1..j], e)) == Prefixed(s[i..j], vs[i..j], e)
  {
    PrefixedConcat([s[i]], [vs[i]], s[i + 1..j], vs[i + 1..j], e);
    assert [s[i]] + s[i + 1..j] == s[i..j];
    assert [vs[i]] + vs[i + 1..j] == vs[i..j];
  }

  /** The slots of the nodes `s[i..j]` have no side effects. */
  ghost predicate QuietRun(sig: Signal, s: seq<nat>, i: nat, j: nat)
    requires forall k | 0 <= k < |s| :: s[k] in sig.links
  {
    forall k | i <= k < j && k < |s| :: Quiet(sig.links[s[k]].value)
  }

  /** The nodes `s[i..j]` are connected, each one's `next` is the following
      entry of `s`, and their slots have no side effects. */
  ghost predicate QuietChain(sig: Signal, s: seq<nat>, i: nat, j: nat)
    requires j <= |s|
  {
    forall k | i <= k < j ::
      && s[k] in sig.links && sig.links[s[k]].prev != Null
      && sig.links[s[k]].next == PtrAt(s, k + 1) && Quiet(sig.links[s[k]].value)
  }

  lemma {:induction false} QuietChainOfRepr(sig: Signal, s: seq<nat>, i: nat, j: nat)
    requires StableList.Repr(sig, s) && i <= j <= |s| && QuietRun(sig, s, i, j)
    ensures QuietChain(sig, s, i, j)
  {
    forall k | i <= k < j
      ensures sig.links[s[k]].prev != Null && sig.links[s[k]].next == PtrAt(s, k + 1)
    {
      assert sig.links[s[k]].prev == PtrBefore(s, k);
    }
  }

  // ---------------------------------------------------------------------------
  // One round of the loop.
  // ---------------------------------------------------------------------------

  /** A connected node whose slot has no side effects: it is called, and the
      loop goes on from its `next` with the thread data unchanged. */
  lemma {:induction false} QuietCall(sig: Signal, th: ThreadData, id: nat, fuel: nat)
    requires Connected(sig, id) && Quiet(sig.links[id].value) && !th.aborted && fuel > 0
    ensures Walk(sig, th, Node(id), fuel)
         == Prefixed([id], [sig.links[id].value], Walk(sig, th, sig.links[id].next, fuel - 1))
  {
    var slot := sig.links[id].value;
    ReturnedOne(slot);
    var run := RunEffects(sig, th.(current := Node(id)), slot.effects, fuel - 1);
    assert run == SlotRun(sig, th.(current := Node(id)), false, Finished);
    assert run.th.(current := th.current) == th;
    var rest := Walk(sig, th, sig.links[id].next, fuel - 1);
    assert Walk(sig, th, Node(id), fuel) == Call(sig, th, id, fuel) == Finish(th, id, slot, run, fuel - 1);
    assert Finish(th, id, slot, run, fuel - 1) == Continued(id, Returned([slot]), AnyThrows([slot]), rest);
  }

  /** A connected node whose slot performs the one effect `eff` (not a nested
      emission): it is called on the list before the effect, and the loop
      either stops (an abort request) or goes on from the node's `next` in
      the list after the effect. */
  lemma {:induction false} EffectCall(sig: Signal, th: ThreadData, id: nat, fuel: nat)
    requires Connected(sig, id) && fuel > 0
    requires |sig.links[id].value.effects| == 1 && !sig.links[id].value.effects[0].EmitAgain?
    ensures var slot := sig.links[id].value;
      var (sig', th2) := Apply(sig, th.(current := Node(id)), slot.effects[0]);
      var th' := th2.(current := th.current);
      var e := Walk(sig, th, Node(id), fuel);
      && (th'.aborted ==> e == Emission(sig', th', [id], Returned([slot]), AnyThrows([slot]), Aborted))
      && (!th'.aborted ==> e == Prefixed([id], [slot], Walk(sig', th', StableList.Next(sig', Node(id)), fuel - 1)))
  {
    var slot := sig.links[id].value;
    ReturnedOne(slot);
    var th1 := th.(current := Node(id));
    var (sig', th2) := Apply(sig, th1, slot.effects[0]);
    var run := RunEffects(sig, th1, slot.effects, fuel - 1);
    assert slot.effects[1..] == [];
    assert run == RunEffects(sig', th2, [], fuel - 1) == SlotRun(sig', th2, false, Finished);
    assert Walk(sig, th, Node(id), fuel) == Call(sig, th, id, fuel) == Finish(th, id, slot, run, fuel - 1);
  }

  lemma {:induction false} TakeCons<T>(s: seq<T>, i: nat, u: seq<T>)
    requires i < |s|
    ensures s[..i] + ([s[i]] + u) == s[..i + 1] + u
    ensures u == [] ==> s[..i] + [s[i]] == s[..i + 1]
  {
    assert s[..i + 1] == s[..i] + [s[i]];
  }

  lemma {:induction false} SliceCons<T>(s: seq<T>, i: nat, j: nat)
    requires i < j <= |s|
    ensures s[i..j] == [s[i]] + s[i + 1..j]
  {
  }

  /** A quiet call in front of a known run of calls. */
  lemma {:induction false} QuietStep(sig: Signal, th: ThreadData, id: nat, next: Ptr, fuel: nat, ids: seq<nat>, bs: seq<Behaviour>, w: Emission)
    requires Connected(sig, id) && Quiet(sig.links[id].value) && !th.aborted && fuel > 0
    requires sig.links[id].next == next && Walk(sig, th, next, fuel - 1) == Prefixed(ids, bs, w)
    ensures Walk(sig, th, Node(id), fuel) == Prefixed([id] + ids, [sig.links[id].value] + bs, w)
  {
    QuietCall(sig, th, id, fuel);
    PrefixedConcat([id], [sig.links[id].value], ids, bs, w);
  }

  /** A run of connected nodes with quiet slots `bs` is called in list
      order, one step of fuel each: the loop enters `s[i]` with fuel `fi`
      and leaves `s[j - 1]` for `PtrAt(s, j)` with fuel `fj`. */
  lemma {:induction false} WalkQuietRun(sig: Signal, s: seq<nat>, bs: seq<Behaviour>, th: ThreadData, i: nat, j: nat, fi: nat, fj: nat)
    requires i <= j <= |s| && |bs| == |s| && QuietChain(sig, s, i, j) && !th.aborted
    requires forall k | i <= k < j :: sig.links[s[k]].value == bs[k]
    requires fi == fj + (j - i)
    ensures Walk(sig, th, PtrAt(s, i), fi) == Prefixed(s[i..j], bs[i..j], Walk(sig, th, PtrAt(s, j), fj))
    decreases j - i
  {
    if i == j {
      PrefixedNone(Walk(sig, th, PtrAt(s, j), fj));
      assert s[i..j] == [] && bs[i..j] == [];
    } else {
      WalkQuietRun(sig, s, bs, th, i + 1, j, fi - 1, fj);
      SliceCons(s, i, j);
      SliceCons(bs, i, j);
      QuietStep(sig, th, s[i], PtrAt(s, i + 1), fi, s[i + 1..j], bs[i + 1..j], Walk(sig, th, PtrAt(s, j), fj));
    }
  }

  // ---------------------------------------------------------------------------
  // Whole emissions.
  // ---------------------------------------------------------------------------

  /** An emission that ended with `status` on the list `sig` and thread data
      `th`, after calling the slots `bs` of the nodes `ids` in that order. */
  function Ended(sig: Signal, th: ThreadData, ids: seq<nat>, bs: seq<Behaviour>, status: Status): Emission
  {
    Emission(sig, th, ids, Returned(bs), AnyThrows(bs), status)
  }

  lemma {:induction false} PrefixedEnded(ids: seq<nat>, bs: seq<Behaviour>, ids': seq<nat>, bs': seq<Behaviour>, sig: Signal, th: ThreadData, status: Status)
    ensures Prefixed(ids, bs, Ended(sig, th, ids', bs', status)) == Ended(sig, th, ids + ids', bs + bs', status)
  {
    ReturnedConcat(bs, bs');
    AnyThrowsConcat(bs, bs');
  }

  /** The loop reaching `tail` ends the walk, whatever fuel is left. */
  lemma {:induction false} WalkAtEnd(sig: Signal, th: ThreadData, s: seq<nat>, f: nat)
    ensures Walk(sig, th, PtrAt(s, |s|), f) == Ended(sig, th, [], [], Finished)
  {
    ReturnedOne(Behaviour([], Throws));
    assert Returned([]) == [];
  }

  /** The slots before position `i` are quiet: the loop, entered at the
      first node `p`, calls them in list order and then reaches `s[i]` with
      the list as it was. */
  lemma {:induction false} QuietPrefix(sig: Signal, s: seq<nat>, vs: seq<Behaviour>, th: ThreadData, p: Ptr, i: nat, fuel: nat)
    requires i <= |s| && |vs| == |s| && p == PtrAt(s, 0) && QuietChain(sig, s, 0, i) && !th.aborted
    requires forall k | 0 <= k < i :: sig.links[s[k]].value == vs[k]
    requires i <= fuel
    ensures Walk(sig, th, p, fuel) == Prefixed(s[..i], vs[..i], Walk(sig, th, PtrAt(s, i), fuel - i))
  {
    var z: nat := 0;
    WalkQuietRun(sig, s, vs, th, z, i, fuel, fuel - i);
    assert s[z..i] == s[..i] && vs[z..i] == vs[..i];
  }

  /** The list and its values in order, as a precondition can name them. */
  lemma {:induction false} ValidRepr(sig: Signal) returns (s: seq<nat>, vs: seq<Behaviour>)
    requires Valid(sig)
    ensures s == StableList.Order(sig) && vs == StableList.Values(sig)
    ensures StableList.Repr(sig, s) && |vs| == |s|
    ensures forall k | 0 <= k < |s| :: sig.links[s[k]].value == vs[k]
    ensures forall k | 0 <= k < |s| :: Connected(sig, s[k])
  {
    s, vs := StableList.Order(sig), StableList.Values(sig);
    forall k | 0 <= k < |s|
      ensures Connected(sig, s[k])
    {
      assert sig.links[s[k]].prev == PtrBefore(s, k);
    }
  }

  /** `invoke`: the walk from `head`, inside an `abort_scope`. */
  lemma {:induction false} InvokeWalk(sig: Signal, th: ThreadData, fuel: nat, w: Emission)
    requires Walk(sig, th.(aborted := false), sig.first, fuel) == w
    ensures Invoke(sig, th, fuel) == w.(th := w.th.(aborted := th.aborted))
  {
  }

  /** The values of the slots of a valid list, by position. */
  lemma {:induction false} QuietAll(sig: Signal, s: seq<nat>, vs: seq<Behaviour>, j: nat)
    requires StableList.Repr(sig, s) && |vs| == |s| && j <= |s|
    requires forall k | 0 <= k < |s| :: sig.links[s[k]].value == vs[k]
    requires forall k | 0 <= k < j :: Quiet(vs[k])
    ensures QuietChain(sig, s, 0, j)
  {
    QuietChainOfRepr(sig, s, 0, j);
  }

  /** The loop resumed at position `p` of a list whose slots from there on
      are quiet runs to `tail`, calling them in order. */
  lemma {:induction false} QuietResume(sig: Signal, s: seq<nat>, vs: seq<Behaviour>, th: ThreadData, p: nat, fuel: nat)
    requires p <= |s| && |vs| == |s| && QuietChain(sig, s, p, |s|) && !th.aborted
    requires forall k | p <= k < |s| :: sig.links[s[k]].value == vs[k]
    requires |s| - p <= fuel
    ensures Walk(sig, th, PtrAt(s, p), fuel) == Ended(sig, th, s[p..], vs[p..], Finished)
  {
    WalkQuietRun(sig, s, vs, th, p, |s|, fuel, fuel - (|s| - p));
    WalkAtEnd(sig, th, s, fuel - (|s| - p));
    PrefixedEnded(s[p..|s|], vs[p..|s|], [], [], sig, th, Finished);
    assert s[p..|s|] + [] == s[p..] && vs[p..|s|] + [] == vs[p..];
  }

  /** The loop over a list whose slots are all quiet. */
  lemma {:induction false} QuietWalk(sig: Signal, s: seq<nat>, vs: seq<Behaviour>, th: ThreadData, fuel: nat)
    requires |vs| == |s| <= fuel && sig.first == PtrAt(s, 0) && QuietChain(sig, s, 0, |s|) && !th.aborted
    requires forall k | 0 <= k < |s| :: sig.links[s[k]].value == vs[k]
    ensures Walk(sig, th, sig.first, fuel) == Ended(sig, th, s, vs, Finished)
  {
    var z: nat := 0;
    QuietResume(sig, s, vs, th, z, fuel);
    assert s[z..] == s && vs[z..] == vs;
  }

  /** Calls before and after one more call. */
  lemma {:induction false} Around(w0: Emission, w1: Emission, w2: Emission, ids: seq<nat>, bs: seq<Behaviour>, id: nat, b: Behaviour,
               sig: Signal, th: ThreadData, ids': seq<nat>, bs': seq<Behaviour>, status: Status)
    requires w0 == Prefixed(ids, bs, w1) && w1 == Prefixed([id], [b], w2) && w2 == Ended(sig, th, ids', bs', status)
    ensures w0 == Ended(sig, th, ids + ([id] + ids'), bs + ([b] + bs'), status)
  {
    PrefixedEnded([id], [b], ids', bs', sig, th, status);
    PrefixedEnded(ids, bs, [id] + ids', [b] + bs', sig, th, status);
  }

  /** Calls before an emission that ends. */
  lemma {:induction false} Before(w0: Emission, w1: Emission, ids: seq<nat>, bs: seq<Behaviour>,
               sig: Signal, th: ThreadData, ids': seq<nat>, bs': seq<Behaviour>, status: Status)
    requires w0 == Prefixed(ids, bs, w1) && w1 == Ended(sig, th, ids', bs', status)
    ensures w0 == Ended(sig, th, ids + ids', bs + bs', status)
  {
    PrefixedEnded(ids, bs, ids', bs', sig, th, status);
  }

  /** An emission over slots without side effects calls every connected
      slot once, in list order, hands the collector the value of every call
      that returned, and leaves the list and the thread data as they were. */
  lemma {:induction false} QuietEmission(sig: Signal, th: ThreadData, fuel: nat)
    requires Valid(sig) && |StableList.Order(sig)| <= fuel
    requires forall b | b in StableList.Values(sig) :: Quiet(b)
    ensures var e, vs := Invoke(sig, th, fuel), StableList.Values(sig);
      && e == Ended(sig, th, StableList.Order(sig), vs, Finished)
      && RocketEmission.Result(e) == (if AnyThrows(vs) then Err(InvocationSlotError) else Ok(Collectors.DefaultOf(Returned(vs))))
  {
    var s, vs := ValidRepr(sig);
    forall k | 0 <= k < |s|
      ensures Quiet(vs[k])
    {
      assert vs[k] in vs;
    }
    QuietAll(sig, s, vs, |s|);
    var th0 := th.(aborted := false);
    QuietWalk(sig, s, vs, th0, fuel);
    InvokeWalk(sig, th, fuel, Ended(sig, th0, s, vs, Finished));
  }

  // ---------------------------------------------------------------------------
  // A slot with one side effect.
  // ---------------------------------------------------------------------------

  /** The list after the slot of `id` performs `effect`: the effect runs
      with `id` as `current_connection`. */
  function After(sig: Signal, id: nat, effect: Effect): Signal
    requires !effect.EmitAgain?
  {
    Apply(sig, ThreadData(Node(id), false), effect).0
  }

  /** The round on a connected node `s[i]` whose slot performs the one
      effect `effect`, not an abort request: the slot is called on the list
      as it is, and the loop moves on in the list the effect leaves behind,
      from the node's `next` there. */
  lemma {:induction false} EffectFirst(sig: Signal, s: seq<nat>, vs: seq<Behaviour>, th: ThreadData, i: nat, effect: Effect,
                                       t: seq<nat>, p: nat, fuel: nat)
    requires i < |s| && |vs| == |s| && p <= |t| && i < fuel && Connected(sig, s[i]) && !th.aborted
    requires sig.links[s[i]].value == vs[i] && vs[i].effects == [effect] && !effect.EmitAgain? && !effect.AbortEmission?
    requires StableList.Next(After(sig, s[i], effect), Node(s[i])) == PtrAt(t, p)
    ensures Walk(sig, th, PtrAt(s, i), fuel - i)
         == Prefixed([s[i]], [vs[i]], Walk(After(sig, s[i], effect), th, PtrAt(t, p), fuel - i - 1))
  {
    var id := s[i];
    EffectCall(sig, th, id, fuel - i);
    assert Apply(sig, th.(current := Node(id)), effect) == (After(sig, id, effect), th.(current := Node(id)));
  }

  /** The loop over a list whose slots before `s[i]` are quiet, when the
      round on `s[i]` calls its slot and moves on to position `p` of a list
      `r` whose slots from there on are quiet: the loop calls `s[..i + 1]`,
      then the rest of `r`'s ordering `t` from `p`. */
  lemma {:induction false} AroundStep(sig: Signal, s: seq<nat>, vs: seq<Behaviour>, th: ThreadData, i: nat,
                   r: Signal, t: seq<nat>, ws: seq<Behaviour>, p: nat, fuel: nat)
    requires i < |s| && |vs| == |s| && sig.first == PtrAt(s, 0) && QuietChain(sig, s, 0, i) && !th.aborted
    requires forall k | 0 <= k < i :: sig.links[s[k]].value == vs[k]
    requires p <= |t| && |ws| == |t| && QuietChain(r, t, p, |t|)
    requires forall k | p <= k < |t| :: r.links[t[k]].value == ws[k]
    requires i + 1 + (|t| - p) <= fuel
    requires Walk(sig, th, PtrAt(s, i), fuel - i) == Prefixed([s[i]], [vs[i]], Walk(r, th, PtrAt(t, p), fuel - i - 1))
    ensures Walk(sig, th, sig.first, fuel) == Ended(r, th, s[..i + 1] + t[p..], vs[..i + 1] + ws[p..], Finished)
  {
    QuietPrefix(sig, s, vs, th, sig.first, i, fuel);
    QuietResume(r, t, ws, th, p, fuel - i - 1);
    Around(Walk(sig, th, sig.first, fuel), Walk(sig, th, PtrAt(s, i), fuel - i), Walk(r, th, PtrAt(t, p), fuel - i - 1),
           s[..i], vs[..i], s[i], vs[i], r, th, t[p..], ws[p..], Finished);
    TakeCons(s, i, t[p..]);
    TakeCons(vs, i, ws[p..]);
  }

  /** The slots of `r` from position `p` of its ordering `t` on are quiet and
      are `ws[p..]`. */
  ghost predicate Resumes(r: Signal, t: seq<nat>, ws: seq<Behaviour>, p: nat)
  {
    && p <= |t| && |ws| == |t| && QuietChain(r, t, p, |t|)
    && forall k | p <= k < |t| :: r.links[t[k]].value == ws[k]
  }

  lemma {:induction false} ResumesOfValid(r: Signal, p: nat)
    requires Valid(r) && p <= |StableList.Order(r)|
    requires forall k | p <= k < |StableList.Order(r)| :: Quiet(StableList.Values(r)[k])
    ensures Resumes(r, StableList.Order(r), StableList.Values(r), p)
  {
    var t, ws := ValidRepr(r);
    QuietChainOfRepr(r, t, p, |t|);
  }

  /** The round on a connected node whose slot requests an abort: the slot
      is called and the loop stops with `emission_aborted` set. */
  lemma {:induction false} AbortFirst(sig: Signal, at: Ptr, id: nat, th: ThreadData, fuel: nat)
    requires at == Node(id) && Connected(sig, id) && 0 < fuel
    requires sig.links[id].value.effects == [AbortEmission]
    ensures Walk(sig, th, at, fuel) == Ended(sig, th.(aborted := true), [id], [sig.links[id].value], Aborted)
  {
    EffectCall(sig, th, id, fuel);
  }

  /** The loop over a list whose slots before `s[i]` are quiet, when the
      round on `s[i]` calls its slot and ends the loop. */
  lemma {:induction false} BeforeStep(sig: Signal, s: seq<nat>, vs: seq<Behaviour>, th: ThreadData, i: nat,
                                      r: Signal, th': ThreadData, status: Status, fuel: nat)
    requires i < |s| && |vs| == |s| && sig.first == PtrAt(s, 0) && QuietChain(sig, s, 0, i) && !th.aborted
    requires forall k | 0 <= k < i :: sig.links[s[k]].value == vs[k]
    requires i < fuel
    requires Walk(sig, th, PtrAt(s, i), fuel - i) == Ended(r, th', [s[i]], [vs[i]], status)
    ensures Walk(sig, th, sig.first, fuel) == Ended(r, th', s[..i + 1], vs[..i + 1], status)
  {
    QuietPrefix(sig, s, vs, th, sig.first, i, fuel);
    Before(Walk(sig, th, sig.first, fuel), Walk(sig, th, PtrAt(s, i), fuel - i), s[..i], vs[..i],
           r, th', [s[i]], [vs[i]], status);
    TakeCons(s, i, []);
    TakeCons(vs, i, []);
  }

  lemma {:induction false} AbortWalk(sig: Signal, s: seq<nat>, vs: seq<Behaviour>, th: ThreadData, i: nat, fuel: nat)
    requires i < |s| && |vs| == |s| && sig.first == PtrAt(s, 0) && QuietChain(sig, s, 0, i) && !th.aborted
    requires Connected(sig, s[i]) && forall k | 0 <= k <= i :: sig.links[s[k]].value == vs[k]
    requires vs[i].effects == [AbortEmission] && i < fuel
    ensures Walk(sig, th, sig.first, fuel) == Ended(sig, th.(aborted := true), s[..i + 1], vs[..i + 1], Aborted)
  {
    AbortFirst(sig, PtrAt(s, i), s[i], th, fuel - i);
    BeforeStep(sig, s, vs, th, i, sig, th.(aborted := true), Aborted, fuel);
  }

  /** `abort_emission()` from the slot at position `i`, after slots without
      side effects: the slots up to and including it are called, no slot
      after it is, and the `abort_scope` restores the thread's previous abort
      flag. */
  lemma {:induction false} AbortStops(sig: Signal, th: ThreadData, i: nat, fuel: nat)
    requires Valid(sig) && i < |StableList.Order(sig)| && i < fuel
    requires forall k | 0 <= k < i :: Quiet(StableList.Values(sig)[k])
    requires StableList.Values(sig)[i].effects == [AbortEmission]
    ensures var s, vs := StableList.Order(sig), StableList.Values(sig);
      Invoke(sig, th, fuel) == Ended(sig, th, s[..i + 1], vs[..i + 1], Aborted)
  {
    var s, vs := ValidRepr(sig);
    QuietAll(sig, s, vs, i);
    var th0 := th.(aborted := false);
    AbortWalk(sig, s, vs, th0, i, fuel);
    InvokeWalk(sig, th, fuel, Ended(sig, th0.(aborted := true), s[..i + 1], vs[..i + 1], Aborted));
  }

  /** The loop over a list whose slots before `s[i]` are quiet and whose slot
      at `s[i]` performs one effect that does not end the loop: it calls
      `s[..i + 1]` on the list as it was, then moves on along the ordering
      `t` of the list the effect leaves behind, from the position `p` the
      node's `next` now leads to. */
  lemma {:induction false} OneEffectWalk(sig: Signal, s: seq<nat>, vs: seq<Behaviour>, th: ThreadData, i: nat, effect: Effect,
                                         t: seq<nat>, ws: seq<Behaviour>, p: nat, fuel: nat)
    requires i < |s| && |vs| == |s| && sig.first == PtrAt(s, 0) && QuietChain(sig, s, 0, i) && !th.aborted
    requires Connected(sig, s[i]) && forall k | 0 <= k <= i :: sig.links[s[k]].value == vs[k]
    requires vs[i].effects == [effect] && !effect.EmitAgain? && !effect.AbortEmission?
    requires Resumes(After(sig, s[i], effect), t, ws, p) && StableList.Next(After(sig, s[i], effect), Node(s[i])) == PtrAt(t, p)
    requires i + 1 + (|t| - p) <= fuel
    ensures Walk(sig, th, sig.first, fuel) == Ended(After(sig, s[i], effect), th, s[..i + 1] + t[p..], vs[..i + 1] + ws[p..], Finished)
  {
    EffectFirst(sig, s, vs, th, i, effect, t, p, fuel);
    AroundStep(sig, s, vs, th, i, After(sig, s[i], effect), t, ws, p, fuel);
  }

  /** A slot at position `i` with one effect that does not end the loop,
      after slots without side effects, as in `OneEffectWalk`; the emission
      leaves the thread data as it was. */
  lemma {:induction false} OneEffect(sig: Signal, th: ThreadData, i: nat, effect: Effect,
                                     t: seq<nat>, ws: seq<Behaviour>, p: nat, fuel: nat)
    requires Valid(sig) && i < |StableList.Order(sig)|
    requires forall k | 0 <= k < i :: Quiet(StableList.Values(sig)[k])
    requires StableList.Values(sig)[i].effects == [effect] && !effect.EmitAgain? && !effect.AbortEmission?
    requires var id := StableList.Order(sig)[i];
      Resumes(After(sig, id, effect), t, ws, p) && StableList.Next(After(sig, id, effect), Node(id)) == PtrAt(t, p)
    requires i + 1 + (|t| - p) <= fuel
    ensures var s, vs := StableList.Order(sig), StableList.Values(sig);
      Invoke(sig, th, fuel) == Ended(After(sig, s[i], effect), th, s[..i + 1] + t[p..], vs[..i + 1] + ws[p..], Finished)
  {
    var s, vs := ValidRepr(sig);
    QuietAll(sig, s, vs, i);
    var th0 := th.(aborted := false);
    OneEffectWalk(sig, s, vs, th0, i, effect, t, ws, p, fuel);
    InvokeWalk(sig, th, fuel, Ended(After(sig, s[i], effect), th0, s[..i + 1] + t[p..], vs[..i + 1] + ws[p..], Finished));
  }

  // ---------------------------------------------------------------------------
  // The effects, one by one.
  // ---------------------------------------------------------------------------

  /** What each effect leaves the signal as, for a slot at node `id`. */
  lemma {:induction false} AfterEffect(sig: Signal, id: nat, effect: Effect)
    requires !effect.EmitAgain?
    ensures effect.DisconnectSelf? ==> After(sig, id, effect) == Disconnect(sig, id)
    ensures effect.DisconnectNode? ==> After(sig, id, effect) == Disconnect(sig, effect.target)
    ensures effect.ClearSignal? ==> After(sig, id, effect) == Clear(sig)
    ensures effect.ConnectSlot? ==> After(sig, id, effect) == Connect(sig, effect.slot, effect.first).0
  {
  }

  /** What each effect does to the list of a valid signal, for a slot at
      node `id`: a disconnect drops its node from the order (and leaves
      the order alone when the node is gone already), `clear()` empties the
      order and leaves no earlier node connected, `connect` puts a fresh
      node at the front or the back, and `abort_emission()` leaves the
      signal as it is. */
  lemma {:induction false} EffectOnList(sig: Signal, id: nat, effect: Effect)
    requires Valid(sig) && !effect.EmitAgain?
    ensures var r, s := After(sig, id, effect), StableList.Order(sig);
      && Valid(r)
      && (effect.AbortEmission? ==> r == sig)
      && (effect.DisconnectSelf? ==> StableList.Order(r) == RocketHandles.Drop(s, {id}) && !Connected(r, id))
      && (effect.DisconnectNode? ==> StableList.Order(r) == RocketHandles.Drop(s, {effect.target}) && !Connected(r, effect.target))
      && (effect.ClearSignal? ==> StableList.Order(r) == [] && forall x | x in sig.links :: !Connected(r, x))
      && (effect.ConnectSlot? ==>
            exists n | n !in sig.links ::
              && StableList.Order(r) == (if effect.first then [n] + s else s + [n])
              && StableList.Values(r) == (if effect.first then [effect.slot] + StableList.Values(sig) else StableList.Values(sig) + [effect.slot]))
  {
    AfterEffect(sig, id, effect);
    match effect
    case AbortEmission =>
    case DisconnectSelf => RocketHandles.DisconnectNode(sig, id);
    case DisconnectNode(t) => RocketHandles.DisconnectNode(sig, t);
    case ClearSignal => ClearDisconnectsAll(sig);
    case ConnectSlot(b, first) =>
      ConnectInserts(sig, b, first);
      var n := Connect(sig, b, first).1;
      assert n !in sig.links;
  }

  /** In a valid list the node at position `m` leads to position `m + 1`. */
  lemma {:induction false} NextAt(r: Signal, m: nat, n: nat)
    requires Valid(r) && m < |StableList.Order(r)| && n == m + 1
    ensures StableList.Next(r, Node(StableList.Order(r)[m])) == PtrAt(StableList.Order(r), n)
  {
    var t := StableList.Order(r);
    assert t[m] in r.links;
  }

  /** Taking position `i` out of an ordering moves what follows it down by one. */
  lemma {:induction false} CutNext(s: seq<nat>, i: nat)
    requires i < |s|
    ensures PtrAt(s, i + 1) == PtrAt(s[..i] + s[i + 1..], i)
  {
    if i + 1 < |s| {
      assert (s[..i] + s[i + 1..])[i] == s[i + 1];
    }
  }

  /** What was called before position `i`, the slot at `i` itself, and the
      rest of the ordering with `i` taken out make up the whole ordering. */
  lemma {:induction false} CutRejoin<T>(s: seq<T>, t: seq<T>, i: nat)
    requires i < |s| && t == s[..i] + s[i + 1..]
    ensures s[..i + 1] + t[i..] == s
  {
    assert t[i..] == s[i + 1..];
  }

  /** Every slot but the one at position `i` is quiet, so the slots left
      once it is taken out are all quiet. */
  lemma {:induction false} QuietCut(vs: seq<Behaviour>, ws: seq<Behaviour>, i: nat)
    requires i < |vs| && ws == vs[..i] + vs[i + 1..]
    requires forall k | 0 <= k < |vs| && k != i :: Quiet(vs[k])
    ensures forall k | 0 <= k < |ws| :: Quiet(ws[k])
  {
    forall k | 0 <= k < |ws|
      ensures Quiet(ws[k])
    {
      if k < i {
        assert ws[k] == vs[k];
      } else {
        assert ws[k] == vs[k + 1];
      }
    }
  }

  /** `current_connection().disconnect()` from the slot at position `i`, all
      other slots quiet: the node leaves the list, the loop follows its kept
      `next`, and every slot is still called exactly once, in order. The
      next emission calls every slot but that one. */
  lemma {:induction false} SelfDisconnectContinues(sig: Signal, th: ThreadData, i: nat, fuel: nat)
    requires Valid(sig) && i < |StableList.Order(sig)| <= fuel
    requires forall k | 0 <= k < |StableList.Order(sig)| && k != i :: Quiet(StableList.Values(sig)[k])
    requires StableList.Values(sig)[i].effects == [DisconnectSelf]
    ensures var s, vs := StableList.Order(sig), StableList.Values(sig);
      var r := Disconnect(sig, s[i]);
      && Invoke(sig, th, fuel) == Ended(r, th, s, vs, Finished)
      && StableList.Order(r) == s[..i] + s[i + 1..] && StableList.Values(r) == vs[..i] + vs[i + 1..]
  {
    var s, vs := ValidRepr(sig);
    var t, ws := SelfDisconnectShape(sig, i);
    OneEffect(sig, th, i, DisconnectSelf, t, ws, i, fuel);
    CutRejoin(s, t, i);
    CutRejoin(vs, ws, i);
  }

  lemma {:induction false} SelfDisconnectShape(sig: Signal, i: nat) returns (t: seq<nat>, ws: seq<Behaviour>)
    requires Valid(sig) && i < |StableList.Order(sig)|
    requires forall k | 0 <= k < |StableList.Order(sig)| && k != i :: Quiet(StableList.Values(sig)[k])
    ensures var s, vs := StableList.Order(sig), StableList.Values(sig);
      var r := After(sig, s[i], DisconnectSelf);
      && r == Disconnect(sig, s[i])
      && t == s[..i] + s[i + 1..] && ws == vs[..i] + vs[i + 1..]
      && t == StableList.Order(r) && ws == StableList.Values(r)
      && Resumes(r, t, ws, i) && StableList.Next(r, Node(s[i])) == PtrAt(t, i)
  {
    var s, vs := ValidRepr(sig);
    var id := s[i];
    AfterEffect(sig, id, DisconnectSelf);
    t, ws := CutShape(sig, i);
  }

  /** Disconnecting the node at position `i`: the list that is left, and
      the `next` pointer the disconnected node keeps. */
  lemma {:induction false} CutOrder(sig: Signal, i: nat) returns (t: seq<nat>, ws: seq<Behaviour>)
    requires Valid(sig) && i < |StableList.Order(sig)|
    ensures var s, vs := StableList.Order(sig), StableList.Values(sig);
      var r := Disconnect(sig, s[i]);
      && Valid(r)
      && t == s[..i] + s[i + 1..] && ws == vs[..i] + vs[i + 1..]
      && t == StableList.Order(r) && ws == StableList.Values(r)
      && StableList.Next(r, Node(s[i])) == PtrAt(t, i)
  {
    var s, vs := StableList.Order(sig), StableList.Values(sig);
    CutLinks(sig, i);
    t, ws := s[..i] + s[i + 1..], vs[..i] + vs[i + 1..];
    assert sig.links[s[i]].next == PtrAt(s, i + 1);
    CutNext(s, i);
  }

  /** Disconnecting the node at position `i` takes it out of the ordering
      and leaves its `next` pointer as it was. */
  lemma {:induction false} CutLinks(sig: Signal, i: nat)
    requires Valid(sig) && i < |StableList.Order(sig)|
    ensures var s, vs := StableList.Order(sig), StableList.Values(sig);
      var r := Disconnect(sig, s[i]);
      && Valid(r)
      && StableList.Order(r) == s[..i] + s[i + 1..] && StableList.Values(r) == vs[..i] + vs[i + 1..]
      && s[i] in r.links && r.links[s[i]].next == sig.links[s[i]].next
  {
    var s := StableList.Order(sig);
    assert s[i] in s;
    IndexOfDistinct(s, i);
    DisconnectRemoves(sig, s[i]);
  }

  /** The same, with every slot but the one at position `i` quiet: the rest
      of the emission runs through quiet slots. */
  lemma {:induction false} CutShape(sig: Signal, i: nat) returns (t: seq<nat>, ws: seq<Behaviour>)
    requires Valid(sig) && i < |StableList.Order(sig)|
    requires forall k | 0 <= k < |StableList.Order(sig)| && k != i :: Quiet(StableList.Values(sig)[k])
    ensures var s, vs := StableList.Order(sig), StableList.Values(sig);
      var r := Disconnect(sig, s[i]);
      && t == s[..i] + s[i + 1..] && ws == vs[..i] + vs[i + 1..]
      && t == StableList.Order(r) && ws == StableList.Values(r)
      && Resumes(r, t, ws, i) && StableList.Next(r, Node(s[i])) == PtrAt(t, i)
  {
    var s, vs := StableList.Order(sig), StableList.Values(sig);
    t, ws := CutOrder(sig, i);
    QuietCut(vs, ws, i);
    ResumesOfValid(Disconnect(sig, s[i]), i);
  }

  /** Where the entries of an ordering with position `j` taken out came from. */
  lemma {:induction false} CutIndex<T>(s: seq<T>, t: seq<T>, j: nat, k: nat)
    requires j < |s| && t == s[..j] + s[j + 1..] && k < |t|
    ensures t[k] == if k < j then s[k] else s[k + 1]
  {
  }

  /** The same, for an entry at or after the cut, which came from `n`. */
  lemma {:induction false} CutIndexAfter<T>(s: seq<T>, t: seq<T>, j: nat, k: nat, n: nat)
    requires j < |s| && t == s[..j] + s[j + 1..] && j <= k < |t| && n == k + 1
    ensures t[k] == s[n]
  {
  }

  /** Taking position `j` out leaves every slot from position `p` on quiet,
      as long as those slots came from neither `i` nor `j`. */
  lemma {:induction false} QuietCutFrom(vs: seq<Behaviour>, ws: seq<Behaviour>, i: nat, j: nat, p: nat)
    requires j < |vs| && ws == vs[..j] + vs[j + 1..]
    requires i < p || j < i <= p
    requires forall k | 0 <= k < |vs| && k != i && k != j :: Quiet(vs[k])
    ensures forall k | p <= k < |ws| :: Quiet(ws[k])
  {
    forall k | p <= k < |ws|
      ensures Quiet(ws[k])
    {
      CutIndex(vs, ws, j, k);
    }
  }

  /** A slot disconnecting one further down the list. */
  lemma {:induction false} AheadShape(sig: Signal, i: nat, j: nat, p: nat) returns (t: seq<nat>, ws: seq<Behaviour>)
    requires Valid(sig) && i < j < |StableList.Order(sig)| && p == i + 1
    requires forall k | 0 <= k < |StableList.Order(sig)| && k != i && k != j :: Quiet(StableList.Values(sig)[k])
    ensures var s, vs := StableList.Order(sig), StableList.Values(sig);
      var r := After(sig, s[i], DisconnectNode(s[j]));
      && r == Disconnect(sig, s[j])
      && t == s[..j] + s[j + 1..] && ws == vs[..j] + vs[j + 1..]
      && t == StableList.Order(r) && ws == StableList.Values(r)
      && Resumes(r, t, ws, p) && StableList.Next(r, Node(s[i])) == PtrAt(t, p)
  {
    var s, vs := StableList.Order(sig), StableList.Values(sig);
    AfterEffect(sig, s[i], DisconnectNode(s[j]));
    CutLinks(sig, j);
    var r := Disconnect(sig, s[j]);
    t, ws := s[..j] + s[j + 1..], vs[..j] + vs[j + 1..];
    QuietCutFrom(vs, ws, i, j, p);
    ResumesOfValid(r, p);
    CutIndex(s, t, j, i);
    NextAt(r, i, p);
  }

  /** A slot disconnecting one further up the list, already called. */
  lemma {:induction false} BehindShape(sig: Signal, i: nat, j: nat) returns (t: seq<nat>, ws: seq<Behaviour>)
    requires Valid(sig) && j < i < |StableList.Order(sig)|
    requires forall k | 0 <= k < |StableList.Order(sig)| && k != i && k != j :: Quiet(StableList.Values(sig)[k])
    ensures var s, vs := StableList.Order(sig), StableList.Values(sig);
      var r := Disconnect(sig, s[j]);
      && t == s[..j] + s[j + 1..] && ws == vs[..j] + vs[j + 1..]
      && t == StableList.Order(r) && ws == StableList.Values(r)
      && Resumes(r, t, ws, i) && StableList.Next(r, Node(s[i])) == PtrAt(t, i)
  {
    var s, vs := StableList.Order(sig), StableList.Values(sig);
    CutLinks(sig, j);
    t, ws := s[..j] + s[j + 1..], vs[..j] + vs[j + 1..];
    QuietCutFrom(vs, ws, i, j, i);
    ResumesOfValid(Disconnect(sig, s[j]), i);
    BehindNext(sig, i, j);
  }

  /** Once an earlier node is disconnected, the node at position `i` sits at
      position `i - 1` and leads to position `i` of what is left. */
  lemma {:induction false} BehindNext(sig: Signal, i: nat, j: nat)
    requires Valid(sig) && j < i < |StableList.Order(sig)|
    ensures var s := StableList.Order(sig);
      StableList.Next(Disconnect(sig, s[j]), Node(s[i])) == PtrAt(s[..j] + s[j + 1..], i)
  {
    var s := StableList.Order(sig);
    CutLinks(sig, j);
    var r := Disconnect(sig, s[j]);
    var t := s[..j] + s[j + 1..];
    CutIndexAfter(s, t, j, i - 1, i);
    NextAt(r, i - 1, i);
    assert StableList.Order(r)[i - 1] == s[i];
  }

  /** The slots up to position `i` followed by what is left of the ordering
      after position `i` once a later position `j` is taken out. */
  lemma {:induction false} AheadRejoin<T>(s: seq<T>, t: seq<T>, i: nat, j: nat, p: nat)
    requires i < j < |s| && t == s[..j] + s[j + 1..] && p == i + 1
    ensures s[..i + 1] + t[p..] == t
  {
    assert t[..i + 1] == s[..i + 1];
  }

  /** The same once an earlier position `j` is taken out: the whole ordering. */
  lemma {:induction false} BehindRejoin<T>(s: seq<T>, t: seq<T>, i: nat, j: nat)
    requires j < i < |s| && t == s[..j] + s[j + 1..]
    ensures s[..i + 1] + t[i..] == s
  {
    assert t[i..] == s[i + 1..];
  }

  /** `DisconnectAheadSkipped` with the position after `i` named `p`. */
  lemma {:induction false} AheadWalk(sig: Signal, th: ThreadData, i: nat, j: nat, p: nat, fuel: nat)
    requires Valid(sig) && i < j < |StableList.Order(sig)| <= fuel && p == i + 1
    requires forall k | 0 <= k < |StableList.Order(sig)| && k != i && k != j :: Quiet(StableList.Values(sig)[k])
    requires StableList.Values(sig)[i].effects == [DisconnectNode(StableList.Order(sig)[j])]
    ensures var s, vs := StableList.Order(sig), StableList.Values(sig);
      var r := Disconnect(sig, s[j]);
      && StableList.Order(r) == s[..j] + s[j + 1..] && StableList.Values(r) == vs[..j] + vs[j + 1..]
      && Invoke(sig, th, fuel) == Ended(r, th, s[..j] + s[j + 1..], vs[..j] + vs[j + 1..], Finished)
  {
    var s, vs := StableList.Order(sig), StableList.Values(sig);
    var effect := DisconnectNode(s[j]);
    var t, ws := AheadShape(sig, i, j, p);
    OneEffect(sig, th, i, effect, t, ws, p, fuel);
    AheadRejoin(s, t, i, j, p);
    AheadRejoin(vs, ws, i, j, p);
  }

  /** Disconnecting, from the slot at position `i`, a slot further down the
      list: the loop never reaches the disconnected slot, so exactly the
      slots left connected are called, in order. */
  lemma {:induction false} DisconnectAheadSkipped(sig: Signal, th: ThreadData, i: nat, j: nat, fuel: nat)
    requires Valid(sig) && i < j < |StableList.Order(sig)| <= fuel
    requires forall k | 0 <= k < |StableList.Order(sig)| && k != i && k != j :: Quiet(StableList.Values(sig)[k])
    requires StableList.Values(sig)[i].effects == [DisconnectNode(StableList.Order(sig)[j])]
    ensures var s, vs := StableList.Order(sig), StableList.Values(sig);
      var r := Disconnect(sig, s[j]);
      && StableList.Order(r) == s[..j] + s[j + 1..] && StableList.Values(r) == vs[..j] + vs[j + 1..]
      && Invoke(sig, th, fuel) == Ended(r, th, s[..j] + s[j + 1..], vs[..j] + vs[j + 1..], Finished)
  {
    AheadWalk(sig, th, i, j, i + 1, fuel);
  }

  /** Disconnecting, from the slot at position `i`, a slot already called:
      the emission still calls every slot once, in order; only the next
      emission leaves the disconnected one out. */
  lemma {:induction false} DisconnectBehindCalled(sig: Signal, th: ThreadData, i: nat, j: nat, fuel: nat)
    requires Valid(sig) && j < i < |StableList.Order(sig)| <= fuel
    requires forall k | 0 <= k < |StableList.Order(sig)| && k != i :: Quiet(StableList.Values(sig)[k])
    requires StableList.Values(sig)[i].effects == [DisconnectNode(StableList.Order(sig)[j])]
    ensures var s, vs := StableList.Order(sig), StableList.Values(sig);
      var r := Disconnect(sig, s[j]);
      && StableList.Order(r) == s[..j] + s[j + 1..] && StableList.Values(r) == vs[..j] + vs[j + 1..]
      && Invoke(sig, th, fuel) == Ended(r, th, s, vs, Finished)
  {
    var s, vs := StableList.Order(sig), StableList.Values(sig);
    var effect := DisconnectNode(s[j]);
    var t, ws := BehindShape(sig, i, j);
    AfterEffect(sig, s[i], effect);
    OneEffect(sig, th, i, effect, t, ws, i, fuel);
    BehindRejoin(s, t, i, j);
    BehindRejoin(vs, ws, i, j);
  }

  /** A slot connected at the front moves every position up by one. */
  lemma {:induction false} QuietFront(vs: seq<Behaviour>, b: Behaviour, ws: seq<Behaviour>, i: nat, p: nat)
    requires ws == [b] + vs && p == i + 2
    requires forall k | i < k < |vs| :: Quiet(vs[k])
    ensures forall k | p <= k < |ws| :: Quiet(ws[k])
  {
    forall k | p <= k < |ws|
      ensures Quiet(ws[k])
    {
      assert ws[k] == vs[k - 1];
    }
  }

  /** A slot connected at the back comes after every other one. */
  lemma {:induction false} QuietBack(vs: seq<Behaviour>, b: Behaviour, ws: seq<Behaviour>, i: nat, p: nat)
    requires ws == vs + [b] && p == i + 1 && Quiet(b)
    requires forall k | i < k < |vs| :: Quiet(vs[k])
    ensures forall k | p <= k < |ws| :: Quiet(ws[k])
  {
    forall k | p <= k < |ws|
      ensures Quiet(ws[k])
    {
      if k < |vs| {
        assert ws[k] == vs[k];
      }
    }
  }

  /** The slots called up to position `i`, and what follows the slot at `i`
      once one more is connected at the front: the ordering before. */
  lemma {:induction false} FrontRejoin<T>(s: seq<T>, x: T, t: seq<T>, i: nat, p: nat)
    requires i < |s| && t == [x] + s && p == i + 2
    ensures s[..i + 1] + t[p..] == s
  {
    assert t[p..] == s[i + 1..];
  }

  /** The same once one more is connected at the back: the ordering after. */
  lemma {:induction false} BackRejoin<T>(s: seq<T>, x: T, t: seq<T>, i: nat, p: nat)
    requires i < |s| && t == s + [x] && p == i + 1
    ensures s[..i + 1] + t[p..] == t
  {
    assert t[..p] == s[..i + 1];
  }

  lemma {:induction false} FrontShape(sig: Signal, i: nat, b: Behaviour, p: nat) returns (t: seq<nat>, ws: seq<Behaviour>)
    requires Valid(sig) && i < |StableList.Order(sig)| && p == i + 2
    requires forall k | i < k < |StableList.Order(sig)| :: Quiet(StableList.Values(sig)[k])
    ensures var s, vs := StableList.Order(sig), StableList.Values(sig);
      var r := After(sig, s[i], ConnectSlot(b, true));
      && r == Connect(sig, b, true).0
      && t == [Connect(sig, b, true).1] + s && ws == [b] + vs
      && t == StableList.Order(r) && ws == StableList.Values(r)
      && Resumes(r, t, ws, p) && StableList.Next(r, Node(s[i])) == PtrAt(t, p)
  {
    var s, vs := StableList.Order(sig), StableList.Values(sig);
    AfterEffect(sig, s[i], ConnectSlot(b, true));
    ConnectInserts(sig, b, true);
    var r := Connect(sig, b, true).0;
    t, ws := StableList.Order(r), StableList.Values(r);
    QuietFront(vs, b, ws, i, p);
    ResumesOfValid(r, p);
    FrontNext(sig, b, t, i, i + 1, p);
  }

  /** After `connect(slot, true)` the node at position `i` sits at position
      `i + 1` and still leads to the node after it. */
  lemma {:induction false} FrontNext(sig: Signal, b: Behaviour, t: seq<nat>, i: nat, m: nat, p: nat)
    requires Valid(sig) && i < |StableList.Order(sig)|
    requires t == [Connect(sig, b, true).1] + StableList.Order(sig)
    requires m == i + 1 && p == m + 1
    ensures StableList.Next(Connect(sig, b, true).0, Node(StableList.Order(sig)[i])) == PtrAt(t, p)
  {
    ConnectInserts(sig, b, true);
    NextAt(Connect(sig, b, true).0, m, p);
    ConsAt(Connect(sig, b, true).1, StableList.Order(sig), t, i, m);
  }

  lemma {:induction false} ConsAt<T>(x: T, s: seq<T>, t: seq<T>, i: nat, m: nat)
    requires t == [x] + s && i < |s| && m == i + 1
    ensures t[m] == s[i]
  {
  }

  /** After `connect(slot)` the node at position `i` keeps its place and
      still leads to the node after it. */
  lemma {:induction false} BackNext(sig: Signal, b: Behaviour, t: seq<nat>, i: nat, p: nat)
    requires Valid(sig) && i < |StableList.Order(sig)|
    requires t == StableList.Order(sig) + [Connect(sig, b, false).1]
    requires p == i + 1
    ensures StableList.Next(Connect(sig, b, false).0, Node(StableList.Order(sig)[i])) == PtrAt(t, p)
  {
    ConnectInserts(sig, b, false);
    NextAt(Connect(sig, b, false).0, i, p);
    assert t[i] == StableList.Order(sig)[i];
  }


  lemma {:induction false} BackShape(sig: Signal, i: nat, b: Behaviour, p: nat) returns (t: seq<nat>, ws: seq<Behaviour>)
    requires Valid(sig) && i < |StableList.Order(sig)| && p == i + 1 && Quiet(b)
    requires forall k | i < k < |StableList.Order(sig)| :: Quiet(StableList.Values(sig)[k])
    ensures var s, vs := StableList.Order(sig), StableList.Values(sig);
      var r := After(sig, s[i], ConnectSlot(b, false));
      && r == Connect(sig, b, false).0
      && t == s + [Connect(sig, b, false).1] && ws == vs + [b]
      && t == StableList.Order(r) && ws == StableList.Values(r)
      && Resumes(r, t, ws, p) && StableList.Next(r, Node(s[i])) == PtrAt(t, p)
  {
    var s, vs := StableList.Order(sig), StableList.Values(sig);
    AfterEffect(sig, s[i], ConnectSlot(b, false));
    ConnectInserts(sig, b, false);
    var r := Connect(sig, b, false).0;
    t, ws := StableList.Order(r), StableList.Values(r);
    QuietBack(vs, b, ws, i, p);
    ResumesOfValid(r, p);
    BackNext(sig, b, t, i, p);
  }

  /** `ConnectFrontNotCalled` with the position two after `i` named `p`. */
  lemma {:induction false} FrontWalk(sig: Signal, th: ThreadData, i: nat, b: Behaviour, p: nat, fuel: nat)
    requires Valid(sig) && i < |StableList.Order(sig)| <= fuel && p == i + 2
    requires forall k | 0 <= k < |StableList.Order(sig)| && k != i :: Quiet(StableList.Values(sig)[k])
    requires StableList.Values(sig)[i].effects == [ConnectSlot(b, true)]
    ensures var s, vs := StableList.Order(sig), StableList.Values(sig);
      var (r, id) := Connect(sig, b, true);
      && StableList.Order(r) == [id] + s && StableList.Values(r) == [b] + vs
      && Invoke(sig, th, fuel) == Ended(r, th, s, vs, Finished)
  {
    var s, vs := StableList.Order(sig), StableList.Values(sig);
    var t, ws := FrontShape(sig, i, b, p);
    OneEffect(sig, th, i, ConnectSlot(b, true), t, ws, p, fuel);
    FrontRejoin(s, Connect(sig, b, true).1, t, i, p);
    FrontRejoin(vs, b, ws, i, p);
  }

  /** `ConnectBackCalled` with the position after `i` named `p`. */
  lemma {:induction false} BackWalk(sig: Signal, th: ThreadData, i: nat, b: Behaviour, p: nat, fuel: nat)
    requires Valid(sig) && i < |StableList.Order(sig)| < fuel && p == i + 1 && Quiet(b)
    requires forall k | 0 <= k < |StableList.Order(sig)| && k != i :: Quiet(StableList.Values(sig)[k])
    requires StableList.Values(sig)[i].effects == [ConnectSlot(b, false)]
    ensures var s, vs := StableList.Order(sig), StableList.Values(sig);
      var (r, id) := Connect(sig, b, false);
      && StableList.Order(r) == s + [id] && StableList.Values(r) == vs + [b]
      && Invoke(sig, th, fuel) == Ended(r, th, s + [id], vs + [b], Finished)
  {
    var s, vs := StableList.Order(sig), StableList.Values(sig);
    var t, ws := BackShape(sig, i, b, p);
    OneEffect(sig, th, i, ConnectSlot(b, false), t, ws, p, fuel);
    BackRejoin(s, Connect(sig, b, false).1, t, i, p);
    BackRejoin(vs, b, ws, i, p);
  }

  /** `connect(slot, true)` from the slot at position `i`: the new slot goes
      in front of the loop's position and is not called by this emission;
      every slot that was connected is called once, in order. */
  lemma {:induction false} ConnectFrontNotCalled(sig: Signal, th: ThreadData, i: nat, b: Behaviour, fuel: nat)
    requires Valid(sig) && i < |StableList.Order(sig)| <= fuel
    requires forall k | 0 <= k < |StableList.Order(sig)| && k != i :: Quiet(StableList.Values(sig)[k])
    requires StableList.Values(sig)[i].effects == [ConnectSlot(b, true)]
    ensures var s, vs := StableList.Order(sig), StableList.Values(sig);
      var (r, id) := Connect(sig, b, true);
      && StableList.Order(r) == [id] + s && StableList.Values(r) == [b] + vs
      && Invoke(sig, th, fuel) == Ended(r, th, s, vs, Finished)
  {
    FrontWalk(sig, th, i, b, i + 2, fuel);
  }

  /** `connect(slot)` from the slot at position `i`: the new slot goes at the
      end of the list, which the loop has not reached yet, so this emission
      calls it after all the others. */
  lemma {:induction false} ConnectBackCalled(sig: Signal, th: ThreadData, i: nat, b: Behaviour, fuel: nat)
    requires Valid(sig) && i < |StableList.Order(sig)| < fuel && Quiet(b)
    requires forall k | 0 <= k < |StableList.Order(sig)| && k != i :: Quiet(StableList.Values(sig)[k])
    requires StableList.Values(sig)[i].effects == [ConnectSlot(b, false)]
    ensures var s, vs := StableList.Order(sig), StableList.Values(sig);
      var (r, id) := Connect(sig, b, false);
      && StableList.Order(r) == s + [id] && StableList.Values(r) == vs + [b]
      && Invoke(sig, th, fuel) == Ended(r, th, s + [id], vs + [b], Finished)
  {
    BackWalk(sig, th, i, b, i + 1, fuel);
  }

  /** `clear()` from the slot at position `i`, after slots without side
      effects: the slots up to and including it are called, the loop then
      follows the node's `next`, which `clear()` set to `tail`, and the list
      is left empty. */
  lemma {:induction false} ClearEndsEmission(sig: Signal, th: ThreadData, i: nat, fuel: nat)
    requires Valid(sig) && i < |StableList.Order(sig)| && i < fuel
    requires forall k | 0 <= k < i :: Quiet(StableList.Values(sig)[k])
    requires StableList.Values(sig)[i].effects == [ClearSignal]
    ensures var s, vs := StableList.Order(sig), StableList.Values(sig);
      && Invoke(sig, th, fuel) == Ended(Clear(sig), th, s[..i + 1], vs[..i + 1], Finished)
      && StableList.Order(Clear(sig)) == []
  {
    var s, vs := StableList.Order(sig), StableList.Values(sig);
    var none: seq<nat>, nothing: seq<Behaviour> := [], [];
    var z: nat := 0;
    ClearLeavesTail(sig, i, none, nothing, z);
    OneEffect(sig, th, i, ClearSignal, none, nothing, z, fuel);
    NothingAfter(s, none, i, z);
    NothingAfter(vs, nothing, i, z);
  }

  /** After `clear()` the node whose slot ran leads to `tail`, with nothing
      left to call. */
  lemma {:induction false} ClearLeavesTail(sig: Signal, i: nat, t: seq<nat>, ws: seq<Behaviour>, p: nat)
    requires Valid(sig) && i < |StableList.Order(sig)| && t == [] && ws == [] && p == 0
    ensures var r := After(sig, StableList.Order(sig)[i], ClearSignal);
      && r == Clear(sig) && StableList.Order(r) == []
      && Resumes(r, t, ws, p) && StableList.Next(r, Node(StableList.Order(sig)[i])) == PtrAt(t, p)
  {
    var s := StableList.Order(sig);
    AfterEffect(sig, s[i], ClearSignal);
    ClearDisconnectsAll(sig);
    assert s[i] in s;
    assert Clear(sig).links[s[i]].next == Tail;
  }

  lemma {:induction false} NothingAfter<T>(s: seq<T>, t: seq<T>, i: nat, p: nat)
    requires i < |s| && t == [] && p == 0
    ensures s[..i + 1] + t[p..] == s[..i + 1]
  {
  }

}
