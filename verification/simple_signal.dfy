/** The signal of simple.hpp (v1.1): a `stable_list` of shared pointers to
    `functional_connection` nodes, a weak `connection` handle, and the
    emission loop that erases disconnected entries as it meets them.

    Every entry of the list owns its own node (`connect` and the copies each
    make a fresh one), so a node is named by the id of its link and the
    link's value is the node's slot: `Some` while connected, `None` once
    `disconnect()` has nulled it. A disconnected entry stays in the list
    until an emission reaches it and erases it. */
module SimpleSignal {
  import opened Links
  import opened Optional
  import opened Slots
  import StableList
  import Collectors

  /** `functional_connection::slot`: the callable, or null. */
  type Slot = Option<Behaviour>

  /** A signal's `connections`. */
  type Signal = StableList.List<Slot>

  // ---------------------------------------------------------------------------
  // The invariants.
  // ---------------------------------------------------------------------------

  /** An iterator a loop can stand on: `end()`, or a link of the list (in
      the list or already erased from it). */
  predicate Leads(sig: Signal, p: Ptr)
  {
    p == Tail || (p.Node? && p.id in sig.links)
  }

  /** `head->next` and every link's `next` lead to `tail` or to a link, so
      an iterator that steps forward never meets a null pointer. */
  ghost predicate Closed(sig: Signal)
  {
    && Leads(sig, sig.first)
    && (forall id {:trigger sig.links[id]} | id in sig.links :: Leads(sig, sig.links[id].next))
  }

  /** What the signal keeps between operations: the links between the
      sentinels are consistent, `size()` counts them as a `std::size_t`
      does (modulo 2^64), and the list is `Closed`. */
  ghost predicate Counted(sig: Signal)
  {
    && StableList.Repr(sig, StableList.Order(sig))
    && sig.elements == StableList.Wrapped(|StableList.Order(sig)|)
    && Closed(sig)
  }

  /** A well-formed list is counted exactly, and every well-formed list
      that is `Closed` is `Counted`. */
  lemma ValidCounted(sig: Signal)
    requires StableList.Valid(sig) && Closed(sig)
    ensures Counted(sig)
  {
  }

  /** `Counted`, with the ordering named: `s` is the sequence of links from
      `head` to `tail`. */
  ghost predicate CountedAs(sig: Signal, s: seq<nat>)
  {
    StableList.Repr(sig, s) && sig.elements == StableList.Wrapped(|s|) && Closed(sig)
  }

  /** A `Counted` list with fewer than 2^64 entries is well formed. */
  lemma CountedValid(sig: Signal)
    requires Counted(sig) && |StableList.Order(sig)| < StableList.SIZE_MODULUS
    ensures StableList.Valid(sig)
  {
  }

  /** A fresh signal: an empty list. */
  lemma EmptyCounted()
    ensures StableList.Valid(StableList.Empty<Slot>()) && Counted(StableList.Empty<Slot>())
    ensures StableList.Order(StableList.Empty<Slot>()) == []
  {
    StableList.EmptyValid<Slot>();
  }

  // ---------------------------------------------------------------------------
  // The operations the signal and its slots perform on the list.
  // ---------------------------------------------------------------------------

  /** `functional_connection::disconnect()` on the node of link `id`:
      `slot = nullptr`. The entry stays where it is. */
  function NullSlot(sig: Signal, id: nat): (r: Signal)
    ensures r.links.Keys == sig.links.Keys
  {
    if id in sig.links then sig.(links := sig.links[id := sig.links[id].(value := None)]) else sig
  }

  /** `connect(slot, first)`: a fresh node holding `slot`, placed with
      `emplace_front` or `emplace_back`. Returns the list and the new link's id. */
  function Connect(sig: Signal, slot: Behaviour, first: bool): (Signal, nat)
  {
    StableList.MakeLink(sig, if first then sig.first else Tail, Some(slot))
  }

  /** `clear()`: `connections.clear()`, that is `erase(begin(), end())`. */
  function Clear(sig: Signal): (r: Signal)
    ensures r.links.Keys == sig.links.Keys
  {
    ClearKeepsLinks(sig);
    StableList.Clear(sig)
  }

  /** `erase(begin(), end())` rewires links but frees none. */
  lemma ClearKeepsLinks(sig: Signal)
    ensures StableList.Clear(sig).links.Keys == sig.links.Keys
  {
    var fp := StableList.Prev(sig, sig.first);
    UnlinkRunShape(sig, sig.first, Tail, fp, |sig.links|);
  }

  /** Nulling a slot changes only that slot: the links keep their places. */
  lemma NullSlotKeeps(sig: Signal, id: nat)
    requires Counted(sig)
    ensures var r := NullSlot(sig, id);
      && Counted(r)
      && StableList.Order(r) == StableList.Order(sig)
      && (id in sig.links ==> r.links[id].value == None)
      && (forall x {:trigger r.links[x]} | x in sig.links && x != id :: r.links[x] == sig.links[x])
  {
    var s := StableList.Order(sig);
    var r := NullSlot(sig, id);
    assert forall k {:trigger r.links[s[k]]} | 0 <= k < |s| :: r.links[s[k]].next == sig.links[s[k]].next;
    assert forall k {:trigger r.links[s[k]]} | 0 <= k < |s| :: r.links[s[k]].prev == sig.links[s[k]].prev;
    assert StableList.Repr(r, s);
    StableList.OrderOfRepr(r, s);
  }

  /** Nulling a slot leaves every pointer alone. */
  lemma NullSlotClosed(sig: Signal, id: nat)
    requires Closed(sig)
    ensures Closed(NullSlot(sig, id))
  {
    var r := NullSlot(sig, id);
    assert forall x {:trigger r.links[x]} | x in r.links :: x in sig.links && r.links[x].next == sig.links[x].next;
  }

  /** `p->next = q` keeps the list `Closed` when `q` is an iterator a loop
      can stand on. */
  lemma SetNextClosed(sig: Signal, p: Ptr, q: Ptr)
    requires Closed(sig) && Leads(sig, q)
    ensures Closed(StableList.SetNext(sig, p, q))
  {
    var r := StableList.SetNext(sig, p, q);
    if p.Node? && p.id in sig.links {
      forall id | id in r.links
        ensures Leads(r, r.links[id].next)
      {
        if id != p.id {
          assert r.links[id] == sig.links[id];
        }
      }
    }
  }

  /** `p->prev = q` leaves every `next` alone. */
  lemma SetPrevClosed(sig: Signal, p: Ptr, q: Ptr)
    requires Closed(sig)
    ensures Closed(StableList.SetPrev(sig, p, q))
  {
    var r := StableList.SetPrev(sig, p, q);
    assert forall id {:trigger r.links[id]} | id in r.links :: id in sig.links && r.links[id].next == sig.links[id].next;
  }

  /** `p->next = n; n->prev = p` keeps the list `Closed` when `n` is an
      iterator a loop can stand on. */
  lemma RewireClosed(sig: Signal, p: Ptr, n: Ptr)
    requires Closed(sig) && Leads(sig, n)
    ensures Closed(StableList.Rewire(sig, p, n))
  {
    SetNextClosed(sig, p, n);
    SetPrevClosed(StableList.SetNext(sig, p, n), n, p);
  }

  /** `erase(pos)` keeps the list `Closed`, and the iterator it returns is
      one a loop can stand on. */
  lemma EraseClosed(sig: Signal, pos: Ptr)
    requires Closed(sig) && pos.Node? && pos.id in sig.links
    ensures var (r, next) := StableList.Erase(sig, pos);
      Closed(r) && Leads(r, next)
  {
    RewireClosed(sig, StableList.Prev(sig, pos), StableList.Next(sig, pos));
  }

  /** `make_link(pos, value)` keeps the list `Closed`. */
  lemma MakeLinkClosed(sig: Signal, pos: Ptr, v: Slot)
    requires Closed(sig) && Leads(sig, pos)
    ensures Closed(StableList.MakeLink(sig, pos, v).0)
  {
    var id := sig.nextId;
    var p := StableList.Prev(sig, pos);
    var l1 := sig.(links := sig.links[id := StableList.Link(v, p, pos)], nextId := sig.nextId + 1);
    forall x | x in l1.links
      ensures Leads(l1, l1.links[x].next)
    {
      if x != id {
        assert l1.links[x] == sig.links[x];
      }
    }
    SetNextClosed(l1, p, Node(id));
    var l2 := StableList.SetNext(l1, p, Node(id));
    SetPrevClosed(l2, pos, Node(id));
    var l3 := StableList.SetPrev(l2, pos, Node(id));
    RecountClosed(l3, StableList.Inc(sig.elements));
    assert StableList.MakeLink(sig, pos, v).0 == l3.(elements := StableList.Inc(sig.elements));
  }

  /** `Closed` does not look at the counter. */
  lemma RecountClosed(sig: Signal, n: nat)
    requires Closed(sig)
    ensures Closed(sig.(elements := n))
  {
    var r := sig.(elements := n);
    assert forall x {:trigger r.links[x]} | x in r.links :: r.links[x] == sig.links[x];
  }

  /** The loop of `erase(first, last)` leaves every link pointing where it
      did, or at `last`. */
  lemma {:induction false} UnlinkRunShape(sig: Signal, link: Ptr, last: Ptr, fp: Ptr, fuel: nat)
    ensures var r := StableList.UnlinkRun(sig, link, last, fp, fuel);
      && r.links.Keys == sig.links.Keys && r.first == sig.first
      && (forall x {:trigger r.links[x]} | x in sig.links :: r.links[x].next == sig.links[x].next || r.links[x].next == last)
    decreases fuel
  {
    if fuel == 0 || link == last || !link.Node? || link.id !in sig.links {
    } else {
      var next := sig.links[link.id].next;
      var l' := sig.(links := sig.links[link.id := sig.links[link.id].(prev := fp, next := last)],
                     elements := StableList.Dec(sig.elements));
      UnlinkRunShape(l', next, last, fp, fuel - 1);
    }
  }

  /** `clear()` keeps the list `Closed`: every link it takes out points at `tail`. */
  lemma ClearClosed(sig: Signal)
    requires Closed(sig)
    ensures Closed(Clear(sig))
  {
    var fp := StableList.Prev(sig, sig.first);
    var l1 := StableList.UnlinkRun(sig, sig.first, Tail, fp, |sig.links|);
    UnlinkRunShape(sig, sig.first, Tail, fp, |sig.links|);
    assert Closed(l1);
    RewireClosed(l1, fp, Tail);
  }

  /** `Counted` from an explicit ordering. */
  lemma CountedOf(sig: Signal, s: seq<nat>, n: int)
    requires StableList.Repr(sig, s) && |s| == n && sig.elements == StableList.Wrapped(n) && Closed(sig)
    ensures Counted(sig) && StableList.Order(sig) == s
  {
    StableList.OrderOfRepr(sig, s);
  }

  /** `erase(pos)` on an entry of a `Counted` list removes exactly it, keeps
      the list `Counted`, and returns the entry's successor. */
  lemma EraseCounted(sig: Signal, pos: Ptr)
    requires Counted(sig) && pos.Node? && pos.id in StableList.Order(sig)
    ensures Counted(StableList.Erase(sig, pos).0)
  {
    var s := StableList.Order(sig);
    EraseCountedAt(sig, s, IndexOf(s, pos.id), pos);
  }

  lemma EraseCountedAt(sig: Signal, s: seq<nat>, i: nat, pos: Ptr)
    requires StableList.Repr(sig, s) && sig.elements == StableList.Wrapped(|s|) && Closed(sig)
    requires i < |s| && pos == Node(s[i])
    ensures Counted(StableList.Erase(sig, pos).0)
    ensures StableList.Order(StableList.Erase(sig, pos).0) == s[..i] + s[i + 1..]
    ensures StableList.Erase(sig, pos).1 == PtrAt(s, i + 1)
  {
    EraseCountedAs(sig, s, i, pos);
    CountedOf(StableList.Erase(sig, pos).0, s[..i] + s[i + 1..], |s| - 1);
  }

  /** `EraseCountedAt` with the ordering after the erase named. */
  lemma EraseCountedAs(sig: Signal, s: seq<nat>, i: nat, pos: Ptr)
    requires CountedAs(sig, s) && i < |s| && pos == Node(s[i])
    ensures CountedAs(StableList.Erase(sig, pos).0, s[..i] + s[i + 1..])
    ensures StableList.Erase(sig, pos).1 == PtrAt(s, i + 1)
  {
    EraseReprAt(sig, s, i, pos);
    EraseClosed(sig, pos);
    EraseElements(sig, pos, |s|);
    CountedAsOf(StableList.Erase(sig, pos).0, s[..i] + s[i + 1..], |s| - 1);
  }

  lemma CountedAsOf(sig: Signal, s: seq<nat>, n: int)
    requires StableList.Repr(sig, s) && |s| == n && sig.elements == StableList.Wrapped(n) && Closed(sig)
    ensures CountedAs(sig, s)
  {
    StableList.SameWrapped(n, |s|);
  }

  lemma EraseReprAt(sig: Signal, s: seq<nat>, i: nat, pos: Ptr)
    requires StableList.Repr(sig, s) && i < |s| && pos == Node(s[i])
    ensures StableList.Repr(StableList.Erase(sig, pos).0, s[..i] + s[i + 1..])
    ensures StableList.Erase(sig, pos).1 == PtrAt(s, i + 1)
  {
    StableList.EraseBypasses(sig, s, i);
    StableList.BypassedRepr(sig, StableList.Erase(sig, pos).0, s, i, i + 1);
  }

  /** `connect` on a `Counted` list puts the new entry at the front or the
      back and keeps the list `Counted`. */
  lemma ConnectCounted(sig: Signal, slot: Behaviour, first: bool)
    requires Counted(sig)
    ensures var (r, id) := Connect(sig, slot, first);
      var s := StableList.Order(sig);
      && Counted(r)
      && id !in sig.links && id in r.links && r.links[id].value == Some(slot)
      && StableList.Order(r) == (if first then [id] + s else s + [id])
  {
    var s := StableList.Order(sig);
    var i := if first then 0 else |s|;
    assert PtrAt(s, i) == (if first then sig.first else Tail);
    MakeLinkCountedAt(sig, s, i, Some(slot));
    StableList.SpliceEnds(s, sig.nextId);
  }

  lemma MakeLinkCountedAt(sig: Signal, s: seq<nat>, i: nat, v: Slot)
    requires StableList.Repr(sig, s) && sig.elements == StableList.Wrapped(|s|) && Closed(sig) && i <= |s|
    ensures var (r, id) := StableList.MakeLink(sig, PtrAt(s, i), v);
      && Counted(r)
      && id == sig.nextId && id !in sig.links && id in r.links && r.links[id].value == v
      && StableList.Order(r) == s[..i] + [id] + s[i..]
  {
    MakeLinkReprAt(sig, s, i, v);
    MakeLinkClosed(sig, PtrAt(s, i), v);
    MakeLinkElements(sig, PtrAt(s, i), v, |s|);
    CountedOf(StableList.MakeLink(sig, PtrAt(s, i), v).0, s[..i] + [sig.nextId] + s[i..], |s| + 1);
  }

  lemma MakeLinkReprAt(sig: Signal, s: seq<nat>, i: nat, v: Slot)
    requires StableList.Repr(sig, s) && i <= |s|
    ensures var r := StableList.MakeLink(sig, PtrAt(s, i), v).0;
      && StableList.Repr(r, s[..i] + [sig.nextId] + s[i..])
      && sig.nextId !in sig.links && sig.nextId in r.links && r.links[sig.nextId].value == v
  {
    StableList.MakeLinkRepr(sig, s, i, v);
  }

  /** `clear()` on a `Counted` list empties it and sets `size()` to zero. */
  lemma ClearCounted(sig: Signal)
    requires Counted(sig)
    ensures Counted(Clear(sig)) && StableList.Order(Clear(sig)) == []
  {
    ClearCountedAt(sig, StableList.Order(sig));
  }

  lemma ClearCountedAt(sig: Signal, s: seq<nat>)
    requires StableList.Repr(sig, s) && sig.elements == StableList.Wrapped(|s|) && Closed(sig)
    ensures Counted(Clear(sig)) && StableList.Order(Clear(sig)) == []
  {
    ClearReprAt(sig, s);
    ClearCountZero(sig, s);
    ClearClosed(sig);
    CountedOf(Clear(sig), [], 0);
  }

  lemma ClearCountZero(sig: Signal, s: seq<nat>)
    requires StableList.Repr(sig, s) && sig.elements == StableList.Wrapped(|s|)
    ensures Clear(sig).elements == StableList.Wrapped(0)
  {
    StableList.ClearCount(sig, s);
    ClearElements(sig.elements, Clear(sig).elements, |s|);
  }

  lemma ClearReprAt(sig: Signal, s: seq<nat>)
    requires StableList.Repr(sig, s) && sig.elements < StableList.SIZE_MODULUS
    ensures StableList.Repr(Clear(sig), [])
  {
    var r := Clear(sig);
    assert sig.first == PtrAt(s, 0) && Tail == PtrAt(s, |s|);
    StableList.EraseRangeBypasses(sig, s, 0, |s|);
    StableList.BypassedRepr(sig, r, s, 0, |s|);
    assert s[..0] + s[|s|..] == [];
  }

  /** Taking `n` off a counter that holds `n` modulo 2^64 leaves zero. */
  lemma ClearElements(e: nat, r: nat, n: int)
    requires e == StableList.Wrapped(n) && r == StableList.Wrapped(e - n)
    ensures r == StableList.Wrapped(0)
  {
    var q := n / StableList.SIZE_MODULUS;
    assert StableList.Wrapped(n) - n == -q * StableList.SIZE_MODULUS;
    StableList.ModShift(0, -q);
  }

  /** `erase` takes one off a counter that holds `n` modulo 2^64. */
  lemma EraseElements(sig: Signal, pos: Ptr, n: int)
    requires sig.elements == StableList.Wrapped(n)
    ensures StableList.Erase(sig, pos).0.elements == StableList.Wrapped(n - 1)
  {
    StableList.CounterSteps(n);
  }

  /** `make_link` adds one to a counter that holds `n` modulo 2^64. */
  lemma MakeLinkElements(sig: Signal, pos: Ptr, v: Slot, n: int)
    requires sig.elements == StableList.Wrapped(n)
    ensures StableList.MakeLink(sig, pos, v).0.elements == StableList.Wrapped(n + 1)
  {
    StableList.CounterSteps(n);
  }

  /** `erase` moves pointers only: every link keeps its value. */
  lemma EraseKeepsValues(sig: Signal, pos: Ptr)
    ensures forall x {:trigger StableList.Erase(sig, pos).0.links[x]} | x in sig.links ::
      StableList.Erase(sig, pos).0.links[x].value == sig.links[x].value
  {
  }

  /** Erasing the entry at index `i` of the ordering `s` removes its value
      from the values along `s`. */
  lemma EraseValuesAt(sig: Signal, s: seq<nat>, i: nat, pos: Ptr)
    requires forall k | 0 <= k < |s| :: s[k] in sig.links
    requires i < |s| && pos == Node(s[i])
    ensures StableList.ValuesOf(StableList.Erase(sig, pos).0, s[..i] + s[i + 1..])
         == StableList.ValuesOf(sig, s)[..i] + StableList.ValuesOf(sig, s)[i + 1..]
  {
    var r := StableList.Erase(sig, pos).0;
    EraseKeepsValues(sig, pos);
    StableList.CutValues(sig, r, s, i, i + 1);
  }

  // ---------------------------------------------------------------------------
  // The connected entries.
  // ---------------------------------------------------------------------------

  /** The slots of the entries that are connected, in order. */
  function Present(vs: seq<Slot>): (bs: seq<Behaviour>)
    ensures |bs| <= |vs|
  {
    if vs == [] then [] else (if vs[0].Some? then [vs[0].value] else []) + Present(vs[1..])
  }

  /** The ids of the entries that are connected, in order. */
  function LiveIds(s: seq<nat>, vs: seq<Slot>): (r: seq<nat>)
    requires |s| == |vs|
    ensures |r| == |Present(vs)|
  {
    if s == [] then [] else (if vs[0].Some? then [s[0]] else []) + LiveIds(s[1..], vs[1..])
  }

  /** Entries holding the given slots. */
  function Wrap(bs: seq<Behaviour>): (vs: seq<Slot>)
    ensures |vs| == |bs|
    ensures forall i | 0 <= i < |bs| :: vs[i] == Some(bs[i])
  {
    seq(|bs|, i requires 0 <= i < |bs| => Some(bs[i]))
  }

  /** Every connected entry holds a slot with no side effects. */
  predicate AllQuiet(vs: seq<Slot>)
  {
    forall i | 0 <= i < |vs| :: vs[i].Some? ==> Quiet(vs[i].value)
  }

  /** `Present` keeps exactly the connected slots: a slot is in it if and
      only if some entry holds it. */
  lemma {:induction false} PresentMembers(vs: seq<Slot>, b: Behaviour)
    ensures b in Present(vs) <==> Some(b) in vs
    decreases |vs|
  {
    if vs != [] {
      PresentMembers(vs[1..], b);
      assert vs == [vs[0]] + vs[1..];
    }
  }

  /** Entries that are all connected are given back unchanged by `Present`,
      and `Wrap` undoes `Present` on them. */
  lemma {:induction false} PresentWrap(bs: seq<Behaviour>)
    ensures Present(Wrap(bs)) == bs
    decreases |bs|
  {
    if bs != [] {
      assert Wrap(bs)[1..] == Wrap(bs[1..]);
      PresentWrap(bs[1..]);
    }
  }

  /** Every entry of `Wrap(bs)` is connected, so `LiveIds` keeps them all. */
  lemma {:induction false} LiveIdsWrap(s: seq<nat>, bs: seq<Behaviour>)
    requires |s| == |bs|
    ensures LiveIds(s, Wrap(bs)) == s
    decreases |s|
  {
    if s != [] {
      assert Wrap(bs)[1..] == Wrap(bs[1..]);
      LiveIdsWrap(s[1..], bs[1..]);
    }
  }

  /** The first entry and the rest. */
  lemma PresentCons(v: Slot, vs: seq<Slot>)
    ensures Present([v] + vs) == (if v.Some? then [v.value] else []) + Present(vs)
  {
    assert ([v] + vs)[1..] == vs;
  }

  lemma LiveIdsCons(x: nat, s: seq<nat>, v: Slot, vs: seq<Slot>)
    requires |s| == |vs|
    ensures LiveIds([x] + s, [v] + vs) == (if v.Some? then [x] else []) + LiveIds(s, vs)
  {
    assert ([x] + s)[1..] == s;
    assert ([v] + vs)[1..] == vs;
  }

  /** The last entry and the rest. */
  lemma {:induction false} PresentSnoc(vs: seq<Slot>, v: Slot)
    ensures Present(vs + [v]) == Present(vs) + (if v.Some? then [v.value] else [])
    decreases |vs|
  {
    if vs == [] {
      assert vs + [v] == [v] + [];
      PresentCons(v, []);
    } else {
      var h, t := vs[0], vs[1..];
      assert vs == [h] + t;
      assert vs + [v] == [h] + (t + [v]);
      PresentCons(h, t + [v]);
      PresentCons(h, t);
      PresentSnoc(t, v);
    }
  }

  lemma WrapSnoc(bs: seq<Behaviour>, b: Behaviour)
    ensures Wrap(bs + [b]) == Wrap(bs) + [Some(b)]
  {
  }

  lemma WrapCons(b: Behaviour, bs: seq<Behaviour>)
    ensures Wrap([b] + bs) == [Some(b)] + Wrap(bs)
  {
  }

  // ---------------------------------------------------------------------------
  // Copies.
  // ---------------------------------------------------------------------------

  /** `connect(slot)` appends exactly one connected entry to the values. */
  lemma ConnectBackValues(sig: Signal, slot: Behaviour)
    requires Counted(sig)
    ensures Counted(Connect(sig, slot, false).0)
    ensures StableList.Values(Connect(sig, slot, false).0) == StableList.Values(sig) + [Some(slot)]
  {
    var s := StableList.Order(sig);
    var r := Connect(sig, slot, false).0;
    ConnectCounted(sig, slot, false);
    assert StableList.MakeLink(sig, Tail, Some(slot)).1 == sig.nextId;
    AppendValues(sig, s, slot, r);
  }

  lemma AppendValues(sig: Signal, s: seq<nat>, slot: Behaviour, r: Signal)
    requires StableList.Repr(sig, s) && r == StableList.MakeLink(sig, Tail, Some(slot)).0
    ensures forall k | 0 <= k < |s| + 1 :: (s + [sig.nextId])[k] in r.links
    ensures StableList.ValuesOf(r, s + [sig.nextId]) == StableList.ValuesOf(sig, s) + [Some(slot)]
  {
    assert PtrAt(s, |s|) == Tail;
    StableList.MakeLinkRepr(sig, s, |s|, Some(slot));
    StableList.InsertValues(sig, r, s, |s|, sig.nextId, Some(slot));
    assert s[..|s|] + [sig.nextId] + s[|s|..] == s + [sig.nextId];
    var vs := StableList.ValuesOf(sig, s);
    assert vs[..|s|] + [Some(slot)] + vs[|s|..] == vs + [Some(slot)];
  }

  /** The loop of the copy constructor and of copy assignment: a fresh node
      for every entry of `vs` that is still connected, appended in order;
      disconnected entries are skipped. */
  method AppendLive(start: Signal, vs: seq<Slot>) returns (r: Signal)
    requires Counted(start)
    ensures Counted(r) && StableList.Values(r) == StableList.Values(start) + Wrap(Present(vs))
  {
    r := start;
    var i := 0;
    assert vs[..0] == [];
    while i < |vs|
      invariant 0 <= i <= |vs|
      invariant Appended(start, vs, i, r)
    {
      var r' := if vs[i].Some? then Connect(r, vs[i].value, false).0 else r;
      AppendStep(start, vs, i, r, r');
      r, i := r', i + 1;
    }
    assert vs[..i] == vs;
  }

  /** The loop invariant of `AppendLive`: the first `i` entries are copied. */
  ghost predicate Appended(start: Signal, vs: seq<Slot>, i: nat, r: Signal)
    requires i <= |vs|
  {
    Counted(r) && StableList.Values(r) == StableList.Values(start) + Wrap(Present(vs[..i]))
  }

  lemma AppendStep(start: Signal, vs: seq<Slot>, i: nat, r: Signal, r': Signal)
    requires i < |vs| && Appended(start, vs, i, r)
    requires r' == if vs[i].Some? then Connect(r, vs[i].value, false).0 else r
    ensures Appended(start, vs, i + 1, r')
  {
    assert vs[..i + 1] == vs[..i] + [vs[i]];
    PresentSnoc(vs[..i], vs[i]);
    if vs[i].Some? {
      ConnectBackValues(r, vs[i].value);
      WrapSnoc(Present(vs[..i]), vs[i].value);
    }
  }

  /** `signal(signal const&)`: a new signal holding the connected slots of
      `src`, in order, each in a node of its own. */
  method Copy(src: Signal) returns (r: Signal)
    requires Counted(src)
    ensures Counted(r) && StableList.Values(r) == Wrap(Present(StableList.Values(src)))
  {
    EmptyCounted();
    r := AppendLive(StableList.Empty(), StableList.Values(src));
  }

  /** `operator=(signal const&)`. Assigning a signal to itself (`aliased`)
      changes nothing; otherwise the old entries are cleared and the
      connected slots of `src` are appended. */
  method CopyAssign(dst: Signal, src: Signal, aliased: bool) returns (r: Signal)
    requires Counted(dst) && Counted(src) && (aliased ==> dst == src)
    ensures aliased ==> r == dst
    ensures !aliased ==> Counted(r) && StableList.Values(r) == Wrap(Present(StableList.Values(src)))
  {
    if aliased {
      r := dst;
    } else {
      ClearCounted(dst);
      r := AppendLive(Clear(dst), StableList.Values(src));
    }
  }
}
