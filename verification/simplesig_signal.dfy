/** The signal of simplesig.hpp (v1.0): a `std::deque` of shared pointers to
    `functional_connection` nodes, and a `recursion_lock` that is set while
    an emission runs.

    The deque is a sequence of entries. Each entry owns its own node, named
    by an id; its slot is `Some` while connected and `None` once
    `disconnect()` has nulled it. A `connection` handle names a node by its
    id, and the node lives while its entry is in the deque. */
module SimpleSigSignal {
  import opened Optional
  import opened Slots

  /** One element of `connections`: a node and its slot. */
  datatype Entry = Entry(id: nat, slot: Option<Behaviour>)

  /** `connections` and `recursion_lock`; `nextId` names the node the next
      `connect` or copy makes. */
  datatype Signal = Signal(entries: seq<Entry>, nextId: nat, locked: bool)

  /** What every signal keeps: no node appears twice, and every id is
      below `nextId`. */
  ghost predicate Wf(sig: Signal)
  {
    && (forall i, j | 0 <= i < j < |sig.entries| :: sig.entries[i].id != sig.entries[j].id)
    && (forall i | 0 <= i < |sig.entries| :: sig.entries[i].id < sig.nextId)
  }

  /** A signal made by `signal()`. */
  function Empty(): (r: Signal)
    ensures Wf(r) && !r.locked && r.entries == []
  {
    Signal([], 0, false)
  }

  /** The ids of a run of entries, in order. */
  function Ids(es: seq<Entry>): (r: seq<nat>)
    ensures |r| == |es|
    ensures forall i | 0 <= i < |es| :: r[i] == es[i].id
  {
    seq(|es|, i requires 0 <= i < |es| => es[i].id)
  }

  /** The entries whose slot is set, in order. */
  function LiveEntries(es: seq<Entry>): (r: seq<Entry>)
    ensures |r| <= |es|
    ensures forall k | 0 <= k < |r| :: r[k].slot.Some?
    decreases |es|
  {
    if es == [] then []
    else (if es[0].slot.Some? then [es[0]] else []) + LiveEntries(es[1..])
  }

  /** The slots of a run of connected entries. */
  function SlotsOf(es: seq<Entry>): (r: seq<Behaviour>)
    requires forall k | 0 <= k < |es| :: es[k].slot.Some?
    ensures |r| == |es|
    ensures forall k | 0 <= k < |es| :: r[k] == es[k].slot.value
  {
    seq(|es|, k requires 0 <= k < |es| => es[k].slot.value)
  }

  /** The connected slots, in order. */
  function Live(es: seq<Entry>): seq<Behaviour>
  {
    SlotsOf(LiveEntries(es))
  }

  lemma LiveEntriesCons(e: Entry, es: seq<Entry>)
    ensures LiveEntries([e] + es) == (if e.slot.Some? then [e] else []) + LiveEntries(es)
  {
    assert ([e] + es)[1..] == es;
  }

  /** `Live` of a run that starts with one more entry. */
  lemma LiveCons(e: Entry, es: seq<Entry>)
    ensures Live([e] + es) == (if e.slot.Some? then [e.slot.value] else []) + Live(es)
  {
    LiveEntriesCons(e, es);
  }

  lemma {:induction false} LiveEntriesConcat(xs: seq<Entry>, ys: seq<Entry>)
    ensures LiveEntries(xs + ys) == LiveEntries(xs) + LiveEntries(ys)
    decreases |xs|
  {
    if xs == [] {
      assert xs + ys == ys;
    } else {
      assert xs + ys == [xs[0]] + (xs[1..] + ys);
      assert xs == [xs[0]] + xs[1..];
      LiveEntriesCons(xs[0], xs[1..] + ys);
      LiveEntriesCons(xs[0], xs[1..]);
      LiveEntriesConcat(xs[1..], ys);
    }
  }

  /** Entries with fresh ids `start`, `start + 1`, ... holding `bs`. */
  function Fresh(start: nat, bs: seq<Behaviour>): (r: seq<Entry>)
    ensures |r| == |bs|
    ensures forall k | 0 <= k < |bs| :: r[k] == Entry(start + k, Some(bs[k]))
  {
    seq(|bs|, k requires 0 <= k < |bs| => Entry(start + k, Some(bs[k])))
  }

  lemma FreshLive(start: nat, bs: seq<Behaviour>)
    ensures Live(Fresh(start, bs)) == bs
  {
    FreshLiveEntries(start, bs);
  }

  lemma {:induction false} FreshLiveEntries(start: nat, bs: seq<Behaviour>)
    ensures LiveEntries(Fresh(start, bs)) == Fresh(start, bs)
    decreases |bs|
  {
    if bs != [] {
      var f := Fresh(start, bs);
      assert f == [f[0]] + Fresh(start + 1, bs[1..]);
      LiveEntriesCons(f[0], Fresh(start + 1, bs[1..]));
      FreshLiveEntries(start + 1, bs[1..]);
    }
  }

  // ---------------------------------------------------------------------------
  // Operations.
  // ---------------------------------------------------------------------------

  /** `connect(slot, first)`: a fresh node, pushed to the front with
      `first` and to the back otherwise. Returns the signal and the node. */
  function Connect(sig: Signal, slot: Behaviour, first: bool): (Signal, nat)
  {
    var e := Entry(sig.nextId, Some(slot));
    (sig.(entries := if first then [e] + sig.entries else sig.entries + [e], nextId := sig.nextId + 1), sig.nextId)
  }

  /** `functional_connection::disconnect()` on node `id`: `slot = nullptr`. */
  function NullSlot(sig: Signal, id: nat): (r: Signal)
    ensures |r.entries| == |sig.entries|
  {
    sig.(entries := seq(|sig.entries|, i requires 0 <= i < |sig.entries| =>
      if sig.entries[i].id == id then sig.entries[i].(slot := None) else sig.entries[i]))
  }

  /** `clear()`: while an emission runs, only disconnect every node; at
      rest, empty the deque. */
  function Clear(sig: Signal): Signal
  {
    if sig.locked then
      sig.(entries := seq(|sig.entries|, i requires 0 <= i < |sig.entries| => sig.entries[i].(slot := None)))
    else sig.(entries := [])
  }

  /** `signal(signal const&)`: a fresh node for every connected entry of
      `src`, in order. The copy is not emitting. */
  function Copy(src: Signal): Signal
  {
    var bs := Live(src.entries);
    Signal(Fresh(0, bs), |bs|, false)
  }

  /** `operator=(signal const&)`. `aliased` is `this == &rhs`, which makes it
      a no-op; otherwise the target must not be emitting (the source
      asserts it), its deque is cleared and the connected entries of `src`
      are appended as fresh nodes. */
  function CopyAssign(dst: Signal, src: Signal, aliased: bool): Signal
    requires aliased ==> dst == src
    requires !aliased ==> !dst.locked
  {
    if aliased then dst
    else
      var bs := Live(src.entries);
      dst.(entries := Fresh(dst.nextId, bs), nextId := dst.nextId + |bs|)
  }

  /** `signal(signal&&)`: the new signal takes the deque; the moved-from
      deque is left empty. The source asserts `rhs` is not emitting. */
  function Move(rhs: Signal): (Signal, Signal)
    requires !rhs.locked
  {
    (Signal(rhs.entries, rhs.nextId, false), rhs.(entries := []))
  }

  /** `operator=(signal&&)`: both must be at rest; `dst` takes the deque. */
  function MoveAssign(dst: Signal, rhs: Signal): (Signal, Signal)
    requires !dst.locked && !rhs.locked
  {
    (dst.(entries := rhs.entries, nextId := rhs.nextId), rhs.(entries := []))
  }

  /** `swap(other)`: both must be at rest; the deques change places. */
  function Swap(a: Signal, b: Signal): (Signal, Signal)
    requires !a.locked && !b.locked
  {
    (a.(entries := b.entries, nextId := b.nextId), b.(entries := a.entries, nextId := a.nextId))
  }

  // ---------------------------------------------------------------------------
  // Properties of the operations.
  // ---------------------------------------------------------------------------

  /** `connect` places the new connected entry at the front or the back,
      leaves the others alone, and keeps the signal well formed. */
  lemma ConnectPlaces(sig: Signal, slot: Behaviour, first: bool)
    requires Wf(sig)
    ensures var (r, id) := Connect(sig, slot, first);
      && Wf(r) && r.locked == sig.locked
      && id !in Ids(sig.entries)
      && Live(r.entries) == (if first then [slot] + Live(sig.entries) else Live(sig.entries) + [slot])
      && Ids(r.entries) == (if first then [id] + Ids(sig.entries) else Ids(sig.entries) + [id])
  {
    var (r, id) := Connect(sig, slot, first);
    var e := Entry(id, Some(slot));
    ConnectWf(sig, e, r.entries);
    PlacedLive(sig.entries, e, first);
    PlacedIds(sig.entries, e, first);
  }

  lemma ConnectWf(sig: Signal, e: Entry, es: seq<Entry>)
    requires Wf(sig) && e.id == sig.nextId
    requires es == [e] + sig.entries || es == sig.entries + [e]
    ensures Wf(sig.(entries := es, nextId := sig.nextId + 1))
    ensures e.id !in Ids(sig.entries)
  {
  }

  lemma PlacedLive(es: seq<Entry>, e: Entry, first: bool)
    requires e.slot.Some?
    ensures Live(if first then [e] + es else es + [e]) == (if first then [e.slot.value] + Live(es) else Live(es) + [e.slot.value])
  {
    if first {
      LiveCons(e, es);
    } else {
      LiveEntriesConcat(es, [e]);
      LiveEntriesCons(e, []);
      assert [e] + [] == [e];
    }
  }

  lemma PlacedIds(es: seq<Entry>, e: Entry, first: bool)
    ensures Ids(if first then [e] + es else es + [e]) == (if first then [e.id] + Ids(es) else Ids(es) + [e.id])
  {
  }

  /** Nulling a slot keeps every node in place and disconnects exactly the
      node `id`. */
  lemma NullSlotKeeps(sig: Signal, id: nat)
    requires Wf(sig)
    ensures var r := NullSlot(sig, id);
      && Wf(r) && r.locked == sig.locked && r.nextId == sig.nextId
      && Ids(r.entries) == Ids(sig.entries)
      && (forall i | 0 <= i < |r.entries| :: r.entries[i].slot == (if sig.entries[i].id == id then None else sig.entries[i].slot))
  {
  }

  /** `clear()` leaves no slot connected. While an emission runs it keeps
      every node where it is; at rest it empties the deque. */
  lemma ClearDisconnects(sig: Signal)
    requires Wf(sig)
    ensures var r := Clear(sig);
      && Wf(r) && r.locked == sig.locked
      && Live(r.entries) == []
      && (sig.locked ==> Ids(r.entries) == Ids(sig.entries))
      && (!sig.locked ==> r.entries == [])
  {
    var r := Clear(sig);
    NoneLive(r.entries);
  }

  /** A run of disconnected entries has no live entry. */
  lemma {:induction false} NoneLive(es: seq<Entry>)
    requires forall i | 0 <= i < |es| :: es[i].slot.None?
    ensures LiveEntries(es) == []
    decreases |es|
  {
    if es != [] {
      NoneLive(es[1..]);
    }
  }

  /** The copy holds the connected slots of `src`, in order, each in a new
      node, and nothing else. */
  lemma CopyKeepsLive(src: Signal)
    ensures var r := Copy(src);
      && Wf(r) && !r.locked
      && Live(r.entries) == Live(src.entries)
      && |r.entries| == |Live(src.entries)|
  {
    FreshLive(0, Live(src.entries));
  }

  /** Copy assignment to itself changes nothing; otherwise the target ends
      up holding fresh nodes for the connected slots of `src`, in order. */
  lemma CopyAssignReplaces(dst: Signal, src: Signal, aliased: bool)
    requires Wf(dst)
    requires aliased ==> dst == src
    requires !aliased ==> !dst.locked
    ensures var r := CopyAssign(dst, src, aliased);
      && (aliased ==> r == dst)
      && (!aliased ==> Wf(r) && !r.locked && Live(r.entries) == Live(src.entries) && |r.entries| == |Live(src.entries)|)
  {
    if !aliased {
      FreshLive(dst.nextId, Live(src.entries));
    }
  }

  /** Moving hands the whole deque over and leaves the source empty. */
  lemma MoveTransfers(rhs: Signal)
    requires Wf(rhs) && !rhs.locked
    ensures var (r, rest) := Move(rhs);
      && Wf(r) && Wf(rest) && !r.locked && !rest.locked
      && r.entries == rhs.entries && rest.entries == []
  {
  }

  lemma MoveAssignTransfers(dst: Signal, rhs: Signal)
    requires Wf(dst) && Wf(rhs) && !dst.locked && !rhs.locked
    ensures var (r, rest) := MoveAssign(dst, rhs);
      && Wf(r) && Wf(rest) && !r.locked && !rest.locked
      && r.entries == rhs.entries && rest.entries == []
  {
  }

  /** `swap` exchanges the deques, and swapping back restores both signals. */
  lemma SwapExchanges(a: Signal, b: Signal)
    requires Wf(a) && Wf(b) && !a.locked && !b.locked
    ensures var (a', b') := Swap(a, b);
      && Wf(a') && Wf(b')
      && a'.entries == b.entries && b'.entries == a.entries
      && Swap(a', b') == (a, b)
  {
  }

  // ---------------------------------------------------------------------------
  // `connection` handles.
  // ---------------------------------------------------------------------------

  /** A `connection`: a weak reference to a node, `None` once reset. */
  datatype Connection = Connection(node: Option<nat>)

  /** `base.lock()`: the node, while its entry is in the deque. */
  function Lock(sig: Signal, c: Connection): (r: Option<nat>)
    ensures r.Some? ==> r == c.node && r.value in Ids(sig.entries)
  {
    if c.node.Some? && c.node.value in Ids(sig.entries) then c.node else None
  }

  /** `connection::connected()`: the node is alive and its slot is set. */
  predicate IsConnected(sig: Signal, c: Connection)
  {
    exists i | 0 <= i < |sig.entries| :: c.node == Some(sig.entries[i].id) && sig.entries[i].slot.Some?
  }

  /** `signal::connect(slot, first)` with the handle it returns. */
  function ConnectHandle(sig: Signal, slot: Behaviour, first: bool): (Signal, Connection)
  {
    var (r, id) := Connect(sig, slot, first);
    (r, Connection(Some(id)))
  }

  /** `connection::disconnect()`: null the node's slot if the node is
      alive, then reset the handle. */
  function Disconnect(sig: Signal, c: Connection): (Signal, Connection)
  {
    var n := Lock(sig, c);
    (if n.Some? then NullSlot(sig, n.value) else sig, Connection(None))
  }

  /** The handle `connect` returns is connected. */
  lemma ConnectHandleConnects(sig: Signal, slot: Behaviour, first: bool)
    requires Wf(sig)
    ensures var (r, h) := ConnectHandle(sig, slot, first);
      && Wf(r) && IsConnected(r, h) && Lock(r, h) == h.node
  {
    ConnectPlaces(sig, slot, first);
    var (r, h) := ConnectHandle(sig, slot, first);
    var i := if first then 0 else |sig.entries|;
    assert r.entries[i] == Entry(sig.nextId, Some(slot));
  }

  /** After `disconnect()` neither the reset handle nor an earlier copy of
      it is connected, no entry leaves the deque, and disconnecting again
      changes nothing. */
  lemma DisconnectEnds(sig: Signal, c: Connection)
    requires Wf(sig)
    ensures var (r, c') := Disconnect(sig, c);
      && Wf(r) && Ids(r.entries) == Ids(sig.entries)
      && c' == Connection(None) && !IsConnected(r, c') && !IsConnected(r, c)
      && Disconnect(r, c).0 == r
  {
    var (r, c') := Disconnect(sig, c);
    var n := Lock(sig, c);
    if n.Some? {
      NullSlotKeeps(sig, n.value);
      assert Lock(r, c) == n;
      assert NullSlot(r, n.value).entries == r.entries;
    } else {
      if IsConnected(sig, c) {
        var i :| 0 <= i < |sig.entries| && c.node == Some(sig.entries[i].id) && sig.entries[i].slot.Some?;
        assert Ids(sig.entries)[i] == sig.entries[i].id;
      }
    }
  }

  /** `clear()` at rest drops every node, so every handle expires. While an
      emission runs it keeps every node, so a handle still locks to its
      node (and compares as before) although no handle is connected. */
  lemma ClearAndHandles(sig: Signal, c: Connection)
    requires Wf(sig)
    ensures !IsConnected(Clear(sig), c)
    ensures !sig.locked ==> Lock(Clear(sig), c) == None
    ensures sig.locked ==> Lock(Clear(sig), c) == Lock(sig, c)
  {
    ClearDisconnects(sig);
  }
}
