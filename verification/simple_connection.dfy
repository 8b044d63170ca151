/** The `connection` handle of simple.hpp (v1.1).

    A handle holds a `weak_ptr` to a `functional_connection` node. The node
    lives as long as its entry is in the signal's list, so `lock()` succeeds
    exactly while the entry is between the sentinels. A handle is modelled
    by the id of the entry it was made for; `None` is the empty handle that
    `disconnect()` leaves behind (`base.reset()`). */
module SimpleConnection {
  import opened Links
  import opened Optional
  import opened Slots
  import StableList
  import opened SimpleSignal

  datatype Connection = Connection(node: Option<nat>)

  /** `base.lock()`: the node, while it is still alive. */
  function Lock(sig: Signal, c: Connection): (r: Option<nat>)
    ensures r.Some? ==> r == c.node && r.value in StableList.Order(sig)
  {
    if c.node.Some? && c.node.value in StableList.Order(sig) then c.node else None
  }

  /** `connection::connected()`: the node is alive and its slot is set. */
  predicate IsConnected(sig: Signal, c: Connection)
  {
    var n := Lock(sig, c);
    n.Some? && n.value in sig.links && sig.links[n.value].value.Some?
  }

  /** `connection::operator==`: the two handles lock to the same node, or
      both fail to lock. */
  predicate SameNode(sig: Signal, a: Connection, b: Connection)
  {
    Lock(sig, a) == Lock(sig, b)
  }

  /** `signal::connect(slot, first)` with the handle it returns. */
  function ConnectHandle(sig: Signal, slot: Behaviour, first: bool): (Signal, Connection)
  {
    var (r, id) := Connect(sig, slot, first);
    (r, Connection(Some(id)))
  }

  /** `connection::disconnect()`: null the node's slot if the node is alive,
      then drop the node. */
  function Disconnect(sig: Signal, c: Connection): (Signal, Connection)
  {
    var n := Lock(sig, c);
    (if n.Some? then NullSlot(sig, n.value) else sig, Connection(None))
  }

  /** The handle `connect` returns refers to the new entry, which is
      connected and sits at the front or the back; every handle that was
      connected before still is. */
  lemma ConnectHandleConnects(sig: Signal, slot: Behaviour, first: bool)
    requires Counted(sig)
    ensures var (r, h) := ConnectHandle(sig, slot, first);
      var s := StableList.Order(sig);
      && Counted(r)
      && IsConnected(r, h)
      && h.node.Some? && h.node.value !in s
      && StableList.Order(r) == (if first then [h.node.value] + s else s + [h.node.value])
      && (forall c: Connection :: IsConnected(sig, c) ==> IsConnected(r, c))
  {
    ConnectCounted(sig, slot, first);
    var (r, id) := Connect(sig, slot, first);
    ConnectKeepsSlots(sig, slot, first, r);
    forall c | IsConnected(sig, c)
      ensures IsConnected(r, c)
    {
      assert c.node.value in StableList.Order(r);
    }
  }

  lemma ConnectKeepsSlots(sig: Signal, slot: Behaviour, first: bool, r: Signal)
    requires Counted(sig) && r == Connect(sig, slot, first).0
    ensures forall x {:trigger r.links[x]} | x in sig.links :: x in r.links && r.links[x].value == sig.links[x].value
  {
    var s := StableList.Order(sig);
    var i := if first then 0 else |s|;
    assert PtrAt(s, i) == (if first then sig.first else Tail);
    StableList.MakeLinkRepr(sig, s, i, Some(slot));
  }

  /** After `disconnect()` neither the handle nor any copy of it made
      before is connected, the entry stays in the list until an emission
      erases it, and every handle to another node keeps its state. */
  lemma DisconnectEnds(sig: Signal, c: Connection)
    requires Counted(sig)
    ensures var (r, c') := Disconnect(sig, c);
      && Counted(r)
      && StableList.Order(r) == StableList.Order(sig)
      && c' == Connection(None) && !IsConnected(r, c') && !IsConnected(r, c)
      && (forall d: Connection :: d.node != c.node ==> (IsConnected(r, d) <==> IsConnected(sig, d)))
  {
    var n := Lock(sig, c);
    if n.Some? {
      NullSlotKeeps(sig, n.value);
    }
  }

  /** Disconnecting twice through the same handle value is disconnecting once. */
  lemma DisconnectIdempotent(sig: Signal, c: Connection)
    requires Counted(sig)
    ensures var (r, _) := Disconnect(sig, c);
      Disconnect(r, c).0 == r
  {
    var n := Lock(sig, c);
    if n.Some? {
      var r := NullSlot(sig, n.value);
      NullSlotKeeps(sig, n.value);
      assert Lock(r, c) == n;
      NullSlotTwice(sig, n.value);
    }
  }

  /** Nulling a slot that is already null changes nothing. */
  lemma NullSlotTwice(sig: Signal, id: nat)
    ensures NullSlot(NullSlot(sig, id), id) == NullSlot(sig, id)
  {
    if id in sig.links {
      var r := NullSlot(sig, id);
      assert r.links[id := r.links[id].(value := None)] == r.links;
    }
  }

  /** `clear()` empties the list, so every handle fails to lock: none is
      connected, and all of them compare equal to the empty handle. */
  lemma ClearExpiresHandles(sig: Signal)
    requires Counted(sig)
    ensures forall c: Connection :: !IsConnected(Clear(sig), c) && SameNode(Clear(sig), c, Connection(None))
  {
    ClearCounted(sig);
  }
}
