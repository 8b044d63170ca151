/** The handles of rocket.hpp (v1.3): `connection`, `scoped_connection`,
    `scoped_connection_container`, `trackable`, and the free functions
    `current_connection()` and `abort_emission()`.

    A `connection` holds a counted reference to a node of a signal's
    connection list, or nothing. Copies of a handle refer to the same node,
    so a handle is modelled by the node id it refers to; all that a handle
    can do to the list is `connection_base::disconnect()` on that node. The
    handles below are values, and each operation returns the list as it is
    afterwards together with the handle's new state. */
module RocketHandles {
  import opened Links
  import opened Optional
  import StableList
  import RocketSignal
  import RocketEmission
  import Slots

  type Signal = RocketSignal.Signal

  /** `connection`: a counted reference to a node (`base`), possibly null. */
  datatype Connection = Connection(base: Option<nat>)

  /** A default-constructed `connection`, and what `disconnect()` and a
      move leave behind. */
  const Unbound := Connection(None)

  /** The connection `connect` returns for the node it made. */
  function HandleTo(id: nat): (c: Connection)
    ensures c.base == Some(id)
  {
    Connection(Some(id))
  }

  /** `connection::connected()`, also `operator bool`: a null handle is not
      connected; otherwise its node's `connected()`. */
  predicate Connected(sig: Signal, c: Connection)
  {
    c.base.Some? && RocketSignal.Connected(sig, c.base.value)
  }

  /** The nodes a handle refers to: none or one. */
  function Refers(c: Connection): (ids: set<nat>)
    ensures |ids| <= 1
    ensures forall x :: x in ids <==> c.base == Some(x)
  {
    if c.base.Some? then {c.base.value} else {}
  }

  /** `connection::disconnect()`: disconnect the node, if any, and drop the
      reference. */
  function Disconnect(sig: Signal, c: Connection): (Signal, Connection)
  {
    if c.base.Some? then (RocketSignal.Disconnect(sig, c.base.value), Unbound) else (sig, c)
  }

  // ---------------------------------------------------------------------------
  // Orderings with some ids dropped.
  // ---------------------------------------------------------------------------

  /** The ordering `s` without the ids in `ids`, in the order of `s`. */
  function Drop(s: seq<nat>, ids: set<nat>): (r: seq<nat>)
    ensures |r| <= |s|
  {
    if s == [] then []
    else (if s[0] in ids then [] else [s[0]]) + Drop(s[1..], ids)
  }

  /** An id is left after dropping exactly when it was there and is not
      one of those dropped. */
  lemma {:induction false} DropMembers(s: seq<nat>, ids: set<nat>, x: nat)
    ensures x in Drop(s, ids) <==> x in s && x !in ids
    decreases |s|
  {
    if s != [] {
      DropMembers(s[1..], ids, x);
      assert s == [s[0]] + s[1..];
    }
  }

  lemma {:induction false} DropConcat(a: seq<nat>, b: seq<nat>, ids: set<nat>)
    ensures Drop(a + b, ids) == Drop(a, ids) + Drop(b, ids)
    decreases |a|
  {
    if a == [] {
      assert a + b == b;
    } else {
      assert (a + b)[0] == a[0];
      assert (a + b)[1..] == a[1..] + b;
      DropConcat(a[1..], b, ids);
    }
  }

  /** Dropping ids that do not occur changes nothing. */
  lemma {:induction false} DropNone(s: seq<nat>, ids: set<nat>)
    requires forall k | 0 <= k < |s| :: s[k] !in ids
    ensures Drop(s, ids) == s
    decreases |s|
  {
    if s != [] {
      assert s[0] !in ids;
      DropNone(s[1..], ids);
    }
  }

  /** Dropping one set of ids, then another, is dropping both at once. */
  lemma {:induction false} DropUnion(s: seq<nat>, a: set<nat>, b: set<nat>)
    ensures Drop(Drop(s, a), b) == Drop(s, a + b)
    decreases |s|
  {
    if s != [] {
      var head := if s[0] in a then [] else [s[0]];
      DropConcat(head, Drop(s[1..], a), b);
      DropUnion(s[1..], a, b);
      if s[0] !in a {
        assert Drop(head, b) == (if s[0] in b then [] else [s[0]]) + Drop([], b);
      }
    }
  }

  /** Dropping an id that does not occur changes nothing. */
  lemma DropAbsent(s: seq<nat>, x: nat)
    requires x !in s
    ensures Drop(s, {x}) == s
  {
    forall k | 0 <= k < |s|
      ensures s[k] !in {x}
    {
    }
    DropNone(s, {x});
  }

  /** Cutting the entry at position `i` out of a duplicate-free ordering is
      dropping its id. */
  lemma CutIsDrop(s: seq<nat>, i: nat)
    requires Distinct(s) && i < |s|
    ensures s[..i] + s[i + 1..] == Drop(s, {s[i]})
  {
    var x, a, b := s[i], s[..i], s[i + 1..];
    forall k | 0 <= k < |a|
      ensures a[k] != x
    {
      assert a[k] == s[k];
    }
    forall k | 0 <= k < |b|
      ensures b[k] != x
    {
      assert b[k] == s[i + 1 + k];
    }
    CutIsDropAt(s, i, x);
  }

  /** The same for an entry that occurs nowhere else. */
  lemma CutIsDropAt(s: seq<nat>, i: nat, x: nat)
    requires i < |s| && x == s[i] && x !in s[..i] && x !in s[i + 1..]
    ensures s[..i] + s[i + 1..] == Drop(s, {x})
  {
    var a, b := s[..i], s[i + 1..];
    var t := [x] + b;
    SplitAround(s, i, a, t);
    DropConcat(a, t, {x});
    DropAbsent(a, x);
    DropHead(t, x, b);
    DropAbsent(b, x);
  }

  lemma SplitAround(s: seq<nat>, i: nat, a: seq<nat>, t: seq<nat>)
    requires i < |s| && a == s[..i] && t == [s[i]] + s[i + 1..]
    ensures s == a + t
  {
    assert s == s[..i] + s[i..];
    assert s[i..] == [s[i]] + s[i + 1..];
  }

  lemma DropHead(t: seq<nat>, x: nat, b: seq<nat>)
    requires t == [x] + b
    ensures Drop(t, {x}) == Drop(b, {x})
  {
    assert t[0] == x && t[1..] == b;
  }

  // ---------------------------------------------------------------------------
  // connection.
  // ---------------------------------------------------------------------------

  /** On a well-formed list a handle is connected exactly when its node is
      among the connected nodes, walked from `head`. */
  lemma ConnectedIffListed(sig: Signal, c: Connection)
    requires RocketSignal.Valid(sig)
    ensures Connected(sig, c) <==> c.base.Some? && c.base.value in StableList.Order(sig)
  {
    if c.base.Some? {
      RocketSignal.ConnectedIffInOrder(sig, c.base.value);
    }
  }

  /** The handle `connect` returns is connected, and stays the only handle
      to its node: no earlier handle can refer to a node that did not exist. */
  lemma ConnectHandle(sig: Signal, slot: Slots.Behaviour, first: bool, other: Connection)
    requires RocketSignal.Valid(sig)
    requires other.base.Some? ==> other.base.value in sig.links
    ensures var (r, id) := RocketSignal.Connect(sig, slot, first);
      && Connected(r, HandleTo(id))
      && other != HandleTo(id)
      && (Connected(r, other) <==> Connected(sig, other))
  {
    RocketSignal.ConnectInserts(sig, slot, first);
    var (r, id) := RocketSignal.Connect(sig, slot, first);
    ConnectedIffListed(sig, other);
    ConnectedIffListed(r, other);
    if other.base.Some? {
      var x := other.base.value;
      var s := StableList.Order(sig);
      assert x in StableList.Order(r) <==> x in s by {
        if first {
          assert StableList.Order(r) == [id] + s;
        } else {
          assert StableList.Order(r) == s + [id];
        }
      }
    }
  }

  /** `connection::disconnect()` takes the handle's node, and only it, out
      of the list and leaves the handle null. Every copy of the handle refers
      to the same node and so reports it as disconnected from then on;
      disconnecting a null handle, or a handle whose node is already
      disconnected, leaves the list as it is. */
  lemma DisconnectDrops(sig: Signal, c: Connection)
    requires RocketSignal.Valid(sig)
    ensures var (r, h) := Disconnect(sig, c);
      && RocketSignal.Valid(r)
      && h == Unbound
      && !Connected(r, c)
      && StableList.Order(r) == Drop(StableList.Order(sig), Refers(c))
      && RocketSignal.Persists(sig, r)
      && (!Connected(sig, c) ==> r == sig)
  {
    if c.base.Some? {
      DisconnectNode(sig, c.base.value);
    } else {
      DropNone(StableList.Order(sig), {});
    }
  }

  /** `disconnect()` through a handle to the node `id`. */
  lemma DisconnectNode(sig: Signal, id: nat)
    requires RocketSignal.Valid(sig)
    ensures var r := RocketSignal.Disconnect(sig, id);
      && RocketSignal.Valid(r)
      && !RocketSignal.Connected(r, id)
      && StableList.Order(r) == Drop(StableList.Order(sig), {id})
      && RocketSignal.Persists(sig, r)
      && (!RocketSignal.Connected(sig, id) ==> r == sig)
  {
    RocketSignal.DisconnectRemoves(sig, id);
    RocketSignal.ConnectedIffInOrder(sig, id);
    DisconnectDropsOrder(sig, id);
  }

  lemma DisconnectDropsOrder(sig: Signal, id: nat)
    requires RocketSignal.Valid(sig)
    ensures StableList.Order(RocketSignal.Disconnect(sig, id)) == Drop(StableList.Order(sig), {id})
  {
    var s := StableList.Order(sig);
    RocketSignal.DisconnectRemoves(sig, id);
    if id in s {
      var i := IndexOf(s, id);
      CutIsDrop(s, i);
    } else {
      DropAbsent(s, id);
    }
  }

  // ---------------------------------------------------------------------------
  // scoped_connection.
  // ---------------------------------------------------------------------------

  /** `scoped_connection`: a `connection` that disconnects when it goes away
      or is assigned a new one. */
  datatype ScopedConnection = Scoped(conn: Connection)

  /** The destructor: `disconnect()`. */
  function ScopedDestroy(sig: Signal, s: ScopedConnection): Signal
  {
    Disconnect(sig, s.conn).0
  }

  /** The assignments from a `connection` or a `scoped_connection`, copying
      or moving: `disconnect()` the held connection first, then take the new
      one. */
  function ScopedAssign(sig: Signal, lhs: ScopedConnection, rhs: Connection): (Signal, ScopedConnection)
  {
    (Disconnect(sig, lhs.conn).0, Scoped(rhs))
  }

  /** A `scoped_connection` going out of scope disconnects its node. */
  lemma ScopedDestroyDisconnects(sig: Signal, s: ScopedConnection)
    requires RocketSignal.Valid(sig)
    ensures var r := ScopedDestroy(sig, s);
      && RocketSignal.Valid(r)
      && !Connected(r, s.conn)
      && StableList.Order(r) == Drop(StableList.Order(sig), Refers(s.conn))
  {
    DisconnectDrops(sig, s.conn);
  }

  /** Assigning to a `scoped_connection` disconnects what it held and keeps
      the new handle, which stays connected exactly when it was connected
      and is not the handle just disconnected: assigning a scoped
      connection a copy of its own handle leaves it holding a disconnected
      node. */
  lemma ScopedAssignReplaces(sig: Signal, lhs: ScopedConnection, rhs: Connection)
    requires RocketSignal.Valid(sig)
    ensures var (r, held) := ScopedAssign(sig, lhs, rhs);
      && RocketSignal.Valid(r)
      && held.conn == rhs
      && !Connected(r, lhs.conn)
      && StableList.Order(r) == Drop(StableList.Order(sig), Refers(lhs.conn))
      && (Connected(r, rhs) <==> Connected(sig, rhs) && rhs.base != lhs.conn.base)
  {
    DisconnectDrops(sig, lhs.conn);
    var r := ScopedAssign(sig, lhs, rhs).0;
    ConnectedIffListed(sig, rhs);
    ConnectedIffListed(r, rhs);
    if rhs.base.Some? {
      DropMembers(StableList.Order(sig), Refers(lhs.conn), rhs.base.value);
    }
  }

  // ---------------------------------------------------------------------------
  // scoped_connection_container and trackable.
  // ---------------------------------------------------------------------------

  /** `scoped_connection_container`: a `forward_list` of scoped connections. */
  datatype Container = Container(connections: seq<ScopedConnection>)

  /** `append(conn)` and `+= conn`: `push_front(scoped_connection{conn})`. */
  function Append(c: Container, conn: Connection): (r: Container)
    ensures |r.connections| == |c.connections| + 1
  {
    Container([Scoped(conn)] + c.connections)
  }

  /** `append(list)`, `+= list` and the constructor from a list: `append`
      for each connection in turn. */
  function AppendList(c: Container, list: seq<Connection>): Container
    decreases |list|
  {
    if list == [] then c else AppendList(Append(c, list[0]), list[1..])
  }

  /** Appending a list puts its connections in front, last one first. */
  lemma {:induction false} AppendListReverses(c: Container, list: seq<Connection>)
    ensures var r := AppendList(c, list).connections;
      && |r| == |list| + |c.connections|
      && (forall k | 0 <= k < |list| :: r[k].conn == list[|list| - 1 - k])
      && r[|list|..] == c.connections
    decreases |list|
  {
    if list != [] {
      var c' := Append(c, list[0]);
      AppendListReverses(c', list[1..]);
      var r := AppendList(c, list).connections;
      var n := |list|;
      assert r == AppendList(c', list[1..]).connections;
      forall k | 0 <= k < n
        ensures r[k].conn == list[n - 1 - k]
      {
        if k == n - 1 {
          assert r[k] == r[n - 1..][0] == c'.connections[0];
        } else {
          assert list[1..][n - 2 - k] == list[n - 1 - k];
        }
      }
      assert r[n..] == r[n - 1..][1..];
    }
  }

  /** The ids of the nodes the scoped connections `cs` hold. */
  function Held(cs: seq<ScopedConnection>): (ids: set<nat>)
    ensures forall k | 0 <= k < |cs| :: Refers(cs[k].conn) <= ids
    decreases |cs|
  {
    if cs == [] then {} else Refers(cs[0].conn) + Held(cs[1..])
  }

  /** Destroying the scoped connections `cs`, first to last, as
      `forward_list::clear()` and the destructor do. */
  function DisconnectEach(sig: Signal, cs: seq<ScopedConnection>): Signal
    decreases |cs|
  {
    if cs == [] then sig else DisconnectEach(ScopedDestroy(sig, cs[0]), cs[1..])
  }

  /** Destroying a run of scoped connections disconnects the nodes they
      hold, and no others. */
  lemma {:induction false} DisconnectEachDrops(sig: Signal, cs: seq<ScopedConnection>)
    requires RocketSignal.Valid(sig)
    ensures var r := DisconnectEach(sig, cs);
      && RocketSignal.Valid(r)
      && RocketSignal.Persists(sig, r)
      && StableList.Order(r) == Drop(StableList.Order(sig), Held(cs))
    decreases |cs|
  {
    if cs == [] {
      DropNone(StableList.Order(sig), {});
    } else {
      var mid := ScopedDestroy(sig, cs[0]);
      DisconnectDrops(sig, cs[0].conn);
      DisconnectEachDrops(mid, cs[1..]);
      DropUnion(StableList.Order(sig), Refers(cs[0].conn), Held(cs[1..]));
      RocketSignal.PersistsTrans(sig, mid, DisconnectEach(mid, cs[1..]));
    }
  }

  /** `scoped_connection_container::disconnect()`: `connections.clear()`. */
  function ContainerDisconnect(sig: Signal, c: Container): (Signal, Container)
  {
    (DisconnectEach(sig, c.connections), Container([]))
  }

  /** Move assignment: the list's own move assignment clears the target
      first, so the connections it held are disconnected; it then takes
      over the source's connections and leaves the source empty. */
  function ContainerMoveAssign(sig: Signal, lhs: Container, rhs: Container): (Signal, Container, Container)
  {
    (DisconnectEach(sig, lhs.connections), rhs, Container([]))
  }

  /** After `disconnect()` no handle the container held is connected, every
      node it did not hold is as connected as before, and the container is
      empty. */
  lemma ContainerDisconnectDrops(sig: Signal, c: Container)
    requires RocketSignal.Valid(sig)
    ensures var (r, c') := ContainerDisconnect(sig, c);
      && RocketSignal.Valid(r)
      && c'.connections == []
      && (forall k | 0 <= k < |c.connections| :: !Connected(r, c.connections[k].conn))
      && (forall x | x !in Held(c.connections) :: RocketSignal.Connected(r, x) == RocketSignal.Connected(sig, x))
  {
    var cs := c.connections;
    DisconnectEachDrops(sig, cs);
    var r := DisconnectEach(sig, cs);
    forall k | 0 <= k < |cs|
      ensures !Connected(r, cs[k].conn)
    {
      ConnectedIffListed(r, cs[k].conn);
      if cs[k].conn.base.Some? {
        DropMembers(StableList.Order(sig), Held(cs), cs[k].conn.base.value);
      }
    }
    forall x | x !in Held(cs)
      ensures RocketSignal.Connected(r, x) == RocketSignal.Connected(sig, x)
    {
      RocketSignal.ConnectedIffInOrder(sig, x);
      RocketSignal.ConnectedIffInOrder(r, x);
      DropMembers(StableList.Order(sig), Held(cs), x);
    }
  }

  /** Move assignment disconnects what the target held and moves the
      source's connections over without touching them. */
  lemma ContainerMoveAssignDrops(sig: Signal, lhs: Container, rhs: Container)
    requires RocketSignal.Valid(sig)
    ensures var (r, lhs', rhs') := ContainerMoveAssign(sig, lhs, rhs);
      && RocketSignal.Valid(r)
      && lhs' == rhs && rhs'.connections == []
      && StableList.Order(r) == Drop(StableList.Order(sig), Held(lhs.connections))
  {
    DisconnectEachDrops(sig, lhs.connections);
  }

  /** `trackable`: an object that owns a container of the connections made
      to its member functions. */
  datatype Trackable = Trackable(container: Container)

  /** `add_tracked_connection(conn)`: `container.append(conn)`. */
  function AddTracked(t: Trackable, conn: Connection): Trackable
  {
    Trackable(Append(t.container, conn))
  }

  /** `disconnect_tracked_connections()`, and the destructor through the
      container's own: `container.disconnect()`. */
  function DisconnectTracked(sig: Signal, t: Trackable): (Signal, Trackable)
  {
    var (r, c) := ContainerDisconnect(sig, t.container);
    (r, Trackable(c))
  }

  /** A connection added to a trackable is disconnected with it, together
      with the ones added before. */
  lemma TrackedDisconnected(sig: Signal, t: Trackable, conn: Connection)
    requires RocketSignal.Valid(sig)
    ensures var (r, t') := DisconnectTracked(sig, AddTracked(t, conn));
      && RocketSignal.Valid(r)
      && t'.container.connections == []
      && !Connected(r, conn)
      && StableList.Order(r) == Drop(StableList.Order(sig), Refers(conn) + Held(t.container.connections))
  {
    var cs := AddTracked(t, conn).container.connections;
    assert cs[0].conn == conn && cs[1..] == t.container.connections;
    ContainerDisconnectDrops(sig, AddTracked(t, conn).container);
    DisconnectEachDrops(sig, cs);
  }

  // ---------------------------------------------------------------------------
  // The per-thread context and the end of a signal.
  // ---------------------------------------------------------------------------

  /** `current_connection()`: a handle to the node whose slot is running on
      this thread, null outside any slot. */
  function CurrentConnection(th: RocketEmission.ThreadData): (c: Connection)
    ensures c.base.Some? <==> th.current.Node?
  {
    if th.current.Node? then HandleTo(th.current.id) else Unbound
  }

  /** `abort_emission()`: set the thread's abort request. */
  function AbortEmission(th: RocketEmission.ThreadData): (r: RocketEmission.ThreadData)
    ensures r.aborted && r.current == th.current
  {
    th.(aborted := true)
  }

  /** The `DisconnectSelf` and `AbortEmission` effects a slot body performs
      are these two functions: `current_connection().disconnect()` and
      `abort_emission()`. */
  lemma EffectsAreHandleCalls(sig: Signal, th: RocketEmission.ThreadData)
    requires RocketSignal.Valid(sig)
    ensures RocketEmission.Apply(sig, th, Slots.DisconnectSelf) == (Disconnect(sig, CurrentConnection(th)).0, th)
    ensures RocketEmission.Apply(sig, th, Slots.AbortEmission) == (sig, AbortEmission(th))
    ensures var r := Disconnect(sig, CurrentConnection(th)).0;
      StableList.Order(r) == Drop(StableList.Order(sig), if th.current.Node? then {th.current.id} else {})
  {
    DisconnectDrops(sig, CurrentConnection(th));
  }

  /** A handle that outlives its signal is harmless: after `destroy()` it
      reports disconnected and `disconnect()` through it changes nothing. */
  lemma DisconnectAfterDestroy(sig: Signal, c: Connection)
    requires RocketSignal.Valid(sig)
    ensures var d := RocketSignal.Destroy(sig);
      && !Connected(d, c)
      && Disconnect(d, c).0 == d
  {
    RocketSignal.ClearDisconnectsAll(sig);
    var d := RocketSignal.Destroy(sig);
    if c.base.Some? {
      var x := c.base.value;
      assert !RocketSignal.Connected(RocketSignal.Clear(sig), x);
      assert !RocketSignal.Connected(d, x);
    }
  }
}
