/** The connection list of rocket.hpp's `signal<R(Args...)>` (v1.3).

    A signal owns a `head` and a `tail` sentinel of type `connection_base`;
    the connections are the `functional_connection` nodes between them. The
    nodes are linked exactly as the links of `stable_list` are, so the model
    reuses `StableList.List` with the slot behaviour as the value; the list's
    `elements` counter has no counterpart in `signal` and nothing here reads
    it. What differs is how a node leaves the list: `disconnect()` rewires its
    neighbours and then sets the node's own `prev` to null, which is how a
    node is marked as disconnected, while its `next` is left alone so that an
    emission whose cursor sits on it can still step forward. Nodes are never
    reclaimed: a node id, once allocated, stays in `links`. */
module RocketSignal {
  import opened Links
  import opened Slots
  import opened StableList

  /** A signal's connection list. */
  type Signal = List<Behaviour>

  /** `connection_base::connected()`: the node's `prev` is not null. */
  predicate Connected(sig: Signal, id: nat)
  {
    id in sig.links && sig.links[id].prev != Null
  }

  // ---------------------------------------------------------------------------
  // The invariant.
  // ---------------------------------------------------------------------------

  /** Exactly the nodes of the ordering `s` are marked as connected. */
  ghost predicate Marked(sig: Signal, s: seq<nat>)
  {
    forall id {:trigger sig.links[id]} | id in sig.links :: (sig.links[id].prev != Null <==> id in s)
  }

  /** The `next` pointer of node `id` leads forward: to `tail`, or to a node
      of higher rank. */
  ghost predicate Forward(sig: Signal, rank: map<nat, real>, id: nat)
    requires id in sig.links && id in rank
  {
    var n := sig.links[id].next;
    n == Tail || (n.Node? && n.id in sig.links && n.id in rank && rank[n.id] > rank[id])
  }

  /** Every node, connected or not, points forward in the ranking `rank`. So
      following `next` from any node never meets a null pointer and never
      comes back to a node it has passed. */
  ghost predicate Ranked(sig: Signal, rank: map<nat, real>)
  {
    forall id {:trigger sig.links[id]} | id in sig.links :: id in rank && Forward(sig, rank, id)
  }

  /** A well-formed connection list: the connected nodes, walked from `head`,
      form a consistent doubly linked list; the nodes marked as connected are
      exactly those; and the `next` pointers of all nodes lead forward. */
  ghost predicate Valid(sig: Signal)
  {
    && Repr(sig, Order(sig))
    && Marked(sig, Order(sig))
    && exists rank :: Ranked(sig, rank)
  }

  /** `Valid` from an explicit ordering and ranking. */
  lemma ValidOf(sig: Signal, s: seq<nat>, rank: map<nat, real>)
    requires Repr(sig, s) && Marked(sig, s) && Ranked(sig, rank)
    ensures Valid(sig) && Order(sig) == s
  {
    OrderOfRepr(sig, s);
  }

  /** In a well-formed signal a node is connected exactly when it is on the
      walk from `head` to `tail`. */
  lemma ConnectedIffInOrder(sig: Signal, id: nat)
    requires Valid(sig)
    ensures Connected(sig, id) <==> id in Order(sig)
  {
    if id in Order(sig) {
      assert id in sig.links;
      assert sig.links[id].prev != Null;
    } else if id in sig.links {
      assert sig.links[id].prev == Null;
    }
  }

  /** `init()`: `head->next = tail; tail->prev = head`. */
  lemma EmptyValid()
    ensures Valid(Empty<Behaviour>()) && Order(Empty<Behaviour>()) == []
  {
    ValidOf(Empty(), [], map[]);
  }

  /** A node of the list that is marked as disconnected. */
  predicate Disconnected(sig: Signal, id: nat)
  {
    id in sig.links && sig.links[id].prev == Null
  }

  /** `b` is a later state of `a`: every node of `a` is still there holding
      the same slot, and a node that was disconnected stays disconnected
      (nothing ever sets a null `prev` back). */
  ghost predicate Persists(a: Signal, b: Signal)
  {
    && a.links.Keys <= b.links.Keys
    && (forall id {:trigger b.links[id]} | id in a.links :: b.links[id].value == a.links[id].value)
    && (forall id {:trigger b.links[id]} | id in a.links && a.links[id].prev == Null :: b.links[id].prev == Null)
  }

  lemma PersistsTrans(a: Signal, b: Signal, c: Signal)
    requires Persists(a, b) && Persists(b, c)
    ensures Persists(a, c)
  {
    forall id | id in a.links
      ensures c.links[id].value == a.links[id].value
      ensures a.links[id].prev == Null ==> c.links[id].prev == Null
    {
      assert b.links[id].value == a.links[id].value;
    }
  }

  // ---------------------------------------------------------------------------
  // connect.
  // ---------------------------------------------------------------------------

  /** `connect(slot, first)`: `make_link(first ? head->next : tail, slot)`.
      Returns the new list and the id of the new node, which the returned
      `connection` refers to. */
  function Connect(sig: Signal, slot: Behaviour, first: bool): (Signal, nat)
  {
    MakeLink(sig, if first then sig.first else Tail, slot)
  }

  /** A rank strictly between those of `p` and `n`, for a node spliced in
      between them. */
  ghost function Between(rank: map<nat, real>, p: Ptr, n: Ptr): real
    requires p.Node? ==> p.id in rank
    requires n.Node? ==> n.id in rank
  {
    if p.Node? && n.Node? then (rank[p.id] + rank[n.id]) / 2.0
    else if p.Node? then rank[p.id] + 1.0
    else if n.Node? then rank[n.id] - 1.0
    else 0.0
  }

  lemma SplicedMarked(l: Signal, r: Signal, s: seq<nat>, i: nat, id: nat, v: Behaviour)
    requires Repr(l, s) && i <= |s| && Spliced(l, r, s, i, id, v)
    requires l.nextId == id && Marked(l, s)
    ensures Marked(r, s[..i] + [id] + s[i..])
  {
    var s' := s[..i] + [id] + s[i..];
    forall x {:trigger r.links[x]} | x in r.links
      ensures r.links[x].prev != Null <==> x in s'
    {
      SplicedMarkedAt(l, r, s, i, id, v, x);
      SpliceMembership(s, i, id, x);
    }
  }

  lemma SplicedMarkedAt(l: Signal, r: Signal, s: seq<nat>, i: nat, id: nat, v: Behaviour, x: nat)
    requires Repr(l, s) && i <= |s| && Spliced(l, r, s, i, id, v)
    requires l.nextId == id && Marked(l, s) && x in r.links
    ensures r.links[x].prev != Null <==> (x == id || x in s)
  {
    if x != id {
      assert x in l.links;
      if 0 < i && x == s[i - 1] {
      } else if i < |s| && x == s[i] {
      } else {
        assert r.links[x] == l.links[x];
      }
    }
  }

  /** Splicing `id` into an ordering adds exactly `id`. */
  lemma SpliceMembership(s: seq<nat>, i: nat, id: nat, x: nat)
    requires i <= |s|
    ensures x in s[..i] + [id] + s[i..] <==> (x == id || x in s)
  {
    assert s == s[..i] + s[i..];
  }

  lemma SplicedRanked(l: Signal, r: Signal, s: seq<nat>, i: nat, id: nat, v: Behaviour, rank: map<nat, real>)
    requires Repr(l, s) && i <= |s| && Spliced(l, r, s, i, id, v)
    requires l.nextId == id && Ranked(l, rank)
    ensures 0 < i ==> s[i - 1] in rank
    ensures i < |s| ==> s[i] in rank
    ensures Ranked(r, rank[id := Between(rank, PtrBefore(s, i), PtrAt(s, i))])
  {
    var p, n := PtrBefore(s, i), PtrAt(s, i);
    if 0 < i {
      assert l.links[s[i - 1]].next == n;
      assert s[i - 1] in rank && Forward(l, rank, s[i - 1]);
    }
    if i < |s| {
      assert s[i] in rank && Forward(l, rank, s[i]);
    }
    var rank' := rank[id := Between(rank, p, n)];
    forall x {:trigger r.links[x]} | x in r.links
      ensures x in rank' && Forward(r, rank', x)
    {
      if x != id {
        assert x in l.links;
        assert x in rank && Forward(l, rank, x);
        if 0 < i && x == s[i - 1] {
        } else if i < |s| && x == s[i] {
        } else {
          assert r.links[x] == l.links[x];
        }
      }
    }
  }

  lemma SplicedPersists(l: Signal, r: Signal, s: seq<nat>, i: nat, id: nat, v: Behaviour)
    requires Repr(l, s) && i <= |s| && Spliced(l, r, s, i, id, v)
    requires l.nextId == id && Marked(l, s)
    ensures Persists(l, r)
  {
    forall x | x in l.links
      ensures r.links[x].value == l.links[x].value
      ensures l.links[x].prev == Null ==> r.links[x].prev == Null
    {
      if 0 < i && x == s[i - 1] {
      } else if i < |s| && x == s[i] {
      } else {
        assert r.links[x] == l.links[x];
      }
    }
  }

  /** `make_link` before the `i`-th connected node (or `tail`) of a
      well-formed signal. */
  lemma MakeLinkValid(sig: Signal, s: seq<nat>, i: nat, slot: Behaviour)
    requires Valid(sig) && s == Order(sig) && i <= |s|
    ensures var (r, id) := MakeLink(sig, PtrAt(s, i), slot);
      && Valid(r)
      && id !in sig.links && Connected(r, id)
      && Order(r) == s[..i] + [id] + s[i..]
      && Values(r) == Values(sig)[..i] + [slot] + Values(sig)[i..]
      && Persists(sig, r)
  {
    var rank :| Ranked(sig, rank);
    MakeLinkSpliced(sig, s, i, slot);
    var (r, id) := MakeLink(sig, PtrAt(s, i), slot);
    var s' := s[..i] + [id] + s[i..];
    SplicedRepr(sig, r, s, i, id, slot);
    SplicedMarked(sig, r, s, i, id, slot);
    SplicedRanked(sig, r, s, i, id, slot, rank);
    ValidOf(r, s', rank[id := Between(rank, PtrBefore(s, i), PtrAt(s, i))]);
    MakeLinkRepr(sig, s, i, slot);
    InsertValues(sig, r, s, i, id, slot);
    assert Values(r) == ValuesOf(r, s');
    SplicedPersists(sig, r, s, i, id, slot);
  }

  /** `connect` puts the new slot at the front or at the back of the
      connected nodes, as `first` says, and disturbs nothing else. */
  lemma ConnectInserts(sig: Signal, slot: Behaviour, first: bool)
    requires Valid(sig)
    ensures var (r, id) := Connect(sig, slot, first);
      var s := Order(sig);
      && Valid(r)
      && id !in sig.links && Connected(r, id)
      && Order(r) == (if first then [id] + s else s + [id])
      && Values(r) == (if first then [slot] + Values(sig) else Values(sig) + [slot])
      && Persists(sig, r)
  {
    var s := Order(sig);
    var i := if first then 0 else |s|;
    assert PtrAt(s, i) == (if first then sig.first else Tail);
    assert Connect(sig, slot, first) == MakeLink(sig, PtrAt(s, i), slot);
    MakeLinkValid(sig, s, i, slot);
    var id := sig.nextId;
    var vs := Values(sig);
    SpliceEnds(s, id);
    SpliceEnds(vs, slot);
  }

  // ---------------------------------------------------------------------------
  // disconnect.
  // ---------------------------------------------------------------------------

  /** `connection_base::disconnect()`: a connected node is unlinked
      (`next->prev = prev; prev->next = next`) and marked by a null `prev`;
      its `next` is kept. A node that is not connected is left alone. In a
      connected node `prev != next`, so the two stores touch different nodes
      and `Rewire`, which makes them in the other order, gives the same
      list. */
  function Disconnect(sig: Signal, id: nat): (r: Signal)
    ensures r.links.Keys == sig.links.Keys
  {
    if Connected(sig, id) then
      var w := Rewire(sig, sig.links[id].prev, sig.links[id].next);
      w.(links := w.links[id := w.links[id].(prev := Null)])
    else sig
  }

  /** What disconnecting `s[i]` changes, at the pointer level. */
  lemma DisconnectFrame(sig: Signal, s: seq<nat>, i: nat)
    requires Distinct(s) && i < |s| && forall k | 0 <= k < |s| :: s[k] in sig.links
    requires sig.links[s[i]].prev == PtrBefore(s, i) && sig.links[s[i]].next == PtrAt(s, i + 1)
    ensures var r, x, p, n := Disconnect(sig, s[i]), s[i], PtrBefore(s, i), PtrAt(s, i + 1);
      && r.first == (if i == 0 then n else sig.first)
      && r.last == (if i + 1 == |s| then p else sig.last)
      && r.links[x] == sig.links[x].(prev := Null)
      && (0 < i ==> r.links[s[i - 1]] == sig.links[s[i - 1]].(next := n))
      && (i + 1 < |s| ==> r.links[s[i + 1]] == sig.links[s[i + 1]].(prev := p))
      && (forall y {:trigger r.links[y]} | y in sig.links && y != x && p != Node(y) && n != Node(y) :: r.links[y] == sig.links[y])
      && r.nextId == sig.nextId
  {
    var x, p, n := s[i], PtrBefore(s, i), PtrAt(s, i + 1);
    if 0 < i {
      assert s[i - 1] != x;
    }
    if i + 1 < |s| {
      assert s[i + 1] != x;
      if 0 < i {
        assert s[i - 1] != s[i + 1];
      }
    }
    RewireFrame(sig, p, n);
  }

  lemma DisconnectBypassed(sig: Signal, s: seq<nat>, i: nat)
    requires Repr(sig, s) && i < |s|
    ensures Bypassed(sig, Disconnect(sig, s[i]), s, i, i + 1)
  {
    DisconnectFrame(sig, s, i);
    var r := Disconnect(sig, s[i]);
    forall k | 0 <= k < |s| && (k + 1 < i || i + 1 < k)
      ensures s[k] in sig.links && r.links[s[k]] == sig.links[s[k]]
    {
      DisconnectElsewhere(sig, s, i, k);
    }
  }

  /** Disconnecting `s[i]` leaves the nodes two or more places away alone. */
  lemma DisconnectElsewhere(sig: Signal, s: seq<nat>, i: nat, k: nat)
    requires Repr(sig, s) && i < |s| && k < |s| && (k + 1 < i || i + 1 < k)
    ensures s[k] in sig.links && Disconnect(sig, s[i]).links[s[k]] == sig.links[s[k]]
  {
    DisconnectFrame(sig, s, i);
    assert s[k] != s[i];
    if 0 < i {
      assert s[k] != s[i - 1];
    }
    if i + 1 < |s| {
      assert s[k] != s[i + 1];
    }
  }

  /** Cutting `s[i]` out of a duplicate-free ordering removes exactly it. */
  lemma CutMembership(s: seq<nat>, i: nat, y: nat)
    requires Distinct(s) && i < |s|
    ensures y in s[..i] + s[i + 1..] <==> (y in s && y != s[i])
  {
    assert s == s[..i] + [s[i]] + s[i + 1..];
    if y == s[i] {
      assert y !in s[..i] && y !in s[i + 1..];
    }
  }

  lemma DisconnectMarked(sig: Signal, s: seq<nat>, i: nat)
    requires Distinct(s) && i < |s| && forall k | 0 <= k < |s| :: s[k] in sig.links
    requires sig.links[s[i]].prev == PtrBefore(s, i) && sig.links[s[i]].next == PtrAt(s, i + 1)
    requires Marked(sig, s)
    ensures Marked(Disconnect(sig, s[i]), s[..i] + s[i + 1..])
  {
    DisconnectFrame(sig, s, i);
    var r, x := Disconnect(sig, s[i]), s[i];
    var s' := s[..i] + s[i + 1..];
    forall y {:trigger r.links[y]} | y in r.links
      ensures r.links[y].prev != Null <==> y in s'
    {
      CutMembership(s, i, y);
      if y == x {
      } else if 0 < i && y == s[i - 1] {
        assert sig.links[y].prev != Null;
      } else if i + 1 < |s| && y == s[i + 1] {
      } else {
        assert r.links[y] == sig.links[y];
      }
    }
  }

  lemma DisconnectRanked(sig: Signal, s: seq<nat>, i: nat, rank: map<nat, real>)
    requires Distinct(s) && i < |s| && forall k | 0 <= k < |s| :: s[k] in sig.links
    requires sig.links[s[i]].prev == PtrBefore(s, i) && sig.links[s[i]].next == PtrAt(s, i + 1)
    requires 0 < i ==> sig.links[s[i - 1]].next == Node(s[i])
    requires Ranked(sig, rank)
    ensures Ranked(Disconnect(sig, s[i]), rank)
  {
    DisconnectFrame(sig, s, i);
    var r, x := Disconnect(sig, s[i]), s[i];
    assert x in rank && Forward(sig, rank, x);
    if 0 < i {
      assert s[i - 1] in rank && Forward(sig, rank, s[i - 1]);
    }
    forall y {:trigger r.links[y]} | y in r.links
      ensures y in rank && Forward(r, rank, y)
    {
      assert y in rank && Forward(sig, rank, y);
      if y == x {
      } else if 0 < i && y == s[i - 1] {
      } else if i + 1 < |s| && y == s[i + 1] {
      } else {
        assert r.links[y] == sig.links[y];
      }
    }
  }

  lemma DisconnectPersists(sig: Signal, s: seq<nat>, i: nat)
    requires Distinct(s) && i < |s| && forall k | 0 <= k < |s| :: s[k] in sig.links
    requires sig.links[s[i]].prev == PtrBefore(s, i) && sig.links[s[i]].next == PtrAt(s, i + 1)
    requires i + 1 < |s| ==> sig.links[s[i + 1]].prev != Null
    ensures Persists(sig, Disconnect(sig, s[i]))
  {
    DisconnectFrame(sig, s, i);
    var r, x := Disconnect(sig, s[i]), s[i];
    forall y | y in sig.links
      ensures r.links[y].value == sig.links[y].value
      ensures sig.links[y].prev == Null ==> r.links[y].prev == Null
    {
      if y == x {
      } else if 0 < i && y == s[i - 1] {
      } else if i + 1 < |s| && y == s[i + 1] {
      } else {
        assert r.links[y] == sig.links[y];
      }
    }
  }

  /** The links around the `i`-th connected node, as `disconnect()` finds
      them; disconnecting it only nulls its own `prev`. */
  lemma DisconnectNeighbours(sig: Signal, s: seq<nat>, i: nat)
    requires Repr(sig, s) && i < |s|
    ensures Distinct(s) && forall k | 0 <= k < |s| :: s[k] in sig.links
    ensures sig.links[s[i]].prev == PtrBefore(s, i) && sig.links[s[i]].next == PtrAt(s, i + 1)
    ensures 0 < i ==> sig.links[s[i - 1]].next == Node(s[i])
    ensures i + 1 < |s| ==> sig.links[s[i + 1]].prev == Node(s[i])
    ensures Disconnect(sig, s[i]).links[s[i]] == sig.links[s[i]].(prev := Null)
  {
    assert sig.links[s[i]].prev == PtrBefore(s, i) && sig.links[s[i]].next == PtrAt(s, i + 1);
    if 0 < i {
      assert sig.links[s[i - 1]].next == Node(s[i]);
    }
    if i + 1 < |s| {
      assert sig.links[s[i + 1]].prev == Node(s[i]);
    }
    DisconnectFrame(sig, s, i);
  }

  /** Disconnecting the `i`-th connected node `s[i]` leaves a well-formed
      list without it. */
  lemma DisconnectAt(sig: Signal, s: seq<nat>, i: nat, rank: map<nat, real>)
    requires Repr(sig, s) && Marked(sig, s) && Ranked(sig, rank) && i < |s|
    ensures var r, s' := Disconnect(sig, s[i]), s[..i] + s[i + 1..];
      Repr(r, s') && Marked(r, s') && Ranked(r, rank)
  {
    var r := Disconnect(sig, s[i]);
    DisconnectNeighbours(sig, s, i);
    DisconnectBypassed(sig, s, i);
    BypassedRepr(sig, r, s, i, i + 1);
    DisconnectMarked(sig, s, i);
    DisconnectRanked(sig, s, i, rank);
  }

  /** Disconnecting the `i`-th connected node `s[i]` drops its slot from the
      values, marks it and changes no slot. */
  lemma DisconnectAtValues(sig: Signal, s: seq<nat>, i: nat)
    requires Repr(sig, s) && i < |s|
    ensures var r, s' := Disconnect(sig, s[i]), s[..i] + s[i + 1..];
      && ValuesOf(r, s') == ValuesOf(sig, s)[..i] + ValuesOf(sig, s)[i + 1..]
      && r.links[s[i]] == sig.links[s[i]].(prev := Null)
      && Persists(sig, r)
  {
    var r := Disconnect(sig, s[i]);
    DisconnectNeighbours(sig, s, i);
    DisconnectBypassed(sig, s, i);
    BypassedValues(sig, r, s, i, i + 1);
    DisconnectPersists(sig, s, i);
  }

  /** `disconnect()` on a connected node takes exactly that node out of the
      signal, keeps its `next`, and marks it disconnected; on any other node
      it changes nothing. So disconnecting twice is disconnecting once. */
  lemma DisconnectRemoves(sig: Signal, id: nat)
    requires Valid(sig)
    ensures var r, s := Disconnect(sig, id), Order(sig);
      && Valid(r)
      && !Connected(r, id)
      && Persists(sig, r)
      && (id in s ==>
            var i := IndexOf(s, id);
            && Order(r) == s[..i] + s[i + 1..]
            && Values(r) == Values(sig)[..i] + Values(sig)[i + 1..]
            && r.links[id] == sig.links[id].(prev := Null))
      && (id !in s ==> r == sig)
  {
    var s := Order(sig);
    ConnectedIffInOrder(sig, id);
    if id in s {
      var rank :| Ranked(sig, rank);
      var i := IndexOf(s, id);
      DisconnectAt(sig, s, i, rank);
      DisconnectAtValues(sig, s, i);
      ValidOf(Disconnect(sig, id), s[..i] + s[i + 1..], rank);
    }
  }

  /** Disconnecting is idempotent, whatever state the list is in. */
  lemma DisconnectIdempotent(sig: Signal, id: nat)
    ensures !Connected(Disconnect(sig, id), id)
    ensures Disconnect(Disconnect(sig, id), id) == Disconnect(sig, id)
  {
  }

  // ---------------------------------------------------------------------------
  // clear.
  // ---------------------------------------------------------------------------

  /** The loop of `clear()`: from `cur` up to `tail`, each node gets
      `next = tail` and `prev = nullptr`, its old `next` read first. */
  function Detach(sig: Signal, cur: Ptr, fuel: nat): Signal
    decreases fuel
  {
    if fuel == 0 || !cur.Node? || cur.id !in sig.links then sig
    else
      var next := sig.links[cur.id].next;
      Detach(sig.(links := sig.links[cur.id := sig.links[cur.id].(prev := Null, next := Tail)]), next, fuel - 1)
  }

  /** `clear()`: the loop, then `head->next = tail; tail->prev = head`. */
  function Clear(sig: Signal): Signal
  {
    var d := Detach(sig, sig.first, |sig.links|);
    d.(first := Tail, last := Head)
  }

  /** `destroy()`, run by the destructor and by move assignment: `clear()`,
      then both sentinels are cut loose (`head->next = tail->prev = nullptr`).
      The nodes live on for as long as some `connection` refers to them. */
  function Destroy(sig: Signal): Signal
  {
    Clear(sig).(first := Null, last := Null)
  }

  /** After `k` rounds of the `clear()` loop over the ordering `s`: `s[..k]`
      are detached, every other node and both sentinels are as they were. */
  ghost predicate DetachedUpTo(l0: Signal, l: Signal, s: seq<nat>, k: nat)
    requires k <= |s|
  {
    && l.links.Keys == l0.links.Keys
    && l.first == l0.first && l.last == l0.last && l.nextId == l0.nextId
    && (forall m | 0 <= m < |s| :: s[m] in l0.links)
    && (forall m {:trigger l.links[s[m]]} | 0 <= m < k :: l.links[s[m]] == l0.links[s[m]].(prev := Null, next := Tail))
    && (forall y {:trigger l.links[y]} | y in l0.links && y !in s[..k] :: l.links[y] == l0.links[y])
  }

  lemma DetachStep(l0: Signal, l: Signal, s: seq<nat>, k: nat, k': nat)
    requires Distinct(s) && k < |s| && k' == k + 1
    requires DetachedUpTo(l0, l, s, k)
    ensures s[k] in l.links && l.links[s[k]] == l0.links[s[k]]
    ensures DetachedUpTo(l0, l.(links := l.links[s[k] := l.links[s[k]].(prev := Null, next := Tail)]), s, k')
  {
    var x := s[k];
    assert x !in s[..k];
    var l' := l.(links := l.links[x := l.links[x].(prev := Null, next := Tail)]);
    assert s[..k'] == s[..k] + [x];
    forall m {:trigger l'.links[s[m]]} | 0 <= m < k'
      ensures l'.links[s[m]] == l0.links[s[m]].(prev := Null, next := Tail)
    {
      if m < k {
        assert s[m] != x;
      }
    }
  }

  lemma DetachNext(l0: Signal, l: Signal, s: seq<nat>, k: nat, k': nat)
    requires k < |s| && k' == k + 1
    requires forall m | 0 <= m < |s| :: s[m] in l0.links
    requires forall m {:trigger l0.links[s[m]]} | k <= m < |s| :: l0.links[s[m]].next == PtrAt(s, m + 1)
    requires s[k] in l.links && l.links[s[k]] == l0.links[s[k]]
    ensures l.links[s[k]].next == PtrAt(s, k')
  {
  }

  lemma DetachUnfold(l: Signal, x: nat, fuel: nat, f: nat)
    requires x in l.links && 0 < fuel && f == fuel - 1
    ensures Detach(l, Node(x), fuel)
         == Detach(l.(links := l.links[x := l.links[x].(prev := Null, next := Tail)]), l.links[x].next, f)
  {
  }

  lemma {:induction false} DetachSpec(l0: Signal, l: Signal, s: seq<nat>, k: nat, fuel: nat)
    requires Distinct(s) && k <= |s|
    requires forall m | 0 <= m < |s| :: s[m] in l0.links
    requires forall m {:trigger l0.links[s[m]]} | k <= m < |s| :: l0.links[s[m]].next == PtrAt(s, m + 1)
    requires DetachedUpTo(l0, l, s, k)
    requires fuel >= |s| - k
    ensures DetachedUpTo(l0, Detach(l, PtrAt(s, k), fuel), s, |s|)
    decreases |s| - k
  {
    if k < |s| {
      var x, k', f := s[k], k + 1, fuel - 1;
      DetachStep(l0, l, s, k, k');
      var l' := l.(links := l.links[x := l.links[x].(prev := Null, next := Tail)]);
      DetachNext(l0, l, s, k, k');
      DetachUnfold(l, x, fuel, f);
      DetachSpec(l0, l', s, k', f);
    }
  }

  lemma ClearShape(sig: Signal, s: seq<nat>, rank: map<nat, real>)
    requires Repr(sig, s) && Marked(sig, s) && Ranked(sig, rank)
    ensures var r := Clear(sig);
      && Repr(r, []) && Marked(r, []) && Ranked(r, rank)
      && r.links.Keys == sig.links.Keys
      && (forall x {:trigger r.links[x]} | x in sig.links && x in s :: r.links[x] == sig.links[x].(prev := Null, next := Tail))
      && (forall x {:trigger r.links[x]} | x in sig.links && x !in s :: r.links[x] == sig.links[x])
  {
    DistinctCardinality(s, sig.links.Keys);
    DetachSpec(sig, sig, s, 0, |sig.links|);
    var d := Detach(sig, sig.first, |sig.links|);
    assert s[..|s|] == s;
    var r := Clear(sig);
    forall x {:trigger r.links[x]} | x in sig.links && x in s
      ensures r.links[x] == sig.links[x].(prev := Null, next := Tail)
    {
      var m := IndexOf(s, x);
      assert d.links[s[m]] == sig.links[s[m]].(prev := Null, next := Tail);
    }
    forall x {:trigger r.links[x]} | x in r.links
      ensures r.links[x].prev == Null
      ensures x in rank && Forward(r, rank, x)
    {
      assert x in rank && Forward(sig, rank, x);
      if x !in s {
        assert r.links[x] == sig.links[x];
        assert sig.links[x].prev == Null;
      }
    }
  }

  /** `clear()` disconnects every connection: each formerly connected node
      points at `tail` and is marked disconnected, nodes that were already
      disconnected are untouched. */
  lemma ClearDisconnectsAll(sig: Signal)
    requires Valid(sig)
    ensures var r := Clear(sig);
      && Valid(r)
      && Order(r) == [] && Values(r) == []
      && Persists(sig, r)
      && (forall x | x in sig.links :: !Connected(r, x))
      && r.links.Keys == sig.links.Keys
      && (forall x {:trigger r.links[x]} | x in Order(sig) :: r.links[x].next == Tail)
  {
    var s := Order(sig);
    var rank :| Ranked(sig, rank);
    ClearShape(sig, s, rank);
    var r := Clear(sig);
    ValidOf(r, [], rank);
    forall x | x in sig.links
      ensures r.links[x].value == sig.links[x].value
      ensures !Connected(r, x)
    {
    }
    forall x {:trigger r.links[x]} | x in s
      ensures r.links[x].next == Tail
    {
      assert x in sig.links;
    }
  }

  // ---------------------------------------------------------------------------
  // copy.
  // ---------------------------------------------------------------------------

  /** The loop of `copy(s)`: each slot in turn gets a fresh node appended
      with `make_link(tail, slot)`. */
  function AppendAll(sig: Signal, slots: seq<Behaviour>): Signal
    decreases |slots|
  {
    if slots == [] then sig
    else AppendAll(Connect(sig, slots[0], false).0, slots[1..])
  }

  /** `copy(s)`: walks `s` from `head->next` to `tail`, which in a
      well-formed `s` meets exactly its connected nodes, in order. */
  function Copy(dst: Signal, src: Signal): Signal
  {
    AppendAll(dst, Values(src))
  }

  /** Appending keeps the existing connections, in place, and adds the new
      slots after them in order. */
  lemma {:induction false} AppendAllValues(sig: Signal, slots: seq<Behaviour>)
    requires Valid(sig)
    ensures var r := AppendAll(sig, slots);
      && Valid(r)
      && Values(r) == Values(sig) + slots
      && |Order(r)| == |Order(sig)| + |slots|
      && Order(r)[..|Order(sig)|] == Order(sig)
      && Persists(sig, r)
    decreases |slots|
  {
    if slots != [] {
      ConnectInserts(sig, slots[0], false);
      var c := Connect(sig, slots[0], false).0;
      AppendAllValues(c, slots[1..]);
      var r := AppendAll(c, slots[1..]);
      PersistsTrans(sig, c, r);
      AppendStep(Order(sig), Values(sig), slots, Order(c), Values(c), Order(r), Values(r));
    }
  }

  lemma AppendStep(o: seq<nat>, v: seq<Behaviour>, slots: seq<Behaviour>,
                   oc: seq<nat>, vc: seq<Behaviour>, or: seq<nat>, vr: seq<Behaviour>)
    requires slots != [] && |oc| == |o| + 1 && oc[..|o|] == o && vc == v + [slots[0]]
    requires vr == vc + slots[1..] && |or| == |oc| + |slots| - 1 && or[..|oc|] == oc
    ensures vr == v + slots && |or| == |o| + |slots| && or[..|o|] == o
  {
    assert v + [slots[0]] + slots[1..] == v + slots;
    assert or[..|o|] == or[..|oc|][..|o|];
  }

  /** The copy constructor, `init(); copy(s)`: a fresh signal holding the
      source's connected slots, in order. */
  lemma CopyConstructs(src: Signal)
    requires Valid(src)
    ensures var r := Copy(Empty(), src);
      Valid(r) && Values(r) == Values(src) && |Order(r)| == |Order(src)|
  {
    EmptyValid();
    AppendAllValues(Empty(), Values(src));
  }

  /** Copy assignment: `if (this != &rhs) { clear(); copy(rhs); }`. `aliased`
      says whether `rhs` is the signal itself. */
  function CopyAssign(dst: Signal, src: Signal, aliased: bool): Signal
  {
    if aliased then dst else Copy(Clear(dst), src)
  }

  /** After copy assignment the target holds the source's connected slots in
      order; unless it was a self-assignment, every connection the target had
      before is disconnected (the copies are fresh nodes). */
  lemma CopyAssignReplaces(dst: Signal, src: Signal, aliased: bool)
    requires Valid(dst) && Valid(src)
    requires aliased ==> dst == src
    ensures var r := CopyAssign(dst, src, aliased);
      && Valid(r)
      && Values(r) == Values(src)
      && (aliased ==> r == dst)
      && (!aliased ==> forall x | x in dst.links :: !Connected(r, x))
  {
    if !aliased {
      ClearDisconnectsAll(dst);
      var c := Clear(dst);
      AppendAllValues(c, Values(src));
      var r := AppendAll(c, Values(src));
      forall x | x in dst.links
        ensures !Connected(r, x)
      {
        assert !Connected(c, x);
      }
    }
  }

  // ---------------------------------------------------------------------------
  // swap and move.
  // ---------------------------------------------------------------------------

  /** `swap(other)`: `if (this != &other)` the two signals exchange their
      sentinels, and with them every node. `aliased` says whether `other` is
      the signal itself. */
  function Swap(a: Signal, b: Signal, aliased: bool): (Signal, Signal)
    requires aliased ==> a == b
  {
    if aliased then (a, b) else (b, a)
  }

  /** `swap` hands each signal the other's connections, and swapping back
      restores both. */
  lemma SwapExchanges(a: Signal, b: Signal, aliased: bool)
    requires Valid(a) && Valid(b) && (aliased ==> a == b)
    ensures var (a', b') := Swap(a, b, aliased);
      && Valid(a') && Valid(b')
      && Values(a') == Values(b) && Values(b') == Values(a)
      && Swap(a', b', aliased) == (a, b)
  {
  }

  /** `signal(signal&&)`: the new signal takes the source's sentinels, and
      `init()` gives the source a fresh empty list. */
  function Move(src: Signal): (Signal, Signal)
  {
    (src, Empty())
  }

  /** `operator=(signal&&)`: `destroy()` on the target's own list, then the
      same hand-over. Returns the target's new list, the list it held
      before as `destroy()` left it, and the source's fresh list. */
  function MoveAssign(dst: Signal, src: Signal): (Signal, Signal, Signal)
  {
    (src, Destroy(dst), Empty())
  }

  /** Move assignment leaves the target with the source's connections, the
      source empty, and every node the target held before disconnected. */
  lemma MoveAssignTransfers(dst: Signal, src: Signal)
    requires Valid(dst) && Valid(src)
    ensures var (r, prior, rest) := MoveAssign(dst, src);
      && Valid(r) && Values(r) == Values(src)
      && Valid(rest) && Order(rest) == []
      && prior.links.Keys == dst.links.Keys
      && (forall x | x in dst.links :: !Connected(prior, x))
  {
    EmptyValid();
    ClearDisconnectsAll(dst);
  }

  // ---------------------------------------------------------------------------
  // A cursor on a disconnected node.
  // ---------------------------------------------------------------------------

  /** Every node's `next` leads to `tail` or to a node of the list, so a
      cursor that steps forward from any node never meets a null pointer. */
  lemma NextInList(sig: Signal, id: nat)
    requires Valid(sig) && id in sig.links
    ensures var n := sig.links[id].next; n == Tail || (n.Node? && n.id in sig.links)
  {
    var rank :| Ranked(sig, rank);
    assert id in rank && Forward(sig, rank, id);
  }

  /** Stepping forward from `p` over disconnected nodes, at most `fuel`
      steps: where the cursor comes to rest, and how many nodes it passed. */
  function Settle(sig: Signal, p: Ptr, fuel: nat): (r: (Ptr, nat))
    ensures r.1 <= fuel
    decreases fuel
  {
    if fuel == 0 || !p.Node? || p.id !in sig.links || sig.links[p.id].prev != Null then (p, 0)
    else
      var q := Settle(sig, sig.links[p.id].next, fuel - 1);
      (q.0, q.1 + 1)
  }

  /** The nodes ranked at or above `r`. */
  ghost function Above(sig: Signal, rank: map<nat, real>, r: real): set<nat>
  {
    set id | id in sig.links && id in rank && rank[id] >= r
  }

  lemma {:induction false} SettleFrom(sig: Signal, rank: map<nat, real>, p: Ptr, fuel: nat)
    requires Ranked(sig, rank)
    requires p == Tail || (p.Node? && p.id in sig.links)
    requires p.Node? ==> p.id in rank && fuel >= |Above(sig, rank, rank[p.id])|
    ensures var q := Settle(sig, p, fuel).0; q == Tail || (q.Node? && Connected(sig, q.id))
    decreases fuel
  {
    if p.Node? && sig.links[p.id].prev == Null {
      assert p.id in Above(sig, rank, rank[p.id]);
      assert Forward(sig, rank, p.id);
      var n := sig.links[p.id].next;
      if n.Node? {
        var a, b := Above(sig, rank, rank[n.id]), Above(sig, rank, rank[p.id]);
        assert a < b by {
          assert p.id !in a;
        }
        ProperSubsetCardinality(a, b);
      }
      SettleFrom(sig, rank, n, fuel - 1);
    }
  }

  /** A cursor left on a disconnected node, stepping forward over
      disconnected nodes only, comes to rest on `tail` or on a connected node
      within `|links|` steps: the kept `next` links lead forward and never
      around in a circle. */
  lemma Settles(sig: Signal, id: nat)
    requires Valid(sig) && id in sig.links
    ensures var q := Settle(sig, Node(id), |sig.links|).0; q == Tail || (q.Node? && Connected(sig, q.id))
  {
    var rank :| Ranked(sig, rank);
    assert id in rank;
    SubsetCardinality(Above(sig, rank, rank[id]), sig.links.Keys);
    SettleFrom(sig, rank, Node(id), |sig.links|);
  }
}
