/** `stable_list<T>`: the sentinel-bounded doubly linked list with an element
    counter that rocket.hpp (v1.3) and simple.hpp (v1.1) each carry, with the
    same code, and that simple.hpp uses to store a signal's connections.

    A list owns two sentinel links, `head` and `tail`; the elements are the
    links between them. Erasing a link rewires its neighbours but leaves the
    erased link's own `prev`/`next` untouched, so an iterator sitting on it
    can still step forward. Links are never reclaimed here: a link id, once
    allocated, stays in `links` (reference-counted reclamation is not
    observable and is not modelled). */
module StableList {
  import opened Links

  /** `std::size_t` wraps modulo 2^64. */
  const SIZE_MODULUS: nat := 0x1_0000_0000_0000_0000

  /** `++elements` on a `std::size_t`. */
  function Inc(n: nat): (r: nat)
    ensures r < SIZE_MODULUS
    ensures n + 1 < SIZE_MODULUS ==> r == n + 1
  {
    (n + 1) % SIZE_MODULUS
  }

  /** `--elements` on a `std::size_t`: zero wraps to the largest value. */
  function Dec(n: nat): (r: nat)
    ensures r < SIZE_MODULUS
    ensures 0 < n < SIZE_MODULUS ==> r == n - 1
    ensures n == 0 ==> r == SIZE_MODULUS - 1
  {
    (n + SIZE_MODULUS - 1) % SIZE_MODULUS
  }

  /** An integer as a `std::size_t` holds it: reduced modulo 2^64. */
  function Wrapped(x: int): (r: nat)
    ensures r < SIZE_MODULUS
    ensures 0 <= x < SIZE_MODULUS ==> r == x
  {
    x % SIZE_MODULUS
  }

  /** A counter that holds `x` modulo 2^64 holds `x + 1` after `++` and
      `x - 1` after `--`, modulo 2^64 again. */
  lemma CounterSteps(x: int)
    ensures Inc(Wrapped(x)) == Wrapped(x + 1)
    ensures Dec(Wrapped(x)) == Wrapped(x - 1)
  {
    var q := x / SIZE_MODULUS;
    assert x == q * SIZE_MODULUS + Wrapped(x);
    ModShift(Wrapped(x) + 1, q);
    ModShift(Wrapped(x) + SIZE_MODULUS - 1, q - 1);
  }

  lemma ModShift(a: int, q: int)
    ensures (a + q * SIZE_MODULUS) % SIZE_MODULUS == a % SIZE_MODULUS
  {
  }

  /** A non-sentinel link: its value and its two pointers. */
  datatype Link<T> = Link(value: T, prev: Ptr, next: Ptr)

  /** A list: its element links by id, the sentinels' `head->next` (`first`)
      and `tail->prev` (`last`), the counter `elements`, and the next unused link id. */
  datatype List<T> = List(links: map<nat, Link<T>>, first: Ptr, last: Ptr, elements: nat, nextId: nat)

  /** `init()`: `head->next = tail`, `tail->prev = head`, `elements = 0`. */
  function Empty<T>(): List<T>
  {
    List(map[], Tail, Head, 0, 0)
  }

  /** Following a `next` pointer (`++iterator`). */
  function Next<T>(l: List<T>, p: Ptr): Ptr
  {
    match p
    case Head => l.first
    case Node(id) => if id in l.links then l.links[id].next else Null
    case _ => Null
  }

  /** Following a `prev` pointer (`--iterator`). */
  function Prev<T>(l: List<T>, p: Ptr): Ptr
  {
    match p
    case Tail => l.last
    case Node(id) => if id in l.links then l.links[id].prev else Null
    case _ => Null
  }

  /** `p->next = q`. */
  function SetNext<T>(l: List<T>, p: Ptr, q: Ptr): List<T>
  {
    match p
    case Head => l.(first := q)
    case Node(id) => if id in l.links then l.(links := l.links[id := l.links[id].(next := q)]) else l
    case _ => l
  }

  /** `p->prev = q`. */
  function SetPrev<T>(l: List<T>, p: Ptr, q: Ptr): List<T>
  {
    match p
    case Tail => l.(last := q)
    case Node(id) => if id in l.links then l.(links := l.links[id := l.links[id].(prev := q)]) else l
    case _ => l
  }

  // ---------------------------------------------------------------------------
  // The links between the sentinels.
  // ---------------------------------------------------------------------------

  /** `s` is the sequence of link ids from `head` to `tail`: every forward and
      backward pointer along it is consistent, and no id repeats. */
  ghost predicate Repr<T>(l: List<T>, s: seq<nat>)
  {
    && Distinct(s)
    && (forall i | 0 <= i < |s| :: s[i] in l.links)
    && (forall id | id in l.links :: id < l.nextId)
    && l.first == PtrAt(s, 0)
    && l.last == PtrBefore(s, |s|)
    && (forall i {:trigger l.links[s[i]]} | 0 <= i < |s| :: l.links[s[i]].next == PtrAt(s, i + 1))
    && (forall i {:trigger l.links[s[i]]} | 0 <= i < |s| :: l.links[s[i]].prev == PtrBefore(s, i))
  }

  /** The ids met following `next` from `p`, at most `fuel` of them, up to the
      first pointer that is not an element link. */
  function Walk<T>(l: List<T>, p: Ptr, fuel: nat): (s: seq<nat>)
    ensures forall i | 0 <= i < |s| :: s[i] in l.links
    decreases fuel
  {
    if fuel == 0 || !p.Node? || p.id !in l.links then []
    else [p.id] + Walk(l, l.links[p.id].next, fuel - 1)
  }

  /** The elements in list order: `begin()` to `end()`. */
  function Order<T>(l: List<T>): seq<nat>
  {
    Walk(l, l.first, |l.links|)
  }

  /** The values in list order. */
  function Values<T>(l: List<T>): (vs: seq<T>)
    ensures |vs| == |Order(l)|
  {
    ValuesOf(l, Order(l))
  }

  /** The values held by the links `s`. */
  function ValuesOf<T>(l: List<T>, s: seq<nat>): (vs: seq<T>)
    requires forall i | 0 <= i < |s| :: s[i] in l.links
    ensures |vs| == |s|
    ensures forall i {:trigger vs[i]} | 0 <= i < |s| :: vs[i] == l.links[s[i]].value
  {
    seq(|s|, i requires 0 <= i < |s| => l.links[s[i]].value)
  }

  /** A well-formed list: the links between the sentinels are consistent and
      `elements` counts them. */
  ghost predicate Valid<T>(l: List<T>)
  {
    Repr(l, Order(l)) && l.elements == |Order(l)| < SIZE_MODULUS
  }

  lemma {:induction false} WalkAlongRepr<T>(l: List<T>, s: seq<nat>, i: nat, fuel: nat)
    requires Repr(l, s)
    requires i <= |s| && fuel >= |s| - i
    ensures Walk(l, PtrAt(s, i), fuel) == s[i..]
    decreases |s| - i
  {
    if i < |s| {
      var x, j, f := s[i], i + 1, fuel - 1;
      assert l.links[x].next == PtrAt(s, j);
      WalkStep(l, x, fuel, f);
      WalkAlongRepr(l, s, j, f);
      DropCons(s, i, j);
    }
  }

  /** One step of the walk over an element link. */
  lemma {:induction false} WalkStep<T>(l: List<T>, x: nat, fuel: nat, f: nat)
    requires x in l.links && fuel == f + 1
    ensures Walk(l, Node(x), fuel) == [x] + Walk(l, l.links[x].next, f)
  {
  }

  lemma {:induction false} DropCons<T>(s: seq<T>, i: nat, j: nat)
    requires i < |s| && j == i + 1
    ensures s[i..] == [s[i]] + s[j..]
  {
  }

  /** The walk from `head` recovers any consistent description of the list. */
  lemma OrderOfRepr<T>(l: List<T>, s: seq<nat>)
    requires Repr(l, s)
    ensures Order(l) == s
  {
    DistinctCardinality(s, l.links.Keys);
    WalkAlongRepr(l, s, 0, |l.links|);
  }

  /** A fresh list is empty and well formed. */
  lemma EmptyValid<T>()
    ensures Valid(Empty<T>()) && Order(Empty<T>()) == []
  {
    OrderOfRepr(Empty<T>(), []);
  }

  /** The index an iterator designates in the ordering `s`: an element's
      position, or `|s|` for `end()`. */
  function PosIndex(s: seq<nat>, pos: Ptr): (i: nat)
    ensures i <= |s|
    ensures pos.Node? && pos.id in s ==> i < |s| && s[i] == pos.id
  {
    if pos.Node? && pos.id in s then IndexOf(s, pos.id) else |s|
  }

  /** An iterator of the list: an element or `end()`. */
  ghost predicate IsPosition<T>(l: List<T>, pos: Ptr)
  {
    pos == Tail || (pos.Node? && pos.id in Order(l))
  }

  lemma PtrAtPosIndex(s: seq<nat>, pos: Ptr)
    requires Distinct(s)
    requires pos == Tail || (pos.Node? && pos.id in s)
    ensures PtrAt(s, PosIndex(s, pos)) == pos
  {
  }

  // ---------------------------------------------------------------------------
  // Insertion.
  // ---------------------------------------------------------------------------

  /** `make_link(l, value)`: a new link holding `value` placed just before `pos`.
      `insert`, `emplace`, `push_front` and `push_back` all come here. Returns
      the new list and the id of the new link. */
  function MakeLink<T>(l: List<T>, pos: Ptr, v: T): (List<T>, nat)
  {
    var id := l.nextId;
    var p := Prev(l, pos);
    var l1 := l.(links := l.links[id := Link(v, p, pos)], nextId := l.nextId + 1);
    var l2 := SetNext(l1, p, Node(id));
    var l3 := SetPrev(l2, pos, Node(id));
    (l3.(elements := Inc(l.elements)), id)
  }

  /** Inserting a new id into a duplicate-free ordering keeps it duplicate free. */
  lemma InsertDistinct(s: seq<nat>, i: nat, id: nat)
    requires Distinct(s) && i <= |s| && id !in s
    ensures Distinct(s[..i] + [id] + s[i..])
  {
    var s' := s[..i] + [id] + s[i..];
    forall a, b | 0 <= a < b < |s'|
      ensures s'[a] != s'[b]
    {
      if b < i {
        assert s'[a] == s[a] && s'[b] == s[b];
      } else if b == i {
        assert s'[a] == s[a];
      } else if a < i {
        assert s'[a] == s[a] && s'[b] == s[b - 1];
      } else if a == i {
        assert s'[b] == s[b - 1];
      } else {
        assert s'[a] == s[a - 1] && s'[b] == s[b - 1];
      }
    }
  }

  /** What `make_link` changes: the new link, `prev->next` and `pos->prev`. */
  lemma MakeLinkFrame<T>(l: List<T>, pos: Ptr, v: T)
    requires l.nextId !in l.links
    requires pos == Tail || (pos.Node? && pos.id in l.links)
    requires Prev(l, pos) == Head || (Prev(l, pos).Node? && Prev(l, pos).id in l.links && Prev(l, pos) != pos)
    ensures var r := MakeLink(l, pos, v).0; var id := l.nextId; var p := Prev(l, pos);
      && r.links.Keys == l.links.Keys + {id}
      && r.links[id] == Link(v, p, pos)
      && r.first == (if p == Head then Node(id) else l.first)
      && r.last == (if pos == Tail then Node(id) else l.last)
      && (p.Node? ==> r.links[p.id] == l.links[p.id].(next := Node(id)))
      && (pos.Node? ==> r.links[pos.id] == l.links[pos.id].(prev := Node(id)))
      && (forall x {:trigger r.links[x]} | x in l.links && p != Node(x) && pos != Node(x) :: r.links[x] == l.links[x])
      && r.nextId == l.nextId + 1
      && r.elements == Inc(l.elements)
  {
    var id := l.nextId;
    var p := Prev(l, pos);
    var l1 := l.(links := l.links[id := Link(v, p, pos)], nextId := l.nextId + 1);
    var l2 := SetNext(l1, p, Node(id));
    var l3 := SetPrev(l2, pos, Node(id));
    assert MakeLink(l, pos, v).0 == l3.(elements := Inc(l.elements));
    if p.Node? {
      assert l2.links == l1.links[p.id := l1.links[p.id].(next := Node(id))];
    } else {
      assert l2 == l1.(first := Node(id));
    }
    if pos.Node? {
      assert l3.links == l2.links[pos.id := l2.links[pos.id].(prev := Node(id))];
    } else {
      assert l3 == l2.(last := Node(id));
    }
  }

  /** Indexing into an ordering with one id spliced in. */
  lemma InsertIndex(s: seq<nat>, i: nat, id: nat, k: nat)
    requires i <= |s| && k <= |s|
    ensures (s[..i] + [id] + s[i..])[k] == if k < i then s[k] else if k == i then id else s[k - 1]
  {
  }

  /** Indexing into an ordering with the stretch `s[i..j]` cut out. */
  lemma CutIndex(s: seq<nat>, i: nat, j: nat, k: nat)
    requires i <= j <= |s| && k < |s| - (j - i)
    ensures (s[..i] + s[j..])[k] == if k < i then s[k] else s[k - i + j]
  {
  }

  /** What `make_link` at position `i` of the ordering `s` leaves behind in
      `r`: the new link `id` between `s[i-1]` and `s[i]`, those two rewired to
      it, everything else as it was. */
  ghost predicate Spliced<T>(l: List<T>, r: List<T>, s: seq<nat>, i: nat, id: nat, v: T)
    requires i <= |s|
  {
    && r.links.Keys == l.links.Keys + {id}
    && r.links[id] == Link(v, PtrBefore(s, i), PtrAt(s, i))
    && r.first == (if i == 0 then Node(id) else l.first)
    && r.last == (if i == |s| then Node(id) else l.last)
    && (0 < i ==> s[i - 1] in l.links && r.links[s[i - 1]] == l.links[s[i - 1]].(next := Node(id)))
    && (i < |s| ==> s[i] in l.links && r.links[s[i]] == l.links[s[i]].(prev := Node(id)))
    && (forall x {:trigger r.links[x]} | x in l.links && PtrBefore(s, i) != Node(x) && PtrAt(s, i) != Node(x) :: r.links[x] == l.links[x])
    && r.nextId == id + 1
  }

  lemma SplicedBefore<T>(l: List<T>, r: List<T>, s: seq<nat>, i: nat, id: nat, v: T, k: nat)
    requires Repr(l, s) && i <= |s| && Spliced(l, r, s, i, id, v)
    requires k < i
    ensures s[k] in r.links
    ensures r.links[s[k]].next == (if k + 1 < i then Node(s[k + 1]) else Node(id))
    ensures r.links[s[k]].prev == PtrBefore(s, k)
  {
    if k + 1 < i {
      assert s[k] != s[i - 1];
    }
    if i < |s| {
      assert s[k] != s[i];
    }
  }

  lemma SplicedAfter<T>(l: List<T>, r: List<T>, s: seq<nat>, i: nat, id: nat, v: T, k: nat)
    requires Repr(l, s) && i <= |s| && Spliced(l, r, s, i, id, v)
    requires i <= k < |s|
    ensures s[k] in r.links
    ensures r.links[s[k]].next == PtrAt(s, k + 1)
    ensures r.links[s[k]].prev == (if k == i then Node(id) else Node(s[k - 1]))
  {
    if k == i {
      assert r.links[s[i]] == l.links[s[i]].(prev := Node(id));
    } else {
      assert s[k] != s[i];
      if 0 < i {
        assert s[k] != s[i - 1];
      }
      assert PtrBefore(s, i) != Node(s[k]) && PtrAt(s, i) != Node(s[k]);
      assert r.links[s[k]] == l.links[s[k]];
    }
  }

  /** The pointers at position `k` of the lengthened ordering, before the new link. */
  lemma SplicedAtBefore<T>(l: List<T>, r: List<T>, s: seq<nat>, i: nat, id: nat, v: T, s': seq<nat>, k: nat)
    requires Repr(l, s) && i <= |s| && Spliced(l, r, s, i, id, v)
    requires s' == s[..i] + [id] + s[i..] && k < i
    ensures s'[k] in r.links
    ensures r.links[s'[k]].next == PtrAt(s', k + 1)
    ensures r.links[s'[k]].prev == PtrBefore(s', k)
  {
    InsertIndex(s, i, id, k);
    InsertIndex(s, i, id, k + 1);
    if 0 < k {
      InsertIndex(s, i, id, k - 1);
    }
    SplicedBefore(l, r, s, i, id, v, k);
  }

  /** The pointers of the new link. */
  lemma SplicedAtNew<T>(l: List<T>, r: List<T>, s: seq<nat>, i: nat, id: nat, v: T, s': seq<nat>)
    requires i <= |s| && Spliced(l, r, s, i, id, v)
    requires s' == s[..i] + [id] + s[i..]
    ensures s'[i] in r.links
    ensures r.links[s'[i]].next == PtrAt(s', i + 1)
    ensures r.links[s'[i]].prev == PtrBefore(s', i)
  {
    InsertIndex(s, i, id, i);
    if i < |s| {
      InsertIndex(s, i, id, i + 1);
    }
    if 0 < i {
      InsertIndex(s, i, id, i - 1);
    }
  }

  /** The pointers at position `k` of the lengthened ordering, after the new link. */
  lemma SplicedAtAfter<T>(l: List<T>, r: List<T>, s: seq<nat>, i: nat, id: nat, v: T, s': seq<nat>, k: nat)
    requires Repr(l, s) && i <= |s| && Spliced(l, r, s, i, id, v)
    requires s' == s[..i] + [id] + s[i..] && i < k < |s'|
    ensures s'[k] in r.links
    ensures r.links[s'[k]].next == PtrAt(s', k + 1)
    ensures r.links[s'[k]].prev == PtrBefore(s', k)
  {
    InsertIndex(s, i, id, k);
    if k + 1 < |s'| {
      InsertIndex(s, i, id, k + 1);
    }
    InsertIndex(s, i, id, k - 1);
    SplicedAfter(l, r, s, i, id, v, k - 1);
  }

  lemma SplicedPointers<T>(l: List<T>, r: List<T>, s: seq<nat>, i: nat, id: nat, v: T, s': seq<nat>)
    requires Repr(l, s) && i <= |s| && Spliced(l, r, s, i, id, v)
    requires s' == s[..i] + [id] + s[i..]
    ensures forall k | 0 <= k < |s'| :: s'[k] in r.links
    ensures forall k {:trigger r.links[s'[k]]} | 0 <= k < |s'| :: r.links[s'[k]].next == PtrAt(s', k + 1)
    ensures forall k {:trigger r.links[s'[k]]} | 0 <= k < |s'| :: r.links[s'[k]].prev == PtrBefore(s', k)
  {
    forall k | 0 <= k < |s'|
      ensures s'[k] in r.links
      ensures r.links[s'[k]].next == PtrAt(s', k + 1)
      ensures r.links[s'[k]].prev == PtrBefore(s', k)
    {
      if k < i {
        SplicedAtBefore(l, r, s, i, id, v, s', k);
      } else if k == i {
        SplicedAtNew(l, r, s, i, id, v, s');
      } else {
        SplicedAtAfter(l, r, s, i, id, v, s', k);
      }
    }
  }

  lemma SplicedSentinels<T>(l: List<T>, r: List<T>, s: seq<nat>, i: nat, id: nat, v: T, s': seq<nat>)
    requires Repr(l, s) && i <= |s| && Spliced(l, r, s, i, id, v)
    requires s' == s[..i] + [id] + s[i..]
    ensures r.first == PtrAt(s', 0) && r.last == PtrBefore(s', |s'|)
  {
    SplicedFirst(l, r, s, i, id, v, s');
    SplicedLast(l, r, s, i, id, v, s');
  }

  lemma SplicedFirst<T>(l: List<T>, r: List<T>, s: seq<nat>, i: nat, id: nat, v: T, s': seq<nat>)
    requires Repr(l, s) && i <= |s| && Spliced(l, r, s, i, id, v)
    requires s' == s[..i] + [id] + s[i..]
    ensures r.first == PtrAt(s', 0)
  {
    InsertIndex(s, i, id, 0);
  }

  lemma SplicedLast<T>(l: List<T>, r: List<T>, s: seq<nat>, i: nat, id: nat, v: T, s': seq<nat>)
    requires Repr(l, s) && i <= |s| && Spliced(l, r, s, i, id, v)
    requires s' == s[..i] + [id] + s[i..]
    ensures r.last == PtrBefore(s', |s'|)
  {
    var n := |s|;
    InsertIndex(s, i, id, n);
    assert |s'| == n + 1;
    assert PtrBefore(s', |s'|) == Node(s'[n]);
  }

  lemma SplicedRepr<T>(l: List<T>, r: List<T>, s: seq<nat>, i: nat, id: nat, v: T)
    requires Repr(l, s) && i <= |s| && Spliced(l, r, s, i, id, v)
    requires l.nextId == id
    ensures Repr(r, s[..i] + [id] + s[i..])
  {
    var s' := s[..i] + [id] + s[i..];
    assert id !in s;
    InsertDistinct(s, i, id);
    SplicedPointers(l, r, s, i, id, v, s');
    SplicedSentinels(l, r, s, i, id, v, s');
  }

  /** At the pointer level, `make_link` before `s[i]` splices a new link in. */
  lemma MakeLinkSpliced<T>(l: List<T>, s: seq<nat>, i: nat, v: T)
    requires Distinct(s) && i <= |s| && forall k | 0 <= k < |s| :: s[k] in l.links
    requires l.nextId !in l.links
    requires Prev(l, PtrAt(s, i)) == PtrBefore(s, i)
    ensures var r := MakeLink(l, PtrAt(s, i), v).0;
      && Spliced(l, r, s, i, l.nextId, v)
      && r.elements == Inc(l.elements)
  {
    if 0 < i && i < |s| {
      assert s[i - 1] != s[i];
    }
    MakeLinkFrame(l, PtrAt(s, i), v);
  }

  lemma MakeLinkRepr<T>(l: List<T>, s: seq<nat>, i: nat, v: T)
    requires Repr(l, s) && i <= |s|
    ensures var r := MakeLink(l, PtrAt(s, i), v).0;
      && Repr(r, s[..i] + [l.nextId] + s[i..])
      && l.nextId in r.links && r.links[l.nextId].value == v
      && r.elements == Inc(l.elements)
      && (forall x {:trigger r.links[x]} | x in l.links :: x in r.links && r.links[x].value == l.links[x].value)
  {
    MakeLinkSpliced(l, s, i, v);
    var r := MakeLink(l, PtrAt(s, i), v).0;
    SplicedRepr(l, r, s, i, l.nextId, v);
    SplicedKeepsValues(l, r, s, i, l.nextId, v);
  }

  /** Splicing a link in keeps every other link's value. */
  lemma SplicedKeepsValues<T>(l: List<T>, r: List<T>, s: seq<nat>, i: nat, id: nat, v: T)
    requires i <= |s| && Spliced(l, r, s, i, id, v)
    ensures forall x {:trigger r.links[x]} | x in l.links :: x in r.links && r.links[x].value == l.links[x].value
  {
    forall x | x in l.links
      ensures x in r.links && r.links[x].value == l.links[x].value
    {
      if 0 < i && x == s[i - 1] {
      } else if i < |s| && x == s[i] {
      } else {
        assert r.links[x] == l.links[x];
      }
    }
  }

  /** Splicing a new link holding `v` into the ordering splices `v` into the
      values. */
  lemma InsertValues<T>(l: List<T>, r: List<T>, s: seq<nat>, i: nat, id: nat, v: T)
    requires i <= |s| && forall k | 0 <= k < |s| :: s[k] in l.links
    requires id in r.links && r.links[id].value == v
    requires forall x | x in l.links :: x in r.links
    requires forall x {:trigger r.links[x]} | x in l.links :: x in r.links && r.links[x].value == l.links[x].value
    ensures ValuesOf(r, s[..i] + [id] + s[i..]) == ValuesOf(l, s)[..i] + [v] + ValuesOf(l, s)[i..]
  {
    var s' := s[..i] + [id] + s[i..];
    var vs, vs' := ValuesOf(l, s), ValuesOf(r, s');
    forall k | 0 <= k < |vs'|
      ensures vs'[k] == (vs[..i] + [v] + vs[i..])[k]
    {
      if k < i {
        assert s'[k] == s[k];
        assert r.links[s[k]].value == l.links[s[k]].value;
      } else if k > i {
        assert s'[k] == s[k - 1];
        assert r.links[s[k - 1]].value == l.links[s[k - 1]].value;
      }
    }
  }

  /** Inserting before an iterator puts the value at that position and adds
      one to `elements`; nothing else in the list moves. */
  lemma MakeLinkInserts<T>(l: List<T>, pos: Ptr, v: T)
    requires Valid(l) && IsPosition(l, pos)
    requires |Order(l)| + 1 < SIZE_MODULUS
    ensures var (r, id) := MakeLink(l, pos, v);
      var s, i := Order(l), PosIndex(Order(l), pos);
      && Valid(r)
      && id !in s
      && Order(r) == s[..i] + [id] + s[i..]
      && Values(r) == Values(l)[..i] + [v] + Values(l)[i..]
      && r.elements == l.elements + 1
  {
    var s := Order(l);
    var i := PosIndex(s, pos);
    PtrAtPosIndex(s, pos);
    MakeLinkOrder(l, s, i, v);
    MakeLinkValues(l, s, i, v);
  }

  /** `make_link` at position `i`: the new link sits at position `i` of the
      ordering and every other link keeps its value. */
  lemma MakeLinkOrder<T>(l: List<T>, s: seq<nat>, i: nat, v: T)
    requires Valid(l) && s == Order(l) && i <= |s| && |s| + 1 < SIZE_MODULUS
    ensures var (r, id) := MakeLink(l, PtrAt(s, i), v);
      && Valid(r) && id == l.nextId && id !in s
      && Order(r) == s[..i] + [id] + s[i..]
      && r.elements == l.elements + 1
      && id in r.links && r.links[id].value == v
      && (forall x {:trigger r.links[x]} | x in l.links :: x in r.links && r.links[x].value == l.links[x].value)
  {
    MakeLinkRepr(l, s, i, v);
    var r := MakeLink(l, PtrAt(s, i), v).0;
    OrderOfRepr(r, s[..i] + [l.nextId] + s[i..]);
    assert r.elements == Inc(l.elements);
  }

  lemma MakeLinkValues<T>(l: List<T>, s: seq<nat>, i: nat, v: T)
    requires Valid(l) && s == Order(l) && i <= |s| && |s| + 1 < SIZE_MODULUS
    ensures Values(MakeLink(l, PtrAt(s, i), v).0) == Values(l)[..i] + [v] + Values(l)[i..]
  {
    MakeLinkOrder(l, s, i, v);
    var r := MakeLink(l, PtrAt(s, i), v).0;
    InsertValues(l, r, s, i, l.nextId, v);
  }


  // ---------------------------------------------------------------------------
  // Erasure.
  // ---------------------------------------------------------------------------

  /** `p->next = n; n->prev = p;`: the two neighbours of an erased stretch
      made to point at each other. */
  function Rewire<T>(l: List<T>, p: Ptr, n: Ptr): (r: List<T>)
    ensures r.links.Keys == l.links.Keys
  {
    SetPrev(SetNext(l, p, n), n, p)
  }

  /** What `Rewire` changes: `p`'s `next` and `n`'s `prev`, nothing else. */
  lemma RewireFrame<T>(l: List<T>, p: Ptr, n: Ptr)
    requires p == Head || (p.Node? && p.id in l.links)
    requires n == Tail || (n.Node? && n.id in l.links)
    requires p != n
    ensures var r := Rewire(l, p, n);
      && r.links.Keys == l.links.Keys
      && r.first == (if p == Head then n else l.first)
      && r.last == (if n == Tail then p else l.last)
      && (p.Node? ==> r.links[p.id] == l.links[p.id].(next := n))
      && (n.Node? ==> r.links[n.id] == l.links[n.id].(prev := p))
      && (forall x {:trigger r.links[x]} | x in l.links && p != Node(x) && n != Node(x) :: r.links[x] == l.links[x])
      && r.nextId == l.nextId && r.elements == l.elements
  {
    var l1 := SetNext(l, p, n);
    if p.Node? {
      assert l1.links == l.links[p.id := l.links[p.id].(next := n)];
    } else {
      assert l1 == l.(first := n);
    }
    if n.Node? {
      assert Rewire(l, p, n).links == l1.links[n.id := l1.links[n.id].(prev := p)];
    } else {
      assert Rewire(l, p, n) == l1.(last := p);
    }
  }

  /** `r` is `l` with the stretch `s[i..j]` of its ordering `s` cut out: the
      links on either side of it point at each other and every other link
      that stays keeps its pointers. The cut-out links are not constrained. */
  ghost predicate Bypassed<T>(l: List<T>, r: List<T>, s: seq<nat>, i: nat, j: nat)
    requires i <= j <= |s|
  {
    && r.links.Keys == l.links.Keys
    && r.first == (if i == 0 then PtrAt(s, j) else l.first)
    && r.last == (if j == |s| then PtrBefore(s, i) else l.last)
    && (0 < i ==> s[i - 1] in l.links && r.links[s[i - 1]] == l.links[s[i - 1]].(next := PtrAt(s, j)))
    && (j < |s| ==> s[j] in l.links && r.links[s[j]] == l.links[s[j]].(prev := PtrBefore(s, i)))
    && (forall k {:trigger r.links[s[k]]} | 0 <= k < |s| && (k + 1 < i || j < k) :: s[k] in l.links && r.links[s[k]] == l.links[s[k]])
    && r.nextId == l.nextId
  }

  /** Cutting a stretch out of a duplicate-free ordering keeps it duplicate free. */
  lemma CutDistinct(s: seq<nat>, i: nat, j: nat)
    requires Distinct(s) && i <= j <= |s|
    ensures Distinct(s[..i] + s[j..])
  {
    var s' := s[..i] + s[j..];
    forall a, b | 0 <= a < b < |s'|
      ensures s'[a] != s'[b]
    {
      if b < i {
        assert s'[a] == s[a] && s'[b] == s[b];
      } else if a < i {
        assert s'[a] == s[a] && s'[b] == s[b - i + j];
      } else {
        assert s'[a] == s[a - i + j] && s'[b] == s[b - i + j];
      }
    }
  }

  lemma BypassedBefore<T>(l: List<T>, r: List<T>, s: seq<nat>, i: nat, j: nat, k: nat)
    requires Repr(l, s) && i <= j <= |s| && Bypassed(l, r, s, i, j)
    requires k < i
    ensures s[k] in r.links
    ensures r.links[s[k]].next == (if k + 1 < i then Node(s[k + 1]) else PtrAt(s, j))
    ensures r.links[s[k]].prev == PtrBefore(s, k)
  {
    if k + 1 == i {
      assert r.links[s[k]] == l.links[s[k]].(next := PtrAt(s, j));
    } else {
      assert r.links[s[k]] == l.links[s[k]];
    }
  }

  lemma BypassedAfter<T>(l: List<T>, r: List<T>, s: seq<nat>, i: nat, j: nat, k: nat)
    requires Repr(l, s) && i <= j <= |s| && Bypassed(l, r, s, i, j)
    requires j <= k < |s|
    ensures s[k] in r.links
    ensures r.links[s[k]].next == PtrAt(s, k + 1)
    ensures r.links[s[k]].prev == (if k == j then PtrBefore(s, i) else Node(s[k - 1]))
  {
    if k == j {
      assert r.links[s[j]] == l.links[s[j]].(prev := PtrBefore(s, i));
    } else {
      assert r.links[s[k]] == l.links[s[k]];
    }
  }

  /** The pointers at position `k` of the shortened ordering, before the cut. */
  lemma BypassedAtBefore<T>(l: List<T>, r: List<T>, s: seq<nat>, i: nat, j: nat, s': seq<nat>, k: nat)
    requires Repr(l, s) && i <= j <= |s| && Bypassed(l, r, s, i, j)
    requires s' == s[..i] + s[j..] && k < i
    ensures s'[k] in r.links
    ensures r.links[s'[k]].next == PtrAt(s', k + 1)
    ensures r.links[s'[k]].prev == PtrBefore(s', k)
  {
    CutIndex(s, i, j, k);
    if k + 1 < |s'| {
      CutIndex(s, i, j, k + 1);
    }
    if 0 < k {
      CutIndex(s, i, j, k - 1);
    }
    BypassedBefore(l, r, s, i, j, k);
  }

  /** The pointers at position `k` of the shortened ordering, after the cut. */
  lemma BypassedAtAfter<T>(l: List<T>, r: List<T>, s: seq<nat>, i: nat, j: nat, s': seq<nat>, k: nat)
    requires Repr(l, s) && i <= j <= |s| && Bypassed(l, r, s, i, j)
    requires s' == s[..i] + s[j..] && i <= k < |s'|
    ensures s'[k] in r.links
    ensures r.links[s'[k]].next == PtrAt(s', k + 1)
    ensures r.links[s'[k]].prev == PtrBefore(s', k)
  {
    var m: nat := k - i + j;
    CutPointersAfter(s, i, j, s', k, m);
    BypassedAfter(l, r, s, i, j, m);
  }

  /** Position `k` of the shortened ordering, at or after the cut, is
      position `m` of the original, and so are its neighbours. */
  lemma CutPointersAfter(s: seq<nat>, i: nat, j: nat, s': seq<nat>, k: nat, m: nat)
    requires i <= j <= |s| && s' == s[..i] + s[j..] && i <= k < |s'| && m == k - i + j
    ensures s'[k] == s[m]
    ensures PtrAt(s', k + 1) == PtrAt(s, m + 1)
    ensures PtrBefore(s', k) == if m == j then PtrBefore(s, i) else Node(s[m - 1])
  {
    if k + 1 < |s'| {
      assert s'[k + 1] == s[m + 1];
    }
    if 0 < k {
      assert s'[k - 1] == if k == i then s[i - 1] else s[m - 1];
    }
  }


  lemma BypassedPointers<T>(l: List<T>, r: List<T>, s: seq<nat>, i: nat, j: nat, s': seq<nat>)
    requires Repr(l, s) && i <= j <= |s| && Bypassed(l, r, s, i, j)
    requires s' == s[..i] + s[j..]
    ensures forall k | 0 <= k < |s'| :: s'[k] in r.links
    ensures forall k {:trigger r.links[s'[k]]} | 0 <= k < |s'| :: r.links[s'[k]].next == PtrAt(s', k + 1)
    ensures forall k {:trigger r.links[s'[k]]} | 0 <= k < |s'| :: r.links[s'[k]].prev == PtrBefore(s', k)
  {
    forall k | 0 <= k < |s'|
      ensures s'[k] in r.links
      ensures r.links[s'[k]].next == PtrAt(s', k + 1)
      ensures r.links[s'[k]].prev == PtrBefore(s', k)
    {
      if k < i {
        BypassedAtBefore(l, r, s, i, j, s', k);
      } else {
        BypassedAtAfter(l, r, s, i, j, s', k);
      }
    }
  }

  lemma BypassedSentinels<T>(l: List<T>, r: List<T>, s: seq<nat>, i: nat, j: nat, s': seq<nat>)
    requires Repr(l, s) && i <= j <= |s| && Bypassed(l, r, s, i, j)
    requires s' == s[..i] + s[j..]
    ensures r.first == PtrAt(s', 0) && r.last == PtrBefore(s', |s'|)
  {
    if 0 < |s'| {
      CutIndex(s, i, j, 0);
      CutIndex(s, i, j, |s'| - 1);
    }
  }

  /** A bypassed stretch is no longer part of the list; the rest is, in order. */
  lemma BypassedRepr<T>(l: List<T>, r: List<T>, s: seq<nat>, i: nat, j: nat)
    requires Repr(l, s) && i <= j <= |s| && Bypassed(l, r, s, i, j)
    ensures Repr(r, s[..i] + s[j..])
  {
    var s' := s[..i] + s[j..];
    CutDistinct(s, i, j);
    BypassedPointers(l, r, s, i, j, s');
    BypassedSentinels(l, r, s, i, j, s');
  }

  /** Removing the stretch `s[i..j]` from the ordering removes the matching
      stretch of values. */
  lemma CutValues<T>(l: List<T>, r: List<T>, s: seq<nat>, i: nat, j: nat)
    requires i <= j <= |s|
    requires forall k | 0 <= k < |s| :: s[k] in l.links
    requires forall k | 0 <= k < |s| && (k < i || j <= k) :: s[k] in r.links
    requires forall k {:trigger r.links[s[k]]} | 0 <= k < |s| && (k < i || j <= k) :: r.links[s[k]].value == l.links[s[k]].value
    ensures ValuesOf(r, s[..i] + s[j..]) == ValuesOf(l, s)[..i] + ValuesOf(l, s)[j..]
  {
    var s' := s[..i] + s[j..];
    var vs, vs' := ValuesOf(l, s), ValuesOf(r, s');
    forall k | 0 <= k < |vs'|
      ensures vs'[k] == (vs[..i] + vs[j..])[k]
    {
      if k < i {
        assert s'[k] == s[k];
        assert r.links[s[k]].value == l.links[s[k]].value;
      } else {
        assert s'[k] == s[k - i + j];
        assert r.links[s[k - i + j]].value == l.links[s[k - i + j]].value;
      }
    }
  }

  /** `erase(pos)`: unlinks `pos` from its neighbours and subtracts one from
      `elements`; the erased link keeps its own `prev` and `next`, and the
      returned iterator is the erased link's `next`. Returns the new list and
      that iterator. */
  function Erase<T>(l: List<T>, pos: Ptr): (r: (List<T>, Ptr))
    ensures r.0.links.Keys == l.links.Keys
  {
    var r := Rewire(l, Prev(l, pos), Next(l, pos));
    (r.(elements := Dec(l.elements)), Next(r, pos))
  }

  /** At the pointer level, erasing `s[i]` bypasses it and leaves its own
      record alone. */
  lemma EraseBypasses<T>(l: List<T>, s: seq<nat>, i: nat)
    requires Distinct(s) && i < |s| && forall k | 0 <= k < |s| :: s[k] in l.links
    requires l.links[s[i]].prev == PtrBefore(s, i) && l.links[s[i]].next == PtrAt(s, i + 1)
    ensures var (r, next) := Erase(l, Node(s[i]));
      && Bypassed(l, r, s, i, i + 1)
      && r.links[s[i]] == l.links[s[i]]
      && r.elements == Dec(l.elements)
      && next == PtrAt(s, i + 1)
  {
    var pos := Node(s[i]);
    var p, n := PtrBefore(s, i), PtrAt(s, i + 1);
    assert Prev(l, pos) == p && Next(l, pos) == n;
    if 0 < i {
      assert s[i - 1] != s[i];
    }
    if i + 1 < |s| {
      assert s[i + 1] != s[i];
      if 0 < i {
        assert s[i - 1] != s[i + 1];
      }
    }
    RewireFrame(l, p, n);
    var w := Rewire(l, p, n);
    var r := w.(elements := Dec(l.elements));
    assert r.links[s[i]] == l.links[s[i]];
    forall k | 0 <= k < |s| && (k + 1 < i || i + 1 < k)
      ensures s[k] in l.links && r.links[s[k]] == l.links[s[k]]
    {
      assert s[k] != s[i];
      if 0 < i {
        assert s[k] != s[i - 1];
      }
      if i + 1 < |s| {
        assert s[k] != s[i + 1];
      }
    }
  }

  /** After a bypass, every link that stays still holds its value. */
  lemma BypassedValues<T>(l: List<T>, r: List<T>, s: seq<nat>, i: nat, j: nat)
    requires Repr(l, s) && i <= j <= |s| && Bypassed(l, r, s, i, j)
    ensures ValuesOf(r, s[..i] + s[j..]) == ValuesOf(l, s)[..i] + ValuesOf(l, s)[j..]
  {
    forall k {:trigger r.links[s[k]]} | 0 <= k < |s| && (k < i || j <= k)
      ensures s[k] in r.links && r.links[s[k]].value == l.links[s[k]].value
    {
      if k < i {
        BypassedBefore(l, r, s, i, j, k);
        if k + 1 == i {
          assert r.links[s[k]] == l.links[s[k]].(next := PtrAt(s, j));
        }
      } else {
        BypassedAfter(l, r, s, i, j, k);
        if k == j {
          assert r.links[s[k]] == l.links[s[k]].(prev := PtrBefore(s, i));
        }
      }
    }
    CutValues(l, r, s, i, j);
  }

  /** Erasing an element of a well-formed list removes exactly it: the rest
      keeps its order and values, `elements` drops by one, the erased link's
      own pointers are untouched and the returned iterator is its successor. */
  lemma EraseRemoves<T>(l: List<T>, pos: Ptr)
    requires Valid(l) && pos.Node? && pos.id in Order(l)
    ensures var (r, next) := Erase(l, pos);
      var s, i := Order(l), PosIndex(Order(l), pos);
      && Valid(r)
      && Order(r) == s[..i] + s[i + 1..]
      && Values(r) == Values(l)[..i] + Values(l)[i + 1..]
      && r.elements == l.elements - 1
      && r.links[pos.id] == l.links[pos.id]
      && next == PtrAt(s, i + 1)
  {
    var s := Order(l);
    var i := PosIndex(s, pos);
    assert pos == Node(s[i]);
    EraseBypasses(l, s, i);
    var r := Erase(l, pos).0;
    BypassedRepr(l, r, s, i, i + 1);
    var s' := s[..i] + s[i + 1..];
    OrderOfRepr(r, s');
    BypassedValues(l, r, s, i, i + 1);
    assert Values(r) == ValuesOf(r, s');
    assert r.elements == |s'|;
  }

  /** `pop_front()`: `head->next = head->next->next; head->next->prev = head`. */
  function PopFront<T>(l: List<T>): List<T>
  {
    var f := Next(l, l.first);
    var r := SetPrev(l.(first := f), f, Head);
    r.(elements := Dec(l.elements))
  }

  /** `pop_back()`: `tail->prev = tail->prev->prev; tail->prev->next = tail`. */
  function PopBack<T>(l: List<T>): List<T>
  {
    var b := Prev(l, l.last);
    var r := SetNext(l.(last := b), b, Tail);
    r.(elements := Dec(l.elements))
  }

  lemma PopFrontBypasses<T>(l: List<T>, s: seq<nat>)
    requires Distinct(s) && 0 < |s| && forall k | 0 <= k < |s| :: s[k] in l.links
    requires l.first == Node(s[0]) && l.links[s[0]].next == PtrAt(s, 1)
    ensures var r := PopFront(l);
      && Bypassed(l, r, s, 0, 1)
      && r.links.Keys == l.links.Keys
      && r.elements == Dec(l.elements)
  {
    var n := PtrAt(s, 1);
    assert Next(l, l.first) == n;
    if 1 < |s| {
      assert s[1] != s[0];
    }
    assert PopFront(l) == Rewire(l, Head, n).(elements := Dec(l.elements));
    RewireFrame(l, Head, n);
    var r := PopFront(l);
    forall k | 0 <= k < |s| && 1 < k
      ensures s[k] in l.links && r.links[s[k]] == l.links[s[k]]
    {
      assert s[k] != s[1];
    }
  }

  lemma PopBackBypasses<T>(l: List<T>, s: seq<nat>)
    requires Distinct(s) && 0 < |s| && forall k | 0 <= k < |s| :: s[k] in l.links
    requires l.last == Node(s[|s| - 1]) && l.links[s[|s| - 1]].prev == PtrBefore(s, |s| - 1)
    ensures var r := PopBack(l);
      && Bypassed(l, r, s, |s| - 1, |s|)
      && r.links.Keys == l.links.Keys
      && r.elements == Dec(l.elements)
  {
    var i := |s| - 1;
    var p := PtrBefore(s, i);
    assert Prev(l, l.last) == p;
    if 0 < i {
      assert s[i - 1] != s[i];
    }
    assert PopBack(l) == Rewire(l, p, Tail).(elements := Dec(l.elements));
    RewireFrame(l, p, Tail);
    var r := PopBack(l);
    forall k | 0 <= k < |s| && k + 1 < i
      ensures s[k] in l.links && r.links[s[k]] == l.links[s[k]]
    {
      assert s[k] != s[i - 1];
    }
  }

  /** Popping the front of a non-empty list removes its first element. The
      source gives no meaning to popping an empty list. */
  lemma PopFrontRemovesFirst<T>(l: List<T>)
    requires Valid(l) && Order(l) != []
    ensures var r := PopFront(l);
      && Valid(r)
      && Order(r) == Order(l)[1..]
      && Values(r) == Values(l)[1..]
      && r.elements == l.elements - 1
  {
    var s := Order(l);
    PopFrontBypasses(l, s);
    var r := PopFront(l);
    BypassedRepr(l, r, s, 0, 1);
    assert s[..0] + s[1..] == s[1..];
    OrderOfRepr(r, s[1..]);
    BypassedValues(l, r, s, 0, 1);
    assert Values(r) == ValuesOf(r, s[1..]);
  }

  /** Popping the back of a non-empty list removes its last element. */
  lemma PopBackRemovesLast<T>(l: List<T>)
    requires Valid(l) && Order(l) != []
    ensures var r := PopBack(l);
      && Valid(r)
      && Order(r) == Order(l)[..|Order(l)| - 1]
      && Values(r) == Values(l)[..|Values(l)| - 1]
      && r.elements == l.elements - 1
  {
    var s := Order(l);
    var i := |s| - 1;
    PopBackBypasses(l, s);
    var r := PopBack(l);
    BypassedRepr(l, r, s, i, i + 1);
    assert s[..i] + s[i + 1..] == s[..i];
    OrderOfRepr(r, s[..i]);
    BypassedValues(l, r, s, i, i + 1);
    assert Values(r) == ValuesOf(r, s[..i]);
  }

  /** The loop of `erase(first, last)`: every link from `link` up to `last`
      gets `prev = first->prev` (`fp`, which the loop never changes) and
      `next = last`, and one is taken off `elements` per link. The loop reads
      each link's `next` before overwriting it. */
  function UnlinkRun<T>(l: List<T>, link: Ptr, last: Ptr, fp: Ptr, fuel: nat): List<T>
    decreases fuel
  {
    if fuel == 0 || link == last || !link.Node? || link.id !in l.links then l
    else
      var next := l.links[link.id].next;
      var l' := l.(links := l.links[link.id := l.links[link.id].(prev := fp, next := last)],
                   elements := Dec(l.elements));
      UnlinkRun(l', next, last, fp, fuel - 1)
  }

  /** `erase(first, last)`: unlinks the stretch `[first, last)` and returns
      `last`. */
  function EraseRange<T>(l: List<T>, first: Ptr, last: Ptr): (List<T>, Ptr)
  {
    var fp := Prev(l, first);
    var l1 := UnlinkRun(l, first, last, fp, |l.links|);
    (Rewire(l1, fp, last), last)
  }

  /** `clear()`: `erase(begin(), end())`. */
  function Clear<T>(l: List<T>): List<T>
  {
    EraseRange(l, l.first, Tail).0
  }

  /** After `k - i` rounds of the `erase(first, last)` loop over the stretch
      `s[i..j]`: the links `s[i..k]` point at `fp` and `last`, every other
      link and both sentinels are as they were. */
  ghost predicate UnlinkedUpTo<T>(l0: List<T>, l: List<T>, s: seq<nat>, i: nat, k: nat, j: nat, fp: Ptr)
    requires i <= k <= j <= |s|
  {
    && l.links.Keys == l0.links.Keys
    && l.first == l0.first && l.last == l0.last && l.nextId == l0.nextId
    && (forall m | 0 <= m < |s| :: s[m] in l0.links)
    && (forall m {:trigger l.links[s[m]]} | i <= m < k :: l.links[s[m]] == l0.links[s[m]].(prev := fp, next := PtrAt(s, j)))
    && (forall m {:trigger l.links[s[m]]} | 0 <= m < |s| && (m < i || k <= m) :: l.links[s[m]] == l0.links[s[m]])
    && l.elements == Wrapped(l0.elements - (k - i))
  }

  /** One round of the `erase(first, last)` loop. */
  lemma UnlinkStep<T>(l0: List<T>, l: List<T>, s: seq<nat>, i: nat, k: nat, j: nat, fp: Ptr)
    requires Distinct(s) && i <= k < j <= |s|
    requires s[k] in l0.links && l0.links[s[k]].next == PtrAt(s, k + 1)
    requires UnlinkedUpTo(l0, l, s, i, k, j, fp)
    ensures s[k] in l.links && l.links[s[k]].next == PtrAt(s, k + 1)
    ensures UnlinkedUpTo(l0, l.(links := l.links[s[k] := l.links[s[k]].(prev := fp, next := PtrAt(s, j))],
                                elements := Dec(l.elements)), s, i, k + 1, j, fp)
  {
    var x := s[k];
    var l' := l.(links := l.links[x := l.links[x].(prev := fp, next := PtrAt(s, j))], elements := Dec(l.elements));
    assert l.links[x] == l0.links[x];
    CounterSteps(l0.elements - (k - i));
    forall m {:trigger l'.links[s[m]]} | i <= m < k + 1
      ensures l'.links[s[m]] == l0.links[s[m]].(prev := fp, next := PtrAt(s, j))
    {
      if m < k {
        assert s[m] != x;
        assert l'.links[s[m]] == l.links[s[m]];
      }
    }
    forall m {:trigger l'.links[s[m]]} | 0 <= m < |s| && (m < i || k + 1 <= m)
      ensures l'.links[s[m]] == l0.links[s[m]]
    {
      assert s[m] != x;
      assert l'.links[s[m]] == l.links[s[m]];
    }
  }

  lemma UnlinkRunUnfold<T>(l: List<T>, x: nat, last: Ptr, fp: Ptr, fuel: nat)
    requires x in l.links && Node(x) != last && 0 < fuel
    ensures UnlinkRun(l, Node(x), last, fp, fuel)
         == UnlinkRun(l.(links := l.links[x := l.links[x].(prev := fp, next := last)], elements := Dec(l.elements)),
                      l.links[x].next, last, fp, fuel - 1)
  {
  }

  lemma {:induction false} UnlinkRunSpec<T>(l0: List<T>, l: List<T>, s: seq<nat>, i: nat, k: nat, j: nat, fp: Ptr, fuel: nat)
    requires Distinct(s) && i <= k <= j <= |s|
    requires forall m | 0 <= m < |s| :: s[m] in l0.links
    requires forall m {:trigger l0.links[s[m]]} | k <= m < j :: l0.links[s[m]].next == PtrAt(s, m + 1)
    requires UnlinkedUpTo(l0, l, s, i, k, j, fp)
    requires fuel >= j - k
    ensures UnlinkedUpTo(l0, UnlinkRun(l, PtrAt(s, k), PtrAt(s, j), fp, fuel), s, i, j, j, fp)
    decreases j - k
  {
    if k < j {
      var x := s[k];
      var l' := l.(links := l.links[x := l.links[x].(prev := fp, next := PtrAt(s, j))], elements := Dec(l.elements));
      UnlinkRunStep(l0, l, l', s, i, k, j, fp, fuel);
      UnlinkRunSpec(l0, l', s, i, k + 1, j, fp, fuel - 1);
    }
  }

  /** One round of the loop, stated on the list `l'` it leaves behind. */
  lemma UnlinkRunStep<T>(l0: List<T>, l: List<T>, l': List<T>, s: seq<nat>, i: nat, k: nat, j: nat, fp: Ptr, fuel: nat)
    requires Distinct(s) && i <= k < j <= |s| && 0 < fuel
    requires s[k] in l0.links && l0.links[s[k]].next == PtrAt(s, k + 1)
    requires UnlinkedUpTo(l0, l, s, i, k, j, fp)
    requires l' == l.(links := l.links[s[k] := l.links[s[k]].(prev := fp, next := PtrAt(s, j))], elements := Dec(l.elements))
    ensures UnlinkedUpTo(l0, l', s, i, k + 1, j, fp)
    ensures UnlinkRun(l, PtrAt(s, k), PtrAt(s, j), fp, fuel) == UnlinkRun(l', PtrAt(s, k + 1), PtrAt(s, j), fp, fuel - 1)
  {
    UnlinkStep(l0, l, s, i, k, j, fp);
    if j < |s| {
      assert s[k] != s[j];
    }
    UnlinkRunUnfold(l, s[k], PtrAt(s, j), fp, fuel);
  }

  /** The whole `erase(first, last)` loop over the stretch `s[i..j]`. */
  lemma UnlinkAll<T>(l: List<T>, s: seq<nat>, i: nat, j: nat)
    requires Repr(l, s) && i <= j <= |s| && l.elements < SIZE_MODULUS
    ensures UnlinkedUpTo(l, UnlinkRun(l, PtrAt(s, i), PtrAt(s, j), PtrBefore(s, i), |l.links|), s, i, j, j, PtrBefore(s, i))
  {
    DistinctCardinality(s, l.links.Keys);
    assert UnlinkedUpTo(l, l, s, i, i, j, PtrBefore(s, i));
    UnlinkRunSpec(l, l, s, i, i, j, PtrBefore(s, i), |l.links|);
  }

  /** The step after the loop of `erase(first, last)`: `first->prev` and
      `last` are made to point at each other. */
  lemma RewireAfterUnlink<T>(l: List<T>, l1: List<T>, s: seq<nat>, i: nat, j: nat)
    requires Distinct(s) && i <= j <= |s|
    requires UnlinkedUpTo(l, l1, s, i, j, j, PtrBefore(s, i))
    ensures var r := Rewire(l1, PtrBefore(s, i), PtrAt(s, j));
      && Bypassed(l, r, s, i, j)
      && (forall m {:trigger r.links[s[m]]} | i <= m < j :: s[m] in r.links && r.links[s[m]] == l.links[s[m]].(prev := PtrBefore(s, i), next := PtrAt(s, j)))
      && r.elements == Wrapped(l.elements - (j - i))
  {
    var fp, last := PtrBefore(s, i), PtrAt(s, j);
    if 0 < i && j < |s| {
      assert s[i - 1] != s[j];
    }
    RewireFrame(l1, fp, last);
    var r := Rewire(l1, fp, last);
    forall k | 0 <= k < |s| && (k + 1 < i || j < k)
      ensures s[k] in l.links && r.links[s[k]] == l.links[s[k]]
    {
      if 0 < i {
        assert s[k] != s[i - 1];
      }
      if j < |s| {
        assert s[k] != s[j];
      }
    }
    forall m {:trigger r.links[s[m]]} | i <= m < j
      ensures s[m] in r.links && r.links[s[m]] == l.links[s[m]].(prev := fp, next := last)
    {
      assert l1.links[s[m]] == l.links[s[m]].(prev := fp, next := last);
      if 0 < i {
        assert s[m] != s[i - 1];
      }
      if j < |s| {
        assert s[m] != s[j];
      }
    }
  }

  /** At the pointer level, `erase(first, last)` over `s[i..j]` bypasses the
      stretch and points each erased link at `first->prev` and `last`. */
  lemma EraseRangeBypasses<T>(l: List<T>, s: seq<nat>, i: nat, j: nat)
    requires Repr(l, s) && i <= j <= |s| && l.elements < SIZE_MODULUS
    ensures var (r, next) := EraseRange(l, PtrAt(s, i), PtrAt(s, j));
      && Bypassed(l, r, s, i, j)
      && (forall m {:trigger r.links[s[m]]} | i <= m < j :: s[m] in r.links && r.links[s[m]] == l.links[s[m]].(prev := PtrBefore(s, i), next := PtrAt(s, j)))
      && r.elements == Wrapped(l.elements - (j - i))
      && next == PtrAt(s, j)
  {
    assert Prev(l, PtrAt(s, i)) == PtrBefore(s, i);
    UnlinkAll(l, s, i, j);
    RewireAfterUnlink(l, UnlinkRun(l, PtrAt(s, i), PtrAt(s, j), PtrBefore(s, i), |l.links|), s, i, j);
  }

  /** Erasing the range `[first, last)` of a well-formed list, given by the
      positions `i <= j` of `first` and `last` (`j == |s|` is `end()`),
      removes exactly that stretch and subtracts its length from
      `elements`; each erased link is left pointing back at `first->prev`
      and forward at `last`, which is also the iterator handed back. */
  lemma EraseRangeRemoves<T>(l: List<T>, s: seq<nat>, i: nat, j: nat)
    requires Valid(l) && s == Order(l) && i <= j <= |s|
    ensures var (r, next) := EraseRange(l, PtrAt(s, i), PtrAt(s, j));
      && Valid(r) && Order(r) == s[..i] + s[j..] && r.elements == l.elements - (j - i)
      && (forall m {:trigger r.links[s[m]]} | i <= m < j :: s[m] in r.links && r.links[s[m]] == l.links[s[m]].(prev := PtrBefore(s, i), next := PtrAt(s, j)))
      && next == PtrAt(s, j)
  {
    var r := EraseRange(l, PtrAt(s, i), PtrAt(s, j)).0;
    EraseRangeBypasses(l, s, i, j);
    BypassedRepr(l, r, s, i, j);
    OrderOfRepr(r, s[..i] + s[j..]);
  }

  /** The values after `erase(first, last)`: the erased stretch is cut out
      and every other value keeps its place. */
  lemma EraseRangeKeepsValues<T>(l: List<T>, s: seq<nat>, i: nat, j: nat)
    requires Valid(l) && s == Order(l) && i <= j <= |s|
    ensures Values(EraseRange(l, PtrAt(s, i), PtrAt(s, j)).0) == Values(l)[..i] + Values(l)[j..]
  {
    var r := EraseRange(l, PtrAt(s, i), PtrAt(s, j)).0;
    EraseRangeBypasses(l, s, i, j);
    var s' := s[..i] + s[j..];
    BypassedRepr(l, r, s, i, j);
    OrderOfRepr(r, s');
    BypassedValues(l, r, s, i, j);
  }

  /** `clear()` takes one off `elements` for every link between the sentinels. */
  lemma ClearCount<T>(l: List<T>, s: seq<nat>)
    requires Repr(l, s) && l.elements < SIZE_MODULUS
    ensures Clear(l).elements == Wrapped(l.elements - |s|)
  {
    var fp := PtrBefore(s, 0);
    assert l.first == PtrAt(s, 0) && Prev(l, l.first) == fp;
    UnlinkAll(l, s, 0, |s|);
    var l1 := UnlinkRun(l, PtrAt(s, 0), PtrAt(s, |s|), fp, |l.links|);
    UnlinkCount(l, l1, s, fp);
    assert Rewire(l1, fp, Tail).elements == l1.elements;
  }

  lemma UnlinkCount<T>(l: List<T>, l1: List<T>, s: seq<nat>, fp: Ptr)
    requires UnlinkedUpTo(l, l1, s, 0, |s|, |s|, fp)
    ensures l1.elements == Wrapped(l.elements - |s|)
  {
    SameWrapped(l.elements - (|s| - 0), l.elements - |s|);
  }

  lemma SameWrapped(x: int, y: int)
    requires x == y
    ensures Wrapped(x) == Wrapped(y)
  {
  }

  /** `clear()` empties a well-formed list and leaves every former element
      pointing at `head` and `tail`. */
  lemma ClearEmpties<T>(l: List<T>)
    requires Valid(l)
    ensures var r := Clear(l);
      && Valid(r)
      && Order(r) == [] && Values(r) == []
      && r.elements == 0
      && (forall x | x in Order(l) :: x in r.links)
      && (forall x {:trigger r.links[x]} | x in Order(l) :: x in r.links && r.links[x] == l.links[x].(prev := Head, next := Tail))
  {
    var s := Order(l);
    var r := Clear(l);
    assert l.first == PtrAt(s, 0) && Tail == PtrAt(s, |s|);
    EraseRangeBypasses(l, s, 0, |s|);
    BypassedRepr(l, r, s, 0, |s|);
    assert s[..0] + s[|s|..] == [];
    OrderOfRepr(r, []);
    assert forall x | x in s :: x in r.links;
    forall x {:trigger r.links[x]} | x in s
      ensures x in r.links && r.links[x] == l.links[x].(prev := Head, next := Tail)
    {
      var m := IndexOf(s, x);
      assert r.links[s[m]] == l.links[s[m]].(prev := PtrBefore(s, 0), next := PtrAt(s, |s|));
    }
  }

  /** Erasing, through a stale iterator, a link that `clear()` already took out
      leaves the (empty) list as it was but wraps `elements` round to
      `SIZE_MAX`: the cleared link points at `head` and `tail`, so the
      rewiring is a no-op while the counter is still decremented. */
  lemma EraseAfterClear<T>(l: List<T>, x: nat)
    requires Valid(l) && x in Order(l)
    ensures var c := Clear(l); var r := Erase(c, Node(x)).0;
      && Order(r) == [] && Values(r) == [] && r.first == Tail
      && r.elements == SIZE_MODULUS - 1
      && !Valid(r)
  {
    ClearEmpties(l);
    var c := Clear(l);
    assert x in c.links;
    assert c.links[x] == l.links[x].(prev := Head, next := Tail);
    assert Repr(c, []);
    var r := Erase(c, Node(x)).0;
    assert r == c.(elements := Dec(0));
    assert Repr(r, []);
    OrderOfRepr(r, []);
  }

  // ---------------------------------------------------------------------------
  // Operations built from `make_link`, `erase` and `pop_back`.
  // ---------------------------------------------------------------------------

  /** `size()`: the counter, not a walk. */
  function Size<T>(l: List<T>): nat
  {
    l.elements
  }

  /** `empty()`: `begin() == end()`. */
  predicate IsEmpty<T>(l: List<T>)
  {
    l.first == Tail
  }

  /** On a well-formed list `size()` counts the values and `empty()` holds
      exactly when there are none. */
  lemma SizeAndEmpty<T>(l: List<T>)
    requires Valid(l)
    ensures Size(l) == |Values(l)|
    ensures IsEmpty(l) <==> Values(l) == []
    ensures IsEmpty(l) <==> Size(l) == 0
  {
  }

  /** `front()`: the first value. The source gives no meaning to it on an
      empty list. */
  function Front<T>(l: List<T>): (v: T)
    requires Valid(l) && !IsEmpty(l)
    ensures v == Values(l)[0]
  {
    l.links[l.first.id].value
  }

  /** `back()`: the last value. */
  function Back<T>(l: List<T>): (v: T)
    requires Valid(l) && !IsEmpty(l)
    ensures v == Values(l)[|Values(l)| - 1]
  {
    var s := Order(l);
    assert l.last == Node(s[|s| - 1]);
    l.links[l.last.id].value
  }

  /** `push_back(value)`: `insert(end(), value)`. */
  function PushBack<T>(l: List<T>, v: T): (r: List<T>)
    requires Valid(l) && |Values(l)| + 1 < SIZE_MODULUS
    ensures Valid(r) && Values(r) == Values(l) + [v] && r.elements == l.elements + 1
  {
    var s := Order(l);
    MakeLinkOrder(l, s, |s|, v);
    MakeLinkValues(l, s, |s|, v);
    SpliceEnds(Values(l), v);
    MakeLink(l, Tail, v).0
  }

  /** `push_front(value)`: `insert(begin(), value)`. */
  function PushFront<T>(l: List<T>, v: T): (r: List<T>)
    requires Valid(l) && |Values(l)| + 1 < SIZE_MODULUS
    ensures Valid(r) && Values(r) == [v] + Values(l) && r.elements == l.elements + 1
  {
    var s := Order(l);
    MakeLinkOrder(l, s, 0, v);
    MakeLinkValues(l, s, 0, v);
    SpliceEnds(Values(l), v);
    MakeLink(l, l.first, v).0
  }

  /** Splicing at either end of a sequence is prepending or appending. */
  lemma SpliceEnds<X>(s: seq<X>, x: X)
    ensures s[..0] + [x] + s[0..] == [x] + s
    ensures s[..|s|] + [x] + s[|s|..] == s + [x]
  {
  }

  /** Where an iterator sits after one more link is spliced in just before it. */
  lemma PosIndexAfterInsert(s: seq<nat>, p: nat, id: nat, pos: Ptr)
    requires p <= |s| && Distinct(s[..p] + [id] + s[p..])
    requires pos == Tail || (pos.Node? && pos.id in s)
    requires PosIndex(s, pos) == p
    ensures var s' := s[..p] + [id] + s[p..];
      && (pos == Tail || (pos.Node? && pos.id in s'))
      && PosIndex(s', pos) == p + 1
  {
    var s' := s[..p] + [id] + s[p..];
    if pos.Node? {
      assert s'[p + 1] == s[p];
      IndexOfDistinct(s', p + 1);
    }
  }

  /** One round of `insert(pos, ibegin, iend)`: the value lands just before
      `pos`, which moves one place on; earlier positions keep their links. */
  lemma InsertBeforeStep<T>(l: List<T>, pos: Ptr, v: T, p: nat, i: nat)
    requires Valid(l) && IsPosition(l, pos) && PosIndex(Order(l), pos) == p
    requires |Order(l)| + 1 < SIZE_MODULUS && i <= p
    ensures var (r, id) := MakeLink(l, pos, v);
      && Valid(r) && IsPosition(r, pos) && PosIndex(Order(r), pos) == p + 1
      && Values(r) == Values(l)[..p] + [v] + Values(l)[p..]
      && r.elements == l.elements + 1
      && i < |Order(r)| && Order(r)[i] == (if i == p then id else Order(l)[i])
  {
    var s := Order(l);
    MakeLinkInserts(l, pos, v);
    var (r, id) := MakeLink(l, pos, v);
    PosIndexAfterInsert(s, p, id, pos);
    InsertedAt(s, p, id, i);
  }

  /** The entries of an ordering up to the insertion point stay in place. */
  lemma InsertedAt(s: seq<nat>, p: nat, id: nat, i: nat)
    requires i <= p <= |s|
    ensures i < |s[..p] + [id] + s[p..]|
    ensures (s[..p] + [id] + s[p..])[i] == if i == p then id else s[i]
  {
  }

  /** The values after one more round of `insert(pos, ibegin, iend)`. */
  lemma InsertRangeValuesStep<T>(a: seq<T>, vs: seq<T>, i: nat, k: nat, v: seq<T>)
    requires i <= |a| && k < |vs| && v == a[..i] + vs[..k] + a[i..]
    ensures v[..i + k] + [vs[k]] + v[i + k..] == a[..i] + vs[..k + 1] + a[i..]
  {
    assert v[..i + k] == a[..i] + vs[..k];
    assert v[i + k..] == a[i..];
    assert vs[..k + 1] == vs[..k] + [vs[k]];
  }

  /** After `k` rounds of `insert(pos, ibegin, iend)` into a list holding
      `a`, with `pos` at index `i`, seen through the current ordering `o` and
      values `v`. */
  ghost predicate InsertedSeqs<T>(a: seq<T>, vs: seq<T>, i: nat, k: nat, o: seq<nat>, v: seq<T>, pos: Ptr, first: Ptr)
  {
    && i <= |a| && k <= |vs|
    && PosIndex(o, pos) == i + k
    && v == a[..i] + vs[..k] + a[i..]
    && first == (if k == 0 then Tail else PtrAt(o, i))
  }

  /** The state of `insert(pos, ibegin, iend)` after `k` rounds from `l`. */
  ghost predicate InsertedUpTo<T>(l: List<T>, pos: Ptr, vs: seq<T>, i: nat, k: nat, r: List<T>, first: Ptr)
  {
    && Valid(r) && IsPosition(r, pos)
    && r.elements == l.elements + k
    && InsertedSeqs(Values(l), vs, i, k, Order(r), Values(r), pos, first)
  }

  lemma InsertedSeqsStart<T>(a: seq<T>, vs: seq<T>, i: nat, o: seq<nat>, pos: Ptr)
    requires i <= |a| && PosIndex(o, pos) == i
    ensures InsertedSeqs(a, vs, i, 0, o, a, pos, Tail)
  {
    assert a[..i] + vs[..0] + a[i..] == a;
  }

  lemma InsertedUpToStart<T>(l: List<T>, pos: Ptr, vs: seq<T>)
    requires Valid(l) && IsPosition(l, pos)
    ensures InsertedUpTo(l, pos, vs, PosIndex(Order(l), pos), 0, l, Tail)
  {
    InsertedSeqsStart(Values(l), vs, PosIndex(Order(l), pos), Order(l), pos);
  }

  lemma InsertedUpToStep<T>(l: List<T>, pos: Ptr, vs: seq<T>, i: nat, k: nat, r: List<T>, first: Ptr,
                            k': nat, r': List<T>, first': Ptr)
    requires InsertedUpTo(l, pos, vs, i, k, r, first) && k < |vs|
    requires |Values(l)| + |vs| < SIZE_MODULUS
    requires var (r1, id) := MakeLink(r, pos, vs[k]);
      k' == k + 1 && r' == r1 && first' == (if first == Tail then Node(id) else first)
    ensures InsertedUpTo(l, pos, vs, i, k', r', first')
  {
    var v := Values(r);
    InsertBeforeStep(r, pos, vs[k], i + k, i);
    InsertRangeValuesStep(Values(l), vs, i, k, v);
  }

  lemma InsertedSeqsEnd<T>(a: seq<T>, vs: seq<T>, i: nat, o: seq<nat>, v: seq<T>, pos: Ptr, first: Ptr)
    requires InsertedSeqs(a, vs, i, |vs|, o, v, pos, first)
    ensures v == a[..i] + vs + a[i..] && PosIndex(o, pos) == i + |vs|
    ensures first == (if vs == [] then Tail else PtrAt(o, i))
  {
    assert vs[..|vs|] == vs;
  }

  lemma InsertedUpToEnd<T>(l: List<T>, pos: Ptr, vs: seq<T>, i: nat, k: nat, r: List<T>, first: Ptr)
    requires Valid(l) && IsPosition(l, pos) && i == PosIndex(Order(l), pos)
    requires k == |vs| && InsertedUpTo(l, pos, vs, i, k, r, first)
    ensures var i := PosIndex(Order(l), pos);
      && Valid(r)
      && Values(r) == Values(l)[..i] + vs + Values(l)[i..]
      && r.elements == l.elements + |vs|
      && IsPosition(r, pos) && PosIndex(Order(r), pos) == i + |vs|
      && first == (if vs == [] then Tail else PtrAt(Order(r), i))
  {
    InsertedSeqsEnd(Values(l), vs, i, Order(r), Values(r), pos, first);
  }

  /** `insert(pos, ibegin, iend)`: each value inserted before `pos` in turn,
      so they land in order; returns the iterator to the first inserted
      link, or `end()` when there was nothing to insert. */
  method InsertRange<T>(l: List<T>, pos: Ptr, vs: seq<T>) returns (r: List<T>, first: Ptr)
    requires Valid(l) && IsPosition(l, pos)
    requires |Values(l)| + |vs| < SIZE_MODULUS
    ensures var i := PosIndex(Order(l), pos);
      && Valid(r)
      && Values(r) == Values(l)[..i] + vs + Values(l)[i..]
      && r.elements == l.elements + |vs|
      && IsPosition(r, pos) && PosIndex(Order(r), pos) == i + |vs|
      && first == (if vs == [] then Tail else PtrAt(Order(r), i))
  {
    var i := PosIndex(Order(l), pos);
    r, first := l, Tail;
    var k := 0;
    InsertedUpToStart(l, pos, vs);
    while k < |vs|
      invariant k <= |vs| && InsertedUpTo(l, pos, vs, i, k, r, first)
    {
      var (r', id) := MakeLink(r, pos, vs[k]);
      var first' := if first == Tail then Node(id) else first;
      var k' := k + 1;
      InsertedUpToStep(l, pos, vs, i, k, r, first, k', r', first');
      r, first, k := r', first', k';
    }
    InsertedUpToEnd(l, pos, vs, i, k, r, first);
  }

  /** `insert(pos, count, value)`: `count` copies of `value` before `pos`. */
  method InsertCopies<T>(l: List<T>, pos: Ptr, count: nat, v: T) returns (r: List<T>, first: Ptr)
    requires Valid(l) && IsPosition(l, pos)
    requires |Values(l)| + count < SIZE_MODULUS
    ensures var i := PosIndex(Order(l), pos);
      && Valid(r)
      && Values(r) == Values(l)[..i] + Copies(count, v) + Values(l)[i..]
      && r.elements == l.elements + count
      && first == (if count == 0 then Tail else PtrAt(Order(r), i))
  {
    r, first := InsertRange(l, pos, Copies(count, v));
  }

  /** `count` copies of `v`. */
  function Copies<T>(count: nat, v: T): (r: seq<T>)
    ensures |r| == count && forall k | 0 <= k < count :: r[k] == v
  {
    if count == 0 then [] else Copies(count - 1, v) + [v]
  }

  /** `assign(ibegin, iend)`: `clear()` then append the range. The copy
      constructor and copy assignment are this with the other list's values
      (a list assigned to itself is left alone by the source and has, in a
      value model, nothing to change). */
  method Assign<T>(l: List<T>, vs: seq<T>) returns (r: List<T>)
    requires Valid(l) && |vs| < SIZE_MODULUS
    ensures Valid(r) && Values(r) == vs && r.elements == |vs|
  {
    ClearEmpties(l);
    var c := Clear(l);
    var first;
    r, first := InsertRange(c, Tail, vs);
    assert Values(c)[..0] == [];
  }

  /** `resize(count, value)`: `pop_back()` or `push_back(value)` until
      `size()` is `count`. */
  method Resize<T>(l: List<T>, count: nat, v: T) returns (r: List<T>)
    requires Valid(l) && count < SIZE_MODULUS
    ensures Valid(r) && r.elements == count
    ensures count <= |Values(l)| ==> Values(r) == Values(l)[..count]
    ensures |Values(l)| <= count ==> Values(r) == Values(l) + Copies(count - |Values(l)|, v)
  {
    var cursize := Size(l);
    r := l;
    if count > cursize {
      var i := cursize;
      while i < count
        invariant cursize <= i <= count
        invariant Valid(r) && r.elements == i
        invariant Values(r) == Values(l) + Copies(i - cursize, v)
      {
        var i' := i + 1;
        GrowStep(l, v, cursize, count, i, i', r);
        r, i := PushBack(r, v), i';
      }
    } else {
      var i := count;
      while i < cursize
        invariant count <= i <= cursize
        invariant Valid(r) && r.elements == cursize - (i - count)
        invariant Values(r) == Values(l)[..cursize - (i - count)]
      {
        var i' := i + 1;
        ShrinkStep(l, cursize, count, i, i', r);
        r, i := PopBack(r), i';
      }
    }
  }

  /** A round of `resize`'s growing loop: one more copy of `v` at the back. */
  lemma GrowStep<T>(l: List<T>, v: T, cursize: nat, count: nat, i: nat, i': nat, r: List<T>)
    requires Valid(l) && cursize == l.elements && cursize <= i < count < SIZE_MODULUS && i' == i + 1
    requires Valid(r) && r.elements == i && Values(r) == Values(l) + Copies(i - cursize, v)
    ensures |Values(r)| + 1 < SIZE_MODULUS
    ensures var r' := PushBack(r, v);
      Valid(r') && r'.elements == i' && Values(r') == Values(l) + Copies(i' - cursize, v)
  {
    var n, n' := i - cursize, i' - cursize;
    assert Copies(n', v) == Copies(n, v) + [v];
  }

  /** A round of `resize`'s shrinking loop: the last value goes. */
  lemma ShrinkStep<T>(l: List<T>, cursize: nat, count: nat, i: nat, i': nat, r: List<T>)
    requires Valid(l) && cursize == l.elements && count <= i < cursize && i' == i + 1
    requires Valid(r) && r.elements == cursize - (i - count) && Values(r) == Values(l)[..cursize - (i - count)]
    ensures Order(r) != []
    ensures var r' := PopBack(r);
      Valid(r') && r'.elements == cursize - (i' - count) && Values(r') == Values(l)[..cursize - (i' - count)]
  {
    var n, n' := cursize - (i - count), cursize - (i' - count);
    assert n == n' + 1;
    PopBackRemovesLast(r);
    assert Values(l)[..n][..n'] == Values(l)[..n'];
  }

  /** The values of `vs` that `pred` does not select, in order: what
      `remove_if(pred)` keeps. */
  function Without<T>(vs: seq<T>, pred: T -> bool): (r: seq<T>)
    ensures |r| <= |vs|
    ensures forall k | 0 <= k < |r| :: !pred(r[k])
  {
    if vs == [] then []
    else Without(vs[..|vs| - 1], pred) + (if pred(vs[|vs| - 1]) then [] else [vs[|vs| - 1]])
  }

  /** After `k` rounds of the `remove_if(pred)` loop over a list whose links
      were `s0` holding the values `a`, seen through the current ordering `o`
      and values `v`: the iterator is on `s0[k]` (or `end()`), the values
      before it that `pred` selected are gone, and the list still ends with
      the links `s0[k..]`. */
  ghost predicate Kept<T>(s0: seq<nat>, a: seq<T>, pred: T -> bool, k: nat, o: seq<nat>, v: seq<T>, itr: Ptr)
  {
    && |a| == |s0| && k <= |s0|
    && itr == PtrAt(s0, k)
    && |s0| - k <= |o| && |v| == |o|
    && o[|o| - (|s0| - k)..] == s0[k..]
    && v == Without(a[..k], pred) + a[k..]
  }

  /** The state of the `remove_if(pred)` loop after `k` rounds. */
  ghost predicate RemovedUpTo<T>(s0: seq<nat>, a: seq<T>, pred: T -> bool, k: nat, r: List<T>, itr: Ptr)
  {
    Valid(r) && Kept(s0, a, pred, k, Order(r), Values(r), itr)
  }

  lemma RemovedUpToStart<T>(l: List<T>, pred: T -> bool)
    requires Valid(l)
    ensures RemovedUpTo(Order(l), Values(l), pred, 0, l, l.first)
  {
    assert Values(l)[..0] == [];
  }

  /** Where the `k`-th original link sits in the current ordering: at `j`,
      just after the `j` values kept so far. */
  lemma KeptAt<T>(s0: seq<nat>, a: seq<T>, pred: T -> bool, k: nat, o: seq<nat>, v: seq<T>, itr: Ptr)
    requires Kept(s0, a, pred, k, o, v, itr) && k < |s0|
    ensures var j := |o| - (|s0| - k);
      && |Without(a[..k], pred)| == j && o[j] == s0[k] && v[j] == a[k]
      && itr == Node(o[j])
      && PtrAt(o, j + 1) == PtrAt(s0, k + 1)
  {
    var j := |o| - (|s0| - k);
    assert o[j..][0] == s0[k..][0];
    if k + 1 < |s0| {
      assert o[j + 1..] == o[j..][1..];
      assert o[j + 1..][0] == s0[k + 1..][0];
    }
  }

  /** The values of the `remove_if` loop after the `k`-th link, selected or
      not, has been dealt with. */
  lemma WithoutStep<T>(a: seq<T>, pred: T -> bool, k: nat)
    requires k < |a|
    ensures Without(a[..k + 1], pred) == Without(a[..k], pred) + (if pred(a[k]) then [] else [a[k]])
  {
    assert a[..k + 1][..k] == a[..k];
  }

  /** Stepping past a link the loop keeps. */
  lemma KeptKeep<T>(s0: seq<nat>, a: seq<T>, pred: T -> bool, k: nat, o: seq<nat>, v: seq<T>, itr: Ptr)
    requires Kept(s0, a, pred, k, o, v, itr) && k < |s0| && !pred(a[k])
    ensures Kept(s0, a, pred, k + 1, o, v, PtrAt(o, |o| - (|s0| - k) + 1))
  {
    var j := |o| - (|s0| - k);
    var w := Without(a[..k], pred);
    KeptAt(s0, a, pred, k, o, v, itr);
    WithoutStep(a, pred, k);
    assert o[j + 1..] == o[j..][1..];
    assert a[k..] == [a[k]] + a[k + 1..];
    assert v == (w + [a[k]]) + a[k + 1..];
  }

  /** Stepping past a link the loop erased: `o'` and `v'` are `o` and `v`
      without it. */
  lemma KeptDrop<T>(s0: seq<nat>, a: seq<T>, pred: T -> bool, k: nat, o: seq<nat>, v: seq<T>, itr: Ptr, o': seq<nat>, v': seq<T>)
    requires Kept(s0, a, pred, k, o, v, itr) && k < |s0| && pred(a[k])
    requires o' == o[..|o| - (|s0| - k)] + o[|o| - (|s0| - k) + 1..]
    requires v' == v[..|o| - (|s0| - k)] + v[|o| - (|s0| - k) + 1..]
    ensures Kept(s0, a, pred, k + 1, o', v', PtrAt(o, |o| - (|s0| - k) + 1))
  {
    var j := |o| - (|s0| - k);
    var w := Without(a[..k], pred);
    KeptAt(s0, a, pred, k, o, v, itr);
    WithoutStep(a, pred, k);
    assert o[j + 1..] == o[j..][1..];
    assert o'[j..] == o[j + 1..];
    assert a[k..] == [a[k]] + a[k + 1..];
    assert v[..j] == w && v[j + 1..] == a[k + 1..];
  }

  /** Erasing the link at index `j` of a well-formed list, seen through its
      ordering and values. */
  lemma EraseAtIndex<T>(r: List<T>, j: nat)
    requires Valid(r) && j < |Order(r)|
    ensures var o := Order(r); var r' := Erase(r, Node(o[j])).0;
      && Valid(r')
      && Order(r') == o[..j] + o[j + 1..]
      && Values(r') == Values(r)[..j] + Values(r)[j + 1..]
      && Next(r', Node(o[j])) == PtrAt(o, j + 1)
  {
    var o := Order(r);
    IndexOfDistinct(o, j);
    EraseRemoves(r, Node(o[j]));
    assert r.links[o[j]].next == PtrAt(o, j + 1);
  }

  /** The iterator of the `remove_if` loop sits on a live link holding the
      next original value. */
  lemma RemovedUpToCurrent<T>(s0: seq<nat>, a: seq<T>, pred: T -> bool, k: nat, r: List<T>, itr: Ptr)
    requires RemovedUpTo(s0, a, pred, k, r, itr) && itr != Tail
    ensures k < |s0| && itr.Node? && itr.id in r.links && r.links[itr.id].value == a[k]
  {
    KeptAt(s0, a, pred, k, Order(r), Values(r), itr);
  }

  /** The `remove_if` loop has reached `end()`: every link is behind it. */
  lemma RemovedUpToEnd<T>(s0: seq<nat>, a: seq<T>, pred: T -> bool, k: nat, r: List<T>)
    requires RemovedUpTo(s0, a, pred, k, r, Tail)
    ensures Valid(r) && Values(r) == Without(a, pred)
  {
    assert k == |s0|;
    assert a[..k] == a;
  }

  /** A round of the `remove_if` loop that keeps the current link. */
  lemma RemovedUpToKeep<T>(s0: seq<nat>, a: seq<T>, pred: T -> bool, k: nat, r: List<T>, itr: Ptr, itr': Ptr)
    requires RemovedUpTo(s0, a, pred, k, r, itr) && k < |s0| && !pred(a[k]) && itr' == Next(r, itr)
    ensures RemovedUpTo(s0, a, pred, k + 1, r, itr')
  {
    var o := Order(r);
    var j := |o| - (|s0| - k);
    KeptAt(s0, a, pred, k, o, Values(r), itr);
    KeptKeep(s0, a, pred, k, o, Values(r), itr);
    assert r.links[o[j]].next == PtrAt(o, j + 1);
  }

  /** A round of the `remove_if` loop that erases the current link. */
  lemma RemovedUpToDrop<T>(s0: seq<nat>, a: seq<T>, pred: T -> bool, k: nat, r: List<T>, itr: Ptr, r': List<T>, itr': Ptr)
    requires RemovedUpTo(s0, a, pred, k, r, itr) && k < |s0| && pred(a[k])
    requires itr.Node? && itr.id in r.links && r' == Erase(r, itr).0 && itr' == Next(r', itr)
    ensures RemovedUpTo(s0, a, pred, k + 1, r', itr')
  {
    var o, v := Order(r), Values(r);
    var j := |o| - (|s0| - k);
    KeptAt(s0, a, pred, k, o, v, itr);
    EraseAtIndex(r, j);
    KeptDrop(s0, a, pred, k, o, v, itr, Order(r'), Values(r'));
  }

  /** `remove_if(pred)`: walks the list once, erasing each link whose value
      `pred` selects and stepping on through the erased link's own `next`. */
  method RemoveIf<T>(l: List<T>, pred: T -> bool) returns (r: List<T>)
    requires Valid(l)
    ensures Valid(r) && Values(r) == Without(Values(l), pred)
  {
    ghost var s0, a := Order(l), Values(l);
    r := l;
    var itr := l.first;
    ghost var k := 0;
    RemovedUpToStart(l, pred);
    while itr != Tail
      invariant RemovedUpTo(s0, a, pred, k, r, itr)
      decreases |s0| - k
    {
      RemovedUpToCurrent(s0, a, pred, k, r, itr);
      if pred(r.links[itr.id].value) {
        var r' := Erase(r, itr).0;
        var itr' := Next(r', itr);
        RemovedUpToDrop(s0, a, pred, k, r, itr, r', itr');
        r, itr, k := r', itr', k + 1;
      } else {
        var itr' := Next(r, itr);
        RemovedUpToKeep(s0, a, pred, k, r, itr, itr');
        itr, k := itr', k + 1;
      }
    }
    RemovedUpToEnd(s0, a, pred, k, r);
  }

  /** `remove(value)`: `remove_if` with equality to `value`. */
  method Remove<T(==)>(l: List<T>, v: T) returns (r: List<T>)
    requires Valid(l)
    ensures Valid(r) && Values(r) == Without(Values(l), x => x == v)
    ensures v !in Values(r)
  {
    r := RemoveIf(l, x => x == v);
  }
}
