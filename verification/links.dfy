/** Pointers of the sentinel-bounded doubly linked lists used by every
    generation of the library (`stable_list` links and `connection_base` nodes). */
module Links {

  /** A link pointer: the null pointer, one of the two sentinels, or an element.
      The sentinels' own `next`/`prev` fields are stored by the owning list. */
  datatype Ptr = Null | Head | Tail | Node(id: nat)

  /** The pointer to position `i` of an ordering `s`, `Tail` one past its end. */
  function PtrAt(s: seq<nat>, i: nat): (p: Ptr)
    requires i <= |s|
    ensures i < |s| ==> p == Node(s[i])
    ensures i == |s| ==> p == Tail
  {
    if i < |s| then Node(s[i]) else Tail
  }

  /** The pointer to the element before position `i`, `Head` before the first. */
  function PtrBefore(s: seq<nat>, i: nat): (p: Ptr)
    requires i <= |s|
    ensures i == 0 ==> p == Head
    ensures 0 < i ==> p == Node(s[i - 1])
  {
    if i == 0 then Head else Node(s[i - 1])
  }

  ghost predicate Distinct(s: seq<nat>)
  {
    forall i, j | 0 <= i < j < |s| :: s[i] != s[j]
  }

  /** The position of an element in a duplicate-free ordering. */
  function IndexOf(s: seq<nat>, x: nat): (i: nat)
    requires x in s
    ensures i < |s| && s[i] == x
    ensures forall j | 0 <= j < i :: s[j] != x
  {
    if s[0] == x then 0 else 1 + IndexOf(s[1..], x)
  }

  /** A duplicate-free ordering has no more entries than the set holding them. */
  lemma {:induction false} DistinctCardinality(s: seq<nat>, keys: set<nat>)
    requires Distinct(s)
    requires forall i | 0 <= i < |s| :: s[i] in keys
    ensures |s| <= |keys|
    decreases |s|
  {
    if |s| > 0 {
      var last := s[|s| - 1];
      var rest := s[..|s| - 1];
      assert forall i | 0 <= i < |rest| :: rest[i] in keys - {last} by {
        forall i | 0 <= i < |rest|
          ensures rest[i] in keys - {last}
        {
          assert rest[i] == s[i] && s[i] != s[|s| - 1];
        }
      }
      DistinctCardinality(rest, keys - {last});
    }
  }

  /** In a duplicate-free ordering an element's position is unique. */
  lemma IndexOfDistinct(s: seq<nat>, k: nat)
    requires Distinct(s) && k < |s|
    ensures IndexOf(s, s[k]) == k
  {
  }

  lemma {:induction false} SubsetCardinality(a: set<nat>, b: set<nat>)
    requires a <= b
    ensures |a| <= |b|
    decreases |a|
  {
    if a != {} {
      var x :| x in a;
      SubsetCardinality(a - {x}, b - {x});
    }
  }

  /** A proper subset is strictly smaller. */
  lemma ProperSubsetCardinality(a: set<nat>, b: set<nat>)
    requires a < b
    ensures |a| < |b|
  {
    assert !(b <= a);
    var x :| x in b && x !in a;
    SubsetCardinality(a, b - {x});
  }
}
