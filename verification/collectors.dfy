/** The incremental value collectors of rocket.hpp (v1.3) and simple.hpp (v1.1).

    A collector is a fresh per-call object: the signal hands it each slot's
    return value as it is produced (`operator()`), and asks for `result()` once
    the walk is over. The two files define the same five collectors; simple.hpp
    adds a `hint(size)` call made once before the walk.

    The element type is generic. `minimum` and `maximum` compare with the
    element type's `<` and `>`; here they compare `key(x)`, which models any
    strict weak order and makes ties between distinct values observable. The
    value-initialised `value_type{}` every collector starts from is `zero`. */
module Collectors {
  import opened Optional

  /** State of `minimum`, `maximum` and `first`: `current` and `has_value`. */
  datatype Kept<T> = Kept(current: T, hasValue: bool)

  /** A freshly constructed collector: `current{}` and `has_value{ false }`. */
  function Start<T>(zero: T): Kept<T>
  {
    Kept(zero, false)
  }

  /** `minimum::operator()`: replace on the first value or on a strictly smaller one. */
  function MinimumStep<T>(key: T -> int, c: Kept<T>, v: T): (r: Kept<T>)
    ensures r.hasValue
    ensures r.current == v || r.current == c.current
    ensures key(r.current) <= key(v)
    ensures c.hasValue ==> key(r.current) <= key(c.current)
    ensures c.hasValue && key(c.current) <= key(v) ==> r == c
  {
    if !c.hasValue || key(v) < key(c.current) then Kept(v, true) else c
  }

  /** `maximum::operator()`: replace on the first value or on a strictly larger one. */
  function MaximumStep<T>(key: T -> int, c: Kept<T>, v: T): (r: Kept<T>)
    ensures r.hasValue
    ensures r.current == v || r.current == c.current
    ensures key(r.current) >= key(v)
    ensures c.hasValue ==> key(r.current) >= key(c.current)
    ensures c.hasValue && key(c.current) >= key(v) ==> r == c
  {
    if !c.hasValue || key(v) > key(c.current) then Kept(v, true) else c
  }

  /** `first::operator()`: keep only the first observation. */
  function FirstStep<T>(c: Kept<T>, v: T): (r: Kept<T>)
    ensures r.hasValue
    ensures c.hasValue ==> r == c
    ensures !c.hasValue ==> r.current == v
  {
    if !c.hasValue then Kept(v, true) else c
  }

  /** State of `range`: the observed values, and the capacity `hint` reserved. */
  datatype Ranged<T> = Ranged(values: seq<T>, reserved: nat)

  /** `range::hint(size)` (simple.hpp): `values.reserve(size)`. */
  function RangeHint<T>(c: Ranged<T>, size: nat): (r: Ranged<T>)
    ensures r.values == c.values
    ensures r.reserved >= size
  {
    Ranged(c.values, if size > c.reserved then size else c.reserved)
  }

  // ---------------------------------------------------------------------------
  // Observing a whole sequence of results, in order: what an emission does.
  // ---------------------------------------------------------------------------

  /** The index of the earliest element with the least key. */
  ghost predicate EarliestLeast<T>(key: T -> int, vs: seq<T>, i: int)
  {
    && 0 <= i < |vs|
    && (forall j | 0 <= j < |vs| :: key(vs[i]) <= key(vs[j]))
    && (forall j | 0 <= j < i :: key(vs[i]) < key(vs[j]))
  }

  /** The index of the earliest element with the greatest key. */
  ghost predicate EarliestGreatest<T>(key: T -> int, vs: seq<T>, i: int)
  {
    && 0 <= i < |vs|
    && (forall j | 0 <= j < |vs| :: key(vs[i]) >= key(vs[j]))
    && (forall j | 0 <= j < i :: key(vs[i]) > key(vs[j]))
  }

  /** `minimum` after observing `vs`: nothing seen gives `value_type{}`, otherwise
      the earliest of the least elements (ties keep the first seen). */
  function MinimumOver<T>(key: T -> int, zero: T, vs: seq<T>): (r: Kept<T>)
    ensures r.hasValue <==> |vs| > 0
    ensures |vs| == 0 ==> r.current == zero
    ensures |vs| > 0 ==> exists i :: EarliestLeast(key, vs, i) && r.current == vs[i]
    decreases |vs|
  {
    if |vs| == 0 then Start(zero)
    else
      var pre := vs[..|vs| - 1];
      var c := MinimumOver(key, zero, pre);
      var r := MinimumStep(key, c, vs[|vs| - 1]);
      assert |pre| > 0 ==> exists i :: EarliestLeast(key, vs, i) && r.current == vs[i] by {
        if |pre| > 0 {
          var k :| EarliestLeast(key, pre, k) && c.current == pre[k];
          assert forall j | 0 <= j < |pre| :: vs[j] == pre[j];
          if key(vs[|vs| - 1]) < key(c.current) {
            assert EarliestLeast(key, vs, |vs| - 1);
          } else {
            assert vs[k] == pre[k];
            assert EarliestLeast(key, vs, k);
          }
        }
      }
      assert |pre| == 0 ==> EarliestLeast(key, vs, 0);
      r
  }

  /** `maximum` after observing `vs`: the earliest of the greatest elements. */
  function MaximumOver<T>(key: T -> int, zero: T, vs: seq<T>): (r: Kept<T>)
    ensures r.hasValue <==> |vs| > 0
    ensures |vs| == 0 ==> r.current == zero
    ensures |vs| > 0 ==> exists i :: EarliestGreatest(key, vs, i) && r.current == vs[i]
    decreases |vs|
  {
    if |vs| == 0 then Start(zero)
    else
      var pre := vs[..|vs| - 1];
      var c := MaximumOver(key, zero, pre);
      var r := MaximumStep(key, c, vs[|vs| - 1]);
      assert |pre| > 0 ==> exists i :: EarliestGreatest(key, vs, i) && r.current == vs[i] by {
        if |pre| > 0 {
          var k :| EarliestGreatest(key, pre, k) && c.current == pre[k];
          assert forall j | 0 <= j < |pre| :: vs[j] == pre[j];
          if key(vs[|vs| - 1]) > key(c.current) {
            assert EarliestGreatest(key, vs, |vs| - 1);
          } else {
            assert vs[k] == pre[k];
            assert EarliestGreatest(key, vs, k);
          }
        }
      }
      assert |pre| == 0 ==> EarliestGreatest(key, vs, 0);
      r
  }

  /** `first` after observing `vs`: the first observation, if any. */
  function FirstOver<T>(zero: T, vs: seq<T>): (r: Kept<T>)
    ensures r.hasValue <==> |vs| > 0
    ensures r.current == if |vs| == 0 then zero else vs[0]
    decreases |vs|
  {
    if |vs| == 0 then Start(zero)
    else FirstStep(FirstOver(zero, vs[..|vs| - 1]), vs[|vs| - 1])
  }

  /** `last` after observing `vs` (`operator()` assigns every observation). */
  function LastOver<T>(zero: T, vs: seq<T>): (r: T)
    ensures r == if |vs| == 0 then zero else vs[|vs| - 1]
    decreases |vs|
  {
    if |vs| == 0 then zero
    else
      var _ := LastOver(zero, vs[..|vs| - 1]);
      vs[|vs| - 1]
  }

  /** `range` after a hint and the observation of `vs`: every value, in order. */
  function RangeOver<T>(start: Ranged<T>, vs: seq<T>): (r: Ranged<T>)
    ensures r.values == start.values + vs
    ensures r.reserved == start.reserved
    decreases |vs|
  {
    if |vs| == 0 then start
    else
      var c := RangeOver(start, vs[..|vs| - 1]);
      assert vs == vs[..|vs| - 1] + [vs[|vs| - 1]];
      Ranged(c.values + [vs[|vs| - 1]], c.reserved)
  }

  // ---------------------------------------------------------------------------
  // `result()` of each collector after an emission that produced `vs`.
  // ---------------------------------------------------------------------------

  function MinimumOf<T>(key: T -> int, zero: T, vs: seq<T>): T
  {
    MinimumOver(key, zero, vs).current
  }

  function MaximumOf<T>(key: T -> int, zero: T, vs: seq<T>): T
  {
    MaximumOver(key, zero, vs).current
  }

  function FirstOf<T>(zero: T, vs: seq<T>): T
  {
    FirstOver(zero, vs).current
  }

  function LastOf<T>(zero: T, vs: seq<T>): T
  {
    LastOver(zero, vs)
  }

  /** `range` as simple.hpp drives it: `hint(size)` first, then the observations. */
  function RangeOf<T>(size: nat, vs: seq<T>): seq<T>
  {
    RangeOver(RangeHint(Ranged([], 0), size), vs).values
  }

  /** `default_collector<T>` (rocket.hpp) and simple.hpp's default selector: a
      `last` over optionals, so the empty optional is what no observation leaves. */
  function DefaultOf<T>(vs: seq<T>): (r: Option<T>)
    ensures |vs| == 0 <==> r.None?
    ensures |vs| > 0 ==> r == Some(vs[|vs| - 1])
  {
    LastOf(None, seq(|vs|, i requires 0 <= i < |vs| => Some(vs[i])))
  }

  // ---------------------------------------------------------------------------
  // Properties of the results.
  // ---------------------------------------------------------------------------

  /** The earliest least element is unique, so `minimum`'s result is determined. */
  lemma EarliestLeastUnique<T>(key: T -> int, vs: seq<T>, i: int, j: int)
    requires EarliestLeast(key, vs, i) && EarliestLeast(key, vs, j)
    ensures i == j
  {
    var ki, kj := key(vs[i]), key(vs[j]);
    assert ki <= kj && kj <= ki;
    assert i < j ==> kj < ki;
    assert j < i ==> ki < kj;
  }

  /** The minimum's key is no greater than any observed key, and the first
      element with that key is the one returned. */
  lemma MinimumIsLeast<T>(key: T -> int, zero: T, vs: seq<T>)
    requires |vs| > 0
    ensures MinimumOf(key, zero, vs) in vs
    ensures forall j | 0 <= j < |vs| :: key(MinimumOf(key, zero, vs)) <= key(vs[j])
    ensures forall i | EarliestLeast(key, vs, i) :: MinimumOf(key, zero, vs) == vs[i]
  {
    var m := MinimumOf(key, zero, vs);
    var k :| EarliestLeast(key, vs, k) && m == vs[k];
    assert m in vs;
    forall i | EarliestLeast(key, vs, i)
      ensures m == vs[i]
    {
      EarliestLeastUnique(key, vs, i, k);
    }
  }

  /** The earliest greatest element is unique, so `maximum`'s result is determined. */
  lemma EarliestGreatestUnique<T>(key: T -> int, vs: seq<T>, i: int, j: int)
    requires EarliestGreatest(key, vs, i) && EarliestGreatest(key, vs, j)
    ensures i == j
  {
    var ki, kj := key(vs[i]), key(vs[j]);
    assert ki >= kj && kj >= ki;
    assert i < j ==> kj > ki;
    assert j < i ==> ki > kj;
  }

  /** The maximum's key is no smaller than any observed key, and the first
      element with that key is the one returned. */
  lemma MaximumIsGreatest<T>(key: T -> int, zero: T, vs: seq<T>)
    requires |vs| > 0
    ensures MaximumOf(key, zero, vs) in vs
    ensures forall j | 0 <= j < |vs| :: key(MaximumOf(key, zero, vs)) >= key(vs[j])
    ensures forall i | EarliestGreatest(key, vs, i) :: MaximumOf(key, zero, vs) == vs[i]
  {
    var m := MaximumOf(key, zero, vs);
    var k :| EarliestGreatest(key, vs, k) && m == vs[k];
    assert m in vs;
    forall i | EarliestGreatest(key, vs, i)
      ensures m == vs[i]
    {
      EarliestGreatestUnique(key, vs, i, k);
    }
  }

  /** `range` returns exactly what was observed, whatever the hint: `hint`
      never changes a result. */
  lemma RangeIgnoresHint<T>(size: nat, vs: seq<T>)
    ensures RangeOf(size, vs) == vs
  {
  }

  /** Observation order matters only through the first and last elements for
      `first` and `last`: appending to the results never changes `first`. */
  lemma FirstStable<T>(zero: T, vs: seq<T>, more: seq<T>)
    requires |vs| > 0
    ensures FirstOf(zero, vs + more) == FirstOf(zero, vs)
  {
  }

  /** The usage example: three slots computing `x * 3`, `x * 1` and `x * 2`,
      emitted with 5, hand 15, 5 and 10 to the collector. */
  lemma UsageExample()
    ensures MinimumOf(x => x, 0, [15, 5, 10]) == 5
    ensures MaximumOf(x => x, 0, [15, 5, 10]) == 15
    ensures FirstOf(0, [15, 5, 10]) == 15
    ensures LastOf(0, [15, 5, 10]) == 10
    ensures RangeOf(3, [15, 5, 10]) == [15, 5, 10]
    ensures DefaultOf([15, 5, 10]) == Some(10)
    ensures DefaultOf<int>([]) == None
  {
    MinimumIsLeast(x => x, 0, [15, 5, 10]);
    MaximumIsGreatest(x => x, 0, [15, 5, 10]);
  }
}
