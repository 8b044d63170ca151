/** The batch value selectors of simplesig.hpp (v1.0).

    The oldest generation does not observe results one at a time: the signal
    first gathers every slot result into a vector and then applies a selector
    to the whole iterator range. Each selector here is proved to give the same
    answer as the incremental collector of rocket.hpp and simple.hpp with the
    same name, on the same sequence of results. */
module RangeCollectors {
  import Collectors

  /** `minimum::operator()(first, last)`: `value_type{}` on an empty range,
      otherwise a scan that replaces the kept value only when `min > *first`. */
  method Minimum<T>(key: T -> int, zero: T, vs: seq<T>) returns (r: T)
    ensures |vs| == 0 ==> r == zero
    ensures |vs| > 0 ==> exists i :: Collectors.EarliestLeast(key, vs, i) && r == vs[i]
    ensures r == Collectors.MinimumOf(key, zero, vs)
  {
    if |vs| == 0 {
      return zero;
    }
    var min := vs[0];
    var k := 1;
    assert vs[..1] == [vs[0]];
    while k < |vs|
      invariant 1 <= k <= |vs|
      invariant min == Collectors.MinimumOf(key, zero, vs[..k])
    {
      assert vs[..k + 1][..k] == vs[..k];
      if key(min) > key(vs[k]) {
        min := vs[k];
      }
      k := k + 1;
    }
    assert vs[..k] == vs;
    r := min;
  }

  /** `maximum::operator()(first, last)`: replaces only when `max < *first`. */
  method Maximum<T>(key: T -> int, zero: T, vs: seq<T>) returns (r: T)
    ensures |vs| == 0 ==> r == zero
    ensures |vs| > 0 ==> exists i :: Collectors.EarliestGreatest(key, vs, i) && r == vs[i]
    ensures r == Collectors.MaximumOf(key, zero, vs)
  {
    if |vs| == 0 {
      return zero;
    }
    var max := vs[0];
    var k := 1;
    assert vs[..1] == [vs[0]];
    while k < |vs|
      invariant 1 <= k <= |vs|
      invariant max == Collectors.MaximumOf(key, zero, vs[..k])
    {
      assert vs[..k + 1][..k] == vs[..k];
      if key(max) < key(vs[k]) {
        max := vs[k];
      }
      k := k + 1;
    }
    assert vs[..k] == vs;
    r := max;
  }

  /** `first::operator()(first, last)`. */
  function First<T>(zero: T, vs: seq<T>): (r: T)
    ensures r == Collectors.FirstOf(zero, vs)
  {
    if |vs| > 0 then vs[0] else zero
  }

  /** `last::get` for bidirectional iterators: `*(--last)`. */
  function LastBidirectional<T>(zero: T, vs: seq<T>): (r: T)
    ensures r == Collectors.LastOf(zero, vs)
  {
    if |vs| > 0 then vs[|vs| - 1] else zero
  }

  /** `last::get` for forward iterators: walk to the final element. Both
      iterator-category paths agree. */
  method LastForward<T>(zero: T, vs: seq<T>) returns (r: T)
    ensures r == LastBidirectional(zero, vs)
    ensures r == Collectors.LastOf(zero, vs)
  {
    if |vs| == 0 {
      return zero;
    }
    var current := 0;
    var k := 1;
    while k < |vs|
      invariant 1 <= k <= |vs|
      invariant current == k - 1
    {
      current := k;
      k := k + 1;
    }
    r := vs[current];
  }

  /** `range::operator()(first, last)`: a container holding the whole range,
      the same as the incremental `range` whatever it was hinted. */
  function Range<T>(vs: seq<T>): (r: seq<T>)
    ensures forall size: nat :: r == Collectors.RangeOf(size, vs)
  {
    vs
  }
}
