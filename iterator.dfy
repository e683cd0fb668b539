/** `EvenNumber`, an iterator over the even `u32` values from a start on. */
module EvenIterator {
  import opened Ints
  import opened Wrappers

  const U32_MAX: int := U32_LIMIT - 1

  /** The smallest even number at or above `x`. */
  function NextEven(x: nat): (r: nat)
    ensures r % 2 == 0 && x <= r <= x + 1
  {
    if x % 2 == 0 then x else x + 1
  }

  class EvenNumber {
    var curr: u32

    /** `even_number(start)`: `None` starts at 0. */
    constructor (start: Option<u32>)
      ensures curr == (if start.Some? then start.value else 0)
    {
      curr := if start.Some? then start.value else 0;
    }

    /** `Iterator::next`: step `curr` until it was even, and return that
        value. `curr += 1` panics at `u32::MAX`, which `next` reaches only
        when it starts there. */
    method Next() returns (r: Option<u32>)
      requires curr < U32_MAX
      modifies this
      ensures r == Some(NextEven(old(curr))) && curr == NextEven(old(curr)) + 1
    {
      while true
        invariant old(curr) <= curr <= NextEven(old(curr))
        decreases NextEven(old(curr)) - curr
      {
        var i := curr;
        curr := curr + 1;
        if i % 2 == 0 {
          return Some(i);
        }
      }
    }
  }

  /** `even_number_0()`. */
  method EvenNumber0() returns (e: EvenNumber)
    ensures fresh(e) && e.curr == 0
  {
    e := new EvenNumber(None);
  }

  /** The loop of `main`: take values from `even_number(start)` until one
      exceeds 50, that one included. The values are consecutive even numbers
      from the first even number at or above `start`. */
  method EvensUpTo50(start: Option<u32>) returns (values: seq<u32>)
    requires start.Some? ==> start.value < U32_MAX
    ensures var first := NextEven(if start.Some? then start.value else 0);
            |values| >= 1 &&
            (forall k :: 0 <= k < |values| ==> values[k] == first + 2 * k) &&
            values[|values| - 1] > 50 &&
            forall k :: 0 <= k < |values| - 1 ==> values[k] <= 50
  {
    var it := new EvenNumber(start);
    ghost var first := NextEven(it.curr);
    values := [];
    while true
      invariant it.curr < U32_MAX && NextEven(it.curr) == first + 2 * |values|
      invariant |values| > 0 ==> it.curr as int == values[|values| - 1] as int + 1
      invariant forall k :: 0 <= k < |values| ==> values[k] == first + 2 * k && values[k] <= 50
      invariant |values| <= 26
      decreases 26 - |values|
    {
      var i := it.Next();
      values := values + [i.value];
      if i.value > 50 {
        return;
      }
    }
  }
}
