/** The standard integer ranges as the ranges example uses them: their
    membership test (`RangeBounds::contains`), their iteration
    (`Iterator::next`, `take(10)`, `for_each`), the boxed ranges built at
    run time, and `clone_box` on such a box. */
module Ranges {
  import opened Ints
  import opened Wrappers

  /** `a..b`, `a..=b`, `a..` and `..b`. An inclusive range carries the
      standard library's `exhausted` flag; `a..` carries the largest value
      of its element type, where stepping past it panics. */
  datatype IntRange =
    | Range(start: int, end: int)
    | RangeInclusive(start: int, end: int, exhausted: bool)
    | RangeFrom(start: int, top: int)
    | RangeTo(end: int)

  /** `RangeBounds::contains`. An exhausted inclusive range reports an
      excluded end. */
  predicate Contains(r: IntRange, i: int)
  {
    match r
    case Range(s, e) => s <= i < e
    case RangeInclusive(s, e, exhausted) => s <= i && (if exhausted then i < e else i <= e)
    case RangeFrom(s, _) => s <= i
    case RangeTo(e) => i < e
  }

  /** `RangeTo` is not an iterator. */
  predicate IsIterator(r: IntRange)
  {
    !r.RangeTo?
  }

  /** A range that `next` leaves behind: the flag is only set once the
      start has reached the end, and `a..` has not stepped past its top. */
  predicate Reachable(r: IntRange)
  {
    match r
    case RangeInclusive(s, e, exhausted) => exhausted ==> e <= s
    case RangeFrom(s, top) => s <= top
    case _ => true
  }

  predicate Finite(r: IntRange)
  {
    r.Range? || r.RangeInclusive?
  }

  /** How many more items a bounded range yields. */
  function Remaining(r: IntRange): nat
  {
    match r
    case Range(s, e) => if s < e then e - s else 0
    case RangeInclusive(s, e, exhausted) => if exhausted || e < s then 0 else e - s + 1
    case _ => 0
  }

  datatype Step = Done | Yield(item: int, rest: IntRange) | Overflow

  /** `Iterator::next`: the current start and the range after it. An
      inclusive range at its last item sets the flag instead of stepping
      past the end; `a..` panics when the step overflows. */
  function Next(r: IntRange): (st: Step)
    requires IsIterator(r)
    ensures st.Yield? ==> Contains(r, st.item) && st.item == r.start
    ensures Finite(r) ==> (st.Yield? <==> Remaining(r) > 0) && !st.Overflow?
    ensures Finite(r) && st.Yield? ==> st.rest.Range? == r.Range? && Finite(st.rest) && Remaining(st.rest) == Remaining(r) - 1
    ensures r.RangeFrom? ==> (st.Overflow? <==> r.start >= r.top) && !st.Done?
    ensures Finite(r) && st.Yield? && Remaining(st.rest) > 0 ==> st.rest.start == r.start + 1
    ensures st.Yield? && Reachable(r) ==> Reachable(st.rest)
  {
    match r
    case Range(s, e) => if s < e then Yield(s, Range(s + 1, e)) else Done
    case RangeInclusive(s, e, exhausted) =>
      if exhausted || e < s then Done
      else if s < e then Yield(s, RangeInclusive(s + 1, e, false))
      else Yield(s, RangeInclusive(s, e, true))
    case RangeFrom(s, top) => if s < top then Yield(s, RangeFrom(s + 1, top)) else Overflow
  }

  /** What a `for` loop over an iterator sees: the items in order, or a
      panic partway. */
  datatype Items = Items(items: seq<int>) | Panicked

  /** `iter.take(n)` run to its end: at most `n` calls of `next`, stopping
      at the first `None`. */
  function Take(r: IntRange, n: nat): Items
    requires IsIterator(r)
    decreases n
  {
    if n == 0 then Items([])
    else match Next(r)
      case Done => Items([])
      case Overflow => Panicked
      case Yield(x, rest) =>
        match Take(rest, n - 1)
        case Items(s) => Items([x] + s)
        case Panicked => Panicked
  }

  function Min(a: nat, b: nat): nat
  {
    if a < b then a else b
  }

  /** `take(n)` on a bounded range yields `min(n, remaining)` consecutive
      items from its start, each of them in the range. */
  lemma {:induction false} TakeFinite(r: IntRange, n: nat)
    requires Finite(r)
    ensures Take(r, n).Items?
    ensures |Take(r, n).items| == Min(n, Remaining(r))
    ensures forall k :: 0 <= k < |Take(r, n).items| ==> Take(r, n).items[k] == r.start + k
    ensures forall k :: 0 <= k < |Take(r, n).items| ==> Contains(r, Take(r, n).items[k])
    decreases n
  {
    if n > 0 && Next(r).Yield? {
      var rest := Next(r).rest;
      TakeFinite(rest, n - 1);
      var s := Take(rest, n - 1).items;
      assert Take(r, n).items == [r.start] + s;
      forall k | 0 <= k < |s|
        ensures Contains(r, s[k])
      {
        assert Contains(rest, s[k]);
      }
    }
  }

  /** `take(n)` on `a..` yields `a, a+1, …, a+n-1`, and panics exactly when
      the `n`-th step passes the top of the element type. */
  lemma {:induction false} TakeFrom(start: int, top: int, n: nat)
    requires start <= top
    ensures Take(RangeFrom(start, top), n).Items? <==> start + n <= top || n == 0
    ensures Take(RangeFrom(start, top), n).Items? ==>
              |Take(RangeFrom(start, top), n).items| == n &&
              forall k :: 0 <= k < n ==> Take(RangeFrom(start, top), n).items[k] == start + k
    decreases n
  {
    if n > 0 && start < top {
      TakeFrom(start + 1, top, n - 1);
    }
  }

  /** `for_each` over a bounded range: every item it yields. */
  function All(r: IntRange): Items
    requires Finite(r)
  {
    Take(r, Remaining(r))
  }

  /** Iterating a bounded range to its end yields exactly its members, in
      ascending order. */
  lemma AllIsMembers(r: IntRange)
    requires Finite(r) && Reachable(r)
    ensures All(r).Items?
    ensures forall k :: 0 <= k < |All(r).items| ==> All(r).items[k] == r.start + k
    ensures forall i :: i in All(r).items <==> Contains(r, i)
  {
    TakeFinite(r, Remaining(r));
    var s := All(r).items;
    forall i | Contains(r, i)
      ensures i in s
    {
      assert s[i - r.start] == i;
    }
  }

  /** `take_range_1`, `take_range_2` and `take_range_3`: the first ten
      items. */
  function TakeTen(r: IntRange): (t: Items)
    requires IsIterator(r)
    ensures Finite(r) ==> t.Items? && |t.items| == Min(10, Remaining(r)) &&
                          forall k :: 0 <= k < |t.items| ==> t.items[k] == r.start + k && Contains(r, t.items[k])
    ensures r.RangeFrom? && Reachable(r) ==>
              (t.Items? <==> r.start + 10 <= r.top) &&
              (t.Items? ==> |t.items| == 10 && forall k :: 0 <= k < 10 ==> t.items[k] == r.start + k)
  {
    if Finite(r) then TakeFinite(r, 10); Take(r, 10)
    else if Reachable(r) then TakeFrom(r.start, r.top, 10); Take(r, 10)
    else Take(r, 10)
  }

  /** `take_range_4`; `take_range_5` and `take_range_6` first widen the
      item with `into` or `from`, which keeps its value. */
  function TakeRange4(r: IntRange, i: int): (b: bool)
    ensures Finite(r) && Reachable(r) ==> All(r).Items? && (b <==> i in All(r).items)
    ensures r.RangeFrom? ==> (b <==> r.start <= i)
    ensures r.RangeTo? ==> (b <==> i < r.end)
  {
    if Finite(r) && Reachable(r) then AllIsMembers(r); Contains(r, i)
    else Contains(r, i)
  }

  /** `make_range_2` and `make_range_clone_2`: `start..=end` or
      `start..end`, boxed. */
  function MakeRange2(start: i32, end: i32, isInclusive: bool): (r: IntRange)
    ensures Finite(r) && Reachable(r) && r.start == start
    ensures forall i :: Contains(r, i) <==> start <= i && (if isInclusive then i <= end else i < end)
  {
    if isInclusive then RangeInclusive(start, end, false) else Range(start, end)
  }

  /** What `main` prints from `take_range_4`, `_5` and `_6`. */
  lemma MainMembership()
    ensures !TakeRange4(Range(0, 2), 4)
    ensures TakeRange4(RangeFrom(0, U32_LIMIT - 1), 4)
    ensures TakeRange4(RangeTo(5), 4)
    ensures TakeRange4(Range(0, 7), 4)
  {
  }

  /** `take_range_1(0..2)` and `take_range_3(0..2)` in `main`. */
  lemma MainTakesRange()
    ensures TakeTen(Range(0, 2)) == Items([0, 1])
  {
    TakeFinite(Range(0, 2), 10);
    var a := TakeTen(Range(0, 2)).items;
    assert a[0] == 0 && a[1] == 1;
  }

  /** `take_range_3(0..=4)` in `main`. */
  lemma MainTakesInclusive()
    ensures TakeTen(RangeInclusive(0, 4, false)) == Items([0, 1, 2, 3, 4])
  {
    TakeFinite(RangeInclusive(0, 4, false), 10);
    var b := TakeTen(RangeInclusive(0, 4, false)).items;
    assert b[0] == 0 && b[1] == 1 && b[2] == 2 && b[3] == 3 && b[4] == 4;
  }

  /** `r2` of `main`. */
  const R2: IntRange := RangeFrom(0, U32_LIMIT - 1)

  /** `take_range_2(0u32..)` and `take_range_3(0u32..)` in `main`: ten items
      from 0, far from the top of `u32`. */
  lemma MainTakesFrom()
    ensures TakeTen(R2) == Items([0, 1, 2, 3, 4, 5, 6, 7, 8, 9])
  {
    TakeTenFrom(0, U32_LIMIT - 1);
  }

  lemma TakeTenFrom(start: int, top: int)
    requires start + 10 <= top
    ensures TakeTen(RangeFrom(start, top)).Items?
    ensures var c := TakeTen(RangeFrom(start, top)).items;
            c == [start, start + 1, start + 2, start + 3, start + 4, start + 5, start + 6, start + 7, start + 8, start + 9]
  {
    TakeFrom(start, top, 10);
  }

  /** An inclusive range ending at `i32::MAX` yields its last item without
      stepping past it, where the half-open range to the same end stops one
      short. */
  lemma InclusiveReachesTop(start: i32)
    ensures All(MakeRange2(start, I32_MAX as i32, true)).Items?
    ensures I32_MAX in All(MakeRange2(start, I32_MAX as i32, true)).items
    ensures All(MakeRange2(start, I32_MAX as i32, false)).Items?
    ensures I32_MAX !in All(MakeRange2(start, I32_MAX as i32, false)).items
  {
    AllIsMembers(MakeRange2(start, I32_MAX as i32, true));
    AllIsMembers(MakeRange2(start, I32_MAX as i32, false));
  }

  /** `Box<dyn CloneIterator<Item = i32>>`: a bounded range that `next`
      advances in place. */
  class BoxedRange {
    var range: IntRange

    constructor (r: IntRange)
      ensures range == r
    {
      range := r;
    }

    /** `Iterator::next` on the box. */
    method NextItem() returns (x: Option<int>)
      requires Finite(range)
      modifies this
      ensures Next(old(range)).Done? ==> x.None? && range == old(range)
      ensures Next(old(range)).Yield? ==> x == Some(Next(old(range)).item) && range == Next(old(range)).rest
    {
      match Next(range)
      case Done => x := None;
      case Yield(item, rest) => x := Some(item); range := rest;
    }

    /** `clone_box`: a new box holding a copy of the range's current state. */
    method CloneBox() returns (c: BoxedRange)
      ensures fresh(c) && c.range == range
    {
      c := new BoxedRange(range);
    }

    /** `for_each`: drains the box and hands out every item. */
    method ForEach() returns (items: seq<int>)
      requires Finite(range)
      modifies this
      ensures All(old(range)) == Items(items) && Remaining(range) == 0
    {
      items := [];
      TakeFinite(range, Remaining(range));
      while true
        invariant Finite(range)
        invariant Take(range, Remaining(range)).Items?
        invariant All(old(range)) == Items(items + Take(range, Remaining(range)).items)
        decreases Remaining(range)
      {
        ghost var before := range;
        var x := NextItem();
        match x {
          case None => return;
          case Some(v) =>
            TakeFinite(range, Remaining(range));
            items := items + [v];
            assert Take(before, Remaining(before)).items == [v] + Take(range, Remaining(range)).items;
        }
      }
    }
  }

  /** The end of `main`: draining the clone yields `5, 6, 7` and leaves the
      original box where it was, so it yields the same items again. */
  method CloneBoxDemo() returns (fromClone: seq<int>, fromOriginal: seq<int>)
    ensures fromClone == [5, 6, 7] && fromOriginal == [5, 6, 7]
  {
    var original := new BoxedRange(MakeRange2(5, 7, true));
    var clone := original.CloneBox();
    fromClone := clone.ForEach();
    fromOriginal := original.ForEach();
    TakeFinite(RangeInclusive(5, 7, false), 3);
    assert fromClone[0] == 5 && fromClone[1] == 6 && fromClone[2] == 7;
  }
}
