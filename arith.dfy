/** The library `add` and its private `adder`, the binary's `sub`, and the
    equalities their tests assert. `i32` arithmetic panics on overflow in a
    debug build, so each operation requires its exact result in range. */
module Arith {
  import opened Ints

  /** `adder`. */
  function Adder(x: i32, y: i32): (r: i32)
    requires InI32(x + y)
    ensures r - y == x && r - x == y
  {
    x + y
  }

  /** `add`: hands on `adder`'s result unchanged, which is the sum. */
  function Add(x: i32, y: i32): (r: i32)
    requires InI32(x + y)
    ensures r - y == x && r - x == y
  {
    Adder(x, y)
  }

  /** `sub`. */
  function Sub(x: i32, y: i32): (r: i32)
    requires InI32(x - y)
    ensures r + y == x
  {
    x - y
  }

  /** `sub` undoes `add`, and `add` undoes `sub`. */
  lemma SubAddInverse(x: i32, y: i32)
    ensures InI32(x + y) ==> Sub(Add(x, y), y) == x
    ensures InI32(x - y) ==> Add(Sub(x, y), y) == x
  {
  }

  /** `add` does not depend on the order of its arguments. */
  lemma AddCommutes(x: i32, y: i32)
    requires InI32(x + y)
    ensures Add(x, y) == Add(y, x)
  {
  }

  /** The tests `internal`, `it_works`, `it_works_0`, `it_works_sub` and
      `dummy`. */
  lemma Tests()
    ensures Adder(2, 2) == 4
    ensures Add(2, 2) == 4 && Add(0, 0) == 0
    ensures Sub(2, 2) == 0
    ensures Add(2, 2) != 3
  {
  }
}
