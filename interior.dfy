/** Shared mutable state through `Cell` and `RefCell`: a counter bumped
    behind a shared reference, a naive reference-counted box, and a graph
    whose nodes hold references to one another. */
module InteriorMut {
  import opened Ints

  /** `std::cell::Cell<T>`: a value replaced through a shared reference. */
  class Cell<T> {
    var value: T

    constructor (v: T)
      ensures value == v
    {
      value := v;
    }

    /** `Cell::get`. */
    function Get(): T
      reads this
    {
      value
    }

    /** `Cell::set`. */
    method Set(v: T)
      modifies this
      ensures value == v
    {
      value := v;
    }
  }

  /** `foo`: reads the cell and stores two more. The addition panics on
      `i32` overflow. */
  method Foo(cell: Cell<i32>)
    requires cell.value <= I32_MAX - 2
    modifies cell
    ensures cell.value == old(cell.value) + 2
  {
    var value := cell.Get();
    cell.Set(value + 2);
  }

  /** The first part of `main`: `new_value` is read before `foo` runs and
      stored after it, so what `foo` did is lost. */
  method CellDemo() returns (afterFoo: i32, afterSet: i32)
    ensures afterFoo == 2 && afterSet == 1
  {
    var cell := new Cell<i32>(0);
    var newValue := cell.Get() + 1;
    Foo(cell);
    afterFoo := cell.Get();
    cell.Set(newValue);
    afterSet := cell.Get();
  }

  /** `NaiveRc<T>`: the value and a counter cell. */
  class NaiveRc<T> {
    var inner: T
    var refs: Cell<usize>

    /** `NaiveRc::new`: the count starts at 1. */
    constructor (inner: T)
      ensures this.inner == inner && fresh(refs) && refs.value == 1
    {
      this.inner := inner;
      refs := new Cell<usize>(1);
    }

    /** `NaiveRc::ref_count`. */
    function RefCount(): usize
      reads this, refs
    {
      refs.Get()
    }

    /** `Clone::clone`: bumps this counter, then copies it (`Cell::clone`
        makes a new cell), so the two counts agree now and move apart later.
        The increment panics at `usize::MAX`. */
    method Clone() returns (c: NaiveRc<T>)
      requires refs.value < U64_LIMIT - 1
      modifies refs
      ensures refs.value == old(refs.value) + 1
      ensures fresh(c) && fresh(c.refs) && c.inner == inner && c.refs.value == refs.value
    {
      refs.Set(refs.Get() + 1);
      c := new NaiveRc.Copy(inner, refs.Get());
    }

    /** The struct literal in `clone`. */
    constructor Copy(inner: T, count: usize)
      ensures this.inner == inner && fresh(refs) && refs.value == count
    {
      this.inner := inner;
      refs := new Cell<usize>(count);
    }
  }

  /** The second part of `main`, and one more clone of the clone: the
      original's count is not touched by a clone of its clone. */
  method RcDemo() returns (before: usize, original: usize, copy: usize, originalLater: usize, copyLater: usize)
    ensures before == 1 && original == 2 && copy == 2
    ensures originalLater == 2 && copyLater == 3
  {
    var w := new NaiveRc<string>("Foo");
    before := w.RefCount();
    var w2 := w.Clone();
    original := w.RefCount();
    copy := w2.RefCount();
    var w3 := w2.Clone();
    originalLater := w.RefCount();
    copyLater := w2.RefCount();
  }

  /** `Rc<RefCell<_Node<T>>>`: a node shared by reference, with its value
      and the nodes it points to. */
  class Node<T> {
    var inner: T
    var adjacent: seq<Node<T>>

    /** `Node::new`: no edges yet. */
    constructor (value: T)
      ensures inner == value && adjacent == []
    {
      inner := value;
      adjacent := [];
    }

    /** `Node::add_adjacent`: one more edge from this node to `other`,
        added last; duplicates and an edge to itself are allowed. */
    method AddAdjacent(other: Node<T>)
      modifies this
      ensures adjacent == old(adjacent) + [other] && inner == old(inner)
    {
      adjacent := adjacent + [other];
    }
  }

  datatype Graph<T> = Graph(nodes: seq<Node<T>>)

  /** `Graph::from_nodes`. */
  function FromNodes<T>(nodes: seq<Node<T>>): (g: Graph<T>)
    ensures g.nodes == nodes
  {
    Graph(nodes)
  }

  /** The values of the nodes `n` points to, in edge order. */
  function Neighbours<T>(n: Node<T>): (r: seq<T>)
    reads n, set m | m in n.adjacent
    ensures |r| == |n.adjacent| && forall k :: 0 <= k < |r| ==> r[k] == n.adjacent[k].inner
  {
    seq(|n.adjacent|, k reads n, set m | m in n.adjacent requires 0 <= k < |n.adjacent| => n.adjacent[k].inner)
  }

  /** The third part of `main`: three nodes, `1 -> 2`, `1 -> 3`, `2 -> 1`,
      `3 -> 1`, listed with their neighbours in graph order. */
  method GraphDemo() returns (g: Graph<int>, shown: seq<(int, seq<int>)>)
    ensures shown == [(1, [2, 3]), (2, [1]), (3, [1])]
  {
    var node1 := new Node(1);
    var node2 := new Node(2);
    var node3 := new Node(3);
    node1.AddAdjacent(node2);
    node1.AddAdjacent(node3);
    node2.AddAdjacent(node1);
    node3.AddAdjacent(node1);
    g := FromNodes([node1, node2, node3]);
    shown := [];
    for i := 0 to |g.nodes|
      invariant |shown| == i
      invariant forall k :: 0 <= k < i ==> shown[k] == (g.nodes[k].inner, Neighbours(g.nodes[k]))
    {
      var node := g.nodes[i];
      shown := shown + [(node.inner, Neighbours(node))];
    }
    assert Neighbours(node1) == [2, 3];
    assert Neighbours(node2) == [1];
    assert Neighbours(node3) == [1];
  }
}
