/** Two small readers over borrowed byte slices: a fixed pair of two-byte
    fields, and a list of two-byte items behind a big-endian count. */
module NomRef {
  import opened Ints
  import opened Nom

  /** `&[u8; 2]`. */
  type Pair = b: Bytes | |b| == 2 witness [0, 0]

  datatype DoubleU16 = DoubleU16(first: Pair, second: Pair)

  datatype ListU16 = ListU16(l: seq<Pair>)

  /** `map(take(2usize), |r| r.try_into().unwrap())`: the conversion to a
      two-byte array cannot fail after `take(2)`. */
  function TakePair(input: Bytes): (r: IResult<Pair, InputError>)
    ensures r.Ok? <==> 2 <= |input|
    ensures r.Ok? ==> r.value == input[..2] && r.rest == input[2..]
    ensures !r.Ok? ==> r == EofAt(input)
  {
    var (i, b) :- Take(2, input);
    var p: Pair := b;
    Ok(i, p)
  }

  /** `read_double_u16`. */
  function ReadDoubleU16(content: Bytes): (r: IResult<DoubleU16, InputError>)
    ensures r.Ok? <==> 4 <= |content|
    ensures r.Ok? ==> r.value.first == content[..2] && r.value.second == content[2..4] &&
                      r.rest == content[4..]
    ensures |content| < 2 ==> r == EofAt(content)
    ensures 2 <= |content| < 4 ==> r == EofAt(content[2..])
  {
    var (i1, first) :- TakePair(content);
    var (i2, second) :- TakePair(i1);
    Ok(i2, DoubleU16(first, second))
  }

  /** `read_list_u16`: a big-endian count `n`, then `n` two-byte items in
      input order; it fails when the count or any item is cut short. */
  function ReadListU16(content: Bytes): (r: IResult<ListU16, InputError>)
    ensures |content| < 2 ==> r == EofAt(content)
    ensures 2 <= |content| ==>
              var n := FromBe16(content[0], content[1]);
              (r.Ok? <==> 2 + 2 * n <= |content|) &&
              (r.Ok? ==> |r.value.l| == n && r.rest == content[2 + 2 * n..] &&
                         forall i :: 0 <= i < n ==> r.value.l[i] == content[2 + 2 * i..2 + 2 * i + 2])
  {
    LengthCountPairs(content);
    var (i, res) :- LengthCountBeU16(TakePair, content);
    Ok(i, ListU16(res))
  }

  /** One pair read ahead of the others: `count` keeps the first pair in
      front of the rest, and a failure of the rest is its own. */
  lemma CountPairsStep(n: nat, input: Bytes)
    requires n > 0 && 2 <= |input|
    ensures var q := CountOf(TakePair, n - 1, input[2..]);
            var r := CountOf(TakePair, n, input);
            (q.Ok? ==> r == Ok(q.rest, [input[..2]] + q.value)) && (!q.Ok? ==> r == q)
  {
  }

  /** `n` pairs read one after the other: they are the consecutive two-byte
      chunks of the input, and the first chunk that is short fails with the
      input left at it. */
  lemma CountPairs(n: nat, input: Bytes)
    ensures var r := CountOf(TakePair, n, input);
            (r.Ok? <==> 2 * n <= |input|) &&
            (r.Ok? ==> r.rest == input[2 * n..] &&
                       forall i :: 0 <= i < n ==> r.value[i] == input[2 * i..2 * i + 2]) &&
            (!r.Ok? ==> r == EofAt(input[2 * (|input| / 2)..]))
  {
    if 2 * n <= |input| {
      CountPairsOk(n, input);
    } else {
      CountPairsShort(n, input);
    }
  }

  lemma {:induction false} CountPairsOk(n: nat, input: Bytes)
    requires 2 * n <= |input|
    ensures CountOf(TakePair, n, input).Ok?
    ensures CountOf(TakePair, n, input).rest == input[2 * n..]
    ensures forall i :: 0 <= i < n ==> CountOf(TakePair, n, input).value[i] == input[2 * i..2 * i + 2]
    decreases n
  {
    if n > 0 {
      var tail := input[2..];
      CountPairsOk(n - 1, tail);
      CountPairsStep(n, input);
      PairsShift(n, input, CountOf(TakePair, n - 1, tail).value);
      assert tail[2 * (n - 1)..] == input[2 * n..];
    }
  }

  lemma {:induction false} CountPairsShort(n: nat, input: Bytes)
    requires |input| < 2 * n
    ensures CountOf(TakePair, n, input) == EofAt(input[2 * (|input| / 2)..])
    decreases n
  {
    if 2 <= |input| {
      var tail := input[2..];
      CountPairsShort(n - 1, tail);
      CountPairsStep(n, input);
      assert 2 * (|tail| / 2) + 2 == 2 * (|input| / 2);
      assert tail[2 * (|tail| / 2)..] == input[2 * (|input| / 2)..];
    } else {
      assert input[2 * (|input| / 2)..] == input;
    }
  }

  /** The chunks of `input[2..]` are those of `input` after its first. */
  lemma PairsShift(n: nat, input: Bytes, pairs: seq<Pair>)
    requires n > 0 && 2 * n <= |input| && |pairs| == n - 1
    requires forall i :: 0 <= i < n - 1 ==> pairs[i] == input[2..][2 * i..2 * i + 2]
    ensures forall i :: 0 <= i < n ==> ([input[..2]] + pairs)[i] == input[2 * i..2 * i + 2]
  {
    forall i | 1 <= i < n
      ensures ([input[..2]] + pairs)[i] == input[2 * i..2 * i + 2]
    {
      assert ([input[..2]] + pairs)[i] == pairs[i - 1];
    }
  }

  /** `length_count(be_u16, pair)`: the count `n`, then `n` consecutive
      two-byte chunks after it. */
  lemma LengthCountPairs(content: Bytes)
    ensures |content| < 2 ==> LengthCountBeU16(TakePair, content) == EofAt(content)
    ensures 2 <= |content| ==>
              var n := FromBe16(content[0], content[1]);
              var r := LengthCountBeU16(TakePair, content);
              (r.Ok? <==> 2 + 2 * n <= |content|) &&
              (r.Ok? ==> |r.value| == n && r.rest == content[2 + 2 * n..] &&
                         forall i :: 0 <= i < n ==> r.value[i] == content[2 + 2 * i..2 + 2 * i + 2])
  {
    if 2 <= |content| {
      var tail := content[2..];
      CountPairs(FromBe16(content[0], content[1]), tail);
      var n := FromBe16(content[0], content[1]);
      forall i | 0 <= i < n && 2 + 2 * n <= |content|
        ensures tail[2 * i..2 * i + 2] == content[2 + 2 * i..2 + 2 * i + 2]
      {
      }
    }
  }

  /** A count of `n` items followed by fewer than `2 n` bytes fails at the
      first short item. */
  lemma ReadListU16Short(content: Bytes)
    requires 2 <= |content| && |content| < 2 + 2 * FromBe16(content[0], content[1])
    ensures var tail := content[2..];
            ReadListU16(content) == EofAt(tail[2 * (|tail| / 2)..])
  {
    CountPairs(FromBe16(content[0], content[1]), content[2..]);
  }

  /** The first demo, with its last four bytes arbitrary. */
  lemma DemoDouble(rest: Bytes)
    requires |rest| == 4
    ensures ReadDoubleU16([0, 1, 3, 0] + rest) == Ok(rest, DoubleU16([0, 1], [3, 0]))
  {
    var c := [0, 1, 3, 0] + rest;
    assert c[..2] == [0, 1] && c[2..4] == [3, 0] && c[4..] == rest;
  }

  /** The second demo: a count of 3 and three two-byte items; nothing is
      left over. */
  lemma DemoList(x: u8, y: u8, z: u8)
    ensures ReadListU16([0, 3, 0, x, 0, y, 0, z]) == Ok([], ListU16([[0, x], [0, y], [0, z]]))
  {
    var c: Bytes := [0, 3, 0, x, 0, y, 0, z];
    var tail := c[2..];
    assert FromBe16(c[0], c[1]) == 3;
    CountPairsOk(3, tail);
    var q := CountOf(TakePair, 3, tail);
    assert q.value[0] == tail[0..2] == [0, x];
    assert q.value[1] == tail[2..4] == [0, y];
    assert q.value[2] == tail[4..6] == [0, z];
    assert q.value == [[0, x], [0, y], [0, z]];
    assert ReadListU16(c) == Ok(q.rest, ListU16(q.value));
  }
}
