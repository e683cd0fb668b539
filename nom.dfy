/** The parts of the nom 7 parser-combinator library that the byte parsers
    use, in their "complete" flavour: running out of input is an error, never
    a request for more. A parser maps the remaining input to an `IResult`. */
module Nom {
  import opened Ints

  /** The kinds of `nom::error::ErrorKind` these parsers report. */
  datatype ErrorKind = Eof | ManyMN | Count

  /** `nom::error::Error`: the input at which a parser gave up, and why. */
  datatype InputError = InputError(input: Bytes, code: ErrorKind)

  /** `nom::Err`. */
  datatype NomErr<E> = Incomplete(needed: nat) | Error(inner: E) | Failure(inner: E)

  /** The runtime panics (debug build) that the modelled code can reach. */
  datatype PanicReason = SubtractOverflow | IndexOutOfBounds

  /** `IResult<&[u8], O, E>`, plus an explicit outcome for a panic. */
  datatype IResult<O, E> = Ok(rest: Bytes, value: O) | Err(err: NomErr<E>) | Panic(reason: PanicReason)
  {
    predicate IsFailure() { !Ok? }

    function PropagateFailure<U>(): (r: IResult<U, E>)
      requires !Ok?
      ensures !r.Ok?
    {
      match this
      case Err(e) => Err(e)
      case Panic(p) => Panic(p)
    }

    function Extract(): (Bytes, O)
      requires Ok?
    {
      (rest, value)
    }

    /** Converts the error of `Error` and `Failure` outcomes (`map_err`-like). */
    function MapErr<F>(f: E -> F): (r: IResult<O, F>)
      ensures (r.Ok? <==> Ok?) && (r.Panic? <==> Panic?)
      ensures Ok? ==> r.rest == rest && r.value == value
      ensures Err? ==> r.Err? && (r.err.Error? <==> err.Error?)
      ensures Panic? ==> r == Panic(reason)
    {
      match this
      case Ok(rest, value) => Ok(rest, value)
      case Err(Incomplete(n)) => Err(Incomplete(n))
      case Err(Error(e)) => Err(Error(f(e)))
      case Err(Failure(e)) => Err(Failure(f(e)))
      case Panic(p) => Panic(p)
    }

    /** `map`: transforms the output, keeping the remaining input. */
    function Map<U>(f: O -> U): (r: IResult<U, E>)
      ensures r.Ok? <==> Ok?
      ensures Ok? ==> r.rest == rest && r.value == f(value)
    {
      match this
      case Ok(rest, value) => Ok(rest, f(value))
      case Err(e) => Err(e)
      case Panic(p) => Panic(p)
    }
  }

  /** The error every primitive reports: `Error((input, Eof))`. */
  function EofAt<O>(input: Bytes): IResult<O, InputError>
  {
    Err(Error(InputError(input, Eof)))
  }

  /** `nom::bytes::complete::take(n)`. */
  function Take(n: nat, input: Bytes): (r: IResult<Bytes, InputError>)
    ensures r.Ok? <==> n <= |input|
    ensures r.Ok? ==> |r.value| == n && r.value + r.rest == input
    ensures !r.Ok? ==> r == EofAt(input)
  {
    if |input| < n then EofAt(input) else Ok(input[n..], input[..n])
  }

  /** `nom::number::complete::be_u16`. */
  function BeU16(input: Bytes): (r: IResult<u16, InputError>)
    ensures r.Ok? <==> 2 <= |input|
    ensures r.Ok? ==> ToBe16(r.value) + r.rest == input
    ensures !r.Ok? ==> r == EofAt(input)
  {
    if |input| < 2 then EofAt(input) else Ok(input[2..], FromBe16(input[0], input[1]))
  }

  /** `nom::number::complete::le_u64`. */
  function LeU64(input: Bytes): (r: IResult<u64, InputError>)
    ensures r.Ok? <==> 8 <= |input|
    ensures r.Ok? ==> ToLe64(r.value) + r.rest == input
    ensures !r.Ok? ==> r == EofAt(input)
  {
    if |input| < 8 then EofAt(input)
    else
      FromLe64RoundTrip(input[..8]);
      assert input[..8] + input[8..] == input;
      Ok(input[8..], FromLe64(input[..8]))
  }

  /** `nom::bytes::complete::take_while(cond)`: the longest prefix whose bytes
      all satisfy `cond`. In the complete flavour it never fails. */
  function TakeWhile(cond: u8 -> bool, input: Bytes): (r: IResult<Bytes, InputError>)
    ensures r.Ok? && r.value + r.rest == input
    ensures forall k :: 0 <= k < |r.value| ==> cond(r.value[k])
    ensures r.rest != [] ==> !cond(r.rest[0])
  {
    if input == [] || !cond(input[0]) then Ok(input, [])
    else
      var tail := TakeWhile(cond, input[1..]);
      Ok(tail.rest, [input[0]] + tail.value)
  }

  /** `nom::multi::length_data(le_u64)`: a little-endian u64 length, then that
      many bytes. Too few bytes is `Incomplete`, as nom 7 reports it. */
  function LengthDataLeU64(input: Bytes): (r: IResult<Bytes, InputError>)
    ensures r.Ok? ==> 8 <= |input| && FromLe64(input[..8]) == |r.value| && input[..8] + r.value + r.rest == input
    ensures |input| < 8 ==> r == EofAt(input)
    ensures 8 <= |input| && FromLe64(input[..8]) > |input| - 8 ==>
              r == Err(Incomplete(FromLe64(input[..8]) - (|input| - 8)))
  {
    var (i, length) :- LeU64(input);
    assert ToLe64(length) == input[..8] && i == input[8..];
    ToLe64RoundTrip(length);
    if length > |i| then Err(Incomplete(length - |i|))
    else
      assert input == ToLe64(length) + i[..length] + i[length..];
      Ok(i[length..], i[..length])
  }

  /** Each primitive reads back what its encoder wrote. */
  lemma LeU64Encoded(x: u64, rest: Bytes)
    ensures LeU64(ToLe64(x) + rest) == Ok(rest, x)
  {
    var b := ToLe64(x) + rest;
    assert b[..8] == ToLe64(x) && b[8..] == rest;
    ToLe64RoundTrip(x);
  }

  lemma BeU16Encoded(x: u16, rest: Bytes)
    ensures BeU16(ToBe16(x) + rest) == Ok(rest, x)
  {
    var b := ToBe16(x) + rest;
    assert b[2..] == rest;
  }

  lemma LengthDataEncoded(data: Bytes, rest: Bytes)
    requires |data| < U64_LIMIT
    ensures LengthDataLeU64(ToLe64(|data|) + data + rest) == Ok(rest, data)
  {
    var b := ToLe64(|data|) + data + rest;
    assert b == ToLe64(|data|) + (data + rest);
    LeU64Encoded(|data|, data + rest);
    assert (data + rest)[..|data|] == data && (data + rest)[|data|..] == rest;
  }

  /** `count` applications of `g`, each on what the previous one left
      (the loop inside `nom::multi::length_count`). The first failure is
      returned unchanged: `ParseError::append` keeps the inner error for
      every error type of this model. */
  function CountOf<O, E>(g: Bytes -> IResult<O, E>, count: nat, input: Bytes): (r: IResult<seq<O>, E>)
    ensures r.Ok? ==> |r.value| == count
    decreases count
  {
    if count == 0 then Ok(input, [])
    else
      var (i, o) :- g(input);
      var (rest, os) :- CountOf(g, count - 1, i);
      Ok(rest, [o] + os)
  }

  /** `nom::multi::length_count(be_u16, g)`. */
  function LengthCountBeU16<O>(g: Bytes -> IResult<O, InputError>, input: Bytes): (r: IResult<seq<O>, InputError>)
    ensures r.Ok? ==> 2 <= |input| && |r.value| == FromBe16(input[0], input[1])
  {
    var (i, count) :- BeU16(input);
    CountOf(g, count, i)
  }

  // many_m_n

  /** The loop of `nom::multi::many_m_n(min, max, parse)` from iteration
      `count` on, with `acc` the outputs collected so far. `fromKind` is the
      error type's `ParseError::from_error_kind`. */
  function ManyMNLoop<O, E>(min: nat, max: nat, parse: Bytes -> IResult<O, E>, fromKind: InputError -> E,
                            count: nat, input: Bytes, acc: seq<O>): IResult<seq<O>, E>
    decreases max - count
  {
    if count >= max then Ok(input, acc)
    else match parse(input)
      case Ok(tail, value) =>
        // the guard against a parser that consumes nothing
        if |tail| == |input| then Err(Error(fromKind(InputError(input, ErrorKind.ManyMN))))
        else ManyMNLoop(min, max, parse, fromKind, count + 1, tail, acc + [value])
      case Err(Error(e)) => if count < min then Err(Error(e)) else Ok(input, acc)
      case Err(e) => Err(e)
      case Panic(p) => Panic(p)
  }

  /** One round of the loop: a successful parse that consumed something is kept. */
  lemma ManyMNLoopStep<O, E>(min: nat, max: nat, parse: Bytes -> IResult<O, E>, fromKind: InputError -> E,
                             count: nat, input: Bytes, acc: seq<O>)
    requires count < max && parse(input).Ok? && |parse(input).rest| < |input|
    ensures ManyMNLoop(min, max, parse, fromKind, count, input, acc)
            == ManyMNLoop(min, max, parse, fromKind, count + 1, parse(input).rest, acc + [parse(input).value])
  {
  }

  /** The loop ends at a recoverable error once `min` outputs are collected. */
  lemma ManyMNLoopStop<O, E>(min: nat, max: nat, parse: Bytes -> IResult<O, E>, fromKind: InputError -> E,
                             count: nat, input: Bytes, acc: seq<O>)
    requires min <= count < max && parse(input).Err? && parse(input).err.Error?
    ensures ManyMNLoop(min, max, parse, fromKind, count, input, acc) == Ok(input, acc)
  {
  }

  /** What `many_m_n(min, max, parse)` returns on `input`. */
  function ManyMNSpec<O, E>(min: nat, max: nat, parse: Bytes -> IResult<O, E>, fromKind: InputError -> E,
                            input: Bytes): IResult<seq<O>, E>
  {
    if min > max then Err(Failure(fromKind(InputError(input, ErrorKind.ManyMN))))
    else ManyMNLoop(min, max, parse, fromKind, 0, input, [])
  }

  /** `many_m_n` as nom runs it: a loop that pushes each output onto a vector. */
  method RunManyMN<O, E>(min: nat, max: nat, parse: Bytes -> IResult<O, E>, fromKind: InputError -> E,
                         input: Bytes) returns (r: IResult<seq<O>, E>)
    ensures r == ManyMNSpec(min, max, parse, fromKind, input)
  {
    if min > max {
      return Err(Failure(fromKind(InputError(input, ErrorKind.ManyMN))));
    }
    var res: seq<O> := [];
    var rest := input;
    var count: nat := 0;
    while count < max
      invariant count <= max
      invariant ManyMNLoop(min, max, parse, fromKind, count, rest, res)
             == ManyMNLoop(min, max, parse, fromKind, 0, input, [])
    {
      var len := |rest|;
      match parse(rest) {
        case Ok(tail, value) =>
          if |tail| == len {
            return Err(Error(fromKind(InputError(rest, ErrorKind.ManyMN))));
          }
          res := res + [value];
          rest := tail;
        case Err(Error(e)) =>
          if count < min {
            return Err(Error(e));
          }
          return Ok(rest, res);
        case Err(e) =>
          return Err(e);
        case Panic(p) =>
          return Panic(p);
      }
      count := count + 1;
    }
    return Ok(rest, res);
  }

  /** `input` is parsed by `parse` into `outs`, one after the other, leaving `rest`. */
  ghost predicate Chain<O, E>(parse: Bytes -> IResult<O, E>, input: Bytes, outs: seq<O>, rest: Bytes)
    decreases |outs|
  {
    if outs == [] then rest == input
    else parse(input).Ok? && parse(input).value == outs[0] && Chain(parse, parse(input).rest, outs[1..], rest)
  }

  /** `t` is what is left of `s` after consuming a prefix. */
  predicate IsSuffix(t: Bytes, s: Bytes)
  {
    |t| <= |s| && t == s[|s| - |t|..]
  }

  lemma SuffixTransitive(a: Bytes, b: Bytes, c: Bytes)
    requires IsSuffix(a, b) && IsSuffix(b, c)
    ensures IsSuffix(a, c)
  {
    assert a == c[|c| - |b|..][|b| - |a|..];
  }

  /** A parser that consumes at least `k` bytes of what it is given whenever it succeeds. */
  ghost predicate Advances<O, E>(parse: Bytes -> IResult<O, E>, k: nat)
  {
    forall s :: parse(s).Ok? ==> |parse(s).rest| + k <= |s| && IsSuffix(parse(s).rest, s)
  }

  /** A parser whose only errors are recoverable ones (`Err::Error`). */
  ghost predicate OnlyRecoverable<O, E>(parse: Bytes -> IResult<O, E>)
  {
    forall s :: parse(s).Err? ==> parse(s).err.Error?
  }

  lemma {:induction false} ChainExtend<O, E>(parse: Bytes -> IResult<O, E>, input: Bytes, outs: seq<O>, mid: Bytes)
    requires Chain(parse, input, outs, mid) && parse(mid).Ok?
    ensures Chain(parse, input, outs + [parse(mid).value], parse(mid).rest)
    decreases |outs|
  {
    if outs != [] {
      assert (outs + [parse(mid).value])[1..] == outs[1..] + [parse(mid).value];
      ChainExtend(parse, parse(input).rest, outs[1..], mid);
    }
  }

  /** What one run of the loop promises, from any intermediate state. */
  lemma {:induction false} ManyMNLoopOutcome<O, E>(min: nat, max: nat, parse: Bytes -> IResult<O, E>,
                                                   fromKind: InputError -> E, count: nat, input0: Bytes,
                                                   input: Bytes, acc: seq<O>)
    requires Advances(parse, 1) && OnlyRecoverable(parse) && min == 0
    requires count <= max && |acc| == count && Chain(parse, input0, acc, input)
    ensures var r := ManyMNLoop(min, max, parse, fromKind, count, input, acc);
            (r.Ok? || r.Panic?) &&
            (r.Ok? ==> |r.value| <= max && Chain(parse, input0, r.value, r.rest) &&
                       (|r.value| == max || (parse(r.rest).Err? && parse(r.rest).err.Error?)))
    decreases max - count
  {
    if count < max {
      match parse(input)
      case Ok(tail, value) =>
        ChainExtend(parse, input0, acc, input);
        ManyMNLoopOutcome(min, max, parse, fromKind, count + 1, input0, tail, acc + [value]);
      case Err(e) =>
      case Panic(p) =>
    }
  }

  /** With `min == 0`, a progressing parser that fails only recoverably
      makes `many_m_n` succeed (or panic with it): it returns at most `max`
      outputs, in input order, and stops early only at an input the parser
      rejects. */
  lemma ManyMNZeroOutcome<O, E>(max: nat, parse: Bytes -> IResult<O, E>, fromKind: InputError -> E, input: Bytes)
    requires Advances(parse, 1) && OnlyRecoverable(parse)
    ensures var r := ManyMNSpec(0, max, parse, fromKind, input);
            (r.Ok? || r.Panic?) &&
            (r.Ok? ==> |r.value| <= max && Chain(parse, input, r.value, r.rest) &&
                       (|r.value| == max || (parse(r.rest).Err? && parse(r.rest).err.Error?)))
  {
    ManyMNLoopOutcome(0, max, parse, fromKind, 0, input, input, []);
  }

  /** The remaining input after a chain is a suffix of where it started. */
  lemma {:induction false} ChainSuffix<O, E>(parse: Bytes -> IResult<O, E>, k: nat, input: Bytes, outs: seq<O>, rest: Bytes)
    requires Advances(parse, k) && Chain(parse, input, outs, rest)
    ensures |rest| + k * |outs| <= |input| && rest == input[|input| - |rest|..]
    decreases |outs|
  {
    if outs != [] {
      var mid := parse(input).rest;
      ChainSuffix(parse, k, mid, outs[1..], rest);
      assert mid == input[|input| - |mid|..];
    }
  }
}
