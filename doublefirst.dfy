/** Five ways of doubling the first number of a list of strings, each
    reporting a missing first element and an unparsable one differently. */
module DoubleFirst {
  import opened Ints
  import opened Wrappers
  import opened Decimal

  /** `2 * n` panics on `i32` overflow: the doubling functions need the
      first element, when it parses, to be at most half of the range. */
  predicate DoublesSafely(vec: seq<string>)
  {
    vec != [] && ParseI32(vec[0]).Ok? ==> InI32(2 * ParseI32(vec[0]).value)
  }

  function Double(n: i32): i32
    requires InI32(2 * n)
  {
    2 * n
  }

  /** `double_first`: both unwraps panic, so the list must be non-empty and
      its first element a number. */
  function DoubleFirst1(vec: seq<string>): (r: i32)
    requires vec != [] && ParseI32(vec[0]).Ok? && DoublesSafely(vec)
    ensures r == 2 * ParseI32(vec[0]).value
  {
    Double(ParseI32(vec[0]).value)
  }

  /** `double_first_2`: `Option<Result<i32, ParseIntError>>`. */
  function DoubleFirst2(vec: seq<string>): (r: Option<Result<i32, IntErrorKind>>)
    requires DoublesSafely(vec)
    ensures r.None? <==> vec == []
    ensures r.Some? && r.value.Ok? ==> ParseI32(vec[0]).Ok? && r.value.value == 2 * ParseI32(vec[0]).value
    ensures r.Some? && r.value.Err? ==> ParseI32(vec[0]) == Err(r.value.error)
  {
    if vec == [] then None
    else match ParseI32(vec[0])
      case Ok(n) => Some(Ok(Double(n)))
      case Err(e) => Some(Err(e))
  }

  /** `double_first_3`: `map_or(Ok(None), |r| r.map(Some))` turns the
      option of a result into a result of an option. */
  function DoubleFirst3(vec: seq<string>): (r: Result<Option<i32>, IntErrorKind>)
    requires DoublesSafely(vec)
    ensures r == Ok(None) <==> vec == []
    ensures r.Ok? && r.value.Some? ==> ParseI32(vec[0]).Ok? && r.value.value == 2 * ParseI32(vec[0]).value
    ensures r.Err? ==> vec != [] && ParseI32(vec[0]) == Err(r.error)
  {
    match DoubleFirst2(vec)
    case None => Ok(None)
    case Some(res) => match res
      case Ok(n) => Ok(Some(n))
      case Err(e) => Err(e)
  }

  /** `DoubleError`: carries nothing. */
  datatype DoubleError = DoubleError

  /** `Display for DoubleError`. */
  const DOUBLE_ERROR_MESSAGE: string := "[DoubleError] invalid first item to double"

  /** `double_first_4`. */
  function DoubleFirst4(vec: seq<string>): (r: Result<i32, DoubleError>)
    requires DoublesSafely(vec)
    ensures r.Err? <==> vec == [] || ParseI32(vec[0]).Err?
    ensures r.Ok? ==> r.value == 2 * ParseI32(vec[0]).value
  {
    if vec == [] then Err(DoubleError)
    else match ParseI32(vec[0])
      case Ok(n) => Ok(Double(n))
      case Err(_) => Err(DoubleError)
  }

  /** `Box<dyn Error>`, holding one of the two error types in use. */
  datatype BoxedError = EmptyVec | ParseIntError(kind: IntErrorKind)

  /** `double_first_5`: `ok_or`, `and_then`, `map_err(into)`, `map`. */
  function DoubleFirst5(vec: seq<string>): (r: Result<i32, BoxedError>)
    requires DoublesSafely(vec)
    ensures r == Err(EmptyVec) <==> vec == []
    ensures r.Ok? ==> ParseI32(vec[0]).Ok? && r.value == 2 * ParseI32(vec[0]).value
    ensures r.Err? && vec != [] ==> ParseI32(vec[0]).Err? && r.error == ParseIntError(ParseI32(vec[0]).error)
  {
    var first := if vec == [] then Err(EmptyVec) else Ok(vec[0]);
    match first
    case Err(e) => Err(e)
    case Ok(s) => match ParseI32(s)
      case Err(e) => Err(ParseIntError(e))
      case Ok(i) => Ok(Double(i))
  }

  /** `double_first_5_2`: the same with `?`. */
  function DoubleFirst5b(vec: seq<string>): (r: Result<i32, BoxedError>)
    requires DoublesSafely(vec)
    ensures r == Err(EmptyVec) <==> vec == []
    ensures r.Ok? ==> ParseI32(vec[0]).Ok? && r.value == 2 * ParseI32(vec[0]).value
    ensures r.Err? && vec != [] ==> ParseI32(vec[0]).Err? && r.error == ParseIntError(ParseI32(vec[0]).error)
  {
    if vec == [] then Err(EmptyVec)
    else
      var parsed := ParseI32(vec[0]);
      if parsed.Err? then Err(ParseIntError(parsed.error))
      else Ok(Double(parsed.value))
  }

  /** A list headed by a printed `i32` doubles that number: `double_first`
      reads back what `Display` wrote. */
  lemma DoubleFirst1Printed(n: int, rest: seq<string>)
    requires InI32(n) && InI32(2 * n)
    ensures ParseI32(([IntToString(n)] + rest)[0]) == Ok(n) && DoubleFirst1([IntToString(n)] + rest) == 2 * n
  {
    ParseIntToString(n);
  }

  /** `double_first_3` is `double_first_2` with the two layers swapped. */
  lemma DoubleFirst3Transposes(vec: seq<string>)
    requires DoublesSafely(vec)
    ensures DoubleFirst2(vec).None? <==> DoubleFirst3(vec) == Ok(None)
    ensures forall n :: DoubleFirst2(vec) == Some(Ok(n)) <==> DoubleFirst3(vec) == Ok(Some(n))
    ensures forall e :: DoubleFirst2(vec) == Some(Err(e)) <==> DoubleFirst3(vec) == Err(e)
  {
  }

  /** All five agree with `double_first` where it does not panic, and only
      `double_first_4` loses the reason for a failure. */
  lemma DoubleFirstAgree(vec: seq<string>)
    requires DoublesSafely(vec)
    ensures vec != [] && ParseI32(vec[0]).Ok? ==>
              var n := DoubleFirst1(vec);
              DoubleFirst2(vec) == Some(Ok(n)) && DoubleFirst3(vec) == Ok(Some(n)) &&
              DoubleFirst4(vec) == Ok(n) && DoubleFirst5(vec) == Ok(n) && DoubleFirst5b(vec) == Ok(n)
    ensures DoubleFirst4(vec).Err? <==> vec == [] || ParseI32(vec[0]).Err?
    ensures DoubleFirst5(vec) == DoubleFirst5b(vec)
    ensures vec == [] ==> DoubleFirst5(vec) == Err(EmptyVec)
    ensures vec != [] && ParseI32(vec[0]).Err? ==> DoubleFirst5(vec) == Err(ParseIntError(ParseI32(vec[0]).error))
  {
  }

  /** Only the first element is looked at. */
  lemma OnlyFirstMatters(vec: seq<string>, other: seq<string>)
    requires vec != [] && other != [] && vec[0] == other[0] && DoublesSafely(vec)
    ensures DoublesSafely(other) && DoubleFirst5(vec) == DoubleFirst5(other)
  {
  }

  /** The inputs of `main`: `["42", "93", "18"]` doubles to 84, and
      `["tofu", "93", "18"]` is rejected at its first letter. */
  lemma MainInputs()
    ensures ParseI32("42") == Ok(42)
    ensures DoubleFirst5(["42", "93", "18"]) == Ok(84)
    ensures DoubleFirst5(["tofu", "93", "18"]) == Err(ParseIntError(InvalidDigit))
    ensures DoubleFirst4(["tofu", "93", "18"]) == Err(DoubleError)
    ensures DoubleFirst2([]) == None
  {
    ParseI32Digits("42");
    assert ScanDigits("tofu", 0, I32_MAX) == BadDigit;
  }
}
