/** The `Task` record and its byte codec: a nom deserializer and a
    serializer that appends to a byte vector. */
module TaskCodec {
  import opened Ints
  import opened Nom
  import opened Utf8
  import W = Wrappers

  /** A Rust `String`: its UTF-8 bytes, which are always well-formed. */
  type Utf8String = b: Bytes | ValidUtf8(b) witness []

  datatype Task = Task(id: u64, index: u16, name: Utf8String, isCompleted: bool)

  /** `TaskSerializerError`. */
  datatype TaskSerializerError = InvalidNameLength(length: nat)

  /** `TaskDeserializerError<&[u8]>`. `Utf8Error` holds what `FromUtf8Error`
      carries: the rejected bytes and how many of them were valid. */
  datatype TaskDeserializerError =
    | Utf8Error(bytes: Bytes, validUpTo: nat)
    | InvalidBool(value: u8)
    | Nom(input: Bytes, kind: ErrorKind)

  /** `ParseError::from_error_kind`. */
  function FromKind(e: InputError): TaskDeserializerError
  {
    TaskDeserializerError.Nom(e.input, e.code)
  }

  /** `u8::from(bool)`. */
  function BoolByte(b: bool): u8
  {
    if b then 1 else 0
  }

  /** The wire form: id little-endian, index big-endian, the name's length as
      a little-endian u64, the name, and the completion flag as one byte. */
  function Encode(t: Task): (r: Bytes)
    requires |t.name| < U64_LIMIT
    ensures |r| == 19 + |t.name|
  {
    ToLe64(t.id) + ToBe16(t.index) + ToLe64(|t.name|) + t.name + [BoolByte(t.isCompleted)]
  }

  /** The `Vec<u8>` the serializer appends to. */
  class ByteVec {
    var bytes: Bytes

    constructor ()
      ensures bytes == []
    {
      bytes := [];
    }

    /** `Vec::extend`. */
    method Extend(b: Bytes)
      modifies this
      ensures bytes == old(bytes) + b
    {
      bytes := bytes + b;
    }

    /** `Vec::push`. */
    method Push(b: u8)
      modifies this
      ensures bytes == old(bytes) + [b]
    {
      bytes := bytes + [b];
    }
  }

  /** `TaskSerializer::serialize`. A name too long for a u64 length is
      reported only after the id and index were already appended. */
  method Serialize(value: Task, buffer: ByteVec) returns (r: W.Result<(), TaskSerializerError>)
    modifies buffer
    ensures r.Ok? <==> |value.name| < U64_LIMIT
    ensures r.Ok? ==> buffer.bytes == old(buffer.bytes) + Encode(value)
    ensures r.Err? ==> r.error == InvalidNameLength(|value.name|) &&
                       buffer.bytes == old(buffer.bytes) + ToLe64(value.id) + ToBe16(value.index)
  {
    buffer.Extend(ToLe64(value.id));
    buffer.Extend(ToBe16(value.index));
    if |value.name| >= U64_LIMIT {
      return W.Err(InvalidNameLength(|value.name|));
    }
    var nameLength: u64 := |value.name|;
    buffer.Extend(ToLe64(nameLength));
    buffer.Extend(value.name);
    buffer.Push(BoolByte(value.isCompleted));
    return W.Ok(());
  }

  /** The name field: `length_data(le_u64)`, then `String::from_utf8`. */
  function DeserializeName(input: Bytes): (r: IResult<Utf8String, TaskDeserializerError>)
    ensures r.Ok? <==> LengthDataLeU64(input).Ok? && ValidUtf8(LengthDataLeU64(input).value)
    ensures r.Ok? ==> r.rest == LengthDataLeU64(input).rest && r.value == LengthDataLeU64(input).value
  {
    var (i, data) :- LengthDataLeU64(input).MapErr(FromKind);
    if ValidUtf8(data) then
      var name: Utf8String := data;
      Ok(i, name)
    else Err(Error(Utf8Error(data, ValidUpTo(data))))
  }

  /** `TaskDeserializer::deserialize` with `TaskDeserializerError` as the
      error type. Any non-zero flag byte reads as `true`. */
  function Deserialize(buffer: Bytes): (r: IResult<Task, TaskDeserializerError>)
    ensures !r.Panic?
    ensures r.Err? ==> !(r.err.Error? && r.err.inner.InvalidBool?)
  {
    var (i1, id) :- LeU64(buffer).MapErr(FromKind);
    var (i2, index) :- BeU16(i1).MapErr(FromKind);
    var (i3, name) :- DeserializeName(i2);
    var (i4, content) :- Take(1, i3).MapErr(FromKind);
    Ok(i4, Task(id, index, name, content[0] != 0))
  }

  /** Decoding an encoded task gives it back, with whatever followed left
      over. */
  lemma DeserializeEncode(t: Task, rest: Bytes)
    requires |t.name| < U64_LIMIT
    ensures Deserialize(Encode(t) + rest) == Ok(rest, t)
  {
    var i3 := [BoolByte(t.isCompleted)] + rest;
    var i2 := ToLe64(|t.name|) + t.name + i3;
    var i1 := ToBe16(t.index) + i2;
    assert Encode(t) + rest == ToLe64(t.id) + i1;
    LeU64Encoded(t.id, i1);
    BeU16Encoded(t.index, i2);
    LengthDataEncoded(t.name, i3);
    assert DeserializeName(i2) == Ok(i3, t.name);
    assert i3[..1] == [BoolByte(t.isCompleted)] && i3[1..] == rest;
  }

  /** What a successful decode read: the encoding of the task it returns,
      except that the flag byte may be any non-zero value for `true`. */
  lemma DeserializeIsEncoding(buffer: Bytes)
    requires Deserialize(buffer).Ok?
    ensures var r := Deserialize(buffer);
            var k := 18 + |r.value.name|;
            |r.value.name| < U64_LIMIT && |buffer| == 19 + |r.value.name| + |r.rest| &&
            buffer[..k] == Encode(r.value)[..k] &&
            (buffer[k] != 0 <==> r.value.isCompleted) &&
            buffer[k + 1..] == r.rest
  {
    var r := Deserialize(buffer);
    var l1 := LeU64(buffer);
    var i1 := l1.rest;
    var l2 := BeU16(i1);
    var i2 := l2.rest;
    var ln := LengthDataLeU64(i2);
    var i3 := ln.rest;
    var name := ln.value;
    var n := |name|;
    assert buffer == ToLe64(l1.value) + i1;
    assert i1 == ToBe16(l2.value) + i2;
    assert i2 == i2[..8] + name + i3;
    FromLe64RoundTrip(i2[..8]);
    assert i2[..8] == ToLe64(n);
    assert r.value == Task(l1.value, l2.value, name, i3[0] != 0) && r.rest == i3[1..];
    var k := 18 + n;
    assert buffer == ToLe64(l1.value) + ToBe16(l2.value) + ToLe64(n) + name + i3;
    assert buffer[..k] == ToLe64(l1.value) + ToBe16(l2.value) + ToLe64(n) + name;
    assert buffer[k] == i3[0];
  }

  /** A declared name length beyond the bytes left is reported as
      `Incomplete` with the number of bytes missing, not as an error. */
  lemma DeserializeShortName(id: u64, index: u16, length: u64, tail: Bytes)
    requires length > |tail|
    ensures Deserialize(ToLe64(id) + ToBe16(index) + ToLe64(length) + tail)
            == Err(Incomplete(length - |tail|))
  {
    var b := ToLe64(id) + ToBe16(index) + ToLe64(length) + tail;
    var i2 := ToLe64(length) + tail;
    assert b[8..][2..] == i2;
    assert i2[..8] == ToLe64(length) && i2[8..] == tail;
    ToLe64RoundTrip(length);
  }

  /** The demo's first bad input: an id, then a single byte where the
      two-byte index should be. */
  lemma DemoMissingIndex()
    ensures Deserialize(ToLe64(42) + [9]) == Err(Error(TaskDeserializerError.Nom([9], Eof)))
  {
    var b := ToLe64(42) + [9];
    assert b[8..] == [9];
  }

  /** After a complete id and index, a failure of the name field is the
      failure of the whole record. */
  lemma DeserializeNameFails(id: u64, index: u16, tail: Bytes)
    requires !DeserializeName(tail).Ok?
    ensures Deserialize(ToLe64(id) + ToBe16(index) + tail) == DeserializeName(tail).PropagateFailure()
  {
    assert ToLe64(id) + ToBe16(index) + tail == ToLe64(id) + (ToBe16(index) + tail);
    LeU64Encoded(id, ToBe16(index) + tail);
    BeU16Encoded(index, tail);
  }

  /** A name field holding bytes that are not well-formed UTF-8. */
  lemma DeserializeNameInvalid(name: Bytes, rest: Bytes)
    requires |name| < U64_LIMIT && !ValidUtf8(name)
    ensures DeserializeName(ToLe64(|name|) + name + rest) == Err(Error(Utf8Error(name, ValidUpTo(name))))
  {
    LengthDataEncoded(name, rest);
  }

  /** A name that is not well-formed UTF-8 is reported as `Utf8Error`. */
  lemma DeserializeInvalidName(id: u64, index: u16, name: Bytes, rest: Bytes)
    requires |name| < U64_LIMIT && !ValidUtf8(name)
    ensures Deserialize(ToLe64(id) + ToBe16(index) + (ToLe64(|name|) + name + rest))
            == Err(Error(Utf8Error(name, ValidUpTo(name))))
  {
    DeserializeNameInvalid(name, rest);
    DeserializeNameFails(id, index, ToLe64(|name|) + name + rest);
  }

  /** `00 9F`: the second byte is a lone continuation byte. */
  lemma LoneContinuation()
    ensures !ValidUtf8([0, 159]) && ValidUpTo([0, 159]) == 1
  {
    var name: Bytes := [0, 159];
    assert CharWidth(name) == 1 && name[1..] == [159] && CharWidth([159]) == 0;
  }

}
