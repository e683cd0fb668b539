/** The checks the YAML examples run after the text has been read into
    Rust values: choosing an enum variant from optional fields, validating
    fields, and choosing between an IP address and a host name. */
module CustomDe {
  import opened Ints
  import opened Wrappers

  /** The helper struct `Mapping`, as `#[derive(Deserialize)]` fills it:
      keys other than `field`, `A` and `B` are ignored. */
  datatype Mapping = Mapping(field: i32, a: Option<i32>, b: Option<i32>)

  datatype AnEnum = A(i32) | B(i32)

  datatype Example = Example(field: i32, anEnum: AnEnum)

  /** `D::Error::custom(msg)`. */
  datatype DeError = Custom(msg: string)

  /** The `match (a, b)` of `Deserialize for Example`: exactly one of `A`
      and `B` must be present, and it picks the variant. */
  function Decide(m: Mapping): (r: Result<Example, DeError>)
    ensures r.Ok? <==> m.a.Some? != m.b.Some?
    ensures r.Ok? ==> r.value.field == m.field
    ensures r.Ok? && m.a.Some? ==> r.value.anEnum == A(m.a.value)
    ensures r.Ok? && m.b.Some? ==> r.value.anEnum == B(m.b.value)
    ensures r.Err? ==> r.error == Custom(if m.a.Some? then "multiple variant specified" else "No variants specified")
  {
    match (m.a, m.b)
    case (Some(_), Some(_)) => Err(Custom("multiple variant specified"))
    case (Some(a), None) => Ok(Example(m.field, A(a)))
    case (None, Some(b)) => Ok(Example(m.field, B(b)))
    case (None, None) => Err(Custom("No variants specified"))
  }

  /** The inputs of `main` once read: `A: 42` and `B: 110` pick their
      variant; `C: 900` is ignored, which leaves no variant, as with no key. */
  lemma MainInputs()
    ensures Decide(Mapping(42, Some(42), None)) == Ok(Example(42, A(42)))
    ensures Decide(Mapping(42, None, Some(110))) == Ok(Example(42, B(110)))
    ensures Decide(Mapping(42, None, None)) == Err(Custom("No variants specified"))
  {
  }
}

module ValidateField {
  import opened Ints
  import opened Wrappers

  /** `serde::de::Unexpected`, for the two cases used. */
  datatype Unexpected = Unsigned(v: u64) | Seq

  /** `Error::invalid_value(unexpected, expected)`. */
  datatype DeError = InvalidValue(unexpected: Unexpected, expected: string)

  /** `de_above_2`. */
  function DeAbove2(v: u32): (r: Result<u32, DeError>)
    ensures r.Ok? <==> v > 2
    ensures r.Ok? ==> r.value == v
    ensures r.Err? ==> r.error == InvalidValue(Unsigned(v), "a value above 2")
  {
    if v > 2 then Ok(v) else Err(InvalidValue(Unsigned(v), "a value above 2"))
  }

  /** `de_non_empty_vec`. */
  function DeNonEmptyVec(v: seq<u32>): (r: Result<seq<u32>, DeError>)
    ensures r.Ok? <==> v != []
    ensures r.Ok? ==> r.value == v
    ensures r.Err? ==> r.error == InvalidValue(Seq, "a non empty vector'")
  {
    if v != [] then Ok(v) else Err(InvalidValue(Seq, "a non empty vector'"))
  }

  datatype Struct = Struct(fieldAbove2: u32, vecNonEmpty: seq<u32>)

  /** `Struct` through its two validators, in field order: the first
      failure is the error. */
  function DeserializeStruct(fieldAbove2: u32, vecNonEmpty: seq<u32>): (r: Result<Struct, DeError>)
    ensures r.Ok? <==> fieldAbove2 > 2 && vecNonEmpty != []
    ensures r.Ok? ==> r.value == Struct(fieldAbove2, vecNonEmpty)
    ensures fieldAbove2 <= 2 ==> r == Err(InvalidValue(Unsigned(fieldAbove2), "a value above 2"))
  {
    match DeAbove2(fieldAbove2)
    case Err(e) => Err(e)
    case Ok(f) => match DeNonEmptyVec(vecNonEmpty)
      case Err(e) => Err(e)
      case Ok(v) => Ok(Struct(f, v))
  }

  /** The inputs of `main` once read: the vector's own elements are not
      held to the rule for the other field, and 2 is not above 2. */
  lemma MainInputs()
    ensures DeserializeStruct(32, [2, 3]) == Ok(Struct(32, [2, 3]))
    ensures DeserializeStruct(2, [2, 3]).Err?
    ensures DeserializeStruct(3, []).Err?
  {
  }
}

module HostnameDe {
  import opened Wrappers

  /** `Hostname`, with the address type left open. */
  datatype Hostname<Ip> = IpAddr(ip: Option<Ip>) | Host(host: Option<string>)

  const HOSTNAME_KEY: string := "hostname"

  /** `TryFrom<HashMap<String, String>> for Hostname`. `parseIp` stands for
      `str::parse::<IpAddr>`. */
  function TryFrom<Ip>(h: map<string, string>, parseIp: string -> Option<Ip>): (r: Result<Hostname<Ip>, string>)
    ensures r.Err? <==> HOSTNAME_KEY !in h
    ensures r.Err? ==> r.error == "Unable to retrieve hostname"
    ensures r.Ok? && parseIp(h[HOSTNAME_KEY]).Some? ==> r.value == IpAddr(parseIp(h[HOSTNAME_KEY]))
    ensures r.Ok? && parseIp(h[HOSTNAME_KEY]).None? ==> r.value == Host(Some(h[HOSTNAME_KEY]))
  {
    if HOSTNAME_KEY in h then
      var v := h[HOSTNAME_KEY];
      match parseIp(v)
      case Some(ip) => Ok(IpAddr(Some(ip)))
      case None => Ok(Host(Some(v)))
    else Err("Unable to retrieve hostname")
  }

  /** The one-entry map `hostname: <text>` that the inputs of `main` are
      written as. `showIp` stands for `IpAddr`'s `Display`. */
  function ToMap<Ip>(name: Hostname<Ip>, showIp: Ip -> string): (m: map<string, string>)
    requires name.IpAddr? ==> name.ip.Some?
    requires name.Host? ==> name.host.Some?
    ensures m.Keys == {HOSTNAME_KEY}
  {
    match name
    case IpAddr(ip) => map[HOSTNAME_KEY := showIp(ip.value)]
    case Host(host) => map[HOSTNAME_KEY := host.value]
  }

  /** Only the `hostname` entry is looked at. */
  lemma OnlyHostnameKey<Ip>(h1: map<string, string>, h2: map<string, string>, parseIp: string -> Option<Ip>)
    requires (HOSTNAME_KEY in h1) == (HOSTNAME_KEY in h2)
    requires HOSTNAME_KEY in h1 ==> h1[HOSTNAME_KEY] == h2[HOSTNAME_KEY]
    ensures TryFrom(h1, parseIp) == TryFrom(h2, parseIp)
  {
  }

  /** Reading back what was written gives the same value, provided the
      address text parses back to the address and a host name does not
      parse as an address; otherwise a host name comes back as an address. */
  lemma RoundTrip<Ip>(name: Hostname<Ip>, showIp: Ip -> string, parseIp: string -> Option<Ip>)
    requires name.IpAddr? ==> name.ip.Some? && parseIp(showIp(name.ip.value)) == Some(name.ip.value)
    requires name.Host? ==> name.host.Some?
    ensures name.Host? && parseIp(name.host.value).None? ==> TryFrom(ToMap(name, showIp), parseIp) == Ok(name)
    ensures name.Host? && parseIp(name.host.value).Some? ==>
              TryFrom(ToMap(name, showIp), parseIp) == Ok(IpAddr(parseIp(name.host.value)))
    ensures name.IpAddr? ==> TryFrom(ToMap(name, showIp), parseIp) == Ok(name)
  {
  }

  /** The misspelt key of the last input is an error. */
  lemma MisspeltKey<Ip>(v: string, parseIp: string -> Option<Ip>)
    ensures TryFrom(map["hostnam" := v], parseIp) == Err("Unable to retrieve hostname")
  {
    assert "hostnam" != HOSTNAME_KEY;
  }
}
