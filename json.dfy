/** The type classifier: the seven element kinds, the first-byte table, TypeOf
    and the two typed unmarshalling helpers that reduce to a kind check.

    Go's encoding/json is not part of this model. What the classifier needs of
    it is gathered in `Library`: the grammar check `json.Valid` and the
    one-level unmarshalling into `map[string]json.RawMessage` and
    `[]json.RawMessage`. Nothing is required of them except that the JSON
    grammar accepts no empty input (`Decoder`). */
module Json {

  type Byte = b: int | 0 <= b < 0x100
  type Bytes = seq<Byte>

  /** A JSON object whose member values are kept as unparsed byte strings. */
  type RawObject = map<string, Bytes>

  /** A JSON array whose elements are kept as unparsed byte strings. */
  type RawArray = seq<Bytes>

  /** The parts of encoding/json the core calls. */
  datatype Library = Library(
    valid: Bytes -> bool,
    unmarshalObject: Bytes -> RawObject,
    unmarshalArray: Bytes -> RawArray)

  /** A library whose validator, like the JSON grammar, rejects empty input. */
  type Decoder = lib: Library | forall b :: lib.valid(b) ==> |b| > 0
    witness Library(_ => false, _ => map[], _ => [])

  datatype Error =
    | NotValidJson
    | WrongKind(actual: string, expected: string)

  datatype Result<T> = Ok(value: T) | Err(error: Error)

  datatype Option<T> = None | Some(value: T)

  /** The seven element kinds, as the strings the library reports. */
  const Kinds: set<string> := {"object", "array", "string", "true", "false", "null", "number"}

  /** Every kind but number is identified by the first byte of a valid value. */
  const Heuristics: map<Byte, string> := map[
    '{' as int := "object",
    '[' as int := "array",
    '"' as int := "string",
    't' as int := "true",
    'f' as int := "false",
    'n' as int := "null"]

  /** Classifies raw bytes: an error when the grammar rejects them, otherwise
      the kind the first byte names, and number for any other first byte. */
  function TypeOf(lib: Decoder, data: Bytes): (r: Result<string>)
    ensures r.Err? <==> !lib.valid(data)
    ensures r.Err? ==> r.error == NotValidJson
    ensures r.Ok? ==> r.value in Kinds
  {
    if !lib.valid(data) then Err(NotValidJson)
    else if data[0] in Heuristics then Ok(Heuristics[data[0]])
    else Ok("number")
  }

  /** The kind a caller sees when it drops TypeOf's error, as every caller
      that classifies container members does: Go's zero string on failure. */
  function KindOf(lib: Decoder, data: Bytes): (k: string)
    ensures k == "" <==> !lib.valid(data)
    ensures k != "" ==> TypeOf(lib, data) == Ok(k) && k in Kinds
  {
    match TypeOf(lib, data)
    case Ok(t) => t
    case Err(_) => ""
  }

  /** On valid input each kind corresponds to exactly one first byte, and
      number to every byte outside the table. */
  lemma TypeOfByFirstByte(lib: Decoder, data: Bytes)
    requires lib.valid(data)
    ensures TypeOf(lib, data) == Ok("object") <==> data[0] == '{' as int
    ensures TypeOf(lib, data) == Ok("array") <==> data[0] == '[' as int
    ensures TypeOf(lib, data) == Ok("string") <==> data[0] == '"' as int
    ensures TypeOf(lib, data) == Ok("true") <==> data[0] == 't' as int
    ensures TypeOf(lib, data) == Ok("false") <==> data[0] == 'f' as int
    ensures TypeOf(lib, data) == Ok("null") <==> data[0] == 'n' as int
    ensures TypeOf(lib, data) == Ok("number") <==> data[0] !in Heuristics
  {
    assert "number" !in Heuristics.Values by {
      forall b | b in Heuristics ensures Heuristics[b] != "number" { }
    }
  }

  /** The table is read at the literal first byte: a valid value preceded by
      insignificant whitespace is reported as a number. */
  lemma LeadingWhitespaceReadsAsNumber(lib: Decoder, data: Bytes)
    requires lib.valid(data)
    requires data[0] in {' ' as int, '\t' as int, '\n' as int, '\r' as int}
    ensures TypeOf(lib, data) == Ok("number")
  {
  }

  /** UnmarshalObject: the kind check in front of json.Unmarshal. */
  function UnmarshalObject(lib: Decoder, data: Bytes): (r: Result<RawObject>)
    ensures r.Ok? <==> lib.valid(data) && data[0] == '{' as int
    ensures r.Ok? ==> r.value == lib.unmarshalObject(data)
    ensures !lib.valid(data) ==> r == Err(NotValidJson)
    ensures lib.valid(data) && r.Err? ==> r == Err(WrongKind(KindOf(lib, data), "object"))
  {
    match TypeOf(lib, data)
    case Err(e) => Err(e)
    case Ok(t) =>
      TypeOfByFirstByte(lib, data);
      if t != "object" then Err(WrongKind(t, "object")) else Ok(lib.unmarshalObject(data))
  }

  /** UnmarshalArray: the kind check in front of json.Unmarshal. */
  function UnmarshalArray(lib: Decoder, data: Bytes): (r: Result<RawArray>)
    ensures r.Ok? <==> lib.valid(data) && data[0] == '[' as int
    ensures r.Ok? ==> r.value == lib.unmarshalArray(data)
    ensures !lib.valid(data) ==> r == Err(NotValidJson)
    ensures lib.valid(data) && r.Err? ==> r == Err(WrongKind(KindOf(lib, data), "array"))
  {
    match TypeOf(lib, data)
    case Err(e) => Err(e)
    case Ok(t) =>
      TypeOfByFirstByte(lib, data);
      if t != "array" then Err(WrongKind(t, "array")) else Ok(lib.unmarshalArray(data))
  }
}
