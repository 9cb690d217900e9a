/** JSON as the server sees it: a value tree, an abstract codec between values
    and bytes (the `encoding/json` library), and the rules by which
    `json.Unmarshal` binds a JSON value to a Go struct field. */
module Json {
  import opened Common

  /** A decoded JSON value. Numbers are kept as integers. */
  datatype Json =
    | Null
    | Bool(b: bool)
    | Number(n: int)
    | Str(s: string)
    | Array(items: seq<Json>)
    | Object(members: map<string, Json>)

  /** The error `json.Unmarshal` reports when a value has the wrong type for the
      Go field it is bound to (`UnmarshalTypeError`). */
  datatype TypeError = TypeError(field: string)

  /** A serialiser/parser pair, as the library provides for each Go type:
      `marshal` may fail, `unmarshal` fails on bytes that are not a valid
      encoding. */
  datatype Codec<!T> = Codec(marshal: T -> Option<Bytes>, unmarshal: Bytes -> Option<T>)

  /** The one property the model assumes of the library: what was marshalled
      unmarshals to the same value. */
  ghost predicate RoundTrips<T(!new)>(c: Codec<T>) {
    forall x :: c.marshal(x).Some? ==> c.unmarshal(c.marshal(x).value) == Some(x)
  }

  /** Binding of an object member to a Go `string` field: an absent member
      and `null` leave the zero value "", a JSON string is taken as it is,
      any other value is a type error. */
  function StringMember(members: map<string, Json>, key: string): (r: Result<string, TypeError>)
    ensures key !in members ==> r == Ok("")
    ensures key in members && members[key].Str? ==> r == Ok(members[key].s)
    ensures key in members && members[key].Null? ==> r == Ok("")
    ensures r.Err? <==> key in members && !members[key].Str? && !members[key].Null?
  {
    if key !in members then Ok("")
    else match members[key]
      case Null => Ok("")
      case Str(s) => Ok(s)
      case _ => Err(TypeError(key))
  }
}
