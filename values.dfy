/** The values exchanged with mpv over its JSON IPC socket, and the error and
    result types of the client. JSON text itself is not modelled: a line of the
    socket is turned into a `Json` by a decoder the client is given. */
module Values {

  datatype Option<+T> = None | Some(value: T)

  /** A JSON value. Numbers are kept as integers: the client never inspects them. */
  datatype Json =
    | Null
    | Bool(b: bool)
    | Num(n: int)
    | Str(s: string)
    | Arr(items: seq<Json>)
    | Obj(fields: map<string, Json>)

  /** Why a client call failed. */
  datatype Error =
    | Malformed(line: string)      // the (trimmed) line did not decode as JSON; "" at end of stream
    | PropertyFailed(reply: Json)  // get_property's reply did not say "success"

  datatype Result<+T> = Ok(value: T) | Err(error: Error)

  /** The 32-bit integer types of the client's signatures. */
  newtype i32 = x: int | -0x8000_0000 <= x < 0x8000_0000
  newtype u32 = x: int | 0 <= x < 0x1_0000_0000

  /** `Value::get` with a string key: the field of an object that holds the
      key, nothing for any other value. */
  function Get(v: Json, key: string): (r: Option<Json>)
    ensures r.Some? <==> v.Obj? && key in v.fields
    ensures r.Some? ==> r.value == v.fields[key]
  {
    match v
    case Obj(fields) => if key in fields then Some(fields[key]) else None
    case _ => None
  }

  /** A value is an event iff it is an object with an "event" key. */
  predicate IsEvent(v: Json) {
    v.Obj? && "event" in v.fields
  }

  /** `IsEvent` is the client's test `get("event").is_some()`: an object
      counts whatever its "event" field holds, even `null`, although indexing
      that field gives `null` just as for an object without it. */
  lemma IsEventIsGetSome(v: Json)
    ensures IsEvent(v) <==> Get(v, "event").Some?
    ensures IsEvent(Obj(map["event" := Null])) && Index(Obj(map["event" := Null]), "event") == Null
  {
  }

  /** Indexing by key (`v[key]`): the field of an object that holds the key;
      `null` for a missing key and for any value that is not an object. */
  function Index(v: Json, key: string): (r: Json)
    ensures v.Obj? && key in v.fields ==> r == v.fields[key]
    ensures !(v.Obj? && key in v.fields) ==> r == Null
  {
    match Get(v, key)
    case Some(field) => field
    case None => Null
  }

  /** The request object mpv runs as a command. */
  function CommandRequest(command: Json): Json {
    Obj(map["command" := command])
  }
}
