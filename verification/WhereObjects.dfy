/** The filter objects that callers hand to the database service, as plain JavaScript data. */
module WhereObjects {
  import opened Wrappers

  datatype Scalar = Text(text: string) | Number(number: int) | Flag(flag: bool) | Instant(ms: int)

  /** A property whose value is `undefined` is an absent entry. */
  datatype Json =
    | Null
    | Atom(scalar: Scalar)
    | List(items: seq<Json>)
    | Object(entries: seq<Entry>)

  datatype Entry = Entry(key: string, value: Json)

  /** Reading one property; `None` is `undefined`. */
  function Property(entries: seq<Entry>, key: string): Option<Json> {
    if entries == [] then None
    else if entries[0].key == key then Some(entries[0].value)
    else Property(entries[1..], key)
  }
}
