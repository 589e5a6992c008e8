/** Parsed JSON documents. Reading text into one is left to a parser parameter where it is needed. */
module Json {
  /**
   Property names have type K: strings, or an enumeration of the names that matter.
   `JOverflow` is a numeral such as 1e999 that JSON.parse turns into an infinity.
   */
  datatype Json<K(==)> =
    | JNull
    | JBool(b: bool)
    | JNumber(n: real)
    | JOverflow
    | JString(s: string)
    | JArray(items: seq<Json<K>>)
    | JObject(fields: Fields<K>)

  type Fields<K(==)> = map<K, Json<K>>
}
