/**
 JSON values, and JSON text seen only through a printer and a parser. A number is a
 decimal literal: its digits and its power of ten.
 */
module Json {
  import opened Wrappers

  datatype Value =
    | Null
    | Bool(b: bool)
    | Number(n: int, e10: int)
    | String(s: string)
    | Array(items: seq<Value>)
    | Object(fields: map<string, Value>)

  /** A printer of JSON text and a parser of it. */
  datatype Codec = Codec(toText: Value -> string, parse: string -> Option<Value>) {

    /** What the models rely on: parsing inverts printing, and printed text stays on one line. */
    ghost predicate Faithful() {
      && (forall v :: parse(toText(v)) == Some(v))
      && (forall v :: '\n' !in toText(v) && '\r' !in toText(v))
    }
  }
}
