/** Parsed JSON documents, as the collator sees them once they have been parsed. */
module JsonValues {

  /** A JSON value. Numbers are kept as exact reals; the collator never inspects them. */
  datatype Json =
    | JNull
    | JBool(b: bool)
    | JNum(n: real)
    | JStr(s: string)
    | JArr(items: seq<Json>)
    | JObj(fields: map<string, Json>)

  /** A parsed report: the top-level JSON object of one report file. */
  type Report = map<string, Json>

  /** Hash lookup: a key the report does not have reads as `nil`, i.e. JSON null. */
  function Lookup(r: Report, k: string): Json
  {
    if k in r then r[k] else JNull
  }

  /** The elements of an array value; any other value contributes none. */
  function ArrayItems(j: Json): seq<Json>
  {
    if j.JArr? then j.items else []
  }

  /** The characters of a string value; any other value contributes none. */
  function StringChars(j: Json): string
  {
    if j.JStr? then j.s else ""
  }
}
