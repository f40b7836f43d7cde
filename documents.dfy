/** Product documents as the API receives and stores them: JSON objects,
    that is maps from field names to JSON values, with JavaScript's notion of
    a falsy value. */
module Documents {
  import opened Wrappers

  /** A JSON value. Arrays and objects are kept opaque: the core only ever
      tests them for truthiness, and they are always truthy. */
  datatype Value = Null | Bool(b: bool) | Num(n: real) | Str(s: string) | Composite

  /** A JSON object / Firestore document's data. */
  type Doc = map<string, Value>

  /** `doc.field`: `None` stands for `undefined`. */
  function Field(d: Doc, name: string): Option<Value>
  {
    if name in d then Some(d[name]) else None
  }

  /** JavaScript truthiness of a field: `undefined`, `null`, `false`, `0` and
      `""` are falsy (a JSON value is never `NaN`). */
  predicate Truthy(v: Option<Value>)
  {
    match v
    case None => false
    case Some(Null) => false
    case Some(Bool(b)) => b
    case Some(Num(n)) => n != 0.0
    case Some(Str(s)) => s != []
    case Some(Composite) => true
  }

  /** `{ id: docId, ...data }`: the document id first, so that a field named
      `id` stored in the data takes its place. */
  function WithId(id: string, d: Doc): Doc
  {
    map["id" := Str(id)] + d
  }
}
