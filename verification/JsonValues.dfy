/** JSON documents as the server holds them once parsed. */
module JsonValues {

  /** An object is a map: whether `serde_json` keeps keys sorted or in insertion
      order is a build feature, so no property here depends on key order. */
  datatype Json =
    | Null
    | Bool(truth: bool)
    | Num(number: real)
    | Str(text: string)
    | Arr(items: seq<Json>)
    | Obj(fields: map<string, Json>)

  /** A row, by column. */
  type Row = map<string, Json>

  /** A column a row does not have reads as null. */
  function Cell(row: Row, column: string): Json {
    if column in row then row[column] else Null
  }
}
