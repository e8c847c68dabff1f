/** The part of SQL the embed compiler emits, with its meaning.

    A query runs in an environment that binds each alias in scope to the row it
    currently stands for, so an inner alias that reuses an outer name captures it. */
module Sql {
  import opened Wrappers
  import opened JsonValues
  import opened Placeholders

  type Env = map<string, Row>

  /** Everything the database decides: the rows, what a set-returning function
      answers for a row, whether a bound condition accepts a row, and how rows sort. */
  datatype World = World(
    tables: map<string, seq<Row>>,
    call: (string, Row) -> seq<Row>,
    accepts: (seq<Piece<Json>>, Row) -> bool,
    sort: (seq<string>, seq<Row>) -> seq<Row>)
  {
    function Rows(table: string): seq<Row> {
      if table in tables then tables[table] else []
    }
  }

  datatype From =
    | Scan(table: string)
    | Through(table: string, junction: string, junctionAlias: string)
    | Call(routine: string, argument: string)

  datatype Pred =
    | KeyEq(left: string, leftColumn: string, right: string, rightColumn: string)
    | Condition(sql: string)
    | Exists(from: From, alias: string, on: seq<Pred>)

  /** Which of its own columns a subselect returns; an empty list is `alias.*`. */
  datatype Column = Column(name: string, output: string)

  datatype Embed = Embed(
    key: string,
    isList: bool,
    from: From,
    alias: string,
    on: seq<Pred>,
    order: seq<string>,
    limit: Option<nat>,
    offset: nat,
    everything: bool,
    columns: seq<Column>,
    nested: seq<Embed>)

  // ----- Values -----

  /** SQL equality in a `WHERE`: null equals nothing, itself included. */
  predicate SqlEq(a: Json, b: Json) { a == b && a != Null }

  function RowOf(env: Env, alias: string): Row {
    if alias in env then env[alias] else map[]
  }

  // ----- Predicates -----

  ghost predicate Holds(w: World, p: Pred, env: Env, self: string, params: seq<Json>)
    decreases p, 0, 0
  {
    match p
    case KeyEq(l, lc, r, rc) => SqlEq(Cell(RowOf(env, l), lc), Cell(RowOf(env, r), rc))
    case Condition(sql) => w.accepts(Bind(Lex(sql), params), RowOf(env, self))
    case Exists(from, alias, on) => Selected(w, from, alias, on, env, params) != []
  }

  ghost predicate HoldsAll(w: World, ps: seq<Pred>, env: Env, self: string, params: seq<Json>)
    decreases ps, 0, 0
  {
    forall i | 0 <= i < |ps| :: Holds(w, ps[i], env, self, params)
  }

  /** The rows `FROM ... AS alias WHERE on` yields. */
  ghost function Selected(w: World, from: From, alias: string, on: seq<Pred>, env: Env, params: seq<Json>)
    : seq<Row>
    decreases on, 3, 0
  {
    match from
    case Scan(table) => Kept(w, w.Rows(table), alias, alias, on, env, params)
    case Through(table, junction, j) => Joined(w, w.Rows(table), w.Rows(junction), alias, j, on, env, params)
    case Call(f, argument) => Kept(w, w.call(f, RowOf(env, argument)), alias, alias, on, env, params)
  }

  /** The rows that satisfy `on` once `bound` stands for them; an unqualified
      column in a condition belongs to `self`. */
  ghost function Kept(w: World, rows: seq<Row>, bound: string, self: string, on: seq<Pred>, env: Env,
                      params: seq<Json>)
    : seq<Row>
    decreases on, 1, |rows|
  {
    if rows == [] then []
    else
      (if HoldsAll(w, on, env[bound := rows[0]], self, params) then [rows[0]] else [])
      + Kept(w, rows[1..], bound, self, on, env, params)
  }

  /** A join yields a child row once for each junction row it meets. */
  ghost function Joined(w: World, rows: seq<Row>, links: seq<Row>, alias: string, j: string,
                        on: seq<Pred>, env: Env, params: seq<Json>)
    : seq<Row>
    decreases on, 2, |rows|
  {
    if rows == [] then []
    else
      Copies(rows[0], Kept(w, links, j, alias, on, env[alias := rows[0]], params))
      + Joined(w, rows[1..], links, alias, j, on, env, params)
  }

  function Copies(row: Row, once: seq<Row>): (rows: seq<Row>)
    ensures |rows| == |once| && forall i | 0 <= i < |rows| :: rows[i] == row
  {
    seq(|once|, _ => row)
  }

  // ----- Embedded values -----

  /** `LIMIT` and `OFFSET`: the rows from the offset on, as many as the limit or to
      the end. */
  function Page<T>(rows: seq<T>, limit: Option<nat>, offset: nat): (page: seq<T>)
    ensures limit.Some? ==> |page| <= limit.value
    ensures forall i | 0 <= i < |page| :: offset + i < |rows| && page[i] == rows[offset + i]
    ensures (limit.Some? && |page| == limit.value) || offset + |page| >= |rows|
  {
    var rest := if offset <= |rows| then rows[offset..] else [];
    if limit.Some? && limit.value < |rest| then rest[..limit.value] else rest
  }

  function Sorted(w: World, order: seq<string>, rows: seq<Row>): seq<Row> {
    if order == [] then rows else w.sort(order, rows)
  }

  function Pick(row: Row, columns: seq<Column>): Row {
    if columns == [] then map[]
    else
      var last := columns[|columns| - 1];
      Pick(row, columns[..|columns| - 1])[last.output := Cell(row, last.name)]
  }

  function OwnColumns(row: Row, everything: bool, columns: seq<Column>): Row {
    if everything then row else Pick(row, columns)
  }

  function Rendered(objects: seq<Json>, isList: bool): Json {
    if isList then Arr(objects) else if objects == [] then Null else objects[0]
  }

  ghost function EmbedValue(w: World, e: Embed, env: Env, params: seq<Json>): Json
    decreases e, 1
  {
    var rows := Page(Sorted(w, e.order, Selected(w, e.from, e.alias, e.on, env, params)), e.limit, e.offset);
    Rendered(Objects(w, e, rows, env, params), e.isList)
  }

  ghost function Objects(w: World, e: Embed, rows: seq<Row>, env: Env, params: seq<Json>): seq<Json>
    decreases e, 0, |rows|
  {
    if rows == [] then []
    else
      [Obj(WithEmbeds(w, OwnColumns(rows[0], e.everything, e.columns), e.nested,
                      env[e.alias := rows[0]], params))]
      + Objects(w, e, rows[1..], env, params)
  }

  /** An object with one more key per embed, later keys over earlier ones. */
  ghost function WithEmbeds(w: World, base: Row, embeds: seq<Embed>, env: Env, params: seq<Json>): Row
    decreases embeds
  {
    if embeds == [] then base
    else
      WithEmbeds(w, base[embeds[0].key := EmbedValue(w, embeds[0], env, params)], embeds[1..], env, params)
  }
}
