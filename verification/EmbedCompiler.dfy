/** Compiling a selection tree into correlated subselects. */
module EmbedCompiler {
  import opened Wrappers
  import opened JsonValues
  import opened Decimal
  import opened Placeholders
  import opened Sql

  // ----- What a request asks -----

  datatype Item =
    | Field(name: string, alias: Option<string>)
    | Relation(relation: string, alias: Option<string>, inner: bool, select: seq<Item>)
    | Spread(relation: string, inner: bool, select: seq<Item>)
  {
    predicate Embeds() { !Field? }

    /** The name the client used for an embed. */
    function Name(): string
      requires Embeds()
    {
      if Relation? && alias.Some? then alias.value else relation
    }
  }

  type Path = seq<string>

  /** A filter, or an `and=`/`or=` group, already rendered with its own values. */
  datatype Asked = Asked(path: Path, columns: seq<string>, sql: string, params: seq<Json>)

  datatype Range = Range(limit: Option<nat>, offset: nat)

  datatype Request = Request(
    filters: seq<Asked>,
    logic: seq<Asked>,
    orders: seq<(Path, seq<string>)>,
    ranges: map<string, Range>,
    maxRows: Option<nat>)

  // ----- How tables are related -----

  datatype Plan =
    | ForeignKey(table: string, pairs: seq<(string, string)>, isList: bool)
    | ManyToMany(table: string, junction: string,
                 parentPairs: seq<(string, string)>, childPairs: seq<(string, string)>)
    | Computed(table: string, routine: string, isList: bool)
  {
    predicate YieldsMany() { ManyToMany? || isList }
  }

  datatype Schema = Schema(
    relationships: map<(string, string), Plan>,
    columns: map<string, seq<string>>)

  datatype Error =
    | RelationshipNotFound(table: string, relation: string)
    | ColumnNotFound(table: string, column: string)

  /** What stays fixed while one request's tree is compiled; `base` is how many
      parameters the main query already binds. */
  datatype Context = Context(schema: Schema, request: Request, base: nat)

  // ----- Names and addresses -----

  const SPREAD_KEY_PREFIX := "pgrst_spread_"

  function Alias(n: nat): string { "e" + Show(n) }

  function JunctionAlias(n: nat): string { Alias(n) + "_j" }

  function Dotted(path: Path): string {
    if path == [] then "" else if |path| == 1 then path[0] else path[0] + "." + Dotted(path[1..])
  }

  predicate Addresses(candidate: Path, path: Path, names: Path) {
    candidate == path || candidate == names
  }

  function Addressed(asked: seq<Asked>, path: Path, names: Path): seq<Asked> {
    if asked == [] then []
    else
      (if Addresses(asked[0].path, path, names) then [asked[0]] else []) + Addressed(asked[1..], path, names)
  }

  function ConditionsFor(request: Request, path: Path, names: Path): seq<Asked> {
    Addressed(request.filters, path, names) + Addressed(request.logic, path, names)
  }

  function OrderFor(orders: seq<(Path, seq<string>)>, path: Path, names: Path): seq<string> {
    if orders == [] then []
    else
      (if Addresses(orders[0].0, path, names) then orders[0].1 else []) + OrderFor(orders[1..], path, names)
  }

  /** The window asked for: under the client's names, else the relations' own. */
  function WindowFor(request: Request, path: Path, names: Path): Range {
    if Dotted(path) in request.ranges then request.ranges[Dotted(path)]
    else if Dotted(names) in request.ranges then request.ranges[Dotted(names)]
    else Range(None, 0)
  }

  /** The row window: what was asked for, under the server's own cap. */
  function RangeFor(request: Request, path: Path, names: Path): (r: Range)
    ensures var asked := WindowFor(request, path, names);
      && r.offset == asked.offset
      && (r.limit == asked.limit || r.limit == request.maxRows)
      && (asked.limit.Some? ==> r.limit.Some? && r.limit.value <= asked.limit.value)
      && (request.maxRows.Some? ==> r.limit.Some? && r.limit.value <= request.maxRows.value)
  {
    var range := WindowFor(request, path, names);
    var limit :=
      match (range.limit, request.maxRows)
      case (Some(limit), Some(cap)) => Some(if limit <= cap then limit else cap)
      case (Some(limit), None) => Some(limit)
      case (None, cap) => cap;
    Range(limit, range.offset)
  }

  /** A to-one embed with no window of its own takes the first row. */
  function LimitFor(plan: Plan, range: Range): Option<nat> {
    if range.limit.None? && !plan.YieldsMany() then Some(1) else range.limit
  }

  predicate YieldsColumns(select: seq<Item>) {
    exists i | 0 <= i < |select| :: select[i].Field? || YieldsColumns(select[i].select)
  }

  predicate ProjectsEverything(select: seq<Item>) {
    select == [] || exists i | 0 <= i < |select| :: select[i].Field? && select[i].name == "*"
  }

  function ColumnsOf(select: seq<Item>): seq<Column> {
    if select == [] then []
    else
      (if select[0].Field?
       then [Column(select[0].name, if select[0].alias.Some? then select[0].alias.value else select[0].name)]
       else [])
      + ColumnsOf(select[1..])
  }

  /** The keys a spread's selection contributes to the object above it. */
  function SpreadNames(schema: Schema, table: string, select: seq<Item>): seq<string>
    decreases select
  {
    if select == [] then []
    else
      (match select[0]
       case Field(name, alias) =>
         if name == "*" then (if table in schema.columns then schema.columns[table] else [])
         else [if alias.Some? then alias.value else name]
       case Relation(_, _, _, _) => [select[0].Name()]
       case Spread(relation, _, inside) =>
         if (table, relation) in schema.relationships
         then SpreadNames(schema, schema.relationships[(table, relation)].table, inside)
         else [])
      + SpreadNames(schema, table, select[1..])
  }

  // ----- The compiler -----

  datatype Level = Level(
    embeds: seq<Embed>,
    inners: seq<Pred>,
    filterable: seq<(string, Pred)>,
    spreads: seq<(string, seq<string>)>)
  {
    function Then(more: Level): Level {
      Level(embeds + more.embeds, inners + more.inners, filterable + more.filterable, spreads + more.spreads)
    }
  }

  datatype State = State(counter: nat, params: seq<Json>)

  function UnknownColumn(schema: Schema, table: string, columns: seq<string>): Option<string> {
    if columns == [] then None
    else if table !in schema.columns || columns[0] !in schema.columns[table] then Some(columns[0])
    else UnknownColumn(schema, table, columns[1..])
  }

  /** Each condition moved past every parameter bound so far. */
  function Conditions(c: Context, table: string, asked: seq<Asked>, params: seq<Json>)
    : Result<(seq<Pred>, seq<Json>), Error>
  {
    if asked == [] then Ok(([], params))
    else
      match UnknownColumn(c.schema, table, asked[0].columns)
      case Some(column) => Err(ColumnNotFound(table, column))
      case None =>
        match Conditions(c, table, asked[1..], params + asked[0].params)
        case Err(e) => Err(e)
        case Ok((preds, final)) =>
          Ok(([Condition(Shift(asked[0].sql, c.base + |params|))] + preds, final))
  }

  function ForeignKeyOn(pairs: seq<(string, string)>, parent: string, child: string): seq<Pred> {
    seq(|pairs|, i requires 0 <= i < |pairs| => KeyEq(child, pairs[i].1, parent, pairs[i].0))
  }

  function JunctionOn(plan: Plan, parent: string, child: string, junction: string): seq<Pred>
    requires plan.ManyToMany?
  {
    seq(|plan.childPairs|, i requires 0 <= i < |plan.childPairs| =>
        KeyEq(junction, plan.childPairs[i].0, child, plan.childPairs[i].1))
    + seq(|plan.parentPairs|, i requires 0 <= i < |plan.parentPairs| =>
          KeyEq(junction, plan.parentPairs[i].1, parent, plan.parentPairs[i].0))
  }

  function Correlation(plan: Plan, parent: string, n: nat): seq<Pred> {
    match plan
    case ForeignKey(_, pairs, _) => ForeignKeyOn(pairs, parent, Alias(n))
    case ManyToMany(_, _, _, _) => JunctionOn(plan, parent, Alias(n), JunctionAlias(n))
    case Computed(_, _, _) => []
  }

  function Source(plan: Plan, parent: string, n: nat): From {
    match plan
    case ForeignKey(table, _, _) => Scan(table)
    case ManyToMany(table, junction, _, _) => Through(table, junction, JunctionAlias(n))
    case Computed(_, routine, _) => Call(routine, parent)
  }

  function KeyFor(item: Item, n: nat): string
    requires item.Embeds()
  {
    if item.Spread? then SPREAD_KEY_PREFIX + Alias(n) else item.Name()
  }

  /** Whether an embed puts a key in its parent's object. */
  predicate Contributes(schema: Schema, plan: Plan, item: Item)
    requires item.Embeds()
  {
    && (item.Spread? ==> SpreadNames(schema, plan.table, item.select) != [])
    && YieldsColumns(item.select)
  }

  /** One embed, once its conditions and everything nested in it are compiled. */
  function Assemble(c: Context, plan: Plan, parent: string, item: Item, path: Path, names: Path,
                    n: nat, own: seq<Pred>, nested: Level): Level
    requires item.Embeds()
  {
    var on := Correlation(plan, parent, n) + own + nested.inners;
    var exists_ := Exists(Source(plan, parent, n), Alias(n), on);
    var inners := if item.inner then [exists_] else [];
    var output := SpreadNames(c.schema, plan.table, item.select);
    if item.Spread? && output == [] then
      Level([], inners, [], nested.spreads)
    else
      var range := RangeFor(c.request, path, names);
      var embed := Embed(
        KeyFor(item, n), plan.YieldsMany(), Source(plan, parent, n), Alias(n), on,
        OrderFor(c.request.orders, path, names), LimitFor(plan, range), range.offset,
        ProjectsEverything(item.select), ColumnsOf(item.select), nested.embeds);
      Level(if YieldsColumns(item.select) then [embed] else [],
            inners,
            [(item.Name(), exists_)],
            nested.spreads + if item.Spread? then [(KeyFor(item, n), output)] else [])
  }

  function Compile(c: Context, table: string, parent: string, select: seq<Item>, path: Path, names: Path,
                   st: State): Result<(Level, State), Error>
    decreases select, 0
  {
    if select == [] then Ok((Level([], [], [], []), st))
    else if select[0].Field? then Compile(c, table, parent, select[1..], path, names, st)
    else
      match CompileOne(c, table, parent, select[0], path, names, st)
      case Err(e) => Err(e)
      case Ok((first, mid)) =>
        match Compile(c, table, parent, select[1..], path, names, mid)
        case Err(e) => Err(e)
        case Ok((rest, end)) => Ok((first.Then(rest), end))
  }

  function CompileOne(c: Context, table: string, parent: string, item: Item, path: Path, names: Path,
                      st: State): Result<(Level, State), Error>
    requires item.Embeds()
    decreases item, 0
  {
    if (table, item.relation) !in c.schema.relationships
    then Err(RelationshipNotFound(table, item.relation))
    else
      var plan := c.schema.relationships[(table, item.relation)];
      var n := st.counter + 1;
      var path', names' := path + [item.Name()], names + [item.relation];
      match Conditions(c, plan.table, ConditionsFor(c.request, path', names'), st.params)
      case Err(e) => Err(e)
      case Ok((own, params)) =>
        match Compile(c, plan.table, Alias(n), item.select, path', names', State(n, params))
        case Err(e) => Err(e)
        case Ok((nested, end)) => Ok((Assemble(c, plan, parent, item, path', names', n, own, nested), end))
  }
}
