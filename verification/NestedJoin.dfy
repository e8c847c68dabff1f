/** What an embedding request means, said without aliases, placeholders or
    subselects: a nested loop over the rows of related tables. */
module NestedJoin {
  import opened JsonValues
  import opened Wrappers
  import opened Placeholders
  import opened Sql
  import opened EmbedCompiler
  import Text

  predicate KeysMatch(pairs: seq<(string, string)>, parent: Row, child: Row) {
    forall i | 0 <= i < |pairs| :: SqlEq(Cell(child, pairs[i].1), Cell(parent, pairs[i].0))
  }

  predicate Linked(plan: Plan, parent: Row, link: Row, child: Row)
    requires plan.ManyToMany?
  {
    && (forall i | 0 <= i < |plan.childPairs| ::
          SqlEq(Cell(link, plan.childPairs[i].0), Cell(child, plan.childPairs[i].1)))
    && (forall i | 0 <= i < |plan.parentPairs| ::
          SqlEq(Cell(link, plan.parentPairs[i].1), Cell(parent, plan.parentPairs[i].0)))
  }

  /** A condition accepts a row when, read with its own values, it does. */
  ghost predicate Accepted(w: World, asked: seq<Asked>, row: Row) {
    forall i | 0 <= i < |asked| :: w.accepts(Bind(Lex(asked[i].sql), asked[i].params), row)
  }

  /** How many relations a selection names, at every depth. */
  function RelationCount(select: seq<Item>): nat {
    if select == [] then 0
    else (if select[0].Field? then 0 else 1 + RelationCount(select[0].select)) + RelationCount(select[1..])
  }

  /** A child stays when its own conditions accept it and each of its `!inner`
      relations has a child of its own. */
  ghost predicate Stays(w: World, c: Context, table: string, select: seq<Item>, path: Path, names: Path, row: Row)
    decreases select, 1
  {
    && Accepted(w, ConditionsFor(c.request, path, names), row)
    && InnersMet(w, c, table, select, path, names, row)
  }

  ghost predicate InnersMet(w: World, c: Context, table: string, select: seq<Item>, path: Path, names: Path,
                            row: Row)
    decreases select, 0
  {
    forall i | 0 <= i < |select| ::
      select[i].Embeds() && select[i].inner ==> Children(w, c, table, select[i], path, names, row) != []
  }

  /** The children of one row: those matching every key pair that stay. */
  ghost function Children(w: World, c: Context, table: string, item: Item, path: Path, names: Path, row: Row)
    : seq<Row>
    requires item.Embeds()
    decreases item, 0
  {
    if (table, item.relation) !in c.schema.relationships then []
    else
      var plan := c.schema.relationships[(table, item.relation)];
      var path', names' := path + [item.Name()], names + [item.relation];
      match plan
      case ForeignKey(child, pairs, _) =>
        Staying(w, c, plan, MatchingKeys(w.Rows(child), pairs, row), item.select, path', names')
      case ManyToMany(child, junction, _, _) =>
        Staying(w, c, plan, MatchingLinks(plan, w.Rows(child), w.Rows(junction), row), item.select, path', names')
      case Computed(_, routine, _) =>
        Staying(w, c, plan, w.call(routine, row), item.select, path', names')
  }

  function MatchingKeys(rows: seq<Row>, pairs: seq<(string, string)>, parent: Row): seq<Row> {
    if rows == [] then []
    else (if KeysMatch(pairs, parent, rows[0]) then [rows[0]] else []) + MatchingKeys(rows[1..], pairs, parent)
  }

  function MatchingLinks(plan: Plan, rows: seq<Row>, links: seq<Row>, parent: Row): seq<Row>
    requires plan.ManyToMany?
  {
    if rows == [] then []
    else Copies(rows[0], LinksTo(plan, links, parent, rows[0])) + MatchingLinks(plan, rows[1..], links, parent)
  }

  function LinksTo(plan: Plan, links: seq<Row>, parent: Row, child: Row): seq<Row>
    requires plan.ManyToMany?
  {
    if links == [] then []
    else (if Linked(plan, parent, links[0], child) then [links[0]] else []) + LinksTo(plan, links[1..], parent, child)
  }

  ghost function Staying(w: World, c: Context, plan: Plan, rows: seq<Row>, select: seq<Item>, path: Path, names: Path)
    : seq<Row>
    decreases select, 2, |rows|
  {
    if rows == [] then []
    else
      (if Stays(w, c, plan.table, select, path, names, rows[0]) then [rows[0]] else [])
      + Staying(w, c, plan, rows[1..], select, path, names)
  }

  /** The value an embed has for one row. `n` is the embed's place in a preorder
      walk of the tree, which only names the reserved key of a spread below it. */
  ghost function Value(w: World, c: Context, table: string, item: Item, path: Path, names: Path, n: nat, row: Row)
    : Json
    requires item.Embeds() && (table, item.relation) in c.schema.relationships
    decreases item, 1
  {
    var plan := c.schema.relationships[(table, item.relation)];
    var path', names' := path + [item.Name()], names + [item.relation];
    var range := RangeFor(c.request, path', names');
    var order := OrderFor(c.request.orders, path', names');
    var rows := Page(Sorted(w, order, Children(w, c, table, item, path, names, row)),
                     LimitFor(plan, range), range.offset);
    Rendered(NestedObjects(w, c, plan, item.select, path', names', n, rows), plan.YieldsMany())
  }

  ghost function NestedObjects(w: World, c: Context, plan: Plan, select: seq<Item>, path: Path, names: Path, n: nat,
                               rows: seq<Row>): seq<Json>
    decreases select, 1, |rows|
  {
    if rows == [] then []
    else
      [Obj(Nested(w, c, plan.table, select, path, names, n,
                  OwnColumns(rows[0], ProjectsEverything(select), ColumnsOf(select)), rows[0]))]
      + NestedObjects(w, c, plan, select, path, names, n, rows[1..])
  }

  /** `base` with one key for every embed of `select` that contributes one. */
  ghost function Nested(w: World, c: Context, table: string, select: seq<Item>, path: Path, names: Path, n: nat,
                        base: Row, row: Row): Row
    decreases select, 0
  {
    if select == [] then base
    else if select[0].Field? || (table, select[0].relation) !in c.schema.relationships then
      Nested(w, c, table, select[1..], path, names, n, base, row)
    else
      var item := select[0];
      var plan := c.schema.relationships[(table, item.relation)];
      var base' :=
        if Contributes(c.schema, plan, item)
        then base[KeyFor(item, n + 1) := Value(w, c, table, item, path, names, n + 1, row)]
        else base;
      Nested(w, c, table, select[1..], path, names, n + 1 + RelationCount(item.select), base', row)
  }

  // ----- What an embed holds -----

  /** The window a request asks of an embed, under the client's names first, then
      the relations' own, and none else. */
  predicate WindowIs(request: Request, path: Path, names: Path, window: Range) {
    if Dotted(path) in request.ranges then window == request.ranges[Dotted(path)]
    else if Dotted(names) in request.ranges then window == request.ranges[Dotted(names)]
    else window == Range(None, 0)
  }

  /** The lesser of what was asked and the server's cap, where there is either. */
  predicate BoundIs(bound: Option<nat>, asked: Option<nat>, cap: Option<nat>) {
    && (bound == asked || bound == cap)
    && (asked.Some? ==> bound.Some? && bound.value <= asked.value)
    && (cap.Some? ==> bound.Some? && bound.value <= cap.value)
  }

  /** The object one child comes to, with everything nested in it. */
  ghost function ObjectOf(w: World, c: Context, plan: Plan, select: seq<Item>, path: Path, names: Path, n: nat, child: Row): Json {
    Obj(Nested(w, c, plan.table, select, path, names, n,
               OwnColumns(child, ProjectsEverything(select), ColumnsOf(select)), child))
  }

  lemma {:induction false} ObjectsEach(w: World, c: Context, plan: Plan, select: seq<Item>, path: Path, names: Path, n: nat,
                                       rows: seq<Row>)
    ensures |NestedObjects(w, c, plan, select, path, names, n, rows)| == |rows|
    ensures forall i | 0 <= i < |rows| ::
      NestedObjects(w, c, plan, select, path, names, n, rows)[i] == ObjectOf(w, c, plan, select, path, names, n, rows[i])
  {
    if rows != [] { ObjectsEach(w, c, plan, select, path, names, n, rows[1..]); }
  }

  /** The children past the window's offset, in order. */
  ghost function Past(w: World, c: Context, table: string, item: Item, path: Path, names: Path, row: Row, window: Range): seq<Row>
    requires item.Embeds()
  {
    var order := OrderFor(c.request.orders, path + [item.Name()], names + [item.relation]);
    var children := Children(w, c, table, item, path, names, row);
    var all := if order == [] then children else w.sort(order, children);
    if window.offset <= |all| then all[window.offset..] else []
  }

  /** A to-many holds one object for each child past the offset, in order, as many as
      the bound allows and all of them without one; a to-one holds the first such
      child, and null exactly where there is none or the bound is zero. */
  lemma {:induction false} ValueHolds(w: World, c: Context, table: string, item: Item, path: Path, names: Path, n: nat,
                                      row: Row, window: Range, bound: Option<nat>)
    requires item.Embeds() && (table, item.relation) in c.schema.relationships
    requires WindowIs(c.request, path + [item.Name()], names + [item.relation], window)
    requires BoundIs(bound, window.limit, c.request.maxRows)
    ensures var plan := c.schema.relationships[(table, item.relation)];
      var path', names' := path + [item.Name()], names + [item.relation];
      var past := Past(w, c, table, item, path, names, row, window);
      var value := Value(w, c, table, item, path, names, n, row);
      if plan.ManyToMany? || plan.isList then
        && value.Arr?
        && |value.items| == (if bound.Some? && bound.value < |past| then bound.value else |past|)
        && forall i | 0 <= i < |value.items| ::
             value.items[i] == ObjectOf(w, c, plan, item.select, path', names', n, past[i])
      else
        value == if past == [] || bound == Some(0) then Null
                 else ObjectOf(w, c, plan, item.select, path', names', n, past[0])
  {
    var plan := c.schema.relationships[(table, item.relation)];
    var path', names' := path + [item.Name()], names + [item.relation];
    var range := RangeFor(c.request, path', names');
    BoundFound(c.request, path', names', window, bound);
    var past := Past(w, c, table, item, path, names, row, window);
    var all := Sorted(w, OrderFor(c.request.orders, path', names'), Children(w, c, table, item, path, names, row));
    PagePast(all, LimitFor(plan, range), range.offset, past);
    ObjectsEach(w, c, plan, item.select, path', names', n, Page(all, LimitFor(plan, range), range.offset));
  }

  lemma {:induction false} BoundFound(request: Request, path: Path, names: Path, window: Range, bound: Option<nat>)
    requires WindowIs(request, path, names, window) && BoundIs(bound, window.limit, request.maxRows)
    ensures RangeFor(request, path, names) == Range(bound, window.offset)
  {
  }

  lemma {:induction false} PagePast(all: seq<Row>, limit: Option<nat>, offset: nat, past: seq<Row>)
    requires past == if offset <= |all| then all[offset..] else []
    ensures Page(all, limit, offset) == if limit.Some? && limit.value < |past| then past[..limit.value] else past
  {
  }

  // ----- What an object holds of its own -----

  /** A key of the answer is read from the column of the last item that asks for it. */
  lemma {:induction false} PickReads(row: Row, columns: seq<Column>, i: nat)
    requires i < |columns| && forall j | i < j < |columns| :: columns[j].output != columns[i].output
    ensures columns[i].output in Pick(row, columns)
    ensures Pick(row, columns)[columns[i].output] == Cell(row, columns[i].name)
    decreases |columns|
  {
    if i < |columns| - 1 { PickReads(row, columns[..|columns| - 1], i); }
  }

  lemma {:induction false} PickNoOther(row: Row, columns: seq<Column>, key: string)
    requires forall i | 0 <= i < |columns| :: columns[i].output != key
    ensures key !in Pick(row, columns)
  {
    if columns != [] { PickNoOther(row, columns[..|columns| - 1], key); }
  }

  /** The columns a selection asks for: each of its fields, under its alias if it has
      one. */
  lemma {:induction false} ColumnsExactly(select: seq<Item>, column: Column)
    ensures column in ColumnsOf(select) <==>
      exists i | 0 <= i < |select| :: select[i].Field? && select[i].name == column.name
        && column.output == (match select[i].alias case Some(alias) => alias case None => select[i].name)
  {
    if select != [] {
      ColumnsExactly(select[1..], column);
      assert select == [select[0]] + select[1..];
    }
  }

  /** How many fields a selection names, at every depth. */
  function FieldCount(select: seq<Item>): nat {
    if select == [] then 0
    else (if select[0].Field? then 1 else FieldCount(select[0].select)) + FieldCount(select[1..])
  }

  /** An embed yields a key exactly where some field is named in it, at any depth. */
  lemma {:induction false} YieldsExactly(select: seq<Item>)
    ensures YieldsColumns(select) <==> FieldCount(select) > 0
    decreases select
  {
    if select != [] {
      YieldsExactly(select[1..]);
      if !select[0].Field? { YieldsExactly(select[0].select); }
      assert select == [select[0]] + select[1..];
    }
  }

  /** An order term applies to an embed exactly where it is addressed to it. */
  lemma {:induction false} OrderExactly(orders: seq<(Path, seq<string>)>, path: Path, names: Path, term: string)
    ensures term in OrderFor(orders, path, names) <==>
      exists i | 0 <= i < |orders| :: (orders[i].0 == path || orders[i].0 == names) && term in orders[i].1
  {
    if orders != [] {
      OrderExactly(orders[1..], path, names, term);
      assert orders == [orders[0]] + orders[1..];
    }
  }

  /** The whole row where a selection is empty or asks for `*`, and the columns it
      names else. */
  lemma {:induction false} OwnExactly(row: Row, select: seq<Item>)
    ensures OwnColumns(row, ProjectsEverything(select), ColumnsOf(select))
      == if select == [] || (exists i | 0 <= i < |select| :: select[i].Field? && select[i].name == "*") then row
         else Pick(row, ColumnsOf(select))
  {
  }

  /** A key pair joins rows that have the same value there, and null is no value. */
  lemma {:induction false} KeysExactly(pairs: seq<(string, string)>, parent: Row, child: Row)
    ensures KeysMatch(pairs, parent, child) <==>
      forall i | 0 <= i < |pairs| :: Cell(child, pairs[i].1) == Cell(parent, pairs[i].0) && Cell(parent, pairs[i].0) != Null
  {
  }

  /** A junction row links a child to a parent by all pairs of both its keys. */
  lemma {:induction false} LinksExactly(plan: Plan, parent: Row, link: Row, child: Row)
    requires plan.ManyToMany?
    ensures Linked(plan, parent, link, child) <==>
      && (forall i | 0 <= i < |plan.childPairs| ::
            Cell(link, plan.childPairs[i].0) == Cell(child, plan.childPairs[i].1) != Null)
      && (forall i | 0 <= i < |plan.parentPairs| ::
            Cell(link, plan.parentPairs[i].1) == Cell(parent, plan.parentPairs[i].0) != Null)
  {
  }

  /** A relation's key is its alias or its own name; a spread's is reserved. */
  lemma {:induction false} KeyExactly(relation: string, alias: Option<string>, inner: bool, select: seq<Item>, n: nat)
    ensures KeyFor(Relation(relation, alias, inner, select), n) == match alias case Some(name) => name case None => relation
    ensures "pgrst_spread_" <= KeyFor(Spread(relation, inner, select), n)
  {
  }

  /** An address is written with a dot between its names. */
  lemma {:induction false} DottedExactly(path: Path)
    requires path != []
    ensures Dotted(path) == Text.Join(path, '.')
  {
    if |path| > 1 { DottedExactly(path[1..]); }
  }

  /** What one item of a spread's selection puts into the object above: a field under
      its alias or name, every column for `*`, a relation under its name, and for a
      spread what that one does. */
  predicate Lifts(schema: Schema, table: string, item: Item, name: string) {
    match item
    case Field(column, alias) =>
      if column == "*" then table in schema.columns && name in schema.columns[table]
      else name == (match alias case Some(given) => given case None => column)
    case Relation(relation, alias, _, _) => name == (match alias case Some(given) => given case None => relation)
    case Spread(relation, _, select) =>
      && (table, relation) in schema.relationships
      && name in SpreadNames(schema, schema.relationships[(table, relation)].table, select)
  }

  lemma {:induction false} SpreadNamesExactly(schema: Schema, table: string, select: seq<Item>, name: string)
    ensures name in SpreadNames(schema, table, select) <==>
      exists i | 0 <= i < |select| :: Lifts(schema, table, select[i], name)
    decreases |select|
  {
    if select != [] {
      SpreadNamesExactly(schema, table, select[1..], name);
      assert select == [select[0]] + select[1..];
    }
  }

  /** What each spread of a tree declares, under its reserved key, those inside a
      relation before its own. `n` counts the relations before these. */
  function SpreadsOf(c: Context, table: string, select: seq<Item>, n: nat): seq<(string, seq<string>)>
    decreases select
  {
    if select == [] then []
    else if select[0].Field? || (table, select[0].relation) !in c.schema.relationships then
      SpreadsOf(c, table, select[1..], n)
    else
      var item, plan := select[0], c.schema.relationships[(table, select[0].relation)];
      var names := SpreadNames(c.schema, plan.table, item.select);
      SpreadsOf(c, plan.table, item.select, n + 1)
      + (if item.Spread? && names != [] then [("pgrst_spread_" + Alias(n + 1), names)] else [])
      + SpreadsOf(c, table, select[1..], n + 1 + RelationCount(item.select))
  }
}
