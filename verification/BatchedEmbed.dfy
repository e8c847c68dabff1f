/** Embedding by a second query per relation: collect keys, fetch once, group,
    recurse over the flattened groups, regroup, attach. */
module BatchedEmbed {
  import opened Wrappers
  import opened JsonValues
  import opened Collections

  datatype Plan = Plan(table: string, localColumn: string, foreignColumn: string, isList: bool)

  datatype Item =
    | Field(name: string)
    | Relation(key: string, plan: Plan, nested: seq<Item>)

  /** The tables, and how `serde_json` renders a value that is not a string. */
  datatype Db = Db(tables: map<string, seq<Row>>, show: Json -> string)
  {
    function Rows(table: string): seq<Row> {
      if table in tables then tables[table] else []
    }
  }

  /** SQL equality of the two join columns. */
  predicate Joins(plan: Plan, parent: Row, child: Row) {
    Cell(parent, plan.localColumn) == Cell(child, plan.foreignColumn) != Null
  }

  function Names(nested: seq<Item>): set<string> {
    set i | 0 <= i < |nested| :: if nested[i].Field? then nested[i].name else nested[i].key
  }

  /** What a selection leaves of a row; an empty one asks for everything. */
  function Requested(nested: seq<Item>, row: Row): Row {
    if nested == [] then row else map k | k in row && k in Names(nested) :: row[k]
  }

  function Shaped(isList: bool, children: seq<Json>): Json {
    if isList then Arr(children) else if children == [] then Null else children[0]
  }

  ghost function Value(db: Db, item: Item, parent: Row): Json
    requires item.Relation?
    decreases item, 1
  {
    Shaped(item.plan.isList, Kids(db, item, db.Rows(item.plan.table), parent))
  }

  ghost function Kids(db: Db, item: Item, rows: seq<Row>, parent: Row): seq<Json>
    requires item.Relation?
    decreases item, 0, |rows|
  {
    if rows == [] then []
    else
      (if Joins(item.plan, parent, rows[0])
       then [Obj(Requested(item.nested, Embedded(db, item.nested, rows[0], rows[0])))] else [])
      + Kids(db, item, rows[1..], parent)
  }

  /** `row` with every relation of `select` attached, each computed from `source`. */
  ghost function Embedded(db: Db, select: seq<Item>, source: Row, row: Row): Row
    decreases select
  {
    if select == [] then row
    else
      var last := select[|select| - 1];
      var before := Embedded(db, select[..|select| - 1], source, row);
      if last.Field? then before else before[last.key := Value(db, last, source)]
  }

  ghost function EmbeddedAll(db: Db, select: seq<Item>, rows: seq<Row>): (r: seq<Row>)
    ensures |r| == |rows|
    ensures forall i | 0 <= i < |rows| :: r[i] == Embedded(db, select, rows[i], rows[i])
  {
    seq(|rows|, i requires 0 <= i < |rows| => Embedded(db, select, rows[i], rows[i]))
  }

  // ----- When the two agree -----

  /** No relation's key covers the join column of a later one, at any depth. */
  predicate Apart(select: seq<Item>) {
    && (forall i, j | 0 <= i < j < |select| && select[i].Relation? && select[j].Relation? ::
          select[i].key != select[j].plan.localColumn)
    && (forall i | 0 <= i < |select| && select[i].Relation? :: Apart(select[i].nested))
  }

  function KeyText(db: Db, value: Json): Option<string> {
    match value
    case Null => None
    case Str(text) => Some(text)
    case other => Some(db.show(other))
  }

  /** Equal renderings come from equal values: true of values of one column type. */
  ghost predicate OneType(db: Db, a: Json, b: Json) {
    KeyText(db, a) == KeyText(db, b) ==> a == b
  }

  ghost predicate ForeignTyped(db: Db, plan: Plan) {
    forall r, s | r in db.Rows(plan.table) && s in db.Rows(plan.table) ::
      OneType(db, Cell(r, plan.foreignColumn), Cell(s, plan.foreignColumn))
  }

  ghost predicate PlanTyped(db: Db, plan: Plan, parents: seq<Row>) {
    var rows := db.Rows(plan.table);
    && (forall p, r | p in parents && r in rows ::
          OneType(db, Cell(p, plan.localColumn), Cell(r, plan.foreignColumn)))
    && ForeignTyped(db, plan)
  }

  ghost predicate Typed(db: Db, select: seq<Item>, parents: seq<Row>) {
    forall i | 0 <= i < |select| && select[i].Relation? ::
      PlanTyped(db, select[i].plan, parents) && Typed(db, select[i].nested, db.Rows(select[i].plan.table))
  }

  /** Each row of `some` carries the join values of a row of `all`. */
  ghost predicate Carried(select: seq<Item>, some: seq<Row>, all: seq<Row>) {
    forall p | p in some :: exists r | r in all ::
      forall i | 0 <= i < |select| && select[i].Relation? ::
        Cell(p, select[i].plan.localColumn) == Cell(r, select[i].plan.localColumn)
  }

  lemma TypedCarried(db: Db, select: seq<Item>, some: seq<Row>, all: seq<Row>)
    requires Typed(db, select, all) && Carried(select, some, all)
    ensures Typed(db, select, some)
  {
    forall i | 0 <= i < |select| && select[i].Relation?
      ensures PlanTyped(db, select[i].plan, some)
    {
      var plan := select[i].plan;
      forall p, r | p in some && r in db.Rows(plan.table)
        ensures OneType(db, Cell(p, plan.localColumn), Cell(r, plan.foreignColumn))
      {
        var q :| q in all && forall j | 0 <= j < |select| && select[j].Relation? ::
          Cell(p, select[j].plan.localColumn) == Cell(q, select[j].plan.localColumn);
        assert OneType(db, Cell(q, plan.localColumn), Cell(r, plan.foreignColumn));
      }
    }
  }

  // ----- Projection -----

  /** The columns the second query returns: `None` is every column. */
  function ChildColumns(plan: Plan, nested: seq<Item>): Option<set<string>> {
    if nested == [] then None
    else
      Some((set i | 0 <= i < |nested| :: if nested[i].Field? then nested[i].name else nested[i].plan.localColumn)
           + {plan.foreignColumn})
  }

  function Project(columns: Option<set<string>>, row: Row): Row {
    match columns
    case None => row
    case Some(wanted) => map k | k in row && k in wanted :: row[k]
  }

  lemma {:induction false} ValueReadsJoinColumn(db: Db, item: Item, rows: seq<Row>, a: Row, b: Row)
    requires item.Relation? && Cell(a, item.plan.localColumn) == Cell(b, item.plan.localColumn)
    ensures Kids(db, item, rows, a) == Kids(db, item, rows, b)
    decreases |rows|
  {
    if rows != [] { ValueReadsJoinColumn(db, item, rows[1..], a, b); }
  }

  /** Attaching to a projected row gives, on the names asked for, what attaching
      to the whole row does. */
  lemma {:induction false} EmbedProjected(db: Db, select: seq<Item>, wanted: set<string>, source: Row, name: string)
    requires forall i | 0 <= i < |select| && select[i].Relation? :: select[i].plan.localColumn in wanted
    requires name in wanted || exists i | 0 <= i < |select| :: select[i].Relation? && select[i].key == name
    ensures var small := Project(Some(wanted), source);
      var a, b := Embedded(db, select, small, small), Embedded(db, select, source, source);
      (name in a <==> name in b) && (name in a ==> a[name] == b[name])
    decreases |select|
  {
    if select != [] {
      var small := Project(Some(wanted), source);
      var last, front := select[|select| - 1], select[..|select| - 1];
      if last.Relation? && last.key == name {
        ValueReadsJoinColumn(db, last, db.Rows(last.plan.table), small, source);
      } else {
        if name !in wanted {
          var i :| 0 <= i < |select| && select[i].Relation? && select[i].key == name;
          assert front[i] == select[i];
        }
        EmbedProjected(db, front, wanted, source, name);
      }
    }
  }

  lemma {:induction false} ProjectionHarmless(db: Db, plan: Plan, nested: seq<Item>, row: Row)
    ensures var small := Project(ChildColumns(plan, nested), row);
      Requested(nested, Embedded(db, nested, small, small)) == Requested(nested, Embedded(db, nested, row, row))
  {
    if nested != [] {
      var wanted := ChildColumns(plan, nested).value;
      var small := Project(Some(wanted), row);
      var a, b := Embedded(db, nested, small, small), Embedded(db, nested, row, row);
      forall i | 0 <= i < |nested| && nested[i].Relation? ensures nested[i].plan.localColumn in wanted { }
      forall name | name in Names(nested)
        ensures (name in a <==> name in b) && (name in a ==> a[name] == b[name])
      {
        var i :| 0 <= i < |nested| && name == if nested[i].Field? then nested[i].name else nested[i].key;
        EmbedProjected(db, nested, wanted, row, name);
      }
    }
  }

  // ----- Collecting keys -----

  function KeyOf(db: Db, row: Row, column: string): Option<string> {
    KeyText(db, Cell(row, column))
  }

  /** The distinct, non-null join keys, in order of first appearance. */
  method ParentKeys(db: Db, rows: array<Row>, column: string) returns (keys: seq<string>)
    ensures forall i, j | 0 <= i < j < |keys| :: keys[i] != keys[j]
    ensures forall k :: k in keys <==> exists i | 0 <= i < rows.Length :: KeyOf(db, rows[i], column) == Some(k)
  {
    keys := [];
    var seen: set<string> := {};
    for n := 0 to rows.Length
      invariant seen == set k | k in keys
      invariant forall i, j | 0 <= i < j < |keys| :: keys[i] != keys[j]
      invariant forall k :: k in keys <==> exists i | 0 <= i < n :: KeyOf(db, rows[i], column) == Some(k)
    {
      var key := KeyOf(db, rows[n], column);
      if key.Some? && key.value !in seen {
        seen := seen + {key.value};
        keys := keys + [key.value];
      }
    }
  }

  // ----- One fetch -----

  /** The children of one rendered key, projected, in table order. */
  function ByText(db: Db, plan: Plan, columns: Option<set<string>>, rows: seq<Row>, key: string): seq<Row> {
    if rows == [] then []
    else
      (if KeyOf(db, rows[0], plan.foreignColumn) == Some(key) then [Project(columns, rows[0])] else [])
      + ByText(db, plan, columns, rows[1..], key)
  }

  function ByValue(plan: Plan, columns: Option<set<string>>, rows: seq<Row>, value: Json): seq<Row> {
    if rows == [] then []
    else
      (if Cell(rows[0], plan.foreignColumn) == value then [Project(columns, rows[0])] else [])
      + ByValue(plan, columns, rows[1..], value)
  }

  /** The join values the query is asked for that some child has. */
  function KeysFound(db: Db, plan: Plan, keys: seq<string>): set<Json> {
    set r | r in db.Rows(plan.table) && KeyOf(db, r, plan.foreignColumn).Some?
            && KeyOf(db, r, plan.foreignColumn).value in keys :: Cell(r, plan.foreignColumn)
  }

  function Pairs(plan: Plan, columns: Option<set<string>>, rows: seq<Row>, order: seq<Json>): seq<(Json, seq<Row>)> {
    seq(|order|, i requires 0 <= i < |order| => (order[i], ByValue(plan, columns, rows, order[i])))
  }

  function Firsts(pairs: seq<(Json, seq<Row>)>): seq<Json> {
    seq(|pairs|, i requires 0 <= i < |pairs| => pairs[i].0)
  }

  /** `SELECT key, json_agg(row) ... WHERE key = ANY(keys) GROUP BY key`: the
      groups come out in any order. */
  method FetchGrouped(db: Db, plan: Plan, columns: Option<set<string>>, keys: seq<string>)
    returns (pairs: seq<(Json, seq<Row>)>)
    ensures Enumerates(Firsts(pairs), KeysFound(db, plan, keys))
    ensures pairs == Pairs(plan, columns, db.Rows(plan.table), Firsts(pairs))
  {
    var groups := Enumerate(KeysFound(db, plan, keys));
    pairs := Pairs(plan, columns, db.Rows(plan.table), groups);
    assert Firsts(pairs) == groups;
  }

  // ----- Grouping -----

  lemma {:induction false} ByValueIsByText(db: Db, plan: Plan, columns: Option<set<string>>, rows: seq<Row>, value: Json)
    requires KeyText(db, value).Some?
    requires forall r | r in rows :: OneType(db, Cell(r, plan.foreignColumn), value)
    ensures ByValue(plan, columns, rows, value) == ByText(db, plan, columns, rows, KeyText(db, value).value)
  {
    if rows != [] { ByValueIsByText(db, plan, columns, rows[1..], value); }
  }

  lemma {:induction false} ByTextFound(db: Db, plan: Plan, columns: Option<set<string>>, rows: seq<Row>, key: string)
    ensures ByText(db, plan, columns, rows, key) != []
            <==> exists r | r in rows :: KeyOf(db, r, plan.foreignColumn) == Some(key)
  {
    if rows != [] { ByTextFound(db, plan, columns, rows[1..], key); }
  }

  /** What the grouped map holds: each asked-for key with its children, and no
      entry for a key that has none. */
  ghost predicate Grouped(db: Db, plan: Plan, columns: Option<set<string>>, keys: seq<string>,
                          grouped: map<string, seq<Row>>) {
    forall k :: k in keys ==>
      var children := ByText(db, plan, columns, db.Rows(plan.table), k);
      if children == [] then k !in grouped else k in grouped && grouped[k] == children
  }

  /** A null key renders as the empty string. */
  function GroupName(db: Db, key: Json): string {
    var text := KeyText(db, key);
    if text.Some? then text.value else ""
  }

  /** `entry(key).or_default().extend(children)`, pair by pair. */
  function Gathered(db: Db, pairs: seq<(Json, seq<Row>)>): map<string, seq<Row>> {
    if pairs == [] then map[]
    else
      var last, before := pairs[|pairs| - 1], Gathered(db, pairs[..|pairs| - 1]);
      var key := GroupName(db, last.0);
      before[key := (if key in before then before[key] else []) + last.1]
  }

  method GroupFromAggregated(db: Db, pairs: seq<(Json, seq<Row>)>) returns (grouped: map<string, seq<Row>>)
    ensures grouped == Gathered(db, pairs)
  {
    grouped := map[];
    for n := 0 to |pairs|
      invariant grouped == Gathered(db, pairs[..n])
    {
      assert pairs[..n + 1][..n] == pairs[..n];
      var key := GroupName(db, pairs[n].0);
      var held := if key in grouped then grouped[key] else [];
      grouped := grouped[key := held + pairs[n].1];
    }
    assert pairs[..|pairs|] == pairs;
  }

  /** With one pair per rendered key, each group is its pair's children. */
  lemma {:induction false} GatheredHas(db: Db, plan: Plan, columns: Option<set<string>>, rows: seq<Row>,
                                       order: seq<Json>, i: nat)
    requires i < |order|
    requires forall j | 0 <= j < |order| && j != i :: GroupName(db, order[i]) != GroupName(db, order[j])
    ensures var g, k := Gathered(db, Pairs(plan, columns, rows, order)), GroupName(db, order[i]);
      k in g && g[k] == ByValue(plan, columns, rows, order[i])
    decreases |order|
  {
    var front, last := order[..|order| - 1], order[|order| - 1];
    assert order == front + [last];
    PairsSnoc(plan, columns, rows, front, last);
    if i < |front| {
      GatheredHas(db, plan, columns, rows, front, i);
    } else {
      if GroupName(db, last) in Gathered(db, Pairs(plan, columns, rows, front)) {
        var j := GatheredFrom(db, plan, columns, rows, front, GroupName(db, last));
        assert false;
      }
      GatheredSnoc(db, Pairs(plan, columns, rows, order));
    }
  }

  lemma {:induction false} GatheredFrom(db: Db, plan: Plan, columns: Option<set<string>>, rows: seq<Row>,
                                        order: seq<Json>, k: string)
    returns (i: nat)
    requires k in Gathered(db, Pairs(plan, columns, rows, order))
    ensures i < |order| && GroupName(db, order[i]) == k
    decreases |order|
  {
    var front, last := order[..|order| - 1], order[|order| - 1];
    assert order == front + [last];
    PairsSnoc(plan, columns, rows, front, last);
    i := |order| - 1;
    if GroupName(db, last) != k { i := GatheredFrom(db, plan, columns, rows, front, k); }
  }

  lemma {:induction false} GatheredSnoc(db: Db, pairs: seq<(Json, seq<Row>)>)
    requires pairs != [] && GroupName(db, pairs[|pairs| - 1].0) !in Gathered(db, pairs[..|pairs| - 1])
    ensures var last := pairs[|pairs| - 1];
      Gathered(db, pairs) == Gathered(db, pairs[..|pairs| - 1])[GroupName(db, last.0) := last.1]
  {
    assert [] + pairs[|pairs| - 1].1 == pairs[|pairs| - 1].1;
  }

  lemma PairsSnoc(plan: Plan, columns: Option<set<string>>, rows: seq<Row>, front: seq<Json>, last: Json)
    ensures var pairs := Pairs(plan, columns, rows, front + [last]);
      && pairs[..|pairs| - 1] == Pairs(plan, columns, rows, front)
      && pairs[|pairs| - 1] == (last, ByValue(plan, columns, rows, last))
  {
  }

  lemma NamesDiffer(db: Db, plan: Plan, keys: seq<string>, order: seq<Json>)
    requires ForeignTyped(db, plan) && Enumerates(order, KeysFound(db, plan, keys))
    ensures forall i, j | 0 <= i < j < |order| :: GroupName(db, order[i]) != GroupName(db, order[j])
  {
    forall i, j | 0 <= i < j < |order|
      ensures GroupName(db, order[i]) != GroupName(db, order[j])
    {
      var r := RowWith(db, plan, keys, order[i]);
      var s := RowWith(db, plan, keys, order[j]);
      assert OneType(db, Cell(r, plan.foreignColumn), Cell(s, plan.foreignColumn));
    }
  }

  lemma RowWith(db: Db, plan: Plan, keys: seq<string>, value: Json) returns (r: Row)
    requires value in KeysFound(db, plan, keys)
    ensures r in db.Rows(plan.table) && Cell(r, plan.foreignColumn) == value
    ensures KeyText(db, value).Some? && GroupName(db, value) in keys
  {
    r :| r in db.Rows(plan.table) && KeyOf(db, r, plan.foreignColumn).Some?
         && KeyOf(db, r, plan.foreignColumn).value in keys && Cell(r, plan.foreignColumn) == value;
  }

  /** What was grouped, whatever order the groups came in. */
  lemma GroupedByText(db: Db, plan: Plan, columns: Option<set<string>>, keys: seq<string>, order: seq<Json>)
    requires ForeignTyped(db, plan) && Enumerates(order, KeysFound(db, plan, keys))
    ensures Grouped(db, plan, columns, keys, Gathered(db, Pairs(plan, columns, db.Rows(plan.table), order)))
  {
    var rows := db.Rows(plan.table);
    var grouped := Gathered(db, Pairs(plan, columns, rows, order));
    NamesDiffer(db, plan, keys, order);
    forall k | k in keys
      ensures var children := ByText(db, plan, columns, rows, k);
        if children == [] then k !in grouped else k in grouped && grouped[k] == children
    {
      ByTextFound(db, plan, columns, rows, k);
      if ByText(db, plan, columns, rows, k) != [] {
        var r :| r in rows && KeyOf(db, r, plan.foreignColumn) == Some(k);
        var v := Cell(r, plan.foreignColumn);
        assert v in KeysFound(db, plan, keys);
        var i :| 0 <= i < |order| && order[i] == v;
        GatheredHas(db, plan, columns, rows, order, i);
        GroupIs(db, plan, columns, keys, v);
      } else if k in grouped {
        var i := GatheredFrom(db, plan, columns, rows, order, k);
        GroupIs(db, plan, columns, keys, order[i]);
        assert false;
      }
    }
  }

  lemma GroupIs(db: Db, plan: Plan, columns: Option<set<string>>, keys: seq<string>, value: Json)
    requires ForeignTyped(db, plan) && value in KeysFound(db, plan, keys)
    ensures var rows, k := db.Rows(plan.table), GroupName(db, value);
      && ByValue(plan, columns, rows, value) == ByText(db, plan, columns, rows, k)
      && ByText(db, plan, columns, rows, k) != []
  {
    var rows := db.Rows(plan.table);
    var r := RowWith(db, plan, keys, value);
    ByValueIsByText(db, plan, columns, rows, value);
    ByTextFound(db, plan, columns, rows, GroupName(db, value));
  }

  // ----- Flattening and regrouping -----

  /** The groups end to end, in the order they were drained. */
  function Flat(grouped: map<string, seq<Row>>, order: seq<string>): seq<Row>
    requires forall k | k in order :: k in grouped
  {
    if order == [] then [] else grouped[order[0]] + Flat(grouped, order[1..])
  }

  lemma {:induction false} FlatMember(grouped: map<string, seq<Row>>, order: seq<string>, row: Row)
    requires forall k | k in order :: k in grouped
    requires row in Flat(grouped, order)
    ensures exists k | k in order :: row in grouped[k]
  {
    if order != [] && row !in grouped[order[0]] {
      FlatMember(grouped, order[1..], row);
    }
  }

  /** Rows of a table, each cut down to the columns the query returned. */
  ghost predicate Projected(db: Db, plan: Plan, columns: Option<set<string>>, rows: seq<Row>) {
    forall x | x in rows :: exists r | r in db.Rows(plan.table) :: x == Project(columns, r)
  }

  lemma {:induction false} ByTextProjected(db: Db, plan: Plan, columns: Option<set<string>>, rows: seq<Row>, key: string)
    requires forall r | r in rows :: r in db.Rows(plan.table)
    ensures Projected(db, plan, columns, ByText(db, plan, columns, rows, key))
  {
    if rows != [] { ByTextProjected(db, plan, columns, rows[1..], key); }
  }

  lemma ProjectedCarried(db: Db, plan: Plan, nested: seq<Item>, rows: seq<Row>)
    requires Projected(db, plan, ChildColumns(plan, nested), rows)
    ensures Carried(nested, rows, db.Rows(plan.table))
  {
    var columns := ChildColumns(plan, nested);
    forall p | p in rows
      ensures exists r | r in db.Rows(plan.table) ::
        forall i | 0 <= i < |nested| && nested[i].Relation? ::
          Cell(p, nested[i].plan.localColumn) == Cell(r, nested[i].plan.localColumn)
    {
      var r :| r in db.Rows(plan.table) && p == Project(columns, r);
      forall i | 0 <= i < |nested| && nested[i].Relation?
        ensures Cell(p, nested[i].plan.localColumn) == Cell(r, nested[i].plan.localColumn)
      {
        assert columns.Some? && nested[i].plan.localColumn in columns.value;
      }
    }
  }

  /** Empty the map, in any order, into one contiguous list. */
  method Drain(grouped: map<string, seq<Row>>) returns (order: seq<string>, flat: seq<Row>)
    ensures Enumerates(order, grouped.Keys)
    ensures flat == Flat(grouped, order)
  {
    order := Enumerate(grouped.Keys);
    flat := [];
    for n := 0 to |order|
      invariant flat + Flat(grouped, order[n..]) == Flat(grouped, order)
    {
      assert order[n..][1..] == order[n + 1..];
      assert flat + (grouped[order[n]] + Flat(grouped, order[n + 1..]))
          == (flat + grouped[order[n]]) + Flat(grouped, order[n + 1..]);
      flat := flat + grouped[order[n]];
    }
    assert flat + [] == flat;
  }

  ghost function DeepMap(db: Db, nested: seq<Item>, grouped: map<string, seq<Row>>, names: seq<string>)
    : map<string, seq<Row>>
    requires forall k | k in names :: k in grouped
  {
    map k | k in names :: EmbeddedAll(db, nested, grouped[k])
  }

  lemma DeepMapSnoc(db: Db, nested: seq<Item>, grouped: map<string, seq<Row>>, names: seq<string>, last: string)
    requires forall k | k in names :: k in grouped
    requires last in grouped
    ensures DeepMap(db, nested, grouped, names + [last])
         == DeepMap(db, nested, grouped, names)[last := EmbeddedAll(db, nested, grouped[last])]
  {
  }

  /** Put each run of rows back under the key it was drained from. */
  method Regroup(db: Db, nested: seq<Item>, grouped: map<string, seq<Row>>, order: seq<string>, flat: seq<Row>)
    returns (deep: map<string, seq<Row>>)
    requires forall k | k in order :: k in grouped
    requires flat == EmbeddedAll(db, nested, Flat(grouped, order))
    ensures deep == DeepMap(db, nested, grouped, order)
  {
    deep := map[];
    var rest := flat;
    for n := 0 to |order|
      invariant rest == EmbeddedAll(db, nested, Flat(grouped, order[n..]))
      invariant deep == DeepMap(db, nested, grouped, order[..n])
    {
      var count := |grouped[order[n]]|;
      assert order[n..][1..] == order[n + 1..];
      EmbeddedConcat(db, nested, grouped[order[n]], Flat(grouped, order[n + 1..]));
      DeepMapSnoc(db, nested, grouped, order[..n], order[n]);
      assert order[..n + 1] == order[..n] + [order[n]];
      deep := deep[order[n] := rest[..count]];
      rest := rest[count..];
    }
    assert order[..|order|] == order;
  }

  lemma EmbeddedConcat(db: Db, nested: seq<Item>, a: seq<Row>, b: seq<Row>)
    ensures EmbeddedAll(db, nested, a + b)[..|a|] == EmbeddedAll(db, nested, a)
    ensures EmbeddedAll(db, nested, a + b)[|a|..] == EmbeddedAll(db, nested, b)
  {
  }

  /** Embed into every group at once. */
  method Deepen(db: Db, nested: seq<Item>, grouped: map<string, seq<Row>>, ghost all: seq<Row>)
    returns (deep: map<string, seq<Row>>)
    requires Apart(nested) && Typed(db, nested, all)
    requires forall k | k in grouped :: Carried(nested, grouped[k], all)
    ensures deep.Keys == grouped.Keys
    ensures forall k | k in grouped :: deep[k] == EmbeddedAll(db, nested, grouped[k])
    decreases nested, 1
  {
    var order, flat := Drain(grouped);
    FlatTyped(db, nested, grouped, order, all);
    var rows := new Row[|flat|](i requires 0 <= i < |flat| => flat[i]);
    assert rows[..] == flat;
    EmbedRelations(db, nested, rows);
    deep := Regroup(db, nested, grouped, order, rows[..]);
  }

  lemma FlatTyped(db: Db, nested: seq<Item>, grouped: map<string, seq<Row>>, order: seq<string>, all: seq<Row>)
    requires Enumerates(order, grouped.Keys) && Typed(db, nested, all)
    requires forall k | k in grouped :: Carried(nested, grouped[k], all)
    ensures Typed(db, nested, Flat(grouped, order))
  {
    var flat := Flat(grouped, order);
    forall p | p in flat
      ensures exists r | r in all ::
        forall i | 0 <= i < |nested| && nested[i].Relation? ::
          Cell(p, nested[i].plan.localColumn) == Cell(r, nested[i].plan.localColumn)
    {
      FlatMember(grouped, order, p);
      var k :| k in order && p in grouped[k];
      assert Carried(nested, grouped[k], all);
    }
    TypedCarried(db, nested, flat, all);
  }

  // ----- One relation -----

  function Finished(nested: seq<Item>, rows: seq<Row>): (r: seq<Json>)
    ensures |r| == |rows|
    ensures forall i | 0 <= i < |rows| :: r[i] == Obj(Requested(nested, rows[i]))
  {
    seq(|rows|, i requires 0 <= i < |rows| => Obj(Requested(nested, rows[i])))
  }

  predicate HasDeeperEmbed(nested: seq<Item>) {
    exists i | 0 <= i < |nested| :: nested[i].Relation?
  }

  lemma {:induction false} NothingDeeper(db: Db, nested: seq<Item>, source: Row, row: Row)
    requires !HasDeeperEmbed(nested)
    ensures Embedded(db, nested, source, row) == row
    decreases |nested|
  {
    if nested != [] {
      assert forall i | 0 <= i < |nested| - 1 :: nested[..|nested| - 1][i] == nested[i];
      NothingDeeper(db, nested[..|nested| - 1], source, row);
    }
  }

  /** The children found under a parent's rendered key are the joined ones. */
  lemma {:induction false} KidsByText(db: Db, item: Item, rows: seq<Row>, parent: Row, key: string)
    requires item.Relation? && KeyOf(db, parent, item.plan.localColumn) == Some(key)
    requires forall r | r in rows ::
      OneType(db, Cell(parent, item.plan.localColumn), Cell(r, item.plan.foreignColumn))
    ensures var columns := ChildColumns(item.plan, item.nested);
      Finished(item.nested, EmbeddedAll(db, item.nested, ByText(db, item.plan, columns, rows, key)))
      == Kids(db, item, rows, parent)
    decreases |rows|
  {
    if rows != [] {
      var columns := ChildColumns(item.plan, item.nested);
      KidsByText(db, item, rows[1..], parent, key);
      assert Joins(item.plan, parent, rows[0]) <==> KeyOf(db, rows[0], item.plan.foreignColumn) == Some(key) by {
        assert OneType(db, Cell(parent, item.plan.localColumn), Cell(rows[0], item.plan.foreignColumn));
      }
      var tail := ByText(db, item.plan, columns, rows[1..], key);
      if Joins(item.plan, parent, rows[0]) {
        ProjectionHarmless(db, item.plan, item.nested, rows[0]);
        FinishedHead(db, item.nested, Project(columns, rows[0]), tail);
      } else {
        assert ByText(db, item.plan, columns, rows, key) == tail;
      }
    }
  }

  lemma FinishedHead(db: Db, nested: seq<Item>, first: Row, tail: seq<Row>)
    ensures Finished(nested, EmbeddedAll(db, nested, [first] + tail))
         == [Obj(Requested(nested, Embedded(db, nested, first, first)))]
            + Finished(nested, EmbeddedAll(db, nested, tail))
  {
  }

  lemma {:induction false} NoKids(db: Db, item: Item, rows: seq<Row>, parent: Row)
    requires item.Relation? && Cell(parent, item.plan.localColumn) == Null
    ensures Kids(db, item, rows, parent) == []
    decreases |rows|
  {
    if rows != [] { NoKids(db, item, rows[1..], parent); }
  }

  /** The pruned groups, ready to attach. */
  ghost predicate Ready(db: Db, item: Item, keys: seq<string>, ready: map<string, seq<Json>>)
    requires item.Relation?
  {
    var rows, columns := db.Rows(item.plan.table), ChildColumns(item.plan, item.nested);
    forall k | k in keys ::
      (if k in ready then ready[k] else [])
      == Finished(item.nested, EmbeddedAll(db, item.nested, ByText(db, item.plan, columns, rows, k)))
  }

  lemma ValueFromGroups(db: Db, item: Item, parent: Row, keys: seq<string>, ready: map<string, seq<Json>>)
    requires item.Relation? && Ready(db, item, keys, ready)
    requires PlanTyped(db, item.plan, [parent])
    requires var key := KeyOf(db, parent, item.plan.localColumn); key.Some? ==> key.value in keys
    ensures var key := KeyOf(db, parent, item.plan.localColumn);
      Value(db, item, parent)
      == Shaped(item.plan.isList, if key.Some? && key.value in ready then ready[key.value] else [])
  {
    var key, rows := KeyOf(db, parent, item.plan.localColumn), db.Rows(item.plan.table);
    if key.Some? {
      KidsByText(db, item, rows, parent, key.value);
    } else {
      NoKids(db, item, rows, parent);
    }
  }

  /** Everything one relation's children go through before they are attached. */
  method FetchChildren(db: Db, item: Item, keys: seq<string>) returns (ready: map<string, seq<Json>>)
    requires item.Relation? && Apart(item.nested)
    requires ForeignTyped(db, item.plan) && Typed(db, item.nested, db.Rows(item.plan.table))
    ensures Ready(db, item, keys, ready)
    decreases item.nested, 2
  {
    var plan, nested := item.plan, item.nested;
    var columns := ChildColumns(plan, nested);
    if keys == [] {
      return map[];
    }
    var pairs := FetchGrouped(db, plan, columns, keys);
    ghost var order := Firsts(pairs);
    var grouped := GroupFromAggregated(db, pairs);
    GroupedByText(db, plan, columns, keys, order);
    GroupsCarried(db, plan, nested, keys, order);
    ghost var fetched := grouped;
    if HasDeeperEmbed(nested) {
      grouped := Deepen(db, nested, grouped, db.Rows(plan.table));
    } else {
      forall k, i | k in grouped && 0 <= i < |grouped[k]|
        ensures Embedded(db, nested, grouped[k][i], grouped[k][i]) == grouped[k][i]
      {
        NothingDeeper(db, nested, grouped[k][i], grouped[k][i]);
      }
      assert forall k | k in grouped :: grouped[k] == EmbeddedAll(db, nested, grouped[k]);
    }
    ready := map k | k in grouped :: Finished(nested, grouped[k]);
    forall k | k in keys
      ensures (if k in ready then ready[k] else [])
        == Finished(nested, EmbeddedAll(db, nested, ByText(db, plan, columns, db.Rows(plan.table), k)))
    {
      if k in ready { assert fetched[k] == ByText(db, plan, columns, db.Rows(plan.table), k); }
    }
  }

  lemma GroupsCarried(db: Db, plan: Plan, nested: seq<Item>, keys: seq<string>, order: seq<Json>)
    requires ForeignTyped(db, plan) && Enumerates(order, KeysFound(db, plan, keys))
    ensures var g := Gathered(db, Pairs(plan, ChildColumns(plan, nested), db.Rows(plan.table), order));
      forall k | k in g :: Carried(nested, g[k], db.Rows(plan.table))
  {
    var rows, columns := db.Rows(plan.table), ChildColumns(plan, nested);
    var pairs := Pairs(plan, columns, rows, order);
    NamesDiffer(db, plan, keys, order);
    var g := Gathered(db, pairs);
    forall k | k in g ensures Carried(nested, g[k], rows) {
      var i := GatheredFrom(db, plan, columns, rows, order, k);
      GatheredHas(db, plan, columns, rows, order, i);
      GroupIs(db, plan, columns, keys, order[i]);
      ByTextProjected(db, plan, columns, rows, k);
      ProjectedCarried(db, plan, nested, g[k]);
    }
  }

  // ----- The whole tree -----

  lemma {:induction false} KeepsCell(db: Db, select: seq<Item>, source: Row, row: Row, column: string)
    requires forall i | 0 <= i < |select| && select[i].Relation? :: select[i].key != column
    ensures Cell(Embedded(db, select, source, row), column) == Cell(row, column)
    decreases |select|
  {
    if select != [] {
      var front := select[..|select| - 1];
      assert forall i | 0 <= i < |front| :: front[i] == select[i];
      KeepsCell(db, front, source, row, column);
    }
  }

  /** Attaching relations one after another, in place, over a batch of rows is
      the nested loop over each row, whatever order the database and the hash
      maps answered in. */
  method EmbedRelations(db: Db, select: seq<Item>, rows: array<Row>)
    requires Apart(select) && Typed(db, select, rows[..])
    modifies rows
    ensures rows[..] == EmbeddedAll(db, select, old(rows[..]))
    decreases select, 0
  {
    if rows.Length == 0 {
      return;
    }
    ghost var source := rows[..];
    for i := 0 to |select|
      invariant forall j | 0 <= j < rows.Length ::
        rows[j] == Embedded(db, select[..i], source[j], source[j])
    {
      if select[i].Relation? {
        var plan := select[i].plan;
        StillTyped(db, select, i, source, rows[..]);
        var keys := ParentKeys(db, rows, plan.localColumn);
        var ready := FetchChildren(db, select[i], keys);
        AttachToParents(db, select, i, rows, keys, ready, source);
      } else {
        assert select[..i + 1][..i] == select[..i];
      }
    }
    assert select[..|select|] == select;
  }

  /** `attach_to_parent` for each row of the batch. */
  method AttachToParents(db: Db, select: seq<Item>, i: nat, rows: array<Row>, ghost keys: seq<string>,
                         ready: map<string, seq<Json>>, ghost source: seq<Row>)
    requires i < |select| && select[i].Relation? && |source| == rows.Length
    requires PlanTyped(db, select[i].plan, source) && Ready(db, select[i], keys, ready)
    requires forall j | 0 <= j < rows.Length ::
      && rows[j] == Embedded(db, select[..i], source[j], source[j])
      && Cell(rows[j], select[i].plan.localColumn) == Cell(source[j], select[i].plan.localColumn)
      && var key := KeyOf(db, rows[j], select[i].plan.localColumn); key.Some? ==> key.value in keys
    modifies rows
    ensures forall j | 0 <= j < rows.Length :: rows[j] == Embedded(db, select[..i + 1], source[j], source[j])
  {
    var plan := select[i].plan;
    for j := 0 to rows.Length
      invariant forall n | 0 <= n < j :: rows[n] == Embedded(db, select[..i + 1], source[n], source[n])
      invariant forall n | j <= n < rows.Length :: rows[n] == old(rows[n])
    {
      var key := KeyOf(db, rows[j], plan.localColumn);
      var matches := if key.Some? && key.value in ready then ready[key.value] else [];
      AttachOne(db, select, i, source, rows[j], j, keys, ready);
      rows[j] := rows[j][select[i].key := Shaped(plan.isList, matches)];
    }
  }

  lemma StillTyped(db: Db, select: seq<Item>, i: nat, source: seq<Row>, now: seq<Row>)
    requires Apart(select) && Typed(db, select, source) && i < |select| && select[i].Relation?
    requires |now| == |source|
    requires forall j | 0 <= j < |now| :: now[j] == Embedded(db, select[..i], source[j], source[j])
    ensures forall j | 0 <= j < |now| ::
      Cell(now[j], select[i].plan.localColumn) == Cell(source[j], select[i].plan.localColumn)
    ensures PlanTyped(db, select[i].plan, source) && Typed(db, select[i].nested, db.Rows(select[i].plan.table))
  {
    forall j | 0 <= j < |now|
      ensures Cell(now[j], select[i].plan.localColumn) == Cell(source[j], select[i].plan.localColumn)
    {
      KeepsCell(db, select[..i], source[j], source[j], select[i].plan.localColumn);
    }
  }

  lemma AttachOne(db: Db, select: seq<Item>, i: nat, source: seq<Row>, row: Row, j: nat, keys: seq<string>,
                  ready: map<string, seq<Json>>)
    requires i < |select| && select[i].Relation? && j < |source|
    requires row == Embedded(db, select[..i], source[j], source[j])
    requires Cell(row, select[i].plan.localColumn) == Cell(source[j], select[i].plan.localColumn)
    requires PlanTyped(db, select[i].plan, source) && Ready(db, select[i], keys, ready)
    requires var key := KeyOf(db, row, select[i].plan.localColumn); key.Some? ==> key.value in keys
    ensures var key := KeyOf(db, row, select[i].plan.localColumn);
      var matches := if key.Some? && key.value in ready then ready[key.value] else [];
      row[select[i].key := Shaped(select[i].plan.isList, matches)]
      == Embedded(db, select[..i + 1], source[j], source[j])
  {
    assert select[..i + 1][..i] == select[..i];
    assert source[j] in source;
    ValueFromGroups(db, select[i], source[j], keys, ready);
  }

  // ----- What an embed holds -----

  /** The rows of a table that a parent joins, in table order. */
  function JoinedRows(plan: Plan, rows: seq<Row>, parent: Row): seq<Row> {
    if rows == [] then []
    else
      (if Cell(rows[0], plan.foreignColumn) == Cell(parent, plan.localColumn) && Cell(parent, plan.localColumn) != Null
       then [rows[0]] else [])
      + JoinedRows(plan, rows[1..], parent)
  }

  lemma {:induction false} KidsEach(db: Db, item: Item, rows: seq<Row>, parent: Row)
    requires item.Relation?
    ensures var joined := JoinedRows(item.plan, rows, parent);
      && |Kids(db, item, rows, parent)| == |joined|
      && forall i | 0 <= i < |joined| ::
           Kids(db, item, rows, parent)[i] == Obj(Requested(item.nested, Embedded(db, item.nested, joined[i], joined[i])))
    decreases |rows|
  {
    if rows != [] { KidsEach(db, item, rows[1..], parent); }
  }

  /** A to-many's key holds an array with one object for each joined child, in table
      order; a to-one's holds the first, and null exactly where none joins. */
  lemma {:induction false} ValueHolds(db: Db, item: Item, parent: Row)
    requires item.Relation?
    ensures var joined := JoinedRows(item.plan, db.Rows(item.plan.table), parent);
      var value := Value(db, item, parent);
      if item.plan.isList then
        && value.Arr? && |value.items| == |joined|
        && forall i | 0 <= i < |joined| ::
             value.items[i] == Obj(Requested(item.nested, Embedded(db, item.nested, joined[i], joined[i])))
      else
        value == if joined == [] then Null
                 else Obj(Requested(item.nested, Embedded(db, item.nested, joined[0], joined[0])))
  {
    KidsEach(db, item, db.Rows(item.plan.table), parent);
  }

  /** A child keeps what its selection names, and everything where it names nothing. */
  lemma {:induction false} RequestedExactly(nested: seq<Item>, row: Row, key: string)
    ensures key in Requested(nested, row) <==>
      && key in row
      && (nested == [] || exists i | 0 <= i < |nested| :: key == if nested[i].Field? then nested[i].name else nested[i].key)
    ensures key in Requested(nested, row) ==> Requested(nested, row)[key] == row[key]
  {
  }
}
