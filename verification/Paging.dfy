/** The page a request asks for and the count it reports, taken around the wrapper
    that joins its embeds. */
module Paging {
  import opened Wrappers
  import opened Collections
  import opened JsonValues
  import opened Placeholders
  import opened Sql
  import opened EmbedCompiler
  import opened NestedJoin
  import opened EmbedCorrectness

  // ----- What a request asks of its embeds -----

  datatype Operation = IsNull | IsNotNull | Other

  datatype Filter = Filter(field: string, operation: Operation, negated: bool) {
    predicate NullTest() { !operation.Other? }

    /** Whether it asks for the rows the embed did match. */
    predicate AsksMatched() { if operation.IsNull? then negated else !negated }
  }

  datatype Tree =
    | Expr(negated: bool, any: bool, children: seq<Tree>)
    | Stmt(filter: Filter)

  datatype Kind = Read | Call

  /** A request over rows of `table`: what it embeds, its own filters and logic
      trees, its order by embedded columns and its page. */
  datatype Query = Query(
    c: Context,
    table: string,
    select: seq<Item>,
    kind: Kind,
    filters: seq<Filter>,
    logic: seq<Tree>,
    order: seq<string>,
    range: Range)
  {
    predicate SawRelations() { exists i | 0 <= i < |select| :: select[i].Embeds() }

    /** Only a read resolves an order on an embedded column, and only among the
        embeds it selects. */
    predicate Valid() { order != [] ==> kind.Read? && SawRelations() }
  }

  // ----- The predicates of the wrapper -----

  datatype Cond =
    | Test(pred: Pred)
    | Not(of: Cond)
    | All(conds: seq<Cond>)
    | Any(conds: seq<Cond>)

  ghost predicate CondHolds(w: World, cond: Cond, env: Env, params: seq<Json>) {
    match cond
    case Test(pred) => Holds(w, pred, env, "src", params)
    case Not(of) => !CondHolds(w, of, env, params)
    case All(conds) => forall c <- conds :: CondHolds(w, c, env, params)
    case Any(conds) => exists c <- conds :: CondHolds(w, c, env, params)
  }

  type Tests = seq<(string, Pred)>

  function TestNames(tests: Tests): seq<string> {
    seq(|tests|, i requires 0 <= i < |tests| => tests[i].0)
  }

  function TestOf(tests: Tests, filter: Filter): Option<Cond> {
    var i := Index(TestNames(tests), filter.field);
    if i == |tests| || !filter.NullTest() then None
    else Some(if filter.AsksMatched() then Test(tests[i].1) else Not(Test(tests[i].1)))
  }

  /** One `or=` or `and=` over embeds; nothing where any leaf asks something else. */
  function EmbedLogic(tree: Tree, tests: Tests): Option<Cond> {
    match tree
    case Stmt(filter) => TestOf(tests, filter)
    case Expr(negated, any, children) =>
      var parts := EmbedLogics(children, tests);
      if parts.None? then None
      else
        var joined := if any then Any(parts.value) else All(parts.value);
        Some(if negated then Not(joined) else joined)
  }

  function EmbedLogics(trees: seq<Tree>, tests: Tests): Option<seq<Cond>> {
    if trees == [] then Some([])
    else
      var first, rest := EmbedLogic(trees[0], tests), EmbedLogics(trees[1..], tests);
      if first.Some? && rest.Some? then Some([first.value] + rest.value) else None
  }

  function Joins(inners: seq<Pred>): seq<Cond> {
    seq(|inners|, i requires 0 <= i < |inners| => Test(inners[i]))
  }

  function Maybe(test: Option<Cond>): seq<Cond> { if test.Some? then [test.value] else [] }

  function NullTestsOf(tests: Tests, filters: seq<Filter>): seq<Cond> {
    if filters == [] then []
    else NullTestsOf(tests, filters[..|filters| - 1]) + Maybe(TestOf(tests, filters[|filters| - 1]))
  }

  predicate NamesOnly(tree: Tree, select: seq<Item>) {
    match tree
    case Stmt(filter) => exists i | 0 <= i < |select| :: select[i].Relation? && select[i].Name() == filter.field
    case Expr(_, _, children) => children != [] && forall child <- children :: NamesOnly(child, select)
  }

  function LogicOf(tree: Tree, tests: Tests, select: seq<Item>): Option<Cond> {
    if NamesOnly(tree, select) then EmbedLogic(tree, tests) else None
  }

  function LogicTestsOf(tests: Tests, select: seq<Item>, logic: seq<Tree>): seq<Cond> {
    if logic == [] then []
    else LogicTestsOf(tests, select, logic[..|logic| - 1]) + Maybe(LogicOf(logic[|logic| - 1], tests, select))
  }

  function PredicatesOf(q: Query, level: Level): seq<Cond> {
    Joins(level.inners) + NullTestsOf(level.filterable, q.filters) + LogicTestsOf(level.filterable, q.select, q.logic)
  }

  /** The predicates in the order they are pushed. */
  method CollectPredicates(q: Query, level: Level) returns (predicates: seq<Cond>)
    ensures predicates == PredicatesOf(q, level)
  {
    var tests := CollectNullTests(level.filterable, q.filters);
    var logic := CollectLogic(level.filterable, q.select, q.logic);
    predicates := Joins(level.inners) + tests + logic;
  }

  method CollectNullTests(tests: Tests, filters: seq<Filter>) returns (predicates: seq<Cond>)
    ensures predicates == NullTestsOf(tests, filters)
  {
    predicates := [];
    for i := 0 to |filters|
      invariant predicates == NullTestsOf(tests, filters[..i])
    {
      assert filters[..i + 1][..i] == filters[..i];
      predicates := predicates + Maybe(TestOf(tests, filters[i]));
    }
    assert filters[..|filters|] == filters;
  }

  method CollectLogic(tests: Tests, select: seq<Item>, logic: seq<Tree>) returns (predicates: seq<Cond>)
    ensures predicates == LogicTestsOf(tests, select, logic)
  {
    predicates := [];
    for i := 0 to |logic|
      invariant predicates == LogicTestsOf(tests, select, logic[..i])
    {
      assert logic[..i + 1][..i] == logic[..i];
      predicates := predicates + Maybe(LogicOf(logic[i], tests, select));
    }
    assert logic[..|logic|] == logic;
  }

  // ----- The two statements -----

  /** `SELECT src.*, embeds FROM (the request's query, with the page left inside)
      AS src WHERE ... ORDER BY ... ` and the page outside. */
  datatype Statement = Statement(inside: Range, embeds: seq<Embed>, conds: seq<Cond>, order: seq<string>, outside: Range)

  const WHOLE := Range(None, 0)

  /** The page goes outside the join only where a read needs it there. */
  predicate Moved(q: Query, level: Level) { q.kind.Read? && (level.inners != [] || q.order != []) }

  function MainOf(q: Query, level: Level): Statement {
    if !q.SawRelations() then Statement(q.range, [], [], [], WHOLE)
    else
      var moved := Moved(q, level);
      Statement(if moved then WHOLE else q.range, level.embeds, PredicatesOf(q, level), q.order,
                if moved then q.range else WHOLE)
  }

  function CountOf(q: Query, level: Level): Statement {
    if !q.SawRelations() then Statement(WHOLE, [], [], [], WHOLE)
    else Statement(WHOLE, level.embeds, PredicatesOf(q, level), [], WHOLE)
  }

  /** How the statement to run and the statement to count are put together. */
  method BuildStatements(q: Query, level: Level) returns (main: Statement, count: Statement)
    ensures main == MainOf(q, level) && count == CountOf(q, level)
  {
    main := Statement(q.range, [], [], [], WHOLE);
    count := main.(inside := WHOLE);
    if q.SawRelations() {
      var page: Option<Range> := None;
      if level.inners != [] || q.order != [] {
        if q.kind.Read? {
          page := Some(main.inside);
          main := main.(inside := WHOLE);
        }
      }
      var predicates := CollectPredicates(q, level);
      main := main.(embeds := level.embeds, conds := predicates, order := q.order);
      count := count.(embeds := level.embeds, conds := predicates);
      if page.Some? { main := main.(outside := page.value); }
    }
  }

  // ----- What they answer -----

  ghost predicate AllHold(w: World, conds: seq<Cond>, env: Env, params: seq<Json>) {
    forall cond <- conds :: CondHolds(w, cond, env, params)
  }

  ghost function Passing(w: World, conds: seq<Cond>, rows: seq<Row>, params: seq<Json>): seq<Row> {
    if rows == [] then []
    else
      (if AllHold(w, conds, map["src" := rows[0]], params) then [rows[0]] else []) + Passing(w, conds, rows[1..], params)
  }

  ghost function Shown(w: World, embeds: seq<Embed>, rows: seq<Row>, params: seq<Json>): (r: seq<Row>)
    ensures |r| == |rows|
  {
    if rows == [] then []
    else [WithEmbeds(w, rows[0], embeds, map["src" := rows[0]], params)] + Shown(w, embeds, rows[1..], params)
  }

  function Cut(rows: seq<Row>, range: Range): seq<Row> { Page(rows, range.limit, range.offset) }

  /** What a statement answers when the request's own query, unpaged, has `base`. */
  ghost function Answer(w: World, st: Statement, base: seq<Row>, params: seq<Json>): seq<Row> {
    var src := Passing(w, st.conds, Cut(base, st.inside), params);
    Shown(w, st.embeds, Cut(Sorted(w, st.order, src), st.outside), params)
  }

  // ----- What they should answer -----

  /** Whether an embed has a child for a row, in the nested join. */
  ghost predicate Matched(w: World, q: Query, item: Item, row: Row)
    requires item.Embeds()
  {
    Children(w, q.c, q.table, item, [], [], row) != []
  }

  function ItemName(item: Item): string { if item.Embeds() then item.Name() else "" }

  function ItemNames(items: seq<Item>): seq<string> {
    seq(|items|, i requires 0 <= i < |items| => ItemName(items[i]))
  }

  /** The embeds a null test can name. */
  function Items(q: Query): seq<Item> { Testable(q.c, q.table, q.select) }

  /** Every leaf is a null test of an embed a filter can name. */
  predicate NullTests(tree: Tree, items: seq<Item>) {
    match tree
    case Stmt(filter) => filter.field in ItemNames(items) && (filter.operation.IsNull? || filter.operation.IsNotNull?)
    case Expr(_, _, children) => forall child <- children :: NullTests(child, items)
  }

  /** `is.null` asks for the rows its embed has no child for, and `not.is.null` and
      `is.not_null` for the others. */
  ghost predicate LeafAsks(w: World, q: Query, filter: Filter, row: Row) {
    var i := Index(ItemNames(Items(q)), filter.field);
    && i < |Items(q)| && Items(q)[i].Embeds()
    && (match filter.operation
        case IsNull => Matched(w, q, Items(q)[i], row) == filter.negated
        case IsNotNull => Matched(w, q, Items(q)[i], row) != filter.negated
        case Other => false)
  }

  /** Reading a tree directly: a leaf asks whether its embed, the first of that
      name, has a child. */
  ghost predicate Asks(w: World, q: Query, tree: Tree, row: Row) {
    match tree
    case Stmt(filter) => LeafAsks(w, q, filter, row)
    case Expr(negated, any, children) =>
      negated != (if any then exists child <- children :: Asks(w, q, child, row)
                  else forall child <- children :: Asks(w, q, child, row))
  }

  ghost predicate FilterMet(w: World, q: Query, filter: Filter, row: Row) {
    NullTests(Stmt(filter), Items(q)) ==> Asks(w, q, Stmt(filter), row)
  }

  ghost predicate TreeMet(w: World, q: Query, tree: Tree, row: Row) {
    NamesOnly(tree, q.select) && NullTests(tree, Items(q)) ==> Asks(w, q, tree, row)
  }

  /** A row survives when each of its `!inner` relations has a child, and each null
      test and each logic tree of null tests asks for it. */
  ghost predicate Survives(w: World, q: Query, row: Row) {
    && InnersMet(w, q.c, q.table, q.select, [], [], row)
    && (forall filter <- q.filters :: FilterMet(w, q, filter, row))
    && (forall tree <- q.logic :: TreeMet(w, q, tree, row))
  }

  ghost function Survivors(w: World, q: Query, rows: seq<Row>): seq<Row> {
    if rows == [] then [] else (if Survives(w, q, rows[0]) then [rows[0]] else []) + Survivors(w, q, rows[1..])
  }

  /** Each row with its embeds, by the nested join. */
  ghost function Embedded(w: World, q: Query, rows: seq<Row>): (r: seq<Row>)
    ensures |r| == |rows|
  {
    if rows == [] then []
    else [Nested(w, q.c, q.table, q.select, [], [], 0, rows[0], rows[0])] + Embedded(w, q, rows[1..])
  }

  /** The page of the surviving rows, ordered by the embedded columns asked for,
      with their embeds. */
  ghost function RightPage(w: World, q: Query, base: seq<Row>): seq<Row> {
    var survivors := Survivors(w, q, base);
    Embedded(w, q, Cut(if q.order == [] then survivors else w.sort(q.order, survivors), q.range))
  }

  // ----- What the predicates mean -----

  /** The request compiled, and the values its statements are sent with. */
  ghost predicate Built(q: Query, level: Level, end: State, main: seq<Json>, final: seq<Json>) {
    && RequestNumbered(q.c.request)
    && Compile(q.c, q.table, "src", q.select, [], [], State(0, [])) == Ok((level, end))
    && |main| == q.c.base && |main| + |end.params| < USIZE && final == main + end.params
  }

  /** The recorded tests say of a row which embeds have a child. */
  ghost predicate Told(w: World, q: Query, tests: Tests, final: seq<Json>, row: Row) {
    TestsMean(w, q.c, q.table, Items(q), [], [], tests, final, map["src" := row], row, "src")
  }

  lemma {:induction false} LevelTells(w: World, q: Query, level: Level, end: State, main: seq<Json>, final: seq<Json>, row: Row)
    requires Built(q, level, end, main, final)
    ensures Told(w, q, level.filterable, final, row)
    ensures HoldsAll(w, level.inners, map["src" := row], "src", final)
      == InnersMet(w, q.c, q.table, q.select, [], [], row)
  {
    var env: Env := map["src" := row];
    FilterableMeans(w, q.c, q.table, "src", q.select, [], [], State(0, []), level, end, main, final, env, row, "src");
    InnersMean(w, q.c, q.table, "src", q.select, [], [], State(0, []), level, end, main, final, env, row, "src");
  }

  lemma ToldNames(w: World, q: Query, tests: Tests, final: seq<Json>, row: Row)
    requires Told(w, q, tests, final, row)
    ensures TestNames(tests) == ItemNames(Items(q))
  {
  }

  lemma {:induction false} TestMeans(w: World, q: Query, tests: Tests, filter: Filter, final: seq<Json>, row: Row)
    requires Told(w, q, tests, final, row)
    ensures TestOf(tests, filter).Some? <==> NullTests(Stmt(filter), Items(q))
    ensures TestOf(tests, filter).Some? ==>
      CondHolds(w, TestOf(tests, filter).value, map["src" := row], final) == Asks(w, q, Stmt(filter), row)
  {
    ToldNames(w, q, tests, final, row);
    IndexFinds(TestNames(tests), filter.field);
    var i := Index(TestNames(tests), filter.field);
    if i < |tests| {
      assert Items(q)[i].Embeds();
      assert Holds(w, tests[i].1, map["src" := row], "src", final) <==> Matched(w, q, Items(q)[i], row);
    }
  }

  /** A tree is compiled exactly where all its leaves are null tests, and then its
      predicate holds of a row exactly where the tree asks for it. */
  lemma {:induction false} LogicMeans(w: World, q: Query, tests: Tests, tree: Tree, final: seq<Json>, row: Row)
    requires Told(w, q, tests, final, row)
    ensures EmbedLogic(tree, tests).Some? <==> NullTests(tree, Items(q))
    ensures EmbedLogic(tree, tests).Some? ==>
      CondHolds(w, EmbedLogic(tree, tests).value, map["src" := row], final) == Asks(w, q, tree, row)
    decreases tree
  {
    match tree
    case Stmt(filter) => TestMeans(w, q, tests, filter, final, row);
    case Expr(_, _, _) => LogicsMean(w, q, tests, tree, 0, final, row);
  }

  lemma {:induction false} LogicsMean(w: World, q: Query, tests: Tests, tree: Tree, i: nat, final: seq<Json>, row: Row)
    requires Told(w, q, tests, final, row)
    requires tree.Expr? && i <= |tree.children|
    ensures var trees := tree.children[i..];
      var conds := EmbedLogics(trees, tests);
      var env: Env := map["src" := row];
      && (conds.Some? <==> forall child <- trees :: NullTests(child, Items(q)))
      && (conds.Some? ==>
            && ((forall cond <- conds.value :: CondHolds(w, cond, env, final)) <==> (forall child <- trees :: Asks(w, q, child, row)))
            && ((exists cond <- conds.value :: CondHolds(w, cond, env, final)) <==> (exists child <- trees :: Asks(w, q, child, row))))
    decreases tree, |tree.children| - i
  {
    var trees := tree.children[i..];
    if trees != [] {
      assert trees[1..] == tree.children[i + 1..];
      LogicMeans(w, q, tests, trees[0], final, row);
      LogicsMean(w, q, tests, tree, i + 1, final, row);
      assert trees == [trees[0]] + trees[1..];
    }
  }

  lemma AllHoldSum(w: World, a: seq<Cond>, b: seq<Cond>, env: Env, params: seq<Json>)
    ensures AllHold(w, a + b, env, params) <==> AllHold(w, a, env, params) && AllHold(w, b, env, params)
  {
    forall cond <- a ensures cond in a + b {}
    forall cond <- b ensures cond in a + b {}
  }

  lemma AllHoldMaybe(w: World, test: Option<Cond>, env: Env, params: seq<Json>)
    ensures AllHold(w, Maybe(test), env, params) <==> (test.Some? ==> CondHolds(w, test.value, env, params))
  {
    if test.Some? { assert test.value in [test.value]; }
  }

  lemma {:induction false} JoinsMean(w: World, inners: seq<Pred>, env: Env, params: seq<Json>)
    ensures AllHold(w, Joins(inners), env, params) <==> HoldsAll(w, inners, env, "src", params)
  {
    var conds := Joins(inners);
    if AllHold(w, conds, env, params) {
      forall i | 0 <= i < |inners| ensures Holds(w, inners[i], env, "src", params) {
        assert conds[i] in conds && CondHolds(w, conds[i], env, params);
      }
    }
  }

  ghost predicate FiltersMet(w: World, q: Query, filters: seq<Filter>, row: Row) {
    forall filter <- filters :: FilterMet(w, q, filter, row)
  }

  lemma FiltersSplit(w: World, q: Query, filters: seq<Filter>, row: Row)
    requires filters != []
    ensures FiltersMet(w, q, filters, row) <==>
      FiltersMet(w, q, filters[..|filters| - 1], row) && FilterMet(w, q, filters[|filters| - 1], row)
  {
    assert forall f :: f in filters <==> f in filters[..|filters| - 1] || f == filters[|filters| - 1];
  }

  lemma {:induction false} FiltersMean(w: World, q: Query, tests: Tests, filters: seq<Filter>, final: seq<Json>, row: Row)
    requires Told(w, q, tests, final, row)
    ensures AllHold(w, NullTestsOf(tests, filters), map["src" := row], final) <==> FiltersMet(w, q, filters, row)
  {
    if filters != [] {
      var n := |filters| - 1;
      FiltersMean(w, q, tests, filters[..n], final, row);
      TestMeans(w, q, tests, filters[n], final, row);
      AllHoldSum(w, NullTestsOf(tests, filters[..n]), Maybe(TestOf(tests, filters[n])), map["src" := row], final);
      AllHoldMaybe(w, TestOf(tests, filters[n]), map["src" := row], final);
      FiltersSplit(w, q, filters, row);
    }
  }

  ghost predicate TreesMet(w: World, q: Query, logic: seq<Tree>, row: Row) {
    forall tree <- logic :: TreeMet(w, q, tree, row)
  }

  lemma TreesSplit(w: World, q: Query, logic: seq<Tree>, row: Row)
    requires logic != []
    ensures TreesMet(w, q, logic, row) <==>
      TreesMet(w, q, logic[..|logic| - 1], row) && TreeMet(w, q, logic[|logic| - 1], row)
  {
    assert forall t :: t in logic <==> t in logic[..|logic| - 1] || t == logic[|logic| - 1];
  }

  lemma {:induction false} TreesMean(w: World, q: Query, tests: Tests, logic: seq<Tree>, final: seq<Json>, row: Row)
    requires Told(w, q, tests, final, row)
    ensures AllHold(w, LogicTestsOf(tests, q.select, logic), map["src" := row], final) <==> TreesMet(w, q, logic, row)
  {
    if logic != [] {
      var n := |logic| - 1;
      TreesMean(w, q, tests, logic[..n], final, row);
      LogicMeans(w, q, tests, logic[n], final, row);
      AllHoldSum(w, LogicTestsOf(tests, q.select, logic[..n]), Maybe(LogicOf(logic[n], tests, q.select)), map["src" := row], final);
      AllHoldMaybe(w, LogicOf(logic[n], tests, q.select), map["src" := row], final);
      TreesSplit(w, q, logic, row);
    }
  }

  /** The wrapper's predicates hold of a row exactly where it survives. */
  lemma {:induction false} PredicatesMean(w: World, q: Query, level: Level, end: State, main: seq<Json>, final: seq<Json>,
                                          row: Row)
    requires Built(q, level, end, main, final)
    ensures AllHold(w, PredicatesOf(q, level), map["src" := row], final) <==> Survives(w, q, row)
  {
    var env: Env := map["src" := row];
    var tests := level.filterable;
    LevelTells(w, q, level, end, main, final, row);
    JoinsMean(w, level.inners, env, final);
    FiltersMean(w, q, tests, q.filters, final, row);
    TreesMean(w, q, tests, q.logic, final, row);
    AllHoldSum(w, Joins(level.inners), NullTestsOf(tests, q.filters), env, final);
    AllHoldSum(w, Joins(level.inners) + NullTestsOf(tests, q.filters), LogicTestsOf(tests, q.select, q.logic), env, final);
  }

  lemma {:induction false} PassingSurvive(w: World, q: Query, level: Level, end: State, main: seq<Json>, final: seq<Json>,
                                          rows: seq<Row>)
    requires Built(q, level, end, main, final)
    ensures Passing(w, PredicatesOf(q, level), rows, final) == Survivors(w, q, rows)
  {
    if rows != [] {
      PredicatesMean(w, q, level, end, main, final, rows[0]);
      PassingSurvive(w, q, level, end, main, final, rows[1..]);
    }
  }

  lemma {:induction false} ShownEmbedded(w: World, q: Query, level: Level, end: State, main: seq<Json>, final: seq<Json>,
                                         rows: seq<Row>)
    requires Built(q, level, end, main, final)
    ensures Shown(w, level.embeds, rows, final) == Embedded(w, q, rows)
  {
    if rows != [] {
      var env: Env := map["src" := rows[0]];
      EmbedsMean(w, q.c, q.table, "src", q.select, [], [], State(0, []), level, end, main, final, env, rows[0], rows[0]);
      ShownEmbedded(w, q, level, end, main, final, rows[1..]);
    }
  }

  // ----- Which trees are about embeds -----

  function Leaves(tree: Tree): set<string> {
    match tree
    case Stmt(filter) => {filter.field}
    case Expr(_, _, children) => set child <- children, name <- Leaves(child) :: name
  }

  predicate NoEmptyGroup(tree: Tree) {
    tree.Expr? ==> tree.children != [] && forall child <- tree.children :: NoEmptyGroup(child)
  }

  predicate IsRelation(select: seq<Item>, name: string) {
    exists i | 0 <= i < |select| :: select[i].Relation? && select[i].Name() == name
  }

  predicate AllRelations(names: set<string>, select: seq<Item>) { forall name <- names :: IsRelation(select, name) }

  /** A tree is about embeds exactly where every name in it is a relation's, and no
      group in it is empty. */
  lemma {:induction false} NamesOnlyExactly(tree: Tree, select: seq<Item>)
    ensures NamesOnly(tree, select) <==> NoEmptyGroup(tree) && AllRelations(Leaves(tree), select)
    decreases tree
  {
    if tree.Expr? {
      forall child <- tree.children
        ensures NamesOnly(child, select) <==> NoEmptyGroup(child) && AllRelations(Leaves(child), select)
        ensures Leaves(child) <= Leaves(tree)
      {
        NamesOnlyExactly(child, select);
      }
      if forall child <- tree.children :: AllRelations(Leaves(child), select) {
        forall name <- Leaves(tree) ensures IsRelation(select, name) {
          var child :| child in tree.children && name in Leaves(child);
          assert AllRelations(Leaves(child), select);
        }
      }
      if AllRelations(Leaves(tree), select) {
        forall child <- tree.children ensures AllRelations(Leaves(child), select) {
          forall name <- Leaves(child) ensures IsRelation(select, name) { assert name in Leaves(tree); }
        }
      }
    } else {
      assert IsRelation(select, tree.filter.field) <==> NamesOnly(tree, select);
    }
  }

  // ----- Requests without relations -----

  lemma {:induction false} NothingCompiled(q: Query, select: seq<Item>, st: State)
    requires forall i | 0 <= i < |select| :: select[i].Field?
    ensures Compile(q.c, q.table, "src", select, [], [], st) == Ok((Level([], [], [], []), st))
  {
    if select != [] { NothingCompiled(q, select[1..], st); }
  }

  lemma {:induction false} NothingTested(filters: seq<Filter>)
    ensures NullTestsOf([], filters) == []
  {
    if filters != [] { NothingTested(filters[..|filters| - 1]); }
  }

  lemma {:induction false} NothingNamed(tree: Tree, select: seq<Item>)
    requires forall i | 0 <= i < |select| :: select[i].Field?
    ensures !NamesOnly(tree, select)
  {
    if tree.Expr? && tree.children != [] { NothingNamed(tree.children[0], select); }
  }

  lemma {:induction false} NoLogic(tests: Tests, select: seq<Item>, logic: seq<Tree>)
    requires forall i | 0 <= i < |select| :: select[i].Field?
    ensures LogicTestsOf(tests, select, logic) == []
  {
    if logic != [] {
      NoLogic(tests, select, logic[..|logic| - 1]);
      NothingNamed(logic[|logic| - 1], select);
    }
  }

  /** Without relations the wrapper would add nothing, and is not built. */
  lemma {:induction false} Unwrapped(q: Query, level: Level, end: State, main: seq<Json>, final: seq<Json>)
    requires q.Valid() && Built(q, level, end, main, final)
    ensures var moved := Moved(q, level);
      MainOf(q, level) == Statement(if moved then WHOLE else q.range, level.embeds, PredicatesOf(q, level), q.order,
                                    if moved then q.range else WHOLE)
    ensures CountOf(q, level) == Statement(WHOLE, level.embeds, PredicatesOf(q, level), [], WHOLE)
  {
    if !q.SawRelations() {
      NothingCompiled(q, q.select, State(0, []));
      NothingTested(q.filters);
      NoLogic(level.filterable, q.select, q.logic);
    }
  }

  // ----- Page and count -----

  lemma CutWhole(rows: seq<Row>)
    ensures Cut(rows, WHOLE) == rows
  {
  }

  /** The page has to be taken after the join: a read, with an `!inner` embed or an
      order on an embedded column. */
  predicate PageAfterJoin(q: Query) {
    q.kind.Read? && ((exists i | 0 <= i < |q.select| :: q.select[i].Embeds() && q.select[i].inner) || q.order != [])
  }

  /** A level has an `!inner` predicate exactly where its selection has such an embed. */
  lemma {:induction false} InnersExactly(c: Context, table: string, parent: string, select: seq<Item>, path: Path, names: Path,
                                         st: State, level: Level, end: State)
    requires Compile(c, table, parent, select, path, names, st) == Ok((level, end))
    ensures level.inners != [] <==> exists i | 0 <= i < |select| :: select[i].Embeds() && select[i].inner
    decreases |select|
  {
    if select != [] {
      assert select == [select[0]] + select[1..];
      if select[0].Field? {
        InnersExactly(c, table, parent, select[1..], path, names, st, level, end);
      } else {
        var one := CompileOne(c, table, parent, select[0], path, names, st).value;
        var rest := Compile(c, table, parent, select[1..], path, names, one.1).value;
        InnersExactly(c, table, parent, select[1..], path, names, one.1, rest.0, rest.1);
        InnerExactly(c, table, parent, select[0], path, names, st, one.0);
      }
    }
  }

  lemma {:induction false} InnerExactly(c: Context, table: string, parent: string, item: Item, path: Path, names: Path, st: State,
                                        level: Level)
    requires item.Embeds() && CompileOne(c, table, parent, item, path, names, st).Ok?
    requires level == CompileOne(c, table, parent, item, path, names, st).value.0
    ensures level.inners != [] <==> item.inner
  {
    var o := Open(c, table, parent, item, path, names, st);
  }

  /** The page moves exactly where it has to. */
  lemma {:induction false} MovedExactly(q: Query, level: Level, end: State, main: seq<Json>, final: seq<Json>)
    requires Built(q, level, end, main, final)
    ensures Moved(q, level) <==> PageAfterJoin(q)
  {
    InnersExactly(q.c, q.table, "src", q.select, [], [], State(0, []), level, end);
  }

  /** The statement run answers, over any rows, the survivors of what is left
      inside, in order, cut by what moved outside, with their embeds. */
  lemma {:induction false} MainAnswers(w: World, q: Query, level: Level, end: State, main: seq<Json>, final: seq<Json>,
                                       base: seq<Row>)
    requires q.Valid() && Built(q, level, end, main, final)
    ensures Answer(w, MainOf(q, level), base, final)
      == if PageAfterJoin(q) then RightPage(w, q, base)
         else Embedded(w, q, Survivors(w, q, Cut(base, q.range)))
  {
    MovedExactly(q, level, end, main, final);
    Unwrapped(q, level, end, main, final);
    var st := MainOf(q, level);
    var src := Cut(base, st.inside);
    PassingSurvive(w, q, level, end, main, final, src);
    var rows := Cut(Sorted(w, q.order, Survivors(w, q, src)), st.outside);
    ShownEmbedded(w, q, level, end, main, final, rows);
    CutWhole(base);
    CutWhole(Sorted(w, q.order, Survivors(w, q, src)));
  }

  /** The count is the number of rows that survive, whatever the page. */
  lemma {:induction false} CountAnswers(w: World, q: Query, level: Level, end: State, main: seq<Json>, final: seq<Json>,
                                        base: seq<Row>)
    requires q.Valid() && Built(q, level, end, main, final)
    ensures |Answer(w, CountOf(q, level), base, final)| == |Survivors(w, q, base)|
  {
    Unwrapped(q, level, end, main, final);
    PassingSurvive(w, q, level, end, main, final, base);
    CutWhole(base);
    CutWhole(Survivors(w, q, base));
  }

  /** Sorting rearranges. */
  ghost predicate Rearranges(w: World) {
    forall order, rows :: multiset(w.sort(order, rows)) == multiset(rows)
  }

  /** For a read with `!inner` or an order on an embedded column, the rows returned
      are the offset/limit slice of the surviving parents of the nested loop, ordered
      by the embedded columns and with their embeds; and those are what the count
      counts. */
  lemma {:induction false} MovedPage(w: World, q: Query, level: Level, end: State, main: seq<Json>, final: seq<Json>,
                                     base: seq<Row>) returns (all: seq<Row>)
    requires q.Valid() && Built(q, level, end, main, final) && PageAfterJoin(q) && Rearranges(w)
    ensures multiset(all) == multiset(Survivors(w, q, base))
    ensures Answer(w, MainOf(q, level), base, final) == Embedded(w, q, Cut(all, q.range))
    ensures |all| == |Answer(w, CountOf(q, level), base, final)|
  {
    all := Sorted(w, q.order, Survivors(w, q, base));
    MainAnswers(w, q, level, end, main, final, base);
    CountAnswers(w, q, level, end, main, final, base);
    assert |multiset(all)| == |all| && |multiset(Survivors(w, q, base))| == |Survivors(w, q, base)|;
  }

  // ----- Exactly when the page is right -----

  /** Whatever rows there are, the statement run answers the page it should. */
  ghost predicate PagesRight(w: World, q: Query, level: Level, final: seq<Json>) {
    forall base :: Answer(w, MainOf(q, level), base, final) == RightPage(w, q, base)
  }

  /** In this database the predicates tell no two rows apart. */
  ghost predicate Constant(w: World, q: Query) {
    (forall row :: Survives(w, q, row)) || (forall row :: !Survives(w, q, row))
  }

  predicate WholeOrNothing(range: Range) {
    (range.limit.None? && range.offset == 0) || range.limit == Some(0)
  }

  lemma {:induction false} AllSurvive(w: World, q: Query, rows: seq<Row>)
    requires forall row <- rows :: Survives(w, q, row)
    ensures Survivors(w, q, rows) == rows
  {
    if rows != [] { AllSurvive(w, q, rows[1..]); }
  }

  lemma {:induction false} NoneSurvive(w: World, q: Query, rows: seq<Row>)
    requires forall row <- rows :: !Survives(w, q, row)
    ensures Survivors(w, q, rows) == []
  {
    if rows != [] { NoneSurvive(w, q, rows[1..]); }
  }

  lemma {:induction false} InsidePageRight(w: World, q: Query, base: seq<Row>)
    requires q.order == [] && (Constant(w, q) || WholeOrNothing(q.range))
    ensures Embedded(w, q, Survivors(w, q, Cut(base, q.range))) == RightPage(w, q, base)
  {
    if forall row :: Survives(w, q, row) {
      AllSurvive(w, q, base);
      AllSurvive(w, q, Cut(base, q.range));
    } else if forall row :: !Survives(w, q, row) {
      NoneSurvive(w, q, base);
      NoneSurvive(w, q, Cut(base, q.range));
    }
  }

  function Repeated(row: Row, n: nat): (rows: seq<Row>)
    ensures |rows| == n && forall r <- rows :: r == row
  {
    if n == 0 then [] else [row] + Repeated(row, n - 1)
  }

  lemma {:induction false} SurvivesAfter(w: World, q: Query, gone: seq<Row>, row: Row)
    requires Survives(w, q, row) && forall r <- gone :: !Survives(w, q, r)
    ensures Survivors(w, q, gone + [row]) == [row]
  {
    if gone == [] {
      assert gone + [row] == [row];
      assert [row][1..] == [];
    } else {
      assert (gone + [row])[1..] == gone[1..] + [row];
      SurvivesAfter(w, q, gone[1..], row);
    }
  }

  /** A page taken inside cuts off rows the count counts: after enough rows the
      predicates remove, one they keep. */
  lemma {:induction false} InsidePageDiffers(w: World, q: Query, lost: Row, kept: Row) returns (base: seq<Row>)
    requires q.order == [] && !WholeOrNothing(q.range) && Survives(w, q, kept) && !Survives(w, q, lost)
    ensures |Embedded(w, q, Survivors(w, q, Cut(base, q.range)))| != |RightPage(w, q, base)|
  {
    var range := q.range;
    var n := if range.offset > 0 then range.offset else range.limit.value;
    base := Repeated(lost, n) + [kept];
    SurvivesAfter(w, q, Repeated(lost, n), kept);
    if range.offset > 0 {
      assert Cut(base, range) == [kept];
      AllSurvive(w, q, [kept]);
      assert Cut([kept], range) == [];
    } else {
      assert Cut(base, range) == Repeated(lost, n);
      NoneSurvive(w, q, Repeated(lost, n));
      assert Cut([kept], range) == [kept];
    }
  }

  /** Over all rows the page is right if and only if it moved outside, the predicates
      tell no rows apart, or it is everything or nothing. A null test alone, and a
      call with `!inner`, leave the page inside. */
  lemma {:induction false} PagesExactly(w: World, q: Query, level: Level, end: State, main: seq<Json>, final: seq<Json>)
    requires q.Valid() && Built(q, level, end, main, final)
    ensures PagesRight(w, q, level, final) <==> (PageAfterJoin(q) || Constant(w, q) || WholeOrNothing(q.range))
  {
    forall base
      ensures Answer(w, MainOf(q, level), base, final)
        == if PageAfterJoin(q) then RightPage(w, q, base) else Embedded(w, q, Survivors(w, q, Cut(base, q.range)))
    {
      MainAnswers(w, q, level, end, main, final, base);
    }
    if !PageAfterJoin(q) {
      if Constant(w, q) || WholeOrNothing(q.range) {
        forall base ensures Answer(w, MainOf(q, level), base, final) == RightPage(w, q, base) {
          InsidePageRight(w, q, base);
        }
      } else {
        var lost :| !Survives(w, q, lost);
        var kept :| Survives(w, q, kept);
        var base := InsidePageDiffers(w, q, lost, kept);
        assert Answer(w, MainOf(q, level), base, final) != RightPage(w, q, base);
      }
    }
  }

  // ----- The order asked for -----

  /** One term of a request's order: a column of its own table, or an embedded one. */
  datatype Term = Term(text: string, embedded: bool)

  function EmbeddedTerms(terms: seq<Term>): seq<Term> {
    if terms == [] then []
    else
      var last := terms[|terms| - 1];
      EmbeddedTerms(terms[..|terms| - 1]) + (if last.embedded then [last] else [])
  }

  /** What the wrapper orders by: a term on the table's own column is passed over. */
  method BuildEmbedOrders(terms: seq<Term>) returns (orders: seq<Term>)
    ensures orders == EmbeddedTerms(terms)
  {
    orders := [];
    for i := 0 to |terms|
      invariant orders == EmbeddedTerms(terms[..i])
    {
      assert terms[..i + 1][..i] == terms[..i];
      if terms[i].embedded { orders := orders + [terms[i]]; }
    }
    assert terms[..|terms|] == terms;
  }

  /** What the answer is ordered by: the wrapper's terms, and without any the inner
      query's own. */
  function Effective(terms: seq<Term>): seq<Term> {
    if EmbeddedTerms(terms) != [] then EmbeddedTerms(terms) else terms
  }

  predicate Before(rank: (Term, Row) -> int, terms: seq<Term>, a: Row, b: Row) {
    if terms == [] then true
    else if rank(terms[0], a) != rank(terms[0], b) then rank(terms[0], a) < rank(terms[0], b)
    else Before(rank, terms[1..], a, b)
  }

  predicate InOrder(rank: (Term, Row) -> int, terms: seq<Term>, rows: seq<Row>) {
    forall i, j | 0 <= i < j < |rows| :: Before(rank, terms, rows[i], rows[j])
  }

  lemma {:induction false} EmbeddedMember(terms: seq<Term>, t: Term)
    ensures t in EmbeddedTerms(terms) <==> t in terms && t.embedded
  {
    if terms != [] {
      EmbeddedMember(terms[..|terms| - 1], t);
      assert terms == terms[..|terms| - 1] + [terms[|terms| - 1]];
    }
  }

  lemma {:induction false} AllEmbedded(terms: seq<Term>)
    requires forall t <- terms :: t.embedded
    ensures EmbeddedTerms(terms) == terms
  {
    if terms != [] {
      AllEmbedded(terms[..|terms| - 1]);
      assert terms == terms[..|terms| - 1] + [terms[|terms| - 1]];
    }
  }

  /** Terms that tell two rows apart neither way leave them as they are. */
  lemma {:induction false} Tied(rank: (Term, Row) -> int, terms: seq<Term>, a: Row, b: Row)
    requires forall t <- terms :: rank(t, a) == rank(t, b)
    ensures Before(rank, terms, a, b)
  {
    if terms != [] { Tied(rank, terms[1..], a, b); }
  }

  lemma {:induction false} Reversed(rank: (Term, Row) -> int, terms: seq<Term>, a: Row, b: Row, own: Term)
    requires own in terms && rank(own, a) > rank(own, b)
    requires forall t <- terms :: rank(t, a) >= rank(t, b)
    ensures !Before(rank, terms, a, b)
  {
    if rank(terms[0], a) == rank(terms[0], b) {
      assert own in terms[1..];
      Reversed(rank, terms[1..], a, b, own);
    }
  }

  /** Rows in the order of the terms kept are in the order asked for, whatever they
      hold, if and only if the terms are all embedded or none is. */
  lemma {:induction false} OrderExactly(terms: seq<Term>)
    ensures (forall rank, rows :: InOrder(rank, Effective(terms), rows) ==> InOrder(rank, terms, rows))
      <==> ((forall t <- terms :: t.embedded) || (forall t <- terms :: !t.embedded))
  {
    if forall t <- terms :: t.embedded {
      AllEmbedded(terms);
    } else if forall t <- terms :: !t.embedded {
      if EmbeddedTerms(terms) != [] { EmbeddedMember(terms, EmbeddedTerms(terms)[0]); }
      assert Effective(terms) == terms;
    } else {
      var own :| own in terms && !own.embedded;
      var other :| other in terms && other.embedded;
      EmbeddedMember(terms, other);
      MixedOrderFails(terms, own);
    }
  }

  lemma {:induction false} MixedOrderFails(terms: seq<Term>, own: Term)
    requires own in terms && !own.embedded && EmbeddedTerms(terms) != []
    ensures exists rank, rows :: InOrder(rank, Effective(terms), rows) && !InOrder(rank, terms, rows)
  {
    var a: Row, b: Row := map["" := Null], map[];
    assert "" in a && "" !in b;
    var rank: (Term, Row) -> int := (t: Term, row: Row) => if !t.embedded && row == a then 1 else 0;
    var rows := [a, b];
    forall t <- Effective(terms) ensures rank(t, a) == rank(t, b) { EmbeddedMember(terms, t); }
    Tied(rank, Effective(terms), a, b);
    Reversed(rank, terms, a, b, own);
    assert InOrder(rank, Effective(terms), rows);
    assert !Before(rank, terms, rows[0], rows[1]);
  }

  // ----- A request whose page is wrong -----

  const ARTICLES := Relation("articles", None, false, [])

  /** `GET /authors?select=*,articles()&articles=is.null&limit=1`, over a schema
      where an author has articles. */
  const AUTHORS_WITHOUT_ARTICLES := Query(
    Context(Schema(map[("authors", "articles") := ForeignKey("articles", [("id", "author_id")], true)], map[]),
            Request([], [], [], map[], None), 0),
    "authors", [ARTICLES], Read, [Filter("articles", IsNull, false)], [], [], Range(Some(1), 0))

  /** One article, by author 1. */
  ghost function OneArticle(): World {
    World(map["articles" := [map["author_id" := Num(1.0)]]], (_, _) => [], (_, _) => true, (_, rows) => rows)
  }

  lemma {:induction false} AuthorsCompile() returns (level: Level, end: State)
    ensures Built(AUTHORS_WITHOUT_ARTICLES, level, end, [], end.params) && level.inners == []
  {
    var q := AUTHORS_WITHOUT_ARTICLES;
    assert ConditionsFor(q.c.request, ["articles"], ["articles"]) == [];
    assert [] + ["articles"] == ["articles"];
    var nested := Compile(q.c, "articles", Alias(1), [], ["articles"], ["articles"], State(1, []));
    assert nested == Ok((Level([], [], [], []), State(1, [])));
    var one := CompileOne(q.c, "authors", "src", ARTICLES, [], [], State(0, []));
    assert one.Ok? && one.value.1 == State(1, []) && one.value.0.inners == [];
    var select := [ARTICLES];
    assert select[1..] == [];
    var rest := Compile(q.c, "authors", "src", [], [], [], State(1, []));
    assert rest == Ok((Level([], [], [], []), State(1, [])));
    level, end := one.value.0.Then(rest.value.0), State(1, []);
    assert Compile(q.c, "authors", "src", select, [], [], State(0, [])) == Ok((level, end));
    assert [] + end.params == end.params;
  }

  lemma {:induction false} AuthorMatched(row: Row)
    ensures Matched(OneArticle(), AUTHORS_WITHOUT_ARTICLES, ARTICLES, row) <==> Cell(row, "id") == Num(1.0)
  {
    var w, q := OneArticle(), AUTHORS_WITHOUT_ARTICLES;
    var article: Row := map["author_id" := Num(1.0)];
    var plan := q.c.schema.relationships[("authors", "articles")];
    assert w.Rows("articles") == [article] && [article][1..] == [];
    assert KeysMatch(plan.pairs, row, article) <==> Cell(row, "id") == Num(1.0) by {
      assert plan.pairs[0] == ("id", "author_id");
    }
    assert MatchingKeys([article], plan.pairs, row) == if KeysMatch(plan.pairs, row, article) then [article] else [];
    assert [] + ["articles"] == ["articles"];
    assert ConditionsFor(q.c.request, ["articles"], ["articles"]) == [];
    assert Stays(w, q.c, "articles", [], ["articles"], ["articles"], article);
    assert Staying(w, q.c, plan, [article], [], ["articles"], ["articles"]) == [article];
  }

  lemma {:induction false} AuthorSurvives(row: Row)
    ensures Survives(OneArticle(), AUTHORS_WITHOUT_ARTICLES, row) <==> Cell(row, "id") != Num(1.0)
  {
    var w, q := OneArticle(), AUTHORS_WITHOUT_ARTICLES;
    AuthorMatched(row);
    var select := [ARTICLES];
    assert select[1..] == [] && Testable(q.c, "authors", []) == [];
    assert Testable(q.c, "authors", select) == [ARTICLES] + [];
    assert Items(q) == [ARTICLES];
    assert ItemNames(Items(q)) == ["articles"];
    assert q.filters[0] in q.filters;
    assert InnersMet(w, q.c, q.table, q.select, [], [], row);
  }

  /** Its page is wrong: the limit is taken before the null test. */
  lemma {:induction false} NullTestPageWrong() returns (level: Level, end: State)
    ensures Built(AUTHORS_WITHOUT_ARTICLES, level, end, [], end.params)
    ensures !PagesRight(OneArticle(), AUTHORS_WITHOUT_ARTICLES, level, end.params)
  {
    var w, q := OneArticle(), AUTHORS_WITHOUT_ARTICLES;
    level, end := AuthorsCompile();
    PagesExactly(w, q, level, end, [], end.params);
    var wrote: Row, other: Row := map["id" := Num(1.0)], map[];
    AuthorSurvives(wrote);
    AuthorSurvives(other);
    assert !Survives(w, q, wrote) && Survives(w, q, other);
  }
}
