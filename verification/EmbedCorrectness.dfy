/** The compiled subselects mean the nested join. */
module EmbedCorrectness {
  import opened Wrappers
  import opened JsonValues
  import opened Decimal
  import opened Placeholders
  import opened Sql
  import opened EmbedCompiler
  import opened NestedJoin

  // ----- Aliases never capture -----

  /** A parent's alias is the wrapper's, or one handed out before. */
  ghost predicate HandedOut(parent: string, counter: nat) {
    parent == "src" || exists k: nat :: k <= counter && parent == Alias(k)
  }

  lemma {:induction false} AliasesDiffer(m: nat, n: nat)
    ensures Alias(m) == Alias(n) ==> m == n
    ensures Alias(m) != "src" && JunctionAlias(m) != "src"
    ensures JunctionAlias(m) != Alias(n)
  {
    assert Alias(m)[0] == 'e' && "src"[0] == 's';
    assert JunctionAlias(m)[0] == 'e';
    assert Alias(m)[1..] == Show(m) && Alias(n)[1..] == Show(n);
    if Alias(m) == Alias(n) { ShowInjective(m, n); }
    var j := JunctionAlias(m);
    assert j[|j| - 1] == 'j';
    assert Alias(n)[|Alias(n)| - 1] == Show(n)[|Show(n)| - 1];
  }

  lemma Fresh(parent: string, n: nat)
    requires 0 < n && HandedOut(parent, n - 1)
    ensures Alias(n) != parent && JunctionAlias(n) != parent && JunctionAlias(n) != Alias(n)
  {
    AliasesDiffer(n, n);
    if parent != "src" {
      var k: nat :| k <= n - 1 && parent == Alias(k);
      AliasesDiffer(n, k);
    }
  }

  // ----- What the walk leaves in the shared state -----

  lemma {:induction false} ConditionsExtend(c: Context, table: string, asked: seq<Asked>, params: seq<Json>)
    ensures var r := Conditions(c, table, asked, params); r.Ok? ==> params <= r.value.1
  {
    if asked != [] { ConditionsExtend(c, table, asked[1..], params + asked[0].params); }
  }

  /** Aliases are the preorder numbers of the tree, and parameters only grow. */
  lemma {:induction false} CompileState(c: Context, table: string, parent: string, select: seq<Item>,
                                        path: Path, names: Path, st: State)
    ensures var r := Compile(c, table, parent, select, path, names, st);
      r.Ok? ==> && r.value.1.counter == st.counter + RelationCount(select)
                && st.params <= r.value.1.params
    decreases select, 0
  {
    if select == [] {
    } else if select[0].Field? {
      CompileState(c, table, parent, select[1..], path, names, st);
    } else {
      CompileOneState(c, table, parent, select[0], path, names, st);
      var one := CompileOne(c, table, parent, select[0], path, names, st);
      if one.Ok? { CompileState(c, table, parent, select[1..], path, names, one.value.1); }
    }
  }

  lemma {:induction false} CompileOneState(c: Context, table: string, parent: string, item: Item,
                                           path: Path, names: Path, st: State)
    requires item.Embeds()
    ensures var r := CompileOne(c, table, parent, item, path, names, st);
      r.Ok? ==> && r.value.1.counter == st.counter + 1 + RelationCount(item.select)
                && st.params <= r.value.1.params
    decreases item, 0
  {
    if (table, item.relation) in c.schema.relationships {
      var plan := c.schema.relationships[(table, item.relation)];
      var n := st.counter + 1;
      var path', names' := path + [item.Name()], names + [item.relation];
      var asked := ConditionsFor(c.request, path', names');
      ConditionsExtend(c, plan.table, asked, st.params);
      var own := Conditions(c, plan.table, asked, st.params);
      if own.Ok? {
        CompileState(c, plan.table, Alias(n), item.select, path', names', State(n, own.value.1));
      }
    }
  }

  // ----- When compilation fails -----

  ghost predicate ColumnsKnown(schema: Schema, table: string, asked: seq<Asked>) {
    forall i, j | 0 <= i < |asked| && 0 <= j < |asked[i].columns| ::
      table in schema.columns && asked[i].columns[j] in schema.columns[table]
  }

  /** Every relation of the tree exists, and every condition addressed to one
      names columns the related table has. */
  ghost predicate Resolvable(c: Context, table: string, select: seq<Item>, path: Path, names: Path)
    decreases select
  {
    forall i | 0 <= i < |select| && select[i].Embeds() ::
      && (table, select[i].relation) in c.schema.relationships
      && var child := c.schema.relationships[(table, select[i].relation)].table;
         var path', names' := path + [select[i].Name()], names + [select[i].relation];
         && ColumnsKnown(c.schema, child, ConditionsFor(c.request, path', names'))
         && Resolvable(c, child, select[i].select, path', names')
  }

  lemma {:induction false} UnknownColumnFound(schema: Schema, table: string, columns: seq<string>)
    ensures UnknownColumn(schema, table, columns).None?
            <==> forall j | 0 <= j < |columns| :: table in schema.columns && columns[j] in schema.columns[table]
  {
    if columns != [] {
      UnknownColumnFound(schema, table, columns[1..]);
      assert columns == [columns[0]] + columns[1..];
    }
  }

  lemma {:induction false} ConditionsSucceed(c: Context, table: string, asked: seq<Asked>, params: seq<Json>)
    ensures Conditions(c, table, asked, params).Ok? <==> ColumnsKnown(c.schema, table, asked)
  {
    if asked != [] {
      UnknownColumnFound(c.schema, table, asked[0].columns);
      ConditionsSucceed(c, table, asked[1..], params + asked[0].params);
      assert asked == [asked[0]] + asked[1..];
    }
  }

  /** A tree compiles if and only if it resolves. */
  lemma {:induction false} CompileSucceeds(c: Context, table: string, parent: string, select: seq<Item>,
                                           path: Path, names: Path, st: State)
    ensures Compile(c, table, parent, select, path, names, st).Ok? <==> Resolvable(c, table, select, path, names)
    decreases select
  {
    if select != [] {
      ResolvableHead(c, table, select, path, names);
      if select[0].Field? {
        CompileSucceeds(c, table, parent, select[1..], path, names, st);
      } else {
        var item := select[0];
        if (table, item.relation) in c.schema.relationships {
          var child := c.schema.relationships[(table, item.relation)].table;
          var path', names' := path + [item.Name()], names + [item.relation];
          var asked := ConditionsFor(c.request, path', names');
          ConditionsSucceed(c, child, asked, st.params);
          var own := Conditions(c, child, asked, st.params);
          if own.Ok? {
            CompileSucceeds(c, child, Alias(st.counter + 1), item.select, path', names',
                            State(st.counter + 1, own.value.1));
          }
        }
        var one := CompileOne(c, table, parent, item, path, names, st);
        if one.Ok? { CompileSucceeds(c, table, parent, select[1..], path, names, one.value.1); }
      }
    }
  }

  lemma {:induction false} ResolvableHead(c: Context, table: string, select: seq<Item>, path: Path, names: Path)
    requires select != []
    ensures Resolvable(c, table, select, path, names)
            <==> && Resolvable(c, table, [select[0]], path, names)
                 && Resolvable(c, table, select[1..], path, names)
  {
    assert select == [select[0]] + select[1..];
    assert [select[0]][0] == select[0];
  }

  // ----- Conditions -----

  /** Each rendered condition numbers its own values from one, without a gap past the end. */
  predicate WellNumbered(asked: seq<Asked>) {
    forall i | 0 <= i < |asked| :: InRange(Lex(asked[i].sql), |asked[i].params|)
  }

  predicate RequestNumbered(request: Request) {
    WellNumbered(request.filters) && WellNumbered(request.logic)
  }

  /** `final` is what the statement is sent with: the main query's values, then
      at least those bound so far. */
  ghost predicate Sent(c: Context, main: seq<Json>, params: seq<Json>, final: seq<Json>) {
    && |main| == c.base
    && main + params <= final
    && |main| + |params| < USIZE
  }

  lemma SentEarlier(c: Context, main: seq<Json>, params: seq<Json>, more: seq<Json>, final: seq<Json>)
    requires params <= more && Sent(c, main, more, final)
    ensures Sent(c, main, params, final)
  {
    assert main + params <= main + more;
  }

  /** A condition reaches an embed exactly when it is addressed to it, by the
      names the client gave or by the relations' own. */
  lemma {:induction false} AddressedExactly(asked: seq<Asked>, path: Path, names: Path, a: Asked)
    ensures a in Addressed(asked, path, names) <==> a in asked && (a.path == path || a.path == names)
  {
    if asked != [] {
      AddressedExactly(asked[1..], path, names, a);
      assert asked == [asked[0]] + asked[1..];
    }
  }

  lemma {:induction false} AddressedNumbered(asked: seq<Asked>, path: Path, names: Path)
    requires WellNumbered(asked)
    ensures WellNumbered(Addressed(asked, path, names))
  {
    if asked != [] { AddressedNumbered(asked[1..], path, names); }
  }

  lemma {:induction false} ConditionMeans(w: World, c: Context, a: Asked, main: seq<Json>, params: seq<Json>,
                                          final: seq<Json>, env: Env, self: string)
    requires InRange(Lex(a.sql), |a.params|)
    requires Sent(c, main, params + a.params, final)
    ensures Holds(w, Condition(Shift(a.sql, c.base + |params|)), env, self, final)
            == w.accepts(Bind(Lex(a.sql), a.params), RowOf(env, self))
  {
    var before, later := main + params, final[|main + (params + a.params)|..];
    BindShift(a.sql, a.params, before, later);
    assert before + a.params == main + (params + a.params);
    assert final == before + a.params + later;
  }

  lemma {:induction false} ConditionsHead(c: Context, table: string, asked: seq<Asked>, params: seq<Json>)
    returns (first: Pred, rest: seq<Pred>)
    requires asked != [] && Conditions(c, table, asked, params).Ok?
    ensures first == Condition(Shift(asked[0].sql, c.base + |params|))
    ensures var final := Conditions(c, table, asked, params).value.1;
      && Conditions(c, table, asked, params) == Ok(([first] + rest, final))
      && Conditions(c, table, asked[1..], params + asked[0].params) == Ok((rest, final))
      && params + asked[0].params <= final
  {
    ConditionsExtend(c, table, asked[1..], params + asked[0].params);
    first := Condition(Shift(asked[0].sql, c.base + |params|));
    rest := Conditions(c, table, asked[1..], params + asked[0].params).value.0;
  }

  /** The rendered conditions accept a row exactly when the conditions read on
      their own do, at any depth and after any number of earlier ones. */
  lemma {:induction false} ConditionsMean(w: World, c: Context, table: string, asked: seq<Asked>,
                                          params: seq<Json>, preds: seq<Pred>, out: seq<Json>,
                                          main: seq<Json>, final: seq<Json>, env: Env, self: string)
    requires WellNumbered(asked)
    requires Conditions(c, table, asked, params) == Ok((preds, out)) && Sent(c, main, out, final)
    ensures HoldsAll(w, preds, env, self, final) == Accepted(w, asked, RowOf(env, self))
  {
    if asked != [] {
      var first, rest := ConditionsHead(c, table, asked, params);
      SentEarlier(c, main, params + asked[0].params, out, final);
      ConditionMeans(w, c, asked[0], main, params, final, env, self);
      ConditionsMean(w, c, table, asked[1..], params + asked[0].params, rest, out, main, final, env, self);
      HoldsAllAppend(w, [first], rest, env, self, final);
      AcceptedHead(w, asked, RowOf(env, self));
    }
  }

  lemma {:induction false} AcceptedHead(w: World, asked: seq<Asked>, row: Row)
    requires asked != []
    ensures Accepted(w, asked, row)
            == (w.accepts(Bind(Lex(asked[0].sql), asked[0].params), row) && Accepted(w, asked[1..], row))
  {
    assert asked == [asked[0]] + asked[1..];
  }

  lemma {:induction false} HoldsAllAppend(w: World, a: seq<Pred>, b: seq<Pred>, env: Env, self: string, params: seq<Json>)
    ensures HoldsAll(w, a + b, env, self, params)
            == (HoldsAll(w, a, env, self, params) && HoldsAll(w, b, env, self, params))
    ensures |a| == 1 ==> HoldsAll(w, a, env, self, params) == Holds(w, a[0], env, self, params)
  {
    var all := a + b;
    if HoldsAll(w, all, env, self, params) {
      forall i | 0 <= i < |a| ensures Holds(w, a[i], env, self, params) { assert all[i] == a[i]; }
      forall i | 0 <= i < |b| ensures Holds(w, b[i], env, self, params) { assert all[|a| + i] == b[i]; }
    }
  }

  // ----- Correlation -----

  lemma ForeignKeyHolds(w: World, pairs: seq<(string, string)>, parent: string, child: string,
                        env: Env, self: string, params: seq<Json>)
    ensures HoldsAll(w, ForeignKeyOn(pairs, parent, child), env, self, params)
            == KeysMatch(pairs, RowOf(env, parent), RowOf(env, child))
  {
    var ps := ForeignKeyOn(pairs, parent, child);
    forall i | 0 <= i < |pairs|
      ensures Holds(w, ps[i], env, self, params)
              == SqlEq(Cell(RowOf(env, child), pairs[i].1), Cell(RowOf(env, parent), pairs[i].0))
    {
    }
  }

  lemma JunctionHolds(w: World, plan: Plan, parent: string, child: string, junction: string,
                      env: Env, self: string, params: seq<Json>)
    requires plan.ManyToMany?
    ensures HoldsAll(w, JunctionOn(plan, parent, child, junction), env, self, params)
            == Linked(plan, RowOf(env, parent), RowOf(env, junction), RowOf(env, child))
  {
    var a := seq(|plan.childPairs|, i requires 0 <= i < |plan.childPairs| =>
                 KeyEq(junction, plan.childPairs[i].0, child, plan.childPairs[i].1));
    var b := seq(|plan.parentPairs|, i requires 0 <= i < |plan.parentPairs| =>
                 KeyEq(junction, plan.parentPairs[i].1, parent, plan.parentPairs[i].0));
    assert JunctionOn(plan, parent, child, junction) == a + b;
    HoldsAllAppend(w, a, b, env, self, params);
    forall i | 0 <= i < |a|
      ensures Holds(w, a[i], env, self, params)
              == SqlEq(Cell(RowOf(env, junction), plan.childPairs[i].0), Cell(RowOf(env, child), plan.childPairs[i].1))
    {
    }
    forall i | 0 <= i < |b|
      ensures Holds(w, b[i], env, self, params)
              == SqlEq(Cell(RowOf(env, junction), plan.parentPairs[i].1), Cell(RowOf(env, parent), plan.parentPairs[i].0))
    {
    }
  }

  // ----- Children -----

  /** One embed of a successful compilation, opened up. */
  datatype Opened = Opened(
    c: Context, table: string, parent: string, item: Item, plan: Plan, path: Path, names: Path,
    n: nat, own: seq<Pred>, params: seq<Json>, nested: Level, end: State)
  {
    ghost predicate From(path0: Path, names0: Path, st: State) {
      && item.Embeds()
      && (table, item.relation) in c.schema.relationships
      && plan == c.schema.relationships[(table, item.relation)]
      && n == st.counter + 1
      && path == path0 + [item.Name()] && names == names0 + [item.relation]
      && Conditions(c, plan.table, ConditionsFor(c.request, path, names), st.params) == Ok((own, params))
      && Compile(c, plan.table, Alias(n), item.select, path, names, State(n, params)) == Ok((nested, end))
    }

    function On(): seq<Pred> { Correlation(plan, parent, n) + own + nested.inners }

    function Narrowing(): seq<Pred> { own + nested.inners }
  }

  lemma Open(c: Context, table: string, parent: string, item: Item, path: Path, names: Path, st: State)
    returns (o: Opened)
    requires item.Embeds() && CompileOne(c, table, parent, item, path, names, st).Ok?
    ensures o.From(path, names, st) && o.c == c && o.table == table && o.parent == parent && o.item == item
    ensures CompileOne(c, table, parent, item, path, names, st)
            == Ok((Assemble(c, o.plan, parent, item, o.path, o.names, o.n, o.own, o.nested), o.end))
  {
    var plan := c.schema.relationships[(table, item.relation)];
    var n := st.counter + 1;
    var path', names' := path + [item.Name()], names + [item.relation];
    var own := Conditions(c, plan.table, ConditionsFor(c.request, path', names'), st.params).value;
    var nested := Compile(c, plan.table, Alias(n), item.select, path', names', State(n, own.1)).value;
    o := Opened(c, table, parent, item, plan, path', names', n, own.0, own.1, nested.0, nested.1);
  }

  /** In any scope where the child's alias stands for `row`, the folded
      conditions and nested `!inner` predicates hold exactly when it stays. */
  lemma {:induction false} NarrowingMeans(w: World, o: Opened, path: Path, names: Path, st: State,
                                          main: seq<Json>, final: seq<Json>, env: Env, row: Row)
    requires o.From(path, names, st) && RequestNumbered(o.c.request) && Sent(o.c, main, o.end.params, final)
    requires Alias(o.n) in env && env[Alias(o.n)] == row
    ensures HoldsAll(w, o.Narrowing(), env, Alias(o.n), final)
            == Stays(w, o.c, o.plan.table, o.item.select, o.path, o.names, row)
    decreases o.item, 1
  {
    var asked := ConditionsFor(o.c.request, o.path, o.names);
    AddressedNumbered(o.c.request.filters, o.path, o.names);
    AddressedNumbered(o.c.request.logic, o.path, o.names);
    CompileState(o.c, o.plan.table, Alias(o.n), o.item.select, o.path, o.names, State(o.n, o.params));
    SentEarlier(o.c, main, o.params, o.end.params, final);
    ConditionsMean(w, o.c, o.plan.table, asked, st.params, o.own, o.params, main, final, env, Alias(o.n));
    InnersMean(w, o.c, o.plan.table, Alias(o.n), o.item.select, o.path, o.names, State(o.n, o.params),
               o.nested, o.end, main, final, env, row, Alias(o.n));
    HoldsAllAppend(w, o.own, o.nested.inners, env, Alias(o.n), final);
  }

  /** What one child row passes in the scope `env`. */
  lemma {:induction false} OnMeans(w: World, o: Opened, path: Path, names: Path, st: State,
                                   main: seq<Json>, final: seq<Json>, env: Env, row: Row)
    requires o.From(path, names, st) && RequestNumbered(o.c.request) && Sent(o.c, main, o.end.params, final)
    requires Alias(o.n) in env && env[Alias(o.n)] == row
    ensures HoldsAll(w, o.On(), env, Alias(o.n), final)
            == (&& HoldsAll(w, Correlation(o.plan, o.parent, o.n), env, Alias(o.n), final)
                && Stays(w, o.c, o.plan.table, o.item.select, o.path, o.names, row))
    decreases o.item, 2
  {
    NarrowingMeans(w, o, path, names, st, main, final, env, row);
    OnSplits(o);
    HoldsAllAppend(w, Correlation(o.plan, o.parent, o.n), o.Narrowing(), env, Alias(o.n), final);
  }

  lemma OnSplits(o: Opened)
    ensures o.On() == Correlation(o.plan, o.parent, o.n) + o.Narrowing()
  {
    var a, b, c := Correlation(o.plan, o.parent, o.n), o.own, o.nested.inners;
    assert (a + b) + c == a + (b + c);
  }

  lemma {:induction false} KeptByKeys(w: World, o: Opened, path: Path, names: Path, st: State, main: seq<Json>,
                                      final: seq<Json>, env: Env, parentRow: Row, rows: seq<Row>)
    requires o.From(path, names, st) && RequestNumbered(o.c.request) && Sent(o.c, main, o.end.params, final)
    requires o.plan.ForeignKey?
    requires Alias(o.n) != o.parent && o.parent in env && env[o.parent] == parentRow
    ensures Kept(w, rows, Alias(o.n), Alias(o.n), o.On(), env, final)
            == Staying(w, o.c, o.plan, MatchingKeys(rows, o.plan.pairs, parentRow), o.item.select, o.path, o.names)
    decreases o.item, 3, |rows|
  {
    if rows != [] {
      var env' := env[Alias(o.n) := rows[0]];
      OnMeans(w, o, path, names, st, main, final, env', rows[0]);
      ForeignKeyHolds(w, o.plan.pairs, o.parent, Alias(o.n), env', Alias(o.n), final);
      KeptByKeys(w, o, path, names, st, main, final, env, parentRow, rows[1..]);
      StayingHead(w, o, rows[0], KeysMatch(o.plan.pairs, parentRow, rows[0]),
                  MatchingKeys(rows[1..], o.plan.pairs, parentRow));
    }
  }

  lemma {:induction false} StayingHead(w: World, o: Opened, row: Row, taken: bool, rest: seq<Row>)
    requires o.item.Embeds()
    ensures Staying(w, o.c, o.plan, (if taken then [row] else []) + rest, o.item.select, o.path, o.names)
            == (if taken && Stays(w, o.c, o.plan.table, o.item.select, o.path, o.names, row) then [row] else [])
               + Staying(w, o.c, o.plan, rest, o.item.select, o.path, o.names)
  {
    if taken {
      assert ([row] + rest)[1..] == rest;
    } else {
      assert [] + rest == rest;
    }
  }

  lemma {:induction false} KeptByCall(w: World, o: Opened, path: Path, names: Path, st: State, main: seq<Json>,
                                      final: seq<Json>, env: Env, rows: seq<Row>)
    requires o.From(path, names, st) && RequestNumbered(o.c.request) && Sent(o.c, main, o.end.params, final)
    requires o.plan.Computed?
    ensures Kept(w, rows, Alias(o.n), Alias(o.n), o.On(), env, final)
            == Staying(w, o.c, o.plan, rows, o.item.select, o.path, o.names)
    decreases o.item, 3, |rows|
  {
    if rows != [] {
      OnMeans(w, o, path, names, st, main, final, env[Alias(o.n) := rows[0]], rows[0]);
      KeptByCall(w, o, path, names, st, main, final, env, rows[1..]);
    }
  }

  /** The junction rows that carry one child to the parent. */
  lemma {:induction false} KeptLinks(w: World, o: Opened, path: Path, names: Path, st: State, main: seq<Json>,
                                     final: seq<Json>, env: Env, parentRow: Row, row: Row, links: seq<Row>)
    requires o.From(path, names, st) && RequestNumbered(o.c.request) && Sent(o.c, main, o.end.params, final)
    requires o.plan.ManyToMany?
    requires JunctionAlias(o.n) != o.parent && JunctionAlias(o.n) != Alias(o.n)
    requires o.parent in env && env[o.parent] == parentRow
    requires Alias(o.n) in env && env[Alias(o.n)] == row
    ensures Kept(w, links, JunctionAlias(o.n), Alias(o.n), o.On(), env, final)
            == (if Stays(w, o.c, o.plan.table, o.item.select, o.path, o.names, row)
                then LinksTo(o.plan, links, parentRow, row) else [])
    decreases o.item, 3, |links|
  {
    if links != [] {
      var env' := env[JunctionAlias(o.n) := links[0]];
      OnMeans(w, o, path, names, st, main, final, env', row);
      JunctionHolds(w, o.plan, o.parent, Alias(o.n), JunctionAlias(o.n), env', Alias(o.n), final);
      KeptLinks(w, o, path, names, st, main, final, env, parentRow, row, links[1..]);
    }
  }

  lemma {:induction false} StayingCopies(w: World, o: Opened, row: Row, once: seq<Row>, rest: seq<Row>)
    requires o.item.Embeds()
    ensures Staying(w, o.c, o.plan, Copies(row, once) + rest, o.item.select, o.path, o.names)
            == Copies(row, if Stays(w, o.c, o.plan.table, o.item.select, o.path, o.names, row) then once else [])
               + Staying(w, o.c, o.plan, rest, o.item.select, o.path, o.names)
    decreases |once|
  {
    if once == [] {
      assert Copies(row, once) + rest == rest;
    } else {
      StayingCopies(w, o, row, once[1..], rest);
      CopiesHead(row, once, rest);
      StayingHead(w, o, row, true, Copies(row, once[1..]) + rest);
      var stays := Stays(w, o.c, o.plan.table, o.item.select, o.path, o.names, row);
      if stays { CopiesHead(row, once, Staying(w, o.c, o.plan, rest, o.item.select, o.path, o.names)); }
    }
  }

  lemma CopiesHead(row: Row, once: seq<Row>, rest: seq<Row>)
    requires once != []
    ensures Copies(row, once) + rest == [row] + (Copies(row, once[1..]) + rest)
  {
  }

  lemma {:induction false} JoinedMeans(w: World, o: Opened, path: Path, names: Path, st: State, main: seq<Json>,
                                       final: seq<Json>, env: Env, parentRow: Row, rows: seq<Row>, links: seq<Row>)
    requires o.From(path, names, st) && RequestNumbered(o.c.request) && Sent(o.c, main, o.end.params, final)
    requires o.plan.ManyToMany?
    requires Alias(o.n) != o.parent && JunctionAlias(o.n) != o.parent && JunctionAlias(o.n) != Alias(o.n)
    requires o.parent in env && env[o.parent] == parentRow
    ensures Joined(w, rows, links, Alias(o.n), JunctionAlias(o.n), o.On(), env, final)
            == Staying(w, o.c, o.plan, MatchingLinks(o.plan, rows, links, parentRow), o.item.select, o.path, o.names)
    decreases o.item, 4, |rows|
  {
    if rows != [] {
      KeptLinks(w, o, path, names, st, main, final, env[Alias(o.n) := rows[0]], parentRow, rows[0], links);
      JoinedMeans(w, o, path, names, st, main, final, env, parentRow, rows[1..], links);
      StayingCopies(w, o, rows[0], LinksTo(o.plan, links, parentRow, rows[0]),
                    MatchingLinks(o.plan, rows[1..], links, parentRow));
    }
  }

  /** The correlated subselect yields exactly the parent's children. */
  lemma {:induction false} SelectedMeans(w: World, o: Opened, path: Path, names: Path, st: State, main: seq<Json>,
                                         final: seq<Json>, env: Env, parentRow: Row)
    requires o.From(path, names, st) && RequestNumbered(o.c.request) && Sent(o.c, main, o.end.params, final)
    requires HandedOut(o.parent, st.counter) && o.parent in env && env[o.parent] == parentRow
    ensures Selected(w, Source(o.plan, o.parent, o.n), Alias(o.n), o.On(), env, final)
            == Children(w, o.c, o.table, o.item, path, names, parentRow)
    decreases o.item, 5
  {
    Fresh(o.parent, o.n);
    match o.plan
    case ForeignKey(child, pairs, _) =>
      KeptByKeys(w, o, path, names, st, main, final, env, parentRow, w.Rows(child));
    case ManyToMany(child, junction, _, _) =>
      JoinedMeans(w, o, path, names, st, main, final, env, parentRow, w.Rows(child), w.Rows(junction));
    case Computed(_, routine, _) =>
      KeptByCall(w, o, path, names, st, main, final, env, w.call(routine, parentRow));
  }

  /** A level opened into its first embed and what follows it. */
  lemma {:induction false} SplitLevel(c: Context, table: string, parent: string, select: seq<Item>, path: Path,
                                      names: Path, st: State, end: State, main: seq<Json>, final: seq<Json>)
    returns (o: Opened, first: Level, rest: Level)
    requires select != [] && select[0].Embeds()
    requires var r := Compile(c, table, parent, select, path, names, st); r.Ok? && r.value.1 == end
    requires Sent(c, main, end.params, final)
    requires HandedOut(parent, st.counter)
    ensures o.From(path, names, st) && o.c == c && o.table == table && o.parent == parent && o.item == select[0]
    ensures first == Assemble(c, o.plan, parent, o.item, o.path, o.names, o.n, o.own, o.nested)
    ensures Compile(c, table, parent, select, path, names, st) == Ok((first.Then(rest), end))
    ensures Compile(c, table, parent, select[1..], path, names, o.end) == Ok((rest, end))
    ensures Sent(c, main, o.end.params, final) && HandedOut(parent, o.end.counter)
    ensures o.end.counter == st.counter + 1 + RelationCount(select[0].select)
  {
    o := Open(c, table, parent, select[0], path, names, st);
    first := Assemble(c, o.plan, parent, o.item, o.path, o.names, o.n, o.own, o.nested);
    var tail := Compile(c, table, parent, select[1..], path, names, o.end).value;
    rest := tail.0;
    CompileOneState(c, table, parent, select[0], path, names, st);
    CompileState(c, table, parent, select[1..], path, names, o.end);
    SentEarlier(c, main, o.end.params, tail.1.params, final);
  }

  /** A level's `EXISTS` predicates hold exactly when every `!inner` has a child. */
  lemma {:induction false} InnersMean(w: World, c: Context, table: string, parent: string, select: seq<Item>,
                                      path: Path, names: Path, st: State, level: Level, end: State,
                                      main: seq<Json>, final: seq<Json>, env: Env, row: Row, self: string)
    requires RequestNumbered(c.request)
    requires Compile(c, table, parent, select, path, names, st) == Ok((level, end)) && Sent(c, main, end.params, final)
    requires HandedOut(parent, st.counter) && parent in env && env[parent] == row
    ensures HoldsAll(w, level.inners, env, self, final)
            == InnersMet(w, c, table, select, path, names, row)
    decreases select, 0
  {
    if select == [] {
    } else if select[0].Field? {
      InnersMean(w, c, table, parent, select[1..], path, names, st, level, end, main, final, env, row, self);
      InnersHead(w, c, table, select, path, names, row);
    } else {
      var mid, first, rest := TakeInner(w, c, table, parent, select, path, names, st, level, end,
                                        main, final, env, row, self);
      InnersMean(w, c, table, parent, select[1..], path, names, mid, rest, end, main, final, env, row, self);
      HoldsAllAppend(w, first, rest.inners, env, self, final);
      InnersHead(w, c, table, select, path, names, row);
    }
  }

  lemma {:induction false} TakeInner(w: World, c: Context, table: string, parent: string, select: seq<Item>,
                                     path: Path, names: Path, st: State, level: Level, end: State,
                                     main: seq<Json>, final: seq<Json>, env: Env, row: Row, self: string)
    returns (mid: State, first: seq<Pred>, rest: Level)
    requires RequestNumbered(c.request) && select != [] && select[0].Embeds()
    requires Compile(c, table, parent, select, path, names, st) == Ok((level, end)) && Sent(c, main, end.params, final)
    requires HandedOut(parent, st.counter) && parent in env && env[parent] == row
    ensures Compile(c, table, parent, select[1..], path, names, mid) == Ok((rest, end))
    ensures HandedOut(parent, mid.counter)
    ensures level.inners == first + rest.inners
    ensures HoldsAll(w, first, env, self, final)
            == (select[0].inner ==> Children(w, c, table, select[0], path, names, row) != [])
    decreases select[0], 7
  {
    var o, level1, rest1 := SplitLevel(c, table, parent, select, path, names, st, end, main, final);
    FirstInner(w, o, path, names, st, main, final, env, row, self);
    mid, first, rest := o.end, level1.inners, rest1;
  }

  lemma {:induction false} FirstInner(w: World, o: Opened, path: Path, names: Path, st: State, main: seq<Json>,
                                      final: seq<Json>, env: Env, row: Row, self: string)
    requires o.From(path, names, st) && RequestNumbered(o.c.request) && Sent(o.c, main, o.end.params, final)
    requires HandedOut(o.parent, st.counter) && o.parent in env && env[o.parent] == row
    ensures var first := Assemble(o.c, o.plan, o.parent, o.item, o.path, o.names, o.n, o.own, o.nested);
      HoldsAll(w, first.inners, env, self, final)
      == (o.item.inner ==> Children(w, o.c, o.table, o.item, path, names, row) != [])
    decreases o.item, 6
  {
    SelectedMeans(w, o, path, names, st, main, final, env, row);
    var p := Exists(Source(o.plan, o.parent, o.n), Alias(o.n), o.On());
    HoldsAllAppend(w, [p], [], env, self, final);
  }

  lemma {:induction false} InnersHead(w: World, c: Context, table: string, select: seq<Item>, path: Path, names: Path, row: Row)
    requires select != []
    ensures InnersMet(w, c, table, select, path, names, row)
            == (&& (select[0].Embeds() && select[0].inner ==> Children(w, c, table, select[0], path, names, row) != [])
                && InnersMet(w, c, table, select[1..], path, names, row))
  {
    assert select == [select[0]] + select[1..];
  }

  // ----- Existence tests -----

  /** The embeds a null test can name, in order. */
  function Testable(c: Context, table: string, select: seq<Item>): seq<Item> {
    if select == [] then []
    else
      (if select[0].Embeds() && (table, select[0].relation) in c.schema.relationships
          && !(select[0].Spread?
               && SpreadNames(c.schema, c.schema.relationships[(table, select[0].relation)].table, select[0].select) == [])
       then [select[0]] else [])
      + Testable(c, table, select[1..])
  }

  /** Each recorded test goes by its embed's name and asks whether it has a child. */
  ghost predicate TestsMean(w: World, c: Context, table: string, items: seq<Item>, path: Path, names: Path,
                            tests: seq<(string, Pred)>, final: seq<Json>, env: Env, row: Row, self: string) {
    && |tests| == |items|
    && forall k | 0 <= k < |tests| ::
         && items[k].Embeds()
         && tests[k].0 == items[k].Name()
         && (Holds(w, tests[k].1, env, self, final) <==> Children(w, c, table, items[k], path, names, row) != [])
  }

  lemma TestsJoin(w: World, c: Context, table: string, a: seq<Item>, b: seq<Item>, path: Path, names: Path,
                  s: seq<(string, Pred)>, t: seq<(string, Pred)>, final: seq<Json>, env: Env, row: Row, self: string)
    requires TestsMean(w, c, table, a, path, names, s, final, env, row, self)
    requires TestsMean(w, c, table, b, path, names, t, final, env, row, self)
    ensures TestsMean(w, c, table, a + b, path, names, s + t, final, env, row, self)
  {
  }

  lemma {:induction false} FirstTest(w: World, o: Opened, path: Path, names: Path, st: State, main: seq<Json>,
                                     final: seq<Json>, env: Env, row: Row, self: string)
    requires o.From(path, names, st) && RequestNumbered(o.c.request) && Sent(o.c, main, o.end.params, final)
    requires HandedOut(o.parent, st.counter) && o.parent in env && env[o.parent] == row
    ensures var first := Assemble(o.c, o.plan, o.parent, o.item, o.path, o.names, o.n, o.own, o.nested);
      TestsMean(w, o.c, o.table, Testable(o.c, o.table, [o.item]), path, names, first.filterable, final, env, row, self)
  {
    SelectedMeans(w, o, path, names, st, main, final, env, row);
    assert [o.item][1..] == [];
  }

  /** The existence tests a level records for `?relation=is.null` say of a row
      exactly whether that relation has a child that stays. */
  lemma {:induction false} FilterableMeans(w: World, c: Context, table: string, parent: string, select: seq<Item>,
                                           path: Path, names: Path, st: State, level: Level, end: State,
                                           main: seq<Json>, final: seq<Json>, env: Env, row: Row, self: string)
    requires RequestNumbered(c.request)
    requires Compile(c, table, parent, select, path, names, st) == Ok((level, end)) && Sent(c, main, end.params, final)
    requires HandedOut(parent, st.counter) && parent in env && env[parent] == row
    ensures TestsMean(w, c, table, Testable(c, table, select), path, names, level.filterable, final, env, row, self)
    decreases |select|
  {
    if select == [] {
    } else if select[0].Field? {
      FilterableMeans(w, c, table, parent, select[1..], path, names, st, level, end, main, final, env, row, self);
      assert [] + Testable(c, table, select[1..]) == Testable(c, table, select[1..]);
    } else {
      var o, first, rest := SplitLevel(c, table, parent, select, path, names, st, end, main, final);
      FirstTest(w, o, path, names, st, main, final, env, row, self);
      FilterableMeans(w, c, table, parent, select[1..], path, names, o.end, rest, end, main, final, env, row, self);
      TestableHead(c, table, select);
      TestsJoin(w, c, table, Testable(c, table, [select[0]]), Testable(c, table, select[1..]), path, names,
                first.filterable, rest.filterable, final, env, row, self);
    }
  }

  lemma {:induction false} TestableHead(c: Context, table: string, select: seq<Item>)
    requires select != []
    ensures Testable(c, table, select) == Testable(c, table, [select[0]]) + Testable(c, table, select[1..])
  {
    assert [select[0]][1..] == [];
  }

  // ----- Declared spreads -----

  /** A level declares exactly the spreads of its tree, for the flattening that follows. */
  lemma {:induction false} SpreadsMean(c: Context, table: string, parent: string, select: seq<Item>, path: Path, names: Path,
                                       st: State, level: Level, end: State)
    requires Compile(c, table, parent, select, path, names, st) == Ok((level, end))
    ensures level.spreads == SpreadsOf(c, table, select, st.counter)
    decreases select
  {
    if select == [] {
    } else if select[0].Field? {
      SpreadsMean(c, table, parent, select[1..], path, names, st, level, end);
    } else {
      var o := Open(c, table, parent, select[0], path, names, st);
      var first := Assemble(c, o.plan, parent, o.item, o.path, o.names, o.n, o.own, o.nested);
      var rest := Compile(c, table, parent, select[1..], path, names, o.end).value.0;
      CompileOneState(c, table, parent, select[0], path, names, st);
      SpreadsMean(c, o.plan.table, Alias(o.n), select[0].select, o.path, o.names, State(o.n, o.params), o.nested, o.end);
      SpreadsMean(c, table, parent, select[1..], path, names, o.end, rest, end);
      FirstSpreads(c, o.plan, parent, o.item, o.path, o.names, o.n, o.own, o.nested);
      assert level.spreads == first.spreads + rest.spreads;
    }
  }

  lemma {:induction false} FirstSpreads(c: Context, plan: Plan, parent: string, item: Item, path: Path, names: Path, n: nat,
                                        own: seq<Pred>, nested: Level)
    requires item.Embeds()
    ensures Assemble(c, plan, parent, item, path, names, n, own, nested).spreads
      == nested.spreads
         + (if item.Spread? && SpreadNames(c.schema, plan.table, item.select) != []
            then [("pgrst_spread_" + Alias(n), SpreadNames(c.schema, plan.table, item.select))] else [])
  {
    assert nested.spreads + [] == nested.spreads;
  }

  // ----- Embedded values -----

  lemma {:induction false} WithEmbedsAppend(w: World, base: Row, a: seq<Embed>, b: seq<Embed>, env: Env,
                                            params: seq<Json>)
    ensures WithEmbeds(w, base, a + b, env, params)
            == WithEmbeds(w, WithEmbeds(w, base, a, env, params), b, env, params)
    decreases |a|
  {
    if a == [] {
      assert a + b == b;
    } else {
      assert (a + b)[1..] == a[1..] + b;
      WithEmbedsAppend(w, base[a[0].key := EmbedValue(w, a[0], env, params)], a[1..], b, env, params);
    }
  }

  lemma {:induction false} ObjectsMean(w: World, o: Opened, path: Path, names: Path, st: State, main: seq<Json>,
                                       final: seq<Json>, env: Env, e: Embed, rows: seq<Row>)
    requires o.From(path, names, st) && RequestNumbered(o.c.request) && Sent(o.c, main, o.end.params, final)
    requires e.alias == Alias(o.n) && e.nested == o.nested.embeds
    requires e.everything == ProjectsEverything(o.item.select) && e.columns == ColumnsOf(o.item.select)
    ensures Objects(w, e, rows, env, final)
            == NestedObjects(w, o.c, o.plan, o.item.select, o.path, o.names, o.n, rows)
    decreases o.item, 1, |rows|
  {
    if rows != [] {
      EmbedsMean(w, o.c, o.plan.table, Alias(o.n), o.item.select, o.path, o.names, State(o.n, o.params),
                 o.nested, o.end, main, final, env[Alias(o.n) := rows[0]], rows[0], OwnColumns(rows[0], e.everything, e.columns));
      ObjectsMean(w, o, path, names, st, main, final, env, e, rows[1..]);
    }
  }

  lemma {:induction false} ValueMeans(w: World, o: Opened, path: Path, names: Path, st: State, main: seq<Json>,
                                      final: seq<Json>, env: Env, row: Row, e: Embed)
    requires o.From(path, names, st) && RequestNumbered(o.c.request) && Sent(o.c, main, o.end.params, final)
    requires HandedOut(o.parent, st.counter) && o.parent in env && env[o.parent] == row
    requires Assemble(o.c, o.plan, o.parent, o.item, o.path, o.names, o.n, o.own, o.nested).embeds == [e]
    ensures e.key == KeyFor(o.item, o.n)
    ensures EmbedValue(w, e, env, final) == Value(w, o.c, o.table, o.item, path, names, o.n, row)
    decreases o.item, 2
  {
    SelectedMeans(w, o, path, names, st, main, final, env, row);
    var rows := Page(Sorted(w, e.order, Selected(w, e.from, e.alias, e.on, env, final)), e.limit, e.offset);
    ObjectsMean(w, o, path, names, st, main, final, env, e, rows);
  }

  /** Evaluating a level's expressions in the parent's scope gives the parent
      exactly the keys, and the values, of the nested join. */
  lemma {:induction false} EmbedsMean(w: World, c: Context, table: string, parent: string, select: seq<Item>,
                                      path: Path, names: Path, st: State, level: Level, end: State,
                                      main: seq<Json>, final: seq<Json>, env: Env, row: Row, base: Row)
    requires RequestNumbered(c.request)
    requires Compile(c, table, parent, select, path, names, st) == Ok((level, end)) && Sent(c, main, end.params, final)
    requires HandedOut(parent, st.counter) && parent in env && env[parent] == row
    ensures WithEmbeds(w, base, level.embeds, env, final)
            == Nested(w, c, table, select, path, names, st.counter, base, row)
    decreases select, 1
  {
    if select == [] {
    } else if select[0].Field? {
      EmbedsMean(w, c, table, parent, select[1..], path, names, st, level, end, main, final, env, row, base);
      NestedSkip(w, c, table, select, path, names, st.counter, base, row);
    } else {
      EmbedFirst(w, c, table, parent, select, path, names, st, level, end, main, final, env, row, base);
    }
  }

  lemma {:induction false} EmbedFirst(w: World, c: Context, table: string, parent: string, select: seq<Item>,
                                      path: Path, names: Path, st: State, level: Level, end: State,
                                      main: seq<Json>, final: seq<Json>, env: Env, row: Row, base: Row)
    requires RequestNumbered(c.request) && select != [] && select[0].Embeds()
    requires Compile(c, table, parent, select, path, names, st) == Ok((level, end)) && Sent(c, main, end.params, final)
    requires HandedOut(parent, st.counter) && parent in env && env[parent] == row
    ensures WithEmbeds(w, base, level.embeds, env, final)
            == Nested(w, c, table, select, path, names, st.counter, base, row)
    decreases select, 0
  {
    var mid, first, rest, base' := TakeFirst(w, c, table, parent, select, path, names, st, level, end,
                                             main, final, env, row, base);
    EmbedsMean(w, c, table, parent, select[1..], path, names, mid, rest, end, main, final, env, row, base');
    JoinFirst(w, c, table, select, path, names, st.counter, base, row, base', first, rest.embeds, env, final);
  }

  lemma {:induction false} TakeFirst(w: World, c: Context, table: string, parent: string, select: seq<Item>,
                                     path: Path, names: Path, st: State, level: Level, end: State,
                                     main: seq<Json>, final: seq<Json>, env: Env, row: Row, base: Row)
    returns (mid: State, first: seq<Embed>, rest: Level, base': Row)
    requires RequestNumbered(c.request) && select != [] && select[0].Embeds()
    requires Compile(c, table, parent, select, path, names, st) == Ok((level, end)) && Sent(c, main, end.params, final)
    requires HandedOut(parent, st.counter) && parent in env && env[parent] == row
    ensures (table, select[0].relation) in c.schema.relationships
    ensures Compile(c, table, parent, select[1..], path, names, mid) == Ok((rest, end))
    ensures mid.counter == st.counter + 1 + RelationCount(select[0].select) && HandedOut(parent, mid.counter)
    ensures level.embeds == first + rest.embeds
    ensures base' == (if Contributes(c.schema, c.schema.relationships[(table, select[0].relation)], select[0])
                      then base[KeyFor(select[0], st.counter + 1)
                                := Value(w, c, table, select[0], path, names, st.counter + 1, row)]
                      else base)
    ensures WithEmbeds(w, base, first, env, final) == base'
    decreases select[0], 4
  {
    var o, level1, rest1 := SplitLevel(c, table, parent, select, path, names, st, end, main, final);
    base' := FirstMeans(w, o, path, names, st, main, final, env, row, base);
    mid, first, rest := o.end, level1.embeds, rest1;
  }

  lemma {:induction false} NestedSkip(w: World, c: Context, table: string, select: seq<Item>, path: Path,
                                      names: Path, n: nat, base: Row, row: Row)
    requires select != [] && select[0].Field?
    ensures Nested(w, c, table, select, path, names, n, base, row)
            == Nested(w, c, table, select[1..], path, names, n, base, row)
  {
  }

  lemma {:induction false} JoinFirst(w: World, c: Context, table: string, select: seq<Item>, path: Path,
                                     names: Path, n: nat, base: Row, row: Row, base': Row,
                                     first: seq<Embed>, rest: seq<Embed>, env: Env, final: seq<Json>)
    requires select != [] && select[0].Embeds() && (table, select[0].relation) in c.schema.relationships
    requires base' == (if Contributes(c.schema, c.schema.relationships[(table, select[0].relation)], select[0])
                       then base[KeyFor(select[0], n + 1) := Value(w, c, table, select[0], path, names, n + 1, row)]
                       else base)
    requires WithEmbeds(w, base, first, env, final) == base'
    requires WithEmbeds(w, base', rest, env, final)
             == Nested(w, c, table, select[1..], path, names, n + 1 + RelationCount(select[0].select), base', row)
    ensures WithEmbeds(w, base, first + rest, env, final)
            == Nested(w, c, table, select, path, names, n, base, row)
  {
    WithEmbedsAppend(w, base, first, rest, env, final);
  }

  lemma {:induction false} FirstMeans(w: World, o: Opened, path: Path, names: Path, st: State, main: seq<Json>,
                                      final: seq<Json>, env: Env, row: Row, base: Row)
    returns (base': Row)
    requires o.From(path, names, st) && RequestNumbered(o.c.request) && Sent(o.c, main, o.end.params, final)
    requires HandedOut(o.parent, st.counter) && o.parent in env && env[o.parent] == row
    ensures base' == (if Contributes(o.c.schema, o.plan, o.item)
                      then base[KeyFor(o.item, o.n) := Value(w, o.c, o.table, o.item, path, names, o.n, row)]
                      else base)
    ensures var first := Assemble(o.c, o.plan, o.parent, o.item, o.path, o.names, o.n, o.own, o.nested);
      WithEmbeds(w, base, first.embeds, env, final) == base'
    decreases o.item, 3
  {
    var first := Assemble(o.c, o.plan, o.parent, o.item, o.path, o.names, o.n, o.own, o.nested);
    if Contributes(o.c.schema, o.plan, o.item) {
      var e := first.embeds[0];
      assert first.embeds == [e];
      ValueMeans(w, o, path, names, st, main, final, env, row, e);
      base' := base[e.key := EmbedValue(w, e, env, final)];
      assert WithEmbeds(w, base', [], env, final) == base';
      assert [e][1..] == [];
    } else {
      assert first.embeds == [];
      base' := base;
    }
  }

  // ----- The whole request -----

  /** The wrapper `SELECT src.*, ... FROM (inner) AS src WHERE ...`, over the rows
      the inner query yields. */
  ghost function Wrapped(w: World, level: Level, rows: seq<Row>, params: seq<Json>): seq<Row> {
    if rows == [] then []
    else
      var env := map["src" := rows[0]];
      (if HoldsAll(w, level.inners, env, "src", params)
       then [WithEmbeds(w, rows[0], level.embeds, env, params)] else [])
      + Wrapped(w, level, rows[1..], params)
  }

  /** The nested loop: parents whose every `!inner` relation has a child, each
      with its embeds. */
  ghost function NestedLoop(w: World, c: Context, table: string, select: seq<Item>, rows: seq<Row>): seq<Row> {
    if rows == [] then []
    else
      (if InnersMet(w, c, table, select, [], [], rows[0])
       then [Nested(w, c, table, select, [], [], 0, rows[0], rows[0])] else [])
      + NestedLoop(w, c, table, select, rows[1..])
  }

  /** The single query answers what the nested loop does, for every tree, every
      database, and whatever values the main query already bound. */
  lemma {:induction false} QueryMeansNestedLoop(w: World, c: Context, table: string, select: seq<Item>,
                                                main: seq<Json>, rows: seq<Row>)
    requires RequestNumbered(c.request) && |main| == c.base
    requires var r := Compile(c, table, "src", select, [], [], State(0, []));
      r.Ok? && |main| + |r.value.1.params| < USIZE
    ensures var r := Compile(c, table, "src", select, [], [], State(0, [])).value;
      Wrapped(w, r.0, rows, main + r.1.params) == NestedLoop(w, c, table, select, rows)
    decreases |rows|
  {
    if rows != [] {
      var r := Compile(c, table, "src", select, [], [], State(0, [])).value;
      var final, env := main + r.1.params, map["src" := rows[0]];
      InnersMean(w, c, table, "src", select, [], [], State(0, []), r.0, r.1, main, final, env, rows[0], "src");
      EmbedsMean(w, c, table, "src", select, [], [], State(0, []), r.0, r.1, main, final, env, rows[0], rows[0]);
      QueryMeansNestedLoop(w, c, table, select, main, rows[1..]);
    }
  }
}
