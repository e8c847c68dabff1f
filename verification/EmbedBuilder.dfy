/** The compiler as it runs: one mutable context shared by the whole recursion. */
module EmbedBuilder {
  import opened Wrappers
  import opened JsonValues
  import opened Placeholders
  import opened Sql
  import opened EmbedCompiler

  class EmbedFilters {
    const c: Context
    /** What the conditions rendered so far bind, past the main query's own. */
    var params: seq<Json>
    /** The number of the alias last handed out. */
    var aliasCounter: nat

    constructor (c: Context)
      ensures this.c == c && Now() == State(0, [])
    {
      this.c := c;
      params := [];
      aliasCounter := 0;
    }

    function Now(): State
      reads this
    {
      State(aliasCounter, params)
    }

    method NextAlias() returns (alias: string)
      modifies this`aliasCounter
      ensures aliasCounter == old(aliasCounter) + 1
      ensures alias == Alias(aliasCounter)
    {
      aliasCounter := aliasCounter + 1;
      alias := Alias(aliasCounter);
    }

    /** The conditions addressed to one embed, each renumbered past everything
        the statement binds before it. */
    method PredicateFor(path: Path, names: Path, table: string) returns (r: Result<seq<Pred>, Error>)
      modifies this`params
      ensures match Conditions(c, table, ConditionsFor(c.request, path, names), old(params))
        case Ok((preds, after)) => r == Ok(preds) && params == after
        case Err(e) => r == Err(e)
    {
      var asked := ConditionsFor(c.request, path, names);
      var parts: seq<Pred> := [];
      assert asked[0..] == asked;
      AfterNone(Conditions(c, table, asked, params));
      var i := 0;
      while i < |asked|
        invariant 0 <= i <= |asked|
        invariant Conditions(c, table, asked, old(params))
               == After(parts, Conditions(c, table, asked[i..], params))
      {
        var unknown := UnknownColumn(c.schema, table, asked[i].columns);
        if unknown.Some? {
          return Err(ColumnNotFound(table, unknown.value));
        }
        var sql := ShiftPlaceholders(asked[i].sql, c.base + |params|);
        assert asked[i..][1..] == asked[i + 1..];
        AfterOne(parts, Condition(sql), Conditions(c, table, asked[i + 1..], params + asked[i].params));
        parts := parts + [Condition(sql)];
        params := params + asked[i].params;
        i := i + 1;
      }
      assert asked[i..] == [] && parts + [] == parts;
      return Ok(parts);
    }
  }

  function After(parts: seq<Pred>, rest: Result<(seq<Pred>, seq<Json>), Error>): Result<(seq<Pred>, seq<Json>), Error> {
    match rest
    case Ok((preds, params)) => Ok((parts + preds, params))
    case Err(e) => Err(e)
  }

  lemma AfterNone(rest: Result<(seq<Pred>, seq<Json>), Error>)
    ensures After([], rest) == rest
  {
    if rest.Ok? { assert [] + rest.value.0 == rest.value.0; }
  }

  lemma AfterOne(parts: seq<Pred>, p: Pred, rest: Result<(seq<Pred>, seq<Json>), Error>)
    ensures After(parts, After([p], rest)) == After(parts + [p], rest)
  {
    if rest.Ok? { assert parts + ([p] + rest.value.0) == (parts + [p]) + rest.value.0; }
  }

  function Below(level: Level, rest: Result<(Level, State), Error>): Result<(Level, State), Error> {
    match rest
    case Ok((more, st)) => Ok((level.Then(more), st))
    case Err(e) => Err(e)
  }

  lemma BelowNone(rest: Result<(Level, State), Error>)
    ensures Below(Level([], [], [], []), rest) == rest
  {
    if rest.Ok? { assert Level([], [], [], []).Then(rest.value.0) == rest.value.0; }
  }

  lemma BelowTwice(a: Level, b: Level, rest: Result<(Level, State), Error>)
    ensures Below(a, Below(b, rest)) == Below(a.Then(b), rest)
  {
    if rest.Ok? {
      var m := rest.value.0;
      assert a.embeds + (b.embeds + m.embeds) == (a.embeds + b.embeds) + m.embeds;
      assert a.inners + (b.inners + m.inners) == (a.inners + b.inners) + m.inners;
      assert a.filterable + (b.filterable + m.filterable) == (a.filterable + b.filterable) + m.filterable;
      assert a.spreads + (b.spreads + m.spreads) == (a.spreads + b.spreads) + m.spreads;
    }
  }

  /** One relation of a level: alias, conditions, everything nested, then the embed. */
  method BuildEmbed(ctx: EmbedFilters, table: string, parent: string, item: Item, path: Path, names: Path)
    returns (r: Result<Level, Error>)
    requires item.Embeds()
    modifies ctx
    ensures match CompileOne(ctx.c, table, parent, item, path, names, old(ctx.Now()))
      case Ok((level, end)) => r == Ok(level) && ctx.Now() == end
      case Err(e) => r == Err(e)
    decreases item
  {
    if (table, item.relation) !in ctx.c.schema.relationships {
      return Err(RelationshipNotFound(table, item.relation));
    }
    var plan := ctx.c.schema.relationships[(table, item.relation)];
    var alias := ctx.NextAlias();
    var n := ctx.aliasCounter;
    var path', names' := path + [item.Name()], names + [item.relation];
    var own := ctx.PredicateFor(path', names', plan.table);
    if own.Err? { return Err(own.error); }
    var nested := BuildEmbedExpressions(ctx, plan.table, alias, item.select, path', names');
    if nested.Err? { return Err(nested.error); }
    return Ok(Assemble(ctx.c, plan, parent, item, path', names', n, own.value, nested.value));
  }

  /** The recursion over a selection, as a loop that appends to one level. */
  method BuildEmbedExpressions(ctx: EmbedFilters, table: string, parent: string, select: seq<Item>,
                               path: Path, names: Path)
    returns (r: Result<Level, Error>)
    modifies ctx
    ensures match Compile(ctx.c, table, parent, select, path, names, old(ctx.Now()))
      case Ok((level, end)) => r == Ok(level) && ctx.Now() == end
      case Err(e) => r == Err(e)
    decreases select
  {
    var level := Level([], [], [], []);
    assert select[0..] == select;
    BelowNone(Compile(ctx.c, table, parent, select, path, names, ctx.Now()));
    var i := 0;
    while i < |select|
      invariant 0 <= i <= |select|
      invariant Compile(ctx.c, table, parent, select, path, names, old(ctx.Now()))
             == Below(level, Compile(ctx.c, table, parent, select[i..], path, names, ctx.Now()))
    {
      assert select[i..][1..] == select[i + 1..];
      if select[i].Embeds() {
        ghost var before := ctx.Now();
        var one := BuildEmbed(ctx, table, parent, select[i], path, names);
        if one.Err? { return Err(one.error); }
        StepLevel(ctx.c, table, parent, select, i, path, names, before, one.value, ctx.Now());
        BelowTwice(level, one.value, Compile(ctx.c, table, parent, select[i + 1..], path, names, ctx.Now()));
        level := level.Then(one.value);
      }
      i := i + 1;
    }
    assert select[i..] == [];
    assert level.Then(Level([], [], [], [])) == level;
    return Ok(level);
  }

  lemma StepLevel(c: Context, table: string, parent: string, select: seq<Item>, i: nat, path: Path, names: Path,
                  st: State, one: Level, mid: State)
    requires i < |select| && select[i].Embeds()
    requires CompileOne(c, table, parent, select[i], path, names, st) == Ok((one, mid))
    ensures Compile(c, table, parent, select[i..], path, names, st)
            == Below(one, Compile(c, table, parent, select[i + 1..], path, names, mid))
  {
    assert select[i..][1..] == select[i + 1..];
  }
}
