/** The part of the schema one role is shown. */
module RoleView {
  import opened Wrappers

  // ----- What the permission document says -----

  datatype ColumnSet = All | Named(columns: seq<string>) {
    predicate Allows(column: string) { All? || column in columns }
  }

  datatype SelectPermission =
    SelectPermission(columns: ColumnSet, computedFields: seq<string>, allowAggregations: bool)

  datatype InsertPermission = InsertPermission(columns: ColumnSet, backendOnly: bool)

  datatype UpdatePermission = UpdatePermission(columns: ColumnSet)

  datatype DeletePermission = DeletePermission

  datatype RolePermissions = RolePermissions(
    select: Option<SelectPermission>,
    insert: Option<InsertPermission>,
    update: Option<UpdatePermission>,
    delete: Option<DeletePermission>)

  datatype TableNames = TableNames(
    computedFields: map<string, string>,
    relationships: map<string, string>,
    isEnum: bool,
    permissions: map<string, RolePermissions>)

  datatype Qualified = Qualified(schema: string, name: string)

  /** The document, keyed by `schema.table` written out. */
  datatype Names = Names(tables: map<string, TableNames>) {
    function Key(table: Qualified): string { table.schema + "." + table.name }

    function Permissions(table: Qualified, role: string): Option<RolePermissions> {
      if Key(table) in tables && role in tables[Key(table)].permissions
      then Some(tables[Key(table)].permissions[role])
      else None
    }

    /** The name a function's computed field is exposed under. */
    function Exposed(table: Qualified, routine: string): string {
      if Key(table) !in tables then routine
      else if routine in tables[Key(table)].computedFields then tables[Key(table)].computedFields[routine]
      else if routine in tables[Key(table)].relationships then tables[Key(table)].relationships[routine]
      else routine
    }

    /** A key is read back by splitting it at its first dot. */
    predicate IsEnum(table: Qualified) {
      Key(table) in tables && tables[Key(table)].isEnum && '.' !in table.schema
    }
  }

  // ----- The schema cache -----

  datatype Column = Column(dbType: string, nullable: bool)

  datatype Table = Table(
    name: Qualified,
    columns: map<string, Column>,
    computed: map<string, string>,
    insertable: bool,
    updatable: bool,
    deletable: bool)
  {
    predicate Writes() { insertable || updatable || deletable }
  }

  datatype Link = Link(foreignTable: Qualified, constraint: string)

  type Source = (Qualified, string)

  datatype Cache = Cache(tables: map<Qualified, Table>, relationships: map<Source, seq<Link>>)

  /** Who is asking. */
  datatype Caller = Caller(names: Names, role: string, backend: bool) {
    function Grant(table: Table): Option<RolePermissions> { names.Permissions(table.name, role) }
  }

  // ----- The narrowing -----

  predicate Reads(granted: RolePermissions, column: string) {
    granted.select.Some? && granted.select.value.columns.Allows(column)
  }

  predicate Inserts(granted: RolePermissions, backend: bool) {
    granted.insert.Some? && (backend || !granted.insert.value.backendOnly)
  }

  predicate Writable(granted: RolePermissions, insertable: bool, updatable: bool, column: string) {
    || (insertable && granted.insert.Some? && granted.insert.value.columns.Allows(column))
    || (updatable && granted.update.Some? && granted.update.value.columns.Allows(column))
  }

  predicate Computes(names: Names, granted: RolePermissions, table: Qualified, routine: string) {
    granted.select.Some? && names.Exposed(table, routine) in granted.select.value.computedFields
  }

  predicate Counts(granted: RolePermissions) {
    granted.select.Some? && granted.select.value.allowAggregations
  }

  /** Whether a role can read anything of an already narrowed table. */
  predicate ReadsAnything(granted: RolePermissions, table: Table) {
    granted.select.Some? && (table.computed != map[] || exists column <- table.columns :: Reads(granted, column))
  }

  function WithFlags(caller: Caller, granted: RolePermissions, table: Table): Table {
    table.(insertable := table.insertable && Inserts(granted, caller.backend),
           updatable := table.updatable && granted.update.Some?,
           deletable := table.deletable && granted.delete.Some?)
  }

  function WithFields(names: Names, granted: RolePermissions, table: Table): Table {
    table.(columns := map column <- table.columns
                        | Reads(granted, column) || Writable(granted, table.insertable, table.updatable, column)
                        :: table.columns[column],
           computed := map routine <- table.computed
                         | Computes(names, granted, table.name, routine) :: table.computed[routine])
  }

  /** A table as the caller sees it, if it does. */
  function Narrowed(caller: Caller, table: Table): Option<Table> {
    match caller.Grant(table)
    case None => None
    case Some(granted) =>
      var flagged := WithFlags(caller, granted, table);
      if granted.select.None? && !flagged.Writes() then None
      else
        var seen := WithFields(caller.names, granted, flagged);
        if seen.columns != map[] || seen.computed != map[] || seen.Writes() || Counts(granted) then Some(seen) else None
  }

  function NarrowedTables(caller: Caller, tables: map<Qualified, Table>): map<Qualified, Table> {
    map key <- tables | Narrowed(caller, tables[key]).Some? :: Narrowed(caller, tables[key]).value
  }

  predicate Readable(caller: Caller, tables: map<Qualified, Table>, key: Qualified) {
    && key in tables
    && caller.Grant(tables[key]).Some?
    && ReadsAnything(caller.Grant(tables[key]).value, tables[key])
  }

  predicate Reachable(caller: Caller, tables: map<Qualified, Table>, link: Link) {
    Readable(caller, tables, link.foreignTable) || caller.names.IsEnum(link.foreignTable)
  }

  function KeptLinks(caller: Caller, tables: map<Qualified, Table>, links: seq<Link>): seq<Link> {
    if links == [] then []
    else if Reachable(caller, tables, links[0]) then [links[0]] + KeptLinks(caller, tables, links[1..])
    else KeptLinks(caller, tables, links[1..])
  }

  function KeptRelationships(caller: Caller, tables: map<Qualified, Table>, all: map<Source, seq<Link>>)
    : map<Source, seq<Link>>
  {
    map source <- all | source.0 in tables && KeptLinks(caller, tables, all[source]) != []
      :: KeptLinks(caller, tables, all[source])
  }

  function View(caller: Caller, cache: Cache): Cache {
    var tables := NarrowedTables(caller, cache.tables);
    Cache(tables, KeptRelationships(caller, tables, cache.relationships))
  }

  // ----- The narrowing as it is carried out -----

  method RetainTable(caller: Caller, table: Table) returns (keep: bool, narrowed: Table)
    ensures Narrowed(caller, table) == if keep then Some(narrowed) else None
  {
    narrowed := table;
    var found := caller.Grant(table);
    if found.None? { return false, narrowed; }
    var granted := found.value;
    narrowed := narrowed.(insertable := narrowed.insertable && Inserts(granted, caller.backend));
    narrowed := narrowed.(updatable := narrowed.updatable && granted.update.Some?);
    narrowed := narrowed.(deletable := narrowed.deletable && granted.delete.Some?);
    var writes := narrowed.Writes();
    if granted.select.None? && !writes { return false, narrowed; }
    narrowed := WithFields(caller.names, granted, narrowed);
    keep := narrowed.columns != map[] || narrowed.computed != map[] || writes || Counts(granted);
  }

  method RetainTables(caller: Caller, all: map<Qualified, Table>) returns (tables: map<Qualified, Table>)
    ensures tables == NarrowedTables(caller, all)
  {
    tables := all;
    var waiting := all.Keys;
    while waiting != {}
      invariant waiting <= tables.Keys <= all.Keys
      invariant forall key <- waiting :: tables[key] == all[key]
      invariant forall key <- all.Keys - waiting :: key in tables <==> Narrowed(caller, all[key]).Some?
      invariant forall key <- tables.Keys - waiting :: Narrowed(caller, all[key]) == Some(tables[key])
    {
      var key :| key in waiting;
      waiting := waiting - {key};
      var keep, narrowed := RetainTable(caller, tables[key]);
      tables := if keep then tables[key := narrowed] else tables - {key};
    }
  }

  method RetainLinks(caller: Caller, tables: map<Qualified, Table>, links: seq<Link>) returns (kept: seq<Link>)
    ensures kept == KeptLinks(caller, tables, links)
  {
    kept := [];
    for i := 0 to |links|
      invariant kept + KeptLinks(caller, tables, links[i..]) == KeptLinks(caller, tables, links)
    {
      assert links[i..][1..] == links[i + 1..];
      if Reachable(caller, tables, links[i]) { kept := kept + [links[i]]; }
    }
  }

  method RetainRelationships(caller: Caller, tables: map<Qualified, Table>, all: map<Source, seq<Link>>)
    returns (kept: map<Source, seq<Link>>)
    ensures kept == KeptRelationships(caller, tables, all)
  {
    kept := all;
    var waiting := all.Keys;
    while waiting != {}
      invariant waiting <= kept.Keys <= all.Keys
      invariant forall key <- waiting :: kept[key] == all[key]
      invariant forall key <- all.Keys - waiting ::
        key in kept <==> (key.0 in tables && KeptLinks(caller, tables, all[key]) != [])
      invariant forall key <- kept.Keys - waiting :: kept[key] == KeptLinks(caller, tables, all[key])
    {
      var key :| key in waiting;
      waiting := waiting - {key};
      if key.0 !in tables {
        kept := kept - {key};
      } else {
        var links := RetainLinks(caller, tables, kept[key]);
        kept := if links != [] then kept[key := links] else kept - {key};
      }
    }
  }

  method CacheForRole(caller: Caller, cache: Cache) returns (view: Cache)
    ensures view == View(caller, cache)
  {
    var tables := RetainTables(caller, cache.tables);
    var relationships := RetainRelationships(caller, tables, cache.relationships);
    view := Cache(tables, relationships);
  }

  // ----- One cache within another -----

  /** The first sequence is the second with some entries left out. */
  predicate Sub(a: seq<Link>, b: seq<Link>) {
    if a == [] then true
    else if b == [] then false
    else if a[0] == b[0] then Sub(a[1..], b[1..])
    else Sub(a, b[1..])
  }

  predicate TableWithin(a: Table, b: Table) {
    && a.name == b.name
    && a.columns.Items <= b.columns.Items
    && a.computed.Items <= b.computed.Items
    && (a.insertable ==> b.insertable)
    && (a.updatable ==> b.updatable)
    && (a.deletable ==> b.deletable)
  }

  predicate Within(a: Cache, b: Cache) {
    && (forall key <- a.tables :: key in b.tables && TableWithin(a.tables[key], b.tables[key]))
    && (forall key <- a.relationships :: key in b.relationships && Sub(a.relationships[key], b.relationships[key]))
  }

  // ----- What a caller may be shown, said of the cache alone -----

  /** Every flag, column and computed field rests on a grant, and something does. */
  predicate TablePermitted(caller: Caller, table: Table) {
    && caller.Grant(table).Some?
    && var granted := caller.Grant(table).value;
    && (table.insertable ==> Inserts(granted, caller.backend))
    && (table.updatable ==> granted.update.Some?)
    && (table.deletable ==> granted.delete.Some?)
    && (forall column <- table.columns ::
          Reads(granted, column) || Writable(granted, table.insertable, table.updatable, column))
    && (forall routine <- table.computed :: Computes(caller.names, granted, table.name, routine))
    && (table.columns != map[] || table.computed != map[] || table.Writes() || Counts(granted))
  }

  /** Each relationship has its source here, leads somewhere, and leads only to
      tables the caller reads or that are enums. */
  predicate Closed(caller: Caller, cache: Cache) {
    forall key <- cache.relationships ::
      && key.0 in cache.tables
      && cache.relationships[key] != []
      && forall link <- cache.relationships[key] :: Reachable(caller, cache.tables, link)
  }

  predicate Permitted(caller: Caller, cache: Cache) {
    (forall key <- cache.tables :: TablePermitted(caller, cache.tables[key])) && Closed(caller, cache)
  }

  // ----- Sub-sequences -----

  lemma {:induction false} SubLength(a: seq<Link>, b: seq<Link>)
    requires Sub(a, b)
    ensures |a| <= |b|
    ensures |a| == |b| ==> a == b
    decreases |b|
  {
    if a != [] {
      if a[0] == b[0] {
        SubLength(a[1..], b[1..]);
        assert a == [a[0]] + a[1..] && b == [b[0]] + b[1..];
      } else {
        SubLength(a, b[1..]);
      }
    }
  }

  lemma {:induction false} SubRefl(a: seq<Link>)
    ensures Sub(a, a)
  {
    if a != [] { SubRefl(a[1..]); }
  }

  lemma {:induction false} KeptAreReachable(caller: Caller, tables: map<Qualified, Table>, links: seq<Link>)
    ensures forall link <- KeptLinks(caller, tables, links) :: Reachable(caller, tables, link)
  {
    if links != [] { KeptAreReachable(caller, tables, links[1..]); }
  }

  lemma {:induction false} KeptIsSub(caller: Caller, tables: map<Qualified, Table>, links: seq<Link>)
    ensures Sub(KeptLinks(caller, tables, links), links)
  {
    if links != [] {
      KeptIsSub(caller, tables, links[1..]);
      KeptAreReachable(caller, tables, links[1..]);
    }
  }

  lemma {:induction false} SubIsKept(caller: Caller, tables: map<Qualified, Table>, few: seq<Link>, links: seq<Link>)
    requires Sub(few, links)
    requires forall link <- few :: Reachable(caller, tables, link)
    ensures Sub(few, KeptLinks(caller, tables, links))
    decreases |links|
  {
    if few != [] {
      if few[0] == links[0] {
        SubIsKept(caller, tables, few[1..], links[1..]);
      } else {
        SubIsKept(caller, tables, few, links[1..]);
      }
    }
  }

  // ----- The view is permitted -----

  lemma NarrowedIsPermitted(caller: Caller, table: Table)
    requires Narrowed(caller, table).Some?
    ensures TablePermitted(caller, Narrowed(caller, table).value)
    ensures TableWithin(Narrowed(caller, table).value, table)
  {
  }

  lemma {:induction false} ViewIsPermitted(caller: Caller, cache: Cache)
    ensures Within(View(caller, cache), cache)
    ensures Permitted(caller, View(caller, cache))
  {
    var view := View(caller, cache);
    forall key <- view.tables
      ensures TablePermitted(caller, view.tables[key]) && TableWithin(view.tables[key], cache.tables[key])
    {
      NarrowedIsPermitted(caller, cache.tables[key]);
    }
    forall key <- view.relationships
      ensures Sub(view.relationships[key], cache.relationships[key])
      ensures forall link <- view.relationships[key] :: Reachable(caller, view.tables, link)
    {
      KeptIsSub(caller, view.tables, cache.relationships[key]);
      KeptAreReachable(caller, view.tables, cache.relationships[key]);
    }
  }

  // ----- The view is the largest that is -----

  lemma {:induction false} PermittedIsNarrowed(caller: Caller, few: Table, table: Table)
    requires TableWithin(few, table) && TablePermitted(caller, few)
    ensures Narrowed(caller, table).Some?
    ensures TableWithin(few, Narrowed(caller, table).value)
  {
    var granted := caller.Grant(table).value;
    var flagged := WithFlags(caller, granted, table);
    var seen := WithFields(caller.names, granted, flagged);
    FlagsWithin(caller, granted, few, table);
    FieldsWithin(caller, granted, few, flagged);
    SomethingStays(few, seen);
  }

  lemma FlagsWithin(caller: Caller, granted: RolePermissions, few: Table, table: Table)
    requires TableWithin(few, table) && TablePermitted(caller, few) && caller.Grant(few) == Some(granted)
    ensures TableWithin(few, WithFlags(caller, granted, table))
  {
  }

  lemma {:induction false} FieldsWithin(caller: Caller, granted: RolePermissions, few: Table, table: Table)
    requires TableWithin(few, table) && TablePermitted(caller, few) && caller.Grant(few) == Some(granted)
    ensures TableWithin(few, WithFields(caller.names, granted, table))
  {
    var seen := WithFields(caller.names, granted, table);
    forall item <- few.columns.Items ensures item in seen.columns.Items {
      assert item.0 in few.columns;
    }
    forall item <- few.computed.Items ensures item in seen.computed.Items {
      assert item.0 in few.computed;
    }
  }

  lemma {:induction false} SomethingStays(few: Table, table: Table)
    requires TableWithin(few, table)
    ensures few.columns != map[] ==> table.columns != map[]
    ensures few.computed != map[] ==> table.computed != map[]
  {
    if few.columns != map[] {
      var column :| column in few.columns;
      assert (column, few.columns[column]) in few.columns.Items;
    }
    if few.computed != map[] {
      var routine :| routine in few.computed;
      assert (routine, few.computed[routine]) in few.computed.Items;
    }
  }

  lemma {:induction false} ReadableGrows(caller: Caller, few: map<Qualified, Table>, tables: map<Qualified, Table>, key: Qualified)
    requires key in few ==> key in tables && TableWithin(few[key], tables[key])
    requires Readable(caller, few, key)
    ensures Readable(caller, tables, key)
  {
    var granted := caller.Grant(few[key]).value;
    SomethingStays(few[key], tables[key]);
    if few[key].computed == map[] {
      var column :| column in few[key].columns && Reads(granted, column);
      assert (column, few[key].columns[column]) in few[key].columns.Items;
    }
  }

  /** Any permitted cache within the full one is within the view: nothing was
      withheld that the grants allow. */
  lemma {:induction false} ViewIsLargest(caller: Caller, few: Cache, cache: Cache)
    requires Within(few, cache) && Permitted(caller, few)
    ensures Within(few, View(caller, cache))
  {
    var view := View(caller, cache);
    forall key <- few.tables
      ensures key in view.tables && TableWithin(few.tables[key], view.tables[key])
    {
      PermittedIsNarrowed(caller, few.tables[key], cache.tables[key]);
    }
    forall key <- few.relationships
      ensures key in view.relationships && Sub(few.relationships[key], view.relationships[key])
    {
      forall link <- few.relationships[key] ensures Reachable(caller, view.tables, link) {
        if Readable(caller, few.tables, link.foreignTable) {
          ReadableGrows(caller, few.tables, view.tables, link.foreignTable);
        }
      }
      SubIsKept(caller, view.tables, few.relationships[key], cache.relationships[key]);
    }
  }

  // ----- What follows -----

  lemma {:induction false} WithinBoth(a: Cache, b: Cache)
    requires Within(a, b) && Within(b, a)
    ensures a == b
  {
    forall key <- a.tables ensures a.tables[key] == b.tables[key] {
      TablesEqual(a.tables[key], b.tables[key]);
    }
    assert a.tables == b.tables;
    forall key <- a.relationships ensures a.relationships[key] == b.relationships[key] {
      SubLength(a.relationships[key], b.relationships[key]);
      SubLength(b.relationships[key], a.relationships[key]);
    }
    assert a.relationships == b.relationships;
  }

  lemma {:induction false} TablesEqual(a: Table, b: Table)
    requires TableWithin(a, b) && TableWithin(b, a)
    ensures a == b
  {
    ItemsDecide(a.columns, b.columns);
    ItemsDecide(a.computed, b.computed);
  }

  lemma {:induction false} ItemsDecide<K, V>(a: map<K, V>, b: map<K, V>)
    requires a.Items == b.Items
    ensures a == b
  {
    forall key <- a ensures key in b && b[key] == a[key] {
      assert (key, a[key]) in a.Items;
    }
    forall key <- b ensures key in a {
      assert (key, b[key]) in b.Items;
    }
  }

  lemma {:induction false} WithinRefl(a: Cache)
    ensures Within(a, a)
  {
    forall key <- a.relationships ensures Sub(a.relationships[key], a.relationships[key]) {
      SubRefl(a.relationships[key]);
    }
  }

  /** Narrowing a view again changes nothing. */
  lemma {:induction false} ViewIsFixpoint(caller: Caller, cache: Cache)
    ensures View(caller, View(caller, cache)) == View(caller, cache)
  {
    var view := View(caller, cache);
    ViewIsPermitted(caller, cache);
    ViewIsPermitted(caller, view);
    WithinRefl(view);
    ViewIsLargest(caller, view, view);
    WithinBoth(View(caller, view), view);
  }

  // ----- Widening -----

  predicate ColumnsWiden(a: ColumnSet, b: ColumnSet) {
    b.All? || (a.Named? && forall column <- a.columns :: column in b.columns)
  }

  /** Every grant of the first is in the second, and reaches at least as far. */
  predicate GrantWidens(a: RolePermissions, b: RolePermissions) {
    && (a.select.Some? ==>
          && b.select.Some?
          && ColumnsWiden(a.select.value.columns, b.select.value.columns)
          && (forall field <- a.select.value.computedFields :: field in b.select.value.computedFields)
          && (a.select.value.allowAggregations ==> b.select.value.allowAggregations))
    && (a.insert.Some? ==>
          && b.insert.Some?
          && ColumnsWiden(a.insert.value.columns, b.insert.value.columns)
          && (b.insert.value.backendOnly ==> a.insert.value.backendOnly))
    && (a.update.Some? ==> b.update.Some? && ColumnsWiden(a.update.value.columns, b.update.value.columns))
    && (a.delete.Some? ==> b.delete.Some?)
  }

  /** The second caller is granted at least what the first is, under the same
      names, and is a backend caller if the first is. */
  ghost predicate Widens(a: Caller, b: Caller) {
    && (a.backend ==> b.backend)
    && (forall table, routine :: a.names.Exposed(table, routine) == b.names.Exposed(table, routine))
    && (forall table :: a.names.IsEnum(table) ==> b.names.IsEnum(table))
    && (forall table :: a.names.Permissions(table, a.role).Some? ==>
          && b.names.Permissions(table, b.role).Some?
          && GrantWidens(a.names.Permissions(table, a.role).value, b.names.Permissions(table, b.role).value))
  }

  lemma {:induction false} TableStillPermitted(a: Caller, b: Caller, table: Table)
    requires Widens(a, b) && TablePermitted(a, table)
    ensures TablePermitted(b, table)
  {
    var before := a.Grant(table).value;
    var after := b.Grant(table).value;
    assert GrantWidens(before, after);
    forall column <- table.columns
      ensures Reads(after, column) || Writable(after, table.insertable, table.updatable, column)
    {
      assert Reads(before, column) || Writable(before, table.insertable, table.updatable, column);
    }
    forall routine <- table.computed ensures Computes(b.names, after, table.name, routine) {
      assert Computes(a.names, before, table.name, routine);
    }
  }

  lemma {:induction false} StillReachable(a: Caller, b: Caller, tables: map<Qualified, Table>, link: Link)
    requires Widens(a, b) && Reachable(a, tables, link)
    ensures Reachable(b, tables, link)
  {
    if Readable(a, tables, link.foreignTable) {
      var table := tables[link.foreignTable];
      assert GrantWidens(a.Grant(table).value, b.Grant(table).value);
    }
  }

  /** Widening any grant, or asking as a backend caller, takes nothing away. */
  lemma {:induction false} ViewIsMonotone(a: Caller, b: Caller, cache: Cache)
    requires Widens(a, b)
    ensures Within(View(a, cache), View(b, cache))
  {
    var view := View(a, cache);
    ViewIsPermitted(a, cache);
    forall key <- view.tables ensures TablePermitted(b, view.tables[key]) {
      TableStillPermitted(a, b, view.tables[key]);
    }
    forall key <- view.relationships, link <- view.relationships[key] ensures Reachable(b, view.tables, link) {
      StillReachable(a, b, view.tables, link);
    }
    ViewIsLargest(b, view, cache);
  }

  // ----- What is shown, said on the document itself -----

  /** What the document grants a role on a table. */
  predicate Granted(names: Names, table: Qualified, role: string, granted: RolePermissions) {
    var key := table.schema + "." + table.name;
    key in names.tables && role in names.tables[key].permissions && names.tables[key].permissions[role] == granted
  }

  predicate Listed(columns: ColumnSet, column: string) {
    match columns
    case All => true
    case Named(listed) => column in listed
  }

  /** The name a function is exposed under, computed fields before relationships. */
  predicate GoesBy(names: Names, table: Qualified, routine: string, field: string) {
    var key := table.schema + "." + table.name;
    if key in names.tables && routine in names.tables[key].computedFields
    then field == names.tables[key].computedFields[routine]
    else if key in names.tables && routine in names.tables[key].relationships
    then field == names.tables[key].relationships[routine]
    else field == routine
  }

  /** A table of the view: each write it has and was granted, an insert kept for the
      backend only to a backend caller; each column the role selects, or may write by
      a write it still has; each computed field granted by the name it goes by. */
  lemma {:induction false} ViewShows(caller: Caller, cache: Cache, key: Qualified, granted: RolePermissions)
    requires key in View(caller, cache).tables && Granted(caller.names, cache.tables[key].name, caller.role, granted)
    ensures var was, now := cache.tables[key], View(caller, cache).tables[key];
      && now.name == was.name
      && (now.insertable <==>
            was.insertable && granted.insert.Some? && (caller.backend || !granted.insert.value.backendOnly))
      && (now.updatable <==> was.updatable && granted.update.Some?)
      && (now.deletable <==> was.deletable && granted.delete.Some?)
      && (forall column :: column in now.columns <==>
            && column in was.columns
            && (|| (granted.select.Some? && Listed(granted.select.value.columns, column))
                || (now.insertable && Listed(granted.insert.value.columns, column))
                || (now.updatable && Listed(granted.update.value.columns, column))))
      && (forall column <- now.columns :: now.columns[column] == was.columns[column])
  {
  }

  lemma {:induction false} ViewComputes(caller: Caller, cache: Cache, key: Qualified, granted: RolePermissions,
                                        routine: string, field: string)
    requires key in View(caller, cache).tables && Granted(caller.names, cache.tables[key].name, caller.role, granted)
    requires GoesBy(caller.names, cache.tables[key].name, routine, field)
    ensures var was, now := cache.tables[key], View(caller, cache).tables[key];
      && (routine in now.computed <==>
            routine in was.computed && granted.select.Some? && field in granted.select.value.computedFields)
      && (routine in now.computed ==> now.computed[routine] == was.computed[routine])
  {
  }

  /** Whether anything at all of a table is granted that it has. */
  predicate Something(caller: Caller, table: Table, granted: RolePermissions) {
    || (table.insertable && granted.insert.Some? && (caller.backend || !granted.insert.value.backendOnly))
    || (table.updatable && granted.update.Some?)
    || (table.deletable && granted.delete.Some?)
    || (granted.select.Some? && granted.select.value.allowAggregations)
    || (granted.select.Some? && exists column <- table.columns :: Listed(granted.select.value.columns, column))
    || (granted.select.Some? && exists routine <- table.computed, field <- granted.select.value.computedFields ::
          GoesBy(caller.names, table.name, routine, field))
  }

  /** A table is in the view exactly where the role is granted something it has. */
  lemma {:induction false} ViewHolds(caller: Caller, cache: Cache, key: Qualified)
    requires key in cache.tables
    ensures key in View(caller, cache).tables <==>
      exists granted :: Granted(caller.names, cache.tables[key].name, caller.role, granted)
                        && Something(caller, cache.tables[key], granted)
  {
    var table := cache.tables[key];
    if caller.Grant(table).Some? {
      var granted := caller.Grant(table).value;
      assert Granted(caller.names, table.name, caller.role, granted);
      NarrowedHolds(caller, table, granted);
    }
  }

  lemma {:induction false} NarrowedHolds(caller: Caller, table: Table, granted: RolePermissions)
    requires caller.Grant(table) == Some(granted)
    ensures Narrowed(caller, table).Some? <==> Something(caller, table, granted)
  {
    var seen := WithFields(caller.names, granted, WithFlags(caller, granted, table));
    if granted.select.Some? {
      if column :| column in table.columns && Listed(granted.select.value.columns, column) {
        assert column in seen.columns;
      }
      if routine, field :| routine in table.computed && field in granted.select.value.computedFields
                           && GoesBy(caller.names, table.name, routine, field) {
        assert routine in seen.computed;
      }
    }
    if seen.columns != map[] && !seen.Writes() {
      var column :| column in seen.columns;
      assert Listed(granted.select.value.columns, column);
    }
    if seen.computed != map[] {
      var routine :| routine in seen.computed;
      assert GoesBy(caller.names, table.name, routine, caller.names.Exposed(table.name, routine));
    }
  }

  /** A link is kept exactly where its source is in the view and its target is an
      enum, or is in the view with something the role selects. */
  lemma {:induction false} ViewLinks(caller: Caller, cache: Cache, source: Source, link: Link)
    ensures (source in View(caller, cache).relationships && link in View(caller, cache).relationships[source]) <==>
      && source in cache.relationships && link in cache.relationships[source]
      && source.0 in View(caller, cache).tables
      && (Enumeration(caller.names, link.foreignTable) || Selects(caller, View(caller, cache), link.foreignTable))
  {
    var view := View(caller, cache);
    if source in cache.relationships {
      KeptExactly(caller, view.tables, cache.relationships[source], link);
    }
    SelectsIsReadable(caller, view, link.foreignTable);
  }

  predicate Enumeration(names: Names, table: Qualified) {
    var key := table.schema + "." + table.name;
    key in names.tables && names.tables[key].isEnum && '.' !in table.schema
  }

  ghost predicate Selects(caller: Caller, view: Cache, key: Qualified) {
    && key in view.tables
    && exists granted :: Granted(caller.names, view.tables[key].name, caller.role, granted) && granted.select.Some?
         && (|| view.tables[key].computed != map[]
             || exists column <- view.tables[key].columns :: Listed(granted.select.value.columns, column))
  }

  lemma {:induction false} SelectsIsReadable(caller: Caller, view: Cache, key: Qualified)
    ensures Selects(caller, view, key) <==> Readable(caller, view.tables, key)
  {
    if key in view.tables && caller.Grant(view.tables[key]).Some? {
      var granted := caller.Grant(view.tables[key]).value;
      assert Granted(caller.names, view.tables[key].name, caller.role, granted);
      if column :| column in view.tables[key].columns && Reads(granted, column) {
        assert Listed(granted.select.value.columns, column);
      }
    }
  }

  lemma {:induction false} KeptExactly(caller: Caller, tables: map<Qualified, Table>, links: seq<Link>, link: Link)
    ensures link in KeptLinks(caller, tables, links) <==> link in links && Reachable(caller, tables, link)
  {
    if links != [] {
      KeptExactly(caller, tables, links[1..], link);
      assert links == [links[0]] + links[1..];
    }
  }
}
