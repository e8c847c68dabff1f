/** What a permission's filter means row by row, and how the rewritten one is read. */
module PermissionMeaning {
  import opened Wrappers
  import opened Collections
  import opened PermissionFilter

  // ----- Filters as metadata's authors mean them -----

  datatype Filter = Filter(entries: seq<Entry>)

  /** One key of a filter. `legacy` says it is written `$or` rather than `_or`. */
  datatype Entry =
    | And(legacy: bool, branches: seq<Filter>)
    | Or(legacy: bool, branches: seq<Filter>)
    | Not(legacy: bool, inner: Filter)
    | Exists(legacy: bool, table: TableRef, where_: Option<Filter>)
    | Column(name: string, test: Test)
    | Relationship(name: string, inner: Filter)

  datatype TableRef = Bare(name: string) | Named(schema: Option<string>, name: string)

  /** A column is compared with a literal outright, or by named operators. */
  datatype Test = Equals(literal: Doc) | Checks(checks: seq<Op>)

  datatype Op = Op(legacy: bool, name: string, operand: Doc)

  // ----- How they are spelled in JSON -----

  function Spelled(legacy: bool, name: string): string { (if legacy then "$" else "_") + name }

  function Write(f: Filter): Doc
    decreases f, 1
  {
    Obj(seq(|f.entries|, i requires 0 <= i < |f.entries| => WriteEntry(f.entries[i])))
  }

  function WriteAll(fs: seq<Filter>): Doc
    decreases fs, 0
  {
    Arr(seq(|fs|, i requires 0 <= i < |fs| => Write(fs[i])))
  }

  function WriteRef(t: TableRef): Doc {
    match t
    case Bare(name) => Str(name)
    case Named(schema, name) =>
      Obj([Field("name", Str(name))] + if schema.Some? then [Field("schema", Str(schema.value))] else [])
  }

  function WriteChecks(checks: seq<Op>): Doc {
    Obj(seq(|checks|, i requires 0 <= i < |checks| =>
        Field(Spelled(checks[i].legacy, checks[i].name), checks[i].operand)))
  }

  function WriteEntry(e: Entry): Field
    decreases e, 0
  {
    match e
    case And(legacy, branches) => Field(Spelled(legacy, "and"), WriteAll(branches))
    case Or(legacy, branches) => Field(Spelled(legacy, "or"), WriteAll(branches))
    case Not(legacy, inner) => Field(Spelled(legacy, "not"), Write(inner))
    case Exists(legacy, table, where_) =>
      Field(Spelled(legacy, "exists"),
            Obj([Field("_table", WriteRef(table))]
                + if where_.Some? then [Field("_where", Write(where_.value))] else []))
    case Column(name, Equals(literal)) => Field(name, literal)
    case Column(name, Checks(checks)) => Field(name, WriteChecks(checks))
    case Relationship(name, inner) => Field(name, Write(inner))
  }

  // ----- What the database decides -----

  /** The truth of a condition in SQL. */
  datatype Truth = Yes | No | Unknown

  function Of(b: bool): Truth { if b then Yes else No }

  function Both(a: Truth, b: Truth): Truth {
    if a == No || b == No then No else if a == Unknown then Unknown else b
  }

  function Either(a: Truth, b: Truth): Truth {
    if a == Yes || b == Yes then Yes else if a == Unknown then Unknown else b
  }

  function Opposite(t: Truth): (o: Truth)
    ensures (o == Yes <==> t == No) && (o == No <==> t == Yes)
  {
    match t
    case Yes => No
    case No => Yes
    case Unknown => Unknown
  }

  /** True where all are, false where any is, and unknown else. */
  function AllOf(ts: seq<Truth>): (t: Truth)
    ensures t == Yes <==> forall i | 0 <= i < |ts| :: ts[i] == Yes
    ensures t == No <==> exists i | 0 <= i < |ts| :: ts[i] == No
  {
    if ts == [] then Yes
    else
      assert ts == [ts[0]] + ts[1..];
      Both(ts[0], AllOf(ts[1..]))
  }

  /** True where any is, false where all are, and unknown else. */
  function AnyOf(ts: seq<Truth>): (t: Truth)
    ensures t == Yes <==> exists i | 0 <= i < |ts| :: ts[i] == Yes
    ensures t == No <==> forall i | 0 <= i < |ts| :: ts[i] == No
  {
    if ts == [] then No
    else
      assert ts == [ts[0]] + ts[1..];
      Either(ts[0], AnyOf(ts[1..]))
  }

  lemma {:induction false} AllOfSum(a: seq<Truth>, b: seq<Truth>)
    ensures AllOf(a + b) == Both(AllOf(a), AllOf(b))
  {
    if a == [] {
      assert a + b == b;
    } else {
      assert (a + b)[1..] == a[1..] + b;
      AllOfSum(a[1..], b);
    }
  }

  lemma {:induction false} AnyOfSum(a: seq<Truth>, b: seq<Truth>)
    ensures AnyOf(a + b) == Either(AnyOf(a), AnyOf(b))
  {
    if a == [] {
      assert a + b == b;
    } else {
      assert (a + b)[1..] == a[1..] + b;
      AnyOfSum(a[1..], b);
    }
  }

  lemma OneTruth(t: Truth)
    ensures AllOf([t]) == t && AnyOf([t]) == t
  {
    assert [t][1..] == [];
  }

  /** A row of a table, by the database's own column names. */
  type Row = map<string, Doc>

  /** The rows of a table, those a relationship leads to from a row, and how a
      column of a row compares. */
  datatype World = World(
    rows: Table -> seq<Row>,
    related: (Table, string, Row) -> seq<Row>,
    check: (Row, string, string, Doc) -> Truth)

  /** Which exposed names of a table are relationships, and to what. */
  datatype Schema = Schema(relationships: map<(Table, string), Table>)

  // ----- How the `where` language is read -----

  /** The column behind an exposed name: one that is exposed so, or the name. */
  ghost function ColumnBehind(c: Caller, at: Table, name: string): string {
    if column :| (at, column) in c.columns && c.columns[(at, column)] == name then column else name
  }

  /** A column is read back from the name it is exposed under, as long as no other
      column of its table is exposed so. */
  lemma {:induction false} RenameReadsBack(c: Caller, at: Table, column: string, exposed: string)
    requires if (at, column) in c.columns then c.columns[(at, column)] == exposed else exposed == column
    requires forall other | (at, other) in c.columns && other != column :: c.columns[(at, other)] != exposed
    ensures ColumnBehind(c, at, exposed) == column && Expose(c, at, column) == exposed
  {
  }

  datatype Check = Check(operator: string, operand: Doc)

  function ReadChecks(v: Doc): seq<Check> {
    if v.Obj?
    then seq(|v.fields|, i requires 0 <= i < |v.fields| => Check(v.fields[i].key, v.fields[i].value))
    else [Check("_eq", v)]
  }

  function Checked(w: World, row: Row, column: string, checks: seq<Check>): seq<Truth> {
    seq(|checks|, i requires 0 <= i < |checks| => w.check(row, column, checks[i].operator, checks[i].operand))
  }

  /** Conditions joined by `AND`; none at all is no condition. */
  function Joined(ts: seq<Truth>): Option<Truth> { if ts == [] then None else Some(AllOf(ts)) }

  /** A row passes a condition that is true, or that is not there. */
  predicate Admits(t: Option<Truth>) { t.None? || t.value == Yes }

  /** One boolean expression as the SQL it is compiled to reads; nothing where it
      constrains nothing. An expression that is refused lets no row through. */
  ghost function Compiled(w: World, c: Caller, s: Schema, v: Doc, scope: Table, row: Row): Option<Truth>
    decreases v, 1
  {
    if v.Obj? then Joined(Conditions(w, c, s, v.fields, scope, row)) else None
  }

  ghost function Conditions(w: World, c: Caller, s: Schema, fields: seq<Field>, scope: Table, row: Row): seq<Truth>
    decreases fields, 0
  {
    if fields == [] then []
    else Condition(w, c, s, fields[0], scope, row) + Conditions(w, c, s, fields[1..], scope, row)
  }

  /** The members of a list that constrain something. */
  ghost function Parts(w: World, c: Caller, s: Schema, items: seq<Doc>, scope: Table, row: Row): seq<Truth>
    decreases items, 0
  {
    if items == [] then []
    else Present(Compiled(w, c, s, items[0], scope, row)) + Parts(w, c, s, items[1..], scope, row)
  }

  function Present(t: Option<Truth>): seq<Truth> { if t.Some? then [t.value] else [] }

  ghost predicate SomePasses(w: World, c: Caller, s: Schema, v: Doc, scope: Table, rows: seq<Row>)
    decreases v, 2
  {
    exists i | 0 <= i < |rows| :: Admits(Compiled(w, c, s, v, scope, rows[i]))
  }

  ghost function Condition(w: World, c: Caller, s: Schema, f: Field, scope: Table, row: Row): seq<Truth>
    decreases f, 0
  {
    if f.key == "_and" then
      if !f.value.Arr? then [No]
      else
        var parts := Parts(w, c, s, f.value.items, scope, row);
        if parts == [] then [] else [AllOf(parts)]
    else if f.key == "_or" then
      if !f.value.Arr? then [No]
      else [AnyOf(Parts(w, c, s, f.value.items, scope, row))]
    else if f.key == "_not" then
      var inner := Compiled(w, c, s, f.value, scope, row);
      if inner.None? then [] else [Opposite(inner.value)]
    else if f.key == "_permission" then Present(Compiled(w, c, s, f.value, scope, row))
    else if f.key == "_exists" then
      match ExistsTarget(f.value, scope.schema)
      case None => [No]
      case Some(target) =>
        var inner := Get(f.value.fields, "_where");
        if inner.None? then [Of(w.rows(target) != [])]
        else [Of(SomePasses(w, c, s, inner.value, target, w.rows(target)))]
    else if (scope, f.key) in s.relationships then
      [Of(SomePasses(w, c, s, f.value, s.relationships[(scope, f.key)], w.related(scope, f.key, row)))]
    else Checked(w, row, ColumnBehind(c, scope, f.key), ReadChecks(f.value))
  }

  // ----- What a filter means -----

  /** Every variable in a literal stands for its one value. */
  function Plainly(c: Caller, v: Doc): Doc {
    match v
    case Str(text) =>
      var name := SessionVariable(text);
      if name.Some? && name.value in c.session then Str(c.session[name.value]) else v
    case Arr(items) => Arr(seq(|items|, i requires 0 <= i < |items| => Plainly(c, items[i])))
    case Obj(fields) =>
      Obj(seq(|fields|, i requires 0 <= i < |fields| => Field(fields[i].key, Plainly(c, fields[i].value))))
    case _ => v
  }

  /** A variable given outright to a list operator stands for the list it spells. */
  function OperandOf(c: Caller, operator: string, v: Doc): Doc {
    if v.Str? && SessionVariable(v.text).Some? && SessionVariable(v.text).value in c.session && TakesAList(operator)
    then AsList(c.session[SessionVariable(v.text).value])
    else Plainly(c, v)
  }

  function Target(t: TableRef, schema: string): Table {
    match t
    case Bare(name) => Table(schema, name)
    case Named(given, name) => Table(if given.Some? then given.value else schema, name)
  }

  function Meant(c: Caller, test: Test): seq<Check> {
    match test
    case Equals(literal) => [Check("_eq", Plainly(c, literal))]
    case Checks(checks) =>
      seq(|checks|, i requires 0 <= i < |checks| =>
          Check("_" + checks[i].name, OperandOf(c, "_" + checks[i].name, checks[i].operand)))
  }

  /** A filter holds of a row when all its entries do. `home` is the table the
      permission is on, or the one an enclosing `_exists` names, and is whose
      schema an unqualified table is looked up in; `scope` follows relationships
      too, and is whose columns are meant. */
  ghost function Means(w: World, c: Caller, s: Schema, f: Filter, home: Table, scope: Table, row: Row): Truth
    decreases f, 1
  {
    AllOf(EntriesMean(w, c, s, f.entries, home, scope, row))
  }

  ghost function EntriesMean(w: World, c: Caller, s: Schema, es: seq<Entry>, home: Table, scope: Table, row: Row)
    : seq<Truth>
    decreases es, 0
  {
    if es == [] then []
    else [EntryMeans(w, c, s, es[0], home, scope, row)] + EntriesMean(w, c, s, es[1..], home, scope, row)
  }

  ghost function BranchesMean(w: World, c: Caller, s: Schema, fs: seq<Filter>, home: Table, scope: Table, row: Row)
    : seq<Truth>
    decreases fs, 0
  {
    if fs == [] then []
    else [Means(w, c, s, fs[0], home, scope, row)] + BranchesMean(w, c, s, fs[1..], home, scope, row)
  }

  ghost predicate SomeMeant(w: World, c: Caller, s: Schema, f: Filter, home: Table, scope: Table, rows: seq<Row>)
    decreases f, 2
  {
    exists i | 0 <= i < |rows| :: Means(w, c, s, f, home, scope, rows[i]) == Yes
  }

  ghost function EntryMeans(w: World, c: Caller, s: Schema, e: Entry, home: Table, scope: Table, row: Row): Truth
    decreases e, 0
  {
    match e
    case And(_, branches) => AllOf(BranchesMean(w, c, s, branches, home, scope, row))
    case Or(_, branches) => AnyOf(BranchesMean(w, c, s, branches, home, scope, row))
    case Not(_, inner) => Opposite(Means(w, c, s, inner, home, scope, row))
    case Exists(_, table, where_) =>
      var t := Target(table, home.schema);
      Of(if where_.Some? then SomeMeant(w, c, s, where_.value, t, t, w.rows(t)) else w.rows(t) != [])
    case Column(name, test) => AllOf(Checked(w, row, name, Meant(c, test)))
    case Relationship(name, inner) =>
      Of((scope, name) in s.relationships
         && SomeMeant(w, c, s, inner, home, s.relationships[(scope, name)], w.related(scope, name, row)))
  }

  // ----- What the code makes of it -----

  /** The same, with every part that constrains nothing left out of the SQL. */
  ghost function Value(w: World, c: Caller, s: Schema, f: Filter, home: Table, scope: Table, row: Row): Option<Truth>
    decreases f, 1
  {
    Joined(EntryValues(w, c, s, f.entries, home, scope, row))
  }

  ghost function EntryValues(w: World, c: Caller, s: Schema, es: seq<Entry>, home: Table, scope: Table, row: Row)
    : seq<Truth>
    decreases es, 0
  {
    if es == [] then []
    else EntryValue(w, c, s, es[0], home, scope, row) + EntryValues(w, c, s, es[1..], home, scope, row)
  }

  ghost function BranchValues(w: World, c: Caller, s: Schema, fs: seq<Filter>, home: Table, scope: Table, row: Row)
    : seq<Truth>
    decreases fs, 0
  {
    if fs == [] then []
    else Present(Value(w, c, s, fs[0], home, scope, row)) + BranchValues(w, c, s, fs[1..], home, scope, row)
  }

  ghost predicate SomeValued(w: World, c: Caller, s: Schema, f: Filter, home: Table, scope: Table, rows: seq<Row>)
    decreases f, 2
  {
    exists i | 0 <= i < |rows| :: Admits(Value(w, c, s, f, home, scope, rows[i]))
  }

  ghost function EntryValue(w: World, c: Caller, s: Schema, e: Entry, home: Table, scope: Table, row: Row): seq<Truth>
    decreases e, 0
  {
    match e
    case And(_, branches) =>
      var parts := BranchValues(w, c, s, branches, home, scope, row);
      if parts == [] then [] else [AllOf(parts)]
    case Or(_, branches) => [AnyOf(BranchValues(w, c, s, branches, home, scope, row))]
    case Not(_, inner) =>
      var t := Value(w, c, s, inner, home, scope, row);
      if t.None? then [] else [Opposite(t.value)]
    case Exists(_, table, where_) =>
      var t := Target(table, home.schema);
      [Of(if where_.Some? then SomeValued(w, c, s, where_.value, t, t, w.rows(t)) else w.rows(t) != [])]
    case Column(name, test) => Checked(w, row, name, Meant(c, test))
    case Relationship(name, inner) =>
      [Of((scope, name) in s.relationships
          && SomeValued(w, c, s, inner, home, s.relationships[(scope, name)], w.related(scope, name, row)))]
  }

  // ----- The filters of the language -----

  /** The words of the language: no column or relationship can go by one. */
  predicate Reserved(name: string) { Connective(name).Some? || Modern(name) == "_exists" }

  function Keys(fields: seq<Field>): seq<string> {
    seq(|fields|, i requires 0 <= i < |fields| => fields[i].key)
  }

  /** No object repeats a key, which no parsed document does. */
  predicate Proper(v: Doc) {
    match v
    case Arr(items) => forall i | 0 <= i < |items| :: Proper(items[i])
    case Obj(fields) => Distinct(Keys(fields)) && forall i | 0 <= i < |fields| :: Proper(fields[i].value)
    case _ => true
  }

  predicate OperatorName(name: string) {
    name != "" && name != "and" && name != "or" && name != "not" && name != "exists"
  }

  /** Names are not words of the language, relationships are relationships of the
      table whose rows they are asked of, and what is compared outright is not an
      object, which would be operators. */
  predicate WellFormed(s: Schema, f: Filter, home: Table, scope: Table)
    decreases f, 1
  {
    forall i | 0 <= i < |f.entries| :: WellFormedEntry(s, f.entries[i], home, scope)
  }

  predicate WellFormedEntry(s: Schema, e: Entry, home: Table, scope: Table)
    decreases e, 0
  {
    match e
    case And(_, branches) => forall i | 0 <= i < |branches| :: WellFormed(s, branches[i], home, scope)
    case Or(_, branches) => forall i | 0 <= i < |branches| :: WellFormed(s, branches[i], home, scope)
    case Not(_, inner) => WellFormed(s, inner, home, scope)
    case Exists(_, table, where_) =>
      var t := Target(table, home.schema);
      where_.Some? ==> WellFormed(s, where_.value, t, t)
    case Column(name, test) => !Reserved(name) && WellFormedTest(test)
    case Relationship(name, inner) =>
      && !Reserved(name) && (scope, name) in s.relationships
      && WellFormed(s, inner, home, s.relationships[(scope, name)])
  }

  predicate WellFormedTest(test: Test) {
    match test
    case Equals(literal) => !literal.Obj? && Proper(literal)
    case Checks(checks) => forall i | 0 <= i < |checks| :: OperatorName(checks[i].name) && Proper(checks[i].operand)
  }

  // ----- What the rewriter follows -----

  /** A name spelled like an operator is taken for one, and what it holds for that
      operator's operand. */
  function NameMode(name: string): Option<string> {
    if Modern(name) != "" && Modern(name)[0] == '_' then Some(Modern(name)) else None
  }

  /** One field, as an entry of a filter or inside the operand of an operator. */
  function RewriteIn(c: Caller, f: Field, at: Table, mode: Option<string>): Result<Field, Fault> {
    if mode.None? then RewriteField(c, f, at)
    else
      match Rewrite(c, f.value, at, mode)
      case Err(e) => Err(e)
      case Ok(out) => Ok(Field(f.key, out))
  }

  function OutKey(c: Caller, e: Entry, home: Table, mode: Option<string>): string {
    if mode.Some? then WriteEntry(e).key
    else
      match e
      case And(_, _) => "_and"
      case Or(_, _) => "_or"
      case Not(_, _) => "_not"
      case Exists(_, _, _) => "_exists"
      case Column(name, _) => NameKey(c, name, home)
      case Relationship(name, _) => NameKey(c, name, home)
  }

  function NameKey(c: Caller, name: string, home: Table): string {
    if NameMode(name).Some? then NameMode(name).value else Expose(c, home, name)
  }

  /** How what an entry holds is rewritten. */
  function Inside(e: Entry, mode: Option<string>): Option<string> {
    if mode.Some? then mode
    else
      match e
      case Column(name, _) => NameMode(name)
      case Relationship(name, _) => NameMode(name)
      case _ => None
  }

  /** The keys the `where` language keeps for itself. */
  predicate Keyword(key: string) {
    key == "_and" || key == "_or" || key == "_not" || key == "_exists" || key == "_permission"
  }

  /** No variable anywhere inside. */
  predicate NoVariables(v: Doc) {
    match v
    case Str(text) => SessionVariable(text).None?
    case Arr(items) => forall i | 0 <= i < |items| :: NoVariables(items[i])
    case Obj(fields) => forall i | 0 <= i < |fields| :: NoVariables(fields[i].value)
    case _ => true
  }

  /** An operand rewritten for `operator` comes out as meant: a variable given
      outright is one value or a list as its own operator takes it, and no other
      variable is turned into a list. */
  predicate OperandFollowed(operator: string, op: Op) {
    if op.operand.Str? && !NoVariables(op.operand) then TakesAList(operator) == TakesAList("_" + op.name)
    else TakesAList(operator) ==> NoVariables(op.operand)
  }

  /** Nothing inside is taken for part of a filter and changed: no older spelling,
      no rename, no implicit equality, no list made of a variable. */
  predicate Inert(c: Caller, v: Doc, at: Table)
    decreases v, 1
  {
    match v
    case Arr(items) => forall i | 0 <= i < |items| :: Inert(c, items[i], at)
    case Obj(fields) => forall i | 0 <= i < |fields| :: InertField(c, fields[i], at)
    case _ => true
  }

  predicate InertField(c: Caller, f: Field, at: Table)
    decreases f, 0
  {
    if Connective(f.key).Some? then Connective(f.key).value == f.key && Inert(c, f.value, at)
    else if Modern(f.key) == "_exists" then f.key == "_exists" && InertSpec(c, f.value, at)
    else if NameMode(f.key).Some? then Modern(f.key) == f.key && (TakesAList(f.key) ==> NoVariables(f.value))
    else Expose(c, at, f.key) == f.key && f.value.Obj? && Inert(c, f.value, at)
  }

  predicate InertSpec(c: Caller, spec: Doc, at: Table)
    decreases spec, 0
  {
    && spec.Obj? && Keys(spec.fields) == ["_table", "_where"]
    && Plainly(c, spec.fields[0].value) == spec.fields[0].value
    && ExistsTarget(spec, at.schema).Some?
    && Inert(c, spec.fields[1].value, ExistsTarget(spec, at.schema).value)
  }

  function OutKeys(c: Caller, f: Filter, home: Table, mode: Option<string>): seq<string> {
    seq(|f.entries|, i requires 0 <= i < |f.entries| => OutKey(c, f.entries[i], home, mode))
  }

  function CheckKeys(checks: seq<Op>, mode: Option<string>): seq<string> {
    seq(|checks|, i requires 0 <= i < |checks| =>
        Spelled(mode.Some? && checks[i].legacy, checks[i].name))
  }

  /** The key a column of `scope` comes out under leads back to it. */
  ghost predicate Lands(c: Caller, s: Schema, scope: Table, key: string, name: string) {
    !Keyword(key) && (scope, key) !in s.relationships && ColumnBehind(c, scope, key) == name
  }

  predicate TestFollowed(c: Caller, test: Test, mode: Option<string>, home: Table) {
    match test
    case Equals(literal) =>
      if mode.None? then Inert(c, literal, home) else TakesAList(mode.value) ==> NoVariables(literal)
    case Checks(checks) =>
      && Distinct(CheckKeys(checks, mode))
      && forall i | 0 <= i < |checks| :: CheckFollowed(checks[i], mode)
  }

  predicate CheckFollowed(op: Op, mode: Option<string>) {
    if mode.None? then OperandFollowed("_" + op.name, op) else !op.legacy && OperandFollowed(mode.value, op)
  }

  /** No two keys of one object come out the same; a column's key leads back to it
      and a relationship's is its own; what is compared comes out as meant; an
      unqualified `_exists` means one table; and inside what was taken for an
      operator nothing is spelled the older way. */
  ghost predicate Followed(c: Caller, s: Schema, f: Filter, mode: Option<string>, home: Table, scope: Table)
    decreases f, 1
  {
    && Distinct(OutKeys(c, f, home, mode))
    && forall i | 0 <= i < |f.entries| :: FollowedEntry(c, s, f.entries[i], mode, home, scope)
  }

  ghost predicate FollowedEntry(c: Caller, s: Schema, e: Entry, mode: Option<string>, home: Table, scope: Table)
    decreases e, 0
  {
    match e
    case And(legacy, branches) =>
      (mode.Some? ==> !legacy) && forall i | 0 <= i < |branches| :: Followed(c, s, branches[i], mode, home, scope)
    case Or(legacy, branches) =>
      (mode.Some? ==> !legacy) && forall i | 0 <= i < |branches| :: Followed(c, s, branches[i], mode, home, scope)
    case Not(legacy, inner) => (mode.Some? ==> !legacy) && Followed(c, s, inner, mode, home, scope)
    case Exists(legacy, table, where_) =>
      var t := Target(table, home.schema);
      && (mode.Some? ==> !legacy && NoVariables(WriteRef(table)))
      && t == Target(table, scope.schema)
      && (where_.Some? ==> Followed(c, s, where_.value, mode, t, t))
    case Column(name, test) =>
      Lands(c, s, scope, OutKey(c, e, home, mode), name) && TestFollowed(c, test, Inside(e, mode), home)
    case Relationship(name, inner) =>
      && OutKey(c, e, home, mode) == name && !Keyword(name)
      && ((scope, name) in s.relationships ==>
            Followed(c, s, inner, Inside(e, mode), home, s.relationships[(scope, name)]))
  }

  // ----- Collapsing keys -----

  lemma {:induction false} InsertFresh(out: seq<Field>, f: Field)
    ensures f.key !in Keys(out) ==> Insert(out, f) == out + [f]
    ensures f.key in Keys(out) ==> |Insert(out, f)| == |out|
  {
    if out != [] {
      assert out == [out[0]] + out[1..];
      KeysCons(out[0], out[1..]);
      InsertFresh(out[1..], f);
    }
  }

  lemma {:induction false} InsertKey(out: seq<Field>, f: Field, k: string)
    ensures k in Keys(Insert(out, f)) <==> k in Keys(out) || k == f.key
  {
    if out == [] {
      assert Keys([f]) == [f.key];
    } else {
      assert out == [out[0]] + out[1..];
      KeysCons(out[0], out[1..]);
      if out[0].key == f.key {
        KeysCons(f, out[1..]);
      } else {
        InsertKey(out[1..], f, k);
        KeysCons(out[0], Insert(out[1..], f));
      }
    }
  }

  lemma KeysCons(f: Field, rest: seq<Field>)
    ensures Keys([f] + rest) == [f.key] + Keys(rest)
  {
  }

  lemma {:induction false} InsertAllKeys(fields: seq<Field>, k: string)
    ensures k in Keys(InsertAll(fields)) <==> k in Keys(fields)
  {
    if fields != [] {
      var front, last := fields[..|fields| - 1], fields[|fields| - 1];
      InsertAllKeys(front, k);
      InsertKey(InsertAll(front), last, k);
      assert Keys(fields) == Keys(front) + [last.key];
    }
  }

  /** A repeated key loses a field; nothing else does. */
  lemma {:induction false} InsertAllDistinct(fields: seq<Field>)
    ensures |InsertAll(fields)| <= |fields|
    ensures Distinct(Keys(fields)) ==> InsertAll(fields) == fields
    ensures !Distinct(Keys(fields)) ==> |InsertAll(fields)| < |fields|
  {
    if fields != [] {
      var front, last := fields[..|fields| - 1], fields[|fields| - 1];
      InsertAllDistinct(front);
      InsertAllKeys(front, last.key);
      InsertFresh(InsertAll(front), last);
      assert fields == front + [last];
      assert Keys(fields) == Keys(front) + [last.key];
      DistinctSnoc(Keys(front), last.key);
    }
  }

  lemma DistinctSnoc(keys: seq<string>, last: string)
    ensures Distinct(keys + [last]) <==> Distinct(keys) && last !in keys
  {
    var all := keys + [last];
    if Distinct(all) {
      forall i, j | 0 <= i < j < |keys| ensures keys[i] != keys[j] { assert all[i] == keys[i] && all[j] == keys[j]; }
      forall i | 0 <= i < |keys| ensures keys[i] != last { assert all[i] == keys[i] && all[|keys|] == last; }
    }
  }

  // ----- Operands -----

  /** What the rewriter makes of an operand: every variable inside resolved, as a
      list for a list operator. */
  lemma {:induction false} OperandRewritten(c: Caller, v: Doc, at: Table, operator: string, out: Doc)
    requires Proper(v) && Rewrite(c, v, at, Some(operator)) == Ok(out)
    ensures !TakesAList(operator) ==> out == Plainly(c, v)
    ensures NoVariables(v) ==> out == Plainly(c, v)
    ensures TakesAList(operator) && !NoVariables(v) ==> out != Plainly(c, v)
    decreases v
  {
    match v
    case Obj(fields) =>
      var list := RewriteOperands(c, fields, at, Some(operator)).value;
      assert Keys(list) == Keys(fields);
      InsertAllDistinct(list);
      forall i | 0 <= i < |fields|
        ensures !TakesAList(operator) || NoVariables(fields[i].value) ==> list[i].value == Plainly(c, fields[i].value)
        ensures TakesAList(operator) && !NoVariables(fields[i].value) ==> list[i].value != Plainly(c, fields[i].value)
      {
        OperandRewritten(c, fields[i].value, at, operator, list[i].value);
      }
      var plain := Plainly(c, v).fields;
      if !TakesAList(operator) || NoVariables(v) {
        assert list == plain;
      } else {
        var i :| 0 <= i < |fields| && !NoVariables(fields[i].value);
        assert list[i] != plain[i];
      }
    case Arr(items) =>
      var list := RewriteItems(c, items, at, Some(operator)).value;
      forall i | 0 <= i < |items|
        ensures !TakesAList(operator) || NoVariables(items[i]) ==> list[i] == Plainly(c, items[i])
        ensures TakesAList(operator) && !NoVariables(items[i]) ==> list[i] != Plainly(c, items[i])
      {
        OperandRewritten(c, items[i], at, operator, list[i]);
      }
      var plain := Plainly(c, v).items;
      if !TakesAList(operator) || NoVariables(v) {
        assert list == plain;
      } else {
        var i :| 0 <= i < |items| && !NoVariables(items[i]);
        assert list[i] != plain[i];
      }
    case _ =>
  }

  /** An operand rewritten for one operator comes out as meant for its own if and
      only if it is followed. */
  lemma {:induction false} OperandMeans(c: Caller, op: Op, at: Table, operator: string, out: Doc)
    requires Proper(op.operand) && Rewrite(c, op.operand, at, Some(operator)) == Ok(out)
    ensures out == OperandOf(c, "_" + op.name, op.operand) <==> OperandFollowed(operator, op)
  {
    if !op.operand.Str? { OperandRewritten(c, op.operand, at, operator, out); }
  }

  // ----- What is compared outright -----

  /** What the rewriter makes of a value that is not an operand: the value with its
      variables in place if and only if the value is inert. */
  lemma {:induction false} InertExactly(c: Caller, v: Doc, at: Table, out: Doc)
    requires Proper(v) && Rewrite(c, v, at, None) == Ok(out)
    ensures out == Plainly(c, v) <==> Inert(c, v, at)
    decreases v, 1
  {
    match v
    case Arr(items) =>
      var list := RewriteItems(c, items, at, None).value;
      var plain := Plainly(c, v).items;
      forall i | 0 <= i < |items| ensures list[i] == plain[i] <==> Inert(c, items[i], at) {
        InertExactly(c, items[i], at, list[i]);
      }
    case Obj(fields) =>
      var list := RewriteFields(c, fields, at).value;
      var plain := Plainly(c, v).fields;
      forall i | 0 <= i < |fields| ensures list[i] == plain[i] <==> InertField(c, fields[i], at) {
        InertFieldExactly(c, fields[i], at, list[i]);
      }
      InertAll(c, fields, at, list, plain);
    case _ =>
  }

  lemma {:induction false} InertAll(c: Caller, fields: seq<Field>, at: Table, list: seq<Field>, plain: seq<Field>)
    requires |list| == |fields| == |plain| && Distinct(Keys(fields)) && Keys(plain) == Keys(fields)
    requires forall i | 0 <= i < |fields| :: list[i] == plain[i] <==> InertField(c, fields[i], at)
    ensures InsertAll(list) == plain <==> forall i | 0 <= i < |fields| :: InertField(c, fields[i], at)
  {
    InsertAllDistinct(list);
    if forall i | 0 <= i < |fields| :: InertField(c, fields[i], at) {
      assert list == plain;
    }
    if InsertAll(list) == plain {
      assert list == plain;
    }
  }

  lemma {:induction false} InertFieldExactly(c: Caller, f: Field, at: Table, out: Field)
    requires Proper(f.value) && RewriteField(c, f, at) == Ok(out)
    ensures out == Field(f.key, Plainly(c, f.value)) <==> InertField(c, f, at)
    decreases f, 0
  {
    if Connective(f.key).Some? {
      InertExactly(c, f.value, at, out.value);
    } else if Modern(f.key) == "_exists" {
      InertSpecExactly(c, f.value, at, out.value);
    } else if NameMode(f.key).Some? {
      OperandRewritten(c, f.value, at, Modern(f.key), out.value);
    } else {
      InertExactly(c, f.value, at, Rewrite(c, f.value, at, None).value);
      ObjStays(c, f.value, at);
    }
  }

  lemma {:induction false} ObjStays(c: Caller, v: Doc, at: Table)
    requires Rewrite(c, v, at, None).Ok?
    ensures Rewrite(c, v, at, None).value.Obj? <==> v.Obj?
    ensures Plainly(c, v).Obj? <==> v.Obj?
  {
  }

  lemma {:induction false} InertSpecExactly(c: Caller, spec: Doc, at: Table, out: Doc)
    requires Proper(spec) && RewriteExists(c, spec, at) == Ok(out)
    ensures out == Plainly(c, spec) <==> InertSpec(c, spec, at)
    decreases spec, 0
  {
    var target := ExistsTarget(spec, at.schema).value;
    var plain := Plainly(c, spec).fields;
    assert Keys(plain) == Keys(spec.fields);
    if Keys(spec.fields) == ["_table", "_where"] {
      var fields := spec.fields;
      assert |Keys(fields)| == 2 && fields[0].key == Keys(fields)[0] && fields[1].key == Keys(fields)[1];
      assert fields == [Field("_table", fields[0].value)] + [Field("_where", fields[1].value)];
      SpecRead(fields, fields[0].value, Some(fields[1].value));
      var o := Rewrite(c, fields[1].value, target, None).value;
      InertExactly(c, fields[1].value, target, o);
      assert out == Obj([Field("_table", fields[0].value), Field("_where", o)]);
      assert plain == [Field("_table", Plainly(c, fields[0].value)), Field("_where", Plainly(c, fields[1].value))];
    } else {
      assert Keys(out.fields) == ["_table", "_where"];
    }
  }

  // ----- Filters -----

  lemma SpelledKeys(legacy: bool, name: string)
    requires name != ""
    ensures Modern(Spelled(legacy, name)) == "_" + name
    ensures name == "and" || name == "or" || name == "not" ==> Connective(Spelled(legacy, name)) == Some("_" + name)
    ensures name != "and" && name != "or" && name != "not" ==> Connective(Spelled(legacy, name)).None?
  {
    var key := Spelled(legacy, name);
    assert key[0] == (if legacy then '$' else '_') && key[1..] == name;
    assert "$and"[1..] == "and" && "_and"[1..] == "and";
    assert "$or"[1..] == "or" && "_or"[1..] == "or";
    assert "$not"[1..] == "not" && "_not"[1..] == "not";
    assert "$" + "and" == "$and" && "_" + "and" == "_and";
    assert "$" + "or" == "$or" && "_" + "or" == "_or";
    assert "$" + "not" == "$not" && "_" + "not" == "_not";
  }

  /** What a column's value comes out as, for a name that is no operator and for
      one taken for an operator. */
  predicate Came(c: Caller, v: Doc, home: Table, mode: Option<string>, out: Doc) {
    && Rewrite(c, v, home, mode).Ok?
    && out == if mode.None? then Wrapped(Rewrite(c, v, home, mode).value) else Rewrite(c, v, home, mode).value
  }

  /** The fields an object is rewritten to, before they are put together. */
  lemma {:induction false} FieldsRewritten(c: Caller, fields: seq<Field>, at: Table, mode: Option<string>, out: Doc)
    returns (list: seq<Field>)
    requires Rewrite(c, Obj(fields), at, mode) == Ok(out)
    ensures |list| == |fields| && forall i | 0 <= i < |fields| :: RewriteIn(c, fields[i], at, mode) == Ok(list[i])
    ensures out == Obj(InsertAll(list))
  {
    if mode.None? {
      list := RewriteFields(c, fields, at).value;
    } else {
      list := RewriteOperands(c, fields, at, mode).value;
    }
  }

  lemma {:induction false} CheckMeans(c: Caller, op: Op, at: Table, mode: Option<string>, out: Field)
    requires OperatorName(op.name) && Proper(op.operand)
    requires RewriteIn(c, Field(Spelled(op.legacy, op.name), op.operand), at, mode) == Ok(out)
    ensures out.key == Spelled(mode.Some? && op.legacy, op.name)
    ensures Check(out.key, out.value) == Check("_" + op.name, OperandOf(c, "_" + op.name, op.operand))
      <==> CheckFollowed(op, mode)
  {
    SpelledKeys(op.legacy, op.name);
    if mode.None? {
      assert "_exists"[1..] == "exists" && ("_" + op.name)[1..] == op.name;
      OperandMeans(c, op, at, "_" + op.name, out.value);
    } else {
      OperandMeans(c, op, at, mode.value, out.value);
      assert Spelled(op.legacy, op.name)[0] == if op.legacy then '$' else '_';
    }
  }

  lemma {:induction false} ChecksMean(c: Caller, checks: seq<Op>, at: Table, mode: Option<string>, out: Doc)
    requires forall i | 0 <= i < |checks| :: OperatorName(checks[i].name) && Proper(checks[i].operand)
    requires Rewrite(c, WriteChecks(checks), at, mode) == Ok(out)
    ensures out.Obj?
    ensures ReadChecks(out) == Meant(c, Checks(checks))
      <==> Distinct(CheckKeys(checks, mode)) && forall i | 0 <= i < |checks| :: CheckFollowed(checks[i], mode)
  {
    var list := FieldsRewritten(c, WriteChecks(checks).fields, at, mode, out);
    var meant := Meant(c, Checks(checks));
    forall i | 0 <= i < |checks|
      ensures list[i].key == CheckKeys(checks, mode)[i]
      ensures Check(list[i].key, list[i].value) == meant[i] <==> CheckFollowed(checks[i], mode)
    {
      CheckMeans(c, checks[i], at, mode, list[i]);
    }
    assert Keys(list) == CheckKeys(checks, mode);
    InsertAllDistinct(list);
    if Distinct(Keys(list)) {
      ReadChecksAgree(list, checks, mode, meant);
    }
  }

  lemma ReadChecksAgree(list: seq<Field>, checks: seq<Op>, mode: Option<string>, meant: seq<Check>)
    requires |list| == |checks| == |meant|
    requires forall i | 0 <= i < |list| ::
      Check(list[i].key, list[i].value) == meant[i] <==> CheckFollowed(checks[i], mode)
    ensures ReadChecks(Obj(list)) == meant <==> forall i | 0 <= i < |checks| :: CheckFollowed(checks[i], mode)
  {
    var read := ReadChecks(Obj(list));
    forall i | 0 <= i < |list| ensures read[i] == meant[i] <==> CheckFollowed(checks[i], mode) { }
  }

  /** The checks a test comes to are the ones meant if and only if it is followed. */
  lemma {:induction false} TestRewritten(c: Caller, test: Test, name: string, home: Table, mode: Option<string>, out: Doc)
    requires WellFormedTest(test) && Came(c, WriteEntry(Column(name, test)).value, home, mode, out)
    ensures ReadChecks(out) == Meant(c, test) <==> TestFollowed(c, test, mode, home)
  {
    match test
    case Equals(literal) => LiteralRewritten(c, literal, home, mode, out);
    case Checks(checks) => ChecksMean(c, checks, home, mode, Rewrite(c, WriteChecks(checks), home, mode).value);
  }

  lemma {:induction false} LiteralRewritten(c: Caller, literal: Doc, home: Table, mode: Option<string>, out: Doc)
    requires !literal.Obj? && Proper(literal) && Came(c, literal, home, mode, out)
    ensures ReadChecks(out) == [Check("_eq", Rewrite(c, literal, home, mode).value)]
    ensures Rewrite(c, literal, home, mode).value == Plainly(c, literal)
      <==> TestFollowed(c, Equals(literal), mode, home)
  {
    if mode.None? {
      InertExactly(c, literal, home, Rewrite(c, literal, home, mode).value);
    } else {
      OperandRewritten(c, literal, home, mode.value, Rewrite(c, literal, home, mode).value);
    }
  }

  // ----- The rewritten filter is compiled as the filter is valued -----

  /** Compiling the rewritten filter for a row gives the filter's value there, for
      every database and every filter the rewriter follows. */
  lemma {:induction false} FilterCompiled(w: World, c: Caller, s: Schema, f: Filter, mode: Option<string>, home: Table,
                                          scope: Table, row: Row, out: Doc)
    requires WellFormed(s, f, home, scope) && Followed(c, s, f, mode, home, scope)
    requires Rewrite(c, Write(f), home, mode) == Ok(out)
    ensures out.Obj? && Compiled(w, c, s, out, scope, row) == Value(w, c, s, f, home, scope, row)
    decreases f, 1
  {
    var list := FieldsRewritten(c, Write(f).fields, home, mode, out);
    forall i | 0 <= i < |f.entries| ensures list[i].key == OutKey(c, f.entries[i], home, mode) {
      EntryRewritten(c, s, f.entries[i], mode, home, scope, list[i]);
    }
    assert Keys(list) == OutKeys(c, f, home, mode);
    InsertAllDistinct(list);
    EntriesCompiled(w, c, s, f.entries, mode, home, scope, row, list);
  }

  lemma {:induction false} EntriesCompiled(w: World, c: Caller, s: Schema, es: seq<Entry>, mode: Option<string>, home: Table,
                                           scope: Table, row: Row, list: seq<Field>)
    requires |list| == |es|
    requires forall i | 0 <= i < |es| ::
      && WellFormedEntry(s, es[i], home, scope) && FollowedEntry(c, s, es[i], mode, home, scope)
      && RewriteIn(c, WriteEntry(es[i]), home, mode) == Ok(list[i])
    ensures Conditions(w, c, s, list, scope, row) == EntryValues(w, c, s, es, home, scope, row)
    decreases es, 0
  {
    if es != [] {
      EntryCompiled(w, c, s, es[0], mode, home, scope, row, list[0]);
      EntriesCompiled(w, c, s, es[1..], mode, home, scope, row, list[1..]);
    }
  }

  lemma {:induction false} BranchesCompiled(w: World, c: Caller, s: Schema, fs: seq<Filter>, mode: Option<string>,
                                            home: Table, scope: Table, row: Row, items: seq<Doc>)
    requires |items| == |fs|
    requires forall i | 0 <= i < |fs| ::
      && WellFormed(s, fs[i], home, scope) && Followed(c, s, fs[i], mode, home, scope)
      && Rewrite(c, Write(fs[i]), home, mode) == Ok(items[i])
    ensures Parts(w, c, s, items, scope, row) == BranchValues(w, c, s, fs, home, scope, row)
    decreases fs, 0
  {
    if fs != [] {
      FilterCompiled(w, c, s, fs[0], mode, home, scope, row, items[0]);
      BranchesCompiled(w, c, s, fs[1..], mode, home, scope, row, items[1..]);
    }
  }

  lemma {:induction false} RowsCompiled(w: World, c: Caller, s: Schema, f: Filter, mode: Option<string>, home: Table,
                                        scope: Table, rows: seq<Row>, out: Doc)
    requires WellFormed(s, f, home, scope) && Followed(c, s, f, mode, home, scope)
    requires Rewrite(c, Write(f), home, mode) == Ok(out)
    ensures SomePasses(w, c, s, out, scope, rows) == SomeValued(w, c, s, f, home, scope, rows)
    decreases f, 2
  {
    forall i | 0 <= i < |rows|
      ensures Compiled(w, c, s, out, scope, rows[i]) == Value(w, c, s, f, home, scope, rows[i])
    {
      FilterCompiled(w, c, s, f, mode, home, scope, rows[i], out);
    }
  }

  /** The key an entry comes out under, and what its value is rewritten to. */
  lemma {:induction false} EntryRewritten(c: Caller, s: Schema, e: Entry, mode: Option<string>, home: Table, scope: Table,
                                          out: Field)
    requires WellFormedEntry(s, e, home, scope)
    requires RewriteIn(c, WriteEntry(e), home, mode) == Ok(out)
    ensures out.key == OutKey(c, e, home, mode)
    ensures e.And? || e.Or? || e.Not? ==> Rewrite(c, WriteEntry(e).value, home, mode) == Ok(out.value)
    ensures e.Relationship? || e.Column? ==> Came(c, WriteEntry(e).value, home, Inside(e, mode), out.value)
    ensures e.Exists? && mode.None? ==> RewriteExists(c, WriteEntry(e).value, home) == Ok(out.value)
    ensures e.Exists? && mode.Some? ==> Rewrite(c, WriteEntry(e).value, home, mode) == Ok(out.value)
  {
    if mode.None? {
      match e
      case And(legacy, branches) => ConnectiveRewritten(c, legacy, "and", WriteAll(branches), home, out);
      case Or(legacy, branches) => ConnectiveRewritten(c, legacy, "or", WriteAll(branches), home, out);
      case Not(legacy, inner) => ConnectiveRewritten(c, legacy, "not", Write(inner), home, out);
      case Exists(legacy, _, _) => SpecRewritten(c, legacy, WriteEntry(e).value, home, out);
      case Column(name, _) => NameRewritten(c, name, WriteEntry(e).value, home, out);
      case Relationship(name, inner) => NameRewritten(c, name, Write(inner), home, out);
    }
  }

  lemma {:induction false} SpecRewritten(c: Caller, legacy: bool, spec: Doc, home: Table, out: Field)
    requires RewriteField(c, Field(Spelled(legacy, "exists"), spec), home) == Ok(out)
    ensures out.key == "_exists" && RewriteExists(c, spec, home) == Ok(out.value)
  {
    SpelledKeys(legacy, "exists");
    assert "_" + "exists" == "_exists";
  }

  lemma {:induction false} NameRewritten(c: Caller, name: string, v: Doc, home: Table, out: Field)
    requires !Reserved(name) && RewriteField(c, Field(name, v), home) == Ok(out)
    ensures out.key == NameKey(c, name, home) && Came(c, v, home, NameMode(name), out.value)
  {
  }

  lemma {:induction false} ConnectiveRewritten(c: Caller, legacy: bool, name: string, value: Doc, home: Table, out: Field)
    requires name == "and" || name == "or" || name == "not"
    requires RewriteField(c, Field(Spelled(legacy, name), value), home) == Ok(out)
    ensures name == "and" ==> out.key == "_and"
    ensures name == "or" ==> out.key == "_or"
    ensures name == "not" ==> out.key == "_not"
    ensures Rewrite(c, value, home, None) == Ok(out.value)
  {
    SpelledKeys(legacy, name);
  }

  /** An object is not wrapped. */
  lemma {:induction false} ObjectCame(c: Caller, f: Filter, home: Table, mode: Option<string>, out: Doc)
    requires Came(c, Write(f), home, mode, out)
    ensures Rewrite(c, Write(f), home, mode) == Ok(out)
  {
  }

  lemma {:induction false} EntryCompiled(w: World, c: Caller, s: Schema, e: Entry, mode: Option<string>, home: Table,
                                         scope: Table, row: Row, out: Field)
    requires WellFormedEntry(s, e, home, scope) && FollowedEntry(c, s, e, mode, home, scope)
    requires RewriteIn(c, WriteEntry(e), home, mode) == Ok(out)
    ensures Condition(w, c, s, out, scope, row) == EntryValue(w, c, s, e, home, scope, row)
    decreases e, 1
  {
    EntryRewritten(c, s, e, mode, home, scope, out);
    match e
    case And(legacy, branches) =>
      ModernKeys();
      var items := RewriteItems(c, WriteAll(branches).items, home, mode).value;
      BranchesCompiled(w, c, s, branches, mode, home, scope, row, items);
    case Or(legacy, branches) =>
      ModernKeys();
      var items := RewriteItems(c, WriteAll(branches).items, home, mode).value;
      BranchesCompiled(w, c, s, branches, mode, home, scope, row, items);
    case Not(legacy, inner) =>
      ModernKeys();
      FilterCompiled(w, c, s, inner, mode, home, scope, row, out.value);
    case Exists(_, _, _) => ExistsCompiled(w, c, s, e, mode, home, scope, row, out);
    case Column(_, _) => ColumnCompiled(w, c, s, e, mode, home, scope, row, out);
    case Relationship(name, inner) =>
      var target := s.relationships[(scope, name)];
      ObjectCame(c, inner, home, Inside(e, mode), out.value);
      RowsCompiled(w, c, s, inner, Inside(e, mode), home, target, w.related(scope, name, row), out.value);
  }

  lemma ModernKeys()
    ensures Spelled(false, "and") == "_and" && Spelled(false, "or") == "_or"
    ensures Spelled(false, "not") == "_not" && Spelled(false, "exists") == "_exists"
  {
  }

  /** A column's conditions as compiled: on the column its key leads to, the checks
      its value comes to. */
  lemma {:induction false} ColumnRead(w: World, c: Caller, s: Schema, scope: Table, row: Row, out: Field)
    requires !Keyword(out.key) && (scope, out.key) !in s.relationships
    ensures Condition(w, c, s, out, scope, row) == Checked(w, row, ColumnBehind(c, scope, out.key), ReadChecks(out.value))
  {
  }

  lemma {:induction false} ColumnCompiled(w: World, c: Caller, s: Schema, e: Entry, mode: Option<string>, home: Table,
                                          scope: Table, row: Row, out: Field)
    requires e.Column? && WellFormedEntry(s, e, home, scope) && FollowedEntry(c, s, e, mode, home, scope)
    requires RewriteIn(c, WriteEntry(e), home, mode) == Ok(out)
    ensures Condition(w, c, s, out, scope, row) == EntryValue(w, c, s, e, home, scope, row)
    decreases e, 0
  {
    EntryRewritten(c, s, e, mode, home, scope, out);
    ColumnRead(w, c, s, scope, row, out);
    TestRewritten(c, e.test, e.name, home, Inside(e, mode), out.value);
  }

  /** What an `_exists` is rewritten to, and where it then looks. */
  lemma {:induction false} ExistsRewritten(c: Caller, e: Entry, home: Table, schema: string, out: Doc) returns (inner: Doc)
    requires e.Exists? && RewriteExists(c, WriteEntry(e).value, home) == Ok(out)
    ensures out.Obj? && Get(out.fields, "_where") == Some(inner)
    ensures ExistsTarget(out, schema) == Some(Target(e.table, schema))
    ensures e.where_.Some? ==> Rewrite(c, Write(e.where_.value), Target(e.table, home.schema), None) == Ok(inner)
    ensures e.where_.None? ==> inner == Obj([])
  {
    var spec, ref := WriteEntry(e).value, WriteRef(e.table);
    SpecRead(spec.fields, ref, if e.where_.Some? then Some(Write(e.where_.value)) else None);
    TargetRead(spec, e.table, home.schema);
    inner := if e.where_.Some? then Rewrite(c, Write(e.where_.value), Target(e.table, home.schema), None).value else Obj([]);
    assert out == Obj([Field("_table", ref), Field("_where", inner)]);
    SpecRead(out.fields, ref, Some(inner));
    TargetRead(out, e.table, schema);
  }

  /** The same inside an operand, where the table is data too. */
  lemma {:induction false} ExistsKept(c: Caller, e: Entry, home: Table, schema: string, mode: Option<string>, out: Doc)
    returns (inner: Option<Doc>)
    requires e.Exists? && mode.Some? && NoVariables(WriteRef(e.table))
    requires Rewrite(c, WriteEntry(e).value, home, mode) == Ok(out)
    ensures out.Obj? && Get(out.fields, "_where") == inner
    ensures ExistsTarget(out, schema) == Some(Target(e.table, schema))
    ensures e.where_.Some? ==> inner.Some? && Rewrite(c, Write(e.where_.value), home, mode) == Ok(inner.value)
    ensures e.where_.None? ==> inner.None?
  {
    var fields, ref := WriteEntry(e).value.fields, WriteRef(e.table);
    var list := FieldsRewritten(c, fields, home, mode, out);
    assert fields[0] == Field("_table", ref);
    RefProper(e.table);
    OperandRewritten(c, ref, home, mode.value, list[0].value);
    PlainlyNothing(c, ref);
    inner := if e.where_.Some? then Some(list[1].value) else None;
    assert Keys(list) == if e.where_.Some? then ["_table", "_where"] else ["_table"];
    InsertAllDistinct(list);
    assert list == [Field("_table", ref)] + if inner.Some? then [Field("_where", inner.value)] else [];
    SpecRead(out.fields, ref, inner);
    TargetRead(out, e.table, schema);
  }

  lemma {:induction false} RefProper(table: TableRef)
    ensures Proper(WriteRef(table))
  {
    if table.Named? {
      var fields := WriteRef(table).fields;
      assert Keys(fields) == if table.schema.Some? then ["name", "schema"] else ["name"];
      assert forall i | 0 <= i < |fields| :: fields[i].value.Str?;
    }
  }

  lemma {:induction false} PlainlyNothing(c: Caller, v: Doc)
    requires NoVariables(v)
    ensures Plainly(c, v) == v
    decreases v
  {
    match v
    case Arr(items) =>
      forall i | 0 <= i < |items| ensures Plainly(c, items[i]) == items[i] { PlainlyNothing(c, items[i]); }
      assert Plainly(c, v).items == items;
    case Obj(fields) =>
      forall i | 0 <= i < |fields| ensures Plainly(c, fields[i].value) == fields[i].value {
        PlainlyNothing(c, fields[i].value);
      }
      assert Plainly(c, v).fields == fields;
    case _ =>
  }

  lemma {:induction false} ExistsCompiled(w: World, c: Caller, s: Schema, e: Entry, mode: Option<string>, home: Table,
                                          scope: Table, row: Row, out: Field)
    requires e.Exists? && WellFormedEntry(s, e, home, scope) && FollowedEntry(c, s, e, mode, home, scope)
    requires out.key == OutKey(c, e, home, mode)
    requires mode.None? ==> RewriteExists(c, WriteEntry(e).value, home) == Ok(out.value)
    requires mode.Some? ==> Rewrite(c, WriteEntry(e).value, home, mode) == Ok(out.value)
    ensures Condition(w, c, s, out, scope, row) == EntryValue(w, c, s, e, home, scope, row)
    decreases e, 0
  {
    ModernKeys();
    var t := Target(e.table, home.schema);
    if mode.None? {
      var inner := ExistsRewritten(c, e, home, scope.schema, out.value);
      if e.where_.Some? {
        RowsCompiled(w, c, s, e.where_.value, mode, t, t, w.rows(t), inner);
      } else {
        AnyRowPasses(w, c, s, t, w.rows(t));
      }
    } else {
      var inner := ExistsKept(c, e, home, scope.schema, mode, out.value);
      if e.where_.Some? {
        OperandAnywhere(c, Write(e.where_.value), home, t, mode);
        RowsCompiled(w, c, s, e.where_.value, mode, t, t, w.rows(t), inner.value);
      }
    }
  }

  /** An operand is rewritten without regard to the table. */
  lemma {:induction false} OperandAnywhere(c: Caller, v: Doc, a: Table, b: Table, mode: Option<string>)
    requires mode.Some?
    ensures Rewrite(c, v, a, mode) == Rewrite(c, v, b, mode)
    decreases v, 1
  {
    match v
    case Arr(items) => ItemsAnywhere(c, items, a, b, mode);
    case Obj(fields) => FieldsAnywhere(c, fields, a, b, mode);
    case _ =>
  }

  lemma {:induction false} ItemsAnywhere(c: Caller, items: seq<Doc>, a: Table, b: Table, mode: Option<string>)
    requires mode.Some?
    ensures RewriteItems(c, items, a, mode) == RewriteItems(c, items, b, mode)
    decreases items, 0
  {
    if items != [] {
      OperandAnywhere(c, items[0], a, b, mode);
      ItemsAnywhere(c, items[1..], a, b, mode);
    }
  }

  lemma {:induction false} FieldsAnywhere(c: Caller, fields: seq<Field>, a: Table, b: Table, mode: Option<string>)
    requires mode.Some?
    ensures RewriteOperands(c, fields, a, mode) == RewriteOperands(c, fields, b, mode)
    decreases fields, 0
  {
    if fields != [] {
      OperandAnywhere(c, fields[0].value, a, b, mode);
      FieldsAnywhere(c, fields[1..], a, b, mode);
    }
  }

  lemma {:induction false} AnyRowPasses(w: World, c: Caller, s: Schema, scope: Table, rows: seq<Row>)
    ensures SomePasses(w, c, s, Obj([]), scope, rows) <==> rows != []
  {
    if rows != [] { assert Admits(Compiled(w, c, s, Obj([]), scope, rows[0])); }
  }

  lemma {:induction false} SpecRead(fields: seq<Field>, ref: Doc, inner: Option<Doc>)
    requires fields == [Field("_table", ref)] + if inner.Some? then [Field("_where", inner.value)] else []
    ensures Get(fields, "_table") == Some(ref) && Get(fields, "_where") == inner
  {
    assert fields[1..] == if inner.Some? then [Field("_where", inner.value)] else [];
    if inner.Some? { assert fields[1..][0].key == "_where"; }
  }

  lemma {:induction false} TargetRead(spec: Doc, table: TableRef, schema: string)
    requires spec.Obj? && Get(spec.fields, "_table") == Some(WriteRef(table))
    ensures ExistsTarget(spec, schema) == Some(Target(table, schema))
  {
    if table.Named? {
      var q := WriteRef(table).fields;
      assert q[0] == Field("name", Str(table.name));
      assert q[1..] == if table.schema.Some? then [Field("schema", Str(table.schema.value))] else [];
      assert Get(q, "name") == Some(Str(table.name));
      assert Get(q, "schema") == Get(q[1..], "schema");
    }
  }

  // ----- The predicate a permission adds -----

  function PermissionWhere(c: Caller, filter: Doc, table: Table): Result<Option<Doc>, Fault> {
    match Rewrite(c, filter, table, None)
    case Err(e) => Err(e)
    case Ok(out) => if out == Obj([]) || out.Null? then Ok(None) else Ok(Some(out))
  }
}
