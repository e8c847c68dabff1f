/** Rewriting a permission's row filter into the `where` language. */
module PermissionFilter {
  import opened Wrappers
  import opened Text

  /** A JSON document with its keys in order: which of two keys that rewrite to
      the same name wins depends on it. */
  datatype Doc =
    | Null
    | Bool(truth: bool)
    | Num(number: real)
    | Str(text: string)
    | Arr(items: seq<Doc>)
    | Obj(fields: seq<Field>)

  datatype Field = Field(key: string, value: Doc)

  datatype Table = Table(schema: string, name: string)

  /** The caller's session, and the names columns are exposed under. */
  datatype Caller = Caller(session: map<string, string>, columns: map<(Table, string), string>)

  datatype Fault =
    | MissingSessionVariable(name: string)
    | ExistsTakesATable
    | ExistsNeedsATable

  // ----- Session variables -----

  function SessionVariable(text: string): Option<string> {
    match StripPrefix(AsciiLower(text), "x-hasura-")
    case None => None
    case Some(bare) => if bare == "" then None else Some(ReplaceChar(bare, '-', '_'))
  }

  /** A text names a session variable: `x-hasura-` in any case, and then the name,
      in any case and with dashes for underscores. */
  predicate Names(text: string, name: string) {
    && name != "" && |text| == |"x-hasura-"| + |name|
    && (forall i | 0 <= i < |"x-hasura-"| :: Lowers(text[i], "x-hasura-"[i]))
    && (forall i | 0 <= i < |name| ::
          var c := text[|"x-hasura-"| + i];
          if c == '-' then name[i] == '_' else Lowers(c, name[i]))
  }

  /** A text is a variable exactly where it names one, and then that one. */
  lemma {:induction false} VariableExactly(text: string, name: string)
    ensures SessionVariable(text) == Some(name) <==> Names(text, name)
  {
    var lower, prefix := AsciiLower(text), "x-hasura-";
    if Names(text, name) { NamesBegin(text, name); }
    if prefix <= lower {
      assert forall i | 0 <= i < |prefix| :: lower[i] == prefix[i];
      var bare := lower[|prefix|..];
      assert forall i | 0 <= i < |bare| :: bare[i] == lower[|prefix| + i];
      VariableNamed(text, bare, name);
    }
  }

  lemma {:induction false} NamesBegin(text: string, name: string)
    requires Names(text, name)
    ensures "x-hasura-" <= AsciiLower(text)
  {
    var lower, prefix := AsciiLower(text), "x-hasura-";
    forall i | 0 <= i < |prefix| ensures lower[i] == prefix[i] {
      assert Lowers(text[i], lower[i]) && Lowers(text[i], prefix[i]);
    }
    assert lower[..|prefix|] == prefix;
  }

  lemma {:induction false} VariableNamed(text: string, bare: string, name: string)
    requires |text| == |"x-hasura-"| + |bare|
    requires forall i | 0 <= i < |"x-hasura-"| :: Lowers(text[i], "x-hasura-"[i])
    requires forall i | 0 <= i < |bare| :: Lowers(text[|"x-hasura-"| + i], bare[i])
    ensures (bare != "" && ReplaceChar(bare, '-', '_') == name) <==> Names(text, name)
  {
    var out := ReplaceChar(bare, '-', '_');
    forall i | 0 <= i < |bare|
      ensures var c := text[|"x-hasura-"| + i]; if c == '-' then out[i] == '_' else Lowers(c, out[i])
    {
      assert Lowers(text[|"x-hasura-"| + i], bare[i]);
    }
    if Names(text, name) {
      forall i | 0 <= i < |bare| ensures out[i] == name[i] {
        var c := text[|"x-hasura-"| + i];
        assert if c == '-' then name[i] == '_' else Lowers(c, name[i]);
      }
      assert out == name;
    }
  }

  function ListItem(text: string): Doc { Str(TrimMatches(Trim(text), '"')) }

  function ListItems(items: seq<string>): seq<Doc> {
    seq(|items|, i requires 0 <= i < |items| => ListItem(items[i]))
  }

  /** A list arrives as a PostgreSQL array literal; unbraced is one item. */
  function AsList(value: string): Doc {
    if |value| >= 2 && value[0] == '{' && value[|value| - 1] == '}' then
      var inner := value[1..|value| - 1];
      if inner == "" then Arr([]) else Arr(ListItems(Split(inner, ',')))
    else Arr([Str(value)])
  }

  /** A list as a caller writes it in one header. */
  function Braced(items: seq<string>): string {
    "{" + (if items == [] then "" else Join(items, ',')) + "}"
  }

  function Texts(items: seq<string>): seq<Doc> {
    seq(|items|, i requires 0 <= i < |items| => Str(items[i]))
  }

  predicate ReadsAlone(item: string) { ',' !in item && TrimMatches(Trim(item), '"') == item }

  /** A list reads back as written if and only if each item has no comma, no
      outer white space and no outer quote -- and it is not one empty item. */
  lemma {:induction false} ListReadsBack(items: seq<string>)
    ensures AsList(Braced(items)) == Arr(Texts(items)) <==> (items != [""] && forall item <- items :: ReadsAlone(item))
  {
    var inner := if items == [] then "" else Join(items, ',');
    BracedInside(inner);
    if items != [] {
      SplitJoin(items, ',');
      if inner != "" {
        ItemsReadBack(items, Split(inner, ','));
      } else {
        JoinNothing(items, ',');
      }
    }
  }

  lemma {:induction false} BracedInside(inner: string)
    ensures AsList("{" + inner + "}") == if inner == "" then Arr([]) else Arr(ListItems(Split(inner, ',')))
  {
    var value := "{" + inner + "}";
    assert |value| >= 2 && value[0] == '{' && value[|value| - 1] == '}';
    assert value[1..|value| - 1] == inner;
    assert AsList(value) == if inner == "" then Arr([]) else Arr(ListItems(Split(inner, ',')));
  }

  lemma {:induction false} ItemsReadBack(items: seq<string>, parts: seq<string>)
    requires (forall item <- items :: ',' !in item) ==> parts == items
    requires |parts| == |items| ==> forall item <- items :: ',' !in item
    ensures ListItems(parts) == Texts(items) <==> forall item <- items :: ReadsAlone(item)
  {
    if ListItems(parts) == Texts(items) {
      forall i | 0 <= i < |items| ensures ReadsAlone(items[i]) {
        assert |ListItems(parts)| == |Texts(items)| && ListItems(parts)[i] == Texts(items)[i];
        assert items[i] in items;
      }
    }
    if forall item <- items :: ReadsAlone(item) {
      forall i | 0 <= i < |items| ensures ListItem(items[i]) == Str(items[i]) {
        assert ReadsAlone(items[i]);
      }
      assert ListItems(items) == Texts(items);
    }
  }

  lemma {:induction false} JoinNothing(items: seq<string>, separator: char)
    requires items != [] && Join(items, separator) == ""
    ensures items == [""]
  {
    if |items| == 1 {
      assert items == [items[0]];
    }
  }

  function Resolve(c: Caller, name: string, asList: bool): Result<Doc, Fault> {
    if name !in c.session then Err(MissingSessionVariable(name))
    else if asList then Ok(AsList(c.session[name]))
    else Ok(Str(c.session[name]))
  }

  // ----- The rewriter -----

  function Connective(key: string): Option<string> {
    if key == "$and" || key == "_and" then Some("_and")
    else if key == "$or" || key == "_or" then Some("_or")
    else if key == "$not" || key == "_not" then Some("_not")
    else None
  }

  predicate TakesAList(operator: string) {
    operator == "_in" || operator == "_nin" || operator == "_has_keys_any" || operator == "_has_keys_all"
  }

  /** `$in` is an older spelling of `_in`; a lone `$` is not an operator. */
  function Modern(key: string): string {
    if |key| > 1 && key[0] == '$' then "_" + key[1..] else key
  }

  function Get(fields: seq<Field>, key: string): (r: Option<Doc>)
    ensures r.Some? ==> exists i | 0 <= i < |fields| :: fields[i].value == r.value
  {
    if fields == [] then None
    else if fields[0].key == key then Some(fields[0].value)
    else
      var r := Get(fields[1..], key);
      assert r.Some? ==> exists i | 0 <= i < |fields[1..]| :: fields[1..][i].value == r.value;
      r
  }

  /** Where `_exists` looks; an unqualified name is read in `schema`. */
  function ExistsTarget(spec: Doc, schema: string): Option<Table> {
    if !spec.Obj? then None
    else
      match Get(spec.fields, "_table")
      case Some(Str(name)) => Some(Table(schema, name))
      case Some(Obj(qualified)) =>
        (match Get(qualified, "name")
         case Some(Str(name)) =>
           (match Get(qualified, "schema")
            case Some(Str(given)) => Some(Table(given, name))
            case _ => Some(Table(schema, name)))
         case _ => None)
      case _ => None
  }

  function Expose(c: Caller, at: Table, column: string): string {
    if (at, column) in c.columns then c.columns[(at, column)] else column
  }

  function Insert(out: seq<Field>, f: Field): seq<Field> {
    if out == [] then [f]
    else if out[0].key == f.key then [f] + out[1..]
    else [out[0]] + Insert(out[1..], f)
  }

  /** `serde_json::Map::insert` for each field in turn: a repeated key overwrites. */
  function InsertAll(fields: seq<Field>): seq<Field> {
    if fields == [] then [] else Insert(InsertAll(fields[..|fields| - 1]), fields[|fields| - 1])
  }

  function Rewrite(c: Caller, v: Doc, at: Table, operator: Option<string>): Result<Doc, Fault>
    decreases v, 1
  {
    match v
    case Obj(fields) =>
      if operator.Some? then
        match RewriteOperands(c, fields, at, operator)
        case Err(e) => Err(e)
        case Ok(out) => Ok(Obj(InsertAll(out)))
      else
        (match RewriteFields(c, fields, at)
         case Err(e) => Err(e)
         case Ok(out) => Ok(Obj(InsertAll(out))))
    case Arr(items) =>
      (match RewriteItems(c, items, at, operator)
       case Err(e) => Err(e)
       case Ok(out) => Ok(Arr(out)))
    case Str(text) =>
      (match SessionVariable(text)
       case Some(name) => Resolve(c, name, operator.Some? && TakesAList(operator.value))
       case None => Ok(v))
    case _ => Ok(v)
  }

  function RewriteItems(c: Caller, items: seq<Doc>, at: Table, operator: Option<string>)
    : (r: Result<seq<Doc>, Fault>)
    ensures r.Ok? ==> |r.value| == |items|
    ensures r.Ok? ==> forall i | 0 <= i < |items| :: Rewrite(c, items[i], at, operator) == Ok(r.value[i])
    ensures r.Err? ==> exists i | 0 <= i < |items| :: Rewrite(c, items[i], at, operator) == Err(r.error)
    decreases items, 0
  {
    if items == [] then Ok([])
    else
      match Rewrite(c, items[0], at, operator)
      case Err(e) => Err(e)
      case Ok(first) =>
        match RewriteItems(c, items[1..], at, operator)
        case Err(e) =>
          assert exists i | 0 <= i < |items[1..]| :: Rewrite(c, items[1..][i], at, operator) == Err(e);
          Err(e)
        case Ok(rest) => Ok([first] + rest)
  }

  /** An operator's operand: keys are data, only variables inside are resolved. */
  function RewriteOperands(c: Caller, fields: seq<Field>, at: Table, operator: Option<string>)
    : (r: Result<seq<Field>, Fault>)
    ensures r.Ok? ==> |r.value| == |fields|
    ensures r.Ok? ==> forall i | 0 <= i < |fields| ::
      r.value[i].key == fields[i].key && Rewrite(c, fields[i].value, at, operator) == Ok(r.value[i].value)
    ensures r.Err? ==> exists i | 0 <= i < |fields| :: Rewrite(c, fields[i].value, at, operator) == Err(r.error)
    decreases fields, 0
  {
    if fields == [] then Ok([])
    else
      match Rewrite(c, fields[0].value, at, operator)
      case Err(e) => Err(e)
      case Ok(first) =>
        match RewriteOperands(c, fields[1..], at, operator)
        case Err(e) =>
          assert exists i | 0 <= i < |fields[1..]| :: Rewrite(c, fields[1..][i].value, at, operator) == Err(e);
          Err(e)
        case Ok(rest) => Ok([Field(fields[0].key, first)] + rest)
  }

  function RewriteFields(c: Caller, fields: seq<Field>, at: Table): (r: Result<seq<Field>, Fault>)
    ensures r.Ok? ==> |r.value| == |fields|
    ensures r.Ok? ==> forall i | 0 <= i < |fields| :: RewriteField(c, fields[i], at) == Ok(r.value[i])
    ensures r.Err? ==> exists i | 0 <= i < |fields| :: RewriteField(c, fields[i], at) == Err(r.error)
    decreases fields, 0
  {
    if fields == [] then Ok([])
    else
      match RewriteField(c, fields[0], at)
      case Err(e) => Err(e)
      case Ok(first) =>
        match RewriteFields(c, fields[1..], at)
        case Err(e) =>
          assert exists i | 0 <= i < |fields[1..]| :: RewriteField(c, fields[1..][i], at) == Err(e);
          Err(e)
        case Ok(rest) => Ok([first] + rest)
  }

  function RewriteField(c: Caller, f: Field, at: Table): Result<Field, Fault>
    decreases f, 0
  {
    if Connective(f.key).Some? then
      match Rewrite(c, f.value, at, None)
      case Err(e) => Err(e)
      case Ok(out) => Ok(Field(Connective(f.key).value, out))
    else
      var key := Modern(f.key);
      if key == "_exists" then
        (match RewriteExists(c, f.value, at)
         case Err(e) => Err(e)
         case Ok(out) => Ok(Field("_exists", out)))
      else if key != "" && key[0] == '_' then
        (match Rewrite(c, f.value, at, Some(key))
         case Err(e) => Err(e)
         case Ok(out) => Ok(Field(key, out)))
      else
        (match Rewrite(c, f.value, at, None)
         case Err(e) => Err(e)
         case Ok(out) => Ok(Field(Expose(c, at, key), Wrapped(out))))
  }

  /** Equality written without saying so. */
  function Wrapped(v: Doc): Doc {
    if v.Obj? then v else Obj([Field("_eq", v)])
  }

  function RewriteExists(c: Caller, spec: Doc, at: Table): Result<Doc, Fault>
    decreases spec, 0
  {
    if !spec.Obj? then Err(ExistsTakesATable)
    else
      match ExistsTarget(spec, at.schema)
      case None => Err(ExistsNeedsATable)
      case Some(target) =>
        var named := Get(spec.fields, "_table").value;
        match Get(spec.fields, "_where")
        case None => Ok(Obj([Field("_table", named), Field("_where", Obj([]))]))
        case Some(inside) =>
          match Rewrite(c, inside, target, None)
          case Err(e) => Err(e)
          case Ok(out) => Ok(Obj([Field("_table", named), Field("_where", out)]))
  }

  // ----- When it refuses -----

  /** The session variables a document mentions where the rewriter looks. */
  ghost function Mentioned(v: Doc, operand: bool): set<string>
    decreases v, 1
  {
    match v
    case Obj(fields) =>
      if operand then set i, n | 0 <= i < |fields| && n in Mentioned(fields[i].value, true) :: n
      else set i, n | 0 <= i < |fields| && n in MentionedIn(fields[i]) :: n
    case Arr(items) => set i, n | 0 <= i < |items| && n in Mentioned(items[i], operand) :: n
    case Str(text) => if SessionVariable(text).Some? then {SessionVariable(text).value} else {}
    case _ => {}
  }

  ghost function MentionedIn(f: Field): set<string>
    decreases f, 0
  {
    var key := Modern(f.key);
    if Connective(f.key).Some? then Mentioned(f.value, false)
    else if key == "_exists" then
      (if f.value.Obj? && Get(f.value.fields, "_where").Some?
       then Mentioned(Get(f.value.fields, "_where").value, false) else {})
    else Mentioned(f.value, key != "" && key[0] == '_')
  }

  /** An `_exists` that is not an object, or names no table. */
  ghost predicate Malformed(v: Doc, operand: bool)
    decreases v, 1
  {
    match v
    case Obj(fields) =>
      if operand then exists i | 0 <= i < |fields| :: Malformed(fields[i].value, true)
      else exists i | 0 <= i < |fields| :: MalformedIn(fields[i])
    case Arr(items) => exists i | 0 <= i < |items| :: Malformed(items[i], operand)
    case _ => false
  }

  ghost predicate MalformedIn(f: Field)
    decreases f, 0
  {
    var key := Modern(f.key);
    if Connective(f.key).Some? then Malformed(f.value, false)
    else if key == "_exists" then
      || ExistsTarget(f.value, "").None?
      || (Get(f.value.fields, "_where").Some? && Malformed(Get(f.value.fields, "_where").value, false))
    else Malformed(f.value, key != "" && key[0] == '_')
  }

  ghost predicate Refused(c: Caller, mentioned: set<string>, malformed: bool) {
    (exists n :: n in mentioned && n !in c.session) || malformed
  }

  /** The error names what is actually wrong. */
  ghost predicate Truthful(c: Caller, e: Fault, mentioned: set<string>, malformed: bool) {
    if e.MissingSessionVariable? then e.name in mentioned && e.name !in c.session else malformed
  }

  /** A filter is refused if and only if it mentions a variable the session lacks
      or holds an `_exists` that names no table. */
  lemma {:induction false} RefusalIsExact(c: Caller, v: Doc, at: Table, operator: Option<string>)
    ensures Rewrite(c, v, at, operator).Err? <==> Refused(c, Mentioned(v, operator.Some?), Malformed(v, operator.Some?))
    ensures Rewrite(c, v, at, operator).Err? ==>
      Truthful(c, Rewrite(c, v, at, operator).error, Mentioned(v, operator.Some?), Malformed(v, operator.Some?))
    decreases v, 1
  {
    match v
    case Obj(fields) =>
      if operator.Some? {
        forall i | 0 <= i < |fields|
          ensures var r := Rewrite(c, fields[i].value, at, operator);
            var m, b := Mentioned(fields[i].value, true), Malformed(fields[i].value, true);
            (r.Err? <==> Refused(c, m, b)) && (r.Err? ==> Truthful(c, r.error, m, b))
        {
          RefusalIsExact(c, fields[i].value, at, operator);
        }
      } else {
        forall i | 0 <= i < |fields|
          ensures var r := RewriteField(c, fields[i], at);
            var m, b := MentionedIn(fields[i]), MalformedIn(fields[i]);
            (r.Err? <==> Refused(c, m, b)) && (r.Err? ==> Truthful(c, r.error, m, b))
        {
          FieldRefusalIsExact(c, fields[i], at);
        }
      }
    case Arr(items) =>
      forall i | 0 <= i < |items|
        ensures var r := Rewrite(c, items[i], at, operator);
          var m, b := Mentioned(items[i], operator.Some?), Malformed(items[i], operator.Some?);
          (r.Err? <==> Refused(c, m, b)) && (r.Err? ==> Truthful(c, r.error, m, b))
      {
        RefusalIsExact(c, items[i], at, operator);
      }
    case _ =>
  }

  lemma {:induction false} FieldRefusalIsExact(c: Caller, f: Field, at: Table)
    ensures var r := RewriteField(c, f, at);
      && (r.Err? <==> Refused(c, MentionedIn(f), MalformedIn(f)))
      && (r.Err? ==> Truthful(c, r.error, MentionedIn(f), MalformedIn(f)))
    decreases f, 0
  {
    var key := Modern(f.key);
    if Connective(f.key).Some? {
      RefusalIsExact(c, f.value, at, None);
    } else if key == "_exists" {
      SchemaDoesNotDecide(f.value, at.schema, "");
      if f.value.Obj? && Get(f.value.fields, "_where").Some? {
        var target := ExistsTarget(f.value, at.schema);
        if target.Some? { RefusalIsExact(c, Get(f.value.fields, "_where").value, target.value, None); }
      }
    } else if key != "" && key[0] == '_' {
      RefusalIsExact(c, f.value, at, Some(key));
    } else {
      RefusalIsExact(c, f.value, at, None);
    }
  }

  lemma SchemaDoesNotDecide(spec: Doc, a: string, b: string)
    ensures ExistsTarget(spec, a).Some? <==> ExistsTarget(spec, b).Some?
  {
  }

  // ----- What comes out of one comparison -----

  /** The operators that compare with a list. */
  const LISTED := {"_in", "_nin", "_has_keys_any", "_has_keys_all"}

  /** A variable given to an operator comes out as the session's value of that name,
      as a list for the four operators that take one, and is refused by its name
      where the session has none. */
  lemma {:induction false} VariableResolves(c: Caller, text: string, name: string, at: Table, operator: string)
    requires Names(text, name)
    ensures Rewrite(c, Str(text), at, Some(operator))
      == if name !in c.session then Err(MissingSessionVariable(name))
         else if operator in LISTED then Ok(AsList(c.session[name]))
         else Ok(Str(c.session[name]))
  {
    VariableExactly(text, name);
  }

  /** `{column: {_eq: text}}`: under the name the column is exposed by, the session's
      value. */
  lemma {:induction false} ComparisonResolves(c: Caller, column: string, text: string, name: string, at: Table)
    requires Names(text, name) && name in c.session
    requires column != "" && column[0] != '_' && column[0] != '$'
    ensures var exposed := if (at, column) in c.columns then c.columns[(at, column)] else column;
      Rewrite(c, Obj([Field(column, Obj([Field("_eq", Str(text))]))]), at, None)
      == Ok(Obj([Field(exposed, Obj([Field("_eq", Str(c.session[name]))]))]))
  {
    var inner, out := Field("_eq", Str(text)), Field("_eq", Str(c.session[name]));
    VariableResolves(c, text, name, at, "_eq");
    assert RewriteField(c, inner, at) == Ok(out);
    OneRewritten(c, inner, at, out);
    var field := Field(column, Obj([inner]));
    assert Rewrite(c, field.value, at, None) == Ok(Obj([out]));
    var exposed := if (at, column) in c.columns then c.columns[(at, column)] else column;
    assert RewriteField(c, field, at) == Ok(Field(exposed, Obj([out])));
    OneRewritten(c, field, at, Field(exposed, Obj([out])));
  }

  lemma {:induction false} OneRewritten(c: Caller, f: Field, at: Table, out: Field)
    requires RewriteField(c, f, at) == Ok(out)
    ensures Rewrite(c, Obj([f]), at, None) == Ok(Obj([out]))
  {
    var fields, list := [f], [out];
    assert fields[1..] == [] && RewriteFields(c, [], at) == Ok([]) && [out] + [] == list;
    assert RewriteFields(c, fields, at) == Ok(list);
    assert list[..0] == [] && InsertAll([]) == [];
    assert InsertAll(list) == Insert([], out);
  }

  /** A value that is not braced is a list of itself. */
  lemma {:induction false} UnbracedIsOne(value: string)
    requires !(|value| >= 2 && value[0] == '{' && value[|value| - 1] == '}')
    ensures AsList(value) == Arr([Str(value)])
  {
  }
}
