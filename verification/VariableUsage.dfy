/** Whether a variable may be used where it is used. */
module VariableUsage {
  import opened GraphQLTypes
  import opened GraphQLDocuments
  import opened Text

  // ----- Section 5.8.5 of the GraphQL specification (October 2021) -----

  predicate AreTypesCompatible(variable: TypeRef, location: TypeRef)
    decreases variable, location
  {
    if location.NonNull? then variable.NonNull? && AreTypesCompatible(variable.inner, location.inner)
    else if variable.NonNull? then AreTypesCompatible(variable.inner, location)
    else if location.ListOf? then variable.ListOf? && AreTypesCompatible(variable.item, location.item)
    else if variable.ListOf? then false
    else variable == location
  }

  datatype Default = NoDefault | NullDefault | ValueDefault

  datatype Definition = Definition(type_: TypeRef, default: Default)

  /** Where a value is written: the type expected there, and whether leaving the
      value out would leave a default. */
  datatype Location = Location(type_: TypeRef, hasDefault: bool)

  predicate IsVariableUsageAllowed(variable: Definition, location: Location) {
    if location.type_.NonNull? && !variable.type_.NonNull? then
      && (variable.default.ValueDefault? || location.hasDefault)
      && AreTypesCompatible(variable.type_, location.type_.inner)
    else AreTypesCompatible(variable.type_, location.type_)
  }

  // ----- What the server checks -----

  /** A nullable declaration with a default that is not null counts as non-null. */
  function Effective(variable: Definition): TypeRef {
    if !variable.type_.NonNull? && variable.default.ValueDefault? then NonNull(variable.type_) else variable.type_
  }

  /** A location with a default accepts null. */
  function Relax(location: Location): TypeRef {
    if location.hasDefault then Nullable(location.type_) else location.type_
  }

  lemma {:induction false} NonNullVariable(variable: TypeRef, location: TypeRef)
    requires !location.NonNull?
    ensures AreTypesCompatible(NonNull(variable), location) == AreTypesCompatible(variable, location)
  {
  }

  /** Promoting the declaration, relaxing the location and asking for a subtype
      accepts exactly the usages the specification allows. */
  lemma {:induction false} CheckIsExact(variable: Definition, location: Location)
    requires Proper(variable.type_) && Proper(location.type_)
    ensures AreTypesCompatible(Effective(variable), Relax(location)) <==> IsVariableUsageAllowed(variable, location)
  {
    var v, l := variable.type_, Nullable(location.type_);
    NonNullVariable(v, l);
    if v.NonNull? { NonNullVariable(v.inner, l); }
  }

  // ----- The same on the text the server works on -----

  function Show(t: TypeRef): string {
    match t
    case Named(name) => name
    case ListOf(item) => "[" + Show(item) + "]"
    case NonNull(inner) => Show(inner) + "!"
  }

  function StripBang(text: string): string {
    if text != "" && text[|text| - 1] == '!' then text[..|text| - 1] else text
  }

  predicate NameHasNoBang(t: TypeRef) {
    t.Named? ==> '!' !in t.name
  }

  lemma {:induction false} RelaxText(t: TypeRef)
    requires NameHasNoBang(t)
    ensures StripBang(Show(t)) == Show(Nullable(t))
  {
    match t
    case Named(name) =>
    case ListOf(item) => assert Show(t)[|Show(t)| - 1] == ']';
    case NonNull(inner) => assert Show(t)[..|Show(t)| - 1] == Show(inner);
  }

  // ----- Through lists and input objects -----

  datatype Registry = Registry(inputs: map<string, map<string, Location>>)

  /** The operation's variables, and those the request gave a null for. */
  datatype Scope = Scope(defined: map<string, Definition>, nulls: set<string>)

  datatype Problem =
    | Mismatch(variable: string, declared: TypeRef, expected: TypeRef)
    | UnknownField(field: string, type_: string)
    | NullComparison(field: string, type_: string)

  predicate StandsForNull(scope: Scope, v: Value) {
    v.Null? || (v.Variable? && v.name in scope.nulls)
  }

  /** A comparison against null is refused before its operand is looked at. */
  predicate Refused(scope: Scope, type_: string, v: Value) {
    EndsWith(type_, "_comparison_exp") && StandsForNull(scope, v)
  }

  ghost function Problems(reg: Registry, scope: Scope, v: Value, expected: TypeRef): set<Problem>
    decreases v, 0
  {
    match v
    case Variable(name) =>
      if name in scope.defined && !AreTypesCompatible(Effective(scope.defined[name]), expected)
      then {Mismatch(name, Effective(scope.defined[name]), expected)} else {}
    case List(items) =>
      set i, p | 0 <= i < |items| && p in Problems(reg, scope, items[i], ItemType(expected)) :: p
    case Object(fields) =>
      var type_ := Concrete(expected);
      if type_ !in reg.inputs then {}
      else set k, p | k in fields && p in FieldProblems(reg, scope, fields[k], k, type_) :: p
    case _ => {}
  }

  ghost function FieldProblems(reg: Registry, scope: Scope, v: Value, field: string, type_: string): set<Problem>
    requires type_ in reg.inputs
    decreases v, 1
  {
    if field !in reg.inputs[type_] then {UnknownField(field, type_)}
    else if Refused(scope, type_, v) then {NullComparison(field, Concrete(reg.inputs[type_][field].type_))}
    else Problems(reg, scope, v, Relax(reg.inputs[type_][field]))
  }

  /** Where each variable stands, by the specification's own account of location
      types: an item of a list, a field of an input object. */
  ghost function Usages(reg: Registry, scope: Scope, v: Value, location: Location): set<(string, Location)>
    decreases v
  {
    match v
    case Variable(name) => {(name, location)}
    case List(items) =>
      var inner := if Nullable(location.type_).ListOf? then Location(Nullable(location.type_).item, false) else location;
      set i, u | 0 <= i < |items| && u in Usages(reg, scope, items[i], inner) :: u
    case Object(fields) =>
      var type_ := Concrete(location.type_);
      if type_ !in reg.inputs then {}
      else
        set k, u | k in fields && k in reg.inputs[type_] && !Refused(scope, type_, fields[k])
                   && u in Usages(reg, scope, fields[k], reg.inputs[type_][k]) :: u
    case _ => {}
  }

  ghost predicate Disallowed(scope: Scope, u: (string, Location)) {
    u.0 in scope.defined && !IsVariableUsageAllowed(scope.defined[u.0], u.1)
  }

  ghost predicate AllProper(reg: Registry, scope: Scope) {
    && (forall x | x in scope.defined :: Proper(scope.defined[x].type_))
    && (forall t, k | t in reg.inputs && k in reg.inputs[t] :: Proper(reg.inputs[t][k].type_))
  }

  lemma ItemLocations(location: Location)
    requires Proper(location.type_)
    ensures ItemType(Relax(location))
         == if Nullable(location.type_).ListOf? then Nullable(location.type_).item else Relax(location)
    ensures Concrete(Relax(location)) == Concrete(location.type_)
  {
  }

  lemma {:induction false} ProperParts(t: TypeRef)
    requires Proper(t)
    ensures Proper(Nullable(t)) && (Nullable(t).ListOf? ==> Proper(Nullable(t).item))
  {
  }

  /** A variable is reported, at any depth, if and only if one of its usages is
      not allowed -- and it is reported for that usage. */
  lemma {:induction false} ReportsAreExact(reg: Registry, scope: Scope, v: Value, location: Location, x: string,
                                           expected: TypeRef)
    requires AllProper(reg, scope) && Proper(location.type_) && x in scope.defined
    ensures Mismatch(x, Effective(scope.defined[x]), expected) in Problems(reg, scope, v, Relax(location))
        <==> exists l :: (x, l) in Usages(reg, scope, v, location) && Disallowed(scope, (x, l)) && Relax(l) == expected
    decreases v
  {
    var report := Mismatch(x, Effective(scope.defined[x]), expected);
    match v
    case Variable(name) =>
      if name in scope.defined { CheckIsExact(scope.defined[name], location); }
      assert (name, location) in Usages(reg, scope, v, location);
    case List(items) =>
      var inner := if Nullable(location.type_).ListOf? then Location(Nullable(location.type_).item, false) else location;
      ItemLocations(location);
      ProperParts(location.type_);
      forall i | 0 <= i < |items|
        ensures report in Problems(reg, scope, items[i], ItemType(Relax(location)))
            <==> exists l :: (x, l) in Usages(reg, scope, items[i], inner) && Disallowed(scope, (x, l)) && Relax(l) == expected
      {
        ReportsAreExact(reg, scope, items[i], inner, x, expected);
      }
    case Object(fields) =>
      var type_ := Concrete(location.type_);
      ItemLocations(location);
      if type_ in reg.inputs {
        forall k | k in fields && k in reg.inputs[type_] && !Refused(scope, type_, fields[k])
          ensures report in FieldProblems(reg, scope, fields[k], k, type_)
              <==> exists l :: (x, l) in Usages(reg, scope, fields[k], reg.inputs[type_][k])
                               && Disallowed(scope, (x, l)) && Relax(l) == expected
        {
          ReportsAreExact(reg, scope, fields[k], reg.inputs[type_][k], x, expected);
        }
      }
    case _ =>
  }

  // ----- The walk as it runs -----

  /** `errors` lists exactly the problems in `all`, in the order found. */
  ghost predicate Lists(errors: seq<Problem>, all: set<Problem>) {
    forall p :: p in errors <==> p in all
  }

  method CheckValue(reg: Registry, scope: Scope, v: Value, expected: TypeRef) returns (errors: seq<Problem>)
    ensures Lists(errors, Problems(reg, scope, v, expected))
    decreases v, 0
  {
    errors := [];
    match v {
      case Variable(name) =>
        if name in scope.defined && !AreTypesCompatible(Effective(scope.defined[name]), expected) {
          errors := [Mismatch(name, Effective(scope.defined[name]), expected)];
        }
      case List(items) =>
        for i := 0 to |items|
          invariant Lists(errors, set j, p | 0 <= j < i && p in Problems(reg, scope, items[j], ItemType(expected)) :: p)
        {
          var more := CheckValue(reg, scope, items[i], ItemType(expected));
          errors := errors + more;
        }
      case Object(fields) =>
        var type_ := Concrete(expected);
        if type_ in reg.inputs {
          var left := fields.Keys;
          while left != {}
            invariant left <= fields.Keys
            invariant Lists(errors, set k, p | k in fields && k !in left
                                               && p in FieldProblems(reg, scope, fields[k], k, type_) :: p)
            decreases |left|
          {
            var k :| k in left;
            var more := CheckField(reg, scope, fields[k], k, type_);
            errors := errors + more;
            left := left - {k};
          }
        }
      case _ =>
    }
  }

  method CheckField(reg: Registry, scope: Scope, v: Value, field: string, type_: string) returns (errors: seq<Problem>)
    requires type_ in reg.inputs
    ensures Lists(errors, FieldProblems(reg, scope, v, field, type_))
    decreases v, 1
  {
    if field !in reg.inputs[type_] {
      errors := [UnknownField(field, type_)];
    } else if EndsWith(type_, "_comparison_exp") && StandsForNull(scope, v) {
      errors := [NullComparison(field, Concrete(reg.inputs[type_][field].type_))];
    } else {
      errors := CheckValue(reg, scope, v, Relax(reg.inputs[type_][field]));
    }
  }

  // ----- Nulls in comparisons -----

  /** A null, written or given to a variable, is the one problem of a field of a
      comparison type; anywhere else, and of any other value, what is inside is
      looked at. */
  lemma {:induction false} NullsExactly(reg: Registry, scope: Scope, v: Value, field: string, type_: string)
    requires type_ in reg.inputs && field in reg.inputs[type_]
    ensures var comparison := |type_| >= 15 && type_[|type_| - 15..] == "_comparison_exp";
      var null_ := v.Null? || (v.Variable? && v.name in scope.nulls);
      FieldProblems(reg, scope, v, field, type_)
      == if comparison && null_ then {NullComparison(field, Concrete(reg.inputs[type_][field].type_))}
         else Problems(reg, scope, v, Relax(reg.inputs[type_][field]))
  {
  }
}
