/** Reading strings written where a number or a boolean is expected. */
module Coercion {
  import opened Wrappers
  import opened Decimal
  import opened GraphQLTypes
  import opened Collections
  import opened GraphQLDocuments

  datatype FieldMeta = FieldMeta(type_: TypeRef, arguments: map<string, TypeRef>)

  datatype MetaType =
    | Output(fields: map<string, FieldMeta>)
    | InputObject(inputs: map<string, TypeRef>)
    | Leaf

  /** The schema's types, and how a string reads as a finite double. */
  datatype Registry = Registry(types: map<string, MetaType>, float: string -> Option<real>)
  {
    function FieldOf(type_: string, field: string): Option<FieldMeta> {
      if type_ in types && types[type_].Output? && field in types[type_].fields
      then Some(types[type_].fields[field]) else None
    }

    function InputsOf(type_: string): map<string, TypeRef> {
      if type_ in types && types[type_].InputObject? then types[type_].inputs else map[]
    }
  }

  // ----- One value -----

  const I64_BOUND: int := 0x8000_0000_0000_0000

  /** `str::parse::<i64>`: an optional sign, digits, and in range. */
  function ParseI64(text: string): Option<int> {
    var signed := text != "" && (text[0] == '-' || text[0] == '+');
    var digits := if signed then text[1..] else text;
    if digits == "" || !AllDigits(digits) then None
    else
      var n: int := if signed && text[0] == '-' then 0 - Read(digits) else Read(digits);
      if -I64_BOUND <= n < I64_BOUND then Some(n) else None
  }

  /** Every `i64`, written out, reads as itself; and nothing past the range reads. */
  lemma {:induction false} IntReadsBack(n: int)
    ensures ParseI64(if n < 0 then "-" + Show(-n) else Show(n))
      == if -I64_BOUND <= n < I64_BOUND then Some(n) else None
  {
    if n < 0 {
      ReadShow(-n);
      assert ("-" + Show(-n))[1..] == Show(-n);
    } else {
      ReadShow(n);
      assert IsDigit(Show(n)[0]);
    }
  }

  predicate Strict(type_: string) { type_ == "Int" || type_ == "Float" || type_ == "Boolean" }

  function AsWritten(reg: Registry, text: string, expected: string): (r: Option<Value>)
    ensures r.Some? ==> Strict(expected) && (r.value.Number? || r.value.Boolean?)
  {
    if expected == "Int" then
      (match ParseI64(text) case Some(n) => Some(Number(n as real)) case None => None)
    else if expected == "Float" then
      (match reg.float(text) case Some(r) => Some(Number(r)) case None => None)
    else if expected == "Boolean" && (text == "true" || text == "false") then Some(Boolean(text == "true"))
    else None
  }

  function Coerce(reg: Registry, v: Value, expected: TypeRef): Value
    decreases v
  {
    match v
    case List(items) =>
      List(seq(|items|, i requires 0 <= i < |items| => Coerce(reg, items[i], ItemType(expected))))
    case Object(fields) =>
      var inputs := reg.InputsOf(Concrete(expected));
      Object(map k | k in fields :: if k in inputs then Coerce(reg, fields[k], inputs[k]) else fields[k])
    case String(text) =>
      (match AsWritten(reg, text, Concrete(expected)) case Some(w) => w case None => v)
    case _ => v
  }

  /** Some string inside stands where a strict scalar is expected and reads as one. */
  ghost predicate Writes(reg: Registry, v: Value, expected: TypeRef)
    decreases v
  {
    match v
    case List(items) => exists i | 0 <= i < |items| :: Writes(reg, items[i], ItemType(expected))
    case Object(fields) =>
      var inputs := reg.InputsOf(Concrete(expected));
      exists k | k in fields :: k in inputs && Writes(reg, fields[k], inputs[k])
    case String(text) => AsWritten(reg, text, Concrete(expected)).Some?
    case _ => false
  }

  lemma {:induction false} CoerceChanges(reg: Registry, v: Value, expected: TypeRef)
    ensures Coerce(reg, v, expected) != v <==> Writes(reg, v, expected)
    decreases v
  {
    match v
    case List(items) =>
      var out := Coerce(reg, v, expected).items;
      forall i | 0 <= i < |items| ensures out[i] != items[i] <==> Writes(reg, items[i], ItemType(expected)) {
        CoerceChanges(reg, items[i], ItemType(expected));
      }
      if !Writes(reg, v, expected) { assert out == items; }
    case Object(fields) =>
      var inputs := reg.InputsOf(Concrete(expected));
      var out := Coerce(reg, v, expected).fields;
      forall k | k in fields ensures out[k] != fields[k] <==> k in inputs && Writes(reg, fields[k], inputs[k]) {
        if k in inputs { CoerceChanges(reg, fields[k], inputs[k]); }
      }
      if !Writes(reg, v, expected) { assert out == fields; }
    case _ =>
  }

  lemma {:induction false} CoerceTwice(reg: Registry, v: Value, expected: TypeRef)
    ensures Coerce(reg, Coerce(reg, v, expected), expected) == Coerce(reg, v, expected)
    decreases v
  {
    var once := Coerce(reg, v, expected);
    var twice := Coerce(reg, once, expected);
    match v
    case List(items) =>
      forall i | 0 <= i < |items| ensures twice.items[i] == once.items[i] {
        CoerceTwice(reg, items[i], ItemType(expected));
      }
      assert twice.items == once.items;
    case Object(fields) =>
      var inputs := reg.InputsOf(Concrete(expected));
      forall k | k in fields ensures twice.fields[k] == once.fields[k] {
        if k in inputs { CoerceTwice(reg, fields[k], inputs[k]); }
      }
      assert twice.fields == once.fields;
    case _ =>
  }

  /** The walk that edits a value in place, and says whether it did. */
  method CoerceValue(reg: Registry, v: Value, expected: TypeRef) returns (r: Value, edited: bool)
    ensures r == Coerce(reg, v, expected)
    ensures edited <==> Writes(reg, v, expected)
    decreases v, 1
  {
    r, edited := v, false;
    match v {
      case List(items) =>
        var out;
        out, edited := CoerceItems(reg, items, ItemType(expected));
        r := List(out);
      case Object(fields) =>
        var out;
        out, edited := CoerceFields(reg, fields, reg.InputsOf(Concrete(expected)), v);
        r := Object(out);
      case String(text) =>
        var coerced := AsWritten(reg, text, Concrete(expected));
        if coerced.Some? {
          r, edited := coerced.value, true;
        }
      case _ =>
    }
  }

  method CoerceItems(reg: Registry, items: seq<Value>, inner: TypeRef) returns (out: seq<Value>, edited: bool)
    ensures out == seq(|items|, i requires 0 <= i < |items| => Coerce(reg, items[i], inner))
    ensures edited <==> exists i | 0 <= i < |items| :: Writes(reg, items[i], inner)
    decreases items, 0
  {
    out, edited := items, false;
    for i := 0 to |items|
      invariant |out| == |items|
      invariant forall j | 0 <= j < i :: out[j] == Coerce(reg, items[j], inner)
      invariant forall j | i <= j < |items| :: out[j] == items[j]
      invariant edited <==> exists j | 0 <= j < i :: Writes(reg, items[j], inner)
    {
      var item, changed := CoerceValue(reg, items[i], inner);
      out := out[i := item];
      edited := edited || changed;
    }
  }

  method CoerceFields(reg: Registry, fields: map<string, Value>, inputs: map<string, TypeRef>, ghost whole: Value)
    returns (out: map<string, Value>, edited: bool)
    requires whole == Object(fields)
    ensures out == map k | k in fields :: if k in inputs then Coerce(reg, fields[k], inputs[k]) else fields[k]
    ensures edited <==> exists k | k in fields :: k in inputs && Writes(reg, fields[k], inputs[k])
    decreases whole, 0
  {
    out, edited := fields, false;
    var left := fields.Keys * inputs.Keys;
    while left != {}
      invariant left <= fields.Keys * inputs.Keys
      invariant out == Partly(reg, fields, inputs, left)
      invariant edited <==> WritesPartly(reg, fields, inputs, left)
      decreases |left|
    {
      var k :| k in left;
      var item, changed := CoerceValue(reg, fields[k], inputs[k]);
      PartlyMore(reg, fields, inputs, left, k);
      out := out[k := item];
      edited := edited || changed;
      left := left - {k};
    }
  }

  /** The fields coerced so far: those still `left` are as they were. */
  function Partly(reg: Registry, fields: map<string, Value>, inputs: map<string, TypeRef>, left: set<string>)
    : map<string, Value>
  {
    map k | k in fields :: if k in inputs && k !in left then Coerce(reg, fields[k], inputs[k]) else fields[k]
  }

  ghost predicate WritesPartly(reg: Registry, fields: map<string, Value>, inputs: map<string, TypeRef>, left: set<string>) {
    exists k | k in fields :: k in inputs && k !in left && Writes(reg, fields[k], inputs[k])
  }

  lemma {:induction false} PartlyMore(reg: Registry, fields: map<string, Value>, inputs: map<string, TypeRef>,
                                      left: set<string>, k: string)
    requires k in left && k in fields && k in inputs
    ensures Partly(reg, fields, inputs, left - {k})
         == Partly(reg, fields, inputs, left)[k := Coerce(reg, fields[k], inputs[k])]
    ensures WritesPartly(reg, fields, inputs, left - {k})
         <==> WritesPartly(reg, fields, inputs, left) || Writes(reg, fields[k], inputs[k])
  {
  }

  // ----- Selections -----

  function CoerceArgument(reg: Registry, meta: Option<FieldMeta>, a: Argument): Argument {
    if a.name == "limit" || meta.None? || a.name !in meta.value.arguments then a
    else Argument(a.name, Coerce(reg, a.value, meta.value.arguments[a.name]))
  }

  function CoerceArguments(reg: Registry, meta: Option<FieldMeta>, args: seq<Argument>): (r: seq<Argument>)
    ensures |r| == |args| && forall i | 0 <= i < |args| :: r[i] == CoerceArgument(reg, meta, args[i])
  {
    seq(|args|, i requires 0 <= i < |args| => CoerceArgument(reg, meta, args[i]))
  }

  function CoerceSet(reg: Registry, set_: seq<Selection>, type_: string): (r: seq<Selection>)
    ensures |r| == |set_| && forall i | 0 <= i < |set_| :: r[i] == CoerceOne(reg, set_[i], type_)
    decreases set_, 0
  {
    seq(|set_|, i requires 0 <= i < |set_| => CoerceOne(reg, set_[i], type_))
  }

  function CoerceOne(reg: Registry, s: Selection, type_: string): Selection
    decreases s, 0
  {
    match s
    case Field(name, args, inside) =>
      var meta := reg.FieldOf(type_, name);
      Field(name, CoerceArguments(reg, meta, args),
            if meta.Some? then CoerceSet(reg, inside, Concrete(meta.value.type_)) else inside)
    case Inline(condition, inside) => Inline(condition, CoerceSet(reg, inside, InlineType(condition, type_)))
    case Spread(_) => s
  }

  /** The walk over a selection set, editing arguments in place. */
  method CoerceSelectionSet(reg: Registry, set_: seq<Selection>, type_: string)
    returns (r: seq<Selection>, edited: bool)
    ensures r == CoerceSet(reg, set_, type_)
    ensures edited <==> r != set_
    decreases set_, 1
  {
    r, edited := set_, false;
    for i := 0 to |set_|
      invariant |r| == |set_|
      invariant forall j | 0 <= j < i :: r[j] == CoerceOne(reg, set_[j], type_)
      invariant forall j | i <= j < |set_| :: r[j] == set_[j]
      invariant edited <==> exists j | 0 <= j < i :: CoerceOne(reg, set_[j], type_) != set_[j]
    {
      var one := set_[i];
      var changed := false;
      match set_[i] {
        case Field(name, args, inside) =>
          var meta := reg.FieldOf(type_, name);
          var args', inside' := args, inside;
          args', changed := CoerceFieldArguments(reg, meta, args);
          if meta.Some? {
            var below;
            inside', below := CoerceSelectionSet(reg, inside, Concrete(meta.value.type_));
            changed := changed || below;
          }
          one := Field(name, args', inside');
        case Inline(condition, inside) =>
          var inside';
          inside', changed := CoerceSelectionSet(reg, inside, InlineType(condition, type_));
          one := Inline(condition, inside');
        case Spread(_) =>
      }
      r := r[i := one];
      edited := edited || changed;
    }
    if edited {
      var j :| 0 <= j < |set_| && CoerceOne(reg, set_[j], type_) != set_[j];
      assert r[j] != set_[j];
    } else {
      assert r == set_;
    }
  }

  method CoerceFieldArguments(reg: Registry, meta: Option<FieldMeta>, args: seq<Argument>)
    returns (r: seq<Argument>, edited: bool)
    ensures r == CoerceArguments(reg, meta, args)
    ensures edited <==> r != args
  {
    r, edited := args, false;
    for i := 0 to |args|
      invariant |r| == |args|
      invariant forall j | 0 <= j < i :: r[j] == CoerceArgument(reg, meta, args[j])
      invariant forall j | i <= j < |args| :: r[j] == args[j]
      invariant edited <==> exists j | 0 <= j < i :: CoerceArgument(reg, meta, args[j]) != args[j]
    {
      if args[i].name != "limit" && meta.Some? && args[i].name in meta.value.arguments {
        var expected := meta.value.arguments[args[i].name];
        var value, changed := CoerceValue(reg, args[i].value, expected);
        CoerceChanges(reg, args[i].value, expected);
        r := r[i := Argument(args[i].name, value)];
        edited := edited || changed;
      }
    }
    if edited {
      var j :| 0 <= j < |args| && CoerceArgument(reg, meta, args[j]) != args[j];
      assert r[j] != args[j];
    } else {
      assert r == args;
    }
  }

  lemma {:induction false} CoerceSetTwice(reg: Registry, set_: seq<Selection>, type_: string)
    ensures CoerceSet(reg, CoerceSet(reg, set_, type_), type_) == CoerceSet(reg, set_, type_)
    decreases set_, 0
  {
    var once := CoerceSet(reg, set_, type_);
    forall i | 0 <= i < |set_| ensures CoerceOne(reg, once[i], type_) == once[i] {
      CoerceOneTwice(reg, set_[i], type_);
    }
  }

  lemma {:induction false} CoerceOneTwice(reg: Registry, s: Selection, type_: string)
    ensures CoerceOne(reg, CoerceOne(reg, s, type_), type_) == CoerceOne(reg, s, type_)
    decreases s, 0
  {
    match s
    case Field(name, args, inside) =>
      var meta := reg.FieldOf(type_, name);
      var once := CoerceArguments(reg, meta, args);
      forall i | 0 <= i < |args| ensures CoerceArgument(reg, meta, once[i]) == once[i] {
        if meta.Some? && args[i].name in meta.value.arguments {
          CoerceTwice(reg, args[i].value, meta.value.arguments[args[i].name]);
        }
      }
      assert CoerceArguments(reg, meta, once) == once;
      if meta.Some? { CoerceSetTwice(reg, inside, Concrete(meta.value.type_)); }
    case Inline(condition, inside) => CoerceSetTwice(reg, inside, InlineType(condition, type_));
    case Spread(_) =>
  }

  // ----- What is left alone -----

  /** A value with only the scalars in strict positions blotted out. */
  function Blot(reg: Registry, v: Value, expected: TypeRef): Value
    decreases v
  {
    match v
    case List(items) =>
      List(seq(|items|, i requires 0 <= i < |items| => Blot(reg, items[i], ItemType(expected))))
    case Object(fields) =>
      var inputs := reg.InputsOf(Concrete(expected));
      Object(map k | k in fields :: if k in inputs then Blot(reg, fields[k], inputs[k]) else fields[k])
    case String(_) => if Strict(Concrete(expected)) then Null else v
    case Number(_) => if Strict(Concrete(expected)) then Null else v
    case Boolean(_) => if Strict(Concrete(expected)) then Null else v
    case _ => v
  }

  function BlotOne(reg: Registry, s: Selection, type_: string): Selection
    decreases s, 0
  {
    match s
    case Field(name, args, inside) =>
      var meta := reg.FieldOf(type_, name);
      Field(name,
            seq(|args|, i requires 0 <= i < |args| =>
                if args[i].name == "limit" || meta.None? || args[i].name !in meta.value.arguments then args[i]
                else Argument(args[i].name, Blot(reg, args[i].value, meta.value.arguments[args[i].name]))),
            if meta.Some? then BlotSet(reg, inside, Concrete(meta.value.type_)) else inside)
    case Inline(condition, inside) => Inline(condition, BlotSet(reg, inside, InlineType(condition, type_)))
    case Spread(_) => s
  }

  function BlotSet(reg: Registry, set_: seq<Selection>, type_: string): seq<Selection>
    decreases set_, 0
  {
    seq(|set_|, i requires 0 <= i < |set_| => BlotOne(reg, set_[i], type_))
  }

  lemma {:induction false} CoerceBlot(reg: Registry, v: Value, expected: TypeRef)
    ensures Blot(reg, Coerce(reg, v, expected), expected) == Blot(reg, v, expected)
    decreases v
  {
    var out := Coerce(reg, v, expected);
    match v
    case List(items) =>
      forall i | 0 <= i < |items|
        ensures Blot(reg, out.items[i], ItemType(expected)) == Blot(reg, items[i], ItemType(expected))
      {
        CoerceBlot(reg, items[i], ItemType(expected));
      }
      assert Blot(reg, out, expected).items == Blot(reg, v, expected).items;
    case Object(fields) =>
      var inputs := reg.InputsOf(Concrete(expected));
      forall k | k in fields && k in inputs
        ensures Blot(reg, out.fields[k], inputs[k]) == Blot(reg, fields[k], inputs[k])
      {
        CoerceBlot(reg, fields[k], inputs[k]);
      }
      assert Blot(reg, out, expected).fields == Blot(reg, v, expected).fields;
    case _ =>
  }

  /** Coercion keeps the shape of a selection, every `limit`, and every value
      outside the strict positions. */
  lemma {:induction false} CoerceKeepsRest(reg: Registry, set_: seq<Selection>, type_: string)
    ensures BlotSet(reg, CoerceSet(reg, set_, type_), type_) == BlotSet(reg, set_, type_)
    decreases set_, 0
  {
    forall i | 0 <= i < |set_|
      ensures BlotOne(reg, CoerceOne(reg, set_[i], type_), type_) == BlotOne(reg, set_[i], type_)
    {
      CoerceKeepsRestOne(reg, set_[i], type_);
    }
  }

  lemma {:induction false} CoerceKeepsRestOne(reg: Registry, s: Selection, type_: string)
    ensures BlotOne(reg, CoerceOne(reg, s, type_), type_) == BlotOne(reg, s, type_)
    decreases s, 0
  {
    match s
    case Field(name, args, inside) =>
      var meta := reg.FieldOf(type_, name);
      forall i | 0 <= i < |args| && meta.Some? && args[i].name in meta.value.arguments
        ensures var t := meta.value.arguments[args[i].name];
          Blot(reg, Coerce(reg, args[i].value, t), t) == Blot(reg, args[i].value, t)
      {
        CoerceBlot(reg, args[i].value, meta.value.arguments[args[i].name]);
      }
      if meta.Some? { CoerceKeepsRest(reg, inside, Concrete(meta.value.type_)); }
      assert BlotOne(reg, CoerceOne(reg, s, type_), type_).arguments == BlotOne(reg, s, type_).arguments;
    case Inline(condition, inside) => CoerceKeepsRest(reg, inside, InlineType(condition, type_));
    case Spread(_) =>
  }

  // ----- Fragments -----

  /** Each fragment walked once, on the type it names. */
  function CoerceFragments(reg: Registry, fragments: Fragments): Fragments {
    map f | f in fragments :: Fragment(fragments[f].on, CoerceSet(reg, fragments[f].set_, fragments[f].on))
  }

  /** Spreads opened to a depth: a spread stands for its fragment, inline. */
  function Expand(fragments: Fragments, set_: seq<Selection>, depth: nat): seq<Selection>
    decreases depth, set_, 0
  {
    seq(|set_|, i requires 0 <= i < |set_| => ExpandOne(fragments, set_[i], depth))
  }

  function ExpandOne(fragments: Fragments, s: Selection, depth: nat): Selection
    decreases depth, s, 0
  {
    match s
    case Field(name, args, inside) => Field(name, args, Expand(fragments, inside, depth))
    case Inline(condition, inside) => Inline(condition, Expand(fragments, inside, depth))
    case Spread(name) =>
      if depth == 0 || name !in fragments then s
      else Inline(Some(fragments[name].on), Expand(fragments, fragments[name].set_, depth - 1))
  }

  /** Opening spreads here reaches no fragment that coercion changes. */
  ghost predicate Untouched(reg: Registry, fragments: Fragments, set_: seq<Selection>, depth: nat)
    decreases depth, set_, 0
  {
    forall i | 0 <= i < |set_| :: UntouchedOne(reg, fragments, set_[i], depth)
  }

  ghost predicate UntouchedOne(reg: Registry, fragments: Fragments, s: Selection, depth: nat)
    decreases depth, s, 0
  {
    match s
    case Field(_, _, inside) => Untouched(reg, fragments, inside, depth)
    case Inline(_, inside) => Untouched(reg, fragments, inside, depth)
    case Spread(name) =>
      depth > 0 && name in fragments ==>
        && CoerceSet(reg, fragments[name].set_, fragments[name].on) == fragments[name].set_
        && Untouched(reg, fragments, fragments[name].set_, depth - 1)
  }

  /** Below a field the registry does not know -- which the walk does not enter,
      though fragments are coerced wherever they are spread -- nothing changes. */
  ghost predicate Reached(reg: Registry, fragments: Fragments, set_: seq<Selection>, type_: string, depth: nat)
    decreases depth, set_, 0
  {
    forall i | 0 <= i < |set_| :: ReachedOne(reg, fragments, set_[i], type_, depth)
  }

  ghost predicate ReachedOne(reg: Registry, fragments: Fragments, s: Selection, type_: string, depth: nat)
    decreases depth, s, 0
  {
    match s
    case Field(name, _, inside) =>
      var meta := reg.FieldOf(type_, name);
      if meta.Some? then Reached(reg, fragments, inside, Concrete(meta.value.type_), depth)
      else Untouched(reg, fragments, inside, depth)
    case Inline(condition, inside) => Reached(reg, fragments, inside, InlineType(condition, type_), depth)
    case Spread(name) =>
      depth > 0 && name in fragments ==>
        Reached(reg, fragments, fragments[name].set_, fragments[name].on, depth - 1)
  }

  /** Expansion hides no argument, so equal expansions mean nothing was coerced. */
  lemma {:induction false} ExpansionReflects(reg: Registry, fragments: Fragments, set_: seq<Selection>, type_: string,
                                             depth: nat)
    requires Expand(fragments, set_, depth)
          == Expand(CoerceFragments(reg, fragments), CoerceSet(reg, set_, type_), depth)
    ensures CoerceSet(reg, set_, type_) == set_
    decreases set_, 0
  {
    var a := Expand(fragments, set_, depth);
    var b := Expand(CoerceFragments(reg, fragments), CoerceSet(reg, set_, type_), depth);
    forall i | 0 <= i < |set_| ensures CoerceOne(reg, set_[i], type_) == set_[i] {
      assert a[i] == b[i];
      ExpansionReflectsOne(reg, fragments, set_[i], type_, depth);
    }
  }

  lemma {:induction false} ExpansionReflectsOne(reg: Registry, fragments: Fragments, s: Selection, type_: string,
                                                depth: nat)
    requires ExpandOne(fragments, s, depth)
          == ExpandOne(CoerceFragments(reg, fragments), CoerceOne(reg, s, type_), depth)
    ensures CoerceOne(reg, s, type_) == s
    decreases s, 0
  {
    match s
    case Field(name, _, inside) =>
      var meta := reg.FieldOf(type_, name);
      if meta.Some? { ExpansionReflects(reg, fragments, inside, Concrete(meta.value.type_), depth); }
    case Inline(condition, inside) => ExpansionReflects(reg, fragments, inside, InlineType(condition, type_), depth);
    case Spread(_) =>
  }

  lemma {:induction false} UntouchedExpands(reg: Registry, fragments: Fragments, set_: seq<Selection>, depth: nat)
    ensures Expand(fragments, set_, depth) == Expand(CoerceFragments(reg, fragments), set_, depth)
            <==> Untouched(reg, fragments, set_, depth)
    decreases depth, set_, 0
  {
    var a, b := Expand(fragments, set_, depth), Expand(CoerceFragments(reg, fragments), set_, depth);
    forall i | 0 <= i < |set_| ensures a[i] == b[i] <==> UntouchedOne(reg, fragments, set_[i], depth) {
      UntouchedExpandsOne(reg, fragments, set_[i], depth);
    }
  }

  lemma {:induction false} UntouchedExpandsOne(reg: Registry, fragments: Fragments, s: Selection, depth: nat)
    ensures ExpandOne(fragments, s, depth) == ExpandOne(CoerceFragments(reg, fragments), s, depth)
            <==> UntouchedOne(reg, fragments, s, depth)
    decreases depth, s, 0
  {
    match s
    case Field(_, _, inside) => UntouchedExpands(reg, fragments, inside, depth);
    case Inline(_, inside) => UntouchedExpands(reg, fragments, inside, depth);
    case Spread(name) =>
      if depth > 0 && name in fragments {
        var f := fragments[name];
        if ExpandOne(fragments, s, depth) == ExpandOne(CoerceFragments(reg, fragments), s, depth) {
          ExpansionReflects(reg, fragments, f.set_, f.on, depth - 1);
        }
        UntouchedExpands(reg, fragments, f.set_, depth - 1);
      }
  }

  /** Coercing each fragment once and then opening spreads is opening them first
      and coercing the result, to any depth, if and only if no fragment that
      coercion changes is spread below a field the registry does not know. */
  lemma {:induction false} CoerceThenExpand(reg: Registry, fragments: Fragments, set_: seq<Selection>, type_: string,
                                            depth: nat)
    ensures (CoerceSet(reg, Expand(fragments, set_, depth), type_)
             == Expand(CoerceFragments(reg, fragments), CoerceSet(reg, set_, type_), depth))
            <==> Reached(reg, fragments, set_, type_, depth)
    decreases depth, set_, 0
  {
    var a := CoerceSet(reg, Expand(fragments, set_, depth), type_);
    var b := Expand(CoerceFragments(reg, fragments), CoerceSet(reg, set_, type_), depth);
    forall i | 0 <= i < |set_| ensures a[i] == b[i] <==> ReachedOne(reg, fragments, set_[i], type_, depth) {
      CoerceThenExpandOne(reg, fragments, set_[i], type_, depth);
    }
  }

  lemma {:induction false} CoerceThenExpandOne(reg: Registry, fragments: Fragments, s: Selection, type_: string,
                                               depth: nat)
    ensures (CoerceOne(reg, ExpandOne(fragments, s, depth), type_)
             == ExpandOne(CoerceFragments(reg, fragments), CoerceOne(reg, s, type_), depth))
            <==> ReachedOne(reg, fragments, s, type_, depth)
    decreases depth, s, 0
  {
    match s
    case Field(name, args, inside) =>
      var meta := reg.FieldOf(type_, name);
      if meta.Some? {
        CoerceThenExpand(reg, fragments, inside, Concrete(meta.value.type_), depth);
      } else {
        UntouchedExpands(reg, fragments, inside, depth);
      }
    case Inline(condition, inside) =>
      CoerceThenExpand(reg, fragments, inside, InlineType(condition, type_), depth);
    case Spread(name) =>
      if depth > 0 && name in fragments {
        CoerceThenExpand(reg, fragments, fragments[name].set_, fragments[name].on, depth - 1);
      }
  }

  // ----- Acyclic documents expand completely -----

  /** Every defined fragment spread in a selection ranks below `bound`. */
  ghost predicate Below(fragments: Fragments, rank: map<string, nat>, set_: seq<Selection>, bound: nat)
    decreases set_, 0
  {
    forall i | 0 <= i < |set_| :: BelowOne(fragments, rank, set_[i], bound)
  }

  ghost predicate BelowOne(fragments: Fragments, rank: map<string, nat>, s: Selection, bound: nat)
    decreases s, 0
  {
    match s
    case Field(_, _, inside) => Below(fragments, rank, inside, bound)
    case Inline(_, inside) => Below(fragments, rank, inside, bound)
    case Spread(name) => name in fragments ==> name in rank && rank[name] < bound
  }

  /** No fragment reaches itself: each spreads only fragments ranked below it. */
  ghost predicate Ranked(fragments: Fragments, rank: map<string, nat>) {
    forall f | f in fragments :: f in rank && Below(fragments, rank, fragments[f].set_, rank[f])
  }

  ghost predicate NoSpreads(fragments: Fragments, set_: seq<Selection>)
    decreases set_, 0
  {
    forall i | 0 <= i < |set_| ::
      match set_[i]
      case Field(_, _, inside) => NoSpreads(fragments, inside)
      case Inline(_, inside) => NoSpreads(fragments, inside)
      case Spread(name) => name !in fragments
  }

  lemma {:induction false} RankedExpands(fragments: Fragments, rank: map<string, nat>, set_: seq<Selection>, depth: nat)
    requires Ranked(fragments, rank) && Below(fragments, rank, set_, depth)
    ensures NoSpreads(fragments, Expand(fragments, set_, depth))
    decreases depth, set_
  {
    forall i | 0 <= i < |set_|
      ensures match ExpandOne(fragments, set_[i], depth)
        case Field(_, _, inside) => NoSpreads(fragments, inside)
        case Inline(_, inside) => NoSpreads(fragments, inside)
        case Spread(name) => name !in fragments
    {
      match set_[i]
      case Field(_, _, inside) => RankedExpands(fragments, rank, inside, depth);
      case Inline(_, inside) => RankedExpands(fragments, rank, inside, depth);
      case Spread(name) =>
        if name in fragments {
          BelowMore(fragments, rank, fragments[name].set_, rank[name], depth - 1);
          RankedExpands(fragments, rank, fragments[name].set_, depth - 1);
        }
    }
  }

  lemma {:induction false} BelowMore(fragments: Fragments, rank: map<string, nat>, set_: seq<Selection>, a: nat, b: nat)
    requires a <= b && Below(fragments, rank, set_, a)
    ensures Below(fragments, rank, set_, b)
    decreases set_
  {
    forall i | 0 <= i < |set_| ensures BelowOne(fragments, rank, set_[i], b) {
      match set_[i]
      case Field(_, _, inside) => BelowMore(fragments, rank, inside, a, b);
      case Inline(_, inside) => BelowMore(fragments, rank, inside, a, b);
      case Spread(_) =>
    }
  }

  /** `name` is spread somewhere in a selection, below any field. */
  ghost predicate Mentions(set_: seq<Selection>, name: string)
    decreases set_, 0
  {
    exists i | 0 <= i < |set_| :: MentionsOne(set_[i], name)
  }

  ghost predicate MentionsOne(s: Selection, name: string)
    decreases s, 0
  {
    match s
    case Field(_, _, inside) => Mentions(inside, name)
    case Inline(_, inside) => Mentions(inside, name)
    case Spread(spread) => spread == name
  }

  ghost function EdgesOf(fragments: Fragments): Edges {
    iset f, g | f in fragments && Mentions(fragments[f].set_, g) :: (f, g)
  }

  /** No chain of the document's fragments comes back to one of them. */
  ghost predicate AcyclicDocument(fragments: Fragments) { Acyclic(EdgesOf(fragments), iset f | f in fragments) }

  /** A chain of `k` steps through defined fragments, from `f`. */
  ghost predicate Reaches(fragments: Fragments, f: string, k: nat) {
    exists p :: ChainOf(fragments, p, f, k)
  }

  ghost predicate ChainOf(fragments: Fragments, p: seq<string>, f: string, k: nat) {
    |p| == k + 1 && p[0] == f && Chain(EdgesOf(fragments), p) && forall x | x in p :: x in fragments
  }

  /** The most steps up to `k` that a chain from `f` takes. */
  ghost function Longest(fragments: Fragments, f: string, k: nat): (n: nat)
    ensures n <= k
    ensures n > 0 ==> Reaches(fragments, f, n)
    ensures forall j: nat | j <= k && Reaches(fragments, f, j) :: j <= n
  {
    if k == 0 || Reaches(fragments, f, k) then k else Longest(fragments, f, k - 1)
  }

  ghost function Ranks(fragments: Fragments): map<string, nat> {
    map f | f in fragments :: Longest(fragments, f, |fragments|)
  }

  lemma {:induction false} ChainsFit(fragments: Fragments, p: seq<string>, f: string, k: nat)
    requires AcyclicDocument(fragments) && ChainOf(fragments, p, f, k)
    ensures k < |fragments|
  {
    assert p[0] in p;
    DistinctFits(p, fragments.Keys);
    assert |fragments.Keys| == |fragments|;
  }

  lemma {:induction false} RankBounded(fragments: Fragments, f: string)
    requires AcyclicDocument(fragments) && f in fragments
    ensures Longest(fragments, f, |fragments|) < |fragments|
    ensures Reaches(fragments, f, Longest(fragments, f, |fragments|))
  {
    assert ChainOf(fragments, [f], f, 0);
    var k := Longest(fragments, f, |fragments|);
    var p :| ChainOf(fragments, p, f, k);
    ChainsFit(fragments, p, f, k);
  }

  /** A fragment is longer than any it spreads. */
  lemma {:induction false} RankFalls(fragments: Fragments, f: string, g: string)
    requires AcyclicDocument(fragments) && f in fragments && g in fragments && Mentions(fragments[f].set_, g)
    ensures Longest(fragments, g, |fragments|) < Longest(fragments, f, |fragments|)
  {
    RankBounded(fragments, g);
    var k := Longest(fragments, g, |fragments|);
    var p :| ChainOf(fragments, p, g, k);
    var longer := [f] + p;
    forall i | 0 <= i < |longer| - 1 ensures (longer[i], longer[i + 1]) in EdgesOf(fragments) {
      if i > 0 { assert (p[i - 1], p[i]) in EdgesOf(fragments); }
    }
    assert ChainOf(fragments, longer, f, k + 1);
    ChainsFit(fragments, longer, f, k + 1);
    assert Reaches(fragments, f, k + 1);
  }

  lemma {:induction false} BelowIfSpread(fragments: Fragments, rank: map<string, nat>, set_: seq<Selection>, bound: nat)
    requires forall g | g in fragments && Mentions(set_, g) :: g in rank && rank[g] < bound
    ensures Below(fragments, rank, set_, bound)
    decreases set_
  {
    forall i | 0 <= i < |set_| ensures BelowOne(fragments, rank, set_[i], bound) {
      assert forall g :: MentionsOne(set_[i], g) ==> Mentions(set_, g);
      match set_[i]
      case Field(_, _, inside) =>
        assert forall g :: Mentions(inside, g) ==> MentionsOne(set_[i], g);
        BelowIfSpread(fragments, rank, inside, bound);
      case Inline(_, inside) =>
        assert forall g :: Mentions(inside, g) ==> MentionsOne(set_[i], g);
        BelowIfSpread(fragments, rank, inside, bound);
      case Spread(name) => assert MentionsOne(set_[i], name);
    }
  }

  /** The fragments of an acyclic document can be ranked. */
  lemma {:induction false} AcyclicIsRanked(fragments: Fragments)
    requires AcyclicDocument(fragments)
    ensures Ranked(fragments, Ranks(fragments))
    ensures forall f | f in fragments :: Ranks(fragments)[f] < |fragments|
  {
    var rank := Ranks(fragments);
    forall f | f in fragments ensures rank[f] < |fragments| && Below(fragments, rank, fragments[f].set_, rank[f]) {
      RankBounded(fragments, f);
      forall g | g in fragments && Mentions(fragments[f].set_, g) ensures rank[g] < rank[f] {
        RankFalls(fragments, f, g);
      }
      BelowIfSpread(fragments, rank, fragments[f].set_, rank[f]);
    }
  }

  /** An acyclic document opens completely, to as many levels as it has fragments;
      and there the two orders agree exactly when `Reached` holds. */
  lemma {:induction false} AcyclicOrdersAgree(reg: Registry, fragments: Fragments, set_: seq<Selection>, type_: string, depth: nat)
    requires AcyclicDocument(fragments) && |fragments| <= depth
    ensures NoSpreads(fragments, Expand(fragments, set_, depth))
    ensures (CoerceSet(reg, Expand(fragments, set_, depth), type_)
             == Expand(CoerceFragments(reg, fragments), CoerceSet(reg, set_, type_), depth))
            <==> Reached(reg, fragments, set_, type_, depth)
  {
    AcyclicIsRanked(fragments);
    BelowIfSpread(fragments, Ranks(fragments), set_, depth);
    RankedExpands(fragments, Ranks(fragments), set_, depth);
    CoerceThenExpand(reg, fragments, set_, type_, depth);
  }

  /** `{ unknown { ...f } }` with `f` holding an `offset: "1"`: coerced inside the
      fragment, left alone once the spread is opened. */
  lemma {:induction false} UnknownFieldHidesFragment(reg: Registry, fragments: Fragments, f: string, type_: string, field: string)
    requires f in fragments && reg.FieldOf(type_, field).None?
    requires CoerceSet(reg, fragments[f].set_, fragments[f].on) != fragments[f].set_
    ensures var set_ := [Field(field, [], [Spread(f)])];
      CoerceSet(reg, Expand(fragments, set_, 1), type_)
      != Expand(CoerceFragments(reg, fragments), CoerceSet(reg, set_, type_), 1)
  {
    var inside := [Spread(f)];
    var set_ := [Field(field, [], inside)];
    CoerceThenExpand(reg, fragments, set_, type_, 1);
    assert !UntouchedOne(reg, fragments, inside[0], 1);
    assert !Untouched(reg, fragments, inside, 1);
    assert !ReachedOne(reg, fragments, set_[0], type_, 1);
  }

  // ----- What a text is read as -----

  /** An integer's own digits read as that integer, `true` and `false` as themselves,
      a float as the library reads it; and nothing is read for any other type. */
  lemma {:induction false} WrittenReads(reg: Registry, text: string, n: int)
    requires -0x8000_0000_0000_0000 <= n < 0x8000_0000_0000_0000
    ensures AsWritten(reg, if n < 0 then "-" + Show(-n) else Show(n), "Int") == Some(Number(n as real))
    ensures AsWritten(reg, "true", "Boolean") == Some(Boolean(true))
    ensures AsWritten(reg, "false", "Boolean") == Some(Boolean(false))
    ensures text != "true" && text != "false" ==> AsWritten(reg, text, "Boolean").None?
    ensures match reg.float(text)
      case Some(r) => AsWritten(reg, text, "Float") == Some(Number(r))
      case None => AsWritten(reg, text, "Float").None?
  {
    IntReadsBack(n);
  }

  /** A text that is not an optional sign and digits is no integer. */
  lemma {:induction false} NotAnInteger(reg: Registry, text: string)
    requires var digits := if text != "" && (text[0] == '-' || text[0] == '+') then text[1..] else text;
      digits == "" || exists i | 0 <= i < |digits| :: !('0' <= digits[i] <= '9')
    ensures AsWritten(reg, text, "Int").None?
  {
  }

  // ----- Where a type is looked up -----

  /** An argument the registry declares for the field is held to its declared type. */
  lemma {:induction false} ArgumentHeld(reg: Registry, type_: string, fields: map<string, FieldMeta>, name: string,
                                        argument: string, v: Value)
    requires type_ in reg.types && reg.types[type_] == Output(fields)
    requires name in fields && argument in fields[name].arguments && argument != "limit"
    ensures CoerceOne(reg, Field(name, [Argument(argument, v)], []), type_)
      == Field(name, [Argument(argument, Coerce(reg, v, fields[name].arguments[argument]))], [])
  {
  }

  /** A field of an input object is held to the type the object declares for it. */
  lemma {:induction false} InputHeld(reg: Registry, type_: string, inputs: map<string, TypeRef>, key: string, v: Value)
    requires type_ in reg.types && reg.types[type_] == InputObject(inputs) && key in inputs
    ensures Coerce(reg, Object(map[key := v]), Named(type_)) == Object(map[key := Coerce(reg, v, inputs[key])])
  {
  }
}
