/** Spread embeds, dissolved into the objects that contain them. */
module Spreads {
  import opened JsonValues
  import opened Collections
  import EmbedCompiler

  predicate Reserved(key: string) { EmbedCompiler.SPREAD_KEY_PREFIX <= key }

  /** The names each spread was declared to produce, by its reserved key. */
  type Declared = map<string, seq<string>>

  function NamesOf(columns: Declared, key: string): seq<string> {
    if key in columns then columns[key] else []
  }

  function Field(row: Json, name: string): Json {
    if row.Obj? && name in row.fields then row.fields[name] else Null
  }

  /** One column of the rows of a to-many. */
  function Transposed(rows: seq<Json>, name: string): Json {
    Arr(seq(|rows|, i requires 0 <= i < |rows| => Field(rows[i], name)))
  }

  /** What one spread puts into the object around it. */
  function Offer(spread: Json, names: seq<string>): map<string, Json> {
    match spread
    case Obj(fields) => fields
    case Arr(rows) => map name <- names :: Transposed(rows, name)
    case _ => map name <- names :: Null
  }

  function Spread(host: map<string, Json>, key: string, columns: Declared): map<string, Json> {
    if key in host then (host - {key}) + Offer(host[key], NamesOf(columns, key)) else host
  }

  function SpreadAll(host: map<string, Json>, keys: seq<string>, columns: Declared): map<string, Json> {
    if keys == [] then host
    else Spread(SpreadAll(host, keys[..|keys| - 1], columns), keys[|keys| - 1], columns)
  }

  function ReservedKeys(host: map<string, Json>): set<string> { set key <- host | Reserved(key) }

  /** One value is what dissolving the spreads of another may give: children
      first, then the object's own spreads. */
  ghost predicate Flattens(value: Json, result: Json, columns: Declared)
    decreases value, 1
  {
    match value
    case Arr(items) =>
      && result.Arr?
      && |result.items| == |items|
      && forall i :: 0 <= i < |items| ==> Flattens(items[i], result.items[i], columns)
    case Obj(fields) =>
      && result.Obj?
      && exists inner, keys :: FlattensVia(value, inner, keys, result, columns)
    case _ => result == value
  }

  ghost predicate FlattensVia(value: Json, inner: map<string, Json>, keys: seq<string>, result: Json, columns: Declared)
    requires value.Obj? && result.Obj?
    decreases value, 0
  {
    && inner.Keys == value.fields.Keys
    && (forall key <- value.fields :: Flattens(value.fields[key], inner[key], columns))
    && Enumerates(keys, ReservedKeys(inner))
    && result.fields == SpreadAll(inner, keys, columns)
  }

  // ----- The walk as it is carried out -----

  method FlattenSpreads(value: Json, columns: Declared) returns (result: Json)
    ensures Flattens(value, result, columns)
    decreases value, 1
  {
    match value
    case Arr(items) =>
      var flat := items;
      for i := 0 to |items|
        invariant |flat| == |items|
        invariant forall j :: 0 <= j < i ==> Flattens(items[j], flat[j], columns)
        invariant forall j :: i <= j < |items| ==> flat[j] == items[j]
      {
        var item := FlattenSpreads(flat[i], columns);
        flat := flat[i := item];
      }
      result := Arr(flat);
    case Obj(fields) =>
      var inner := FlattenChildren(value, columns);
      var keys := Enumerate(ReservedKeys(inner));
      var host := inner;
      for i := 0 to |keys|
        invariant host == SpreadAll(inner, keys[..i], columns)
      {
        assert keys[..i + 1][..i] == keys[..i];
        host := SpreadOne(host, keys[i], columns);
      }
      assert keys[..|keys|] == keys;
      result := Obj(host);
      assert FlattensVia(value, inner, keys, result, columns);
    case _ => result := value;
  }

  method FlattenChildren(value: Json, columns: Declared) returns (inner: map<string, Json>)
    requires value.Obj?
    ensures inner.Keys == value.fields.Keys
    ensures forall key <- value.fields :: Flattens(value.fields[key], inner[key], columns)
    decreases value, 0
  {
    inner := value.fields;
    var waiting := value.fields.Keys;
    while waiting != {}
      invariant waiting <= value.fields.Keys == inner.Keys
      invariant forall key <- value.fields.Keys - waiting :: Flattens(value.fields[key], inner[key], columns)
      invariant forall key <- waiting :: inner[key] == value.fields[key]
    {
      var key :| key in waiting;
      waiting := waiting - {key};
      var child := FlattenSpreads(value.fields[key], columns);
      inner := inner[key := child];
    }
  }

  /** Take one spread out of the object and put its columns in. */
  method SpreadOne(host: map<string, Json>, key: string, columns: Declared) returns (out: map<string, Json>)
    ensures out == Spread(host, key, columns)
  {
    out := host;
    if key !in out { return; }
    var spread := out[key];
    out := out - {key};
    var names := NamesOf(columns, key);
    match spread
    case Obj(fields) => out := out + fields;
    case Arr(rows) => out := InsertColumns(out, rows, names);
    case _ => out := InsertNulls(out, names);
  }

  method InsertNulls(host: map<string, Json>, names: seq<string>) returns (out: map<string, Json>)
    ensures out == host + Offer(Null, names)
  {
    out := host;
    for i := 0 to |names|
      invariant out == host + Offer(Null, names[..i])
    {
      OfferMore(Null, names, i);
      out := out[names[i] := Null];
    }
    assert names[..|names|] == names;
  }

  method ColumnOf(rows: seq<Json>, name: string) returns (column: Json)
    ensures column == Transposed(rows, name)
  {
    var values := [];
    for i := 0 to |rows|
      invariant |values| == i
      invariant forall j :: 0 <= j < i ==> values[j] == Field(rows[j], name)
    {
      values := values + [Field(rows[i], name)];
    }
    column := Arr(values);
  }

  lemma {:induction false} OfferMore(spread: Json, names: seq<string>, i: nat)
    requires i < |names| && !spread.Obj?
    ensures Offer(spread, names[..i + 1])
      == Offer(spread, names[..i])[names[i] := if spread.Arr? then Transposed(spread.items, names[i]) else Null]
  {
    assert names[..i + 1] == names[..i] + [names[i]];
  }

  method InsertColumns(host: map<string, Json>, rows: seq<Json>, names: seq<string>) returns (out: map<string, Json>)
    ensures out == host + Offer(Arr(rows), names)
  {
    out := host;
    for i := 0 to |names|
      invariant out == host + Offer(Arr(rows), names[..i])
    {
      var column := ColumnOf(rows, names[i]);
      OfferMore(Arr(rows), names, i);
      out := out[names[i] := column];
    }
    assert names[..|names|] == names;
  }

  // ----- No reserved key remains -----

  /** No reserved key at any depth. */
  predicate Tidy(value: Json) {
    match value
    case Arr(items) => forall item <- items :: Tidy(item)
    case Obj(fields) => forall key <- fields :: !Reserved(key) && Tidy(fields[key])
    case _ => true
  }

  predicate TidyFields(host: map<string, Json>) { forall key <- host :: Tidy(host[key]) }

  /** No name a spread declares is a reserved one. */
  predicate PlainNames(columns: Declared) {
    forall key <- columns, name <- columns[key] :: Reserved(key) ==> !Reserved(name)
  }

  lemma {:induction false} OfferIsPlain(spread: Json, names: seq<string>)
    requires Tidy(spread) && forall name <- names :: !Reserved(name)
    ensures forall name <- Offer(spread, names) :: !Reserved(name)
    ensures TidyFields(Offer(spread, names))
  {
    if spread.Arr? {
      forall name <- Offer(spread, names) ensures Tidy(Transposed(spread.items, name)) {
        TransposedIsTidy(spread.items, name);
      }
    }
  }

  lemma {:induction false} TransposedIsTidy(rows: seq<Json>, name: string)
    requires forall row <- rows :: Tidy(row)
    ensures Tidy(Transposed(rows, name))
  {
    forall item <- Transposed(rows, name).items ensures Tidy(item) {
      var i :| 0 <= i < |rows| && item == Field(rows[i], name);
      assert Tidy(rows[i]);
    }
  }

  /** What holds part way: the spreads left are the ones not yet taken, as they
      were. */
  lemma {:induction false} SpreadsLeft(inner: map<string, Json>, keys: seq<string>, columns: Declared, n: nat)
    requires TidyFields(inner) && PlainNames(columns) && Enumerates(keys, ReservedKeys(inner)) && n <= |keys|
    ensures var out := SpreadAll(inner, keys[..n], columns);
      && TidyFields(out)
      && (forall i :: n <= i < |keys| ==> keys[i] in out && out[keys[i]] == inner[keys[i]])
      && (forall key <- out :: Reserved(key) ==> key in keys[n..])
    decreases n
  {
    if n == 0 {
      assert keys[..0] == [] && keys[0..] == keys;
    } else {
      SpreadsLeft(inner, keys, columns, n - 1);
      SpreadOnce(inner, keys, columns, n);
    }
  }

  lemma {:induction false} SpreadOnce(inner: map<string, Json>, keys: seq<string>, columns: Declared, n: nat)
    requires TidyFields(inner) && PlainNames(columns) && Enumerates(keys, ReservedKeys(inner)) && 0 < n <= |keys|
    requires var before := SpreadAll(inner, keys[..n - 1], columns);
      && TidyFields(before)
      && (forall i :: n - 1 <= i < |keys| ==> keys[i] in before && before[keys[i]] == inner[keys[i]])
      && (forall key <- before :: Reserved(key) ==> key in keys[n - 1..])
    ensures var out := SpreadAll(inner, keys[..n], columns);
      && TidyFields(out)
      && (forall i :: n <= i < |keys| ==> keys[i] in out && out[keys[i]] == inner[keys[i]])
      && (forall key <- out :: Reserved(key) ==> key in keys[n..])
  {
    var before := SpreadAll(inner, keys[..n - 1], columns);
    var key := keys[n - 1];
    assert keys[..n][..n - 1] == keys[..n - 1];
    assert SpreadAll(inner, keys[..n], columns) == Spread(before, key, columns);
    OfferIsPlain(inner[key], NamesOf(columns, key));
    assert keys[n - 1..] == [key] + keys[n..];
    forall i | n <= i < |keys| ensures Reserved(keys[i]) {
      assert keys[i] in ReservedKeys(inner);
    }
  }

  /** Where no declared name is reserved, no reserved key remains at any depth,
      in whatever order an object's spreads are taken. */
  lemma {:induction false} FlattenedIsTidy(value: Json, result: Json, columns: Declared)
    requires Flattens(value, result, columns) && PlainNames(columns)
    ensures Tidy(result)
    decreases value
  {
    match value
    case Arr(items) =>
      forall i | 0 <= i < |items| ensures Tidy(result.items[i]) {
        FlattenedIsTidy(items[i], result.items[i], columns);
      }
    case Obj(fields) =>
      var inner, keys :| FlattensVia(value, inner, keys, result, columns);
      forall key <- inner ensures Tidy(inner[key]) {
        FlattenedIsTidy(fields[key], inner[key], columns);
      }
      SpreadsLeft(inner, keys, columns, |keys|);
      assert keys[..|keys|] == keys;
    case _ =>
  }

  // ----- Flattening again -----

  lemma {:induction false} TidyStays(value: Json, result: Json, columns: Declared)
    requires Tidy(value) && Flattens(value, result, columns)
    ensures result == value
    decreases value
  {
    match value
    case Arr(items) =>
      forall i | 0 <= i < |items| ensures result.items[i] == items[i] {
        TidyStays(items[i], result.items[i], columns);
      }
      assert result.items == items;
    case Obj(fields) =>
      var inner, keys :| FlattensVia(value, inner, keys, result, columns);
      forall key <- fields ensures inner[key] == fields[key] {
        TidyStays(fields[key], inner[key], columns);
      }
      assert inner == fields;
      assert ReservedKeys(inner) == {};
    case _ =>
  }

  /** Flattening a flattened value is the identity, under any declarations. */
  lemma {:induction false} FlattenTwice(value: Json, once: Json, twice: Json, columns: Declared, again: Declared)
    requires PlainNames(columns)
    requires Flattens(value, once, columns) && Flattens(once, twice, again)
    ensures twice == once
  {
    FlattenedIsTidy(value, once, columns);
    TidyStays(once, twice, again);
  }

  lemma {:induction false} MatchedNothing(key: string, columns: Declared)
    requires Reserved(key)
    ensures Flattens(Obj(map[key := Null]), Obj(Offer(Null, NamesOf(columns, key))), columns)
  {
    var value, result := Obj(map[key := Null]), Obj(Offer(Null, NamesOf(columns, key)));
    var inner: map<string, Json> := map[key := Null];
    assert [key][..0] == [];
    assert SpreadAll(inner, [], columns) == inner;
    assert SpreadAll(inner, [key], columns) == Spread(inner, key, columns) == result.fields;
    assert ReservedKeys(inner) == {key} && [key][0] == key;
    assert FlattensVia(value, inner, [key], result, columns);
  }

  /** Reserved keys go from every value if and only if no spread declares one. */
  lemma {:induction false} TidyExactly(columns: Declared)
    ensures (forall value, result :: Flattens(value, result, columns) ==> Tidy(result)) <==> PlainNames(columns)
  {
    if PlainNames(columns) {
      forall value, result | Flattens(value, result, columns) ensures Tidy(result) {
        FlattenedIsTidy(value, result, columns);
      }
    } else {
      var key, name :| key in columns && name in columns[key] && Reserved(key) && Reserved(name);
      MatchedNothing(key, columns);
      var value, result := Obj(map[key := Null]), Obj(Offer(Null, NamesOf(columns, key)));
      assert name in result.fields;
      assert Flattens(value, result, columns) && !Tidy(result);
    }
  }

  // ----- What an object holds afterwards -----

  predicate Offers(inner: map<string, Json>, columns: Declared, key: string, name: string) {
    key in inner && Reserved(key) && name in Offer(inner[key], NamesOf(columns, key))
  }

  /** Every name an object ends with has its value from a spread that offers it,
      or from the object itself where none does. */
  ghost predicate Sourced(inner: map<string, Json>, columns: Declared, name: string, value: Json) {
    if exists key :: Offers(inner, columns, key, name)
    then exists key :: Offers(inner, columns, key, name) && value == Offer(inner[key], NamesOf(columns, key))[name]
    else name in inner && !Reserved(name) && value == inner[name]
  }

  /** The names an object ends with: all its spreads offer, and its own plain ones. */
  ghost predicate Dissolved(inner: map<string, Json>, out: map<string, Json>, columns: Declared) {
    && (forall name <- out :: Sourced(inner, columns, name, out[name]))
    && (forall key, name :: Offers(inner, columns, key, name) ==> name in out)
    && (forall name <- inner :: Reserved(name) || name in out)
  }

  /** The same after the first spreads only. */
  ghost predicate SourcedBy(inner: map<string, Json>, columns: Declared, keys: seq<string>, name: string, value: Json) {
    || (exists key <- keys :: Offers(inner, columns, key, name) && value == Offer(inner[key], NamesOf(columns, key))[name])
    || ((forall key <- keys :: !Offers(inner, columns, key, name)) && name in inner && name !in keys && value == inner[name])
  }

  ghost predicate SoFar(inner: map<string, Json>, columns: Declared, keys: seq<string>, out: map<string, Json>) {
    && (forall name <- out :: SourcedBy(inner, columns, keys, name, out[name]))
    && (forall key <- keys, name :: Offers(inner, columns, key, name) ==> name in out)
    && (forall name <- inner :: name in keys || name in out)
  }

  lemma {:induction false} OffersArePlain(inner: map<string, Json>, columns: Declared)
    requires TidyFields(inner) && PlainNames(columns)
    ensures forall key, name :: Offers(inner, columns, key, name) ==> !Reserved(name)
  {
    forall key, name | Offers(inner, columns, key, name) ensures !Reserved(name) {
      OfferIsPlain(inner[key], NamesOf(columns, key));
    }
  }

  lemma {:induction false} StillThere(inner: map<string, Json>, keys: seq<string>, columns: Declared, n: nat)
    requires TidyFields(inner) && PlainNames(columns) && Enumerates(keys, ReservedKeys(inner)) && n < |keys|
    ensures keys[n] in inner && Reserved(keys[n])
    ensures var before := SpreadAll(inner, keys[..n], columns);
      keys[n] in before && before[keys[n]] == inner[keys[n]]
  {
    assert keys[n] in ReservedKeys(inner);
    SpreadsLeft(inner, keys, columns, n);
  }

  lemma {:induction false} SourcesSoFar(inner: map<string, Json>, keys: seq<string>, columns: Declared, n: nat)
    requires TidyFields(inner) && PlainNames(columns) && Enumerates(keys, ReservedKeys(inner)) && n <= |keys|
    ensures SoFar(inner, columns, keys[..n], SpreadAll(inner, keys[..n], columns))
    decreases n
  {
    if n == 0 {
      assert keys[..0] == [];
    } else {
      SourcesSoFar(inner, keys, columns, n - 1);
      StillThere(inner, keys, columns, n - 1);
      OffersArePlain(inner, columns);
      OneMoreSource(inner, keys[..n - 1], keys[n - 1], columns, SpreadAll(inner, keys[..n - 1], columns));
      SpreadLast(inner, keys, columns, n);
    }
  }

  lemma SpreadLast(inner: map<string, Json>, keys: seq<string>, columns: Declared, n: nat)
    requires 0 < n <= |keys|
    ensures keys[..n] == keys[..n - 1] + [keys[n - 1]]
    ensures SpreadAll(inner, keys[..n], columns) == Spread(SpreadAll(inner, keys[..n - 1], columns), keys[n - 1], columns)
  {
    assert keys[..n][..n - 1] == keys[..n - 1];
  }

  lemma {:induction false} OneMoreSource(inner: map<string, Json>, done: seq<string>, key: string, columns: Declared,
                                         before: map<string, Json>)
    requires key in inner && Reserved(key) && key in before && before[key] == inner[key]
    requires forall k, name :: Offers(inner, columns, k, name) ==> !Reserved(name)
    requires SoFar(inner, columns, done, before)
    ensures SoFar(inner, columns, done + [key], Spread(before, key, columns))
  {
    var out := Spread(before, key, columns);
    forall name <- out ensures SourcedBy(inner, columns, done + [key], name, out[name]) {
      if Offers(inner, columns, key, name) {
        assert key in done + [key];
      } else {
        assert SourcedBy(inner, columns, done, name, before[name]);
        assert forall k <- done :: k in done + [key];
      }
    }
  }

  /** An object is dissolved from its flattened children: for every name a spread
      declares, what the spread holds; the rest as it was. Whatever the order. */
  lemma {:induction false} FlattenDissolves(value: Json, result: Json, columns: Declared) returns (inner: map<string, Json>)
    requires value.Obj? && Flattens(value, result, columns) && PlainNames(columns)
    ensures inner.Keys == value.fields.Keys
    ensures forall key <- inner :: Flattens(value.fields[key], inner[key], columns)
    ensures result.Obj? && Dissolved(inner, result.fields, columns)
  {
    var via, keys :| FlattensVia(value, via, keys, result, columns);
    inner := via;
    forall key <- inner ensures Tidy(inner[key]) {
      FlattenedIsTidy(value.fields[key], inner[key], columns);
    }
    SourcesSoFar(inner, keys, columns, |keys|);
    assert keys[..|keys|] == keys;
    SourcesAreAll(inner, keys, columns, result.fields);
  }

  lemma {:induction false} SourcesAreAll(inner: map<string, Json>, keys: seq<string>, columns: Declared, out: map<string, Json>)
    requires Enumerates(keys, ReservedKeys(inner))
    requires SoFar(inner, columns, keys, out)
    ensures Dissolved(inner, out, columns)
  {
    forall key, name | Offers(inner, columns, key, name) ensures name in out && key in keys {
      assert key in ReservedKeys(inner);
    }
    forall name <- out ensures Sourced(inner, columns, name, out[name]) {
      assert SourcedBy(inner, columns, keys, name, out[name]);
      if name in inner && Reserved(name) {
        assert name in ReservedKeys(inner);
      }
    }
  }

  /** A name one spread alone offers has that spread's value. */
  lemma {:induction false} OnlyOffer(inner: map<string, Json>, out: map<string, Json>, columns: Declared, key: string,
                                     name: string)
    requires Dissolved(inner, out, columns) && Offers(inner, columns, key, name)
    ensures name in out
    ensures (forall k :: Offers(inner, columns, k, name) ==> k == key) ==>
      out[name] == Offer(inner[key], NamesOf(columns, key))[name]
  {
    assert Sourced(inner, columns, name, out[name]);
  }

  /** A to-many spread of n rows gives each name it declares an array of n
      values, the i-th being row i's own or null where the row has none. Any
      other spread offering the same name may take its place. */
  lemma {:induction false} ToManySpread(value: Json, result: Json, columns: Declared, key: string, name: string)
    returns (inner: map<string, Json>)
    requires value.Obj? && Flattens(value, result, columns) && PlainNames(columns)
    requires key in value.fields && "pgrst_spread_" <= key && value.fields[key].Arr?
    requires key in columns && name in columns[key]
    ensures inner.Keys == value.fields.Keys
    ensures forall k <- inner :: Flattens(value.fields[k], inner[k], columns)
    ensures result.Obj? && name in result.fields
    ensures (forall k :: Offers(inner, columns, k, name) ==> k == key) ==>
      && inner[key].Arr?
      && result.fields[name].Arr?
      && |result.fields[name].items| == |inner[key].items| == |value.fields[key].items|
      && forall i :: 0 <= i < |inner[key].items| ==>
           var row := inner[key].items[i];
           result.fields[name].items[i] == if row.Obj? && name in row.fields then row.fields[name] else Null
  {
    inner := FlattenDissolves(value, result, columns);
    assert Flattens(value.fields[key], inner[key], columns);
    OnlyOffer(inner, result.fields, columns, key, name);
  }

  /** A spread that matched nothing gives each name it declares a null. */
  lemma {:induction false} EmptySpread(value: Json, result: Json, columns: Declared, key: string, name: string)
    returns (inner: map<string, Json>)
    requires value.Obj? && Flattens(value, result, columns) && PlainNames(columns)
    requires key in value.fields && "pgrst_spread_" <= key && value.fields[key].Null?
    requires key in columns && name in columns[key]
    ensures inner.Keys == value.fields.Keys
    ensures forall k <- inner :: Flattens(value.fields[k], inner[k], columns)
    ensures result.Obj? && name in result.fields
    ensures (forall k :: Offers(inner, columns, k, name) ==> k == key) ==> result.fields[name] == Null
  {
    inner := FlattenDissolves(value, result, columns);
    assert Flattens(value.fields[key], inner[key], columns);
    OnlyOffer(inner, result.fields, columns, key, name);
  }

  /** A to-one spread lifts each of its columns into the object around it. */
  lemma {:induction false} ToOneSpread(value: Json, result: Json, columns: Declared, key: string, name: string)
    returns (inner: map<string, Json>)
    requires value.Obj? && Flattens(value, result, columns) && PlainNames(columns)
    requires key in value.fields && "pgrst_spread_" <= key && value.fields[key].Obj?
    ensures inner.Keys == value.fields.Keys
    ensures forall k <- inner :: Flattens(value.fields[k], inner[k], columns)
    ensures result.Obj? && inner[key].Obj?
    ensures name in inner[key].fields ==> name in result.fields
    ensures name in inner[key].fields && (forall k :: Offers(inner, columns, k, name) ==> k == key) ==>
      result.fields[name] == inner[key].fields[name]
  {
    inner := FlattenDissolves(value, result, columns);
    assert Flattens(value.fields[key], inner[key], columns);
    if name in inner[key].fields {
      OnlyOffer(inner, result.fields, columns, key, name);
    }
  }
}
