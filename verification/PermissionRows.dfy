/** Which rows a permission lets through, against which rows its filter accepts. */
module PermissionRows {
  import opened Wrappers
  import opened PermissionFilter
  import opened PermissionMeaning

  // ----- Parts that constrain nothing -----

  /** What a filter that constrains nothing comes to, true or false, everywhere. */
  function Fixed(f: Filter): Option<bool>
    decreases f, 1
  {
    FixedEntries(f.entries)
  }

  function FixedEntries(es: seq<Entry>): Option<bool>
    decreases es, 0
  {
    if es == [] then Some(true) else FixedBoth(FixedEntry(es[0]), FixedEntries(es[1..]))
  }

  function FixedBranches(fs: seq<Filter>): Option<bool>
    decreases fs, 0
  {
    if fs == [] then Some(true) else FixedBoth(Fixed(fs[0]), FixedBranches(fs[1..]))
  }

  function FixedBoth(a: Option<bool>, b: Option<bool>): Option<bool> {
    if a.Some? && b.Some? then Some(a.value && b.value) else None
  }

  function FixedEntry(e: Entry): Option<bool>
    decreases e, 0
  {
    match e
    case And(_, branches) => FixedBranches(branches)
    case Not(_, inner) => (match Fixed(inner) case Some(b) => Some(!b) case None => None)
    case Column(_, Checks(checks)) => if checks == [] then Some(true) else None
    case _ => None
  }

  lemma {:induction false} FixedMeans(w: World, c: Caller, s: Schema, f: Filter, home: Table, scope: Table, row: Row)
    ensures Value(w, c, s, f, home, scope, row).None? <==> Fixed(f).Some?
    ensures Fixed(f).Some? ==> Means(w, c, s, f, home, scope, row) == Of(Fixed(f).value)
    decreases f, 1
  {
    FixedEntriesMean(w, c, s, f.entries, home, scope, row);
  }

  lemma {:induction false} FixedEntriesMean(w: World, c: Caller, s: Schema, es: seq<Entry>, home: Table, scope: Table,
                                            row: Row)
    ensures EntryValues(w, c, s, es, home, scope, row) == [] <==> FixedEntries(es).Some?
    ensures FixedEntries(es).Some? ==> AllOf(EntriesMean(w, c, s, es, home, scope, row)) == Of(FixedEntries(es).value)
    decreases es, 0
  {
    if es != [] {
      FixedEntryMeans(w, c, s, es[0], home, scope, row);
      FixedEntriesMean(w, c, s, es[1..], home, scope, row);
      var first, rest := EntryMeans(w, c, s, es[0], home, scope, row), EntriesMean(w, c, s, es[1..], home, scope, row);
      assert ([first] + rest)[1..] == rest;
    }
  }

  lemma {:induction false} FixedBranchesMean(w: World, c: Caller, s: Schema, fs: seq<Filter>, home: Table, scope: Table,
                                             row: Row)
    ensures BranchValues(w, c, s, fs, home, scope, row) == [] <==> FixedBranches(fs).Some?
    ensures FixedBranches(fs).Some? ==> AllOf(BranchesMean(w, c, s, fs, home, scope, row)) == Of(FixedBranches(fs).value)
    decreases fs, 0
  {
    if fs != [] {
      FixedMeans(w, c, s, fs[0], home, scope, row);
      FixedBranchesMean(w, c, s, fs[1..], home, scope, row);
      var first, rest := Means(w, c, s, fs[0], home, scope, row), BranchesMean(w, c, s, fs[1..], home, scope, row);
      assert ([first] + rest)[1..] == rest;
    }
  }

  lemma {:induction false} FixedEntryMeans(w: World, c: Caller, s: Schema, e: Entry, home: Table, scope: Table, row: Row)
    ensures EntryValue(w, c, s, e, home, scope, row) == [] <==> FixedEntry(e).Some?
    ensures FixedEntry(e).Some? ==> EntryMeans(w, c, s, e, home, scope, row) == Of(FixedEntry(e).value)
    decreases e, 0
  {
    match e
    case And(_, branches) => FixedBranchesMean(w, c, s, branches, home, scope, row);
    case Not(_, inner) => FixedMeans(w, c, s, inner, home, scope, row);
    case Column(_, test) => assert |Meant(c, test)| == if test.Checks? then |test.checks| else 1;
    case _ =>
  }

  // ----- Where leaving them out is harmless -----

  /** Nothing false is left out of a conjunction and nothing true out of an `_or`,
      at any depth of what is compiled at all. */
  predicate Sound(f: Filter)
    decreases f, 1
  {
    forall i | 0 <= i < |f.entries| :: EntryFaithful(f.entries[i])
  }

  predicate EntryFaithful(e: Entry)
    decreases e, 1
  {
    if FixedEntry(e).Some? then FixedEntry(e).value else SoundEntry(e)
  }

  /** In a conjunction: true, or compiled soundly. */
  predicate Faithful(f: Filter)
    decreases f, 2
  {
    if Fixed(f).Some? then Fixed(f).value else Sound(f)
  }

  /** In an `_or`: false, or compiled soundly. */
  predicate FaithfulChoice(f: Filter)
    decreases f, 2
  {
    if Fixed(f).Some? then !Fixed(f).value else Sound(f)
  }

  predicate SoundEntry(e: Entry)
    decreases e, 0
  {
    match e
    case And(_, branches) => forall i | 0 <= i < |branches| :: Faithful(branches[i])
    case Or(_, branches) => forall i | 0 <= i < |branches| :: FaithfulChoice(branches[i])
    case Not(_, inner) => Sound(inner)
    case Exists(_, _, where_) => where_.Some? ==> Faithful(where_.value)
    case Column(_, _) => true
    case Relationship(_, inner) => Faithful(inner)
  }

  lemma {:induction false} SoundMeans(w: World, c: Caller, s: Schema, f: Filter, home: Table, scope: Table, row: Row)
    requires Fixed(f).None? && Sound(f)
    ensures Value(w, c, s, f, home, scope, row) == Some(Means(w, c, s, f, home, scope, row))
    decreases f, 1
  {
    FixedMeans(w, c, s, f, home, scope, row);
    EntriesSound(w, c, s, f.entries, home, scope, row);
  }

  /** A row passes a faithful filter as compiled exactly when the filter holds. */
  lemma {:induction false} FaithfulMeans(w: World, c: Caller, s: Schema, f: Filter, home: Table, scope: Table, row: Row)
    requires Faithful(f)
    ensures Admits(Value(w, c, s, f, home, scope, row)) <==> Means(w, c, s, f, home, scope, row) == Yes
    decreases f, 2
  {
    FixedMeans(w, c, s, f, home, scope, row);
    if Fixed(f).None? { SoundMeans(w, c, s, f, home, scope, row); }
  }

  lemma {:induction false} EntriesSound(w: World, c: Caller, s: Schema, es: seq<Entry>, home: Table, scope: Table, row: Row)
    requires forall i | 0 <= i < |es| :: EntryFaithful(es[i])
    ensures AllOf(EntryValues(w, c, s, es, home, scope, row)) == AllOf(EntriesMean(w, c, s, es, home, scope, row))
    decreases es, 0
  {
    if es != [] {
      EntrySound(w, c, s, es[0], home, scope, row);
      EntriesSound(w, c, s, es[1..], home, scope, row);
      AllOfSum(EntryValue(w, c, s, es[0], home, scope, row), EntryValues(w, c, s, es[1..], home, scope, row));
      var first, rest := EntryMeans(w, c, s, es[0], home, scope, row), EntriesMean(w, c, s, es[1..], home, scope, row);
      assert ([first] + rest)[1..] == rest;
    }
  }

  lemma {:induction false} EntrySound(w: World, c: Caller, s: Schema, e: Entry, home: Table, scope: Table, row: Row)
    requires EntryFaithful(e)
    ensures AllOf(EntryValue(w, c, s, e, home, scope, row)) == EntryMeans(w, c, s, e, home, scope, row)
    decreases e, 1
  {
    FixedEntryMeans(w, c, s, e, home, scope, row);
    if FixedEntry(e).None? {
      match e
      case And(_, branches) =>
        AllSound(w, c, s, branches, home, scope, row);
        OneTruth(AllOf(BranchValues(w, c, s, branches, home, scope, row)));
      case Or(_, branches) =>
        AnySound(w, c, s, branches, home, scope, row);
        OneTruth(AnyOf(BranchValues(w, c, s, branches, home, scope, row)));
      case Not(_, inner) =>
        SoundMeans(w, c, s, inner, home, scope, row);
        OneTruth(Opposite(Means(w, c, s, inner, home, scope, row)));
      case Exists(_, table, where_) =>
        var t := Target(table, home.schema);
        if where_.Some? { RowsSound(w, c, s, where_.value, t, t, w.rows(t)); }
        OneTruth(EntryMeans(w, c, s, e, home, scope, row));
      case Column(_, _) =>
      case Relationship(name, inner) =>
        if (scope, name) in s.relationships {
          RowsSound(w, c, s, inner, home, s.relationships[(scope, name)], w.related(scope, name, row));
        }
        OneTruth(EntryMeans(w, c, s, e, home, scope, row));
    }
  }

  lemma {:induction false} AllSound(w: World, c: Caller, s: Schema, fs: seq<Filter>, home: Table, scope: Table, row: Row)
    requires forall i | 0 <= i < |fs| :: Faithful(fs[i])
    ensures AllOf(BranchValues(w, c, s, fs, home, scope, row)) == AllOf(BranchesMean(w, c, s, fs, home, scope, row))
    decreases fs, 0
  {
    if fs != [] {
      AllSound(w, c, s, fs[1..], home, scope, row);
      FixedMeans(w, c, s, fs[0], home, scope, row);
      if Fixed(fs[0]).None? { SoundMeans(w, c, s, fs[0], home, scope, row); }
      var first, rest := Means(w, c, s, fs[0], home, scope, row), BranchesMean(w, c, s, fs[1..], home, scope, row);
      assert ([first] + rest)[1..] == rest;
      OneTruth(first);
      AllOfSum(Present(Value(w, c, s, fs[0], home, scope, row)), BranchValues(w, c, s, fs[1..], home, scope, row));
    }
  }

  lemma {:induction false} AnySound(w: World, c: Caller, s: Schema, fs: seq<Filter>, home: Table, scope: Table, row: Row)
    requires forall i | 0 <= i < |fs| :: FaithfulChoice(fs[i])
    ensures AnyOf(BranchValues(w, c, s, fs, home, scope, row)) == AnyOf(BranchesMean(w, c, s, fs, home, scope, row))
    decreases fs, 0
  {
    if fs != [] {
      AnySound(w, c, s, fs[1..], home, scope, row);
      FixedMeans(w, c, s, fs[0], home, scope, row);
      if Fixed(fs[0]).None? { SoundMeans(w, c, s, fs[0], home, scope, row); }
      var first, rest := Means(w, c, s, fs[0], home, scope, row), BranchesMean(w, c, s, fs[1..], home, scope, row);
      assert ([first] + rest)[1..] == rest;
      OneTruth(first);
      AnyOfSum(Present(Value(w, c, s, fs[0], home, scope, row)), BranchValues(w, c, s, fs[1..], home, scope, row));
    }
  }

  lemma {:induction false} RowsSound(w: World, c: Caller, s: Schema, f: Filter, home: Table, scope: Table, rows: seq<Row>)
    requires Faithful(f)
    ensures SomeValued(w, c, s, f, home, scope, rows) == SomeMeant(w, c, s, f, home, scope, rows)
    decreases f, 3
  {
    forall i | 0 <= i < |rows|
      ensures Admits(Value(w, c, s, f, home, scope, rows[i])) <==> Means(w, c, s, f, home, scope, rows[i]) == Yes
    {
      FaithfulMeans(w, c, s, f, home, scope, rows[i]);
    }
  }

  // ----- The rows a permission lets through -----

  /** A row the permission's own predicate, rewritten and compiled, keeps. */
  ghost predicate Kept(w: World, c: Caller, s: Schema, filter: Doc, table: Table, row: Row)
    requires PermissionWhere(c, filter, table).Ok?
  {
    match PermissionWhere(c, filter, table).value
    case None => true
    case Some(added) => Admits(Compiled(w, c, s, added, table, row))
  }

  ghost predicate Accepts(w: World, c: Caller, s: Schema, f: Filter, table: Table, row: Row) {
    Means(w, c, s, f, table, table, row) == Yes
  }

  /** In every database the permission keeps exactly the rows the filter accepts. */
  ghost predicate SameRows(c: Caller, s: Schema, f: Filter, table: Table)
    requires PermissionWhere(c, Write(f), table).Ok?
  {
    forall w, row :: Kept(w, c, s, Write(f), table, row) <==> Accepts(w, c, s, f, table, row)
  }

  lemma {:induction false} KeptIsCompiled(w: World, c: Caller, s: Schema, f: Filter, table: Table, row: Row)
    requires PermissionWhere(c, Write(f), table).Ok?
    ensures Rewrite(c, Write(f), table, None).Ok?
    ensures Kept(w, c, s, Write(f), table, row)
      == Admits(Compiled(w, c, s, Rewrite(c, Write(f), table, None).value, table, row))
  {
  }

  lemma {:induction false} KeptIsValued(w: World, c: Caller, s: Schema, f: Filter, table: Table, row: Row)
    requires WellFormed(s, f, table, table) && Followed(c, s, f, None, table, table)
    requires PermissionWhere(c, Write(f), table).Ok?
    ensures Kept(w, c, s, Write(f), table, row) == Admits(Value(w, c, s, f, table, table, row))
  {
    KeptIsCompiled(w, c, s, f, table, row);
    FilterCompiled(w, c, s, f, None, table, table, row, Rewrite(c, Write(f), table, None).value);
  }

  /** For every session, database and row, a permission keeps exactly the rows its
      filter accepts, where the rewriter follows the filter and what constrains
      nothing is left out harmlessly. */
  lemma {:induction false} PermissionKeepsSameRows(c: Caller, s: Schema, f: Filter, table: Table)
    requires WellFormed(s, f, table, table) && Followed(c, s, f, None, table, table) && Faithful(f)
    requires PermissionWhere(c, Write(f), table).Ok?
    ensures SameRows(c, s, f, table)
  {
    forall w, row ensures Kept(w, c, s, Write(f), table, row) <==> Accepts(w, c, s, f, table, row) {
      KeptIsValued(w, c, s, f, table, row);
      FaithfulMeans(w, c, s, f, table, table, row);
    }
  }

  // ----- Exactly when leaving parts out is harmless -----

  lemma {:induction false} OneBranchMeans(w: World, c: Caller, s: Schema, e: Entry, home: Table, scope: Table, row: Row)
    ensures Means(w, c, s, Filter([e]), home, scope, row) == EntryMeans(w, c, s, e, home, scope, row)
    ensures Value(w, c, s, Filter([e]), home, scope, row) == Joined(EntryValue(w, c, s, e, home, scope, row))
  {
    var es := [e];
    assert es[1..] == [];
    OneTruth(EntryMeans(w, c, s, e, home, scope, row));
    assert EntriesMean(w, c, s, es, home, scope, row) == [EntryMeans(w, c, s, e, home, scope, row)] + [];
    assert EntryValues(w, c, s, es, home, scope, row) == EntryValue(w, c, s, e, home, scope, row) + [];
    assert EntryValue(w, c, s, e, home, scope, row) + [] == EntryValue(w, c, s, e, home, scope, row);
  }

  lemma FixedOne(e: Entry)
    ensures Fixed(Filter([e])) == FixedEntry(e)
  {
    var es := [e];
    assert es[1..] == [];
    assert FixedEntries(es) == FixedBoth(FixedEntry(e), FixedEntries([]));
  }

  /** `_not` of a filter keeps the rows it should if and only if the filter is not
      one that constrains nothing and so is true: that is left out, and every row
      is kept where none should be. */
  lemma {:induction false} NotExactly(c: Caller, s: Schema, legacy: bool, inner: Filter, table: Table)
    requires var f := Filter([Not(legacy, inner)]);
      && WellFormed(s, f, table, table) && Followed(c, s, f, None, table, table)
      && PermissionWhere(c, Write(f), table).Ok?
    requires Fixed(inner).None? ==> Sound(inner)
    ensures SameRows(c, s, Filter([Not(legacy, inner)]), table) <==> Fixed(inner) != Some(true)
  {
    var e := Not(legacy, inner);
    var f := Filter([e]);
    FixedOne(e);
    if Fixed(inner) == Some(true) {
      var w, row: Row := World(_ => [], (_, _, _) => [], (_, _, _, _) => No), map[];
      NotOfNothing(w, c, s, legacy, inner, table, row);
      assert Kept(w, c, s, Write(f), table, row) && !Accepts(w, c, s, f, table, row);
    } else {
      assert EntryFaithful(e) && f.entries[0] == e;
      PermissionKeepsSameRows(c, s, f, table);
    }
  }

  lemma {:induction false} NotOfNothing(w: World, c: Caller, s: Schema, legacy: bool, inner: Filter, table: Table, row: Row)
    requires var f := Filter([Not(legacy, inner)]);
      && WellFormed(s, f, table, table) && Followed(c, s, f, None, table, table)
      && PermissionWhere(c, Write(f), table).Ok?
    requires Fixed(inner) == Some(true)
    ensures var f := Filter([Not(legacy, inner)]);
      Kept(w, c, s, Write(f), table, row) && !Accepts(w, c, s, f, table, row)
  {
    KeptIsValued(w, c, s, Filter([Not(legacy, inner)]), table, row);
    OneBranchMeans(w, c, s, Not(legacy, inner), table, table, row);
    FixedMeans(w, c, s, inner, table, table, row);
  }

  /** Some branch that constrains something accepts the row. */
  ghost predicate OthersAccept(w: World, c: Caller, s: Schema, branches: seq<Filter>, table: Table, row: Row) {
    AnyOf(BranchValues(w, c, s, branches, table, table, row)) == Yes
  }

  /** An `_or` keeps the rows it should if and only if no branch constrains nothing
      and so is true -- or the branches that are left accept every row anyway. */
  lemma {:induction false} OrExactly(c: Caller, s: Schema, legacy: bool, branches: seq<Filter>, table: Table)
    requires var f := Filter([Or(legacy, branches)]);
      && WellFormed(s, f, table, table) && Followed(c, s, f, None, table, table)
      && PermissionWhere(c, Write(f), table).Ok?
    requires forall i | 0 <= i < |branches| :: Fixed(branches[i]).None? ==> Sound(branches[i])
    ensures SameRows(c, s, Filter([Or(legacy, branches)]), table)
      <==> (|| (forall i | 0 <= i < |branches| :: Fixed(branches[i]) != Some(true))
            || (forall w, row :: OthersAccept(w, c, s, branches, table, row)))
  {
    var e := Or(legacy, branches);
    var f := Filter([e]);
    forall w, row
      ensures Kept(w, c, s, Write(f), table, row) == OthersAccept(w, c, s, branches, table, row)
      ensures Accepts(w, c, s, f, table, row) == (AnyOf(BranchesMean(w, c, s, branches, table, table, row)) == Yes)
    {
      KeptIsValued(w, c, s, f, table, row);
      OneBranchMeans(w, c, s, e, table, table, row);
      OneTruth(AnyOf(BranchValues(w, c, s, branches, table, table, row)));
    }
    if forall i | 0 <= i < |branches| :: Fixed(branches[i]) != Some(true) {
      forall w, row ensures Kept(w, c, s, Write(f), table, row) <==> Accepts(w, c, s, f, table, row) {
        AnySound(w, c, s, branches, table, table, row);
      }
    } else {
      var i :| 0 <= i < |branches| && Fixed(branches[i]) == Some(true);
      forall w, row ensures Accepts(w, c, s, f, table, row) {
        FixedMeans(w, c, s, branches[i], table, table, row);
        OneHolds(w, c, s, branches, table, row, i);
      }
    }
  }

  lemma {:induction false} OneHolds(w: World, c: Caller, s: Schema, fs: seq<Filter>, table: Table, row: Row, i: nat)
    requires i < |fs| && Means(w, c, s, fs[i], table, table, row) == Yes
    ensures AnyOf(BranchesMean(w, c, s, fs, table, table, row)) == Yes
    decreases |fs|
  {
    var rest := BranchesMean(w, c, s, fs[1..], table, table, row);
    assert ([Means(w, c, s, fs[0], table, table, row)] + rest)[1..] == rest;
    if i > 0 { OneHolds(w, c, s, fs[1..], table, row, i - 1); }
  }

  /** A filter one of whose entries compares a column. */
  predicate Compares(f: Filter) {
    exists i | 0 <= i < |f.entries| :: f.entries[i].Column? && FixedEntry(f.entries[i]).None?
  }

  /** Where every branch that constrains something compares a column, an `_or`
      keeps the rows it should if and only if no branch constrains nothing and so
      is true. */
  lemma {:induction false} OrOfComparisons(c: Caller, s: Schema, legacy: bool, branches: seq<Filter>, table: Table)
    requires var f := Filter([Or(legacy, branches)]);
      && WellFormed(s, f, table, table) && Followed(c, s, f, None, table, table)
      && PermissionWhere(c, Write(f), table).Ok?
    requires forall i | 0 <= i < |branches| :: Fixed(branches[i]).None? ==> Sound(branches[i]) && Compares(branches[i])
    ensures SameRows(c, s, Filter([Or(legacy, branches)]), table)
      <==> forall i | 0 <= i < |branches| :: Fixed(branches[i]) != Some(true)
  {
    OrExactly(c, s, legacy, branches, table);
    var w, row: Row := World(_ => [], (_, _, _) => [], (_, _, _, _) => No), map[];
    NothingCompares(w, c, s, branches, table, row);
    assert !OthersAccept(w, c, s, branches, table, row);
  }

  lemma {:induction false} NothingCompares(w: World, c: Caller, s: Schema, fs: seq<Filter>, table: Table, row: Row)
    requires forall r, name, operator, operand :: w.check(r, name, operator, operand) == No
    requires forall i | 0 <= i < |fs| :: Fixed(fs[i]).None? ==> Compares(fs[i])
    ensures AnyOf(BranchValues(w, c, s, fs, table, table, row)) == No
  {
    if fs != [] {
      NothingCompares(w, c, s, fs[1..], table, row);
      FixedMeans(w, c, s, fs[0], table, table, row);
      var first := Present(Value(w, c, s, fs[0], table, table, row));
      if Fixed(fs[0]).None? {
        var i :| 0 <= i < |fs[0].entries| && fs[0].entries[i].Column? && FixedEntry(fs[0].entries[i]).None?;
        ColumnFails(w, c, s, fs[0].entries, table, row, i);
        OneTruth(No);
      }
      AnyOfSum(first, BranchValues(w, c, s, fs[1..], table, table, row));
    }
  }

  lemma {:induction false} ColumnFails(w: World, c: Caller, s: Schema, es: seq<Entry>, table: Table, row: Row, i: nat)
    requires forall r, name, operator, operand :: w.check(r, name, operator, operand) == No
    requires i < |es| && es[i].Column? && FixedEntry(es[i]).None?
    ensures AllOf(EntryValues(w, c, s, es, table, table, row)) == No
    decreases |es|
  {
    AllOfSum(EntryValue(w, c, s, es[0], table, table, row), EntryValues(w, c, s, es[1..], table, table, row));
    if i > 0 {
      ColumnFails(w, c, s, es[1..], table, row, i - 1);
    } else {
      var truths := Checked(w, row, es[0].name, Meant(c, es[0].test));
      assert |truths| > 0 && truths[0] == No;
    }
  }

  /** The entries that constrain something all hold of the row. */
  ghost predicate OthersHold(w: World, c: Caller, s: Schema, entries: seq<Entry>, table: Table, row: Row) {
    AllOf(EntryValues(w, c, s, entries, table, table, row)) == Yes
  }

  /** The entries of a filter, taken together, keep the rows they should if and only
      if none constrains nothing and yet is false -- or those that are left hold
      of no row anyway. */
  lemma {:induction false} AllExactly(c: Caller, s: Schema, f: Filter, table: Table)
    requires WellFormed(s, f, table, table) && Followed(c, s, f, None, table, table)
    requires PermissionWhere(c, Write(f), table).Ok?
    requires forall i | 0 <= i < |f.entries| :: FixedEntry(f.entries[i]).None? ==> SoundEntry(f.entries[i])
    ensures SameRows(c, s, f, table)
      <==> (|| (forall i | 0 <= i < |f.entries| :: FixedEntry(f.entries[i]) != Some(false))
            || (forall w, row :: !OthersHold(w, c, s, f.entries, table, row)))
  {
    forall w, row ensures Kept(w, c, s, Write(f), table, row) == OthersHold(w, c, s, f.entries, table, row) {
      KeptIsValued(w, c, s, f, table, row);
    }
    if forall i | 0 <= i < |f.entries| :: FixedEntry(f.entries[i]) != Some(false) {
      forall w, row ensures Kept(w, c, s, Write(f), table, row) <==> Accepts(w, c, s, f, table, row) {
        EntriesSound(w, c, s, f.entries, table, table, row);
      }
    } else {
      var i :| 0 <= i < |f.entries| && FixedEntry(f.entries[i]) == Some(false);
      forall w, row ensures !Accepts(w, c, s, f, table, row) {
        FixedEntryMeans(w, c, s, f.entries[i], table, table, row);
        OneFails(w, c, s, f.entries, table, row, i);
      }
    }
  }

  lemma {:induction false} OneFails(w: World, c: Caller, s: Schema, es: seq<Entry>, table: Table, row: Row, i: nat)
    requires i < |es| && EntryMeans(w, c, s, es[i], table, table, row) == No
    ensures AllOf(EntriesMean(w, c, s, es, table, table, row)) == No
    decreases |es|
  {
    var rest := EntriesMean(w, c, s, es[1..], table, table, row);
    assert ([EntryMeans(w, c, s, es[0], table, table, row)] + rest)[1..] == rest;
    if i > 0 { OneFails(w, c, s, es[1..], table, row, i - 1); }
  }

  /** Which filter is not faithful cannot be told from the rows alone: here what is
      left out is masked by an empty `_or` beside it. */
  lemma {:induction false} MaskedDifference(c: Caller, s: Schema, table: Table)
    ensures var f := Filter([Or(false, []), Not(false, Filter([]))]);
      !Faithful(f) && PermissionWhere(c, Write(f), table).Ok? && SameRows(c, s, f, table)
  {
    var masked := Not(false, Filter([]));
    var f := Filter([Or(false, []), masked]);
    assert FixedEntry(masked) == Some(false);
    assert !EntryFaithful(f.entries[1]);
    MaskedWhere(c, table);
    assert f.entries[1..] == [masked] && f.entries[1..][1..] == [];
    assert OutKeys(c, f, table, None) == ["_or", "_not"];
    assert Followed(c, s, Filter([]), None, table, table);
    assert FollowedEntry(c, s, f.entries[0], None, table, table) && FollowedEntry(c, s, f.entries[1], None, table, table);
    forall w, row ensures Kept(w, c, s, Write(f), table, row) <==> Accepts(w, c, s, f, table, row) {
      KeptIsValued(w, c, s, f, table, row);
      MaskedRejects(w, c, s, table, row);
    }
  }

  lemma {:induction false} MaskedRejects(w: World, c: Caller, s: Schema, table: Table, row: Row)
    ensures var f := Filter([Or(false, []), Not(false, Filter([]))]);
      Means(w, c, s, f, table, table, row) == No && Value(w, c, s, f, table, table, row) == Some(No)
  {
    var empty, masked := Or(false, []), Not(false, Filter([]));
    var es := [empty, masked];
    assert es[1..] == [masked];
    assert EntryMeans(w, c, s, empty, table, table, row) == No;
    assert EntryValue(w, c, s, empty, table, table, row) == [No];
    var rest := EntryValues(w, c, s, [masked], table, table, row);
    assert ([No] + rest)[0] == No;
    var more := EntriesMean(w, c, s, [masked], table, table, row);
    assert ([No] + more)[0] == No;
  }

  lemma {:induction false} MaskedWhere(c: Caller, table: Table)
    ensures PermissionWhere(c, Write(Filter([Or(false, []), Not(false, Filter([]))])), table).Ok?
  {
    var fields := Write(Filter([Or(false, []), Not(false, Filter([]))])).fields;
    SpelledKeys(false, "or");
    SpelledKeys(false, "not");
    assert WriteAll([]).items == [] && Write(Filter([])).fields == [];
    assert fields[0] == Field(Spelled(false, "or"), Arr([])) && fields[1] == Field(Spelled(false, "not"), Obj([]));
    assert RewriteItems(c, [], table, None) == Ok([]) && RewriteFields(c, [], table) == Ok([]) && InsertAll([]) == [];
    assert Rewrite(c, Arr([]), table, None) == Ok(Arr([])) && Rewrite(c, Obj([]), table, None) == Ok(Obj([]));
    assert RewriteField(c, fields[0], table).Ok? && RewriteField(c, fields[1], table).Ok?;
    assert RewriteFields(c, fields, table).Ok?;
  }

  // ----- Exactly when the rewriter follows -----

  /** A filter of one entry is rewritten to an object of one field. */
  lemma {:induction false} OneEntry(c: Caller, e: Entry, home: Table, mode: Option<string>) returns (out: Field)
    requires Rewrite(c, Write(Filter([e])), home, mode).Ok?
    ensures RewriteIn(c, WriteEntry(e), home, mode) == Ok(out)
    ensures Rewrite(c, Write(Filter([e])), home, mode) == Ok(Obj([out]))
  {
    var fields := Write(Filter([e])).fields;
    assert fields == [WriteEntry(e)];
    var list := FieldsRewritten(c, fields, home, mode, Rewrite(c, Write(Filter([e])), home, mode).value);
    out := list[0];
    OneInserted(list);
  }

  lemma {:induction false} OneInserted(list: seq<Field>)
    requires |list| == 1
    ensures InsertAll(list) == [list[0]]
  {
    assert list[..0] == [] && InsertAll([]) == [];
  }

  lemma {:induction false} OneField(w: World, c: Caller, s: Schema, f: Field, scope: Table, row: Row)
    ensures Compiled(w, c, s, Obj([f]), scope, row) == Joined(Condition(w, c, s, f, scope, row))
  {
    var fields := [f];
    assert fields[1..] == [];
    assert Conditions(w, c, s, fields, scope, row) == Condition(w, c, s, f, scope, row) + [];
    assert Condition(w, c, s, f, scope, row) + [] == Condition(w, c, s, f, scope, row);
  }

  /** A test of one comparison. */
  predicate Single(test: Test) { test.Equals? || |test.checks| == 1 }

  /** The one comparison a single test means. */
  function TheCheck(c: Caller, test: Test): Check
    requires Single(test)
  {
    Meant(c, test)[0]
  }

  lemma {:induction false} SingleMeans(w: World, c: Caller, s: Schema, name: string, test: Test, home: Table, scope: Table,
                                       row: Row)
    requires Single(test)
    ensures var t := w.check(row, name, TheCheck(c, test).operator, TheCheck(c, test).operand);
      && Means(w, c, s, Filter([Column(name, test)]), home, scope, row) == t
      && Value(w, c, s, Filter([Column(name, test)]), home, scope, row) == Some(t)
  {
    OneBranchMeans(w, c, s, Column(name, test), home, scope, row);
    var t := w.check(row, name, TheCheck(c, test).operator, TheCheck(c, test).operand);
    assert Checked(w, row, name, Meant(c, test)) == [t];
    OneTruth(t);
  }

  /** What a single test comes out as is one comparison too. */
  lemma {:induction false} SingleCame(c: Caller, test: Test, name: string, home: Table, mode: Option<string>, out: Doc)
    requires Single(test) && WellFormedTest(test) && Came(c, WriteEntry(Column(name, test)).value, home, mode, out)
    ensures |ReadChecks(out)| == 1
  {
    match test
    case Equals(literal) => LiteralRewritten(c, literal, home, mode, out);
    case Checks(checks) =>
      var list := FieldsRewritten(c, WriteChecks(checks).fields, home, mode, Rewrite(c, WriteChecks(checks), home, mode).value);
      OneInserted(list);
  }

  /** A database that answers one question only: whether this column compares so. */
  ghost predicate Singular(w: World, row: Row, name: string, check: Check) {
    && (forall t, n :: w.related(t, n, row) == [])
    && (forall n, operator, operand ::
          w.check(row, n, operator, operand) == Of(n == name && operator == check.operator && operand == check.operand))
  }

  /** Such a database, where one row leads to another. */
  ghost function Asking(name: string, check: Check, here: Row, there: seq<Row>): World {
    World(_ => [], (_, _, row) => if row == here then there else [],
          (_, n, operator, operand) => Of(n == name && operator == check.operator && operand == check.operand))
  }

  lemma AskingSingular(name: string, check: Check, here: Row, there: seq<Row>, row: Row)
    requires row != here || there == []
    ensures Singular(Asking(name, check, here, there), row, name, check)
    ensures forall t, n :: Asking(name, check, here, there).related(t, n, here) == there
  {
  }

  /** There, a column that is not followed is lost. */
  lemma {:induction false} ColumnLost(w: World, c: Caller, s: Schema, e: Entry, mode: Option<string>, home: Table, scope: Table,
                                      row: Row, out: Field)
    requires e.Column? && Single(e.test) && WellFormedEntry(s, e, home, scope)
    requires RewriteIn(c, WriteEntry(e), home, mode) == Ok(out) && !Keyword(out.key)
    requires !FollowedEntry(c, s, e, mode, home, scope) && Singular(w, row, e.name, TheCheck(c, e.test))
    ensures Joined(Condition(w, c, s, out, scope, row)) == Some(No)
  {
    EntryRewritten(c, s, e, mode, home, scope, out);
    OneTruth(No);
    if (scope, out.key) in s.relationships {
      assert Condition(w, c, s, out, scope, row) == [No];
    } else {
      ColumnRead(w, c, s, scope, row, out);
      TestRewritten(c, e.test, e.name, home, Inside(e, mode), out.value);
      SingleCame(c, e.test, e.name, home, Inside(e, mode), out.value);
      var came := ReadChecks(out.value);
      assert came == [came[0]] && Meant(c, e.test) == [TheCheck(c, e.test)];
      assert Condition(w, c, s, out, scope, row) == [No];
    }
  }

  /** One comparison of a column keeps the rows it should, in every database, if and
      only if the rewriter follows it: its key leads back to it, and what it is
      compared with comes out as meant. */
  lemma {:induction false} ColumnExactly(c: Caller, s: Schema, name: string, test: Test, table: Table)
    requires Single(test)
    requires var f := Filter([Column(name, test)]);
      WellFormed(s, f, table, table) && PermissionWhere(c, Write(f), table).Ok?
    requires !Keyword(NameKey(c, name, table))
    ensures SameRows(c, s, Filter([Column(name, test)]), table)
      <==> (Lands(c, s, table, NameKey(c, name, table), name) && TestFollowed(c, test, NameMode(name), table))
  {
    var e := Column(name, test);
    var f := Filter([e]);
    assert WellFormedEntry(s, f.entries[0], table, table);
    if FollowedEntry(c, s, e, None, table, table) {
      FollowedAlone(c, s, e, None, table, table);
      ComparisonFaithful(e);
      PermissionKeepsSameRows(c, s, f, table);
    } else {
      var row: Row := map[];
      var w := Asking(name, TheCheck(c, test), row, []);
      AskingSingular(name, TheCheck(c, test), row, [], row);
      ColumnLostHere(w, c, s, e, table, row);
      assert !Kept(w, c, s, Write(f), table, row) && Accepts(w, c, s, f, table, row);
    }
  }

  lemma {:induction false} ColumnLostHere(w: World, c: Caller, s: Schema, e: Entry, table: Table, row: Row)
    requires e.Column? && Single(e.test) && WellFormedEntry(s, e, table, table)
    requires PermissionWhere(c, Write(Filter([e])), table).Ok? && !Keyword(OutKey(c, e, table, None))
    requires !FollowedEntry(c, s, e, None, table, table) && Singular(w, row, e.name, TheCheck(c, e.test))
    ensures !Kept(w, c, s, Write(Filter([e])), table, row) && Accepts(w, c, s, Filter([e]), table, row)
  {
    KeptIsCompiled(w, c, s, Filter([e]), table, row);
    var out := OneEntry(c, e, table, None);
    EntryRewritten(c, s, e, None, table, table, out);
    ColumnLost(w, c, s, e, None, table, table, row, out);
    OneField(w, c, s, out, table, row);
    SingleMeans(w, c, s, e.name, e.test, table, table, row);
  }

  lemma {:induction false} FollowedAlone(c: Caller, s: Schema, e: Entry, mode: Option<string>, home: Table, scope: Table)
    requires FollowedEntry(c, s, e, mode, home, scope)
    ensures Followed(c, s, Filter([e]), mode, home, scope)
  {
    assert OutKeys(c, Filter([e]), home, mode) == [OutKey(c, e, home, mode)];
  }

  lemma {:induction false} ComparisonFaithful(e: Entry)
    requires e.Column? && Single(e.test)
    ensures Fixed(Filter([e])).None? && Sound(Filter([e])) && Faithful(Filter([e]))
  {
    FixedOne(e);
    assert EntryFaithful(e) && Filter([e]).entries[0] == e;
  }

  /** The rows at the other end of a relationship, tested by one entry. */
  lemma {:induction false} ThroughRelationship(w: World, c: Caller, s: Schema, name: string, inner: Entry, table: Table,
                                               row: Row) returns (out: Field)
    requires var f := Filter([Relationship(name, Filter([inner]))]);
      WellFormed(s, f, table, table) && PermissionWhere(c, Write(f), table).Ok?
    requires NameKey(c, name, table) == name && !Keyword(name) && (table, name) in s.relationships
    ensures RewriteIn(c, WriteEntry(inner), table, NameMode(name)) == Ok(out)
    ensures WellFormedEntry(s, inner, table, s.relationships[(table, name)])
    ensures var f := Filter([Relationship(name, Filter([inner]))]);
      && (Kept(w, c, s, Write(f), table, row)
          <==> SomePasses(w, c, s, Obj([out]), s.relationships[(table, name)], w.related(table, name, row)))
      && (Accepts(w, c, s, f, table, row)
          <==> SomeMeant(w, c, s, Filter([inner]), table, s.relationships[(table, name)], w.related(table, name, row)))
  {
    var e := Relationship(name, Filter([inner]));
    var f := Filter([e]);
    KeptIsCompiled(w, c, s, f, table, row);
    assert WellFormedEntry(s, f.entries[0], table, table);
    assert WellFormedEntry(s, Filter([inner]).entries[0], table, s.relationships[(table, name)]);
    var outer := OneEntry(c, e, table, None);
    EntryRewritten(c, s, e, None, table, table, outer);
    ObjectCame(c, e.inner, table, NameMode(name), outer.value);
    out := OneEntry(c, inner, table, NameMode(name));
    OneField(w, c, s, outer, table, row);
    OneBranchMeans(w, c, s, e, table, table, row);
    OneTruth(Of(SomePasses(w, c, s, outer.value, s.relationships[(table, name)], w.related(table, name, row))));
  }

  /** The same of a comparison through a relationship: the key this table's renames
      give the column has to lead back to it over there. */
  lemma {:induction false} RelatedColumnExactly(c: Caller, s: Schema, relationship: string, name: string, test: Test, table: Table)
    requires Single(test)
    requires var f := Filter([Relationship(relationship, Filter([Column(name, test)]))]);
      WellFormed(s, f, table, table) && PermissionWhere(c, Write(f), table).Ok?
    requires NameKey(c, relationship, table) == relationship && !Keyword(relationship)
    requires (table, relationship) in s.relationships
    requires !Keyword(OutKey(c, Column(name, test), table, NameMode(relationship)))
    ensures SameRows(c, s, Filter([Relationship(relationship, Filter([Column(name, test)]))]), table)
      <==> FollowedEntry(c, s, Column(name, test), NameMode(relationship), table, s.relationships[(table, relationship)])
  {
    var inner := Column(name, test);
    var e := Relationship(relationship, Filter([inner]));
    var f, target := Filter([e]), s.relationships[(table, relationship)];
    if FollowedEntry(c, s, inner, NameMode(relationship), table, target) {
      FollowedAlone(c, s, inner, NameMode(relationship), table, target);
      FollowedAlone(c, s, e, None, table, table);
      ComparisonFaithful(inner);
      FixedOne(e);
      assert EntryFaithful(e) && f.entries[0] == e;
      PermissionKeepsSameRows(c, s, f, table);
    } else {
      var here: Row, there: Row := map[], map["" := Null];
      assert "" in there && "" !in here;
      var w := Asking(name, TheCheck(c, test), here, [there]);
      AskingSingular(name, TheCheck(c, test), here, [there], there);
      ColumnLostThere(w, c, s, relationship, inner, table, here, there);
      assert !Kept(w, c, s, Write(f), table, here) && Accepts(w, c, s, f, table, here);
    }
  }

  lemma {:induction false} ColumnLostThere(w: World, c: Caller, s: Schema, relationship: string, inner: Entry, table: Table,
                                           here: Row, there: Row)
    requires inner.Column? && Single(inner.test)
    requires var f := Filter([Relationship(relationship, Filter([inner]))]);
      WellFormed(s, f, table, table) && PermissionWhere(c, Write(f), table).Ok?
    requires NameKey(c, relationship, table) == relationship && !Keyword(relationship)
    requires (table, relationship) in s.relationships
    requires !Keyword(OutKey(c, inner, table, NameMode(relationship)))
    requires !FollowedEntry(c, s, inner, NameMode(relationship), table, s.relationships[(table, relationship)])
    requires w.related(table, relationship, here) == [there] && Singular(w, there, inner.name, TheCheck(c, inner.test))
    ensures var f := Filter([Relationship(relationship, Filter([inner]))]);
      !Kept(w, c, s, Write(f), table, here) && Accepts(w, c, s, f, table, here)
  {
    var target, mode := s.relationships[(table, relationship)], NameMode(relationship);
    var out := ThroughRelationship(w, c, s, relationship, inner, table, here);
    EntryRewritten(c, s, inner, mode, table, target, out);
    SingleMeans(w, c, s, inner.name, inner.test, table, target, there);
    assert Means(w, c, s, Filter([inner]), table, target, [there][0]) == Yes;
    ColumnLost(w, c, s, inner, mode, table, target, there, out);
    OneField(w, c, s, out, target, there);
  }

  // ----- Two keys that come out the same -----

  /** Of two entries that come out under one key, the rows of the second are kept,
      whatever the first says. */
  lemma {:induction false} CollapseKeepsLast(w: World, c: Caller, s: Schema, first: Entry, second: Entry, table: Table, row: Row)
    requires var f := Filter([first, second]);
      WellFormed(s, f, table, table) && PermissionWhere(c, Write(f), table).Ok?
    requires OutKey(c, first, table, None) == OutKey(c, second, table, None)
    requires FollowedEntry(c, s, second, None, table, table)
    ensures Kept(w, c, s, Write(Filter([first, second])), table, row)
      == Admits(Value(w, c, s, Filter([second]), table, table, row))
  {
    var f := Filter([first, second]);
    KeptIsCompiled(w, c, s, f, table, row);
    var fields := Write(f).fields;
    var list := FieldsRewritten(c, fields, table, None, Rewrite(c, Write(f), table, None).value);
    assert fields[0] == WriteEntry(first) && fields[1] == WriteEntry(second);
    assert WellFormedEntry(s, f.entries[0], table, table) && WellFormedEntry(s, f.entries[1], table, table);
    EntryRewritten(c, s, first, None, table, table, list[0]);
    EntryRewritten(c, s, second, None, table, table, list[1]);
    LastOfTwo(list);
    EntryCompiled(w, c, s, second, None, table, table, row, list[1]);
    OneField(w, c, s, list[1], table, row);
    OneBranchMeans(w, c, s, second, table, table, row);
  }

  lemma {:induction false} LastOfTwo(list: seq<Field>)
    requires |list| == 2 && list[0].key == list[1].key
    ensures InsertAll(list) == [list[1]]
  {
    assert list[..1] == [list[0]] && list[..1][..0] == [];
    assert InsertAll(list[..1]) == [list[0]];
    assert [list[0]][1..] == [];
  }

  lemma {:induction false} TwoMean(w: World, c: Caller, s: Schema, first: Entry, second: Entry, home: Table, scope: Table, row: Row)
    ensures Means(w, c, s, Filter([first, second]), home, scope, row)
      == Both(EntryMeans(w, c, s, first, home, scope, row), EntryMeans(w, c, s, second, home, scope, row))
  {
    var es := [first, second];
    assert es[1..] == [second];
    OneBranchMeans(w, c, s, second, home, scope, row);
    var rest := EntriesMean(w, c, s, [second], home, scope, row);
    assert ([EntryMeans(w, c, s, first, home, scope, row)] + rest)[1..] == rest;
  }

  /** Every row the second entry accepts, the first does. */
  ghost predicate Implied(c: Caller, s: Schema, first: Entry, second: Entry, table: Table) {
    forall w, row :: Accepts(w, c, s, Filter([second]), table, row) ==> Accepts(w, c, s, Filter([first]), table, row)
  }

  /** Two entries that come out under one key keep the rows they should if and only
      if the second, which stays, implies the first, which is lost. */
  lemma {:induction false} CollapseExactly(c: Caller, s: Schema, first: Entry, second: Entry, table: Table)
    requires var f := Filter([first, second]);
      WellFormed(s, f, table, table) && PermissionWhere(c, Write(f), table).Ok?
    requires OutKey(c, first, table, None) == OutKey(c, second, table, None)
    requires FollowedEntry(c, s, second, None, table, table) && Faithful(Filter([second]))
    ensures SameRows(c, s, Filter([first, second]), table) <==> Implied(c, s, first, second, table)
  {
    var f := Filter([first, second]);
    forall w, row
      ensures Kept(w, c, s, Write(f), table, row) == Accepts(w, c, s, Filter([second]), table, row)
      ensures Accepts(w, c, s, f, table, row)
        == (Accepts(w, c, s, Filter([first]), table, row) && Accepts(w, c, s, Filter([second]), table, row))
    {
      CollapseKeepsLast(w, c, s, first, second, table, row);
      FaithfulMeans(w, c, s, Filter([second]), table, table, row);
      TwoMean(w, c, s, first, second, table, table, row);
      OneBranchMeans(w, c, s, first, table, table, row);
      OneBranchMeans(w, c, s, second, table, table, row);
    }
    if SameRows(c, s, f, table) {
      forall w, row | Accepts(w, c, s, Filter([second]), table, row)
        ensures Accepts(w, c, s, Filter([first]), table, row)
      {
        assert Kept(w, c, s, Write(f), table, row);
      }
    }
    if Implied(c, s, first, second, table) {
      forall w, row ensures Kept(w, c, s, Write(f), table, row) <==> Accepts(w, c, s, f, table, row) {
        assert Accepts(w, c, s, Filter([second]), table, row) ==> Accepts(w, c, s, Filter([first]), table, row);
      }
    }
  }

  /** One comparison implies another if and only if it is the same. */
  lemma {:induction false} ComparisonImplies(c: Caller, s: Schema, x: string, a: Test, y: string, b: Test, table: Table)
    requires Single(a) && Single(b)
    ensures Implied(c, s, Column(x, a), Column(y, b), table) <==> (x == y && TheCheck(c, a) == TheCheck(c, b))
  {
    if x == y && TheCheck(c, a) == TheCheck(c, b) {
      forall w, row | Accepts(w, c, s, Filter([Column(y, b)]), table, row)
        ensures Accepts(w, c, s, Filter([Column(x, a)]), table, row)
      {
        SingleMeans(w, c, s, x, a, table, table, row);
        SingleMeans(w, c, s, y, b, table, table, row);
      }
    }
    if x != y || TheCheck(c, a) != TheCheck(c, b) {
      var row: Row := map[];
      var w := Asking(y, TheCheck(c, b), row, []);
      AskingSingular(y, TheCheck(c, b), row, [], row);
      SingleMeans(w, c, s, x, a, table, table, row);
      SingleMeans(w, c, s, y, b, table, table, row);
      assert Accepts(w, c, s, Filter([Column(y, b)]), table, row) && !Accepts(w, c, s, Filter([Column(x, a)]), table, row);
    }
  }

  /** Two comparisons of columns that come out under one name keep the rows they
      should if and only if they are the same comparison. */
  lemma {:induction false} CollapsedColumnsExactly(c: Caller, s: Schema, x: string, a: Test, y: string, b: Test, table: Table)
    requires Single(a) && Single(b)
    requires var f := Filter([Column(x, a), Column(y, b)]);
      WellFormed(s, f, table, table) && PermissionWhere(c, Write(f), table).Ok?
    requires NameKey(c, x, table) == NameKey(c, y, table) && FollowedEntry(c, s, Column(y, b), None, table, table)
    ensures SameRows(c, s, Filter([Column(x, a), Column(y, b)]), table) <==> (x == y && TheCheck(c, a) == TheCheck(c, b))
  {
    ComparisonFaithful(Column(y, b));
    CollapseExactly(c, s, Column(x, a), Column(y, b), table);
    ComparisonImplies(c, s, x, a, y, b, table);
  }

  /** An `or` of one comparison accepts what the comparison does. */
  lemma {:induction false} OrOfOne(w: World, c: Caller, s: Schema, legacy: bool, name: string, test: Test, table: Table, row: Row)
    requires Single(test)
    ensures Accepts(w, c, s, Filter([Or(legacy, [Filter([Column(name, test)])])]), table, row)
      == Accepts(w, c, s, Filter([Column(name, test)]), table, row)
  {
    var fs := [Filter([Column(name, test)])];
    OneBranchMeans(w, c, s, Or(legacy, fs), table, table, row);
    assert fs[1..] == [];
    assert BranchesMean(w, c, s, fs, table, table, row) == [Means(w, c, s, fs[0], table, table, row)] + [];
    OneTruth(Means(w, c, s, fs[0], table, table, row));
  }

  /** `$or` beside `_or`, each of one comparison, keep the rows they should if and
      only if they are the same comparison. */
  lemma {:induction false} BothSpellingsExactly(c: Caller, s: Schema, x: string, a: Test, y: string, b: Test, table: Table)
    requires Single(a) && Single(b)
    requires var f := Filter([Or(true, [Filter([Column(x, a)])]), Or(false, [Filter([Column(y, b)])])]);
      WellFormed(s, f, table, table) && PermissionWhere(c, Write(f), table).Ok?
    requires FollowedEntry(c, s, Column(y, b), None, table, table)
    ensures SameRows(c, s, Filter([Or(true, [Filter([Column(x, a)])]), Or(false, [Filter([Column(y, b)])])]), table)
      <==> (x == y && TheCheck(c, a) == TheCheck(c, b))
  {
    var first, second := Or(true, [Filter([Column(x, a)])]), Or(false, [Filter([Column(y, b)])]);
    FollowedAlone(c, s, Column(y, b), None, table, table);
    ComparisonFaithful(Column(y, b));
    FixedOne(second);
    assert EntryFaithful(second) && Filter([second]).entries[0] == second;
    CollapseExactly(c, s, first, second, table);
    ComparisonImplies(c, s, x, a, y, b, table);
    forall w, row
      ensures Accepts(w, c, s, Filter([first]), table, row) == Accepts(w, c, s, Filter([Column(x, a)]), table, row)
      ensures Accepts(w, c, s, Filter([second]), table, row) == Accepts(w, c, s, Filter([Column(y, b)]), table, row)
    {
      OrOfOne(w, c, s, true, x, a, table, row);
      OrOfOne(w, c, s, false, y, b, table, row);
    }
  }

  /** Two operators of one column that come out the same keep the rows they should
      if and only if they compare with the same. */
  lemma {:induction false} CollapsedOperatorsExactly(c: Caller, s: Schema, name: string, first: Op, second: Op, table: Table)
    requires var f := Filter([Column(name, Checks([first, second]))]);
      WellFormed(s, f, table, table) && PermissionWhere(c, Write(f), table).Ok?
    requires first.name == second.name && NameMode(name).None?
    requires FollowedEntry(c, s, Column(name, Checks([second])), None, table, table)
    ensures SameRows(c, s, Filter([Column(name, Checks([first, second]))]), table)
      <==> TheCheck(c, Checks([first])) == TheCheck(c, Checks([second]))
  {
    var f, a, b := Filter([Column(name, Checks([first, second]))]), TheCheck(c, Checks([first])), TheCheck(c, Checks([second]));
    if a == b {
      forall w, row ensures Kept(w, c, s, Write(f), table, row) <==> Accepts(w, c, s, f, table, row) {
        OperatorRows(w, c, s, name, first, second, table, row);
      }
    } else {
      var row: Row := map[];
      var w := Asking(name, b, row, []);
      AskingSingular(name, b, row, [], row);
      OperatorRows(w, c, s, name, first, second, table, row);
      assert Kept(w, c, s, Write(f), table, row) && !Accepts(w, c, s, f, table, row);
    }
  }

  lemma {:induction false} OperatorRows(w: World, c: Caller, s: Schema, name: string, first: Op, second: Op, table: Table,
                                        row: Row)
    requires var f := Filter([Column(name, Checks([first, second]))]);
      WellFormed(s, f, table, table) && PermissionWhere(c, Write(f), table).Ok?
    requires first.name == second.name && NameMode(name).None?
    requires FollowedEntry(c, s, Column(name, Checks([second])), None, table, table)
    ensures var f := Filter([Column(name, Checks([first, second]))]);
      var a, b := TheCheck(c, Checks([first])), TheCheck(c, Checks([second]));
      && (Kept(w, c, s, Write(f), table, row) <==> w.check(row, name, b.operator, b.operand) == Yes)
      && (Accepts(w, c, s, f, table, row) <==>
            w.check(row, name, a.operator, a.operand) == Yes && w.check(row, name, b.operator, b.operand) == Yes)
  {
    var e := Column(name, Checks([first, second]));
    var b := TheCheck(c, Checks([second]));
    KeptIsCompiled(w, c, s, Filter([e]), table, row);
    assert WellFormedEntry(s, Filter([e]).entries[0], table, table);
    var out := OneEntry(c, e, table, None);
    OperatorsRead(c, s, name, first, second, table, out);
    OneField(w, c, s, out, table, row);
    ColumnRead(w, c, s, table, row, out);
    assert Checked(w, row, name, [b]) == [w.check(row, name, b.operator, b.operand)];
    OneTruth(w.check(row, name, b.operator, b.operand));
    OneBranchMeans(w, c, s, e, table, table, row);
    BothChecked(w, c, name, first, second, row);
  }

  lemma {:induction false} OperatorsRead(c: Caller, s: Schema, name: string, first: Op, second: Op, table: Table, out: Field)
    requires WellFormedEntry(s, Column(name, Checks([first, second])), table, table)
    requires RewriteIn(c, WriteEntry(Column(name, Checks([first, second]))), table, None) == Ok(out)
    requires first.name == second.name && NameMode(name).None?
    requires FollowedEntry(c, s, Column(name, Checks([second])), None, table, table)
    ensures !Keyword(out.key) && (table, out.key) !in s.relationships && ColumnBehind(c, table, out.key) == name
    ensures ReadChecks(out.value) == [TheCheck(c, Checks([second]))]
  {
    EntryRewritten(c, s, Column(name, Checks([first, second])), None, table, table, out);
    var checks, one := [first, second], [second];
    assert OperatorName(checks[0].name) && OperatorName(checks[1].name) && CheckFollowed(one[0], None);
    OperatorsCollapse(c, first, second, table, Rewrite(c, WriteChecks(checks), table, None).value);
  }

  lemma {:induction false} OperatorsCollapse(c: Caller, first: Op, second: Op, home: Table, out: Doc)
    requires OperatorName(first.name) && OperatorName(second.name) && Proper(first.operand) && Proper(second.operand)
    requires first.name == second.name && CheckFollowed(second, None)
    requires Rewrite(c, WriteChecks([first, second]), home, None) == Ok(out)
    ensures out.Obj? && ReadChecks(out) == [TheCheck(c, Checks([second]))]
  {
    var fields := WriteChecks([first, second]).fields;
    var list := FieldsRewritten(c, fields, home, None, out);
    CheckMeans(c, first, home, None, list[0]);
    CheckMeans(c, second, home, None, list[1]);
    LastOfTwo(list);
  }

  lemma {:induction false} BothChecked(w: World, c: Caller, name: string, first: Op, second: Op, row: Row)
    ensures var a, b := TheCheck(c, Checks([first])), TheCheck(c, Checks([second]));
      AllOf(Checked(w, row, name, Meant(c, Checks([first, second]))))
      == Both(w.check(row, name, a.operator, a.operand), w.check(row, name, b.operator, b.operand))
  {
    var a, b := TheCheck(c, Checks([first])), TheCheck(c, Checks([second]));
    var s, t := w.check(row, name, a.operator, a.operand), w.check(row, name, b.operator, b.operand);
    assert Checked(w, row, name, Meant(c, Checks([first, second]))) == [s, t];
    assert [s, t][1..] == [t];
    OneTruth(t);
  }

  // ----- Relationships and `_exists` -----

  /** An unqualified `_exists` through a relationship keeps the rows it should if
      and only if both tables are in one schema: it is looked up in the far one. */
  lemma {:induction false} ExistsExactly(c: Caller, s: Schema, relationship: string, legacy: bool, name: string, table: Table)
    requires var f := Filter([Relationship(relationship, Filter([Exists(legacy, Bare(name), None)]))]);
      WellFormed(s, f, table, table) && PermissionWhere(c, Write(f), table).Ok?
    requires NameMode(relationship).None? && Expose(c, table, relationship) == relationship && !Keyword(relationship)
    requires (table, relationship) in s.relationships
    ensures SameRows(c, s, Filter([Relationship(relationship, Filter([Exists(legacy, Bare(name), None)]))]), table)
      <==> table.schema == s.relationships[(table, relationship)].schema
  {
    var f := Filter([Relationship(relationship, Filter([Exists(legacy, Bare(name), None)]))]);
    var target := s.relationships[(table, relationship)];
    forall w, row
      ensures Kept(w, c, s, Write(f), table, row)
        <==> w.related(table, relationship, row) != [] && w.rows(Table(target.schema, name)) != []
      ensures Accepts(w, c, s, f, table, row)
        <==> w.related(table, relationship, row) != [] && w.rows(Table(table.schema, name)) != []
    {
      ExistsRows(w, c, s, relationship, legacy, name, table, row);
    }
    if table.schema != target.schema {
      var row: Row := map[];
      var w := World((t: Table) => if t.schema == table.schema then [row] else [], (_, _, _) => [row], (_, _, _, _) => No);
      assert !Kept(w, c, s, Write(f), table, row) && Accepts(w, c, s, f, table, row);
    }
  }

  lemma {:induction false} ExistsRows(w: World, c: Caller, s: Schema, relationship: string, legacy: bool, name: string,
                                      table: Table, row: Row)
    requires var f := Filter([Relationship(relationship, Filter([Exists(legacy, Bare(name), None)]))]);
      WellFormed(s, f, table, table) && PermissionWhere(c, Write(f), table).Ok?
    requires NameMode(relationship).None? && Expose(c, table, relationship) == relationship && !Keyword(relationship)
    requires (table, relationship) in s.relationships
    ensures var f := Filter([Relationship(relationship, Filter([Exists(legacy, Bare(name), None)]))]);
      var near, far := Table(table.schema, name), Table(s.relationships[(table, relationship)].schema, name);
      && (Kept(w, c, s, Write(f), table, row) <==> w.related(table, relationship, row) != [] && w.rows(far) != [])
      && (Accepts(w, c, s, f, table, row) <==> w.related(table, relationship, row) != [] && w.rows(near) != [])
  {
    var e := Exists(legacy, Bare(name), None);
    var target, rows := s.relationships[(table, relationship)], w.related(table, relationship, row);
    var out := ThroughRelationship(w, c, s, relationship, e, table, row);
    forall i | 0 <= i < |rows|
      ensures Compiled(w, c, s, Obj([out]), target, rows[i]) == Some(Of(w.rows(Table(target.schema, name)) != []))
      ensures Means(w, c, s, Filter([e]), table, target, rows[i]) == Of(w.rows(Table(table.schema, name)) != [])
    {
      BareExists(w, c, s, legacy, name, table, target, rows[i], out);
    }
    if rows != [] {
      assert Admits(Compiled(w, c, s, Obj([out]), target, rows[0])) == (w.rows(Table(target.schema, name)) != []);
      assert (Means(w, c, s, Filter([e]), table, target, rows[0]) == Yes) == (w.rows(Table(table.schema, name)) != []);
    }
  }

  lemma {:induction false} BareExists(w: World, c: Caller, s: Schema, legacy: bool, name: string, home: Table, scope: Table,
                                      row: Row, out: Field)
    requires var e := Exists(legacy, Bare(name), None);
      WellFormedEntry(s, e, home, scope) && RewriteField(c, WriteEntry(e), home) == Ok(out)
    ensures Compiled(w, c, s, Obj([out]), scope, row) == Some(Of(w.rows(Table(scope.schema, name)) != []))
    ensures Means(w, c, s, Filter([Exists(legacy, Bare(name), None)]), home, scope, row)
      == Of(w.rows(Table(home.schema, name)) != [])
  {
    var e := Exists(legacy, Bare(name), None);
    EntryRewritten(c, s, e, None, home, scope, out);
    var inner := ExistsRewritten(c, e, home, scope.schema, out.value);
    var t := Table(scope.schema, name);
    AnyRowPasses(w, c, s, t, w.rows(t));
    OneField(w, c, s, out, scope, row);
    OneTruth(Of(w.rows(t) != []));
    OneBranchMeans(w, c, s, e, home, scope, row);
  }

  /** A relationship asked for at all keeps the rows it should if and only if it
      comes out under its own name: otherwise another relationship, or nothing, is
      asked for. */
  lemma {:induction false} RelationshipNameExactly(c: Caller, s: Schema, name: string, table: Table)
    requires var f := Filter([Relationship(name, Filter([]))]);
      WellFormed(s, f, table, table) && PermissionWhere(c, Write(f), table).Ok?
    requires (table, name) in s.relationships && !Keyword(NameKey(c, name, table))
    ensures SameRows(c, s, Filter([Relationship(name, Filter([]))]), table) <==> NameKey(c, name, table) == name
  {
    var f := Filter([Relationship(name, Filter([]))]);
    var key := NameKey(c, name, table);
    forall w, row
      ensures Accepts(w, c, s, f, table, row) <==> w.related(table, name, row) != []
      ensures Kept(w, c, s, Write(f), table, row)
        <==> ((table, key) in s.relationships ==> w.related(table, key, row) != [])
    {
      NamedRelationship(w, c, s, name, table, row);
    }
    if key != name {
      var row: Row := map[];
      if (table, key) in s.relationships {
        var w := World(_ => [], (_, n, _) => if n == name then [row] else [], (_, _, _, _) => No);
        assert !Kept(w, c, s, Write(f), table, row) && Accepts(w, c, s, f, table, row);
      } else {
        var w := World(_ => [], (_, _, _) => [], (_, _, _, _) => No);
        assert Kept(w, c, s, Write(f), table, row) && !Accepts(w, c, s, f, table, row);
      }
    }
  }

  lemma {:induction false} NamedRelationship(w: World, c: Caller, s: Schema, name: string, table: Table, row: Row)
    requires var f := Filter([Relationship(name, Filter([]))]);
      WellFormed(s, f, table, table) && PermissionWhere(c, Write(f), table).Ok?
    requires (table, name) in s.relationships && !Keyword(NameKey(c, name, table))
    ensures var f := Filter([Relationship(name, Filter([]))]);
      var key := NameKey(c, name, table);
      && (Accepts(w, c, s, f, table, row) <==> w.related(table, name, row) != [])
      && (Kept(w, c, s, Write(f), table, row) <==> ((table, key) in s.relationships ==> w.related(table, key, row) != []))
  {
    var e := Relationship(name, Filter([]));
    var f := Filter([e]);
    KeptIsCompiled(w, c, s, f, table, row);
    assert WellFormedEntry(s, f.entries[0], table, table);
    var out := OneEntry(c, e, table, None);
    EntryRewritten(c, s, e, None, table, table, out);
    ObjectCame(c, e.inner, table, NameMode(name), out.value);
    NothingRewritten(c, table, NameMode(name), out.value);
    OneField(w, c, s, out, table, row);
    OneBranchMeans(w, c, s, e, table, table, row);
    AnyRowMeant(w, c, s, table, s.relationships[(table, name)], w.related(table, name, row));
    if (table, out.key) in s.relationships {
      AnyRowPasses(w, c, s, s.relationships[(table, out.key)], w.related(table, out.key, row));
      OneTruth(Of(w.related(table, out.key, row) != []));
    } else {
      ColumnRead(w, c, s, table, row, out);
      assert ReadChecks(Obj([])) == [];
    }
  }

  lemma {:induction false} NothingRewritten(c: Caller, home: Table, mode: Option<string>, out: Doc)
    requires Rewrite(c, Write(Filter([])), home, mode) == Ok(out)
    ensures out == Obj([])
  {
    var list := FieldsRewritten(c, Write(Filter([])).fields, home, mode, out);
    assert InsertAll([]) == [];
  }

  lemma {:induction false} AnyRowMeant(w: World, c: Caller, s: Schema, home: Table, scope: Table, rows: seq<Row>)
    ensures SomeMeant(w, c, s, Filter([]), home, scope, rows) <==> rows != []
  {
    if rows != [] { assert Means(w, c, s, Filter([]), home, scope, rows[0]) == Yes; }
  }

  /** `[{"a": 1}]` compared outright: the object inside is taken for a predicate,
      and comes out as a different value. */
  lemma {:induction false} ObjectsInListsAreTakenApart(c: Caller, table: Table)
    requires c.columns == map[]
    ensures var tagged := Arr([Obj([Field("a", Num(1.0))])]);
      Rewrite(c, tagged, table, None) == Ok(Arr([Obj([Field("a", Obj([Field("_eq", Num(1.0))]))])]))
  {
    var item := Obj([Field("a", Num(1.0))]);
    var f := Field("a", Obj([Field("_eq", Num(1.0))]));
    assert RewriteField(c, Field("a", Num(1.0)), table) == Ok(f);
    assert RewriteFields(c, [], table) == Ok([]);
    assert item.fields[1..] == [] && [f] + [] == [f];
    assert RewriteFields(c, item.fields, table) == Ok([f]);
    assert [f][..0] == [];
    assert InsertAll([f]) == [f];
    assert RewriteItems(c, [], table, None) == Ok([]);
    assert Rewrite(c, item, table, None) == Ok(Obj([f]));
    assert [item][1..] == [] && [Obj([f])] + [] == [Obj([f])];
    assert RewriteItems(c, [item], table, None) == Ok([Obj([f])]);
  }
}
