/** The validation walk over a document whose fragments may spread one another. */
module FragmentWalk {
  import opened Wrappers
  import opened Collections
  import opened GraphQLDocuments

  /** The document's fragments, and what the registry knows: for each type, its
      fields and the named type each yields. */
  datatype Document = Document(fragments: Fragments, types: map<string, map<string, string>>)
  {
    function FieldType(type_: string, field: string): Option<string> {
      if type_ in types && field in types[type_] then Some(types[type_][field]) else None
    }
  }

  datatype Problem =
    | UnknownField(name: string, type_: string)
    | Cycle(names: seq<string>)

  const SPREAD_BUDGET: nat := 1000

  predicate IsUnknown(doc: Document, type_: string, field: string) {
    doc.FieldType(type_, field).None? && type_ in doc.types && !("__" <= field)
  }

  // ----- The walk as a function -----

  datatype Seen = Seen(problems: seq<Problem>, expansions: nat)

  /** The fragments that may still be opened; each opening leaves fewer. */
  function Unopened(doc: Document, stack: seq<string>): set<string> {
    doc.fragments.Keys - set f | f in stack
  }

  function Walk(doc: Document, items: seq<Selection>, type_: string, stack: seq<string>, n: nat): (r: Seen)
    ensures n <= r.expansions
    decreases Unopened(doc, stack), items, 0
  {
    if items == [] then Seen([], n)
    else
      var first := WalkOne(doc, items[0], type_, stack, n);
      var rest := Walk(doc, items[1..], type_, stack, first.expansions);
      Seen(first.problems + rest.problems, rest.expansions)
  }

  function WalkOne(doc: Document, item: Selection, type_: string, stack: seq<string>, n: nat): (r: Seen)
    ensures n <= r.expansions
    decreases Unopened(doc, stack), item, 0
  {
    match item
    case Field(name, _, inside) =>
      if IsUnknown(doc, type_, name) then Seen([UnknownField(name, type_)], n)
      else
        (match doc.FieldType(type_, name)
         case None => Seen([], n)
         case Some(inner) => Walk(doc, inside, inner, stack, n))
    case Inline(condition, inside) => Walk(doc, inside, InlineType(condition, type_), stack, n)
    case Spread(name) =>
      if name in stack then Seen([Cycle(stack[Index(stack, name)..])], n)
      else if n + 1 > SPREAD_BUDGET || name !in doc.fragments then Seen([], n + 1)
      else
        assert name in Unopened(doc, stack) && name !in Unopened(doc, stack + [name]);
        Walk(doc, doc.fragments[name].set_, doc.fragments[name].on, stack + [name], n + 1)
  }

  // ----- The walk as it runs -----

  class Usage {
    const doc: Document
    var errors: seq<Problem>
    /** The stack: a fragment is on it while its own selection is walked. */
    var spreading: seq<string>
    /** Charged against the budget, one for each spread met. */
    var expansions: nat

    constructor (doc: Document)
      ensures this.doc == doc && errors == [] && spreading == [] && expansions == 0
    {
      this.doc := doc;
      errors, spreading, expansions := [], [], 0;
    }

    /** Ends on every document, and leaves the stack as it found it. */
    method SelectionSet(items: seq<Selection>, type_: string)
      modifies this
      ensures spreading == old(spreading)
      ensures var seen := Walk(doc, items, type_, old(spreading), old(expansions));
        errors == old(errors) + seen.problems && expansions == seen.expansions
      decreases Unopened(doc, spreading), items, 1
    {
      var i := 0;
      while i < |items|
        invariant 0 <= i <= |items|
        invariant spreading == old(spreading)
        invariant var whole := Walk(doc, items, type_, old(spreading), old(expansions));
          var rest := Walk(doc, items[i..], type_, old(spreading), expansions);
          errors + rest.problems == old(errors) + whole.problems && rest.expansions == whole.expansions
      {
        ghost var before, at := errors, expansions;
        One(items[i], type_);
        assert items[i..][1..] == items[i + 1..];
        Rejoin(doc, items[i..], type_, spreading, at, before);
        i := i + 1;
      }
      assert items[i..] == [];
    }

    method One(item: Selection, type_: string)
      modifies this
      ensures spreading == old(spreading)
      ensures var seen := WalkOne(doc, item, type_, old(spreading), old(expansions));
        errors == old(errors) + seen.problems && expansions == seen.expansions
      decreases Unopened(doc, spreading), item, 1
    {
      match item {
        case Field(name, _, inside) =>
          var meta := doc.FieldType(type_, name);
          if meta.None? && type_ in doc.types && !("__" <= name) {
            errors := errors + [UnknownField(name, type_)];
            return;
          }
          if meta.Some? {
            SelectionSet(inside, meta.value);
          }
        case Inline(condition, inside) =>
          SelectionSet(inside, InlineType(condition, type_));
        case Spread(name) =>
          if name in spreading {
            var began := Index(spreading, name);
            errors := errors + [Cycle(spreading[began..])];
            return;
          }
          expansions := expansions + 1;
          if expansions > SPREAD_BUDGET {
            return;
          }
          if name in doc.fragments {
            var fragment := doc.fragments[name];
            assert name in Unopened(doc, spreading) && name !in Unopened(doc, spreading + [name]);
            ghost var stack := spreading;
            spreading := spreading + [name];
            SelectionSet(fragment.set_, fragment.on);
            spreading := spreading[..|spreading| - 1];
            assert spreading == stack;
          }
      }
    }
  }

  lemma Rejoin(doc: Document, items: seq<Selection>, type_: string, stack: seq<string>, n: nat, before: seq<Problem>)
    requires items != []
    ensures var whole := Walk(doc, items, type_, stack, n);
      var first := WalkOne(doc, items[0], type_, stack, n);
      var rest := Walk(doc, items[1..], type_, stack, first.expansions);
      (before + first.problems) + rest.problems == before + whole.problems && rest.expansions == whole.expansions
  {
  }

  // ----- Spreads as a graph -----

  /** `name` is spread somewhere in a selection, through inline fragments and
      fields the registry knows. */
  ghost predicate Spreads(doc: Document, items: seq<Selection>, type_: string, name: string)
    decreases items, 0
  {
    exists i | 0 <= i < |items| :: SpreadsOne(doc, items[i], type_, name)
  }

  ghost predicate SpreadsOne(doc: Document, item: Selection, type_: string, name: string)
    decreases item, 0
  {
    match item
    case Field(field, _, inside) =>
      var inner := doc.FieldType(type_, field);
      inner.Some? && Spreads(doc, inside, inner.value, name)
    case Inline(condition, inside) => Spreads(doc, inside, InlineType(condition, type_), name)
    case Spread(spread) => spread == name
  }

  ghost predicate Edge(doc: Document, f: string, g: string) {
    f in doc.fragments && Spreads(doc, doc.fragments[f].set_, doc.fragments[f].on, g)
  }

  ghost function EdgesOf(doc: Document): Edges { iset f, g | Edge(doc, f, g) :: (f, g) }

  /** The fragments a selection itself spreads. */
  ghost function Roots(doc: Document, items: seq<Selection>, type_: string): iset<string> {
    iset g | Spreads(doc, items, type_, g)
  }

  /** A chain whose first fragment the selection itself spreads. */
  ghost predicate ChainFrom(doc: Document, items: seq<Selection>, type_: string, p: seq<string>) {
    Chain(EdgesOf(doc), p) && (p != [] ==> Spreads(doc, items, type_, p[0]))
  }

  /** The fragments an operation reaches come back to none of themselves. */
  ghost predicate AcyclicFrom(doc: Document, items: seq<Selection>, type_: string) {
    Acyclic(EdgesOf(doc), Roots(doc, items, type_))
  }

  ghost predicate IsCycle(doc: Document, names: seq<string>) {
    names != [] && Chain(EdgesOf(doc), names) && Edge(doc, names[|names| - 1], names[0])
  }

  predicate ReportsCycle(problems: seq<Problem>) {
    exists i | 0 <= i < |problems| :: problems[i].Cycle?
  }

  lemma ReportsConcat(a: seq<Problem>, b: seq<Problem>)
    ensures ReportsCycle(a + b) <==> ReportsCycle(a) || ReportsCycle(b)
  {
    if ReportsCycle(a) { var i :| 0 <= i < |a| && a[i].Cycle?; assert (a + b)[i].Cycle?; }
    if ReportsCycle(b) { var i :| 0 <= i < |b| && b[i].Cycle?; assert (a + b)[|a| + i].Cycle?; }
    if ReportsCycle(a + b) {
      var i :| 0 <= i < |a + b| && (a + b)[i].Cycle?;
      if i < |a| { assert a[i].Cycle?; } else { assert b[i - |a|].Cycle?; }
    }
  }

  // ----- Every cycle reported is one -----

  /** Everything spread here is spread by the fragment on top of the stack. */
  ghost predicate Under(doc: Document, stack: seq<string>, items: seq<Selection>, type_: string) {
    stack != [] ==> forall g | Spreads(doc, items, type_, g) :: Edge(doc, stack[|stack| - 1], g)
  }

  ghost predicate RealProblems(doc: Document, problems: seq<Problem>) {
    forall i | 0 <= i < |problems| ::
      match problems[i]
      case Cycle(names) => IsCycle(doc, names)
      case UnknownField(name, type_) => IsUnknown(doc, type_, name)
  }

  /** However deep the walk is, the cycles it names are cycles of spreads, and the
      unknown fields are ones a known type lacks. */
  lemma {:induction false} CyclesAreReal(doc: Document, items: seq<Selection>, type_: string, stack: seq<string>, n: nat)
    requires Chain(EdgesOf(doc), stack) && Under(doc, stack, items, type_)
    ensures RealProblems(doc, Walk(doc, items, type_, stack, n).problems)
    decreases Unopened(doc, stack), items, 0
  {
    if items != [] {
      var first := WalkOne(doc, items[0], type_, stack, n);
      assert forall g :: SpreadsOne(doc, items[0], type_, g) ==> Spreads(doc, items, type_, g);
      CyclesAreRealOne(doc, items[0], type_, stack, n);
      TailSpreads(doc, items, type_);
      CyclesAreReal(doc, items[1..], type_, stack, first.expansions);
    }
  }

  lemma TailSpreads(doc: Document, items: seq<Selection>, type_: string)
    requires items != []
    ensures forall g :: Spreads(doc, items[1..], type_, g) ==> Spreads(doc, items, type_, g)
  {
    forall g | Spreads(doc, items[1..], type_, g) ensures Spreads(doc, items, type_, g) {
      var i :| 0 <= i < |items[1..]| && SpreadsOne(doc, items[1..][i], type_, g);
      assert SpreadsOne(doc, items[i + 1], type_, g);
    }
  }

  lemma {:induction false} CyclesAreRealOne(doc: Document, item: Selection, type_: string, stack: seq<string>, n: nat)
    requires Chain(EdgesOf(doc), stack)
    requires stack != [] ==> forall g | SpreadsOne(doc, item, type_, g) :: Edge(doc, stack[|stack| - 1], g)
    ensures RealProblems(doc, WalkOne(doc, item, type_, stack, n).problems)
    decreases Unopened(doc, stack), item, 0
  {
    match item
    case Field(name, _, inside) =>
      if !IsUnknown(doc, type_, name) && doc.FieldType(type_, name).Some? {
        var inner := doc.FieldType(type_, name).value;
        assert forall g :: Spreads(doc, inside, inner, g) ==> SpreadsOne(doc, item, type_, g);
        CyclesAreReal(doc, inside, inner, stack, n);
      }
    case Inline(condition, inside) =>
      var inner := InlineType(condition, type_);
      assert forall g :: Spreads(doc, inside, inner, g) ==> SpreadsOne(doc, item, type_, g);
      CyclesAreReal(doc, inside, inner, stack, n);
    case Spread(name) =>
      assert SpreadsOne(doc, item, type_, name);
      if name in stack {
        var names := stack[Index(stack, name)..];
        assert names[0] == name && names[|names| - 1] == stack[|stack| - 1];
        assert IsCycle(doc, names);
      } else if n + 1 <= SPREAD_BUDGET && name in doc.fragments {
        assert name in Unopened(doc, stack) && name !in Unopened(doc, stack + [name]);
        CyclesAreReal(doc, doc.fragments[name].set_, doc.fragments[name].on, stack + [name], n + 1);
      }
  }

  // ----- Nothing reported within budget means no cycle -----

  ghost predicate Clean(doc: Document, items: seq<Selection>, type_: string, stack: seq<string>, n: nat) {
    var seen := Walk(doc, items, type_, stack, n);
    !ReportsCycle(seen.problems) && seen.expansions <= SPREAD_BUDGET
  }

  ghost predicate CleanOne(doc: Document, item: Selection, type_: string, stack: seq<string>, n: nat) {
    var seen := WalkOne(doc, item, type_, stack, n);
    !ReportsCycle(seen.problems) && seen.expansions <= SPREAD_BUDGET
  }

  lemma CleanParts(doc: Document, items: seq<Selection>, type_: string, stack: seq<string>, n: nat)
    requires items != [] && Clean(doc, items, type_, stack, n)
    ensures CleanOne(doc, items[0], type_, stack, n)
    ensures Clean(doc, items[1..], type_, stack, WalkOne(doc, items[0], type_, stack, n).expansions)
  {
    var first := WalkOne(doc, items[0], type_, stack, n);
    ReportsConcat(first.problems, Walk(doc, items[1..], type_, stack, first.expansions).problems);
  }

  /** A clean walk opened every fragment spread here, and each of those walks
      was clean too. */
  lemma {:induction false} Opened(doc: Document, items: seq<Selection>, type_: string, stack: seq<string>, n: nat,
                                  g: string) returns (m: nat)
    requires Clean(doc, items, type_, stack, n) && Spreads(doc, items, type_, g)
    ensures g !in stack
    ensures g in doc.fragments ==> Clean(doc, doc.fragments[g].set_, doc.fragments[g].on, stack + [g], m)
    decreases items, 0
  {
    CleanParts(doc, items, type_, stack, n);
    if SpreadsOne(doc, items[0], type_, g) {
      m := OpenedOne(doc, items[0], type_, stack, n, g);
    } else {
      var i :| 0 <= i < |items| && SpreadsOne(doc, items[i], type_, g);
      assert items[1..][i - 1] == items[i];
      m := Opened(doc, items[1..], type_, stack, WalkOne(doc, items[0], type_, stack, n).expansions, g);
    }
  }

  lemma {:induction false} OpenedOne(doc: Document, item: Selection, type_: string, stack: seq<string>, n: nat,
                                     g: string) returns (m: nat)
    requires CleanOne(doc, item, type_, stack, n) && SpreadsOne(doc, item, type_, g)
    ensures g !in stack
    ensures g in doc.fragments ==> Clean(doc, doc.fragments[g].set_, doc.fragments[g].on, stack + [g], m)
    decreases item, 0
  {
    match item
    case Field(name, _, inside) => m := Opened(doc, inside, doc.FieldType(type_, name).value, stack, n, g);
    case Inline(condition, inside) => m := Opened(doc, inside, InlineType(condition, type_), stack, n, g);
    case Spread(name) =>
      m := n + 1;
      if name in stack {
        assert WalkOne(doc, item, type_, stack, n).problems[0].Cycle?;
      }
  }

  lemma {:induction false} CleanChains(doc: Document, items: seq<Selection>, type_: string, stack: seq<string>, n: nat,
                                       p: seq<string>)
    requires Clean(doc, items, type_, stack, n) && ChainFrom(doc, items, type_, p)
    ensures Distinct(p) && forall i | 0 <= i < |p| :: p[i] !in stack
    decreases |p|
  {
    if p != [] {
      var m := Opened(doc, items, type_, stack, n, p[0]);
      if |p| > 1 {
        assert (p[0], p[1]) in EdgesOf(doc);
        var rest := p[1..];
        assert Chain(EdgesOf(doc), rest) by {
          forall i | 0 <= i < |rest| - 1 ensures (rest[i], rest[i + 1]) in EdgesOf(doc) {
            assert (p[i + 1], p[i + 2]) in EdgesOf(doc);
          }
        }
        CleanChains(doc, doc.fragments[p[0]].set_, doc.fragments[p[0]].on, stack + [p[0]], m, rest);
        assert p == [p[0]] + rest;
        forall i | 0 <= i < |rest| ensures rest[i] !in stack && rest[i] != p[0] {
          assert rest[i] !in stack + [p[0]];
        }
      }
    }
  }

  // ----- A reported cycle is reached -----

  /** The walk's stack is a chain from the operation's own selection. */
  lemma {:induction false} CycleReached(doc: Document, root: seq<Selection>, rootType: string, items: seq<Selection>,
                                        type_: string, stack: seq<string>, n: nat) returns (p: seq<string>)
    requires ChainFrom(doc, root, rootType, stack)
    requires if stack == [] then forall g | Spreads(doc, items, type_, g) :: Spreads(doc, root, rootType, g)
             else forall g | Spreads(doc, items, type_, g) :: Edge(doc, stack[|stack| - 1], g)
    requires ReportsCycle(Walk(doc, items, type_, stack, n).problems)
    ensures ChainFrom(doc, root, rootType, p) && !Distinct(p)
    decreases Unopened(doc, stack), items, 0
  {
    var first := WalkOne(doc, items[0], type_, stack, n);
    ReportsConcat(first.problems, Walk(doc, items[1..], type_, stack, first.expansions).problems);
    assert forall g :: SpreadsOne(doc, items[0], type_, g) ==> Spreads(doc, items, type_, g);
    if ReportsCycle(first.problems) {
      p := CycleReachedOne(doc, root, rootType, items[0], type_, stack, n);
    } else {
      TailSpreads(doc, items, type_);
      p := CycleReached(doc, root, rootType, items[1..], type_, stack, first.expansions);
    }
  }

  lemma {:induction false} CycleReachedOne(doc: Document, root: seq<Selection>, rootType: string, item: Selection,
                                           type_: string, stack: seq<string>, n: nat) returns (p: seq<string>)
    requires ChainFrom(doc, root, rootType, stack)
    requires if stack == [] then forall g | SpreadsOne(doc, item, type_, g) :: Spreads(doc, root, rootType, g)
             else forall g | SpreadsOne(doc, item, type_, g) :: Edge(doc, stack[|stack| - 1], g)
    requires ReportsCycle(WalkOne(doc, item, type_, stack, n).problems)
    ensures ChainFrom(doc, root, rootType, p) && !Distinct(p)
    decreases Unopened(doc, stack), item, 0
  {
    match item
    case Field(name, _, inside) =>
      var inner := doc.FieldType(type_, name).value;
      assert forall g :: Spreads(doc, inside, inner, g) ==> SpreadsOne(doc, item, type_, g);
      p := CycleReached(doc, root, rootType, inside, inner, stack, n);
    case Inline(condition, inside) =>
      var inner := InlineType(condition, type_);
      assert forall g :: Spreads(doc, inside, inner, g) ==> SpreadsOne(doc, item, type_, g);
      p := CycleReached(doc, root, rootType, inside, inner, stack, n);
    case Spread(name) =>
      assert SpreadsOne(doc, item, type_, name);
      var longer := stack + [name];
      assert ChainFrom(doc, root, rootType, longer);
      if name in stack {
        var i := Index(stack, name);
        assert longer[i] == longer[|stack|];
        p := longer;
      } else {
        assert name in Unopened(doc, stack) && name !in Unopened(doc, stack + [name]);
        p := CycleReached(doc, root, rootType, doc.fragments[name].set_, doc.fragments[name].on, longer, n + 1);
      }
  }

  // ----- The budget -----

  /** How many spreads a selection holds once every fragment is opened, a spread
      back to an open fragment aside. */
  function Openings(doc: Document, items: seq<Selection>, type_: string, stack: seq<string>): nat
    decreases Unopened(doc, stack), items, 0
  {
    if items == [] then 0
    else OpeningsOne(doc, items[0], type_, stack) + Openings(doc, items[1..], type_, stack)
  }

  function OpeningsOne(doc: Document, item: Selection, type_: string, stack: seq<string>): nat
    decreases Unopened(doc, stack), item, 0
  {
    match item
    case Field(name, _, inside) =>
      (match doc.FieldType(type_, name)
       case None => 0
       case Some(inner) => Openings(doc, inside, inner, stack))
    case Inline(condition, inside) => Openings(doc, inside, InlineType(condition, type_), stack)
    case Spread(name) =>
      if name in stack then 0
      else if name !in doc.fragments then 1
      else
        assert name in Unopened(doc, stack) && name !in Unopened(doc, stack + [name]);
        1 + Openings(doc, doc.fragments[name].set_, doc.fragments[name].on, stack + [name])
  }

  /** The walk stays within its budget exactly where the document does, and then
      counts its openings. */
  lemma {:induction false} WalkCounts(doc: Document, items: seq<Selection>, type_: string, stack: seq<string>, n: nat)
    ensures n + Openings(doc, items, type_, stack) <= SPREAD_BUDGET ==>
      Walk(doc, items, type_, stack, n).expansions == n + Openings(doc, items, type_, stack)
    ensures n + Openings(doc, items, type_, stack) > SPREAD_BUDGET ==>
      Walk(doc, items, type_, stack, n).expansions > SPREAD_BUDGET
    decreases Unopened(doc, stack), items, 0
  {
    if items != [] {
      WalkCountsOne(doc, items[0], type_, stack, n);
      WalkCounts(doc, items[1..], type_, stack, WalkOne(doc, items[0], type_, stack, n).expansions);
    }
  }

  lemma {:induction false} WalkCountsOne(doc: Document, item: Selection, type_: string, stack: seq<string>, n: nat)
    ensures n + OpeningsOne(doc, item, type_, stack) <= SPREAD_BUDGET ==>
      WalkOne(doc, item, type_, stack, n).expansions == n + OpeningsOne(doc, item, type_, stack)
    ensures n + OpeningsOne(doc, item, type_, stack) > SPREAD_BUDGET ==>
      WalkOne(doc, item, type_, stack, n).expansions > SPREAD_BUDGET
    decreases Unopened(doc, stack), item, 0
  {
    match item
    case Field(name, _, inside) =>
      if doc.FieldType(type_, name).Some? { WalkCounts(doc, inside, doc.FieldType(type_, name).value, stack, n); }
    case Inline(condition, inside) => WalkCounts(doc, inside, InlineType(condition, type_), stack, n);
    case Spread(name) =>
      if name !in stack && name in doc.fragments && n + 1 <= SPREAD_BUDGET {
        assert name in Unopened(doc, stack) && name !in Unopened(doc, stack + [name]);
        WalkCounts(doc, doc.fragments[name].set_, doc.fragments[name].on, stack + [name], n + 1);
      }
  }

  /** An operation of no more spreads than the budget is reported for a cycle if and
      only if the fragments it reaches have one. */
  lemma {:induction false} WalkDecidesAcyclic(doc: Document, items: seq<Selection>, type_: string)
    requires Openings(doc, items, type_, []) <= SPREAD_BUDGET
    ensures ReportsCycle(Walk(doc, items, type_, [], 0).problems) <==> !AcyclicFrom(doc, items, type_)
  {
    WalkCounts(doc, items, type_, [], 0);
    if ReportsCycle(Walk(doc, items, type_, [], 0).problems) {
      var p := CycleReached(doc, items, type_, items, type_, [], 0);
      assert p != [] && p[0] in Roots(doc, items, type_);
    } else {
      forall p | Chain(EdgesOf(doc), p) && p != [] && p[0] in Roots(doc, items, type_) ensures Distinct(p) {
        CleanChains(doc, items, type_, [], 0, p);
      }
    }
  }

  // ----- Past the budget -----

  /** Two fragments: an empty one, and one that spreads itself. */
  const LOOPING := Document(map["a" := Fragment("T", []), "b" := Fragment("T", [Spread("b")])], map[])

  function Padded(n: nat): seq<Selection> { if n == 0 then [Spread("b")] else [Spread("a")] + Padded(n - 1) }

  lemma {:induction false} PaddedWalk(n: nat, k: nat)
    requires n + k >= SPREAD_BUDGET
    ensures Walk(LOOPING, Padded(k), "T", [], n).problems == []
    decreases k
  {
    if k == 0 {
      var items := [Spread("b")];
      assert items[1..] == [];
      assert WalkOne(LOOPING, items[0], "T", [], n) == Seen([], n + 1);
      assert Walk(LOOPING, [], "T", [], n + 1) == Seen([], n + 1);
    } else {
      assert Padded(k)[1..] == Padded(k - 1);
      assert WalkOne(LOOPING, Padded(k)[0], "T", [], n) == Seen([], n + 1);
      PaddedWalk(n + 1, k - 1);
    }
  }

  lemma {:induction false} PaddedSpreads(k: nat)
    ensures Spreads(LOOPING, Padded(k), "T", "b")
  {
    if k == 0 {
      assert SpreadsOne(LOOPING, Padded(0)[0], "T", "b");
    } else {
      PaddedSpreads(k - 1);
      var i :| 0 <= i < |Padded(k - 1)| && SpreadsOne(LOOPING, Padded(k - 1)[i], "T", "b");
      assert Padded(k)[i + 1] == Padded(k - 1)[i];
    }
  }

  /** Past the budget a cycle goes unreported: a thousand spreads of an empty
      fragment, and then one of a fragment that spreads itself. */
  lemma {:induction false} BudgetHidesCycle()
    ensures !ReportsCycle(Walk(LOOPING, Padded(SPREAD_BUDGET), "T", [], 0).problems)
    ensures !AcyclicFrom(LOOPING, Padded(SPREAD_BUDGET), "T")
  {
    PaddedWalk(0, SPREAD_BUDGET);
    PaddedSpreads(SPREAD_BUDGET);
    var inside := LOOPING.fragments["b"].set_;
    assert SpreadsOne(LOOPING, inside[0], "T", "b");
    assert Edge(LOOPING, "b", "b");
    var p := ["b", "b"];
    assert Chain(EdgesOf(LOOPING), p) && p[0] == p[1];
    assert p[0] in Roots(LOOPING, Padded(SPREAD_BUDGET), "T");
  }

  lemma {:induction false} PaddedOpenings(k: nat)
    ensures Openings(LOOPING, Padded(k), "T", []) == k + 1
  {
    if k == 0 {
      var items, inside := [Spread("b")], LOOPING.fragments["b"].set_;
      assert items[1..] == [] && inside == [Spread("b")] && inside[1..] == [];
      assert OpeningsOne(LOOPING, inside[0], "T", ["b"]) == 0;
      assert Openings(LOOPING, inside, "T", ["b"]) == 0;
      assert [] + ["b"] == ["b"];
      assert OpeningsOne(LOOPING, items[0], "T", []) == 1;
    } else {
      PaddedOpenings(k - 1);
      assert Padded(k)[1..] == Padded(k - 1);
      assert Openings(LOOPING, [], "T", ["a"]) == 0;
      assert [] + ["a"] == ["a"];
      assert OpeningsOne(LOOPING, Padded(k)[0], "T", []) == 1;
    }
  }

  /** The walk decides every operation of its document. */
  ghost predicate Decided(doc: Document, items: seq<Selection>, type_: string) {
    ReportsCycle(Walk(doc, items, type_, [], 0).problems) <==> !AcyclicFrom(doc, items, type_)
  }

  /** All operations of at most `n` spreads are decided if and only if `n` is within
      the budget. */
  lemma {:induction false} BudgetExactly(n: nat)
    ensures (forall doc, items, type_ :: Openings(doc, items, type_, []) <= n ==> Decided(doc, items, type_))
      <==> n <= 1000
  {
    if n <= SPREAD_BUDGET {
      forall doc, items, type_ | Openings(doc, items, type_, []) <= n ensures Decided(doc, items, type_) {
        WalkDecidesAcyclic(doc, items, type_);
      }
    } else {
      BudgetHidesCycle();
      PaddedOpenings(SPREAD_BUDGET);
      assert !Decided(LOOPING, Padded(SPREAD_BUDGET), "T");
    }
  }

  // ----- Unknown fields -----

  /** A field is reported exactly where the registry knows its type, the type has no
      such field, and its name is not one GraphQL keeps for itself. */
  lemma {:induction false} UnknownExactly(doc: Document, name: string, arguments: seq<Argument>, inside: seq<Selection>,
                                          type_: string, stack: seq<string>, n: nat)
    ensures WalkOne(doc, Field(name, arguments, inside), type_, stack, n)
      == if type_ in doc.types && name in doc.types[type_] then Walk(doc, inside, doc.types[type_][name], stack, n)
         else if type_ in doc.types && !(|name| >= 2 && name[0] == '_' && name[1] == '_')
         then Seen([UnknownField(name, type_)], n)
         else Seen([], n)
  {
    assert "__" <= name <==> |name| >= 2 && name[0] == '_' && name[1] == '_';
  }

  /** What is inside an inline fragment is read on the type it names, or on the one
      around it. */
  lemma {:induction false} InlineExactly(doc: Document, condition: string, inside: seq<Selection>, type_: string,
                                         stack: seq<string>, n: nat)
    ensures WalkOne(doc, Inline(Some(condition), inside), type_, stack, n) == Walk(doc, inside, condition, stack, n)
    ensures WalkOne(doc, Inline(None, inside), type_, stack, n) == Walk(doc, inside, type_, stack, n)
  {
  }
}
