/** GraphQL documents once parsed, and how their fragments spread one another. */
module GraphQLDocuments {
  import opened Wrappers
  import opened Collections

  datatype Value =
    | Variable(name: string)
    | Null
    | Number(number: real)
    | String(text: string)
    | Boolean(truth: bool)
    | Enum(member: string)
    | List(items: seq<Value>)
    | Object(fields: map<string, Value>)

  datatype Argument = Argument(name: string, value: Value)

  datatype Selection =
    | Field(name: string, arguments: seq<Argument>, set_: seq<Selection>)
    | Inline(condition: Option<string>, set_: seq<Selection>)
    | Spread(name: string)

  datatype Fragment = Fragment(on: string, set_: seq<Selection>)

  type Fragments = map<string, Fragment>

  function InlineType(condition: Option<string>, type_: string): string {
    if condition.Some? then condition.value else type_
  }

  // ----- Cycles -----

  /** Which fragment spreads which. */
  type Edges = iset<(string, string)>

  /** A run of fragments, each spread by the one before it. */
  ghost predicate Chain(edges: Edges, p: seq<string>) {
    forall i | 0 <= i < |p| - 1 :: (p[i], p[i + 1]) in edges
  }

  /** Section 5.5.2.2 of the GraphQL specification (October 2021), for the chains
      that start at one of `roots`: none comes back to a fragment. */
  ghost predicate Acyclic(edges: Edges, roots: iset<string>) {
    forall p | Chain(edges, p) && p != [] && p[0] in roots :: Distinct(p)
  }
}
