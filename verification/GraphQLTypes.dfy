/** Type references as GraphQL writes them: `[Int!]!` and the like. */
module GraphQLTypes {

  datatype TypeRef = Named(name: string) | ListOf(item: TypeRef) | NonNull(inner: TypeRef)

  /** `!` is never written twice. */
  predicate Proper(t: TypeRef) {
    match t
    case Named(_) => true
    case ListOf(item) => Proper(item)
    case NonNull(inner) => !inner.NonNull? && Proper(inner)
  }

  function Nullable(t: TypeRef): TypeRef {
    if t.NonNull? then t.inner else t
  }

  function Concrete(t: TypeRef): string {
    match t
    case Named(name) => name
    case ListOf(item) => Concrete(item)
    case NonNull(inner) => Concrete(inner)
  }

  /** What one item of a list written here is held to: a single value may stand
      where a list is expected, so a type that is no list stands in for itself. */
  function ItemType(t: TypeRef): TypeRef {
    if Nullable(t).ListOf? then Nullable(t).item else t
  }

  /** The name at the bottom of a type, however it is wrapped; and an item of a list,
      null or not, is of the type inside its brackets. */
  lemma {:induction false} Unwraps(name: string, t: TypeRef)
    ensures Concrete(Named(name)) == name && Concrete(ListOf(t)) == Concrete(t) && Concrete(NonNull(t)) == Concrete(t)
    ensures ItemType(ListOf(t)) == t && ItemType(NonNull(ListOf(t))) == t && ItemType(Named(name)) == Named(name)
  {
  }
}
