# Postrust, verified

Postrust answers REST and GraphQL requests by turning them into SQL. This project
models the parts of it whose correctness cannot be read off one function, and
proves what they promise for every input, every run and every reachable state.

- **Embedding in one query** (`Placeholders`, `Sql`, `EmbedCompiler`, `NestedJoin`,
  `EmbedCorrectness`, `EmbedBuilder`). A selection tree is compiled into correlated
  subselects that share one alias counter and one parameter list. SQL is an algebra
  with a meaning in which an inner alias does capture an outer one; placeholders are
  kept as text and read back by a lexer. The main theorem says the compiled query
  answers what a nested loop over the tables does.
- **Embedding by a second query** (`BatchedEmbed`). Keys, one grouped fetch, drain,
  recurse, regroup, attach, on an array changed in place; equal to the nested loop in
  whatever order the hash maps and the database answer.
- **Spreads, pages and `WITH` clauses** (`Spreads`, `Paging`, `LeadingCte`).
- **The request's transaction and its lock** (`Transaction`, `SchemaLock`), as step
  relations over all runs.
- **Permissions** (`RoleView`, `PermissionFilter`, `PermissionMeaning`, `PermissionRows`). The view of
  the schema a role is shown is proved to be the *largest* sub-schema its grants
  permit, from which the fixpoint and monotonicity follow; the filter rewriter and the
  compiler behind it are proved to keep the rows a filter accepts.
- **GraphQL documents** (`GraphQLTypes`, `GraphQLDocuments`, `Coercion`, `FragmentWalk`, `VariableUsage`).
- **Authentication** (`Jwt`, `JwtCache`), a cache over two clocks against the uncached
  function.
- **Metadata commands** (`MetadataFold`).

`Wrappers`, `Collections`, `JsonValues`, `Decimal` and `Text` hold what these share. Signature
verification, how PostgreSQL evaluates a bound condition, sorts rows or calls a
function, and how `serde_json` renders a number are parameters of the model.

## Where the code does less than one would expect

Each of these is a property that fails on some inputs. The model keeps what the code
does, a lemma shows it failing, and another says exactly when it holds.

- A response rendered by a media handler, or by a function that declares its own media
  type, goes from the query straight to formatting: `Prefer: max-affected`, the one-row
  rule of `PUT` and the response settings are not looked at, yet the write commits
  (`Transaction.ChecksPrecedeWrites`, `Transaction.RenderedSkipsChecks`).
- With only a null test on an embed, and on a function call with `!inner`, the page is
  taken before the rows are filtered, while the count is taken after: the page is then
  not a page of what was counted (`Paging.PagesExactly`, `Paging.NullTestPageWrong`).
- An order that mixes the table's own columns with embedded ones drops its own
  (`Paging.OrderExactly`).
- Past a thousand spreads a cycle of fragments is not reported
  (`FragmentWalk.BudgetExactly`, `FragmentWalk.BudgetHidesCycle`).
- A permission can keep other rows than its filter accepts. Two entries, or two operators
  of a column, that come out under one key leave only the second
  (`PermissionRows.CollapseExactly`, `CollapsedOperatorsExactly`). A column's key is read
  back as another column, or as a relationship, by this table's own names or, through a
  relationship, by the far table's (`ColumnExactly`, `RelatedColumnExactly`). A
  relationship comes out under another name (`RelationshipNameExactly`). A column or
  relationship whose name starts with `_` or `$` is taken for an operator and what it holds
  for data: older spellings stay, a variable is never a list, nothing is renamed. A
  variable's list lands inside a written list. An object inside a list compared outright is
  taken for a predicate (all `ColumnExactly` again, with `PermissionMeaning.InertExactly`).
  An unqualified `_exists` inside a relationship is looked up in the far table's schema
  (`ExistsExactly`). And a part that constrains nothing is left out of `_or`, `_not` and
  conjunctions (`OrExactly`, `NotExactly`, `AllExactly`).
- Coercing each fragment on its own and then opening spreads differs from the other
  order below a field the registry does not know (`Coercion.CoerceThenExpand`).
- A cached answer can outlive its token by the time between measuring its lifetime and
  storing it, less two nanoseconds (`JwtCache.HitIsExact`, `JwtCache.OverstayReached`).
- A create command whose payload is not an object is passed over, so an earlier create
  stands (`MetadataFold.LastCommandDecides`).
- A quoted name with a parenthesis in it starts the `WITH` scan in the wrong place
  (`LeadingCte.HeadsExactly`).
- A spread that declares a name with the reserved prefix leaves it behind
  (`Spreads.TidyExactly`).
- Renumbering wraps past the largest `usize` (`Placeholders.LexShift`).

## Model

| member | source | states |
|---|---|---|
| Placeholders.ShiftPlaceholders | crates/postrust-engine/src/handler.rs:2421-2447 | The scanning loop returns `Shift`, the function every property of renumbering below is about |
| Placeholders.LexShift | crates/postrust-engine/src/handler.rs:2421-2447 | For every text, the tokens of the shifted text are the original tokens with each placeholder moved by the offset, if and only if no sum leaves the range of a `usize` |
| Placeholders.ShiftTwice | crates/postrust-engine/src/handler.rs:2421-2447 | Shifting by a and then by b is shifting by a + b, for every text |
| Placeholders.BindShift | crates/postrust-engine/src/handler.rs:2476-2557 | A fragment moved past the values before it reads, against the final list, the very values it read on its own, and every placeholder is in range |
| Placeholders.BindMoved | crates/postrust-engine/src/handler.rs:2476-2557 | The same for token lists: whatever precedes and follows a fragment's own values |
| EmbedBuilder.EmbedFilters.NextAlias | crates/postrust-engine/src/handler.rs:2451-2454 | Hands out the alias of the next number and counts it |
| EmbedBuilder.EmbedFilters.PredicateFor | crates/postrust-engine/src/handler.rs:2476-2557 | The loop over filters and logic groups leaves the predicates and the parameter list of `Conditions`, or its error at the first unknown column |
| EmbedBuilder.BuildEmbed | crates/postrust-engine/src/handler.rs:3017-3241 | One relation compiled with the shared mutable context is `CompileOne` on that context's state |
| EmbedBuilder.BuildEmbedExpressions | crates/postrust-engine/src/handler.rs:2996-3244 | The recursion over one mutable context returns the level and leaves the state of the functional compiler, errors included |
| EmbedCorrectness.AliasesDiffer | crates/postrust-engine/src/handler.rs:2451-2454 | Aliases of different numbers differ, and none is `src` or a junction's alias |
| EmbedCorrectness.Fresh | crates/postrust-engine/src/handler.rs:2451-2454 | A new alias, and its junction's, differ from every alias already in scope as a parent |
| EmbedCorrectness.CompileState | crates/postrust-engine/src/handler.rs:2996-3244 | The alias counter advances by exactly the relations of the tree and parameters are only appended |
| EmbedCorrectness.CompileSucceeds | crates/postrust-engine/src/handler.rs:2996-3244 | A tree compiles if and only if every relation in it exists and every condition addressed to one names columns the related table has |
| EmbedCompiler.RangeFor | crates/postrust-engine/src/handler.rs:2461-2474 | An embed's window keeps the offset asked for, under the client's names or else the relations' own or else none, and its limit is what was asked or the server's cap, and above neither |
| EmbedCorrectness.AddressedExactly | crates/postrust-engine/src/handler.rs:2476-2557 | A condition reaches an embed if and only if its path is the embed's, by the client's names or the relations' own |
| EmbedCorrectness.ConditionsMean | crates/postrust-engine/src/handler.rs:2476-2557 | After any number of earlier predicates, the renumbered conditions accept a row exactly when the conditions read with their own values do |
| EmbedCorrectness.ForeignKeyHolds | crates/postrust-core/src/embed.rs:273-297 | The correlation holds exactly when every key pair is equal and not null |
| EmbedCorrectness.JunctionHolds | crates/postrust-core/src/embed.rs:118-157 | The junction's two sets of equalities hold exactly when the junction row links child and parent |
| EmbedCorrectness.SelectedMeans | crates/postrust-core/src/embed.rs:416-513 | The correlated subselect yields exactly the parent's children in the nested join: all key pairs, own filters, nested `!inner`s |
| EmbedCorrectness.InnersMean | crates/postrust-core/src/embed.rs:679-726 | A level's `EXISTS` predicates hold of a row if and only if each of its `!inner` relations has a child that stays |
| EmbedCorrectness.FilterableMeans | crates/postrust-engine/src/handler.rs:3213-3226 | The existence tests recorded for null tests, one for each embed that is not an empty spread, go by the embed's name and hold of a row if and only if that embed has a child that stays |
| EmbedCorrectness.EmbedsMean | crates/postrust-engine/src/handler.rs:2996-3244 | The expressions of a level, evaluated in the parent's scope, give exactly the keys and values of the nested join |
| EmbedCorrectness.QueryMeansNestedLoop | crates/postrust-engine/src/handler.rs:2996-3244 | For every tree that compiles, every database and every main query, the wrapper with the level's expressions and `!inner` predicates returns what the nested loop returns: the surviving parents and their embeds at every depth |
| NestedJoin.ValueHolds | crates/postrust-core/src/embed.rs:480-566 | In that nested loop a to-many holds one object for each child past the offset, in order, as many as the lesser of the limit asked and the server's cap allows and all of them without either; a to-one holds the first such child, and null exactly where there is none |
| NestedJoin.KeysExactly | crates/postrust-core/src/embed.rs:273-297 | Rows join where every key pair has the same value on both sides, and null is no value |
| NestedJoin.LinksExactly | crates/postrust-core/src/embed.rs:118-157 | A junction row links a child to a parent by all pairs of both its keys |
| NestedJoin.OrderExactly | crates/postrust-engine/src/handler.rs:2915-2993 | An order term applies to an embed if and only if it is addressed to it |
| NestedJoin.DottedExactly | crates/postrust-engine/src/handler.rs:2461-2465 | A window's address is the names with dots between them |
| NestedJoin.OwnExactly | crates/postrust-engine/src/handler.rs:3130-3160 | A child keeps its whole row where the selection is empty or asks for `*`, and the columns named else |
| NestedJoin.ColumnsExactly | crates/postrust-engine/src/handler.rs:3130-3160 | The columns named are the fields, each under its alias or its own name |
| NestedJoin.PickReads | crates/postrust-engine/src/handler.rs:3130-3160 | A key is read from the column of the last field that asks for it |
| NestedJoin.YieldsExactly | crates/postrust-engine/src/handler.rs:3279-3288 | An embed puts a key into its parent if and only if some field is named in it at some depth |
| NestedJoin.KeyExactly | crates/postrust-engine/src/handler.rs:3206-3211 | A relation's key is its alias or its own name, and a spread's is reserved |
| NestedJoin.SpreadNamesExactly | crates/postrust-engine/src/handler.rs:2620-2656 | A spread declares a name if and only if one of its items lifts it |
| EmbedCorrectness.SpreadsMean | crates/postrust-engine/src/handler.rs:3192-3204 | A compiled level declares exactly the spreads of its tree, each with its names under its own reserved key |
| BatchedEmbed.ParentKeys | crates/postrust-core/src/embed.rs:921-934 | The keys are distinct, and are exactly the non-null keys the rows have |
| BatchedEmbed.FetchGrouped | crates/postrust-core/src/embed.rs:348-399 | One pair for each requested key that some child has, in any order, each with that key's children |
| BatchedEmbed.GroupFromAggregated | crates/postrust-core/src/embed.rs:789-805 | The loop gathers pairs by rendered key, extending a key met twice |
| BatchedEmbed.GroupedByText | crates/postrust-core/src/embed.rs:789-805 | Whatever order the groups come in, each requested key maps to its children in table order and a key without children has no entry |
| BatchedEmbed.ProjectionHarmless | crates/postrust-core/src/embed.rs:733-757 | Fetching only the projected columns changes nothing in the objects returned, at any depth |
| BatchedEmbed.KidsByText | crates/postrust-core/src/embed.rs:775-781 | The children found under a parent's rendered key are exactly the joined ones |
| BatchedEmbed.Drain | crates/postrust-engine/src/handler.rs:3436-3443 | The map is emptied in some order into one contiguous list |
| BatchedEmbed.Regroup | crates/postrust-engine/src/handler.rs:3450-3454 | Cutting the embedded list by the counts puts each run back under its own key |
| BatchedEmbed.Deepen | crates/postrust-engine/src/handler.rs:3429-3455 | Embedding into all groups at once is embedding into each |
| BatchedEmbed.FetchChildren | crates/postrust-engine/src/handler.rs:3345-3510 | What is ready to attach under each key is its children, embedded and cut down to the selection |
| BatchedEmbed.AttachToParents | crates/postrust-core/src/embed.rs:834-860 | Each row gains the relation's key with the children of its own key: a list, or the first or null |
| BatchedEmbed.EmbedRelations | crates/postrust-engine/src/handler.rs:3300-3528 | Attaching in place over a batch leaves every row as the naive nested loop would make it, at every depth, whatever order the maps drain in |
| BatchedEmbed.ValueHolds | crates/postrust-core/src/embed.rs:834-860 | In that nested loop a to-many's key holds an array with one object for each joined child in table order; a to-one's holds the first, and null if and only if none joins |
| BatchedEmbed.RequestedExactly | crates/postrust-engine/src/handler.rs:3456-3498 | A child keeps what its selection names, and everything where it names nothing |
| Spreads.FlattenSpreads | crates/postrust-engine/src/handler.rs:2670-2728 | The walk's result is one that dissolving children first and then the object's own spreads, in some order of its keys, may give |
| Spreads.SpreadOne | crates/postrust-engine/src/handler.rs:2692-2722 | One reserved key is taken out and what it offers put in, over keys already there |
| Spreads.FlattenedIsTidy | crates/postrust-engine/src/handler.rs:2670-2728 | No reserved key remains at any depth where no spread declares one |
| Spreads.TidyExactly | crates/postrust-engine/src/handler.rs:2670-2728 | Every value comes out free of reserved keys if and only if no spread declares a reserved name |
| Spreads.FlattenTwice | crates/postrust-engine/src/handler.rs:2670-2728 | Flattening what was flattened is the identity, whatever is declared the second time |
| Spreads.FlattenDissolves | crates/postrust-engine/src/handler.rs:2683-2724 | In any order, the object ends with all its plain keys and all its spreads offer, each value from a spread that offers it or else its own |
| Spreads.ToManySpread | crates/postrust-engine/src/handler.rs:2703-2714 | A to-many spread of n rows gives each declared name an array of length n whose i-th entry is row i's value, or null |
| Spreads.ToOneSpread | crates/postrust-engine/src/handler.rs:2697-2701 | A to-one spread lifts each of its columns into the object around it |
| Spreads.EmptySpread | crates/postrust-engine/src/handler.rs:2715-2721 | A spread that matched nothing gives each declared name a null |
| Sql.Page | crates/postrust-engine/src/handler.rs:944-951 | A page is the rows from the offset on, as many as the limit or to the end |
| Paging.CollectPredicates | crates/postrust-engine/src/handler.rs:875-917 | The loops push the `!inner` predicates, the null tests and the logic trees in that order, skipping what asks something else |
| Paging.BuildStatements | crates/postrust-engine/src/handler.rs:832-952 | The statement to run and the statement to count are those the lemmas below evaluate |
| Paging.PredicatesMean | crates/postrust-engine/src/handler.rs:875-917 | The wrapper's predicates hold of a row if and only if it survives: every `!inner` relation has a child in the nested join and every null test and logic tree of null tests asks for the row |
| Paging.MainAnswers | crates/postrust-engine/src/handler.rs:821-952 | For every request, database and rows, the statement built answers the survivors of the nested loop, with their embeds, paged after them where the page moved and before them where it did not |
| Paging.CountAnswers | crates/postrust-engine/src/handler.rs:719-722 | The count statement answers as many rows as survive, whatever the page |
| Paging.MovedPage | crates/postrust-engine/src/handler.rs:837-852 | For every read with an `!inner` embed or an order on an embedded column, the statement built answers the offset/limit slice of the nested loop's surviving parents, ordered by the embedded columns and with their embeds, and the count statement counts exactly those parents |
| Paging.MovedExactly | crates/postrust-engine/src/handler.rs:837-852 | The page moves outside if and only if the request is a read and has an `!inner` embed or an order on an embedded column |
| Paging.InnersExactly | crates/postrust-engine/src/handler.rs:3100-3115 | A compiled level has an `!inner` predicate if and only if its selection has such an embed |
| Paging.PagesExactly | crates/postrust-engine/src/handler.rs:832-952 | In a given database the statement answers that slice for all rows if and only if the request is such a read, the predicates tell no rows apart, or the page is everything or nothing |
| Paging.InsidePageDiffers | crates/postrust-engine/src/handler.rs:832-952 | A page left inside, that is neither everything nor nothing, differs in length from the right one for some rows whenever the predicates tell two rows apart |
| Paging.NullTestPageWrong | crates/postrust-engine/src/handler.rs:876-904 | It does for authors without articles, one at a time |
| Paging.BuildEmbedOrders | crates/postrust-engine/src/handler.rs:2767-2772 | The wrapper orders by the embedded terms alone, in turn |
| Paging.OrderExactly | crates/postrust-engine/src/handler.rs:2767-2772 | Rows in the order of the terms kept are in the order asked for, whatever they hold, if and only if the terms are all embedded or none is |
| Paging.LogicMeans | crates/postrust-engine/src/handler.rs:1813-1855 | A logic tree is compiled if and only if all its leaves are null tests of embeds, and then holds of a row exactly when the tree, read against the nested join, does |
| Paging.NamesOnlyExactly | crates/postrust-core/src/api_request/types.rs:489-496 | A tree is about embeds if and only if every name in it is a relation's and no group in it is empty |
| LeadingCte.Close | crates/postrust-engine/src/handler.rs:304-321 | The scan ends at the shortest prefix whose parentheses outside quotes balance, if there is one, with a depth that never goes below zero |
| LeadingCte.SplitLeadingCte | crates/postrust-engine/src/handler.rs:298-324 | The clause is that prefix with a space and the body the rest without leading white space; the statement is left alone where there is no parenthesis or no such prefix |
| LeadingCte.ScanStarts | crates/postrust-engine/src/handler.rs:299-302 | The scan starts at the first parenthesis after a leading `WITH` and a space, and nowhere without one |
| LeadingCte.QuotesHide | crates/postrust-engine/src/handler.rs:304-310 | Text between single quotes, and between double ones, is hidden, and text without either stands |
| LeadingCte.Rebuilds | crates/postrust-engine/src/handler.rs:312-316 | Clause, white space and body are the statement, and the body starts with no white space |
| LeadingCte.EndsWithParen | crates/postrust-engine/src/handler.rs:312-316 | The clause ends with a closing parenthesis outside quotes |
| LeadingCte.HeadsExactly | crates/postrust-engine/src/handler.rs:299-302 | For every tail, the cut is at the shortest balanced prefix of the whole statement if and only if the text before the first parenthesis leaves no quote open and closes no parenthesis |
| Transaction.StepKeeps | crates/postrust-engine/src/handler.rs:201-254 | Every step keeps the invariant that ties the phase, the transaction, the commits and the checks passed |
| Transaction.RunKeeps | crates/postrust-engine/src/handler.rs:201-254 | Every run keeps it |
| Transaction.ErrorsWriteNothing | crates/postrust-engine/src/handler.rs:236-254 | In every run there is at most one commit, an error answer means no write was committed, a committed write means a success answer, no answer leaves a transaction open, and success with a transaction begun means it is committed |
| Transaction.SuccessCommits | crates/postrust-engine/src/handler.rs:201-254 | For every request, once ten steps have gone well and the rows pass what is demanded of them, it is answered with success and committed, once |
| Transaction.FailureWritesNothing | crates/postrust-engine/src/handler.rs:201-254 | A step that fails wherever the request can be refused is answered with an error, for good, and nothing is written |
| Transaction.ReadEndsEarly | crates/postrust-engine/src/handler.rs:1302-1323 | The query is committed with its answer if and only if the request only reads and has no count, second query or body to render after it |
| Transaction.WrittenRows | crates/postrust-engine/src/handler.rs:1466-1499 | A committed write that is not rendered touched no more rows than `max-affected` and, for a `PUT`, exactly one |
| Transaction.ChecksPrecedeWrites | crates/postrust-engine/src/handler.rs:1302-1499 | Every committed write has passed every check its request demands if and only if the body is not rendered, the request only reads, or it demands only formatting |
| Transaction.RenderedSkipsChecks | crates/postrust-engine/src/handler.rs:1189-1261 | A rendered write commits having passed formatting alone |
| SchemaLock.NextKeeps | crates/postrust-engine/src/handler.rs:172-198 | Every step of any number of tasks keeps mutual exclusion, one guard per task, the queue and the count of connections |
| SchemaLock.LockExactly | crates/postrust-engine/src/handler.rs:186-190 | Behind a queue every guard waits; before one, readers share and a writer waits for all of them |
| SchemaLock.Progress | crates/postrust-engine/src/handler.rs:172-198 | In such a state with a connection in the pool, something can move unless all have finished |
| SchemaLock.NoDeadlock | crates/postrust-engine/src/handler.rs:172-198 | No state of any run of disciplined tasks is deadlocked |
| SchemaLock.RunsEnd | crates/postrust-engine/src/handler.rs:172-198 | However tasks are scheduled, a run takes no more steps than there is work |
| SchemaLock.ProgramDisciplined | crates/postrust-engine/src/handler.rs:481-482 | A request's sequence of guards, transaction and batched fetches holds one guard at a time and waits for nothing under it |
| SchemaLock.CutDisciplined | crates/postrust-engine/src/handler.rs:1269-1272 | So does a request stopped by an error after any step |
| SchemaLock.RequestsNeverDeadlock | crates/postrust-engine/src/handler.rs:3335-3395 | Any requests, stopped anywhere, with any number of reloads, never deadlock |
| SchemaLock.NestedGuardDeadlocks | crates/postrust-engine/src/handler.rs:172-198 | Holding one guard while asking for a second, with a reload in between, does deadlock |
| RoleView.RetainTable | crates/postrust-graphql/src/role.rs:72-155 | Flags, then columns, then computed fields narrowed in turn give the table the role sees, or none |
| RoleView.RetainTables | crates/postrust-graphql/src/role.rs:72-155 | Narrowing the map in any order keeps exactly the tables the role sees, as it sees them |
| RoleView.RetainRelationships | crates/postrust-graphql/src/role.rs:188-209 | Keeps exactly the relationships with a source in the view and a link left, with the links left |
| RoleView.CacheForRole | crates/postrust-graphql/src/role.rs:64-212 | Returns the view the lemmas below are about |
| RoleView.ViewShows | crates/postrust-graphql/src/role.rs:87-137 | On the document itself: a table of the view has each write it had and is granted, an insert kept for the backend only for a backend caller, and each column the role's select list or the list of a write it still has names |
| RoleView.ViewComputes | crates/postrust-graphql/src/role.rs:139-155 | It has a computed field if and only if the name the function goes by is granted |
| RoleView.ViewHolds | crates/postrust-graphql/src/role.rs:72-172 | A table is in the view if and only if the role is granted something the table has |
| RoleView.ViewLinks | crates/postrust-graphql/src/role.rs:180-209 | A link is kept if and only if its source is in the view and its target is an enum, or is in the view with something the role selects |
| RoleView.ViewIsPermitted | crates/postrust-graphql/src/role.rs:64-212 | The view is contained in the cache, every flag, column and computed field in it rests on a grant, and its relationships are closed: source present, list not empty, each target readable or an enum |
| RoleView.ViewIsLargest | crates/postrust-graphql/src/role.rs:64-227 | Every sub-cache with those properties is contained in the view |
| RoleView.ViewIsFixpoint | crates/postrust-graphql/src/role.rs:64-212 | Narrowing a view again changes nothing |
| RoleView.ViewIsMonotone | crates/postrust-graphql/src/role.rs:64-212 | Widening any grant, or asking as a backend caller, removes no table, column, computed field, write flag or relationship |
| PermissionFilter.RefusalIsExact | crates/postrust-graphql/src/role.rs:582-694 | Rewriting fails if and only if the filter mentions a session variable the session lacks or holds an `_exists` that names no table, and the error names that |
| PermissionFilter.VariableExactly | crates/postrust-graphql/src/role.rs:755-762 | A text is a session variable if and only if it is `x-hasura-` and a name, in any ASCII case, and the name is that rest lowered with dashes as underscores |
| PermissionFilter.VariableResolves | crates/postrust-graphql/src/role.rs:765-801 | Given to an operator it comes out as the session's value, as a list for `_in`, `_nin`, `_has_keys_any` and `_has_keys_all` and for no other, and is refused by its name where the session has none |
| PermissionFilter.ComparisonResolves | crates/postrust-graphql/src/role.rs:656-692 | An `_eq` on a column with such a text comes out under the column's exposed name with the session's value |
| PermissionFilter.UnbracedIsOne | crates/postrust-graphql/src/role.rs:786-792 | A value that is not braced is a list of itself |
| PermissionMeaning.RenameReadsBack | crates/postrust-graphql/src/names.rs:788-821 | A column is read back from the name it is exposed under where no other column of its table is exposed so |
| PermissionMeaning.FilterCompiled | crates/postrust-graphql/src/handler.rs:7031-7186 | For every database and row, compiling the rewritten filter the way `build_condition` reads it (parts that constrain nothing left out, names read back to columns, SQL's three truth values) gives the filter's own value, where the rewriter follows the filter, names spelled like operators included |
| PermissionRows.FixedMeans | crates/postrust-graphql/src/handler.rs:7031-7186 | The compiler emits nothing for a filter if and only if the filter is one of a syntactic kind, and such a filter is true everywhere or false everywhere |
| PermissionRows.FaithfulMeans | crates/postrust-graphql/src/handler.rs:7049-7074 | Where nothing false is left out of a conjunction and nothing true out of an `_or`, a row passes what is compiled exactly when the filter holds of it |
| PermissionRows.PermissionKeepsSameRows | crates/postrust-graphql/src/role.rs:551-564 | For every session, database and row, a permission keeps exactly the rows its metadata filter accepts, read with implicit equality, old spellings, session variables and the database's column names, where the rewriter follows it and what is left out is harmless |
| PermissionRows.NotExactly | crates/postrust-graphql/src/handler.rs:7070-7074 | `_not` keeps the right rows in every database if and only if what it negates is not a filter that constrains nothing and is true |
| PermissionRows.OrExactly | crates/postrust-graphql/src/handler.rs:7049-7069 | `_or` keeps the right rows in every database if and only if no branch constrains nothing and is true, or the other branches accept every row |
| PermissionRows.OrOfComparisons | crates/postrust-graphql/src/handler.rs:7049-7069 | Where every branch that constrains something compares a column, `_or` keeps the right rows in every database if and only if no branch constrains nothing and is true |
| PermissionRows.AllExactly | crates/postrust-graphql/src/handler.rs:7041-7186 | The entries of a filter keep the right rows in every database if and only if none constrains nothing and is false, or the others hold of no row |
| PermissionRows.MaskedDifference | crates/postrust-graphql/src/handler.rs:7031-7186 | A filter can keep the right rows although a part of it is left out wrongly, so the conditions above are about each node and not the whole |
| PermissionRows.ColumnExactly | crates/postrust-graphql/src/role.rs:625-680 | One comparison of a column keeps the right rows in every database if and only if its key leads back to it, past this table's renames, and what it is compared with comes out as meant: inert if compared outright, one variable or none under a list operator, and for a name that starts with `_` nothing spelled the older way and no list from a variable |
| PermissionRows.RelatedColumnExactly | crates/postrust-graphql/src/role.rs:656-679 | The same through a relationship: the key the outer table's renames give the column has to lead, at the far table, back to it; and through a relationship whose name starts with `_` nothing is renamed, modernised or made a list |
| PermissionMeaning.InertExactly | crates/postrust-graphql/src/role.rs:603-692 | A value that is no operand comes out as itself, variables in place, if and only if nothing inside is taken for part of a filter: no older spelling, no rename, no implicit equality, no list made of a variable |
| PermissionRows.RelationshipNameExactly | crates/postrust-graphql/src/role.rs:640-679 | A relationship asked for at all keeps the right rows in every database if and only if it comes out under its own name, neither renamed like a column nor modernised like an operator |
| PermissionRows.ExistsExactly | crates/postrust-graphql/src/role.rs:722-748 | An unqualified `_exists` through a relationship keeps the right rows in every database if and only if both tables are in one schema |
| PermissionRows.CollapseExactly | crates/postrust-graphql/src/role.rs:603-680 | Two entries that come out under one key keep the right rows in every database if and only if the second, which stays, implies the first, which is lost |
| PermissionRows.CollapseKeepsLast | crates/postrust-graphql/src/role.rs:603-680 | The rows kept are those of the second, whatever the first says |
| PermissionRows.BothSpellingsExactly | crates/postrust-graphql/src/role.rs:567-574 | `$or` beside `_or`, each of one comparison, keep the right rows in every database if and only if they are the same comparison |
| PermissionRows.CollapsedColumnsExactly | crates/postrust-graphql/src/role.rs:664-679 | Two comparisons of columns that come out under one name keep the right rows in every database if and only if they are the same comparison |
| PermissionRows.CollapsedOperatorsExactly | crates/postrust-graphql/src/role.rs:630-655 | Two operators of a column that come out the same keep the right rows in every database if and only if they compare with the same |
| PermissionMeaning.OperandMeans | crates/postrust-graphql/src/role.rs:765-801 | An operand rewritten for an operator comes out as its own operator means it if and only if a variable given outright is a list for both or for neither, and no other variable is made a list |
| PermissionFilter.ListReadsBack | crates/postrust-graphql/src/role.rs:786-800 | A braced list of items reads back as those items if and only if none holds a comma, outer white space or an outer quote, and it is not one empty item |
| PermissionMeaning.ChecksMean | crates/postrust-graphql/src/role.rs:603-655 | A column's operators come out as meant if and only if no two collapse and each does, modern spelling included where they were taken for data |
| PermissionRows.ObjectsInListsAreTakenApart | crates/postrust-graphql/src/role.rs:603-692 | `[{"a": 1}]` compared outright comes out a different value |
| Coercion.AsWritten | crates/postrust-graphql/src/hasura.rs:868-884 | A string is read as something else only where `Int`, `Float` or `Boolean` is expected, and then as a number or a boolean |
| Coercion.IntReadsBack | crates/postrust-graphql/src/hasura.rs:868-884 | Every integer written out is read as itself if it is an `i64`, and not read otherwise |
| Coercion.WrittenReads | crates/postrust-graphql/src/hasura.rs:868-884 | An integer's digits read as that integer, `true` and `false` as themselves, a float as the library reads it |
| Coercion.NotAnInteger | crates/postrust-graphql/src/hasura.rs:868-884 | A text that is not a sign and digits is no integer |
| Coercion.ArgumentHeld | crates/postrust-graphql/src/hasura.rs:769-786 | A declared argument other than `limit` is held to its declared type |
| Coercion.InputHeld | crates/postrust-graphql/src/hasura.rs:825-850 | A field of an input object is held to the type declared for it |
| GraphQLTypes.Unwraps | crates/postrust-graphql/src/hasura.rs:810-862 | A type's name is the one at its bottom, and an item of a list is of the type inside its brackets |
| Coercion.CoerceValue | crates/postrust-graphql/src/hasura.rs:810-862 | The in-place walk gives the coerced value and says it edited exactly when some string in a strict position reads as a scalar |
| Coercion.CoerceChanges | crates/postrust-graphql/src/hasura.rs:810-862 | Coercion changes a value if and only if some string inside it stands in a strict position and reads as that scalar |
| Coercion.CoerceTwice | crates/postrust-graphql/src/hasura.rs:810-862 | Coercing a value again changes nothing |
| Coercion.CoerceSelectionSet | crates/postrust-graphql/src/hasura.rs:758-807 | The walk over a selection gives the coerced selection and says it edited exactly when it did |
| Coercion.CoerceFieldArguments | crates/postrust-graphql/src/hasura.rs:775-790 | Each argument but `limit` is coerced to its declared type, and the flag is exact |
| Coercion.CoerceSetTwice | crates/postrust-graphql/src/hasura.rs:758-807 | Coercing a selection again changes nothing |
| Coercion.CoerceKeepsRest | crates/postrust-graphql/src/hasura.rs:758-862 | Shape, every `limit`, and every value outside strict positions stay as they were |
| Coercion.CoerceThenExpand | crates/postrust-graphql/src/hasura.rs:710-744 | Coercing each fragment once and then opening spreads is opening first and coercing the result, to any depth, if and only if no fragment that coercion changes is spread below an unknown field |
| Coercion.RankedExpands | crates/postrust-graphql/src/hasura.rs:710-744 | In an acyclic document opening spreads to the depth of its ranks leaves none |
| Coercion.AcyclicIsRanked | crates/postrust-graphql/src/hasura.rs:710-744 | The fragments of a document without cyclic chains can be ranked so that each spreads only lower ones |
| Coercion.AcyclicOrdersAgree | crates/postrust-graphql/src/hasura.rs:710-744 | A document none of whose chains of spreads repeats a fragment opens completely, and there the two orders agree under the same condition |
| Coercion.UnknownFieldHidesFragment | crates/postrust-graphql/src/hasura.rs:758-807 | Below an unknown field the two orders differ whenever coercion changes the fragment |
| FragmentWalk.Usage.SelectionSet | crates/postrust-graphql/src/hasura.rs:1075-1196 | The walk ends on every document, leaves its stack as it found it, and appends exactly the problems of `Walk` |
| FragmentWalk.Usage.One | crates/postrust-graphql/src/hasura.rs:1083-1195 | The same for one selection |
| FragmentWalk.UnknownExactly | crates/postrust-graphql/src/hasura.rs:1086-1112 | A field is reported if and only if the registry knows its type, the type has no such field and the name does not start with two underscores; a known one is walked on its own type |
| FragmentWalk.InlineExactly | crates/postrust-graphql/src/hasura.rs:1147-1156 | An inline fragment is read on the type it names, or on the one around it |
| FragmentWalk.CyclesAreReal | crates/postrust-graphql/src/hasura.rs:1157-1178 | Every cycle reported is a cycle of fragment spreads, and every unknown field reported is one its type, which the registry knows, lacks |
| FragmentWalk.CleanChains | crates/postrust-graphql/src/hasura.rs:1157-1196 | If nothing is reported within budget, every chain of spreads from here repeats no fragment |
| FragmentWalk.CycleReached | crates/postrust-graphql/src/hasura.rs:1157-1178 | A reported cycle is reached from the operation's own selection |
| FragmentWalk.WalkDecidesAcyclic | crates/postrust-graphql/src/hasura.rs:1075-1196 | A document whose opened selection holds no more spreads than the budget is reported for a cycle if and only if the fragments the operation reaches have one (section 5.5.2.2 of the GraphQL specification, October 2021) |
| FragmentWalk.WalkCounts | crates/postrust-graphql/src/hasura.rs:1179-1182 | The walk's count is the number of spreads of the opened selection while that is within the budget, and past the budget exactly when that is |
| FragmentWalk.BudgetHidesCycle | crates/postrust-graphql/src/hasura.rs:1722-1722 | Past the budget a document's cycle goes unreported |
| FragmentWalk.BudgetExactly | crates/postrust-graphql/src/hasura.rs:1722-1722 | All operations of at most n spreads are decided if and only if n is within the budget |
| VariableUsage.CheckIsExact | crates/postrust-graphql/src/hasura.rs:991-1009 | Promoting the declaration, relaxing the location and asking for a subtype accepts exactly what IsVariableUsageAllowed does (section 5.8.5 of the GraphQL specification, October 2021) |
| VariableUsage.RelaxText | crates/postrust-graphql/src/hasura.rs:1769-1774 | Stripping one `!` from a type's text gives the text of its nullable form |
| VariableUsage.ReportsAreExact | crates/postrust-graphql/src/hasura.rs:1238-1343 | A variable is reported, through any lists and input objects, if and only if one of its usages is not allowed, and for that usage |
| VariableUsage.CheckValue | crates/postrust-graphql/src/hasura.rs:1238-1343 | The recursive check lists exactly the problems of a value |
| VariableUsage.CheckField | crates/postrust-graphql/src/hasura.rs:1282-1343 | The same for one field of an input object |
| VariableUsage.NullsExactly | crates/postrust-graphql/src/hasura.rs:1225-1343 | A null, written or given to a variable, is the one problem of a field of a comparison type, and elsewhere what is inside is looked at |
| Jwt.FollowPath | crates/postrust-auth/src/jwt.rs:88-102 | The loop behind a dotted key finds what descending through objects finds |
| Jwt.CheckClaims | crates/postrust-auth/src/jwt.rs:109-176 | No fault is found if and only if the token has not expired, has begun and was issued within the leeway, and its audience admits the server (sections 4.1.3 to 4.1.6 of RFC 7519) |
| Jwt.ClaimFound | crates/postrust-auth/src/jwt.rs:88-102 | A claim is found by its own name, dots included, or else by the path its dots spell |
| Jwt.RoleExactly | crates/postrust-auth/src/jwt.rs:70-75 | The role is the text of the configured claim, and the anonymous role where that claim is no text |
| Jwt.TokenAnswers | crates/postrust-auth/src/jwt.rs:28-61 | A token is answered if and only if it verifies, its registered claims hold and a role is found, with those claims and that role |
| Jwt.TokenRefusals | crates/postrust-auth/src/jwt.rs:28-61 | Otherwise the answer names the missing secret, what verifying said, the first fault, or the missing role |
| Jwt.HeaderExactly | crates/postrust-auth/src/lib.rs:180-190 | A header is read past its outer white space as `Bearer` or `bearer`, a space and a token, and refused otherwise |
| Jwt.BearerReads | crates/postrust-auth/src/lib.rs:180-190 | A header so written gives its token |
| Jwt.AnonymousExactly | crates/postrust-auth/src/lib.rs:163-177 | Without a header the caller is the anonymous role, where there is one |
| Jwt.ValidUntilExpiry | crates/postrust-auth/src/jwt.rs:109-176 | A token once valid is valid with the same answer at any later time until it expires, and then is refused as expired |
| JwtCache.Cache.Get | crates/postrust-auth/src/cache.rs:94-102 | A live entry is returned; an expired one is removed |
| JwtCache.Cache.Insert | crates/postrust-auth/src/cache.rs:104-124 | A full map drops what has expired, and everything if that is not enough, before the entry goes in |
| JwtCache.StoredIsServed | crates/postrust-auth/src/cache.rs:94-124 | A stored answer is served exactly until its time is up, and storing it displaces no live entry while those leave room |
| JwtCache.KeptFor | crates/postrust-auth/src/cache.rs:73-90 | An answer is kept for the configured time but not past its token's expiry, and not at all where that cannot be read or is over |
| JwtCache.Cache.Authenticate | crates/postrust-auth/src/cache.rs:58-92 | The answer and the new map are those of `Authenticated`, which the lemmas below are about |
| JwtCache.RunSound | crates/postrust-auth/src/cache.rs:58-163 | After any run, overlapping requests included, each entry was valid at a time past and goes less than the delay after its token's last second |
| JwtCache.HitAgrees | crates/postrust-auth/src/cache.rs:58-163 | A hit is what uncached authentication answers at that moment, or a token that expired no more than the delay less two nanoseconds ago |
| JwtCache.HitIsExact | crates/postrust-auth/src/cache.rs:58-163 | Every hit of every run with a given delay between the two clock readings is exactly the uncached answer if and only if the delay is at most one nanosecond |
| JwtCache.OverstayReached | crates/postrust-auth/src/cache.rs:76-92 | For every delay of two nanoseconds or more there is a run whose overstay is exactly the delay less two |
| JwtCache.RequestIsEvents | crates/postrust-auth/src/cache.rs:58-92 | What a request does to the map is a lookup and, on a miss, a store, so overlapping requests are runs too |
| JwtCache.CachedAnswerAgrees | crates/postrust-auth/src/lib.rs:163-177 | After any run, the cached answer is the uncached one at the moment of lookup or validation, but for a token answered no more than the delay less two nanoseconds after it expired |
| JwtCache.RunBounded | crates/postrust-auth/src/cache.rs:104-124 | No run takes the map past its capacity |
| MetadataFold.ReadDocument | scripts/hasura-names.py:147-158 | The commands of a document, with each bulk opened once |
| MetadataFold.PermissionReads | scripts/hasura-names.py:159-217 | Every create or drop of a permission, with or without its `pg_` prefix, is read as that verb on that table for that role, payload included |
| MetadataFold.QualifiedReads | scripts/hasura-names.py:237-243 | A bare name is in `public`, and a written-out one is where it says |
| MetadataFold.BareTableReads | scripts/hasura-names.py:163-170 | A bare name as the whole argument names the table |
| MetadataFold.BareRoutineReads | scripts/hasura-names.py:163-178 | Or the function, where the command is about one |
| MetadataFold.NothingSaid | scripts/hasura-names.py:162-162 | Null, false, zero and what is empty count as nothing said |
| MetadataFold.NoPayloadIsEmpty | scripts/hasura-names.py:211-217 | A create without a payload grants an empty one |
| MetadataFold.RoutineReads | scripts/hasura-names.py:174-191 | A function's grants, revocations and tracking are read as such |
| MetadataFold.TablesFromCommands | scripts/hasura-names.py:159-232 | For each table and verb the entries hold what the commands so far granted and did not drop; function entries are listed in order |
| MetadataFold.ConvertPermissions | scripts/hasura-names.py:544-581 | What a role holds for a verb is its last usable grant there, and nothing for any other verb |
| MetadataFold.PayloadKeeps | scripts/hasura-names.py:536-579 | Of a permission exactly the keys its verb reads are kept, as they are, and one that could name columns and does not covers all of them |
| MetadataFold.FoldFollowsLast | scripts/hasura-names.py:144-234 | After any commands, a role holds what the last command that counts for it left, payload included |
| MetadataFold.VerdictIsLast | scripts/hasura-names.py:144-234 | That is: some create that counts, with nothing that counts after it |
| MetadataFold.LastCommandDecides | scripts/hasura-names.py:544-581 | A role holds a verb as the last create or drop for it says, if and only if that is not a create with an empty role or a payload that is no object |
| MetadataFold.PermissionsOf | scripts/hasura-names.py:124-234 | Folding and converting together give each role, for each verb, that verdict |
| MetadataFold.ConvertRoutines | scripts/hasura-names.py:604-632 | Each function's placing is the fold of its entries, and only functions something was said about are kept |
| MetadataFold.ExposedLast | scripts/hasura-names.py:608-618 | The last placing that says `query` or `mutation` stands |
| MetadataFold.RoutineFollowsLast | scripts/hasura-names.py:604-632 | After any commands, a role may call a function if and only if the last grant or revocation of it for that role was a grant |

## Left out

- Relationship hints, ambiguity between relationships, and ordering a nested embed by one of its own embeds: a schema here maps a table and a relation name to one plan.
- An unqualified column that both a child and its junction have, negative limits, and a to-one key that matches several rows in no stated order.
- The text of the SQL other than placeholders and the leading `WITH` clause; how the planner, the query parser and the response formatter work.
- JSON representations of domains, casts, geometry and media rendering, and `Content-Range`.
- In the batched form: column aliases, `*`, junctions, computed functions and the row cap; a join column hidden by an earlier relation's key, and values of different types that render alike.
- BatchedEmbed.EmbedRelations: does not model the branch for spreads, which merges a child's listed columns into the parent; by choice, since fetching, grouping and regrouping are the same and the single query's spreads are in Spreads.
- Several spreads offering one name: which of them stays depends on the order of an object's keys, and no order is assumed.
- Planned and estimated counts, and the order in which PostgreSQL would return rows with equal sort keys.
- A statement with comments, dollar quotes or several `WITH` queries: the scan treats them as any other text and so does the model.
- A connection lost while committing, where the client cannot know whether the write happened; a failed commit is taken not to have written.
- What the reloading writer does under the lock; it is taken to hold it for finite time and to wait for no connection.
- The parts of the schema cache the role view copies unchanged (functions, time zones, media handlers), row filters, limits and column presets of a grant.
- Aggregate predicates in the `where` language, relationships through a junction (refused there), comparisons of two columns as anything but one more operator, and how PostgreSQL evaluates one comparison. Of an expression that is refused only that it reads no row.
- EmbedCorrectness.CompileSucceeds: does not model the errors of resolving a relationship's plan, rendering a filter or ordering an embed, which belong to code outside the model.
- EmbedCorrectness.QueryMeansNestedLoop: does not have the wrapper's null tests, logic trees, order and page; Paging.MainAnswers does.
- A column or relationship that comes out as one of the words `_and`, `_or`, `_not`, `_exists` and `_permission`, which name fields of their own in a boolean expression: the theorem's condition rules it out, and the if-and-only-ifs do not speak of it.
- PermissionRows.ExistsExactly: speaks of a relationship whose name is not spelled like an operator.
- PermissionRows.PermissionKeepsSameRows: goes one way, because a part left out or rewritten wrongly can be masked by its neighbours (PermissionRows.MaskedDifference); each way to go wrong has its own if-and-only-if.
- FragmentWalk.Usage.SelectionSet: does not model the problems the same walk records in arguments, directives and values; VariableUsage has those of variables.
- FragmentWalk.Usage.One: the same.
- VariableUsage.CheckValue: does not list enumerated, label, raster and integral problems, which are tables of types.
- Variables given a null for a non-null declaration, enumerated values, labels and raster checks in the validation walk; directives; the pruning of unused variables.
- Floats as doubles: numbers are exact here, so `exp` and coerced numbers are those within the range doubles hold exactly.
- Signature algorithms, key selection and base64, behind one deterministic function.
- Metadata values of types the commands do not use: a role, name or type that is not text is read as absent; relationship, computed-field, enum and customization commands only touch their table's entry.
- Transaction.WrittenRows: counts the rows the response is built from, which for a function call is the rows it returned.
- Names, comments, federation and the rest of the GraphQL schema; the Lambda, Worker and server front ends, the proxy, the website and the scripts other than the metadata converter, which would add plumbing rather than properties.
