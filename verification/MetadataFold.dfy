/** A sequence of metadata commands, folded into grants. */
module MetadataFold {
  import opened Wrappers
  import opened JsonValues
  import Text

  type Fields = map<string, Json>

  // ----- Reading a command -----

  function Get(args: Fields, key: string): Json { if key in args then args[key] else Null }

  predicate Truthy(value: Json) {
    match value
    case Null => false
    case Bool(truth) => truth
    case Num(number) => number != 0.0
    case Str(text) => text != ""
    case Arr(items) => items != []
    case Obj(fields) => fields != map[]
  }

  function Or(value: Json, otherwise: Json): Json { if Truthy(value) then value else otherwise }

  function TextOr(value: Json, otherwise: string): string {
    if value.Str? && value.text != "" then value.text else otherwise
  }

  datatype Key = Key(schema: string, name: string)

  /** A table or function is written as a name or as `{schema, name}`. */
  function Qualified(value: Json): Key {
    match value
    case Str(text) => Key("public", text)
    case Obj(fields) => Key(TextOr(Get(fields, "schema"), "public"), TextOr(Get(fields, "name"), ""))
    case _ => Key("public", "")
  }

  /** The commands of one document: a bulk is opened, once. */
  function Listed(items: seq<Json>): seq<Fields> {
    if items == [] then []
    else Listed(items[..|items| - 1]) + Opened(items[|items| - 1])
  }

  function Opened(item: Json): seq<Fields> {
    if !item.Obj? then []
    else if Get(item.fields, "type") != Str("bulk") then [item.fields]
    else if Get(item.fields, "args").Arr? then Objects(Get(item.fields, "args").items)
    else []
  }

  function Objects(items: seq<Json>): seq<Fields> {
    if items == [] then []
    else Objects(items[..|items| - 1]) + (if items[|items| - 1].Obj? then [items[|items| - 1].fields] else [])
  }

  method OpenBulk(items: seq<Json>) returns (inside: seq<Fields>)
    ensures inside == Objects(items)
  {
    inside := [];
    for i := 0 to |items|
      invariant inside == Objects(items[..i])
    {
      assert items[..i + 1][..i] == items[..i];
      if items[i].Obj? { inside := inside + [items[i].fields]; }
    }
    assert items[..|items|] == items;
  }

  method ReadDocument(document: Json) returns (commands: seq<Fields>)
    ensures commands == if document.Null? then [] else Listed(if document.Arr? then document.items else [document])
  {
    commands := [];
    if document.Null? { return; }
    var items := if document.Arr? then document.items else [document];
    for i := 0 to |items|
      invariant commands == Listed(items[..i])
    {
      assert items[..i + 1][..i] == items[..i];
      if items[i].Obj? {
        if Get(items[i].fields, "type") == Str("bulk") {
          var args := Get(items[i].fields, "args");
          if args.Arr? {
            var inside := OpenBulk(args.items);
            commands := commands + inside;
          }
        } else {
          commands := commands + [items[i].fields];
        }
      }
    }
    assert items[..|items|] == items;
  }

  /** What a command does to the grants. */
  datatype Action =
    | CreatePermission(table: Key, verb: string, role: Option<string>, permission: Json)
    | DropPermission(table: Key, verb: string, role: Option<string>)
    | Touch(table: Key)
    | TrackRoutine(routine: Key, configuration: Json)
    | GrantRoutine(routine: Key, role: Option<string>)
    | RevokeRoutine(routine: Key, role: Option<string>)
    | Skip

  /** What stands between a prefix and a suffix, which may share a character. */
  function Between(s: string, prefix: nat, suffix: nat): string {
    if prefix + suffix <= |s| then s[prefix..|s| - suffix] else ""
  }

  function KindOf(command: Fields): string {
    var kind := TextOr(Get(command, "type"), "");
    if "pg_" <= kind then kind[3..] else kind
  }

  /** The arguments, where a bare name stands for the one thing it could name. */
  function ArgsOf(command: Fields, kind: string): Option<Fields> {
    match Or(Get(command, "args"), Obj(map[]))
    case Str(text) => Some(map[if Text.EndsWith(kind, "_function") then "function" else "table" := Str(text)])
    case Obj(fields) => Some(fields)
    case _ => None
  }

  function RoleOf(args: Fields): Option<string> {
    if Get(args, "role").Str? then Some(Get(args, "role").text) else None
  }

  function RoutineOf(args: Fields): Key { Qualified(Or(Get(args, "function"), Get(args, "name"))) }

  function ActionOf(command: Fields): Action {
    var kind := KindOf(command);
    var given := ArgsOf(command, kind);
    if given.None? then Skip else ActionFor(kind, given.value)
  }

  function ActionFor(kind: string, args: Fields): Action {
    if kind == "track_function" then TrackRoutine(RoutineOf(args), Get(args, "configuration"))
    else if kind == "create_function_permission" then GrantRoutine(RoutineOf(args), RoleOf(args))
    else if kind == "drop_function_permission" then RevokeRoutine(RoutineOf(args), RoleOf(args))
    else if kind == "set_graphql_schema_introspection_options" || "table" !in args then Skip
    else if "create_" <= kind && Text.EndsWith(kind, "_permission") then
      CreatePermission(Qualified(args["table"]), Between(kind, 7, 11), RoleOf(args), Or(Get(args, "permission"), Obj(map[])))
    else if "drop_" <= kind && Text.EndsWith(kind, "_permission") then
      DropPermission(Qualified(args["table"]), Between(kind, 5, 11), RoleOf(args))
    else Touch(Qualified(args["table"]))
  }

  /** A permission command as Hasura writes it, with or without its source. */
  function PermissionCommand(sourced: bool, creates: bool, verb: string, args: Fields): Fields {
    map["type" := Str((if sourced then "pg_" else "") + PermissionKind(creates, verb)), "args" := Obj(args)]
  }

  function PermissionKind(creates: bool, verb: string): string {
    (if creates then "create_" else "drop_") + verb + "_permission"
  }

  lemma {:induction false} KindReads(sourced: bool, creates: bool, verb: string, args: Fields)
    ensures KindOf(PermissionCommand(sourced, creates, verb, args)) == PermissionKind(creates, verb)
  {
    var kind := PermissionKind(creates, verb);
    assert kind[0] == 'c' || kind[0] == 'd';
    assert ("pg_" + kind)[3..] == kind;
    assert "" + kind == kind;
  }

  lemma {:induction false} VerbReads(creates: bool, verb: string)
    ensures var kind := PermissionKind(creates, verb);
      && Text.EndsWith(kind, "_permission")
      && ("create_" <= kind <==> creates) && ("drop_" <= kind <==> !creates)
      && Between(kind, if creates then 7 else 5, 11) == verb
  {
    var kind := PermissionKind(creates, verb);
    assert kind[|kind| - 11..] == "_permission";
    assert kind[0] == if creates then 'c' else 'd';
  }

  /** Every permission command is read as what it says: the verb is whatever
      stands between, except that a function's is a command of its own. */
  lemma {:induction false} PermissionReads(sourced: bool, creates: bool, verb: string, args: Fields)
    requires "table" in args && verb != "function"
    ensures ActionOf(PermissionCommand(sourced, creates, verb, args))
      == var role := if "role" in args && args["role"].Str? then Some(args["role"].text) else None;
         if creates
         then CreatePermission(Qualified(args["table"]), verb, role, Or(Get(args, "permission"), Obj(map[])))
         else DropPermission(Qualified(args["table"]), verb, role)
  {
    KindReads(sourced, creates, verb, args);
    ArgsRead(sourced, creates, verb, args);
    ActionReads(PermissionKind(creates, verb), creates, verb, args);
  }

  lemma {:induction false} ArgsRead(sourced: bool, creates: bool, verb: string, args: Fields)
    requires "table" in args
    ensures var command := PermissionCommand(sourced, creates, verb, args);
      ActionOf(command) == ActionFor(KindOf(command), args)
  {
    var command := PermissionCommand(sourced, creates, verb, args);
    assert Get(command, "args") == Obj(args);
    assert ArgsOf(command, KindOf(command)) == Some(args);
  }

  lemma {:induction false} ActionReads(kind: string, creates: bool, verb: string, args: Fields)
    requires kind == PermissionKind(creates, verb) && "table" in args && verb != "function"
    ensures ActionFor(kind, args)
      == if creates
         then CreatePermission(Qualified(args["table"]), verb, RoleOf(args), Or(Get(args, "permission"), Obj(map[])))
         else DropPermission(Qualified(args["table"]), verb, RoleOf(args))
  {
    VerbReads(creates, verb);
    OtherKinds(creates, verb);
    NotForFunctions(creates, verb);
  }

  lemma {:induction false} OtherKinds(creates: bool, verb: string)
    ensures PermissionKind(creates, verb) != "track_function"
    ensures PermissionKind(creates, verb) != "set_graphql_schema_introspection_options"
  {
    assert PermissionKind(creates, verb)[0] == if creates then 'c' else 'd';
  }

  lemma {:induction false} NotForFunctions(creates: bool, verb: string)
    requires verb != "function"
    ensures PermissionKind(creates, verb) != "create_function_permission"
    ensures PermissionKind(creates, verb) != "drop_function_permission"
  {
    FunctionKinds();
    VerbReads(creates, verb);
    VerbReads(true, "function");
    VerbReads(false, "function");
  }

  lemma FunctionKinds()
    ensures PermissionKind(true, "function") == "create_function_permission"
    ensures PermissionKind(false, "function") == "drop_function_permission"
  {
  }

  function Actions(commands: seq<Fields>): seq<Action> {
    seq(|commands|, i requires 0 <= i < |commands| => ActionOf(commands[i]))
  }

  // ----- The table entries -----

  datatype Granted = Granted(role: Option<string>, permission: Json)

  /** What was granted on one table, by verb. */
  type Entry = map<string, seq<Granted>>

  function GrantsIn(entry: Entry, verb: string): seq<Granted> { if verb in entry then entry[verb] else [] }

  function GrantsAt(entries: map<Key, Entry>, table: Key, verb: string): seq<Granted> {
    if table in entries then GrantsIn(entries[table], verb) else []
  }

  function Without(grants: seq<Granted>, role: Option<string>): seq<Granted> {
    if grants == [] then []
    else
      var last := grants[|grants| - 1];
      Without(grants[..|grants| - 1], role) + (if last.role != role then [last] else [])
  }

  function GrantsAfter(before: seq<Granted>, action: Action, table: Key, verb: string): seq<Granted> {
    match action
    case CreatePermission(t, v, role, permission) =>
      if t == table && v == verb then before + [Granted(role, permission)] else before
    case DropPermission(t, v, role) => if t == table && v == verb then Without(before, role) else before
    case _ => before
  }

  /** The grants one table and verb are left with. */
  function Grants(actions: seq<Action>, table: Key, verb: string): seq<Granted> {
    if actions == [] then []
    else GrantsAfter(Grants(actions[..|actions| - 1], table, verb), actions[|actions| - 1], table, verb)
  }

  datatype RoutineEntry =
    | Tracked(routine: Key, configuration: Json)
    | Permitted(routine: Key, role: Option<string>)
    | Revoked(routine: Key, role: Option<string>)

  function RoutineEntries(actions: seq<Action>): seq<RoutineEntry> {
    if actions == [] then []
    else RoutineEntries(actions[..|actions| - 1]) + RoutineEntryOf(actions[|actions| - 1])
  }

  function RoutineEntryOf(action: Action): seq<RoutineEntry> {
    match action
    case TrackRoutine(routine, configuration) => [Tracked(routine, configuration)]
    case GrantRoutine(routine, role) => [Permitted(routine, role)]
    case RevokeRoutine(routine, role) => [Revoked(routine, role)]
    case _ => []
  }

  method TablesFromCommands(commands: seq<Fields>) returns (entries: map<Key, Entry>, routines: seq<RoutineEntry>)
    ensures forall table, verb :: GrantsAt(entries, table, verb) == Grants(Actions(commands), table, verb)
    ensures routines == RoutineEntries(Actions(commands))
  {
    entries := map[];
    routines := [];
    ghost var actions := Actions(commands);
    for i := 0 to |commands|
      invariant forall table, verb :: GrantsAt(entries, table, verb) == Grants(actions[..i], table, verb)
      invariant routines == RoutineEntries(actions[..i])
    {
      assert actions[..i + 1][..i] == actions[..i];
      var action := ActionOf(commands[i]);
      entries := ApplyToTables(entries, action);
      routines := routines + RoutineEntryOf(action);
    }
    assert actions[..|commands|] == actions;
  }

  method ApplyToTables(given: map<Key, Entry>, action: Action) returns (entries: map<Key, Entry>)
    ensures forall table, verb ::
      GrantsAt(entries, table, verb) == GrantsAfter(GrantsAt(given, table, verb), action, table, verb)
  {
    entries := given;
    match action
    case CreatePermission(table, verb, role, permission) =>
      var entry: Entry := if table in entries then entries[table] else map[];
      entries := entries[table := entry[verb := GrantsIn(entry, verb) + [Granted(role, permission)]]];
    case DropPermission(table, verb, role) =>
      var entry: Entry := if table in entries then entries[table] else map[];
      var left := DropRole(GrantsIn(entry, verb), role);
      entries := entries[table := entry[verb := left]];
    case Touch(table) => entries := entries[table := if table in entries then entries[table] else map[]];
    case _ =>
  }

  method DropRole(grants: seq<Granted>, role: Option<string>) returns (left: seq<Granted>)
    ensures left == Without(grants, role)
  {
    left := [];
    for i := 0 to |grants|
      invariant left == Without(grants[..i], role)
    {
      assert grants[..i + 1][..i] == grants[..i];
      if grants[i].role != role { left := left + [grants[i]]; }
    }
    assert grants[..|grants|] == grants;
  }

  // ----- What each role may do -----

  const VERBS := ["select", "insert", "update", "delete"]

  /** The keys of a permission this server reads, by verb. */
  function Wanted(verb: string): set<string> {
    if verb == "select" then {"columns", "filter", "limit", "allow_aggregations", "computed_fields"}
    else if verb == "insert" then {"columns", "check", "set", "backend_only"}
    else if verb == "update" then {"columns", "filter", "check", "set"}
    else {"filter"}
  }

  /** A permission that names no columns covers all of them. */
  function Payload(verb: string, permission: Fields): Fields {
    var kept := map key <- permission | key in Wanted(verb) :: permission[key];
    if "columns" in Wanted(verb) && "columns" !in kept then kept["columns" := Str("*")] else kept
  }

  type ByRole = map<string, map<string, Fields>>

  function Held(byRole: ByRole, role: string, verb: string): Option<Fields> {
    if role in byRole && verb in byRole[role] then Some(byRole[role][verb]) else None
  }

  predicate Usable(granted: Granted) {
    granted.role.Some? && granted.role.value != "" && granted.permission.Obj?
  }

  /** The last grant a role can use. */
  function LastUsable(grants: seq<Granted>, verb: string, role: string): Option<Fields> {
    if grants == [] then None
    else
      var last := grants[|grants| - 1];
      if Usable(last) && last.role.value == role then Some(Payload(verb, last.permission.fields))
      else LastUsable(grants[..|grants| - 1], verb, role)
  }

  method ConvertPermissions(entry: Entry) returns (byRole: ByRole)
    ensures forall role, verb ::
      Held(byRole, role, verb) == if verb in VERBS then LastUsable(GrantsIn(entry, verb), verb, role) else None
  {
    byRole := map[];
    for i := 0 to |VERBS|
      invariant forall role, verb ::
        Held(byRole, role, verb) == if verb in VERBS[..i] then LastUsable(GrantsIn(entry, verb), verb, role) else None
    {
      byRole := ConvertVerb(byRole, GrantsIn(entry, VERBS[i]), VERBS[i]);
      assert VERBS[..i + 1] == VERBS[..i] + [VERBS[i]];
    }
    assert VERBS[..|VERBS|] == VERBS;
  }

  method ConvertVerb(given: ByRole, grants: seq<Granted>, verb: string) returns (byRole: ByRole)
    requires forall role :: Held(given, role, verb).None?
    ensures forall role :: Held(byRole, role, verb) == LastUsable(grants, verb, role)
    ensures forall role, other :: other != verb ==> Held(byRole, role, other) == Held(given, role, other)
  {
    byRole := given;
    for i := 0 to |grants|
      invariant forall role :: Held(byRole, role, verb) == LastUsable(grants[..i], verb, role)
      invariant forall role, other :: other != verb ==> Held(byRole, role, other) == Held(given, role, other)
    {
      assert grants[..i + 1][..i] == grants[..i];
      if Usable(grants[i]) {
        var role := grants[i].role.value;
        var verbs := if role in byRole then byRole[role] else map[];
        byRole := byRole[role := verbs[verb := Payload(verb, grants[i].permission.fields)]];
      }
    }
    assert grants[..|grants|] == grants;
  }

  // ----- The last command decides -----

  predicate Concerns(action: Action, table: Key, verb: string, role: string) {
    (action.CreatePermission? || action.DropPermission?)
    && action.table == table && action.verb == verb && action.role == Some(role)
  }

  /** A create whose payload is not an object is passed over. */
  predicate Counts(action: Action, table: Key, verb: string, role: string) {
    Concerns(action, table, verb, role) && (action.DropPermission? || action.permission.Obj?)
  }

  /** What the last command that counts leaves. */
  function Verdict(actions: seq<Action>, table: Key, verb: string, role: string): Option<Fields> {
    if actions == [] then None
    else
      var action := actions[|actions| - 1];
      if !Counts(action, table, verb, role) then Verdict(actions[..|actions| - 1], table, verb, role)
      else if action.DropPermission? then None
      else Some(Payload(verb, action.permission.fields))
  }

  lemma {:induction false} LastUsableSnoc(grants: seq<Granted>, granted: Granted, verb: string, role: string)
    ensures LastUsable(grants + [granted], verb, role)
      == if Usable(granted) && granted.role.value == role then Some(Payload(verb, granted.permission.fields))
         else LastUsable(grants, verb, role)
  {
    assert (grants + [granted])[..|grants|] == grants;
  }

  lemma {:induction false} WithoutRole(grants: seq<Granted>, dropped: Option<string>, verb: string, role: string)
    ensures LastUsable(Without(grants, dropped), verb, role)
      == if dropped == Some(role) then None else LastUsable(grants, verb, role)
  {
    if grants != [] {
      var last := grants[|grants| - 1];
      WithoutRole(grants[..|grants| - 1], dropped, verb, role);
      if last.role != dropped {
        LastUsableSnoc(Without(grants[..|grants| - 1], dropped), last, verb, role);
      } else {
        assert Without(grants, dropped) == Without(grants[..|grants| - 1], dropped);
      }
    }
  }

  /** After any commands, what a role holds is what the last command that counts
      for it left. */
  lemma {:induction false} FoldFollowsLast(actions: seq<Action>, table: Key, verb: string, role: string)
    requires role != ""
    ensures LastUsable(Grants(actions, table, verb), verb, role) == Verdict(actions, table, verb, role)
  {
    if actions != [] {
      var earlier := actions[..|actions| - 1];
      FoldFollowsLast(earlier, table, verb, role);
      var before := Grants(earlier, table, verb);
      match actions[|actions| - 1]
      case CreatePermission(t, v, r, permission) => LastUsableSnoc(before, Granted(r, permission), verb, role);
      case DropPermission(t, v, r) => WithoutRole(before, r, verb, role);
      case _ =>
    }
  }

  /** The verdict, by position: a create that counts with nothing that counts
      after it. */
  lemma {:induction false} VerdictIsLast(actions: seq<Action>, table: Key, verb: string, role: string, payload: Fields)
    ensures Verdict(actions, table, verb, role) == Some(payload) <==>
      exists i :: 0 <= i < |actions| && CreatedAt(actions, i, table, verb, role, payload)
  {
    if actions != [] {
      var n := |actions| - 1;
      VerdictIsLast(actions[..n], table, verb, role, payload);
      if Counts(actions[n], table, verb, role) {
        forall i | 0 <= i < n ensures !CreatedAt(actions, i, table, verb, role, payload) {
          assert i < n < |actions|;
        }
        assert Verdict(actions, table, verb, role) == Some(payload) <==> CreatedAt(actions, n, table, verb, role, payload);
      } else {
        assert !CreatedAt(actions, n, table, verb, role, payload);
        forall i | 0 <= i < n
          ensures CreatedAt(actions[..n], i, table, verb, role, payload) == CreatedAt(actions, i, table, verb, role, payload)
        {
          CreatedEarlier(actions, i, table, verb, role, payload);
        }
      }
    }
  }

  ghost predicate CreatedAt(actions: seq<Action>, i: int, table: Key, verb: string, role: string, payload: Fields) {
    && 0 <= i < |actions|
    && var action := actions[i];
    && Counts(action, table, verb, role)
    && action.CreatePermission?
    && payload == Payload(verb, action.permission.fields)
    && forall j :: i < j < |actions| ==> !Counts(actions[j], table, verb, role)
  }

  lemma {:induction false} CreatedEarlier(actions: seq<Action>, i: nat, table: Key, verb: string, role: string, payload: Fields)
    requires i < |actions| - 1 && !Counts(actions[|actions| - 1], table, verb, role)
    ensures CreatedAt(actions[..|actions| - 1], i, table, verb, role, payload)
      == CreatedAt(actions, i, table, verb, role, payload)
  {
    var n := |actions| - 1;
    assert forall j :: 0 <= j < n ==> actions[..n][j] == actions[j];
    if CreatedAt(actions, i, table, verb, role, payload) {
      forall j | i < j < n ensures !Counts(actions[..n][j], table, verb, role) {
        assert !Counts(actions[j], table, verb, role);
      }
    }
    if CreatedAt(actions[..n], i, table, verb, role, payload) {
      forall j | i < j < |actions| ensures !Counts(actions[j], table, verb, role) {
        assert j < n ==> !Counts(actions[..n][j], table, verb, role);
      }
    }
  }

  // ----- What a reader of the metadata expects -----

  /** The last create or drop for a table, verb and role. */
  function LastConcern(actions: seq<Action>, table: Key, verb: string, role: string): Option<Action> {
    if actions == [] then None
    else if Concerns(actions[|actions| - 1], table, verb, role) then Some(actions[|actions| - 1])
    else LastConcern(actions[..|actions| - 1], table, verb, role)
  }

  /** The role holds the verb exactly if that was a create, and with its payload. */
  predicate AsLastSaid(held: Option<Fields>, last: Option<Action>, verb: string) {
    if last.Some? && last.value.CreatePermission?
    then held.Some? && last.value.permission.Obj? && held.value == Payload(verb, last.value.permission.fields)
    else held.None?
  }

  lemma {:induction false} LastConcernCounts(actions: seq<Action>, table: Key, verb: string, role: string)
    ensures var last := LastConcern(actions, table, verb, role);
      && (last.Some? ==> Concerns(last.value, table, verb, role))
      && (last.None? ==> Verdict(actions, table, verb, role).None?)
      && (last.Some? && last.value.DropPermission? ==> Verdict(actions, table, verb, role).None?)
      && (last.Some? && last.value.CreatePermission? && last.value.permission.Obj? ==>
            Verdict(actions, table, verb, role) == Some(Payload(verb, last.value.permission.fields)))
  {
    if actions != [] { LastConcernCounts(actions[..|actions| - 1], table, verb, role); }
  }

  lemma {:induction false} NamelessHoldsNothing(grants: seq<Granted>, verb: string)
    ensures LastUsable(grants, verb, "").None?
  {
    if grants != [] { NamelessHoldsNothing(grants[..|grants| - 1], verb); }
  }

  /** A role holds a verb as the last create or drop for it says -- unless that is
      a create whose payload is not an object, or whose role is empty. */
  lemma {:induction false} LastCommandDecides(actions: seq<Action>, table: Key, verb: string, role: string)
    ensures var last := LastConcern(actions, table, verb, role);
      AsLastSaid(LastUsable(Grants(actions, table, verb), verb, role), last, verb)
      <==> !(last.Some? && last.value.CreatePermission? && (role == "" || !last.value.permission.Obj?))
  {
    LastConcernCounts(actions, table, verb, role);
    if role == "" {
      NamelessHoldsNothing(Grants(actions, table, verb), verb);
    } else {
      FoldFollowsLast(actions, table, verb, role);
    }
  }

  /** The permissions a table ends with. */
  method PermissionsOf(commands: seq<Fields>, table: Key) returns (byRole: ByRole)
    ensures forall role, verb :: role != "" && verb in {"select", "insert", "update", "delete"} ==>
      Held(byRole, role, verb) == Verdict(Actions(commands), table, verb, role)
    ensures forall role, verb :: role == "" || verb !in {"select", "insert", "update", "delete"} ==>
      Held(byRole, role, verb).None?
  {
    var entries, routines := TablesFromCommands(commands);
    var entry: Entry := if table in entries then entries[table] else map[];
    byRole := ConvertPermissions(entry);
    forall role, verb | role != "" && verb in VERBS ensures Held(byRole, role, verb) == Verdict(Actions(commands), table, verb, role) {
      assert GrantsIn(entry, verb) == GrantsAt(entries, table, verb);
      FoldFollowsLast(Actions(commands), table, verb, role);
    }
    forall role, verb | role == "" || verb !in VERBS ensures Held(byRole, role, verb).None? {
      NamelessHoldsNothing(GrantsIn(entry, verb), verb);
    }
  }

  // ----- Functions -----

  /** Where a function is exposed and which roles may call it. */
  datatype Placed = Placed(exposedAs: Option<string>, roles: seq<string>)

  const UNPLACED := Placed(None, [])

  function Dotted(key: Key): string { key.schema + "." + key.name }

  function WithoutText(roles: seq<string>, role: Option<string>): seq<string> {
    if roles == [] then []
    else
      var last := roles[|roles| - 1];
      WithoutText(roles[..|roles| - 1], role) + (if Some(last) != role then [last] else [])
  }

  function ExposedBy(configuration: Json): Option<string> {
    if configuration.Obj? && Get(configuration.fields, "exposed_as") in {Str("query"), Str("mutation")}
    then Some(Get(configuration.fields, "exposed_as").text)
    else None
  }

  function PlacedAfter(placed: Placed, entry: RoutineEntry): Placed {
    match entry
    case Tracked(_, configuration) =>
      if ExposedBy(configuration).Some? then placed.(exposedAs := ExposedBy(configuration)) else placed
    case Permitted(_, role) =>
      if role.Some? && role.value !in placed.roles then placed.(roles := placed.roles + [role.value]) else placed
    case Revoked(_, role) => placed.(roles := WithoutText(placed.roles, role))
  }

  predicate About(entry: RoutineEntry, key: string) { entry.routine.name != "" && Dotted(entry.routine) == key }

  /** What the entries for one function come to. */
  function Placing(entries: seq<RoutineEntry>, key: string): Placed {
    if entries == [] then UNPLACED
    else
      var before := Placing(entries[..|entries| - 1], key);
      if About(entries[|entries| - 1], key) then PlacedAfter(before, entries[|entries| - 1]) else before
  }

  function PlacedAt(given: map<string, Placed>, key: string): Placed { if key in given then given[key] else UNPLACED }

  method RevokeRole(roles: seq<string>, role: Option<string>) returns (left: seq<string>)
    ensures left == WithoutText(roles, role)
  {
    left := [];
    for i := 0 to |roles|
      invariant left == WithoutText(roles[..i], role)
    {
      assert roles[..i + 1][..i] == roles[..i];
      if Some(roles[i]) != role { left := left + [roles[i]]; }
    }
    assert roles[..|roles|] == roles;
  }

  /** Only functions something was said about are kept. */
  method ConvertRoutines(entries: seq<RoutineEntry>) returns (given: map<string, Placed>)
    ensures forall key :: PlacedAt(given, key) == Placing(entries, key)
    ensures forall key <- given :: given[key] != UNPLACED
  {
    given := map[];
    for i := 0 to |entries|
      invariant forall key :: PlacedAt(given, key) == Placing(entries[..i], key)
    {
      assert entries[..i + 1][..i] == entries[..i];
      if entries[i].routine.name != "" {
        var key := Dotted(entries[i].routine);
        var placed := PlacedAt(given, key);
        match entries[i] {
        case Tracked(_, configuration) =>
          if ExposedBy(configuration).Some? { placed := placed.(exposedAs := ExposedBy(configuration)); }
        case Permitted(_, role) =>
          if role.Some? && role.value !in placed.roles { placed := placed.(roles := placed.roles + [role.value]); }
        case Revoked(_, role) =>
          var left := RevokeRole(placed.roles, role);
          placed := placed.(roles := left);
        }
        given := given[key := placed];
      }
    }
    assert entries[..|entries|] == entries;
    given := map key <- given | given[key] != UNPLACED :: given[key];
  }

  /** Whether a command grants a function to a role or revokes it. */
  predicate Settles(action: Action, key: string, role: string) {
    (action.GrantRoutine? || action.RevokeRoutine?)
    && action.routine.name != "" && Dotted(action.routine) == key && action.role == Some(role)
  }

  /** Whether the last that does is a grant. */
  predicate MayCall(actions: seq<Action>, key: string, role: string) {
    actions != [] &&
    if Settles(actions[|actions| - 1], key, role) then actions[|actions| - 1].GrantRoutine?
    else MayCall(actions[..|actions| - 1], key, role)
  }

  lemma {:induction false} RevokedIsGone(roles: seq<string>, revoked: Option<string>, role: string)
    ensures role in WithoutText(roles, revoked) <==> role in roles && revoked != Some(role)
  {
    if roles != [] {
      RevokedIsGone(roles[..|roles| - 1], revoked, role);
      assert roles == roles[..|roles| - 1] + [roles[|roles| - 1]];
    }
  }

  lemma {:induction false} PlacingSnoc(entries: seq<RoutineEntry>, entry: RoutineEntry, key: string)
    ensures Placing(entries + [entry], key)
      == if About(entry, key) then PlacedAfter(Placing(entries, key), entry) else Placing(entries, key)
  {
    assert (entries + [entry])[..|entries|] == entries;
  }

  lemma {:induction false} EntryDecides(placed: Placed, entry: RoutineEntry, role: string)
    ensures role in PlacedAfter(placed, entry).roles <==>
      (role in placed.roles || entry == Permitted(entry.routine, Some(role))) && entry != Revoked(entry.routine, Some(role))
  {
    if entry.Revoked? { RevokedIsGone(placed.roles, entry.role, role); }
  }

  lemma {:induction false} ActionDecides(before: seq<RoutineEntry>, action: Action, key: string, role: string)
    ensures role in Placing(before + RoutineEntryOf(action), key).roles <==>
      if Settles(action, key, role) then action.GrantRoutine? else role in Placing(before, key).roles
  {
    var entries := RoutineEntryOf(action);
    if entries == [] {
      assert before + entries == before;
    } else {
      PlacingSnoc(before, entries[0], key);
      EntryDecides(Placing(before, key), entries[0], role);
    }
  }

  /** After any commands, a role may call a function exactly if the last grant or
      revocation of that function for that role was a grant. */
  lemma {:induction false} RoutineFollowsLast(actions: seq<Action>, key: string, role: string)
    ensures role in Placing(RoutineEntries(actions), key).roles <==> MayCall(actions, key, role)
  {
    if actions != [] {
      RoutineFollowsLast(actions[..|actions| - 1], key, role);
      ActionDecides(RoutineEntries(actions[..|actions| - 1]), actions[|actions| - 1], key, role);
    }
  }

  // ----- What a payload keeps -----

  /** Of a permission, the keys its verb reads are kept as they are and no others are;
      and one that could name columns and does not covers all of them. */
  lemma {:induction false} PayloadKeeps(permission: Fields, key: string)
    ensures key in Payload("select", permission) <==>
      key == "columns" || (key in permission && key in {"filter", "limit", "allow_aggregations", "computed_fields"})
    ensures key in Payload("insert", permission) <==>
      key == "columns" || (key in permission && key in {"check", "set", "backend_only"})
    ensures key in Payload("update", permission) <==>
      key == "columns" || (key in permission && key in {"filter", "check", "set"})
    ensures key in Payload("delete", permission) <==> key in permission && key == "filter"
    ensures forall verb | key in Payload(verb, permission) ::
      Payload(verb, permission)[key] == if key in permission then permission[key] else Str("*")
  {
  }

  /** A bare name is in `public`; a written-out one is where it says. */
  lemma {:induction false} QualifiedReads(schema: string, name: string)
    requires schema != "" && name != ""
    ensures Qualified(Str(name)) == Key("public", name)
    ensures Qualified(Obj(map["schema" := Str(schema), "name" := Str(name)])) == Key(schema, name)
    ensures Qualified(Obj(map["name" := Str(name)])) == Key("public", name)
  {
  }

  /** A create without a payload, or with an empty one, grants an empty one. */
  lemma {:induction false} NoPayloadIsEmpty(sourced: bool, verb: string, args: Fields)
    requires "table" in args && verb != "function"
    requires "permission" !in args || args["permission"] == Null || args["permission"] == Obj(map[])
    ensures ActionOf(PermissionCommand(sourced, true, verb, args)).CreatePermission?
    ensures ActionOf(PermissionCommand(sourced, true, verb, args)).permission == Obj(map[])
  {
    PermissionReads(sourced, true, verb, args);
  }

  /** A function's grants and revocations are read as such, and so is a function
      tracked. */
  lemma {:induction false} RoutineReads(kind: string, args: Fields)
    ensures kind == "create_function_permission" ==>
      ActionFor(kind, args) == GrantRoutine(Qualified(Or(Get(args, "function"), Get(args, "name"))), RoleOf(args))
    ensures kind == "drop_function_permission" ==>
      ActionFor(kind, args) == RevokeRoutine(Qualified(Or(Get(args, "function"), Get(args, "name"))), RoleOf(args))
    ensures kind == "track_function" ==>
      ActionFor(kind, args) == TrackRoutine(Qualified(Or(Get(args, "function"), Get(args, "name"))), Get(args, "configuration"))
  {
  }

  /** The last placing that says `query` or `mutation` stands. */
  lemma {:induction false} ExposedLast(entries: seq<RoutineEntry>, routine: Key, configuration: Fields)
    requires routine.name != ""
    ensures var after := Placing(entries + [Tracked(routine, Obj(configuration))], routine.schema + "." + routine.name);
      after.exposedAs == if Get(configuration, "exposed_as") == Str("query") then Some("query")
                         else if Get(configuration, "exposed_as") == Str("mutation") then Some("mutation")
                         else Placing(entries, routine.schema + "." + routine.name).exposedAs
  {
    PlacingSnoc(entries, Tracked(routine, Obj(configuration)), routine.schema + "." + routine.name);
  }

  /** What counts as nothing said: null, false, zero, and what is empty. */
  lemma {:induction false} NothingSaid(value: Json)
    ensures Or(value, Str("otherwise"))
      == if value in {Null, Bool(false), Num(0.0), Str(""), Arr([]), Obj(map[])} then Str("otherwise") else value
  {
  }

  /** A bare name as the whole argument names the table. */
  lemma {:induction false} BareTableReads(name: string)
    requires name != ""
    ensures ActionOf(map["type" := Str("track_table"), "args" := Str(name)]) == Touch(Key("public", name))
  {
    var command: Fields := map["type" := Str("track_table"), "args" := Str(name)];
    KindPlain(command, "track_table");
    NotAboutFunctions();
    assert ArgsOf(command, "track_table") == Some(map["table" := Str(name)]);
    NotPermission();
  }

  lemma {:induction false} NotAboutFunctions()
    ensures !Text.EndsWith("track_table", "_function")
  {
    assert "track_table"[|"track_table"| - 9..] == "ack_table";
    assert "ack_table"[0] == 'a' && "_function"[0] == '_';
  }

  /** Or the function, where the command is about one. */
  lemma {:induction false} BareRoutineReads(name: string)
    requires name != ""
    ensures ActionOf(map["type" := Str("track_function"), "args" := Str(name)]) == TrackRoutine(Key("public", name), Null)
  {
    var command: Fields := map["type" := Str("track_function"), "args" := Str(name)];
    KindPlain(command, "track_function");
    assert "track_function"[|"track_function"| - 9..] == "_function";
    assert ArgsOf(command, "track_function") == Some(map["function" := Str(name)]);
  }

  lemma {:induction false} KindPlain(command: Fields, kind: string)
    requires "type" in command && command["type"] == Str(kind) && kind != "" && kind[0] != 'p'
    ensures KindOf(command) == kind
  {
  }

  lemma {:induction false} NotPermission()
    ensures !("create_" <= "track_table") && !("drop_" <= "track_table")
    ensures "track_table" != "track_function"
  {
    assert "track_table"[0] == 't' && "create_"[0] == 'c' && "drop_"[0] == 'd';
    assert |"track_table"| != |"track_function"|;
  }
}
