/** Requests and reloads on the schema cache's lock, which queues a reader behind
    any writer already waiting, and on the pool of connections. */
module SchemaLock {

  /** What a task does next. `Work` is anything that waits for neither. */
  datatype Instr = Read | Write | Drop | Begin | End | Work

  datatype Task = Task(
    rest: seq<Instr>,
    guards: nat,
    writes: bool,
    connected: bool,
    waiting: bool)

  datatype State = State(tasks: seq<Task>, queue: seq<nat>, free: nat)

  // ----- Steps -----

  predicate NoWriter(s: State) {
    forall i | 0 <= i < |s.tasks| :: !s.tasks[i].writes
  }

  predicate NoReader(s: State) {
    forall i | 0 <= i < |s.tasks| :: s.tasks[i].guards == 0
  }

  /** Whether the lock would hand task `t` the guard it asks for next. */
  predicate Grantable(s: State, t: Task)
    requires t.rest != []
  {
    NoWriter(s) && (t.rest[0] == Write ==> NoReader(s))
  }

  function Granted(t: Task): Task
    requires t.rest != []
  {
    if t.rest[0] == Write then t.(rest := t.rest[1..], writes := true, waiting := false)
    else t.(rest := t.rest[1..], guards := t.guards + 1, waiting := false)
  }

  predicate Asks(t: Task) { t.rest != [] && (t.rest[0] == Read || t.rest[0] == Write) }

  /** Task `i` can take its next instruction. Asking for a guard always can: it
      is granted at once or it joins the queue. */
  predicate Enabled(s: State, i: nat) {
    && i < |s.tasks| && s.tasks[i].rest != [] && !s.tasks[i].waiting
    && (s.tasks[i].rest[0] == Begin ==> s.free > 0)
  }

  function Step(s: State, i: nat): State
    requires Enabled(s, i)
  {
    var t := s.tasks[i];
    var next := t.(rest := t.rest[1..]);
    match t.rest[0]
    case Read => if s.queue == [] && Grantable(s, t) then s.(tasks := s.tasks[i := Granted(t)]) else Queued(s, i)
    case Write => if s.queue == [] && Grantable(s, t) then s.(tasks := s.tasks[i := Granted(t)]) else Queued(s, i)
    case Drop =>
      s.(tasks := s.tasks[i := next.(guards := if t.guards > 0 then t.guards - 1 else 0,
                                     writes := t.writes && t.guards > 0)])
    case Begin => s.(tasks := s.tasks[i := next.(connected := true)], free := s.free - 1)
    case End => s.(tasks := s.tasks[i := next.(connected := false)], free := s.free + 1)
    case Work => s.(tasks := s.tasks[i := next])
  }

  function Queued(s: State, i: nat): State
    requires i < |s.tasks|
  {
    s.(tasks := s.tasks[i := s.tasks[i].(waiting := true)], queue := s.queue + [i])
  }

  /** The lock serves its queue strictly in order. */
  predicate Serves(s: State) {
    && s.queue != [] && s.queue[0] < |s.tasks| && Asks(s.tasks[s.queue[0]])
    && Grantable(s, s.tasks[s.queue[0]])
  }

  function Serve(s: State): State
    requires Serves(s)
  {
    var i := s.queue[0];
    s.(tasks := s.tasks[i := Granted(s.tasks[i])], queue := s.queue[1..])
  }

  predicate Next(s: State, s': State) {
    || (Serves(s) && s' == Serve(s))
    || exists i: nat | i < |s.tasks| :: Enabled(s, i) && s' == Step(s, i)
  }

  predicate Finished(s: State) {
    forall i | 0 <= i < |s.tasks| :: s.tasks[i].rest == []
  }

  // ----- The discipline -----

  /** At most one guard, and while it is held nothing that could wait: no second
      guard, no connection. A task ends holding nothing. */
  predicate Disciplined(rest: seq<Instr>, guarded: bool, connected: bool) {
    if rest == [] then !guarded && !connected
    else
      match rest[0]
      case Read => !guarded && Disciplined(rest[1..], true, connected)
      case Write => !guarded && Disciplined(rest[1..], true, connected)
      case Drop => guarded && Disciplined(rest[1..], false, connected)
      case Begin => !guarded && !connected && Disciplined(rest[1..], false, true)
      case End => !guarded && connected && Disciplined(rest[1..], false, false)
      case Work => Disciplined(rest[1..], guarded, connected)
  }

  predicate Holds(t: Task) { t.guards > 0 || t.writes }

  predicate TaskOk(t: Task) {
    && Disciplined(t.rest, Holds(t), t.connected)
    && t.guards <= 1 && (t.writes ==> t.guards == 0)
    && (t.waiting ==> Asks(t))
  }

  function ConnectedCount(tasks: seq<Task>): nat {
    if tasks == [] then 0
    else ConnectedCount(tasks[..|tasks| - 1]) + if tasks[|tasks| - 1].connected then 1 else 0
  }

  /** Connections are neither made nor lost. */
  predicate Inv(s: State, pool: nat) {
    && (forall i | 0 <= i < |s.tasks| :: TaskOk(s.tasks[i]))
    && (forall i | 0 <= i < |s.tasks| :: s.tasks[i].waiting <==> i in s.queue)
    && (forall k | 0 <= k < |s.queue| :: s.queue[k] < |s.tasks|)
    && (forall k, l | 0 <= k < l < |s.queue| :: s.queue[k] != s.queue[l])
    && Exclusive(s)
    && s.free + ConnectedCount(s.tasks) == pool
  }

  /** A writer is alone. */
  predicate Exclusive(s: State) {
    forall i, j | 0 <= i < |s.tasks| && 0 <= j < |s.tasks| && i != j :: s.tasks[i].writes ==> !Holds(s.tasks[j])
  }

  // ----- Keeping it -----

  lemma {:induction false} CountUpdate(tasks: seq<Task>, i: nat, t: Task)
    requires i < |tasks|
    ensures ConnectedCount(tasks[i := t])
         == ConnectedCount(tasks) - (if tasks[i].connected then 1 else 0) + (if t.connected then 1 else 0)
    decreases |tasks|
  {
    var last := |tasks| - 1;
    if i < last {
      CountUpdate(tasks[..last], i, t);
      assert tasks[i := t][..last] == tasks[..last][i := t];
    } else {
      assert tasks[i := t][..last] == tasks[..last];
    }
  }

  lemma {:induction false} CountPositive(tasks: seq<Task>) returns (i: nat)
    requires ConnectedCount(tasks) > 0
    ensures i < |tasks| && tasks[i].connected
    decreases |tasks|
  {
    i := |tasks| - 1;
    if !tasks[i].connected { i := CountPositive(tasks[..i]); }
  }

  /** Changing one task that keeps its place out of the queue. */
  lemma KeepsInv(s: State, pool: nat, i: nat, t: Task, free: nat)
    requires Inv(s, pool) && i < |s.tasks| && !s.tasks[i].waiting && !t.waiting && TaskOk(t)
    requires free + (if t.connected then 1 else 0) == s.free + (if s.tasks[i].connected then 1 else 0)
    requires Exclusive(s.(tasks := s.tasks[i := t]))
    ensures Inv(s.(tasks := s.tasks[i := t], free := free), pool)
  {
    CountUpdate(s.tasks, i, t);
  }

  lemma ExclusiveGranted(s: State, i: nat)
    requires Exclusive(s) && i < |s.tasks| && Asks(s.tasks[i]) && Grantable(s, s.tasks[i])
    ensures Exclusive(s.(tasks := s.tasks[i := Granted(s.tasks[i])]))
  {
  }

  lemma GrantedOk(t: Task)
    requires TaskOk(t) && Asks(t)
    ensures TaskOk(Granted(t)) && Granted(t).connected == t.connected
  {
  }

  lemma QueuedKeeps(s: State, pool: nat, i: nat)
    requires Inv(s, pool) && Enabled(s, i) && Asks(s.tasks[i])
    ensures Inv(Queued(s, i), pool)
  {
    CountUpdate(s.tasks, i, s.tasks[i].(waiting := true));
    var q := s.queue + [i];
    forall j | 0 <= j < |s.tasks| ensures Queued(s, i).tasks[j].waiting <==> j in q { }
  }

  lemma {:induction false} StepKeeps(s: State, pool: nat, i: nat)
    requires Inv(s, pool) && Enabled(s, i)
    ensures Inv(Step(s, i), pool)
  {
    var t := s.tasks[i];
    if Asks(t) {
      if s.queue == [] && Grantable(s, t) {
        GrantedOk(t);
        ExclusiveGranted(s, i);
        KeepsInv(s, pool, i, Granted(t), s.free);
      } else {
        QueuedKeeps(s, pool, i);
      }
    } else {
      var after := Step(s, i).tasks[i];
      assert TaskOk(after);
      KeepsInv(s, pool, i, after, Step(s, i).free);
    }
  }

  lemma ServeKeeps(s: State, pool: nat)
    requires Inv(s, pool) && Serves(s)
    ensures Inv(Serve(s), pool)
  {
    var i := s.queue[0];
    GrantedOk(s.tasks[i]);
    ExclusiveGranted(s, i);
    CountUpdate(s.tasks, i, Granted(s.tasks[i]));
    var after := Serve(s);
    assert s.queue == [i] + s.queue[1..];
    forall j | 0 <= j < |s.tasks| ensures after.tasks[j].waiting <==> j in after.queue { }
  }

  lemma NextKeeps(s: State, s': State, pool: nat)
    requires Inv(s, pool) && Next(s, s')
    ensures Inv(s', pool)
  {
    if Serves(s) && s' == Serve(s) {
      ServeKeeps(s, pool);
    } else {
      var i: nat :| i < |s.tasks| && Enabled(s, i) && s' == Step(s, i);
      StepKeeps(s, pool, i);
    }
  }

  // ----- Something can always move -----

  /** Whoever holds a guard is about to work or let it go. */
  lemma HolderMoves(s: State, pool: nat, i: nat)
    requires Inv(s, pool) && i < |s.tasks| && Holds(s.tasks[i])
    ensures Enabled(s, i)
  {
    assert TaskOk(s.tasks[i]);
  }

  lemma {:induction false} Progress(s: State, pool: nat)
    requires Inv(s, pool) && pool > 0 && !Finished(s)
    ensures Serves(s) || exists i: nat | i < |s.tasks| :: Enabled(s, i)
  {
    if h :| 0 <= h < |s.tasks| && Holds(s.tasks[h]) {
      HolderMoves(s, pool, h);
    } else if s.queue != [] {
      var i := s.queue[0];
      assert s.tasks[i].waiting;
    } else {
      var i :| 0 <= i < |s.tasks| && s.tasks[i].rest != [];
      assert TaskOk(s.tasks[i]);
      if !Enabled(s, i) {
        var j := CountPositive(s.tasks);
        assert TaskOk(s.tasks[j]);
        assert Enabled(s, j);
      }
    }
  }

  // ----- Every run -----

  ghost predicate IsRun(run: seq<State>) {
    forall k | 0 <= k < |run| - 1 :: Next(run[k], run[k + 1])
  }

  /** No state of any run is deadlocked. */
  lemma {:induction false} NoDeadlock(run: seq<State>, pool: nat, k: nat)
    requires IsRun(run) && k < |run| && Inv(run[0], pool) && pool > 0
    ensures Inv(run[k], pool)
    ensures Finished(run[k]) || exists s' :: Next(run[k], s')
  {
    RunKeeps(run, pool, k);
    var s := run[k];
    if !Finished(s) {
      Progress(s, pool);
      if Serves(s) {
        assert Next(s, Serve(s));
      } else {
        var i: nat :| i < |s.tasks| && Enabled(s, i);
        assert Next(s, Step(s, i));
      }
    }
  }

  lemma {:induction false} RunKeeps(run: seq<State>, pool: nat, k: nat)
    requires IsRun(run) && k < |run| && Inv(run[0], pool)
    ensures Inv(run[k], pool)
    decreases k
  {
    if k > 0 {
      RunKeeps(run, pool, k - 1);
      NextKeeps(run[k - 1], run[k], pool);
    }
  }

  // ----- Every run ends -----

  /** What is left to do: two for each instruction, one for not yet waiting. */
  function Left(tasks: seq<Task>): nat {
    if tasks == [] then 0
    else
      var t := tasks[|tasks| - 1];
      Left(tasks[..|tasks| - 1]) + 2 * |t.rest| + if t.waiting then 0 else 1
  }

  lemma {:induction false} LeftUpdate(tasks: seq<Task>, i: nat, t: Task)
    requires i < |tasks|
    ensures Left(tasks[i := t])
         == Left(tasks) - (2 * |tasks[i].rest| + (if tasks[i].waiting then 0 else 1))
            + (2 * |t.rest| + (if t.waiting then 0 else 1))
    decreases |tasks|
  {
    var last := |tasks| - 1;
    if i < last {
      LeftUpdate(tasks[..last], i, t);
      assert tasks[i := t][..last] == tasks[..last][i := t];
    } else {
      assert tasks[i := t][..last] == tasks[..last];
    }
  }

  lemma {:induction false} StepShrinks(s: State, i: nat)
    requires Enabled(s, i)
    ensures Left(Step(s, i).tasks) < Left(s.tasks)
  {
    var after := Step(s, i).tasks[i];
    LeftUpdate(s.tasks, i, after);
    assert Step(s, i).tasks == s.tasks[i := after];
  }

  lemma {:induction false} ServeShrinks(s: State, pool: nat)
    requires Inv(s, pool) && Serves(s)
    ensures Left(Serve(s).tasks) < Left(s.tasks)
  {
    var i := s.queue[0];
    assert s.tasks[i].waiting;
    LeftUpdate(s.tasks, i, Granted(s.tasks[i]));
  }

  lemma NextShrinks(s: State, s': State, pool: nat)
    requires Inv(s, pool) && Next(s, s')
    ensures Left(s'.tasks) < Left(s.tasks)
  {
    if Serves(s) && s' == Serve(s) {
      ServeShrinks(s, pool);
    } else {
      var i: nat :| i < |s.tasks| && Enabled(s, i) && s' == Step(s, i);
      StepShrinks(s, i);
    }
  }

  /** However tasks are scheduled, a run takes at most as many steps as there is
      work, so a run that cannot go on has finished every task. */
  lemma {:induction false} RunsEnd(run: seq<State>, pool: nat)
    requires IsRun(run) && run != [] && Inv(run[0], pool)
    ensures |run| - 1 + Left(run[|run| - 1].tasks) <= Left(run[0].tasks)
    decreases |run|
  {
    if |run| > 1 {
      var front := run[..|run| - 1];
      forall k | 0 <= k < |front| - 1 ensures Next(front[k], front[k + 1]) {
        assert Next(run[k], run[k + 1]);
      }
      RunsEnd(front, pool);
      RunKeeps(run, pool, |run| - 2);
      assert Next(run[|run| - 2], run[|run| - 1]);
      NextShrinks(run[|run| - 2], run[|run| - 1], pool);
    }
  }

  // ----- What requests and reloads do -----

  /** A guard taken, used and let go. */
  const LOOK: seq<Instr> := [Read, Work, Drop]

  /** Which of the optional looks a request takes, and how many relations it
      embeds by a second query once its transaction is open. */
  datatype Request = Request(embeds: bool, isRead: bool, geojson: bool, fetches: nat)

  function Fetches(n: nat): seq<Instr> {
    if n == 0 then [] else LOOK + [Work] + Fetches(n - 1)
  }

  function Optional(taken: bool, rest: seq<Instr>): seq<Instr> {
    if taken then LOOK + rest else rest
  }

  /** With a connection: the second-query target, the query, each batched embed,
      the rest of the work, and the end of the transaction. */
  function Transaction(r: Request): seq<Instr> {
    [Begin] + (LOOK + ([Work] + (Fetches(r.fetches) + [Work, End])))
  }

  /** Plan; media handler; embed target; embeds; orders; geometry; then the
      transaction. */
  function Program(r: Request): seq<Instr> {
    LOOK + (LOOK + (LOOK + Optional(r.embeds, Optional(r.isRead, Optional(r.geojson, Transaction(r))))))
  }

  function GuardedAfter(instr: Instr, guarded: bool): bool {
    match instr
    case Read => true
    case Write => true
    case Drop => false
    case _ => guarded
  }

  function ConnectedAfter(instr: Instr, connected: bool): bool {
    match instr
    case Begin => true
    case End => false
    case _ => connected
  }

  function Released(guarded: bool, connected: bool): seq<Instr> {
    (if guarded then [Drop] else []) + (if connected then [End] else [])
  }

  /** A task that stops after `n` instructions, as one answered with an error
      does: the guard and the transaction are dropped where they are. */
  function Cut(rest: seq<Instr>, guarded: bool, connected: bool, n: nat): seq<Instr> {
    if n == 0 || rest == [] then Released(guarded, connected)
    else [rest[0]] + Cut(rest[1..], GuardedAfter(rest[0], guarded), ConnectedAfter(rest[0], connected), n - 1)
  }

  lemma ReleasedDisciplined(guarded: bool, connected: bool)
    ensures Disciplined(Released(guarded, connected), guarded, connected)
  {
    assert [End][1..] == [];
    assert connected ==> Disciplined([End], false, true);
    var all := Released(guarded, connected);
    if guarded { assert all[1..] == if connected then [End] else []; }
  }

  lemma {:induction false} CutDisciplined(rest: seq<Instr>, guarded: bool, connected: bool, n: nat)
    requires Disciplined(rest, guarded, connected)
    ensures Disciplined(Cut(rest, guarded, connected, n), guarded, connected)
    decreases n
  {
    if n == 0 || rest == [] {
      ReleasedDisciplined(guarded, connected);
    } else {
      var g, c := GuardedAfter(rest[0], guarded), ConnectedAfter(rest[0], connected);
      CutDisciplined(rest[1..], g, c, n - 1);
      var cut := Cut(rest, guarded, connected, n);
      assert cut[0] == rest[0] && cut[1..] == Cut(rest[1..], g, c, n - 1);
    }
  }

  lemma LookFirst(rest: seq<Instr>, connected: bool)
    requires Disciplined(rest, false, connected)
    ensures Disciplined(LOOK + rest, false, connected)
  {
    var all := LOOK + rest;
    assert all[1..] == [Work, Drop] + rest && all[1..][1..] == [Drop] + rest && all[1..][1..][1..] == rest;
  }

  lemma WorkFirst(rest: seq<Instr>, connected: bool)
    requires Disciplined(rest, false, connected)
    ensures Disciplined([Work] + rest, false, connected)
  {
    assert ([Work] + rest)[1..] == rest;
  }

  lemma {:induction false} FetchesFirst(n: nat, rest: seq<Instr>)
    requires Disciplined(rest, false, true)
    ensures Disciplined(Fetches(n) + rest, false, true)
  {
    if n == 0 {
      assert Fetches(n) + rest == rest;
    } else {
      FetchesFirst(n - 1, rest);
      WorkFirst(Fetches(n - 1) + rest, true);
      LookFirst([Work] + (Fetches(n - 1) + rest), true);
      assert Fetches(n) + rest == LOOK + ([Work] + (Fetches(n - 1) + rest));
    }
  }

  lemma OptionalFirst(taken: bool, rest: seq<Instr>)
    requires Disciplined(rest, false, false)
    ensures Disciplined(Optional(taken, rest), false, false)
  {
    if taken { LookFirst(rest, false); }
  }

  lemma {:induction false} TransactionDisciplined(r: Request)
    ensures Disciplined(Transaction(r), false, false)
  {
    var tail := [Work, End];
    assert tail[1..] == [End] && [End][1..] == [];
    assert Disciplined([End], false, true);
    FetchesFirst(r.fetches, tail);
    WorkFirst(Fetches(r.fetches) + tail, true);
    LookFirst([Work] + (Fetches(r.fetches) + tail), true);
    assert Transaction(r)[1..] == LOOK + ([Work] + (Fetches(r.fetches) + tail));
  }

  lemma {:induction false} ProgramDisciplined(r: Request)
    ensures Disciplined(Program(r), false, false)
  {
    TransactionDisciplined(r);
    var geo := Optional(r.geojson, Transaction(r));
    var orders := Optional(r.isRead, geo);
    var embeds := Optional(r.embeds, orders);
    OptionalFirst(r.geojson, Transaction(r));
    OptionalFirst(r.isRead, geo);
    OptionalFirst(r.embeds, orders);
    LookFirst(embeds, false);
    LookFirst(LOOK + embeds, false);
    LookFirst(LOOK + (LOOK + embeds), false);
  }

  lemma ReloadDisciplined()
    ensures Disciplined([Write, Work, Drop], false, false)
  {
    assert [Drop][1..] == [] && [Work, Drop][1..] == [Drop] && [Write, Work, Drop][1..] == [Work, Drop];
    assert Disciplined([Drop], true, false);
    assert Disciplined([Work, Drop], true, false);
  }

  /** A request, stopped wherever an error stops it, or a reload. */
  datatype Kind = Handles(request: Request, stopsAfter: nat) | Reloads

  function Code(k: Kind): seq<Instr> {
    match k
    case Handles(request, n) => Cut(Program(request), false, false, n)
    case Reloads => [Write, Work, Drop]
  }

  function Start(kinds: seq<Kind>, pool: nat): State {
    State(seq(|kinds|, i requires 0 <= i < |kinds| => Task(Code(kinds[i]), 0, false, false, false)), [], pool)
  }

  lemma {:induction false} NoneConnected(tasks: seq<Task>)
    requires forall i | 0 <= i < |tasks| :: !tasks[i].connected
    ensures ConnectedCount(tasks) == 0
  {
    if tasks != [] { NoneConnected(tasks[..|tasks| - 1]); }
  }

  /** Any number of requests and reloads, however they interleave, never stop
      short: every state of every run can move or has finished. */
  lemma RequestsNeverDeadlock(kinds: seq<Kind>, pool: nat, run: seq<State>, k: nat)
    requires pool > 0 && IsRun(run) && k < |run| && run[0] == Start(kinds, pool)
    ensures Inv(run[k], pool)
    ensures Finished(run[k]) || exists s' :: Next(run[k], s')
  {
    var s := Start(kinds, pool);
    forall i | 0 <= i < |s.tasks| ensures TaskOk(s.tasks[i]) {
      match kinds[i]
      case Handles(request, n) =>
        ProgramDisciplined(request);
        CutDisciplined(Program(request), false, false, n);
      case Reloads => ReloadDisciplined();
    }
    NoneConnected(s.tasks);
    NoDeadlock(run, pool, k);
  }

  /** Keeping the first guard while asking for another, with a reload arriving in
      between, leaves both waiting for good. */
  lemma {:induction false} NestedGuardDeadlocks()
    returns (run: seq<State>)
    ensures IsRun(run) && |run| == 4
    ensures run[0] == State([Task([Read, Read, Drop, Drop], 0, false, false, false),
                             Task([Write, Work, Drop], 0, false, false, false)], [], 1)
    ensures !Finished(run[3]) && !exists s' :: Next(run[3], s')
  {
    var a := State([Task([Read, Read, Drop, Drop], 0, false, false, false),
                    Task([Write, Work, Drop], 0, false, false, false)], [], 1);
    var b := Step(a, 0);
    assert b.tasks[0].rest == [Read, Drop, Drop] && b.tasks[0].guards == 1;
    var c := Step(b, 1);
    assert !NoReader(b) by { assert b.tasks[0].guards != 0; }
    assert c == Queued(b, 1);
    var d := Step(c, 0);
    assert d == Queued(c, 0);
    run := [a, b, c, d];
    assert Next(a, b) && Next(b, c) && Next(c, d);
    assert d.queue == [1, 0];
    assert !NoReader(d) by { assert d.tasks[0].guards != 0; }
    assert d.tasks[0].waiting && d.tasks[1].waiting;
  }

  /** The lock: behind a queue every guard waits; before one, readers share, and a
      writer waits for all of them. */
  lemma {:induction false} LockExactly(s: State, i: nat)
    requires Enabled(s, i) && (s.tasks[i].rest[0] == Read || s.tasks[i].rest[0] == Write)
    ensures var t, after := s.tasks[i], Step(s, i);
      var writer := exists k | 0 <= k < |s.tasks| :: s.tasks[k].writes;
      var reader := exists k | 0 <= k < |s.tasks| :: s.tasks[k].guards > 0;
      if s.queue == [] && !writer && (t.rest[0] == Read || !reader)
      then && !after.tasks[i].waiting && after.queue == [] && after.tasks[i].rest == t.rest[1..]
           && (t.rest[0] == Read ==> after.tasks[i].guards == t.guards + 1)
           && (t.rest[0] == Write ==> after.tasks[i].writes)
      else after.tasks[i] == t.(waiting := true) && after.queue == s.queue + [i]
  {
  }
}
