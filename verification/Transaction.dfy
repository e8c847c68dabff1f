/** One request's transaction, from the query to the commit. */
module Transaction {
  import opened Wrappers

  /** What is fixed about a request once it is planned. `rendered` says a media
      handler, or the function's own return type, produces the whole body. */
  datatype Job = Job(
    readOnly: bool,
    mutation: bool,
    call: bool,
    upsert: bool,
    rendered: bool,
    preRequest: bool,
    counts: bool,
    twoQuery: bool,
    maxAffected: Option<int>)
  {
    predicate Valid() { (mutation ==> !readOnly && !call) && (upsert ==> mutation) }

    predicate ReadsSettings() { mutation || call || preRequest }

    /** A read with nothing left to do commits with its query. */
    predicate EndsWithQuery() { readOnly && !counts && !twoQuery }
  }

  /** The checks that may refuse a request after its query has run: the response
      settings, `max-affected`, the one row of a `PUT`, and formatting. */
  datatype Checks = Checks(settings: bool, affected: bool, oneRow: bool, format: bool)

  const NOTHING := Checks(false, false, false, false)

  predicate Within(a: Checks, b: Checks) {
    (a.settings ==> b.settings) && (a.affected ==> b.affected) && (a.oneRow ==> b.oneRow) && (a.format ==> b.format)
  }

  /** What a request has to pass: its settings where something could set them, its
      `max-affected` where it may write, one row for a `PUT`, and its format. */
  function Demanded(job: Job): Checks {
    Checks(job.mutation || job.call || job.preRequest, job.maxAffected.Some? && (job.mutation || job.call), job.upsert, true)
  }

  datatype Phase =
    | Planning
    | Querying
    | Embedding
    | ReadingSettings
    | Counting
    | CheckingAffected
    | CheckingOneRow
    | Executed
    | Formatting
    | Committing
    | Answered(success: bool)

  datatype Tx = NotBegun | Open | Committed | RolledBack

  datatype State = State(phase: Phase, tx: Tx, commits: nat, rows: nat, passed: Checks)

  /** How the world answers one step: whether it succeeds, whether the plan has
      a statement to run, and how many rows came back. */
  datatype Choice = Choice(ok: bool, runs: bool, rows: nat)

  const START := State(Planning, NotBegun, 0, 0, NOTHING)

  /** An error leaves: an open transaction is dropped, and so rolled back. */
  function Refuse(s: State): State {
    s.(phase := Answered(false), tx := if s.tx.Open? then RolledBack else s.tx)
  }

  function Commit(s: State, next: Phase): State {
    s.(phase := next, tx := Committed, commits := s.commits + 1)
  }

  function Step(job: Job, s: State, c: Choice): State {
    match s.phase
    case Planning =>
      if !c.ok then Refuse(s)
      else if !c.runs then s.(phase := Executed)
      else s.(phase := Querying, tx := Open)
    case Querying =>
      if !c.ok then Refuse(s)
      else if job.rendered then s.(phase := Executed, rows := c.rows)
      else if job.EndsWithQuery() then Commit(s.(rows := c.rows), Embedding)
      else s.(phase := Embedding, rows := c.rows)
    case Embedding => if job.twoQuery && !c.ok then Refuse(s) else s.(phase := ReadingSettings)
    case ReadingSettings =>
      if !job.ReadsSettings() then s.(phase := Counting)
      else if c.ok then s.(phase := Counting, passed := s.passed.(settings := true)) else Refuse(s)
    case Counting => if job.counts && !c.ok then Refuse(s) else s.(phase := CheckingAffected)
    case CheckingAffected =>
      if job.maxAffected.None? || !(job.mutation || job.call) then s.(phase := CheckingOneRow)
      else if s.rows > job.maxAffected.value then Refuse(s) else s.(phase := CheckingOneRow, passed := s.passed.(affected := true))
    case CheckingOneRow =>
      if !job.upsert then s.(phase := Executed)
      else if s.rows != 1 then Refuse(s) else s.(phase := Executed, passed := s.passed.(oneRow := true))
    case Executed =>
      if s.tx.Open? && job.readOnly then (if c.ok then Commit(s, Formatting) else Refuse(s))
      else s.(phase := Formatting)
    case Formatting => if c.ok then s.(phase := Committing, passed := s.passed.(format := true)) else Refuse(s)
    case Committing =>
      if !s.tx.Open? then s.(phase := Answered(true))
      else if c.ok then Commit(s, Answered(true)) else Refuse(s)
    case Answered(_) => s
  }

  function Run(job: Job, choices: seq<Choice>): State {
    if choices == [] then START
    else Step(job, Run(job, choices[..|choices| - 1]), choices[|choices| - 1])
  }

  /** A write is on disk. A read-only transaction writes nothing. */
  predicate Wrote(job: Job, s: State) { s.tx.Committed? && !job.readOnly }

  // ----- What every step keeps -----

  predicate Inv(job: Job, s: State) {
    && Booked(job, s)
    && (!s.tx.NotBegun? && !job.rendered ==> Checked(job, s))
    && Formatted(s)
  }

  predicate Formatted(s: State) {
    s.phase.Committing? || s.phase == Answered(true) ==> s.passed.format
  }

  /** How the commits, the transaction and the phase go together. */
  predicate Booked(job: Job, s: State) {
    && s.commits == (if s.tx.Committed? then 1 else 0)
    && (Wrote(job, s) ==> s.phase == Answered(true))
    && (s.tx.RolledBack? ==> s.phase == Answered(false))
    && (s.phase.Planning? ==> s.tx.NotBegun?)
    && (s.phase.Querying? ==> s.tx.Open?)
    && (s.phase.Answered? ==> !s.tx.Open?)
  }

  /** The checks behind each phase, where the body is not rendered. */
  predicate Checked(job: Job, s: State) {
    var due := Demanded(job).(format := false);
    match s.phase
    case Counting => Within(due.(affected := false, oneRow := false), s.passed)
    case CheckingAffected => Within(due.(affected := false, oneRow := false), s.passed)
    case CheckingOneRow => Within(due.(oneRow := false), s.passed)
    case Executed => Within(due, s.passed)
    case Formatting => Within(due, s.passed)
    case Committing => Within(due, s.passed)
    case Answered(success) => success ==> Within(due, s.passed)
    case _ => true
  }

  lemma StepBooks(job: Job, s: State, c: Choice)
    requires job.Valid() && Booked(job, s)
    ensures Booked(job, Step(job, s, c))
  {
  }

  lemma StepChecks(job: Job, s: State, c: Choice)
    requires !job.rendered && ((s.phase.Planning? && c.runs) || (!s.phase.Planning? && Checked(job, s)))
    ensures Checked(job, Step(job, s, c))
  {
  }

  lemma StepFormats(job: Job, s: State, c: Choice)
    requires Booked(job, s) && Formatted(s)
    ensures Formatted(Step(job, s, c))
    ensures Step(job, s, c).tx.NotBegun? ==> s.tx.NotBegun?
    ensures !Step(job, s, c).tx.NotBegun? && s.tx.NotBegun? ==> s.phase.Planning? && c.runs
  {
  }

  lemma StepKeeps(job: Job, s: State, c: Choice)
    requires job.Valid() && Inv(job, s)
    ensures Inv(job, Step(job, s, c))
  {
    StepBooks(job, s, c);
    StepFormats(job, s, c);
    if !job.rendered && !Step(job, s, c).tx.NotBegun? {
      StepChecks(job, s, c);
    }
  }

  lemma {:induction false} RunKeeps(job: Job, choices: seq<Choice>)
    requires job.Valid()
    ensures Inv(job, Run(job, choices))
    decreases |choices|
  {
    if choices != [] {
      RunKeeps(job, choices[..|choices| - 1]);
      StepKeeps(job, Run(job, choices[..|choices| - 1]), choices[|choices| - 1]);
    }
  }

  /** At most one commit; a request answered with an error has written nothing;
      a write is only ever answered with success; and an answer leaves no
      transaction open, so success means that what was begun is committed. */
  lemma ErrorsWriteNothing(job: Job, choices: seq<Choice>)
    requires job.Valid()
    ensures var s := Run(job, choices);
      && s.commits <= 1
      && (s.phase == Answered(false) ==> !Wrote(job, s))
      && (Wrote(job, s) ==> s.phase == Answered(true))
      && (s.phase.Answered? ==> !s.tx.Open?)
      && (s.phase == Answered(true) && !s.tx.NotBegun? ==> s.tx.Committed? && s.commits == 1)
  {
    RunKeeps(job, choices);
  }

  // ----- What a write has passed -----

  /** What the row checks say of the rows the query returned. */
  predicate RowsAllowed(job: Job, s: State) {
    && (s.passed.affected ==> job.maxAffected.Some? && s.rows <= job.maxAffected.value)
    && (s.passed.oneRow ==> s.rows == 1)
    && (s.phase.Planning? || s.phase.Querying? ==> s.passed == NOTHING)
  }

  lemma StepAllows(job: Job, s: State, c: Choice)
    requires RowsAllowed(job, s)
    ensures RowsAllowed(job, Step(job, s, c))
  {
  }

  lemma {:induction false} RunAllows(job: Job, choices: seq<Choice>)
    ensures RowsAllowed(job, Run(job, choices))
    decreases |choices|
  {
    if choices != [] {
      RunAllows(job, choices[..|choices| - 1]);
      StepAllows(job, Run(job, choices[..|choices| - 1]), choices[|choices| - 1]);
    }
  }

  /** A committed write whose body is not rendered touched no more rows than
      `max-affected` allowed, and exactly one where the request was a `PUT`. */
  lemma {:induction false} WrittenRows(job: Job, choices: seq<Choice>)
    requires job.Valid() && !job.rendered && Wrote(job, Run(job, choices))
    ensures Demanded(job).affected ==> Run(job, choices).rows <= job.maxAffected.value
    ensures job.upsert ==> Run(job, choices).rows == 1
  {
    RunKeeps(job, choices);
    RunAllows(job, choices);
  }

  /** Whether, for this request, no run commits a write past a check it demands. */
  ghost predicate Safe(job: Job) {
    forall choices :: Wrote(job, Run(job, choices)) ==> Within(Demanded(job), Run(job, choices).passed)
  }

  function Repeat(c: Choice, n: nat): (r: seq<Choice>) { if n == 0 then [] else Repeat(c, n - 1) + [c] }

  lemma {:induction false} RunRepeat(job: Job, c: Choice, n: nat)
    ensures Run(job, Repeat(c, n + 1)) == Step(job, Run(job, Repeat(c, n)), c)
  {
    assert (Repeat(c, n) + [c])[..|Repeat(c, n)|] == Repeat(c, n);
  }

  /** A rendered body goes from the query straight to formatting, and a request
      that may write commits there: of the checks, only formatting was made. */
  lemma {:induction false} RenderedSkipsChecks(job: Job, c: Choice)
    requires job.Valid() && job.rendered && !job.readOnly && c.ok && c.runs
    ensures Run(job, Repeat(c, 5)) == State(Answered(true), Committed, 1, c.rows, NOTHING.(format := true))
  {
    RunRepeat(job, c, 0);
    RunRepeat(job, c, 1);
    RunRepeat(job, c, 2);
    RunRepeat(job, c, 3);
    RunRepeat(job, c, 4);
  }

  /** A write commits only after every check its request demands has passed if and
      only if the body is not rendered -- or the request writes nothing, or
      demands nothing past formatting. */
  lemma ChecksPrecedeWrites(job: Job)
    requires job.Valid()
    ensures Safe(job) <==> (job.readOnly || !job.rendered || Demanded(job) == NOTHING.(format := true))
  {
    if job.readOnly || !job.rendered || Demanded(job) == NOTHING.(format := true) {
      forall choices | Wrote(job, Run(job, choices))
        ensures Within(Demanded(job), Run(job, choices).passed)
      {
        RunKeeps(job, choices);
      }
    } else {
      RenderedSkipsChecks(job, Choice(true, true, 0));
    }
  }

  // ----- Nothing in the way -----

  /** The rows pass what is demanded of them. */
  predicate RowsPass(job: Job, rows: nat) {
    && (Demanded(job).affected ==> rows <= job.maxAffected.value)
    && (job.upsert ==> rows == 1)
  }

  /** A step that nothing refuses. */
  predicate Good(job: Job, c: Choice) { c.ok && c.runs && RowsPass(job, c.rows) }

  /** How many steps are left. */
  function Ahead(phase: Phase): nat {
    match phase
    case Planning => 10
    case Querying => 9
    case Embedding => 8
    case ReadingSettings => 7
    case Counting => 6
    case CheckingAffected => 5
    case CheckingOneRow => 4
    case Executed => 3
    case Formatting => 2
    case Committing => 1
    case Answered(_) => 0
  }

  predicate OnItsWay(job: Job, s: State) {
    && s.phase != Answered(false)
    && (s.phase.Planning? || !s.tx.NotBegun?)
    && (s.phase.Planning? || s.phase.Querying? || RowsPass(job, s.rows))
  }

  lemma GoodStep(job: Job, s: State, c: Choice)
    requires OnItsWay(job, s) && Good(job, c)
    ensures OnItsWay(job, Step(job, s, c))
    ensures Ahead(s.phase) > 0 ==> Ahead(Step(job, s, c).phase) < Ahead(s.phase)
    ensures Ahead(s.phase) == 0 ==> Step(job, s, c) == s
  {
  }

  lemma {:induction false} GoodRun(job: Job, choices: seq<Choice>)
    requires forall c <- choices :: Good(job, c)
    ensures OnItsWay(job, Run(job, choices))
    ensures choices != [] ==> !Run(job, choices).tx.NotBegun?
    ensures Ahead(Run(job, choices).phase) + |choices| <= 10 || Ahead(Run(job, choices).phase) == 0
    decreases |choices|
  {
    if choices != [] {
      var front, last := choices[..|choices| - 1], choices[|choices| - 1];
      GoodRun(job, front);
      GoodStep(job, Run(job, front), last);
      assert Step(job, Run(job, front), last) == Run(job, choices);
      assert Ahead(Run(job, choices).phase) < 10;
    }
  }

  /** For every request, once ten steps have gone well it is answered with success,
      and what it did is committed, once. */
  lemma {:induction false} SuccessCommits(job: Job, choices: seq<Choice>)
    requires job.Valid() && |choices| >= 10 && forall c <- choices :: Good(job, c)
    ensures var s := Run(job, choices);
      s.phase == Answered(true) && s.tx.Committed? && s.commits == 1
  {
    GoodRun(job, choices);
    ErrorsWriteNothing(job, choices);
    var s := Run(job, choices);
    assert Ahead(s.phase) == 0;
  }

  // ----- Something in the way -----

  /** Where a request can be refused by what it does next. */
  predicate Refusable(job: Job, s: State) {
    || s.phase.Planning? || s.phase.Querying? || s.phase.Formatting?
    || (s.phase.Embedding? && job.twoQuery)
    || (s.phase.ReadingSettings? && (job.mutation || job.call || job.preRequest))
    || (s.phase.Counting? && job.counts)
    || (s.phase.Executed? && job.readOnly && s.tx.Open?)
    || (s.phase.Committing? && s.tx.Open?)
  }

  lemma FailureRefuses(job: Job, s: State, c: Choice)
    requires Refusable(job, s) && !c.ok
    ensures Step(job, s, c).phase == Answered(false)
  {
  }

  lemma {:induction false} AnswersStand(job: Job, choices: seq<Choice>, k: nat)
    requires k <= |choices| && Run(job, choices[..k]).phase.Answered?
    ensures Run(job, choices) == Run(job, choices[..k])
    decreases |choices|
  {
    if k == |choices| {
      assert choices[..k] == choices;
    } else {
      assert choices[..|choices| - 1][..k] == choices[..k];
      AnswersStand(job, choices[..|choices| - 1], k);
    }
  }

  /** A step that fails where a request can be refused is answered with an error,
      for good, and nothing is written. */
  lemma {:induction false} FailureWritesNothing(job: Job, choices: seq<Choice>, k: nat)
    requires job.Valid() && k < |choices| && !choices[k].ok && Refusable(job, Run(job, choices[..k]))
    ensures Run(job, choices).phase == Answered(false) && !Wrote(job, Run(job, choices))
  {
    FailureRefuses(job, Run(job, choices[..k]), choices[k]);
    assert choices[..k + 1][..k] == choices[..k];
    assert Run(job, choices[..k + 1]) == Step(job, Run(job, choices[..k]), choices[k]);
    AnswersStand(job, choices, k + 1);
    ErrorsWriteNothing(job, choices);
  }

  /** A query that goes well is committed with it exactly where the request only reads
      and has nothing more to do: no count, no second query, no body to render. */
  lemma {:induction false} ReadEndsEarly(job: Job, s: State, c: Choice)
    requires s.phase.Querying? && s.tx.Open? && c.ok
    ensures Step(job, s, c).tx.Committed? <==> job.readOnly && !job.counts && !job.twoQuery && !job.rendered
    ensures Step(job, s, c).rows == c.rows
  {
  }
}
