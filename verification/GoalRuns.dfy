/** Whole runs of the goal runtime. A run starts at a state that construction or
    a session swap leaves and then takes any sequence of operations, failing
    ones included. Beside the runtime's own state a run carries a ledger that the
    operations never read: which goals were limited or steered, which usage was
    reported while the goal in place was to be charged, the spans read off the
    clock, and what reached the session file. */
module GoalRuns {
  import opened Prelude
  import opened GoalTypes
  import opened GoalState

  datatype Op =
    | Begin(restart: Instant)
    | Finish(clock: Instant, now: U64)
    | Replace(candidate: Reply, restart: Instant)
    | Create(candidate: Reply, restart: Instant)
    | CreateByModel(candidate: Reply, restart: Instant)
    | Edit(text: Result<string, GoalError>, clock: Instant, restart: Instant, now: U64)
    | SetStatus(status: GoalStatus, clock: Instant, restart: Instant, now: U64)
    | Update(status: GoalStatus, clock: Instant, now: U64)
    | Clear
    | Account(usage: Usage, now: U64)
    | TakeSteering
    | Persist(appended: bool)

  /** True when the operation gets as far as reading the clock for elapsed time. */
  predicate ReadsElapsed(s: RuntimeState, op: Op) {
    match op
    case Finish(_, _) => true
    case Edit(text, _, _, _) => s.persistent && text.Ok?
    case SetStatus(_, _, _, _) => s.persistent
    case Update(status, _, _) => s.persistent && ModelMaySet(status)
    case _ => false
  }

  function ClockOf(op: Op): (Instant, U64) {
    match op
    case Finish(clock, now) => (clock, now)
    case Edit(_, clock, _, now) => (clock, now)
    case SetStatus(_, clock, _, now) => (clock, now)
    case Update(_, clock, now) => (clock, now)
    case _ => (0, 0)
  }

  /** First half of an operation: elapsed time. */
  function Accrual(s: RuntimeState, op: Op): RuntimeState {
    if ReadsElapsed(s, op) then AccrueElapsed(s, ClockOf(op).0, ClockOf(op).1) else s
  }

  /** Second half: everything after elapsed time. */
  function Commit(s: RuntimeState, op: Op): RuntimeState {
    match op
    case Begin(restart) => BeginTurn(s, restart)
    case Finish(_, _) => CloseTurn(s)
    case Replace(candidate, restart) => ReplaceExternal(s, candidate, restart)
    case Create(candidate, restart) => CreateExternal(s, candidate, restart)
    case CreateByModel(candidate, restart) => CreateFromModel(s, candidate, restart)
    case Edit(text, _, restart, now) => if ReadsElapsed(s, op) then EditAccrued(s, text.value, restart, now) else s
    case SetStatus(status, _, restart, now) => if ReadsElapsed(s, op) then SetStatusAccrued(s, status, restart, now) else s
    case Update(status, _, now) => if ReadsElapsed(s, op) then UpdateAccrued(s, status, now) else s
    case Clear => ClearExternal(s)
    case Account(usage, now) => AccountUsage(s, usage, now)
    case TakeSteering => s.(steering := false)
    case Persist(appended) => if s.dirty && appended then s.(dirty := false) else s
  }

  function Next(s: RuntimeState, op: Op): RuntimeState {
    Commit(Accrual(s, op), op)
  }

  /** The two halves together are the runtime's own operations. */
  lemma NextIsTheOperation(s: RuntimeState, op: Op)
    ensures Next(s, op) ==
            match op
            case Begin(restart) => BeginTurn(s, restart)
            case Finish(clock, now) => FinishTurn(s, clock, now)
            case Replace(candidate, restart) => ReplaceExternal(s, candidate, restart)
            case Create(candidate, restart) => CreateExternal(s, candidate, restart)
            case CreateByModel(candidate, restart) => CreateFromModel(s, candidate, restart)
            case Edit(text, clock, restart, now) => EditExternal(s, text, clock, restart, now)
            case SetStatus(status, clock, restart, now) => SetStatusExternal(s, status, clock, restart, now)
            case Update(status, clock, now) => UpdateFromModel(s, status, clock, now)
            case Clear => ClearExternal(s)
            case Account(usage, now) => AccountUsage(s, usage, now)
            case TakeSteering => s.(steering := false)
            case Persist(appended) => if s.dirty && appended then s.(dirty := false) else s
  {
    AccrualFrame(s, op);
  }

  lemma AccrualFrame(s: RuntimeState, op: Op)
    ensures var t := Accrual(s, op);
            && t.persistent == s.persistent && t.turnOpen == s.turnOpen && t.associated == s.associated
            && (ReadsElapsed(s, op) ==> t.activeSince.None?)
            && t.goal.Some? == s.goal.Some?
            && (s.goal.Some? ==> t.goal.value.id == s.goal.value.id && t.goal.value.tokensUsed == s.goal.value.tokensUsed)
            && (t.Unfinished() ==> s.Unfinished())
            && (s.StatusIs(Complete) ==> t.StatusIs(Complete))
  {
  }

  /** The goal an operation puts in place, if it does. */
  function Installed(s: RuntimeState, op: Op): Option<Goal> {
    var reply :=
      match op
      case Replace(candidate, _) => ReplaceReply(s, candidate)
      case Create(candidate, _) => CreateReply(s, candidate)
      case CreateByModel(candidate, _) => CreateReply(s, candidate)
      case _ => Err(NoGoal);
    if reply.Ok? then Some(reply.value) else None
  }

  // ---- The ledger

  datatype Ledger = Ledger(
    issued: set<GoalId>,         // every goal id seen so far
    limited: multiset<GoalId>,   // one entry each time a goal turns BudgetLimited
    taken: multiset<GoalId>,     // one entry each time a steering flag is handed out
    durable: Option<Goal>,       // the copy in the session file
    charging: bool,              // usage reported now belongs to the goal in place
    tokensBefore: U64,           // tokens the goal in place started with
    charged: nat,                // exact tokens charged to it since
    running: Option<Instant>,    // when the span being timed now began
    timeBefore: U64,             // seconds the goal in place started with
    spans: nat                   // exact nanoseconds timed for it since
  )

  /** Tokens a usage costs: uncached input plus output, without saturation. */
  function Cost(u: Usage): nat {
    Max(0, u.input - u.cacheRead) + u.output
  }

  predicate TurnsBudgetLimited(s: RuntimeState, t: RuntimeState) {
    t.StatusIs(BudgetLimited) && !(s.StatusIs(BudgetLimited) && s.goal.value.id == t.goal.value.id)
  }

  function RecordLimit(l: Ledger, s: RuntimeState, t: RuntimeState): Ledger {
    if TurnsBudgetLimited(s, t) then l.(limited := l.limited + multiset{t.goal.value.id}) else l
  }

  function RecordAccrual(l: Ledger, s: RuntimeState, op: Op, t: RuntimeState): Ledger {
    var timed :=
      if ReadsElapsed(s, op) && l.running.Some?
      then l.(spans := l.spans + Elapsed(l.running.value, ClockOf(op).0), running := None)
      else l;
    RecordLimit(timed, s, t)
  }

  /** Which usage counts, told from the operations, the goal's status and whether a
      turn is open: a turn that begins on an active goal starts it, so do an edit or
      a resume that leaves an active goal in an open turn and a goal the model
      creates in one; the end of the turn, a user's replacement in an open turn and
      a clear stop it. */
  function Charging(l: Ledger, s: RuntimeState, op: Op, t: RuntimeState): bool {
    match op
    case Begin(_) => l.charging || s.StatusIs(Active)
    case Finish(_, _) => false
    case Replace(_, _) => l.charging && Installed(s, op).None?
    case Create(_, _) => l.charging && Installed(s, op).None?
    case CreateByModel(_, _) => if Installed(s, op).Some? then s.turnOpen else l.charging
    case Edit(_, _, _, _) => l.charging || (s.turnOpen && ReadsElapsed(s, op) && t.StatusIs(Active))
    case SetStatus(status, _, _, _) => l.charging || (s.turnOpen && s.persistent && status.Active? && t.StatusIs(Active))
    case Clear => l.charging && !s.persistent
    case _ => l.charging
  }

  /** Which time counts, told from the same things: a span starts when a turn
      begins on an active goal, when a goal is put in place in an open turn, and
      when an edit or a resume leaves an active goal in one; it ends at the next
      operation that reads the clock for elapsed time, and is given up at a clear. */
  function Running(l: Ledger, s: RuntimeState, op: Op, t: RuntimeState): Option<Instant> {
    match op
    case Begin(restart) => if s.StatusIs(Active) then Some(restart) else l.running
    case Replace(_, restart) => if Installed(s, op).Some? && s.turnOpen then Some(restart) else l.running
    case Create(_, restart) => if Installed(s, op).Some? && s.turnOpen then Some(restart) else l.running
    case CreateByModel(_, restart) => if Installed(s, op).Some? && s.turnOpen then Some(restart) else l.running
    case Edit(_, _, restart, _) =>
      if ReadsElapsed(s, op) && s.turnOpen && t.StatusIs(Active) then Some(restart) else l.running
    case SetStatus(status, _, restart, _) =>
      if s.persistent && s.turnOpen && status.Active? && t.StatusIs(Active) then Some(restart) else l.running
    case Clear => if s.persistent then None else l.running
    case _ => l.running
  }

  function RecordCommit(l: Ledger, s: RuntimeState, op: Op, t: RuntimeState): Ledger {
    var charging, running := Charging(l, s, op, t), Running(l, s, op, t);
    var next :=
      if Installed(s, op).Some? then
        l.(issued := l.issued + {Installed(s, op).value.id}, charging := charging, running := running,
           tokensBefore := 0, charged := 0, timeBefore := 0, spans := 0)
      else match op
        case Account(usage, _) =>
          if l.charging then l.(charged := l.charged + Cost(usage)) else l
        case TakeSteering =>
          if s.steering && s.goal.Some? then l.(taken := l.taken + multiset{s.goal.value.id}) else l
        case Persist(appended) =>
          if appended && s.dirty then l.(durable := s.goal) else l
        case _ => l.(charging := charging, running := running);
    RecordLimit(next, s, t)
  }

  datatype World = World(s: RuntimeState, l: Ledger)

  function Start(goal: Option<Goal>, persistent: bool): World {
    World(Loaded(goal, persistent),
          Ledger(if goal.Some? then {goal.value.id} else {}, multiset{}, multiset{}, goal, false,
                 if goal.Some? then goal.value.tokensUsed else 0, 0, None,
                 if goal.Some? then goal.value.timeUsed else 0, 0))
  }

  function AccrueStep(w: World, op: Op): World {
    var t := Accrual(w.s, op);
    World(t, RecordAccrual(w.l, w.s, op, t))
  }

  function CommitStep(w: World, op: Op): World {
    var t := Commit(w.s, op);
    World(t, RecordCommit(w.l, w.s, op, t))
  }

  function Step(w: World, op: Op): World {
    CommitStep(AccrueStep(w, op), op)
  }

  function Exec(w: World, ops: seq<Op>): World
    decreases |ops|
  {
    if ops == [] then w else Exec(Step(w, ops[0]), ops[1..])
  }

  /** New goals are fresh and draw new ids, and a status set from outside is a
      pause, a resume or a usage limit on a goal that is still unfinished once
      its elapsed time is accrued. */
  predicate Legal(w: World, op: Op) {
    LegalCommit(World(Accrual(w.s, op), w.l), op)
  }

  predicate LegalCommit(w: World, op: Op) {
    && (Installed(w.s, op).Some? ==>
          Fresh(Installed(w.s, op).value) && Installed(w.s, op).value.id !in w.l.issued)
    && (op.SetStatus? ==>
          || op.status in {Paused, Active}
          || (op.status.UsageLimited? && (w.s.goal.Some? ==> w.s.Unfinished())))
  }

  predicate LegalRun(w: World, ops: seq<Op>)
    decreases |ops|
  {
    ops != [] ==> Legal(w, ops[0]) && LegalRun(Step(w, ops[0]), ops[1..])
  }

  // ---- Invariants

  predicate Metered(s: RuntimeState) {
    s.activeSince.Some? ==> s.turnOpen && (s.StatusIs(Active) || s.StatusIs(BudgetLimited))
  }

  predicate Associated(s: RuntimeState) {
    s.associated.Some? ==> s.turnOpen && Accountable(s)
  }

  predicate LimitedIsSpent(s: RuntimeState) {
    s.StatusIs(BudgetLimited) ==> s.goal.value.Reached()
  }

  predicate UnderBudget(s: RuntimeState) {
    s.Unfinished() ==> !s.goal.value.Reached()
  }

  predicate RuntimeOk(s: RuntimeState) {
    && Metered(s)
    && Associated(s)
    && LimitedIsSpent(s)
    && s.remainder < NANOS
    && (s.steering ==> s.StatusIs(BudgetLimited))
  }

  // Steering: each goal is limited at most once and steers at most once.
  ghost predicate SteeringOk(w: World) {
    && (forall id :: w.l.limited[id] <= 1 && w.l.taken[id] <= w.l.limited[id])
    && (forall id :: id in w.l.limited ==> id in w.l.issued)
    && (w.s.goal.Some? ==>
          var id := w.s.goal.value.id;
          && id in w.l.issued
          && (w.s.StatusIs(BudgetLimited) || w.l.limited[id] == 0)
          && w.l.limited[id] == w.l.taken[id] + if w.s.steering then 1 else 0)
  }

  predicate TokensOk(w: World) {
    && (w.l.charging <==> w.s.associated.Some?)
    && (w.s.goal.Some? ==> w.s.goal.value.tokensUsed == Min(U64_MAX, w.l.tokensBefore + w.l.charged))
  }

  predicate ClockOk(w: World) {
    w.l.running == w.s.activeSince
  }

  predicate TimeOk(w: World) {
    w.s.goal.Some? && w.l.spans <= DURATION_MAX ==>
      && w.s.goal.value.timeUsed == Min(U64_MAX, w.l.timeBefore + w.l.spans / NANOS)
      && w.s.remainder == w.l.spans % NANOS
  }

  predicate DurableOk(w: World) {
    !w.s.dirty ==> w.l.durable == w.s.goal
  }

  ghost predicate Inv(w: World) {
    RuntimeOk(w.s) && SteeringOk(w) && TokensOk(w) && ClockOk(w) && TimeOk(w) && DurableOk(w)
  }

  /** What a session file may hold: a limited goal has spent its budget. */
  predicate Loadable(goal: Option<Goal>) {
    goal.Some? && goal.value.status.BudgetLimited? ==> goal.value.Reached()
  }

  lemma StartKeeps(goal: Option<Goal>, persistent: bool)
    requires Loadable(goal)
    ensures Inv(Start(goal, persistent))
  {
  }

  // ---- Each half of each operation keeps each invariant

  lemma AccrualKeepsRuntime(s: RuntimeState, op: Op)
    requires RuntimeOk(s)
    ensures RuntimeOk(Accrual(s, op))
  {
  }

  lemma AccrualKeepsSteering(w: World, op: Op)
    requires RuntimeOk(w.s) && SteeringOk(w)
    ensures SteeringOk(AccrueStep(w, op))
  {
  }

  lemma AccrualKeepsTokens(w: World, op: Op)
    requires TokensOk(w)
    ensures TokensOk(AccrueStep(w, op))
  {
  }

  lemma AccrualKeepsClock(w: World, op: Op)
    requires ClockOk(w)
    ensures ClockOk(AccrueStep(w, op))
  {
  }

  lemma AccrualKeepsTime(w: World, op: Op)
    requires RuntimeOk(w.s) && ClockOk(w) && TimeOk(w)
    ensures TimeOk(AccrueStep(w, op))
  {
  }

  lemma AccrualKeepsDurable(w: World, op: Op)
    requires DurableOk(w)
    ensures DurableOk(AccrueStep(w, op))
  {
  }

  lemma CommitKeepsRuntime(w: World, op: Op)
    requires RuntimeOk(w.s) && LegalCommit(w, op)
    requires ReadsElapsed(w.s, op) ==> w.s.activeSince.None?
    ensures RuntimeOk(Commit(w.s, op))
  {
  }

  lemma InstallKeepsSteering(w: World, op: Op)
    requires SteeringOk(w) && LegalCommit(w, op) && Installed(w.s, op).Some?
    ensures SteeringOk(CommitStep(w, op))
  {
    var t := Commit(w.s, op);
    assert t.goal == Installed(w.s, op) && !t.steering;
  }

  lemma AccountKeepsSteering(w: World, usage: Usage, now: U64)
    requires RuntimeOk(w.s) && SteeringOk(w)
    ensures SteeringOk(CommitStep(w, Account(usage, now)))
  {
  }

  // An operation that neither installs a goal nor charges one leaves the goal as
  // limited as it was, and only hands the flag out.
  lemma RestGoal(w: World, op: Op)
    requires RuntimeOk(w.s) && LegalCommit(w, op) && Installed(w.s, op).None? && !op.Account?
    ensures var t := Commit(w.s, op);
            t.goal.Some? ==>
              && w.s.goal.Some? && t.goal.value.id == w.s.goal.value.id
              && t.StatusIs(BudgetLimited) == w.s.StatusIs(BudgetLimited)
              && t.steering == (w.s.steering && !op.TakeSteering?)
  {
  }

  lemma RestLedger(l: Ledger, s: RuntimeState, op: Op, t: RuntimeState)
    requires Installed(s, op).None? && !op.Account? && !TurnsBudgetLimited(s, t)
    ensures var m := RecordCommit(l, s, op, t);
            m.issued == l.issued && m.limited == l.limited && m.taken == l.taken + Handed(s, op)
  {
  }

  function Handed(s: RuntimeState, op: Op): multiset<GoalId> {
    if op.TakeSteering? && s.steering && s.goal.Some? then multiset{s.goal.value.id} else multiset{}
  }

  lemma RestKeepsSteering(w: World, op: Op)
    requires RuntimeOk(w.s) && SteeringOk(w) && LegalCommit(w, op)
    requires Installed(w.s, op).None? && !op.Account?
    ensures SteeringOk(CommitStep(w, op))
  {
    RestGoal(w, op);
    RestLedger(w.l, w.s, op, Commit(w.s, op));
    HandingOutKeepsSteering(w, CommitStep(w, op), op);
  }

  lemma HandingOutKeepsSteering(w: World, v: World, op: Op)
    requires SteeringOk(w) && (w.s.steering ==> w.s.StatusIs(BudgetLimited))
    requires v.l.issued == w.l.issued && v.l.limited == w.l.limited && v.l.taken == w.l.taken + Handed(w.s, op)
    requires v.s.goal.Some? ==>
               && w.s.goal.Some? && v.s.goal.value.id == w.s.goal.value.id
               && v.s.StatusIs(BudgetLimited) == w.s.StatusIs(BudgetLimited)
               && v.s.steering == (w.s.steering && !op.TakeSteering?)
    ensures SteeringOk(v)
  {
  }

  lemma CommitKeepsSteering(w: World, op: Op)
    requires RuntimeOk(w.s) && SteeringOk(w) && LegalCommit(w, op)
    ensures SteeringOk(CommitStep(w, op))
  {
    if Installed(w.s, op).Some? {
      InstallKeepsSteering(w, op);
    } else if op.Account? {
      AccountKeepsSteering(w, op.usage, op.now);
    } else {
      RestKeepsSteering(w, op);
    }
  }

  lemma InstallKeepsTokens(w: World, op: Op)
    requires RuntimeOk(w.s) && TokensOk(w) && LegalCommit(w, op) && Installed(w.s, op).Some?
    ensures TokensOk(CommitStep(w, op))
  {
  }

  lemma AccountKeepsTokens(w: World, usage: Usage, now: U64)
    requires RuntimeOk(w.s) && TokensOk(w)
    ensures TokensOk(CommitStep(w, Account(usage, now)))
  {
  }

  lemma RestKeepsTokens(w: World, op: Op)
    requires RuntimeOk(w.s) && TokensOk(w) && LegalCommit(w, op) && Installed(w.s, op).None? && !op.Account?
    ensures TokensOk(CommitStep(w, op))
  {
  }

  lemma CommitKeepsTokens(w: World, op: Op)
    requires RuntimeOk(w.s) && TokensOk(w) && LegalCommit(w, op)
    ensures TokensOk(CommitStep(w, op))
  {
    if Installed(w.s, op).Some? {
      InstallKeepsTokens(w, op);
    } else if op.Account? {
      AccountKeepsTokens(w, op.usage, op.now);
    } else {
      RestKeepsTokens(w, op);
    }
  }

  lemma CommitKeepsClock(w: World, op: Op)
    requires RuntimeOk(w.s) && ClockOk(w)
    requires ReadsElapsed(w.s, op) ==> w.s.activeSince.None?
    ensures ClockOk(CommitStep(w, op))
  {
  }

  lemma CommitKeepsTime(w: World, op: Op)
    requires RuntimeOk(w.s) && TimeOk(w) && LegalCommit(w, op)
    ensures TimeOk(CommitStep(w, op))
  {
  }

  lemma CommitKeepsDurable(w: World, op: Op)
    requires DurableOk(w)
    ensures DurableOk(CommitStep(w, op))
  {
  }
}
