/** The goal runtime's state and, for every operation, the state and the reply
    it leaves. `GoalRuntime` (the class that updates the fields one by one) is
    proved against these functions; `GoalRuns` and `GoalTheorems` prove what
    the functions mean over whole runs. */
module GoalState {
  import opened Prelude
  import opened GoalTypes
  import opened Objective

  /** Session-unique identifier; a fresh one is drawn for every new goal. */
  type GoalId = nat

  /** A reading of the monotonic clock, in nanoseconds. */
  type Instant = nat

  datatype Goal = Goal(
    id: GoalId,
    objective: string,
    status: GoalStatus,
    tokenBudget: Option<U64>,
    tokensUsed: U64,
    timeBudget: Option<U64>,
    timeUsed: U64,
    createdAt: U64,
    updatedAt: U64
  ) {
    predicate TokensReached() {
      tokenBudget.Some? && tokensUsed >= tokenBudget.value
    }

    predicate TimeReached() {
      timeBudget.Some? && timeUsed >= timeBudget.value
    }

    predicate Reached() {
      TokensReached() || TimeReached()
    }
  }

  type Reply = Result<Goal, GoalError>

  datatype Usage = Usage(input: U64, output: U64, cacheRead: U64)

  datatype RuntimeState = RuntimeState(
    goal: Option<Goal>,
    dirty: bool,
    turnOpen: bool,
    associated: Option<GoalId>,
    activeSince: Option<Instant>,
    remainder: Duration,
    steering: bool,
    persistent: bool
  ) {
    predicate StatusIs(status: GoalStatus) {
      goal.Some? && goal.value.status == status
    }

    predicate Unfinished() {
      goal.Some? && !goal.value.status.Terminal()
    }
  }

  /** The state right after construction or after a session swap. */
  function Loaded(goal: Option<Goal>, persistent: bool): RuntimeState {
    RuntimeState(goal, false, false, None, None, 0, false, persistent)
  }

  /** `Instant::elapsed`: zero when the clock reads earlier than the start. */
  function Elapsed(start: Instant, clock: Instant): Duration {
    if clock <= start then 0 else Min(clock - start, DURATION_MAX)
  }

  function NewGoal(objective: string, tokenBudget: Option<U64>, timeBudget: Option<U64>, id: GoalId, now: U64): Reply {
    match Validate(objective)
    case Err(e) => Err(e)
    case Ok(text) =>
      if tokenBudget == Some(0) then Err(ZeroTokenBudget)
      else if timeBudget == Some(0) then Err(ZeroTimeBudget)
      else Ok(Goal(id, text, Active, tokenBudget, 0, timeBudget, 0, now, now))
  }

  // ---- Elapsed time

  function AccrueGoal(goal: Goal, whole: U64, now: U64): Goal {
    var used := SatAdd(goal.timeUsed, whole);
    var charged := goal.(timeUsed := used, updatedAt := now);
    if goal.status.Active? && charged.TimeReached() then charged.(status := BudgetLimited) else charged
  }

  function AccrueDuration(s: RuntimeState, elapsed: Duration, now: U64): RuntimeState {
    var total := SatAddDuration(s.remainder, elapsed);
    match s.goal
    case None => s.(remainder := 0)
    case Some(goal) =>
      var charged := AccrueGoal(goal, total / NANOS, now);
      s.(goal := Some(charged),
         remainder := total % NANOS,
         dirty := true,
         steering := s.steering || charged.status != goal.status)
  }

  function AccrueElapsed(s: RuntimeState, clock: Instant, now: U64): RuntimeState {
    match s.activeSince
    case None => s
    case Some(start) => AccrueDuration(s.(activeSince := None), Elapsed(start, clock), now)
  }

  // ---- Turns

  function BeginTurn(s: RuntimeState, restart: Instant): RuntimeState {
    if s.StatusIs(Active)
    then s.(turnOpen := true, associated := Some(s.goal.value.id), activeSince := Some(restart))
    else s.(turnOpen := true)
  }

  function CloseTurn(s: RuntimeState): RuntimeState {
    s.(turnOpen := false, associated := None, activeSince := None)
  }

  function FinishTurn(s: RuntimeState, clock: Instant, now: U64): RuntimeState {
    CloseTurn(AccrueElapsed(s, clock, now))
  }

  // ---- Setting a goal

  /** What a new goal is asked for with, and the id and the time drawn for it. */
  datatype GoalRequest = GoalRequest(
    objective: string,
    store: OutputStore,
    tokenBudget: Option<U64>,
    timeBudget: Option<U64>,
    id: GoalId,
    now: U64
  ) {
    /** The goal the request describes, or why it describes none. */
    function Candidate(): Reply {
      match Materialize(objective, store)
      case Err(e) => Err(e)
      case Ok(text) => NewGoal(text, tokenBudget, timeBudget, id, now)
    }
  }

  /** A goal nothing has been charged to, with no budget that is spent at once. */
  predicate Fresh(goal: Goal) {
    goal.status.Active? && goal.tokensUsed == 0 && goal.timeUsed == 0 && !goal.Reached()
  }

  predicate FreshIfAny(candidate: Reply) {
    candidate.Ok? ==> Fresh(candidate.value)
  }

  /** Every request that is granted describes a fresh goal under the drawn id. */
  lemma CandidatesAreFresh(req: GoalRequest)
    ensures FreshIfAny(req.Candidate())
    ensures req.Candidate().Ok? ==>
              && req.Candidate().value.id == req.id
              && req.tokenBudget != Some(0) && req.timeBudget != Some(0)
  {
  }

  function Install(s: RuntimeState, goal: Goal, restart: Instant): RuntimeState {
    var installed := s.(goal := Some(goal), dirty := true, remainder := 0, steering := false);
    if s.turnOpen then installed.(associated := None, activeSince := Some(restart)) else installed
  }

  function ReplaceReply(s: RuntimeState, candidate: Reply): Reply {
    if !s.persistent then Err(NotPersistent) else candidate
  }

  function ReplaceExternal(s: RuntimeState, candidate: Reply, restart: Instant): RuntimeState {
    match ReplaceReply(s, candidate)
    case Err(_) => s
    case Ok(goal) => Install(s, goal, restart)
  }

  function CreateReply(s: RuntimeState, candidate: Reply): Reply {
    if !s.persistent then Err(NotPersistent)
    else if s.Unfinished() then Err(UnfinishedGoalExists)
    else candidate
  }

  function CreateExternal(s: RuntimeState, candidate: Reply, restart: Instant): RuntimeState {
    match CreateReply(s, candidate)
    case Err(_) => s
    case Ok(goal) => Install(s, goal, restart)
  }

  function CreateFromModel(s: RuntimeState, candidate: Reply, restart: Instant): RuntimeState {
    match CreateReply(s, candidate)
    case Err(_) => s
    case Ok(goal) =>
      var installed := Install(s, goal, restart);
      if s.turnOpen then installed.(associated := Some(goal.id)) else installed
  }

  // ---- Changing the goal in place

  /** An edit wakes a finished goal unless its budget is still spent. */
  function EditedStatus(goal: Goal): GoalStatus {
    match goal.status
    case BudgetLimited => if goal.Reached() then BudgetLimited else Active
    case Complete => Active
    case other => other
  }

  function Rejoin(s: RuntimeState, goal: Goal, restart: Instant): RuntimeState {
    if s.turnOpen && goal.status.Active?
    then s.(goal := Some(goal), dirty := true, associated := Some(goal.id), activeSince := Some(restart))
    else s.(goal := Some(goal), dirty := true)
  }

  // Each of the three operations below first accrues elapsed time; the
  // functions named ...Accrued say what happens after that.

  function EditAccruedReply(s: RuntimeState, objective: string, now: U64): Reply {
    if s.goal.None? then Err(NoGoal)
    else Ok(s.goal.value.(objective := objective, status := EditedStatus(s.goal.value), updatedAt := now))
  }

  function EditAccrued(s: RuntimeState, objective: string, restart: Instant, now: U64): RuntimeState {
    match EditAccruedReply(s, objective, now)
    case Err(_) => s
    case Ok(goal) => Rejoin(s, goal, restart)
  }

  function EditReply(s: RuntimeState, text: Result<string, GoalError>, clock: Instant, now: U64): Reply {
    if !s.persistent then Err(NotPersistent)
    else match text
      case Err(e) => Err(e)
      case Ok(objective) => EditAccruedReply(AccrueElapsed(s, clock, now), objective, now)
  }

  function EditExternal(s: RuntimeState, text: Result<string, GoalError>,
                        clock: Instant, restart: Instant, now: U64): RuntimeState
  {
    if !s.persistent || text.Err? then s
    else EditAccrued(AccrueElapsed(s, clock, now), text.value, restart, now)
  }

  function SetStatusAccruedReply(s: RuntimeState, status: GoalStatus, now: U64): Reply {
    if s.goal.None? then Err(NoGoal)
    else
      var current := s.goal.value.status;
      if status.Paused? && current.Terminal() then Err(CannotPause(current))
      else if status.Active? && !current.Resumable() && !current.Active? then Err(CannotResume(current))
      else Ok(s.goal.value.(status := status, updatedAt := now))
  }

  function SetStatusAccrued(s: RuntimeState, status: GoalStatus, restart: Instant, now: U64): RuntimeState {
    match SetStatusAccruedReply(s, status, now)
    case Err(_) => s
    case Ok(goal) =>
      if status.Active? then Rejoin(s, goal, restart)
      else s.(goal := Some(goal), dirty := true, activeSince := None)
  }

  function SetStatusReply(s: RuntimeState, status: GoalStatus, clock: Instant, now: U64): Reply {
    if !s.persistent then Err(NotPersistent)
    else SetStatusAccruedReply(AccrueElapsed(s, clock, now), status, now)
  }

  function SetStatusExternal(s: RuntimeState, status: GoalStatus,
                             clock: Instant, restart: Instant, now: U64): RuntimeState
  {
    if !s.persistent then s
    else SetStatusAccrued(AccrueElapsed(s, clock, now), status, restart, now)
  }

  predicate ModelMaySet(status: GoalStatus) {
    status.Complete? || status.Blocked?
  }

  function UpdateAccruedReply(s: RuntimeState, status: GoalStatus, now: U64): Reply {
    if s.goal.None? then Err(NoGoal)
    else if s.goal.value.status.Terminal() then Err(CannotUpdate(s.goal.value.status))
    else Ok(s.goal.value.(status := status, updatedAt := now))
  }

  function UpdateAccrued(s: RuntimeState, status: GoalStatus, now: U64): RuntimeState {
    match UpdateAccruedReply(s, status, now)
    case Err(_) => s
    case Ok(goal) => s.(goal := Some(goal), dirty := true, activeSince := None)
  }

  function UpdateReply(s: RuntimeState, status: GoalStatus, clock: Instant, now: U64): Reply {
    if !ModelMaySet(status) then Err(ModelStatusOnly)
    else if !s.persistent then Err(NotPersistent)
    else UpdateAccruedReply(AccrueElapsed(s, clock, now), status, now)
  }

  function UpdateFromModel(s: RuntimeState, status: GoalStatus, clock: Instant, now: U64): RuntimeState {
    if !ModelMaySet(status) || !s.persistent then s
    else UpdateAccrued(AccrueElapsed(s, clock, now), status, now)
  }

  function ClearExternal(s: RuntimeState): RuntimeState {
    if !s.persistent then s
    else s.(goal := None, dirty := s.dirty || s.goal.Some?, associated := None,
            activeSince := None, remainder := 0, steering := false)
  }

  // ---- Usage

  function UsageDelta(u: Usage): U64 {
    SatAdd(SatSub(u.input, u.cacheRead), u.output)
  }

  function ChargedGoal(goal: Goal, u: Usage, now: U64): Goal {
    var charged := goal.(tokensUsed := SatAdd(goal.tokensUsed, UsageDelta(u)), updatedAt := now);
    if !goal.status.Terminal() && charged.TokensReached() then charged.(status := BudgetLimited) else charged
  }

  predicate Accountable(s: RuntimeState) {
    s.associated.Some? && s.goal.Some? && s.goal.value.id == s.associated.value
  }

  /** True when the usage made the goal reach its token budget. */
  predicate Crosses(s: RuntimeState, u: Usage, now: U64) {
    Accountable(s) && ChargedGoal(s.goal.value, u, now).status != s.goal.value.status
  }

  function AccountUsage(s: RuntimeState, u: Usage, now: U64): RuntimeState {
    if !Accountable(s) then s
    else s.(goal := Some(ChargedGoal(s.goal.value, u, now)), dirty := true,
            steering := s.steering || Crosses(s, u, now))
  }
}
