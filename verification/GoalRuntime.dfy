/** The goal runtime as the program has it: one object whose fields the
    operations update step by step, including the updates made before an error
    is returned. */
module GoalRuntimes {
  import opened Prelude
  import opened GoalTypes
  import opened Objective
  import opened GoalState

  class GoalRuntime {
    var goal: Option<Goal>
    var dirty: bool
    var turnOpen: bool
    var associated: Option<GoalId>
    var activeSince: Option<Instant>
    var remainder: Duration
    var steering: bool
    var persistent: bool

    function State(): RuntimeState
      reads this
    {
      RuntimeState(goal, dirty, turnOpen, associated, activeSince, remainder, steering, persistent)
    }

    constructor (goal: Option<Goal>, persistent: bool)
      ensures State() == Loaded(goal, persistent)
    {
      this.goal := goal;
      dirty, turnOpen := false, false;
      associated, activeSince := None, None;
      remainder, steering := 0, false;
      this.persistent := persistent;
    }

    method ReplaceFromSession(goal: Option<Goal>, persistent: bool)
      modifies this
      ensures State() == Loaded(goal, persistent)
    {
      this.persistent := persistent;
      this.goal := goal;
      dirty := false;
      turnOpen := false;
      associated := None;
      activeSince := None;
      remainder := 0;
      steering := false;
    }

    method AccrueSpan(elapsed: Duration, now: U64)
      modifies this
      ensures State() == AccrueDuration(old(State()), elapsed, now)
    {
      var total := SatAddDuration(remainder, elapsed);
      var wholeSeconds := total / NANOS;
      remainder := total - wholeSeconds * NANOS;
      match goal {
        case None =>
          remainder := 0;
        case Some(current) =>
          current := current.(timeUsed := SatAdd(current.timeUsed, wholeSeconds), updatedAt := now);
          if current.status.Active? && current.timeBudget.Some? && current.timeUsed >= current.timeBudget.value {
            current := current.(status := BudgetLimited);
            steering := true;
          }
          goal := Some(current);
          dirty := true;
      }
    }

    method Accrue(clock: Instant, now: U64)
      modifies this
      ensures State() == AccrueElapsed(old(State()), clock, now)
    {
      var started := activeSince;
      activeSince := None;
      if started.Some? {
        AccrueSpan(Elapsed(started.value, clock), now);
      }
    }

    method Begin(restart: Instant)
      modifies this
      ensures State() == BeginTurn(old(State()), restart)
    {
      turnOpen := true;
      if goal.Some? && goal.value.status.Active? {
        associated := Some(goal.value.id);
        activeSince := Some(restart);
      }
    }

    method Finish(clock: Instant, now: U64)
      modifies this
      ensures State() == FinishTurn(old(State()), clock, now)
    {
      Accrue(clock, now);
      turnOpen := false;
      associated := None;
      activeSince := None;
    }

    method Replace(req: GoalRequest, restart: Instant) returns (reply: Reply)
      modifies this
      ensures State() == ReplaceExternal(old(State()), req.Candidate(), restart)
      ensures reply == ReplaceReply(old(State()), req.Candidate())
    {
      if !persistent {
        return Err(NotPersistent);
      }
      reply := req.Candidate();
      if reply.Ok? {
        goal := Some(reply.value);
        dirty := true;
        remainder := 0;
        steering := false;
        if turnOpen {
          associated := None;
          activeSince := Some(restart);
        }
      }
    }

    method Create(req: GoalRequest, restart: Instant) returns (reply: Reply)
      modifies this
      ensures State() == CreateExternal(old(State()), req.(timeBudget := None).Candidate(), restart)
      ensures reply == CreateReply(old(State()), req.(timeBudget := None).Candidate())
    {
      if !persistent {
        return Err(NotPersistent);
      }
      if goal.Some? && !goal.value.status.Terminal() {
        return Err(UnfinishedGoalExists);
      }
      reply := Replace(req.(timeBudget := None), restart);
    }

    method CreateByModel(req: GoalRequest, restart: Instant) returns (reply: Reply)
      modifies this
      ensures State() == CreateFromModel(old(State()), req.Candidate(), restart)
      ensures reply == CreateReply(old(State()), req.Candidate())
    {
      if !persistent {
        return Err(NotPersistent);
      }
      if goal.Some? && !goal.value.status.Terminal() {
        return Err(UnfinishedGoalExists);
      }
      reply := Replace(req, restart);
      if reply.Ok? && turnOpen {
        associated := Some(reply.value.id);
      }
    }

    method Edit(objective: string, store: OutputStore, clock: Instant, restart: Instant, now: U64)
      returns (reply: Reply)
      modifies this
      ensures State() == EditExternal(old(State()), Materialize(objective, store), clock, restart, now)
      ensures reply == EditReply(old(State()), Materialize(objective, store), clock, now)
    {
      if !persistent {
        return Err(NotPersistent);
      }
      var text := Materialize(objective, store);
      if text.Err? {
        return Err(text.error);
      }
      Accrue(clock, now);
      if goal.None? {
        return Err(NoGoal);
      }
      var edited := goal.value.(objective := text.value);
      if edited.status.BudgetLimited? && (edited.TokensReached() || edited.TimeReached()) {
      } else if edited.status.Complete? || edited.status.BudgetLimited? {
        edited := edited.(status := Active);
      }
      edited := edited.(updatedAt := now);
      goal := Some(edited);
      dirty := true;
      if turnOpen && edited.status.Active? {
        associated := Some(edited.id);
        activeSince := Some(restart);
      }
      reply := Ok(edited);
    }

    method SetStatus(status: GoalStatus, clock: Instant, restart: Instant, now: U64) returns (reply: Reply)
      modifies this
      ensures State() == SetStatusExternal(old(State()), status, clock, restart, now)
      ensures reply == SetStatusReply(old(State()), status, clock, now)
    {
      if !persistent {
        return Err(NotPersistent);
      }
      Accrue(clock, now);
      if goal.None? {
        return Err(NoGoal);
      }
      var current := goal.value.status;
      if status.Paused? && current.Terminal() {
        return Err(CannotPause(current));
      }
      if status.Active? && !current.Resumable() && !current.Active? {
        return Err(CannotResume(current));
      }
      goal := Some(goal.value.(status := status, updatedAt := now));
      dirty := true;
      if status.Active? && turnOpen {
        associated := Some(goal.value.id);
        activeSince := Some(restart);
      } else if !status.Active? {
        activeSince := None;
      }
      reply := Ok(goal.value);
    }

    method Update(status: GoalStatus, clock: Instant, now: U64) returns (reply: Reply)
      modifies this
      ensures State() == UpdateFromModel(old(State()), status, clock, now)
      ensures reply == UpdateReply(old(State()), status, clock, now)
    {
      if !status.Complete? && !status.Blocked? {
        return Err(ModelStatusOnly);
      }
      if !persistent {
        return Err(NotPersistent);
      }
      Accrue(clock, now);
      if goal.None? {
        return Err(NoGoal);
      }
      if goal.value.status.Terminal() {
        return Err(CannotUpdate(goal.value.status));
      }
      goal := Some(goal.value.(status := status, updatedAt := now));
      dirty := true;
      activeSince := None;
      reply := Ok(goal.value);
    }

    method Clear() returns (reply: Result<bool, GoalError>)
      modifies this
      ensures State() == ClearExternal(old(State()))
      ensures reply == if old(persistent) then Ok(old(goal).Some?) else Err(NotPersistent)
    {
      if !persistent {
        return Err(NotPersistent);
      }
      var changed := goal.Some?;
      goal := None;
      if changed {
        dirty := true;
      }
      associated := None;
      activeSince := None;
      remainder := 0;
      steering := false;
      reply := Ok(changed);
    }

    method Account(usage: Usage, now: U64) returns (crossed: bool)
      modifies this
      ensures State() == AccountUsage(old(State()), usage, now)
      ensures crossed == Crosses(old(State()), usage, now)
    {
      if associated.None? {
        return false;
      }
      if goal.None? || goal.value.id != associated.value {
        return false;
      }
      var delta := SatAdd(SatSub(usage.input, usage.cacheRead), usage.output);
      var charged := goal.value.(tokensUsed := SatAdd(goal.value.tokensUsed, delta), updatedAt := now);
      crossed := !charged.status.Terminal() && charged.tokenBudget.Some? && charged.tokensUsed >= charged.tokenBudget.value;
      if crossed {
        charged := charged.(status := BudgetLimited);
        steering := true;
      }
      goal := Some(charged);
      dirty := true;
    }

    method TakeBudgetSteering() returns (taken: bool)
      modifies this
      ensures taken == old(steering)
      ensures State() == old(State()).(steering := false)
    {
      taken := steering;
      steering := false;
    }

    method PendingSnapshot() returns (snapshot: Option<Option<Goal>>)
      ensures snapshot == if dirty then Some(goal) else None
    {
      snapshot := if dirty then Some(goal) else None;
    }

    method MarkPersisted()
      modifies this
      ensures State() == old(State()).(dirty := false)
    {
      dirty := false;
    }
  }

  /** What a session file holds: the last snapshot appended, or no goal. */
  function Saved(log: seq<Option<Goal>>): Option<Goal> {
    if log == [] then None else log[|log| - 1]
  }

  /** Saving the goal: a pending snapshot is appended to the session log, and only
      then marked saved; the log may be missing or the append may fail. If the
      file was right whenever the runtime was clean, it still is, and after a save
      that succeeds it holds the goal in memory. */
  method PersistGoal(runtime: GoalRuntime, log: seq<Option<Goal>>, appends: bool)
    returns (after: seq<Option<Goal>>, ok: bool)
    requires !runtime.dirty ==> Saved(log) == runtime.goal
    modifies runtime
    ensures runtime.State() == old(runtime.State()).(dirty := !ok)
    ensures ok ==> Saved(after) == runtime.goal
    ensures !ok <==> old(runtime.dirty) && !appends
    ensures after == log || (old(runtime.dirty) && ok && after == log + [runtime.goal])
    ensures !runtime.dirty ==> Saved(after) == runtime.goal
  {
    after := log;
    var snapshot := runtime.PendingSnapshot();
    if snapshot.None? {
      return log, true;
    }
    if !appends {
      return log, false;
    }
    after := log + [snapshot.value];
    runtime.MarkPersisted();
    ok := true;
  }
}
