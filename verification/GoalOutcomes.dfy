/** What each call on the goal runtime answers and leaves behind, field by field,
    for every state and every argument. Elapsed time is charged first, so "after
    accrual" means the goal once that is done. */
module GoalOutcomes {
  import opened Prelude
  import opened GoalTypes
  import opened Objective
  import opened GoalState

  /** The goal once the time since the clock started has been charged. */
  function Accrued(s: RuntimeState, clock: Instant, now: U64): Goal
    requires s.goal.Some?
  {
    AccrueElapsed(s, clock, now).goal.value
  }

  /** Two goals alike but for their status. */
  predicate SameButStatus(a: Goal, b: Goal) {
    && a.id == b.id && a.objective == b.objective && a.createdAt == b.createdAt && a.updatedAt == b.updatedAt
    && a.tokenBudget == b.tokenBudget && a.tokensUsed == b.tokensUsed
    && a.timeBudget == b.timeBudget && a.timeUsed == b.timeUsed
  }

  // ---- New goals

  /** A request is granted if and only if its objective is not blank, is short or
      kept in the store under a handle that leaves the reference short, and neither
      budget is zero. The goal has what was asked for, each budget in its place. */
  lemma RequestsAreGrantedExactlyWhen(req: GoalRequest)
    ensures var text, reply := Trim(req.objective), req.Candidate();
            && (reply.Ok? <==>
                  && text != []
                  && (|text| <= 4_000 ||
                      (req.store.Storing? && |REFERENCE_HEAD| + |req.store.handle| + |REFERENCE_TAIL| <= 4_000))
                  && req.tokenBudget != Some(0) && req.timeBudget != Some(0))
            && (reply.Ok? ==>
                  var goal := reply.value;
                  && goal.id == req.id && goal.status == Active
                  && goal.objective == (if |text| <= 4_000 then text else REFERENCE_HEAD + req.store.handle + REFERENCE_TAIL)
                  && goal.tokenBudget == req.tokenBudget && goal.timeBudget == req.timeBudget
                  && goal.tokensUsed == 0 && goal.timeUsed == 0
                  && goal.createdAt == goal.updatedAt == req.now)
  {
    var text := Trim(req.objective);
    TrimShape(req.objective);
    TrimShape(text);
    if |text| > MAX_OBJECTIVE_CHARS && req.store.Storing? {
      ReferenceIsTrimmed(req.store.handle);
      TrimShape(Reference(req.store.handle));
    }
  }

  /** Each refusal names the first of its reasons. */
  lemma RefusedRequestsSayWhy(req: GoalRequest)
    requires req.Candidate().Err?
    ensures var text, e := Trim(req.objective), req.Candidate().error;
            && (text == [] ==> e == EmptyObjective)
            && (|text| > 4_000 && req.store.NoStore? ==> e == StorageUnavailable)
            && (|text| > 4_000 && req.store.Failing? ==> e == StorageFailed)
            && (0 < |text| <= 4_000 && req.tokenBudget == Some(0) ==> e == ZeroTokenBudget)
            && (0 < |text| <= 4_000 && req.tokenBudget != Some(0) ==> e == ZeroTimeBudget)
  {
    TrimShape(req.objective);
    TrimShape(Trim(req.objective));
  }

  /** A replacement is granted in any saved session; a creation only beside no
      unfinished goal, that is, none that is active, paused, blocked or
      usage-limited. */
  lemma InstallingIsGrantedExactlyWhen(s: RuntimeState, candidate: Reply)
    ensures ReplaceReply(s, candidate) == if s.persistent then candidate else Err(NotPersistent)
    ensures CreateReply(s, candidate) ==
            if !s.persistent then Err(NotPersistent)
            else if s.goal.Some? && s.goal.value.status in {Active, Paused, Blocked, UsageLimited}
            then Err(UnfinishedGoalExists)
            else candidate
  {
  }

  /** The goal put in place starts with no carry and no steering, to be saved. In an
      open turn it is timed at once; usage is tied to it only if the model made it. */
  lemma InstallingLeaves(s: RuntimeState, candidate: Reply, restart: Instant)
    requires candidate.Ok? && s.persistent && !(s.goal.Some? && s.goal.value.status in {Active, Paused, Blocked, UsageLimited})
    ensures var byUser, byModel := CreateExternal(s, candidate, restart), CreateFromModel(s, candidate, restart);
            && byUser == ReplaceExternal(s, candidate, restart)
            && byUser.goal == byModel.goal == Some(candidate.value)
            && byUser.dirty && byModel.dirty && !byUser.steering && !byModel.steering
            && byUser.remainder == byModel.remainder == 0
            && byUser.turnOpen == byModel.turnOpen == s.turnOpen && byUser.persistent && byModel.persistent
            && byUser.activeSince == byModel.activeSince == (if s.turnOpen then Some(restart) else s.activeSince)
            && byUser.associated == (if s.turnOpen then None else s.associated)
            && byModel.associated == (if s.turnOpen then Some(candidate.value.id) else s.associated)
  {
  }

  // ---- Changes of the goal in place

  /** What an edit answers, and the status it leaves: a complete goal becomes active,
      and so does a limited one whose budgets are not reached; every other status
      stays, and so does everything but the objective and the time of the change. */
  lemma EditsAnswer(s: RuntimeState, text: Result<string, GoalError>, clock: Instant, now: U64)
    ensures var reply := EditReply(s, text, clock, now);
            && (!s.persistent ==> reply == Err(NotPersistent))
            && (s.persistent && text.Err? ==> reply == Err(text.error))
            && (s.persistent && text.Ok? && s.goal.None? ==> reply == Err(NoGoal))
            && (s.persistent && text.Ok? && s.goal.Some? ==>
                  && reply.Ok?
                  && var g, a := reply.value, Accrued(s, clock, now);
                     && g.objective == text.value && g.updatedAt == now
                     && SameButStatus(g, a.(objective := text.value, updatedAt := now))
                     && (a.status == Complete ==> g.status == Active)
                     && (a.status == BudgetLimited ==> g.status == if a.Reached() then BudgetLimited else Active)
                     && (a.status !in {Complete, BudgetLimited} ==> g.status == a.status))
  {
  }

  /** What a status set from outside answers: a pause is granted unless the goal is
      limited or complete, a resume only if it is paused, blocked, usage-limited or
      active already, and any other status always. */
  lemma StatusChangesAnswer(s: RuntimeState, status: GoalStatus, clock: Instant, now: U64)
    ensures var reply := SetStatusReply(s, status, clock, now);
            && (!s.persistent ==> reply == Err(NotPersistent))
            && (s.persistent && s.goal.None? ==> reply == Err(NoGoal))
            && (s.persistent && s.goal.Some? ==>
                  var a := Accrued(s, clock, now);
                  && (reply == Err(CannotPause(a.status)) <==> status == Paused && a.status in {BudgetLimited, Complete})
                  && (reply == Err(CannotResume(a.status)) <==> status == Active && a.status in {BudgetLimited, Complete})
                  && (reply.Ok? <==> !(status in {Paused, Active} && a.status in {BudgetLimited, Complete}))
                  && (reply.Ok? ==>
                        && reply.value.status == status && reply.value.updatedAt == now
                        && SameButStatus(reply.value, a.(updatedAt := now))))
  {
  }

  /** What a change by the model answers: only to complete or blocked, and only of a
      goal that is neither limited nor complete. */
  lemma ModelUpdatesAnswer(s: RuntimeState, status: GoalStatus, clock: Instant, now: U64)
    ensures var reply := UpdateReply(s, status, clock, now);
            && (status !in {Complete, Blocked} ==> reply == Err(ModelStatusOnly))
            && (status in {Complete, Blocked} && !s.persistent ==> reply == Err(NotPersistent))
            && (status in {Complete, Blocked} && s.persistent && s.goal.None? ==> reply == Err(NoGoal))
            && (status in {Complete, Blocked} && s.persistent && s.goal.Some? ==>
                  var a := Accrued(s, clock, now);
                  && (a.status in {BudgetLimited, Complete} ==> reply == Err(CannotUpdate(a.status)))
                  && (a.status !in {BudgetLimited, Complete} ==>
                        && reply.Ok? && reply.value.status == status && reply.value.updatedAt == now
                        && SameButStatus(reply.value, a.(updatedAt := now))))
  {
  }

  /** The rest of the state after a change: usage and the clock are tied to the goal
      again exactly when the change is an edit or a resume that leaves it active in
      an open turn; otherwise the clock stays stopped. Everything else is as elapsed
      time left it, and all of it after a refusal. */
  predicate Leaves(before: RuntimeState, after: RuntimeState, reply: Reply, resumes: bool, restart: Instant) {
    match reply
    case Err(_) => after == before
    case Ok(goal) =>
      var tied := resumes && before.turnOpen && goal.status == Active;
      && after.goal == Some(goal) && after.dirty
      && after.associated == (if tied then Some(goal.id) else before.associated)
      && after.activeSince == (if tied then Some(restart) else None)
      && after.persistent == before.persistent && after.turnOpen == before.turnOpen
      && after.remainder == before.remainder && after.steering == before.steering
  }

  lemma EditsLeave(s: RuntimeState, text: Result<string, GoalError>, clock: Instant, restart: Instant, now: U64)
    ensures var before := if s.persistent && text.Ok? then AccrueElapsed(s, clock, now) else s;
            Leaves(before, EditExternal(s, text, clock, restart, now), EditReply(s, text, clock, now), true, restart)
  {
  }

  lemma StatusChangesLeave(s: RuntimeState, status: GoalStatus, clock: Instant, restart: Instant, now: U64)
    ensures var before := if s.persistent then AccrueElapsed(s, clock, now) else s;
            Leaves(before, SetStatusExternal(s, status, clock, restart, now), SetStatusReply(s, status, clock, now),
                   status == Active, restart)
  {
  }

  lemma ModelUpdatesLeave(s: RuntimeState, status: GoalStatus, clock: Instant, now: U64)
    ensures var before := if s.persistent && status in {Complete, Blocked} then AccrueElapsed(s, clock, now) else s;
            Leaves(before, UpdateFromModel(s, status, clock, now), UpdateReply(s, status, clock, now), false, 0)
  {
  }

  /** A clear in a saved session leaves no goal and none of its bookkeeping, to be
      saved if there was a goal or something to save before; elsewhere it changes
      nothing. */
  lemma ClearsLeave(s: RuntimeState)
    ensures var after := ClearExternal(s);
            && (!s.persistent ==> after == s)
            && (s.persistent ==>
                  && after == Loaded(None, true).(turnOpen := s.turnOpen, dirty := s.dirty || s.goal.Some?))
  {
  }

  // ---- Charges

  /** A usage reaches only the goal it is tied to, and limits it exactly when it was
      active, paused, blocked or usage-limited and now has used its token budget.
      That is answered, and raises the steering flag. */
  lemma UsagesLeave(s: RuntimeState, u: Usage, now: U64)
    ensures var after := AccountUsage(s, u, now);
            if s.associated.None? || s.goal.None? || s.goal.value.id != s.associated.value then
              after == s && !Crosses(s, u, now)
            else
              var g, h := s.goal.value, after.goal.value;
              var limits := g.status in {Active, Paused, Blocked, UsageLimited}
                            && g.tokenBudget.Some? && h.tokensUsed >= g.tokenBudget.value;
              && after == s.(goal := Some(h), dirty := true, steering := s.steering || limits)
              && h == g.(tokensUsed := Min(U64_MAX, g.tokensUsed + Min(U64_MAX, Max(0, u.input - u.cacheRead) + u.output)),
                         updatedAt := now, status := if limits then BudgetLimited else g.status)
              && (Crosses(s, u, now) <==> limits)
  {
  }

  /** Elapsed time limits the goal exactly when it was active and now has used its
      time budget, and raises the steering flag then; a clock that was not running
      changes nothing. */
  lemma ElapsedTimeLeaves(s: RuntimeState, clock: Instant, now: U64)
    ensures s.activeSince.None? ==> AccrueElapsed(s, clock, now) == s
    ensures s.activeSince.Some? && s.goal.Some? ==>
              var after, g := AccrueElapsed(s, clock, now), s.goal.value;
              && after.goal.Some?
              && var h := after.goal.value;
                 var limits := g.status == Active && g.timeBudget.Some? && h.timeUsed >= g.timeBudget.value;
                 && h == g.(timeUsed := h.timeUsed, updatedAt := now, status := if limits then BudgetLimited else g.status)
                 && after == s.(goal := Some(h), activeSince := None, remainder := after.remainder, dirty := true,
                                steering := s.steering || limits)
  {
  }

  // ---- Turns and sessions

  /** A turn opens and closes, and the goal is tied to it only while active at its
      begin; a session starts with nothing pending. */
  lemma TurnsLeave(s: RuntimeState, restart: Instant, clock: Instant, now: U64)
    ensures var open := BeginTurn(s, restart);
            && open.turnOpen && open == s.(turnOpen := true, associated := open.associated, activeSince := open.activeSince)
            && (s.StatusIs(Active) ==> open.associated == Some(s.goal.value.id) && open.activeSince == Some(restart))
            && (!s.StatusIs(Active) ==> open.associated == s.associated && open.activeSince == s.activeSince)
    ensures var closed := FinishTurn(s, clock, now);
            && !closed.turnOpen && closed.associated.None? && closed.activeSince.None?
            && var a := AccrueElapsed(s, clock, now);
               closed == a.(turnOpen := false, associated := None, activeSince := None)
    ensures forall goal, persistent ::
              var s := Loaded(goal, persistent);
              && s.goal == goal && s.persistent == persistent && s.remainder == 0
              && !s.dirty && !s.turnOpen && !s.steering && s.associated.None? && s.activeSince.None?
  {
  }
}
