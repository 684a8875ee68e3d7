/** What becomes of one goal in the course of a run: the statuses it can move
    between, what a refused call leaves behind, and what never changes. */
module GoalHistories {
  import opened Prelude
  import opened GoalTypes
  import opened GoalState
  import opened GoalRuns
  import opened GoalTheorems

  // ---- Status moves

  /** The moves of the status diagram. Elapsed time can end only an Active goal,
      usage any unfinished one; only an edit leaves Complete; nothing leaves
      BudgetLimited. */
  predicate Moves(op: Op, from: GoalStatus, to: GoalStatus) {
    || from == to
    || (to.BudgetLimited? && op.Account? && !from.Terminal())
    || (to.BudgetLimited? && (op.Finish? || op.Edit? || op.SetStatus? || op.Update?) && from.Active?)
    || (op.Edit? && from.Complete? && to.Active?)
    || (op.Update? && !from.Terminal() && (to.Complete? || to.Blocked?) && to == op.status)
    || (op.SetStatus? && to.Active? && from.Resumable() && to == op.status)
    || (op.SetStatus? && (to.Paused? || to.UsageLimited?) && !from.Terminal() && to == op.status)
  }

  /** A goal that stays in place moves only along the diagram. */
  lemma StatusesMoveByTheDiagram(w: World, op: Op)
    requires Inv(w) && Legal(w, op)
    requires w.s.goal.Some? && Step(w, op).s.goal.Some? && Step(w, op).s.goal.value.id == w.s.goal.value.id
    ensures Moves(op, w.s.goal.value.status, Step(w, op).s.goal.value.status)
  {
    var a := Accrual(w.s, op);
    AccrualFrame(w.s, op);
    AccrualKeepsRuntime(w.s, op);
    AccrualMoves(w.s, op);
    CommitIsLegal(w, op);
    CommitMoves(AccrueStep(w, op), op);
  }

  // Elapsed time alone limits an Active goal or leaves the status as it is.
  lemma AccrualMoves(s: RuntimeState, op: Op)
    requires s.goal.Some?
    ensures var t := Accrual(s, op);
            t.goal.value.status == s.goal.value.status ||
            (ReadsElapsed(s, op) && s.goal.value.status.Active? && t.goal.value.status.BudgetLimited?)
  {
  }

  lemma CommitMoves(w: World, op: Op)
    requires RuntimeOk(w.s) && LegalCommit(w, op) && w.s.goal.Some? && w.s.goal.value.id in w.l.issued
    requires Commit(w.s, op).goal.Some? && Commit(w.s, op).goal.value.id == w.s.goal.value.id
    ensures var from, to := w.s.goal.value.status, Commit(w.s, op).goal.value.status;
            && Moves(op, from, to)
            && (from.BudgetLimited? ==> to.BudgetLimited?)
            && (op.Finish? ==> to == from)
  {
  }

  // ---- Replies

  /** The reply of the operations that answer with the goal or an error. */
  function ReplyOf(s: RuntimeState, op: Op): Option<Reply> {
    match op
    case Replace(candidate, _) => Some(ReplaceReply(s, candidate))
    case Create(candidate, _) => Some(CreateReply(s, candidate))
    case CreateByModel(candidate, _) => Some(CreateReply(s, candidate))
    case Edit(text, clock, _, now) => Some(EditReply(s, text, clock, now))
    case SetStatus(status, clock, _, now) => Some(SetStatusReply(s, status, clock, now))
    case Update(status, clock, now) => Some(UpdateReply(s, status, clock, now))
    case _ => None
  }

  /** A granted call answers with the very goal it leaves in place, marked to be
      saved; a refused one leaves behind at most the time it charged first and the
      clock that it stopped for that. */
  lemma RepliesTellTheState(s: RuntimeState, op: Op)
    requires ReplyOf(s, op).Some?
    ensures match ReplyOf(s, op).value
            case Ok(goal) => Next(s, op).goal == Some(goal) && Next(s, op).dirty
            case Err(_) => Next(s, op) == Accrual(s, op)
  {
  }

  /** Charging elapsed time twice at one reading is charging it once, so a call
      that was refused can be tried again without cost. */
  lemma RefusedCallsRepeatForFree(s: RuntimeState, op: Op)
    requires ReplyOf(s, op).Some? && ReplyOf(s, op).value.Err?
    ensures Next(Next(s, op), op) == Next(s, op)
    ensures ReplyOf(Next(s, op), op) == ReplyOf(s, op)
  {
    RepliesTellTheState(s, op);
    var t := Accrual(s, op);
    assert Accrual(t, op) == t;
    assert ReplyOf(t, op) == ReplyOf(s, op);
    RepliesTellTheState(t, op);
  }

  // ---- What a goal keeps

  /** Later is earlier with, perhaps, more used, another status or objective. */
  predicate SameTerms(earlier: Goal, later: Goal) {
    && later.id == earlier.id
    && later.createdAt == earlier.createdAt
    && later.tokenBudget == earlier.tokenBudget
    && later.timeBudget == earlier.timeBudget
    && later.tokensUsed >= earlier.tokensUsed
    && later.timeUsed >= earlier.timeUsed
  }

  // The goal is in place on its own terms, or gone for good.
  predicate Keeps(w: World, goal: Goal) {
    && goal.id in w.l.issued
    && (w.s.goal.Some? && w.s.goal.value.id == goal.id ==> SameTerms(goal, w.s.goal.value))
  }

  lemma StepKeepsTerms(w: World, op: Op, goal: Goal)
    requires Legal(w, op) && Keeps(w, goal)
    ensures Keeps(Step(w, op), goal)
  {
    CommitIsLegal(w, op);
    assert Keeps(AccrueStep(w, op), goal);
    CommitKeepsTerms(AccrueStep(w, op), op, goal);
  }

  lemma CommitKeepsTerms(w: World, op: Op, goal: Goal)
    requires LegalCommit(w, op) && Keeps(w, goal)
    ensures Keeps(CommitStep(w, op), goal)
  {
  }

  lemma {:induction false} RunKeepsTerms(w: World, ops: seq<Op>, goal: Goal)
    requires LegalRun(w, ops) && Keeps(w, goal)
    ensures Keeps(Exec(w, ops), goal)
    decreases |ops|
  {
    if ops != [] {
      StepKeepsTerms(w, ops[0], goal);
      RunKeepsTerms(Step(w, ops[0]), ops[1..], goal);
    }
  }

  /** However long a run, a goal still in place at its end has the budgets and the
      creation time it had, and nothing charged to it was ever taken back. */
  lemma GoalsKeepTheirTerms(w: World, ops: seq<Op>)
    requires Inv(w) && LegalRun(w, ops) && w.s.goal.Some?
    ensures var v := Exec(w, ops);
            v.s.goal.Some? && v.s.goal.value.id == w.s.goal.value.id ==> SameTerms(w.s.goal.value, v.s.goal.value)
  {
    RunKeepsTerms(w, ops, w.s.goal.value);
  }

  // ---- Complete goals

  predicate DoneOrGone(w: World, g: GoalId) {
    && g in w.l.issued
    && (w.s.goal.Some? && w.s.goal.value.id == g ==> w.s.StatusIs(Complete))
  }

  lemma StepKeepsDone(w: World, op: Op, g: GoalId)
    requires Inv(w) && Legal(w, op) && DoneOrGone(w, g) && !ReopensComplete(w.s, op)
    ensures DoneOrGone(Step(w, op), g)
  {
    var v := Step(w, op);
    IssuedGrows(w, op, g);
    if v.s.goal.Some? && v.s.goal.value.id == g {
      StatusesMoveByTheDiagram(w, op);
    }
  }

  // A goal seen before that is in place after a step was in place before it.
  lemma IssuedGrows(w: World, op: Op, g: GoalId)
    requires Legal(w, op) && g in w.l.issued
    ensures g in Step(w, op).l.issued
    ensures Step(w, op).s.goal.Some? && Step(w, op).s.goal.value.id == g ==>
              w.s.goal.Some? && w.s.goal.value.id == g
  {
    AccrualFrame(w.s, op);
    CommitIsLegal(w, op);
    assert g in AccrueStep(w, op).l.issued;
    IssuedGrowsOnCommit(AccrueStep(w, op), op, g);
  }

  lemma IssuedGrowsOnCommit(w: World, op: Op, g: GoalId)
    requires LegalCommit(w, op) && g in w.l.issued
    ensures g in CommitStep(w, op).l.issued
    ensures Commit(w.s, op).goal.Some? && Commit(w.s, op).goal.value.id == g ==>
              w.s.goal.Some? && w.s.goal.value.id == g
  {
  }

  predicate NeverReopens(w: World, ops: seq<Op>)
    decreases |ops|
  {
    ops != [] ==> !ReopensComplete(w.s, ops[0]) && NeverReopens(Step(w, ops[0]), ops[1..])
  }

  /** A complete goal stays complete, whatever is charged to it, until it is
      edited or no longer in place. */
  lemma {:induction false} CompleteStaysUntilEdited(w: World, ops: seq<Op>, g: GoalId)
    requires Inv(w) && LegalRun(w, ops) && NeverReopens(w, ops) && DoneOrGone(w, g)
    ensures DoneOrGone(Exec(w, ops), g)
    decreases |ops|
  {
    if ops != [] {
      StepKeeps(w, ops[0]);
      StepKeepsDone(w, ops[0], g);
      CompleteStaysUntilEdited(Step(w, ops[0]), ops[1..], g);
    }
  }
}
