/** Goal statuses and the reasons a goal operation can fail. */
module GoalTypes {

  datatype GoalStatus = Active | Paused | Blocked | UsageLimited | BudgetLimited | Complete {
    predicate Terminal() {
      BudgetLimited? || Complete?
    }

    predicate Resumable() {
      Paused? || Blocked? || UsageLimited?
    }
  }

  datatype GoalError =
    | NotPersistent
    | EmptyObjective
    | OversizedObjective
    | StorageUnavailable
    | StorageFailed
    | ZeroTokenBudget
    | ZeroTimeBudget
    | UnfinishedGoalExists
    | NoGoal
    | CannotPause(from: GoalStatus)
    | CannotResume(from: GoalStatus)
    | CannotUpdate(from: GoalStatus)
    | ModelStatusOnly
}
