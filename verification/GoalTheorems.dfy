/** What every run of the goal runtime keeps, for runs of any length that mix
    the operations in any order and include the calls that return an error. */
module GoalTheorems {
  import opened Prelude
  import opened GoalTypes
  import opened GoalState
  import opened GoalRuns

  lemma StepKeeps(w: World, op: Op)
    requires Inv(w) && Legal(w, op)
    ensures Inv(Step(w, op))
  {
    var a := AccrueStep(w, op);
    AccrualFrame(w.s, op);
    AccrualKeepsRuntime(w.s, op);
    AccrualKeepsSteering(w, op);
    AccrualKeepsTokens(w, op);
    AccrualKeepsClock(w, op);
    AccrualKeepsTime(w, op);
    AccrualKeepsDurable(w, op);
    CommitIsLegal(w, op);
    CommitKeepsRuntime(a, op);
    CommitKeepsSteering(a, op);
    CommitKeepsTokens(a, op);
    CommitKeepsClock(a, op);
    CommitKeepsTime(a, op);
    CommitKeepsDurable(a, op);
  }

  lemma CommitIsLegal(w: World, op: Op)
    requires Legal(w, op)
    ensures LegalCommit(AccrueStep(w, op), op)
  {
    assert AccrueStep(w, op).l.issued == w.l.issued;
  }

  lemma {:induction false} RunKeeps(w: World, ops: seq<Op>)
    requires Inv(w) && LegalRun(w, ops)
    ensures Inv(Exec(w, ops))
    decreases |ops|
  {
    if ops != [] {
      StepKeeps(w, ops[0]);
      RunKeeps(Step(w, ops[0]), ops[1..]);
    }
  }

  /** Every state any run reaches satisfies every invariant. */
  lemma ReachableStatesAreSound(goal: Option<Goal>, persistent: bool, ops: seq<Op>)
    requires Loadable(goal) && LegalRun(Start(goal, persistent), ops)
    ensures Inv(Exec(Start(goal, persistent), ops))
  {
    StartKeeps(goal, persistent);
    RunKeeps(Start(goal, persistent), ops);
  }

  // ---- Budget limits

  // Goal g has been limited or replaced: it can no longer be in place unlimited.
  predicate Settled(w: World, g: GoalId) {
    && g in w.l.issued
    && (w.s.goal.Some? && w.s.goal.value.id == g ==> w.s.StatusIs(BudgetLimited))
  }

  lemma StepKeepsSettled(w: World, op: Op, g: GoalId)
    requires Inv(w) && Legal(w, op) && Settled(w, g)
    ensures Settled(Step(w, op), g)
  {
    var a := AccrueStep(w, op);
    AccrualFrame(w.s, op);
    AccrualKeepsRuntime(w.s, op);
    CommitIsLegal(w, op);
    assert Settled(a, g);
    CommitKeepsSettled(a, op, g);
  }

  lemma CommitKeepsSettled(w: World, op: Op, g: GoalId)
    requires RuntimeOk(w.s) && LegalCommit(w, op) && Settled(w, g)
    ensures Settled(CommitStep(w, op), g)
  {
    assert w.l.issued <= CommitStep(w, op).l.issued;
  }

  /** BudgetLimited is absorbing: whatever the run does next, the goal that was
      limited is either still limited or no longer in place, and once it has been
      replaced or cleared it never comes back. */
  lemma {:induction false} BudgetLimitedAbsorbs(w: World, ops: seq<Op>, g: GoalId)
    requires Inv(w) && LegalRun(w, ops) && Settled(w, g)
    ensures Settled(Exec(w, ops), g)
    decreases |ops|
  {
    if ops != [] {
      StepKeeps(w, ops[0]);
      StepKeepsSettled(w, ops[0], g);
      BudgetLimitedAbsorbs(Step(w, ops[0]), ops[1..], g);
    }
  }

  /** A goal is limited at most once, its steering flag is handed out at most
      once, and a flag raised for the goal in place is waiting until it is taken. */
  lemma GoalsSteerAtMostOnce(goal: Option<Goal>, persistent: bool, ops: seq<Op>, g: GoalId)
    requires Loadable(goal) && LegalRun(Start(goal, persistent), ops)
    ensures var w := Exec(Start(goal, persistent), ops);
            && w.l.taken[g] <= w.l.limited[g] <= 1
            && (w.s.goal.Some? && w.s.goal.value.id == g ==>
                  (w.s.steering <==> w.l.limited[g] == 1 && w.l.taken[g] == 0))
  {
    ReachableStatesAreSound(goal, persistent, ops);
  }

  // ---- Staying under budget

  /** A granted edit of a Complete goal. */
  predicate ReopensComplete(s: RuntimeState, op: Op) {
    op.Edit? && s.persistent && op.text.Ok? && s.StatusIs(Complete)
  }

  /** The one operation that can wake a goal over its budget. */
  predicate ReopensSpent(s: RuntimeState, op: Op) {
    ReopensComplete(s, op) && s.goal.value.Reached()
  }

  predicate NeverReopensSpent(w: World, ops: seq<Op>)
    decreases |ops|
  {
    ops != [] ==> !ReopensSpent(w.s, ops[0]) && NeverReopensSpent(Step(w, ops[0]), ops[1..])
  }

  lemma AccrualKeepsUnderBudget(s: RuntimeState, op: Op)
    requires RuntimeOk(s) && UnderBudget(s)
    ensures UnderBudget(Accrual(s, op))
  {
  }

  lemma CommitKeepsUnderBudgetExactlyWhen(w: World, op: Op)
    requires RuntimeOk(w.s) && UnderBudget(w.s) && LegalCommit(w, op)
    ensures UnderBudget(Commit(w.s, op)) <==> !ReopensSpent(w.s, op)
  {
  }

  // A complete goal is not timed, so what reopens it is known before the call.
  lemma AccrualKeepsReopening(s: RuntimeState, op: Op)
    requires RuntimeOk(s)
    ensures ReopensSpent(Accrual(s, op), op) <==> ReopensSpent(s, op)
  {
    AccrualKeepsStatus(s, op);
  }

  lemma StepKeepsUnderBudgetExactlyWhen(w: World, op: Op)
    requires Inv(w) && UnderBudget(w.s) && Legal(w, op)
    ensures UnderBudget(Step(w, op).s) <==> !ReopensSpent(w.s, op)
  {
    AccrualKeepsRuntime(w.s, op);
    AccrualKeepsUnderBudget(w.s, op);
    AccrualKeepsReopening(w.s, op);
    CommitIsLegal(w, op);
    CommitKeepsUnderBudgetExactlyWhen(AccrueStep(w, op), op);
  }

  ghost predicate UnderBudgetThroughout(w: World, ops: seq<Op>) {
    forall n | 0 <= n <= |ops| :: UnderBudget(Exec(w, ops[..n]).s)
  }

  lemma ThroughoutStep(w: World, ops: seq<Op>)
    requires ops != []
    ensures UnderBudgetThroughout(w, ops) <==> UnderBudget(w.s) && UnderBudgetThroughout(Step(w, ops[0]), ops[1..])
  {
    forall n | 0 < n <= |ops| ensures Exec(w, ops[..n]) == Exec(Step(w, ops[0]), ops[1..][..n - 1]) {
      assert ops[..n][1..] == ops[1..][..n - 1];
    }
    assert Exec(w, ops[..0]) == w;
    if UnderBudgetThroughout(w, ops) {
      forall m | 0 <= m <= |ops[1..]| ensures UnderBudget(Exec(Step(w, ops[0]), ops[1..][..m]).s) {
        assert UnderBudget(Exec(w, ops[..m + 1]).s);
      }
    }
  }

  /** An unfinished goal is strictly under both of its budgets in every state of a
      run, failing calls included, if and only if no granted edit in the run finds
      a Complete goal that has spent a budget. */
  lemma {:induction false} UnfinishedGoalsAreUnderBudgetExactlyWhen(w: World, ops: seq<Op>)
    requires Inv(w) && UnderBudget(w.s) && LegalRun(w, ops)
    ensures UnderBudgetThroughout(w, ops) <==> NeverReopensSpent(w, ops)
    decreases |ops|
  {
    if ops == [] {
      assert Exec(w, ops[..0]) == w;
    } else {
      var v := Step(w, ops[0]);
      ThroughoutStep(w, ops);
      StepKeeps(w, ops[0]);
      StepKeepsUnderBudgetExactlyWhen(w, ops[0]);
      if UnderBudget(v.s) {
        UnfinishedGoalsAreUnderBudgetExactlyWhen(v, ops[1..]);
      } else {
        assert Exec(v, ops[1..][..0]) == v;
      }
    }
  }

  lemma AccrualKeepsStatus(s: RuntimeState, op: Op)
    ensures Accrual(s, op).StatusIs(Complete) <==> s.StatusIs(Complete)
  {
  }

  /** Editing a Complete goal leaves the goal under budget exactly when it was
      under budget while Complete. */
  lemma EditOfCompleteKeepsBudgetExactlyWhen(s: RuntimeState, objective: string, clock: Instant, restart: Instant, now: U64)
    requires RuntimeOk(s) && s.persistent && s.StatusIs(Complete)
    ensures UnderBudget(EditExternal(s, Ok(objective), clock, restart, now)) <==> !s.goal.value.Reached()
  {
    assert s.activeSince.None?;
  }

  /** Usage keeps being charged to a Complete goal, so the failing case is
      reachable: an Active goal over its token budget. */
  lemma ActiveOverBudgetIsReachable(goal: Goal, usage: Usage)
    requires Fresh(goal) && goal.timeBudget.None? && goal.tokenBudget == Some(10)
    requires usage == Usage(10, 0, 0)
    ensures var ops := [Begin(0), Update(Complete, 0, 0), Account(usage, 0), Edit(Ok("again"), 0, 0, 0)];
            var w := Exec(Start(Some(goal), true), ops);
            && LegalRun(Start(Some(goal), true), ops)
            && w.s.StatusIs(Active) && w.s.goal.value.TokensReached()
  {
    var w0 := Start(Some(goal), true);
    var a, b, c, d := Begin(0), Update(Complete, 0, 0), Account(usage, 0), Edit(Ok("again"), 0, 0, 0);
    FourSteps(w0, a, b, c, d);
    var w1 := Step(w0, a);
    assert w1.s == w0.s.(turnOpen := true, associated := Some(goal.id), activeSince := Some(0));
    var w2 := Step(w1, b);
    assert w2.s == w1.s.(goal := Some(goal.(status := Complete, updatedAt := 0)), activeSince := None, dirty := true);
    var w3 := Step(w2, c);
    assert w3.s.StatusIs(Complete) && w3.s.goal.value.tokensUsed == 10;
  }

  lemma FourSteps(w: World, a: Op, b: Op, c: Op, d: Op)
    ensures Exec(w, [a, b, c, d]) == Step(Step(Step(Step(w, a), b), c), d)
    ensures Legal(w, a) && Legal(Step(w, a), b) && Legal(Step(Step(w, a), b), c) && Legal(Step(Step(Step(w, a), b), c), d)
            ==> LegalRun(w, [a, b, c, d])
  {
    var x, y, z := Step(w, a), Step(Step(w, a), b), Step(Step(Step(w, a), b), c);
    Front(z, d, []);
    Front(y, c, [d]);
    Front(x, b, [c, d]);
    Front(w, a, [b, c, d]);
    assert [a] + [b, c, d] == [a, b, c, d] && [b] + [c, d] == [b, c, d] && [c] + [d] == [c, d] && [d] + [] == [d];
  }

  lemma Front(w: World, op: Op, rest: seq<Op>)
    ensures Exec(w, [op] + rest) == Exec(Step(w, op), rest)
    ensures LegalRun(w, [op] + rest) <==> Legal(w, op) && LegalRun(Step(w, op), rest)
  {
    assert ([op] + rest)[1..] == rest;
  }

  /** The span running now, if any, with the carried fraction, does not use up
      the time the goal has left. */
  predicate SpanFits(s: RuntimeState, clock: Instant)
    requires s.goal.Some?
  {
    s.activeSince.Some? && s.goal.value.timeBudget.Some? ==>
      s.remainder + Max(0, clock - s.activeSince.value) < (s.goal.value.timeBudget.value - s.goal.value.timeUsed) * NANOS
  }

  /** Putting a usage limit on a goal from outside keeps it under budget if and
      only if, before the call, no budget was spent and the running span fits. */
  lemma UsageLimitKeepsBudgetExactlyWhen(s: RuntimeState, clock: Instant, restart: Instant, now: U64)
    requires s.persistent && s.goal.Some?
    ensures UnderBudget(SetStatusExternal(s, UsageLimited, clock, restart, now)) <==>
            !s.goal.value.Reached() && SpanFits(s, clock)
  {
    var goal := s.goal.value;
    if s.activeSince.Some? && goal.timeBudget.Some? {
      var span := s.remainder + Max(0, clock - s.activeSince.value);
      SpanWithinSeconds(span, goal.timeUsed, goal.timeBudget.value);
      SaturatedSpan(s.remainder, Max(0, clock - s.activeSince.value));
    }
  }

  // Whole seconds reach a budget exactly when the nanoseconds do.
  lemma SpanWithinSeconds(span: nat, used: nat, budget: nat)
    ensures used + span / NANOS < budget <==> span < (budget - used) * NANOS
  {
    var n := NANOS;
    assert span == span / n * n + span % n;
  }

  // A span too long for a Duration is cut at one no time budget covers.
  lemma SaturatedSpan(carried: Duration, elapsed: nat)
    ensures var total := SatAddDuration(carried, Min(elapsed, DURATION_MAX));
            if carried + elapsed <= DURATION_MAX then total == carried + elapsed
            else total / NANOS == U64_MAX && (carried + elapsed) / NANOS >= U64_MAX
  {
    var n := NANOS;
    assert DURATION_MAX / n == U64_MAX;
  }

  /** The harness sets the limit with the turn finished and on an Active goal. It
      is then one of the changes a run allows, and keeps the goal under budget if
      and only if it was. */
  lemma HarnessUsageLimitKeepsBudgetExactlyWhen(w: World, clock: Instant, restart: Instant, now: U64)
    requires RuntimeOk(w.s) && w.s.persistent && !w.s.turnOpen && w.s.StatusIs(Active)
    ensures Legal(w, SetStatus(UsageLimited, clock, restart, now))
    ensures UnderBudget(Step(w, SetStatus(UsageLimited, clock, restart, now)).s) <==> UnderBudget(w.s)
  {
    assert w.s.activeSince.None?;
    var op := SetStatus(UsageLimited, clock, restart, now);
    NextIsTheOperation(w.s, op);
    assert Step(w, op).s == Next(w.s, op);
    UsageLimitKeepsBudgetExactlyWhen(w.s, clock, restart, now);
  }

  // ---- Usage

  /** While usage is associated with a goal, that goal is the one in place and
      the turn is open, so no usage reported is ever dropped by the id check: it
      is charged exactly when the operations so far say it belongs to the goal. */
  lemma UsageIsNeverDiscarded(goal: Option<Goal>, persistent: bool, ops: seq<Op>, usage: Usage, now: U64)
    requires Loadable(goal) && LegalRun(Start(goal, persistent), ops)
    ensures var w := Exec(Start(goal, persistent), ops);
            && (w.l.charging <==> Accountable(w.s))
            && (w.l.charging ==> w.s.turnOpen)
            && (w.s.goal.Some? ==>
                  && w.s.goal.value.tokensUsed == Min(U64_MAX, w.l.tokensBefore + w.l.charged)
                  && AccountUsage(w.s, usage, now).goal.value.tokensUsed ==
                     Min(U64_MAX, w.s.goal.value.tokensUsed + if w.l.charging then Cost(usage) else 0))
  {
    ReachableStatesAreSound(goal, persistent, ops);
  }

  /** The operations that can tie usage to a goal. */
  predicate MayAssociate(op: Op) {
    op.Begin? || op.Edit? || op.CreateByModel? || (op.SetStatus? && op.status.Active?)
  }

  predicate Uncharged(w: World) {
    !w.l.charging && w.l.charged == 0 && w.l.tokensBefore == 0
  }

  lemma StepKeepsUncharged(w: World, op: Op)
    requires Uncharged(w) && !MayAssociate(op)
    ensures Uncharged(Step(w, op))
  {
    assert Uncharged(AccrueStep(w, op));
  }

  lemma {:induction false} RunKeepsUncharged(w: World, ops: seq<Op>)
    requires Uncharged(w) && forall op :: op in ops ==> !MayAssociate(op)
    ensures Uncharged(Exec(w, ops))
    decreases |ops|
  {
    if ops != [] {
      StepKeepsUncharged(w, ops[0]);
      RunKeepsUncharged(Step(w, ops[0]), ops[1..]);
    }
  }

  /** A goal the user puts in place, over another or beside none, is charged
      nothing, in the open turn or after it, until an operation ties usage to it
      again. */
  lemma ReplacementIsNotCharged(w: World, op: Op, ops: seq<Op>)
    requires Inv(w) && (op.Replace? || op.Create?) && Installed(w.s, op).Some?
    requires LegalRun(w, [op] + ops)
    requires forall later :: later in ops ==> !MayAssociate(later)
    ensures var v := Exec(w, [op] + ops);
            v.s.goal.Some? ==> v.s.goal.value.tokensUsed == 0
  {
    var all := [op] + ops;
    assert all[0] == op && all[1..] == ops;
    var v := Step(w, op);
    StepKeeps(w, op);
    assert v.s.associated.None?;
    RunKeepsUncharged(v, ops);
    RunKeeps(w, all);
  }

  // ---- Time

  /** Elapsed time is conserved: unless a counter saturates, the seconds charged
      plus the carried fraction are the seconds the goal started with plus every
      span of clock readings that the ledger times for it. */
  lemma TimeIsConserved(goal: Option<Goal>, persistent: bool, ops: seq<Op>)
    requires Loadable(goal) && LegalRun(Start(goal, persistent), ops)
    ensures var w := Exec(Start(goal, persistent), ops);
            && w.s.remainder < NANOS
            && (w.s.goal.Some? && w.l.timeBefore + w.l.spans / NANOS <= U64_MAX ==>
                  w.s.goal.value.timeUsed * NANOS + w.s.remainder == w.l.timeBefore * NANOS + w.l.spans)
  {
    ReachableStatesAreSound(goal, persistent, ops);
    var w := Exec(Start(goal, persistent), ops);
    if w.s.goal.Some? && w.l.timeBefore + w.l.spans / NANOS <= U64_MAX {
      assert w.l.spans == w.l.spans / NANOS * NANOS + w.l.spans % NANOS;
      assert w.l.spans <= DURATION_MAX;
    }
  }

  // ---- Time never runs ahead

  /** The readings of the monotonic clock an operation makes, oldest first. */
  function Readings(op: Op): seq<Instant> {
    match op
    case Begin(restart) => [restart]
    case Finish(clock, _) => [clock]
    case Replace(_, restart) => [restart]
    case Create(_, restart) => [restart]
    case CreateByModel(_, restart) => [restart]
    case Edit(_, clock, restart, _) => [clock, restart]
    case SetStatus(_, clock, restart, _) => [clock, restart]
    case Update(_, clock, _) => [clock]
    case _ => []
  }

  /** No reading is earlier than the one before it, nor later than the end. */
  predicate Ordered(from: Instant, readings: seq<Instant>, end: Instant)
    decreases |readings|
  {
    if readings == [] then from <= end
    else from <= readings[0] && Ordered(readings[0], readings[1..], end)
  }

  function AllReadings(ops: seq<Op>): seq<Instant>
    decreases |ops|
  {
    if ops == [] then [] else Readings(ops[0]) + AllReadings(ops[1..])
  }

  // Time accrued so far, and time still to accrue, fit between two readings.
  predicate Fits(w: World, from: Instant, clock: Instant) {
    && from <= clock
    && (w.s.activeSince.Some? ==> from <= w.s.activeSince.value <= clock)
    && w.l.spans + (if w.s.activeSince.Some? then clock - w.s.activeSince.value else 0) <= clock - from
  }

  // The last reading an operation makes, or the one before it if it makes none.
  function LastReading(op: Op, clock: Instant): Instant {
    if Readings(op) == [] then clock else Readings(op)[|Readings(op)| - 1]
  }

  lemma {:induction false} OrderedSplit(from: Instant, a: seq<Instant>, b: seq<Instant>, end: Instant)
    requires Ordered(from, a + b, end)
    ensures Ordered(from, a, if a == [] then from else a[|a| - 1])
    ensures Ordered(if a == [] then from else a[|a| - 1], b, end)
    decreases |a|
  {
    if a == [] {
      assert a + b == b;
    } else {
      assert (a + b)[1..] == a[1..] + b;
      OrderedSplit(a[0], a[1..], b, end);
    }
  }

  lemma AccrualFits(w: World, op: Op, from: Instant, clock: Instant)
    requires ClockOk(w) && Fits(w, from, clock) && (ReadsElapsed(w.s, op) ==> clock <= ClockOf(op).0)
    ensures Fits(AccrueStep(w, op), from, if ReadsElapsed(w.s, op) then ClockOf(op).0 else clock)
  {
  }

  lemma CommitFits(w: World, op: Op, from: Instant, clock: Instant)
    requires Fits(w, from, clock) && Ordered(clock, Readings(op), LastReading(op, clock))
    ensures Fits(CommitStep(w, op), from, LastReading(op, clock))
  {
  }

  lemma StepFits(w: World, op: Op, from: Instant, clock: Instant)
    requires ClockOk(w) && Fits(w, from, clock) && Ordered(clock, Readings(op), LastReading(op, clock))
    ensures Fits(Step(w, op), from, LastReading(op, clock))
  {
    AccrualFits(w, op, from, clock);
    CommitFits(AccrueStep(w, op), op, from, if ReadsElapsed(w.s, op) then ClockOf(op).0 else clock);
  }

  lemma {:induction false} RunFits(w: World, ops: seq<Op>, from: Instant, clock: Instant, end: Instant)
    requires Inv(w) && LegalRun(w, ops)
    requires Fits(w, from, clock) && Ordered(clock, AllReadings(ops), end)
    ensures Fits(Exec(w, ops), from, end)
    decreases |ops|
  {
    if ops != [] {
      StepKeeps(w, ops[0]);
      OrderedSplit(clock, Readings(ops[0]), AllReadings(ops[1..]), end);
      StepFits(w, ops[0], from, clock);
      RunFits(Step(w, ops[0]), ops[1..], from, LastReading(ops[0], clock), end);
    } else {
      assert w.s.activeSince.Some? ==> w.s.activeSince.value <= clock <= end;
    }
  }

  /** No time is charged twice: under a clock that never goes back, and however
      turns, pauses, edits and replacements cut it up, the time charged to the
      goal in place over a run is at most the time the run took. */
  lemma TimeNeverRunsAhead(goal: Option<Goal>, persistent: bool, ops: seq<Op>, from: Instant, end: Instant)
    requires Loadable(goal) && LegalRun(Start(goal, persistent), ops)
    requires Ordered(from, AllReadings(ops), end)
    ensures var w := Exec(Start(goal, persistent), ops);
            && from <= end
            && (w.s.goal.Some? ==> (w.s.goal.value.timeUsed - w.l.timeBefore) * NANOS + w.s.remainder <= end - from)
  {
    var w := Exec(Start(goal, persistent), ops);
    ReachableStatesAreSound(goal, persistent, ops);
    StartKeeps(goal, persistent);
    RunFits(Start(goal, persistent), ops, from, from, end);
    if w.s.goal.Some? && w.l.spans <= DURATION_MAX {
      assert w.l.spans == w.l.spans / NANOS * NANOS + w.l.spans % NANOS;
    }
  }

  /** An active goal is timed whenever a turn is open. */
  predicate Timed(s: RuntimeState) {
    s.turnOpen && s.StatusIs(Active) ==> s.activeSince.Some?
  }

  lemma StepKeepsTimed(w: World, op: Op)
    requires Inv(w) && Legal(w, op) && Timed(w.s)
    ensures Timed(Step(w, op).s)
  {
    AccrualFrame(w.s, op);
    AccrualKeepsRuntime(w.s, op);
    CommitKeepsTimed(Accrual(w.s, op), op);
  }

  // A call that stopped the clock of an Active goal starts it again, or leaves the
  // goal otherwise.
  lemma CommitKeepsTimed(s: RuntimeState, op: Op)
    requires RuntimeOk(s) && (ReadsElapsed(s, op) || Timed(s))
    ensures Timed(Commit(s, op))
  {
  }

  lemma {:induction false} RunKeepsTimed(w: World, ops: seq<Op>)
    requires Inv(w) && LegalRun(w, ops) && Timed(w.s)
    ensures Timed(Exec(w, ops).s)
    decreases |ops|
  {
    if ops != [] {
      StepKeeps(w, ops[0]);
      StepKeepsTimed(w, ops[0]);
      RunKeepsTimed(Step(w, ops[0]), ops[1..]);
    }
  }

  /** The clock runs exactly while the ledger says that a span is being timed, since
      the reading that started it. It then runs in an open turn, on a goal that is
      Active or limited; and in an open turn an Active goal is never untimed. */
  lemma ClockRunsOnlyInTurns(goal: Option<Goal>, persistent: bool, ops: seq<Op>)
    requires Loadable(goal) && LegalRun(Start(goal, persistent), ops)
    ensures var w := Exec(Start(goal, persistent), ops);
            && w.s.activeSince == w.l.running
            && (w.l.running.Some? ==> w.s.turnOpen && (w.s.StatusIs(Active) || w.s.StatusIs(BudgetLimited)))
            && (w.s.turnOpen && w.s.StatusIs(Active) ==> w.l.running.Some?)
  {
    ReachableStatesAreSound(goal, persistent, ops);
    StartKeeps(goal, persistent);
    RunKeepsTimed(Start(goal, persistent), ops);
  }

  // What a span does to a goal, unless the sum saturates.
  lemma AccruedState(s: RuntimeState, span: Duration, total: nat, now: U64)
    requires s.goal.Some? && total == s.remainder + span <= DURATION_MAX
    ensures var goal := AccrueGoal(s.goal.value, total / NANOS, now);
            AccrueDuration(s, span, now) ==
            s.(goal := Some(goal), remainder := total % NANOS, dirty := true,
               steering := s.steering || goal.status != s.goal.value.status)
  {
  }

  /** Accruing two spans in turn leaves the state, flags and all, that accruing
      their sum once leaves, for any sum a Duration can hold. */
  lemma AccruingTwiceIsAccruingTheSum(s: RuntimeState, a: Duration, b: Duration, earlier: U64, now: U64)
    requires s.remainder + a + b <= DURATION_MAX
    ensures AccrueDuration(AccrueDuration(s, a, earlier), b, now) == AccrueDuration(s, a + b, now)
  {
    if s.goal.Some? {
      var t, mid := s.remainder + a, AccrueDuration(s, a, earlier);
      SecondsSplit(t, b);
      AccruedState(s, a, t, earlier);
      AccruedState(s, a + b, t + b, now);
      AccruedState(mid, b, t % NANOS + b, now);
      AccruingGoalTwice(s.goal.value, t / NANOS, (t % NANOS + b) / NANOS, earlier, now);
    }
  }

  lemma SecondsSplit(t: nat, b: nat)
    ensures t / NANOS + (t % NANOS + b) / NANOS == (t + b) / NANOS
    ensures (t % NANOS + b) % NANOS == (t + b) % NANOS
  {
    var n := NANOS;
    assert t == t / n * n + t % n;
  }

  lemma AccruingGoalTwice(goal: Goal, x: U64, y: U64, earlier: U64, now: U64)
    requires x + y <= U64_MAX
    ensures var once, twice := AccrueGoal(goal, x, earlier), AccrueGoal(goal, x + y, now);
            && AccrueGoal(once, y, now) == twice
            && (once.status != goal.status || twice.status != once.status <==> twice.status != goal.status)
  {
  }

  /** The call starts the clock again: it leaves the goal Active, which one that was
      limited before the call, or that the running span ends, never is. */
  predicate Restarts(s: RuntimeState, op: Op)
    requires s.goal.Some?
  {
    && s.StatusIs(Active) && SpanFits(s, ClockOf(op).0)
    && (op.Edit? || (op.SetStatus? && op.status.Active?))
  }

  function RestartOf(op: Op): Instant {
    match op
    case Edit(_, _, restart, _) => restart
    case SetStatus(_, _, restart, _) => restart
    case _ => ClockOf(op).0
  }

  /** Any call in mid-turn that reads the clock, granted or refused: edits, pauses,
      resumes, usage limits and the model's updates. The turn is charged the time
      it is charged without the call if and only if the call starts the clock again
      at the instant it stopped it, or comes at the end of the turn. So what is not
      timed is what an Active goal is stopped for, and, in a turn that limited the
      goal, everything after the first such call, a refused one included. */
  lemma CallSplitsTheTurnExactlyWhen(s: RuntimeState, op: Op, start: Instant, end: Instant, now: U64)
    requires RuntimeOk(s) && s.activeSince == Some(start) && ReadsElapsed(s, op) && !op.Finish?
    requires start <= ClockOf(op).0 <= RestartOf(op) <= end
    requires s.goal.Some? && s.goal.value.timeUsed + (s.remainder + (end - start)) / NANOS <= U64_MAX
    ensures var whole, split := FinishTurn(s, end, now), FinishTurn(Next(s, op), end, now);
            SameTime(whole, split) <==>
              (Restarts(s, op) && RestartOf(op) == ClockOf(op).0) || ClockOf(op).0 == end
  {
    ClockAfterCall(s, op);
    AccruedTime(s.(activeSince := None), ClockOf(op).0 - start, ClockOf(op).1);
    TurnSplitsExactlyWhen(s, Next(s, op), start, ClockOf(op).0, end, now);
  }

  function Running(s: RuntimeState, end: Instant): nat {
    if s.activeSince.Some? then Max(0, end - s.activeSince.value) else 0
  }

  // The time t was accrued to the goal before the rest of the turn.
  lemma FinishedTime(s: RuntimeState, used: nat, t: nat, end: Instant, now: U64)
    requires s.goal.Some? && TimeUsed(s) == used + t / NANOS && s.remainder == t % NANOS
    requires used + (t + Running(s, end)) / NANOS <= U64_MAX && t + Running(s, end) <= DURATION_MAX
    ensures var v := FinishTurn(s, end, now);
            && TimeUsed(v) == used + (t + Running(s, end)) / NANOS
            && v.remainder == (t + Running(s, end)) % NANOS
  {
    if s.activeSince.Some? {
      AccruedAgain(s, s.(activeSince := None), used, t, Running(s, end), now);
    }
  }

  // The rest of a turn, on a goal that was charged up to one reading.
  lemma TurnSplitsExactlyWhen(s: RuntimeState, v: RuntimeState, start: Instant, clock: Instant, end: Instant, now: U64)
    requires s.goal.Some? && s.activeSince == Some(start) && start <= clock <= end && s.remainder < NANOS
    requires s.goal.value.timeUsed + (s.remainder + (end - start)) / NANOS <= U64_MAX
    requires v.goal.Some? && (v.activeSince.Some? ==> clock <= v.activeSince.value <= end)
    requires TimeUsed(v) == s.goal.value.timeUsed + (s.remainder + (clock - start)) / NANOS
    requires v.remainder == (s.remainder + (clock - start)) % NANOS
    ensures SameTime(FinishTurn(s, end, now), FinishTurn(v, end, now)) <==>
            if v.activeSince.Some? then v.activeSince.value == clock else clock == end
  {
    var used, t := s.goal.value.timeUsed, s.remainder + (clock - start);
    var rest := Running(v, end);
    FinishedTime(s, used, s.remainder, end, now);
    FinishedTime(v, used, t, end, now);
    TimeTellsSpans(used, t + rest, end - clock - rest);
  }

  predicate SameTime(a: RuntimeState, b: RuntimeState) {
    TimeUsed(a) == TimeUsed(b) && a.remainder == b.remainder
  }

  function TimeUsed(s: RuntimeState): U64 {
    if s.goal.Some? then s.goal.value.timeUsed else 0
  }

  // A call leaves the time as it accrued it, and the clock running only so.
  lemma ClockAfterCall(s: RuntimeState, op: Op)
    requires RuntimeOk(s) && s.activeSince.Some? && s.goal.Some? && ReadsElapsed(s, op) && !op.Finish?
    ensures var t := Next(s, op);
            && t.goal.Some? && SameTime(t, Accrual(s, op))
            && t.activeSince == if Restarts(s, op) then Some(RestartOf(op)) else None
  {
    if s.StatusIs(Active) {
      SpanFitsExactlyWhenNotLimited(s, ClockOf(op).0, ClockOf(op).1);
    }
  }

  lemma AccruedTime(s: RuntimeState, span: nat, now: U64)
    requires s.goal.Some? && s.remainder + span <= DURATION_MAX
    requires s.goal.value.timeUsed + (s.remainder + span) / NANOS <= U64_MAX
    ensures var t := AccrueDuration(s, span, now);
            && TimeUsed(t) == s.goal.value.timeUsed + (s.remainder + span) / NANOS
            && t.remainder == (s.remainder + span) % NANOS
  {
  }

  // A span on top of the time t that was accrued to a goal before.
  lemma AccruedAgain(s: RuntimeState, mid: RuntimeState, used: nat, t: nat, span: nat, now: U64)
    requires mid.goal.Some? && TimeUsed(mid) == used + t / NANOS && mid.remainder == t % NANOS
    requires used + (t + span) / NANOS <= U64_MAX && t + span <= DURATION_MAX
    ensures var v := AccrueDuration(mid, span, now);
            TimeUsed(v) == used + (t + span) / NANOS && v.remainder == (t + span) % NANOS
  {
    SecondsSplit(t, span);
    AccruedTime(mid, span, now);
  }

  /** Editing a goal in mid-turn leaves everything as not editing it, but for the
      objective, if and only if the goal is Active and the span running at the edit
      fits in the time left, or the edit comes at the very end. */
  lemma EditSplitsTheTurnExactlyWhen(s: RuntimeState, start: Instant, objective: string, edit: Instant, end: Instant, now: U64)
    requires RuntimeOk(s) && s.persistent && s.activeSince == Some(start)
    requires start <= edit <= end
    requires s.goal.value.timeUsed + (s.remainder + (end - start)) / NANOS <= U64_MAX
    ensures var whole := FinishTurn(s, end, now);
            var split := FinishTurn(EditExternal(s, Ok(objective), edit, edit, now), end, now);
            && (split == whole.(goal := Some(whole.goal.value.(objective := objective))) <==>
                  (s.StatusIs(Active) && SpanFits(s, edit)) || edit == end)
            && (SameTime(split, whole) <==> (s.StatusIs(Active) && SpanFits(s, edit)) || edit == end)
  {
    if s.StatusIs(Active) {
      SpanFitsExactlyWhenNotLimited(s, edit, now);
    }
    EditSplits(s, start, objective, edit, end, now);
  }

  // The running span ends an Active goal exactly when it does not fit.
  lemma SpanFitsExactlyWhenNotLimited(s: RuntimeState, clock: Instant, now: U64)
    requires s.StatusIs(Active) && s.activeSince.Some?
    ensures AccrueElapsed(s, clock, now).StatusIs(BudgetLimited) <==> !SpanFits(s, clock)
  {
    var goal := s.goal.value;
    if goal.timeBudget.Some? {
      var span := s.remainder + Max(0, clock - s.activeSince.value);
      SpanWithinSeconds(span, goal.timeUsed, goal.timeBudget.value);
      SaturatedSpan(s.remainder, Max(0, clock - s.activeSince.value));
    }
  }

  lemma EditSplits(s: RuntimeState, start: Instant, objective: string, edit: Instant, end: Instant, now: U64)
    requires RuntimeOk(s) && s.persistent && s.activeSince == Some(start)
    requires start <= edit <= end
    requires s.goal.value.timeUsed + (s.remainder + (end - start)) / NANOS <= U64_MAX
    ensures var whole := FinishTurn(s, end, now);
            var split := FinishTurn(EditExternal(s, Ok(objective), edit, edit, now), end, now);
            var limited := AccrueElapsed(s, edit, now).StatusIs(BudgetLimited);
            && (split == whole.(goal := Some(whole.goal.value.(objective := objective))) <==> !limited || edit == end)
            && (split.goal.value.timeUsed == whole.goal.value.timeUsed && split.remainder == whole.remainder <==>
                  !limited || edit == end)
  {
    var m, e := edit - start, end - edit;
    var quiet := s.(activeSince := None);
    assert s.remainder + m + e <= DURATION_MAX;
    assert AccrueElapsed(s, edit, now) == AccrueDuration(quiet, m, now);
    assert AccrueElapsed(s, end, now) == AccrueDuration(quiet, m + e, now);
    AccruingTwiceIsAccruingTheSum(quiet, m, e, now, now);
    if AccrueElapsed(s, edit, now).StatusIs(BudgetLimited) {
      EditStops(s, start, objective, edit, end, now);
    } else {
      EditGoesOn(s, AccrueElapsed(s, edit, now), objective, edit, end, now);
    }
  }

  // On a limited goal the edit leaves the clock stopped.
  lemma EditStops(s: RuntimeState, start: Instant, objective: string, edit: Instant, end: Instant, now: U64)
    requires RuntimeOk(s) && s.persistent && s.activeSince == Some(start) && start <= edit <= end
    requires s.goal.value.timeUsed + (s.remainder + (end - start)) / NANOS <= U64_MAX
    requires AccrueElapsed(s, edit, now).StatusIs(BudgetLimited)
    ensures var whole := FinishTurn(s, end, now);
            var split := FinishTurn(EditExternal(s, Ok(objective), edit, edit, now), end, now);
            && (split == whole.(goal := Some(whole.goal.value.(objective := objective))) <==> edit == end)
            && (split.goal.value.timeUsed == whole.goal.value.timeUsed && split.remainder == whole.remainder <==> edit == end)
  {
    var mid := AccrueElapsed(s, edit, now);
    var edited := mid.(goal := Some(mid.goal.value.(objective := objective, updatedAt := now)), dirty := true);
    assert mid.goal.value.Reached();
    assert EditExternal(s, Ok(objective), edit, edit, now) == edited;
    AccruedTime(s.(activeSince := None), edit - start, now);
    TurnSplitsExactlyWhen(s, edited, start, edit, end, now);
  }

  lemma EditGoesOn(s: RuntimeState, mid: RuntimeState, objective: string, edit: Instant, end: Instant, now: U64)
    requires RuntimeOk(s) && s.persistent && s.activeSince.Some? && edit <= end
    requires mid == AccrueElapsed(s, edit, now) && mid.goal.Some? && !mid.StatusIs(BudgetLimited)
    requires AccrueElapsed(s, end, now) == AccrueDuration(mid, Elapsed(edit, end), now)
    ensures var whole := FinishTurn(s, end, now);
            var split := FinishTurn(EditExternal(s, Ok(objective), edit, edit, now), end, now);
            split == whole.(goal := Some(whole.goal.value.(objective := objective)))
  {
    var edited := EditExternal(s, Ok(objective), edit, edit, now);
    assert edited == mid.(goal := Some(mid.goal.value.(objective := objective)),
                          associated := Some(mid.goal.value.id), activeSince := Some(edit), dirty := true);
    AccrueIgnoresObjective(mid, edited.(activeSince := None), Elapsed(edit, end), now);
  }

  /** The failing case is reachable: the edit comes when the one second of the
      time budget is up, and of the three seconds of the turn only one is charged. */
  lemma EditMayLoseTime(goal: Goal)
    requires Fresh(goal) && goal.tokenBudget.None? && goal.timeBudget == Some(1)
    ensures var start := Start(Some(goal), true);
            var whole := [Begin(0), Finish(3 * NANOS, 0)];
            var split := [Begin(0), Edit(Ok("again"), NANOS, NANOS, 0), Finish(3 * NANOS, 0)];
            && LegalRun(start, whole) && LegalRun(start, split)
            && TimeUsed(Exec(start, whole).s) == 3
            && TimeUsed(Exec(start, split).s) == 1
  {
    var w0 := Start(Some(goal), true);
    var a, b, c := Begin(0), Edit(Ok("again"), NANOS, NANOS, 0), Finish(3 * NANOS, 0);
    var w1 := Step(w0, a);
    assert w1.s == w0.s.(turnOpen := true, associated := Some(goal.id), activeSince := Some(0));
    Front(w0, a, [b, c]);
    Front(w0, a, [c]);
    Front(w1, b, [c]);
    Front(w1, c, []);
    Front(Step(w1, b), c, []);
    assert [a] + [c] == [a, c] && [a] + [b, c] == [a, b, c] && [b] + [c] == [b, c] && [c] + [] == [c];
    assert Accrual(w1.s, b).goal == Some(goal.(timeUsed := 1, status := BudgetLimited, updatedAt := 0));
    assert Step(w1, b).s.activeSince.None? && TimeUsed(Step(w1, b).s) == 1;
    assert TimeUsed(Step(w1, c).s) == 3;
  }

  /** And so it is for a goal that its tokens limit in mid-turn: its clock runs on,
      until an edit or a refused pause stops it for good. Of three seconds only the
      first is charged. */
  lemma LimitedGoalsMayLoseTime(goal: Goal, usage: Usage)
    requires Fresh(goal) && goal.timeBudget.None? && goal.tokenBudget == Some(10) && usage == Usage(10, 0, 0)
    ensures var start := Start(Some(goal), true);
            var a, b, end := Begin(0), Account(usage, 0), Finish(3 * NANOS, 0);
            var edit, pause := Edit(Ok("again"), NANOS, NANOS, 0), SetStatus(Paused, NANOS, NANOS, 0);
            && LegalRun(start, [a, b, edit, end]) && TimeUsed(Exec(start, [a, b, edit, end]).s) == 1
            && LegalRun(start, [a, b, pause, end]) && TimeUsed(Exec(start, [a, b, pause, end]).s) == 1
            && LegalRun(start, [a, b, end]) && TimeUsed(Exec(start, [a, b, end]).s) == 3
  {
    var w0 := Start(Some(goal), true);
    var a, b, end := Begin(0), Account(usage, 0), Finish(3 * NANOS, 0);
    var edit, pause := Edit(Ok("again"), NANOS, NANOS, 0), SetStatus(Paused, NANOS, NANOS, 0);
    var w2 := Step(Step(w0, a), b);
    LimitedByTokens(goal, usage);
    FourSteps(w0, a, b, edit, end);
    FourSteps(w0, a, b, pause, end);
    Front(w0, a, [b, end]);
    Front(Step(w0, a), b, [end]);
    Front(w2, end, []);
    assert [a] + [b, end] == [a, b, end] && [b] + [end] == [b, end] && [end] + [] == [end];
    StopsAtOneSecond(w2, edit);
    StopsAtOneSecond(w2, pause);
    RunsToTheEnd(w2);
  }

  predicate LimitedAtZero(s: RuntimeState) {
    && s.StatusIs(BudgetLimited) && s.goal.value.TokensReached() && s.activeSince == Some(0) && s.persistent
    && s.goal.value.timeUsed == 0 && s.remainder == 0 && s.goal.value.timeBudget.None?
  }

  lemma LimitedByTokens(goal: Goal, usage: Usage)
    requires Fresh(goal) && goal.timeBudget.None? && goal.tokenBudget == Some(10) && usage == Usage(10, 0, 0)
    ensures var start := Start(Some(goal), true);
            && Legal(start, Begin(0)) && Legal(Step(start, Begin(0)), Account(usage, 0))
            && LimitedAtZero(Step(Step(start, Begin(0)), Account(usage, 0)).s)
  {
    var w0 := Start(Some(goal), true);
    var w1 := Step(w0, Begin(0));
    assert w1.s == w0.s.(turnOpen := true, associated := Some(goal.id), activeSince := Some(0));
  }

  lemma RunsToTheEnd(w: World)
    requires LimitedAtZero(w.s)
    ensures Legal(w, Finish(3 * NANOS, 0)) && TimeUsed(Step(w, Finish(3 * NANOS, 0)).s) == 3
  {
  }

  lemma StopsAtOneSecond(w: World, op: Op)
    requires LimitedAtZero(w.s)
    requires op == Edit(Ok("again"), NANOS, NANOS, 0) || op == SetStatus(Paused, NANOS, NANOS, 0)
    ensures Legal(w, op) && Legal(Step(w, op), Finish(3 * NANOS, 0))
    ensures TimeUsed(Step(Step(w, op), Finish(3 * NANOS, 0)).s) == 1
  {
    var v := Step(w, op);
    assert v.s.activeSince.None? && TimeUsed(v.s) == 1;
  }

  lemma TimeTellsSpans(used: nat, t: nat, e: nat)
    ensures used + t / NANOS == used + (t + e) / NANOS && t % NANOS == (t + e) % NANOS <==> e == 0
  {
    var n := NANOS;
    assert t == t / n * n + t % n && t + e == (t + e) / n * n + (t + e) % n;
  }

  lemma AccrueIgnoresObjective(s: RuntimeState, r: RuntimeState, e: Duration, now: U64)
    requires s.goal.Some? && r.goal.Some?
    requires r == s.(goal := Some(s.goal.value.(objective := r.goal.value.objective)),
                     associated := r.associated, activeSince := r.activeSince, dirty := r.dirty)
    ensures AccrueDuration(r, e, now) ==
            var t := AccrueDuration(s, e, now);
            t.(goal := Some(t.goal.value.(objective := r.goal.value.objective)),
               associated := r.associated, activeSince := r.activeSince)
  {
  }

  // ---- Persistence

  lemma PersistSaves(w: World)
    requires DurableOk(w)
    ensures Step(w, Persist(true)) == World(w.s.(dirty := false), w.l.(durable := w.s.goal))
    ensures Step(w, Persist(false)) == w
  {
  }

  /** Whenever nothing is waiting to be saved, the saved copy is the goal in
      memory, after failing calls included; and a save that succeeds makes it so. */
  lemma CleanMeansDurable(goal: Option<Goal>, persistent: bool, ops: seq<Op>)
    requires Loadable(goal) && LegalRun(Start(goal, persistent), ops)
    ensures var w := Exec(Start(goal, persistent), ops);
            && (!w.s.dirty ==> w.l.durable == w.s.goal)
            && Step(w, Persist(true)).l.durable == w.s.goal
            && Step(w, Persist(true)).s == w.s.(dirty := false)
            && Step(w, Persist(false)) == w
  {
    ReachableStatesAreSound(goal, persistent, ops);
    PersistSaves(Exec(Start(goal, persistent), ops));
  }

  // ---- One session after another

  lemma StepKeepsLoadable(w: World, op: Op)
    requires Inv(w) && Loadable(w.l.durable)
    ensures Loadable(Step(w, op).l.durable)
  {
    AccrualKeepsRuntime(w.s, op);
    CommitKeepsLoadable(AccrueStep(w, op), op);
  }

  lemma CommitKeepsLoadable(w: World, op: Op)
    requires RuntimeOk(w.s) && Loadable(w.l.durable)
    ensures Loadable(CommitStep(w, op).l.durable)
  {
  }

  lemma {:induction false} RunKeepsLoadable(w: World, ops: seq<Op>)
    requires Inv(w) && LegalRun(w, ops) && Loadable(w.l.durable)
    ensures Loadable(Exec(w, ops).l.durable)
    decreases |ops|
  {
    if ops != [] {
      StepKeeps(w, ops[0]);
      StepKeepsLoadable(w, ops[0]);
      RunKeepsLoadable(Step(w, ops[0]), ops[1..]);
    }
  }

  datatype Session = Session(persistent: bool, ops: seq<Op>)

  /** What the session file holds after sessions that each load what the one
      before left in it, however each of them ends. */
  function SavedAfter(goal: Option<Goal>, sessions: seq<Session>): Option<Goal>
    decreases |sessions|
  {
    if sessions == [] then goal
    else SavedAfter(Exec(Start(goal, sessions[0].persistent), sessions[0].ops).l.durable, sessions[1..])
  }

  predicate LegalSessions(goal: Option<Goal>, sessions: seq<Session>)
    decreases |sessions|
  {
    sessions != [] ==>
      var start := Start(goal, sessions[0].persistent);
      LegalRun(start, sessions[0].ops) && LegalSessions(Exec(start, sessions[0].ops).l.durable, sessions[1..])
  }

  /** What a run may start from is what runs leave: no session ever writes a limited
      goal that has not spent a budget, so sessions join up without end. */
  lemma {:induction false} SessionsJoinUp(goal: Option<Goal>, sessions: seq<Session>)
    requires Loadable(goal) && LegalSessions(goal, sessions)
    ensures Loadable(SavedAfter(goal, sessions))
    decreases |sessions|
  {
    if sessions != [] {
      var start := Start(goal, sessions[0].persistent);
      StartKeeps(goal, sessions[0].persistent);
      RunKeepsLoadable(start, sessions[0].ops);
      SessionsJoinUp(Exec(start, sessions[0].ops).l.durable, sessions[1..]);
    }
  }
}
