/** What saves do to the settings that projects start from: one save, then any
    sequence of saves made in any projects. */
module SettingsRuns {
  import opened Prelude
  import opened Json
  import opened SettingsFile
  import opened Settings
  import opened SettingsSave

  // ---- Files and their settings

  lemma ReadsAsEmpty()
    ensures Parse(map[]) == Ok(NO_SETTINGS)
  {
  }

  // A file's settings; a file that is missing or cannot be read has none.
  function SettingsOf(file: File): Settings {
    match ReadOptional(file)
    case Ok(Some(settings)) => settings
    case _ => NO_SETTINGS
  }

  // The object a save changes; a file that no save can change has none.
  function ObjectOf(file: File): Object {
    match ReadObject(file)
    case Ok(obj) => obj
    case Err(_) => map[]
  }

  // What a file reads as is what its object parses as, if it is one.
  lemma FileReadsAsObject(file: File)
    ensures ReadOptional(file).Ok? && ReadObject(file).Ok? ==> Parse(ObjectOf(file)) == Ok(SettingsOf(file))
  {
    ReadsAsEmpty();
  }

  lemma PassingUnfolds(global: File, project: File)
    ensures Passing(global, project) <==>
              && ReadOptional(global).Ok? && ReadOptional(project).Ok?
              && CompactionTrigger(Merge(SettingsOf(global), SettingsOf(project))).Ok?
  {
  }

  /** What a harness starts with: of each key of the check, what the project's file
      sets, else what the user's file sets, else the documented default. */
  lemma LoadedTriggersAreDecided(global: File, project: File)
    requires Passing(global, project)
    ensures var t, g, q := CompactionTrigger(Load(global, project).value).value, SettingsOf(global), SettingsOf(project);
            var u, p, ul, pl := BlockOf(g), BlockOf(q), LadderOf(g), LadderOf(q);
            && t.enabled == Decided(p.enabled, u.enabled, true)
            && t.reactive == Decided(p.reactive, u.reactive, true)
            && t.keepRecentTokens == Decided(p.keepRecentTokens, u.keepRecentTokens, 8_000)
            && t.hardWaitMs == Decided(p.hardWaitMs, u.hardWaitMs, 120_000)
            && t.maxConsecutiveFailures == Decided(p.maxConsecutiveFailures, u.maxConsecutiveFailures, 3)
            && t.warn == Decided(pl.warn, ul.warn, 0.60)
            && t.start == Decided(pl.start, ul.start, 0.72)
            && t.hard == Decided(pl.hard, ul.hard, 0.90)
            && Load(global, project).value.contextTokenBudget ==
               (if q.contextTokenBudget.Some? then q else g).contextTokenBudget
  {
    LoadIsTheMerge(global, project);
    TriggerFieldsAreDecided(SettingsOf(global), SettingsOf(project));
    MergedSettingsAreDecided(SettingsOf(global), SettingsOf(project));
  }

  lemma LoadIsTheMerge(global: File, project: File)
    requires Load(global, project).Ok?
    ensures Load(global, project).value == Merge(SettingsOf(global), SettingsOf(project))
  {
  }

  // ---- One save

  /** The check of a candidate is the load the harness will make of it: it finds
      nothing exactly when the new file and the project pass together. */
  lemma CheckIsTheLoad(candidate: Object, project: File)
    ensures CheckMerged(candidate, project).None? <==> Passing(Doc(Obj(candidate)), project)
  {
    if Parse(candidate).Ok? && ReadOptional(project) == Ok(None) {
      EmptyProjectIsNoProject(Parse(candidate).value);
    }
  }

  /** There is something to write, it passes together with the project where the
      save is checked, and the file can be replaced. */
  predicate GoesThrough(global: File, project: File, save: Save, renamed: bool) {
    && renamed
    && Candidate(global, save).Ok?
    && (IsChecked(save) ==> Passing(Doc(Obj(Candidate(global, save).value)), project))
  }

  /** A save succeeds exactly when it goes through, and then writes its candidate,
      even over a file that did not pass; a save that fails leaves the file as it
      was. */
  lemma SaveSucceedsExactlyWhen(global: File, project: File, save: Save, renamed: bool)
    ensures var (after, error) := RunSave(global, project, save, renamed);
            && (error.None? <==> GoesThrough(global, project, save, renamed))
            && after == if error.None? then Doc(Obj(Candidate(global, save).value)) else global
  {
    if Candidate(global, save).Ok? {
      CheckIsTheLoad(Candidate(global, save).value, project);
    }
  }

  /** A save whose result would not pass is refused, but for a save of the budget, of
      the provider mode or of the worker input, which is not checked. */
  lemma FailingResultsAreRefusedExactlyWhen(global: File, project: File, save: Save)
    requires Candidate(global, save).Ok? && !Passing(Doc(Obj(Candidate(global, save).value)), project)
    ensures RunSave(global, project, save, true).1.Some? <==>
              save.Enabled? || save.Reactive? || save.KeepRecentTokens? || save.HardWait? || save.Threshold?
  {
    SaveSucceedsExactlyWhen(global, project, save, true);
  }

  // A save that goes through turns a readable file's settings into these.
  lemma SettingsAfterSave(global: File, here: File, save: Save, renamed: bool)
    requires ReadOptional(global).Ok? && GoesThrough(global, here, save, renamed)
    ensures var after := RunSave(global, here, save, renamed).0;
            && Write(save).Ok? && SettingsTyped(ObjectOf(global)) && ReadSettings(ObjectOf(global)) == SettingsOf(global)
            && ReadOptional(after) == Ok(Some(WithSave(Opened(ObjectOf(global), save), save)))
            && after == Doc(Obj(ObjectOf(after)))
            && ObjectOf(after) == UpdateNested(ObjectOf(global), Write(save).value.0, [Write(save).value.1])
  {
    SaveSucceedsExactlyWhen(global, here, save, renamed);
    FileReadsAsObject(global);
    SaveReadsBack(ObjectOf(global), save);
  }

  // ---- When a save fits a project

  predicate SetsRung(project: Settings, rung: Rung) {
    var t := Default(Default(project.compaction, NO_COMPACTION).thresholds, NO_THRESHOLDS);
    match rung case Warn => t.warn.Some? case Start => t.start.Some? case Hard => t.hard.Some?
  }

  /** The save sets a rung that the project leaves to the user. */
  predicate Moves(project: Settings, save: Save) {
    save.Threshold? && save.fraction.Finite? && !SetsRung(project, save.rung)
  }

  /** The value lies strictly between the rungs next to it. */
  predicate LiesBetween(t: Trigger, rung: Rung, value: real) {
    match rung
    case Warn => 0.0 < value < t.start
    case Start => t.warn < value < t.hard
    case Hard => t.start < value < 1.0
  }

  predicate InOrder(t: Trigger) {
    0.0 < t.warn < t.start < t.hard < 1.0
  }

  predicate OthersInOrder(t: Trigger, rung: Rung) {
    match rung
    case Warn => t.start < t.hard < 1.0
    case Start => 0.0 < t.warn && t.hard < 1.0
    case Hard => 0.0 < t.warn < t.start
  }

  /** An array with thresholds in it stands on the save's path. */
  predicate EmptiesLadder(obj: Object, save: Save) {
    && !save.ContextTokenBudget?
    && (IsArray(obj, "compaction") || (save.Threshold? && IsArray(Child(obj, "compaction"), "thresholds")))
  }

  /** A save fits a project unless it moves a rung that the project leaves to the
      user past one of the rungs the project then has next to it, or it empties
      an array and the rungs the project then has are out of order. */
  predicate FitsProject(obj: Object, project: Settings, save: Save) {
    var t := ResolveTrigger(Merge(Opened(obj, save), project));
    var moves := Moves(project, save);
    && (moves ==> LiesBetween(t, save.rung, save.fraction.value))
    && (EmptiesLadder(obj, save) ==> if moves then OthersInOrder(t, save.rung) else InOrder(t))
  }

  function MoveRung(t: Trigger, rung: Rung, value: real): Trigger {
    match rung
    case Warn => t.(warn := value)
    case Start => t.(start := value)
    case Hard => t.(hard := value)
  }

  /** Everything the check asks for beside the ladder. */
  predicate SoundBeside(s: Settings) {
    var t := ResolveTrigger(s);
    && t.keepRecentTokens > 0 && t.maxConsecutiveFailures > 0 && t.hardWaitMs <= MAX_HARD_WAIT_MS
    && (s.contextTokenBudget.Some? ==> s.contextTokenBudget.value >= SUMMARY_RESERVE)
  }

  lemma AcceptedExactlyWhen(s: Settings)
    ensures CompactionTrigger(s).Ok? <==> InOrder(ResolveTrigger(s)) && SoundBeside(s)
  {
  }

  lemma ThresholdSaveMovesARung(base: Settings, q: Settings, save: Save)
    requires save.Threshold? && Write(save).Ok?
    ensures var s, t := Merge(WithSave(base, save), q), ResolveTrigger(Merge(base, q));
            && ResolveTrigger(s) == (if SetsRung(q, save.rung) then t else MoveRung(t, save.rung, save.fraction.value))
            && (SoundBeside(s) <==> SoundBeside(Merge(base, q)))
  {
  }

  lemma OtherSavesKeepTheLadder(base: Settings, q: Settings, save: Save)
    requires !save.Threshold? && Write(save).Ok? && SoundBeside(Merge(base, q))
    ensures var s := Merge(WithSave(base, save), q);
            && SoundBeside(s)
            && (InOrder(ResolveTrigger(s)) <==> InOrder(ResolveTrigger(Merge(base, q))))
  {
  }

  lemma LeftOutIsSoundBeside(s: Settings, q: Settings)
    requires SoundBeside(Merge(s, q))
    ensures SoundBeside(Merge(s.(compaction := None), q))
    ensures var c := Default(s.compaction, NO_COMPACTION);
            && SoundBeside(Merge(s.(compaction := Some(c.(thresholds := None))), q))
            && SoundBeside(Merge(s.(compaction := Some(c.(worker := None))), q))
            && ResolveTrigger(Merge(s.(compaction := Some(c.(worker := None))), q)) == ResolveTrigger(Merge(s, q))
  {
  }

  // What an array leaves out is only missed by the ladder.
  lemma OpenedIsSoundBeside(obj: Object, q: Settings, save: Save)
    requires SoundBeside(Merge(ReadSettings(obj), q))
    ensures SoundBeside(Merge(Opened(obj, save), q))
    ensures !EmptiesLadder(obj, save) ==>
              ResolveTrigger(Merge(Opened(obj, save), q)) == ResolveTrigger(Merge(ReadSettings(obj), q))
  {
    LeftOutIsSoundBeside(ReadSettings(obj), q);
  }

  // The merged settings before the save, as the save finds them, and after it.
  lemma LadderFitsExactlyWhenItPasses(before: Settings, base: Settings, after: Settings,
                                      moves: bool, rung: Rung, value: real, emptied: bool)
    requires CompactionTrigger(before).Ok? && SoundBeside(after)
    requires !emptied ==> ResolveTrigger(base) == ResolveTrigger(before)
    requires moves ==> ResolveTrigger(after) == MoveRung(ResolveTrigger(base), rung, value)
    requires !moves ==> (InOrder(ResolveTrigger(after)) <==> InOrder(ResolveTrigger(base)))
    ensures CompactionTrigger(after).Ok? <==>
            var t := ResolveTrigger(base);
            && (moves ==> LiesBetween(t, rung, value))
            && (emptied ==> if moves then OthersInOrder(t, rung) else InOrder(t))
  {
    AcceptedExactlyWhen(before);
    AcceptedExactlyWhen(after);
  }

  lemma SaveMovesTheLadder(base: Settings, q: Settings, save: Save)
    requires Write(save).Ok? && SoundBeside(Merge(base, q))
    ensures var s, t := Merge(WithSave(base, save), q), ResolveTrigger(Merge(base, q));
            && SoundBeside(s)
            && if Moves(q, save) then ResolveTrigger(s) == MoveRung(t, save.rung, save.fraction.value)
               else InOrder(ResolveTrigger(s)) <==> InOrder(t)
  {
    if save.Threshold? {
      ThresholdSaveMovesARung(base, q, save);
    } else {
      OtherSavesKeepTheLadder(base, q, save);
    }
  }

  lemma SaveFitsExactlyWhenItPasses(obj: Object, q: Settings, save: Save)
    requires Write(save).Ok? && CompactionTrigger(Merge(ReadSettings(obj), q)).Ok?
    ensures CompactionTrigger(Merge(WithSave(Opened(obj, save), save), q)).Ok? <==> FitsProject(obj, q, save)
  {
    AcceptedExactlyWhen(Merge(ReadSettings(obj), q));
    OpenedIsSoundBeside(obj, q, save);
    SaveFitsFrom(obj, Opened(obj, save), q, save);
  }

  lemma SaveFitsFrom(obj: Object, base: Settings, q: Settings, save: Save)
    requires Write(save).Ok? && CompactionTrigger(Merge(ReadSettings(obj), q)).Ok? && base == Opened(obj, save)
    requires SoundBeside(Merge(base, q))
    requires !EmptiesLadder(obj, save) ==> ResolveTrigger(Merge(base, q)) == ResolveTrigger(Merge(ReadSettings(obj), q))
    ensures CompactionTrigger(Merge(WithSave(base, save), q)).Ok? <==> FitsProject(obj, q, save)
  {
    SaveMovesTheLadder(base, q, save);
    var moves := Moves(q, save);
    LadderFitsExactlyWhenItPasses(Merge(ReadSettings(obj), q), Merge(base, q), Merge(WithSave(base, save), q), moves,
                                  if moves then save.rung else Warn, if moves then save.fraction.value else 0.0,
                                  EmptiesLadder(obj, save));
  }

  /** A save made in one project keeps the settings of another project that passed
      passing if and only if it does not go through, or fits that project. */
  lemma ProjectsKeepPassingExactlyWhen(global: File, here: File, there: File, save: Save, renamed: bool)
    requires Passing(global, there)
    ensures Passing(RunSave(global, here, save, renamed).0, there) <==>
            !GoesThrough(global, here, save, renamed) || FitsProject(ObjectOf(global), SettingsOf(there), save)
  {
    SaveSucceedsExactlyWhen(global, here, save, renamed);
    if GoesThrough(global, here, save, renamed) {
      PassingUnfolds(global, there);
      SettingsAfterSave(global, here, save, renamed);
      PassingUnfolds(RunSave(global, here, save, renamed).0, there);
      SaveFitsExactlyWhenItPasses(ObjectOf(global), SettingsOf(there), save);
    }
  }

  /** A save that its own project cannot be spoiled by: it is checked, or saves the
      budget, or finds no array in the place of the compaction block, or the
      project passes without the user's block. */
  predicate Harmless(global: File, project: File, save: Save) {
    || IsChecked(save)
    || save.ContextTokenBudget?
    || !IsArray(ObjectOf(global), "compaction")
    || CompactionTrigger(Merge(SettingsOf(global).(compaction := None), SettingsOf(project))).Ok?
  }

  // What an unchecked save writes does not matter to the check.
  lemma UncheckedFitsExactlyWhen(obj: Object, q: Settings, save: Save)
    requires !IsChecked(save) && CompactionTrigger(Merge(ReadSettings(obj), q)).Ok?
    ensures FitsProject(obj, q, save) <==>
              || save.ContextTokenBudget? || !IsArray(obj, "compaction")
              || CompactionTrigger(Merge(ReadSettings(obj).(compaction := None), q)).Ok?
  {
  }

  /** A save keeps its own project passing if and only if it does not go through or
      is harmless. */
  lemma SaveKeepsPassingExactlyWhen(global: File, project: File, save: Save, renamed: bool)
    requires Passing(global, project)
    ensures Passing(RunSave(global, project, save, renamed).0, project) <==>
            !GoesThrough(global, project, save, renamed) || Harmless(global, project, save)
  {
    SaveSucceedsExactlyWhen(global, project, save, renamed);
    if GoesThrough(global, project, save, renamed) && !IsChecked(save) {
      ProjectsKeepPassingExactlyWhen(global, project, project, save, renamed);
      PassingUnfolds(global, project);
      SettingsAfterSave(global, project, save, renamed);
      UncheckedFitsExactlyWhen(ObjectOf(global), SettingsOf(project), save);
    }
  }

  // ---- Any number of saves

  datatype Attempt = Attempt(here: File, save: Save, renamed: bool)

  function RunSaves(global: File, attempts: seq<Attempt>): File {
    if attempts == [] then global
    else
      var last := attempts[|attempts| - 1];
      RunSave(RunSaves(global, attempts[..|attempts| - 1]), last.here, last.save, last.renamed).0
  }

  predicate Through(global: File, x: Attempt) {
    GoesThrough(global, x.here, x.save, x.renamed)
  }

  predicate PassesAfter(global: File, there: File, attempts: seq<Attempt>, n: nat)
    requires n <= |attempts|
  {
    Passing(RunSaves(global, attempts[..n]), there)
  }

  predicate FitsAt(global: File, there: File, attempts: seq<Attempt>, n: nat)
    requires n < |attempts|
  {
    var before := RunSaves(global, attempts[..n]);
    Through(before, attempts[n]) ==> FitsProject(ObjectOf(before), SettingsOf(there), attempts[n].save)
  }

  predicate HarmlessAt(global: File, project: File, attempts: seq<Attempt>, n: nat)
    requires n < |attempts|
  {
    var before := RunSaves(global, attempts[..n]);
    Through(before, attempts[n]) ==> Harmless(before, project, attempts[n].save)
  }

  lemma OneMore(global: File, attempts: seq<Attempt>, n: nat)
    requires n < |attempts|
    ensures var x := attempts[n];
            RunSaves(global, attempts[..n + 1]) == RunSave(RunSaves(global, attempts[..n]), x.here, x.save, x.renamed).0
  {
    assert attempts[..n + 1][..n] == attempts[..n];
  }

  lemma OneMoreFits(global: File, there: File, attempts: seq<Attempt>, n: nat)
    requires n < |attempts| && PassesAfter(global, there, attempts, n)
    ensures PassesAfter(global, there, attempts, n + 1) <==> FitsAt(global, there, attempts, n)
  {
    var x := attempts[n];
    OneMore(global, attempts, n);
    ProjectsKeepPassingExactlyWhen(RunSaves(global, attempts[..n]), x.here, there, x.save, x.renamed);
  }

  lemma OneMoreIsHarmless(global: File, project: File, attempts: seq<Attempt>, n: nat)
    requires n < |attempts| && attempts[n].here == project && PassesAfter(global, project, attempts, n)
    ensures PassesAfter(global, project, attempts, n + 1) <==> HarmlessAt(global, project, attempts, n)
  {
    var x := attempts[n];
    OneMore(global, attempts, n);
    SaveKeepsPassingExactlyWhen(RunSaves(global, attempts[..n]), project, x.save, x.renamed);
  }

  // If each link holds on exactly when its condition does, then all hold exactly
  // when all conditions do.
  lemma {:induction false} Chain(holds: seq<bool>, conditions: seq<bool>, n: nat)
    requires n <= |conditions| && |holds| == |conditions| + 1 && holds[0]
    requires forall k :: 0 <= k < |conditions| && holds[k] ==> (holds[k + 1] <==> conditions[k])
    ensures (forall k :: 0 <= k <= n ==> holds[k]) <==> (forall k :: 0 <= k < n ==> conditions[k])
  {
    if n > 0 {
      Chain(holds, conditions, n - 1);
      assert holds[n - 1] ==> (holds[n - 1 + 1] <==> conditions[n - 1]);
      assert (forall k :: 0 <= k <= n ==> holds[k]) <==> (forall k :: 0 <= k <= n - 1 ==> holds[k]) && holds[n];
      assert (forall k :: 0 <= k < n ==> conditions[k]) <==>
             (forall k :: 0 <= k < n - 1 ==> conditions[k]) && conditions[n - 1];
    }
  }

  /** Over any sequence of saves made in any projects, a project passes after each
      of them if and only if each that goes through fits the project at its time. */
  lemma ProjectsPassThroughoutExactlyWhen(global: File, there: File, attempts: seq<Attempt>)
    requires Passing(global, there)
    ensures (forall n | 0 <= n <= |attempts| :: PassesAfter(global, there, attempts, n)) <==>
            (forall n | 0 <= n < |attempts| :: FitsAt(global, there, attempts, n))
  {
    var passes := seq(|attempts| + 1, n requires 0 <= n <= |attempts| => PassesAfter(global, there, attempts, n));
    var fits := seq(|attempts|, n requires 0 <= n < |attempts| => FitsAt(global, there, attempts, n));
    assert attempts[..0] == [];
    forall k | 0 <= k < |attempts| && passes[k] ensures passes[k + 1] <==> fits[k] {
      OneMoreFits(global, there, attempts, k);
    }
    Chain(passes, fits, |attempts|);
    assert forall n | 0 <= n <= |attempts| :: passes[n] == PassesAfter(global, there, attempts, n);
    assert forall n | 0 <= n < |attempts| :: fits[n] == FitsAt(global, there, attempts, n);
  }

  /** Over any sequence of saves for one project, the project passes after each of
      them if and only if each that goes through is harmless at its time. */
  lemma SavesKeepPassingExactlyWhen(global: File, project: File, attempts: seq<Attempt>)
    requires Passing(global, project) && forall x :: x in attempts ==> x.here == project
    ensures (forall n | 0 <= n <= |attempts| :: PassesAfter(global, project, attempts, n)) <==>
            (forall n | 0 <= n < |attempts| :: HarmlessAt(global, project, attempts, n))
  {
    var passes := seq(|attempts| + 1, n requires 0 <= n <= |attempts| => PassesAfter(global, project, attempts, n));
    var harmless := seq(|attempts|, n requires 0 <= n < |attempts| => HarmlessAt(global, project, attempts, n));
    assert attempts[..0] == [];
    forall k | 0 <= k < |attempts| && passes[k] ensures passes[k + 1] <==> harmless[k] {
      OneMoreIsHarmless(global, project, attempts, k);
    }
    Chain(passes, harmless, |attempts|);
    assert forall n | 0 <= n <= |attempts| :: passes[n] == PassesAfter(global, project, attempts, n);
    assert forall n | 0 <= n < |attempts| :: harmless[n] == HarmlessAt(global, project, attempts, n);
  }

  // No save puts an array in the place of the compaction block.
  lemma SaveKeepsBlock(global: File, here: File, save: Save, renamed: bool)
    requires !IsArray(ObjectOf(global), "compaction")
    ensures !IsArray(ObjectOf(RunSave(global, here, save, renamed).0), "compaction")
  {
    if RunSave(global, here, save, renamed).1.None? {
      ApplyOneUpdate(ObjectOf(global), Write(save).value.1);
    }
  }

  /** Unless an array stands in the place of the user's compaction block, every
      sequence of saves for a project that passes, with failures anywhere, leaves
      settings that pass: the ladder is in order, the tail positive, the wait
      bounded and the budget at least the reserve. */
  lemma {:induction false} SavesKeepPassing(global: File, project: File, attempts: seq<Attempt>)
    requires Passing(global, project) && forall x :: x in attempts ==> x.here == project
    requires !IsArray(ObjectOf(global), "compaction")
    ensures var after := RunSaves(global, attempts);
            && Passing(after, project) && !IsArray(ObjectOf(after), "compaction")
            && Sound(ResolveTrigger(Load(after, project).value))
            && (Load(after, project).value.contextTokenBudget.Some? ==>
                  Load(after, project).value.contextTokenBudget.value >= SUMMARY_RESERVE)
  {
    if attempts != [] {
      var init, last := attempts[..|attempts| - 1], attempts[|attempts| - 1];
      SavesKeepPassing(global, project, init);
      SaveKeepsPassingExactlyWhen(RunSaves(global, init), project, last.save, last.renamed);
      SaveKeepsBlock(RunSaves(global, init), project, last.save, last.renamed);
    }
    TriggerIsSoundExactlyWhenAccepted(Load(RunSaves(global, attempts), project).value);
  }

  // ---- The route

  function WorkerModel(s: Settings): Option<string> {
    Default(Default(s.compaction, NO_COMPACTION).worker, NO_WORKER).model
  }

  function NativeMode(s: Settings): Option<string> {
    Default(s.compaction, NO_COMPACTION).providerNative
  }

  /** An array with a worker in it stands on the save's path. */
  predicate EmptiesWorker(obj: Object, save: Save) {
    && !save.ContextTokenBudget?
    && (IsArray(obj, "compaction") || (save.WorkerInput? && IsArray(Child(obj, "compaction"), "worker")))
  }

  /** An array with a native mode in it stands on the save's path. */
  predicate EmptiesMode(obj: Object, save: Save) {
    !save.ContextTokenBudget? && IsArray(obj, "compaction")
  }

  // A readable user file stays readable, and a save moves its route only so.
  lemma RouteAfterSave(global: File, here: File, save: Save, renamed: bool)
    requires ReadOptional(global).Ok?
    ensures var after, through := RunSave(global, here, save, renamed).0, GoesThrough(global, here, save, renamed);
            && ReadOptional(after).Ok?
            && WorkerModel(SettingsOf(after)) ==
               (if through && EmptiesWorker(ObjectOf(global), save) then None else WorkerModel(SettingsOf(global)))
            && NativeMode(SettingsOf(after)) ==
               (if through && save.ProviderNative? then Some(KnownMode(save.mode))
                else if through && EmptiesMode(ObjectOf(global), save) then None
                else NativeMode(SettingsOf(global)))
  {
    SaveSucceedsExactlyWhen(global, here, save, renamed);
    if GoesThrough(global, here, save, renamed) {
      SettingsAfterSave(global, here, save, renamed);
      SaveMovesRoute(ObjectOf(global), save);
    }
  }

  lemma SaveMovesRoute(obj: Object, save: Save)
    requires Write(save).Ok?
    ensures var s := WithSave(Opened(obj, save), save);
            && WorkerModel(s) == (if EmptiesWorker(obj, save) then None else WorkerModel(ReadSettings(obj)))
            && NativeMode(s) ==
               (if save.ProviderNative? then Some(KnownMode(save.mode))
                else if EmptiesMode(obj, save) then None
                else NativeMode(ReadSettings(obj)))
  {
  }

  predicate EmptiesWorkerAt(global: File, attempts: seq<Attempt>, n: nat)
    requires n < |attempts|
  {
    var before := RunSaves(global, attempts[..n]);
    Through(before, attempts[n]) && EmptiesWorker(ObjectOf(before), attempts[n].save)
  }

  predicate EmptiesModeAt(global: File, attempts: seq<Attempt>, n: nat)
    requires n < |attempts|
  {
    var before := RunSaves(global, attempts[..n]);
    Through(before, attempts[n]) && EmptiesMode(ObjectOf(before), attempts[n].save)
  }

  /** The native mode save n leaves, if it goes through and is of that mode. */
  function ModeSetAt(global: File, attempts: seq<Attempt>, n: nat): Option<string>
    requires n < |attempts|
  {
    var x := attempts[n];
    if Through(RunSaves(global, attempts[..n]), x) && x.save.ProviderNative? then Some(KnownMode(x.save.mode)) else None
  }

  /** The last of the values set so far. */
  function LastSet<T>(values: seq<Option<T>>): Option<T> {
    if values == [] then None
    else if values[|values| - 1].Some? then values[|values| - 1]
    else LastSet(values[..|values| - 1])
  }

  /** The native mode that was saved last, if any save of it went through. */
  function LastModeSet(global: File, attempts: seq<Attempt>): Option<string> {
    LastSet(seq(|attempts|, n requires 0 <= n < |attempts| => ModeSetAt(global, attempts, n)))
  }

  // A value that is only set, kept or lost, and not lost any more once it was set:
  // in the end it is the one set last, or else it was lost exactly when it was lost
  // at some time.
  lemma {:induction false} SetKeptOrLost<T>(values: seq<Option<T>>, sets: seq<Option<T>>, lost: seq<bool>, n: nat)
    requires n <= |lost| == |sets| && |values| == |lost| + 1
    requires forall k :: 0 <= k < |lost| ==>
               values[k + 1] == if sets[k].Some? then sets[k] else if lost[k] then None else values[k]
    requires forall k, l :: 0 <= k < l < |lost| && sets[k].Some? ==> !lost[l]
    ensures values[n] == if LastSet(sets[..n]).Some? then LastSet(sets[..n])
                         else if exists k :: 0 <= k < n && lost[k] then None
                         else values[0]
    ensures LastSet(sets[..n]).Some? ==> exists k :: 0 <= k < n && sets[k].Some?
  {
    if n > 0 {
      SetKeptOrLost(values, sets, lost, n - 1);
      assert sets[..n][..n - 1] == sets[..n - 1];
      assert values[n - 1 + 1] == if sets[n - 1].Some? then sets[n - 1] else if lost[n - 1] then None else values[n - 1];
    }
  }

  lemma {:induction false} StaysReadable(global: File, attempts: seq<Attempt>, n: nat)
    requires ReadOptional(global).Ok? && n <= |attempts|
    ensures ReadOptional(RunSaves(global, attempts[..n])).Ok?
  {
    if n == 0 {
      assert attempts[..0] == [];
    } else {
      var x := attempts[n - 1];
      StaysReadable(global, attempts, n - 1);
      OneMore(global, attempts, n - 1);
      RouteAfterSave(RunSaves(global, attempts[..n - 1]), x.here, x.save, x.renamed);
    }
  }

  function WorkerModelAfter(global: File, attempts: seq<Attempt>, n: nat): Option<string>
    requires n <= |attempts|
  {
    WorkerModel(SettingsOf(RunSaves(global, attempts[..n])))
  }

  function NativeModeAfter(global: File, attempts: seq<Attempt>, n: nat): Option<string>
    requires n <= |attempts|
  {
    NativeMode(SettingsOf(RunSaves(global, attempts[..n])))
  }

  lemma RouteAfterOneMore(global: File, attempts: seq<Attempt>, n: nat)
    requires ReadOptional(global).Ok? && n < |attempts|
    ensures WorkerModelAfter(global, attempts, n + 1) ==
            if EmptiesWorkerAt(global, attempts, n) then None else WorkerModelAfter(global, attempts, n)
    ensures NativeModeAfter(global, attempts, n + 1) ==
            if ModeSetAt(global, attempts, n).Some? then ModeSetAt(global, attempts, n)
            else if EmptiesModeAt(global, attempts, n) then None
            else NativeModeAfter(global, attempts, n)
  {
    var x := attempts[n];
    StaysReadable(global, attempts, n);
    OneMore(global, attempts, n);
    RouteAfterSave(RunSaves(global, attempts[..n]), x.here, x.save, x.renamed);
  }

  // Once a save in the block went through, no array stands there again.
  lemma {:induction false} NoArrayAgain(global: File, attempts: seq<Attempt>, k: nat, n: nat)
    requires k < n <= |attempts| && ModeSetAt(global, attempts, k).Some?
    ensures !IsArray(ObjectOf(RunSaves(global, attempts[..n])), "compaction")
  {
    var x := attempts[n - 1];
    OneMore(global, attempts, n - 1);
    if k < n - 1 {
      NoArrayAgain(global, attempts, k, n - 1);
      SaveKeepsBlock(RunSaves(global, attempts[..n - 1]), x.here, x.save, x.renamed);
    } else {
      ModeSaveMakesBlock(RunSaves(global, attempts[..k]), x.here, x.save, x.renamed);
    }
  }

  lemma ModeSaveMakesBlock(global: File, here: File, save: Save, renamed: bool)
    requires save.ProviderNative? && GoesThrough(global, here, save, renamed)
    ensures !IsArray(ObjectOf(RunSave(global, here, save, renamed).0), "compaction")
  {
    SaveSucceedsExactlyWhen(global, here, save, renamed);
  }

  lemma WorkerAfterSaves(global: File, attempts: seq<Attempt>)
    requires ReadOptional(global).Ok?
    ensures WorkerModelAfter(global, attempts, |attempts|) ==
            if exists n | 0 <= n < |attempts| :: EmptiesWorkerAt(global, attempts, n) then None
            else WorkerModelAfter(global, attempts, 0)
  {
    var values := seq(|attempts| + 1, n requires 0 <= n <= |attempts| => WorkerModelAfter(global, attempts, n));
    var lost := seq(|attempts|, n requires 0 <= n < |attempts| => EmptiesWorkerAt(global, attempts, n));
    var sets := seq(|attempts|, n => None);
    forall k | 0 <= k < |attempts| ensures values[k + 1] == if lost[k] then None else values[k] {
      RouteAfterOneMore(global, attempts, k);
    }
    SetKeptOrLost(values, sets, lost, |attempts|);
    assert forall n | 0 <= n < |attempts| :: lost[n] == EmptiesWorkerAt(global, attempts, n);
  }

  lemma ModeAfterSaves(global: File, attempts: seq<Attempt>)
    requires ReadOptional(global).Ok?
    ensures NativeModeAfter(global, attempts, |attempts|) ==
            if LastModeSet(global, attempts).Some? then LastModeSet(global, attempts)
            else if exists n | 0 <= n < |attempts| :: EmptiesModeAt(global, attempts, n) then None
            else NativeModeAfter(global, attempts, 0)
  {
    var values := seq(|attempts| + 1, n requires 0 <= n <= |attempts| => NativeModeAfter(global, attempts, n));
    var sets := seq(|attempts|, n requires 0 <= n < |attempts| => ModeSetAt(global, attempts, n));
    var lost := seq(|attempts|, n requires 0 <= n < |attempts| => EmptiesModeAt(global, attempts, n));
    forall k | 0 <= k < |attempts|
      ensures values[k + 1] == if sets[k].Some? then sets[k] else if lost[k] then None else values[k]
    {
      RouteAfterOneMore(global, attempts, k);
    }
    forall k, l | 0 <= k < l < |attempts| && sets[k].Some? ensures !lost[l] {
      NoArrayAgain(global, attempts, k, l);
    }
    SetKeptOrLost(values, sets, lost, |attempts|);
    assert sets[..|attempts|] == sets;
    assert forall n | 0 <= n < |attempts| :: lost[n] == EmptiesModeAt(global, attempts, n);
  }

  lemma ProjectsKeepTheRoute(global: File, there: File)
    requires Load(global, there).Ok?
    ensures WorkerModel(Load(global, there).value) == WorkerModel(SettingsOf(global))
    ensures NativeMode(Load(global, there).value) == NativeMode(SettingsOf(global))
  {
  }

  /** Whatever any project's file says, and after any saves made anywhere, a load
      finds the worker model the user's file named at the start, or none if and
      only if a save emptied an array it could stand in. It finds the native mode
      that was saved last, or, if none was, what the user's file named, or none if
      and only if a save emptied an array that could name it. */
  lemma ProjectsCannotReroute(global: File, there: File, attempts: seq<Attempt>)
    requires ReadOptional(global).Ok? && Load(RunSaves(global, attempts), there).Ok?
    ensures WorkerModel(Load(RunSaves(global, attempts), there).value) ==
            if exists n | 0 <= n < |attempts| :: EmptiesWorkerAt(global, attempts, n) then None
            else WorkerModel(SettingsOf(global))
    ensures NativeMode(Load(RunSaves(global, attempts), there).value) ==
            if LastModeSet(global, attempts).Some? then LastModeSet(global, attempts)
            else if exists n | 0 <= n < |attempts| :: EmptiesModeAt(global, attempts, n) then None
            else NativeMode(SettingsOf(global))
  {
    assert attempts[..|attempts|] == attempts && attempts[..0] == [];
    ProjectsKeepTheRoute(RunSaves(global, attempts), there);
    WorkerAfterSaves(global, attempts);
    ModeAfterSaves(global, attempts);
  }

  // ---- Failing cases, on files

  // A candidate passes where the save fits the project at hand.
  lemma FittingCandidatesPass(global: File, here: File, save: Save)
    requires Passing(global, here) && Candidate(global, save).Ok?
    requires FitsProject(ObjectOf(global), SettingsOf(here), save)
    ensures Passing(Doc(Obj(Candidate(global, save).value)), here)
  {
    var obj, after := ObjectOf(global), Doc(Obj(Candidate(global, save).value));
    FileReadsAsObject(global);
    PassingUnfolds(global, here);
    SaveReadsBack(obj, save);
    assert ReadOptional(after) == Ok(Some(WithSave(Opened(obj, save), save)));
    SaveFitsExactlyWhenItPasses(obj, SettingsOf(here), save);
    PassingUnfolds(after, here);
  }

  lemma FittingSavesGoThrough(global: File, here: File, save: Save)
    requires Passing(global, here) && Candidate(global, save).Ok?
    requires FitsProject(ObjectOf(global), SettingsOf(here), save)
    ensures GoesThrough(global, here, save, true)
    ensures RunSave(global, here, save, true).1.None? && Passing(RunSave(global, here, save, true).0, here)
  {
    FittingCandidatesPass(global, here, save);
    SaveSucceedsExactlyWhen(global, here, save, true);
  }

  // A settings file that sets thresholds only, and what it reads as.
  function ThresholdFile(t: Object): File {
    Doc(Obj(map["compaction" := Obj(map["thresholds" := Obj(t)])]))
  }

  function OnlyThresholds(t: Thresholds): Settings {
    NO_SETTINGS.(compaction := Some(NO_COMPACTION.(thresholds := Some(t))))
  }

  lemma ThresholdFileReads(t: Object)
    requires ThresholdsTyped(t)
    ensures ReadOptional(ThresholdFile(t)) == Ok(Some(OnlyThresholds(ReadThresholds(t))))
    ensures !IsArray(ObjectOf(ThresholdFile(t)), "compaction")
    ensures !IsArray(Child(ObjectOf(ThresholdFile(t)), "compaction"), "thresholds")
  {
    var c: Object := map["thresholds" := Obj(t)];
    EmptyReads();
    ReadsAsEmpty();
    BlockReadsBack(map[], c, "thresholds", t);
    CompactionReadsBack(map[], c, NO_SETTINGS);
  }

  // The same with the compaction block as an array, with one item that is not null.
  function OneItem(index: nat, item: Json): seq<Json>
    requires index < 10
  {
    seq(10, i requires 0 <= i < 10 => if i == index then item else Null)
  }

  function ArrayFile(index: nat, item: Json): File
    requires index < 10
  {
    Doc(Obj(map["compaction" := Arr(OneItem(index, item))]))
  }

  // Read by position, the array sets one key.
  lemma OneItemSetsOneKey(names: seq<string>, items: seq<Json>, index: nat)
    requires |names| == |items| && index < |names| && names[index] !in names[..index] && !items[index].Null?
    requires forall i :: 0 <= i < |items| && i != index ==> items[i].Null?
    ensures Rekeyed(map[], Positional(names, items), names[index], items[index])
  {
    PositionalHolds(names, items, index);
    forall key | key != names[index] ensures Value(Positional(names, items), key) == Value(map[], key) {
      NullItemsSetNothing(names, items, key);
    }
  }

  lemma OneKeyReads(block: Object, key: string, item: Json)
    requires Rekeyed(map[], block, key, item) && KeyTyped(key, item)
    ensures CompactionTyped(block) && ReadCompaction(block) == SetKey(NO_COMPACTION, key, item)
  {
    EmptyReads();
    KeyStaysTyped(map[], block, key, item);
    KeyReadsBack(map[], block, key, item);
  }

  lemma CompactionFileReads(v: Json, block: Object)
    requires AsBlock(Some(v), CompactionFields) == Some(block) && CompactionTyped(block)
    ensures ReadOptional(Doc(Obj(map["compaction" := v]))) ==
            Ok(Some(NO_SETTINGS.(compaction := Some(ReadCompaction(block)))))
  {
    var obj: Object := map["compaction" := v];
    assert Value(obj, "compaction") == Some(v) && Value(obj, "contextTokenBudget") == None;
    assert AsCompaction(Some(v)) == Some(ReadCompaction(block));
  }

  lemma OneKeyFileReads(v: Json, block: Object, key: string, item: Json)
    requires AsBlock(Some(v), CompactionFields) == Some(block)
    requires Rekeyed(map[], block, key, item) && KeyTyped(key, item)
    ensures ReadOptional(Doc(Obj(map["compaction" := v]))) ==
            Ok(Some(NO_SETTINGS.(compaction := Some(SetKey(NO_COMPACTION, key, item)))))
  {
    OneKeyReads(block, key, item);
    CompactionFileReads(v, block);
  }

  lemma OneItemIsABlock(index: nat, item: Json) returns (block: Object)
    requires index < 10 && !item.Null? && CompactionFields.Names()[index] !in CompactionFields.Names()[..index]
    ensures AsBlock(Some(Arr(OneItem(index, item))), CompactionFields) == Some(block)
    ensures Rekeyed(map[], block, CompactionFields.Names()[index], item)
  {
    OneItemSetsOneKey(CompactionFields.Names(), OneItem(index, item), index);
    block := Positional(CompactionFields.Names(), OneItem(index, item));
  }

  lemma ArrayFileReads(index: nat, key: string, item: Json)
    requires index < 10 && CompactionFields.Names()[index] == key && key !in CompactionFields.Names()[..index]
    requires !item.Null? && KeyTyped(key, item)
    ensures ReadOptional(ArrayFile(index, item)) ==
            Ok(Some(NO_SETTINGS.(compaction := Some(SetKey(NO_COMPACTION, key, item)))))
    ensures IsArray(ObjectOf(ArrayFile(index, item)), "compaction")
  {
    var block := OneItemIsABlock(index, item);
    OneKeyFileReads(Arr(OneItem(index, item)), block, key, item);
  }

  lemma ThresholdsOfWitnesses()
    ensures var g: Object := map["warn" := Num(Float(0.1)), "start" := Num(Float(0.2))];
            ThresholdsTyped(g) && ReadThresholds(g) == Thresholds(Some(0.1), Some(0.2), None)
    ensures forall x: real :: var q: Object := map["start" := Num(Float(x))];
            ThresholdsTyped(q) && ReadThresholds(q) == Thresholds(None, Some(x), None)
  {
  }

  // With a user's ladder that starts early: projects that start at a quarter and
  // at six tenths.
  lemma EarlyStart()
    ensures var g, quarter, late := OnlyThresholds(Thresholds(Some(0.1), Some(0.2), None)),
                                    OnlyThresholds(Thresholds(None, Some(0.25), None)),
                                    OnlyThresholds(Thresholds(None, Some(0.6), None));
            && CompactionTrigger(Merge(g, NO_SETTINGS)).Ok?
            && CompactionTrigger(Merge(g, quarter)).Ok? && CompactionTrigger(Merge(g, late)).Ok?
            && !InOrder(ResolveTrigger(Merge(NO_SETTINGS, quarter)))
            && InOrder(ResolveTrigger(Merge(NO_SETTINGS, NO_SETTINGS)))
            && LiesBetween(ResolveTrigger(Merge(g, NO_SETTINGS)), Hard, 0.5)
            && !LiesBetween(ResolveTrigger(Merge(g, late)), Hard, 0.5)
  {
  }

  /** A save checked in a project without settings goes through, and leaves the
      ladder of another project, fine until then, out of order. */
  lemma SavesMaySpoilOtherProjects()
    ensures var global := ThresholdFile(map["warn" := Num(Float(0.1)), "start" := Num(Float(0.2))]);
            var there := ThresholdFile(map["start" := Num(Float(0.6))]);
            var (after, error) := RunSave(global, Missing, Threshold(Hard, Finite(0.5)), true);
            && error.None?
            && Passing(global, Missing) && Passing(after, Missing)
            && Passing(global, there) && !Passing(after, there)
  {
    var g: Object := map["warn" := Num(Float(0.1)), "start" := Num(Float(0.2))];
    var q: Object := map["start" := Num(Float(0.6))];
    ThresholdsOfWitnesses();
    ThresholdFileReads(g);
    ThresholdFileReads(q);
    EarlyStart();
    EarlyHardSpoils(ThresholdFile(g), ThresholdFile(q), Threshold(Hard, Finite(0.5)));
  }

  lemma EarlyHardSpoils(global: File, there: File, save: Save)
    requires ReadOptional(global) == Ok(Some(OnlyThresholds(Thresholds(Some(0.1), Some(0.2), None))))
    requires ReadOptional(there) == Ok(Some(OnlyThresholds(Thresholds(None, Some(0.6), None))))
    requires ReadObject(global).Ok? && !IsArray(ObjectOf(global), "compaction")
    requires !IsArray(Child(ObjectOf(global), "compaction"), "thresholds")
    requires save == Threshold(Hard, Finite(0.5))
    ensures var (after, error) := RunSave(global, Missing, save, true);
            && error.None?
            && Passing(global, Missing) && Passing(after, Missing)
            && Passing(global, there) && !Passing(after, there)
  {
    EarlyStart();
    FileReadsAsObject(global);
    PassingUnfolds(global, Missing);
    PassingUnfolds(global, there);
    FittingSavesGoThrough(global, Missing, save);
    SaveSucceedsExactlyWhen(global, Missing, save, true);
    ProjectsKeepPassingExactlyWhen(global, Missing, there, save, true);
  }

  /** An array in the place of the compaction block is read as one, and emptied by
      the first save in it. So an unchecked save can spoil its own project, and a
      checked one in a project without settings another project, though neither
      touches the ladder. */
  lemma ArraysMaySpoilProjects()
    ensures var global := ArrayFile(1, Obj(map["warn" := Num(Float(0.1)), "start" := Num(Float(0.2))]));
            var there := ThresholdFile(map["start" := Num(Float(0.25))]);
            var (own, none) := RunSave(global, there, WorkerInput("transcript"), true);
            var (other, nothing) := RunSave(global, Missing, Enabled(true), true);
            && Passing(global, there) && Passing(global, Missing)
            && none.None? && !Passing(own, there)
            && nothing.None? && Passing(other, Missing) && !Passing(other, there)
  {
    var g: Object := map["warn" := Num(Float(0.1)), "start" := Num(Float(0.2))];
    var q: Object := map["start" := Num(Float(0.25))];
    ThresholdsOfWitnesses();
    assert CompactionFields.Names()[1] == "thresholds" && CompactionFields.Names()[..1] == ["enabled"];
    ArrayFileReads(1, "thresholds", Obj(g));
    ThresholdFileReads(q);
    EarlyArraySpoils(ArrayFile(1, Obj(g)), ThresholdFile(q));
  }

  lemma EarlyArraySpoils(global: File, there: File)
    requires ReadOptional(global) == Ok(Some(OnlyThresholds(Thresholds(Some(0.1), Some(0.2), None))))
    requires ReadOptional(there) == Ok(Some(OnlyThresholds(Thresholds(None, Some(0.25), None))))
    requires ReadObject(global).Ok? && IsArray(ObjectOf(global), "compaction")
    ensures var (own, none) := RunSave(global, there, WorkerInput("transcript"), true);
            var (other, nothing) := RunSave(global, Missing, Enabled(true), true);
            && Passing(global, there) && Passing(global, Missing)
            && none.None? && !Passing(own, there)
            && nothing.None? && Passing(other, Missing) && !Passing(other, there)
  {
    EarlyStart();
    PassingUnfolds(global, Missing);
    PassingUnfolds(global, there);
    EmptiedLadderFits(global, WorkerInput("transcript"));
    EmptiedLadderFits(global, Enabled(true));
    SaveSucceedsExactlyWhen(global, there, WorkerInput("transcript"), true);
    ProjectsKeepPassingExactlyWhen(global, there, there, WorkerInput("transcript"), true);
    FittingSavesGoThrough(global, Missing, Enabled(true));
    ProjectsKeepPassingExactlyWhen(global, Missing, there, Enabled(true), true);
  }

  // Whom a save fits that leaves nothing of the user's ladder.
  lemma EmptiedLadderFits(global: File, save: Save)
    requires save.Enabled? || save.WorkerInput?
    requires ReadOptional(global).Ok? && ReadObject(global).Ok? && IsArray(ObjectOf(global), "compaction")
    ensures Candidate(global, save).Ok?
    ensures forall q: Settings ::
              FitsProject(ObjectOf(global), q, save) <==>
              InOrder(ResolveTrigger(Merge(SettingsOf(global).(compaction := None), q)))
  {
    FileReadsAsObject(global);
  }

  /** In the same way a save can drop the worker model. */
  lemma ArraysMayLoseTheRoute(model: string)
    ensures var global := ArrayFile(3, Obj(map["model" := Str(model)]));
            var (after, error) := RunSave(global, Missing, Enabled(true), true);
            && WorkerModel(SettingsOf(global)) == Some(model)
            && error.None? && WorkerModel(SettingsOf(after)) == None
  {
    var w: Object := map["model" := Str(model)];
    var global := ArrayFile(3, Obj(w));
    assert WorkerTyped(w) && ReadWorker(w) == NO_WORKER.(model := Some(model));
    assert CompactionFields.Names()[3] == "worker";
    assert CompactionFields.Names()[..3] == ["enabled", "thresholds", "keepRecentTokens"];
    ArrayFileReads(3, "worker", Obj(w));
    ArrayDropsTheModel(global, model);
  }

  lemma ArrayDropsTheModel(global: File, model: string)
    requires ReadOptional(global) ==
             Ok(Some(NO_SETTINGS.(compaction := Some(NO_COMPACTION.(worker := Some(NO_WORKER.(model := Some(model))))))))
    requires ReadObject(global).Ok? && IsArray(ObjectOf(global), "compaction")
    ensures RunSave(global, Missing, Enabled(true), true).1.None?
    ensures WorkerModel(SettingsOf(RunSave(global, Missing, Enabled(true), true).0)) == None
  {
    EarlyStart();
    FileReadsAsObject(global);
    PassingUnfolds(global, Missing);
    assert CompactionTrigger(Merge(SettingsOf(global), NO_SETTINGS)).Ok?;
    FittingSavesGoThrough(global, Missing, Enabled(true));
    SaveSucceedsExactlyWhen(global, Missing, Enabled(true), true);
    RouteAfterSave(global, Missing, Enabled(true), true);
  }
}
