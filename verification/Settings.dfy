/** The compaction and budget settings: reading them from JSON, merging a
    project's over the user's, and the check every load makes of the result.
    Fractions are reals; JSON itself has no non-finite numbers. */
module Settings {
  import opened Prelude
  import opened Json

  datatype ConfigError =
    | InvalidFile
    | NotAnObject
    | InvalidSettings
    | BudgetTooSmall
    | ThresholdsUnordered
    | NoTail
    | NoFailuresAllowed
    | WaitTooLong
    | ProjectConflict(cause: ConfigError)
    | NotFinite
    | WriteFailed

  datatype Thresholds = Thresholds(warn: Option<real>, start: Option<real>, hard: Option<real>)

  datatype Worker = Worker(
    input: Option<string>,
    model: Option<string>,
    maxToolRoundtrips: Option<U64>,
    timeoutMs: Option<U64>
  )

  datatype Compaction = Compaction(
    enabled: Option<bool>,
    thresholds: Option<Thresholds>,
    keepRecentTokens: Option<U64>,
    worker: Option<Worker>,
    hardWaitMs: Option<U64>,
    maxConsecutiveFailures: Option<U64>,
    reactive: Option<bool>,
    providerNative: Option<string>,
    instructions: Option<string>,
    modelTool: Option<bool>
  )

  datatype Settings = Settings(contextTokenBudget: Option<U64>, compaction: Option<Compaction>)

  const NO_THRESHOLDS := Thresholds(None, None, None)

  const NO_WORKER := Worker(None, None, None, None)

  const NO_COMPACTION := Compaction(None, None, None, None, None, None, None, None, None, None)

  const NO_SETTINGS := Settings(None, None)

  const U32_MAX: nat := 0xFFFF_FFFF

  // ---- Reading

  /** A key that is absent or null is not set. */
  function Value(obj: Object, key: string): Option<Json> {
    if key in obj && !obj[key].Null? then Some(obj[key]) else None
  }

  function AsNat(value: Option<Json>): Option<U64> {
    match value
    case Some(Num(Integer(n))) => if 0 <= n <= U64_MAX then Some(n) else None
    case _ => None
  }

  function AsU32(value: Option<Json>): Option<U64> {
    match AsNat(value)
    case Some(n) => if n <= U32_MAX then Some(n) else None
    case None => None
  }

  function AsReal(value: Option<Json>): Option<real> {
    match value
    case Some(Num(Integer(n))) => Some(n as real)
    case Some(Num(Float(r))) => Some(r)
    case _ => None
  }

  function AsBool(value: Option<Json>): Option<bool> {
    match value case Some(Bool(b)) => Some(b) case _ => None
  }

  function AsString(value: Option<Json>): Option<string> {
    match value case Some(Str(s)) => Some(s) case _ => None
  }

  /** The structures a block is read as. An array is read as one as well, by
      position, if it holds exactly as many items as the structure has fields. */
  datatype Structure = ThresholdFields | WorkerFields | CompactionFields {
    function Names(): seq<string> {
      match this
      case ThresholdFields => ["warn", "start", "hard"]
      case WorkerFields => ["input", "model", "maxToolRoundtrips", "timeoutMs"]
      case CompactionFields => ["enabled", "thresholds", "keepRecentTokens", "worker", "hardWaitMs",
                                "maxConsecutiveFailures", "reactive", "providerNative", "instructions", "modelTool"]
    }
  }

  function Positional(names: seq<string>, items: seq<Json>): Object
    requires |names| == |items|
    decreases |names|
  {
    if names == [] then map[] else Positional(names[1..], items[1..])[names[0] := items[0]]
  }

  /** The fields of an array are the items under the names of their positions. */
  lemma {:induction false} PositionalHolds(names: seq<string>, items: seq<Json>, i: nat)
    requires |names| == |items| && i < |names| && names[i] !in names[..i]
    ensures names[i] in Positional(names, items) && Positional(names, items)[names[i]] == items[i]
    decreases |names|
  {
    if i > 0 {
      assert names[0] in names[..i];
      forall name | name in names[1..][..i - 1] ensures name in names[..i] {
        var k :| 0 <= k < i - 1 && names[1..][k] == name;
        assert names[..i][k + 1] == name;
      }
      PositionalHolds(names[1..], items[1..], i - 1);
    }
  }

  lemma {:induction false} NullItemsSetNothing(names: seq<string>, items: seq<Json>, key: string)
    requires |names| == |items| && forall i :: 0 <= i < |names| && names[i] == key ==> items[i].Null?
    ensures Value(Positional(names, items), key) == None
    decreases |names|
  {
    if names != [] {
      NullItemsSetNothing(names[1..], items[1..], key);
    }
  }

  function AsBlock(value: Option<Json>, structure: Structure): Option<Object> {
    match value
    case Some(Obj(fields)) => Some(fields)
    case Some(Arr(items)) =>
      if |items| == |structure.Names()| then Some(Positional(structure.Names(), items)) else None
    case _ => None
  }

  /** Values are read as they stand, whole numbers also as fractions, and nothing is
      read of a value of another type or out of range. */
  lemma ValuesAreReadAsTheyStand(v: Json)
    ensures AsBool(Some(v)) == (if v.Bool? then Some(v.b) else None)
    ensures AsString(Some(v)) == (if v.Str? then Some(v.s) else None)
    ensures AsReal(Some(v)) == (if !v.Num? then None else if v.number.Float? then Some(v.number.r)
                                else Some(v.number.n as real))
    ensures AsNat(Some(v)).Some? <==> v.Num? && v.number.Integer? && 0 <= v.number.n < 0x1_0000_0000_0000_0000
    ensures AsU32(Some(v)).Some? <==> v.Num? && v.number.Integer? && 0 <= v.number.n < 0x1_0000_0000
    ensures AsNat(Some(v)).Some? ==> AsNat(Some(v)).value == v.number.n
    ensures AsU32(Some(v)).Some? ==> AsU32(Some(v)).value == v.number.n
  {
  }

  // The item at position i of an array read as a structure.
  lemma ItemIsField(structure: Structure, items: seq<Json>, i: nat, name: string)
    requires |items| == |structure.Names()| && i < |items| && structure.Names()[i] == name
    requires name !in structure.Names()[..i]
    ensures var block := AsBlock(Some(Arr(items)), structure);
            block.Some? && name in block.value && block.value[name] == items[i]
  {
    PositionalHolds(structure.Names(), items, i);
  }

  /** An array is read as a ladder or as a worker exactly if it has three or four
      items, in these orders. */
  lemma SmallArraysAreReadByPosition(items: seq<Json>)
    ensures AsBlock(Some(Arr(items)), ThresholdFields).Some? <==> |items| == 3
    ensures AsBlock(Some(Arr(items)), WorkerFields).Some? <==> |items| == 4
    ensures |items| == 3 ==>
              var block := AsBlock(Some(Arr(items)), ThresholdFields).value;
              && {"warn", "start", "hard"} <= block.Keys
              && block["warn"] == items[0] && block["start"] == items[1] && block["hard"] == items[2]
    ensures |items| == 4 ==>
              var block := AsBlock(Some(Arr(items)), WorkerFields).value;
              && {"input", "model", "maxToolRoundtrips", "timeoutMs"} <= block.Keys
              && block["input"] == items[0] && block["model"] == items[1]
              && block["maxToolRoundtrips"] == items[2] && block["timeoutMs"] == items[3]
  {
    if |items| == 3 {
      ItemIsField(ThresholdFields, items, 0, "warn");
      ItemIsField(ThresholdFields, items, 1, "start");
      ItemIsField(ThresholdFields, items, 2, "hard");
    } else if |items| == 4 {
      ItemIsField(WorkerFields, items, 0, "input");
      ItemIsField(WorkerFields, items, 1, "model");
      ItemIsField(WorkerFields, items, 2, "maxToolRoundtrips");
      ItemIsField(WorkerFields, items, 3, "timeoutMs");
    }
  }

  /** And as a compaction block exactly if it has ten, in this order. */
  lemma BlockArraysAreReadByPosition(items: seq<Json>, i: nat)
    requires i < 10
    ensures AsBlock(Some(Arr(items)), CompactionFields).Some? <==> |items| == 10
    ensures |items| == 10 ==>
              var block, name := AsBlock(Some(Arr(items)), CompactionFields).value, CompactionField(i);
              name in block && block[name] == items[i]
  {
    if |items| == 10 {
      CompactionNamesDiffer(i);
      ItemIsField(CompactionFields, items, i, CompactionField(i));
    }
  }

  function CompactionField(i: nat): string
    requires i < 10
  {
    match i
    case 0 => "enabled"
    case 1 => "thresholds"
    case 2 => "keepRecentTokens"
    case 3 => "worker"
    case 4 => "hardWaitMs"
    case 5 => "maxConsecutiveFailures"
    case 6 => "reactive"
    case 7 => "providerNative"
    case 8 => "instructions"
    case _ => "modelTool"
  }

  lemma CompactionNamesDiffer(i: nat)
    requires i < 10
    ensures CompactionFields.Names()[i] == CompactionField(i)
    ensures CompactionField(i) !in CompactionFields.Names()[..i]
  {
    var names := CompactionFields.Names();
    forall k | 0 <= k < i ensures names[k] != names[i] {
      assert |names[k]| != |names[i]| || names[k][0] != names[i][0];
    }
  }

  // A set key must have the type it is read as.
  predicate Typed<T>(value: Option<Json>, read: Option<T>) {
    value.Some? ==> read.Some?
  }

  predicate ThresholdsTyped(obj: Object) {
    && Typed(Value(obj, "warn"), AsReal(Value(obj, "warn")))
    && Typed(Value(obj, "start"), AsReal(Value(obj, "start")))
    && Typed(Value(obj, "hard"), AsReal(Value(obj, "hard")))
  }

  function ReadThresholds(obj: Object): Thresholds {
    Thresholds(AsReal(Value(obj, "warn")), AsReal(Value(obj, "start")), AsReal(Value(obj, "hard")))
  }

  predicate WorkerTyped(obj: Object) {
    && Typed(Value(obj, "input"), AsString(Value(obj, "input")))
    && Typed(Value(obj, "model"), AsString(Value(obj, "model")))
    && Typed(Value(obj, "maxToolRoundtrips"), AsNat(Value(obj, "maxToolRoundtrips")))
    && Typed(Value(obj, "timeoutMs"), AsNat(Value(obj, "timeoutMs")))
  }

  function ReadWorker(obj: Object): Worker {
    Worker(AsString(Value(obj, "input")), AsString(Value(obj, "model")), AsNat(Value(obj, "maxToolRoundtrips")), AsNat(Value(obj, "timeoutMs")))
  }

  function AsThresholds(value: Option<Json>): Option<Thresholds> {
    var block := AsBlock(value, ThresholdFields);
    if block.Some? && ThresholdsTyped(block.value) then Some(ReadThresholds(block.value)) else None
  }

  function AsWorker(value: Option<Json>): Option<Worker> {
    var block := AsBlock(value, WorkerFields);
    if block.Some? && WorkerTyped(block.value) then Some(ReadWorker(block.value)) else None
  }

  predicate CompactionTyped(obj: Object) {
    && Typed(Value(obj, "enabled"), AsBool(Value(obj, "enabled")))
    && Typed(Value(obj, "thresholds"), AsThresholds(Value(obj, "thresholds")))
    && Typed(Value(obj, "keepRecentTokens"), AsNat(Value(obj, "keepRecentTokens")))
    && Typed(Value(obj, "worker"), AsWorker(Value(obj, "worker")))
    && Typed(Value(obj, "hardWaitMs"), AsNat(Value(obj, "hardWaitMs")))
    && Typed(Value(obj, "maxConsecutiveFailures"), AsU32(Value(obj, "maxConsecutiveFailures")))
    && Typed(Value(obj, "reactive"), AsBool(Value(obj, "reactive")))
    && Typed(Value(obj, "providerNative"), AsString(Value(obj, "providerNative")))
    && Typed(Value(obj, "instructions"), AsString(Value(obj, "instructions")))
    && Typed(Value(obj, "modelTool"), AsBool(Value(obj, "modelTool")))
  }

  function ReadCompaction(obj: Object): Compaction {
    Compaction(
      AsBool(Value(obj, "enabled")),
      AsThresholds(Value(obj, "thresholds")),
      AsNat(Value(obj, "keepRecentTokens")),
      AsWorker(Value(obj, "worker")),
      AsNat(Value(obj, "hardWaitMs")),
      AsU32(Value(obj, "maxConsecutiveFailures")),
      AsBool(Value(obj, "reactive")),
      AsString(Value(obj, "providerNative")),
      AsString(Value(obj, "instructions")),
      AsBool(Value(obj, "modelTool")))
  }

  function AsCompaction(value: Option<Json>): Option<Compaction> {
    var block := AsBlock(value, CompactionFields);
    if block.Some? && CompactionTyped(block.value) then Some(ReadCompaction(block.value)) else None
  }

  predicate SettingsTyped(obj: Object) {
    && Typed(Value(obj, "contextTokenBudget"), AsNat(Value(obj, "contextTokenBudget")))
    && Typed(Value(obj, "compaction"), AsCompaction(Value(obj, "compaction")))
  }

  function ReadSettings(obj: Object): Settings {
    Settings(AsNat(Value(obj, "contextTokenBudget")), AsCompaction(Value(obj, "compaction")))
  }

  function Parse(obj: Object): Result<Settings, ConfigError> {
    if SettingsTyped(obj) then Ok(ReadSettings(obj)) else Err(InvalidSettings)
  }

  // ---- Merging

  function Or<T>(first: Option<T>, second: Option<T>): Option<T> {
    if first.Some? then first else second
  }

  function Default<T>(value: Option<T>, default: T): T {
    match value case Some(v) => v case None => default
  }

  /** The project's value wins where a project may choose; the worker model and
      the provider-native mode are the user's alone. */
  function MergeCompaction(global: Option<Compaction>, project: Option<Compaction>): Option<Compaction> {
    if global.None? && project.None? then None
    else
      var g, p := Default(global, NO_COMPACTION), Default(project, NO_COMPACTION);
      var gt, pt := Default(g.thresholds, NO_THRESHOLDS), Default(p.thresholds, NO_THRESHOLDS);
      var gw, pw := Default(g.worker, NO_WORKER), Default(p.worker, NO_WORKER);
      Some(Compaction(
        Or(p.enabled, g.enabled),
        Some(Thresholds(Or(pt.warn, gt.warn), Or(pt.start, gt.start), Or(pt.hard, gt.hard))),
        Or(p.keepRecentTokens, g.keepRecentTokens),
        Some(Worker(Or(pw.input, gw.input), gw.model, Or(pw.maxToolRoundtrips, gw.maxToolRoundtrips), Or(pw.timeoutMs, gw.timeoutMs))),
        Or(p.hardWaitMs, g.hardWaitMs),
        Or(p.maxConsecutiveFailures, g.maxConsecutiveFailures),
        Or(p.reactive, g.reactive),
        g.providerNative,
        Or(p.instructions, g.instructions),
        Or(p.modelTool, g.modelTool)))
  }

  function Merge(global: Settings, project: Settings): Settings {
    Settings(Or(project.contextTokenBudget, global.contextTokenBudget),
             MergeCompaction(global.compaction, project.compaction))
  }

  // ---- The check

  const SUMMARY_RESERVE: nat := 8_192

  const MAX_HARD_WAIT_MS: nat := 300_000

  datatype Trigger = Trigger(
    enabled: bool,
    warn: real,
    start: real,
    hard: real,
    keepRecentTokens: U64,
    hardWaitMs: U64,
    maxConsecutiveFailures: U64,
    reactive: bool
  )

  function ResolveTrigger(s: Settings): Trigger {
    var c := Default(s.compaction, NO_COMPACTION);
    var t := Default(c.thresholds, NO_THRESHOLDS);
    Trigger(Default(c.enabled, true),
            Default(t.warn, 0.60), Default(t.start, 0.72), Default(t.hard, 0.90),
            Default(c.keepRecentTokens, 8_000), Default(c.hardWaitMs, 120_000),
            Default(c.maxConsecutiveFailures, 3), Default(c.reactive, true))
  }

  function CompactionTrigger(s: Settings): Result<Trigger, ConfigError> {
    var t := ResolveTrigger(s);
    if s.contextTokenBudget.Some? && s.contextTokenBudget.value < SUMMARY_RESERVE then Err(BudgetTooSmall)
    else if !(0.0 < t.warn && t.warn < t.start && t.start < t.hard && t.hard < 1.0) then Err(ThresholdsUnordered)
    else if t.keepRecentTokens == 0 then Err(NoTail)
    else if t.maxConsecutiveFailures == 0 then Err(NoFailuresAllowed)
    else if t.hardWaitMs > MAX_HARD_WAIT_MS then Err(WaitTooLong)
    else Ok(t)
  }

  /** What a harness may rely on once its settings were accepted. */
  predicate Sound(t: Trigger) {
    && 0.0 < t.warn < t.start < t.hard < 1.0
    && t.keepRecentTokens > 0
    && t.maxConsecutiveFailures > 0
    && t.hardWaitMs <= MAX_HARD_WAIT_MS
  }

  lemma TriggerIsSoundExactlyWhenAccepted(s: Settings)
    ensures CompactionTrigger(s).Ok? <==>
              && Sound(ResolveTrigger(s))
              && (s.contextTokenBudget.Some? ==> s.contextTokenBudget.value >= SUMMARY_RESERVE)
    ensures CompactionTrigger(s).Ok? ==> CompactionTrigger(s).value == ResolveTrigger(s)
  {
  }

  /** A project without settings changes nothing that the check reads, so
      checking the user's settings alone is checking what a load would use. */
  lemma EmptyProjectIsNoProject(global: Settings)
    ensures CompactionTrigger(Merge(global, NO_SETTINGS)) == CompactionTrigger(global)
  {
  }

  /** Each refusal names the first of its reasons. */
  lemma RefusedSettingsSayWhy(s: Settings)
    requires CompactionTrigger(s).Err?
    ensures var e, t, budget := CompactionTrigger(s).error, ResolveTrigger(s), s.contextTokenBudget;
            var small := budget.Some? && budget.value < 8_192;
            var ordered := 0.0 < t.warn < t.start < t.hard < 1.0;
            && (e == BudgetTooSmall <==> small)
            && (e == ThresholdsUnordered <==> !small && !ordered)
            && (e == NoTail <==> !small && ordered && t.keepRecentTokens == 0)
            && (e == NoFailuresAllowed <==> !small && ordered && t.keepRecentTokens > 0 && t.maxConsecutiveFailures == 0)
            && (e == WaitTooLong <==>
                  !small && ordered && t.keepRecentTokens > 0 && t.maxConsecutiveFailures > 0 && t.hardWaitMs > 300_000)
  {
  }

  // ---- Who decides

  /** The project's value, else the user's, else the documented one. */
  function Decided<T>(project: Option<T>, user: Option<T>, documented: T): T {
    match (project, user)
    case (Some(value), _) => value
    case (None, Some(value)) => value
    case (None, None) => documented
  }

  function BlockOf(s: Settings): Compaction {
    Default(s.compaction, NO_COMPACTION)
  }

  function LadderOf(s: Settings): Thresholds {
    Default(BlockOf(s).thresholds, NO_THRESHOLDS)
  }

  function WorkerOf(s: Settings): Worker {
    Default(BlockOf(s).worker, NO_WORKER)
  }

  /** Each field of a trigger, accepted or not, is its own key: what the project
      sets, else what the user sets, else the documented default. */
  lemma TriggerFieldsAreDecided(user: Settings, project: Settings)
    ensures CompactionTrigger(Merge(user, project)) == Ok(ResolveTrigger(Merge(user, project))) ||
            CompactionTrigger(Merge(user, project)).Err?
    ensures var t, u, p := ResolveTrigger(Merge(user, project)), BlockOf(user), BlockOf(project);
            var ul, pl := LadderOf(user), LadderOf(project);
            && t.enabled == Decided(p.enabled, u.enabled, true)
            && t.reactive == Decided(p.reactive, u.reactive, true)
            && t.keepRecentTokens == Decided(p.keepRecentTokens, u.keepRecentTokens, 8_000)
            && t.hardWaitMs == Decided(p.hardWaitMs, u.hardWaitMs, 120_000)
            && t.maxConsecutiveFailures == Decided(p.maxConsecutiveFailures, u.maxConsecutiveFailures, 3)
            && t.warn == Decided(pl.warn, ul.warn, 0.60)
            && t.start == Decided(pl.start, ul.start, 0.72)
            && t.hard == Decided(pl.hard, ul.hard, 0.90)
  {
  }

  /** The rest of the merge: the project's value if it sets one, else the user's; but
      the worker model and the provider-native mode are the user's alone. */
  lemma MergedSettingsAreDecided(user: Settings, project: Settings)
    ensures var m := Merge(user, project);
            var c, u, p := BlockOf(m), BlockOf(user), BlockOf(project);
            var w, uw, pw := WorkerOf(m), WorkerOf(user), WorkerOf(project);
            && m.contextTokenBudget == (if project.contextTokenBudget.Some? then project else user).contextTokenBudget
            && c.instructions == (if p.instructions.Some? then p else u).instructions
            && c.modelTool == (if p.modelTool.Some? then p else u).modelTool
            && c.providerNative == u.providerNative
            && w.input == (if pw.input.Some? then pw else uw).input
            && w.maxToolRoundtrips == (if pw.maxToolRoundtrips.Some? then pw else uw).maxToolRoundtrips
            && w.timeoutMs == (if pw.timeoutMs.Some? then pw else uw).timeoutMs
            && w.model == uw.model
            && (m.compaction.None? <==> user.compaction.None? && project.compaction.None?)
  {
  }
}
