/** Saving one setting: read the user's file, change the key, check the result
    together with the project's file where the setting calls for it, and replace
    the file. */
module SettingsSave {
  import opened Prelude
  import opened Json
  import opened SettingsFile
  import opened Settings

  datatype File = Missing | Broken | Doc(value: Json)

  function ReadObject(file: File): Result<Object, ConfigError> {
    match file
    case Missing => Ok(map[])
    case Broken => Err(InvalidFile)
    case Doc(value) => if value.Obj? then Ok(value.fields) else Err(NotAnObject)
  }

  const SETTINGS_FIELDS: nat := 34

  /** The keys of a whole file. A file that is one array is read by position too;
      only the two keys of this model are taken from it. */
  function FileObject(value: Json): Option<Object> {
    match value
    case Obj(fields) => Some(fields)
    case Arr(items) =>
      if |items| == SETTINGS_FIELDS then Some(map["contextTokenBudget" := items[3], "compaction" := items[33]]) else None
    case _ => None
  }

  /** The keys of the settings in the order the program declares them. */
  function SettingsKeys(): seq<string> {
    ["defaultProvider", "defaultModel", "baseUrl", "contextTokenBudget", "microcompactionWatermark",
     "defaultReasoning", "promptCacheRetention", "anthropicContextManagement", "enabledModels",
     "compactionSummarizer", "microcompaction", "toolResultCompaction", "mutationSafety", "tasks", "bashToolMode",
     "webSearchBackend", "readWebPageBackend", "searxngUrl", "searchTimeoutMs", "readTimeoutMs", "maxSearchResults",
     "maxSearchResponseBytes", "maxReadResponseBytes", "maxReadOutputBytes", "maxToolRoundtrips", "retry",
     "codexTransport", "codexStreamIdleTimeoutMs", "openAiCompatible", "verify", "tui", "defaultApproval",
     "worktreeRoot", "compaction"]
  }

  /** A whole file as an array is read only if it has an item for each key, and the
      modelled keys have the items at their places. */
  lemma FileArraysAreReadByPosition(items: seq<Json>)
    ensures FileObject(Arr(items)).Some? <==> |items| == |SettingsKeys()|
    ensures |items| == |SettingsKeys()| ==>
              var obj := FileObject(Arr(items)).value;
              && SettingsKeys()[3] in obj && obj[SettingsKeys()[3]] == items[3]
              && SettingsKeys()[33] in obj && obj[SettingsKeys()[33]] == items[33]
  {
    assert SettingsKeys()[3] == "contextTokenBudget" && SettingsKeys()[33] == "compaction";
  }

  function ReadOptional(file: File): Result<Option<Settings>, ConfigError> {
    match file
    case Missing => Ok(None)
    case Broken => Err(InvalidFile)
    case Doc(value) =>
      match FileObject(value)
      case None => Err(InvalidSettings)
      case Some(obj) =>
        match Parse(obj)
        case Ok(settings) => Ok(Some(settings))
        case Err(e) => Err(e)
  }

  /** What the harness of a project starts from. */
  function Load(global: File, project: File): Result<Settings, ConfigError> {
    match (ReadOptional(global), ReadOptional(project))
    case (Err(e), _) => Err(e)
    case (Ok(_), Err(e)) => Err(e)
    case (Ok(g), Ok(p)) => Ok(Merge(Default(g, NO_SETTINGS), Default(p, NO_SETTINGS)))
  }

  predicate Passing(global: File, project: File) {
    Load(global, project).Ok? && CompactionTrigger(Load(global, project).value).Ok?
  }

  // ---- The saves

  datatype Rung = Warn | Start | Hard

  datatype Fraction = Finite(value: real) | NonFinite

  datatype Save =
    | Enabled(on: bool)
    | Reactive(on: bool)
    | KeepRecentTokens(tokens: U64)
    | HardWait(ms: U64)
    | Threshold(rung: Rung, fraction: Fraction)
    | ContextTokenBudget(budget: U64)
    | ProviderNative(mode: string)
    | WorkerInput(input: string)

  const MIN_TOKEN_BUDGET: nat := 1_000

  const MAX_TOKEN_BUDGET: nat := 100_000_000

  function RungKey(rung: Rung): string {
    match rung case Warn => "warn" case Start => "start" case Hard => "hard"
  }

  function KnownMode(mode: string): string {
    if mode == "off" || mode == "auto" then mode else "off"
  }

  function KnownInput(input: string): string {
    if input == "transcript" || input == "investigator" then input else "transcript"
  }

  function Number(n: int): Json {
    Num(Integer(n))
  }

  /** The block a save writes in and the value it writes, brought into range; or
      why there is nothing to write. */
  function Write(save: Save): Result<(seq<string>, Update), ConfigError> {
    match save
    case Enabled(on) => Ok((["compaction"], ("enabled", Bool(on))))
    case Reactive(on) => Ok((["compaction"], ("reactive", Bool(on))))
    case KeepRecentTokens(tokens) =>
      Ok((["compaction"], ("keepRecentTokens", Number(Min(Max(tokens, MIN_TOKEN_BUDGET), MAX_TOKEN_BUDGET)))))
    case HardWait(ms) => Ok((["compaction"], ("hardWaitMs", Number(Min(ms, MAX_HARD_WAIT_MS)))))
    case Threshold(rung, Finite(value)) => Ok((["compaction", "thresholds"], (RungKey(rung), Num(Float(value)))))
    case Threshold(_, NonFinite) => Err(NotFinite)
    case ContextTokenBudget(budget) =>
      if budget < SUMMARY_RESERVE then Err(BudgetTooSmall)
      else Ok(([], ("contextTokenBudget", Number(Min(budget, MAX_TOKEN_BUDGET)))))
    case ProviderNative(mode) => Ok((["compaction"], ("providerNative", Str(KnownMode(mode)))))
    case WorkerInput(input) => Ok((["compaction", "worker"], ("input", Str(KnownInput(input)))))
  }

  /** The budget, the provider mode and the worker input are saved unchecked. */
  predicate IsChecked(save: Save) {
    !save.ContextTokenBudget? && !save.ProviderNative? && !save.WorkerInput?
  }

  predicate HasOverrides(project: Settings) {
    project.compaction.Some? &&
    var c := project.compaction.value;
    || (c.thresholds.Some? && (c.thresholds.value.warn.Some? || c.thresholds.value.start.Some? || c.thresholds.value.hard.Some?))
    || c.keepRecentTokens.Some? || c.enabled.Some? || c.reactive.Some?
  }

  /** The check of a candidate file against the project at hand; none if it passes. */
  function CheckMerged(candidate: Object, project: File): Option<ConfigError> {
    match Parse(candidate)
    case Err(e) => Some(e)
    case Ok(global) =>
      match ReadOptional(project)
      case Err(e) => Some(e)
      case Ok(None) => (match CompactionTrigger(global) case Err(e) => Some(e) case Ok(_) => None)
      case Ok(Some(settings)) =>
        match CompactionTrigger(Merge(global, settings))
        case Err(e) => Some(if HasOverrides(settings) then ProjectConflict(e) else e)
        case Ok(_) => None
  }

  /** The file a save would write, if it gets that far. */
  function Candidate(global: File, save: Save): Result<Object, ConfigError> {
    match Write(save)
    case Err(e) => Err(e)
    case Ok((blocks, update)) =>
      match ReadObject(global)
      case Err(e) => Err(e)
      case Ok(obj) => Ok(UpdateNested(obj, blocks, [update]))
  }

  /** The user's file after a save, and why it failed, if it did. The file is
      replaced in one step by a rename, which may fail. */
  function RunSave(global: File, project: File, save: Save, renamed: bool): (File, Option<ConfigError>) {
    match Candidate(global, save)
    case Err(e) => (global, Some(e))
    case Ok(candidate) =>
      if IsChecked(save) && CheckMerged(candidate, project).Some? then (global, CheckMerged(candidate, project))
      else if !renamed then (global, Some(WriteFailed))
      else (Doc(Obj(candidate)), None)
  }

  /** The settings file, which saves read, check and replace. */
  class SettingsStore {
    var global: File

    constructor (global: File)
      ensures this.global == global
    {
      this.global := global;
    }

    method SaveSetting(save: Save, project: File, renamed: bool) returns (error: Option<ConfigError>)
      modifies this
      ensures (global, error) == RunSave(old(global), project, save, renamed)
    {
      var write := Write(save);
      if write.Err? {
        return Some(write.error);
      }
      var (blocks, update) := write.value;
      var read := ReadObject(global);
      if read.Err? {
        return Some(read.error);
      }
      var updated := UpdateNestedBlocks(read.value, blocks, [update]);
      if IsChecked(save) {
        error := CheckMerged(updated, project);
        if error.Some? {
          return;
        }
      }
      if !renamed {
        return Some(WriteFailed);
      }
      global := Doc(Obj(updated));
      error := None;
    }
  }

  // ---- What a save does to the settings it reads back as

  function WithThreshold(t: Thresholds, rung: Rung, value: real): Thresholds {
    match rung
    case Warn => t.(warn := Some(value))
    case Start => t.(start := Some(value))
    case Hard => t.(hard := Some(value))
  }

  /** The settings with just the saved value changed. */
  function WithSave(s: Settings, save: Save): Settings
    requires Write(save).Ok?
  {
    var c := Default(s.compaction, NO_COMPACTION);
    match save
    case Enabled(on) => s.(compaction := Some(c.(enabled := Some(on))))
    case Reactive(on) => s.(compaction := Some(c.(reactive := Some(on))))
    case KeepRecentTokens(tokens) =>
      s.(compaction := Some(c.(keepRecentTokens := Some(Min(Max(tokens, MIN_TOKEN_BUDGET), MAX_TOKEN_BUDGET)))))
    case HardWait(ms) => s.(compaction := Some(c.(hardWaitMs := Some(Min(ms, MAX_HARD_WAIT_MS)))))
    case Threshold(rung, fraction) =>
      s.(compaction := Some(c.(thresholds := Some(WithThreshold(Default(c.thresholds, NO_THRESHOLDS), rung, fraction.value)))))
    case ContextTokenBudget(budget) => s.(contextTokenBudget := Some(Min(budget, MAX_TOKEN_BUDGET)))
    case ProviderNative(mode) => s.(compaction := Some(c.(providerNative := Some(KnownMode(mode)))))
    case WorkerInput(input) =>
      s.(compaction := Some(c.(worker := Some(Default(c.worker, NO_WORKER).(input := Some(KnownInput(input)))))))
  }

  predicate IsArray(obj: Object, key: string) {
    key in obj && obj[key].Arr?
  }

  /** The settings as a save finds them: it needs objects on its path, so an array
      that was read as a block there counts as empty from then on. */
  function Opened(obj: Object, save: Save): Settings {
    var s := ReadSettings(obj);
    var c := Default(s.compaction, NO_COMPACTION);
    if save.ContextTokenBudget? then s
    else if IsArray(obj, "compaction") then s.(compaction := None)
    else if save.Threshold? && IsArray(Child(obj, "compaction"), "thresholds") then
      s.(compaction := Some(c.(thresholds := None)))
    else if save.WorkerInput? && IsArray(Child(obj, "compaction"), "worker") then
      s.(compaction := Some(c.(worker := None)))
    else s
  }

  lemma ApplyOneUpdate(obj: Object, update: Update)
    ensures Apply(obj, [update]) == ApplyOne(obj, update)
  {
    assert [update][..0] == [];
    assert Apply(obj, []) == obj;
  }

  // A compaction block with one of its own keys written.
  lemma InCompaction(obj: Object, update: Update)
    ensures UpdateNested(obj, ["compaction"], [update]) ==
            obj["compaction" := Obj(ApplyOne(Child(obj, "compaction"), update))]
  {
    ApplyOneUpdate(Child(obj, "compaction"), update);
    assert ["compaction"][1..] == [];
  }

  lemma InCompactionBlock(obj: Object, block: string, update: Update)
    ensures var c := Child(obj, "compaction");
            UpdateNested(obj, ["compaction", block], [update]) ==
            obj["compaction" := Obj(c[block := Obj(ApplyOne(Child(c, block), update))])]
  {
    var c := Child(obj, "compaction");
    ApplyOneUpdate(Child(c, block), update);
    assert ["compaction", block][1..] == [block] && [block][1..] == [];
    assert UpdateNested(c, [block], [update]) == c[block := Obj(ApplyOne(Child(c, block), update))];
  }

  lemma EmptyReads()
    ensures ThresholdsTyped(map[]) && ReadThresholds(map[]) == NO_THRESHOLDS
    ensures WorkerTyped(map[]) && ReadWorker(map[]) == NO_WORKER
    ensures CompactionTyped(map[]) && ReadCompaction(map[]) == NO_COMPACTION
  {
    assert forall key :: Value(map[], key) == None;
  }

  // What a save opens is the block that is read, set or not, unless an array
  // stands there.
  lemma ChildIsTheBlock(obj: Object, key: string, structure: Structure)
    requires Value(obj, key).Some? ==> AsBlock(Value(obj, key), structure).Some?
    ensures Value(obj, key).None? || IsArray(obj, key) ==> Child(obj, key) == map[]
    ensures Value(obj, key).Some? && !IsArray(obj, key) ==> AsBlock(Value(obj, key), structure) == Some(Child(obj, key))
  {
  }

  lemma ChildReadsAsCompaction(obj: Object)
    requires SettingsTyped(obj)
    ensures CompactionTyped(Child(obj, "compaction"))
    ensures ReadCompaction(Child(obj, "compaction")) ==
            if IsArray(obj, "compaction") then NO_COMPACTION else Default(ReadSettings(obj).compaction, NO_COMPACTION)
  {
    ChildIsTheBlock(obj, "compaction", CompactionFields);
    EmptyReads();
  }

  lemma ChildReadsAsThresholds(c: Object)
    requires CompactionTyped(c)
    ensures ThresholdsTyped(Child(c, "thresholds"))
    ensures ReadThresholds(Child(c, "thresholds")) ==
            if IsArray(c, "thresholds") then NO_THRESHOLDS else Default(ReadCompaction(c).thresholds, NO_THRESHOLDS)
  {
    ChildIsTheBlock(c, "thresholds", ThresholdFields);
    EmptyReads();
  }

  lemma ChildReadsAsWorker(c: Object)
    requires CompactionTyped(c)
    ensures WorkerTyped(Child(c, "worker"))
    ensures ReadWorker(Child(c, "worker")) ==
            if IsArray(c, "worker") then NO_WORKER else Default(ReadCompaction(c).worker, NO_WORKER)
  {
    ChildIsTheBlock(c, "worker", WorkerFields);
    EmptyReads();
  }

  lemma NewCompactionReadsBack(obj: Object, c: Object)
    requires SettingsTyped(obj) && CompactionTyped(c)
    ensures var updated := obj["compaction" := Obj(c)];
            SettingsTyped(updated) && ReadSettings(updated) == ReadSettings(obj).(compaction := Some(ReadCompaction(c)))
  {
  }

  // d is c with one key given a value that is not null.
  ghost predicate Rekeyed(c: Object, d: Object, key: string, value: Json) {
    && Value(d, key) == Some(value)
    && forall k :: k != key ==> Value(d, k) == Value(c, k)
  }

  // The value may stand under this key of the compaction block.
  predicate KeyTyped(key: string, value: Json) {
    match key
    case "enabled" => AsBool(Some(value)).Some?
    case "reactive" => AsBool(Some(value)).Some?
    case "keepRecentTokens" => AsNat(Some(value)).Some?
    case "hardWaitMs" => AsNat(Some(value)).Some?
    case "providerNative" => AsString(Some(value)).Some?
    case "thresholds" => AsThresholds(Some(value)).Some?
    case "worker" => AsWorker(Some(value)).Some?
    case _ => false
  }

  // The compaction settings with the value of this key read in.
  function SetKey(c: Compaction, key: string, value: Json): Compaction
    requires KeyTyped(key, value)
  {
    match key
    case "enabled" => c.(enabled := AsBool(Some(value)))
    case "reactive" => c.(reactive := AsBool(Some(value)))
    case "keepRecentTokens" => c.(keepRecentTokens := AsNat(Some(value)))
    case "hardWaitMs" => c.(hardWaitMs := AsNat(Some(value)))
    case "providerNative" => c.(providerNative := AsString(Some(value)))
    case "thresholds" => c.(thresholds := AsThresholds(Some(value)))
    case "worker" => c.(worker := AsWorker(Some(value)))
  }

  lemma KeyStaysTyped(c: Object, d: Object, key: string, value: Json)
    requires CompactionTyped(c) && KeyTyped(key, value) && Rekeyed(c, d, key, value)
    ensures CompactionTyped(d)
  {
  }

  lemma KeyReadsBack(c: Object, d: Object, key: string, value: Json)
    requires KeyTyped(key, value) && Rekeyed(c, d, key, value)
    ensures ReadCompaction(d) == SetKey(ReadCompaction(c), key, value)
  {
  }

  // A key of the compaction block itself.
  predicate IsPlain(save: Save) {
    save.Enabled? || save.Reactive? || save.KeepRecentTokens? || save.HardWait? || save.ProviderNative?
  }

  lemma PlainKeyReadsBack(c: Object, d: Object, s: Settings, save: Save)
    requires CompactionTyped(c) && IsPlain(save) && Rekeyed(c, d, Write(save).value.1.0, Write(save).value.1.1)
    requires ReadCompaction(c) == Default(s.compaction, NO_COMPACTION)
    ensures CompactionTyped(d) && WithSave(s, save) == s.(compaction := Some(ReadCompaction(d)))
  {
    KeyStaysTyped(c, d, Write(save).value.1.0, Write(save).value.1.1);
    KeyReadsBack(c, d, Write(save).value.1.0, Write(save).value.1.1);
  }

  lemma RungReadsBack(t: Object, rung: Rung, value: real)
    requires ThresholdsTyped(t)
    ensures var d := t[RungKey(rung) := Num(Float(value))];
            ThresholdsTyped(d) && ReadThresholds(d) == WithThreshold(ReadThresholds(t), rung, value)
  {
  }

  lemma InputReadsBack(w: Object, input: string)
    requires WorkerTyped(w)
    ensures var d := w["input" := Str(input)];
            WorkerTyped(d) && ReadWorker(d) == ReadWorker(w).(input := Some(input))
  {
  }

  lemma BudgetReadsBack(obj: Object, budget: U64)
    requires SettingsTyped(obj)
    ensures var written := obj["contextTokenBudget" := Number(budget)];
            SettingsTyped(written) && ReadSettings(written) == ReadSettings(obj).(contextTokenBudget := Some(budget))
  {
  }

  // What the file reads as after one update.
  function After(obj: Object, save: Save): Result<Settings, ConfigError>
    requires Write(save).Ok?
  {
    Parse(UpdateNested(obj, Write(save).value.0, [Write(save).value.1]))
  }

  lemma CompactionReadsBack(obj: Object, c: Object, s: Settings)
    requires SettingsTyped(obj) && CompactionTyped(c) && s.contextTokenBudget == ReadSettings(obj).contextTokenBudget
    ensures Parse(obj["compaction" := Obj(c)]) == Ok(s.(compaction := Some(ReadCompaction(c))))
  {
    NewCompactionReadsBack(obj, c);
  }

  // In the lemmas below s is what the save finds: the same settings as the file's,
  // as far as the blocks that the save opens tell.

  lemma ThresholdSaveReadsBack(obj: Object, save: Save, s: Settings)
    requires SettingsTyped(obj) && save.Threshold? && Write(save).Ok?
    requires s.contextTokenBudget == ReadSettings(obj).contextTokenBudget
    requires var c, d := Child(obj, "compaction"), Default(s.compaction, NO_COMPACTION);
             && CompactionTyped(c) && d.(thresholds := None) == ReadCompaction(c).(thresholds := None)
             && ThresholdsTyped(Child(c, "thresholds"))
             && Default(d.thresholds, NO_THRESHOLDS) == ReadThresholds(Child(c, "thresholds"))
    ensures After(obj, save) == Ok(WithSave(s, save))
  {
    var c := Child(obj, "compaction");
    var before := Child(c, "thresholds");
    var t := before[RungKey(save.rung) := Num(Float(save.fraction.value))];
    var d := c["thresholds" := Obj(t)];
    InCompactionBlock(obj, "thresholds", Write(save).value.1);
    RungReadsBack(before, save.rung, save.fraction.value);
    BlockReadsBack(c, d, "thresholds", t);
    CompactionReadsBack(obj, d, s);
  }

  lemma WorkerSaveReadsBack(obj: Object, save: Save, s: Settings)
    requires SettingsTyped(obj) && save.WorkerInput?
    requires s.contextTokenBudget == ReadSettings(obj).contextTokenBudget
    requires var c, d := Child(obj, "compaction"), Default(s.compaction, NO_COMPACTION);
             && CompactionTyped(c) && d.(worker := None) == ReadCompaction(c).(worker := None)
             && WorkerTyped(Child(c, "worker"))
             && Default(d.worker, NO_WORKER) == ReadWorker(Child(c, "worker"))
    ensures After(obj, save) == Ok(WithSave(s, save))
  {
    var c := Child(obj, "compaction");
    var before := Child(c, "worker");
    var w := before["input" := Str(KnownInput(save.input))];
    var d := c["worker" := Obj(w)];
    InCompactionBlock(obj, "worker", Write(save).value.1);
    InputReadsBack(before, KnownInput(save.input));
    BlockReadsBack(c, d, "worker", w);
    CompactionReadsBack(obj, d, s);
  }

  lemma BlockReadsBack(c: Object, d: Object, key: string, block: Object)
    requires CompactionTyped(c) && KeyTyped(key, Obj(block)) && d == c[key := Obj(block)]
    ensures CompactionTyped(d) && ReadCompaction(d) == SetKey(ReadCompaction(c), key, Obj(block))
  {
    KeyStaysTyped(c, d, key, Obj(block));
    KeyReadsBack(c, d, key, Obj(block));
  }

  lemma PlainSaveReadsBack(obj: Object, save: Save, s: Settings)
    requires SettingsTyped(obj) && IsPlain(save)
    requires s.contextTokenBudget == ReadSettings(obj).contextTokenBudget
    requires CompactionTyped(Child(obj, "compaction"))
    requires ReadCompaction(Child(obj, "compaction")) == Default(s.compaction, NO_COMPACTION)
    ensures After(obj, save) == Ok(WithSave(s, save))
  {
    var c := Child(obj, "compaction");
    var update := Write(save).value.1;
    InCompaction(obj, update);
    PlainKeyReadsBack(c, ApplyOne(c, update), s, save);
    CompactionReadsBack(obj, ApplyOne(c, update), s);
  }

  /** Read back after the write, the settings are the old ones with exactly the
      saved value in place, save that an array on the path has been emptied;
      nothing else changes and the file stays well typed. */
  lemma SaveReadsBack(obj: Object, save: Save)
    requires SettingsTyped(obj) && Write(save).Ok?
    ensures After(obj, save) == Ok(WithSave(Opened(obj, save), save))
  {
    var s := Opened(obj, save);
    ChildReadsAsCompaction(obj);
    ChildReadsAsThresholds(Child(obj, "compaction"));
    ChildReadsAsWorker(Child(obj, "compaction"));
    if save.ContextTokenBudget? {
      ApplyOneUpdate(obj, Write(save).value.1);
      BudgetReadsBack(obj, Min(save.budget, MAX_TOKEN_BUDGET));
    } else if save.Threshold? {
      ThresholdSaveReadsBack(obj, save, s);
    } else if save.WorkerInput? {
      WorkerSaveReadsBack(obj, save, s);
    } else {
      PlainSaveReadsBack(obj, save, s);
    }
  }

  // ---- Keys and files

  /** Each setting is read from its own key of its own block, and a key that is set
      is never passed over. */
  lemma SettingsAreReadFromTheirKeys(obj: Object)
    requires SettingsTyped(obj) && !IsArray(obj, "compaction")
    requires !IsArray(Child(obj, "compaction"), "thresholds") && !IsArray(Child(obj, "compaction"), "worker")
    ensures var s, block := ReadSettings(obj), Child(obj, "compaction");
            var c, t, w := BlockOf(s), LadderOf(s), WorkerOf(s);
            && s.contextTokenBudget == AsNat(Value(obj, "contextTokenBudget"))
            && c.enabled == AsBool(Value(block, "enabled")) && c.reactive == AsBool(Value(block, "reactive"))
            && c.keepRecentTokens == AsNat(Value(block, "keepRecentTokens")) && c.hardWaitMs == AsNat(Value(block, "hardWaitMs"))
            && c.maxConsecutiveFailures == AsU32(Value(block, "maxConsecutiveFailures"))
            && c.providerNative == AsString(Value(block, "providerNative"))
            && c.instructions == AsString(Value(block, "instructions")) && c.modelTool == AsBool(Value(block, "modelTool"))
            && t.warn == AsReal(Value(Child(block, "thresholds"), "warn"))
            && t.start == AsReal(Value(Child(block, "thresholds"), "start"))
            && t.hard == AsReal(Value(Child(block, "thresholds"), "hard"))
            && w.input == AsString(Value(Child(block, "worker"), "input"))
            && w.model == AsString(Value(Child(block, "worker"), "model"))
            && w.maxToolRoundtrips == AsNat(Value(Child(block, "worker"), "maxToolRoundtrips"))
            && w.timeoutMs == AsNat(Value(Child(block, "worker"), "timeoutMs"))
  {
    ChildReadsAsCompaction(obj);
    ChildReadsAsThresholds(Child(obj, "compaction"));
    ChildReadsAsWorker(Child(obj, "compaction"));
  }

  /** A compaction block is accepted only if every key that is set in it has the type
      it is read as, in the blocks within it as well. */
  lemma MistypedBlocksAreRefused(c: Object)
    ensures CompactionTyped(c) <==>
              && Typed(Value(c, "enabled"), AsBool(Value(c, "enabled")))
              && Typed(Value(c, "reactive"), AsBool(Value(c, "reactive")))
              && Typed(Value(c, "keepRecentTokens"), AsNat(Value(c, "keepRecentTokens")))
              && Typed(Value(c, "hardWaitMs"), AsNat(Value(c, "hardWaitMs")))
              && Typed(Value(c, "maxConsecutiveFailures"), AsU32(Value(c, "maxConsecutiveFailures")))
              && Typed(Value(c, "providerNative"), AsString(Value(c, "providerNative")))
              && Typed(Value(c, "instructions"), AsString(Value(c, "instructions")))
              && Typed(Value(c, "modelTool"), AsBool(Value(c, "modelTool")))
              && (Value(c, "thresholds").Some? ==>
                    var t := AsBlock(Value(c, "thresholds"), ThresholdFields);
                    && t.Some? && Typed(Value(t.value, "warn"), AsReal(Value(t.value, "warn")))
                    && Typed(Value(t.value, "start"), AsReal(Value(t.value, "start")))
                    && Typed(Value(t.value, "hard"), AsReal(Value(t.value, "hard"))))
              && (Value(c, "worker").Some? ==>
                    var w := AsBlock(Value(c, "worker"), WorkerFields);
                    && w.Some? && Typed(Value(w.value, "input"), AsString(Value(w.value, "input")))
                    && Typed(Value(w.value, "model"), AsString(Value(w.value, "model")))
                    && Typed(Value(w.value, "maxToolRoundtrips"), AsNat(Value(w.value, "maxToolRoundtrips")))
                    && Typed(Value(w.value, "timeoutMs"), AsNat(Value(w.value, "timeoutMs"))))
  {
  }

  function Between(low: nat, high: nat, n: nat): nat {
    if n < low then low else if n > high then high else n
  }

  /** The key a save writes and what stands there afterwards: numbers brought into
      range, and the known words as themselves. */
  function Written(save: Save): Option<(seq<string>, Json)> {
    match save
    case Enabled(on) => Some((["compaction", "enabled"], Bool(on)))
    case Reactive(on) => Some((["compaction", "reactive"], Bool(on)))
    case KeepRecentTokens(n) => Some((["compaction", "keepRecentTokens"], Num(Integer(Between(1_000, 100_000_000, n)))))
    case HardWait(ms) => Some((["compaction", "hardWaitMs"], Num(Integer(Between(0, 300_000, ms)))))
    case Threshold(Warn, Finite(x)) => Some((["compaction", "thresholds", "warn"], Num(Float(x))))
    case Threshold(Start, Finite(x)) => Some((["compaction", "thresholds", "start"], Num(Float(x))))
    case Threshold(Hard, Finite(x)) => Some((["compaction", "thresholds", "hard"], Num(Float(x))))
    case ContextTokenBudget(n) =>
      if n < 8_192 then None else Some((["contextTokenBudget"], Num(Integer(Between(8_192, 100_000_000, n)))))
    case ProviderNative(mode) => Some((["compaction", "providerNative"], Str(if mode == "auto" then "auto" else "off")))
    case WorkerInput(input) =>
      Some((["compaction", "worker", "input"], Str(if input == "investigator" then "investigator" else "transcript")))
    case _ => None
  }

  /** A save that has something to write leaves it at its key, whatever the file held;
      only a threshold that is not finite and a budget under the reserve have not. */
  lemma SavesWriteTheirKeys(obj: Object, save: Save)
    ensures Write(save).Ok? <==> Written(save).Some?
    ensures save == Threshold(Warn, NonFinite) ==> Write(save) == Err(NotFinite)
    ensures save.ContextTokenBudget? && save.budget < 8_192 ==> Write(save) == Err(BudgetTooSmall)
    ensures Write(save).Ok? ==>
              At(Obj(UpdateNested(obj, Write(save).value.0, [Write(save).value.1])), Fields(Written(save).value.0)) ==
              Some(Written(save).value.1)
  {
    if Write(save).Ok? {
      var (blocks, update) := Write(save).value;
      assert LastWrite([update], update.0) == Some(update.1);
      ReadBack(obj, blocks, [update], update.0);
      assert blocks + [update.0] == Written(save).value.0;
    }
  }

  /** A file that is no object, or cannot be read, is never written over. */
  lemma UnreadableFilesAreLeft(global: File, project: File, save: Save, renamed: bool)
    requires Write(save).Ok?
    ensures global == Broken ==> RunSave(global, project, save, renamed) == (Broken, Some(InvalidFile))
    ensures global.Doc? && !global.value.Obj? ==> RunSave(global, project, save, renamed) == (global, Some(NotAnObject))
  {
  }

  /** A refusal names a conflict with the project if and only if the merged settings
      are refused and the project sets a threshold, the tail, the switch or the
      reactive switch. */
  lemma ConflictsAreNamedExactlyWhen(candidate: Object, project: File, e: ConfigError)
    requires Parse(candidate).Ok? && ReadOptional(project).Ok?
    ensures CheckMerged(candidate, project) == Some(ProjectConflict(e)) <==>
              && ReadOptional(project).value.Some?
              && var settings := ReadOptional(project).value.value;
                 var c, t := BlockOf(settings), LadderOf(settings);
                 && CompactionTrigger(Merge(Parse(candidate).value, settings)) == Err(e)
                 && (t.warn.Some? || t.start.Some? || t.hard.Some? || c.keepRecentTokens.Some?
                     || c.enabled.Some? || c.reactive.Some?)
  {
  }
}
