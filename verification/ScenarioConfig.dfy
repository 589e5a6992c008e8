/**
 Extension scenarios: the normaliser that turns a request body into a stored configuration, the
 stored form of a configuration, and the merge of a patch into it.

 The property names of the format are the constructors of `Key`; every other name is `Other`.
 */
module ScenarioConfig {
  import opened Common
  import opened Json
  import Text

  datatype DangerousName = Code | Js | Script | Eval | FunctionBody | RemoteScriptUrl

  datatype Key =
    | Id | SchemaVersion | Name | Description | ButtonLabel | Icon | Enabled | ShowInSelectionMenu | MenuOrder
    | Input | Output | Ai | Prompt | Window | CreatedAt | UpdatedAt
    | Type | Renderer | Image | Downloadable | OpenInNewTab
    | Provider | Model | Temperature | MaxTokens
    | System | User
    | ResultPosition | Theme | Draggable | Resizable
    | Mode | Items
    | Dangerous(which: DangerousName)
    | Other(name: string)

  type Value = Json<Key>
  type Plain = Fields<Key>

  /** The normaliser only rejects with BadRequest; the others come from the store. */
  datatype Error = BadRequest | NotFound | Conflict | DuplicateRow

  datatype OutputConfig = TextOutput | ImageOutput(downloadable: bool, openInNewTab: bool)
  datatype AiConfig = AiConfig(model: Option<string>, temperature: real, maxTokens: int)
  datatype PromptConfig = PromptConfig(system: string, user: string)
  datatype WindowConfig = WindowConfig(resultPosition: string, draggable: Option<bool>, resizable: Option<bool>)

  /** The columns that are mirrored in the scenario row. */
  datatype Columns = Columns(
    name: string, description: Option<string>, buttonLabel: string, icon: Option<string>,
    enabled: bool, showInSelectionMenu: bool, menuOrder: int)

  /** Everything in a configuration that the request alone decides. */
  datatype Body = Body(
    columns: Columns, output: OutputConfig, ai: AiConfig, prompt: PromptConfig, window: WindowConfig)

  datatype ScenarioConfig = ScenarioConfig(id: string, body: Body, createdAt: string, updatedAt: string)

  /** Date parsing and printing: `new Date(text)` as a time, None when invalid, and `toISOString`. */
  datatype Dates = Dates(parse: string -> Option<int>, print_: int -> string)

  /** Printing a time and parsing it again is the identity, and a printed time is not blank. */
  ghost predicate Lawful(dates: Dates) {
    forall t :: dates.parse(dates.print_(t)) == Some(t) && Text.Trim(dates.print_(t)) != ""
  }

  // ---------------------------------------------------------------- reading single values

  /** A property read; an absent property reads like null, as every check here treats the two alike. */
  function Get(fields: Plain, key: Key): Value {
    if key in fields then fields[key] else JNull
  }

  function ParseIso(dates: Dates, v: Value): Option<string> {
    if !v.JString? || Text.Trim(v.s) == "" then None
    else
      match dates.parse(v.s)
      case Some(t) => Some(dates.print_(t))
      case None => None
  }

  function CleanOptional(v: Value, max: nat): Result<Option<string>, Error> {
    if v.JNull? then Ok(None)
    else if !v.JString? || |Text.Trim(v.s)| > max then Err(BadRequest)
    else Ok(Some(Text.Trim(v.s)))
  }

  function CleanRequired(v: Value, max: nat): Result<string, Error> {
    if !v.JString? || Text.Trim(v.s) == "" || |Text.Trim(v.s)| > max then Err(BadRequest)
    else Ok(Text.Trim(v.s))
  }

  function BoolOr(v: Value, fallback: bool): bool {
    if v.JBool? then v.b else fallback
  }

  function OptionalBool(v: Value): Option<bool> {
    if v.JBool? then Some(v.b) else None
  }

  predicate IsInteger(v: Value) {
    v.JNumber? && v.n == v.n.Floor as real
  }

  function Clamp(n: int, min: int, max: int): int {
    if n < min then min else if n > max then max else n
  }

  function ClampReal(n: real, min: real, max: real): real {
    if n < min then min else if n > max then max else n
  }

  function AsObject(v: Value): Result<Plain, Error> {
    if v.JObject? then Ok(v.fields) else Err(BadRequest)
  }

  function ObjectOr(v: Value, fallback: Plain): Result<Plain, Error> {
    if v.JNull? then Ok(fallback) else AsObject(v)
  }

  predicate NoDangerousKeys(v: Value) {
    match v
    case JArray(items) => forall i :: 0 <= i < |items| ==> NoDangerousKeys(items[i])
    case JObject(fields) => forall k :: k in fields ==> !k.Dangerous? && NoDangerousKeys(fields[k])
    case _ => true
  }

  // ---------------------------------------------------------------- the normaliser, part by part

  const SELECTION_TEXT: Plain := map[Type := JString("selection_text")]
  const TEXT_OUTPUT: Plain := map[Type := JString("text"), Renderer := JString("answer_window")]

  predicate IsString(v: Value, s: string) {
    v.JString? && v.s == s
  }

  /** `String(v) === s`, for a word `s`: the string itself, or a list of one value that converts to it. */
  predicate ConvertsTo(v: Value, s: string) {
    IsString(v, s) || (v.JArray? && |v.items| == 1 && ConvertsTo(v.items[0], s))
  }

  /** The check of the type converts, the later comparisons do not: a list of one word is read as text output. */
  function NormalizeOutput(output: Plain): Result<OutputConfig, Error> {
    var kind, renderer := Get(output, Type), Get(output, Renderer);
    if !ConvertsTo(kind, "text") && !ConvertsTo(kind, "image") then Err(BadRequest)
    else if IsString(kind, "text") && !IsString(renderer, "answer_window") then Err(BadRequest)
    else if IsString(kind, "image") && !IsString(renderer, "image_window") then Err(BadRequest)
    else if IsString(kind, "image") then
      var image := Get(output, Image);
      if image.JObject? then
        Ok(ImageOutput(BoolOr(Get(image.fields, Downloadable), true), BoolOr(Get(image.fields, OpenInNewTab), true)))
      else Ok(ImageOutput(true, true))
    else Ok(TextOutput)
  }

  function NormalizeAi(ai: Plain): Result<AiConfig, Error> {
    var model :- CleanOptional(Get(ai, Model), 150);
    var temperature := Get(ai, Temperature);
    var maxTokens := Get(ai, MaxTokens);
    Ok(AiConfig(model,
                if temperature.JNumber? then ClampReal(temperature.n, 0.0, 2.0) else 0.3,
                if IsInteger(maxTokens) then Clamp(maxTokens.n.Floor, 1, 20000) else 700))
  }

  function NormalizePrompt(prompt: Plain): Result<PromptConfig, Error> {
    var system :- CleanRequired(Get(prompt, System), 12000);
    var user :- CleanRequired(Get(prompt, User), 12000);
    Ok(PromptConfig(system, user))
  }

  predicate IsPosition(s: string) {
    s == "inherit" || s == "under_action" || s == "floating"
  }

  function NormalizeWindow(window: Plain): Result<WindowConfig, Error> {
    var position := Get(window, ResultPosition);
    var resultPosition := if position.JString? then position.s else "inherit";
    if !IsPosition(resultPosition) then Err(BadRequest)
    else Ok(WindowConfig(resultPosition, OptionalBool(Get(window, Draggable)), OptionalBool(Get(window, Resizable))))
  }

  function NormalizeMenuOrder(v: Value): Result<int, Error> {
    if v.JNull? then Ok(100)
    else if IsInteger(v) then Ok(Clamp(v.n.Floor, -10000, 10000))
    else Err(BadRequest)
  }

  function NormalizeColumns(root: Plain): Result<Columns, Error> {
    var menuOrder :- NormalizeMenuOrder(Get(root, MenuOrder));
    var name :- CleanRequired(Get(root, Name), 80);
    var description :- CleanOptional(Get(root, Description), 500);
    var buttonLabel :- CleanRequired(Get(root, ButtonLabel), 28);
    var icon :- CleanOptional(Get(root, Icon), 8);
    Ok(Columns(name, description, buttonLabel, icon, BoolOr(Get(root, Enabled), true),
               BoolOr(Get(root, ShowInSelectionMenu), true), menuOrder))
  }

  function NormalizeId(root: Plain, scenarioId: Option<string>, freshId: string): Result<string, Error> {
    if scenarioId.Some? then Ok(scenarioId.value)
    else
      var own :- CleanOptional(Get(root, Id), 256);
      Ok(own.UnwrapOr(freshId))
  }

  function NormalizeBody(root: Plain): Result<Body, Error> {
    var input :- ObjectOr(Get(root, Input), SELECTION_TEXT);
    var rawOutput :- ObjectOr(Get(root, Output), TEXT_OUTPUT);
    var rawAi :- ObjectOr(Get(root, Ai), map[]);
    var rawPrompt :- ObjectOr(Get(root, Prompt), map[]);
    var rawWindow :- ObjectOr(Get(root, Window), map[]);
    NormalizeParts(root, input, rawOutput, rawAi, rawPrompt, rawWindow)
  }

  function NormalizeParts(root: Plain, input: Plain, output: Plain, ai: Plain, prompt: Plain, window: Plain)
    : (r: Result<Body, Error>)
    ensures r.Ok? <==>
              && IsString(Get(input, Type), "selection_text")
              && NormalizeColumns(root).Ok? && NormalizeOutput(output).Ok? && NormalizeAi(ai).Ok?
              && NormalizePrompt(prompt).Ok? && NormalizeWindow(window).Ok?
    ensures r.Ok? ==>
              && NormalizeColumns(root) == Ok(r.value.columns) && NormalizeOutput(output) == Ok(r.value.output)
              && NormalizeAi(ai) == Ok(r.value.ai) && NormalizePrompt(prompt) == Ok(r.value.prompt)
              && NormalizeWindow(window) == Ok(r.value.window)
  {
    if !IsString(Get(input, Type), "selection_text") then Err(BadRequest)
    else
      var outputConfig :- NormalizeOutput(output);
      var columns :- NormalizeColumns(root);
      var aiConfig :- NormalizeAi(ai);
      var promptConfig :- NormalizePrompt(prompt);
      var windowConfig :- NormalizeWindow(window);
      Ok(Body(columns, outputConfig, aiConfig, promptConfig, windowConfig))
  }

  /** `now` is the clock, `freshId` the random id used when the request brings none. */
  function NormalizeScenarioConfig(
    dates: Dates, raw: Value, scenarioId: Option<string>, existing: Option<Plain>, freshId: string, now: int)
    : Result<ScenarioConfig, Error>
  {
    if !NoDangerousKeys(raw) || !raw.JObject? then Err(BadRequest)
    else
      var root := raw.fields;
      Finish(NormalizeId(root, scenarioId, freshId), NormalizeBody(root),
             CreatedAtOf(dates, root, existing, now), dates.print_(now))
  }

  function Finish(id: Result<string, Error>, body: Result<Body, Error>, createdAt: string, updatedAt: string)
    : Result<ScenarioConfig, Error>
  {
    if id.Err? || body.Err? then Err(BadRequest) else Ok(ScenarioConfig(id.value, body.value, createdAt, updatedAt))
  }

  function CreatedAtOf(dates: Dates, root: Plain, existing: Option<Plain>, now: int): string {
    var kept := if existing.Some? then ParseIso(dates, Get(existing.value, CreatedAt)) else None;
    if kept.Some? then kept.value
    else ParseIso(dates, Get(root, CreatedAt)).UnwrapOr(dates.print_(now))
  }

  // ---------------------------------------------------------------- the stored form

  predicate IsSection(k: Key) {
    k.Ai? || k.Prompt? || k.Window? || k.Input? || k.Output?
  }

  predicate IsColumn(k: Key) {
    k.Name? || k.Description? || k.ButtonLabel? || k.Icon? || k.Enabled? || k.ShowInSelectionMenu? || k.MenuOrder?
  }

  predicate IsIdentity(k: Key) {
    k.Id? || k.SchemaVersion? || k.CreatedAt? || k.UpdatedAt?
  }

  function OptionalString(v: Option<string>): Value {
    if v.Some? then JString(v.value) else JNull
  }

  function OutputFields(c: OutputConfig): Plain {
    match c
    case TextOutput => TEXT_OUTPUT
    case ImageOutput(downloadable, openInNewTab) =>
      map[Type := JString("image"), Renderer := JString("image_window"),
          Image := JObject(map[Downloadable := JBool(downloadable), OpenInNewTab := JBool(openInNewTab)])]
  }

  function AiFields(c: AiConfig): Plain {
    map[Provider := JString("auto"), Model := OptionalString(c.model), Temperature := JNumber(c.temperature),
        MaxTokens := JNumber(c.maxTokens as real)]
  }

  function PromptFields(c: PromptConfig): Plain {
    map[System := JString(c.system), User := JString(c.user)]
  }

  function WindowFields(c: WindowConfig): Plain {
    map[ResultPosition := JString(c.resultPosition), Theme := JString("inherit")]
    + (if c.draggable.Some? then map[Draggable := JBool(c.draggable.value)] else map[])
    + (if c.resizable.Some? then map[Resizable := JBool(c.resizable.value)] else map[])
  }

  /** What is stored under a column's name. */
  function ColumnValue(c: Columns, k: Key): Value
    requires IsColumn(k)
  {
    match k
    case Name => JString(c.name)
    case Description => OptionalString(c.description)
    case ButtonLabel => JString(c.buttonLabel)
    case Icon => OptionalString(c.icon)
    case Enabled => JBool(c.enabled)
    case ShowInSelectionMenu => JBool(c.showInSelectionMenu)
    case MenuOrder => JNumber(c.menuOrder as real)
  }

  /** The stored fields of one section. */
  function SectionOf(c: Body, k: Key): Plain
    requires IsSection(k)
  {
    match k
    case Input => SELECTION_TEXT
    case Output => OutputFields(c.output)
    case Ai => AiFields(c.ai)
    case Prompt => PromptFields(c.prompt)
    case Window => WindowFields(c.window)
  }

  function IdentityFields(c: ScenarioConfig): (r: Plain)
    ensures forall k :: k in r <==> IsIdentity(k)
  {
    map[Id := JString(c.id), SchemaVersion := JNumber(1.0), CreatedAt := JString(c.createdAt),
        UpdatedAt := JString(c.updatedAt)]
  }

  const COLUMN_KEYS: set<Key> := {Name, Description, ButtonLabel, Icon, Enabled, ShowInSelectionMenu, MenuOrder}
  const SECTION_KEYS: set<Key> := {Ai, Prompt, Window, Input, Output}

  /** The configuration as it is kept in `configJson`. */
  function ToFields(c: ScenarioConfig): Plain {
    (map k | k in COLUMN_KEYS :: ColumnValue(c.body.columns, k))
    + (map k | k in SECTION_KEYS :: JObject(SectionOf(c.body, k)))
    + IdentityFields(c)
  }

  // ---------------------------------------------------------------- normal forms

  predicate CleanOption(v: Option<string>, max: nat) {
    v.Some? ==> Text.Trim(v.value) == v.value && |v.value| <= max
  }

  predicate CleanString(s: string, max: nat) {
    s != "" && Text.Trim(s) == s && |s| <= max
  }

  predicate NormalColumns(c: Columns) {
    CleanString(c.name, 80) && CleanOption(c.description, 500) && CleanString(c.buttonLabel, 28)
    && CleanOption(c.icon, 8) && -10000 <= c.menuOrder <= 10000
  }

  predicate NormalAi(c: AiConfig) {
    CleanOption(c.model, 150) && 0.0 <= c.temperature <= 2.0 && 1 <= c.maxTokens <= 20000
  }

  predicate NormalPrompt(c: PromptConfig) {
    CleanString(c.system, 12000) && CleanString(c.user, 12000)
  }

  predicate NormalBody(c: Body) {
    NormalColumns(c.columns) && NormalAi(c.ai) && NormalPrompt(c.prompt) && IsPosition(c.window.resultPosition)
  }

  /** What every configuration the normaliser produces looks like. */
  predicate Normal(dates: Dates, c: ScenarioConfig) {
    NormalBody(c.body) && ParseIso(dates, JString(c.createdAt)) == Some(c.createdAt)
  }

  /** A small configuration in normal form. */
  function Sample(): ScenarioConfig {
    ScenarioConfig("s", Body(Columns("n", None, "b", None, true, true, 100), TextOutput, AiConfig(None, 0.3, 700),
                             PromptConfig("s", "u"), WindowConfig("inherit", None, None)), "", "")
  }

  lemma SampleIsNormal()
    ensures NormalBody(Sample().body)
  {
    Text.TrimFixesTrimmed("n");
    Text.TrimFixesTrimmed("b");
    Text.TrimFixesTrimmed("s");
    Text.TrimFixesTrimmed("u");
  }

  lemma TrimTwice(s: string)
    ensures Text.Trim(Text.Trim(s)) == Text.Trim(s)
  {
    Text.TrimFixesTrimmed(Text.Trim(s));
  }

  lemma CleanIsClean(v: Value, max: nat)
    ensures CleanRequired(v, max).Ok? ==> CleanString(CleanRequired(v, max).value, max)
    ensures CleanOptional(v, max).Ok? ==> CleanOption(CleanOptional(v, max).value, max)
  {
    if v.JString? {
      TrimTwice(v.s);
    }
  }

  lemma ColumnsAreNormal(root: Plain)
    ensures NormalizeColumns(root).Ok? ==> NormalColumns(NormalizeColumns(root).value)
  {
    RequiredIsClean(root, Name, 80);
    OptionalIsClean(root, Description, 500);
    RequiredIsClean(root, ButtonLabel, 28);
    OptionalIsClean(root, Icon, 8);
  }

  lemma RequiredIsClean(root: Plain, k: Key, max: nat)
    ensures CleanRequired(Get(root, k), max).Ok? ==> CleanString(CleanRequired(Get(root, k), max).value, max)
  {
    CleanIsClean(Get(root, k), max);
  }

  lemma OptionalIsClean(root: Plain, k: Key, max: nat)
    ensures CleanOptional(Get(root, k), max).Ok? ==> CleanOption(CleanOptional(Get(root, k), max).value, max)
  {
    CleanIsClean(Get(root, k), max);
  }

  lemma PartsAreNormal(ai: Plain, prompt: Plain)
    ensures NormalizeAi(ai).Ok? ==> NormalAi(NormalizeAi(ai).value)
    ensures NormalizePrompt(prompt).Ok? ==> NormalPrompt(NormalizePrompt(prompt).value)
  {
    CleanIsClean(Get(ai, Model), 150);
    CleanIsClean(Get(prompt, System), 12000);
    CleanIsClean(Get(prompt, User), 12000);
  }

  lemma BodyIsNormal(root: Plain)
    ensures NormalizeBody(root).Ok? ==> NormalBody(NormalizeBody(root).value)
  {
    ColumnsAreNormal(root);
    var ai, prompt := ObjectOr(Get(root, Ai), map[]), ObjectOr(Get(root, Prompt), map[]);
    if ai.Ok? && prompt.Ok? {
      PartsAreNormal(ai.value, prompt.value);
    }
  }

  lemma CreatedAtIsNormal(dates: Dates, root: Plain, existing: Option<Plain>, now: int)
    requires Lawful(dates)
    ensures var at := CreatedAtOf(dates, root, existing, now);
            ParseIso(dates, JString(at)) == Some(at)
  {
  }

  /** Whatever the normaliser accepts, it produces a normal form, stamped with the current time. */
  lemma NormalizedIsNormal(
    dates: Dates, raw: Value, scenarioId: Option<string>, existing: Option<Plain>, freshId: string, now: int)
    requires Lawful(dates)
    ensures var r := NormalizeScenarioConfig(dates, raw, scenarioId, existing, freshId, now);
            r.Ok? ==>
              && Normal(dates, r.value)
              && r.value.updatedAt == dates.print_(now)
              && (scenarioId.Some? ==> r.value.id == scenarioId.value)
              && (existing.Some? && ParseIso(dates, Get(existing.value, CreatedAt)).Some? ==>
                    Some(r.value.createdAt) == ParseIso(dates, Get(existing.value, CreatedAt)))
  {
    if NoDangerousKeys(raw) && raw.JObject? {
      BodyIsNormal(raw.fields);
      CreatedAtIsNormal(dates, raw.fields, existing, now);
    }
  }

  // ---------------------------------------------------------------- patches

  function ObjectFields(v: Value): Plain {
    if v.JObject? then v.fields else map[]
  }

  function MergeSection(current: Plain, patch: Plain, key: Key): Plain {
    ObjectFields(Get(current, key)) + ObjectFields(Get(patch, key))
  }

  function MergedSections(current: Plain, patch: Plain): Plain {
    map k | k in SECTION_KEYS :: JObject(MergeSection(current, patch, k))
  }

  /** The patch wins property by property; the five sections are merged one level down. */
  function Merge(current: Plain, patch: Plain): Plain {
    current + patch + MergedSections(current, patch)
  }

  function ApplyPatch(dates: Dates, c: ScenarioConfig, patch: Plain, now: int): Result<ScenarioConfig, Error> {
    var current := ToFields(c);
    NormalizeScenarioConfig(dates, JObject(Merge(current, patch)), Some(c.id), Some(current), "", now)
  }

  lemma NormalizeMerged(current: Plain, patch: Plain)
    ensures NormalizeBody(Merge(current, patch))
         == NormalizeParts(Merge(current, patch), MergeSection(current, patch, Input), MergeSection(current, patch, Output),
                           MergeSection(current, patch, Ai), MergeSection(current, patch, Prompt),
                           MergeSection(current, patch, Window))
  {
    var m, sections := Merge(current, patch), MergedSections(current, patch);
    assert Get(m, Input) == sections[Input] && Get(m, Output) == sections[Output] && Get(m, Ai) == sections[Ai];
    assert Get(m, Prompt) == sections[Prompt] && Get(m, Window) == sections[Window];
  }

  // Normalising a normal form again, with a patch in front of it that was there before, gives the same.

  /** Below a patch, a property is what the patch says, or what was there. */
  lemma Patched(f: Plain, patch: Plain, k: Key)
    ensures Get(f + patch, k) == if k in patch then patch[k] else Get(f, k)
  {
  }

  /** A value that was read before, or the stored form of what was made of it. */
  predicate Again(again: Value, before: Value, stored: Value) {
    again == before || again == stored
  }

  lemma PatchedAgain(base: Plain, patch: Plain, f: Plain, k: Key)
    ensures Again(Get(f + patch, k), Get(base + patch, k), Get(f, k))
  {
    Patched(base, patch, k);
    Patched(f, patch, k);
  }

  lemma AiAgain(base: Plain, patch: Plain, c: AiConfig)
    requires NormalizeAi(base + patch) == Ok(c)
    ensures NormalizeAi(AiFields(c) + patch) == Ok(c)
  {
    var f := AiFields(c);
    PatchedAgain(base, patch, f, Model);
    PatchedAgain(base, patch, f, Temperature);
    PatchedAgain(base, patch, f, MaxTokens);
    AiReadAgain(base + patch, f + patch, c);
  }

  lemma AiReadAgain(before: Plain, again: Plain, c: AiConfig)
    requires NormalizeAi(before) == Ok(c)
    requires Again(Get(again, Model), Get(before, Model), OptionalString(c.model))
    requires Again(Get(again, Temperature), Get(before, Temperature), JNumber(c.temperature))
    requires Again(Get(again, MaxTokens), Get(before, MaxTokens), JNumber(c.maxTokens as real))
    ensures NormalizeAi(again) == Ok(c)
  {
    OptionalAgain(Get(before, Model), 150);
  }

  lemma PromptAgain(base: Plain, patch: Plain, c: PromptConfig)
    requires NormalizePrompt(base + patch) == Ok(c)
    ensures NormalizePrompt(PromptFields(c) + patch) == Ok(c)
  {
    var f := PromptFields(c);
    PatchedAgain(base, patch, f, System);
    PatchedAgain(base, patch, f, User);
    RequiredAgain(Get(base + patch, System), 12000);
    RequiredAgain(Get(base + patch, User), 12000);
  }

  lemma WindowAgain(base: Plain, patch: Plain, c: WindowConfig)
    requires NormalizeWindow(base + patch) == Ok(c)
    ensures NormalizeWindow(WindowFields(c) + patch) == Ok(c)
  {
    var f := WindowFields(c);
    PatchedAgain(base, patch, f, ResultPosition);
    PatchedAgain(base, patch, f, Draggable);
    PatchedAgain(base, patch, f, Resizable);
    assert c.draggable.None? ==> Draggable !in f;
    assert c.resizable.None? ==> Resizable !in f;
  }

  lemma OutputAgain(base: OutputConfig, patch: Plain, c: OutputConfig)
    requires NormalizeOutput(OutputFields(base) + patch) == Ok(c)
    ensures NormalizeOutput(OutputFields(c) + patch) == Ok(c)
  {
    var f, g := OutputFields(c), OutputFields(base);
    Patched(f, patch, Type);
    Patched(f, patch, Renderer);
    Patched(f, patch, Image);
    Patched(g, patch, Type);
    Patched(g, patch, Renderer);
    Patched(g, patch, Image);
  }

  lemma InputAgain(base: Plain, patch: Plain)
    requires IsString(Get(base + patch, Type), "selection_text")
    ensures IsString(Get(SELECTION_TEXT + patch, Type), "selection_text")
  {
  }

  lemma RequiredAgain(v: Value, max: nat)
    ensures CleanRequired(v, max).Ok? ==>
              CleanRequired(JString(CleanRequired(v, max).value), max) == CleanRequired(v, max)
  {
    CleanIsClean(v, max);
  }

  lemma OptionalAgain(v: Value, max: nat)
    ensures CleanOptional(v, max).Ok? ==>
              CleanOptional(OptionalString(CleanOptional(v, max).value), max) == CleanOptional(v, max)
  {
    CleanIsClean(v, max);
  }

  lemma StringsAgain(root: Plain, again: Plain, c: Columns)
    requires NormalizeColumns(root) == Ok(c)
    requires Again(Get(again, Name), Get(root, Name), JString(c.name))
    requires Again(Get(again, Description), Get(root, Description), OptionalString(c.description))
    requires Again(Get(again, ButtonLabel), Get(root, ButtonLabel), JString(c.buttonLabel))
    requires Again(Get(again, Icon), Get(root, Icon), OptionalString(c.icon))
    ensures CleanRequired(Get(again, Name), 80) == Ok(c.name)
    ensures CleanOptional(Get(again, Description), 500) == Ok(c.description)
    ensures CleanRequired(Get(again, ButtonLabel), 28) == Ok(c.buttonLabel)
    ensures CleanOptional(Get(again, Icon), 8) == Ok(c.icon)
  {
    RequiredAgain(Get(root, Name), 80);
    OptionalAgain(Get(root, Description), 500);
    RequiredAgain(Get(root, ButtonLabel), 28);
    OptionalAgain(Get(root, Icon), 8);
  }

  lemma FlagsAgain(root: Plain, again: Plain, c: Columns)
    requires NormalizeColumns(root) == Ok(c)
    requires Again(Get(again, Enabled), Get(root, Enabled), JBool(c.enabled))
    requires Again(Get(again, ShowInSelectionMenu), Get(root, ShowInSelectionMenu), JBool(c.showInSelectionMenu))
    requires Again(Get(again, MenuOrder), Get(root, MenuOrder), JNumber(c.menuOrder as real))
    ensures BoolOr(Get(again, Enabled), true) == c.enabled
    ensures BoolOr(Get(again, ShowInSelectionMenu), true) == c.showInSelectionMenu
    ensures NormalizeMenuOrder(Get(again, MenuOrder)) == Ok(c.menuOrder)
  {
  }

  lemma ColumnsFrom(root: Plain, c: Columns)
    requires CleanRequired(Get(root, Name), 80) == Ok(c.name)
    requires CleanOptional(Get(root, Description), 500) == Ok(c.description)
    requires CleanRequired(Get(root, ButtonLabel), 28) == Ok(c.buttonLabel)
    requires CleanOptional(Get(root, Icon), 8) == Ok(c.icon)
    requires BoolOr(Get(root, Enabled), true) == c.enabled
    requires BoolOr(Get(root, ShowInSelectionMenu), true) == c.showInSelectionMenu
    requires NormalizeMenuOrder(Get(root, MenuOrder)) == Ok(c.menuOrder)
    ensures NormalizeColumns(root) == Ok(c)
  {
  }

  lemma MergeReads(current: Plain, patch: Plain, k: Key)
    requires !IsSection(k)
    ensures Get(Merge(current, patch), k) == if k in patch then patch[k] else Get(current, k)
  {
    assert k !in MergedSections(current, patch);
  }

  lemma ColumnRead(c: ScenarioConfig, k: Key)
    requires IsColumn(k)
    ensures Get(ToFields(c), k) == ColumnValue(c.body.columns, k)
  {
    var columns := map key | key in COLUMN_KEYS :: ColumnValue(c.body.columns, key);
    assert k in COLUMN_KEYS && k !in SECTION_KEYS && k !in IdentityFields(c);
    assert columns[k] == ColumnValue(c.body.columns, k);
  }

  lemma SectionRead(c: ScenarioConfig, k: Key)
    requires IsSection(k)
    ensures Get(ToFields(c), k) == JObject(SectionOf(c.body, k))
  {
  }

  lemma SectionMerged(c: ScenarioConfig, patch: Plain, k: Key)
    requires IsSection(k)
    ensures MergeSection(ToFields(c), patch, k) == SectionOf(c.body, k) + ObjectFields(Get(patch, k))
  {
    SectionRead(c, k);
  }

  /** In a merge into `c`, a column is what the patch says, or what `c` has. */
  lemma ColumnMergedAgain(current: Plain, patch: Plain, c: ScenarioConfig, k: Key)
    requires IsColumn(k)
    ensures Again(Get(Merge(ToFields(c), patch), k), Get(Merge(current, patch), k), ColumnValue(c.body.columns, k))
  {
    ColumnRead(c, k);
    MergeReads(current, patch, k);
    MergeReads(ToFields(c), patch, k);
  }

  lemma ColumnsOfPatch(current: Plain, patch: Plain, c: ScenarioConfig)
    requires NormalizeColumns(Merge(current, patch)) == Ok(c.body.columns)
    ensures NormalizeColumns(Merge(ToFields(c), patch)) == Ok(c.body.columns)
  {
    ColumnMergedAgain(current, patch, c, Name);
    ColumnMergedAgain(current, patch, c, Description);
    ColumnMergedAgain(current, patch, c, ButtonLabel);
    ColumnMergedAgain(current, patch, c, Icon);
    ColumnMergedAgain(current, patch, c, Enabled);
    ColumnMergedAgain(current, patch, c, ShowInSelectionMenu);
    ColumnMergedAgain(current, patch, c, MenuOrder);
    StringsAgain(Merge(current, patch), Merge(ToFields(c), patch), c.body.columns);
    FlagsAgain(Merge(current, patch), Merge(ToFields(c), patch), c.body.columns);
    ColumnsFrom(Merge(ToFields(c), patch), c.body.columns);
  }

  /** A patch applied to its own result leaves the body as it is, whatever configuration it was first applied to. */
  lemma BodyAgain(stored: ScenarioConfig, patch: Plain, c: ScenarioConfig)
    requires NormalizeBody(Merge(ToFields(stored), patch)) == Ok(c.body)
    ensures NormalizeBody(Merge(ToFields(c), patch)) == Ok(c.body)
  {
    var current := ToFields(stored);
    NormalizeMerged(current, patch);
    NormalizeMerged(ToFields(c), patch);
    ColumnsOfPatch(current, patch, c);
    SectionMerged(c, patch, Ai);
    AiAgain(ObjectFields(Get(current, Ai)), ObjectFields(Get(patch, Ai)), c.body.ai);
    SectionMerged(c, patch, Prompt);
    PromptAgain(ObjectFields(Get(current, Prompt)), ObjectFields(Get(patch, Prompt)), c.body.prompt);
    SectionMerged(c, patch, Window);
    WindowAgain(ObjectFields(Get(current, Window)), ObjectFields(Get(patch, Window)), c.body.window);
    SectionMerged(c, patch, Output);
    SectionMerged(stored, patch, Output);
    OutputAgain(stored.body.output, ObjectFields(Get(patch, Output)), c.body.output);
    SectionMerged(c, patch, Input);
    InputAgain(ObjectFields(Get(current, Input)), ObjectFields(Get(patch, Input)));
  }

  // ---------------------------------------------------------------- no dangerous keys appear

  predicate SafeFields(f: Plain) {
    forall k :: k in f ==> !k.Dangerous? && NoDangerousKeys(f[k])
  }

  lemma SafeUnion(a: Plain, b: Plain)
    requires SafeFields(a) && SafeFields(b)
    ensures SafeFields(a + b)
  {
  }

  lemma SectionIsSafe(c: Body, k: Key)
    requires IsSection(k)
    ensures SafeFields(SectionOf(c, k))
  {
    match k
    case Output =>
      if c.output.ImageOutput? {
        var image: Plain := map[Downloadable := JBool(c.output.downloadable), OpenInNewTab := JBool(c.output.openInNewTab)];
        assert SafeFields(image);
        assert NoDangerousKeys(JObject(image));
      }
    case _ =>
  }

  lemma StoredIsSafe(c: ScenarioConfig)
    ensures SafeFields(ToFields(c))
  {
    var columns := map k | k in COLUMN_KEYS :: ColumnValue(c.body.columns, k);
    var sections := map k | k in SECTION_KEYS :: JObject(SectionOf(c.body, k));
    assert SafeFields(columns);
    forall k | k in sections
      ensures !k.Dangerous? && NoDangerousKeys(sections[k])
    {
      SectionIsSafe(c.body, k);
    }
    assert SafeFields(IdentityFields(c));
    SafeUnion(columns, sections);
    SafeUnion(columns + sections, IdentityFields(c));
  }

  lemma SafeRight(a: Plain, b: Plain)
    requires SafeFields(a + b)
    ensures SafeFields(b)
  {
    forall k | k in b
      ensures !k.Dangerous? && NoDangerousKeys(b[k])
    {
      assert (a + b)[k] == b[k];
    }
  }

  lemma SectionMergeIsSafe(current: Plain, patch: Plain, c: ScenarioConfig, k: Key)
    requires IsSection(k) && SafeFields(Merge(current, patch))
    ensures SafeFields(MergeSection(ToFields(c), patch, k))
  {
    assert Merge(current, patch)[k] == JObject(MergeSection(current, patch, k));
    assert NoDangerousKeys(JObject(MergeSection(current, patch, k)));
    SafeRight(ObjectFields(Get(current, k)), ObjectFields(Get(patch, k)));
    SectionIsSafe(c.body, k);
    SafeUnion(SectionOf(c.body, k), ObjectFields(Get(patch, k)));
    SectionMerged(c, patch, k);
  }

  lemma OtherMergeIsSafe(current: Plain, patch: Plain, c: ScenarioConfig, k: Key)
    requires !IsSection(k) && SafeFields(Merge(current, patch)) && k in Merge(ToFields(c), patch)
    ensures !k.Dangerous? && NoDangerousKeys(Merge(ToFields(c), patch)[k])
  {
    MergeReads(ToFields(c), patch, k);
    if k in patch {
      MergeReads(current, patch, k);
      assert k in Merge(current, patch);
    } else {
      StoredIsSafe(c);
      assert k in ToFields(c);
    }
  }

  /** If the merge into one configuration is free of dangerous keys, so is the merge into any other. */
  lemma PatchIsSafe(current: Plain, patch: Plain, c: ScenarioConfig)
    requires SafeFields(Merge(current, patch))
    ensures SafeFields(Merge(ToFields(c), patch))
  {
    var after := Merge(ToFields(c), patch);
    forall k | k in after
      ensures !k.Dangerous? && NoDangerousKeys(after[k])
    {
      if IsSection(k) {
        SectionMergeIsSafe(current, patch, c, k);
        assert after[k] == JObject(MergeSection(ToFields(c), patch, k));
      } else {
        OtherMergeIsSafe(current, patch, c, k);
      }
    }
  }

  // ---------------------------------------------------------------- normal forms are fixed points

  lemma OutputFixed(c: OutputConfig)
    ensures NormalizeOutput(OutputFields(c)) == Ok(c)
  {
  }

  lemma AiFixed(c: AiConfig)
    requires NormalAi(c)
    ensures NormalizeAi(AiFields(c)) == Ok(c)
  {
  }

  lemma PromptFixed(c: PromptConfig)
    requires NormalPrompt(c)
    ensures NormalizePrompt(PromptFields(c)) == Ok(c)
  {
  }

  lemma WindowFixed(c: WindowConfig)
    requires IsPosition(c.resultPosition)
    ensures NormalizeWindow(WindowFields(c)) == Ok(c)
  {
    var f := WindowFields(c);
    assert Get(f, Draggable) == if c.draggable.Some? then JBool(c.draggable.value) else JNull;
    assert Get(f, Resizable) == if c.resizable.Some? then JBool(c.resizable.value) else JNull;
  }

  lemma ColumnsFixed(c: ScenarioConfig)
    requires NormalColumns(c.body.columns)
    ensures NormalizeColumns(ToFields(c)) == Ok(c.body.columns)
  {
    forall k | IsColumn(k)
      ensures Get(ToFields(c), k) == ColumnValue(c.body.columns, k)
    {
      ColumnRead(c, k);
    }
    StoredColumnsFixed(ToFields(c), c.body.columns);
  }

  lemma StoredColumnsFixed(root: Plain, c: Columns)
    requires NormalColumns(c) && forall k :: IsColumn(k) ==> Get(root, k) == ColumnValue(c, k)
    ensures NormalizeColumns(root) == Ok(c)
  {
    ColumnsFrom(root, c);
  }

  lemma EmptyMergeSection(c: ScenarioConfig, k: Key)
    requires IsSection(k)
    ensures Merge(ToFields(c), map[])[k] == JObject(SectionOf(c.body, k))
  {
    assert ObjectFields(Get(map[], k)) == map[];
    SectionMerged(c, map[], k);
    assert SectionOf(c.body, k) + map[] == SectionOf(c.body, k);
    assert k in SECTION_KEYS;
  }

  lemma EmptyMergeOther(f: Plain, k: Key)
    requires !IsSection(k)
    ensures k in Merge(f, map[]) <==> k in f
    ensures k in f ==> Merge(f, map[])[k] == f[k]
  {
    assert k !in MergedSections(f, map[]);
  }

  lemma EmptyMerge(c: ScenarioConfig)
    ensures Merge(ToFields(c), map[]) == ToFields(c)
  {
    var f, m := ToFields(c), Merge(ToFields(c), map[]);
    forall k
      ensures k in m <==> k in f
      ensures k in f ==> m[k] == f[k]
    {
      if IsSection(k) {
        SectionRead(c, k);
        EmptyMergeSection(c, k);
      } else {
        EmptyMergeOther(f, k);
      }
    }
  }

  lemma BodyFixed(c: ScenarioConfig)
    requires NormalBody(c.body)
    ensures NormalizeBody(ToFields(c)) == Ok(c.body)
  {
    SectionRead(c, Input);
    SectionRead(c, Output);
    SectionRead(c, Ai);
    SectionRead(c, Prompt);
    SectionRead(c, Window);
    ColumnsFixed(c);
    OutputFixed(c.body.output);
    AiFixed(c.body.ai);
    PromptFixed(c.body.prompt);
    WindowFixed(c.body.window);
    BodyFromParts(ToFields(c), SectionOf(c.body, Output), SectionOf(c.body, Ai), SectionOf(c.body, Prompt),
                  SectionOf(c.body, Window), c.body);
  }

  lemma BodyFromParts(root: Plain, output: Plain, ai: Plain, prompt: Plain, window: Plain, body: Body)
    requires Get(root, Input) == JObject(SELECTION_TEXT) && Get(root, Output) == JObject(output)
    requires Get(root, Ai) == JObject(ai) && Get(root, Prompt) == JObject(prompt) && Get(root, Window) == JObject(window)
    requires NormalizeColumns(root) == Ok(body.columns) && NormalizeOutput(output) == Ok(body.output)
    requires NormalizeAi(ai) == Ok(body.ai) && NormalizePrompt(prompt) == Ok(body.prompt)
    requires NormalizeWindow(window) == Ok(body.window)
    ensures NormalizeBody(root) == Ok(body)
  {
  }

  lemma CreatedAtStored(c: ScenarioConfig)
    ensures Get(ToFields(c), CreatedAt) == JString(c.createdAt)
  {
    assert IdentityFields(c)[CreatedAt] == JString(c.createdAt);
  }

  lemma CreatedAtKept(dates: Dates, c: ScenarioConfig, root: Plain, now: int)
    requires Normal(dates, c)
    ensures CreatedAtOf(dates, root, Some(ToFields(c)), now) == c.createdAt
  {
    CreatedAtStored(c);
  }

  /** The stored form of a normal body is accepted under any id and over any stored configuration. */
  lemma NormalBodyIsAccepted(
    dates: Dates, c: ScenarioConfig, id: string, existing: Option<Plain>, freshId: string, now: int)
    requires NormalBody(c.body)
    ensures NormalizeScenarioConfig(dates, JObject(ToFields(c)), Some(id), existing, freshId, now).Ok?
  {
    StoredIsSafe(c);
    BodyFixed(c);
    NormalizeGiven(dates, ToFields(c), c.body, id, existing, freshId, now);
  }

  /** The normaliser under a fixed id, once the body is known. */
  lemma NormalizeGiven(
    dates: Dates, root: Plain, body: Body, id: string, existing: Option<Plain>, freshId: string, now: int)
    requires NoDangerousKeys(JObject(root)) && NormalizeBody(root) == Ok(body)
    ensures NormalizeScenarioConfig(dates, JObject(root), Some(id), existing, freshId, now)
         == Ok(ScenarioConfig(id, body, CreatedAtOf(dates, root, existing, now), dates.print_(now)))
  {
  }

  /** Normalising a normal form against itself only renews the time of the update. */
  lemma NormalIsFixed(dates: Dates, c: ScenarioConfig, freshId: string, now: int)
    requires Normal(dates, c)
    ensures NormalizeScenarioConfig(dates, JObject(ToFields(c)), Some(c.id), Some(ToFields(c)), freshId, now)
         == Ok(c.(updatedAt := dates.print_(now)))
  {
    StoredIsSafe(c);
    BodyFixed(c);
    CreatedAtKept(dates, c, ToFields(c), now);
    NormalizeGiven(dates, ToFields(c), c.body, c.id, Some(ToFields(c)), freshId, now);
  }

  /** The empty patch only renews the time of the update. */
  lemma EmptyPatch(dates: Dates, c: ScenarioConfig, now: int)
    requires Normal(dates, c)
    ensures ApplyPatch(dates, c, map[], now) == Ok(c.(updatedAt := dates.print_(now)))
  {
    EmptyMerge(c);
    NormalIsFixed(dates, c, "", now);
  }

  lemma SafeObject(f: Plain)
    ensures NoDangerousKeys(JObject(f)) <==> SafeFields(f)
  {
  }

  /** When a patch succeeds, and what it then gives. */
  lemma PatchOutcome(dates: Dates, c: ScenarioConfig, patch: Plain, now: int)
    requires Normal(dates, c)
    ensures var merged := Merge(ToFields(c), patch);
            ApplyPatch(dates, c, patch, now)
              == if NoDangerousKeys(JObject(merged)) then Finish(Ok(c.id), NormalizeBody(merged), c.createdAt, dates.print_(now))
                 else Err(BadRequest)
  {
    var merged := Merge(ToFields(c), patch);
    CreatedAtKept(dates, c, merged, now);
  }

  /** A patch that succeeds succeeds again on its own result, with the same result up to the time of the update. */
  lemma PatchTwice(dates: Dates, c: ScenarioConfig, patch: Plain, now: int, later: int)
    requires Normal(dates, c)
    requires ApplyPatch(dates, c, patch, now).Ok?
    ensures var once := ApplyPatch(dates, c, patch, now).value;
            && Normal(dates, once)
            && once.createdAt == c.createdAt && once.id == c.id
            && ApplyPatch(dates, once, patch, later) == Ok(once.(updatedAt := dates.print_(later)))
  {
    var once := ApplyPatch(dates, c, patch, now).value;
    PatchOutcome(dates, c, patch, now);
    BodyIsNormal(Merge(ToFields(c), patch));
    SafeObject(Merge(ToFields(c), patch));
    PatchIsSafe(ToFields(c), patch, once);
    SafeObject(Merge(ToFields(once), patch));
    BodyAgain(c, patch, once);
    PatchOutcome(dates, once, patch, later);
  }
}
