/**
 What the scenario normaliser accepts and what it makes of each property: limits, ranges, defaults and enumerations,
 property by property, the merge of a patch, and the keys that are refused at any depth.
 */
module ScenarioReading {
  import opened Common
  import opened Json
  import opened ScenarioConfig
  import Text

  // ---------------------------------------------------------------- texts

  /** A property that is absent, or null, or a text of at most `max` characters without its outer spaces. */
  predicate OptionalText(v: Value, max: nat, text: Option<string>) {
    if v == JNull then text == None
    else v.JString? && text == Some(Text.Trim(v.s)) && |Text.Trim(v.s)| <= max
  }

  /** A text that is there, not blank, and at most `max` characters long without its outer spaces. */
  predicate RequiredText(v: Value, max: nat, text: string) {
    v.JString? && text == Text.Trim(v.s) && 1 <= |text| <= max
  }

  lemma OptionalTextIff(v: Value, max: nat, text: Option<string>)
    ensures CleanOptional(v, max) == Ok(text) <==> OptionalText(v, max, text)
  {
  }

  lemma RequiredTextIff(v: Value, max: nat, text: string)
    ensures CleanRequired(v, max) == Ok(text) <==> RequiredText(v, max, text)
  {
  }

  /** A flag counts as set unless it is the boolean false. */
  predicate FlagOn(v: Value) {
    v != JBool(false)
  }

  // ---------------------------------------------------------------- part by part

  /** Name, label, description, icon and menu order are checked; the flags default to true and the order to 100. */
  lemma ColumnsMeaning(root: Plain, c: Columns)
    ensures NormalizeColumns(root) == Ok(c) <==>
              && RequiredText(Get(root, Name), 80, c.name)
              && OptionalText(Get(root, Description), 500, c.description)
              && RequiredText(Get(root, ButtonLabel), 28, c.buttonLabel)
              && OptionalText(Get(root, Icon), 8, c.icon)
              && c.enabled == FlagOn(Get(root, Enabled))
              && c.showInSelectionMenu == FlagOn(Get(root, ShowInSelectionMenu))
              && MenuOrderReads(Get(root, MenuOrder), c.menuOrder)
  {
    OptionalTextIff(Get(root, Description), 500, c.description);
    OptionalTextIff(Get(root, Icon), 8, c.icon);
    RequiredTextIff(Get(root, Name), 80, c.name);
    RequiredTextIff(Get(root, ButtonLabel), 28, c.buttonLabel);
    MenuOrderIff(Get(root, MenuOrder), c.menuOrder);
    FlagIff(Get(root, Enabled));
    FlagIff(Get(root, ShowInSelectionMenu));
    ColumnsParts(root, c);
  }

  /** No menu order is 100; an integer is brought into -10000..10000; anything else is refused. */
  predicate MenuOrderReads(v: Value, order: int) {
    if v == JNull then order == 100
    else
      && v.JNumber?
      && v.n.Floor as real == v.n
      && (v.n < -10000.0 ==> order == -10000)
      && (v.n > 10000.0 ==> order == 10000)
      && (-10000.0 <= v.n <= 10000.0 ==> order as real == v.n)
  }

  lemma MenuOrderIff(v: Value, order: int)
    ensures NormalizeMenuOrder(v) == Ok(order) <==> MenuOrderReads(v, order)
  {
  }

  lemma FlagIff(v: Value)
    ensures BoolOr(v, true) == FlagOn(v)
  {
  }

  lemma ColumnsParts(root: Plain, c: Columns)
    ensures NormalizeColumns(root) == Ok(c) <==>
              && NormalizeMenuOrder(Get(root, MenuOrder)) == Ok(c.menuOrder)
              && CleanRequired(Get(root, Name), 80) == Ok(c.name)
              && CleanOptional(Get(root, Description), 500) == Ok(c.description)
              && CleanRequired(Get(root, ButtonLabel), 28) == Ok(c.buttonLabel)
              && CleanOptional(Get(root, Icon), 8) == Ok(c.icon)
              && c.enabled == BoolOr(Get(root, Enabled), true)
              && c.showInSelectionMenu == BoolOr(Get(root, ShowInSelectionMenu), true)
  {
  }

  /**
   Only the model can be refused. A temperature is brought into 0..2 and defaults to 0.3, a number of tokens into
   1..20000 and defaults to 700, also in place of a number that is no integer.
   */
  lemma AiMeaning(ai: Plain, c: AiConfig)
    ensures var temperature, tokens := Get(ai, Temperature), Get(ai, MaxTokens);
            NormalizeAi(ai) == Ok(c) <==>
              && OptionalText(Get(ai, Model), 150, c.model)
              && (if temperature.JNumber?
                  then && (temperature.n < 0.0 ==> c.temperature == 0.0) && (temperature.n > 2.0 ==> c.temperature == 2.0)
                       && (0.0 <= temperature.n <= 2.0 ==> c.temperature == temperature.n)
                  else c.temperature == 0.3)
              && (if tokens.JNumber? && tokens.n.Floor as real == tokens.n
                  then && (tokens.n < 1.0 ==> c.maxTokens == 1) && (tokens.n > 20000.0 ==> c.maxTokens == 20000)
                       && (1.0 <= tokens.n <= 20000.0 ==> c.maxTokens as real == tokens.n)
                  else c.maxTokens == 700)
  {
    OptionalTextIff(Get(ai, Model), 150, c.model);
  }

  lemma PromptMeaning(prompt: Plain, c: PromptConfig)
    ensures NormalizePrompt(prompt) == Ok(c) <==>
              RequiredText(Get(prompt, System), 12000, c.system) && RequiredText(Get(prompt, User), 12000, c.user)
  {
    RequiredTextIff(Get(prompt, System), 12000, c.system);
    RequiredTextIff(Get(prompt, User), 12000, c.user);
  }

  /** A position that is no text counts as "inherit"; a text has to be one of three. Flags that are no booleans go. */
  lemma WindowMeaning(window: Plain, c: WindowConfig)
    ensures NormalizeWindow(window) == Ok(c) <==>
              && c.resultPosition in {"inherit", "under_action", "floating"}
              && (if Get(window, ResultPosition).JString? then Get(window, ResultPosition) == JString(c.resultPosition)
                  else c.resultPosition == "inherit")
              && FlagReads(Get(window, Draggable), c.draggable)
              && FlagReads(Get(window, Resizable), c.resizable)
  {
    FlagReadsIff(Get(window, Draggable), c.draggable);
    FlagReadsIff(Get(window, Resizable), c.resizable);
  }

  /** A flag that may be missing: only a boolean gives it a value. */
  predicate FlagReads(v: Value, flag: Option<bool>) {
    && (flag == Some(true) <==> v == JBool(true))
    && (flag == Some(false) <==> v == JBool(false))
  }

  lemma FlagReadsIff(v: Value, flag: Option<bool>)
    ensures OptionalBool(v) == flag <==> FlagReads(v, flag)
  {
    match flag
    case None => assert v.JBool? ==> v == JBool(true) || v == JBool(false);
    case Some(b) => assert b == true || b == false;
  }

  /** A list in a list, `depth` deep, around the text. */
  function Wrapped(s: string, depth: nat): Value {
    if depth == 0 then JString(s) else JArray([Wrapped(s, depth - 1)])
  }

  lemma WrappedInside(v: Value, s: string, depth: nat)
    requires v == Wrapped(s, depth) && v != JString(s)
    ensures depth > 0 && v.JArray? && |v.items| == 1 && v.items[0] == Wrapped(s, depth - 1)
  {
  }

  lemma {:induction false} ConvertsIff(v: Value, s: string)
    ensures ConvertsTo(v, s) <==> exists depth: nat :: v == Wrapped(s, depth)
  {
    if v == JString(s) {
      assert v == Wrapped(s, 0);
    } else {
      if depth: nat :| v == Wrapped(s, depth) {
        WrappedInside(v, s, depth);
        ConvertsIff(v.items[0], s);
      }
      if v.JArray? && |v.items| == 1 && ConvertsTo(v.items[0], s) {
        ConvertsIff(v.items[0], s);
        var depth: nat :| v.items[0] == Wrapped(s, depth);
        assert v.items == [Wrapped(s, depth)];
        assert v == Wrapped(s, depth + 1);
      }
    }
  }

  /**
   Image output needs its renderer, and both flags of the image default to true. Text output needs its renderer unless
   its type comes in a list; an image type in a list becomes text output.
   */
  lemma OutputMeaning(output: Plain, c: OutputConfig)
    ensures var kind, renderer, image := Get(output, Type), Get(output, Renderer), ObjectFields(Get(output, Image));
            NormalizeOutput(output) == Ok(c) <==>
              if kind == JString("image")
              then && renderer == JString("image_window")
                   && c == ImageOutput(FlagOn(Get(image, Downloadable)), FlagOn(Get(image, OpenInNewTab)))
              else
                && c == TextOutput
                && (kind == JString("text") ==> renderer == JString("answer_window"))
                && exists depth: nat :: kind == Wrapped("text", depth) || kind == Wrapped("image", depth)
  {
    var kind := Get(output, Type);
    var image := ObjectFields(Get(output, Image));
    ConvertsIff(kind, "text");
    ConvertsIff(kind, "image");
    FlagIff(Get(image, Downloadable));
    FlagIff(Get(image, OpenInNewTab));
    if kind == JString("image") {
      assert ConvertsTo(kind, "image");
    }
  }

  /** The section is the object `fields`, or absent or null, with `fields` the default. */
  predicate SectionReads(v: Value, fallback: Plain, fields: Plain) {
    if v == JNull then fields == fallback else v == JObject(fields)
  }

  lemma ObjectOrIff(v: Value, fallback: Plain, fields: Plain)
    ensures ObjectOr(v, fallback) == Ok(fields) <==> SectionReads(v, fallback, fields)
  {
  }

  /**
   A body is accepted when its input is selected text and its columns and sections are accepted. An absent input or
   output is the plain text case, the other sections default to nothing.
   */
  lemma BodyMeaning(root: Plain, input: Plain, output: Plain, ai: Plain, prompt: Plain, window: Plain, body: Body)
    requires SectionReads(Get(root, Input), map[Type := JString("selection_text")], input)
    requires SectionReads(Get(root, Output), map[Type := JString("text"), Renderer := JString("answer_window")], output)
    requires SectionReads(Get(root, Ai), map[], ai)
    requires SectionReads(Get(root, Prompt), map[], prompt)
    requires SectionReads(Get(root, Window), map[], window)
    ensures NormalizeBody(root) == Ok(body) <==>
              && Get(input, Type) == JString("selection_text")
              && NormalizeColumns(root) == Ok(body.columns)
              && NormalizeOutput(output) == Ok(body.output)
              && NormalizeAi(ai) == Ok(body.ai)
              && NormalizePrompt(prompt) == Ok(body.prompt)
              && NormalizeWindow(window) == Ok(body.window)
  {
    GivenParts(root, input, output, ai, prompt, window);
    PartsIff(root, input, output, ai, prompt, window, body);
  }

  lemma GivenParts(root: Plain, input: Plain, output: Plain, ai: Plain, prompt: Plain, window: Plain)
    requires ObjectOr(Get(root, Input), SELECTION_TEXT) == Ok(input) && ObjectOr(Get(root, Output), TEXT_OUTPUT) == Ok(output)
    requires ObjectOr(Get(root, Ai), map[]) == Ok(ai) && ObjectOr(Get(root, Prompt), map[]) == Ok(prompt)
    requires ObjectOr(Get(root, Window), map[]) == Ok(window)
    ensures NormalizeBody(root) == NormalizeParts(root, input, output, ai, prompt, window)
  {
  }

  lemma PartsIff(root: Plain, input: Plain, output: Plain, ai: Plain, prompt: Plain, window: Plain, body: Body)
    ensures NormalizeParts(root, input, output, ai, prompt, window) == Ok(body) <==>
              && IsString(Get(input, Type), "selection_text")
              && NormalizeColumns(root) == Ok(body.columns)
              && NormalizeOutput(output) == Ok(body.output)
              && NormalizeAi(ai) == Ok(body.ai)
              && NormalizePrompt(prompt) == Ok(body.prompt)
              && NormalizeWindow(window) == Ok(body.window)
  {
    var r := NormalizeParts(root, input, output, ai, prompt, window);
    assert r.Ok? ==> r.value == Body(r.value.columns, r.value.output, r.value.ai, r.value.prompt, r.value.window);
  }

  /** A section that is there and is no object is refused. */
  lemma SectionsAreObjects(root: Plain, k: Key)
    requires IsSection(k) && Get(root, k) != JNull && !Get(root, k).JObject?
    ensures NormalizeBody(root).Err?
  {
  }

  /** With no section given but the prompt, the sections have their defaults. */
  lemma DefaultSections(root: Plain, prompt: Plain)
    requires Get(root, Input) == Get(root, Output) == Get(root, Ai) == Get(root, Window) == JNull
    requires Get(root, Prompt) == JObject(prompt) && NormalizePrompt(prompt).Ok? && NormalizeColumns(root).Ok?
    ensures NormalizeBody(root)
         == Ok(Body(NormalizeColumns(root).value, TextOutput, AiConfig(None, 0.3, 700), NormalizePrompt(prompt).value,
                    WindowConfig("inherit", None, None)))
  {
    var body := Body(NormalizeColumns(root).value, TextOutput, AiConfig(None, 0.3, 700), NormalizePrompt(prompt).value,
                     WindowConfig("inherit", None, None));
    EmptySections();
    BodyMeaning(root, SELECTION_TEXT, TEXT_OUTPUT, map[], prompt, map[], body);
  }

  lemma EmptySections()
    ensures NormalizeOutput(TEXT_OUTPUT) == Ok(TextOutput)
    ensures NormalizeAi(map[]) == Ok(AiConfig(None, 0.3, 700))
    ensures NormalizeWindow(map[]) == Ok(WindowConfig("inherit", None, None))
  {
  }

  // ---------------------------------------------------------------- the whole configuration

  /** When a request is accepted: an object without dangerous keys, a usable id, an accepted body. */
  lemma AcceptedIff(
    dates: Dates, raw: Value, scenarioId: Option<string>, existing: Option<Plain>, freshId: string, now: int)
    ensures NormalizeScenarioConfig(dates, raw, scenarioId, existing, freshId, now).Ok? <==>
              && raw.JObject? && NoDangerousKeys(raw) && NormalizeBody(raw.fields).Ok?
              && (scenarioId == None ==> exists own :: OptionalText(Get(raw.fields, Id), 256, own))
  {
    if raw.JObject? {
      var id := CleanOptional(Get(raw.fields, Id), 256);
      if id.Ok? {
        OptionalTextIff(Get(raw.fields, Id), 256, id.value);
      }
      forall own
        ensures OptionalText(Get(raw.fields, Id), 256, own) <==> id == Ok(own)
      {
        OptionalTextIff(Get(raw.fields, Id), 256, own);
      }
    }
  }

  /** The id is the one asked for, else the request's own, else the fresh one; the update time is the clock. */
  lemma IdentityMeaning(
    dates: Dates, raw: Value, scenarioId: Option<string>, existing: Option<Plain>, freshId: string, now: int)
    requires NormalizeScenarioConfig(dates, raw, scenarioId, existing, freshId, now).Ok?
    ensures var c := NormalizeScenarioConfig(dates, raw, scenarioId, existing, freshId, now).value;
            && NormalizeBody(raw.fields) == Ok(c.body)
            && c.updatedAt == dates.print_(now)
            && (scenarioId != None ==> scenarioId == Some(c.id))
            && (scenarioId == None ==>
                  if Get(raw.fields, Id) == JNull then c.id == freshId
                  else Get(raw.fields, Id).JString? && c.id == Text.Trim(Get(raw.fields, Id).s))
  {
  }

  /** A text that reads as a date, printed again. */
  predicate DateReads(dates: Dates, v: Value, printed: string) {
    v.JString? && Text.Trim(v.s) != "" && dates.parse(v.s).Some? && printed == dates.print_(dates.parse(v.s).value)
  }

  /** The creation time: that of the stored configuration if it reads, else the request's if it reads, else the clock. */
  lemma CreatedAtMeaning(
    dates: Dates, raw: Value, scenarioId: Option<string>, existing: Option<Plain>, freshId: string, now: int)
    requires NormalizeScenarioConfig(dates, raw, scenarioId, existing, freshId, now).Ok?
    ensures var at := NormalizeScenarioConfig(dates, raw, scenarioId, existing, freshId, now).value.createdAt;
            var stored := if existing.Some? then Get(existing.value, CreatedAt) else JNull;
            var own := Get(raw.fields, CreatedAt);
            if exists s :: DateReads(dates, stored, s) then DateReads(dates, stored, at)
            else if exists s :: DateReads(dates, own, s) then DateReads(dates, own, at)
            else at == dates.print_(now)
  {
    var stored := if existing.Some? then Get(existing.value, CreatedAt) else JNull;
    DateReadsIff(dates, stored);
    DateReadsIff(dates, Get(raw.fields, CreatedAt));
  }

  lemma DateReadsIff(dates: Dates, v: Value)
    ensures ParseIso(dates, v).Some? <==> exists s :: DateReads(dates, v, s)
    ensures forall s :: ParseIso(dates, v) == Some(s) <==> DateReads(dates, v, s)
  {
    if ParseIso(dates, v).Some? {
      assert DateReads(dates, v, ParseIso(dates, v).value);
    }
  }

  /** Id, times and schema version are stored beside the properties of the request. */
  lemma StoredIdentity(c: ScenarioConfig)
    ensures var f := ToFields(c);
            && Get(f, Id) == JString(c.id) && Get(f, SchemaVersion) == JNumber(1.0)
            && Get(f, CreatedAt) == JString(c.createdAt) && Get(f, UpdatedAt) == JString(c.updatedAt)
  {
    var identity := IdentityFields(c);
    assert identity[Id] == JString(c.id) && identity[SchemaVersion] == JNumber(1.0);
    assert identity[CreatedAt] == JString(c.createdAt) && identity[UpdatedAt] == JString(c.updatedAt);
  }

  /** The constants that are stored with the sections. */
  lemma StoredInput(c: ScenarioConfig)
    ensures Get(ToFields(c), Input) == JObject(map[Type := JString("selection_text")])
  {
    SectionRead(c, Input);
  }

  lemma StoredAi(c: ScenarioConfig)
    ensures Get(ToFields(c), Ai) == JObject(AiFields(c.body.ai)) && Get(AiFields(c.body.ai), Provider) == JString("auto")
  {
    SectionRead(c, Ai);
  }

  lemma StoredWindow(c: ScenarioConfig)
    ensures Get(ToFields(c), Window) == JObject(WindowFields(c.body.window))
    ensures Get(WindowFields(c.body.window), Theme) == JString("inherit")
  {
    SectionRead(c, Window);
  }

  /** Output is stored with its renderer, an image with both flags. */
  lemma StoredOutput(c: ScenarioConfig)
    ensures Get(ToFields(c), Output) == JObject(OutputFields(c.body.output))
    ensures var f := OutputFields(c.body.output);
            match c.body.output
            case TextOutput => Get(f, Type) == JString("text") && Get(f, Renderer) == JString("answer_window")
            case ImageOutput(downloadable, openInNewTab) =>
              && Get(f, Type) == JString("image") && Get(f, Renderer) == JString("image_window")
              && Get(ObjectFields(Get(f, Image)), Downloadable) == JBool(downloadable)
              && Get(ObjectFields(Get(f, Image)), OpenInNewTab) == JBool(openInNewTab)
  {
    SectionRead(c, Output);
  }

  /** Outside the five sections a patch replaces properties whole. */
  lemma MergeMeaning(current: Plain, patch: Plain, k: Key)
    requires k !in {Input, Output, Ai, Prompt, Window}
    ensures Get(Merge(current, patch), k) == if k in patch then patch[k] else Get(current, k)
  {
    MergeReads(current, patch, k);
  }

  /** In the five sections it replaces single properties, and the result is an object even where neither side is one. */
  lemma SectionMergeMeaning(current: Plain, patch: Plain, k: Key, inner: Key)
    requires k in {Input, Output, Ai, Prompt, Window}
    ensures var merged, before, given := Get(Merge(current, patch), k), Get(current, k), Get(patch, k);
            && merged.JObject?
            && Get(merged.fields, inner)
               == if given.JObject? && inner in given.fields then given.fields[inner]
                  else if before.JObject? then Get(before.fields, inner) else JNull
  {
    assert MergedSections(current, patch)[k] == JObject(MergeSection(current, patch, k));
    assert Get(Merge(current, patch), k) == JObject(MergeSection(current, patch, k));
    Patched(ObjectFields(Get(current, k)), ObjectFields(Get(patch, k)), inner);
  }

  // ---------------------------------------------------------------- dangerous keys

  datatype PathStep = Element(i: nat) | Property(k: Key)

  function AtPath(v: Value, path: seq<PathStep>): Option<Value>
    decreases |path|
  {
    if path == [] then Some(v)
    else
      match path[0]
      case Element(i) => if v.JArray? && i < |v.items| then AtPath(v.items[i], path[1..]) else None
      case Property(k) => if v.JObject? && k in v.fields then AtPath(v.fields[k], path[1..]) else None
  }

  /** A dangerous key that can be reached through objects and lists. */
  ghost predicate DangerAt(v: Value, path: seq<PathStep>) {
    AtPath(v, path).Some? && exists j :: 0 <= j < |path| && path[j].Property? && path[j].k.Dangerous?
  }

  /** The check refuses a document exactly when there is a dangerous key in it, however deep. */
  lemma {:induction false} DangerousMeaning(v: Value)
    ensures NoDangerousKeys(v) <==> forall path :: !DangerAt(v, path)
  {
    if NoDangerousKeys(v) {
      forall path
        ensures !DangerAt(v, path)
      {
        NoDangerAt(v, path);
      }
    } else {
      DangerIsSomewhere(v);
    }
  }

  lemma {:induction false} NoDangerAt(v: Value, path: seq<PathStep>)
    requires NoDangerousKeys(v)
    ensures !DangerAt(v, path)
    decreases |path|
  {
    if path != [] && AtPath(v, path).Some? {
      NoDangerAt(if path[0].Element? then v.items[path[0].i] else v.fields[path[0].k], path[1..]);
      assert forall j :: 0 < j < |path| ==> path[j] == path[1..][j - 1];
    }
  }

  lemma {:induction false} DangerIsSomewhere(v: Value)
    requires !NoDangerousKeys(v)
    ensures exists path :: DangerAt(v, path)
  {
    match v
    case JArray(items) =>
      var i :| 0 <= i < |items| && !NoDangerousKeys(items[i]);
      DangerIsSomewhere(items[i]);
      var path :| DangerAt(items[i], path);
      DangerOutside(v, Element(i), items[i], path);
    case JObject(fields) =>
      var k :| k in fields && (k.Dangerous? || !NoDangerousKeys(fields[k]));
      if k.Dangerous? {
        var path := [Property(k)];
        assert path[1..] == [];
        assert AtPath(v, path) == AtPath(fields[k], []);
        assert path[0].Property? && path[0].k.Dangerous?;
        assert DangerAt(v, path);
      } else {
        DangerIsSomewhere(fields[k]);
        var path :| DangerAt(fields[k], path);
        DangerOutside(v, Property(k), fields[k], path);
      }
  }

  lemma DangerOutside(v: Value, step: PathStep, inner: Value, path: seq<PathStep>)
    requires DangerAt(inner, path)
    requires match step
             case Element(i) => v.JArray? && i < |v.items| && v.items[i] == inner
             case Property(k) => v.JObject? && k in v.fields && v.fields[k] == inner
    ensures DangerAt(v, [step] + path)
  {
    var longer := [step] + path;
    assert longer[1..] == path;
    var j :| 0 <= j < |path| && path[j].Property? && path[j].k.Dangerous?;
    assert longer[j + 1] == path[j];
  }
}
