/**
 A user's table of extension scenarios and the operations on it: create, put, patch, remove, bulk
 merge or replace, and the installation of a shared preset. Removed rows stay, marked as deleted,
 and come back when their id is written again.
 */
module ScenarioStore {
  import opened Common
  import opened Json
  import opened ScenarioConfig
  import Text

  const MAX_SCENARIOS: nat := 50

  datatype Row = Row(columns: Columns, config: ScenarioConfig, deletedAt: Option<int>)

  /** The rows of one user, by scenario id. */
  type Rows = map<string, Row>

  function ActiveIds(rows: Rows): set<string> {
    set id | id in rows && rows[id].deletedAt.None?
  }

  function DeletedIds(rows: Rows): set<string> {
    set id | id in rows && rows[id].deletedAt.Some?
  }

  /** `toCreateData` and `toUpdateData`: the columns are copied from the configuration, the row is active. */
  function Saved(s: ScenarioConfig): Row {
    Row(s.body.columns, s, None)
  }

  function Existing(rows: Rows, id: string): Option<ScenarioConfig> {
    if id in rows then Some(rows[id].config) else None
  }

  // ---------------------------------------------------------------- normalising, seen from the store

  /** An installed preset is enabled, and dates from its installation. */
  function Installed(normalized: ScenarioConfig): ScenarioConfig {
    normalized.(body := normalized.body.(columns := normalized.body.columns.(enabled := true)),
                createdAt := normalized.updatedAt)
  }

  /**
   The two ways a configuration comes about: from a request (the id if it is fixed, the stored
   configuration under that id, a random id, the clock), and from a patch of a stored one. `normal`
   tells the configurations that normalisation leaves alone.
   */
  datatype Codec = Codec(
    normalize: (Value, Option<string>, Option<ScenarioConfig>, string, int) -> Result<ScenarioConfig, Error>,
    patch: (ScenarioConfig, Value, int) -> Result<ScenarioConfig, Error>,
    normal: ScenarioConfig -> bool)

  function ServiceCodec(dates: Dates): Codec {
    Codec(
      (raw, id, existing: Option<ScenarioConfig>, freshId, now) =>
        NormalizeScenarioConfig(dates, raw, id,
                                if existing.Some? then Some(ToFields(existing.value)) else None, freshId, now),
      (current, patch: Value, now) =>
        if patch.JObject? then ApplyPatch(dates, current, patch.fields, now) else Err(BadRequest),
      c => Normal(dates, c))
  }

  /** `next` is a normal form that goes on from `before`. */
  predicate Continues(codec: Codec, before: Option<ScenarioConfig>, next: ScenarioConfig) {
    && codec.normal(next)
    && (before.Some? && codec.normal(before.value) ==> next.createdAt == before.value.createdAt)
  }

  /** What the store relies on. */
  ghost predicate GoodCodec(codec: Codec) {
    && (forall raw, id, existing, freshId, now ::
          var r := codec.normalize(raw, id, existing, freshId, now);
          r.Ok? ==>
            Continues(codec, existing, r.value) && codec.normal(Installed(r.value)) && (id.Some? ==> r.value.id == id.value))
    && (forall current, patch, now ::
          var r := codec.patch(current, patch, now);
          r.Ok? && codec.normal(current) ==> Continues(codec, Some(current), r.value) && r.value.id == current.id)
  }

  lemma InstalledIsNormal(dates: Dates, c: ScenarioConfig, now: int)
    requires Lawful(dates) && Normal(dates, c) && c.updatedAt == dates.print_(now)
    ensures Normal(dates, Installed(c))
  {
  }

  lemma NormalizeContinues(
    dates: Dates, raw: Value, id: Option<string>, existing: Option<ScenarioConfig>, freshId: string, now: int)
    requires Lawful(dates)
    ensures var codec := ServiceCodec(dates);
            var r := codec.normalize(raw, id, existing, freshId, now);
            r.Ok? ==>
              Continues(codec, existing, r.value) && codec.normal(Installed(r.value)) && (id.Some? ==> r.value.id == id.value)
  {
    var stored := if existing.Some? then Some(ToFields(existing.value)) else None;
    var r := NormalizeScenarioConfig(dates, raw, id, stored, freshId, now);
    NormalizedIsNormal(dates, raw, id, stored, freshId, now);
    if existing.Some? {
      CreatedAtStored(existing.value);
    }
    if r.Ok? {
      InstalledIsNormal(dates, r.value, now);
    }
  }

  lemma PatchContinues(dates: Dates, current: ScenarioConfig, patch: Value, now: int)
    ensures var codec := ServiceCodec(dates);
            var r := codec.patch(current, patch, now);
            r.Ok? && codec.normal(current) ==> Continues(codec, Some(current), r.value) && r.value.id == current.id
  {
    if ServiceCodec(dates).patch(current, patch, now).Ok? && Normal(dates, current) {
      PatchTwice(dates, current, patch.fields, now, now);
    }
  }

  lemma ServiceCodecIsGood(dates: Dates)
    requires Lawful(dates)
    ensures GoodCodec(ServiceCodec(dates))
  {
    var codec := ServiceCodec(dates);
    forall raw, id, existing, freshId, now
      ensures var r := codec.normalize(raw, id, existing, freshId, now);
              r.Ok? ==>
                Continues(codec, existing, r.value) && codec.normal(Installed(r.value)) && (id.Some? ==> r.value.id == id.value)
    {
      NormalizeContinues(dates, raw, id, existing, freshId, now);
    }
    forall current, patch, now
      ensures var r := codec.patch(current, patch, now);
              r.Ok? && codec.normal(current) ==> Continues(codec, Some(current), r.value) && r.value.id == current.id
    {
      PatchContinues(dates, current, patch, now);
    }
  }

  // ---------------------------------------------------------------- the operations as steps

  datatype Outcome = Stored(config: ScenarioConfig) | Done | Failed(error: Error)

  /** `freshId` and `freshIds` are random ids; `preset` is None when no visible preset has the slug. */
  datatype Request =
    | Create(raw: Value, freshId: string)
    | Put(id: string, raw: Value)
    | Patch(id: string, patch: Value)
    | Remove(id: string)
    | Bulk(replace: bool, items: seq<Value>, freshIds: seq<string>)
    | Install(preset: Option<Value>, freshId: string)

  /** The id under which a bulk item is stored. */
  function CandidateId(item: Value, freshId: string): string {
    if item.JObject? && Get(item.fields, Id).JString? && Text.Trim(Get(item.fields, Id).s) != ""
    then Text.Trim(Get(item.fields, Id).s) else freshId
  }

  /** The items of a bulk request; a body that is no object has none. */
  function BulkItems(body: Value): seq<Value> {
    if body.JObject? && Get(body.fields, Items).JArray? then Get(body.fields, Items).items else []
  }

  predicate ReplaceMode(body: Value) {
    body.JObject? && IsString(Get(body.fields, Mode), "replace")
  }

  /** There is a random id for each item of a bulk request. */
  predicate Suppliable(r: Request) {
    r.Bulk? ==> |r.items| <= |r.freshIds|
  }

  function NormalizeItems(codec: Codec, rows: Rows, items: seq<Value>, freshIds: seq<string>, seen: set<string>, now: int)
    : (r: Result<seq<ScenarioConfig>, Error>)
    requires |items| <= |freshIds|
    decreases |items|
  {
    if items == [] then Ok([])
    else
      var id := CandidateId(items[0], freshIds[0]);
      if id in seen then Err(BadRequest)
      else
        var first :- codec.normalize(items[0], Some(id), Existing(rows, id), "", now);
        var rest :- NormalizeItems(codec, rows, items[1..], freshIds[1..], seen + {id}, now);
        Ok([first] + rest)
  }

  function NewCount(rows: Rows, configs: seq<ScenarioConfig>): nat {
    if configs == [] then 0
    else (if configs[0].id in rows then 0 else 1) + NewCount(rows, configs[1..])
  }

  /** The number of active rows that bulk expects to leave, computed before it writes. */
  function ActiveAfter(rows: Rows, replace: bool, configs: seq<ScenarioConfig>): nat {
    if replace then |configs| else |ActiveIds(rows)| + NewCount(rows, configs)
  }

  function SaveAll(rows: Rows, configs: seq<ScenarioConfig>): Rows
    decreases |configs|
  {
    if configs == [] then rows else SaveAll(rows[configs[0].id := Saved(configs[0])], configs[1..])
  }

  function SoftDelete(rows: Rows, ids: set<string>, now: int): Rows {
    map id | id in rows :: if id in ids then rows[id].(deletedAt := Some(now)) else rows[id]
  }

  function IdsOf(configs: seq<ScenarioConfig>): set<string> {
    set i | 0 <= i < |configs| :: configs[i].id
  }

  function Step(codec: Codec, rows: Rows, r: Request, now: int): (Rows, Outcome)
    requires Suppliable(r)
  {
    match r
    case Create(raw, freshId) => CreateStep(codec, rows, raw, freshId, now)
    case Put(id, raw) =>
      (match codec.normalize(raw, Some(id), Existing(rows, id), "", now)
       case Err(e) => (rows, Failed(e))
       case Ok(s) =>
         if id !in rows && |ActiveIds(rows)| >= MAX_SCENARIOS then (rows, Failed(Conflict))
         else (rows[id := Saved(s)], Stored(s)))
    case Patch(id, patch) =>
      if id !in ActiveIds(rows) then (rows, Failed(NotFound))
      else
        (match codec.patch(rows[id].config, patch, now)
         case Err(e) => (rows, Failed(e))
         case Ok(s) => (rows[id := Saved(s)], Stored(s)))
    case Remove(id) =>
      if id !in ActiveIds(rows) then (rows, Failed(NotFound))
      else (rows[id := rows[id].(deletedAt := Some(now))], Done)
    case Bulk(replace, items, freshIds) => BulkStep(codec, rows, replace, items, freshIds, now)
    case Install(preset, freshId) => InstallStep(codec, rows, preset, freshId, now)
  }

  function CreateStep(codec: Codec, rows: Rows, raw: Value, freshId: string, now: int): (Rows, Outcome) {
    match codec.normalize(raw, None, None, freshId, now)
    case Err(e) => (rows, Failed(e))
    case Ok(scenario) =>
      if scenario.id in ActiveIds(rows) then (rows, Failed(Conflict))
      else if scenario.id !in rows then
        if |ActiveIds(rows)| >= MAX_SCENARIOS then (rows, Failed(Conflict))
        else (rows[scenario.id := Saved(scenario)], Stored(scenario))
      else
        match codec.normalize(raw, Some(scenario.id), Existing(rows, scenario.id), "", now)
        case Err(e) => (rows, Failed(e))
        case Ok(s) => (rows[scenario.id := Saved(s)], Stored(s))
  }

  /** The rows after a bulk that is not turned away. */
  function BulkResult(rows: Rows, replace: bool, configs: seq<ScenarioConfig>, now: int): Rows {
    var saved := SaveAll(rows, configs);
    if replace then SoftDelete(saved, ActiveIds(rows) - IdsOf(configs), now) else saved
  }

  function BulkStep(codec: Codec, rows: Rows, replace: bool, items: seq<Value>, freshIds: seq<string>, now: int)
    : (Rows, Outcome)
    requires |items| <= |freshIds|
  {
    match NormalizeItems(codec, rows, items, freshIds, {}, now)
    case Err(e) => (rows, Failed(e))
    case Ok(configs) =>
      if ActiveAfter(rows, replace, configs) > MAX_SCENARIOS then (rows, Failed(Conflict))
      else (BulkResult(rows, replace, configs, now), Done)
  }

  function InstallStep(codec: Codec, rows: Rows, preset: Option<Value>, freshId: string, now: int): (Rows, Outcome) {
    if preset.None? then (rows, Failed(NotFound))
    else if |ActiveIds(rows)| >= MAX_SCENARIOS then (rows, Failed(Conflict))
    else
      match codec.normalize(preset.value, Some(freshId), None, "", now)
      case Err(e) => (rows, Failed(e))
      case Ok(normalized) =>
        if freshId in rows then (rows, Failed(DuplicateRow))
        else (rows[freshId := Saved(Installed(normalized))], Stored(Installed(normalized)))
  }

  // ---------------------------------------------------------------- in place

  /** The service over the table of one user, each operation proved to be its step. */
  class ExtensionScenariosService {
    const codec: Codec
    var rows: Rows

    constructor (codec: Codec)
      ensures this.codec == codec && rows == map[]
    {
      this.codec := codec;
      rows := map[];
    }

    method CreateScenario(raw: Value, freshId: string, now: int) returns (outcome: Outcome)
      modifies this
      ensures (rows, outcome) == Step(codec, old(rows), Create(raw, freshId), now)
    {
      var scenario := codec.normalize(raw, None, None, freshId, now);
      if scenario.Err? {
        return Failed(scenario.error);
      }
      var id := scenario.value.id;
      if id in rows && rows[id].deletedAt.None? {
        return Failed(Conflict);
      }
      if id !in rows {
        if |ActiveIds(rows)| >= MAX_SCENARIOS {
          return Failed(Conflict);
        }
        rows := rows[id := Saved(scenario.value)];
        return Stored(scenario.value);
      }
      var normalized := codec.normalize(raw, Some(id), Some(rows[id].config), "", now);
      if normalized.Err? {
        return Failed(normalized.error);
      }
      rows := rows[id := Saved(normalized.value)];
      return Stored(normalized.value);
    }

    method PutScenario(id: string, raw: Value, now: int) returns (outcome: Outcome)
      modifies this
      ensures (rows, outcome) == Step(codec, old(rows), Put(id, raw), now)
    {
      var normalized := codec.normalize(raw, Some(id), Existing(rows, id), "", now);
      if normalized.Err? {
        return Failed(normalized.error);
      }
      if id in rows {
        rows := rows[id := Saved(normalized.value)];
        return Stored(normalized.value);
      }
      if |ActiveIds(rows)| >= MAX_SCENARIOS {
        return Failed(Conflict);
      }
      rows := rows[id := Saved(normalized.value)];
      return Stored(normalized.value);
    }

    method PatchScenario(id: string, patch: Value, now: int) returns (outcome: Outcome)
      modifies this
      ensures (rows, outcome) == Step(codec, old(rows), Patch(id, patch), now)
    {
      if id !in rows || rows[id].deletedAt.Some? {
        return Failed(NotFound);
      }
      var normalized := codec.patch(rows[id].config, patch, now);
      if normalized.Err? {
        return Failed(normalized.error);
      }
      rows := rows[id := Saved(normalized.value)];
      return Stored(normalized.value);
    }

    method RemoveScenario(id: string, now: int) returns (outcome: Outcome)
      modifies this
      ensures (rows, outcome) == Step(codec, old(rows), Remove(id), now)
    {
      if id !in rows || rows[id].deletedAt.Some? {
        return Failed(NotFound);
      }
      rows := rows[id := rows[id].(deletedAt := Some(now))];
      return Done;
    }

    method NormalizeAll(items: seq<Value>, freshIds: seq<string>, now: int)
      returns (normalized: Result<seq<ScenarioConfig>, Error>)
      requires |items| <= |freshIds|
      ensures normalized == NormalizeItems(codec, rows, items, freshIds, {}, now)
    {
      var configs: seq<ScenarioConfig> := [];
      var seen: set<string> := {};
      var i := 0;
      assert items[i..] == items && freshIds[i..] == freshIds;
      assert forall rest: seq<ScenarioConfig> :: configs + rest == rest;
      while i < |items|
        invariant 0 <= i <= |items|
        invariant NormalizeItems(codec, rows, items, freshIds, {}, now)
               == Onto(configs, NormalizeItems(codec, rows, items[i..], freshIds[i..], seen, now))
      {
        assert items[i..][1..] == items[i + 1..] && freshIds[i..][1..] == freshIds[i + 1..];
        var id := CandidateId(items[i], freshIds[i]);
        if id in seen {
          return Err(BadRequest);
        }
        seen := seen + {id};
        var config := codec.normalize(items[i], Some(id), Existing(rows, id), "", now);
        if config.Err? {
          return Err(config.error);
        }
        ghost var rest := NormalizeItems(codec, rows, items[i + 1..], freshIds[i + 1..], seen, now);
        assert rest.Ok? ==> configs + ([config.value] + rest.value) == configs + [config.value] + rest.value;
        configs := configs + [config.value];
        i := i + 1;
      }
      assert items[i..] == [];
      assert configs + [] == configs;
      return Ok(configs);
    }

    method BulkScenarios(body: Value, freshIds: seq<string>, now: int) returns (outcome: Outcome)
      requires |BulkItems(body)| <= |freshIds|
      modifies this
      ensures !body.JObject? ==> rows == old(rows) && outcome == Failed(BadRequest)
      ensures body.JObject? ==>
                (rows, outcome) == Step(codec, old(rows), Bulk(ReplaceMode(body), BulkItems(body), freshIds), now)
    {
      if !body.JObject? {
        return Failed(BadRequest);
      }
      var replace := ReplaceMode(body);
      var anyExisting := rows;
      var normalized := NormalizeAll(BulkItems(body), freshIds, now);
      if normalized.Err? {
        return Failed(normalized.error);
      }
      var configs := normalized.value;
      if ActiveAfter(anyExisting, replace, configs) > MAX_SCENARIOS {
        return Failed(Conflict);
      }
      ghost var saved := SaveAll(rows, configs);
      var i := 0;
      assert configs[i..] == configs;
      while i < |configs|
        invariant 0 <= i <= |configs|
        invariant SaveAll(rows, configs[i..]) == saved
      {
        assert configs[i..][1..] == configs[i + 1..];
        rows := rows[configs[i].id := Saved(configs[i])];
        i := i + 1;
      }
      assert configs[i..] == [];
      assert rows == saved;
      if replace {
        SaveAllKeeps(anyExisting, configs);
        ghost var result := SoftDelete(rows, ActiveIds(anyExisting) - IdsOf(configs), now);
        var toDelete := ActiveIds(anyExisting) - IdsOf(configs);
        while toDelete != {}
          invariant toDelete <= rows.Keys
          invariant SoftDelete(rows, toDelete, now) == result
          decreases toDelete
        {
          var id :| id in toDelete;
          SoftDeleteOne(rows, toDelete, id, now);
          rows := rows[id := rows[id].(deletedAt := Some(now))];
          toDelete := toDelete - {id};
        }
        SoftDeleteNone(rows, now);
      }
      return Done;
    }

    method InstallPreset(preset: Option<Value>, freshId: string, now: int) returns (outcome: Outcome)
      modifies this
      ensures (rows, outcome) == Step(codec, old(rows), Install(preset, freshId), now)
    {
      if preset.None? {
        return Failed(NotFound);
      }
      if |ActiveIds(rows)| >= MAX_SCENARIOS {
        return Failed(Conflict);
      }
      var normalized := codec.normalize(preset.value, Some(freshId), None, "", now);
      if normalized.Err? {
        return Failed(normalized.error);
      }
      if freshId in rows {
        return Failed(DuplicateRow);
      }
      var installed := Installed(normalized.value);
      rows := rows[freshId := Saved(installed)];
      return Stored(installed);
    }
  }

  function Onto(configs: seq<ScenarioConfig>, r: Result<seq<ScenarioConfig>, Error>): Result<seq<ScenarioConfig>, Error> {
    match r
    case Ok(rest) => Ok(configs + rest)
    case Err(e) => Err(e)
  }

  lemma SoftDeleteOne(rows: Rows, ids: set<string>, id: string, now: int)
    requires id in ids && id in rows
    ensures SoftDelete(rows[id := rows[id].(deletedAt := Some(now))], ids - {id}, now) == SoftDelete(rows, ids, now)
  {
  }

  lemma SoftDeleteNone(rows: Rows, now: int)
    ensures SoftDelete(rows, {}, now) == rows
  {
  }

  // ---------------------------------------------------------------- saving many

  lemma {:induction false} SaveAllKeeps(rows: Rows, configs: seq<ScenarioConfig>)
    ensures SaveAll(rows, configs).Keys == rows.Keys + IdsOf(configs)
    ensures forall id :: id in rows && id !in IdsOf(configs) ==> SaveAll(rows, configs)[id] == rows[id]
    decreases |configs|
  {
    if configs != [] {
      var next := rows[configs[0].id := Saved(configs[0])];
      SaveAllKeeps(next, configs[1..]);
      IdsOfCons(configs);
    }
  }

  lemma IdsOfCons(configs: seq<ScenarioConfig>)
    requires configs != []
    ensures IdsOf(configs) == {configs[0].id} + IdsOf(configs[1..])
  {
    var rest := configs[1..];
    forall id | id in IdsOf(configs)
      ensures id in {configs[0].id} + IdsOf(rest)
    {
      var i :| 0 <= i < |configs| && configs[i].id == id;
      if i > 0 {
        assert rest[i - 1].id == id;
      }
    }
    forall id | id in IdsOf(rest)
      ensures id in IdsOf(configs)
    {
      var i :| 0 <= i < |rest| && rest[i].id == id;
      assert configs[i + 1].id == id;
    }
  }

  ghost predicate DistinctIds(configs: seq<ScenarioConfig>) {
    forall i, j :: 0 <= i < j < |configs| ==> configs[i].id != configs[j].id
  }

  lemma {:induction false} SaveAllSaves(rows: Rows, configs: seq<ScenarioConfig>, i: nat)
    requires DistinctIds(configs) && i < |configs|
    ensures configs[i].id in SaveAll(rows, configs)
    ensures SaveAll(rows, configs)[configs[i].id] == Saved(configs[i])
    decreases |configs|
  {
    var next := rows[configs[0].id := Saved(configs[0])];
    var rest := configs[1..];
    assert DistinctIds(rest);
    if i == 0 {
      SaveAllKeeps(next, rest);
      assert configs[0].id !in IdsOf(rest);
    } else {
      assert rest[i - 1] == configs[i];
      SaveAllSaves(next, rest, i - 1);
    }
  }

  /** The configuration made of a bulk item. */
  predicate GoodItem(codec: Codec, rows: Rows, item: Value, freshId: string, config: ScenarioConfig) {
    config.id == CandidateId(item, freshId) && Continues(codec, Existing(rows, config.id), config)
  }

  lemma FirstIsGood(codec: Codec, rows: Rows, item: Value, freshId: string, now: int)
    requires GoodCodec(codec)
    ensures var id := CandidateId(item, freshId);
            var r := codec.normalize(item, Some(id), Existing(rows, id), "", now);
            r.Ok? ==> GoodItem(codec, rows, item, freshId, r.value)
  {
  }

  lemma DistinctCons(first: ScenarioConfig, rest: seq<ScenarioConfig>)
    requires DistinctIds(rest) && forall i :: 0 <= i < |rest| ==> rest[i].id != first.id
    ensures DistinctIds([first] + rest)
  {
  }

  /** The normalised items carry distinct ids, and each continues what is stored under its id. */
  lemma {:induction false} ItemsAreGood(
    codec: Codec, rows: Rows, items: seq<Value>, freshIds: seq<string>, seen: set<string>, now: int)
    requires GoodCodec(codec) && |items| <= |freshIds|
    requires NormalizeItems(codec, rows, items, freshIds, seen, now).Ok?
    ensures var configs := NormalizeItems(codec, rows, items, freshIds, seen, now).value;
            && |configs| == |items|
            && DistinctIds(configs)
            && (forall i :: 0 <= i < |configs| ==>
                  configs[i].id !in seen && GoodItem(codec, rows, items[i], freshIds[i], configs[i]))
    decreases |items|
  {
    if items != [] {
      var id := CandidateId(items[0], freshIds[0]);
      FirstIsGood(codec, rows, items[0], freshIds[0], now);
      ItemsAreGood(codec, rows, items[1..], freshIds[1..], seen + {id}, now);
      var first := codec.normalize(items[0], Some(id), Existing(rows, id), "", now).value;
      var rest := NormalizeItems(codec, rows, items[1..], freshIds[1..], seen + {id}, now).value;
      DistinctCons(first, rest);
      var configs := [first] + rest;
      forall i | 0 <= i < |configs|
        ensures configs[i].id !in seen && GoodItem(codec, rows, items[i], freshIds[i], configs[i])
      {
        if i > 0 {
          assert configs[i] == rest[i - 1] && items[i] == items[1..][i - 1] && freshIds[i] == freshIds[1..][i - 1];
        }
      }
    }
  }

  // ---------------------------------------------------------------- what every operation keeps

  /** A row sits under its configuration's id, mirrors its columns, and holds a normal form. */
  predicate RowOk(codec: Codec, id: string, row: Row) {
    row.config.id == id && row.columns == row.config.body.columns && codec.normal(row.config)
  }

  ghost predicate StoreOk(codec: Codec, rows: Rows) {
    forall id :: id in rows ==> RowOk(codec, id, rows[id])
  }

  /** No row disappears, and no row's date of creation changes. */
  ghost predicate KeepsCreation(before: Rows, after: Rows) {
    forall id :: id in before ==> id in after && after[id].config.createdAt == before[id].config.createdAt
  }

  ghost predicate Sound(codec: Codec, before: Rows, after: Rows) {
    StoreOk(codec, after) && KeepsCreation(before, after)
  }

  lemma SaveOneIsSound(codec: Codec, rows: Rows, s: ScenarioConfig)
    requires StoreOk(codec, rows) && Continues(codec, Existing(rows, s.id), s)
    ensures Sound(codec, rows, rows[s.id := Saved(s)])
  {
  }

  lemma SaveAllIsSound(codec: Codec, rows: Rows, configs: seq<ScenarioConfig>)
    requires StoreOk(codec, rows) && DistinctIds(configs)
    requires forall i :: 0 <= i < |configs| ==> Continues(codec, Existing(rows, configs[i].id), configs[i])
    ensures Sound(codec, rows, SaveAll(rows, configs))
  {
    var after := SaveAll(rows, configs);
    SaveAllKeeps(rows, configs);
    forall id | id in after
      ensures RowOk(codec, id, after[id])
      ensures id in rows ==> after[id].config.createdAt == rows[id].config.createdAt
    {
      if id in IdsOf(configs) {
        var i :| 0 <= i < |configs| && configs[i].id == id;
        SaveAllSaves(rows, configs, i);
        assert Continues(codec, Existing(rows, configs[i].id), configs[i]);
      }
    }
  }

  lemma SoftDeleteIsSound(codec: Codec, rows: Rows, ids: set<string>, now: int)
    requires StoreOk(codec, rows)
    ensures Sound(codec, rows, SoftDelete(rows, ids, now))
  {
  }

  lemma BulkIsSound(
    codec: Codec, rows: Rows, replace: bool, items: seq<Value>, freshIds: seq<string>, now: int)
    requires GoodCodec(codec) && StoreOk(codec, rows) && |items| <= |freshIds|
    ensures Sound(codec, rows, BulkStep(codec, rows, replace, items, freshIds, now).0)
  {
    var r := NormalizeItems(codec, rows, items, freshIds, {}, now);
    if r.Ok? {
      ItemsAreGood(codec, rows, items, freshIds, {}, now);
      forall i | 0 <= i < |r.value|
        ensures Continues(codec, Existing(rows, r.value[i].id), r.value[i])
      {
        assert GoodItem(codec, rows, items[i], freshIds[i], r.value[i]);
      }
      SaveAllIsSound(codec, rows, r.value);
      SoftDeleteIsSound(codec, SaveAll(rows, r.value), ActiveIds(rows) - IdsOf(r.value), now);
    }
  }

  lemma CreateIsSound(codec: Codec, rows: Rows, raw: Value, freshId: string, now: int)
    requires GoodCodec(codec) && StoreOk(codec, rows)
    ensures Sound(codec, rows, CreateStep(codec, rows, raw, freshId, now).0)
  {
    var first := codec.normalize(raw, None, None, freshId, now);
    if first.Ok? {
      var id := first.value.id;
      if id !in rows {
        SaveOneIsSound(codec, rows, first.value);
      } else {
        PutIsSound(codec, rows, id, raw, now);
      }
    }
  }

  lemma PutIsSound(codec: Codec, rows: Rows, id: string, raw: Value, now: int)
    requires GoodCodec(codec) && StoreOk(codec, rows)
    ensures var s := codec.normalize(raw, Some(id), Existing(rows, id), "", now);
            s.Ok? ==> Sound(codec, rows, rows[id := Saved(s.value)])
  {
    var s := codec.normalize(raw, Some(id), Existing(rows, id), "", now);
    if s.Ok? {
      SaveOneIsSound(codec, rows, s.value);
    }
  }

  lemma PatchIsSound(codec: Codec, rows: Rows, id: string, patch: Value, now: int)
    requires GoodCodec(codec) && StoreOk(codec, rows) && id in rows
    ensures var s := codec.patch(rows[id].config, patch, now);
            s.Ok? ==> Sound(codec, rows, rows[id := Saved(s.value)])
  {
    assert RowOk(codec, id, rows[id]);
    var s := codec.patch(rows[id].config, patch, now);
    if s.Ok? {
      SaveOneIsSound(codec, rows, s.value);
    }
  }

  lemma InstallIsSound(codec: Codec, rows: Rows, preset: Option<Value>, freshId: string, now: int)
    requires GoodCodec(codec) && StoreOk(codec, rows)
    ensures Sound(codec, rows, InstallStep(codec, rows, preset, freshId, now).0)
  {
    if preset.Some? {
      var s := codec.normalize(preset.value, Some(freshId), None, "", now);
      assert s.Ok? ==> codec.normal(Installed(s.value)) && Installed(s.value).id == freshId;
    }
  }

  lemma StepIsSound(codec: Codec, rows: Rows, r: Request, now: int)
    requires GoodCodec(codec) && StoreOk(codec, rows) && Suppliable(r)
    ensures Sound(codec, rows, Step(codec, rows, r, now).0)
  {
    match r
    case Create(raw, freshId) => CreateIsSound(codec, rows, raw, freshId, now);
    case Put(id, raw) => PutIsSound(codec, rows, id, raw, now);
    case Patch(id, patch) =>
      if id in rows {
        PatchIsSound(codec, rows, id, patch, now);
      }
    case Remove(id) =>
    case Bulk(replace, items, freshIds) => BulkIsSound(codec, rows, replace, items, freshIds, now);
    case Install(preset, freshId) => InstallIsSound(codec, rows, preset, freshId, now);
  }

  datatype Call = Call(request: Request, now: int)

  function Run(codec: Codec, rows: Rows, calls: seq<Call>): Rows
    requires forall i :: 0 <= i < |calls| ==> Suppliable(calls[i].request)
    decreases |calls|
  {
    if calls == [] then rows else Run(codec, Step(codec, rows, calls[0].request, calls[0].now).0, calls[1..])
  }

  /** Over every run: rows mirror their configurations, keep their ids and never change their date of creation. */
  lemma {:induction false} RunIsSound(codec: Codec, rows: Rows, calls: seq<Call>)
    requires GoodCodec(codec) && StoreOk(codec, rows)
    requires forall i :: 0 <= i < |calls| ==> Suppliable(calls[i].request)
    ensures Sound(codec, rows, Run(codec, rows, calls))
    decreases |calls|
  {
    if calls != [] {
      StepIsSound(codec, rows, calls[0].request, calls[0].now);
      RunIsSound(codec, Step(codec, rows, calls[0].request, calls[0].now).0, calls[1..]);
    }
  }

  lemma ReachableIsSound(dates: Dates, calls: seq<Call>)
    requires Lawful(dates) && forall i :: 0 <= i < |calls| ==> Suppliable(calls[i].request)
    ensures StoreOk(ServiceCodec(dates), Run(ServiceCodec(dates), map[], calls))
  {
    ServiceCodecIsGood(dates);
    RunIsSound(ServiceCodec(dates), map[], calls);
  }

  /** In a sound table, an empty patch of an active row only renews the time of its update. */
  lemma EmptyPatchOfRow(dates: Dates, rows: Rows, id: string, now: int)
    requires StoreOk(ServiceCodec(dates), rows) && id in ActiveIds(rows)
    ensures var renewed := rows[id].config.(updatedAt := dates.print_(now));
            Step(ServiceCodec(dates), rows, Patch(id, JObject(map[])), now) == (rows[id := Saved(renewed)], Stored(renewed))
  {
    assert RowOk(ServiceCodec(dates), id, rows[id]);
    PatchedByNothing(dates, rows[id].config, now);
  }

  lemma PatchedByNothing(dates: Dates, c: ScenarioConfig, now: int)
    requires Normal(dates, c)
    ensures ServiceCodec(dates).patch(c, JObject(map[]), now) == Ok(c.(updatedAt := dates.print_(now)))
  {
    EmptyPatch(dates, c, now);
  }

  // ---------------------------------------------------------------- bulk as set algebra

  lemma {:induction false} CountIds(configs: seq<ScenarioConfig>)
    requires DistinctIds(configs)
    ensures |IdsOf(configs)| == |configs|
  {
    if configs != [] {
      CountIds(configs[1..]);
      IdsOfCons(configs);
      assert configs[0].id !in IdsOf(configs[1..]);
    } else {
      assert IdsOf(configs) == {};
    }
  }

  lemma {:induction false} CountNew(rows: Rows, configs: seq<ScenarioConfig>)
    requires DistinctIds(configs)
    ensures NewCount(rows, configs) == |IdsOf(configs) - rows.Keys|
  {
    if configs != [] {
      CountNew(rows, configs[1..]);
      IdsOfCons(configs);
      assert configs[0].id !in IdsOf(configs[1..]);
      CountOneMore(configs[0].id, IdsOf(configs[1..]), rows.Keys);
    } else {
      assert IdsOf(configs) - rows.Keys == {};
    }
  }

  lemma CountOneMore(id: string, rest: set<string>, known: set<string>)
    requires id !in rest
    ensures |({id} + rest) - known| == (if id in known then 0 else 1) + |rest - known|
  {
    assert ({id} + rest) - known == if id in known then rest - known else {id} + (rest - known);
  }

  lemma ActiveAfterSave(rows: Rows, configs: seq<ScenarioConfig>)
    requires DistinctIds(configs)
    ensures ActiveIds(SaveAll(rows, configs)) == ActiveIds(rows) + IdsOf(configs)
  {
    SaveAllKeeps(rows, configs);
    var after := SaveAll(rows, configs);
    forall id | id in IdsOf(configs)
      ensures id in ActiveIds(after)
    {
      var i :| 0 <= i < |configs| && configs[i].id == id;
      SaveAllSaves(rows, configs, i);
    }
  }

  /** The rows of a successful bulk: the requested ids when replacing, else those added to the active ones. */
  lemma BulkActiveIds(rows: Rows, replace: bool, configs: seq<ScenarioConfig>, now: int)
    requires DistinctIds(configs)
    ensures ActiveIds(BulkResult(rows, replace, configs, now))
         == if replace then IdsOf(configs) else ActiveIds(rows) + IdsOf(configs)
  {
    ActiveAfterSave(rows, configs);
    SaveAllKeeps(rows, configs);
  }

  lemma CountUnion(active: set<string>, deleted: set<string>, ids: set<string>)
    requires active !! deleted
    ensures |active + ids| == |active| + |ids - (active + deleted)| + |ids * deleted|
  {
    var added, revived := ids - (active + deleted), ids * deleted;
    assert active + ids == active + (added + revived);
    assert |active + (added + revived)| == |active| + |added + revived|;
    assert |added + revived| == |added| + |revived|;
  }

  /** The precomputed count falls short by the revived rows when merging, and by nothing when replacing. */
  lemma ActiveAfterFallsShortBy(rows: Rows, replace: bool, configs: seq<ScenarioConfig>, now: int)
    requires DistinctIds(configs)
    ensures |ActiveIds(BulkResult(rows, replace, configs, now))|
         == ActiveAfter(rows, replace, configs) + (if replace then 0 else |IdsOf(configs) * DeletedIds(rows)|)
  {
    BulkActiveIds(rows, replace, configs, now);
    if replace {
      CountIds(configs);
    } else {
      CountNew(rows, configs);
      CountUnion(ActiveIds(rows), DeletedIds(rows), IdsOf(configs));
      assert rows.Keys == ActiveIds(rows) + DeletedIds(rows);
    }
  }

  /** The precomputed count is right always when replacing, and when merging exactly if no requested id is soft-deleted. */
  lemma ActiveAfterIsTrueCount(rows: Rows, replace: bool, configs: seq<ScenarioConfig>, now: int)
    requires DistinctIds(configs)
    ensures ActiveAfter(rows, replace, configs) == |ActiveIds(BulkResult(rows, replace, configs, now))|
       <==> replace || IdsOf(configs) * DeletedIds(rows) == {}
  {
    ActiveAfterFallsShortBy(rows, replace, configs, now);
    var revived := IdsOf(configs) * DeletedIds(rows);
    assert |revived| == 0 <==> revived == {};
  }

  function RequestedIds(items: seq<Value>, freshIds: seq<string>): set<string>
    requires |items| <= |freshIds|
  {
    set i | 0 <= i < |items| :: CandidateId(items[i], freshIds[i])
  }

  /** What a bulk request does, from the request to the set of active ids. */
  lemma BulkRefinesSets(
    codec: Codec, rows: Rows, replace: bool, items: seq<Value>, freshIds: seq<string>, now: int)
    requires GoodCodec(codec) && |items| <= |freshIds|
    ensures var (after, outcome) := BulkStep(codec, rows, replace, items, freshIds, now);
            var requested := RequestedIds(items, freshIds);
            && (outcome.Done? ==>
                  && ActiveIds(after) == (if replace then requested else ActiveIds(rows) + requested)
                  && |requested| == |items|
                  && (replace ==> |ActiveIds(after)| == |items| <= MAX_SCENARIOS))
            && (!outcome.Done? ==> after == rows)
  {
    var r := NormalizeItems(codec, rows, items, freshIds, {}, now);
    if r.Ok? && ActiveAfter(rows, replace, r.value) <= MAX_SCENARIOS {
      RequestedAreDistinct(codec, rows, items, freshIds, r.value, now);
      BulkResultSets(rows, replace, r.value, RequestedIds(items, freshIds), now);
    }
  }

  lemma BulkResultSets(rows: Rows, replace: bool, configs: seq<ScenarioConfig>, requested: set<string>, now: int)
    requires DistinctIds(configs) && requested == IdsOf(configs) && |requested| == |configs|
    requires ActiveAfter(rows, replace, configs) <= MAX_SCENARIOS
    ensures var after := ActiveIds(BulkResult(rows, replace, configs, now));
            && after == (if replace then requested else ActiveIds(rows) + requested)
            && (replace ==> |after| == |configs| <= MAX_SCENARIOS)
  {
    BulkActiveIds(rows, replace, configs, now);
  }

  lemma RequestedAreDistinct(
    codec: Codec, rows: Rows, items: seq<Value>, freshIds: seq<string>, configs: seq<ScenarioConfig>, now: int)
    requires GoodCodec(codec) && |items| <= |freshIds|
    requires NormalizeItems(codec, rows, items, freshIds, {}, now) == Ok(configs)
    ensures RequestedIds(items, freshIds) == IdsOf(configs)
    ensures DistinctIds(configs) && |IdsOf(configs)| == |configs| == |items|
  {
    ItemsAreGood(codec, rows, items, freshIds, {}, now);
    CountIds(configs);
    RequestedAreSaved(codec, rows, items, freshIds, configs);
  }

  lemma RequestedAreSaved(codec: Codec, rows: Rows, items: seq<Value>, freshIds: seq<string>, configs: seq<ScenarioConfig>)
    requires |configs| == |items| <= |freshIds|
    requires forall i :: 0 <= i < |configs| ==> GoodItem(codec, rows, items[i], freshIds[i], configs[i])
    ensures RequestedIds(items, freshIds) == IdsOf(configs)
  {
    assert forall i :: 0 <= i < |configs| ==> configs[i].id == CandidateId(items[i], freshIds[i]) by {
      forall i | 0 <= i < |configs|
        ensures configs[i].id == CandidateId(items[i], freshIds[i])
      {
        assert GoodItem(codec, rows, items[i], freshIds[i], configs[i]);
      }
    }
  }

  // ---------------------------------------------------------------- the cap of fifty

  lemma ActiveAfterPut(rows: Rows, s: ScenarioConfig)
    ensures ActiveIds(rows[s.id := Saved(s)]) == ActiveIds(rows) + {s.id}
  {
  }

  /** The soft-deleted ids that a step makes active again. */
  function Revived(before: Rows, after: Rows): set<string> {
    DeletedIds(before) * ActiveIds(after)
  }

  lemma BulkKeepsCap(codec: Codec, rows: Rows, r: Request, now: int)
    requires GoodCodec(codec) && r.Bulk? && Suppliable(r) && |ActiveIds(rows)| <= MAX_SCENARIOS
    requires Revived(rows, Step(codec, rows, r, now).0) == {}
    ensures |ActiveIds(Step(codec, rows, r, now).0)| <= MAX_SCENARIOS
  {
    var n := NormalizeItems(codec, rows, r.items, r.freshIds, {}, now);
    if n.Ok? && ActiveAfter(rows, r.replace, n.value) <= MAX_SCENARIOS {
      ItemsAreGood(codec, rows, r.items, r.freshIds, {}, now);
      BulkResultKeepsCap(rows, r.replace, n.value, now);
    }
  }

  lemma BulkResultKeepsCap(rows: Rows, replace: bool, configs: seq<ScenarioConfig>, now: int)
    requires DistinctIds(configs) && ActiveAfter(rows, replace, configs) <= MAX_SCENARIOS
    requires Revived(rows, BulkResult(rows, replace, configs, now)) == {}
    ensures |ActiveIds(BulkResult(rows, replace, configs, now))| <= MAX_SCENARIOS
  {
    ActiveAfterFallsShortBy(rows, replace, configs, now);
    BulkActiveIds(rows, replace, configs, now);
    assert IdsOf(configs) * DeletedIds(rows) <= Revived(rows, BulkResult(rows, replace, configs, now));
  }

  lemma ActiveAfterRemove(rows: Rows, id: string, now: int)
    requires id in rows
    ensures var after := rows[id := rows[id].(deletedAt := Some(now))];
            ActiveIds(after) == ActiveIds(rows) - {id} && after.Keys == rows.Keys
  {
  }

  lemma RemoveKeepsCap(codec: Codec, rows: Rows, r: Request, now: int)
    requires r.Remove? && |ActiveIds(rows)| <= MAX_SCENARIOS
    ensures |ActiveIds(Step(codec, rows, r, now).0)| <= MAX_SCENARIOS
  {
    if r.id in ActiveIds(rows) {
      ActiveAfterRemove(rows, r.id, now);
    }
  }

  /** A row is only ever saved under the id of its configuration. */
  lemma SavedUnderItsId(codec: Codec, rows: Rows, r: Request, now: int)
    requires GoodCodec(codec) && StoreOk(codec, rows) && Suppliable(r)
    requires Step(codec, rows, r, now).1.Stored?
    ensures var (after, outcome) := Step(codec, rows, r, now);
            && after == rows[outcome.config.id := Saved(outcome.config)]
            && (outcome.config.id !in rows ==> |ActiveIds(rows)| < MAX_SCENARIOS)
  {
    if r.Patch? {
      assert RowOk(codec, r.id, rows[r.id]);
    }
  }

  /**
   From a table within the cap, an operation that stores a row exceeds the cap exactly when the table is full
   and the id is soft-deleted: create, put, patch and install alike.
   */
  lemma StoredExceedsCapIff(codec: Codec, rows: Rows, r: Request, now: int)
    requires GoodCodec(codec) && StoreOk(codec, rows) && Suppliable(r)
    requires |ActiveIds(rows)| <= MAX_SCENARIOS && Step(codec, rows, r, now).1.Stored?
    ensures var (after, outcome) := Step(codec, rows, r, now);
            |ActiveIds(after)| > MAX_SCENARIOS <==>
              |ActiveIds(rows)| == MAX_SCENARIOS && outcome.config.id in DeletedIds(rows)
  {
    var s := Step(codec, rows, r, now).1.config;
    SavedUnderItsId(codec, rows, r, now);
    ActiveAfterPut(rows, s);
    if s.id in ActiveIds(rows) {
      assert ActiveIds(rows) + {s.id} == ActiveIds(rows);
    }
  }

  lemma StoredKeepsCap(codec: Codec, rows: Rows, r: Request, now: int)
    requires GoodCodec(codec) && StoreOk(codec, rows) && Suppliable(r)
    requires |ActiveIds(rows)| <= MAX_SCENARIOS && Step(codec, rows, r, now).1.Stored?
    requires Revived(rows, Step(codec, rows, r, now).0) == {}
    ensures |ActiveIds(Step(codec, rows, r, now).0)| <= MAX_SCENARIOS
  {
    var (after, outcome) := Step(codec, rows, r, now);
    StoredExceedsCapIff(codec, rows, r, now);
    SavedUnderItsId(codec, rows, r, now);
    ActiveAfterPut(rows, outcome.config);
    assert outcome.config.id in DeletedIds(rows) ==> outcome.config.id in Revived(rows, after);
  }

  lemma RefusedChangesNothing(codec: Codec, rows: Rows, r: Request, now: int)
    requires Suppliable(r) && !r.Bulk? && !r.Remove? && !Step(codec, rows, r, now).1.Stored?
    ensures Step(codec, rows, r, now).0 == rows
  {
  }

  /** A step that revives nothing keeps the number of active rows at fifty or fewer. */
  lemma StepKeepsCap(codec: Codec, rows: Rows, r: Request, now: int)
    requires GoodCodec(codec) && StoreOk(codec, rows) && Suppliable(r)
    requires |ActiveIds(rows)| <= MAX_SCENARIOS
    requires Revived(rows, Step(codec, rows, r, now).0) == {}
    ensures |ActiveIds(Step(codec, rows, r, now).0)| <= MAX_SCENARIOS
  {
    if r.Bulk? {
      BulkKeepsCap(codec, rows, r, now);
    } else if r.Remove? {
      RemoveKeepsCap(codec, rows, r, now);
    } else if Step(codec, rows, r, now).1.Stored? {
      StoredKeepsCap(codec, rows, r, now);
    } else {
      RefusedChangesNothing(codec, rows, r, now);
    }
  }

  ghost predicate NeverRevives(codec: Codec, rows: Rows, calls: seq<Call>)
    requires forall i :: 0 <= i < |calls| ==> Suppliable(calls[i].request)
    decreases |calls|
  {
    calls == [] ||
    (var next := Step(codec, rows, calls[0].request, calls[0].now).0;
     Revived(rows, next) == {} && NeverRevives(codec, next, calls[1..]))
  }

  /** The cap holds over every run that never revives a soft-deleted id. */
  lemma {:induction false} RunKeepsCap(codec: Codec, rows: Rows, calls: seq<Call>)
    requires GoodCodec(codec) && StoreOk(codec, rows)
    requires forall i :: 0 <= i < |calls| ==> Suppliable(calls[i].request)
    requires |ActiveIds(rows)| <= MAX_SCENARIOS && NeverRevives(codec, rows, calls)
    ensures |ActiveIds(Run(codec, rows, calls))| <= MAX_SCENARIOS
    decreases |calls|
  {
    if calls != [] {
      StepIsSound(codec, rows, calls[0].request, calls[0].now);
      StepKeepsCap(codec, rows, calls[0].request, calls[0].now);
      RunKeepsCap(codec, Step(codec, rows, calls[0].request, calls[0].now).0, calls[1..]);
    }
  }

  /** An accepted bulk exceeds the cap exactly when it merges, and active, new and revived ids together do not fit. */
  lemma BulkExceedsCapIff(
    codec: Codec, rows: Rows, replace: bool, items: seq<Value>, freshIds: seq<string>, now: int)
    requires GoodCodec(codec) && |items| <= |freshIds|
    requires BulkStep(codec, rows, replace, items, freshIds, now).1.Done?
    ensures var requested := RequestedIds(items, freshIds);
            |ActiveIds(BulkStep(codec, rows, replace, items, freshIds, now).0)| > MAX_SCENARIOS <==>
              && !replace
              && |ActiveIds(rows)| + |requested - rows.Keys| + |requested * DeletedIds(rows)| > MAX_SCENARIOS
  {
    var configs := NormalizeItems(codec, rows, items, freshIds, {}, now).value;
    RequestedAreDistinct(codec, rows, items, freshIds, configs, now);
    ActiveAfterFallsShortBy(rows, replace, configs, now);
    CountNew(rows, configs);
  }

  // ---------------------------------------------------------------- a run that passes the cap

  /** A body that is accepted under every id. */
  ghost predicate AlwaysAccepted(codec: Codec, raw: Value) {
    forall id, existing, now :: codec.normalize(raw, Some(id), existing, "", now).Ok?
  }

  ghost predicate Distinct(ids: seq<string>) {
    forall i, j :: 0 <= i < j < |ids| ==> ids[i] != ids[j]
  }

  function PutAll(ids: seq<string>, raw: Value, now: int): (calls: seq<Call>)
    ensures forall i :: 0 <= i < |calls| ==> Suppliable(calls[i].request)
  {
    seq(|ids|, i requires 0 <= i < |ids| => Call(Put(ids[i], raw), now))
  }

  /** Fifty puts fill the table; one id is removed, a new one put in its place, and the removed one put again. */
  function PassingRun(ids: seq<string>, raw: Value, now: int): (calls: seq<Call>)
    requires |ids| == MAX_SCENARIOS + 1
    ensures forall i :: 0 <= i < |calls| ==> Suppliable(calls[i].request)
  {
    PutAll(ids[..MAX_SCENARIOS], raw, now)
    + [Call(Remove(ids[0]), now), Call(Put(ids[MAX_SCENARIOS], raw), now), Call(Put(ids[0], raw), now)]
  }

  lemma {:induction false} RunAppend(codec: Codec, rows: Rows, first: seq<Call>, second: seq<Call>)
    requires forall i :: 0 <= i < |first| ==> Suppliable(first[i].request)
    requires forall i :: 0 <= i < |second| ==> Suppliable(second[i].request)
    ensures Run(codec, rows, first + second) == Run(codec, Run(codec, rows, first), second)
    decreases |first|
  {
    if first == [] {
      assert first + second == second;
    } else {
      assert (first + second)[1..] == first[1..] + second;
      RunAppend(codec, Step(codec, rows, first[0].request, first[0].now).0, first[1..], second);
    }
  }

  lemma PutAccepted(codec: Codec, rows: Rows, id: string, raw: Value, now: int)
    requires GoodCodec(codec) && AlwaysAccepted(codec, raw)
    requires id in rows || |ActiveIds(rows)| < MAX_SCENARIOS
    ensures var after := Step(codec, rows, Put(id, raw), now).0;
            after.Keys == rows.Keys + {id} && ActiveIds(after) == ActiveIds(rows) + {id}
  {
    var s := codec.normalize(raw, Some(id), Existing(rows, id), "", now).value;
    assert s.id == id;
    ActiveAfterPut(rows, s);
  }

  lemma RunOne(codec: Codec, rows: Rows, call: Call)
    requires Suppliable(call.request)
    ensures Run(codec, rows, [call]) == Step(codec, rows, call.request, call.now).0
  {
    assert [call][1..] == [];
  }

  lemma CountDistinct(ids: seq<string>)
    requires Distinct(ids)
    ensures |set id | id in ids| == |ids|
  {
    if ids != [] {
      var n := |ids| - 1;
      CountDistinct(ids[..n]);
      assert (set id | id in ids) == (set id | id in ids[..n]) + {ids[n]};
    } else {
      assert (set id | id in ids) == {};
    }
  }

  lemma {:induction false} FillTable(codec: Codec, ids: seq<string>, raw: Value, now: int)
    requires GoodCodec(codec) && AlwaysAccepted(codec, raw)
    requires Distinct(ids) && |ids| <= MAX_SCENARIOS
    ensures var rows := Run(codec, map[], PutAll(ids, raw, now));
            rows.Keys == ActiveIds(rows) == set id | id in ids
  {
    if ids != [] {
      var n := |ids| - 1;
      var before := PutAll(ids[..n], raw, now);
      var last := Call(Put(ids[n], raw), now);
      assert PutAll(ids, raw, now) == before + [last];
      FillTable(codec, ids[..n], raw, now);
      RunAppend(codec, map[], before, [last]);
      RunOne(codec, Run(codec, map[], before), last);
      CountDistinct(ids[..n]);
      PutAccepted(codec, Run(codec, map[], before), ids[n], raw, now);
      assert (set id | id in ids) == (set id | id in ids[..n]) + {ids[n]};
    }
  }

  lemma RunThree(codec: Codec, rows: Rows, a: Call, b: Call, c: Call)
    requires Suppliable(a.request) && Suppliable(b.request) && Suppliable(c.request)
    ensures var afterA := Step(codec, rows, a.request, a.now).0;
            var afterB := Step(codec, afterA, b.request, b.now).0;
            Run(codec, rows, [a, b, c]) == Step(codec, afterB, c.request, c.now).0
  {
    var afterA := Step(codec, rows, a.request, a.now).0;
    assert [a] + [b, c] == [a, b, c] && [b] + [c] == [b, c];
    RunOne(codec, rows, a);
    RunAppend(codec, rows, [a], [b, c]);
    RunOne(codec, afterA, b);
    RunAppend(codec, afterA, [b], [c]);
    RunOne(codec, Step(codec, afterA, b.request, b.now).0, c);
  }

  /** On a full table: remove one id, put a new one in its place, and put the removed one again. */
  lemma RemoveAndRevive(codec: Codec, full: Rows, first: string, last: string, raw: Value, now: int)
    requires GoodCodec(codec) && AlwaysAccepted(codec, raw)
    requires full.Keys == ActiveIds(full) && |full.Keys| == MAX_SCENARIOS && first in full && last !in full
    ensures var removed := Step(codec, full, Remove(first), now).0;
            var replaced := Step(codec, removed, Put(last, raw), now).0;
            |ActiveIds(Step(codec, replaced, Put(first, raw), now).0)| == MAX_SCENARIOS + 1
  {
    var removed := Step(codec, full, Remove(first), now).0;
    ActiveAfterRemove(full, first, now);
    PutAccepted(codec, removed, last, raw, now);
    PutAccepted(codec, Step(codec, removed, Put(last, raw), now).0, first, raw, now);
    OutAndIn(ActiveIds(full), first, last);
  }

  lemma OutAndIn(ids: set<string>, first: string, last: string)
    requires first in ids && last !in ids
    ensures |ids - {first}| == |ids| - 1
    ensures |ids - {first} + {last} + {first}| == |ids| + 1
  {
    assert ids - {first} + {last} + {first} == ids + {last};
  }

  /** With any fifty-one ids, that run from the empty table leaves fifty-one active rows. */
  lemma RevivalPassesCap(codec: Codec, ids: seq<string>, raw: Value, now: int)
    requires GoodCodec(codec) && AlwaysAccepted(codec, raw)
    requires Distinct(ids) && |ids| == MAX_SCENARIOS + 1
    ensures |ActiveIds(Run(codec, map[], PassingRun(ids, raw, now)))| == MAX_SCENARIOS + 1
  {
    var filling := PutAll(ids[..MAX_SCENARIOS], raw, now);
    var remove, add, revive :=
      Call(Remove(ids[0]), now), Call(Put(ids[MAX_SCENARIOS], raw), now), Call(Put(ids[0], raw), now);
    var full := Run(codec, map[], filling);
    FillTable(codec, ids[..MAX_SCENARIOS], raw, now);
    CountDistinct(ids[..MAX_SCENARIOS]);
    assert ids[0] == ids[..MAX_SCENARIOS][0];
    RemoveAndRevive(codec, full, ids[0], ids[MAX_SCENARIOS], raw, now);
    RunAppend(codec, map[], filling, [remove, add, revive]);
    RunThree(codec, full, remove, add, revive);
  }

  /** So the service itself can be driven past the cap. */
  lemma CapCanBePassed(dates: Dates, now: int) returns (calls: seq<Call>)
    requires Lawful(dates)
    ensures forall i :: 0 <= i < |calls| ==> Suppliable(calls[i].request)
    ensures |ActiveIds(Run(ServiceCodec(dates), map[], calls))| == MAX_SCENARIOS + 1
  {
    var raw := JObject(ToFields(Sample()));
    var ids := seq(MAX_SCENARIOS + 1, n requires 0 <= n => seq(n, _ => 'a'));
    SampleIsNormal();
    forall id, existing, at
      ensures ServiceCodec(dates).normalize(raw, Some(id), existing, "", at).Ok?
    {
      NormalBodyIsAccepted(dates, Sample(), id, if existing.Some? then Some(ToFields(existing.value)) else None, "", at);
    }
    assert Distinct(ids) by {
      forall i, j | 0 <= i < j < |ids|
        ensures ids[i] != ids[j]
      {
        assert |ids[i]| == i && |ids[j]| == j;
      }
    }
    ServiceCodecIsGood(dates);
    calls := PassingRun(ids, raw, now);
    RevivalPassesCap(ServiceCodec(dates), ids, raw, now);
  }
}
