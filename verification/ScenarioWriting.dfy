/**
 What each operation on the scenario table writes, and when it is turned away: the cap, the ids, the rows and their
 columns, operation by operation.
 */
module ScenarioWriting {
  import opened Common
  import opened Json
  import opened ScenarioConfig
  import opened ScenarioStore
  import Text

  /** There is room for one more row that is not deleted. */
  ghost predicate HasRoom(rows: Rows) {
    |set id | id in rows && rows[id].deletedAt == None| < 50
  }

  lemma RoomIff(rows: Rows)
    ensures HasRoom(rows) <==> |ActiveIds(rows)| < MAX_SCENARIOS
  {
    assert ActiveIds(rows) == set id | id in rows && rows[id].deletedAt == None;
  }

  /** The configuration that is stored under an id, in an active or a deleted row. */
  function StoredUnder(rows: Rows, id: string): Option<ScenarioConfig> {
    if id in rows then Some(rows[id].config) else None
  }

  /** A put stores what the request normalises to over the stored configuration, in a new row only if there is room. */
  lemma PutMeaning(codec: Codec, rows: Rows, id: string, raw: Value, now: int)
    ensures var (after, outcome) := Step(codec, rows, Put(id, raw), now);
            match codec.normalize(raw, Some(id), StoredUnder(rows, id), "", now)
            case Err(e) => outcome == Failed(e) && after == rows
            case Ok(s) =>
              if id in rows || HasRoom(rows) then outcome == Stored(s) && after == rows[id := Row(s.body.columns, s, None)]
              else outcome == Failed(Conflict) && after == rows
  {
    RoomIff(rows);
  }

  /** A patch is for an active row. */
  lemma PatchMeaning(codec: Codec, rows: Rows, id: string, patch: Value, now: int)
    ensures var (after, outcome) := Step(codec, rows, Patch(id, patch), now);
            if id !in rows || rows[id].deletedAt != None then outcome == Failed(NotFound) && after == rows
            else
              match codec.patch(rows[id].config, patch, now)
              case Err(e) => outcome == Failed(e) && after == rows
              case Ok(s) => outcome == Stored(s) && after == rows[id := Row(s.body.columns, s, None)]
  {
  }

  /** Removing marks an active row and keeps what it holds. */
  lemma RemoveMeaning(codec: Codec, rows: Rows, id: string, now: int)
    ensures var (after, outcome) := Step(codec, rows, Remove(id), now);
            if id !in rows || rows[id].deletedAt != None then outcome == Failed(NotFound) && after == rows
            else outcome == Done && after == rows[id := Row(rows[id].columns, rows[id].config, Some(now))]
  {
  }

  /**
   A create is turned away for an active id. A new id needs room; a deleted one needs none, and is normalised again
   over the configuration that was stored.
   */
  lemma CreateMeaning(codec: Codec, rows: Rows, raw: Value, freshId: string, now: int)
    ensures var (after, outcome) := Step(codec, rows, Create(raw, freshId), now);
            match codec.normalize(raw, None, None, freshId, now)
            case Err(e) => outcome == Failed(e) && after == rows
            case Ok(s) =>
              && (s.id !in rows ==>
                    if HasRoom(rows) then outcome == Stored(s) && after == rows[s.id := Row(s.body.columns, s, None)]
                    else outcome == Failed(Conflict) && after == rows)
              && (s.id in rows && rows[s.id].deletedAt == None ==> outcome == Failed(Conflict) && after == rows)
              && (s.id in rows && rows[s.id].deletedAt != None ==>
                    match codec.normalize(raw, Some(s.id), Some(rows[s.id].config), "", now)
                    case Err(e) => outcome == Failed(e) && after == rows
                    case Ok(revived) =>
                      outcome == Stored(revived) && after == rows[s.id := Row(revived.body.columns, revived, None)])
  {
    RoomIff(rows);
  }

  /** An installed preset is enabled and dated now, and otherwise what the preset normalises to under the new id. */
  lemma InstallMeaning(codec: Codec, rows: Rows, preset: Option<Value>, freshId: string, now: int)
    ensures var (after, outcome) := Step(codec, rows, Install(preset, freshId), now);
            && (preset == None ==> outcome == Failed(NotFound) && after == rows)
            && (preset != None && !HasRoom(rows) ==> outcome == Failed(Conflict) && after == rows)
            && (preset != None && HasRoom(rows) ==>
                  match codec.normalize(preset.value, Some(freshId), None, "", now)
                  case Err(e) => outcome == Failed(e) && after == rows
                  case Ok(s) =>
                    if freshId in rows then outcome == Failed(DuplicateRow) && after == rows
                    else
                      && outcome.Stored?
                      && var c := outcome.config;
                         && after == rows[freshId := Row(c.body.columns, c, None)]
                         && c.body.columns.enabled && c.createdAt == c.updatedAt == s.updatedAt && c.id == s.id
                         && c.body == s.body.(columns := s.body.columns.(enabled := true)))
  {
    RoomIff(rows);
  }

  // ---------------------------------------------------------------- bulk

  /** The id of a bulk item: its own without outer spaces if that is a text and not blank, else a random one. */
  lemma CandidateIdMeaning(item: Value, freshId: string)
    ensures forall s :: item.JObject? && Get(item.fields, Id) == JString(s) && Text.Trim(s) != "" ==>
                          CandidateId(item, freshId) == Text.Trim(s)
    ensures !item.JObject? || !Get(item.fields, Id).JString? || Text.Trim(Get(item.fields, Id).s) == "" ==>
              CandidateId(item, freshId) == freshId
  {
  }

  /** The body of a bulk request: a list under "items", or nothing to store, and one word that makes it replace. */
  lemma BulkBodyMeaning(body: Value)
    ensures forall items :: body.JObject? && Get(body.fields, Items) == JArray(items) ==> BulkItems(body) == items
    ensures !body.JObject? || !Get(body.fields, Items).JArray? ==> BulkItems(body) == []
    ensures ReplaceMode(body) <==> body.JObject? && Get(body.fields, Mode) == JString("replace")
  {
  }

  /** What item `i` of a bulk request normalises to. */
  function ItemConfig(codec: Codec, rows: Rows, items: seq<Value>, freshIds: seq<string>, i: nat, now: int)
    : Result<ScenarioConfig, Error>
    requires i < |items| <= |freshIds|
  {
    var id := CandidateId(items[i], freshIds[i]);
    codec.normalize(items[i], Some(id), StoredUnder(rows, id), "", now)
  }

  /** Every item normalises, and no two of them have the same id. */
  ghost predicate ItemsFit(codec: Codec, rows: Rows, items: seq<Value>, freshIds: seq<string>, now: int)
    requires |items| <= |freshIds|
  {
    && (forall i :: 0 <= i < |items| ==> ItemConfig(codec, rows, items, freshIds, i, now).Ok?)
    && (forall i, j :: 0 <= i < j < |items| ==> CandidateId(items[i], freshIds[i]) != CandidateId(items[j], freshIds[j]))
  }

  ghost predicate Unseen(items: seq<Value>, freshIds: seq<string>, seen: set<string>)
    requires |items| <= |freshIds|
  {
    forall i :: 0 <= i < |items| ==> CandidateId(items[i], freshIds[i]) !in seen
  }

  lemma FitCons(codec: Codec, rows: Rows, items: seq<Value>, freshIds: seq<string>, seen: set<string>, now: int)
    requires items != [] && |items| <= |freshIds|
    ensures var id := CandidateId(items[0], freshIds[0]);
            ItemsFit(codec, rows, items, freshIds, now) && Unseen(items, freshIds, seen) <==>
              && id !in seen && ItemConfig(codec, rows, items, freshIds, 0, now).Ok?
              && ItemsFit(codec, rows, items[1..], freshIds[1..], now) && Unseen(items[1..], freshIds[1..], seen + {id})
  {
    var id := CandidateId(items[0], freshIds[0]);
    var tail, ids := items[1..], freshIds[1..];
    assert forall i :: 0 < i < |items| ==> items[i] == tail[i - 1] && freshIds[i] == ids[i - 1];
    assert forall i :: 0 <= i < |tail| ==>
             ItemConfig(codec, rows, tail, ids, i, now) == ItemConfig(codec, rows, items, freshIds, i + 1, now);
    if && id !in seen && ItemConfig(codec, rows, items, freshIds, 0, now).Ok?
       && ItemsFit(codec, rows, tail, ids, now) && Unseen(tail, ids, seen + {id}) {
      forall i, j | 0 <= i < j < |items|
        ensures CandidateId(items[i], freshIds[i]) != CandidateId(items[j], freshIds[j])
      {
        assert CandidateId(tail[j - 1], ids[j - 1]) !in seen + {id};
      }
      forall i | 0 <= i < |items|
        ensures ItemConfig(codec, rows, items, freshIds, i, now).Ok? && CandidateId(items[i], freshIds[i]) !in seen
      {
        assert i > 0 ==> ItemConfig(codec, rows, tail, ids, i - 1, now).Ok?;
      }
    }
  }

  /** The items are accepted exactly when they fit, and each becomes its own configuration. */
  lemma {:induction false} ItemsMeaning(
    codec: Codec, rows: Rows, items: seq<Value>, freshIds: seq<string>, seen: set<string>, now: int)
    requires |items| <= |freshIds|
    ensures var r := NormalizeItems(codec, rows, items, freshIds, seen, now);
            && (r.Ok? <==> ItemsFit(codec, rows, items, freshIds, now) && Unseen(items, freshIds, seen))
            && (r.Ok? ==>
                  && |r.value| == |items|
                  && forall i :: 0 <= i < |items| ==> ItemConfig(codec, rows, items, freshIds, i, now) == Ok(r.value[i]))
    decreases |items|
  {
    if items != [] {
      var id := CandidateId(items[0], freshIds[0]);
      FitCons(codec, rows, items, freshIds, seen, now);
      ItemsMeaning(codec, rows, items[1..], freshIds[1..], seen + {id}, now);
      var r := NormalizeItems(codec, rows, items, freshIds, seen, now);
      if r.Ok? {
        forall i | 0 <= i < |items|
          ensures ItemConfig(codec, rows, items, freshIds, i, now) == Ok(r.value[i])
        {
          assert i > 0 ==> ItemConfig(codec, rows, items[1..], freshIds[1..], i - 1, now) == Ok(r.value[1..][i - 1]);
        }
      }
    }
  }

  lemma BulkDoneWhenCounted(codec: Codec, rows: Rows, replace: bool, items: seq<Value>, freshIds: seq<string>, now: int)
    requires |items| <= |freshIds|
    ensures var r := NormalizeItems(codec, rows, items, freshIds, {}, now);
            Step(codec, rows, Bulk(replace, items, freshIds), now).1.Done? <==>
              r.Ok? && ActiveAfter(rows, replace, r.value) <= 50
  {
  }

  lemma ActiveAfterMeaning(rows: Rows, replace: bool, configs: seq<ScenarioConfig>)
    requires DistinctIds(configs)
    ensures ActiveAfter(rows, replace, configs)
         == if replace then |configs|
            else |set id | id in rows && rows[id].deletedAt == None| + |IdsOf(configs) - rows.Keys|
  {
    CountNew(rows, configs);
    assert ActiveIds(rows) == set id | id in rows && rows[id].deletedAt == None;
  }

  /**
   When a bulk request is carried out: its items fit, and there are at most fifty of them when replacing, or at most
   fifty together with the active rows when merging, rows that exist in any state not counting as new.
   */
  lemma BulkDoneIff(codec: Codec, rows: Rows, replace: bool, items: seq<Value>, freshIds: seq<string>, now: int)
    requires GoodCodec(codec) && |items| <= |freshIds|
    ensures var active := set id | id in rows && rows[id].deletedAt == None;
            Step(codec, rows, Bulk(replace, items, freshIds), now).1.Done? <==>
              && ItemsFit(codec, rows, items, freshIds, now)
              && (if replace then |items| else |active| + |RequestedIds(items, freshIds) - rows.Keys|) <= 50
  {
    ItemsMeaning(codec, rows, items, freshIds, {}, now);
    BulkDoneWhenCounted(codec, rows, replace, items, freshIds, now);
    var r := NormalizeItems(codec, rows, items, freshIds, {}, now);
    if r.Ok? {
      RequestedAreDistinct(codec, rows, items, freshIds, r.value, now);
      ActiveAfterMeaning(rows, replace, r.value);
    }
  }

  /**
   What a bulk request writes: each item's configuration in its row, active; when replacing, the deletion mark on every
   other active row; and nothing else.
   */
  lemma BulkMeaning(codec: Codec, rows: Rows, replace: bool, items: seq<Value>, freshIds: seq<string>, now: int)
    requires GoodCodec(codec) && |items| <= |freshIds|
    requires Step(codec, rows, Bulk(replace, items, freshIds), now).1.Done?
    ensures var after := Step(codec, rows, Bulk(replace, items, freshIds), now).0;
            && (forall i :: 0 <= i < |items| ==>
                  && ItemConfig(codec, rows, items, freshIds, i, now).Ok?
                  && var c, id := ItemConfig(codec, rows, items, freshIds, i, now).value, CandidateId(items[i], freshIds[i]);
                     id in after && after[id] == Row(c.body.columns, c, None))
    ensures var after := Step(codec, rows, Bulk(replace, items, freshIds), now).0;
            forall id :: id !in RequestedIds(items, freshIds) ==>
              && (id in after <==> id in rows)
              && (id in rows ==>
                    after[id] == if replace && rows[id].deletedAt == None
                                 then Row(rows[id].columns, rows[id].config, Some(now)) else rows[id])
  {
    ItemsMeaning(codec, rows, items, freshIds, {}, now);
    var configs := NormalizeItems(codec, rows, items, freshIds, {}, now).value;
    RequestedAreDistinct(codec, rows, items, freshIds, configs, now);
    ItemsAreGood(codec, rows, items, freshIds, {}, now);
    SaveAllKeeps(rows, configs);
    var after := Step(codec, rows, Bulk(replace, items, freshIds), now).0;
    forall i | 0 <= i < |items|
      ensures var id := CandidateId(items[i], freshIds[i]);
              id in after && after[id] == Row(configs[i].body.columns, configs[i], None)
    {
      assert GoodItem(codec, rows, items[i], freshIds[i], configs[i]);
      SaveAllSaves(rows, configs, i);
      assert configs[i].id in IdsOf(configs);
    }
  }
}
