/**
 The rebuild of the daily usage rollups: one bucket per key, accumulated in place over all events and
 written in chunks.

 A bucket's date is represented by its day key; `dayKey` prints the UTC day of a timestamp.
 */
module Rollups {
  import opened Common
  import Text
  import opened HistoryBackfill

  type DayKey = int -> string

  datatype Totals = Totals(
    requestCount: int, successCount: int, failedCount: int, promptTokens: int, completionTokens: int,
    totalTokens: int, estimatedCostUsd: real, totalDurationMs: int)

  const NOTHING := Totals(0, 0, 0, 0, 0, 0, 0.0, 0)

  function Plus(a: Totals, b: Totals): Totals {
    Totals(a.requestCount + b.requestCount, a.successCount + b.successCount, a.failedCount + b.failedCount,
           a.promptTokens + b.promptTokens, a.completionTokens + b.completionTokens, a.totalTokens + b.totalTokens,
           a.estimatedCostUsd + b.estimatedCostUsd, a.totalDurationMs + b.totalDurationMs)
  }

  /** What one event contributes. */
  function Share(e: Event): Totals {
    var success := e.usage.status == "success";
    Totals(1, if success then 1 else 0, if success then 0 else 1,
           e.usage.promptTokens, e.usage.completionTokens, e.usage.totalTokens,
           e.usage.estimatedCostUsd.UnwrapOr(0.0), e.usage.durationMs.UnwrapOr(0))
  }

  /** The columns a rollup row is unique over. */
  datatype Dimensions = Dimensions(userId: string, date: string, model: string, requestType: string, status: string)

  datatype Bucket = Bucket(dimensions: Dimensions, modelDisplayName: Option<string>, totals: Totals)

  function DimensionsOf(dayKey: DayKey, e: Event): Dimensions {
    Dimensions(e.userId, dayKey(e.usage.occurredAt), e.usage.model, e.requestType, e.usage.status)
  }

  function KeyOf(d: Dimensions): string {
    Text.Join([d.userId, d.date, d.model, d.requestType, d.status], "|")
  }

  function EventKey(dayKey: DayKey, e: Event): string {
    KeyOf(DimensionsOf(dayKey, e))
  }

  /** A Map of the language: its keys in order of insertion, and its entries. */
  datatype Buckets = Buckets(keys: seq<string>, table: map<string, Bucket>) {
    ghost predicate Valid() {
      && (forall k :: k in keys <==> k in table)
      && (forall i, j :: 0 <= i < j < |keys| ==> keys[i] != keys[j])
    }

    function Set(key: string, bucket: Bucket): Buckets {
      Buckets(if key in table then keys else keys + [key], table[key := bucket])
    }

    function Values(): (values: seq<Bucket>)
      requires forall k :: k in keys ==> k in table
    {
      seq(|keys|, i requires 0 <= i < |keys| => table[keys[i]])
    }
  }

  function Add(dayKey: DayKey, buckets: Buckets, e: Event): Buckets {
    var key := EventKey(dayKey, e);
    var existing := if key in buckets.table then buckets.table[key]
                    else Bucket(DimensionsOf(dayKey, e), e.modelDisplayName, NOTHING);
    buckets.Set(key, existing.(totals := Plus(existing.totals, Share(e))))
  }

  function Accumulate(dayKey: DayKey, events: seq<Event>): (b: Buckets)
    ensures b.Valid()
  {
    if events == [] then Buckets([], map[])
    else Add(dayKey, Accumulate(dayKey, events[..|events| - 1]), events[|events| - 1])
  }

  class RollupTable {
    var rows: seq<Bucket>
    const batchSize: nat

    constructor (rows: seq<Bucket>, batchSize: nat)
      ensures this.rows == rows && this.batchSize == batchSize
    {
      this.rows, this.batchSize := rows, batchSize;
    }

    /** With a batch size of zero the chunks of a non-empty table would never advance. */
    method RebuildRollups(dayKey: DayKey, events: seq<Event>) returns (written: nat)
      requires batchSize > 0 || events == []
      modifies this`rows
      ensures rows == Accumulate(dayKey, events).Values()
      ensures written == |rows|
    {
      rows := [];
      var buckets := CollectBuckets(dayKey, events);
      var values := buckets.Values();
      WriteChunks(values);
      assert rows == [] + values == values;
      return |values|;
    }

    method WriteChunks(values: seq<Bucket>)
      requires batchSize > 0 || values == []
      modifies this`rows
      ensures rows == old(rows) + values
    {
      var i := 0;
      while i < |values|
        invariant 0 <= i
        invariant rows == old(rows) + values[..if i < |values| then i else |values|]
        decreases |values| - i
      {
        var end := if i + batchSize < |values| then i + batchSize else |values|;
        var chunk := values[i..end];
        assert values[..i] + chunk == values[..end];
        rows := rows + chunk;
        i := i + batchSize;
      }
      assert values[..|values|] == values;
    }
  }

  method CollectBuckets(dayKey: DayKey, events: seq<Event>) returns (buckets: Buckets)
    ensures buckets == Accumulate(dayKey, events)
  {
    buckets := Buckets([], map[]);
    var index := 0;
    while index < |events|
      invariant 0 <= index <= |events|
      invariant buckets == Accumulate(dayKey, events[..index])
    {
      buckets := CountIn(dayKey, buckets, events[index]);
      assert events[..index + 1][..index] == events[..index];
      index := index + 1;
    }
    assert events[..index] == events;
  }

  /** The fields of the event's bucket go up one by one. */
  method CountIn(dayKey: DayKey, buckets: Buckets, event: Event) returns (r: Buckets)
    ensures r == Add(dayKey, buckets, event)
  {
    var key := EventKey(dayKey, event);
    var existing := if key in buckets.table then buckets.table[key]
                    else Bucket(DimensionsOf(dayKey, event), event.modelDisplayName, NOTHING);
    var totals, usage := existing.totals, event.usage;
    totals := totals.(requestCount := totals.requestCount + 1);
    totals := totals.(successCount := totals.successCount + if usage.status == "success" then 1 else 0);
    totals := totals.(failedCount := totals.failedCount + if usage.status == "success" then 0 else 1);
    totals := totals.(promptTokens := totals.promptTokens + usage.promptTokens);
    totals := totals.(completionTokens := totals.completionTokens + usage.completionTokens);
    totals := totals.(totalTokens := totals.totalTokens + usage.totalTokens);
    totals := totals.(estimatedCostUsd := totals.estimatedCostUsd + usage.estimatedCostUsd.UnwrapOr(0.0));
    totals := totals.(totalDurationMs := totals.totalDurationMs + usage.durationMs.UnwrapOr(0));
    assert totals == Plus(existing.totals, Share(event));
    r := buckets.Set(key, existing.(totals := totals));
  }

  // ---------------------------------------------------------------- when the write loop ends

  /** The index and the written rows after `n` turns of the write loop. */
  function Turns(values: seq<Bucket>, batchSize: nat, n: nat): (nat, seq<Bucket>) {
    if n == 0 then (0, [])
    else
      var (i, written) := Turns(values, batchSize, n - 1);
      if i >= |values| then (i, written)
      else (i + batchSize, written + values[i..if i + batchSize < |values| then i + batchSize else |values|])
  }

  lemma {:induction false} TurnsAdvance(values: seq<Bucket>, batchSize: nat, n: nat)
    ensures batchSize > 0 ==> Turns(values, batchSize, n).0 >= n || Turns(values, batchSize, n).0 >= |values|
    ensures batchSize == 0 ==> Turns(values, batchSize, n) == (0, [])
  {
    if n > 0 {
      TurnsAdvance(values, batchSize, n - 1);
      assert [] + values[0..0] == [];
    }
  }

  /** The loop comes to its end exactly with a positive batch size or nothing to write; else it never writes a row. */
  lemma WriteLoopEndsIff(values: seq<Bucket>, batchSize: nat)
    ensures (exists n :: Turns(values, batchSize, n).0 >= |values|) <==> batchSize > 0 || values == []
    ensures batchSize == 0 ==> forall n :: Turns(values, batchSize, n).1 == []
  {
    TurnsAdvance(values, batchSize, |values|);
    forall n
      ensures batchSize == 0 ==> Turns(values, batchSize, n) == (0, [])
    {
      TurnsAdvance(values, batchSize, n);
    }
    if batchSize > 0 || values == [] {
      assert Turns(values, batchSize, |values|).0 >= |values|;
    }
  }

  // ---------------------------------------------------------------- conservation

  function Sum(totals: seq<Totals>): Totals {
    if totals == [] then NOTHING else Plus(Sum(totals[..|totals| - 1]), totals[|totals| - 1])
  }

  function Shares(events: seq<Event>): (shares: seq<Totals>) {
    seq(|events|, i requires 0 <= i < |events| => Share(events[i]))
  }

  function TotalsOf(rows: seq<Bucket>): (totals: seq<Totals>) {
    seq(|rows|, i requires 0 <= i < |rows| => rows[i].totals)
  }

  lemma PlusLaws(a: Totals, b: Totals, c: Totals)
    ensures Plus(Plus(a, b), c) == Plus(Plus(a, c), b)
    ensures Plus(NOTHING, a) == a
  {
  }

  lemma {:induction false} SumWithUpdate(totals: seq<Totals>, i: nat, more: Totals)
    requires i < |totals|
    ensures Sum(totals[i := Plus(totals[i], more)]) == Plus(Sum(totals), more)
  {
    var n := |totals| - 1;
    var updated := totals[i := Plus(totals[i], more)];
    if i == n {
      assert updated[..n] == totals[..n];
      PlusLaws(Sum(totals[..n]), totals[n], more);
    } else {
      SumWithUpdate(totals[..n], i, more);
      assert updated[..n] == totals[..n][i := Plus(totals[i], more)];
      PlusLaws(Sum(totals[..n]), more, totals[n]);
    }
  }

  lemma SumWithOneMore(totals: seq<Totals>, more: Totals)
    ensures Sum(totals + [more]) == Plus(Sum(totals), more)
  {
    assert (totals + [more])[..|totals|] == totals;
  }

  lemma AddConserves(dayKey: DayKey, buckets: Buckets, e: Event)
    requires buckets.Valid()
    ensures Add(dayKey, buckets, e).Valid()
    ensures Sum(TotalsOf(Add(dayKey, buckets, e).Values())) == Plus(Sum(TotalsOf(buckets.Values())), Share(e))
  {
    var key, added, before := EventKey(dayKey, e), Add(dayKey, buckets, e), TotalsOf(buckets.Values());
    if key in buckets.table {
      var i :| 0 <= i < |buckets.keys| && buckets.keys[i] == key;
      assert TotalsOf(added.Values()) == before[i := Plus(before[i], Share(e))];
      SumWithUpdate(before, i, Share(e));
    } else {
      PlusLaws(Share(e), NOTHING, NOTHING);
      assert TotalsOf(added.Values()) == before + [Share(e)];
      SumWithOneMore(before, Share(e));
    }
  }

  /** Nothing is lost or counted twice: the rollups sum to the sum over all events, in every column. */
  lemma {:induction false} RollupsConserve(dayKey: DayKey, events: seq<Event>)
    ensures Sum(TotalsOf(Accumulate(dayKey, events).Values())) == Sum(Shares(events))
  {
    if events != [] {
      var n := |events| - 1;
      RollupsConserve(dayKey, events[..n]);
      AddConserves(dayKey, Accumulate(dayKey, events[..n]), events[n]);
      assert Shares(events)[..n] == Shares(events[..n]);
    }
  }

  // ---------------------------------------------------------------- each bucket is its group

  /** The events with a given key, in order. */
  function Group(dayKey: DayKey, events: seq<Event>, key: string): (group: seq<Event>)
    ensures forall e :: e in group <==> e in events && EventKey(dayKey, e) == key
  {
    if events == [] then []
    else
      var last := events[|events| - 1];
      var before := Group(dayKey, events[..|events| - 1], key);
      if EventKey(dayKey, last) == key then before + [last] else before
  }

  ghost predicate IsGroup(dayKey: DayKey, bucket: Bucket, group: seq<Event>) {
    && group != []
    && bucket.dimensions == DimensionsOf(dayKey, group[0])
    && bucket.modelDisplayName == group[0].modelDisplayName
    && bucket.totals == Sum(Shares(group))
  }

  lemma GroupGrows(dayKey: DayKey, bucket: Bucket, group: seq<Event>, e: Event)
    requires IsGroup(dayKey, bucket, group)
    ensures IsGroup(dayKey, bucket.(totals := Plus(bucket.totals, Share(e))), group + [e])
  {
    assert Shares(group + [e]) == Shares(group) + [Share(e)];
    SumWithOneMore(Shares(group), Share(e));
    assert (group + [e])[0] == group[0];
  }

  lemma GroupStarts(dayKey: DayKey, e: Event)
    ensures IsGroup(dayKey, Bucket(DimensionsOf(dayKey, e), e.modelDisplayName, Plus(NOTHING, Share(e))), [e])
  {
    assert Shares([e]) == [] + [Share(e)];
    SumWithOneMore([], Share(e));
  }

  /** The entry of `key` in the table stands for `group`; no entry stands for the empty group. */
  ghost predicate Represents(dayKey: DayKey, buckets: Buckets, key: string, group: seq<Event>) {
    && (key in buckets.table <==> group != [])
    && (key in buckets.table ==> IsGroup(dayKey, buckets.table[key], group))
  }

  lemma AddRepresents(dayKey: DayKey, buckets: Buckets, e: Event, key: string, group: seq<Event>)
    requires Represents(dayKey, buckets, key, group)
    ensures Represents(dayKey, Add(dayKey, buckets, e), key, if EventKey(dayKey, e) == key then group + [e] else group)
  {
    if EventKey(dayKey, e) == key {
      if key in buckets.table {
        GroupGrows(dayKey, buckets.table[key], group, e);
      } else {
        assert group + [e] == [e];
        GroupStarts(dayKey, e);
      }
    }
  }

  /** A key has a bucket exactly when some event has it, and the bucket is the aggregate of those events. */
  lemma {:induction false} BucketIsItsGroup(dayKey: DayKey, events: seq<Event>, key: string)
    ensures Represents(dayKey, Accumulate(dayKey, events), key, Group(dayKey, events, key))
  {
    if events != [] {
      var n := |events| - 1;
      BucketIsItsGroup(dayKey, events[..n], key);
      AddRepresents(dayKey, Accumulate(dayKey, events[..n]), events[n], key, Group(dayKey, events[..n], key));
    }
  }

  lemma {:induction false} CountsAddUp(events: seq<Event>)
    ensures var t := Sum(Shares(events)); t.requestCount == |events| && t.successCount + t.failedCount == t.requestCount
    ensures (forall e :: e in events ==> e.usage.status == "success") ==> Sum(Shares(events)).failedCount == 0
    ensures (forall e :: e in events ==> e.usage.status != "success") ==> Sum(Shares(events)).successCount == 0
  {
    if events != [] {
      var n := |events| - 1;
      CountsAddUp(events[..n]);
      assert Shares(events)[..n] == Shares(events[..n]);
    }
  }

  /** In every written row, success and failure add up to the requests, and there is at least one. */
  lemma RowCountsAddUp(dayKey: DayKey, events: seq<Event>, i: nat)
    requires i < |Accumulate(dayKey, events).keys|
    ensures var row := Accumulate(dayKey, events).Values()[i];
            && row.totals.requestCount == |Group(dayKey, events, KeyOf(row.dimensions))| > 0
            && row.totals.successCount + row.totals.failedCount == row.totals.requestCount
  {
    var buckets := Accumulate(dayKey, events);
    var key := buckets.keys[i];
    BucketIsItsGroup(dayKey, events, key);
    CountsAddUp(Group(dayKey, events, key));
    assert Group(dayKey, events, key)[0] in Group(dayKey, events, key);
  }

  /** Every event is counted in exactly one row: rows have different keys, so they differ in the unique columns too. */
  lemma RowsPartitionEvents(dayKey: DayKey, events: seq<Event>)
    ensures var rows := Accumulate(dayKey, events).Values();
            && (forall i, j :: 0 <= i < j < |rows| ==> KeyOf(rows[i].dimensions) != KeyOf(rows[j].dimensions))
            && (forall e :: e in events ==>
                  exists i :: 0 <= i < |rows| && KeyOf(rows[i].dimensions) == EventKey(dayKey, e))
  {
    var buckets := Accumulate(dayKey, events);
    var rows := buckets.Values();
    forall i | 0 <= i < |rows|
      ensures KeyOf(rows[i].dimensions) == buckets.keys[i]
    {
      BucketIsItsGroup(dayKey, events, buckets.keys[i]);
      var group := Group(dayKey, events, buckets.keys[i]);
      assert group[0] in group;
    }
    forall e | e in events
      ensures exists i :: 0 <= i < |rows| && KeyOf(rows[i].dimensions) == EventKey(dayKey, e)
    {
      BucketIsItsGroup(dayKey, events, EventKey(dayKey, e));
      assert e in Group(dayKey, events, EventKey(dayKey, e));
      var i :| 0 <= i < |buckets.keys| && buckets.keys[i] == EventKey(dayKey, e);
      assert KeyOf(rows[i].dimensions) == EventKey(dayKey, e);
    }
  }

  // ---------------------------------------------------------------- when the key tells the dimensions apart

  lemma PlainPrefix(a: string, b: string, x: string, y: string, sep: char)
    requires sep !in a && sep !in b && a + [sep] + x == b + [sep] + y
    ensures a == b && x == y
  {
    Text.SplitAtSeparator(a, sep, x);
    Text.SplitAtSeparator(b, sep, y);
    assert Text.Split(a + [sep] + x, sep)[0] == a;
    assert Text.Split(b + [sep] + y, sep)[0] == b;
    assert (a + [sep] + x)[|a| + 1..] == x && (b + [sep] + y)[|b| + 1..] == y;
  }

  function LastPart(s: string, sep: char): string {
    var parts := Text.Split(s, sep);
    parts[|parts| - 1]
  }

  lemma {:induction false} LastAfterSeparator(head: string, sep: char, tail: string)
    requires sep !in tail
    ensures LastPart(head + [sep] + tail, sep) == tail
    ensures |Text.Split(head + [sep] + tail, sep)| > 1
  {
    var whole := head + [sep] + tail;
    Text.SplitPlain(tail, sep);
    if head == "" {
      assert whole[1..] == tail;
    } else {
      assert whole[1..] == head[1..] + [sep] + tail;
      LastAfterSeparator(head[1..], sep, tail);
    }
  }

  lemma PlainSuffix(x: string, y: string, a: string, b: string, sep: char)
    requires sep !in a && sep !in b && x + [sep] + a == y + [sep] + b
    ensures a == b && x == y
  {
    LastAfterSeparator(x, sep, a);
    LastAfterSeparator(y, sep, b);
    assert (x + [sep] + a)[..|x|] == x && (y + [sep] + b)[..|y|] == y;
  }

  /** A bar may occur in the model, and nowhere else. */
  predicate PlainButModel(d: Dimensions) {
    '|' !in d.userId && '|' !in d.date && '|' !in d.requestType && '|' !in d.status
  }

  lemma KeyShape(d: Dimensions)
    ensures KeyOf(d) == d.userId + ['|'] + (d.date + ['|'] + (d.model + ['|'] + d.requestType + ['|'] + d.status))
  {
    JoinStep(d.requestType, [d.status]);
    JoinStep(d.model, [d.requestType, d.status]);
    JoinStep(d.date, [d.model, d.requestType, d.status]);
    JoinStep(d.userId, [d.date, d.model, d.requestType, d.status]);
    assert [d.requestType] + [d.status] == [d.requestType, d.status];
    assert [d.model] + [d.requestType, d.status] == [d.model, d.requestType, d.status];
    assert [d.date] + [d.model, d.requestType, d.status] == [d.date, d.model, d.requestType, d.status];
    assert [d.userId] + [d.date, d.model, d.requestType, d.status] == [d.userId, d.date, d.model, d.requestType, d.status];
    Reassociate(d.model, ['|'], d.requestType, d.status);
  }

  lemma JoinStep(head: string, rest: seq<string>)
    requires rest != []
    ensures Text.Join([head] + rest, "|") == head + ['|'] + Text.Join(rest, "|")
  {
    assert ([head] + rest)[1..] == rest;
  }

  lemma Reassociate(a: string, sep: string, b: string, c: string)
    ensures a + sep + (b + sep + c) == a + sep + b + sep + c
  {
  }

  /** Two keys are equal exactly when the dimensions are, as long as no field but the model holds a bar. */
  lemma KeyIsInjective(d: Dimensions, e: Dimensions)
    requires PlainButModel(d) && PlainButModel(e)
    ensures KeyOf(d) == KeyOf(e) <==> d == e
  {
    if KeyOf(d) == KeyOf(e) {
      KeyShape(d);
      KeyShape(e);
      PlainPrefix(d.userId, e.userId, d.date + ['|'] + (d.model + ['|'] + d.requestType + ['|'] + d.status),
                  e.date + ['|'] + (e.model + ['|'] + e.requestType + ['|'] + e.status), '|');
      PlainPrefix(d.date, e.date, d.model + ['|'] + d.requestType + ['|'] + d.status,
                  e.model + ['|'] + e.requestType + ['|'] + e.status, '|');
      PlainSuffix(d.model + ['|'] + d.requestType, e.model + ['|'] + e.requestType, d.status, e.status, '|');
      PlainSuffix(d.model, e.model, d.requestType, e.requestType, '|');
    }
  }

  /** With such fields, a row holds exactly the events of its own dimensions. */
  lemma RowHoldsItsDimensions(dayKey: DayKey, events: seq<Event>, i: nat, e: Event)
    requires forall x :: x in events ==> PlainButModel(DimensionsOf(dayKey, x))
    requires i < |Accumulate(dayKey, events).keys|
    ensures var row := Accumulate(dayKey, events).Values()[i];
            e in Group(dayKey, events, KeyOf(row.dimensions)) <==>
              e in events && DimensionsOf(dayKey, e) == row.dimensions
  {
    var buckets := Accumulate(dayKey, events);
    var key := buckets.keys[i];
    BucketIsItsGroup(dayKey, events, key);
    var first := Group(dayKey, events, key)[0];
    assert first in Group(dayKey, events, key);
    if e in events {
      KeyIsInjective(DimensionsOf(dayKey, e), DimensionsOf(dayKey, first));
    }
  }

  const REQUEST_TYPES := ["text", "image", "file"]
  const STATUSES := ["success", "error", "quota_exceeded"]

  /** What the writers of events produce: a known type and status, and no bar in the user's id or the day key. */
  predicate Written(dayKey: DayKey, e: Event) {
    && e.requestType in REQUEST_TYPES && e.usage.status in STATUSES
    && '|' !in e.userId && '|' !in dayKey(e.usage.occurredAt)
  }

  lemma WrittenIsPlain(dayKey: DayKey, e: Event)
    requires Written(dayKey, e)
    ensures PlainButModel(DimensionsOf(dayKey, e))
  {
  }

  /** So for events as they are written, keys tell the dimensions apart, and a row is exactly the group of its dimensions. */
  lemma WrittenEventsStayApart(dayKey: DayKey, events: seq<Event>)
    requires forall x :: x in events ==> Written(dayKey, x)
    ensures forall x, y :: x in events && y in events ==>
              (EventKey(dayKey, x) == EventKey(dayKey, y) <==> DimensionsOf(dayKey, x) == DimensionsOf(dayKey, y))
    ensures forall i: nat, e :: i < |Accumulate(dayKey, events).keys| ==>
              var row := Accumulate(dayKey, events).Values()[i];
              (e in Group(dayKey, events, KeyOf(row.dimensions)) <==> e in events && DimensionsOf(dayKey, e) == row.dimensions)
  {
    forall x | x in events
      ensures PlainButModel(DimensionsOf(dayKey, x))
    {
      WrittenIsPlain(dayKey, x);
    }
    forall x, y | x in events && y in events
      ensures EventKey(dayKey, x) == EventKey(dayKey, y) <==> DimensionsOf(dayKey, x) == DimensionsOf(dayKey, y)
    {
      KeyIsInjective(DimensionsOf(dayKey, x), DimensionsOf(dayKey, y));
    }
    forall i: nat, e | i < |Accumulate(dayKey, events).keys|
      ensures var row := Accumulate(dayKey, events).Values()[i];
              (e in Group(dayKey, events, KeyOf(row.dimensions)) <==> e in events && DimensionsOf(dayKey, e) == row.dimensions)
    {
      RowHoldsItsDimensions(dayKey, events, i, e);
    }
  }

  // ---------------------------------------------------------------- each column of a row

  function Tally(f: Event -> int, events: seq<Event>): int {
    if events == [] then 0 else Tally(f, events[..|events| - 1]) + f(events[|events| - 1])
  }

  function Costs(events: seq<Event>): real {
    if events == [] then 0.0
    else
      var cost := events[|events| - 1].usage.estimatedCostUsd;
      Costs(events[..|events| - 1]) + if cost.Some? then cost.value else 0.0
  }

  /** The columns of `t` are the sums over the events of what they are named after. */
  ghost predicate SumsUp(t: Totals, events: seq<Event>) {
    && t.requestCount == |events|
    && t.successCount == Tally((e: Event) => if e.usage.status == "success" then 1 else 0, events)
    && t.failedCount == Tally((e: Event) => if e.usage.status == "success" then 0 else 1, events)
    && t.promptTokens == Tally((e: Event) => e.usage.promptTokens, events)
    && t.completionTokens == Tally((e: Event) => e.usage.completionTokens, events)
    && t.totalTokens == Tally((e: Event) => e.usage.totalTokens, events)
    && t.estimatedCostUsd == Costs(events)
    && t.totalDurationMs == Tally((e: Event) => if e.usage.durationMs.Some? then e.usage.durationMs.value else 0, events)
  }

  lemma {:induction false} ColumnsSumUp(events: seq<Event>)
    ensures SumsUp(Sum(Shares(events)), events)
  {
    if events != [] {
      var n := |events| - 1;
      ColumnsSumUp(events[..n]);
      assert Shares(events)[..n] == Shares(events[..n]);
    }
  }

  /** The events that have these unique columns, in order. */
  function EventsOf(dayKey: DayKey, events: seq<Event>, d: Dimensions): seq<Event> {
    if events == [] then []
    else
      var last := events[|events| - 1];
      EventsOf(dayKey, events[..|events| - 1], d)
      + if && last.userId == d.userId && dayKey(last.usage.occurredAt) == d.date && last.usage.model == d.model
           && last.requestType == d.requestType && last.usage.status == d.status then [last] else []
  }

  lemma {:induction false} GroupIsEventsOf(dayKey: DayKey, events: seq<Event>, d: Dimensions)
    requires PlainButModel(d) && forall x :: x in events ==> PlainButModel(DimensionsOf(dayKey, x))
    ensures Group(dayKey, events, KeyOf(d)) == EventsOf(dayKey, events, d)
  {
    if events != [] {
      GroupIsEventsOf(dayKey, events[..|events| - 1], d);
      KeyIsInjective(DimensionsOf(dayKey, events[|events| - 1]), d);
    }
  }

  /**
   For events as they are written, each row sums up, column by column, the events of its user, day, model, type and
   status, and shows the model name of the first of them.
   */
  lemma RowMeaning(dayKey: DayKey, events: seq<Event>, i: nat)
    requires forall x :: x in events ==> Written(dayKey, x)
    requires i < |Accumulate(dayKey, events).keys|
    ensures var row := Accumulate(dayKey, events).Values()[i];
            var own := EventsOf(dayKey, events, row.dimensions);
            own != [] && SumsUp(row.totals, own) && row.modelDisplayName == own[0].modelDisplayName
  {
    var buckets := Accumulate(dayKey, events);
    var row, key := buckets.Values()[i], buckets.keys[i];
    BucketIsItsGroup(dayKey, events, key);
    var group := Group(dayKey, events, key);
    assert group[0] in group;
    forall x | x in events
      ensures PlainButModel(DimensionsOf(dayKey, x))
    {
      WrittenIsPlain(dayKey, x);
    }
    GroupIsEventsOf(dayKey, events, row.dimensions);
    ColumnsSumUp(group);
  }

  /** And each event has its row. */
  lemma EventHasItsRow(dayKey: DayKey, events: seq<Event>, e: Event)
    requires (forall x :: x in events ==> Written(dayKey, x)) && e in events
    ensures var rows := Accumulate(dayKey, events).Values();
            exists i :: && 0 <= i < |rows|
                        && rows[i].dimensions == Dimensions(e.userId, dayKey(e.usage.occurredAt), e.usage.model,
                                                            e.requestType, e.usage.status)
  {
    var buckets := Accumulate(dayKey, events);
    var rows := buckets.Values();
    RowsPartitionEvents(dayKey, events);
    var i :| 0 <= i < |rows| && KeyOf(rows[i].dimensions) == EventKey(dayKey, e);
    BucketIsItsGroup(dayKey, events, buckets.keys[i]);
    var group := Group(dayKey, events, buckets.keys[i]);
    assert group[0] in group;
    WrittenIsPlain(dayKey, group[0]);
    WrittenIsPlain(dayKey, e);
    KeyIsInjective(rows[i].dimensions, DimensionsOf(dayKey, e));
  }
}
