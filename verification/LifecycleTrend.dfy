/**
 The lifecycle trend of the admin security view: events of the last day in four buckets of six hours.

 A timestamp is in milliseconds; None is an unreadable date. `now` is the clock, used without any event.
 */
module LifecycleTrend {
  import opened Common

  datatype Kind =
    BootstrapRefreshFailure | ReconnectRequest | ReconnectRecovery | SessionRevocation | SessionRotation | RuntimeError

  datatype Item = Item(eventType: string, occurredAt: Option<int>)

  function KindOf(eventType: string): Option<Kind> {
    if eventType == "extension.bootstrap_refresh_failed" then Some(BootstrapRefreshFailure)
    else if eventType == "extension.installation_reconnect_requested" then Some(ReconnectRequest)
    else if eventType == "extension.installation_reconnected" then Some(ReconnectRecovery)
    else if eventType == "extension.installation_session_revoked" then Some(SessionRevocation)
    else if eventType == "extension.installation_session_rotated" then Some(SessionRotation)
    else if eventType == "extension.runtime_error" then Some(RuntimeError)
    else None
  }

  datatype Bucket = Bucket(
    bucketStart: int, extensionBootstrapRefreshFailures: int, extensionReconnectRequests: int,
    extensionReconnectRecoveries: int, extensionSessionRevocations: int, extensionSessionRotations: int,
    extensionRuntimeErrors: int)
  {
    function Of(kind: Kind): int {
      match kind
      case BootstrapRefreshFailure => extensionBootstrapRefreshFailures
      case ReconnectRequest => extensionReconnectRequests
      case ReconnectRecovery => extensionReconnectRecoveries
      case SessionRevocation => extensionSessionRevocations
      case SessionRotation => extensionSessionRotations
      case RuntimeError => extensionRuntimeErrors
    }
  }

  const HOUR_MS := 60 * 60 * 1000
  const BUCKET_MS := 6 * HOUR_MS
  const WINDOW_MS := 24 * HOUR_MS

  // ---------------------------------------------------------------- the window

  function Latest(items: seq<Item>): Option<int> {
    if items == [] then None
    else
      var before, last := Latest(items[..|items| - 1]), items[|items| - 1].occurredAt;
      if last.None? then before
      else if before.None? then last
      else Some(Max(before.value, last.value))
  }

  /** The end of the hour after the one of the latest readable timestamp. */
  function EndExclusive(items: seq<Item>, now: int): int {
    var reference := Latest(items).UnwrapOr(now);
    reference / HOUR_MS * HOUR_MS + HOUR_MS
  }

  function WindowStart(items: seq<Item>, now: int): int {
    EndExclusive(items, now) - WINDOW_MS
  }

  lemma {:induction false} LatestIsGreatest(items: seq<Item>)
    ensures forall i :: 0 <= i < |items| && items[i].occurredAt.Some? ==>
                          Latest(items).Some? && items[i].occurredAt.value <= Latest(items).value
    ensures Latest(items).Some? ==> exists i :: 0 <= i < |items| && items[i].occurredAt == Latest(items)
  {
    if items != [] {
      var n := |items| - 1;
      LatestIsGreatest(items[..n]);
      forall i | 0 <= i < |items| && items[i].occurredAt.Some?
        ensures Latest(items).Some? && items[i].occurredAt.value <= Latest(items).value
      {
        assert i < n ==> items[i] == items[..n][i];
      }
      if Latest(items).Some? && Latest(items) != items[n].occurredAt {
        var i :| 0 <= i < n && items[..n][i].occurredAt == Latest(items[..n]);
        assert items[i].occurredAt == Latest(items);
      }
    }
  }

  /** No readable timestamp is at or past the end, and the latest one is in the window's last hour. */
  lemma {:induction false} EndIsPastEverything(items: seq<Item>, now: int)
    ensures forall i :: 0 <= i < |items| && items[i].occurredAt.Some? ==>
                          items[i].occurredAt.value < EndExclusive(items, now)
    ensures Latest(items).Some? ==> EndExclusive(items, now) - HOUR_MS <= Latest(items).value
  {
    LatestIsGreatest(items);
    HourAfter(Latest(items).UnwrapOr(now));
  }

  lemma HourAfter(t: int)
    ensures t / HOUR_MS * HOUR_MS <= t < t / HOUR_MS * HOUR_MS + HOUR_MS
  {
  }

  // ---------------------------------------------------------------- counting

  predicate Hits(item: Item, kind: Kind, from: int, to: int) {
    KindOf(item.eventType) == Some(kind) && item.occurredAt.Some? && from <= item.occurredAt.value < to
  }

  /** The number of items of a kind with a timestamp in an interval. */
  function Count(items: seq<Item>, kind: Kind, from: int, to: int): nat {
    if items == [] then 0
    else Count(items[..|items| - 1], kind, from, to) + if Hits(items[|items| - 1], kind, from, to) then 1 else 0
  }

  /** The matching finding: every item of the kind, whenever it happened. */
  function Finding(items: seq<Item>, kind: Kind): nat {
    if items == [] then 0
    else Finding(items[..|items| - 1], kind) + if KindOf(items[|items| - 1].eventType) == Some(kind) then 1 else 0
  }

  /** The index the source computes falls into the bucket that covers the timestamp, one of the four. */
  lemma IndexCovers(start: int, t: int)
    requires start <= t < start + WINDOW_MS
    ensures 0 <= (t - start) / BUCKET_MS < 4
    ensures start + (t - start) / BUCKET_MS * BUCKET_MS <= t < start + (t - start) / BUCKET_MS * BUCKET_MS + BUCKET_MS
  {
  }

  /** Bucket `k` of a window counts the items of `seen` that it covers. */
  ghost predicate Counts(bucket: Bucket, k: int, start: int, seen: seq<Item>) {
    && bucket.bucketStart == start + k * BUCKET_MS
    && forall kind :: bucket.Of(kind) == Count(seen, kind, start + k * BUCKET_MS, start + k * BUCKET_MS + BUCKET_MS)
  }

  function Increment(bucket: Bucket, kind: Option<Kind>): (r: Bucket)
    ensures r.bucketStart == bucket.bucketStart
    ensures forall k :: r.Of(k) == bucket.Of(k) + if kind == Some(k) then 1 else 0
  {
    match kind
    case None => bucket
    case Some(BootstrapRefreshFailure) =>
      bucket.(extensionBootstrapRefreshFailures := bucket.extensionBootstrapRefreshFailures + 1)
    case Some(ReconnectRequest) => bucket.(extensionReconnectRequests := bucket.extensionReconnectRequests + 1)
    case Some(ReconnectRecovery) => bucket.(extensionReconnectRecoveries := bucket.extensionReconnectRecoveries + 1)
    case Some(SessionRevocation) => bucket.(extensionSessionRevocations := bucket.extensionSessionRevocations + 1)
    case Some(SessionRotation) => bucket.(extensionSessionRotations := bucket.extensionSessionRotations + 1)
    case Some(RuntimeError) => bucket.(extensionRuntimeErrors := bucket.extensionRuntimeErrors + 1)
  }

  method EmptyBuckets(windowStart: int, endExclusive: int) returns (buckets: seq<Bucket>)
    requires endExclusive == windowStart + WINDOW_MS
    ensures |buckets| == 4
    ensures forall k :: 0 <= k < 4 ==> Counts(buckets[k], k, windowStart, [])
  {
    buckets := [];
    var cursor := windowStart;
    while cursor < endExclusive
      invariant |buckets| <= 4 && cursor == windowStart + |buckets| * BUCKET_MS
      invariant forall k :: 0 <= k < |buckets| ==> Counts(buckets[k], k, windowStart, [])
    {
      buckets := buckets + [Bucket(cursor, 0, 0, 0, 0, 0, 0)];
      cursor := cursor + BUCKET_MS;
    }
  }

  lemma CountsOneMore(buckets: seq<Bucket>, windowStart: int, seen: seq<Item>, item: Item)
    requires |buckets| == 4 && forall k :: 0 <= k < 4 ==> Counts(buckets[k], k, windowStart, seen)
    ensures var t := item.occurredAt;
            if t.Some? && windowStart <= t.value < windowStart + WINDOW_MS then
              var index := (t.value - windowStart) / BUCKET_MS;
              && 0 <= index < 4
              && forall k :: 0 <= k < 4 ==>
                               Counts(if k == index then Increment(buckets[k], KindOf(item.eventType)) else buckets[k],
                                      k, windowStart, seen + [item])
            else
              forall k :: 0 <= k < 4 ==> Counts(buckets[k], k, windowStart, seen + [item])
  {
    assert (seen + [item])[..|seen|] == seen;
    if item.occurredAt.Some? && windowStart <= item.occurredAt.value < windowStart + WINDOW_MS {
      IndexCovers(windowStart, item.occurredAt.value);
    }
  }

  /** Four consecutive buckets of six hours up to the end, each counting per kind exactly what it covers. */
  method BuildAdminSecurityLifecycleTrend(items: seq<Item>, now: int) returns (buckets: seq<Bucket>)
    ensures |buckets| == 4
    ensures forall k :: 0 <= k < 4 ==> Counts(buckets[k], k, WindowStart(items, now), items)
  {
    var endExclusive := EndExclusive(items, now);
    var windowStart := endExclusive - WINDOW_MS;
    buckets := EmptyBuckets(windowStart, endExclusive);
    var index := 0;
    while index < |items|
      invariant 0 <= index <= |items| && |buckets| == 4
      invariant forall k :: 0 <= k < 4 ==> Counts(buckets[k], k, windowStart, items[..index])
    {
      var item := items[index];
      CountsOneMore(buckets, windowStart, items[..index], item);
      assert items[..index + 1] == items[..index] + [item];
      index := index + 1;
      if item.occurredAt.None? {
        continue;
      }
      var occurredAt := item.occurredAt.value;
      if occurredAt < windowStart || occurredAt >= endExclusive {
        continue;
      }
      var bucketIndex := (occurredAt - windowStart) / BUCKET_MS;
      buckets := buckets[bucketIndex := Increment(buckets[bucketIndex], KindOf(item.eventType))];
    }
    assert items[..index] == items;
  }

  // ---------------------------------------------------------------- the trend against the findings

  lemma {:induction false} CountSplits(items: seq<Item>, kind: Kind, from: int, mid: int, to: int)
    requires from <= mid <= to
    ensures Count(items, kind, from, to) == Count(items, kind, from, mid) + Count(items, kind, mid, to)
  {
    if items != [] {
      CountSplits(items[..|items| - 1], kind, from, mid, to);
    }
  }

  /** The number of items of the kind since the start of the window. */
  function CountSince(items: seq<Item>, kind: Kind, from: int): nat {
    if items == [] then 0
    else
      var last := items[|items| - 1];
      CountSince(items[..|items| - 1], kind, from)
      + if KindOf(last.eventType) == Some(kind) && last.occurredAt.Some? && from <= last.occurredAt.value then 1 else 0
  }

  lemma {:induction false} NoneBeyond(items: seq<Item>, kind: Kind, from: int, to: int)
    requires forall i :: 0 <= i < |items| && items[i].occurredAt.Some? ==> items[i].occurredAt.value < to
    ensures Count(items, kind, from, to) == CountSince(items, kind, from)
  {
    if items != [] {
      var n := |items| - 1;
      assert forall i :: 0 <= i < n ==> items[..n][i] == items[i];
      NoneBeyond(items[..n], kind, from, to);
    }
  }

  lemma {:induction false} SinceAgainstFinding(items: seq<Item>, kind: Kind, from: int)
    ensures CountSince(items, kind, from) <= Finding(items, kind)
    ensures CountSince(items, kind, from) == Finding(items, kind) <==>
              forall i :: 0 <= i < |items| && KindOf(items[i].eventType) == Some(kind) ==>
                            items[i].occurredAt.Some? && from <= items[i].occurredAt.value
  {
    if items != [] {
      var n := |items| - 1;
      SinceAgainstFinding(items[..n], kind, from);
      assert forall i :: 0 <= i < n ==> items[..n][i] == items[i];
    }
  }

  function BucketSum(buckets: seq<Bucket>, kind: Kind): int {
    if buckets == [] then 0 else BucketSum(buckets[..|buckets| - 1], kind) + buckets[|buckets| - 1].Of(kind)
  }

  lemma {:induction false} FirstBucketsSum(buckets: seq<Bucket>, start: int, items: seq<Item>, kind: Kind)
    requires forall k :: 0 <= k < |buckets| ==> Counts(buckets[k], k, start, items)
    ensures BucketSum(buckets, kind) == Count(items, kind, start, start + |buckets| * BUCKET_MS)
  {
    if buckets == [] {
      EmptyInterval(items, kind, start);
    } else {
      var n := |buckets| - 1;
      FirstBucketsSum(buckets[..n], start, items, kind);
      CountSplits(items, kind, start, start + n * BUCKET_MS, start + n * BUCKET_MS + BUCKET_MS);
      assert Counts(buckets[n], n, start, items);
    }
  }

  lemma {:induction false} EmptyInterval(items: seq<Item>, kind: Kind, at: int)
    ensures Count(items, kind, at, at) == 0
  {
    if items != [] {
      EmptyInterval(items[..|items| - 1], kind, at);
    }
  }

  /**
   Each kind's buckets sum to its items since the start of the window. That never exceeds its finding, and
   reaches it exactly when every item of the kind has a readable timestamp in the window.
   */
  lemma {:induction false} TrendAgainstFindings(items: seq<Item>, now: int, buckets: seq<Bucket>, kind: Kind)
    requires |buckets| == 4 && forall k :: 0 <= k < 4 ==> Counts(buckets[k], k, WindowStart(items, now), items)
    ensures BucketSum(buckets, kind) == CountSince(items, kind, WindowStart(items, now)) <= Finding(items, kind)
    ensures BucketSum(buckets, kind) == Finding(items, kind) <==>
              forall i :: 0 <= i < |items| && KindOf(items[i].eventType) == Some(kind) ==>
                            items[i].occurredAt.Some? && WindowStart(items, now) <= items[i].occurredAt.value
  {
    var start := WindowStart(items, now);
    FirstBucketsSum(buckets, start, items, kind);
    EndIsPastEverything(items, now);
    NoneBeyond(items, kind, start, start + WINDOW_MS);
    SinceAgainstFinding(items, kind, start);
  }

  // ---------------------------------------------------------------- in terms of event types and times

  /** The number of items of an event type with a timestamp in an interval. */
  function CountType(items: seq<Item>, eventType: string, from: int, to: int): nat {
    if items == [] then 0
    else
      var last := items[|items| - 1];
      CountType(items[..|items| - 1], eventType, from, to)
      + if last.eventType == eventType && last.occurredAt.Some? && from <= last.occurredAt.value < to then 1 else 0
  }

  lemma {:induction false} CountIsByType(items: seq<Item>, kind: Kind, eventType: string, from: int, to: int)
    requires forall t :: KindOf(t) == Some(kind) <==> t == eventType
    ensures Count(items, kind, from, to) == CountType(items, eventType, from, to)
  {
    if items != [] {
      CountIsByType(items[..|items| - 1], kind, eventType, from, to);
    }
  }

  lemma KindsAreTypes()
    ensures forall t :: KindOf(t) == Some(BootstrapRefreshFailure) <==> t == "extension.bootstrap_refresh_failed"
    ensures forall t :: KindOf(t) == Some(ReconnectRequest) <==> t == "extension.installation_reconnect_requested"
    ensures forall t :: KindOf(t) == Some(ReconnectRecovery) <==> t == "extension.installation_reconnected"
    ensures forall t :: KindOf(t) == Some(SessionRevocation) <==> t == "extension.installation_session_revoked"
    ensures forall t :: KindOf(t) == Some(SessionRotation) <==> t == "extension.installation_session_rotated"
    ensures forall t :: KindOf(t) == Some(RuntimeError) <==> t == "extension.runtime_error"
  {
    var names := ["extension.bootstrap_refresh_failed", "extension.installation_reconnect_requested",
                  "extension.installation_reconnected", "extension.installation_session_revoked",
                  "extension.installation_session_rotated", "extension.runtime_error"];
    assert names[0][10] == 'b' && names[5][10] == 'r' && names[1][10] == names[2][10] == names[3][10] == names[4][10] == 'i';
    assert |names[1]| == 42 && |names[2]| == 34 && |names[3]| == |names[4]| == 38;
    assert names[3][32] == 'e' && names[4][32] == 'o';
  }

  /** What the fields of bucket `k` of the trend count: six hours of one event type each. */
  lemma BucketMeaning(items: seq<Item>, now: int, buckets: seq<Bucket>, k: nat)
    requires |buckets| == 4 && k < 4 && forall j :: 0 <= j < 4 ==> Counts(buckets[j], j, WindowStart(items, now), items)
    ensures var (b, from) := (buckets[k], EndExclusive(items, now) - 21600000 * (4 - k));
            var to := from + 21600000;
            && b.bucketStart == from
            && b.extensionBootstrapRefreshFailures == CountType(items, "extension.bootstrap_refresh_failed", from, to)
            && b.extensionReconnectRequests == CountType(items, "extension.installation_reconnect_requested", from, to)
            && b.extensionReconnectRecoveries == CountType(items, "extension.installation_reconnected", from, to)
            && b.extensionSessionRevocations == CountType(items, "extension.installation_session_revoked", from, to)
            && b.extensionSessionRotations == CountType(items, "extension.installation_session_rotated", from, to)
            && b.extensionRuntimeErrors == CountType(items, "extension.runtime_error", from, to)
  {
    var b, from := buckets[k], EndExclusive(items, now) - 21600000 * (4 - k);
    var to := from + 21600000;
    assert Counts(b, k, WindowStart(items, now), items);
    assert b.bucketStart == from;
    KindsAreTypes();
    CountIsByType(items, BootstrapRefreshFailure, "extension.bootstrap_refresh_failed", from, to);
    CountIsByType(items, ReconnectRequest, "extension.installation_reconnect_requested", from, to);
    CountIsByType(items, ReconnectRecovery, "extension.installation_reconnected", from, to);
    CountIsByType(items, SessionRevocation, "extension.installation_session_revoked", from, to);
    CountIsByType(items, SessionRotation, "extension.installation_session_rotated", from, to);
    CountIsByType(items, RuntimeError, "extension.runtime_error", from, to);
    FieldsAreKinds(b, from, to, items);
  }

  lemma FieldsAreKinds(b: Bucket, from: int, to: int, items: seq<Item>)
    requires forall kind :: b.Of(kind) == Count(items, kind, from, to)
    ensures b.extensionBootstrapRefreshFailures == Count(items, BootstrapRefreshFailure, from, to)
    ensures b.extensionReconnectRequests == Count(items, ReconnectRequest, from, to)
    ensures b.extensionReconnectRecoveries == Count(items, ReconnectRecovery, from, to)
    ensures b.extensionSessionRevocations == Count(items, SessionRevocation, from, to)
    ensures b.extensionSessionRotations == Count(items, SessionRotation, from, to)
    ensures b.extensionRuntimeErrors == Count(items, RuntimeError, from, to)
  {
    assert b.Of(BootstrapRefreshFailure) == b.extensionBootstrapRefreshFailures;
    assert b.Of(ReconnectRequest) == b.extensionReconnectRequests;
    assert b.Of(ReconnectRecovery) == b.extensionReconnectRecoveries;
    assert b.Of(SessionRevocation) == b.extensionSessionRevocations;
    assert b.Of(SessionRotation) == b.extensionSessionRotations;
    assert b.Of(RuntimeError) == b.extensionRuntimeErrors;
  }

  /** The trend ends at the full hour after the latest readable timestamp, or after the clock if there is none. */
  lemma EndMeaning(items: seq<Item>, now: int)
    ensures var end := EndExclusive(items, now);
            && end % 3600000 == 0
            && WindowStart(items, now) == end - 86400000
            && (forall i :: 0 <= i < |items| && items[i].occurredAt.Some? ==> items[i].occurredAt.value < end)
            && ((exists i :: 0 <= i < |items| && items[i].occurredAt.Some?) ==>
                  exists i :: 0 <= i < |items| && items[i].occurredAt.Some? && end - 3600000 <= items[i].occurredAt.value)
            && ((forall i :: 0 <= i < |items| ==> items[i].occurredAt == None) ==> end - 3600000 <= now < end)
  {
    LatestIsGreatest(items);
    EndIsPastEverything(items, now);
    HourAfter(Latest(items).UnwrapOr(now));
    FullHour(Latest(items).UnwrapOr(now));
  }

  lemma FullHour(t: int)
    ensures (t / HOUR_MS * HOUR_MS + HOUR_MS) % HOUR_MS == 0
  {
  }
}
