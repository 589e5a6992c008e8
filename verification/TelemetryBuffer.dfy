/**
 The extension's telemetry buffer: usage events that could not be sent are kept in the state store,
 at most a hundred of them, and flushed in order when the platform can be reached again.

 Appending and flushing do not overlap. An event counts as delivered when the platform has
 acknowledged it.
 */
module TelemetryBuffer {
  import opened Common
  import opened Json
  import opened BoundedBuffer
  import Text

  type Document = Json<string>

  const DEFAULT_MAX_ITEMS := 100
  const RECONNECT_REQUESTED := "extension.installation_reconnect_requested"

  datatype UsageEvent = UsageEvent(installationId: string, eventType: string, occurredAt: string, payload: Fields<string>)

  // ---------------------------------------------------------------- what is stored, what is read

  function ToJson(e: UsageEvent): Document {
    JObject(map["installationId" := JString(e.installationId), "eventType" := JString(e.eventType),
                "occurredAt" := JString(e.occurredAt), "payload" := JObject(e.payload)])
  }

  function TrimmedString(json: Option<Document>): string {
    if json.Some? && json.value.JString? then Text.Trim(json.value.s) else ""
  }

  function NormalizeBufferedUsageEvent(item: Document): Option<UsageEvent> {
    if !item.JObject? then None
    else
      var installationId := TrimmedString(Lookup(item.fields, "installationId"));
      var eventType := TrimmedString(Lookup(item.fields, "eventType"));
      var occurredAt := TrimmedString(Lookup(item.fields, "occurredAt"));
      var payload := Lookup(item.fields, "payload");
      if installationId == "" || eventType == "" || occurredAt == "" || payload.None? || !payload.value.JObject? then None
      else Some(UsageEvent(installationId, eventType, occurredAt, payload.value.fields))
  }

  predicate NonBlankTrimmed(s: string) {
    s != "" && Text.IsTrimmed(s)
  }

  predicate WellFormed(e: UsageEvent) {
    NonBlankTrimmed(e.installationId) && NonBlankTrimmed(e.eventType) && NonBlankTrimmed(e.occurredAt)
  }

  /** The field `key` holds a text whose trimmed form is `text`, and that is not blank. */
  predicate HoldsText(fields: Fields<string>, key: string, text: string) {
    key in fields && fields[key].JString? && text == Text.Trim(fields[key].s) && text != ""
  }

  /** An item is read as an event exactly when its three texts and its payload are there, and as what they hold. */
  lemma ReadingMeaning(item: Document, e: UsageEvent)
    ensures NormalizeBufferedUsageEvent(item) == Some(e) <==>
              && item.JObject?
              && HoldsText(item.fields, "installationId", e.installationId)
              && HoldsText(item.fields, "eventType", e.eventType)
              && HoldsText(item.fields, "occurredAt", e.occurredAt)
              && "payload" in item.fields && item.fields["payload"] == JObject(e.payload)
  {
  }

  /** What the buffer makes of an event: it survives being stored unchanged exactly when it is well formed. */
  function Normalize(e: UsageEvent): (r: Option<UsageEvent>)
    ensures r.Some? ==> WellFormed(r.value)
    ensures r == Some(e) <==> WellFormed(e)
  {
    var installationId, eventType, occurredAt := Text.Trim(e.installationId), Text.Trim(e.eventType), Text.Trim(e.occurredAt);
    Text.TrimFixesTrimmedIfTrimmed(e.installationId);
    Text.TrimFixesTrimmedIfTrimmed(e.eventType);
    Text.TrimFixesTrimmedIfTrimmed(e.occurredAt);
    if installationId == "" || eventType == "" || occurredAt == "" then None
    else Some(UsageEvent(installationId, eventType, occurredAt, e.payload))
  }

  lemma StoredFields(e: UsageEvent)
    ensures var fields := ToJson(e).fields;
            && Lookup<string, Document>(fields, "installationId") == Some(JString(e.installationId))
            && Lookup<string, Document>(fields, "eventType") == Some(JString(e.eventType))
            && Lookup<string, Document>(fields, "occurredAt") == Some(JString(e.occurredAt))
            && Lookup<string, Document>(fields, "payload") == Some(JObject(e.payload))
  {
    assert |"installationId"| == 14 && |"eventType"| == 9 && |"occurredAt"| == 10 && |"payload"| == 7;
  }

  lemma NormalizeIsStoring(e: UsageEvent)
    ensures NormalizeBufferedUsageEvent(ToJson(e)) == Normalize(e)
  {
    StoredFields(e);
  }

  lemma NormalizeIdempotent()
    ensures Idempotent(Normalize)
  {
    forall e: UsageEvent | Normalize(e).Some?
      ensures Normalize(Normalize(e).value) == Normalize(e)
    {
    }
  }

  /** None is an absent key or a value that does not parse. */
  function ReadStored(value: Option<Document>): seq<UsageEvent> {
    if value.Some? && value.value.JArray? then FilterMap(NormalizeBufferedUsageEvent, value.value.items) else []
  }

  /** `e` is the reading of an item of the stored list; from an absent or other value nothing is read. */
  predicate ReadFrom(value: Option<Document>, e: UsageEvent) {
    && value.Some? && value.value.JArray?
    && exists i :: 0 <= i < |value.value.items| && NormalizeBufferedUsageEvent(value.value.items[i]) == Some(e)
  }

  lemma ReadIsWellFormed(item: Document)
    ensures NormalizeBufferedUsageEvent(item).Some? ==> WellFormed(NormalizeBufferedUsageEvent(item).value)
  {
  }

  lemma ReadStoredMembers(value: Option<Document>)
    ensures forall e :: e in ReadStored(value) <==> ReadFrom(value, e)
    ensures forall e :: ReadFrom(value, e) ==> WellFormed(e)
  {
    if value.Some? && value.value.JArray? {
      FilterMapMembers(NormalizeBufferedUsageEvent, value.value.items);
    }
    forall e | ReadFrom(value, e)
      ensures WellFormed(e)
    {
      var i :| 0 <= i < |value.value.items| && NormalizeBufferedUsageEvent(value.value.items[i]) == Some(e);
      ReadIsWellFormed(value.value.items[i]);
    }
  }

  function ToItems(events: seq<UsageEvent>): seq<Document> {
    seq(|events|, i requires 0 <= i < |events| => ToJson(events[i]))
  }

  function Stored(events: seq<UsageEvent>): Option<Document> {
    if events == [] then None else Some(JArray(ToItems(events)))
  }

  lemma ReadBack(events: seq<UsageEvent>)
    ensures ReadStored(Stored(events)) == FilterMap(Normalize, events)
  {
    ReadItemsBack(events);
  }

  lemma ItemsCons(events: seq<UsageEvent>)
    requires events != []
    ensures ToItems(events)[0] == ToJson(events[0]) && ToItems(events)[1..] == ToItems(events[1..])
  {
  }

  lemma KeptBack(e: UsageEvent)
    ensures Kept(NormalizeBufferedUsageEvent, ToJson(e)) == Kept(Normalize, e)
  {
    NormalizeIsStoring(e);
  }

  lemma {:induction false} ReadItemsBack(events: seq<UsageEvent>)
    ensures FilterMap(NormalizeBufferedUsageEvent, ToItems(events)) == FilterMap(Normalize, events)
  {
    if events != [] {
      ItemsCons(events);
      KeptBack(events[0]);
      ReadItemsBack(events[1..]);
    }
  }

  lemma {:induction false} StoredReadsClean(items: seq<Document>)
    ensures AllClean(Normalize, FilterMap(NormalizeBufferedUsageEvent, items))
  {
    if items != [] {
      StoredReadsClean(items[1..]);
      var head := NormalizeBufferedUsageEvent(items[0]);
      assert head.Some? ==> WellFormed(head.value);
    }
  }

  /** What was read and is stored again reads as it is. */
  lemma StoredSuffixReadsBack(value: Option<Document>, from: nat)
    requires from <= |ReadStored(value)|
    ensures ReadStored(Stored(ReadStored(value)[from..])) == ReadStored(value)[from..]
  {
    var events := ReadStored(value);
    if events != [] {
      StoredReadsClean(value.value.items);
      assert AllClean(Normalize, events[from..]);
    }
    ReadBack(events[from..]);
    FilterMapClean(Normalize, events[from..]);
  }

  // ---------------------------------------------------------------- sending

  /** Whether a request for the event at this position is acknowledged: the network, seen from the loop. */
  type Network = (nat, UsageEvent) -> bool

  /** The first position whose request fails, or the length. */
  function Reach(events: seq<UsageEvent>, sends: Network, from: nat): (r: nat)
    requires from <= |events|
    ensures from <= r <= |events|
    ensures forall i :: from <= i < r ==> sends(i, events[i])
    ensures r < |events| ==> !sends(r, events[r])
    decreases |events| - from
  {
    if from < |events| && sends(from, events[from]) then Reach(events, sends, from + 1) else from
  }

  method FlushBufferedEvents(events: seq<UsageEvent>, sends: Network)
    returns (delivered: seq<UsageEvent>, remaining: seq<UsageEvent>)
    ensures delivered + remaining == events
    ensures |delivered| == Reach(events, sends, 0)
    ensures forall i :: 0 <= i < |delivered| ==> sends(i, delivered[i])
    ensures remaining != [] ==> !sends(|delivered|, remaining[0])
  {
    delivered, remaining := [], [];
    var index := 0;
    while index < |events|
      invariant 0 <= index <= |events|
      invariant delivered == events[..index] && remaining == []
      invariant Reach(events, sends, 0) == Reach(events, sends, index)
      invariant forall i :: 0 <= i < index ==> sends(i, events[i])
    {
      if sends(index, events[index]) {
        delivered := delivered + [events[index]];
      } else {
        remaining := remaining + events[index..];
        break;
      }
      index := index + 1;
    }
  }

  datatype SendOutcome =
    | Accepted
    | PlatformError(message: string, status: int, retryable: bool)
    | OtherError

  function ReconnectReason(message: string): string {
    if Text.Includes(message, "missing") then "installation_session_missing"
    else if Text.Includes(message, "expired") then "installation_session_expired"
    else "installation_session_invalid"
  }

  function ReconnectEvent(source: UsageEvent, message: string, status: int): UsageEvent {
    var payload := map["reason" := JString(ReconnectReason(message)), "status" := JNumber(status as real)]
                   + (if message != "" then map["message" := JString(message)] else map[])
                   + (if source.eventType != "" then map["sourceEventType" := JString(source.eventType)] else map[]);
    UsageEvent(source.installationId, RECONNECT_REQUESTED, source.occurredAt, payload)
  }

  /** What a reconnect request says. */
  lemma ReconnectMeaning(source: UsageEvent, message: string, status: int)
    ensures var request := ReconnectEvent(source, message, status);
            && request.installationId == source.installationId
            && request.eventType == "extension.installation_reconnect_requested"
            && request.occurredAt == source.occurredAt
            && Lookup<string, Document>(request.payload, "status") == Some(JNumber(status as real))
            && Lookup<string, Document>(request.payload, "message") == (if message == "" then None else Some(JString(message)))
            && Lookup<string, Document>(request.payload, "sourceEventType")
               == (if source.eventType == "" then None else Some(JString(source.eventType)))
            && request.payload.Keys <= {"reason", "status", "message", "sourceEventType"}
    ensures var reason := Lookup<string, Document>(ReconnectEvent(source, message, status).payload, "reason");
            && (reason == Some(JString("installation_session_missing")) <==> Text.Includes(message, "missing"))
            && (reason == Some(JString("installation_session_expired")) <==>
                  !Text.Includes(message, "missing") && Text.Includes(message, "expired"))
            && (reason == Some(JString("installation_session_invalid")) <==>
                  !Text.Includes(message, "missing") && !Text.Includes(message, "expired"))
  {
    var missing, expired, invalid :=
      "installation_session_missing", "installation_session_expired", "installation_session_invalid";
    assert missing[21] == 'm' && expired[21] == 'e' && invalid[21] == 'i';
    var request := ReconnectEvent(source, message, status);
    assert request.payload["reason"] == JString(ReconnectReason(message));
  }

  predicate HasReconnectRequest(events: seq<UsageEvent>) {
    exists i :: 0 <= i < |events| && events[i].eventType == RECONNECT_REQUESTED
  }

  /** A failed event is worth keeping when it may go through later. */
  predicate KeptOnFailure(outcome: SendOutcome) {
    outcome.OtherError? || (outcome.PlatformError? && (outcome.retryable || outcome.status == 401))
  }

  // ---------------------------------------------------------------- the buffer operations

  type TelemetryHistory = History<UsageEvent>

  /** `Math.max(1, Math.floor(maxItems ?? 100))` */
  function Cap(maxItems: Option<real>): nat {
    Max(1, maxItems.UnwrapOr(DEFAULT_MAX_ITEMS as real).Floor)
  }

  lemma CapMeaning(x: real)
    ensures Cap(None) == 100
    ensures x < 2.0 ==> Cap(Some(x)) == 1
    ensures x >= 1.0 ==> Cap(Some(x)) as real <= x < (Cap(Some(x)) + 1) as real
  {
  }

  function AppendDefault(h: TelemetryHistory, e: UsageEvent): TelemetryHistory {
    Append(Normalize, h, e, DEFAULT_MAX_ITEMS)
  }

  function Flush(h: TelemetryHistory, connected: bool, sends: Network): TelemetryHistory {
    if connected then Deliver(h, Reach(h.buffer, sends, 0)) else h
  }

  function Send(h: TelemetryHistory, e: UsageEvent, shouldBuffer: bool, outcome: SendOutcome): TelemetryHistory {
    if outcome.Accepted? || !shouldBuffer then h
    else
      var kept := if KeptOnFailure(outcome) then AppendDefault(h, e) else h;
      if outcome.PlatformError? && outcome.status == 401 && !HasReconnectRequest(kept.buffer)
      then AppendDefault(kept, ReconnectEvent(e, outcome.message, outcome.status))
      else kept
  }

  lemma AppendedState(value: Option<Document>, appended: seq<UsageEvent>, departed: seq<Departure<UsageEvent>>,
                      event: UsageEvent, cap: nat)
    requires cap >= 1
    ensures var current := ReadStored(value);
            var h := History(appended, departed, current);
            var over := Overflow(h, cap);
            Append(Normalize, h, event, cap)
              == History(appended + Kept(Normalize, event), departed + DropAll(current[..over]),
                         ReadStored(Stored((current + [event])[over..])))
  {
    var current := ReadStored(value);
    ReadBack((current + [event])[Overflow(History(appended, departed, current), cap)..]);
  }

  /** The state manager and the runtime client, as far as they deal with the buffer. */
  class PlatformRuntime {
    var telemetryBuffer: Option<Document>
    ghost var appended: seq<UsageEvent>
    ghost var departed: seq<Departure<UsageEvent>>

    /** The store may already hold anything; what can be read of it counts as appended. */
    constructor (stored: Option<Document>)
      ensures State() == History(ReadStored(stored), [], ReadStored(stored))
    {
      telemetryBuffer := stored;
      appended, departed := ReadStored(stored), [];
    }

    ghost function State(): TelemetryHistory
      reads this
    {
      History(appended, departed, ReadStored(telemetryBuffer))
    }

    /** Only well-formed events are ever read, each the reading of a stored item, and none from anything but a list. */
    method GetBufferedEvents() returns (events: seq<UsageEvent>)
      ensures events == ReadStored(telemetryBuffer)
      ensures forall e :: e in events ==> WellFormed(e) && ReadFrom(telemetryBuffer, e)
      ensures forall e :: ReadFrom(telemetryBuffer, e) ==> e in events
    {
      ReadStoredMembers(telemetryBuffer);
      events := ReadStored(telemetryBuffer);
    }

    method SetBufferedEvents(events: seq<UsageEvent>)
      modifies this`telemetryBuffer
      ensures telemetryBuffer == Stored(events)
      ensures telemetryBuffer == None <==> events == []
    {
      if |events| == 0 {
        telemetryBuffer := None;
        return;
      }
      telemetryBuffer := Some(JArray(ToItems(events)));
    }

    method AppendBufferedEvent(event: UsageEvent, maxItems: Option<real>)
      modifies this
      ensures State() == Append(Normalize, old(State()), event, Cap(maxItems))
    {
      var cap := Cap(maxItems);
      var current := GetBufferedEvents();
      var next := current + [event];
      var trimmed := next;
      if |next| > cap {
        trimmed := next[|next| - cap..];
      }
      ghost var over := Overflow(State(), cap);
      assert trimmed == next[over..];
      AppendedState(telemetryBuffer, appended, departed, event, cap);
      SetBufferedEvents(trimmed);
      departed := departed + DropAll(current[..over]);
      appended := appended + Kept(Normalize, event);
    }

    /** `connected` is false when no valid session could be obtained: the request fails and nothing is sent. */
    method FlushBufferedEventsFromState(connected: bool, sends: Network)
      returns (delivered: seq<UsageEvent>, remaining: seq<UsageEvent>)
      modifies this
      ensures State() == Flush(old(State()), connected, sends)
      ensures connected ==> delivered + remaining == old(State()).buffer && State().buffer == remaining
      ensures forall i :: 0 <= i < |delivered| ==> sends(i, delivered[i])
      ensures remaining != [] ==> !sends(|delivered|, remaining[0])
      ensures !connected ==> State() == old(State())
    {
      var events := GetBufferedEvents();
      delivered, remaining := [], [];
      if |events| == 0 || !connected {
        assert connected ==> Deliver(old(State()), 0) == old(State());
        return;
      }
      delivered, remaining := FlushBufferedEvents(events, sends);
      assert delivered == events[..|delivered|] && remaining == events[|delivered|..];
      StoredSuffixReadsBack(telemetryBuffer, |delivered|);
      SetBufferedEvents(remaining);
      departed := departed + DeliverAll(delivered);
    }

    /** The buffering that follows an attempt to send `event`. */
    method SendUsageEvent(event: UsageEvent, shouldBuffer: bool, outcome: SendOutcome)
      modifies this
      ensures State() == Send(old(State()), event, shouldBuffer, outcome)
    {
      match outcome
      case Accepted =>
      case PlatformError(message, status, retryable) =>
        if shouldBuffer && (retryable || status == 401) {
          AppendBufferedEvent(event, None);
        }
        if shouldBuffer && status == 401 {
          var buffered := GetBufferedEvents();
          if !HasReconnectRequest(buffered) {
            AppendBufferedEvent(ReconnectEvent(event, message, status), None);
          }
        }
      case OtherError =>
        if shouldBuffer {
          AppendBufferedEvent(event, None);
        }
    }
  }

  // ---------------------------------------------------------------- every run

  datatype Operation =
    | AppendEvent(event: UsageEvent)
    | SendEvent(event: UsageEvent, shouldBuffer: bool, outcome: SendOutcome)
    | FlushEvents(connected: bool, sends: Network)

  function Step(h: TelemetryHistory, op: Operation): TelemetryHistory {
    match op
    case AppendEvent(e) => AppendDefault(h, e)
    case SendEvent(e, shouldBuffer, outcome) => Send(h, e, shouldBuffer, outcome)
    case FlushEvents(connected, sends) => Flush(h, connected, sends)
  }

  function Run(h: TelemetryHistory, ops: seq<Operation>): TelemetryHistory
    decreases |ops|
  {
    if ops == [] then h else Run(Step(h, ops[0]), ops[1..])
  }

  /** A run is its operations one after the other, the last one on what the others left. */
  lemma {:induction false} RunOneMore(h: TelemetryHistory, ops: seq<Operation>, last: Operation)
    ensures Run(h, ops + [last])
         == match last
            case AppendEvent(e) => Append(Normalize, Run(h, ops), e, 100)
            case SendEvent(e, shouldBuffer, outcome) => Send(Run(h, ops), e, shouldBuffer, outcome)
            case FlushEvents(connected, sends) => Flush(Run(h, ops), connected, sends)
    decreases |ops|
  {
    if ops == [] {
      assert [last][1..] == [] && ops + [last] == [last];
    } else {
      assert (ops + [last])[0] == ops[0] && (ops + [last])[1..] == ops[1..] + [last];
      RunOneMore(Step(h, ops[0]), ops[1..], last);
    }
  }

  /** The invariant: every event is accounted for, and there are at most a hundred in the buffer. */
  ghost predicate Good(h: TelemetryHistory) {
    Accounted(Normalize, h) && |h.buffer| <= DEFAULT_MAX_ITEMS
  }

  /** How one operation extends the account. Only appends drop, and only from a full buffer. */
  ghost predicate Extends(before: TelemetryHistory, after: TelemetryHistory) {
    && before.appended <= after.appended
    && before.departed <= after.departed
    && (forall i :: |before.departed| <= i < |after.departed| && after.departed[i].Dropped?
          ==> |before.buffer| >= DEFAULT_MAX_ITEMS - 1)
  }

  lemma AppendIsGood(h: TelemetryHistory, e: UsageEvent)
    requires Good(h)
    ensures Good(AppendDefault(h, e)) && Extends(h, AppendDefault(h, e))
    ensures var over := if |h.buffer| == DEFAULT_MAX_ITEMS then 1 else 0;
            AppendDefault(h, e).buffer == h.buffer[over..] + Kept(Normalize, e)
    ensures |h.buffer| < DEFAULT_MAX_ITEMS ==> AppendDefault(h, e).departed == h.departed
  {
    NormalizeIdempotent();
    AppendAccounts(Normalize, h, e, DEFAULT_MAX_ITEMS);
    assert |h.buffer| < DEFAULT_MAX_ITEMS ==> DropAll(h.buffer[..0]) == [];
  }

  lemma SendIsGood(h: TelemetryHistory, e: UsageEvent, shouldBuffer: bool, outcome: SendOutcome)
    requires Good(h)
    ensures Good(Send(h, e, shouldBuffer, outcome)) && Extends(h, Send(h, e, shouldBuffer, outcome))
  {
    AppendIsGood(h, e);
    if outcome.PlatformError? {
      var request := ReconnectEvent(e, outcome.message, outcome.status);
      AppendIsGood(h, request);
      TwoAppendsAreGood(h, e, request);
    }
  }

  lemma TwoAppendsAreGood(h: TelemetryHistory, e: UsageEvent, next: UsageEvent)
    requires Good(h)
    ensures Good(AppendDefault(AppendDefault(h, e), next)) && Extends(h, AppendDefault(AppendDefault(h, e), next))
  {
    AppendIsGood(h, e);
    AppendIsGood(AppendDefault(h, e), next);
    assert |Kept(Normalize, e)| <= 1;
  }

  lemma FlushIsGood(h: TelemetryHistory, connected: bool, sends: Network)
    requires Good(h)
    ensures Good(Flush(h, connected, sends)) && Extends(h, Flush(h, connected, sends))
    ensures Flush(h, connected, sends).appended == h.appended
  {
    if connected {
      DeliverAccounts(Normalize, h, Reach(h.buffer, sends, 0));
    }
  }

  lemma StepIsGood(h: TelemetryHistory, op: Operation)
    requires Good(h)
    ensures Good(Step(h, op)) && Extends(h, Step(h, op))
  {
    match op
    case AppendEvent(e) => AppendIsGood(h, e);
    case SendEvent(e, shouldBuffer, outcome) => SendIsGood(h, e, shouldBuffer, outcome);
    case FlushEvents(connected, sends) => FlushIsGood(h, connected, sends);
  }

  /**
   Over every run, for events of any shape: the buffer is the suffix of the append history that has
   not departed, of length at most a hundred; what has departed was delivered or dropped once, in
   order, and the account of it never changes afterwards.
   */
  lemma {:induction false} RunIsAccounted(h: TelemetryHistory, ops: seq<Operation>)
    requires Good(h)
    ensures var end := Run(h, ops);
            && Good(end) && |end.buffer| <= 100
            && |end.departed| <= |end.appended|
            && end.buffer == end.appended[|end.departed|..]
            && ItemsOf(end.departed) == end.appended[..|end.departed|]
            && h.appended <= end.appended && h.departed <= end.departed
    decreases |ops|
  {
    if ops == [] {
      AccountedIsSuffix(Normalize, h);
    } else {
      StepIsGood(h, ops[0]);
      RunIsAccounted(Step(h, ops[0]), ops[1..]);
    }
  }

  lemma AppendEndsWith(h: TelemetryHistory, e: UsageEvent)
    requires Good(h) && WellFormed(e)
    ensures var over := if |h.buffer| == DEFAULT_MAX_ITEMS then 1 else 0;
            AppendDefault(h, e).buffer == h.buffer[over..] + [e]
    ensures Good(AppendDefault(h, e))
  {
    AppendIsGood(h, e);
    assert Kept(Normalize, e) == [e];
  }

  lemma ReconnectEventIsWellFormed(source: UsageEvent, message: string, status: int)
    requires WellFormed(source)
    ensures WellFormed(ReconnectEvent(source, message, status))
  {
    var name := RECONNECT_REQUESTED;
    assert name[0] == 'e' && name[|name| - 1] == 'd';
  }

  lemma LastStays(h: TelemetryHistory, e: UsageEvent, next: UsageEvent)
    requires Good(h) && WellFormed(e) && WellFormed(next)
    ensures e in AppendDefault(AppendDefault(h, e), next).buffer
    ensures next in AppendDefault(AppendDefault(h, e), next).buffer
  {
    AppendEndsWith(h, e);
    var kept := AppendDefault(h, e).buffer;
    AppendEndsWith(AppendDefault(h, e), next);
    var over := if |kept| == DEFAULT_MAX_ITEMS then 1 else 0;
    assert kept[over..][|kept| - 1 - over] == e;
  }

  /**
   A well-formed event is in the buffer after a failure that may pass, and after a 401. Otherwise nothing changes:
   after an accepted request, any other error status, or with buffering off.
   */
  lemma FailedEventIsKept(h: TelemetryHistory, e: UsageEvent, message: string, status: int)
    requires Good(h) && WellFormed(e)
    ensures e in Send(h, e, true, PlatformError(message, status, true)).buffer
    ensures forall retryable :: e in Send(h, e, true, PlatformError(message, 401, retryable)).buffer
    ensures e in Send(h, e, true, OtherError).buffer
    ensures status != 401 ==> Send(h, e, true, PlatformError(message, status, false)) == h
    ensures forall shouldBuffer :: Send(h, e, shouldBuffer, Accepted) == h
    ensures forall outcome :: Send(h, e, false, outcome) == h
  {
    if status != 401 {
      BufferAfterFailure(h, e, message, status);
    }
    BufferAfterFailure(h, e, message, 500);
    KeptAfterUnauthorized(h, e, message, true);
    KeptAfterUnauthorized(h, e, message, false);
    NothingElseChanges(h, e, message, status);
  }

  lemma NothingElseChanges(h: TelemetryHistory, e: UsageEvent, message: string, status: int)
    ensures status != 401 ==> Send(h, e, true, PlatformError(message, status, false)) == h
    ensures forall shouldBuffer :: Send(h, e, shouldBuffer, Accepted) == h
    ensures forall outcome :: Send(h, e, false, outcome) == h
  {
  }

  lemma AppendedIsThere(h: TelemetryHistory, e: UsageEvent)
    requires Good(h) && WellFormed(e)
    ensures e in AppendDefault(h, e).buffer
  {
    AppendEndsWith(h, e);
  }

  lemma KeptAfterUnauthorized(h: TelemetryHistory, e: UsageEvent, message: string, retryable: bool)
    requires Good(h) && WellFormed(e)
    ensures e in Send(h, e, true, PlatformError(message, 401, retryable)).buffer
  {
    AppendedIsThere(h, e);
    ReconnectEventIsWellFormed(e, message, 401);
    LastStays(h, e, ReconnectEvent(e, message, 401));
  }

  /** The whole buffer after a failure other than a 401: the newest hundred of what was there and the event. */
  lemma BufferAfterFailure(h: TelemetryHistory, e: UsageEvent, message: string, status: int)
    requires Good(h) && WellFormed(e) && status != 401
    ensures var newest := (if |h.buffer| == 100 then h.buffer[1..] else h.buffer) + [e];
            && Send(h, e, true, PlatformError(message, status, true)).buffer == newest
            && Send(h, e, true, OtherError).buffer == newest
  {
    AppendEndsWith(h, e);
  }

  /**
   The whole buffer after a 401: the event is appended, and after it a reconnect request unless one is there already.
   */
  lemma UnauthorizedAsksForReconnect(h: TelemetryHistory, e: UsageEvent, message: string, retryable: bool)
    requires Good(h) && WellFormed(e)
    ensures var newest := (if |h.buffer| == 100 then h.buffer[1..] else h.buffer) + [e];
            var asked := exists i :: 0 <= i < |newest| && newest[i].eventType == "extension.installation_reconnect_requested";
            Send(h, e, true, PlatformError(message, 401, retryable)).buffer
            == if asked then newest
               else (if |newest| == 100 then newest[1..] else newest) + [ReconnectEvent(e, message, 401)]
  {
    var kept, request := AppendDefault(h, e), ReconnectEvent(e, message, 401);
    AppendEndsWith(h, e);
    ReconnectEventIsWellFormed(e, message, 401);
    AppendEndsWith(kept, request);
    SendUnauthorized(h, e, message, retryable);
  }

  lemma SendUnauthorized(h: TelemetryHistory, e: UsageEvent, message: string, retryable: bool)
    ensures var kept := AppendDefault(h, e);
            Send(h, e, true, PlatformError(message, 401, retryable))
              == if HasReconnectRequest(kept.buffer) then kept else AppendDefault(kept, ReconnectEvent(e, message, 401))
  {
  }

  /** A flush without a valid session does nothing. Else it delivers up to the first event that is not acknowledged. */
  lemma FlushMeaning(h: TelemetryHistory, sends: Network)
    ensures Flush(h, false, sends) == h
    ensures var after := Flush(h, true, sends);
            var n := |h.buffer| - |after.buffer|;
            && n >= 0 && after.buffer == h.buffer[n..]
            && (forall i :: 0 <= i < n ==> sends(i, h.buffer[i]))
            && (n < |h.buffer| ==> !sends(n, h.buffer[n]))
            && after.appended == h.appended
            && |after.departed| == |h.departed| + n && after.departed[..|h.departed|] == h.departed
            && forall i :: 0 <= i < n ==> after.departed[|h.departed| + i] == Delivered(h.buffer[i])
  {
  }
}
