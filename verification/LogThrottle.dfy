/**
 The bounded throttle for repeated log lines, used for invalid installation tokens and for expected
 401 responses: a key is logged at most once per window, the calls in between are counted, and the
 table of keys is bounded by dropping expired and then oldest keys.
 */
module LogThrottle {
  import opened Common
  import Text

  const WINDOW_MS := 600000
  const MAX_INVALID_TOKEN_KEYS: nat := 10000
  const MAX_UNAUTHORIZED_KEYS: nat := 1000

  datatype Entry = Entry(key: string, nextLogAt: int, suppressed: nat)

  /** The table is a Map: its entries in insertion order, an updated key keeps its place. */
  type Table = seq<Entry>

  ghost predicate DistinctKeys(table: Table) {
    forall i, j :: 0 <= i < j < |table| ==> table[i].key != table[j].key
  }

  function Find(table: Table, key: string): (r: Option<nat>)
    ensures r.Some? ==> r.value < |table| && table[r.value].key == key
    ensures r.None? ==> forall i :: 0 <= i < |table| ==> table[i].key != key
  {
    if table == [] then None
    else if table[0].key == key then Some(0)
    else
      match Find(table[1..], key)
      case Some(i) => Some(i + 1)
      case None =>
        assert forall i :: 1 <= i < |table| ==> table[i] == table[1..][i - 1];
        None
  }

  function Put(table: Table, entry: Entry): Table {
    match Find(table, entry.key)
    case Some(i) => table[i := entry]
    case None => table + [entry]
  }

  /** The entries whose window is still open. */
  function Open(table: Table, now: int): (r: Table)
    ensures |r| <= |table|
  {
    if table == [] then []
    else (if table[0].nextLogAt > now then [table[0]] else []) + Open(table[1..], now)
  }

  function Newest(table: Table, max: nat): Table {
    if |table| > max then table[|table| - max..] else table
  }

  /** The oldest entries, beyond `max`. */
  function Oldest(table: Table, max: nat): Table {
    if |table| > max then table[..|table| - max] else []
  }

  function Prune(table: Table, now: int, max: nat): Table {
    if |table| <= max then table else Newest(Open(table, now), max)
  }

  datatype Outcome = Suppressed | Logged(suppressedBefore: nat)

  function Consume(table: Table, key: string, now: int, max: nat): (Table, Outcome) {
    var found := Find(table, key);
    if found.Some? && table[found.value].nextLogAt > now then
      var state := table[found.value];
      (table[found.value := state.(suppressed := state.suppressed + 1)], Suppressed)
    else
      var before := if found.Some? then table[found.value].suppressed else 0;
      (Prune(Put(table, Entry(key, now + WINDOW_MS, 0)), now, max), Logged(before))
  }

  // ---------------------------------------------------------------- in place

  class LogState {
    const maxKeys: nat
    var table: Table

    constructor (maxKeys: nat)
      ensures this.maxKeys == maxKeys && table == []
    {
      this.maxKeys := maxKeys;
      table := [];
    }

    method ConsumeWindow(key: string, now: int) returns (outcome: Outcome)
      modifies this
      ensures (table, outcome) == Consume(old(table), key, now, maxKeys)
    {
      var found := Find(table, key);
      if found.Some? && table[found.value].nextLogAt > now {
        var state := table[found.value];
        table := table[found.value := state.(suppressed := state.suppressed + 1)];
        return Suppressed;
      }
      var before := if found.Some? then table[found.value].suppressed else 0;
      table := Put(table, Entry(key, now + WINDOW_MS, 0));
      PruneState(now);
      return Logged(before);
    }

    /** Two passes: expired keys anywhere, then the oldest keys until the table fits. */
    method PruneState(now: int)
      modifies this
      ensures table == Prune(old(table), now, maxKeys)
    {
      if |table| <= maxKeys {
        return;
      }
      DeleteExpired(now);
      DeleteOldest();
    }

    method DeleteExpired(now: int)
      modifies this
      ensures table == Open(old(table), now)
    {
      ghost var open := Open(table, now);
      var index := 0;
      assert table[index..] == table;
      while index < |table|
        invariant 0 <= index <= |table|
        invariant table[..index] + Open(table[index..], now) == open
        decreases |table| - index
      {
        OpenStep(table, index, now);
        if table[index].nextLogAt <= now {
          table := table[..index] + table[index + 1..];
        } else {
          index := index + 1;
        }
      }
      assert table[..index] == table && table[index..] == [];
    }

    method DeleteOldest()
      modifies this
      ensures table == Newest(old(table), maxKeys)
    {
      while |table| > maxKeys
        invariant |table| <= |old(table)| && table == old(table)[|old(table)| - |table|..]
        invariant |table| >= maxKeys || table == old(table)
        decreases |table|
      {
        table := table[1..];
      }
    }
  }

  lemma OpenStep(table: Table, index: nat, now: int)
    requires index < |table|
    ensures var removed := table[..index] + table[index + 1..];
            table[..index] + Open(table[index..], now)
              == if table[index].nextLogAt <= now then removed[..index] + Open(removed[index..], now)
                 else table[..index + 1] + Open(table[index + 1..], now)
  {
    var rest := table[index + 1..];
    assert table[index..][1..] == rest;
    var removed := table[..index] + rest;
    assert removed[..index] == table[..index] && removed[index..] == rest;
    assert table[..index] + ([table[index]] + Open(rest, now)) == table[..index + 1] + Open(rest, now);
  }

  /** `logInvalidInstallationToken`: None when suppressed, else the number of calls suppressed before. */
  method LogInvalidInstallationToken(state: LogState, tokenHash: string, endpoint: string, now: int)
    returns (outcome: Outcome)
    requires state.maxKeys == MAX_INVALID_TOKEN_KEYS
    modifies state
    ensures (state.table, outcome) == Consume(old(state.table), TokenKey(tokenHash, endpoint), now, 10000)
  {
    outcome := state.ConsumeWindow(TokenKey(tokenHash, endpoint), now);
  }

  function TokenKey(tokenHash: string, endpoint: string): string {
    var prefix := if |tokenHash| > 16 then tokenHash[..16] else tokenHash;
    var trimmed := Text.Trim(endpoint);
    prefix + ":" + (if trimmed == "" then "unknown" else trimmed)
  }

  /**
   Two calls share a key exactly when the first sixteen digits of the token hashes agree and the endpoints do, without
   outer spaces, a blank one counting as "unknown".
   */
  lemma TokenKeyMeaning(hash: string, endpoint: string, otherHash: string, otherEndpoint: string)
    requires |hash| >= 16 && |otherHash| >= 16
    ensures var shown := if Text.Trim(endpoint) == "" then "unknown" else Text.Trim(endpoint);
            var otherShown := if Text.Trim(otherEndpoint) == "" then "unknown" else Text.Trim(otherEndpoint);
            TokenKey(hash, endpoint) == TokenKey(otherHash, otherEndpoint) <==>
              hash[..16] == otherHash[..16] && shown == otherShown
  {
    var shown := if Text.Trim(endpoint) == "" then "unknown" else Text.Trim(endpoint);
    var otherShown := if Text.Trim(otherEndpoint) == "" then "unknown" else Text.Trim(otherEndpoint);
    KeyOfParts(hash, endpoint);
    KeyOfParts(otherHash, otherEndpoint);
    var key, other := hash[..16] + ":" + shown, otherHash[..16] + ":" + otherShown;
    assert key[..16] == hash[..16] && key[17..] == shown;
    assert other[..16] == otherHash[..16] && other[17..] == otherShown;
  }

  lemma KeyOfParts(hash: string, endpoint: string)
    requires |hash| >= 16
    ensures TokenKey(hash, endpoint)
         == hash[..16] + ":" + (if Text.Trim(endpoint) == "" then "unknown" else Text.Trim(endpoint))
  {
    assert |hash| == 16 ==> hash[..16] == hash;
  }

  /** `consumeExpectedExtensionUnauthorizedLogWindow`, for an already classified endpoint. */
  method ConsumeExpectedUnauthorizedWindow(state: LogState, httpMethod: string, endpoint: string, now: int)
    returns (outcome: Outcome)
    requires state.maxKeys == MAX_UNAUTHORIZED_KEYS
    modifies state
    ensures (state.table, outcome) == Consume(old(state.table), httpMethod + ":" + endpoint, now, 1000)
  {
    outcome := state.ConsumeWindow(httpMethod + ":" + endpoint, now);
  }

  // ---------------------------------------------------------------- every call is accounted for

  function Pending(table: Table): nat {
    if table == [] then 0 else table[0].suppressed + Pending(table[1..])
  }

  function Closed(table: Table, now: int): Table {
    if table == [] then []
    else (if table[0].nextLogAt > now then [] else [table[0]]) + Closed(table[1..], now)
  }

  /** The entries that pruning throws out of the table: expired ones, then the oldest. */
  function Pruned(table: Table, now: int, max: nat): Table {
    if |table| <= max then [] else Closed(table, now) + Oldest(Open(table, now), max)
  }

  function ThrownOut(table: Table, key: string, now: int, max: nat): Table {
    if Consume(table, key, now, max).1.Suppressed? then []
    else Pruned(Put(table, Entry(key, now + WINDOW_MS, 0)), now, max)
  }

  lemma PendingAppend(a: Table, b: Table)
    ensures Pending(a + b) == Pending(a) + Pending(b)
  {
    if a == [] {
      assert a + b == b;
    } else {
      assert (a + b)[1..] == a[1..] + b;
      PendingAppend(a[1..], b);
    }
  }

  lemma PendingUpdate(table: Table, i: nat, entry: Entry)
    requires i < |table|
    ensures Pending(table[i := entry]) + table[i].suppressed == Pending(table) + entry.suppressed
  {
    if i > 0 {
      assert table[i := entry][1..] == table[1..][i - 1 := entry];
      PendingUpdate(table[1..], i - 1, entry);
    }
  }

  lemma {:induction false} OpenAndClosed(table: Table, now: int)
    ensures Pending(Open(table, now)) + Pending(Closed(table, now)) == Pending(table)
  {
    if table != [] {
      OpenAndClosed(table[1..], now);
      PendingAppend(if table[0].nextLogAt > now then [table[0]] else [], Open(table[1..], now));
      PendingAppend(if table[0].nextLogAt > now then [] else [table[0]], Closed(table[1..], now));
    }
  }

  lemma PutReplacesPending(table: Table, key: string, next: int)
    ensures var found := Find(table, key);
            Pending(Put(table, Entry(key, next, 0))) + (if found.Some? then table[found.value].suppressed else 0)
              == Pending(table)
  {
    var found := Find(table, key);
    if found.Some? {
      PendingUpdate(table, found.value, Entry(key, next, 0));
    } else {
      PendingAppend(table, [Entry(key, next, 0)]);
    }
  }

  lemma NewestConserves(open: Table, max: nat)
    ensures Pending(Newest(open, max)) + Pending(Oldest(open, max)) == Pending(open)
  {
    if |open| > max {
      var cut := |open| - max;
      assert open == open[..cut] + open[cut..];
      PendingAppend(open[..cut], open[cut..]);
    }
  }

  lemma SplitConserves(table: Table, open: Table, closed: Table, kept: Table, cut: Table)
    requires Pending(open) + Pending(closed) == Pending(table)
    requires Pending(kept) + Pending(cut) == Pending(open)
    ensures Pending(kept) + Pending(closed + cut) == Pending(table)
  {
    PendingAppend(closed, cut);
  }

  lemma PruneConserves(put: Table, now: int, max: nat)
    ensures Pending(Prune(put, now, max)) + Pending(Pruned(put, now, max)) == Pending(put)
  {
    if |put| > max {
      var open := Open(put, now);
      OpenAndClosed(put, now);
      NewestConserves(open, max);
      SplitConserves(put, open, Closed(put, now), Newest(open, max), Oldest(open, max));
    }
  }

  lemma SuppressedConserves(table: Table, key: string, now: int, max: nat)
    requires Consume(table, key, now, max).1.Suppressed?
    ensures Pending(Consume(table, key, now, max).0) == Pending(table) + 1
  {
    var i := Find(table, key).value;
    PendingUpdate(table, i, table[i].(suppressed := table[i].suppressed + 1));
  }

  lemma LoggedConserves(table: Table, key: string, now: int, max: nat)
    requires Consume(table, key, now, max).1.Logged?
    ensures var (after, outcome) := Consume(table, key, now, max);
            Pending(table) == Pending(after) + Pending(ThrownOut(table, key, now, max)) + outcome.suppressedBefore
  {
    PutReplacesPending(table, key, now + WINDOW_MS);
    PruneConserves(Put(table, Entry(key, now + WINDOW_MS, 0)), now, max);
  }

  /** The call itself and what was pending is either reported, still pending, or thrown out. */
  lemma CallConserves(table: Table, key: string, now: int, max: nat)
    ensures var (after, outcome) := Consume(table, key, now, max);
            1 + Pending(table) == Pending(after) + Pending(ThrownOut(table, key, now, max))
                                  + (if outcome.Logged? then 1 + outcome.suppressedBefore else 0)
  {
    if Consume(table, key, now, max).1.Suppressed? {
      SuppressedConserves(table, key, now, max);
    } else {
      LoggedConserves(table, key, now, max);
    }
  }

  // ---------------------------------------------------------------- runs

  datatype Call = Call(key: string, now: int)

  function After(calls: seq<Call>, max: nat): Table
    decreases |calls|
  {
    if calls == [] then []
    else
      var last := calls[|calls| - 1];
      Consume(After(calls[..|calls| - 1], max), last.key, last.now, max).0
  }

  function OutcomeOf(calls: seq<Call>, i: nat, max: nat): Outcome
    requires i < |calls|
  {
    Consume(After(calls[..i], max), calls[i].key, calls[i].now, max).1
  }

  function LogCount(calls: seq<Call>, max: nat): nat
    decreases |calls|
  {
    if calls == [] then 0
    else LogCount(calls[..|calls| - 1], max) + (if OutcomeOf(calls, |calls| - 1, max).Logged? then 1 else 0)
  }

  function Reported(calls: seq<Call>, max: nat): nat
    decreases |calls|
  {
    if calls == [] then 0
    else
      var outcome := OutcomeOf(calls, |calls| - 1, max);
      Reported(calls[..|calls| - 1], max) + (if outcome.Logged? then outcome.suppressedBefore else 0)
  }

  /** The counts that went with the entries thrown out over the run. */
  function Forgotten(calls: seq<Call>, max: nat): nat
    decreases |calls|
  {
    if calls == [] then 0
    else
      var n := |calls| - 1;
      Forgotten(calls[..n], max) + Pending(ThrownOut(After(calls[..n], max), calls[n].key, calls[n].now, max))
  }

  /** Over every run: calls are log lines, or reported as suppressed, or pending, or forgotten with their key. */
  lemma {:induction false} RunConserves(calls: seq<Call>, max: nat)
    ensures |calls| == LogCount(calls, max) + Reported(calls, max) + Pending(After(calls, max)) + Forgotten(calls, max)
    decreases |calls|
  {
    if calls != [] {
      var n := |calls| - 1;
      RunConserves(calls[..n], max);
      CallConserves(After(calls[..n], max), calls[n].key, calls[n].now, max);
    }
  }

  /** The table never holds more than `max` keys after a call. */
  lemma {:induction false} RunIsBounded(calls: seq<Call>, max: nat)
    ensures |After(calls, max)| <= max
    decreases |calls|
  {
    if calls != [] {
      RunIsBounded(calls[..|calls| - 1], max);
    }
  }

  // ---------------------------------------------------------------- at most one log line per window

  ghost predicate Holds(table: Table, entry: Entry) {
    exists i :: 0 <= i < |table| && table[i] == entry
  }

  lemma OpenFacts(table: Table, now: int)
    ensures DistinctKeys(table) ==> DistinctKeys(Open(table, now))
    ensures forall e :: Holds(Open(table, now), e) <==> Holds(table, e) && e.nextLogAt > now
  {
    OpenMembers(table, now);
    if DistinctKeys(table) {
      OpenDistinct(table, now);
    }
  }

  lemma OpenUnfold(table: Table, now: int)
    requires table != []
    ensures Open(table, now)
         == if table[0].nextLogAt > now then [table[0]] + Open(table[1..], now) else Open(table[1..], now)
  {
  }

  lemma {:induction false} OpenMembers(table: Table, now: int)
    ensures forall e :: Holds(Open(table, now), e) <==> Holds(table, e) && e.nextLogAt > now
  {
    if table != [] {
      var rest := table[1..];
      OpenMembers(rest, now);
      OpenUnfold(table, now);
      forall e
        ensures Holds(Open(table, now), e) <==> Holds(table, e) && e.nextLogAt > now
      {
        HoldsCons(table[0], rest, e);
        HoldsCons(table[0], Open(rest, now), e);
        assert [table[0]] + rest == table;
      }
    }
  }

  lemma {:induction false} OpenDistinct(table: Table, now: int)
    requires DistinctKeys(table)
    ensures DistinctKeys(Open(table, now))
  {
    if table != [] {
      var rest := table[1..];
      assert DistinctKeys(rest);
      OpenDistinct(rest, now);
      OpenMembers(rest, now);
      OpenUnfold(table, now);
      var open := Open(rest, now);
      forall j | 0 <= j < |open|
        ensures open[j].key != table[0].key
      {
        assert Holds(open, open[j]);
        var k :| 0 <= k < |rest| && rest[k] == open[j];
        assert table[k + 1] == open[j];
      }
    }
  }

  lemma HoldsCons(head: Entry, rest: Table, e: Entry)
    ensures Holds([head] + rest, e) <==> e == head || Holds(rest, e)
  {
    var all := [head] + rest;
    if e == head {
      assert all[0] == e;
    } else if Holds(rest, e) {
      var i :| 0 <= i < |rest| && rest[i] == e;
      assert all[i + 1] == e;
    }
  }

  lemma PutFacts(table: Table, entry: Entry)
    requires DistinctKeys(table)
    ensures DistinctKeys(Put(table, entry))
    ensures forall e :: Holds(Put(table, entry), e) <==> e == entry || (Holds(table, e) && e.key != entry.key)
  {
    var put := Put(table, entry);
    forall e
      ensures Holds(put, e) <==> e == entry || (Holds(table, e) && e.key != entry.key)
    {
      if e == entry {
        assert put[if Find(table, entry.key).Some? then Find(table, entry.key).value else |table|] == e;
      } else if Holds(table, e) && e.key != entry.key {
        var i :| 0 <= i < |table| && table[i] == e;
        assert put[i] == e;
      }
      if Holds(put, e) && e != entry {
        var i :| 0 <= i < |put| && put[i] == e;
        assert table[i] == e;
      }
    }
  }

  lemma {:induction false} DistinctKeysFit(table: Table, keys: set<string>)
    requires DistinctKeys(table) && forall i :: 0 <= i < |table| ==> table[i].key in keys
    ensures |table| <= |keys|
  {
    if table != [] {
      DistinctKeysFit(table[1..], keys - {table[0].key});
    }
  }

  /** The keys called in the window that ends with call i. */
  function KeysInWindow(calls: seq<Call>, i: nat): set<string>
    requires i < |calls|
  {
    set j | 0 <= j <= i && calls[j].now > calls[i].now - WINDOW_MS :: calls[j].key
  }

  ghost predicate Monotone(calls: seq<Call>) {
    forall i, j :: 0 <= i < j < |calls| ==> calls[i].now <= calls[j].now
  }

  /** No window sees more than `max` distinct keys. */
  ghost predicate FewKeys(calls: seq<Call>, max: nat) {
    forall i :: 0 <= i < |calls| ==> |KeysInWindow(calls, i)| <= max
  }

  ghost predicate CalledFor(calls: seq<Call>, e: Entry) {
    exists j :: 0 <= j < |calls| && calls[j].key == e.key && calls[j].now + WINDOW_MS == e.nextLogAt
  }

  /** The calls that were logged. */
  function LogIndices(calls: seq<Call>, max: nat): set<nat> {
    set j: nat | j < |calls| && OutcomeOf(calls, j, max).Logged?
  }

  /** Where the entries come from, and that no open window has been forgotten. */
  ghost predicate FaithfulTable(calls: seq<Call>, logged: set<nat>, table: Table) {
    && DistinctKeys(table)
    && (forall i :: 0 <= i < |table| ==> CalledFor(calls, table[i]))
    && (forall j :: j in logged ==>
          j < |calls| && (calls[j].now + WINDOW_MS > calls[|calls| - 1].now ==> Remembered(table, calls[j])))
  }

  ghost predicate Faithful(calls: seq<Call>, max: nat) {
    FaithfulTable(calls, LogIndices(calls, max), After(calls, max))
  }

  ghost predicate Remembered(table: Table, call: Call) {
    exists i :: 0 <= i < |table| && table[i].key == call.key && table[i].nextLogAt == call.now + WINDOW_MS
  }

  lemma CalledForGrows(calls: seq<Call>, n: nat, e: Entry)
    requires n <= |calls| && CalledFor(calls[..n], e)
    ensures CalledFor(calls, e)
  {
    var j :| 0 <= j < n && calls[..n][j].key == e.key && calls[..n][j].now + WINDOW_MS == e.nextLogAt;
    assert calls[j] == calls[..n][j];
  }

  /** Entries with an open window are never thrown out when few keys are called. */
  lemma OpenEntriesFit(calls: seq<Call>, table: Table, max: nat)
    requires calls != [] && Monotone(calls) && FewKeys(calls, max)
    requires DistinctKeys(table) && forall i :: 0 <= i < |table| ==> CalledFor(calls, table[i])
    ensures |Open(table, calls[|calls| - 1].now)| <= max
  {
    var n := |calls| - 1;
    var open := Open(table, calls[n].now);
    OpenFacts(table, calls[n].now);
    forall i | 0 <= i < |open|
      ensures open[i].key in KeysInWindow(calls, n)
    {
      assert Holds(open, open[i]);
      assert Holds(table, open[i]);
      assert CalledFor(calls, open[i]);
      var j :| 0 <= j < |calls| && calls[j].key == open[i].key && calls[j].now + WINDOW_MS == open[i].nextLogAt;
      assert calls[j].now > calls[n].now - WINDOW_MS;
    }
    DistinctKeysFit(open, KeysInWindow(calls, n));
  }

  lemma PruneKeepsOpen(table: Table, now: int, max: nat)
    requires DistinctKeys(table) && |Open(table, now)| <= max
    ensures DistinctKeys(Prune(table, now, max))
    ensures forall e :: Holds(Prune(table, now, max), e) ==> Holds(table, e)
    ensures forall e :: Holds(table, e) && e.nextLogAt > now ==> Holds(Prune(table, now, max), e)
  {
    OpenFacts(table, now);
  }

  lemma SuppressedKeepsWindows(table: Table, key: string, now: int, max: nat)
    requires Consume(table, key, now, max).1.Suppressed?
    ensures var after := Consume(table, key, now, max).0;
            && |after| == |table|
            && forall i :: 0 <= i < |table| ==> after[i].key == table[i].key && after[i].nextLogAt == table[i].nextLogAt
  {
  }

  lemma SuppressedStepIsFaithful(calls: seq<Call>, logged: set<nat>, before: Table, max: nat)
    requires calls != [] && Monotone(calls)
    requires FaithfulTable(calls[..|calls| - 1], logged, before)
    requires var last := calls[|calls| - 1]; Consume(before, last.key, last.now, max).1.Suppressed?
    ensures var last := calls[|calls| - 1]; FaithfulTable(calls, logged, Consume(before, last.key, last.now, max).0)
  {
    var n := |calls| - 1;
    var after := Consume(before, calls[n].key, calls[n].now, max).0;
    SuppressedKeepsWindows(before, calls[n].key, calls[n].now, max);
    forall i | 0 <= i < |after|
      ensures CalledFor(calls, after[i])
    {
      CalledForGrows(calls, n, before[i]);
      var j :| 0 <= j < |calls| && calls[j].key == before[i].key && calls[j].now + WINDOW_MS == before[i].nextLogAt;
      assert calls[j].key == after[i].key;
    }
    forall j | j in logged && calls[j].now + WINDOW_MS > calls[n].now
      ensures Remembered(after, calls[j])
    {
      EarlierLogRemembered(calls, logged, before, j);
      var i :| 0 <= i < |before| && before[i].key == calls[j].key && before[i].nextLogAt == calls[j].now + WINDOW_MS;
      assert after[i].key == calls[j].key;
    }
  }

  lemma EarlierLogRemembered(calls: seq<Call>, logged: set<nat>, before: Table, j: nat)
    requires calls != [] && Monotone(calls) && j in logged && j < |calls|
    requires FaithfulTable(calls[..|calls| - 1], logged, before)
    requires calls[j].now + WINDOW_MS > calls[|calls| - 1].now
    ensures Remembered(before, calls[j])
  {
    var earlier := calls[..|calls| - 1];
    assert j < |earlier| && earlier[j] == calls[j];
    assert earlier[|earlier| - 1] == calls[|calls| - 2];
  }

  lemma PutOrigins(calls: seq<Call>, before: Table)
    requires calls != [] && DistinctKeys(before)
    requires forall i :: 0 <= i < |before| ==> CalledFor(calls[..|calls| - 1], before[i])
    ensures var last := calls[|calls| - 1];
            var put := Put(before, Entry(last.key, last.now + WINDOW_MS, 0));
            forall i :: 0 <= i < |put| ==> CalledFor(calls, put[i])
  {
    var n := |calls| - 1;
    var entry := Entry(calls[n].key, calls[n].now + WINDOW_MS, 0);
    var put := Put(before, entry);
    PutFacts(before, entry);
    forall i | 0 <= i < |put|
      ensures CalledFor(calls, put[i])
    {
      assert Holds(put, put[i]);
      if put[i] == entry {
        assert calls[n].key == entry.key;
      } else {
        var k :| 0 <= k < |before| && before[k] == put[i];
        CalledForGrows(calls, n, before[k]);
      }
    }
  }

  /** Logging a call forgets no other open window. */
  lemma LoggingRemembers(before: Table, call: Call, max: nat)
    requires DistinctKeys(before) && Consume(before, call.key, call.now, max).1.Logged?
    requires |Open(Put(before, Entry(call.key, call.now + WINDOW_MS, 0)), call.now)| <= max
    ensures var after := Consume(before, call.key, call.now, max).0;
            && DistinctKeys(after)
            && Remembered(after, call)
            && (forall e :: Holds(after, e) ==> Holds(Put(before, Entry(call.key, call.now + WINDOW_MS, 0)), e))
            && (forall e :: Holds(before, e) && e.nextLogAt > call.now ==> Holds(after, e))
  {
    var entry := Entry(call.key, call.now + WINDOW_MS, 0);
    var put := Put(before, entry);
    var after := Consume(before, call.key, call.now, max).0;
    PutFacts(before, entry);
    PruneKeepsOpen(put, call.now, max);
    assert Holds(after, entry);
    forall e | Holds(before, e) && e.nextLogAt > call.now
      ensures Holds(after, e)
    {
      var i :| 0 <= i < |before| && before[i] == e;
      RememberedIsSuppressed(before, call.key, call.now, max, i);
      assert Holds(put, e);
    }
  }

  lemma LoggedTableIsFaithful(calls: seq<Call>, logged: set<nat>, before: Table, after: Table)
    requires calls != [] && Monotone(calls)
    requires FaithfulTable(calls[..|calls| - 1], logged, before)
    requires DistinctKeys(after) && Remembered(after, calls[|calls| - 1])
    requires forall i :: 0 <= i < |after| ==> CalledFor(calls, after[i])
    requires forall e :: Holds(before, e) && e.nextLogAt > calls[|calls| - 1].now ==> Holds(after, e)
    ensures FaithfulTable(calls, logged + {|calls| - 1}, after)
  {
    var last := calls[|calls| - 1];
    forall j | j in logged && calls[j].now + WINDOW_MS > last.now
      ensures Remembered(after, calls[j])
    {
      EarlierLogRemembered(calls, logged, before, j);
      RememberedSurvives(before, after, calls[j], last.now);
    }
  }

  lemma LoggedStepIsFaithful(calls: seq<Call>, logged: set<nat>, before: Table, max: nat)
    requires calls != [] && Monotone(calls) && FewKeys(calls, max)
    requires FaithfulTable(calls[..|calls| - 1], logged, before)
    requires var last := calls[|calls| - 1]; Consume(before, last.key, last.now, max).1.Logged?
    ensures var last := calls[|calls| - 1];
            FaithfulTable(calls, logged + {|calls| - 1}, Consume(before, last.key, last.now, max).0)
  {
    var last := calls[|calls| - 1];
    var put := Put(before, Entry(last.key, last.now + WINDOW_MS, 0));
    var after := Consume(before, last.key, last.now, max).0;
    PutOrigins(calls, before);
    PutFacts(before, Entry(last.key, last.now + WINDOW_MS, 0));
    OpenEntriesFit(calls, put, max);
    LoggingRemembers(before, last, max);
    OriginsSurvive(calls, put, after);
    LoggedTableIsFaithful(calls, logged, before, after);
  }

  lemma OriginsSurvive(calls: seq<Call>, put: Table, after: Table)
    requires forall i :: 0 <= i < |put| ==> CalledFor(calls, put[i])
    requires forall e :: Holds(after, e) ==> Holds(put, e)
    ensures forall i :: 0 <= i < |after| ==> CalledFor(calls, after[i])
  {
    forall i | 0 <= i < |after|
      ensures CalledFor(calls, after[i])
    {
      assert Holds(after, after[i]);
      assert Holds(put, after[i]);
    }
  }

  lemma RememberedSurvives(before: Table, after: Table, call: Call, now: int)
    requires Remembered(before, call) && call.now + WINDOW_MS > now
    requires forall e :: Holds(before, e) && e.nextLogAt > now ==> Holds(after, e)
    ensures Remembered(after, call)
  {
    var i :| 0 <= i < |before| && before[i].key == call.key && before[i].nextLogAt == call.now + WINDOW_MS;
    assert Holds(before, before[i]);
    assert Holds(after, before[i]);
  }

  lemma RememberedIsSuppressed(table: Table, key: string, now: int, max: nat, i: nat)
    requires DistinctKeys(table) && i < |table| && table[i].nextLogAt > now
    ensures table[i].key == key ==> Consume(table, key, now, max).1.Suppressed?
  {
    if table[i].key == key {
      assert Find(table, key) == Some(i);
    }
  }

  lemma {:induction false} RunIsFaithful(calls: seq<Call>, max: nat)
    requires Monotone(calls) && FewKeys(calls, max)
    ensures Faithful(calls, max)
    decreases |calls|
  {
    if calls != [] {
      var n := |calls| - 1;
      var before, logged := After(calls[..n], max), LogIndices(calls[..n], max);
      PrefixHasFewKeys(calls, n, max);
      RunIsFaithful(calls[..n], max);
      LogIndicesSnoc(calls, max);
      if OutcomeOf(calls, n, max).Suppressed? {
        SuppressedStepIsFaithful(calls, logged, before, max);
      } else {
        LoggedStepIsFaithful(calls, logged, before, max);
      }
    }
  }

  lemma LogIndicesSnoc(calls: seq<Call>, max: nat)
    requires calls != []
    ensures var n := |calls| - 1;
            LogIndices(calls, max) == LogIndices(calls[..n], max) + (if OutcomeOf(calls, n, max).Logged? then {n} else {})
  {
    var n := |calls| - 1;
    forall j: nat
      ensures j in LogIndices(calls, max) <==>
                j in LogIndices(calls[..n], max) || (j == n && OutcomeOf(calls, n, max).Logged?)
    {
      if j < n {
        PrefixOutcome(calls, n, j, max);
      }
    }
  }

  lemma PrefixHasFewKeys(calls: seq<Call>, n: nat, max: nat)
    requires n <= |calls| && Monotone(calls) && FewKeys(calls, max)
    ensures Monotone(calls[..n]) && FewKeys(calls[..n], max)
  {
    forall i: nat | i < n
      ensures |KeysInWindow(calls[..n], i)| <= max
    {
      assert KeysInWindow(calls[..n], i) == KeysInWindow(calls, i);
    }
  }

  /** Two log lines of one key are at least a window apart whenever no window sees more than `max` keys. */
  lemma LogLinesAreApart(calls: seq<Call>, max: nat, i: nat, j: nat)
    requires Monotone(calls) && FewKeys(calls, max) && i < j < |calls| && calls[i].key == calls[j].key
    requires OutcomeOf(calls, i, max).Logged? && OutcomeOf(calls, j, max).Logged?
    ensures calls[j].now - calls[i].now >= 600000
  {
    if calls[j].now < calls[i].now + WINDOW_MS {
      PrefixHasFewKeys(calls, j, max);
      RunIsFaithful(calls[..j], max);
      PrefixOutcome(calls, j, i, max);
      OpenWindowSuppresses(calls[..j], calls[j], i, max);
    }
  }

  lemma PrefixOutcome(calls: seq<Call>, n: nat, i: nat, max: nat)
    requires i < n <= |calls|
    ensures OutcomeOf(calls[..n], i, max) == OutcomeOf(calls, i, max)
  {
    assert calls[..n][..i] == calls[..i] && calls[..n][i] == calls[i];
  }

  lemma OpenWindowSuppresses(before: seq<Call>, call: Call, i: nat, max: nat)
    requires Faithful(before, max) && i < |before|
    requires OutcomeOf(before, i, max).Logged? && before[i].key == call.key
    requires before[|before| - 1].now <= call.now < before[i].now + WINDOW_MS
    ensures Consume(After(before, max), call.key, call.now, max).1.Suppressed?
  {
    var table := After(before, max);
    assert i in LogIndices(before, max);
    assert Remembered(table, before[i]);
    var k :| 0 <= k < |table| && table[k].key == before[i].key && table[k].nextLogAt == before[i].now + WINDOW_MS;
    RememberedIsSuppressed(table, call.key, call.now, max, k);
  }

  /**
   A call throws out an entry whose window is still open exactly when it brings a new key to a table
   in which `max` windows are open.
   */
  lemma OpenEntryThrownOutIff(table: Table, key: string, now: int, max: nat)
    requires DistinctKeys(table) && |table| <= max
    ensures (exists i :: 0 <= i < |ThrownOut(table, key, now, max)| && ThrownOut(table, key, now, max)[i].nextLogAt > now)
       <==> Find(table, key).None? && |Open(table, now)| == max
  {
    var entry := Entry(key, now + WINDOW_MS, 0);
    var thrown := ThrownOut(table, key, now, max);
    if Find(table, key).None? {
      var put := table + [entry];
      OpenSnoc(table, entry, now);
      ClosedFacts(put, now);
      OpenFacts(put, now);
      if |put| > max {
        var open := Open(put, now);
        if |open| > max {
          var i := |Closed(put, now)|;
          assert thrown[i] == open[0];
          assert Holds(open, open[0]);
        } else {
          assert thrown == Closed(put, now);
        }
      }
    }
  }

  lemma OpenSnoc(table: Table, entry: Entry, now: int)
    requires entry.nextLogAt > now
    ensures Open(table + [entry], now) == Open(table, now) + [entry]
  {
    if table == [] {
      assert table + [entry] == [entry];
    } else {
      assert (table + [entry])[1..] == table[1..] + [entry];
      OpenSnoc(table[1..], entry, now);
    }
  }

  lemma ClosedFacts(table: Table, now: int)
    ensures forall i :: 0 <= i < |Closed(table, now)| ==> Closed(table, now)[i].nextLogAt <= now
  {
  }

  // ---------------------------------------------------------------- exactly when a key is logged twice in its window

  /** The end of a key's window, if the table has the key. */
  function WindowOf(table: Table, key: string): Option<int> {
    match Find(table, key)
    case Some(i) => Some(table[i].nextLogAt)
    case None => None
  }

  lemma WindowOfHeld(table: Table, e: Entry)
    requires DistinctKeys(table)
    ensures Holds(table, e) ==> WindowOf(table, e.key) == Some(e.nextLogAt)
  {
  }

  lemma WindowIsHeld(table: Table, key: string)
    ensures WindowOf(table, key).Some? ==>
              exists e :: Holds(table, e) && e.key == key && WindowOf(table, key) == Some(e.nextLogAt)
  {
    if WindowOf(table, key).Some? {
      assert Holds(table, table[Find(table, key).value]);
    }
  }

  lemma {:induction false} ClosedMembers(table: Table, now: int)
    ensures forall e :: Holds(Closed(table, now), e) <==> Holds(table, e) && e.nextLogAt <= now
  {
    if table != [] {
      var rest := table[1..];
      ClosedMembers(rest, now);
      assert [table[0]] + rest == table;
      forall e
        ensures Holds(Closed(table, now), e) <==> Holds(table, e) && e.nextLogAt <= now
      {
        HoldsCons(table[0], rest, e);
        HoldsCons(table[0], Closed(rest, now), e);
        assert table[0].nextLogAt > now ==> Closed(table, now) == Closed(rest, now);
      }
    }
  }

  lemma HoldsConcat(a: Table, b: Table, e: Entry)
    ensures Holds(a + b, e) <==> Holds(a, e) || Holds(b, e)
  {
    if Holds(a, e) {
      var i :| 0 <= i < |a| && a[i] == e;
      assert (a + b)[i] == e;
    }
    if Holds(b, e) {
      var i :| 0 <= i < |b| && b[i] == e;
      assert (a + b)[|a| + i] == e;
    }
  }

  lemma OpenOrClosed(put: Table, now: int, e: Entry)
    requires DistinctKeys(put)
    ensures Holds(put, e) <==> Holds(Open(put, now), e) || Holds(Closed(put, now), e)
    ensures !(Holds(Open(put, now), e) && Holds(Closed(put, now), e))
    ensures DistinctKeys(Open(put, now))
  {
    OpenMembers(put, now);
    OpenDistinct(put, now);
    ClosedMembers(put, now);
  }

  lemma NewestOrOldest(open: Table, max: nat, e: Entry)
    requires DistinctKeys(open)
    ensures Holds(open, e) <==> Holds(Newest(open, max), e) || Holds(Oldest(open, max), e)
    ensures !(Holds(Newest(open, max), e) && Holds(Oldest(open, max), e))
    ensures DistinctKeys(Newest(open, max))
  {
    assert open == Oldest(open, max) + Newest(open, max);
    HoldsConcat(Oldest(open, max), Newest(open, max), e);
  }

  /** Pruning keeps an entry or throws it out, never both. */
  lemma PruneParts(put: Table, now: int, max: nat, e: Entry)
    requires DistinctKeys(put)
    ensures Holds(put, e) <==> Holds(Prune(put, now, max), e) || Holds(Pruned(put, now, max), e)
    ensures !(Holds(Prune(put, now, max), e) && Holds(Pruned(put, now, max), e))
    ensures DistinctKeys(Prune(put, now, max))
  {
    if |put| > max {
      OpenOrClosed(put, now, e);
      NewestOrOldest(Open(put, now), max, e);
      HoldsConcat(Closed(put, now), Oldest(Open(put, now), max), e);
    }
  }

  /** What one call does to any key's window: it stays, is set by a log line, or is thrown out. */
  lemma WindowStep(table: Table, call: Call, max: nat, key: string)
    requires DistinctKeys(table)
    ensures var (after, outcome) := Consume(table, call.key, call.now, max);
            var ahead := if outcome.Logged? && call.key == key then Some(call.now + WINDOW_MS) else WindowOf(table, key);
            var thrown := WindowOf(ThrownOut(table, call.key, call.now, max), key);
            && DistinctKeys(after)
            && (thrown.Some? ==> thrown == ahead)
            && WindowOf(after, key) == if thrown.Some? then None else ahead
  {
    if Consume(table, call.key, call.now, max).1.Suppressed? {
      SuppressedKeepsWindows(table, call.key, call.now, max);
      SameWindows(table, Consume(table, call.key, call.now, max).0, key);
    } else {
      LoggedWindowStep(table, call, max, key);
    }
  }

  lemma LoggedWindowStep(table: Table, call: Call, max: nat, key: string)
    requires DistinctKeys(table) && Consume(table, call.key, call.now, max).1.Logged?
    ensures var after := Consume(table, call.key, call.now, max).0;
            var ahead := if call.key == key then Some(call.now + WINDOW_MS) else WindowOf(table, key);
            var thrown := WindowOf(ThrownOut(table, call.key, call.now, max), key);
            && DistinctKeys(after)
            && (thrown.Some? ==> thrown == ahead)
            && WindowOf(after, key) == if thrown.Some? then None else ahead
  {
    var entry := Entry(call.key, call.now + WINDOW_MS, 0);
    PutFacts(table, entry);
    PutWindow(table, entry, key);
    PruneWindow(Put(table, entry), call.now, max, key);
    LoggedIsPruned(table, call, max);
  }

  lemma LoggedIsPruned(table: Table, call: Call, max: nat)
    requires Consume(table, call.key, call.now, max).1.Logged?
    ensures var put := Put(table, Entry(call.key, call.now + WINDOW_MS, 0));
            && Consume(table, call.key, call.now, max).0 == Prune(put, call.now, max)
            && ThrownOut(table, call.key, call.now, max) == Pruned(put, call.now, max)
  {
  }

  lemma SameWindows(a: Table, b: Table, key: string)
    requires DistinctKeys(a) && |a| == |b|
    requires forall i :: 0 <= i < |a| ==> a[i].key == b[i].key && a[i].nextLogAt == b[i].nextLogAt
    ensures DistinctKeys(b) && WindowOf(a, key) == WindowOf(b, key)
  {
  }

  lemma PutWindow(table: Table, entry: Entry, key: string)
    requires DistinctKeys(table)
    ensures WindowOf(Put(table, entry), key) == if key == entry.key then Some(entry.nextLogAt) else WindowOf(table, key)
  {
    var put := Put(table, entry);
    PutFacts(table, entry);
    if key == entry.key {
      assert Holds(put, entry);
      WindowOfHeld(put, entry);
    } else {
      WindowIsHeld(table, key);
      WindowIsHeld(put, key);
      if e :| Holds(table, e) && e.key == key {
        assert Holds(put, e);
        WindowOfHeld(put, e);
        WindowOfHeld(table, e);
      }
    }
  }

  lemma PruneWindow(put: Table, now: int, max: nat, key: string)
    requires DistinctKeys(put)
    ensures var kept, thrown := Prune(put, now, max), WindowOf(Pruned(put, now, max), key);
            && DistinctKeys(kept)
            && (thrown.Some? ==> thrown == WindowOf(put, key))
            && WindowOf(kept, key) == if thrown.Some? then None else WindowOf(put, key)
  {
    var kept, thrown := Prune(put, now, max), Pruned(put, now, max);
    forall e
      ensures Holds(put, e) <==> Holds(kept, e) || Holds(thrown, e)
      ensures !(Holds(kept, e) && Holds(thrown, e))
    {
      PruneParts(put, now, max, e);
    }
    PruneParts(put, now, max, Entry(key, 0, 0));
    PartsOfWindow(put, kept, thrown, key);
  }

  lemma PartsOfWindow(put: Table, kept: Table, thrown: Table, key: string)
    requires DistinctKeys(put) && DistinctKeys(kept)
    requires forall e :: Holds(put, e) <==> Holds(kept, e) || Holds(thrown, e)
    requires forall e :: !(Holds(kept, e) && Holds(thrown, e))
    ensures WindowOf(thrown, key).Some? ==> WindowOf(thrown, key) == WindowOf(put, key)
    ensures WindowOf(kept, key) == if WindowOf(thrown, key).Some? then None else WindowOf(put, key)
  {
    WindowIsHeld(kept, key);
    WindowIsHeld(thrown, key);
    WindowIsHeld(put, key);
    if e :| Holds(put, e) && e.key == key && WindowOf(put, key) == Some(e.nextLogAt) {
      forall f | Holds(put, f) && f.key == key
        ensures f == e
      {
        SameKeySameEntry(put, e, f);
      }
      if Holds(kept, e) {
        WindowOfHeld(kept, e);
      } else {
        AbsentWindow(kept, key);
        PresentWindow(thrown, e);
      }
    }
  }

  lemma AbsentWindow(table: Table, key: string)
    requires forall e :: Holds(table, e) ==> e.key != key
    ensures WindowOf(table, key).None?
  {
    WindowIsHeld(table, key);
  }

  lemma PresentWindow(table: Table, e: Entry)
    requires Holds(table, e)
    ensures WindowOf(table, e.key).Some?
  {
    var i :| 0 <= i < |table| && table[i] == e;
  }

  lemma SameKeySameEntry(table: Table, e: Entry, f: Entry)
    requires DistinctKeys(table) && Holds(table, e) && Holds(table, f) && e.key == f.key
    ensures e == f
  {
  }

  /** Call i is one of `key`, and it is logged. */
  ghost predicate LoggedAt(calls: seq<Call>, i: nat, max: nat, key: string)
    requires i < |calls|
  {
    calls[i].key == key && OutcomeOf(calls, i, max).Logged?
  }

  /** Two log lines of a key, less than a window apart. */
  ghost predicate LogsTwice(calls: seq<Call>, max: nat, key: string) {
    exists i: nat, j: nat :: && i < j < |calls| && LoggedAt(calls, i, max, key) && LoggedAt(calls, j, max, key)
                             && calls[j].now < calls[i].now + WINDOW_MS
  }

  /** The end of the key's window, if call m throws its entry out. */
  function ThrownBy(calls: seq<Call>, m: nat, max: nat, key: string): Option<int>
    requires m < |calls|
  {
    WindowOf(ThrownOut(After(calls[..m], max), calls[m].key, calls[m].now, max), key)
  }

  /** One call as a single key sees it: its window before and after, and the end of the window thrown out. */
  datatype Moment = Moment(
    now: int, called: bool, logged: bool, before: Option<int>, thrown: Option<int>, after: Option<int>)

  predicate Behaves(m: Moment) {
    var ahead := if m.logged then Some(m.now + WINDOW_MS) else m.before;
    && (m.logged <==> m.called && !(m.before.Some? && m.before.value > m.now))
    && (m.thrown.Some? ==> m.thrown == ahead)
    && m.after == (if m.thrown.Some? then None else ahead)
  }

  ghost predicate Chain(ms: seq<Moment>) {
    && (forall i :: 0 <= i < |ms| ==> Behaves(ms[i]))
    && (forall i :: 0 < i < |ms| ==> ms[i].before == ms[i - 1].after)
    && (ms != [] ==> ms[0].before.None?)
    && (forall i, j :: 0 <= i < j < |ms| ==> ms[i].now <= ms[j].now)
  }

  /** The key is logged twice, less than a window apart. */
  ghost predicate Twice(ms: seq<Moment>) {
    exists i, j :: 0 <= i < j < |ms| && ms[i].logged && ms[j].logged && ms[j].now < ms[i].now + WINDOW_MS
  }

  /** The key's entry is thrown out, and the key is called again before the window of that entry ends. */
  ghost predicate Lost(ms: seq<Moment>) {
    exists m, j :: 0 <= m < j < |ms| && ms[j].called && ms[m].thrown.Some? && ms[j].now < ms[m].thrown.value
  }

  /** Every window was opened by a log line. */
  lemma {:induction false} OpenedByLog(ms: seq<Moment>, n: nat)
    requires Chain(ms) && n < |ms|
    ensures ms[n].before.Some? ==> exists i :: 0 <= i < n && ms[i].logged && ms[n].before == Some(ms[i].now + WINDOW_MS)
  {
    if n > 0 {
      OpenedByLog(ms, n - 1);
    }
  }

  /** A window stays until it is thrown out or opened anew. */
  lemma {:induction false} WindowStays(ms: seq<Moment>, i: nat, n: nat)
    requires Chain(ms) && i < n < |ms| && ms[i].logged
    requires forall m :: i < m < n ==> !ms[m].logged
    requires forall m :: i <= m < n ==> ms[m].thrown.None?
    ensures ms[n].before == Some(ms[i].now + WINDOW_MS)
  {
    if i < n - 1 {
      WindowStays(ms, i, n - 1);
    }
  }

  /** Without a window, the next call of the key is logged. */
  lemma {:induction false} AbsentUntilLogged(ms: seq<Moment>, n: nat, j: nat)
    requires Chain(ms) && n <= j < |ms| && ms[j].called && ms[n].before.None?
    ensures exists k :: n <= k <= j && ms[k].logged
    decreases j - n
  {
    if !ms[n].called {
      AbsentUntilLogged(ms, n + 1, j);
    }
  }

  lemma {:induction false} TwiceMeansForgotten(ms: seq<Moment>, i: nat, j: nat)
    requires Chain(ms) && i < j < |ms| && ms[i].logged && ms[j].logged && ms[j].now < ms[i].now + WINDOW_MS
    ensures Lost(ms)
    decreases j
  {
    if k :| i < k < j && ms[k].logged {
      TwiceMeansForgotten(ms, i, k);
    } else {
      if forall m :: i <= m < j ==> ms[m].thrown.None? {
        WindowStays(ms, i, j);
      }
      var m :| i <= m < j && ms[m].thrown.Some?;
      FirstThrown(ms, i, m, j);
    }
  }

  /** The first time an entry is thrown out after a log line, it is the one that the log line opened. */
  lemma {:induction false} FirstThrown(ms: seq<Moment>, i: nat, m: nat, j: nat)
    requires Chain(ms) && i <= m < j < |ms| && ms[i].logged && ms[m].thrown.Some?
    requires forall k :: i < k < j ==> !ms[k].logged
    ensures exists f :: i <= f < j && ms[f].thrown == Some(ms[i].now + WINDOW_MS)
  {
    if f :| i <= f < m && ms[f].thrown.Some? {
      FirstThrown(ms, i, f, j);
    } else if i < m {
      WindowStays(ms, i, m);
    }
  }

  lemma TwiceIffForgotten(ms: seq<Moment>)
    requires Chain(ms)
    ensures Twice(ms) <==> Lost(ms)
  {
    if i, j :| 0 <= i < j < |ms| && ms[i].logged && ms[j].logged && ms[j].now < ms[i].now + WINDOW_MS {
      TwiceMeansForgotten(ms, i, j);
    }
    if m, j :| 0 <= m < j < |ms| && ms[j].called && ms[m].thrown.Some? && ms[j].now < ms[m].thrown.value {
      OpenedByLog(ms, m);
      AbsentUntilLogged(ms, m + 1, j);
      var k :| m + 1 <= k <= j && ms[k].logged;
      if !ms[m].logged {
        var i :| 0 <= i < m && ms[i].logged && ms[m].before == Some(ms[i].now + WINDOW_MS);
        assert ms[k].now < ms[i].now + WINDOW_MS;
      } else {
        assert ms[k].now < ms[m].now + WINDOW_MS;
      }
    }
  }

  function MomentAt(calls: seq<Call>, i: nat, max: nat, key: string): Moment
    requires i < |calls|
  {
    Moment(calls[i].now, calls[i].key == key, calls[i].key == key && OutcomeOf(calls, i, max).Logged?,
           WindowOf(After(calls[..i], max), key), ThrownBy(calls, i, max, key),
           WindowOf(After(calls[..i + 1], max), key))
  }

  function Moments(calls: seq<Call>, max: nat, key: string): (ms: seq<Moment>)
    ensures |ms| == |calls|
    ensures forall i :: 0 <= i < |ms| ==> ms[i] == MomentAt(calls, i, max, key)
  {
    seq(|calls|, i requires 0 <= i < |calls| => MomentAt(calls, i, max, key))
  }

  lemma AfterStep(calls: seq<Call>, m: nat, max: nat)
    requires m < |calls|
    ensures After(calls[..m + 1], max) == Consume(After(calls[..m], max), calls[m].key, calls[m].now, max).0
  {
    assert calls[..m + 1][..m] == calls[..m];
  }

  lemma {:induction false} KeysStayDistinct(calls: seq<Call>, max: nat)
    ensures DistinctKeys(After(calls, max))
    decreases |calls|
  {
    if calls != [] {
      var n := |calls| - 1;
      KeysStayDistinct(calls[..n], max);
      WindowStep(After(calls[..n], max), calls[n], max, "");
    }
  }

  lemma LoggedWithoutWindow(table: Table, key: string, now: int, max: nat)
    ensures Consume(table, key, now, max).1.Logged? <==> !(WindowOf(table, key).Some? && WindowOf(table, key).value > now)
  {
  }

  lemma MomentBehaves(calls: seq<Call>, i: nat, max: nat, key: string)
    requires i < |calls|
    ensures Behaves(MomentAt(calls, i, max, key))
  {
    AfterStep(calls, i, max);
    KeysStayDistinct(calls[..i], max);
    StepBehaves(After(calls[..i], max), calls[i], max, key);
  }

  lemma StepBehaves(table: Table, call: Call, max: nat, key: string)
    requires DistinctKeys(table)
    ensures var (after, outcome) := Consume(table, call.key, call.now, max);
            Behaves(Moment(call.now, call.key == key, call.key == key && outcome.Logged?, WindowOf(table, key),
                           WindowOf(ThrownOut(table, call.key, call.now, max), key), WindowOf(after, key)))
  {
    WindowStep(table, call, max, key);
    LoggedWithoutWindow(table, call.key, call.now, max);
  }

  lemma MomentsChain(calls: seq<Call>, max: nat, key: string)
    requires Monotone(calls)
    ensures Chain(Moments(calls, max, key))
  {
    var ms := Moments(calls, max, key);
    forall i | 0 <= i < |ms|
      ensures Behaves(ms[i])
    {
      MomentBehaves(calls, i, max, key);
    }
  }

  /**
   A key is logged twice within its window exactly when its entry is thrown out and the key is called again
   before the window of that entry ends.
   */
  lemma LogsTwiceIff(calls: seq<Call>, max: nat, key: string)
    requires Monotone(calls)
    ensures LogsTwice(calls, max, key) <==> Lost(Moments(calls, max, key))
  {
    var ms := Moments(calls, max, key);
    MomentsChain(calls, max, key);
    TwiceIffForgotten(ms);
    TwiceInMoments(calls, max, key);
  }

  lemma TwiceInMoments(calls: seq<Call>, max: nat, key: string)
    ensures LogsTwice(calls, max, key) <==> Twice(Moments(calls, max, key))
  {
    var ms := Moments(calls, max, key);
    assert forall i: nat :: i < |calls| ==> (LoggedAt(calls, i, max, key) <==> ms[i].logged);
    if i, j :| 0 <= i < j < |ms| && ms[i].logged && ms[j].logged && ms[j].now < ms[i].now + WINDOW_MS {
      assert LoggedAt(calls, i, max, key) && LoggedAt(calls, j, max, key);
    }
  }

  // ---------------------------------------------------------------- a run that logs a key twice

  function CallEach(keys: seq<string>, now: int): (calls: seq<Call>)
    ensures |calls| == |keys|
  {
    seq(|keys|, i requires 0 <= i < |keys| => Call(keys[i], now))
  }

  function OpenEach(keys: seq<string>, now: int): (table: Table)
    ensures |table| == |keys|
  {
    seq(|keys|, i requires 0 <= i < |keys| => Entry(keys[i], now + WINDOW_MS, 0))
  }

  function NewestKeys(keys: seq<string>, max: nat): (newest: seq<string>)
    ensures |newest| <= max && |newest| <= |keys|
    ensures newest == keys[|keys| - |newest|..]
  {
    if |keys| > max then keys[|keys| - max..] else keys
  }

  ghost predicate AllDistinct(keys: seq<string>) {
    forall i, j :: 0 <= i < j < |keys| ==> keys[i] != keys[j]
  }

  lemma OpenKeepsAll(table: Table, now: int)
    requires forall i :: 0 <= i < |table| ==> table[i].nextLogAt > now
    ensures Open(table, now) == table
  {
  }

  lemma NewestOfEach(keys: seq<string>, now: int, max: nat)
    ensures Newest(OpenEach(keys, now), max) == OpenEach(NewestKeys(keys, max), now)
  {
  }

  lemma PutFresh(kept: seq<string>, key: string, now: int)
    requires key !in kept
    ensures Find(OpenEach(kept, now), key).None?
    ensures Put(OpenEach(kept, now), Entry(key, now + WINDOW_MS, 0)) == OpenEach(kept + [key], now)
  {
    assert Find(OpenEach(kept, now), key).None?;
  }

  lemma PruneEach(keys: seq<string>, now: int, max: nat)
    ensures Prune(OpenEach(keys, now), now, max) == OpenEach(NewestKeys(keys, max), now)
  {
    OpenKeepsAll(OpenEach(keys, now), now);
    NewestOfEach(keys, now, max);
  }

  lemma ConsumeFresh(kept: seq<string>, key: string, now: int, max: nat)
    requires key !in kept
    ensures Consume(OpenEach(kept, now), key, now, max) == (OpenEach(NewestKeys(kept + [key], max), now), Logged(0))
  {
    PutFresh(kept, key, now);
    PruneEach(kept + [key], now, max);
  }

  lemma AtOnceStep(calls: seq<Call>, kept: seq<string>, key: string, now: int, max: nat)
    requires calls != [] && calls[|calls| - 1] == Call(key, now) && key !in kept
    requires After(calls[..|calls| - 1], max) == OpenEach(kept, now)
    ensures After(calls, max) == OpenEach(NewestKeys(kept + [key], max), now)
  {
    ConsumeFresh(kept, key, now, max);
  }

  /** Of distinct keys called at one time, the newest `max` are in the table. */
  lemma {:induction false} CalledAtOnce(keys: seq<string>, now: int, max: nat)
    requires AllDistinct(keys)
    ensures After(CallEach(keys, now), max) == OpenEach(NewestKeys(keys, max), now)
  {
    if keys != [] {
      var n := |keys| - 1;
      CalledAtOnce(keys[..n], now, max);
      CallEachLast(keys, now);
      NewestLast(keys, max);
      AtOnceStep(CallEach(keys, now), NewestKeys(keys[..n], max), keys[n], now, max);
    }
  }

  lemma CallEachLast(keys: seq<string>, now: int)
    requires keys != []
    ensures CallEach(keys, now)[..|keys| - 1] == CallEach(keys[..|keys| - 1], now)
    ensures CallEach(keys, now)[|keys| - 1] == Call(keys[|keys| - 1], now)
  {
  }

  lemma NewestLast(keys: seq<string>, max: nat)
    requires keys != [] && AllDistinct(keys)
    ensures var n := |keys| - 1;
            && NewestKeys(NewestKeys(keys[..n], max) + [keys[n]], max) == NewestKeys(keys, max)
            && keys[n] !in NewestKeys(keys[..n], max) && AllDistinct(keys[..n])
  {
    var n := |keys| - 1;
    var from := n - |NewestKeys(keys[..n], max)|;
    assert NewestKeys(keys[..n], max) == keys[from..n];
    SliceSnoc(keys, from);
    assert keys[n] !in keys[from..n];
  }

  lemma SliceSnoc(keys: seq<string>, from: nat)
    requires from < |keys|
    ensures keys[from..|keys| - 1] + [keys[|keys| - 1]] == keys[from..]
    ensures keys[from..][1..] == keys[from + 1..]
  {
  }

  lemma AbsentIsLogged(calls: seq<Call>, i: nat, max: nat, key: string, table: Table)
    requires i < |calls| && calls[i].key == key && After(calls[..i], max) == table && Find(table, key).None?
    ensures LoggedAt(calls, i, max, key)
  {
  }

  /** Key a, then `max` other keys, then a again within its window: a is logged both times, for any bound. */
  lemma ManyKeysLogTwice(a: string, others: seq<string>, max: nat, later: int)
    requires AllDistinct([a] + others) && |others| == max && 0 <= later < WINDOW_MS
    ensures var calls := CallEach([a] + others, 0) + [Call(a, later)];
            && Monotone(calls) && LogsTwice(calls, max, a)
  {
    var keys := [a] + others;
    var calls := CallEach(keys, 0) + [Call(a, later)];
    OthersAreNewest(a, others, max);
    CalledAtOnce(keys, 0, max);
    PutFresh(others, a, 0);
    assert calls[..max + 1] == CallEach(keys, 0) && calls[..0] == [];
    AbsentIsLogged(calls, 0, max, a, []);
    AbsentIsLogged(calls, max + 1, max, a, OpenEach(others, 0));
  }

  lemma OthersAreNewest(a: string, others: seq<string>, max: nat)
    requires AllDistinct([a] + others) && |others| == max
    ensures NewestKeys([a] + others, max) == others && a !in others
  {
    var keys := [a] + others;
    assert keys[0] == a && keys[1..] == others;
    assert forall i :: 0 <= i < |others| ==> others[i] == keys[i + 1] != keys[0];
  }

  // ---------------------------------------------------------------- a single call

  /**
   A call is suppressed exactly while the window of its key is open, and then only adds one to its count. Otherwise it
   is logged with the count so far, and as long as there is room its key gets a new window of ten minutes, count zero,
   and the other entries stay.
   */
  lemma CallMeaning(table: Table, key: string, now: int, max: nat)
    requires DistinctKeys(table)
    ensures var (after, outcome) := Consume(table, key, now, max);
            && (outcome == Suppressed <==> exists i :: 0 <= i < |table| && table[i].key == key && table[i].nextLogAt > now)
            && (outcome == Suppressed ==>
                  && |after| == |table|
                  && forall i :: 0 <= i < |table| ==>
                       after[i] == Entry(table[i].key, table[i].nextLogAt,
                                         table[i].suppressed + if table[i].key == key then 1 else 0))
    ensures var (after, outcome) := Consume(table, key, now, max);
            outcome != Suppressed ==>
              && (forall i :: 0 <= i < |table| && table[i].key == key ==> outcome == Logged(table[i].suppressed))
              && ((forall i :: 0 <= i < |table| ==> table[i].key != key) ==> outcome == Logged(0))
              && (|table| < max ==>
                    && Entry(key, now + 600000, 0) in after
                    && (forall i :: 0 <= i < |table| && table[i].key != key ==> table[i] in after)
                    && forall e :: e in after ==> e == Entry(key, now + 600000, 0) || (e in table && e.key != key))
  {
    var found := Find(table, key);
    if found.Some? {
      assert table[found.value].key == key;
      UpdateMembers(table, found.value, Entry(key, now + WINDOW_MS, 0));
    }
  }

  lemma UpdateMembers(table: Table, i: nat, entry: Entry)
    requires DistinctKeys(table) && i < |table| && table[i].key == entry.key
    ensures entry in table[i := entry]
    ensures forall j :: 0 <= j < |table| && table[j].key != entry.key ==> table[j] in table[i := entry]
    ensures forall e :: e in table[i := entry] ==> e == entry || (e in table && e.key != entry.key)
  {
    var after := table[i := entry];
    assert after[i] == entry;
    forall j | 0 <= j < |table| && table[j].key != entry.key
      ensures table[j] in after
    {
      assert after[j] == table[j];
    }
    forall e | e in after
      ensures e == entry || (e in table && e.key != entry.key)
    {
      var j :| 0 <= j < |after| && after[j] == e;
      assert j != i ==> e == table[j];
    }
  }

  /** Pruning leaves a table that fits alone. In one that does not, expired entries go, and open ones only for room. */
  lemma PruneMeaning(table: Table, now: int, max: nat)
    ensures |table| <= max ==> Prune(table, now, max) == table
    ensures |Prune(table, now, max)| <= max
    ensures |table| > max ==> forall e :: e in Prune(table, now, max) ==> e in table && e.nextLogAt > now
    ensures |table| > max && (exists e :: e in table && e.nextLogAt > now && e !in Prune(table, now, max)) ==>
              |Prune(table, now, max)| == max
  {
    OpenMembers(table, now);
    var open := Open(table, now);
    assert forall e :: Holds(open, e) <==> e in open;
    assert forall e :: Holds(table, e) <==> e in table;
  }
}
