/**
 The backfill of request events and contents from the old request table, page by page.

 Ids are numbers here, standing for their rank in the database's order of id strings.
 */
module HistoryBackfill {
  import opened Common

  type Id = nat

  datatype Usage = Usage(
    workspaceId: Option<string>, installationId: Option<string>, provider: string, model: string, keySource: string,
    status: string, errorCode: Option<string>, promptTokens: int, completionTokens: int, totalTokens: int,
    estimatedCostUsd: Option<real>, durationMs: Option<int>, occurredAt: int)

  datatype Request = Request(
    id: Id, userId: string, requestType: Option<string>, usage: Usage, expiresAt: Option<int>,
    fileMetadata: Option<string>)

  datatype Event = Event(userId: string, requestType: string, modelDisplayName: Option<string>, usage: Usage)

  datatype Content = Content(
    promptBlobKey: Option<string>, responseBlobKey: Option<string>, fileBlobKey: Option<string>,
    fileMetadata: Option<string>, expiresAt: int, deletedAt: Option<int>)

  datatype BlobKind = Prompt | Response | File

  /** The blob found on disk for a request, new layout first. */
  type BlobLookup = (Id, BlobKind) -> Option<string>

  const WEEK_MS := 7 * 24 * 60 * 60 * 1000

  function UpsertedEvent(stored: Option<Event>, row: Request): Event {
    match stored
    case None => Event(row.userId, row.requestType.UnwrapOr("text"), None, row.usage)
    case Some(e) => Event(e.userId, row.requestType.UnwrapOr("text"), e.modelDisplayName, row.usage)
  }

  /** On update an undefined blob key leaves the column as it is. */
  function Kept(found: Option<string>, stored: Option<string>): Option<string> {
    if found.Some? then found else stored
  }

  function UpsertedContent(stored: Option<Content>, row: Request, blobs: BlobLookup): Content {
    var prompt, response, file := blobs(row.id, Prompt), blobs(row.id, Response), blobs(row.id, File);
    var expiresAt := row.expiresAt.UnwrapOr(row.usage.occurredAt + WEEK_MS);
    match stored
    case None => Content(prompt, response, file, row.fileMetadata, expiresAt, None)
    case Some(c) => Content(Kept(prompt, c.promptBlobKey), Kept(response, c.responseBlobKey), Kept(file, c.fileBlobKey),
                            row.fileMetadata, expiresAt, c.deletedAt)
  }

  datatype Tables = Tables(events: map<Id, Event>, contents: map<Id, Content>)

  function Upsert(tables: Tables, row: Request, blobs: BlobLookup): Tables {
    Tables(tables.events[row.id := UpsertedEvent(Lookup(tables.events, row.id), row)],
           tables.contents[row.id := UpsertedContent(Lookup(tables.contents, row.id), row, blobs)])
  }

  function UpsertAll(tables: Tables, rows: seq<Request>, blobs: BlobLookup): Tables {
    if rows == [] then tables
    else Upsert(UpsertAll(tables, rows[..|rows| - 1], blobs), rows[|rows| - 1], blobs)
  }

  ghost predicate Ascending(rows: seq<Request>) {
    forall i, j :: 0 <= i < j < |rows| ==> rows[i].id < rows[j].id
  }

  /** Where a page starts: after the row with the cursor's id; past the end when there is none. */
  function StartOf(rows: seq<Request>, cursor: Option<Id>): (start: nat)
    ensures start <= |rows|
  {
    if cursor.None? then 0
    else if rows == [] then 0
    else if rows[0].id == cursor.value then 1
    else 1 + StartOf(rows[1..], cursor)
  }

  lemma {:induction false} StartAfter(rows: seq<Request>, k: nat)
    requires Ascending(rows) && k < |rows|
    ensures StartOf(rows, Some(rows[k].id)) == k + 1
  {
    if k > 0 {
      assert rows[0].id != rows[k].id;
      StartAfter(rows[1..], k - 1);
    }
  }

  /** The cursor once `processed` rows have been visited. */
  function CursorAt(rows: seq<Request>, processed: nat): Option<Id>
    requires processed <= |rows|
  {
    if processed == 0 then None else Some(rows[processed - 1].id)
  }

  function TakeFrom(rows: seq<Request>, start: nat, take: nat): (page: seq<Request>)
    requires start <= |rows|
    ensures start + |page| <= |rows|
    ensures rows[..start] + page == rows[..start + |page|]
    ensures page == [] <==> take == 0 || start == |rows|
    ensures page != [] ==> page[|page| - 1] == rows[start + |page| - 1]
  {
    if |rows| - start <= take then rows[start..] else rows[start..start + take]
  }

  /** The rows in id order from the cursor on, at most `take` of them. */
  function Page(rows: seq<Request>, cursor: Option<Id>, take: nat): seq<Request> {
    TakeFrom(rows, StartOf(rows, cursor), take)
  }

  lemma PageAt(rows: seq<Request>, processed: nat, take: nat)
    requires Ascending(rows) && processed <= |rows|
    ensures var page := Page(rows, CursorAt(rows, processed), take);
            && processed + |page| <= |rows| && rows[..processed] + page == rows[..processed + |page|]
            && (page == [] <==> take == 0 || processed == |rows|)
            && (page != [] ==> CursorAt(rows, processed + |page|) == Some(page[|page| - 1].id))
  {
    PageStart(rows, processed, take);
    TakenCursor(rows, processed, take);
  }

  lemma PageStart(rows: seq<Request>, processed: nat, take: nat)
    requires Ascending(rows) && processed <= |rows|
    ensures Page(rows, CursorAt(rows, processed), take) == TakeFrom(rows, processed, take)
  {
    if processed > 0 {
      StartAfter(rows, processed - 1);
    }
  }

  lemma TakenCursor(rows: seq<Request>, start: nat, take: nat)
    requires start <= |rows|
    ensures var page := TakeFrom(rows, start, take);
            page != [] ==> CursorAt(rows, start + |page|) == Some(page[|page| - 1].id)
  {
  }

  lemma {:induction false} UpsertAllAppends(tables: Tables, a: seq<Request>, b: seq<Request>, blobs: BlobLookup)
    ensures UpsertAll(tables, a + b, blobs) == UpsertAll(UpsertAll(tables, a, blobs), b, blobs)
  {
    if b == [] {
      assert a + b == a;
    } else {
      UpsertAllAppends(tables, a, b[..|b| - 1], blobs);
      assert (a + b)[..|a + b| - 1] == a + b[..|b| - 1];
    }
  }

  class Backfill {
    const requests: seq<Request>
    var tables: Tables
    const batchSize: nat

    constructor (requests: seq<Request>, tables: Tables, batchSize: nat)
      ensures this.requests == requests && this.tables == tables && this.batchSize == batchSize
    {
      this.requests, this.tables, this.batchSize := requests, tables, batchSize;
    }

    /** The rows of one page, one after the other. */
    method UpsertPage(rows: seq<Request>, blobs: BlobLookup)
      modifies this`tables
      ensures tables == UpsertAll(old(tables), rows, blobs)
    {
      var index := 0;
      while index < |rows|
        invariant 0 <= index <= |rows|
        invariant tables == UpsertAll(old(tables), rows[..index], blobs)
      {
        tables := Upsert(tables, rows[index], blobs);
        assert rows[..index + 1][..index] == rows[..index];
        index := index + 1;
      }
      assert rows[..index] == rows;
    }

    /**
     Visits every request once, in id order, and terminates. `visited` is the trace of the visits.
     A batch size of zero visits nothing.
     */
    method BackfillEventsAndContent(blobs: BlobLookup) returns (processed: nat, ghost visited: seq<Request>)
      requires Ascending(requests)
      modifies this`tables
      ensures visited == if batchSize == 0 then [] else requests
      ensures processed == |visited|
      ensures tables == UpsertAll(old(tables), visited, blobs)
    {
      var cursorId: Option<Id> := None;
      processed, visited := 0, [];
      while true
        invariant processed <= |requests| && visited == requests[..processed]
        invariant batchSize == 0 ==> processed == 0
        invariant cursorId == CursorAt(requests, processed)
        invariant tables == UpsertAll(old(tables), visited, blobs)
        decreases |requests| - processed
      {
        var rows := Page(requests, cursorId, batchSize);
        PageAt(requests, processed, batchSize);
        if |rows| == 0 {
          break;
        }
        UpsertAllAppends(old(tables), visited, rows, blobs);
        UpsertPage(rows, blobs);
        visited := visited + rows;
        processed := processed + |rows|;
        cursorId := Some(rows[|rows| - 1].id);
      }
    }
  }

  // ---------------------------------------------------------------- what the backfilled tables hold

  /** Row by row: the user and the flags set since are kept, the rest follows the request; other ids are untouched. */
  lemma {:induction false} UpsertAllRow(tables: Tables, rows: seq<Request>, blobs: BlobLookup, id: Id)
    requires Ascending(rows)
    ensures var after := UpsertAll(tables, rows, blobs);
            && (forall k :: 0 <= k < |rows| && rows[k].id == id ==>
                  && Lookup(after.events, id) == Some(UpsertedEvent(Lookup(tables.events, id), rows[k]))
                  && Lookup(after.contents, id) == Some(UpsertedContent(Lookup(tables.contents, id), rows[k], blobs)))
            && ((forall k :: 0 <= k < |rows| ==> rows[k].id != id) ==>
                  && Lookup(after.events, id) == Lookup(tables.events, id)
                  && Lookup(after.contents, id) == Lookup(tables.contents, id))
  {
    if rows != [] {
      var n := |rows| - 1;
      UpsertAllRow(tables, rows[..n], blobs, id);
      if rows[n].id == id {
        assert forall k :: 0 <= k < n ==> rows[..n][k].id != id;
      } else {
        assert forall k :: 0 <= k < n ==> rows[..n][k] == rows[k];
      }
    }
  }

  /** The event of a backfilled request, field by field. */
  lemma BackfilledEvent(tables: Tables, rows: seq<Request>, blobs: BlobLookup, k: nat)
    requires Ascending(rows) && k < |rows|
    ensures var (row, after) := (rows[k], UpsertAll(tables, rows, blobs));
            && row.id in after.events
            && var e := after.events[row.id];
               && e.usage == row.usage
               && e.requestType == (if row.requestType.Some? then row.requestType.value else "text")
               && (if row.id in tables.events
                   then e.userId == tables.events[row.id].userId && e.modelDisplayName == tables.events[row.id].modelDisplayName
                   else e.userId == row.userId && e.modelDisplayName == None)
  {
    UpsertAllRow(tables, rows, blobs, rows[k].id);
  }

  /**
   Its content, field by field: each blob that was found is recorded as what it is, one that was not found stays as it
   was; the expiry is the request's, or seven days after the request.
   */
  lemma BackfilledContent(tables: Tables, rows: seq<Request>, blobs: BlobLookup, k: nat)
    requires Ascending(rows) && k < |rows|
    ensures var (row, after) := (rows[k], UpsertAll(tables, rows, blobs));
            && row.id in after.contents
            && var c := after.contents[row.id];
               var before := if row.id in tables.contents then Some(tables.contents[row.id]) else None;
               && (blobs(row.id, Prompt).Some? ==> c.promptBlobKey == blobs(row.id, Prompt))
               && (blobs(row.id, Response).Some? ==> c.responseBlobKey == blobs(row.id, Response))
               && (blobs(row.id, File).Some? ==> c.fileBlobKey == blobs(row.id, File))
               && (blobs(row.id, Prompt).None? ==>
                     c.promptBlobKey == if before.Some? then before.value.promptBlobKey else None)
               && (blobs(row.id, Response).None? ==>
                     c.responseBlobKey == if before.Some? then before.value.responseBlobKey else None)
               && (blobs(row.id, File).None? ==>
                     c.fileBlobKey == if before.Some? then before.value.fileBlobKey else None)
               && c.fileMetadata == row.fileMetadata
               && c.expiresAt == (if row.expiresAt.Some? then row.expiresAt.value else row.usage.occurredAt + 604800000)
               && c.deletedAt == (if before.Some? then before.value.deletedAt else None)
  {
    UpsertAllRow(tables, rows, blobs, rows[k].id);
  }

  lemma BackfillTwiceRow(tables: Tables, rows: seq<Request>, blobs: BlobLookup, id: Id)
    requires Ascending(rows)
    ensures var once := UpsertAll(tables, rows, blobs);
            var twice := UpsertAll(once, rows, blobs);
            Lookup(twice.events, id) == Lookup(once.events, id) && Lookup(twice.contents, id) == Lookup(once.contents, id)
  {
    var once := UpsertAll(tables, rows, blobs);
    UpsertAllRow(tables, rows, blobs, id);
    UpsertAllRow(once, rows, blobs, id);
    if k :| 0 <= k < |rows| && rows[k].id == id {
      UpsertSettles(Lookup(tables.events, id), Lookup(tables.contents, id), rows[k], blobs);
    }
  }

  lemma UpsertSettles(event: Option<Event>, content: Option<Content>, row: Request, blobs: BlobLookup)
    ensures var e := UpsertedEvent(event, row);
            UpsertedEvent(Some(e), row) == e
    ensures var c := UpsertedContent(content, row, blobs);
            UpsertedContent(Some(c), row, blobs) == c
  {
  }

  /** Running the backfill again over the same requests and blobs changes nothing. */
  lemma BackfillTwice(tables: Tables, rows: seq<Request>, blobs: BlobLookup)
    requires Ascending(rows)
    ensures var once := UpsertAll(tables, rows, blobs);
            UpsertAll(once, rows, blobs) == once
  {
    var once := UpsertAll(tables, rows, blobs);
    var twice := UpsertAll(once, rows, blobs);
    forall id: Id
      ensures Lookup(twice.events, id) == Lookup(once.events, id)
      ensures Lookup(twice.contents, id) == Lookup(once.contents, id)
    {
      BackfillTwiceRow(tables, rows, blobs, id);
    }
    SameLookups(once.events, twice.events);
    SameLookups(once.contents, twice.contents);
  }

  lemma SameLookups<V>(a: map<Id, V>, b: map<Id, V>)
    requires forall id: Id :: Lookup(a, id) == Lookup(b, id)
    ensures a == b
  {
    forall id: Id
      ensures id in a <==> id in b
      ensures id in a ==> a[id] == b[id]
    {
      assert Lookup(a, id) == Lookup(b, id);
    }
  }
}
