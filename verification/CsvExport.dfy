/**
 The CSV exports of the platform, and a reader for them.

 The reader follows section 2 of RFC 4180, with a line feed as the record separator and a carriage
 return as ordinary text. It is total and rejects what the grammar does not allow.
 */
module CsvExport {
  import opened Common
  import Text

  type Record = seq<string>

  // ---------------------------------------------------------------- printing

  /** `value.replaceAll('"', '""')` */
  function DoubleQuotes(value: string): string {
    if value == "" then ""
    else (if value[0] == '"' then "\"\"" else [value[0]]) + DoubleQuotes(value[1..])
  }

  predicate NeedsQuotes(c: char) {
    c == '"' || c == ',' || c == '\n'
  }

  function EscapeCsv(value: string): string {
    var normalized := DoubleQuotes(value);
    if exists i :: 0 <= i < |normalized| && NeedsQuotes(normalized[i])
    then "\"" + normalized + "\"" else normalized
  }

  function EscapeAll(record: Record): seq<string> {
    if record == [] then [] else [EscapeCsv(record[0])] + EscapeAll(record[1..])
  }

  function PrintRecord(record: Record): string {
    Text.Join(EscapeAll(record), ",")
  }

  function PrintRecords(records: seq<Record>): seq<string> {
    if records == [] then [] else [PrintRecord(records[0])] + PrintRecords(records[1..])
  }

  /** `[header, ...rows].join('\n')`: the header is a fixed line, printed as it is. */
  function Serialize(header: string, rows: seq<Record>): string {
    Text.Join([header] + PrintRecords(rows), "\n")
  }

  // ---------------------------------------------------------------- reading

  /** Where the reader is: before a field, inside a bare or a quoted one, or after a quote inside a quoted one. */
  datatype Mode = Start | Bare | Quoted | Quote

  function Prepend(record: Record, records: Option<seq<Record>>): Option<seq<Record>> {
    match records
    case Some(rest) => Some([record] + rest)
    case None => None
  }

  function Read(s: string, mode: Mode, field: string, record: Record): Option<seq<Record>>
    decreases |s|
  {
    if s == "" then
      if mode.Quoted? then None else Some([record + [field]])
    else if mode.Quoted? then
      if s[0] == '"' then Read(s[1..], Quote, field, record)
      else Read(s[1..], Quoted, field + [s[0]], record)
    else if s[0] == ',' then Read(s[1..], Start, "", record + [field])
    else if s[0] == '\n' then Prepend(record + [field], Read(s[1..], Start, "", []))
    else if s[0] == '"' then
      match mode
      case Start => Read(s[1..], Quoted, "", record)
      case Quote => Read(s[1..], Quoted, field + "\"", record)
      case _ => None
    else if mode.Quote? then None
    else Read(s[1..], Bare, field + [s[0]], record)
  }

  function ReadCsv(s: string): Option<seq<Record>> {
    Read(s, Start, "", [])
  }

  // ---------------------------------------------------------------- the reader undoes the printer

  /** What follows a printed field. */
  predicate EndsField(t: string) {
    t == "" || t[0] == ',' || t[0] == '\n'
  }

  /** The reader's outcome when field `v` has ended and `t` follows. */
  function AfterField(t: string, v: string, record: Record): Option<seq<Record>>
    requires EndsField(t)
  {
    if t == "" then Some([record + [v]])
    else if t[0] == ',' then Read(t[1..], Start, "", record + [v])
    else Prepend(record + [v], Read(t[1..], Start, "", []))
  }

  predicate Plain(v: string) {
    forall i :: 0 <= i < |v| ==> !NeedsQuotes(v[i])
  }

  lemma {:induction false} ReadBare(v: string, t: string, mode: Mode, field: string, record: Record)
    requires Plain(v) && EndsField(t) && (mode.Start? || mode.Bare?)
    ensures Read(v + t, mode, field, record) == AfterField(t, field + v, record)
    decreases |v|
  {
    if v == "" {
      assert v + t == t && field + v == field;
    } else {
      assert (v + t)[1..] == v[1..] + t && (v + t)[0] == v[0];
      ReadBare(v[1..], t, Bare, field + [v[0]], record);
      assert field + [v[0]] + v[1..] == field + v;
    }
  }

  lemma {:induction false} ReadQuoted(v: string, t: string, field: string, record: Record)
    requires EndsField(t)
    ensures Read(DoubleQuotes(v) + "\"" + t, Quoted, field, record) == AfterField(t, field + v, record)
    decreases |v|
  {
    var s := DoubleQuotes(v) + "\"" + t;
    if v == "" {
      assert s[1..] == t && field + v == field;
    } else {
      var rest := DoubleQuotes(v[1..]) + "\"" + t;
      ReadQuoted(v[1..], t, field + [v[0]], record);
      assert field + [v[0]] + v[1..] == field + v;
      if v[0] == '"' {
        assert s == "\"\"" + rest;
        assert s[1..] == "\"" + rest && s[1..][1..] == rest;
        assert field + "\"" == field + [v[0]];
      } else {
        assert s == [v[0]] + rest;
        assert s[1..] == rest;
      }
    }
  }

  lemma DoubleQuotesPlain(v: string)
    ensures Plain(v) ==> DoubleQuotes(v) == v
    ensures Plain(DoubleQuotes(v)) ==> Plain(v)
  {
    if v != "" {
      DoubleQuotesPlain(v[1..]);
      var d := DoubleQuotes(v);
      if Plain(d) {
        assert !NeedsQuotes(d[0]);
        assert d[1..] == DoubleQuotes(v[1..]);
        assert forall i :: 0 <= i < |d| - 1 ==> d[1..][i] == d[i + 1];
      }
      if Plain(v) {
        assert forall i :: 0 <= i < |v| - 1 ==> v[1..][i] == v[i + 1];
      }
    }
  }

  /** Plain values are printed as they are, all others between quotes. */
  lemma EscapeCases(v: string)
    ensures EscapeCsv(v) == if Plain(v) then v else "\"" + DoubleQuotes(v) + "\""
  {
    DoubleQuotesPlain(v);
  }

  /** A field goes between quotes exactly when it holds a quote, a comma or a line feed, and else stays as it is. */
  lemma EscapeMeaning(v: string)
    ensures EscapeCsv(v) == v <==> '"' !in v && ',' !in v && '\n' !in v
    ensures EscapeCsv(v) != v ==> |EscapeCsv(v)| >= |v| + 2 && EscapeCsv(v)[0] == EscapeCsv(v)[|EscapeCsv(v)| - 1] == '"'
  {
    EscapeCases(v);
    DoublingGrows(v);
  }

  lemma DoublingGrows(v: string)
    ensures |DoubleQuotes(v)| >= |v|
  {
  }

  lemma OpenQuote(s: string, record: Record)
    ensures Read("\"" + s, Start, "", record) == Read(s, Quoted, "", record)
  {
    assert ("\"" + s)[1..] == s;
  }

  lemma ReadQuotedField(v: string, t: string, record: Record)
    requires EndsField(t)
    ensures Read("\"" + DoubleQuotes(v) + "\"" + t, Start, "", record) == AfterField(t, v, record)
  {
    var inner := DoubleQuotes(v) + "\"" + t;
    assert "\"" + DoubleQuotes(v) + "\"" + t == "\"" + inner;
    OpenQuote(inner, record);
    ReadQuoted(v, t, "", record);
    assert "" + v == v;
  }

  lemma ReadField(v: string, t: string, record: Record)
    requires EndsField(t)
    ensures Read(EscapeCsv(v) + t, Start, "", record) == AfterField(t, v, record)
  {
    EscapeCases(v);
    if Plain(v) {
      assert "" + v == v;
      ReadBare(v, t, Start, "", record);
    } else {
      ReadQuotedField(v, t, record);
    }
  }

  /** A record without fields prints like one with a single empty field. */
  function Canonical(record: Record): Record {
    if record == [] then [""] else record
  }

  predicate EndsRecord(t: string) {
    t == "" || t[0] == '\n'
  }

  function AfterRecord(t: string, record: Record): Option<seq<Record>>
    requires EndsRecord(t)
  {
    if t == "" then Some([record]) else Prepend(record, Read(t[1..], Start, "", []))
  }

  lemma PrintCons(fields: Record)
    requires |fields| >= 2
    ensures PrintRecord(fields) == EscapeCsv(fields[0]) + [','] + PrintRecord(fields[1..])
  {
    assert EscapeAll(fields) == [EscapeCsv(fields[0])] + EscapeAll(fields[1..]);
    assert EscapeAll(fields[1..]) == [EscapeCsv(fields[1])] + EscapeAll(fields[1..][1..]);
  }

  lemma PrintOne(field: string)
    ensures PrintRecord([field]) == EscapeCsv(field)
  {
    assert [field][1..] == [];
    assert EscapeAll([field]) == [EscapeCsv(field)];
  }

  lemma AfterComma(s: string, v: string, record: Record)
    ensures AfterField([','] + s, v, record) == Read(s, Start, "", record + [v])
  {
    assert ([','] + s)[1..] == s;
  }

  lemma ReadFieldComma(v: string, s: string, record: Record)
    ensures Read(EscapeCsv(v) + ([','] + s), Start, "", record) == Read(s, Start, "", record + [v])
  {
    ReadField(v, [','] + s, record);
    AfterComma(s, v, record);
  }

  lemma ReadLastField(v: string, t: string, record: Record)
    requires EndsRecord(t)
    ensures Read(EscapeCsv(v) + t, Start, "", record) == AfterRecord(t, record + [v])
  {
    ReadField(v, t, record);
  }

  lemma Glue(a: string, sep: char, b: string, t: string)
    ensures a + [sep] + b + t == a + ([sep] + (b + t))
  {
  }

  lemma ReadRecordCons(first: string, rest: Record, t: string, before: Record)
    requires EndsRecord(t) && rest != []
    requires Read(PrintRecord(rest) + t, Start, "", before + [first]) == AfterRecord(t, before + [first] + rest)
    ensures Read(EscapeCsv(first) + [','] + PrintRecord(rest) + t, Start, "", before)
         == AfterRecord(t, before + ([first] + rest))
  {
    var tail := PrintRecord(rest) + t;
    Glue(EscapeCsv(first), ',', PrintRecord(rest), t);
    ReadFieldComma(first, tail, before);
    assert before + [first] + rest == before + ([first] + rest);
  }

  lemma {:induction false} ReadRecord(fields: Record, t: string, before: Record)
    requires EndsRecord(t)
    ensures Read(PrintRecord(fields) + t, Start, "", before) == AfterRecord(t, before + Canonical(fields))
    decreases |fields|
  {
    if fields == [] {
      assert PrintRecord(fields) + t == t;
    } else if |fields| == 1 {
      assert fields == [fields[0]];
      PrintOne(fields[0]);
      ReadLastField(fields[0], t, before);
    } else {
      ReadRecord(fields[1..], t, before + [fields[0]]);
      PrintCons(fields);
      ReadRecordCons(fields[0], fields[1..], t, before);
      assert [fields[0]] + fields[1..] == fields;
    }
  }

  function CanonicalAll(records: seq<Record>): (r: seq<Record>)
    ensures |r| == |records|
    ensures forall i :: 0 <= i < |r| ==> r[i] == Canonical(records[i])
  {
    seq(|records|, i requires 0 <= i < |records| => Canonical(records[i]))
  }

  /** The printed text of records, without a header line. */
  function PrintAll(records: seq<Record>): string {
    Text.Join(PrintRecords(records), "\n")
  }

  lemma PrintAllCons(records: seq<Record>)
    requires |records| >= 2
    ensures PrintAll(records) == PrintRecord(records[0]) + ['\n'] + PrintAll(records[1..])
  {
    assert PrintRecords(records) == [PrintRecord(records[0])] + PrintRecords(records[1..]);
    assert PrintRecords(records[1..]) == [PrintRecord(records[1])] + PrintRecords(records[1..][1..]);
  }

  lemma PrintAllOne(record: Record)
    ensures PrintAll([record]) == PrintRecord(record)
  {
    assert [record][1..] == [];
    assert PrintRecords([record]) == [PrintRecord(record)];
  }

  lemma ReadRecordLine(record: Record, rest: string)
    ensures ReadCsv(PrintRecord(record) + (['\n'] + rest)) == Prepend(Canonical(record), ReadCsv(rest))
  {
    ReadRecord(record, ['\n'] + rest, []);
    assert (['\n'] + rest)[1..] == rest;
    assert [] + Canonical(record) == Canonical(record);
  }

  lemma ReadLastRecord(record: Record)
    ensures ReadCsv(PrintRecord(record)) == Some([Canonical(record)])
  {
    ReadRecord(record, "", []);
    assert PrintRecord(record) + "" == PrintRecord(record);
    assert [] + Canonical(record) == Canonical(record);
  }

  lemma {:induction false} ReadRecords(records: seq<Record>)
    requires records != []
    ensures ReadCsv(PrintAll(records)) == Some(CanonicalAll(records))
    decreases |records|
  {
    if |records| == 1 {
      assert records == [records[0]];
      PrintAllOne(records[0]);
      ReadLastRecord(records[0]);
      assert CanonicalAll(records) == [Canonical(records[0])];
    } else {
      PrintAllCons(records);
      NothingAfter(PrintRecord(records[0]), '\n', PrintAll(records[1..]));
      ReadRecordLine(records[0], PrintAll(records[1..]));
      ReadRecords(records[1..]);
      CanonicalCons(records);
    }
  }

  lemma CanonicalCons(records: seq<Record>)
    requires records != []
    ensures CanonicalAll(records) == [Canonical(records[0])] + CanonicalAll(records[1..])
  {
  }

  lemma NothingAfter(a: string, sep: char, b: string)
    ensures a + [sep] + b == a + ([sep] + b)
  {
  }

  lemma ReadNothing(s: string)
    requires s == ""
    ensures ReadCsv(s) == Some([[""]])
  {
    var none: Record := [];
    assert none + [s] == [""];
  }

  /** Reading gives back the records exactly when there is one and each has a field, whatever the fields contain. */
  lemma ReadUndoesPrint(records: seq<Record>)
    ensures ReadCsv(PrintAll(records)) == Some(records)
       <==> records != [] && forall i :: 0 <= i < |records| ==> records[i] != []
  {
    if records == [] {
      ReadNothing("");
    } else {
      ReadRecords(records);
      if forall i :: 0 <= i < |records| ==> records[i] != [] {
        assert CanonicalAll(records) == records;
      } else {
        var i :| 0 <= i < |records| && records[i] == [];
        assert CanonicalAll(records)[i] != records[i];
      }
    }
  }

  /** An export with a header of plain column names reads back as the names and all the rows. */
  lemma ExportReadsBack(names: Record, rows: seq<Record>)
    requires names != [] && forall i :: 0 <= i < |names| ==> Plain(names[i])
    requires forall i :: 0 <= i < |rows| ==> rows[i] != []
    ensures ReadCsv(Serialize(Text.Join(names, ","), rows)) == Some([names] + rows)
  {
    PlainRecord(names);
    assert PrintRecords([names] + rows) == [PrintRecord(names)] + PrintRecords(rows) by {
      assert ([names] + rows)[1..] == rows;
    }
    ReadUndoesPrint([names] + rows);
  }

  lemma PlainRecord(names: Record)
    requires forall i :: 0 <= i < |names| ==> Plain(names[i])
    ensures EscapeAll(names) == names
  {
    if names != [] {
      DoubleQuotesPlain(names[0]);
      assert EscapeCsv(names[0]) == names[0];
      PlainRecord(names[1..]);
    }
  }

  // ---------------------------------------------------------------- the exports

  datatype AdminLogEntry = AdminLogEntry(
    stream: string, category: Option<string>, source: Option<string>, eventType: string, summary: string,
    occurredAt: string, severity: Option<string>, status: Option<string>,
    actorId: Option<string>, actorEmail: Option<string>, actorDisplayName: Option<string>,
    targetType: Option<string>, targetId: Option<string>, installationId: Option<string>,
    provider: Option<string>, model: Option<string>, durationMs: Option<string>, costUsd: Option<string>,
    promptTokens: Option<string>, completionTokens: Option<string>, totalTokens: Option<string>,
    errorSummary: Option<string>, metadata: Option<string>)

  const ADMIN_LOG_EVENT_COLUMNS: Record := [
    "stream", "category", "source", "eventType", "summary", "occurredAt", "severity", "status"]
  const ADMIN_LOG_PARTY_COLUMNS: Record := [
    "actorId", "actorEmail", "actorDisplayName", "targetType", "targetId", "installationId"]
  const ADMIN_LOG_REQUEST_COLUMNS: Record := [
    "provider", "model", "durationMs", "costUsd", "promptTokens", "completionTokens", "totalTokens",
    "errorSummary", "metadata"]
  const ADMIN_LOG_COLUMNS: Record :=
    ADMIN_LOG_EVENT_COLUMNS + ADMIN_LOG_PARTY_COLUMNS + ADMIN_LOG_REQUEST_COLUMNS

  /** Numbers and metadata come as already printed. */
  function AdminLogRow(e: AdminLogEntry): Record {
    [e.stream, e.category.UnwrapOr(""), e.source.UnwrapOr(""), e.eventType, e.summary, e.occurredAt,
     e.severity.UnwrapOr(""), e.status.UnwrapOr(""), e.actorId.UnwrapOr(""), e.actorEmail.UnwrapOr(""),
     e.actorDisplayName.UnwrapOr(""), e.targetType.UnwrapOr(""), e.targetId.UnwrapOr(""),
     e.installationId.UnwrapOr(""), e.provider.UnwrapOr(""), e.model.UnwrapOr(""), e.durationMs.UnwrapOr(""),
     e.costUsd.UnwrapOr(""), e.promptTokens.UnwrapOr(""), e.completionTokens.UnwrapOr(""),
     e.totalTokens.UnwrapOr(""), e.errorSummary.UnwrapOr(""), e.metadata.UnwrapOr("")]
  }

  function SerializeAdminLogsCsv(items: seq<AdminLogEntry>): string {
    Serialize(Text.Join(ADMIN_LOG_COLUMNS, ","), seq(|items|, i requires 0 <= i < |items| => AdminLogRow(items[i])))
  }

  lemma AdminLogsReadBack(items: seq<AdminLogEntry>)
    ensures var read := ReadCsv(SerializeAdminLogsCsv(items));
            && read.Some? && |read.value| == |items| + 1
            && read.value[0] == ADMIN_LOG_COLUMNS
            && (forall i :: 0 <= i < |items| ==> read.value[i + 1] == AdminLogRow(items[i]))
            && (forall i :: 0 <= i <= |items| ==> |read.value[i]| == |ADMIN_LOG_COLUMNS|)
  {
    EventColumnsPlain();
    PartyColumnsPlain();
    RequestColumnsPlain();
    ExportReadsBack(ADMIN_LOG_COLUMNS, seq(|items|, i requires 0 <= i < |items| => AdminLogRow(items[i])));
  }

  /** Cell `k` of record `i` stands under the column `name` and holds the text. */
  predicate Shows(read: seq<Record>, i: nat, k: nat, name: string, text: string) {
    i + 1 < |read| && k < |read[0]| && k < |read[i + 1]| && read[0][k] == name && read[i + 1][k] == text
  }

  /** The same for a text that may be missing, which leaves the cell empty. */
  predicate ShowsOption(read: seq<Record>, i: nat, k: nat, name: string, text: Option<string>) {
    Shows(read, i, k, name, if text.Some? then text.value else "")
  }

  /** Each column of the admin log export holds the field it is named after. */
  lemma AdminLogEventCells(items: seq<AdminLogEntry>, i: nat)
    requires i < |items|
    ensures var (read, e) := (ReadCsv(SerializeAdminLogsCsv(items)).UnwrapOr([]), items[i]);
            && Shows(read, i, 0, "stream", e.stream)
            && ShowsOption(read, i, 1, "category", e.category)
            && ShowsOption(read, i, 2, "source", e.source)
            && Shows(read, i, 3, "eventType", e.eventType)
            && Shows(read, i, 4, "summary", e.summary)
            && Shows(read, i, 5, "occurredAt", e.occurredAt)
            && ShowsOption(read, i, 6, "severity", e.severity)
            && ShowsOption(read, i, 7, "status", e.status)
  {
    AdminLogsReadBack(items);
  }

  lemma AdminLogPartyCells(items: seq<AdminLogEntry>, i: nat)
    requires i < |items|
    ensures var (read, e) := (ReadCsv(SerializeAdminLogsCsv(items)).UnwrapOr([]), items[i]);
            && ShowsOption(read, i, 8, "actorId", e.actorId)
            && ShowsOption(read, i, 9, "actorEmail", e.actorEmail)
            && ShowsOption(read, i, 10, "actorDisplayName", e.actorDisplayName)
            && ShowsOption(read, i, 11, "targetType", e.targetType)
            && ShowsOption(read, i, 12, "targetId", e.targetId)
            && ShowsOption(read, i, 13, "installationId", e.installationId)
  {
    AdminLogsReadBack(items);
  }

  lemma AdminLogRequestCells(items: seq<AdminLogEntry>, i: nat)
    requires i < |items|
    ensures var (read, e) := (ReadCsv(SerializeAdminLogsCsv(items)).UnwrapOr([]), items[i]);
            && ShowsOption(read, i, 14, "provider", e.provider)
            && ShowsOption(read, i, 15, "model", e.model)
            && ShowsOption(read, i, 16, "durationMs", e.durationMs)
            && ShowsOption(read, i, 17, "costUsd", e.costUsd)
            && ShowsOption(read, i, 18, "promptTokens", e.promptTokens)
            && ShowsOption(read, i, 19, "completionTokens", e.completionTokens)
            && ShowsOption(read, i, 20, "totalTokens", e.totalTokens)
            && ShowsOption(read, i, 21, "errorSummary", e.errorSummary)
            && ShowsOption(read, i, 22, "metadata", e.metadata)
  {
    AdminLogsReadBack(items);
  }

  lemma EventColumnsPlain()
    ensures forall i :: 0 <= i < |ADMIN_LOG_EVENT_COLUMNS| ==> Plain(ADMIN_LOG_EVENT_COLUMNS[i])
  {
  }

  lemma PartyColumnsPlain()
    ensures forall i :: 0 <= i < |ADMIN_LOG_PARTY_COLUMNS| ==> Plain(ADMIN_LOG_PARTY_COLUMNS[i])
  {
  }

  lemma RequestColumnsPlain()
    ensures forall i :: 0 <= i < |ADMIN_LOG_REQUEST_COLUMNS| ==> Plain(ADMIN_LOG_REQUEST_COLUMNS[i])
  {
  }

  datatype InstallationEntry = InstallationEntry(
    installationId: string, browser: string, extensionVersion: string, schemaVersion: string,
    capabilities: seq<string>, lastSeenAt: Option<string>)

  const INSTALLATION_COLUMNS: Record := [
    "installationId", "browser", "extensionVersion", "schemaVersion", "capabilities", "lastSeenAt"]

  function InstallationRow(e: InstallationEntry): Record {
    [e.installationId, e.browser, e.extensionVersion, e.schemaVersion, Text.Join(e.capabilities, "|"),
     e.lastSeenAt.UnwrapOr("")]
  }

  function SerializeUsageInstallationsCsv(items: seq<InstallationEntry>): string {
    Serialize(Text.Join(INSTALLATION_COLUMNS, ","), seq(|items|, i requires 0 <= i < |items| => InstallationRow(items[i])))
  }

  /** The capability list inside a cell can be recovered exactly when it is not empty and no capability holds a '|'. */
  lemma InstallationsReadBack(items: seq<InstallationEntry>)
    ensures var read := ReadCsv(SerializeUsageInstallationsCsv(items));
            && read.Some? && |read.value| == |items| + 1
            && read.value[0] == INSTALLATION_COLUMNS
            && forall i :: 0 <= i < |items| ==>
                 && read.value[i + 1] == InstallationRow(items[i])
                 && (Text.Split(read.value[i + 1][4], '|') == items[i].capabilities <==>
                       items[i].capabilities != []
                       && forall k :: 0 <= k < |items[i].capabilities| ==> '|' !in items[i].capabilities[k])
  {
    ExportReadsBack(INSTALLATION_COLUMNS, seq(|items|, i requires 0 <= i < |items| => InstallationRow(items[i])));
    forall i | 0 <= i < |items|
      ensures Text.Split(InstallationRow(items[i])[4], '|') == items[i].capabilities <==>
                items[i].capabilities != []
                && forall k :: 0 <= k < |items[i].capabilities| ==> '|' !in items[i].capabilities[k]
    {
      Text.SplitUndoesJoin(items[i].capabilities, '|');
    }
  }

  /** Each column of the installation export holds the field it is named after. */
  lemma InstallationCells(items: seq<InstallationEntry>, i: nat)
    requires i < |items|
    ensures var (read, e) := (ReadCsv(SerializeUsageInstallationsCsv(items)).UnwrapOr([]), items[i]);
            && Shows(read, i, 0, "installationId", e.installationId)
            && Shows(read, i, 1, "browser", e.browser)
            && Shows(read, i, 2, "extensionVersion", e.extensionVersion)
            && Shows(read, i, 3, "schemaVersion", e.schemaVersion)
            && Shows(read, i, 4, "capabilities", Text.Join(e.capabilities, "|"))
            && ShowsOption(read, i, 5, "lastSeenAt", e.lastSeenAt)
  {
    InstallationsReadBack(items);
  }
}
