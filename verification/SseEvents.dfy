/**
 What a streamed completion tells: the facts of one event block, the blocks of a whole text of
 server-sent events, and what the text reports when its blocks are read in order.
 */
module SseEvents {
  import opened Common
  import opened Json
  import Text

  type Document = Json<string>

  type JsonParser = string -> Option<Document>

  datatype Usage = Usage(promptTokens: Option<real>, completionTokens: Option<real>, totalTokens: Option<real>)

  /** What one event block, or a whole stream, tells about the completion. */
  datatype Facts = Facts(responseId: Option<string>, model: Option<string>, usage: Option<Usage>)

  const NO_FACTS := Facts(None, None, None)

  // ---------------------------------------------------------------- one event block

  function ParseOrWrap(parse: JsonParser, value: string): Document {
    match parse(value)
    case Some(json) => json
    case None => JObject(map["raw" := JString(value)])
  }

  function FiniteNumber(json: Option<Document>): Option<real> {
    if json.Some? && json.value.JNumber? then Some(json.value.n) else None
  }

  function NonBlank(json: Option<Document>): Option<string> {
    if json.Some? && json.value.JString? && |Text.Trim(json.value.s)| > 0
    then Some(Text.Trim(json.value.s)) else None
  }

  function ExtractUsage(payload: Fields<string>): Option<Usage> {
    match Lookup<string, Document>(payload, "usage")
    case Some(JObject(usage)) =>
      var prompt := FiniteNumber(Lookup(usage, "prompt_tokens"));
      var completion := FiniteNumber(Lookup(usage, "completion_tokens"));
      var total := FiniteNumber(Lookup(usage, "total_tokens"));
      if prompt.None? && completion.None? && total.None? then None
      else Some(Usage(prompt, completion, total))
    case _ => None
  }

  /** The data of one line, if it is a data line. */
  function DataOf(line: string): (data: seq<string>)
    ensures |data| <= 1
  {
    var trimmed := Text.Trim(line);
    if "data:" <= trimmed then [Text.Trim(trimmed[5..])] else []
  }

  function DataLines(lines: seq<string>): seq<string> {
    if lines == [] then [] else DataOf(lines[0]) + DataLines(lines[1..])
  }

  function BlockFacts(parse: JsonParser, rawEvent: string): Facts {
    var dataLines := DataLines(Text.Split(rawEvent, '\n'));
    if dataLines == [] then NO_FACTS else PayloadFacts(parse, Text.Join(dataLines, "\n"))
  }

  function PayloadFacts(parse: JsonParser, payload: string): Facts {
    if payload == "" || payload == "[DONE]" then NO_FACTS
    else
      match ParseOrWrap(parse, payload)
      case JObject(fields) =>
        Facts(NonBlank(Lookup(fields, "id")), NonBlank(Lookup(fields, "model")), ExtractUsage(fields))
      case _ => NO_FACTS
  }

  /** The field `key` is there and holds `value`. */
  predicate Holds(fields: Fields<string>, key: string, value: Document) {
    key in fields && fields[key] == value
  }

  /** The field `key` is there and holds a text that is not blank, and `text` is that text without its outer spaces. */
  predicate HoldsText(fields: Fields<string>, key: string, text: string) {
    key in fields && fields[key].JString? && text == Text.Trim(fields[key].s) && text != ""
  }

  /** What is read from an event whose payload is an object. */
  lemma PayloadMeaning(parse: JsonParser, payload: string, fields: Fields<string>)
    requires payload != "" && payload != "[DONE]" && parse(payload) == Some(JObject(fields))
    ensures var facts := PayloadFacts(parse, payload);
            && (forall id :: facts.responseId == Some(id) <==> HoldsText(fields, "id", id))
            && (forall model :: facts.model == Some(model) <==> HoldsText(fields, "model", model))
    ensures var facts := PayloadFacts(parse, payload);
            facts.usage.Some? <==>
              && "usage" in fields && fields["usage"].JObject?
              && var u := fields["usage"].fields;
                 exists key, x :: key in {"prompt_tokens", "completion_tokens", "total_tokens"} && Holds(u, key, JNumber(x))
    ensures var facts := PayloadFacts(parse, payload);
            facts.usage.Some? ==>
              var u, usage := fields["usage"].fields, facts.usage.value;
              forall x ::
                && (usage.promptTokens == Some(x) <==> Holds(u, "prompt_tokens", JNumber(x)))
                && (usage.completionTokens == Some(x) <==> Holds(u, "completion_tokens", JNumber(x)))
                && (usage.totalTokens == Some(x) <==> Holds(u, "total_tokens", JNumber(x)))
  {
    var facts := PayloadFacts(parse, payload);
    if "usage" in fields && fields["usage"].JObject? {
      var u := fields["usage"].fields;
      UsageGiven(u, "prompt_tokens");
      UsageGiven(u, "completion_tokens");
      UsageGiven(u, "total_tokens");
    }
  }

  lemma UsageGiven(u: Fields<string>, key: string)
    ensures key in u && u[key].JNumber? ==> Holds(u, key, JNumber(u[key].n))
  {
  }

  /** Nothing is read from a payload that is empty, the end mark, no JSON, or JSON but no object. */
  lemma OtherPayloadsTellNothing(parse: JsonParser, payload: string)
    requires payload == "" || payload == "[DONE]" || parse(payload).None? || !parse(payload).value.JObject?
    ensures PayloadFacts(parse, payload) == Facts(None, None, None)
  {
  }

  /**
   A block with one data line, among any lines that are none, tells what the payload of that line tells.
   The payload is what follows `data:`, without outer spaces.
   */
  lemma OneDataLineMeaning(parse: JsonParser, before: seq<string>, line: string, after: seq<string>, payload: string)
    requires forall l :: l in before + [line] + after ==> '\n' !in l
    requires forall l :: l in before + after ==> !("data:" <= Text.Trim(l))
    requires Text.Trim(line) == "data:" + payload
    ensures BlockFacts(parse, Text.Join(before + [line] + after, "\n")) == PayloadFacts(parse, Text.Trim(payload))
  {
    var lines := before + [line] + after;
    Text.SplitOfJoin(lines, '\n');
    NoDataLines(before);
    NoDataLines(after);
    DataLinesAppend(before + [line], after);
    DataLinesAppend(before, [line]);
    assert ("data:" + payload)[5..] == payload;
    assert DataLines([line]) == DataOf(line) == [Text.Trim(payload)];
    assert DataLines(lines) == [Text.Trim(payload)];
  }

  /** Two data lines give the payloads of both with a line feed between them, as section 9.2.6 of the HTML standard has it. */
  lemma TwoDataLinesMeaning(parse: JsonParser, first: string, second: string, one: string, two: string)
    requires '\n' !in first && '\n' !in second
    requires Text.Trim(first) == "data:" + one && Text.Trim(second) == "data:" + two
    ensures BlockFacts(parse, first + "\n" + second)
         == PayloadFacts(parse, Text.Trim(one) + "\n" + Text.Trim(two))
  {
    var lines := [first, second];
    assert Text.Join(lines, "\n") == first + "\n" + Text.Join(lines[1..], "\n") == first + "\n" + second;
    Text.SplitOfJoin(lines, '\n');
    assert ("data:" + one)[5..] == one && ("data:" + two)[5..] == two;
    assert lines[1..] == [second] && [second][1..] == [];
    assert DataLines(lines) == [Text.Trim(one)] + DataLines([second]) == [Text.Trim(one), Text.Trim(two)];
    var payloads := [Text.Trim(one), Text.Trim(two)];
    assert payloads[1..] == [Text.Trim(two)];
    assert Text.Join(payloads, "\n") == Text.Trim(one) + "\n" + Text.Trim(two);
  }

  lemma {:induction false} NoDataLines(lines: seq<string>)
    requires forall l :: l in lines ==> !("data:" <= Text.Trim(l))
    ensures DataLines(lines) == []
  {
    if lines != [] {
      NoDataLines(lines[1..]);
    }
  }

  lemma {:induction false} DataLinesAppend(a: seq<string>, b: seq<string>)
    ensures DataLines(a + b) == DataLines(a) + DataLines(b)
  {
    if a == [] {
      assert a + b == b;
    } else {
      assert (a + b)[0] == a[0] && (a + b)[1..] == a[1..] + b;
      DataLinesAppend(a[1..], b);
    }
  }

  function Later<T>(earlier: Option<T>, later: Option<T>): Option<T> {
    if later.Some? then later else earlier
  }

  function Absorb(seen: Facts, block: Facts): Facts {
    Facts(Later(seen.responseId, block.responseId), Later(seen.model, block.model), Later(seen.usage, block.usage))
  }

  /** Absorb the facts of several blocks, in order. */
  function AbsorbAll(seen: Facts, facts: seq<Facts>): Facts
    decreases |facts|
  {
    if facts == [] then seen else AbsorbAll(Absorb(seen, facts[0]), facts[1..])
  }

  lemma {:induction false} AbsorbAppend(seen: Facts, first: seq<Facts>, second: seq<Facts>)
    ensures AbsorbAll(seen, first + second) == AbsorbAll(AbsorbAll(seen, first), second)
    decreases |first|
  {
    if first == [] {
      assert first + second == second;
    } else {
      assert (first + second)[1..] == first[1..] + second;
      AbsorbAppend(Absorb(seen, first[0]), first[1..], second);
    }
  }

  function AllFacts(parse: JsonParser, blocks: seq<string>): (r: seq<Facts>)
    ensures |r| == |blocks|
  {
    if blocks == [] then [] else [BlockFacts(parse, blocks[0])] + AllFacts(parse, blocks[1..])
  }

  lemma {:induction false} AllFactsAppend(parse: JsonParser, first: seq<string>, second: seq<string>)
    ensures AllFacts(parse, first + second) == AllFacts(parse, first) + AllFacts(parse, second)
  {
    if first == [] {
      assert first + second == second;
    } else {
      assert (first + second)[1..] == first[1..] + second;
      AllFactsAppend(parse, first[1..], second);
    }
  }

  /** What a list of blocks reports, read in order. */
  function Report(parse: JsonParser, blocks: seq<string>): Facts {
    AbsorbAll(NO_FACTS, AllFacts(parse, blocks))
  }

  lemma ReportAppend(parse: JsonParser, first: seq<string>, second: seq<string>)
    ensures Report(parse, first + second) == AbsorbAll(Report(parse, first), AllFacts(parse, second))
  {
    AllFactsAppend(parse, first, second);
    AbsorbAppend(NO_FACTS, AllFacts(parse, first), AllFacts(parse, second));
  }

  lemma AbsorbOne(seen: Facts, facts: Facts)
    ensures AbsorbAll(seen, [facts]) == Absorb(seen, facts)
  {
  }

  lemma FactsOfOne(parse: JsonParser, block: string)
    ensures AllFacts(parse, [block]) == [BlockFacts(parse, block)]
  {
  }

  // ---------------------------------------------------------------- the whole text

  predicate StartsCrlf(s: string) {
    |s| >= 2 && s[0] == '\r' && s[1] == '\n'
  }

  /** `text.replace(/\r\n/g, '\n')`: a carriage return goes when a line feed follows. */
  function Normalize(text: string): string {
    if text == "" then ""
    else (if StartsCrlf(text) then "" else [text[0]]) + Normalize(text[1..])
  }

  /** Every CRLF becomes a line feed, and a text without one stays as it is. */
  lemma {:induction false} NormalizeReplaces(before: string, after: string)
    ensures Normalize(before + "\r\n" + after) == Normalize(before) + "\n" + Normalize(after)
  {
    var text := before + "\r\n" + after;
    if before == "" {
      assert text == "\r\n" + after;
      assert text[1..] == "\n" + after && text[1..][1..] == after;
      assert Normalize(text[1..]) == "\n" + Normalize(after);
    } else {
      assert text[1..] == before[1..] + "\r\n" + after && text[0] == before[0];
      assert StartsCrlf(text) == StartsCrlf(before) by {
        assert |before| >= 2 ==> text[1] == before[1];
        assert |before| == 1 ==> text[1] == '\r';
      }
      NormalizeReplaces(before[1..], after);
    }
  }

  lemma {:induction false} NormalizeKeepsOthers(text: string)
    requires forall i, j :: 0 <= i < j < |text| && j == i + 1 && text[i] == '\r' ==> text[j] != '\n'
    ensures Normalize(text) == text
  {
    if text != "" {
      NormalizeKeepsOthers(text[1..]);
      assert [text[0]] + text[1..] == text;
    }
  }

  ghost predicate BlankLineAt(s: string, i: int) {
    0 <= i < |s| - 1 && s[i] == '\n' && s[i + 1] == '\n'
  }

  function FindBlankLineFrom(s: string, from: nat): (r: Option<nat>)
    ensures r.Some? ==> BlankLineAt(s, r.value) && from <= r.value
    ensures r.Some? ==> forall i :: from <= i < r.value ==> !BlankLineAt(s, i)
    ensures r.None? ==> forall i :: from <= i ==> !BlankLineAt(s, i)
    decreases |s| - from
  {
    if from + 1 >= |s| then None
    else if s[from] == '\n' && s[from + 1] == '\n' then Some(from)
    else FindBlankLineFrom(s, from + 1)
  }

  /** `s.indexOf('\n\n')`, with None for -1. */
  function FindBlankLine(s: string): (r: Option<nat>)
    ensures r.Some? ==> BlankLineAt(s, r.value) && forall i :: 0 <= i < r.value ==> !BlankLineAt(s, i)
    ensures r.None? ==> forall i :: !BlankLineAt(s, i)
  {
    FindBlankLineFrom(s, 0)
  }

  /** The event blocks that end at a blank line, and the unfinished text after the last one. */
  datatype Cut = Cut(blocks: seq<string>, rest: string)

  function CutBlocks(s: string): (cut: Cut)
    ensures FindBlankLine(cut.rest).None?
    decreases |s|
  {
    match FindBlankLine(s)
    case None => Cut([], s)
    case Some(i) =>
      var tail := CutBlocks(s[i + 2..]);
      Cut([s[..i]] + tail.blocks, tail.rest)
  }

  /** All the blocks of a finished stream: a last block without a blank line counts unless it is blank. */
  function EventBlocks(s: string): seq<string> {
    var cut := CutBlocks(s);
    cut.blocks + (if |Text.Trim(cut.rest)| > 0 then [cut.rest] else [])
  }

  /** The reference: cut the whole text at the leftmost blank lines, read the blocks in order. */
  function InspectText(parse: JsonParser, text: string): Facts {
    Report(parse, EventBlocks(Normalize(text)))
  }

  function Flatten(chunks: seq<string>): string {
    if chunks == [] then "" else chunks[0] + Flatten(chunks[1..])
  }

  /** What the buffer receives: each decoded chunk is normalised on its own. */
  function NormalizeEach(chunks: seq<string>): string {
    if chunks == [] then "" else Normalize(chunks[0]) + NormalizeEach(chunks[1..])
  }

  lemma NormalizeEachSnoc(chunks: seq<string>, last: string)
    ensures NormalizeEach(chunks + [last]) == NormalizeEach(chunks) + Normalize(last)
  {
    if chunks != [] {
      assert (chunks + [last])[1..] == chunks[1..] + [last];
      NormalizeEachSnoc(chunks[1..], last);
    }
  }

  lemma NormalizeWithoutNewline(s: string)
    requires '\n' !in s
    ensures Normalize(s) == s
  {
    if s != "" {
      NormalizeWithoutNewline(s[1..]);
    }
  }

  lemma NoNewBlankLine(rest: string, flush: string)
    requires FindBlankLine(rest).None? && '\n' !in flush
    ensures FindBlankLine(rest + flush).None?
  {
    if FindBlankLine(rest + flush).Some? {
      var i := FindBlankLine(rest + flush).value;
      assert (rest + flush)[i + 1] == '\n';
      assert BlankLineAt(rest, i);
    }
  }

  /** Cutting is incremental: text that arrives later can only extend the unfinished rest. */
  lemma {:induction false} CutAppend(s: string, t: string)
    ensures CutBlocks(s + t) == Then(CutBlocks(s), t)
    decreases |s|
  {
    match FindBlankLine(s)
    case None =>
      assert CutBlocks(s) == Cut([], s);
    case Some(i) =>
      var block, tail := s[..i], s[i + 2..];
      var before, after := CutBlocks(tail), CutBlocks(tail + t);
      assert after == Then(before, t) by {
        CutAppend(tail, t);
      }
      assert CutBlocks(s) == Cut([block] + before.blocks, before.rest) by {
        CutAtFirst(s, i);
      }
      assert CutBlocks(s + t) == Cut([block] + after.blocks, after.rest) by {
        FirstBlankLineStays(s, t);
        assert (s + t)[..i] == block;
        assert (s + t)[i + 2..] == tail + t;
        CutAtFirst(s + t, i);
      }
      ThenAfterBlock(block, before, t);
  }

  /** The cut of a text that goes on with `t`. */
  function Then(cut: Cut, t: string): Cut {
    var more := CutBlocks(cut.rest + t);
    Cut(cut.blocks + more.blocks, more.rest)
  }

  lemma ThenAfterBlock(block: string, cut: Cut, t: string)
    ensures Then(Cut([block] + cut.blocks, cut.rest), t)
         == Cut([block] + Then(cut, t).blocks, Then(cut, t).rest)
  {
    assert [block] + cut.blocks + CutBlocks(cut.rest + t).blocks
        == [block] + (cut.blocks + CutBlocks(cut.rest + t).blocks);
  }

  lemma CutAtFirst(s: string, i: nat)
    requires FindBlankLine(s) == Some(i)
    ensures CutBlocks(s) == Cut([s[..i]] + CutBlocks(s[i + 2..]).blocks, CutBlocks(s[i + 2..]).rest)
  {
  }

  lemma FirstBlankLineStays(s: string, t: string)
    requires FindBlankLine(s).Some?
    ensures FindBlankLine(s + t) == FindBlankLine(s)
  {
    var i := FindBlankLine(s).value;
    assert BlankLineAt(s + t, i);
    assert forall k :: 0 <= k < i ==> (BlankLineAt(s + t, k) <==> BlankLineAt(s, k));
  }
}
