/**
 The server-sent-event inspector of the AI proxy. It reads the text of a streamed completion
 chunk by chunk and remembers the response id, the model and the token usage it has seen last.
 The reference it is proved against looks at the whole text at once.
 */
module SseInspector {
  import opened Common
  import opened Json
  import opened SseEvents
  import opened SseChunking
  import Text

  class StreamInspection {
    var responseId: Option<string>
    var model: Option<string>
    var usage: Option<Usage>

    constructor ()
      ensures Value() == NO_FACTS
    {
      responseId, model, usage := None, None, None;
    }

    ghost function Value(): Facts
      reads this
    {
      Facts(responseId, model, usage)
    }
  }

  method InspectSseEventBlock(parse: JsonParser, rawEvent: string, inspection: StreamInspection)
    modifies inspection
    ensures inspection.Value() == Absorb(old(inspection.Value()), BlockFacts(parse, rawEvent))
  {
    var dataLines := DataLines(Text.Split(rawEvent, '\n'));
    if |dataLines| == 0 {
      return;
    }
    var eventPayload := Text.Join(dataLines, "\n");
    if eventPayload == "" || eventPayload == "[DONE]" {
      return;
    }
    var parsed := ParseOrWrap(parse, eventPayload);
    if !parsed.JObject? {
      return;
    }
    var id := NonBlank(Lookup(parsed.fields, "id"));
    if id.Some? {
      inspection.responseId := id;
    }
    var model := NonBlank(Lookup(parsed.fields, "model"));
    if model.Some? {
      inspection.model := model;
    }
    var usage := ExtractUsage(parsed.fields);
    if usage.Some? {
      inspection.usage := usage;
    }
  }

  /** The inner loop: every complete block of the buffer is inspected and cut off. */
  method DrainBuffer(parse: JsonParser, received: string, inspection: StreamInspection) returns (buffer: string)
    modifies inspection
    ensures inspection.Value() == AbsorbAll(old(inspection.Value()), AllFacts(parse, CutBlocks(received).blocks))
    ensures buffer == CutBlocks(received).rest
  {
    buffer := received;
    var separatorIndex := FindBlankLine(buffer);
    while separatorIndex.Some?
      invariant separatorIndex == FindBlankLine(buffer)
      invariant AbsorbAll(inspection.Value(), AllFacts(parse, CutBlocks(buffer).blocks))
             == AbsorbAll(old(inspection.Value()), AllFacts(parse, CutBlocks(received).blocks))
      invariant CutBlocks(buffer).rest == CutBlocks(received).rest
      decreases |buffer|
    {
      var eventBlock := buffer[..separatorIndex.value];
      DrainStep(parse, inspection.Value(), buffer, separatorIndex.value);
      buffer := buffer[separatorIndex.value + 2..];
      InspectSseEventBlock(parse, eventBlock, inspection);
      separatorIndex := FindBlankLine(buffer);
    }
  }

  method ReadChunks(parse: JsonParser, chunks: seq<string>, inspection: StreamInspection) returns (buffer: string)
    requires inspection.Value() == Facts(None, None, None)
    modifies inspection
    ensures Consumed(parse, NormalizeEach(chunks), inspection.Value(), buffer)
  {
    buffer := "";
    var next := 0;
    while next < |chunks|
      invariant next <= |chunks|
      invariant Consumed(parse, NormalizeEach(chunks[..next]), inspection.Value(), buffer)
    {
      var text := Normalize(chunks[next]);
      ConsumeMore(parse, NormalizeEach(chunks[..next]), inspection.Value(), buffer, text);
      NormalizeEachSnoc(chunks[..next], chunks[next]);
      assert chunks[..next] + [chunks[next]] == chunks[..next + 1];
      buffer := DrainBuffer(parse, buffer + text, inspection);
      next := next + 1;
    }
    assert chunks[..next] == chunks;
  }

  /**
   `chunks` are the decoded texts of the chunks, `flush` is what the decoder still held at the end.
   The outcome depends only on the text the buffer received, not on where it was cut.
   */
  method InspectOpenRouterSseStream(parse: JsonParser, chunks: seq<string>, flush: string)
    returns (inspection: StreamInspection)
    ensures fresh(inspection)
    ensures '\n' !in flush ==>
              inspection.Value() == Report(parse, EventBlocks(NormalizeEach(chunks + [flush])))
    ensures '\n' !in flush && KeepsSeparators(chunks + [flush]) ==>
              inspection.Value() == InspectText(parse, Flatten(chunks + [flush]))
  {
    inspection := new StreamInspection();
    var buffer := ReadChunks(parse, chunks, inspection);
    ghost var seen, unread := inspection.Value(), buffer;
    buffer := buffer + Normalize(flush);
    if |Text.Trim(buffer)| > 0 {
      InspectSseEventBlock(parse, buffer, inspection);
    }
    if '\n' !in flush {
      NormalizeEachSnoc(chunks, flush);
      ConsumeFlush(parse, NormalizeEach(chunks), seen, unread, flush);
      if KeepsSeparators(chunks + [flush]) {
        KeptSeparatorsSuffice(parse, chunks + [flush]);
      }
    }
  }

  /** Reading the first block of the buffer leaves the rest of it to be read. */
  lemma DrainStep(parse: JsonParser, seen: Facts, buffer: string, i: nat)
    requires FindBlankLine(buffer) == Some(i)
    ensures var cut, next := CutBlocks(buffer), CutBlocks(buffer[i + 2..]);
            && AbsorbAll(seen, AllFacts(parse, cut.blocks))
               == AbsorbAll(Absorb(seen, BlockFacts(parse, buffer[..i])), AllFacts(parse, next.blocks))
            && cut.rest == next.rest
  {
    var block, next := buffer[..i], CutBlocks(buffer[i + 2..]);
    CutAtFirst(buffer, i);
    AllFactsAppend(parse, [block], next.blocks);
    FactsOfOne(parse, block);
    AbsorbAppend(seen, [BlockFacts(parse, block)], AllFacts(parse, next.blocks));
    AbsorbOne(seen, BlockFacts(parse, block));
  }

  /** The inspector's state after the buffer has received `received`. */
  ghost predicate Consumed(parse: JsonParser, received: string, seen: Facts, unread: string) {
    && seen == Report(parse, CutBlocks(received).blocks)
    && unread == CutBlocks(received).rest
  }

  lemma ConsumeMore(parse: JsonParser, received: string, seen: Facts, unread: string, text: string)
    requires Consumed(parse, received, seen, unread)
    ensures var cut := CutBlocks(unread + text);
            Consumed(parse, received + text, AbsorbAll(seen, AllFacts(parse, cut.blocks)), cut.rest)
  {
    CutAppend(received, text);
    ReportAppend(parse, CutBlocks(received).blocks, CutBlocks(unread + text).blocks);
  }

  lemma ConsumeFlush(parse: JsonParser, received: string, seen: Facts, unread: string, flush: string)
    requires Consumed(parse, received, seen, unread) && '\n' !in flush
    ensures Normalize(flush) == flush
    ensures Report(parse, EventBlocks(received + flush))
         == if |Text.Trim(unread + flush)| > 0 then Absorb(seen, BlockFacts(parse, unread + flush)) else seen
  {
    NormalizeWithoutNewline(flush);
    NoNewBlankLine(unread, flush);
    ConsumeMore(parse, received, seen, unread, flush);
    var last := unread + flush;
    var cut := CutBlocks(received + flush);
    assert CutBlocks(last) == Cut([], last);
    if |Text.Trim(last)| > 0 {
      ReportAppend(parse, cut.blocks, [last]);
      FactsOfOne(parse, last);
      AbsorbOne(seen, BlockFacts(parse, last));
    } else {
      assert EventBlocks(received + flush) == cut.blocks;
    }
  }
}
