/**
 What becomes of a stream's report when the stream arrives in chunks. CRLF is replaced in each chunk on its
 own, so a carriage return stays in the buffer when its line feed begins the next chunk. The report suffers
 exactly when that hides a blank line between two data lines.
 */
module SseChunking {
  import opened Common
  import opened Json
  import opened SseEvents
  import opened SseLines
  import Text

  // ---------------------------------------------------------------- the buffered text

  predicate SplitsCrlf(before: string, after: string) {
    before != "" && after != "" && before[|before| - 1] == '\r' && after[0] == '\n'
  }

  /** No chunk ends between a carriage return and its line feed. */
  predicate NoCutInsideCrlf(chunks: seq<string>) {
    chunks == [] || (!SplitsCrlf(chunks[0], Flatten(chunks[1..])) && NoCutInsideCrlf(chunks[1..]))
  }

  lemma {:induction false} NormalizeAppend(a: string, b: string)
    requires !SplitsCrlf(a, b)
    ensures Normalize(a + b) == Normalize(a) + Normalize(b)
  {
    if a == "" {
      assert a + b == b;
    } else {
      assert (a + b)[1..] == a[1..] + b;
      assert StartsCrlf(a + b) <==> StartsCrlf(a);
      NormalizeAppend(a[1..], b);
    }
  }

  /** A cut inside a CRLF leaves one more character: the carriage return stays. */
  lemma {:induction false} NormalizeSplit(a: string, b: string)
    requires SplitsCrlf(a, b)
    ensures |Normalize(a + b)| < |Normalize(a)| + |Normalize(b)|
  {
    assert (a + b)[1..] == a[1..] + b;
    if |a| == 1 {
      assert a[1..] + b == b;
    } else {
      assert StartsCrlf(a + b) <==> StartsCrlf(a);
      NormalizeSplit(a[1..], b);
    }
  }

  /** Normalising chunk by chunk amounts to normalising the whole text exactly when no cut falls inside a CRLF. */
  lemma {:induction false} ChunkwiseNormalization(chunks: seq<string>)
    ensures NormalizeEach(chunks) == Normalize(Flatten(chunks)) <==> NoCutInsideCrlf(chunks)
    ensures |NormalizeEach(chunks)| >= |Normalize(Flatten(chunks))|
  {
    if chunks != [] {
      var first, rest := chunks[0], Flatten(chunks[1..]);
      ChunkwiseNormalization(chunks[1..]);
      if SplitsCrlf(first, rest) {
        NormalizeSplit(first, rest);
      } else {
        NormalizeAppend(first, rest);
        var n := |Normalize(first)|;
        if NormalizeEach(chunks) == Normalize(Flatten(chunks)) {
          assert NormalizeEach(chunks[1..]) == NormalizeEach(chunks)[n..];
          assert Normalize(rest) == Normalize(Flatten(chunks))[n..];
        }
      }
    }
  }

  /** What the inspector reports for a stream, by the contract of InspectOpenRouterSseStream. */
  function InspectChunks(parse: JsonParser, chunks: seq<string>): Facts {
    Report(parse, EventBlocks(NormalizeEach(chunks)))
  }

  // ---------------------------------------------------------------- reports and events

  /** What the parser is given for each event. */
  function TextsOf(payloads: seq<Payload>): (texts: seq<string>)
    ensures |texts| == |payloads|
  {
    if payloads == [] then [] else [Text.Join(payloads[0], "\n")] + TextsOf(payloads[1..])
  }

  function ReportOf(parse: JsonParser, texts: seq<string>): Facts {
    if texts == [] then NO_FACTS else Absorb(PayloadFacts(parse, texts[0]), ReportOf(parse, texts[1..]))
  }

  lemma {:induction false} AbsorbAllFrom(seen: Facts, facts: seq<Facts>)
    ensures AbsorbAll(seen, facts) == Absorb(seen, AbsorbAll(NO_FACTS, facts))
    decreases |facts|
  {
    if facts != [] {
      AbsorbAllFrom(Absorb(seen, facts[0]), facts[1..]);
      AbsorbAllFrom(Absorb(NO_FACTS, facts[0]), facts[1..]);
    }
  }

  lemma {:induction false} ReportByPayloads(parse: JsonParser, blocks: seq<string>)
    ensures Report(parse, blocks) == ReportOf(parse, TextsOf(PayloadsOf(blocks)))
  {
    if blocks != [] {
      ReportByPayloads(parse, blocks[1..]);
      ReportCons(parse, blocks);
      EmittedReport(parse, blocks[0], PayloadsOf(blocks[1..]));
    }
  }

  lemma ReportCons(parse: JsonParser, blocks: seq<string>)
    requires blocks != []
    ensures Report(parse, blocks) == Absorb(BlockFacts(parse, blocks[0]), Report(parse, blocks[1..]))
  {
    var first, rest := BlockFacts(parse, blocks[0]), AllFacts(parse, blocks[1..]);
    assert ([first] + rest)[1..] == rest;
    AbsorbAllFrom(Absorb(NO_FACTS, first), rest);
  }

  lemma EmittedReport(parse: JsonParser, block: string, payloads: seq<Payload>)
    ensures ReportOf(parse, TextsOf(Emit(DataLines(LinesOf(block))) + payloads))
         == Absorb(BlockFacts(parse, block), ReportOf(parse, TextsOf(payloads)))
  {
    var data := DataLines(LinesOf(block));
    TextsOfEmitted(data, payloads);
    if data == [] {
      assert [] + TextsOf(payloads) == TextsOf(payloads);
    } else {
      assert ([Text.Join(data, "\n")] + TextsOf(payloads))[1..] == TextsOf(payloads);
    }
  }

  lemma TextsOfEmitted(data: Payload, payloads: seq<Payload>)
    ensures TextsOf(Emit(data) + payloads)
         == (if data == [] then [] else [Text.Join(data, "\n")]) + TextsOf(payloads)
  {
    if data == [] {
      assert Emit(data) + payloads == payloads;
    } else {
      assert (Emit(data) + payloads)[1..] == payloads;
    }
  }

  /** The report of a text is the report of its events, read line by line. */
  lemma ReportByLines(parse: JsonParser, s: string)
    ensures Report(parse, EventBlocks(s)) == ReportOf(parse, TextsOf(ReadText(s)))
  {
    ReportByPayloads(parse, EventBlocks(s));
    BlocksAreLines(s);
  }

  // ---------------------------------------------------------------- the condition on the cuts

  lemma ChunksRelated(chunks: seq<string>)
    ensures Related(Normalize(Flatten(chunks)), NormalizeEach(chunks), NoCutAtBlankLine(chunks), false)
  {
    var t := Flatten(chunks);
    assert t[0..] == t;
    KeptIsEach(t, 0, chunks);
    KeptIsNormalize(t);
    KeptRelated(t, 0, CutsOf(chunks, 0));
  }

  /** No chunk ends inside the CRLF of a blank line: between a carriage return right after a line feed and its line feed. */
  ghost predicate NoCutAtBlankLine(chunks: seq<string>) {
    Safe(Flatten(chunks), CutsOf(chunks, 0))
  }

  /** No blank line between two data lines is hidden by the cuts. */
  ghost predicate KeepsSeparators(chunks: seq<string>) {
    ChunksRelated(chunks);
    !LosesSeparator(LinesOf(Normalize(Flatten(chunks))), LinesOf(NormalizeEach(chunks)))
  }

  /** The inspector reads the events of the whole text exactly when no separator is hidden. */
  lemma SamePayloadsIff(chunks: seq<string>)
    ensures ReadText(NormalizeEach(chunks)) == ReadText(Normalize(Flatten(chunks))) <==> KeepsSeparators(chunks)
  {
    ChunksRelated(chunks);
    SameEventsIff(Normalize(Flatten(chunks)), NormalizeEach(chunks));
  }

  /** Cuts anywhere else, in particular inside the CRLF that ends a data line, are harmless. */
  lemma OtherCutsAreHarmless(chunks: seq<string>)
    requires NoCutAtBlankLine(chunks)
    ensures KeepsSeparators(chunks)
  {
    ChunksRelated(chunks);
    assert KeepsBlank(LinesOf(Normalize(Flatten(chunks))), LinesOf(NormalizeEach(chunks)));
  }

  lemma KeptSeparatorsSuffice(parse: JsonParser, chunks: seq<string>)
    requires KeepsSeparators(chunks)
    ensures InspectChunks(parse, chunks) == InspectText(parse, Flatten(chunks))
  {
    SamePayloadsIff(chunks);
    ReportByLines(parse, NormalizeEach(chunks));
    ReportByLines(parse, Normalize(Flatten(chunks)));
  }

  /** Chunkings that hide no separator all give the report of the whole text. */
  lemma ChunkingDoesNotMatter(parse: JsonParser, chunks: seq<string>, others: seq<string>)
    requires Flatten(chunks) == Flatten(others)
    requires KeepsSeparators(chunks) && KeepsSeparators(others)
    ensures InspectChunks(parse, chunks) == InspectChunks(parse, others) == InspectText(parse, Flatten(chunks))
  {
    KeptSeparatorsSuffice(parse, chunks);
    KeptSeparatorsSuffice(parse, others);
  }

  // ---------------------------------------------------------------- for every parser

  /** Empty events and the end marker are never parsed. */
  predicate IsParsed(text: string) {
    text != "" && text != "[DONE]"
  }

  function Parsed(texts: seq<string>): (r: seq<string>)
    ensures forall x :: x in r <==> x in texts && IsParsed(x)
  {
    if texts == [] then [] else (if IsParsed(texts[0]) then [texts[0]] else []) + Parsed(texts[1..])
  }

  /** Each text once, where it occurs last. */
  function LastOccurrences(texts: seq<string>): (r: seq<string>)
    ensures forall x :: x in r <==> x in texts
    ensures forall i, j :: 0 <= i < j < |r| ==> r[i] != r[j]
  {
    if texts == [] then []
    else
      var rest := LastOccurrences(texts[1..]);
      if texts[0] in texts[1..] then rest else [texts[0]] + rest
  }

  /** What a text has to offer a parser: its events, without repetitions that a later one overrides. */
  function Telling(s: string): seq<string> {
    LastOccurrences(Parsed(TextsOf(ReadText(s))))
  }

  lemma {:induction false} ReportOfParsed(parse: JsonParser, texts: seq<string>)
    ensures ReportOf(parse, Parsed(texts)) == ReportOf(parse, texts)
  {
    if texts != [] {
      ReportOfParsed(parse, texts[1..]);
      var rest := Parsed(texts[1..]);
      if IsParsed(texts[0]) {
        assert ([texts[0]] + rest)[1..] == rest;
      } else {
        assert [] + rest == rest;
      }
    }
  }

  /** A report gives every fact that one of its texts gives. */
  lemma {:induction false} ReportCovers(parse: JsonParser, texts: seq<string>, x: string)
    requires x in texts
    ensures Absorb(PayloadFacts(parse, x), ReportOf(parse, texts)) == ReportOf(parse, texts)
  {
    if texts[0] != x {
      ReportCovers(parse, texts[1..], x);
    }
  }

  lemma {:induction false} ReportOfLast(parse: JsonParser, texts: seq<string>)
    ensures ReportOf(parse, LastOccurrences(texts)) == ReportOf(parse, texts)
  {
    if texts != [] {
      ReportOfLast(parse, texts[1..]);
      if texts[0] in texts[1..] {
        ReportCovers(parse, texts[1..], texts[0]);
      } else {
        assert ([texts[0]] + LastOccurrences(texts[1..]))[1..] == LastOccurrences(texts[1..]);
      }
    }
  }

  lemma ReportOfTelling(parse: JsonParser, s: string)
    ensures Report(parse, EventBlocks(s)) == ReportOf(parse, Telling(s))
  {
    ReportByLines(parse, s);
    ReportOfParsed(parse, TextsOf(ReadText(s)));
    ReportOfLast(parse, Parsed(TextsOf(ReadText(s))));
  }

  /** A parser that understands the texts in `known` and gives each its own id. */
  function Knowing(known: set<string>): JsonParser {
    (text: string) => if text in known then Some(JObject(map["id" := JString(IdOf(text))])) else None
  }

  function IdOf(text: string): (id: string)
    ensures Text.IsTrimmed(id) && id != ""
  {
    ['x'] + text + ['x']
  }

  lemma IdsDiffer(a: string, b: string)
    ensures IdOf(a) == IdOf(b) <==> a == b
  {
    assert IdOf(a)[1..|a| + 1] == a && IdOf(b)[1..|b| + 1] == b;
  }

  /** The last text that is known. */
  function LastKnown(texts: seq<string>, known: set<string>): Option<string> {
    if texts == [] then None
    else
      var later := LastKnown(texts[1..], known);
      if later.Some? then later else if texts[0] in known then Some(texts[0]) else None
  }

  lemma KnowingGives(known: set<string>, text: string)
    requires IsParsed(text)
    ensures PayloadFacts(Knowing(known), text).responseId == if text in known then Some(IdOf(text)) else None
  {
    Text.TrimFixesTrimmed(IdOf(text));
  }

  lemma {:induction false} KnowingReports(known: set<string>, texts: seq<string>)
    requires forall x :: x in texts ==> IsParsed(x)
    ensures ReportOf(Knowing(known), texts).responseId
         == match LastKnown(texts, known) case Some(x) => Some(IdOf(x)) case None => None
  {
    if texts != [] {
      KnowingReports(known, texts[1..]);
      KnowingGives(known, texts[0]);
    }
  }

  lemma {:induction false} LastKnownSnoc(texts: seq<string>, x: string, known: set<string>)
    ensures LastKnown(texts + [x], known) == if x in known then Some(x) else LastKnown(texts, known)
  {
    if texts == [] {
      assert texts + [x] == [x] && [x][1..] == [];
    } else {
      assert (texts + [x])[1..] == texts[1..] + [x];
      LastKnownSnoc(texts[1..], x, known);
    }
  }

  lemma {:induction false} LastKnownWithout(texts: seq<string>, x: string, known: set<string>)
    requires x !in texts
    ensures LastKnown(texts, known - {x}) == LastKnown(texts, known)
  {
    if texts != [] {
      LastKnownWithout(texts[1..], x, known);
    }
  }

  ghost predicate NoRepeats(texts: seq<string>) {
    forall i, j :: 0 <= i < j < |texts| ==> texts[i] != texts[j]
  }

  ghost predicate SameLastKnown(a: seq<string>, b: seq<string>) {
    forall known: set<string> :: LastKnown(a, known) == LastKnown(b, known)
  }

  lemma SameWithoutLast(a: seq<string>, b: seq<string>, x: string)
    requires x !in a && x !in b && SameLastKnown(a + [x], b + [x])
    ensures SameLastKnown(a, b)
  {
    forall known: set<string>
      ensures LastKnown(a, known) == LastKnown(b, known)
    {
      LastKnownSnoc(a, x, known - {x});
      LastKnownSnoc(b, x, known - {x});
      LastKnownWithout(a, x, known);
      LastKnownWithout(b, x, known);
      assert LastKnown(a + [x], known - {x}) == LastKnown(b + [x], known - {x});
    }
  }

  lemma SameLast(a: seq<string>, b: seq<string>)
    requires SameLastKnown(a, b)
    ensures a == [] <==> b == []
    ensures a != [] && b != [] ==> a[|a| - 1] == b[|b| - 1]
  {
    var all := (set x | x in a) + (set x | x in b);
    LastOfAll(a, all);
    LastOfAll(b, all);
    assert LastKnown(a, all) == LastKnown(b, all);
  }

  /** The last known texts, over all sets of known ones, determine a list without repetitions. */
  lemma {:induction false} LastKnownDetermines(a: seq<string>, b: seq<string>)
    requires NoRepeats(a) && NoRepeats(b) && SameLastKnown(a, b)
    ensures a == b
  {
    SameLast(a, b);
    if a != [] {
      var x, a', b' := a[|a| - 1], a[..|a| - 1], b[..|b| - 1];
      assert a == a' + [x] && b == b' + [x];
      SameWithoutLast(a', b', x);
      LastKnownDetermines(a', b');
    }
  }

  lemma LastOfAll(texts: seq<string>, all: set<string>)
    requires forall x :: x in texts ==> x in all
    ensures LastKnown(texts, all) == if texts == [] then None else Some(texts[|texts| - 1])
  {
    if texts != [] {
      var n := |texts| - 1;
      assert texts[..n] + [texts[n]] == texts;
      LastKnownSnoc(texts[..n], texts[n], all);
    }
  }

  /** Two texts give every parser the same report exactly when they have the same telling events in the same order. */
  lemma SameReportsIff(s: string, t: string)
    ensures (forall parse :: Report(parse, EventBlocks(s)) == Report(parse, EventBlocks(t))) <==> Telling(s) == Telling(t)
  {
    if forall parse :: Report(parse, EventBlocks(s)) == Report(parse, EventBlocks(t)) {
      forall known: set<string>
        ensures LastKnown(Telling(s), known) == LastKnown(Telling(t), known)
      {
        SameLastKnownFor(s, t, known);
      }
      LastKnownDetermines(Telling(s), Telling(t));
    } else {
      var parse :| Report(parse, EventBlocks(s)) != Report(parse, EventBlocks(t));
      ReportOfTelling(parse, s);
      ReportOfTelling(parse, t);
    }
  }

  lemma SameLastKnownFor(s: string, t: string, known: set<string>)
    requires Report(Knowing(known), EventBlocks(s)) == Report(Knowing(known), EventBlocks(t))
    ensures LastKnown(Telling(s), known) == LastKnown(Telling(t), known)
  {
    ReportOfTelling(Knowing(known), s);
    ReportOfTelling(Knowing(known), t);
    KnowingReports(known, Telling(s));
    KnowingReports(known, Telling(t));
    if LastKnown(Telling(s), known).Some? && LastKnown(Telling(t), known).Some? {
      IdsDiffer(LastKnown(Telling(s), known).value, LastKnown(Telling(t), known).value);
    }
  }

  ghost predicate AgreesForEveryParser(chunks: seq<string>) {
    forall parse :: InspectChunks(parse, chunks) == InspectText(parse, Flatten(chunks))
  }

  /** Chunks and whole text agree for every parser exactly when the same telling events are read from both. */
  lemma AgreesForEveryParserIff(chunks: seq<string>)
    ensures AgreesForEveryParser(chunks) <==> Telling(NormalizeEach(chunks)) == Telling(Normalize(Flatten(chunks)))
  {
    SameReportsIff(NormalizeEach(chunks), Normalize(Flatten(chunks)));
    assert forall parse :: InspectChunks(parse, chunks) == Report(parse, EventBlocks(NormalizeEach(chunks)));
    assert forall parse :: InspectText(parse, Flatten(chunks)) == Report(parse, EventBlocks(Normalize(Flatten(chunks))));
  }

  // ---------------------------------------------------------------- streams with one data line per event

  /** Every event of the text has a single data line, as completion streams have. */
  ghost predicate OneLineEvents(text: string) {
    forall g :: g in ReadText(Normalize(text)) ==> |g| == 1
  }

  lemma {:induction false} TextsOfMembers(payloads: seq<Payload>)
    ensures forall x :: x in TextsOf(payloads) <==> exists g :: g in payloads && Text.Join(g, "\n") == x
  {
    if payloads != [] {
      var rest := payloads[1..];
      TextsOfMembers(rest);
      forall x
        ensures x in TextsOf(payloads) <==> exists g :: g in payloads && Text.Join(g, "\n") == x
      {
        if x in TextsOf(rest) {
          var g :| g in rest && Text.Join(g, "\n") == x;
          assert g in payloads;
        }
        if g :| g in payloads && Text.Join(g, "\n") == x {
          assert g == payloads[0] || g in rest;
        }
        assert payloads[0] in payloads;
      }
    }
  }

  lemma {:induction false} DataHasNoNewline(lines: seq<string>, pending: Payload)
    requires forall i :: 0 <= i < |lines| ==> '\n' !in lines[i]
    requires forall i :: 0 <= i < |pending| ==> '\n' !in pending[i]
    ensures forall g, i :: g in ReadLines(lines, pending) && 0 <= i < |g| ==> '\n' !in g[i]
    decreases |lines|
  {
    if lines != [] {
      if lines[0] == "" {
        DataHasNoNewline(lines[1..], []);
      } else {
        DataIsSlice(lines[0]);
        DataHasNoNewline(lines[1..], pending + DataOf(lines[0]));
      }
    }
  }

  lemma DataIsSlice(line: string)
    requires '\n' !in line
    ensures DataOf(line) != [] ==> '\n' !in DataOf(line)[0]
  {
    var trimmed := Text.Trim(line);
    Text.TrimIsSlice(line);
    assert forall c :: c in trimmed ==> c in line;
    if "data:" <= trimmed {
      Text.TrimIsSlice(trimmed[5..]);
      assert forall c :: c in Text.Trim(trimmed[5..]) ==> c in trimmed;
    }
  }

  lemma LongHasNewline(g: Payload)
    requires |g| >= 2
    ensures '\n' in Text.Join(g, "\n")
  {
    var joined := Text.Join(g, "\n");
    assert joined[|g[0]|] == '\n';
  }

  /**
   With one data line per event, chunks and whole text agree for every parser exactly when no separator is
   hidden. With longer events, a merged event may repeat one that is there anyway.
   */
  lemma OneLineEventsAgreeIff(chunks: seq<string>)
    requires OneLineEvents(Flatten(chunks))
    ensures AgreesForEveryParser(chunks) <==> KeepsSeparators(chunks)
  {
    if KeepsSeparators(chunks) {
      forall parse
        ensures InspectChunks(parse, chunks) == InspectText(parse, Flatten(chunks))
      {
        KeptSeparatorsSuffice(parse, chunks);
      }
    } else {
      HiddenSeparatorTells(chunks);
      AgreesForEveryParserIff(chunks);
    }
  }

  lemma HiddenSeparatorTells(chunks: seq<string>)
    requires OneLineEvents(Flatten(chunks)) && !KeepsSeparators(chunks)
    ensures Telling(NormalizeEach(chunks)) != Telling(Normalize(Flatten(chunks)))
  {
    ChunksRelated(chunks);
    GluedTells(Normalize(Flatten(chunks)), NormalizeEach(chunks));
    NoNewlineInTexts(Normalize(Flatten(chunks)));
  }

  lemma GluedTells(whole: string, parts: string)
    requires Marked(LinesOf(whole), LinesOf(parts)) && LosesSeparator(LinesOf(whole), LinesOf(parts))
    ensures exists x :: x in Telling(parts) && '\n' in x
  {
    GluesMeans(LinesOf(whole), LinesOf(parts), false, false);
    GluedIsLong(LinesOf(whole), LinesOf(parts), [], false);
    var g :| g in ReadText(parts) && |g| >= 2;
    LongTells(ReadText(parts), g);
  }

  lemma LongTells(payloads: seq<Payload>, g: Payload)
    requires g in payloads && |g| >= 2
    ensures exists x :: x in LastOccurrences(Parsed(TextsOf(payloads))) && '\n' in x
  {
    LongHasNewline(g);
    TextsOfMembers(payloads);
    assert Text.Join(g, "\n") in TextsOf(payloads);
  }

  lemma NoNewlineInTexts(s: string)
    requires forall g :: g in ReadText(s) ==> |g| == 1
    ensures forall x :: x in Telling(s) ==> '\n' !in x
  {
    DataHasNoNewline(LinesOf(s), []);
    TextsOfMembers(ReadText(s));
    forall x | x in Telling(s)
      ensures '\n' !in x
    {
      var g :| g in ReadText(s) && Text.Join(g, "\n") == x;
      assert x == g[0];
    }
  }

  // ---------------------------------------------------------------- a stream that suffers

  // A stream of two events is cut between the '\r' and the '\n' that end the blank line: the two
  // events are then read as one.

  predicate OneLinePayload(p: string) {
    p != "" && Text.IsTrimmed(p) && '\n' !in p && '\r' !in p
  }

  function DataLine(p: string): string {
    "data:" + p
  }

  lemma DataOfLine(p: string)
    requires OneLinePayload(p)
    ensures DataOf(DataLine(p)) == [p]
    ensures '\n' !in DataLine(p) && '\r' !in DataLine(p)
  {
    var line := DataLine(p);
    assert line[0] == 'd' && line[|line| - 1] == p[|p| - 1];
    Text.TrimFixesTrimmed(line);
    Text.TrimFixesTrimmed(p);
    assert line[5..] == p;
  }

  lemma TwoChunks(x: string, y: string)
    ensures Flatten([x, y]) == x + y
    ensures NormalizeEach([x, y]) == Normalize(x) + Normalize(y)
  {
    NormalizeEachSnoc([x], y);
    assert [x] + [y] == [x, y] && [x, y][1..] == [y];
    assert Flatten([y]) == y && NormalizeEach([x]) == Normalize(x);
  }

  lemma CrlfAtTheCut(a: string, b: string)
    requires '\r' !in a && '\r' !in b
    ensures var chunks := [a + "\n\r", "\n" + b];
            && Normalize(Flatten(chunks)) == a + "\n\n" + b
            && NormalizeEach(chunks) == a + "\n\r\n" + b
  {
    var line, next := a + "\n", "\n" + b;
    TwoChunks(a + "\n\r", next);
    NormalizePlain(b);
    NormalizeKeep('\n', b);
    NormalizeDrop(next);
    NormalizePlainPrefix(line, ['\r'] + next);
    NormalizePlainPrefix(line, ['\r']);
    NormalizeSingle('\r');
    Pieces(a, b);
  }

  lemma NormalizePlain(s: string)
    requires '\r' !in s
    ensures Normalize(s) == s
  {
    NormalizePlainPrefix(s, "");
    assert s + "" == s;
  }

  /** The same texts, put together in different ways. */
  lemma Pieces(a: string, b: string)
    ensures "\n" + b == ['\n'] + b
    ensures a + "\n" + ['\r'] == a + "\n\r"
    ensures a + "\n" + (['\r'] + ("\n" + b)) == a + "\n\r" + ("\n" + b)
    ensures a + "\n\r" + ("\n" + b) == a + "\n\r\n" + b
    ensures a + "\n" + ("\n" + b) == a + "\n\n" + b
  {
  }

  lemma NormalizeSingle(c: char)
    ensures Normalize([c]) == [c]
  {
  }

  lemma NormalizeKeep(c: char, s: string)
    requires c != '\r'
    ensures Normalize([c] + s) == [c] + Normalize(s)
  {
    assert ([c] + s)[1..] == s;
  }

  lemma NormalizeDrop(s: string)
    requires s != "" && s[0] == '\n'
    ensures Normalize(['\r'] + s) == Normalize(s)
  {
    assert (['\r'] + s)[1..] == s;
  }

  lemma JoinTwo(p: string, q: string)
    ensures Text.Join([p, q], "\n") == p + "\n" + q
  {
    assert [p, q][1..] == [q];
  }

  lemma LinesAtTheCut(a: string, b: string)
    requires '\n' !in a
    ensures LinesOf(a + "\n\n" + b) == [a, ""] + LinesOf(b)
    ensures LinesOf(a + "\n\r\n" + b) == [a, "\r"] + LinesOf(b)
  {
    LineThen("", b);
    LineThen("\r", b);
    LineThen(a, "\n" + b);
    LineThen(a, "\r\n" + b);
    assert a + "\n" + ("\n" + b) == a + "\n\n" + b && a + "\n" + ("\r\n" + b) == a + "\n\r\n" + b;
    assert "" + "\n" + b == "\n" + b && "\r" + "\n" + b == "\r\n" + b;
    assert [a] + ([""] + LinesOf(b)) == [a, ""] + LinesOf(b) && [a] + (["\r"] + LinesOf(b)) == [a, "\r"] + LinesOf(b);
  }

  lemma LineThen(line: string, rest: string)
    requires '\n' !in line
    ensures LinesOf(line + "\n" + rest) == [line] + LinesOf(rest)
  {
    Text.SplitAtSeparator(line, '\n', rest);
  }

  /** A data line and a line without data: the event ends there if that line is blank. */
  lemma ReadAround(a: string, between: string, rest: seq<string>, p: string)
    requires a != "" && DataOf(a) == [p] && DataOf(between) == []
    ensures ReadLines([a, between] + rest, [])
         == if between == "" then [[p]] + ReadLines(rest, []) else ReadLines(rest, [p])
  {
    var lines := [a, between] + rest;
    ReadLine(lines, []);
    assert lines[1..] == [between] + rest && [] + [p] == [p];
    ReadLine([between] + rest, [p]);
    assert ([between] + rest)[1..] == rest && [p] + [] == [p];
  }

  /** The cut hides the blank line after the first event: what follows is read as part of it. */
  lemma CutAtBlankLine(p: string, rest: string)
    requires OneLinePayload(p) && '\r' !in rest
    ensures var chunks := [DataLine(p) + "\n\r", "\n" + rest];
            && ReadText(Normalize(Flatten(chunks))) == [[p]] + ReadLines(LinesOf(rest), [])
            && ReadText(NormalizeEach(chunks)) == ReadLines(LinesOf(rest), [p])
  {
    var a := DataLine(p);
    DataOfLine(p);
    CrlfAtTheCut(a, rest);
    LinesAtTheCut(a, rest);
    NoDataInBlank();
    Text.TrimOfSpaces("\r");
    ReadAround(a, "", LinesOf(rest), p);
    ReadAround(a, "\r", LinesOf(rest), p);
  }

  lemma ReadDataLine(lines: seq<string>, q: string, pending: Payload)
    requires OneLinePayload(q) && lines != [] && lines[0] == DataLine(q)
    ensures ReadLines(lines, pending) == ReadLines(lines[1..], pending + [q])
  {
    DataOfLine(q);
  }

  lemma ReadBlankLine(lines: seq<string>, pending: Payload)
    requires lines != [] && lines[0] == "" && pending != []
    ensures ReadLines(lines, pending) == [pending] + ReadLines(lines[1..], [])
  {
  }

  /** Two events of the text are read as one. */
  lemma CutHidesBlankLine(p: string, q: string)
    requires OneLinePayload(p) && OneLinePayload(q)
    ensures var chunks := [DataLine(p) + "\n\r", "\n" + DataLine(q)];
            && ReadText(Normalize(Flatten(chunks))) == [[p], [q]]
            && ReadText(NormalizeEach(chunks)) == [[p, q]]
            && !KeepsSeparators(chunks)
  {
    var b := DataLine(q);
    DataOfLine(q);
    Text.SplitPlain(b, '\n');
    CutAtBlankLine(p, b);
    ReadDataLine([b], q, []);
    ReadDataLine([b], q, [p]);
    assert [b][1..] == [] && [] + [q] == [q] && [p] + [q] == [p, q] && [[p]] + [[q]] == [[p], [q]];
    assert [[p], [q]][1] == [q];
    SamePayloadsIff([DataLine(p) + "\n\r", "\n" + b]);
  }

  /** An id that the first event gives is lost when no parser understands the two events read as one. */
  lemma CutInsideCrlfLosesTheId(parse: JsonParser, p: string, q: string, id: string)
    requires OneLinePayload(p) && OneLinePayload(q) && p != "[DONE]"
    requires parse(p) == Some(JObject(map["id" := JString(id)])) && Text.Trim(id) != ""
    requires parse(q).None? && parse(p + "\n" + q).None?
    ensures var chunks := [DataLine(p) + "\n\r", "\n" + DataLine(q)];
            && InspectText(parse, Flatten(chunks)).responseId == Some(Text.Trim(id))
            && InspectChunks(parse, chunks).responseId == None
            && !KeepsSeparators(chunks)
  {
    var chunks := [DataLine(p) + "\n\r", "\n" + DataLine(q)];
    CutHidesBlankLine(p, q);
    ReportByLines(parse, Normalize(Flatten(chunks)));
    ReportByLines(parse, NormalizeEach(chunks));
    WrappedGivesNothing(parse, q);
    WrappedGivesNothing(parse, p + "\n" + q);
    JoinTwo(p, q);
    ReportOfEvents(parse, p, q);
    IdIsGiven(parse, p, id);
  }

  lemma ReportOfEvents(parse: JsonParser, p: string, q: string)
    ensures ReportOf(parse, TextsOf([[p], [q]])) == Absorb(PayloadFacts(parse, p), PayloadFacts(parse, q))
    ensures ReportOf(parse, TextsOf([[p, q]])) == PayloadFacts(parse, p + "\n" + q)
  {
    var two, one: seq<Payload> := [[p], [q]], [[p, q]];
    JoinTwo(p, q);
    assert two[1..] == [[q]] && [[q]][1..] == [] && one[1..] == [];
    assert TextsOf([[q]]) == [q] && TextsOf(two) == [p, q] && TextsOf(one) == [p + "\n" + q];
    assert [p, q][1..] == [q] && [q][1..] == [];
    assert ReportOf(parse, [q]) == PayloadFacts(parse, q);
  }

  lemma IdIsGiven(parse: JsonParser, p: string, id: string)
    requires IsParsed(p) && parse(p) == Some(JObject(map["id" := JString(id)])) && Text.Trim(id) != ""
    ensures PayloadFacts(parse, p).responseId == Some(Text.Trim(id))
  {
  }

  lemma SamplePayloads() returns (p: string, q: string)
    ensures OneLinePayload(p) && OneLinePayload(q) && p != q && p != "[DONE]"
  {
    p, q := "A", "B";
  }

  /** So with the CRLF of a blank line cut in two, the inspector can miss a response id that the text gives. */
  lemma CutInsideCrlfMatters() returns (parse: JsonParser, chunks: seq<string>)
    ensures !KeepsSeparators(chunks)
    ensures InspectChunks(parse, chunks) != InspectText(parse, Flatten(chunks))
  {
    var p, q := SamplePayloads();
    parse := s => if s == p then Some(JObject(map["id" := JString(p)])) else None;
    chunks := [DataLine(p) + "\n\r", "\n" + DataLine(q)];
    assert Text.Trim(p) == p by {
      Text.TrimFixesTrimmed(p);
    }
    assert |p + "\n" + q| > |p|;
    CutInsideCrlfLosesTheId(parse, p, q, p);
  }

  lemma WrappedGivesNothing(parse: JsonParser, payload: string)
    requires parse(payload).None?
    ensures PayloadFacts(parse, payload) == NO_FACTS
  {
  }

  lemma NormalizePlainPrefix(prefix: string, tail: string)
    requires '\r' !in prefix
    ensures Normalize(prefix + tail) == prefix + Normalize(tail)
  {
    if prefix == "" {
      assert prefix + tail == tail;
    } else {
      assert (prefix + tail)[1..] == prefix[1..] + tail;
      NormalizePlainPrefix(prefix[1..], tail);
    }
  }

  // A hidden separator need not show in the report: here the merged event, and both of the events it is
  // merged from, come again later in the stream.

  function LaterEvents(p: string, q: string): seq<string> {
    [DataLine(p), DataLine(q), "", DataLine(p), "", DataLine(q)]
  }

  lemma ReadLaterEvents(p: string, q: string)
    requires OneLinePayload(p) && OneLinePayload(q)
    ensures ReadLines(LaterEvents(p, q), []) == [[p, q], [p], [q]]
  {
    var a, b := DataLine(p), DataLine(q);
    ReadDataLine(LaterEvents(p, q), p, []);
    assert LaterEvents(p, q)[1..] == [b, "", a, "", b] && [] + [p] == [p] && [] + [q] == [q] && [p] + [q] == [p, q];
    ReadDataLine([b, "", a, "", b], q, [p]);
    assert [b, "", a, "", b][1..] == ["", a, "", b];
    ReadBlankLine(["", a, "", b], [p, q]);
    assert ["", a, "", b][1..] == [a, "", b];
    ReadDataLine([a, "", b], p, []);
    assert [a, "", b][1..] == ["", b];
    ReadBlankLine(["", b], [p]);
    assert ["", b][1..] == [b];
    ReadDataLine([b], q, []);
    assert [b][1..] == [] && ReadLines([], [q]) == [[q]];
    assert [[p, q]] + ([[p]] + [[q]]) == [[p, q], [p], [q]];
  }

  lemma {:induction false} JoinKeepsOut(parts: seq<string>, sep: string, c: char)
    requires c !in sep && forall i :: 0 <= i < |parts| ==> c !in parts[i]
    ensures c !in Text.Join(parts, sep)
  {
    if |parts| > 1 {
      JoinKeepsOut(parts[1..], sep, c);
    }
  }

  lemma MergedEventCanRepeat(p: string, q: string)
    requires OneLinePayload(p) && OneLinePayload(q)
    ensures var chunks := [DataLine(p) + "\n\r", "\n" + Text.Join([DataLine(q), ""] + LaterEvents(p, q), "\n")];
            !KeepsSeparators(chunks) && AgreesForEveryParser(chunks)
  {
    var lines := [DataLine(q), ""] + LaterEvents(p, q);
    var rest := Text.Join(lines, "\n");
    var chunks := [DataLine(p) + "\n\r", "\n" + rest];
    var later: seq<Payload> := [[p, q], [p], [q]];
    DataOfLine(p);
    DataOfLine(q);
    Text.SplitOfJoin(lines, '\n');
    JoinKeepsOut(lines, "\n", '\r');
    CutAtBlankLine(p, rest);
    ReadLaterEvents(p, q);
    AfterSecond(p, q);
    assert ReadText(Normalize(Flatten(chunks))) == [[p]] + ([[q]] + later);
    assert ReadText(NormalizeEach(chunks)) == [[p, q]] + later;
    assert ([[p]] + ([[q]] + later))[0] != ([[p, q]] + later)[0];
    SamePayloadsIff(chunks);
    forall parse
      ensures InspectChunks(parse, chunks) == InspectText(parse, Flatten(chunks))
    {
      ReportByLines(parse, Normalize(Flatten(chunks)));
      ReportByLines(parse, NormalizeEach(chunks));
      RepeatedReport(parse, [p], later);
      RepeatedReport(parse, [q], later);
      RepeatedReport(parse, [p, q], later);
      ReportOfFirst(parse, [p], [[q]] + later);
      ReportOfFirst(parse, [p], later);
    }
  }

  lemma AfterSecond(p: string, q: string)
    requires OneLinePayload(p) && OneLinePayload(q)
    ensures var lines, later := [DataLine(q), ""] + LaterEvents(p, q), ReadLines(LaterEvents(p, q), []);
            ReadLines(lines, []) == [[q]] + later && ReadLines(lines, [p]) == [[p, q]] + later
  {
    var lines := [DataLine(q), ""] + LaterEvents(p, q);
    assert lines[1..] == [""] + LaterEvents(p, q) && lines[1..][1..] == LaterEvents(p, q);
    assert [] + [q] == [q] && [p] + [q] == [p, q];
    ReadDataLine(lines, q, []);
    ReadDataLine(lines, q, [p]);
    ReadBlankLine(lines[1..], [q]);
    ReadBlankLine(lines[1..], [p, q]);
  }

  lemma ReportOfFirst(parse: JsonParser, first: Payload, rest: seq<Payload>)
    ensures ReportOf(parse, TextsOf([first] + rest))
         == Absorb(PayloadFacts(parse, Text.Join(first, "\n")), ReportOf(parse, TextsOf(rest)))
  {
    assert ([first] + rest)[1..] == rest;
    assert ([Text.Join(first, "\n")] + TextsOf(rest))[1..] == TextsOf(rest);
  }

  /** An event that comes again later adds nothing to the report. */
  lemma RepeatedReport(parse: JsonParser, first: Payload, rest: seq<Payload>)
    requires first in rest
    ensures ReportOf(parse, TextsOf([first] + rest)) == ReportOf(parse, TextsOf(rest))
  {
    ReportOfFirst(parse, first, rest);
    TextsOfMembers(rest);
    ReportCovers(parse, TextsOf(rest), Text.Join(first, "\n"));
  }

  // ---------------------------------------------------------------- last writer wins

  /** `r` is the last value given in `values`, None if there is none. */
  ghost predicate IsLastGiven<T>(values: seq<Option<T>>, r: Option<T>) {
    (r.None? && forall i :: 0 <= i < |values| ==> values[i].None?) ||
    (r.Some? && exists i :: 0 <= i < |values| && values[i] == r && forall j :: i < j < |values| ==> values[j].None?)
  }

  function Column<T>(facts: seq<Facts>, pick: Facts -> Option<T>): (column: seq<Option<T>>)
    ensures |column| == |facts|
  {
    seq(|facts|, i requires 0 <= i < |facts| => pick(facts[i]))
  }

  const RESPONSE_ID := (f: Facts) => f.responseId
  const MODEL := (f: Facts) => f.model
  const USAGE := (f: Facts) => f.usage

  ghost predicate LastWriterWins(facts: seq<Facts>, r: Facts) {
    && IsLastGiven(Column(facts, RESPONSE_ID), r.responseId)
    && IsLastGiven(Column(facts, MODEL), r.model)
    && IsLastGiven(Column(facts, USAGE), r.usage)
  }

  lemma LastGivenSnoc<T>(values: seq<Option<T>>, r: Option<T>, next: Option<T>)
    requires IsLastGiven(values, r)
    ensures IsLastGiven(values + [next], Later(r, next))
  {
    var all := values + [next];
    if next.Some? {
      assert all[|values|] == next;
    } else if r.Some? {
      var i :| 0 <= i < |values| && values[i] == r && forall j :: i < j < |values| ==> values[j].None?;
      assert all[i] == r;
    }
  }

  lemma LastWriterSnoc(facts: seq<Facts>, r: Facts, next: Facts)
    requires LastWriterWins(facts, r)
    ensures LastWriterWins(facts + [next], Absorb(r, next))
  {
    LastGivenSnoc(Column(facts, RESPONSE_ID), r.responseId, next.responseId);
    LastGivenSnoc(Column(facts, MODEL), r.model, next.model);
    LastGivenSnoc(Column(facts, USAGE), r.usage, next.usage);
    assert Column(facts + [next], RESPONSE_ID) == Column(facts, RESPONSE_ID) + [next.responseId];
    assert Column(facts + [next], MODEL) == Column(facts, MODEL) + [next.model];
    assert Column(facts + [next], USAGE) == Column(facts, USAGE) + [next.usage];
  }

  lemma {:induction false} AbsorbAllIsLastWriter(facts: seq<Facts>)
    ensures LastWriterWins(facts, AbsorbAll(NO_FACTS, facts))
  {
    if facts != [] {
      var n := |facts| - 1;
      var before, last := facts[..n], facts[n];
      AbsorbAllIsLastWriter(before);
      AbsorbAppend(NO_FACTS, before, [last]);
      AbsorbOne(AbsorbAll(NO_FACTS, before), last);
      LastWriterSnoc(before, AbsorbAll(NO_FACTS, before), last);
      assert facts == before + [last];
    }
  }

  /** The main result: unless the cuts hide a separator, each fact is the one given by the last block that gives it. */
  lemma StreamReportsLastWriter(parse: JsonParser, chunks: seq<string>)
    requires KeepsSeparators(chunks)
    ensures LastWriterWins(AllFacts(parse, EventBlocks(Normalize(Flatten(chunks)))), InspectChunks(parse, chunks))
  {
    KeptSeparatorsSuffice(parse, chunks);
    AbsorbAllIsLastWriter(AllFacts(parse, EventBlocks(Normalize(Flatten(chunks)))));
  }
}
