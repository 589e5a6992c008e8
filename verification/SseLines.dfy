/**
 Reading server-sent events line by line: data lines are collected until a blank line ends the event.
 Cutting a buffer at its leftmost blank lines comes to the same, and the lines show what becomes of a text
 whose line ends are replaced in parts.
 */
module SseLines {
  import opened Common
  import opened SseEvents
  import Text

  /** The data lines of an event; an event without any is not there. */
  type Payload = seq<string>

  function Emit(pending: Payload): seq<Payload> {
    if pending == [] then [] else [pending]
  }

  /** A blank line ends the event whose data lines are pending. */
  function ReadLines(lines: seq<string>, pending: Payload): seq<Payload>
    decreases |lines|
  {
    if lines == [] then Emit(pending)
    else if lines[0] == "" then Emit(pending) + ReadLines(lines[1..], [])
    else ReadLines(lines[1..], pending + DataOf(lines[0]))
  }

  function LinesOf(s: string): (lines: seq<string>)
    ensures |lines| >= 1
  {
    Text.Split(s, '\n')
  }

  /** The events of a text, line by line. */
  function ReadText(s: string): seq<Payload> {
    ReadLines(LinesOf(s), [])
  }

  function PayloadsOf(blocks: seq<string>): seq<Payload> {
    if blocks == [] then [] else Emit(DataLines(LinesOf(blocks[0]))) + PayloadsOf(blocks[1..])
  }

  // ---------------------------------------------------------------- blocks and lines

  lemma NoDataInBlank()
    ensures DataOf("") == []
  {
  }

  lemma {:induction false} ReadThrough(lines: seq<string>, rest: seq<string>, pending: Payload)
    requires forall i :: 0 <= i < |lines| ==> lines[i] != ""
    ensures ReadLines(lines + rest, pending) == ReadLines(rest, pending + DataLines(lines))
    decreases |lines|
  {
    if lines == [] {
      assert lines + rest == rest && pending + [] == pending;
    } else {
      assert (lines + rest)[1..] == lines[1..] + rest && (lines + rest)[0] == lines[0];
      ReadThrough(lines[1..], rest, pending + DataOf(lines[0]));
      assert pending + DataOf(lines[0]) + DataLines(lines[1..]) == pending + DataLines(lines);
    }
  }

  /** Between the first and the last line, a blank line is a blank line of the text. */
  lemma {:induction false} InnerLines(s: string)
    requires FindBlankLine(s).None?
    ensures forall i :: 0 < i < |LinesOf(s)| - 1 ==> LinesOf(s)[i] != ""
    ensures |LinesOf(s)| > 1 && s[|s| - 1] != '\n' ==> LinesOf(s)[|LinesOf(s)| - 1] != ""
    ensures LinesOf(s)[0] == "" <==> s == "" || s[0] == '\n'
  {
    if s != "" {
      assert forall i :: BlankLineAt(s[1..], i) ==> BlankLineAt(s, i + 1);
      assert FindBlankLine(s[1..]).None?;
      InnerLines(s[1..]);
      assert s[0] == '\n' && |s| > 1 && s[1] == '\n' ==> BlankLineAt(s, 0);
    }
  }

  /** A block without a blank line inside reads as one event, whatever follows its end. */
  lemma ReadBlock(block: string, rest: seq<string>)
    requires FindBlankLine(block).None? && (block == "" || block[|block| - 1] != '\n')
    ensures ReadLines(LinesOf(block) + ([""] + rest), []) == Emit(DataLines(LinesOf(block))) + ReadLines(rest, [])
  {
    var lines := LinesOf(block);
    InnerLines(block);
    NoDataInBlank();
    if lines[0] == "" {
      assert (lines + ([""] + rest))[1..] == lines[1..] + ([""] + rest);
      ReadThrough(lines[1..], [""] + rest, []);
      assert [] + DataLines(lines[1..]) == DataLines(lines);
    } else {
      ReadThrough(lines, [""] + rest, []);
      assert [] + DataLines(lines) == DataLines(lines);
    }
    assert ([""] + rest)[1..] == rest;
  }

  lemma ReadRest(rest: string)
    requires FindBlankLine(rest).None?
    ensures ReadText(rest) == Emit(DataLines(LinesOf(rest)))
  {
    var lines := LinesOf(rest);
    InnerLines(rest);
    if lines[0] == "" && |lines| > 1 {
      ReadToLast(lines[1..]);
      NoDataInBlank();
      assert Emit([]) + ReadLines(lines[1..], []) == ReadLines(lines[1..], []);
      assert [] + DataLines(lines[1..]) == DataLines(lines[1..]);
    } else {
      ReadToLast(lines);
    }
  }

  lemma ReadToLast(lines: seq<string>)
    requires lines != [] && forall i :: 0 <= i < |lines| - 1 ==> lines[i] != ""
    ensures ReadLines(lines, []) == Emit(DataLines(lines))
  {
    var n := |lines| - 1;
    ReadThrough(lines[..n], [lines[n]], []);
    LastLine(lines[..n], lines[n]);
    assert lines[..n] + [lines[n]] == lines;
    assert [] + DataLines(lines[..n]) == DataLines(lines[..n]);
  }

  lemma LastLine(inner: seq<string>, last: string)
    ensures ReadLines([last], DataLines(inner)) == Emit(DataLines(inner + [last]))
  {
    NoDataInBlank();
    DataLinesSnoc(inner, last);
    assert [last][1..] == [];
    assert last == "" ==> DataLines(inner) + [] == DataLines(inner);
  }

  lemma {:induction false} DataLinesSnoc(lines: seq<string>, last: string)
    ensures DataLines(lines + [last]) == DataLines(lines) + DataOf(last)
  {
    if lines == [] {
      assert lines + [last] == [last] && [last][1..] == [];
    } else {
      assert (lines + [last])[1..] == lines[1..] + [last];
      DataLinesSnoc(lines[1..], last);
    }
  }

  lemma {:induction false} SplitSpaces(s: string)
    requires forall k :: 0 <= k < |s| ==> Text.IsSpace(s[k])
    ensures forall i, k :: 0 <= i < |LinesOf(s)| && 0 <= k < |LinesOf(s)[i]| ==> Text.IsSpace(LinesOf(s)[i][k])
  {
    if s != "" {
      var rest := LinesOf(s[1..]);
      SplitSpaces(s[1..]);
      if s[0] == '\n' {
        assert LinesOf(s) == [""] + rest;
      } else {
        assert LinesOf(s) == [[s[0]] + rest[0]] + rest[1..];
      }
    }
  }

  lemma {:induction false} NoDataInSpaces(lines: seq<string>)
    requires forall i, k :: 0 <= i < |lines| && 0 <= k < |lines[i]| ==> Text.IsSpace(lines[i][k])
    ensures DataLines(lines) == []
  {
    if lines != [] {
      Text.TrimOfSpaces(lines[0]);
      NoDataInSpaces(lines[1..]);
    }
  }

  lemma PayloadsOfRest(rest: string)
    ensures PayloadsOf(if |Text.Trim(rest)| > 0 then [rest] else []) == Emit(DataLines(LinesOf(rest)))
  {
    if |Text.Trim(rest)| == 0 {
      Text.TrimOfSpaces(rest);
      SplitSpaces(rest);
      NoDataInSpaces(LinesOf(rest));
    } else {
      assert [rest][1..] == [];
    }
  }

  lemma {:induction false} PayloadsAppend(a: seq<string>, b: seq<string>)
    ensures PayloadsOf(a + b) == PayloadsOf(a) + PayloadsOf(b)
  {
    if a == [] {
      assert a + b == b;
    } else {
      assert (a + b)[1..] == a[1..] + b;
      PayloadsAppend(a[1..], b);
    }
  }

  lemma SplitAtBlankLine(s: string, i: nat)
    requires FindBlankLine(s) == Some(i)
    ensures LinesOf(s) == LinesOf(s[..i]) + ([""] + LinesOf(s[i + 2..]))
    ensures FindBlankLine(s[..i]).None? && (i == 0 || s[i - 1] != '\n')
  {
    var block, tail := s[..i], s[i + 2..];
    Text.SplitConcat(block, '\n', ['\n'] + tail);
    Text.SplitConcat("", '\n', tail);
    assert s == block + ['\n'] + (['\n'] + tail);
    assert "" + ['\n'] + tail == ['\n'] + tail;
    assert forall k :: BlankLineAt(block, k) ==> BlankLineAt(s, k);
    assert i > 0 && s[i - 1] == '\n' ==> BlankLineAt(s, i - 1);
  }

  lemma {:induction false} CutIsLines(s: string)
    ensures ReadText(s) == PayloadsOf(CutBlocks(s).blocks) + Emit(DataLines(LinesOf(CutBlocks(s).rest)))
    decreases |s|
  {
    match FindBlankLine(s)
    case None => ReadRest(s);
    case Some(i) =>
      var cut := CutBlocks(s[i + 2..]);
      CutAtFirst(s, i);
      ReadTextCut(s, i);
      CutIsLines(s[i + 2..]);
      PayloadsCons(s[..i], cut.blocks, Emit(DataLines(LinesOf(cut.rest))));
  }

  lemma ReadTextCut(s: string, i: nat)
    requires FindBlankLine(s) == Some(i)
    ensures ReadText(s) == Emit(DataLines(LinesOf(s[..i]))) + ReadText(s[i + 2..])
  {
    SplitAtBlankLine(s, i);
    ReadBlock(s[..i], LinesOf(s[i + 2..]));
  }

  lemma PayloadsCons(block: string, blocks: seq<string>, more: seq<Payload>)
    ensures PayloadsOf([block] + blocks) + more == Emit(DataLines(LinesOf(block))) + (PayloadsOf(blocks) + more)
  {
    assert ([block] + blocks)[1..] == blocks;
    Associative(Emit(DataLines(LinesOf(block))), PayloadsOf(blocks), more);
  }

  lemma Associative(a: seq<Payload>, b: seq<Payload>, c: seq<Payload>)
    ensures a + b + c == a + (b + c)
  {
  }

  /** Cutting a text at its leftmost blank lines gives the same events as reading it line by line. */
  lemma BlocksAreLines(s: string)
    ensures PayloadsOf(EventBlocks(s)) == ReadText(s)
  {
    var cut := CutBlocks(s);
    CutIsLines(s);
    PayloadsOfRest(cut.rest);
    PayloadsAppend(cut.blocks, if |Text.Trim(cut.rest)| > 0 then [cut.rest] else []);
  }

  // ---------------------------------------------------------------- line ends replaced in parts

  /**
   What is left of text `t` from `p` on when CRLF is replaced piece by piece and `cuts` are the positions
   between the pieces: a carriage return goes unless the line feed after it begins a piece.
   */
  function Kept(t: string, p: nat, cuts: set<nat>): string
    requires p <= |t|
    decreases |t| - p
  {
    if p == |t| then ""
    else if p + 1 < |t| && t[p] == '\r' && t[p + 1] == '\n' && p + 1 !in cuts then Kept(t, p + 1, cuts)
    else [t[p]] + Kept(t, p + 1, cuts)
  }

  /** The positions at which the chunks end, counted from `p`. */
  function CutsOf(chunks: seq<string>, p: nat): (cuts: set<nat>)
    ensures forall q :: q in cuts ==> p <= q
  {
    if chunks == [] then {} else {p + |chunks[0]|} + CutsOf(chunks[1..], p + |chunks[0]|)
  }

  lemma {:induction false} KeptIgnores(t: string, p: nat, cuts: set<nat>, others: set<nat>)
    requires p <= |t| && forall q :: q > p ==> (q in cuts <==> q in others)
    ensures Kept(t, p, cuts) == Kept(t, p, others)
    decreases |t| - p
  {
    if p < |t| {
      KeptIgnores(t, p + 1, cuts, others);
    }
  }

  /** Up to the next cut, a piece is replaced on its own. */
  lemma {:induction false} KeptPiece(t: string, p: nat, q: nat, cuts: set<nat>)
    requires p <= q <= |t| && (q in cuts || q == |t|) && forall x :: p < x < q ==> x !in cuts
    ensures Kept(t, p, cuts) == Normalize(t[p..q]) + Kept(t, q, cuts)
    decreases q - p
  {
    if p < q {
      KeptPiece(t, p + 1, q, cuts);
      assert t[p..q][1..] == t[p + 1..q] && t[p..q][0] == t[p];
      assert p + 1 < q ==> t[p..q][1] == t[p + 1];
    }
  }

  lemma {:induction false} KeptIsEach(t: string, p: nat, chunks: seq<string>)
    requires p <= |t| && t[p..] == Flatten(chunks)
    ensures Kept(t, p, CutsOf(chunks, p)) == NormalizeEach(chunks)
    decreases |chunks|
  {
    if chunks != [] {
      var q, cuts, later := p + |chunks[0]|, CutsOf(chunks, p), CutsOf(chunks[1..], p + |chunks[0]|);
      assert t[p..][..|chunks[0]|] == chunks[0] == t[p..q];
      assert t[p..][|chunks[0]|..] == Flatten(chunks[1..]) == t[q..];
      KeptIsEach(t, q, chunks[1..]);
      KeptPiece(t, p, q, cuts);
      KeptIgnores(t, q, cuts, later);
    }
  }

  lemma KeptIsNormalize(t: string)
    ensures Kept(t, 0, {}) == Normalize(t)
  {
    KeptPiece(t, 0, |t|, {});
    assert t[0..|t|] == t;
  }

  /** A cut inside a CRLF that ends a blank line: the carriage return directly follows a line feed. */
  predicate CutsBlankLine(t: string, q: nat) {
    2 <= q < |t| && t[q - 2] == '\n' && t[q - 1] == '\r' && t[q] == '\n'
  }

  /** Line by line, the piecewise result is the whole one, up to a carriage return at the end of a line. */
  predicate Marked(whole: seq<string>, parts: seq<string>)
    ensures Marked(whole, parts) ==> |whole| == |parts|
    decreases |whole|
  {
    if whole == [] || parts == [] then whole == parts
    else (parts[0] == whole[0] || parts[0] == whole[0] + "\r") && Marked(whole[1..], parts[1..])
  }

  /** Blank lines stay blank, except perhaps for the first line. */
  ghost predicate KeepsBlank(whole: seq<string>, parts: seq<string>) {
    && |whole| == |parts|
    && forall i :: 0 < i < |whole| && whole[i] == "" ==> parts[i] == ""
  }

  /** `safe` says that no cut is inside the CRLF of a blank line, `after` that a line feed comes right before. */
  ghost predicate Related(whole: string, parts: string, safe: bool, after: bool) {
    && Marked(LinesOf(whole), LinesOf(parts))
    && (safe ==> KeepsBlank(LinesOf(whole), LinesOf(parts)))
    && (safe && after && LinesOf(whole)[0] == "" ==> LinesOf(parts)[0] == "")
  }

  lemma LineEnd(rest: string)
    ensures LinesOf(['\n'] + rest) == [""] + LinesOf(rest)
    ensures LinesOf(['\r'] + (['\n'] + rest)) == ["\r"] + LinesOf(rest)
  {
    assert (['\n'] + rest)[1..] == rest;
    assert (['\r'] + (['\n'] + rest))[1..] == ['\n'] + rest;
    assert ['\r'] + "" == "\r" && ([""] + LinesOf(rest))[1..] == LinesOf(rest);
  }

  lemma LineStart(c: char, rest: string)
    requires c != '\n'
    ensures LinesOf([c] + rest) == [[c] + LinesOf(rest)[0]] + LinesOf(rest)[1..]
  {
    assert ([c] + rest)[1..] == rest;
  }

  lemma MarkedCons(first: string, whole: seq<string>, second: string, parts: seq<string>)
    requires Marked(whole, parts) && (second == first || second == first + "\r")
    ensures Marked([first] + whole, [second] + parts)
  {
    assert ([first] + whole)[1..] == whole && ([second] + parts)[1..] == parts;
  }

  lemma CharRelated(c: char, whole: string, parts: string, safe: bool, after: bool)
    requires c != '\n' && Related(whole, parts, safe, false)
    ensures Related([c] + whole, [c] + parts, safe, after)
  {
    var w, b := LinesOf(whole), LinesOf(parts);
    LineStart(c, whole);
    LineStart(c, parts);
    assert [c] + (w[0] + "\r") == [c] + w[0] + "\r";
    MarkedCons([c] + w[0], w[1..], [c] + b[0], b[1..]);
  }

  lemma NewlineRelated(whole: string, parts: string, safe: bool, after: bool)
    requires Related(whole, parts, safe, true)
    ensures Related(['\n'] + whole, ['\n'] + parts, safe, after)
  {
    LineEnd(whole);
    LineEnd(parts);
    MarkedCons("", LinesOf(whole), "", LinesOf(parts));
  }

  lemma ReturnRelated(whole: string, parts: string, safe: bool, after: bool)
    requires Related(whole, parts, safe, true) && !(safe && after)
    ensures Related(['\n'] + whole, ['\r'] + (['\n'] + parts), safe, after)
  {
    LineEnd(whole);
    LineEnd(parts);
    assert "" + "\r" == "\r";
    MarkedCons("", LinesOf(whole), "\r", LinesOf(parts));
  }

  ghost predicate Safe(t: string, cuts: set<nat>) {
    forall q :: q in cuts ==> !CutsBlankLine(t, q)
  }

  predicate AfterNewline(t: string, p: nat)
    requires p <= |t|
  {
    p > 0 && t[p - 1] == '\n'
  }

  lemma {:induction false} KeptRelated(t: string, p: nat, cuts: set<nat>)
    requires p <= |t|
    ensures Related(Kept(t, p, {}), Kept(t, p, cuts), Safe(t, cuts), AfterNewline(t, p))
    decreases |t| - p
  {
    if p == |t| {
    } else if p + 1 < |t| && t[p] == '\r' && t[p + 1] == '\n' {
      var whole, parts := Kept(t, p + 2, {}), Kept(t, p + 2, cuts);
      KeptRelated(t, p + 2, cuts);
      KeptPair(t, p, cuts);
      if p + 1 in cuts {
        assert AfterNewline(t, p) ==> CutsBlankLine(t, p + 1);
        ReturnRelated(whole, parts, Safe(t, cuts), AfterNewline(t, p));
      } else {
        NewlineRelated(whole, parts, Safe(t, cuts), AfterNewline(t, p));
      }
    } else if t[p] == '\n' {
      KeptRelated(t, p + 1, cuts);
      NewlineRelated(Kept(t, p + 1, {}), Kept(t, p + 1, cuts), Safe(t, cuts), AfterNewline(t, p));
    } else {
      KeptRelated(t, p + 1, cuts);
      CharRelated(t[p], Kept(t, p + 1, {}), Kept(t, p + 1, cuts), Safe(t, cuts), AfterNewline(t, p));
    }
  }

  lemma KeptPair(t: string, p: nat, cuts: set<nat>)
    requires p + 1 < |t| && t[p] == '\r' && t[p + 1] == '\n'
    ensures Kept(t, p, {}) == ['\n'] + Kept(t, p + 2, {})
    ensures Kept(t, p, cuts) == if p + 1 in cuts then ['\r'] + (['\n'] + Kept(t, p + 2, cuts))
                                else ['\n'] + Kept(t, p + 2, cuts)
  {
    assert Kept(t, p + 1, {}) == ['\n'] + Kept(t, p + 2, {});
    assert Kept(t, p + 1, cuts) == ['\n'] + Kept(t, p + 2, cuts);
  }

  // ---------------------------------------------------------------- when the events stay the same

  /** After line j, data comes at line k before any surviving blank line; a blank line between them is lost, or was before. */
  ghost predicate ReachesData(whole: seq<string>, parts: seq<string>, j: int, k: int, lost: bool)
    requires |whole| == |parts|
  {
    && -1 <= j < k < |whole| && DataOf(whole[k]) != []
    && (forall i :: j < i < k ==> parts[i] != "")
    && (lost || exists i :: j < i < k && whole[i] == "")
  }

  /** A blank line between two data lines is lost, and no other one is left between them. */
  ghost predicate LosesSeparator(whole: seq<string>, parts: seq<string>)
    requires |whole| == |parts|
  {
    exists j, k :: 0 <= j < |whole| && DataOf(whole[j]) != [] && ReachesData(whole, parts, j, k, false)
  }

  /** The same as a reader finds it out, knowing whether data is pending and whether it should have been emitted. */
  predicate Glues(whole: seq<string>, parts: seq<string>, pending: bool, lost: bool)
    requires |whole| == |parts|
    decreases |whole|
  {
    if whole == [] then false
    else if whole[0] == "" then
      if parts[0] == "" then Glues(whole[1..], parts[1..], false, false)
      else Glues(whole[1..], parts[1..], pending, lost || pending)
    else if DataOf(whole[0]) != [] then lost || Glues(whole[1..], parts[1..], true, false)
    else Glues(whole[1..], parts[1..], pending, lost)
  }

  lemma {:induction false} FirstIsLonger(lines: seq<string>, pending: Payload)
    requires pending != []
    ensures ReadLines(lines, pending) != [] && |ReadLines(lines, pending)[0]| >= |pending|
    decreases |lines|
  {
    if lines != [] && lines[0] != "" {
      FirstIsLonger(lines[1..], pending + DataOf(lines[0]));
    }
  }

  lemma MarkedHead(whole: seq<string>, parts: seq<string>)
    requires Marked(whole, parts) && whole != []
    ensures DataOf(parts[0]) == DataOf(whole[0]) && (parts[0] == "" ==> whole[0] == "")
    ensures whole[0] == "" ==> DataOf(whole[0]) == []
  {
    Text.TrimSpaceAfter(whole[0], '\r');
    NoDataInBlank();
  }

  lemma ReadLine(lines: seq<string>, pending: Payload)
    requires lines != []
    ensures ReadLines(lines, pending)
         == if lines[0] == "" then Emit(pending) + ReadLines(lines[1..], [])
            else ReadLines(lines[1..], pending + DataOf(lines[0]))
    ensures pending + [] == pending
  {
  }

  lemma Cancel(a: seq<Payload>, x: seq<Payload>, y: seq<Payload>)
    ensures a + x == a + y <==> x == y
  {
    if a + x == a + y {
      assert x == (a + x)[|a|..] == (a + y)[|a|..] == y;
    }
  }

  lemma EmittedOnBoth(parts: seq<Payload>, whole: seq<Payload>, pending: Payload, lost: bool)
    requires lost ==> pending != []
    ensures (Emit(pending) + parts == if lost then [pending] + (Emit([]) + whole) else Emit(pending) + whole)
       <==> parts == whole
  {
    Cancel(Emit(pending), parts, whole);
    assert Emit([]) + whole == whole;
  }

  lemma EmittedOnOne(parts: seq<Payload>, whole: seq<Payload>, pending: Payload, lost: bool)
    requires lost ==> pending != []
    ensures (parts == if lost then [pending] + (Emit([]) + whole) else Emit(pending) + whole)
       <==> (parts == if lost || pending != [] then [pending] + whole else whole)
  {
    assert Emit([]) + whole == whole;
  }

  /** Reading both gives the same events exactly when nothing is glued; `lost` events are emitted on one side already. */
  lemma {:induction false} ReadGlued(whole: seq<string>, parts: seq<string>, pending: Payload, lost: bool)
    requires Marked(whole, parts) && (lost ==> pending != [])
    ensures ReadLines(parts, pending) == (if lost then [pending] + ReadLines(whole, []) else ReadLines(whole, pending))
       <==> !Glues(whole, parts, pending != [], lost)
    decreases |whole|
  {
    if whole != [] {
      MarkedHead(whole, parts);
      ReadLine(whole, pending);
      ReadLine(whole, []);
      ReadLine(parts, pending);
      var n, b, data := whole[1..], parts[1..], DataOf(whole[0]);
      if whole[0] == "" && parts[0] == "" {
        ReadGlued(n, b, [], false);
        EmittedOnBoth(ReadLines(b, []), ReadLines(n, []), pending, lost);
      } else if whole[0] == "" {
        ReadGlued(n, b, pending, lost || pending != []);
        EmittedOnOne(ReadLines(b, pending), ReadLines(n, []), pending, lost);
      } else if data == [] {
        ReadGlued(n, b, pending, lost);
      } else if lost {
        FirstIsLonger(b, pending + data);
        assert ([pending] + ReadLines(whole, []))[0] == pending;
      } else {
        ReadGlued(n, b, pending + data, false);
      }
    }
  }

  /** Pending data is reached from the start. */
  ghost predicate Gap(whole: seq<string>, parts: seq<string>, pending: bool, lost: bool)
    requires |whole| == |parts|
  {
    pending && exists k :: ReachesData(whole, parts, -1, k, lost)
  }

  lemma ReachesInRest(whole: seq<string>, parts: seq<string>, j: int, k: int, lost: bool)
    requires |whole| == |parts| > 0 && 0 <= j
    ensures ReachesData(whole, parts, j, k, lost) <==> ReachesData(whole[1..], parts[1..], j - 1, k - 1, lost)
  {
    var n, b := whole[1..], parts[1..];
    if ReachesData(whole, parts, j, k, lost) {
      assert forall i :: j - 1 < i < k - 1 ==> b[i] == parts[i + 1];
      if !lost {
        var i :| j < i < k && whole[i] == "";
        assert n[i - 1] == "";
      }
    }
    if ReachesData(n, b, j - 1, k - 1, lost) {
      assert forall i :: j < i < k ==> parts[i] == b[i - 1];
      if !lost {
        var i :| j - 1 < i < k - 1 && n[i] == "";
        assert whole[i + 1] == "";
      }
    }
  }

  lemma ReachesFromStart(whole: seq<string>, parts: seq<string>, k: int, lost: bool)
    requires |whole| == |parts| && k > 0
    ensures ReachesData(whole, parts, -1, k, lost) <==>
              k < |whole| && parts[0] != "" && ReachesData(whole, parts, 0, k, lost || whole[0] == "")
  {
    if ReachesData(whole, parts, -1, k, lost) && !lost && whole[0] != "" {
      var i :| -1 < i < k && whole[i] == "";
      assert 0 < i < k;
    }
  }

  lemma GapCons(whole: seq<string>, parts: seq<string>, pending: bool, lost: bool)
    requires |whole| == |parts| > 0 && (whole[0] == "" ==> DataOf(whole[0]) == []) && (parts[0] == "" ==> whole[0] == "")
    ensures Gap(whole, parts, pending, lost) <==>
              || (pending && lost && DataOf(whole[0]) != [])
              || (parts[0] != "" && Gap(whole[1..], parts[1..], pending, lost || whole[0] == ""))
  {
    var n, b, later := whole[1..], parts[1..], lost || whole[0] == "";
    if k :| ReachesData(whole, parts, -1, k, lost) {
      if k > 0 {
        ReachesFromStart(whole, parts, k, lost);
        ReachesInRest(whole, parts, 0, k, later);
        assert ReachesData(n, b, -1, k - 1, later);
      }
    }
    if k :| ReachesData(n, b, -1, k, later) {
      ReachesInRest(whole, parts, 0, k + 1, later);
      ReachesFromStart(whole, parts, k + 1, lost);
      assert parts[0] != "" ==> ReachesData(whole, parts, -1, k + 1, lost);
    }
    assert lost && DataOf(whole[0]) != [] ==> ReachesData(whole, parts, -1, 0, lost);
  }

  lemma LosesCons(whole: seq<string>, parts: seq<string>)
    requires |whole| == |parts| > 0
    ensures LosesSeparator(whole, parts) <==>
              LosesSeparator(whole[1..], parts[1..]) || (DataOf(whole[0]) != [] && Gap(whole[1..], parts[1..], true, false))
  {
    if LosesSeparator(whole, parts) {
      var j, k :| 0 <= j < |whole| && DataOf(whole[j]) != [] && ReachesData(whole, parts, j, k, false);
      LossInRest(whole, parts, j, k);
    } else {
      NoLossInRest(whole, parts, whole[1..], parts[1..]);
    }
  }

  lemma NoLossInRest(whole: seq<string>, parts: seq<string>, n: seq<string>, b: seq<string>)
    requires |whole| == |parts| > 0 && n == whole[1..] && b == parts[1..] && !LosesSeparator(whole, parts)
    ensures !LosesSeparator(n, b)
    ensures DataOf(whole[0]) != [] ==> !Gap(n, b, true, false)
  {
    if LosesSeparator(n, b) {
      var j, k :| 0 <= j < |n| && DataOf(n[j]) != [] && ReachesData(n, b, j, k, false);
      LossMoves(whole, parts, j, k);
    }
    if DataOf(whole[0]) != [] && Gap(n, b, true, false) {
      var k :| ReachesData(n, b, -1, k, false);
      ReachesInRest(whole, parts, 0, k + 1, false);
    }
  }

  lemma LossInRest(whole: seq<string>, parts: seq<string>, j: int, k: int)
    requires |whole| == |parts| > 0
    requires 0 <= j < |whole| && DataOf(whole[j]) != [] && ReachesData(whole, parts, j, k, false)
    ensures LosesSeparator(whole[1..], parts[1..]) || (DataOf(whole[0]) != [] && Gap(whole[1..], parts[1..], true, false))
  {
    var n, b := whole[1..], parts[1..];
    ReachesInRest(whole, parts, j, k, false);
    assert ReachesData(n, b, j - 1, k - 1, false);
    assert j > 0 ==> DataOf(n[j - 1]) != [];
  }

  lemma LossMoves(whole: seq<string>, parts: seq<string>, j: int, k: int)
    requires |whole| == |parts| > 0
    requires 0 <= j < |whole| - 1 && DataOf(whole[1..][j]) != [] && ReachesData(whole[1..], parts[1..], j, k, false)
    ensures LosesSeparator(whole, parts)
  {
    ReachesInRest(whole, parts, j + 1, k + 1, false);
    assert DataOf(whole[j + 1]) != [] && ReachesData(whole, parts, j + 1, k + 1, false);
  }

  lemma {:induction false} GluesMeans(whole: seq<string>, parts: seq<string>, pending: bool, lost: bool)
    requires Marked(whole, parts) && (lost ==> pending)
    ensures Glues(whole, parts, pending, lost) <==> LosesSeparator(whole, parts) || Gap(whole, parts, pending, lost)
    decreases |whole|
  {
    if whole != [] {
      MarkedHead(whole, parts);
      LosesCons(whole, parts);
      GapCons(whole, parts, pending, lost);
      var n, b := whole[1..], parts[1..];
      if whole[0] == "" && parts[0] == "" {
        GluesMeans(n, b, false, false);
      } else if whole[0] == "" {
        GluesMeans(n, b, pending, lost || pending);
      } else if DataOf(whole[0]) != [] {
        GluesMeans(n, b, true, false);
      } else {
        GluesMeans(n, b, pending, lost);
      }
    }
  }

  /** The events of the two readings are the same exactly when no separator is lost. */
  lemma SameEventsIff(whole: string, parts: string)
    requires Marked(LinesOf(whole), LinesOf(parts))
    ensures ReadText(parts) == ReadText(whole) <==> !LosesSeparator(LinesOf(whole), LinesOf(parts))
  {
    ReadGlued(LinesOf(whole), LinesOf(parts), [], false);
    GluesMeans(LinesOf(whole), LinesOf(parts), false, false);
  }

  /** A lost separator makes an event of two data lines or more. */
  lemma {:induction false} GluedIsLong(whole: seq<string>, parts: seq<string>, pending: Payload, lost: bool)
    requires Marked(whole, parts) && (lost ==> pending != []) && Glues(whole, parts, pending != [], lost)
    ensures exists g :: g in ReadLines(parts, pending) && |g| >= 2
    decreases |whole|
  {
    MarkedHead(whole, parts);
    ReadLine(parts, pending);
    var n, b, data := whole[1..], parts[1..], DataOf(whole[0]);
    if whole[0] == "" && parts[0] == "" {
      GluedIsLong(n, b, [], false);
    } else if whole[0] == "" {
      GluedIsLong(n, b, pending, lost || pending != []);
    } else if data != [] && lost {
      FirstIsLonger(b, pending + data);
      assert ReadLines(b, pending + data)[0] in ReadLines(b, pending + data);
    } else {
      GluedIsLong(n, b, pending + data, data == [] && lost);
    }
  }
}
