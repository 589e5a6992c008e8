/** The ECMAScript string operations the platform relies on: `trim`, `split` and `join`. */
module Text {

  /** WhiteSpace and LineTerminator of ECMAScript, which is what `String.prototype.trim` removes. */
  predicate IsSpace(c: char) {
    || '\t' <= c <= '\r'
    || c == ' '
    || c == '\U{00A0}'
    || c == '\U{1680}'
    || '\U{2000}' <= c <= '\U{200A}'
    || c == '\U{2028}' || c == '\U{2029}'
    || c == '\U{202F}' || c == '\U{205F}'
    || c == '\U{3000}' || c == '\U{FEFF}'
  }

  /** One by one: tab to carriage return, the space and no-break space, and the spaces and separators of Unicode. */
  lemma SpacesAre(c: char)
    ensures IsSpace(c) <==>
              c in {'\t', '\n', '\U{000B}', '\U{000C}', '\r', ' ', '\U{00A0}', '\U{1680}',
                    '\U{2000}', '\U{2001}', '\U{2002}', '\U{2003}', '\U{2004}', '\U{2005}', '\U{2006}', '\U{2007}',
                    '\U{2008}', '\U{2009}', '\U{200A}', '\U{2028}', '\U{2029}', '\U{202F}', '\U{205F}',
                    '\U{3000}', '\U{FEFF}'}
  {
  }

  predicate IsTrimmed(s: string) {
    s == "" || (!IsSpace(s[0]) && !IsSpace(s[|s| - 1]))
  }

  /** The index of the first character from `i` on that is not a space, or the length. */
  function SkipSpaces(s: string, i: nat): (r: nat)
    requires i <= |s|
    ensures i <= r <= |s|
    ensures r < |s| ==> !IsSpace(s[r])
    ensures forall k :: i <= k < r ==> IsSpace(s[k])
    decreases |s| - i
  {
    if i < |s| && IsSpace(s[i]) then SkipSpaces(s, i + 1) else i
  }

  /** The end of `s` without the spaces that end it, not going below `low`. */
  function DropSpaces(s: string, low: nat, end: nat): (r: nat)
    requires low <= end <= |s|
    ensures low <= r <= end
    ensures r > low ==> !IsSpace(s[r - 1])
    ensures forall k :: r <= k < end ==> IsSpace(s[k])
    decreases end
  {
    if end > low && IsSpace(s[end - 1]) then DropSpaces(s, low, end - 1) else end
  }

  function Trim(s: string): (r: string)
    ensures IsTrimmed(r)
    ensures |r| <= |s|
  {
    var start := SkipSpaces(s, 0);
    s[start..DropSpaces(s, start, |s|)]
  }

  /** Trimming takes away spaces at the two ends and nothing else. */
  lemma TrimIsSlice(s: string)
    ensures exists i, j :: && 0 <= i <= j <= |s| && Trim(s) == s[i..j]
                           && (forall k :: 0 <= k < i || j <= k < |s| ==> IsSpace(s[k]))
    ensures IsTrimmed(Trim(s))
  {
    var i := SkipSpaces(s, 0);
    var j := DropSpaces(s, i, |s|);
    assert Trim(s) == s[i..j];
  }

  lemma {:induction false} DropInside(s: string, c: char, low: nat, end: nat)
    requires low <= end <= |s|
    ensures DropSpaces(s + [c], low, end) == DropSpaces(s, low, end)
    decreases end
  {
    if end > low && IsSpace(s[end - 1]) {
      DropInside(s, c, low, end - 1);
    }
  }

  lemma {:induction false} SkipInside(s: string, c: char, i: nat)
    requires i <= |s| && IsSpace(c)
    ensures SkipSpaces(s + [c], i) == if SkipSpaces(s, i) < |s| then SkipSpaces(s, i) else |s| + 1
    decreases |s| - i
  {
    if i < |s| && IsSpace(s[i]) {
      SkipInside(s, c, i + 1);
    } else if i == |s| {
      assert SkipSpaces(s + [c], |s| + 1) == |s| + 1;
    }
  }

  /** A space at the end does not matter to trimming. */
  lemma TrimSpaceAfter(s: string, c: char)
    requires IsSpace(c)
    ensures Trim(s + [c]) == Trim(s)
  {
    var start := SkipSpaces(s, 0);
    SkipInside(s, c, 0);
    if start == |s| {
      assert Trim(s + [c]) == (s + [c])[|s| + 1..|s| + 1] == Trim(s);
    } else {
      DropLast(s, c, start);
      SliceBefore(s, c, start, DropSpaces(s, start, |s|));
    }
  }

  lemma SliceBefore(s: string, c: char, i: nat, j: nat)
    requires i <= j <= |s|
    ensures (s + [c])[i..j] == s[i..j]
  {
  }

  lemma DropLast(s: string, c: char, low: nat)
    requires low <= |s| && IsSpace(c)
    ensures DropSpaces(s + [c], low, |s| + 1) == DropSpaces(s, low, |s|)
  {
    assert (s + [c])[|s|] == c;
    DropInside(s, c, low, |s|);
  }

  lemma TrimOfSpaces(s: string)
    ensures Trim(s) == "" <==> forall k :: 0 <= k < |s| ==> IsSpace(s[k])
  {
    var start := SkipSpaces(s, 0);
    if Trim(s) == "" {
      assert DropSpaces(s, start, |s|) == start;
    }
  }

  lemma TrimFixesTrimmed(s: string)
    requires IsTrimmed(s)
    ensures Trim(s) == s
  {
    if s != "" {
      assert SkipSpaces(s, 0) == 0;
      assert DropSpaces(s, 0, |s|) == |s|;
    }
  }

  lemma TrimFixesTrimmedIfTrimmed(s: string)
    ensures Trim(s) == s <==> IsTrimmed(s)
  {
    if IsTrimmed(s) {
      TrimFixesTrimmed(s);
    }
  }

  /** `s.split(sep)` for a one-character separator: never empty. */
  function Split(s: string, sep: char): (parts: seq<string>)
    ensures |parts| >= 1
    ensures forall i :: 0 <= i < |parts| ==> sep !in parts[i]
  {
    if s == "" then [""]
    else
      var rest := Split(s[1..], sep);
      if s[0] == sep then [""] + rest else [[s[0]] + rest[0]] + rest[1..]
  }

  /** `s.includes(part)` */
  predicate Includes(s: string, part: string)
    decreases |s|
  {
    part <= s || (s != "" && Includes(s[1..], part))
  }

  /** The part occurs somewhere. */
  lemma {:induction false} IncludesIff(s: string, part: string)
    ensures Includes(s, part) <==> exists before, after :: s == before + part + after
    decreases |s|
  {
    if part <= s {
      assert s == "" + part + s[|part|..];
    } else if s != "" {
      IncludesIff(s[1..], part);
      if before, after :| s[1..] == before + part + after {
        assert s == [s[0]] + before + part + after;
      }
      if before, after :| s == before + part + after {
        assert before != "" by {
          assert before == "" ==> s == part + after;
        }
        assert s[1..] == before[1..] + part + after;
      }
    }
  }

  function Join(parts: seq<string>, sep: string): string {
    if parts == [] then ""
    else if |parts| == 1 then parts[0]
    else parts[0] + sep + Join(parts[1..], sep)
  }

  lemma SplitPlain(s: string, sep: char)
    requires sep !in s
    ensures Split(s, sep) == [s]
  {
    if s != "" {
      SplitPlain(s[1..], sep);
      assert [s[0]] + s[1..] == s;
    }
  }

  lemma SplitAtSeparator(head: string, sep: char, tail: string)
    requires sep !in head
    ensures Split(head + [sep] + tail, sep) == [head] + Split(tail, sep)
  {
    var whole := head + [sep] + tail;
    if head == "" {
      assert whole[1..] == tail;
    } else {
      assert whole[1..] == head[1..] + [sep] + tail;
      SplitAtSeparator(head[1..], sep, tail);
      assert whole[0] == head[0];
      assert Split(whole[1..], sep)[1..] == Split(tail, sep);
      assert [head[0]] + head[1..] == head;
    }
  }

  lemma {:induction false} SplitConcat(a: string, sep: char, b: string)
    ensures Split(a + [sep] + b, sep) == Split(a, sep) + Split(b, sep)
  {
    var whole := a + [sep] + b;
    if a == "" {
      assert whole[1..] == b;
    } else {
      assert whole[1..] == a[1..] + [sep] + b && whole[0] == a[0];
      SplitConcat(a[1..], sep, b);
      ConcatParts([a[0]], Split(a[1..], sep), Split(b, sep));
    }
  }

  lemma ConcatParts(c: string, x: seq<string>, y: seq<string>)
    requires x != []
    ensures [c + (x + y)[0]] + (x + y)[1..] == [c + x[0]] + x[1..] + y
    ensures [""] + (x + y) == [""] + x + y
  {
    assert (x + y)[1..] == x[1..] + y;
  }

  /** `split` undoes `join` exactly when there is something to join and no part holds the separator. */
  lemma {:induction false} SplitUndoesJoin(parts: seq<string>, sep: char)
    ensures Split(Join(parts, [sep]), sep) == parts <==>
            parts != [] && forall i :: 0 <= i < |parts| ==> sep !in parts[i]
  {
    if parts != [] && forall i :: 0 <= i < |parts| ==> sep !in parts[i] {
      SplitOfJoin(parts, sep);
    }
  }

  lemma {:induction false} SplitOfJoin(parts: seq<string>, sep: char)
    requires parts != [] && forall i :: 0 <= i < |parts| ==> sep !in parts[i]
    ensures Split(Join(parts, [sep]), sep) == parts
  {
    if |parts| == 1 {
      SplitPlain(parts[0], sep);
    } else {
      SplitOfJoin(parts[1..], sep);
      SplitAtSeparator(parts[0], sep, Join(parts[1..], [sep]));
      assert Join(parts, [sep]) == parts[0] + [sep] + Join(parts[1..], [sep]);
      assert [parts[0]] + parts[1..] == parts;
    }
  }
}
