/**
 * The normaliser applied to text extracted from PDF and DOCX files: a fixed sequence of
 * substitution passes around a line-merging loop that glues lines of one character together.
 */
module TextExtractor {
  import opened Strings
  import opened Patterns

  // ---------------------------------------------------------------- lines

  /** `str.splitlines()`: the pieces between line boundaries, with no trailing empty piece. */
  predicate NotLineBreak(c: char) { !IsLineBreak(c) }

  function SplitLines(s: string): seq<string>
    decreases |s|
  {
    var k := Span(s, 0, NotLineBreak);
    if k == |s| then (if s == [] then [] else [s])
    else
      var next := if s[k] == '\r' && k + 1 < |s| && s[k + 1] == '\n' then k + 2 else k + 1;
      [s[..k]] + SplitLines(s[next..])
  }

  /** No piece of `splitlines` contains a line boundary. */
  lemma {:induction false} SplitLinesHaveNoBreaks(s: string)
    ensures forall k :: 0 <= k < |SplitLines(s)| ==> NoneOf(SplitLines(s)[k], IsLineBreak)
    decreases |s|
  {
    var k := Span(s, 0, NotLineBreak);
    if k < |s| {
      var next := if s[k] == '\r' && k + 1 < |s| && s[k + 1] == '\n' then k + 2 else k + 1;
      var rest := SplitLines(s[next..]);
      assert SplitLines(s) == [s[..k]] + rest;
      assert NoneOf(s[..k], IsLineBreak) by {
        SpanIsMaximalRun(s, 0, NotLineBreak);
        assert forall j :: 0 <= j < k ==> s[..k][j] == s[j];
      }
      SplitLinesHaveNoBreaks(s[next..]);
      forall j | 0 <= j < 1 + |rest| ensures NoneOf(SplitLines(s)[j], IsLineBreak) {
        if j > 0 {
          assert SplitLines(s)[j] == rest[j - 1];
        }
      }
    } else if s != [] {
      SpanIsMaximalRun(s, 0, NotLineBreak);
    }
  }

  /** A line stripped of surrounding whitespace, with its bullet characters removed. */
  function CleanLine(line: string): string {
    RemoveChar(RemoveChar(Strip(line), '•'), '●')
  }

  /** A cleaned line has no bullet, and no line boundary when the line had none. */
  lemma CleanLineChars(line: string)
    ensures NoneOf(CleanLine(line), IsBullet)
    ensures NoneOf(line, IsLineBreak) ==> NoneOf(CleanLine(line), IsLineBreak)
  {
    var st := Strip(line);
    var a := Span(line, 0, IsSpace);
    var once := RemoveChar(st, '•');
    RemoveCharFacts(once, '●');
    RemoveCharFacts(st, '•');
    RemoveCharFacts(once, '●');
    forall k | 0 <= k < |CleanLine(line)| ensures !IsBullet(CleanLine(line)[k]) {
      var c := CleanLine(line)[k];
      assert c in CleanLine(line);
      assert c in once;
    }
    if NoneOf(line, IsLineBreak) {
      NoneOfSlice(line, a, a + |st|, IsLineBreak);
      NoneOfRemoveChar(st, '•', IsLineBreak);
      NoneOfRemoveChar(once, '●', IsLineBreak);
    }
  }

  // ---------------------------------------------------------------- merging

  /** The loop state: the lines emitted so far, and the buffered one-character lines. */
  datatype MergeState = MergeState(merged: seq<string>, buffer: seq<string>)

  /** The emitted lines after the buffer, if any, is flushed as one joined line. */
  function Flush(st: MergeState): seq<string> {
    if st.buffer == [] then st.merged else st.merged + [Concat(st.buffer)]
  }

  /** One iteration of the merge loop. */
  function Feed(st: MergeState, line: string): MergeState {
    var t := CleanLine(line);
    if t == [] then st
    else if |t| == 1 then MergeState(st.merged, st.buffer + [t])
    else MergeState(Flush(st) + [t], [])
  }

  function FeedAll(lines: seq<string>): MergeState {
    if lines == [] then MergeState([], []) else Feed(FeedAll(lines[..|lines| - 1]), lines[|lines| - 1])
  }

  /** The fold over one more line is one more step of the loop. */
  lemma FeedAllStep(lines: seq<string>, i: nat)
    requires i < |lines|
    ensures FeedAll(lines[..i + 1]) == Feed(FeedAll(lines[..i]), lines[i])
  {
    assert lines[..i + 1][..i] == lines[..i];
  }

  /** The merged lines: blank lines dropped, runs of one-character lines glued into one line. */
  function MergeLines(lines: seq<string>): seq<string> {
    Flush(FeedAll(lines))
  }

  function CleanAll(lines: seq<string>): seq<string> {
    seq(|lines|, k requires 0 <= k < |lines| => CleanLine(lines[k]))
  }

  /** A line the loop may emit: non-empty and free of the given characters. */
  predicate GoodEntry(e: string, bad: char -> bool) { e != [] && NoneOf(e, bad) }

  predicate GoodState(st: MergeState, bad: char -> bool) {
    (forall k :: 0 <= k < |st.merged| ==> GoodEntry(st.merged[k], bad))
    && (forall k :: 0 <= k < |st.buffer| ==> |st.buffer[k]| == 1 && NoneOf(st.buffer[k], bad))
  }

  lemma FlushGood(st: MergeState, bad: char -> bool)
    requires GoodState(st, bad)
    ensures forall k :: 0 <= k < |Flush(st)| ==> GoodEntry(Flush(st)[k], bad)
  {
    if st.buffer != [] {
      NoneOfConcat(st.buffer, bad);
      ConcatNonEmpty(st.buffer);
    }
  }

  lemma {:induction false} ConcatNonEmpty(xs: seq<string>)
    requires xs != [] && xs[0] != []
    ensures Concat(xs) != []
  {
  }

  /**
   * The loop keeps its invariant: emitted lines are non-empty, buffered lines have one
   * character, and neither holds a character the input lines did not.
   */
  lemma {:induction false} FeedAllGood(lines: seq<string>, bad: char -> bool)
    requires forall k :: 0 <= k < |lines| ==> NoneOf(CleanLine(lines[k]), bad)
    ensures GoodState(FeedAll(lines), bad)
  {
    if lines != [] {
      var init := lines[..|lines| - 1];
      FeedAllGood(init, bad);
      FlushGood(FeedAll(init), bad);
    }
  }

  /** Every merged line is non-empty and free of `bad` when every cleaned input line is. */
  lemma MergeLinesGood(lines: seq<string>, bad: char -> bool)
    requires forall k :: 0 <= k < |lines| ==> NoneOf(CleanLine(lines[k]), bad)
    ensures forall k :: 0 <= k < |MergeLines(lines)| ==> GoodEntry(MergeLines(lines)[k], bad)
  {
    FeedAllGood(lines, bad);
    FlushGood(FeedAll(lines), bad);
  }

  lemma FlushContent(st: MergeState)
    ensures Concat(Flush(st)) == Concat(st.merged) + Concat(st.buffer)
  {
    if st.buffer != [] {
      ConcatAppend(st.merged, [Concat(st.buffer)]);
      ConcatOne(Concat(st.buffer));
    }
  }

  /** One iteration appends exactly the cleaned line to the flushed content. */
  lemma FeedContent(st: MergeState, line: string)
    ensures Concat(Flush(Feed(st, line))) == Concat(Flush(st)) + CleanLine(line)
  {
    var t := CleanLine(line);
    FlushContent(st);
    if t == [] {
    } else if |t| == 1 {
      FlushContent(MergeState(st.merged, st.buffer + [t]));
      ConcatAppend(st.buffer, [t]);
      ConcatOne(t);
    } else {
      ConcatAppend(Flush(st), [t]);
      ConcatOne(t);
    }
  }

  /** Merging keeps every surviving character, in order: nothing but blank lines is lost. */
  lemma {:induction false} FeedAllContent(lines: seq<string>)
    ensures Concat(Flush(FeedAll(lines))) == Concat(CleanAll(lines))
  {
    if lines != [] {
      var init := lines[..|lines| - 1];
      var last := lines[|lines| - 1];
      var c := CleanLine(last);
      assert Concat(Flush(FeedAll(lines))) == Concat(CleanAll(init)) + c by {
        FeedAllContent(init);
        FeedContent(FeedAll(init), last);
      }
      assert Concat(CleanAll(lines)) == Concat(CleanAll(init)) + c by {
        assert CleanAll(lines) == CleanAll(init) + [c];
        ConcatAppend(CleanAll(init), [c]);
        ConcatOne(c);
      }
    }
  }

  lemma ConcatOne(x: string)
    ensures Concat([x]) == x
  {
    assert [x][1..] == [];
  }

  lemma MergeLinesContent(lines: seq<string>)
    ensures Concat(MergeLines(lines)) == Concat(CleanAll(lines))
  {
    FeedAllContent(lines);
  }

  // The same merge, read off the cleaned lines from the front.

  /** The index just past the run of blank and one-character lines that starts at `i`. */
  function ShortRun(ts: seq<string>, i: nat): (k: nat)
    requires i <= |ts|
    ensures i <= k <= |ts|
    ensures k == |ts| || |ts[k]| >= 2
    ensures forall j :: i <= j < k ==> |ts[j]| <= 1
    decreases |ts| - i
  {
    if i < |ts| && |ts[i]| <= 1 then ShortRun(ts, i + 1) else i
  }

  /**
   * The segmentation the merge loop produces, over the cleaned lines: a line of two or more
   * characters is an entry of its own; a one-character line opens a run that goes on over the
   * one-character and blank lines after it, up to the next longer line, and the run is one
   * entry, its lines glued together; blank lines outside a run are dropped.
   */
  function Runs(ts: seq<string>): seq<string>
    decreases |ts|
  {
    if ts == [] then []
    else if ts[0] == [] then Runs(ts[1..])
    else if |ts[0]| >= 2 then [ts[0]] + Runs(ts[1..])
    else
      var k := ShortRun(ts, 1);
      [Concat(ts[..k])] + Runs(ts[k..])
  }

  /** The loop from a given state over `lines`, first line first. */
  function FeedFrom(st: MergeState, lines: seq<string>): MergeState
    decreases |lines|
  {
    if lines == [] then st else FeedFrom(Feed(st, lines[0]), lines[1..])
  }

  lemma {:induction false} FeedFromSnoc(st: MergeState, lines: seq<string>, x: string)
    ensures FeedFrom(st, lines + [x]) == Feed(FeedFrom(st, lines), x)
    decreases |lines|
  {
    if lines != [] {
      assert (lines + [x])[1..] == lines[1..] + [x];
      FeedFromSnoc(Feed(st, lines[0]), lines[1..], x);
    } else {
      assert ([] + [x])[1..] == [];
    }
  }

  lemma {:induction false} FeedAllForward(lines: seq<string>)
    ensures FeedAll(lines) == FeedFrom(MergeState([], []), lines)
    decreases |lines|
  {
    if lines != [] {
      var init := lines[..|lines| - 1];
      FeedAllForward(init);
      FeedFromSnoc(MergeState([], []), init, lines[|lines| - 1]);
      assert init + [lines[|lines| - 1]] == lines;
    }
  }

  /** What is still to be emitted with the one-character lines `buf` held back, before `ts`. */
  function Pending(buf: seq<string>, ts: seq<string>): seq<string> {
    if buf == [] then Runs(ts)
    else
      var k := ShortRun(ts, 0);
      [Concat(buf) + Concat(ts[..k])] + Runs(ts[k..])
  }

  lemma ShortRunShift(ts: seq<string>, i: nat)
    requires ts != [] && i < |ts|
    ensures ShortRun(ts, i + 1) == 1 + ShortRun(ts[1..], i)
    decreases |ts| - i
  {
    if i + 1 < |ts| && |ts[i + 1]| <= 1 {
      ShortRunShift(ts, i + 1);
    }
  }

  /** Splitting off the first line of a run. */
  lemma RunHead(ts: seq<string>, k: nat)
    requires 1 <= k <= |ts|
    ensures Concat(ts[..k]) == ts[0] + Concat(ts[1..][..k - 1])
    ensures ts[k..] == ts[1..][k - 1..]
  {
    assert ts[..k][1..] == ts[1..][..k - 1];
  }

  /** A blank line changes nothing still to be emitted. */
  lemma PendingBlank(buf: seq<string>, ts: seq<string>)
    requires ts != [] && ts[0] == []
    ensures Pending(buf, ts) == Pending(buf, ts[1..])
  {
    assert Runs(ts) == Runs(ts[1..]);
    if buf != [] {
      var k := ShortRun(ts, 0);
      ShortRunShift(ts, 0);
      assert k == ShortRun(ts, 1);
      RunHead(ts, k);
      var k' := ShortRun(ts[1..], 0);
      assert Concat(ts[..k]) == Concat(ts[1..][..k']) && ts[k..] == ts[1..][k'..];
    }
  }

  /** A one-character line joins the held-back run. */
  lemma PendingShort(buf: seq<string>, ts: seq<string>)
    requires ts != [] && |ts[0]| == 1
    ensures Pending(buf + [ts[0]], ts[1..]) == Pending(buf, ts)
  {
    var t, k := ts[0], ShortRun(ts, 1);
    var k' := ShortRun(ts[1..], 0);
    ShortRunShift(ts, 0);
    RunHead(ts, k);
    assert Concat(ts[..k]) == t + Concat(ts[1..][..k']) && ts[k..] == ts[1..][k'..];
    ConcatAppend(buf, [t]);
    ConcatOne(t);
    var lhs := [Concat(buf + [t]) + Concat(ts[1..][..k'])] + Runs(ts[1..][k'..]);
    assert Pending(buf + [t], ts[1..]) == lhs;
    if buf == [] {
      assert Runs(ts) == [Concat(ts[..k])] + Runs(ts[k..]);
    } else {
      assert ShortRun(ts, 0) == k;
      assert Concat(buf + [t]) + Concat(ts[1..][..k']) == Concat(buf) + Concat(ts[..k]);
    }
  }

  /** A longer line closes the held-back run and is emitted after it. */
  lemma PendingLong(m: seq<string>, buf: seq<string>, ts: seq<string>)
    requires ts != [] && |ts[0]| >= 2
    ensures Flush(MergeState(m, buf)) + [ts[0]] + Runs(ts[1..]) == m + Pending(buf, ts)
  {
    assert Runs(ts) == [ts[0]] + Runs(ts[1..]);
    if buf != [] {
      assert ShortRun(ts, 0) == 0;
      assert ts[..0] == [] && ts[0..] == ts;
      assert Concat(ts[..0]) == [];
      assert Concat(buf) + Concat(ts[..0]) == Concat(buf);
      assert Pending(buf, ts) == [Concat(buf)] + Runs(ts);
    }
  }

  lemma {:induction false} FeedFromRuns(m: seq<string>, buf: seq<string>, lines: seq<string>)
    ensures Flush(FeedFrom(MergeState(m, buf), lines)) == m + Pending(buf, CleanAll(lines))
    decreases |lines|
  {
    var ts := CleanAll(lines);
    if lines == [] {
      assert ts == [] && Runs(ts) == [];
      if buf != [] {
        assert ShortRun(ts, 0) == 0 && Concat(ts[..0]) == [] && ts[0..] == [];
        assert Concat(buf) + Concat(ts[..0]) == Concat(buf);
        assert Pending(buf, ts) == [Concat(buf)];
      }
    } else {
      var t := CleanLine(lines[0]);
      assert ts[0] == t && ts[1..] == CleanAll(lines[1..]);
      if t == [] {
        FeedFromRuns(m, buf, lines[1..]);
        PendingBlank(buf, ts);
      } else if |t| == 1 {
        FeedFromRuns(m, buf + [t], lines[1..]);
        PendingShort(buf, ts);
      } else {
        FeedFromRuns(Flush(MergeState(m, buf)) + [t], [], lines[1..]);
        PendingLong(m, buf, ts);
      }
    }
  }

  /**
   * The merge loop yields exactly `Runs` of the cleaned lines: each longer line as it is, each
   * maximal run of one-character lines as one line, blank lines dropped, in input order.
   */
  lemma MergeLinesRuns(lines: seq<string>)
    ensures MergeLines(lines) == Runs(CleanAll(lines))
  {
    FeedAllForward(lines);
    FeedFromRuns([], [], lines);
  }

  // ---------------------------------------------------------------- the whole pipeline

  /** The repair passes: digit runs, CGPA/GPA tokens and values, month-year pairs. */
  function Repair(t: string): string {
    var t3 := Sub(DigitRun, t);
    var t4 := Sub(SpacedWord("CGPA"), t3);
    var t5 := Sub(SpacedWord("GPA"), t4);
    var t6 := Sub(GradeValue(false), t5);
    Sub(DateWord, t6)
  }

  /** The closing passes: whitespace runs to one space, strip, and a second letter collapse. */
  function Tidy(t: string): string {
    Sub(LetterRun, Strip(Sub(SpaceRun(2), t)))
  }

  /** `clean_extracted_text`, pass by pass. */
  function CleanText(text: string): string {
    if text == [] then []
    else Tidy(Repair(Join(MergeLines(SplitLines(Sub(LetterRun, text))), " ")))
  }

  /** A line boundary or a bullet: what the cleaned text never contains. */
  predicate Banned(c: char) { IsLineBreak(c) || IsBullet(c) }

  lemma StripKeeps(s: string)
    ensures NoneOf(s, Banned) ==> NoneOf(Strip(s), Banned)
    ensures NoDoubleSpace(s) ==> NoDoubleSpace(Strip(s))
    ensures Stripped(Strip(s))
  {
    var a := Span(s, 0, IsSpace);
    var r := Strip(s);
    TrimFacts(s, IsSpace);
    if NoneOf(s, Banned) {
      NoneOfSlice(s, a, a + |r|, Banned);
    }
    if NoDoubleSpace(s) {
      NoDoubleSpaceSlice(s, a, a + |r|);
    }
  }

  /** The joined lines hold no line boundary and no bullet. */
  lemma JoinedLinesClean(t1: string)
    ensures NoneOf(Join(MergeLines(SplitLines(t1)), " "), Banned)
  {
    var lines := SplitLines(t1);
    SplitLinesHaveNoBreaks(t1);
    forall k | 0 <= k < |lines| ensures NoneOf(CleanLine(lines[k]), Banned) {
      CleanLineChars(lines[k]);
    }
    MergeLinesGood(lines, Banned);
    NoneOfJoin(MergeLines(lines), " ", Banned);
  }

  /** The grade tokens and their separator hold no line boundary and no bullet. */
  lemma GradeCharsClean(w: string)
    requires forall c :: c in w ==> c in "CGPA: "
    ensures NoneOf(w, Banned)
  {
    forall k | 0 <= k < |w| ensures !Banned(w[k]) {
      assert w[k] in w;
      var c := w[k];
      assert c == 'C' || c == 'G' || c == 'P' || c == 'A' || c == ':' || c == ' ';
    }
  }

  /** The repair passes insert no line boundary and no bullet. */
  lemma RepairClean(t: string)
    requires NoneOf(t, Banned)
    ensures NoneOf(Repair(t), Banned)
  {
    var t3 := Sub(DigitRun, t);
    assert NoneOf(t3, Banned) by {
      assert Inserted(DigitRun) == [];
      SubNoneOf(DigitRun, t, Banned);
    }
    var t4 := Sub(SpacedWord("CGPA"), t3);
    assert NoneOf(t4, Banned) by {
      GradeCharsClean(Inserted(SpacedWord("CGPA")));
      SubNoneOf(SpacedWord("CGPA"), t3, Banned);
    }
    var t5 := Sub(SpacedWord("GPA"), t4);
    assert NoneOf(t5, Banned) by {
      GradeCharsClean(Inserted(SpacedWord("GPA")));
      SubNoneOf(SpacedWord("GPA"), t4, Banned);
    }
    var t6 := Sub(GradeValue(false), t5);
    assert NoneOf(t6, Banned) by {
      GradeCharsClean(Inserted(GradeValue(false)));
      SubNoneOf(GradeValue(false), t5, Banned);
    }
    GradeCharsClean(Inserted(DateWord));
    SubNoneOf(DateWord, t6, Banned);
  }

  /** The closing passes leave the text stripped with single spacing, and insert nothing banned. */
  lemma TidyShape(t: string)
    ensures NoneOf(t, Banned) ==> NoneOf(Tidy(t), Banned)
    ensures Stripped(Tidy(t)) && NoDoubleSpace(Tidy(t))
  {
    var t7a := Sub(SpaceRun(2), t);
    if NoneOf(t, Banned) {
      SubNoneOf(SpaceRun(2), t, Banned);
    }
    SpaceRunNoDouble(t, 2);
    var t8 := Strip(t7a);
    StripKeeps(t7a);
    if NoneOf(t, Banned) {
      SubNoneOf(LetterRun, t8, Banned);
    }
    LetterRunLayout(t8);
  }

  /**
   * The cleaned text has no line boundary and no bullet, is stripped, and has no two adjacent
   * whitespace characters.
   */
  lemma CleanTextShape(text: string)
    ensures NoneOf(CleanText(text), Banned)
    ensures Stripped(CleanText(text)) && NoDoubleSpace(CleanText(text))
  {
    if text != [] {
      var t2 := Join(MergeLines(SplitLines(Sub(LetterRun, text))), " ");
      JoinedLinesClean(Sub(LetterRun, text));
      RepairClean(t2);
      TidyShape(Repair(t2));
    }
  }

  /**
   * `clean_extracted_text`: passes that reassign the text one after another, and a loop that
   * emits stripped lines and buffers one-character lines until a longer line or the end.
   */
  method CleanExtractedText(text: string) returns (r: string)
    ensures r == CleanText(text)
    ensures text == [] ==> r == []
    ensures NoneOf(r, IsLineBreak) && NoneOf(r, IsBullet)
    ensures Stripped(r) && NoDoubleSpace(r)
  {
    if text == [] {
      return [];
    }
    var t := Sub(LetterRun, text);
    var lines := SplitLines(t);
    var merged: seq<string>, buffer: seq<string> := [], [];
    for i := 0 to |lines|
      invariant MergeState(merged, buffer) == FeedAll(lines[..i])
    {
      FeedAllStep(lines, i);
      var stripped := CleanLine(lines[i]);
      if stripped == [] {
        continue;
      }
      if |stripped| == 1 {
        buffer := buffer + [stripped];
      } else {
        if buffer != [] {
          merged := merged + [Concat(buffer)];
          buffer := [];
        }
        merged := merged + [stripped];
      }
    }
    assert lines[..|lines|] == lines;
    if buffer != [] {
      merged := merged + [Concat(buffer)];
    }
    assert merged == MergeLines(SplitLines(Sub(LetterRun, text)));
    t := Join(merged, " ");
    t := Sub(DigitRun, t);
    t := Sub(SpacedWord("CGPA"), t);
    t := Sub(SpacedWord("GPA"), t);
    t := Sub(GradeValue(false), t);
    t := Sub(DateWord, t);
    assert t == Repair(Join(merged, " "));
    t := Strip(Sub(SpaceRun(2), t));
    t := Sub(LetterRun, t);
    r := t;
    CleanTextShape(text);
    assert NoneOf(r, Banned);
  }
}
