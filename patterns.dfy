/**
 * The regular expressions of the backend's text repair passes, each modelled as a matcher that
 * gives the length of the match starting at a position (0 for none), plus one `re.sub` driver:
 * leftmost, non-overlapping matches, scanning resumes at the end of each match. The matchers
 * encode the greedy and backtracking behaviour of Python's `re` for their one pattern.
 */
module Patterns {
  import opened Strings
  import opened Wrappers

  datatype Pattern =
    | LetterRun               // \b(?:[A-Za-z]\s){2,}[A-Za-z]\b, replaced by the match without spaces
    | DigitRun                // (?:\d\s+){5,}\d, replaced by the match without spaces
    | SpacedWord(word: string) // C\s*G\s*P\s*A (and G\s*P\s*A) under re.I, replaced by the word
    | GradeValue(bounded: bool) // [\b](CGPA|GPA)[\b]\s*[:\-\s]*([0-9\s\.]+/[0-9\s\.]+) under re.I
    | DateWord                // ([A-Za-z]{3,9})\s*([0-9]{4}), replaced by "\1 \2"
    | SpaceRun(min: nat)      // \s{min,} (\s+ for min 1), replaced by one space

  /** `\b` in front of a word character at `i`. */
  predicate BoundaryBefore(s: string, i: nat)
    requires i <= |s|
  {
    i == 0 || !IsWordChar(s[i - 1])
  }

  /** `\b` after a word character that ends at `j`. */
  predicate BoundaryAfter(s: string, j: nat)
    requires j <= |s|
  {
    j == |s| || !IsWordChar(s[j])
  }

  // ---------------------------------------------------------------- LetterRun

  /** The number of consecutive (ASCII letter, whitespace) pairs starting at `i`. */
  function LetterPairs(s: string, i: nat): (k: nat)
    requires i <= |s|
    ensures i + 2 * k <= |s|
    decreases |s| - i
  {
    if i + 1 < |s| && IsAsciiLetter(s[i]) && IsSpace(s[i + 1]) then 1 + LetterPairs(s, i + 2) else 0
  }

  /** `LetterPairs` counts exactly the maximal chain of (letter, whitespace) pairs. */
  lemma {:induction false} LetterPairsChain(s: string, i: nat)
    requires i <= |s|
    ensures forall t :: 0 <= t < LetterPairs(s, i) ==> IsAsciiLetter(s[i + 2 * t]) && IsSpace(s[i + 2 * t + 1])
    ensures var k := LetterPairs(s, i);
      !(i + 2 * k + 1 < |s| && IsAsciiLetter(s[i + 2 * k]) && IsSpace(s[i + 2 * k + 1]))
    decreases |s| - i
  {
    if i + 1 < |s| && IsAsciiLetter(s[i]) && IsSpace(s[i + 1]) {
      LetterPairsChain(s, i + 2);
      var r := LetterPairs(s, i + 2);
      forall t | 0 <= t < 1 + r ensures IsAsciiLetter(s[i + 2 * t]) && IsSpace(s[i + 2 * t + 1]) {
        if t > 0 {
          var u := t - 1;
          assert (i + 2) + 2 * u == i + 2 * t;
          assert IsAsciiLetter(s[(i + 2) + 2 * u]) && IsSpace(s[(i + 2) + 2 * u + 1]);
        }
      }
      assert i + 2 * (1 + r) == (i + 2) + 2 * r;
    } else {
      assert LetterPairs(s, i) == 0;
      assert i + 2 * 0 == i;
    }
  }

  /**
   * Length of the `LetterRun` match at `i`. The greedy repetition takes every pair; when the
   * letter after them does not end a word, backtracking gives back one pair, whose letter is
   * then followed by whitespace and so always ends a word.
   */
  function LetterRunLen(s: string, i: nat): (n: nat)
    requires i <= |s|
    ensures i + n <= |s|
  {
    if i < |s| && BoundaryBefore(s, i) then
      var k := LetterPairs(s, i);
      var e := i + 2 * k;
      if k >= 2 && e < |s| && IsAsciiLetter(s[e]) && BoundaryAfter(s, e + 1) then 2 * k + 1
      else if k >= 3 then 2 * k - 1
      else 0
    else 0
  }

  /**
   * A `LetterRun` match alternates letter and whitespace, begins and ends with a letter, has at
   * least three letters and is delimited by word boundaries.
   */
  lemma LetterRunShape(s: string, i: nat)
    requires i <= |s| && LetterRunLen(s, i) > 0
    ensures var n := LetterRunLen(s, i);
      n >= 5 && n % 2 == 1 && BoundaryBefore(s, i) && BoundaryAfter(s, i + n)
      && IsAsciiLetter(s[i + n - 1])
      && forall t :: 0 <= t < n / 2 ==> IsAsciiLetter(s[i + 2 * t]) && IsSpace(s[i + 2 * t + 1])
  {
    LetterPairsChain(s, i);
    var k := LetterPairs(s, i);
    if !(k >= 2 && i + 2 * k < |s| && IsAsciiLetter(s[i + 2 * k]) && BoundaryAfter(s, i + 2 * k + 1)) {
      assert IsAsciiLetter(s[i + 2 * (k - 1)]) && IsSpace(s[i + 2 * (k - 1) + 1]);
    }
  }

  // ---------------------------------------------------------------- DigitRun

  /**
   * End of the `DigitRun` match whose greedy loop has consumed `k` (digit, whitespace run) pairs
   * and stands at `p`; `q` is the digit of the last pair. -1 when there is no match.
   */
  function DigitRunEnd(s: string, p: nat, k: nat, q: nat): (r: int)
    requires p <= |s| && q <= p && (k > 0 ==> q < p)
    ensures r == -1 || ((if k == 0 then p else q) < r <= |s|)
    decreases |s| - p
  {
    if p + 1 < |s| && IsDigit(s[p]) && IsSpace(s[p + 1]) then
      DigitRunEnd(s, p + 1 + Span(s, p + 1, IsSpace), k + 1, p)
    else if p < |s| && IsDigit(s[p]) && k >= 5 then p + 1
    else if k >= 6 then q + 1
    else -1
  }

  /** The number of digits in `s[i..j]`. */
  function DigitsIn(s: string, i: nat, j: nat): nat
    requires i <= j <= |s|
    decreases j - i
  {
    if i == j then 0 else DigitsIn(s, i, j - 1) + (if IsDigit(s[j - 1]) then 1 else 0)
  }

  /** The number of digits in `t`. */
  function DigitCount(t: string): nat {
    DigitsIn(t, 0, |t|)
  }

  lemma {:induction false} DigitsInSplit(s: string, i: nat, m: nat, j: nat)
    requires i <= m <= j <= |s|
    ensures DigitsIn(s, i, j) == DigitsIn(s, i, m) + DigitsIn(s, m, j)
    decreases j - m
  {
    if m < j {
      DigitsInSplit(s, i, m, j - 1);
    }
  }

  /** A stretch of whitespace holds no digit. */
  lemma {:induction false} DigitsInBlank(s: string, i: nat, j: nat)
    requires i <= j <= |s| && forall k :: i <= k < j ==> IsSpace(s[k])
    ensures DigitsIn(s, i, j) == 0
    decreases j - i
  {
    if i < j {
      DigitsInBlank(s, i, j - 1);
    }
  }

  /** Digits and whitespace only. */
  predicate DigitsAndBlanks(s: string, i: nat, j: nat)
    requires i <= j <= |s|
  {
    forall k :: i <= k < j ==> IsDigit(s[k]) || IsSpace(s[k])
  }

  /** The number of characters in `s[i..j]` that are neither digits nor whitespace. */
  function Junk(s: string, i: nat, j: nat): nat
    requires i <= j <= |s|
    decreases j - i
  {
    if i == j then 0 else Junk(s, i, j - 1) + (if IsDigit(s[j - 1]) || IsSpace(s[j - 1]) then 0 else 1)
  }

  lemma {:induction false} JunkSplit(s: string, i: nat, m: nat, j: nat)
    requires i <= m <= j <= |s|
    ensures Junk(s, i, j) == Junk(s, i, m) + Junk(s, m, j)
    decreases j - m
  {
    if m < j {
      JunkSplit(s, i, m, j - 1);
    }
  }

  lemma {:induction false} JunkBlank(s: string, i: nat, j: nat)
    requires i <= j <= |s| && forall k :: i <= k < j ==> IsSpace(s[k])
    ensures Junk(s, i, j) == 0
    decreases j - i
  {
    if i < j {
      JunkBlank(s, i, j - 1);
    }
  }

  /** No junk is the same as digits and whitespace only. */
  lemma {:induction false} JunkFree(s: string, i: nat, j: nat)
    requires i <= j <= |s|
    ensures Junk(s, i, j) == 0 <==> DigitsAndBlanks(s, i, j)
    decreases j - i
  {
    if i < j {
      JunkFree(s, i, j - 1);
    }
  }

  /** A digit at `p` and the whitespace run after it add one digit and no junk to `s[i..p]`. */
  lemma DigitPairStep(s: string, i: nat, p: nat)
    requires i <= p && p + 1 < |s| && IsDigit(s[p]) && IsSpace(s[p + 1])
    ensures var p' := p + 1 + Span(s, p + 1, IsSpace);
      && DigitsIn(s, i, p') == DigitsIn(s, i, p) + 1
      && DigitsIn(s, i, p + 1) == DigitsIn(s, i, p) + 1
      && Junk(s, i, p') == Junk(s, i, p) && Junk(s, i, p + 1) == Junk(s, i, p)
  {
    var e := p + 1 + Span(s, p + 1, IsSpace);
    SpanIsMaximalRun(s, p + 1, IsSpace);
    DigitsInSplit(s, i, p + 1, e);
    DigitsInBlank(s, p + 1, e);
    JunkSplit(s, i, p + 1, e);
    JunkBlank(s, p + 1, e);
  }

  /** What the scan of `DigitRun` guarantees of the span `s[i..r]` it reports. */
  predicate DigitRunSpan(s: string, i: nat, r: int)
    requires i <= |s|
  {
    r == -1 || (i < r <= |s| && IsDigit(s[r - 1]) && Junk(s, i, r) == 0 && DigitsIn(s, i, r) >= 6)
  }

  /**
   * A state of the `DigitRun` scan started at `i`: it stands at `p` after `k` pairs, the text it
   * consumed holds only digits and whitespace and `k` digits, the last of them at `q`.
   */
  predicate ScanState(s: string, i: nat, p: nat, k: nat, q: nat) {
    && i <= q <= p <= |s| && (k > 0 ==> q < p) && (k == 0 ==> p == i)
    && Junk(s, i, p) == 0 && DigitsIn(s, i, p) == k
    && (k > 0 ==> IsDigit(s[q]) && DigitsIn(s, i, q + 1) == k && Junk(s, i, q + 1) == 0)
  }

  /** Consuming one more (digit, whitespace run) pair leads to the next scan state. */
  lemma ScanPair(s: string, i: nat, p: nat, k: nat, q: nat)
    requires ScanState(s, i, p, k, q)
    requires p + 1 < |s| && IsDigit(s[p]) && IsSpace(s[p + 1])
    ensures ScanState(s, i, p + 1 + Span(s, p + 1, IsSpace), k + 1, p)
  {
    DigitPairStep(s, i, p);
  }

  /** Where the scan stops, the match it reports (if any) has the shape of a digit run. */
  lemma ScanStop(s: string, i: nat, p: nat, k: nat, q: nat)
    requires ScanState(s, i, p, k, q)
    requires !(p + 1 < |s| && IsDigit(s[p]) && IsSpace(s[p + 1]))
    ensures DigitRunSpan(s, i, DigitRunEnd(s, p, k, q))
  {
  }

  /**
   * The scan of `DigitRun` from any of its states reports a match that ends in a digit, holds
   * only digits and whitespace, and at least six digits.
   */
  lemma {:induction false} DigitRunEndShape(s: string, i: nat, p: nat, k: nat, q: nat)
    requires ScanState(s, i, p, k, q)
    ensures DigitRunSpan(s, i, DigitRunEnd(s, p, k, q))
    decreases |s| - p
  {
    if p + 1 < |s| && IsDigit(s[p]) && IsSpace(s[p + 1]) {
      ScanPair(s, i, p, k, q);
      DigitRunEndShape(s, i, p + 1 + Span(s, p + 1, IsSpace), k + 1, p);
    } else {
      ScanStop(s, i, p, k, q);
    }
  }

  /**
   * A `DigitRun` match starts and ends with a digit, holds only digits and whitespace, and at
   * least six digits: a shorter run of spaced digits is never joined.
   */
  lemma DigitRunShape(s: string, i: nat)
    requires i <= |s| && MatchLen(DigitRun, s, i) > 0
    ensures var n := MatchLen(DigitRun, s, i);
      && IsDigit(s[i]) && IsDigit(s[i + n - 1]) && DigitsAndBlanks(s, i, i + n)
      && DigitsIn(s, i, i + n) >= 6
  {
    DigitRunEndShape(s, i, i, 0, i);
    JunkFree(s, i, i + MatchLen(DigitRun, s, i));
    if !IsDigit(s[i]) {
      DigitRunNeedsDigit(s, i);
    }
  }

  lemma NoDigitRunAt(s: string, j: nat)
    requires j <= |s| && DigitCount(s) < 6
    ensures MatchLen(DigitRun, s, j) == 0
  {
    var n := MatchLen(DigitRun, s, j);
    if n > 0 {
      DigitRunShape(s, j);
      DigitsInSplit(s, 0, j, j + n);
      DigitsInSplit(s, 0, j + n, |s|);
    }
  }

  /** A text with fewer than six digits has no digit run to join: the pass leaves it as it is. */
  lemma FewDigitsUntouched(s: string)
    requires DigitCount(s) < 6
    ensures Sub(DigitRun, s) == s
  {
    forall j | 0 <= j < |s| ensures MatchLen(DigitRun, s, j) == 0 {
      NoDigitRunAt(s, j);
    }
    SubNoMatch(DigitRun, s);
  }

  // ---------------------------------------------------------------- SpacedWord

  /** End of `w[0]\s*w[1]\s*...` at `p`, letters compared ignoring case; -1 when there is none. */
  function SpacedWordEnd(s: string, p: nat, w: string): (r: int)
    requires p <= |s|
    ensures r == -1 || (w != [] && p < r <= |s|)
    decreases |w|
  {
    if w == [] || p >= |s| || Lower(s[p]) != Lower(w[0]) then -1
    else if |w| == 1 then p + 1
    else SpacedWordEnd(s, p + 1 + Span(s, p + 1, IsSpace), w[1..])
  }

  /** One letter of the word, then exactly one whitespace character before the next letter. */
  lemma SpacedWordStep(s: string, p: nat, w: string)
    requires p + 2 < |s| && |w| > 1 && Lower(s[p]) == Lower(w[0])
    requires IsSpace(s[p + 1]) && !IsSpace(s[p + 2])
    ensures SpacedWordEnd(s, p, w) == SpacedWordEnd(s, p + 2, w[1..])
  {
    assert Span(s, p + 2, IsSpace) == 0;
    assert Span(s, p + 1, IsSpace) == 1;
  }

  // ---------------------------------------------------------------- GradeValue

  predicate IsSepChar(c: char) { c == ':' || c == '-' || IsSpace(c) }

  predicate IsValueChar(c: char) { IsDigit(c) || IsSpace(c) || c == '.' }

  predicate MatchesIgnoringCase(s: string, i: nat, w: string) {
    i + |w| <= |s| && forall k :: 0 <= k < |w| ==> Lower(s[i + k]) == Lower(w[k])
  }

  /** Length of the `(CGPA|GPA)` alternative matched at `i` (with `\b` on both sides when `bounded`). */
  function GradeTokenLen(s: string, i: nat, bounded: bool): (n: nat)
    requires i <= |s|
    ensures n == 0 || ((n == 3 || n == 4) && i + n <= |s|)
  {
    if MatchesIgnoringCase(s, i, "CGPA") && (!bounded || (BoundaryBefore(s, i) && BoundaryAfter(s, i + 4))) then 4
    else if MatchesIgnoringCase(s, i, "GPA") && (!bounded || (BoundaryBefore(s, i) && BoundaryAfter(s, i + 3))) then 3
    else 0
  }

  /** End of `[0-9\s\.]+/[0-9\s\.]+` at `g`, or -1. Both runs are maximal since `/` is outside the class. */
  function ValueEnd(s: string, g: nat): (r: int)
    requires g <= |s|
    ensures r == -1 || g < r <= |s|
  {
    var x := Span(s, g, IsValueChar);
    if x >= 1 && g + x < |s| && s[g + x] == '/' then
      var y := Span(s, g + x + 1, IsValueChar);
      if y >= 1 then g + x + 1 + y else -1
    else -1
  }

  /**
   * The largest start in `[t, g]` at which the value group matches. The two leading repetitions
   * `\s*[:\-\s]*` can end anywhere in the separator run and are backtracked from its end, so the
   * first success is the largest such start.
   */
  function LastValueStart(s: string, t: nat, g: nat): (r: int)
    requires t <= g <= |s|
    ensures r == -1 || (t <= r <= g && ValueEnd(s, r) != -1)
    ensures r != -1 ==> forall h :: r < h <= g ==> ValueEnd(s, h) == -1
    decreases g - t
  {
    if ValueEnd(s, g) != -1 then g else if g == t then -1 else LastValueStart(s, t, g - 1)
  }

  /** No start after the one `LastValueStart` picks (none at all when it fails) lets the value match. */
  lemma {:induction false} LastValueStartIsLast(s: string, t: nat, g: nat)
    requires t <= g <= |s|
    ensures var r := LastValueStart(s, t, g);
      forall h :: (if r == -1 then t else r + 1) <= h <= g ==> ValueEnd(s, h) == -1
    decreases g - t
  {
    if ValueEnd(s, g) == -1 && g > t {
      LastValueStartIsLast(s, t, g - 1);
    }
  }

  datatype GradeMatch = GradeMatch(tokenEnd: nat, valueStart: nat, end: nat)

  function GradeAt(s: string, i: nat, bounded: bool): (m: Option<GradeMatch>)
    requires i <= |s|
    ensures m.Some? ==> i < m.value.tokenEnd <= m.value.valueStart < m.value.end <= |s|
    ensures m.Some? ==> m.value.tokenEnd - i == GradeTokenLen(s, i, bounded)
  {
    var n := GradeTokenLen(s, i, bounded);
    if n == 0 then None
    else
      var t := i + n;
      var g := LastValueStart(s, t, t + Span(s, t, IsSepChar));
      if g == -1 then None else Some(GradeMatch(t, g, ValueEnd(s, g)))
  }

  // ---------------------------------------------------------------- DateWord

  /**
   * Length of the `DateWord` match at `i`. With ten or more letters the greedy `{3,9}` stops
   * in front of a letter, where `[0-9]` cannot match, and giving letters back does not help.
   */
  function DateWordLen(s: string, i: nat): (n: nat)
    requires i <= |s|
    ensures i + n <= |s|
  {
    var l := Span(s, i, IsAsciiLetter);
    if 3 <= l <= 9 then
      var w := Span(s, i + l, IsSpace);
      if Span(s, i + l + w, IsDigit) >= 4 then l + w + 4 else 0
    else 0
  }

  // ---------------------------------------------------------------- driver

  /** Length of the match of `p` at `i`; 0 when the pattern does not match there. */
  function MatchLen(p: Pattern, s: string, i: nat): (n: nat)
    requires i <= |s|
    ensures i + n <= |s|
  {
    match p
    case LetterRun => LetterRunLen(s, i)
    case DigitRun => var e := DigitRunEnd(s, i, 0, i); if e == -1 then 0 else e - i
    case SpacedWord(w) => var e := SpacedWordEnd(s, i, w); if e == -1 then 0 else e - i
    case GradeValue(b) => (match GradeAt(s, i, b) case None => 0 case Some(m) => m.end - i)
    case DateWord => DateWordLen(s, i)
    case SpaceRun(min) => var n := Span(s, i, IsSpace); if n >= 1 && n >= min then n else 0
  }

  /** The text that replaces the match of `p` at `i`. */
  function Replacement(p: Pattern, s: string, i: nat): string
    requires i <= |s| && MatchLen(p, s, i) > 0
  {
    var n := MatchLen(p, s, i);
    match p
    case LetterRun => RemoveChar(s[i..i + n], ' ')
    case DigitRun => RemoveChar(s[i..i + n], ' ')
    case SpacedWord(w) => w
    case GradeValue(b) =>
      var m := GradeAt(s, i, b).value;
      UpperStr(s[i..m.tokenEnd]) + ": " + RemoveChar(s[m.valueStart..m.end], ' ')
    case DateWord =>
      var l := Span(s, i, IsAsciiLetter);
      s[i..i + l] + " " + s[i + n - 4..i + n]
    case SpaceRun(_) => " "
  }

  /** Every position's match length stays inside `s`. */
  predicate Fits(s: string, lens: seq<nat>) {
    |lens| == |s| && forall j :: 0 <= j < |s| ==> j + lens[j] <= |s|
  }

  /** The match length of `p` at every position of `s`. */
  function Lens(p: Pattern, s: string): seq<nat> {
    seq(|s|, j requires 0 <= j < |s| => MatchLen(p, s, j))
  }

  /** The replacement for the match of `p` at every position of `s` ("" where there is none). */
  function Reps(p: Pattern, s: string): seq<string> {
    seq(|s|, j requires 0 <= j < |s| => if MatchLen(p, s, j) > 0 then Replacement(p, s, j) else "")
  }

  lemma LensFit(p: Pattern, s: string)
    ensures Fits(s, Lens(p, s)) && |Reps(p, s)| == |s|
  {
  }

  /**
   * The scan of `re.sub` from position `i`, given the match length `lens[j]` and replacement
   * `reps[j]` at every position: a match is replaced and skipped, otherwise one character is kept.
   */
  function Drive(s: string, lens: seq<nat>, reps: seq<string>, i: nat): string
    requires Fits(s, lens) && |reps| == |s| && i <= |s|
    decreases |s| - i
  {
    if i == |s| then []
    else if lens[i] > 0 then reps[i] + Drive(s, lens, reps, i + lens[i])
    else [s[i]] + Drive(s, lens, reps, i + 1)
  }

  /** `re.sub(p, repl, s)`. */
  function Sub(p: Pattern, s: string): string {
    LensFit(p, s);
    Drive(s, Lens(p, s), Reps(p, s), 0)
  }

  // ---------------------------------------------------------------- properties of the scan

  /** Where nothing matches, the scan copies the suffix unchanged. */
  lemma {:induction false} DriveNoMatch(s: string, lens: seq<nat>, reps: seq<string>, i: nat)
    requires Fits(s, lens) && |reps| == |s| && i <= |s|
    requires forall j :: i <= j < |s| ==> lens[j] == 0
    ensures Drive(s, lens, reps, i) == s[i..]
    decreases |s| - i
  {
    if i < |s| {
      DriveNoMatch(s, lens, reps, i + 1);
      assert s[i..] == [s[i]] + s[i + 1..];
    }
  }

  lemma SubNoMatch(p: Pattern, s: string)
    requires forall j :: 0 <= j < |s| ==> MatchLen(p, s, j) == 0
    ensures Sub(p, s) == s
  {
    LensFit(p, s);
    DriveNoMatch(s, Lens(p, s), Reps(p, s), 0);
  }

  /** Every character of `r` occurs in `s` or in `extra`. */
  predicate CharsFrom(r: string, s: string, extra: string) {
    forall c :: c in r ==> c in s || c in extra
  }

  lemma CharsFromAppend(a: string, b: string, s: string, extra: string)
    requires CharsFrom(a, s, extra) && CharsFrom(b, s, extra)
    ensures CharsFrom(a + b, s, extra)
  {
  }

  lemma SliceChars(s: string, a: nat, b: nat, extra: string)
    requires a <= b <= |s|
    ensures CharsFrom(s[a..b], s, extra)
  {
    forall c | c in s[a..b] ensures c in s {
      var k :| 0 <= k < b - a && s[a..b][k] == c;
      assert s[a + k] == c;
    }
  }

  /** A scan whose replacements draw on `s` and `extra` only yields characters of `s` and `extra`. */
  lemma {:induction false} DriveChars(s: string, lens: seq<nat>, reps: seq<string>, i: nat, extra: string)
    requires Fits(s, lens) && |reps| == |s| && i <= |s|
    requires forall j :: 0 <= j < |s| && lens[j] > 0 ==> CharsFrom(reps[j], s, extra)
    ensures CharsFrom(Drive(s, lens, reps, i), s, extra)
    decreases |s| - i
  {
    if i < |s| {
      if lens[i] > 0 {
        DriveChars(s, lens, reps, i + lens[i], extra);
        CharsFromAppend(reps[i], Drive(s, lens, reps, i + lens[i]), s, extra);
      } else {
        DriveChars(s, lens, reps, i + 1, extra);
        SliceChars(s, i, i + 1, extra);
        assert s[i..i + 1] == [s[i]];
        CharsFromAppend([s[i]], Drive(s, lens, reps, i + 1), s, extra);
      }
    }
  }

  lemma RemoveSpacesSplice(m: string, rest: string, tail: string, collapse: bool)
    requires RemoveChar(rest, ' ') == RemoveChar(tail, ' ')
    ensures RemoveChar((if collapse then RemoveChar(m, ' ') else m) + rest, ' ') == RemoveChar(m + tail, ' ')
  {
    var h := if collapse then RemoveChar(m, ' ') else m;
    RemoveCharAppend(h, rest, ' ');
    RemoveCharIdempotent(m, ' ');
    RemoveCharAppend(m, tail, ' ');
  }

  /** A scan whose replacements delete spaces from their match and do nothing else. */
  lemma {:induction false} DriveKeepsNonSpace(s: string, lens: seq<nat>, reps: seq<string>, i: nat)
    requires Fits(s, lens) && |reps| == |s| && i <= |s|
    requires forall j :: 0 <= j < |s| && lens[j] > 0 ==> reps[j] == RemoveChar(s[j..j + lens[j]], ' ')
    ensures RemoveChar(Drive(s, lens, reps, i), ' ') == RemoveChar(s[i..], ' ')
    decreases |s| - i
  {
    if i < |s| {
      var n := lens[i];
      var e := i + (if n > 0 then n else 1);
      var m := s[i..e];
      var rest := Drive(s, lens, reps, e);
      assert Drive(s, lens, reps, i) == (if n > 0 then RemoveChar(m, ' ') else m) + rest;
      DriveKeepsNonSpace(s, lens, reps, e);
      SliceSplit(s, i, e);
      RemoveSpacesSplice(m, rest, s[e..], n > 0);
    } else {
      assert s[i..] == [];
    }
  }

  lemma {:induction false} DriveShorter(s: string, lens: seq<nat>, reps: seq<string>, i: nat)
    requires Fits(s, lens) && |reps| == |s| && i <= |s|
    requires forall j :: 0 <= j < |s| && lens[j] > 0 ==> |reps[j]| <= lens[j]
    ensures |Drive(s, lens, reps, i)| <= |s| - i
    decreases |s| - i
  {
    if i < |s| {
      DriveShorter(s, lens, reps, i + (if lens[i] > 0 then lens[i] else 1));
    }
  }

  /**
   * A scan that replaces every maximal whitespace run it matches by one space, and leaves only
   * runs of length one unmatched, leaves no two whitespace characters adjacent.
   */
  lemma {:induction false} DriveNoDoubleSpace(s: string, lens: seq<nat>, reps: seq<string>, i: nat)
    requires Fits(s, lens) && |reps| == |s| && i <= |s|
    requires forall j :: 0 <= j < |s| && lens[j] > 0 ==>
      reps[j] == " " && IsSpace(s[j]) && (j + lens[j] == |s| || !IsSpace(s[j + lens[j]]))
    requires forall j :: 0 <= j < |s| - 1 && lens[j] == 0 ==> !(IsSpace(s[j]) && IsSpace(s[j + 1]))
    ensures NoDoubleSpace(Drive(s, lens, reps, i))
    ensures i < |s| ==> Drive(s, lens, reps, i) != [] && (IsSpace(Drive(s, lens, reps, i)[0]) ==> IsSpace(s[i]))
    decreases |s| - i
  {
    if i < |s| {
      var n := lens[i];
      var e := i + (if n > 0 then n else 1);
      var head := if n > 0 then " " else [s[i]];
      var rest := Drive(s, lens, reps, e);
      assert Drive(s, lens, reps, i) == head + rest;
      assert IsSpace(head[0]) ==> IsSpace(s[i]);
      DriveNoDoubleSpace(s, lens, reps, e);
      if e < |s| {
        if n > 0 {
          assert !IsSpace(s[e]);
        } else {
          assert !(IsSpace(s[i]) && IsSpace(s[i + 1]));
        }
      }
      NoDoubleSpaceAppend(head, rest);
    }
  }

  /** `r` is non-empty, starts with `first`, ends with `last` and has no adjacent whitespace. */
  predicate Framed(r: string, first: char, last: char) {
    r != [] && r[0] == first && r[|r| - 1] == last && NoDoubleSpace(r)
  }

  lemma FramedAppend(a: string, b: string, fa: char, la: char, fb: char, lb: char)
    requires Framed(a, fa, la) && Framed(b, fb, lb) && (!IsSpace(la) || !IsSpace(fb))
    ensures Framed(a + b, fa, lb)
  {
    NoDoubleSpaceAppend(a, b);
  }

  /**
   * A scan whose replacements keep the first and last character of their match and add no
   * adjacent whitespace keeps a string free of adjacent whitespace, with the same ends.
   */
  lemma {:induction false} DriveFramed(s: string, lens: seq<nat>, reps: seq<string>, i: nat)
    requires Fits(s, lens) && |reps| == |s| && i < |s| && NoDoubleSpace(s)
    requires forall j :: 0 <= j < |s| && lens[j] > 0 ==> Framed(reps[j], s[j], s[j + lens[j] - 1])
    ensures Framed(Drive(s, lens, reps, i), s[i], s[|s| - 1])
    decreases |s| - i
  {
    var n := lens[i];
    var r := if n > 0 then reps[i] else [s[i]];
    var rest := Drive(s, lens, reps, i + (if n > 0 then n else 1));
    assert Drive(s, lens, reps, i) == r + rest;
    var e := i + (if n > 0 then n else 1);
    assert Framed(r, s[i], s[e - 1]);
    if e < |s| {
      DriveFramed(s, lens, reps, e);
      FramedAppend(r, rest, s[i], s[e - 1], s[e], s[|s| - 1]);
    } else {
      assert r + rest == r;
    }
  }

  // ---------------------------------------------------------------- properties of re.sub

  /** The characters a replacement may add that were not in the input. */
  function Inserted(p: Pattern): string {
    match p
    case LetterRun => ""
    case DigitRun => ""
    case SpacedWord(w) => w
    case GradeValue(_) => "CGPA: "
    case DateWord => " "
    case SpaceRun(_) => " "
  }

  lemma CaseInsensitiveUpper(c: char, u: char)
    requires 'A' <= u <= 'Z' && Lower(c) == Lower(u)
    ensures Upper(c) == u
  {
  }

  lemma RemoveSpacesChars(s: string, a: nat, b: nat, extra: string)
    requires a <= b <= |s|
    ensures CharsFrom(RemoveChar(s[a..b], ' '), s, extra)
  {
    RemoveCharFacts(s[a..b], ' ');
    SliceChars(s, a, b, extra);
  }

  /** The upper-cased grade token holds only letters of "CGPA". */
  lemma GradeTokenChars(s: string, i: nat, b: bool)
    requires i <= |s| && GradeAt(s, i, b).Some?
    ensures CharsFrom(UpperStr(s[i..GradeAt(s, i, b).value.tokenEnd]), s, "CGPA: ")
  {
    var m := GradeAt(s, i, b).value;
    var tok := UpperStr(s[i..m.tokenEnd]);
    var w := if m.tokenEnd - i == 4 then "CGPA" else "GPA";
    assert MatchesIgnoringCase(s, i, w);
    forall k | 0 <= k < |tok| ensures tok[k] in "CGPA: " {
      assert Lower(s[i + k]) == Lower(w[k]);
      CaseInsensitiveUpper(s[i + k], w[k]);
    }
  }

  lemma GradeReplacementChars(s: string, i: nat, b: bool)
    requires i <= |s| && GradeAt(s, i, b).Some?
    ensures var m := GradeAt(s, i, b).value;
      CharsFrom(UpperStr(s[i..m.tokenEnd]) + ": " + RemoveChar(s[m.valueStart..m.end], ' '), s, "CGPA: ")
  {
    var m := GradeAt(s, i, b).value;
    var tok := UpperStr(s[i..m.tokenEnd]);
    var value := RemoveChar(s[m.valueStart..m.end], ' ');
    GradeTokenChars(s, i, b);
    RemoveSpacesChars(s, m.valueStart, m.end, "CGPA: ");
    CharsFromAppend(tok, ": ", s, "CGPA: ");
    CharsFromAppend(tok + ": ", value, s, "CGPA: ");
  }

  lemma CollapseReplacementChars(p: Pattern, s: string, i: nat)
    requires p == LetterRun || p == DigitRun
    requires i <= |s| && MatchLen(p, s, i) > 0
    ensures CharsFrom(Replacement(p, s, i), s, "")
  {
    RemoveSpacesChars(s, i, i + MatchLen(p, s, i), "");
  }

  lemma DateReplacementChars(s: string, i: nat)
    requires i <= |s| && MatchLen(DateWord, s, i) > 0
    ensures CharsFrom(Replacement(DateWord, s, i), s, " ")
  {
    var n := MatchLen(DateWord, s, i);
    var l := Span(s, i, IsAsciiLetter);
    assert CharsFrom(s[i..i + l] + " ", s, " ") by {
      SliceChars(s, i, i + l, " ");
      CharsFromAppend(s[i..i + l], " ", s, " ");
    }
    SliceChars(s, i + n - 4, i + n, " ");
    CharsFromAppend(s[i..i + l] + " ", s[i + n - 4..i + n], s, " ");
  }

  lemma ReplacementChars(p: Pattern, s: string, i: nat)
    requires i <= |s| && MatchLen(p, s, i) > 0
    ensures CharsFrom(Replacement(p, s, i), s, Inserted(p))
  {
    match p
    case LetterRun => CollapseReplacementChars(p, s, i);
    case DigitRun => CollapseReplacementChars(p, s, i);
    case SpacedWord(w) =>
    case GradeValue(b) => GradeReplacementChars(s, i, b);
    case DateWord => DateReplacementChars(s, i);
    case SpaceRun(_) =>
  }

  /** Every character of the output was in the input or is one the pattern inserts. */
  lemma SubChars(p: Pattern, s: string)
    ensures CharsFrom(Sub(p, s), s, Inserted(p))
  {
    LensFit(p, s);
    var lens, reps := Lens(p, s), Reps(p, s);
    forall j | 0 <= j < |s| && lens[j] > 0 ensures CharsFrom(reps[j], s, Inserted(p)) {
      ReplacementChars(p, s, j);
    }
    DriveChars(s, lens, reps, 0, Inserted(p));
  }

  /** The two collapsing passes only delete spaces: all other characters survive, in order. */
  lemma SubKeepsNonSpace(p: Pattern, s: string)
    requires p == LetterRun || p == DigitRun
    ensures RemoveChar(Sub(p, s), ' ') == RemoveChar(s, ' ')
    ensures |Sub(p, s)| <= |s|
  {
    LensFit(p, s);
    var lens, reps := Lens(p, s), Reps(p, s);
    forall j | 0 <= j < |s| && lens[j] > 0 ensures |reps[j]| <= lens[j] {
    }
    DriveKeepsNonSpace(s, lens, reps, 0);
    DriveShorter(s, lens, reps, 0);
    assert s[0..] == s;
  }

  /** After `\s{2,}` (or `\s+`) is replaced by one space no two whitespace characters are adjacent. */
  lemma SpaceRunNoDouble(s: string, min: nat)
    requires min == 1 || min == 2
    ensures NoDoubleSpace(Sub(SpaceRun(min), s))
  {
    LensFit(SpaceRun(min), s);
    var lens, reps := Lens(SpaceRun(min), s), Reps(SpaceRun(min), s);
    forall j | 0 <= j < |s| && lens[j] > 0
      ensures reps[j] == " " && IsSpace(s[j]) && (j + lens[j] == |s| || !IsSpace(s[j + lens[j]]))
    {
      SpanIsMaximalRun(s, j, IsSpace);
    }
    forall j | 0 <= j < |s| - 1 && lens[j] == 0 ensures !(IsSpace(s[j]) && IsSpace(s[j + 1])) {
      SpanIsMaximalRun(s, j, IsSpace);
      if IsSpace(s[j]) {
        SpanIsMaximalRun(s, j + 1, IsSpace);
      }
    }
    if s != [] {
      DriveNoDoubleSpace(s, lens, reps, 0);
    }
  }

  /** `k` (letter, whitespace) pairs from `i` on. */
  predicate LetterSpacePairs(s: string, i: nat, k: nat)
    requires i + 2 * k <= |s|
  {
    forall t :: 0 <= t < k ==> IsAsciiLetter(s[i + 2 * t]) && IsSpace(s[i + 2 * t + 1])
  }

  /** The first pair of a chain, and the pairs after it. */
  lemma PairsTail(s: string, i: nat, k: nat)
    requires k > 0 && i + 2 * k <= |s| && LetterSpacePairs(s, i, k)
    ensures IsAsciiLetter(s[i]) && IsSpace(s[i + 1]) && LetterSpacePairs(s, i + 2, k - 1)
  {
    var t0 := 0;
    assert IsAsciiLetter(s[i + 2 * t0]) && IsSpace(s[i + 2 * t0 + 1]);
    forall t | 0 <= t < k - 1
      ensures IsAsciiLetter(s[(i + 2) + 2 * t]) && IsSpace(s[(i + 2) + 2 * t + 1])
    {
      assert (i + 2) + 2 * t == i + 2 * (t + 1);
    }
  }

  /** Removing spaces from `s[i..j]` is removing them from its first two characters, then the rest. */
  lemma RemoveSplitPair(s: string, i: nat, j: nat)
    requires i + 2 <= j <= |s|
    ensures RemoveChar(s[i..j], ' ') == RemoveChar([s[i], s[i + 1]], ' ') + RemoveChar(s[i + 2..j], ' ')
  {
    assert s[i..j] == [s[i], s[i + 1]] + s[i + 2..j];
    RemoveCharAppend([s[i], s[i + 1]], s[i + 2..j], ' ');
  }

  /** Removing the spaces of an alternating letter/whitespace chain ending in a letter at `e`. */
  lemma {:induction false} AlternatingCollapse(s: string, i: nat, k: nat, e: nat)
    requires e == i + 2 * k && e < |s|
    requires LetterSpacePairs(s, i, k)
    requires IsAsciiLetter(s[e])
    ensures Framed(RemoveChar(s[i..e + 1], ' '), s[i], s[e])
    decreases k
  {
    if k == 0 {
      assert s[i..i + 1] == [s[i]];
      assert RemoveChar([s[i]], ' ') == [s[i]];
    } else {
      PairsTail(s, i, k);
      AlternatingCollapse(s, i + 2, k - 1, e);
      if k > 1 {
        PairsTail(s, i + 2, k - 1);
      }
      PairThenChain(s, i, e);
    }
  }

  /** A letter and a whitespace character in front of a framed, collapsed chain `s[i + 2..e + 1]`. */
  lemma PairThenChain(s: string, i: nat, e: nat)
    requires i + 2 <= e < |s| && IsAsciiLetter(s[i]) && IsSpace(s[i + 1]) && IsAsciiLetter(s[i + 2])
    requires Framed(RemoveChar(s[i + 2..e + 1], ' '), s[i + 2], s[e])
    ensures Framed(RemoveChar(s[i..e + 1], ' '), s[i], s[e])
  {
    RemoveSplitPair(s, i, e + 1);
    PairThenFramed(s[i], s[i + 1], RemoveChar(s[i + 2..e + 1], ' '), s[i + 2], s[e]);
  }

  /** A letter and a whitespace character in front of a framed chain. */
  lemma PairThenFramed(a: char, b: char, rt: string, fb: char, lb: char)
    requires IsAsciiLetter(a) && IsSpace(b) && IsAsciiLetter(fb) && Framed(rt, fb, lb)
    ensures Framed(RemoveChar([a, b], ' ') + rt, a, lb)
  {
    RemoveCharPair(a, b, ' ');
    if b == ' ' {
      FramedAppend([a], rt, a, a, fb, lb);
    } else {
      assert NoDoubleSpace([a, b]);
      FramedAppend([a, b], rt, a, b, fb, lb);
    }
  }

  lemma RemoveCharPair(a: char, b: char, c: char)
    ensures RemoveChar([a, b], c) == (if a == c then [] else [a]) + (if b == c then [] else [b])
  {
    assert [a, b][1..] == [b];
  }

  lemma LetterRunReplacementFramed(s: string, i: nat)
    requires i <= |s| && LetterRunLen(s, i) > 0
    ensures var n := LetterRunLen(s, i);
      Framed(RemoveChar(s[i..i + n], ' '), s[i], s[i + n - 1])
  {
    var n := LetterRunLen(s, i);
    LetterRunShape(s, i);
    var k := n / 2;
    assert i + 2 * k == i + n - 1;
    AlternatingCollapse(s, i, k, i + n - 1);
  }

  /**
   * The letter-collapse pass keeps a string free of adjacent whitespace, and keeps its first and
   * last characters, so it also keeps a stripped string stripped.
   */
  lemma LetterRunLayout(s: string)
    requires NoDoubleSpace(s)
    ensures NoDoubleSpace(Sub(LetterRun, s))
    ensures Stripped(s) ==> Stripped(Sub(LetterRun, s))
  {
    if s != [] {
      LensFit(LetterRun, s);
      var lens, reps := Lens(LetterRun, s), Reps(LetterRun, s);
      forall j | 0 <= j < |s| && lens[j] > 0 ensures Framed(reps[j], s[j], s[j + lens[j] - 1]) {
        LetterRunReplacementFramed(s, j);
      }
      DriveFramed(s, lens, reps, 0);
      FramedStripped(Sub(LetterRun, s), s);
    }
  }

  /** A string framed by the ends of `s` keeps `s` stripped. */
  lemma FramedStripped(r: string, s: string)
    requires s != [] && Framed(r, s[0], s[|s| - 1])
    ensures NoDoubleSpace(r) && (Stripped(s) ==> Stripped(r))
  {
  }

  /** `SpacedWord(w)` cannot match where no character equals the first letter of `w` ignoring case. */
  lemma SpacedWordAbsent(w: string, s: string)
    requires w != []
    requires forall c :: c in s ==> Lower(c) != Lower(w[0])
    ensures Sub(SpacedWord(w), s) == s
  {
    forall j | 0 <= j < |s| ensures MatchLen(SpacedWord(w), s, j) == 0 {
      assert s[j] in s;
    }
    SubNoMatch(SpacedWord(w), s);
  }

  /** A pass inserts no character of a class that neither its input nor its inserted text has. */
  lemma SubNoneOf(p: Pattern, s: string, bad: char -> bool)
    requires NoneOf(s, bad) && NoneOf(Inserted(p), bad)
    ensures NoneOf(Sub(p, s), bad)
  {
    SubChars(p, s);
    var r := Sub(p, s);
    forall k | 0 <= k < |r| ensures !bad(r[k]) {
      assert r[k] in r;
      if r[k] in s {
        var j :| 0 <= j < |s| && s[j] == r[k];
      } else {
        var j :| 0 <= j < |Inserted(p)| && Inserted(p)[j] == r[k];
      }
    }
  }

  lemma SliceSplit(s: string, i: nat, e: nat)
    requires i <= e <= |s|
    ensures s[i..] == s[i..e] + s[e..]
  {
  }

  /** A scan whose every replacement equals its match reproduces its input. */
  lemma {:induction false} DriveIdentity(s: string, lens: seq<nat>, reps: seq<string>, i: nat)
    requires Fits(s, lens) && |reps| == |s| && i <= |s|
    requires forall j :: 0 <= j < |s| && lens[j] > 0 ==> reps[j] == s[j..j + lens[j]]
    ensures Drive(s, lens, reps, i) == s[i..]
    decreases |s| - i
  {
    if i < |s| {
      var e := i + (if lens[i] > 0 then lens[i] else 1);
      var head := if lens[i] > 0 then reps[i] else [s[i]];
      assert head == s[i..e];
      assert Drive(s, lens, reps, i) == head + Drive(s, lens, reps, e);
      DriveIdentity(s, lens, reps, e);
      SliceSplit(s, i, e);
    }
  }

  /** `\s+` replaced by one space changes nothing where every whitespace is a lone space. */
  lemma SpaceRunOneIdentity(s: string)
    requires NoDoubleSpace(s)
    requires forall c :: c in s && IsSpace(c) ==> c == ' '
    ensures Sub(SpaceRun(1), s) == s
  {
    LensFit(SpaceRun(1), s);
    var lens, reps := Lens(SpaceRun(1), s), Reps(SpaceRun(1), s);
    forall j | 0 <= j < |s| && lens[j] > 0 ensures reps[j] == s[j..j + lens[j]] {
      SpanIsMaximalRun(s, j, IsSpace);
      assert s[j] in s;
    }
    DriveIdentity(s, lens, reps, 0);
  }

  /** A scan keeps a class out when no unmatched character and no replacement is in it. */
  lemma {:induction false} DriveNoneOf(s: string, lens: seq<nat>, reps: seq<string>, i: nat, bad: char -> bool)
    requires Fits(s, lens) && |reps| == |s| && i <= |s|
    requires forall j :: 0 <= j < |s| ==> (if lens[j] > 0 then NoneOf(reps[j], bad) else !bad(s[j]))
    ensures NoneOf(Drive(s, lens, reps, i), bad)
    decreases |s| - i
  {
    if i < |s| {
      var e := i + (if lens[i] > 0 then lens[i] else 1);
      DriveNoneOf(s, lens, reps, e, bad);
      NoneOfAppend(if lens[i] > 0 then reps[i] else [s[i]], Drive(s, lens, reps, e), bad);
    }
  }

  /** Whitespace other than a plain space. */
  predicate IsOtherSpace(c: char) { IsSpace(c) && c != ' ' }

  /** After `\s+` is replaced by one space, the only whitespace left is the plain space. */
  lemma SpaceRunBlanks(s: string)
    ensures NoneOf(Sub(SpaceRun(1), s), IsOtherSpace)
  {
    LensFit(SpaceRun(1), s);
    var lens, reps := Lens(SpaceRun(1), s), Reps(SpaceRun(1), s);
    forall j | 0 <= j < |s| ensures if lens[j] > 0 then NoneOf(reps[j], IsOtherSpace) else !IsOtherSpace(s[j]) {
    }
    DriveNoneOf(s, lens, reps, 0, IsOtherSpace);
  }

  /** Characters of `a` drawn from `b` (plus `extra`) whose characters are drawn from `c` are drawn from `c`. */
  lemma CharsFromTrans(a: string, b: string, c: string, extra: string)
    requires CharsFrom(a, b, extra) && CharsFrom(b, c, extra)
    ensures CharsFrom(a, c, extra)
  {
  }

  lemma CharsFromWiden(a: string, s: string, extra: string, more: string)
    requires CharsFrom(a, s, extra) && forall c :: c in extra ==> c in more
    ensures CharsFrom(a, s, more)
  {
  }

  /** Up to the next match the scan copies the text. */
  lemma {:induction false} DriveCopiesUpTo(s: string, lens: seq<nat>, reps: seq<string>, i: nat, j: nat)
    requires Fits(s, lens) && |reps| == |s| && i <= j <= |s|
    requires forall k :: i <= k < j ==> lens[k] == 0
    ensures Drive(s, lens, reps, i) == s[i..j] + Drive(s, lens, reps, j)
    decreases j - i
  {
    if i < j {
      assert Drive(s, lens, reps, i) == [s[i]] + Drive(s, lens, reps, i + 1);
      DriveCopiesUpTo(s, lens, reps, i + 1, j);
      assert s[i..j] == [s[i]] + s[i + 1..j];
    }
  }

  /** A scan with exactly one match replaces it and copies everything else. */
  lemma DriveOneMatch(s: string, lens: seq<nat>, reps: seq<string>, j: nat)
    requires Fits(s, lens) && |reps| == |s| && j < |s| && lens[j] > 0
    requires forall k :: 0 <= k < j ==> lens[k] == 0
    requires forall k :: j + lens[j] <= k < |s| ==> lens[k] == 0
    ensures Drive(s, lens, reps, 0) == s[..j] + reps[j] + s[j + lens[j]..]
  {
    var e := j + lens[j];
    var rest := Drive(s, lens, reps, e);
    assert Drive(s, lens, reps, 0) == s[..j] + Drive(s, lens, reps, j) by {
      DriveCopiesUpTo(s, lens, reps, 0, j);
      assert s[0..j] == s[..j];
    }
    assert Drive(s, lens, reps, j) == reps[j] + rest;
    assert rest == s[e..] by {
      DriveNoMatch(s, lens, reps, e);
    }
    AppendAssoc(s[..j], reps[j], rest);
  }

  lemma AppendAssoc(a: string, b: string, c: string)
    ensures a + (b + c) == a + b + c
  {
  }

  /** A text with exactly one match has it replaced and everything else copied. */
  lemma SubOneMatch(p: Pattern, s: string, j: nat, n: nat)
    requires j < |s| && MatchLen(p, s, j) == n && n > 0
    requires forall k :: 0 <= k < j ==> MatchLen(p, s, k) == 0
    requires forall k :: j + n <= k < |s| ==> MatchLen(p, s, k) == 0
    ensures Sub(p, s) == s[..j] + Replacement(p, s, j) + s[j + n..]
  {
    LensFit(p, s);
    var lens, reps := Lens(p, s), Reps(p, s);
    assert lens[j] == n && reps[j] == Replacement(p, s, j);
    LensZero(p, s, 0, j);
    LensZero(p, s, j + n, |s|);
    DriveOneMatch(s, lens, reps, j);
  }

  /** Positions without a match have length 0 in `Lens`. */
  lemma LensZero(p: Pattern, s: string, a: nat, b: nat)
    requires b <= |s| && forall k :: a <= k < b ==> MatchLen(p, s, k) == 0
    ensures forall k :: a <= k < b ==> Lens(p, s)[k] == 0
  {
  }

  lemma SpacedWordReplacement(w: string, s: string, i: nat)
    requires i <= |s| && MatchLen(SpacedWord(w), s, i) > 0
    ensures Replacement(SpacedWord(w), s, i) == w
  {
  }

  /** The upper-cased token is "CGPA" or "GPA", whatever case the text used. */
  lemma GradeTokenUpper(s: string, i: nat, b: bool)
    requires i <= |s| && GradeAt(s, i, b).Some?
    ensures var t := GradeAt(s, i, b).value.tokenEnd;
      UpperStr(s[i..t]) == if t == i + 4 then "CGPA" else "GPA"
  {
    var t := GradeAt(s, i, b).value.tokenEnd;
    var w := if t == i + 4 then "CGPA" else "GPA";
    assert MatchesIgnoringCase(s, i, w);
    forall k | 0 <= k < |w| ensures UpperStr(s[i..t])[k] == w[k] {
      assert Lower(s[i + k]) == Lower(w[k]);
      CaseInsensitiveUpper(s[i + k], w[k]);
    }
  }

  /**
   * A grade match is replaced by "CGPA: " or "GPA: " (the token's own word, upper-cased) and
   * the value with its spaces removed.
   */
  lemma GradeValueReplacement(s: string, i: nat, b: bool, m: GradeMatch)
    requires i <= |s| && GradeAt(s, i, b) == Some(m)
    ensures MatchLen(GradeValue(b), s, i) == m.end - i
    ensures Replacement(GradeValue(b), s, i) == UpperStr(s[i..m.tokenEnd]) + ": " + RemoveChar(s[m.valueStart..m.end], ' ')
    ensures Replacement(GradeValue(b), s, i)
      == (if m.tokenEnd == i + 4 then "CGPA" else "GPA") + ": " + RemoveChar(s[m.valueStart..m.end], ' ')
  {
    GradeTokenUpper(s, i, b);
  }

  /** A digit run starts with a digit. */
  lemma DigitRunNeedsDigit(s: string, j: nat)
    requires j < |s| && !IsDigit(s[j])
    ensures MatchLen(DigitRun, s, j) == 0
  {
  }

  /** A month-year match needs two letters in a row at its start (the first two of its three). */
  lemma DateWordNeedsLetters(s: string, j: nat)
    requires j < |s|
    requires !IsAsciiLetter(s[j]) || (j + 1 < |s| && !IsAsciiLetter(s[j + 1]))
    ensures MatchLen(DateWord, s, j) == 0
  {
    if IsAsciiLetter(s[j]) {
      assert Span(s, j + 1, IsAsciiLetter) == 0;
    }
  }

  lemma DateWordReplacement(s: string, i: nat, l: nat, n: nat)
    requires i <= |s| && MatchLen(DateWord, s, i) == n && n > 0 && Span(s, i, IsAsciiLetter) == l
    ensures Replacement(DateWord, s, i) == s[i..i + l] + " " + s[i + n - 4..i + n]
  {
  }

  // ---------------------------------------------------------------- shapes of the matches

  /** Whitespace only from `a` to `b`. */
  predicate Blank(s: string, a: nat, b: nat) {
    a <= b <= |s| && forall j :: a <= j < b ==> IsSpace(s[j])
  }

  predicate AllLetters(w: string) {
    forall k :: 0 <= k < |w| ==> IsAsciiLetter(w[k])
  }

  /**
   * The letters of `w`, in any case, at the positions `ps`, each pair of neighbours separated by
   * whitespace only.
   */
  predicate SpacedLayout(s: string, w: string, ps: seq<nat>) {
    && |ps| == |w| > 0
    && (forall k :: 0 <= k < |ps| ==> ps[k] < |s| && Lower(s[ps[k]]) == Lower(w[k]))
    && (forall k :: 0 <= k < |ps| - 1 ==> ps[k] < ps[k + 1] && Blank(s, ps[k] + 1, ps[k + 1]))
  }

  /** The positions of the letters that `SpacedWordEnd` steps over. */
  function SpacedPositions(s: string, p: nat, w: string): (ps: seq<nat>)
    requires p <= |s| && SpacedWordEnd(s, p, w) != -1
    decreases |w|
  {
    if |w| == 1 then [p] else [p] + SpacedPositions(s, p + 1 + Span(s, p + 1, IsSpace), w[1..])
  }

  /** A letter of the word in front of a layout of the rest, with whitespace between, lays out the word. */
  lemma LayoutCons(s: string, p: nat, w: string, rest: seq<nat>)
    requires |w| > 1 && p < |s| && Lower(s[p]) == Lower(w[0])
    requires SpacedLayout(s, w[1..], rest) && p < rest[0] && Blank(s, p + 1, rest[0])
    ensures SpacedLayout(s, w, [p] + rest)
  {
    var ps := [p] + rest;
    forall k | 0 <= k < |ps| ensures ps[k] < |s| && Lower(s[ps[k]]) == Lower(w[k]) {
      if k > 0 {
        assert ps[k] == rest[k - 1] && w[k] == w[1..][k - 1];
      }
    }
    forall k | 0 <= k < |ps| - 1 ensures ps[k] < ps[k + 1] && Blank(s, ps[k] + 1, ps[k + 1]) {
      if k > 0 {
        assert ps[k] == rest[k - 1] && ps[k + 1] == rest[k];
      }
    }
  }

  /** The layout of a word of two letters or more is its first letter, whitespace, and a layout of the rest. */
  lemma LayoutTail(s: string, w: string, ps: seq<nat>)
    requires |w| > 1 && SpacedLayout(s, w, ps)
    ensures ps[0] < ps[1] && Blank(s, ps[0] + 1, ps[1]) && Lower(s[ps[1]]) == Lower(w[1])
    ensures SpacedLayout(s, w[1..], ps[1..])
  {
    var rest, w' := ps[1..], w[1..];
    forall k | 0 <= k < |rest| ensures rest[k] < |s| && Lower(s[rest[k]]) == Lower(w'[k]) {
      assert rest[k] == ps[k + 1] && w'[k] == w[k + 1];
    }
    forall k | 0 <= k < |rest| - 1 ensures rest[k] < rest[k + 1] && Blank(s, rest[k] + 1, rest[k + 1]) {
      assert rest[k] == ps[k + 1] && rest[k + 1] == ps[k + 2];
    }
  }

  lemma {:induction false} SpacedWordEndLayout(s: string, p: nat, w: string)
    requires p <= |s| && SpacedWordEnd(s, p, w) != -1
    ensures var ps := SpacedPositions(s, p, w);
      SpacedLayout(s, w, ps) && ps[0] == p && ps[|ps| - 1] + 1 == SpacedWordEnd(s, p, w)
    decreases |w|
  {
    if |w| > 1 {
      var q := p + 1 + Span(s, p + 1, IsSpace);
      SpanIsMaximalRun(s, p + 1, IsSpace);
      SpacedWordEndLayout(s, q, w[1..]);
      LayoutCons(s, p, w, SpacedPositions(s, q, w[1..]));
    }
  }

  /** A letter is not whitespace. */
  lemma LetterNotSpace(c: char)
    requires IsAsciiLetter(c)
    ensures !IsSpace(c)
  {
  }

  lemma {:induction false} LayoutGivesEnd(s: string, p: nat, w: string, ps: seq<nat>)
    requires p <= |s| && AllLetters(w) && SpacedLayout(s, w, ps) && ps[0] == p
    ensures SpacedWordEnd(s, p, w) == ps[|ps| - 1] + 1
    decreases |w|
  {
    if |w| > 1 {
      LayoutTail(s, w, ps);
      var q := ps[1];
      assert IsAsciiLetter(w[1]);
      LetterNotSpace(s[q]);
      SpanExact(s, p + 1, q, IsSpace);
      LayoutGivesEnd(s, q, w[1..], ps[1..]);
    }
  }

  /**
   * `SpacedWord(w)` matches at `i` exactly when the letters of `w` stand there in any case with
   * only whitespace between them; the match ends at the last letter and is replaced by `w`.
   */
  lemma SpacedWordShape(w: string, s: string, i: nat)
    requires i <= |s| && AllLetters(w)
    ensures MatchLen(SpacedWord(w), s, i) > 0 <==> exists ps :: SpacedLayout(s, w, ps) && ps[0] == i
    ensures forall ps :: SpacedLayout(s, w, ps) && ps[0] == i ==>
      && MatchLen(SpacedWord(w), s, i) == ps[|ps| - 1] + 1 - i
      && Replacement(SpacedWord(w), s, i) == w
  {
    if SpacedWordEnd(s, i, w) != -1 {
      SpacedWordEndLayout(s, i, w);
      var ps := SpacedPositions(s, i, w);
      assert SpacedLayout(s, w, ps) && ps[0] == i;
    }
    forall ps | SpacedLayout(s, w, ps) && ps[0] == i
      ensures MatchLen(SpacedWord(w), s, i) > 0
      ensures MatchLen(SpacedWord(w), s, i) == ps[|ps| - 1] + 1 - i
    {
      LayoutGivesEnd(s, i, w, ps);
    }
  }

  /** Letters, `3 <= l <= 9` of them, then `ws` whitespace characters, then four digits, from `i`. */
  predicate DateLayout(s: string, i: nat, l: nat, ws: nat) {
    && i + l + ws + 4 <= |s| && 3 <= l <= 9
    && (forall k :: i <= k < i + l ==> IsAsciiLetter(s[k]))
    && Blank(s, i + l, i + l + ws)
    && (forall k :: i + l + ws <= k < i + l + ws + 4 ==> IsDigit(s[k]))
  }

  /** A layout is the match `DateWordLen` finds: the letters end where the scan's letter run ends. */
  lemma DateLayoutMatch(s: string, i: nat, l: nat, ws: nat)
    requires DateLayout(s, i, l, ws)
    ensures i + l == |s| || !IsAsciiLetter(s[i + l])
    ensures Span(s, i, IsAsciiLetter) == l && MatchLen(DateWord, s, i) == l + ws + 4
  {
    var e := i + l + ws;
    if ws > 0 {
      assert IsSpace(s[i + l]);
    } else {
      assert IsDigit(s[e]);
    }
    SpanExact(s, i, i + l, IsAsciiLetter);
    SpanExact(s, i + l, e, IsSpace);
    SpanAtLeast(s, e, 4, IsDigit);
  }

  /** A match found by `DateWordLen` has a layout. */
  lemma DateWordLayout(s: string, i: nat)
    requires i <= |s| && MatchLen(DateWord, s, i) > 0
    ensures var l := Span(s, i, IsAsciiLetter);
      DateLayout(s, i, l, MatchLen(DateWord, s, i) - l - 4)
  {
    var l := Span(s, i, IsAsciiLetter);
    var ws := Span(s, i + l, IsSpace);
    SpansLayout(s, i, l, ws);
  }

  /** The three runs the scan takes lay out a date when there are 3 to 9 letters and 4 digits. */
  lemma SpansLayout(s: string, i: nat, l: nat, ws: nat)
    requires i + l <= |s| && l == Span(s, i, IsAsciiLetter) && 3 <= l <= 9
    requires ws == Span(s, i + l, IsSpace) && Span(s, i + l + ws, IsDigit) >= 4
    ensures DateLayout(s, i, l, ws)
  {
    SpanIsMaximalRun(s, i, IsAsciiLetter);
    SpanIsMaximalRun(s, i + l, IsSpace);
    SpanIsMaximalRun(s, i + l + ws, IsDigit);
  }

  /**
   * `DateWord` matches at `i` exactly when three to nine letters, not followed by another letter,
   * are followed by whitespace and at least four digits; the match is replaced by the letters,
   * one space and the first four digits.
   */
  lemma DateWordShape(s: string, i: nat)
    requires i <= |s|
    ensures MatchLen(DateWord, s, i) > 0 <==> exists l: nat, ws: nat :: DateLayout(s, i, l, ws)
    ensures forall l: nat, ws: nat :: DateLayout(s, i, l, ws) ==>
      && (i + l == |s| || !IsAsciiLetter(s[i + l]))
      && MatchLen(DateWord, s, i) == l + ws + 4
      && Replacement(DateWord, s, i) == s[i..i + l] + " " + s[i + l + ws..i + l + ws + 4]
  {
    if MatchLen(DateWord, s, i) > 0 {
      DateWordLayout(s, i);
    }
    forall l: nat, ws: nat | DateLayout(s, i, l, ws)
      ensures && (i + l == |s| || !IsAsciiLetter(s[i + l]))
              && MatchLen(DateWord, s, i) == l + ws + 4
              && Replacement(DateWord, s, i) == s[i..i + l] + " " + s[i + l + ws..i + l + ws + 4]
    {
      DateLayoutMatch(s, i, l, ws);
    }
  }

  /** `(CGPA|GPA)` in any case from `i` to `t`, with `\b` on both sides when `bounded`. */
  predicate GradeToken(s: string, i: nat, t: nat, bounded: bool) {
    && i <= t <= |s|
    && ((t == i + 4 && MatchesIgnoringCase(s, i, "CGPA")) || (t == i + 3 && MatchesIgnoringCase(s, i, "GPA")))
    && (bounded ==> BoundaryBefore(s, i) && BoundaryAfter(s, t))
  }

  /** Separator characters (`:`, `-`, whitespace) only from `t` to `h`. */
  predicate SepRun(s: string, t: nat, h: nat) {
    t <= h <= |s| && forall j :: t <= j < h ==> IsSepChar(s[j])
  }

  /**
   * Value characters from `g` to the `/` at `k`, value characters after it up to `e`, where the
   * value characters stop.
   */
  predicate SlashValue(s: string, g: nat, k: nat, e: nat) {
    && g < k && k + 1 < e <= |s| && s[k] == '/'
    && (forall j :: g <= j < k ==> IsValueChar(s[j]))
    && (forall j :: k < j < e ==> IsValueChar(s[j]))
    && (e == |s| || !IsValueChar(s[e]))
  }

  /** The two alternatives of the token exclude each other: one starts with C, the other with G. */
  lemma GradeTokenUnique(s: string, i: nat, b: bool)
    requires i <= |s|
    ensures GradeTokenLen(s, i, b) > 0 ==> GradeToken(s, i, i + GradeTokenLen(s, i, b), b)
    ensures forall t: nat :: GradeToken(s, i, t, b) ==> GradeTokenLen(s, i, b) == t - i
  {
    if MatchesIgnoringCase(s, i, "CGPA") {
      assert Lower(s[i]) == Lower("CGPA"[0]) == 'c';
      assert !MatchesIgnoringCase(s, i, "GPA") by {
        assert Lower("GPA"[0]) == 'g';
      }
    }
  }

  /** `ValueEnd` finds a value at `g` exactly when the text there has the value's shape. */
  lemma ValueEndShape(s: string, g: nat)
    requires g <= |s|
    ensures ValueEnd(s, g) != -1 ==> SlashValue(s, g, g + Span(s, g, IsValueChar), ValueEnd(s, g))
    ensures forall k: nat, e: nat :: SlashValue(s, g, k, e) ==> ValueEnd(s, g) == e
  {
    var x := Span(s, g, IsValueChar);
    SpanIsMaximalRun(s, g, IsValueChar);
    if g + x < |s| {
      SpanIsMaximalRun(s, g + x + 1, IsValueChar);
    }
    forall k: nat, e: nat | SlashValue(s, g, k, e) ensures ValueEnd(s, g) == e {
      SpanExact(s, g, k, IsValueChar);
      SpanExact(s, k + 1, e, IsValueChar);
    }
  }

  /** The separator runs from `t` are the prefixes of the longest one. */
  lemma SepRunSpan(s: string, t: nat, h: nat)
    requires t <= |s|
    ensures SepRun(s, t, h) <==> t <= h <= t + Span(s, t, IsSepChar)
  {
    SpanIsMaximalRun(s, t, IsSepChar);
  }

  /** Any token, separators and value laid out from `i` make a match whose value starts no earlier. */
  lemma GradeLayoutMatches(s: string, i: nat, b: bool, t: nat, h: nat, k: nat, e: nat)
    requires GradeToken(s, i, t, b) && SepRun(s, t, h) && SlashValue(s, h, k, e)
    ensures GradeAt(s, i, b).Some? && h <= GradeAt(s, i, b).value.valueStart
  {
    GradeTokenUnique(s, i, b);
    SepRunSpan(s, t, h);
    ValueEndShape(s, h);
    LastValueStartIsLast(s, t, t + Span(s, t, IsSepChar));
  }

  /** The match `GradeAt` finds is laid out as token, separators and value. */
  lemma GradeAtLayout(s: string, i: nat, b: bool)
    requires i <= |s| && GradeAt(s, i, b).Some?
    ensures var m := GradeAt(s, i, b).value;
      && GradeToken(s, i, m.tokenEnd, b) && SepRun(s, m.tokenEnd, m.valueStart)
      && SlashValue(s, m.valueStart, m.valueStart + Span(s, m.valueStart, IsValueChar), m.end)
  {
    var m := GradeAt(s, i, b).value;
    GradeTokenUnique(s, i, b);
    SepRunSpan(s, m.tokenEnd, m.valueStart);
    ValueEndShape(s, m.valueStart);
  }

  /**
   * `GradeValue(b)` matches at `i` exactly when the token is followed by separators and a value
   * `digits/digits`; of the ways to split the separators from the value, the match takes the one
   * whose value starts last, which is where Python's backtracking first succeeds.
   */
  lemma GradeValueShape(s: string, i: nat, b: bool)
    requires i <= |s|
    ensures GradeAt(s, i, b).Some? <==>
      exists t: nat, h: nat, k: nat, e: nat :: GradeToken(s, i, t, b) && SepRun(s, t, h) && SlashValue(s, h, k, e)
    ensures GradeAt(s, i, b).Some? ==> var m := GradeAt(s, i, b).value;
      && GradeToken(s, i, m.tokenEnd, b) && SepRun(s, m.tokenEnd, m.valueStart)
      && SlashValue(s, m.valueStart, m.valueStart + Span(s, m.valueStart, IsValueChar), m.end)
      && forall h: nat, k: nat, e: nat :: SepRun(s, m.tokenEnd, h) && SlashValue(s, h, k, e) ==> h <= m.valueStart
  {
    if GradeAt(s, i, b).Some? {
      var m := GradeAt(s, i, b).value;
      GradeAtLayout(s, i, b);
      forall h: nat, k: nat, e: nat | SepRun(s, m.tokenEnd, h) && SlashValue(s, h, k, e)
        ensures h <= m.valueStart
      {
        GradeLayoutMatches(s, i, b, m.tokenEnd, h, k, e);
      }
    }
    forall t: nat, h: nat, k: nat, e: nat | GradeToken(s, i, t, b) && SepRun(s, t, h) && SlashValue(s, h, k, e)
      ensures GradeAt(s, i, b).Some?
    {
      GradeLayoutMatches(s, i, b, t, h, k, e);
    }
  }
}
