/**
 * The resume parser's deterministic parts: the ad-hoc e-mail pattern
 * `[A-Za-z0-9._%+-]+@[A-Za-z0-9.-]+\.[A-Za-z]{2,}` (scanned as `re.findall` and tested as
 * `re.fullmatch` do), the choice of one address among its matches, and the value returned
 * when the language model's reply is not JSON. The model's reply itself is an input.
 */
module ResumeParser {
  import opened Wrappers
  import opened Strings
  import opened Sorting
  import opened JsonValues

  /** A character of the part before `@`. */
  predicate IsLocalChar(c: char) {
    IsAsciiLetter(c) || IsDigit(c) || c == '.' || c == '_' || c == '%' || c == '+' || c == '-'
  }

  /** A character of the part after `@`. */
  predicate IsDomainChar(c: char) {
    IsAsciiLetter(c) || IsDigit(c) || c == '.' || c == '-'
  }

  /** A dot at `q` followed by two letters: where `\.[A-Za-z]{2,}` can begin. */
  predicate TldAt(s: string, q: nat) {
    q + 2 < |s| && s[q] == '.' && IsAsciiLetter(s[q + 1]) && IsAsciiLetter(s[q + 2])
  }

  /** The largest `j` in `1..k` with a top-level domain at `p + j`, or 0. */
  function LastDot(s: string, p: nat, k: nat): (j: nat)
    ensures j <= k
    ensures j > 0 ==> TldAt(s, p + j)
    decreases k
  {
    if k == 0 then 0 else if TldAt(s, p + k) then k else LastDot(s, p, k - 1)
  }

  /**
   * The length of the match starting at `i`, or 0. The local part is the maximal run (it must
   * be followed by `@`); the greedy domain part backs off to the last dot that two letters
   * follow, and the letters after it run as far as they go.
   */
  function MatchLen(s: string, i: nat): (n: nat)
    requires i <= |s|
    ensures i + n <= |s|
  {
    var l := Span(s, i, IsLocalChar);
    if l == 0 || i + l == |s| || s[i + l] != '@' then 0
    else
      var p := i + l + 1;
      var m := Span(s, p, IsDomainChar);
      if m == 0 then 0
      else
        var k := LastDot(s, p, m - 1);
        if k == 0 then 0 else l + 1 + k + 1 + Span(s, p + k + 1, IsAsciiLetter)
  }

  /** `re.findall` from position `i`: leftmost, non-overlapping matches in order. */
  function FindAll(s: string, i: nat): seq<string>
    requires i <= |s|
    decreases |s| - i
  {
    if i == |s| then []
    else
      var n := MatchLen(s, i);
      if n > 0 then [s[i..i + n]] + FindAll(s, i + n) else FindAll(s, i + 1)
  }

  /** `re.fullmatch`: the match at the start covers the whole string. */
  predicate FullMatch(s: string) {
    |s| > 0 && MatchLen(s, 0) == |s|
  }

  /** The strings the pattern describes, read directly off the pattern. */
  predicate EmailShaped(s: string) {
    exists at, q :: 0 < at && at + 1 < q && q + 2 < |s| && Shape(s, at, q)
  }

  /** Local part before `at`, domain part strictly between `at` and the dot `q`, letters after. */
  predicate Shape(s: string, at: nat, q: nat)
    requires 0 < at && at + 1 < q && q + 2 < |s|
  {
    (forall k :: 0 <= k < at ==> IsLocalChar(s[k]))
    && s[at] == '@'
    && (forall k :: at < k < q ==> IsDomainChar(s[k]))
    && s[q] == '.'
    && (forall k :: q < k < |s| ==> IsAsciiLetter(s[k]))
  }

  // ---------------------------------------------------------------- the scanner is the pattern

  lemma {:induction false} LastDotIsLast(s: string, p: nat, k: nat, j0: nat)
    requires 0 < j0 <= k && TldAt(s, p + j0)
    requires forall q :: p + j0 < q <= p + k ==> !TldAt(s, q)
    ensures LastDot(s, p, k) == j0
    decreases k
  {
    if k > j0 {
      assert !TldAt(s, p + k);
      LastDotIsLast(s, p, k - 1, j0);
    }
  }

  lemma {:induction false} SpanAll(s: string, j: nat, p: char -> bool)
    requires j <= |s|
    requires forall k :: j <= k < |s| ==> p(s[k])
    ensures Span(s, j, p) == |s| - j
    decreases |s| - j
  {
    if j < |s| {
      SpanAll(s, j + 1, p);
    }
  }

  lemma {:induction false} SpanUpTo(s: string, j: nat, e: nat, p: char -> bool)
    requires j <= e < |s|
    requires forall k :: j <= k < e ==> p(s[k])
    requires !p(s[e])
    ensures Span(s, j, p) == e - j
    decreases e - j
  {
    if j < e {
      SpanUpTo(s, j + 1, e, p);
    }
  }

  /** `re.fullmatch` accepts exactly the strings of the pattern's shape. */
  lemma FullMatchIffShaped(s: string)
    ensures FullMatch(s) <==> EmailShaped(s)
  {
    if FullMatch(s) {
      var at, q := MatchShape(s, 0);
      assert s[0..|s|] == s;
    }
    if EmailShaped(s) {
      var at, q :| 0 < at && at + 1 < q && q + 2 < |s| && Shape(s, at, q);
      ShapedMatches(s, at, q);
    }
  }

  lemma ShapedMatches(s: string, at: nat, q: nat)
    requires 0 < at && at + 1 < q && q + 2 < |s| && Shape(s, at, q)
    ensures MatchLen(s, 0) == |s|
  {
    ShapedParts(s, at, q);
    ShapedTld(s, at, q);
  }

  /** In a shaped string the local part ends at `at` and the domain characters run to the end. */
  lemma ShapedParts(s: string, at: nat, q: nat)
    requires 0 < at && at + 1 < q && q + 2 < |s| && Shape(s, at, q)
    ensures Span(s, 0, IsLocalChar) == at && Span(s, at + 1, IsDomainChar) == |s| - at - 1
  {
    SpanUpTo(s, 0, at, IsLocalChar);
    SpanAll(s, at + 1, IsDomainChar);
  }

  /** In a shaped string the last dot followed by two letters is at `q`, letters to the end after it. */
  lemma ShapedTld(s: string, at: nat, q: nat)
    requires 0 < at && at + 1 < q && q + 2 < |s| && Shape(s, at, q)
    ensures LastDot(s, at + 1, |s| - at - 2) == q - at - 1
    ensures Span(s, q + 1, IsAsciiLetter) == |s| - q - 1
  {
    forall x | q < x < |s| ensures !TldAt(s, x) {
      assert IsAsciiLetter(s[x]);
    }
    LastDotIsLast(s, at + 1, |s| - at - 2, q - at - 1);
    SpanAll(s, q + 1, IsAsciiLetter);
  }

  lemma SpanTwo(s: string, j: nat, p: char -> bool)
    requires j + 1 < |s| && p(s[j]) && p(s[j + 1])
    ensures Span(s, j, p) >= 2
  {
  }

  /** The pieces of a match at `i`: its `@` at `i + l`, its dot at `i + l + 1 + k`, `e` letters. */
  lemma MatchParts(s: string, i: nat) returns (l: nat, k: nat, e: nat)
    requires i <= |s| && MatchLen(s, i) > 0
    ensures l > 0 && k > 0 && e >= 2 && MatchLen(s, i) == l + 1 + k + 1 + e
    ensures i + l + 1 + k + 1 + e <= |s|
    ensures forall x :: i <= x < i + l ==> IsLocalChar(s[x])
    ensures s[i + l] == '@'
    ensures forall x :: i + l < x < i + l + 1 + k ==> IsDomainChar(s[x])
    ensures s[i + l + 1 + k] == '.'
    ensures forall x :: i + l + 1 + k < x < i + l + 1 + k + 1 + e ==> IsAsciiLetter(s[x])
  {
    var m;
    l, m, k := MatchLenPieces(s, i);
    var p := i + l + 1;
    e := Span(s, p + k + 1, IsAsciiLetter);
    SpanIsMaximalRun(s, i, IsLocalChar);
    SpanIsMaximalRun(s, p, IsDomainChar);
    SpanIsMaximalRun(s, p + k + 1, IsAsciiLetter);
    SpanTwo(s, p + k + 1, IsAsciiLetter);
  }

  /** How a match at `i` is put together, read off `MatchLen`. */
  lemma MatchLenPieces(s: string, i: nat) returns (l: nat, m: nat, k: nat)
    requires i <= |s| && MatchLen(s, i) > 0
    ensures l == Span(s, i, IsLocalChar) && l > 0 && i + l < |s| && s[i + l] == '@'
    ensures m == Span(s, i + l + 1, IsDomainChar) && k == LastDot(s, i + l + 1, m - 1)
    ensures 0 < k < m && TldAt(s, i + l + 1 + k)
    ensures MatchLen(s, i) == l + 1 + k + 1 + Span(s, i + l + 1 + k + 1, IsAsciiLetter)
  {
    l := Span(s, i, IsLocalChar);
    m := Span(s, i + l + 1, IsDomainChar);
    k := LastDot(s, i + l + 1, m - 1);
  }

  /** A match at `i`, cut out of the text, has the pattern's shape. */
  lemma MatchShape(s: string, i: nat) returns (at: nat, q: nat)
    requires i <= |s| && MatchLen(s, i) > 0
    ensures 0 < at && at + 1 < q && q + 2 < MatchLen(s, i)
    ensures Shape(s[i..i + MatchLen(s, i)], at, q)
  {
    var l, k, e := MatchParts(s, i);
    var n := MatchLen(s, i);
    var t := s[i..i + n];
    at, q := l, l + 1 + k;
    forall x | 0 <= x < at ensures IsLocalChar(t[x]) {
      assert t[x] == s[i + x];
    }
    forall x | at < x < q ensures IsDomainChar(t[x]) {
      assert t[x] == s[i + x];
    }
    forall x | q < x < n ensures IsAsciiLetter(t[x]) {
      assert t[x] == s[i + x];
    }
    assert t[at] == s[i + l] && t[q] == s[i + q];
  }

  /** `c` is an address of the pattern's shape that `re.fullmatch` accepts, found in `s`. */
  predicate FoundIn(s: string, c: string) {
    EmailShaped(c) && FullMatch(c) && Contains(s, c)
  }

  /** The match at `i`, cut out of the text, is shaped, matches in full and is a piece of the text. */
  lemma MatchAtShaped(s: string, i: nat)
    requires i <= |s| && MatchLen(s, i) > 0
    ensures FoundIn(s, s[i..i + MatchLen(s, i)])
  {
    var c := s[i..i + MatchLen(s, i)];
    var at, q := MatchShape(s, i);
    assert EmailShaped(c);
    FullMatchIffShaped(c);
    assert OccursAt(s, c, i);
  }

  /** Every address `findall` returns has the pattern's shape and is a piece of the text. */
  lemma {:induction false} FindAllShaped(s: string, i: nat)
    requires i <= |s|
    ensures forall c :: c in FindAll(s, i) ==> FoundIn(s, c)
    decreases |s| - i
  {
    if i < |s| {
      var n := MatchLen(s, i);
      if n > 0 {
        var c, rest := s[i..i + n], FindAll(s, i + n);
        assert FindAll(s, i) == [c] + rest;
        FindAllShaped(s, i + n);
        MatchAtShaped(s, i);
      } else {
        assert FindAll(s, i) == FindAll(s, i + 1);
        FindAllShaped(s, i + 1);
      }
    }
  }

  // ---------------------------------------------------------------- choosing an address

  /** `sorted(matches, key=len)` is the stable descending sort by negated length. */
  function ShortestFirst(addr: string): Key {
    Key(-|addr|, 0)
  }

  /** `_clean_email`: "" for a missing address, else the shortest match, else the stripped text. */
  function CleanEmail(addr: Option<string>): string {
    if addr == None || addr.value == "" then ""
    else
      var a := Strip(addr.value);
      var matches := FindAll(a, 0);
      if matches != [] then SortDesc(matches, ShortestFirst)[0] else a
  }

  /**
   * An empty address cleans to ""; otherwise the result is the earliest of the shortest
   * addresses in the stripped text, or the stripped text when it holds none.
   */
  lemma CleanEmailSpec(addr: Option<string>)
    ensures addr == None || addr == Some("") ==> CleanEmail(addr) == ""
    ensures addr.Some? && addr.value != "" && FindAll(Strip(addr.value), 0) == [] ==>
      CleanEmail(addr) == Strip(addr.value)
    ensures addr.Some? && addr.value != "" && FindAll(Strip(addr.value), 0) != [] ==>
      var matches, r := FindAll(Strip(addr.value), 0), CleanEmail(addr);
      EmailShaped(r) && EarliestShortest(matches, r)
  {
    if addr.Some? && addr.value != "" && FindAll(Strip(addr.value), 0) != [] {
      var matches := FindAll(Strip(addr.value), 0);
      var i := ShortestHead(matches);
      FindAllShaped(Strip(addr.value), 0);
      var r := CleanEmail(addr);
      assert r == matches[i] && r in matches;
    }
  }

  /** `r` is the first of the shortest strings of `xs`. */
  predicate EarliestShortest(xs: seq<string>, r: string) {
    exists i :: 0 <= i < |xs| && xs[i] == r
      && (forall j :: 0 <= j < |xs| ==> |r| <= |xs[j]|)
      && (forall j :: 0 <= j < i ==> |r| < |xs[j]|)
  }

  /** The head of the sort by length is the earliest of the shortest. */
  lemma ShortestHead(xs: seq<string>) returns (i: nat)
    requires xs != []
    ensures i < |xs| && xs[i] == SortDesc(xs, ShortestFirst)[0]
    ensures forall j :: 0 <= j < |xs| ==> |xs[i]| <= |xs[j]|
    ensures forall j :: 0 <= j < i ==> |xs[i]| < |xs[j]|
  {
    SortDescHead(xs, ShortestFirst);
    i :| 0 <= i < |xs| && xs[i] == SortDesc(xs, ShortestFirst)[0]
      && (forall j :: 0 <= j < |xs| ==> !Above(ShortestFirst(xs[j]), ShortestFirst(xs[i])))
      && (forall j :: 0 <= j < i ==> Above(ShortestFirst(xs[i]), ShortestFirst(xs[j])));
  }

  /** The well-known mail providers the ranking prefers. */
  predicate Preferred(addr: string) {
    var a := LowerStr(addr);
    Contains(a, "gmail.com") || Contains(a, "outlook.") || Contains(a, "yahoo.")
  }

  /** The score `(pref, -len)`, ranked in descending order. */
  function Score(addr: string): Key {
    Key(if Preferred(addr) then 1 else 0, -|LowerStr(addr)|)
  }

  /** `_best_email_from_text`; a missing text reads as "". */
  function BestEmail(text: Option<string>, parsed: Option<string>): string {
    var cleaned := CleanEmail(parsed);
    if parsed.Some? && parsed.value != "" && FullMatch(cleaned) then cleaned
    else
      var candidates := FindAll(text.GetOr(""), 0);
      if candidates == [] then parsed.GetOr("")
      else SortDesc(candidates, Score)[0]
  }

  /** The parsed address wins whenever cleaning it leaves a whole address. */
  lemma BestEmailTrustsParsed(text: Option<string>, parsed: Option<string>)
    requires parsed.Some? && parsed.value != ""
    requires EmailShaped(CleanEmail(parsed))
    ensures BestEmail(text, parsed) == CleanEmail(parsed)
  {
    FullMatchIffShaped(CleanEmail(parsed));
  }

  /** Otherwise, a text without addresses gives back the parsed value, or "". */
  lemma BestEmailNoCandidates(text: Option<string>, parsed: Option<string>)
    requires !(parsed.Some? && parsed.value != "" && EmailShaped(CleanEmail(parsed)))
    requires FindAll(text.GetOr(""), 0) == []
    ensures BestEmail(text, parsed) == (if parsed.Some? then parsed.value else "")
  {
    FullMatchIffShaped(CleanEmail(parsed));
  }

  /**
   * Otherwise the text's addresses are ranked: a preferred provider beats any other, then the
   * shorter address wins, then the earlier one.
   */
  lemma BestEmailRanking(text: Option<string>, parsed: Option<string>)
    requires !(parsed.Some? && parsed.value != "" && EmailShaped(CleanEmail(parsed)))
    requires FindAll(text.GetOr(""), 0) != []
    ensures var cs, r := FindAll(text.GetOr(""), 0), BestEmail(text, parsed);
      EmailShaped(r) && exists i :: (0 <= i < |cs| && cs[i] == r
        && (forall j :: 0 <= j < |cs| ==> (Preferred(cs[j]) ==> Preferred(r)))
        && (forall j :: 0 <= j < |cs| && Preferred(cs[j]) == Preferred(r) ==> |r| <= |cs[j]|)
        && (forall j :: 0 <= j < i ==> (Preferred(r) && !Preferred(cs[j])) || |r| < |cs[j]|))
  {
    var cs := FindAll(text.GetOr(""), 0);
    FullMatchIffShaped(CleanEmail(parsed));
    SortDescHead(cs, Score);
    FindAllShaped(text.GetOr(""), 0);
    var r := BestEmail(text, parsed);
    assert r == SortDesc(cs, Score)[0];
    assert r in cs;
  }

  // ---------------------------------------------------------------- the parse result

  /** The value both parsers return when the reply is not JSON. */
  function ParseFailed(raw: string): Json {
    Obj([Member("raw", Str(raw)), Member("error", Str("JSON parse failed"))])
  }

  /** `parse_resume` after the model call: `loaded` is `json.loads(raw)`, `None` when it raises. */
  function ParseResume(raw: string, loaded: Option<Json>): (r: Json)
    ensures loaded.Some? ==> r == loaded.value
    ensures loaded.None? ==> (r.Obj? && |r.members| == 2 && r.members[0] == Member("raw", Str(raw))
                              && r.members[1] == Member("error", Str("JSON parse failed")))
  {
    match loaded
    case Some(data) => data
    case None => ParseFailed(raw)
  }
}
