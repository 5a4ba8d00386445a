/**
 * Character classes and string helpers shared by the backend (Python) and frontend (JavaScript)
 * models. Strings are sequences of Unicode scalar values; case mapping is ASCII-only.
 */
module Strings {

  /** Python's `str.isspace()`, which is also what `\s` and `str.strip()` use on `str` values. */
  predicate IsSpace(c: char) {
    c == ' ' || ('\t' <= c <= '\r') || ('\U{1C}' <= c <= '\U{1F}')
    || c == '\U{85}' || c == '\U{A0}' || c == '\U{1680}' || ('\U{2000}' <= c <= '\U{200A}')
    || c == '\U{2028}' || c == '\U{2029}' || c == '\U{202F}' || c == '\U{205F}' || c == '\U{3000}'
  }

  /** The line boundaries of Python's `str.splitlines()` (a `\r\n` pair counts as one boundary). */
  predicate IsLineBreak(c: char) {
    c == '\n' || c == '\r' || c == '\U{B}' || c == '\U{C}' || c == '\U{1C}' || c == '\U{1D}'
    || c == '\U{1E}' || c == '\U{85}' || c == '\U{2028}' || c == '\U{2029}'
  }

  /** JavaScript's `\s` and the set `String.prototype.trim` removes. */
  predicate IsJsSpace(c: char) {
    c == ' ' || ('\t' <= c <= '\r') || c == '\U{A0}' || c == '\U{1680}'
    || ('\U{2000}' <= c <= '\U{200A}') || c == '\U{2028}' || c == '\U{2029}' || c == '\U{202F}'
    || c == '\U{205F}' || c == '\U{3000}' || c == '\U{FEFF}'
  }

  predicate IsAsciiLetter(c: char) { ('A' <= c <= 'Z') || ('a' <= c <= 'z') }

  predicate IsDigit(c: char) { '0' <= c <= '9' }

  /** A word character for `\b`, restricted to ASCII. */
  predicate IsWordChar(c: char) { IsAsciiLetter(c) || IsDigit(c) || c == '_' }

  /** The characters the backend removes as bullets. */
  predicate IsBullet(c: char) { c == '•' || c == '●' }

  lemma LineBreakIsSpace(c: char)
    ensures IsLineBreak(c) ==> IsSpace(c)
  {
  }

  function Lower(c: char): (d: char)
    ensures IsAsciiLetter(c) <==> IsAsciiLetter(d)
    ensures !('A' <= d <= 'Z')
    ensures IsSpace(c) <==> IsSpace(d)
  {
    if 'A' <= c <= 'Z' then (c as int + 32) as char else c
  }

  function Upper(c: char): (d: char)
    ensures IsAsciiLetter(c) <==> IsAsciiLetter(d)
    ensures !('a' <= d <= 'z')
  {
    if 'a' <= c <= 'z' then (c as int - 32) as char else c
  }

  /** `str.lower()` / `String.prototype.toLowerCase()` on ASCII letters. */
  function LowerStr(s: string): (r: string)
    ensures |r| == |s|
  {
    seq(|s|, k requires 0 <= k < |s| => Lower(s[k]))
  }

  function UpperStr(s: string): (r: string)
    ensures |r| == |s|
  {
    seq(|s|, k requires 0 <= k < |s| => Upper(s[k]))
  }

  /** Case-insensitive equality of `c` with the upper-case ASCII letter `u`. */
  predicate SameLetterIgnoringCase(c: char, u: char)
    requires 'A' <= u <= 'Z'
  {
    c == u || c == Lower(u)
  }

  /** Length of the longest run of characters satisfying `p` that starts at `j`. */
  function Span(s: string, j: nat, p: char -> bool): (n: nat)
    requires j <= |s|
    ensures j + n <= |s|
    decreases |s| - j
  {
    if j < |s| && p(s[j]) then 1 + Span(s, j + 1, p) else 0
  }

  /** `Span` is exactly the maximal run: every character in it satisfies `p`, the next does not. */
  lemma {:induction false} SpanIsMaximalRun(s: string, j: nat, p: char -> bool)
    requires j <= |s|
    ensures forall k :: j <= k < j + Span(s, j, p) ==> p(s[k])
    ensures j + Span(s, j, p) == |s| || !p(s[j + Span(s, j, p)])
    decreases |s| - j
  {
    if j < |s| && p(s[j]) {
      SpanIsMaximalRun(s, j + 1, p);
    }
  }

  /** A run of `p` from `j` to `e` that the next character does not continue is the `Span` at `j`. */
  lemma SpanExact(s: string, j: nat, e: nat, p: char -> bool)
    requires j <= e <= |s| && forall k :: j <= k < e ==> p(s[k])
    requires e == |s| || !p(s[e])
    ensures Span(s, j, p) == e - j
  {
    SpanIsMaximalRun(s, j, p);
  }

  /** A run of `p` of length `m` at `j` makes the `Span` at `j` at least `m` long. */
  lemma SpanAtLeast(s: string, j: nat, m: nat, p: char -> bool)
    requires j + m <= |s| && forall k :: j <= k < j + m ==> p(s[k])
    ensures Span(s, j, p) >= m
  {
    SpanIsMaximalRun(s, j, p);
  }

  /** Removes the trailing characters satisfying `ws`. */
  function TrimEnd(s: string, ws: char -> bool): (r: string)
    ensures |r| <= |s| && r == s[..|r|]
  {
    if s != [] && ws(s[|s| - 1]) then TrimEnd(s[..|s| - 1], ws) else s
  }

  lemma {:induction false} TrimEndFacts(s: string, ws: char -> bool)
    ensures forall k :: |TrimEnd(s, ws)| <= k < |s| ==> ws(s[k])
    ensures TrimEnd(s, ws) == [] || !ws(TrimEnd(s, ws)[|TrimEnd(s, ws)| - 1])
  {
    if s != [] && ws(s[|s| - 1]) {
      TrimEndFacts(s[..|s| - 1], ws);
    }
  }

  /** Removes the leading and trailing characters satisfying `ws` (`str.strip()`, `trim()`). */
  function Trim(s: string, ws: char -> bool): (r: string)
    ensures Span(s, 0, ws) + |r| <= |s|
    ensures r == s[Span(s, 0, ws)..Span(s, 0, ws) + |r|]
  {
    TrimEnd(s[Span(s, 0, ws)..], ws)
  }

  /** `Trim` removes only characters of the class, and leaves none at either end. */
  lemma TrimFacts(s: string, ws: char -> bool)
    ensures forall k :: 0 <= k < Span(s, 0, ws) ==> ws(s[k])
    ensures forall k :: Span(s, 0, ws) + |Trim(s, ws)| <= k < |s| ==> ws(s[k])
    ensures Trim(s, ws) == [] || (!ws(Trim(s, ws)[0]) && !ws(Trim(s, ws)[|Trim(s, ws)| - 1]))
  {
    var a := Span(s, 0, ws);
    SpanIsMaximalRun(s, 0, ws);
    TrimEndFacts(s[a..], ws);
  }

  /** Python's `str.strip()` with no argument. */
  function Strip(s: string): string { Trim(s, IsSpace) }

  /** `s.replace(c, "")` for a one-character `c`. */
  function RemoveChar(s: string, c: char): (r: string)
    ensures |r| <= |s|
  {
    if s == [] then [] else (if s[0] == c then [] else [s[0]]) + RemoveChar(s[1..], c)
  }

  /** `RemoveChar` deletes every `c` and introduces nothing. */
  lemma {:induction false} RemoveCharFacts(s: string, c: char)
    ensures c !in RemoveChar(s, c)
    ensures forall d :: d in RemoveChar(s, c) ==> d in s
  {
    if s != [] {
      RemoveCharFacts(s[1..], c);
    }
  }

  lemma {:induction false} RemoveCharAbsent(s: string, c: char)
    requires c !in s
    ensures RemoveChar(s, c) == s
  {
    if s != [] {
      assert c !in s[1..];
      RemoveCharAbsent(s[1..], c);
    }
  }

  lemma RemoveCharIdempotent(s: string, c: char)
    ensures RemoveChar(RemoveChar(s, c), c) == RemoveChar(s, c)
  {
    RemoveCharFacts(s, c);
    RemoveCharAbsent(RemoveChar(s, c), c);
  }

  /** No two adjacent whitespace characters. */
  predicate NoDoubleSpace(s: string) {
    forall k :: 0 <= k < |s| - 1 ==> !(IsSpace(s[k]) && IsSpace(s[k + 1]))
  }

  /** Neither end is whitespace (what `str.strip()` guarantees). */
  predicate Stripped(s: string) {
    s == [] || (!IsSpace(s[0]) && !IsSpace(s[|s| - 1]))
  }

  lemma NoDoubleSpaceAppend(a: string, b: string)
    requires NoDoubleSpace(a) && NoDoubleSpace(b)
    requires a == [] || b == [] || !IsSpace(a[|a| - 1]) || !IsSpace(b[0])
    ensures NoDoubleSpace(a + b)
  {
    var ab := a + b;
    forall k | 0 <= k < |ab| - 1 ensures !(IsSpace(ab[k]) && IsSpace(ab[k + 1])) {
      if k + 1 < |a| {
        assert ab[k] == a[k] && ab[k + 1] == a[k + 1];
      } else if k >= |a| {
        assert ab[k] == b[k - |a|] && ab[k + 1] == b[k + 1 - |a|];
      }
    }
  }

  lemma NoDoubleSpaceSlice(s: string, i: nat, j: nat)
    requires NoDoubleSpace(s) && i <= j <= |s|
    ensures NoDoubleSpace(s[i..j])
  {
    var t := s[i..j];
    forall k | 0 <= k < |t| - 1 ensures !(IsSpace(t[k]) && IsSpace(t[k + 1])) {
      assert t[k] == s[i + k] && t[k + 1] == s[i + k + 1];
    }
  }

  /** `s.replace(c, d)` for one-character `c` and `d`. */
  function ReplaceChar(s: string, c: char, d: char): (r: string)
    ensures |r| == |s|
  {
    seq(|s|, k requires 0 <= k < |s| => if s[k] == c then d else s[k])
  }

  lemma ReplaceCharAbsent(s: string, c: char, d: char)
    requires c !in s
    ensures ReplaceChar(s, c, d) == s
  {
    forall k | 0 <= k < |s| ensures ReplaceChar(s, c, d)[k] == s[k] {
      assert s[k] in s;
    }
  }

  lemma RemoveCharAppend(a: string, b: string, c: char)
    ensures RemoveChar(a + b, c) == RemoveChar(a, c) + RemoveChar(b, c)
  {
    if a != [] {
      assert (a + b)[0] == a[0] && (a + b)[1..] == a[1..] + b;
      RemoveCharAppend(a[1..], b, c);
      var h := if a[0] == c then [] else [a[0]];
      calc {
        RemoveChar(a + b, c);
        h + RemoveChar(a[1..] + b, c);
        h + (RemoveChar(a[1..], c) + RemoveChar(b, c));
        (h + RemoveChar(a[1..], c)) + RemoveChar(b, c);
      }
    } else {
      assert a + b == b;
    }
  }

  /** `t in s` on strings: `t` occurs as a contiguous substring of `s`. */
  predicate Contains(s: string, t: string) {
    exists i | 0 <= i <= |s| - |t| :: OccursAt(s, t, i)
  }

  predicate OccursAt(s: string, t: string, i: int) {
    0 <= i <= |s| - |t| && s[i..i + |t|] == t
  }

  /** `sep.join(xs)`. */
  function Join(xs: seq<string>, sep: string): string {
    if xs == [] then [] else if |xs| == 1 then xs[0] else xs[0] + sep + Join(xs[1..], sep)
  }

  /** `"".join(xs)`. */
  function Concat(xs: seq<string>): string {
    if xs == [] then [] else xs[0] + Concat(xs[1..])
  }

  lemma ConcatAppend(xs: seq<string>, ys: seq<string>)
    ensures Concat(xs + ys) == Concat(xs) + Concat(ys)
  {
    if xs != [] {
      assert (xs + ys)[0] == xs[0] && (xs + ys)[1..] == xs[1..] + ys;
      ConcatAppend(xs[1..], ys);
      calc {
        Concat(xs + ys);
        xs[0] + Concat(xs[1..] + ys);
        xs[0] + (Concat(xs[1..]) + Concat(ys));
        (xs[0] + Concat(xs[1..])) + Concat(ys);
      }
    } else {
      assert xs + ys == ys;
    }
  }

  /** No character of `s` satisfies `bad`. */
  predicate NoneOf(s: string, bad: char -> bool) {
    forall k :: 0 <= k < |s| ==> !bad(s[k])
  }

  lemma NoneOfAppend(a: string, b: string, bad: char -> bool)
    requires NoneOf(a, bad) && NoneOf(b, bad)
    ensures NoneOf(a + b, bad)
  {
    forall k | 0 <= k < |a + b| ensures !bad((a + b)[k]) {
      if k >= |a| {
        assert (a + b)[k] == b[k - |a|];
      }
    }
  }

  lemma NoneOfSlice(s: string, i: nat, j: nat, bad: char -> bool)
    requires NoneOf(s, bad) && i <= j <= |s|
    ensures NoneOf(s[i..j], bad)
  {
    forall k | 0 <= k < j - i ensures !bad(s[i..j][k]) {
      assert s[i..j][k] == s[i + k];
    }
  }

  /** Stripping keeps a character class out. */
  lemma StripNoneOf(s: string, bad: char -> bool)
    requires NoneOf(s, bad)
    ensures NoneOf(Strip(s), bad)
  {
    var a := Span(s, 0, IsSpace);
    NoneOfSlice(s, a, a + |Strip(s)|, bad);
  }

  lemma {:induction false} NoneOfRemoveChar(s: string, c: char, bad: char -> bool)
    requires NoneOf(s, bad) || forall d :: bad(d) ==> d == c
    ensures NoneOf(RemoveChar(s, c), bad)
  {
    if s != [] {
      if NoneOf(s, bad) {
        NoneOfSlice(s, 1, |s|, bad);
      }
      NoneOfRemoveChar(s[1..], c, bad);
      var h := if s[0] == c then [] else [s[0]];
      NoneOfAppend(h, RemoveChar(s[1..], c), bad);
    }
  }

  lemma {:induction false} NoneOfJoin(xs: seq<string>, sep: string, bad: char -> bool)
    requires forall k :: 0 <= k < |xs| ==> NoneOf(xs[k], bad)
    requires NoneOf(sep, bad)
    ensures NoneOf(Join(xs, sep), bad)
  {
    if |xs| > 1 {
      NoneOfJoin(xs[1..], sep, bad);
      NoneOfAppend(xs[0], sep, bad);
      NoneOfAppend(xs[0] + sep, Join(xs[1..], sep), bad);
    }
  }

  lemma {:induction false} NoneOfConcat(xs: seq<string>, bad: char -> bool)
    requires forall k :: 0 <= k < |xs| ==> NoneOf(xs[k], bad)
    ensures NoneOf(Concat(xs), bad)
  {
    if xs != [] {
      NoneOfConcat(xs[1..], bad);
      NoneOfAppend(xs[0], Concat(xs[1..]), bad);
    }
  }
}
