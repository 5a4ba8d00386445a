/** The worked example of the grade-line normalisation, evaluated pass by pass. */
module GradeLineExample {
  import opened Wrappers
  import opened Strings
  import opened Patterns
  import opened Overleaf

  const Spaced := "C G P A : 8 . 6 / 1 0"
  const Joined := "CGPA : 8 . 6 / 1 0"

  lemma SpacedHasNoBullet()
    ensures ReplaceChar(ReplaceChar(Spaced, '•', ' '), '●', ' ') == Spaced
  {
    assert forall c :: c in Spaced ==> c in " CGPA:8.6/10";
    ReplaceCharAbsent(Spaced, '•', ' ');
    ReplaceCharAbsent(Spaced, '●', ' ');
  }

  lemma SpacedSingleSpaced()
    ensures NoDoubleSpace(Spaced)
    ensures forall c :: c in Spaced && IsSpace(c) ==> c == ' '
  {
    forall k | 0 <= k < |Spaced| - 1 ensures !(IsSpace(Spaced[k]) && IsSpace(Spaced[k + 1])) {
      assert k % 2 == 0 ==> !IsSpace(Spaced[k]);
      assert k % 2 == 1 ==> !IsSpace(Spaced[k + 1]);
    }
  }

  lemma SpacedStripped()
    ensures Strip(Spaced) == Spaced
  {
    assert Span(Spaced, 0, IsSpace) == 0;
  }

  lemma DespaceSpaced()
    ensures Despace(Spaced) == Spaced
  {
    SpacedHasNoBullet();
    SpacedSingleSpaced();
    SpaceRunOneIdentity(Spaced);
    SpacedStripped();
  }

  /** A four-letter word written with one space between its letters, then a space. */
  lemma FourLetterSpaced(s: string, w: string)
    requires |w| == 4 && |s| > 8
    requires Lower(w[0]) == Lower(s[0]) && Lower(w[1]) == Lower(s[2])
    requires Lower(w[2]) == Lower(s[4]) && Lower(w[3]) == Lower(s[6])
    requires IsSpace(s[1]) && IsSpace(s[3]) && IsSpace(s[5]) && IsSpace(s[7])
    requires IsAsciiLetter(s[2]) && IsAsciiLetter(s[4]) && IsAsciiLetter(s[6])
    ensures SpacedWordEnd(s, 0, w) == 7
  {
    SpacedWordStep(s, 0, w);
    SpacedWordStep(s, 2, w[1..]);
    assert w[1..][1..] == w[2..];
    SpacedWordStep(s, 4, w[2..]);
    assert w[2..][1..] == w[3..];
    assert SpacedWordEnd(s, 6, w[3..]) == 7;
  }

  lemma SpacedTokenMatch(s: string, w: string)
    requires s == Spaced && w == "CGPA"
    ensures MatchLen(SpacedWord(w), s, 0) == 7
  {
    assert s[0] == 'C' && s[2] == 'G' && s[4] == 'P' && s[6] == 'A';
    assert s[1] == ' ' && s[3] == ' ' && s[5] == ' ' && s[7] == ' ';
    FourLetterSpaced(s, w);
  }

  lemma SpacedTokenOnce()
    ensures forall j :: 7 <= j < |Spaced| ==> MatchLen(SpacedWord("CGPA"), Spaced, j) == 0
  {
    var rest := " : 8 . 6 / 1 0";
    assert Spaced[7..] == rest;
    assert forall c :: c in rest ==> Lower(c) != 'c';
    forall j | 7 <= j < |Spaced| ensures MatchLen(SpacedWord("CGPA"), Spaced, j) == 0 {
      assert Spaced[j] == rest[j - 7];
      assert Spaced[j] in rest;
    }
  }

  lemma SpacedTokenFacts(s: string)
    requires s == Spaced
    ensures |s| == 21 && MatchLen(SpacedWord("CGPA"), s, 0) == 7
    ensures forall k :: 7 <= k < |s| ==> MatchLen(SpacedWord("CGPA"), s, k) == 0
  {
    SpacedTokenOnce();
    SpacedTokenMatch(s, "CGPA");
  }

  lemma SpacedTokenSplice(s: string)
    requires s == Spaced
    ensures s[..0] + "CGPA" + s[7..] == Joined
  {
    assert s[..0] == [] && s[7..] == " : 8 . 6 / 1 0";
  }

  /** The spaced token is joined. */
  lemma JoinToken(s: string)
    requires s == Spaced
    ensures Sub(SpacedWord("CGPA"), s) == Joined
  {
    SpacedTokenFacts(s);
    SubOneMatch(SpacedWord("CGPA"), s, 0, 7);
    SpacedWordReplacement("CGPA", s, 0);
    SpacedTokenSplice(s);
  }

  lemma JoinedGpaMatch()
    ensures MatchLen(SpacedWord("GPA"), Joined, 1) == 3
    ensures MatchLen(SpacedWord("GPA"), Joined, 0) == 0
  {
    assert SpacedWordEnd(Joined, 3, "A") == 4;
    assert Span(Joined, 2, IsSpace) == 0;
    assert SpacedWordEnd(Joined, 2, "PA") == 4;
    assert Span(Joined, 1, IsSpace) == 0;
  }

  lemma JoinedGpaOnce()
    ensures forall j :: 4 <= j < |Joined| ==> MatchLen(SpacedWord("GPA"), Joined, j) == 0
  {
    var rest := " : 8 . 6 / 1 0";
    assert Joined[4..] == rest;
    assert forall c :: c in rest ==> Lower(c) != 'g';
    forall j | 4 <= j < |Joined| ensures MatchLen(SpacedWord("GPA"), Joined, j) == 0 {
      assert Joined[j] == rest[j - 4];
      assert Joined[j] in rest;
    }
  }

  lemma JoinedGpaFacts(s: string)
    requires s == Joined
    ensures |s| == 18 && MatchLen(SpacedWord("GPA"), s, 1) == 3
    ensures forall k :: 0 <= k < 1 ==> MatchLen(SpacedWord("GPA"), s, k) == 0
    ensures forall k :: 4 <= k < |s| ==> MatchLen(SpacedWord("GPA"), s, k) == 0
  {
    JoinedGpaMatch();
    JoinedGpaOnce();
  }

  lemma JoinedGpaSplice(s: string)
    requires s == Joined
    ensures s[..1] + "GPA" + s[4..] == Joined
  {
    assert s[..1] == "C" && s[4..] == " : 8 . 6 / 1 0";
  }

  /** The inner "GPA" of "CGPA" is matched and replaced by itself. */
  lemma GpaKeeps(s: string)
    requires s == Joined
    ensures Sub(SpacedWord("GPA"), s) == Joined
  {
    JoinedGpaFacts(s);
    SubOneMatch(SpacedWord("GPA"), s, 1, 3);
    SpacedWordReplacement("GPA", s, 1);
    JoinedGpaSplice(s);
  }

  lemma JoinedDigits(s: string)
    requires s == Joined
    ensures forall j :: 0 <= j < |s| && IsDigit(s[j]) ==> j == 7 || j == 11 || j == 15 || j == 17
  {
    forall j | 0 <= j < |s| && IsDigit(s[j]) ensures j == 7 || j == 11 || j == 15 || j == 17 {
      assert s[j] in "0123456789";
    }
  }

  /** No run of six or more digits: the digit pass changes nothing. */
  lemma NoDigitRun(s: string)
    requires s == Joined
    ensures Sub(DigitRun, s) == Joined
  {
    JoinedDigits(s);
    forall j | 0 <= j < |s| ensures MatchLen(DigitRun, s, j) == 0 {
      if j == 7 {
        assert DigitRunEnd(s, 9, 1, 7) == -1;
      } else if j == 11 {
        assert DigitRunEnd(s, 13, 1, 11) == -1;
      } else if j == 15 {
        assert DigitRunEnd(s, 17, 1, 15) == -1;
      } else if j != 17 {
        DigitRunNeedsDigit(s, j);
      }
    }
    SubNoMatch(DigitRun, s);
  }

  lemma GradeToken(s: string)
    requires s == Joined
    ensures GradeTokenLen(s, 0, true) == 4
  {
    forall k | 0 <= k < 4 ensures Lower(s[k]) == Lower("CGPA"[k]) {
      assert k == 0 || k == 1 || k == 2 || k == 3;
    }
    assert MatchesIgnoringCase(s, 0, "CGPA");
  }

  lemma GradeValueSpan(s: string)
    requires s == Joined
    ensures Span(s, 4, IsSepChar) == 3
    ensures ValueEnd(s, 7) == 18
  {
    assert Span(s, 7, IsValueChar) == 6;
    assert Span(s, 14, IsValueChar) == 4;
  }

  lemma GradeFound(s: string)
    requires s == Joined
    ensures GradeAt(s, 0, true) == Some(GradeMatch(4, 7, 18))
  {
    GradeToken(s);
    GradeValueSpan(s);
    assert LastValueStart(s, 4, 7) == 7;
  }

  lemma ValueHead()
    ensures RemoveChar("8 . 6", ' ') == "8.6"
  {
    assert RemoveChar("6", ' ') == "6";
    assert RemoveChar(" 6", ' ') == "6";
    assert RemoveChar(". 6", ' ') == ".6";
    assert RemoveChar(" . 6", ' ') == ".6";
  }

  lemma ValueTail()
    ensures RemoveChar(" / 1 0", ' ') == "/10"
  {
    assert RemoveChar("0", ' ') == "0";
    assert RemoveChar(" 0", ' ') == "0";
    assert RemoveChar("1 0", ' ') == "10";
    assert RemoveChar(" 1 0", ' ') == "10";
    assert RemoveChar("/ 1 0", ' ') == "/10";
  }

  lemma ValueJoined(v: string)
    requires v == "8 . 6 / 1 0"
    ensures RemoveChar(v, ' ') == "8.6/10"
  {
    ValueHead();
    ValueTail();
    assert v == v[..5] + v[5..];
    assert v[..5] == "8 . 6" && v[5..] == " / 1 0";
    RemoveCharAppend(v[..5], v[5..], ' ');
  }

  lemma GradeText(s: string)
    requires s == Joined
    ensures UpperStr(s[0..4]) + ": " + RemoveChar(s[7..18], ' ') == "CGPA: 8.6/10"
  {
    assert s[0..4] == "CGPA";
    assert s[7..18] == "8 . 6 / 1 0";
    ValueJoined(s[7..18]);
  }

  /** The whole line is one grade match: the token upper-cased, ": ", the value without spaces. */
  lemma GradeRewrite(s: string)
    requires s == Joined
    ensures Sub(GradeValue(true), s) == "CGPA: 8.6/10"
  {
    GradeFound(s);
    GradeValueReplacement(s, 0, true, GradeMatch(4, 7, 18));
    SubOneMatch(GradeValue(true), s, 0, 18);
    GradeText(s);
    assert s[..0] == [] && s[18..] == [];
  }

  /** The example of the normalisation's own documentation. */
  lemma NormalizeSpacedGrade()
    ensures NormalizeGradeLine("C G P A : 8 . 6 / 1 0") == "CGPA: 8.6/10"
  {
    DespaceSpaced();
    JoinToken(Spaced);
    GpaKeeps(Joined);
    NoDigitRun(Joined);
    GradeRewrite(Joined);
  }
}

/** The month-year repair of education dates on two inputs. */
module DateExample {
  import opened Strings
  import opened Patterns

  const Glued := "Aug2020"
  const Letterspaced := "A u g 2 0 2 0"

  lemma GluedFacts(s: string)
    requires s == Glued
    ensures MatchLen(DateWord, s, 0) == 7 && Span(s, 0, IsAsciiLetter) == 3
  {
    assert Span(s, 0, IsAsciiLetter) == 3;
    assert Span(s, 3, IsSpace) == 0;
    assert Span(s, 3, IsDigit) == 4;
  }

  lemma GluedSplice(s: string)
    requires s == Glued
    ensures s[..0] + (s[0..3] + " " + s[3..7]) + s[7..] == "Aug 2020"
  {
    assert s[0..3] == "Aug" && s[3..7] == "2020" && s[..0] == [] && s[7..] == [];
  }

  /** A month glued to its year is separated by one space. */
  lemma GluedDateSeparated()
    ensures Sub(DateWord, Glued) == "Aug 2020"
  {
    GluedFacts(Glued);
    SubOneMatch(DateWord, Glued, 0, 7);
    DateWordReplacement(Glued, 0, 3, 7);
    GluedSplice(Glued);
  }

  /** No two letters are adjacent. */
  lemma LetterspacedNoPair(s: string)
    requires s == Letterspaced
    ensures forall j :: 0 <= j < |s| - 1 ==> !IsAsciiLetter(s[j]) || !IsAsciiLetter(s[j + 1])
  {
    forall j | 0 <= j < |s| - 1 ensures !IsAsciiLetter(s[j]) || !IsAsciiLetter(s[j + 1]) {
      assert j % 2 == 1 ==> s[j] == ' ';
      assert j % 2 == 0 ==> s[j + 1] == ' ';
    }
  }

  /** A letter-spaced date is left as it is: the pattern wants three adjacent letters. */
  lemma LetterspacedDateUnchanged()
    ensures Sub(DateWord, Letterspaced) == Letterspaced
  {
    var s := Letterspaced;
    LetterspacedNoPair(s);
    forall j | 0 <= j < |s| ensures MatchLen(DateWord, s, j) == 0 {
      if j == |s| - 1 {
        assert !IsAsciiLetter(s[j]);
      }
      DateWordNeedsLetters(s, j);
    }
    SubNoMatch(DateWord, s);
  }
}
