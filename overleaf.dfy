/**
 * The one-page LaTeX template path: experience is ranked by how many job-description skills
 * it mentions, education details are repaired (grade lines, character fragments, month-year
 * dates), skills are grouped when the parser did not, every section is capped, and the
 * template context is assembled. Rendering the template is outside the model; its file
 * extension comes in as a parameter.
 */
module Overleaf {
  import opened Wrappers
  import opened Strings
  import opened Patterns
  import opened Sorting
  import opened ResumeData
  import SkillGroups

  // ---------------------------------------------------------------- relevance score

  /** The job-description skills, lower-cased once. */
  function LowerAll(jd: seq<string>): (r: seq<string>)
    ensures |r| == |jd| && forall k :: 0 <= k < |jd| ==> r[k] == LowerStr(jd[k])
  {
    seq(|jd|, k requires 0 <= k < |jd| => LowerStr(jd[k]))
  }

  /** How many of the (lower-cased) skills `jl` occur in the lower-cased `text`. */
  function Hits(jl: seq<string>, text: string): nat {
    if jl == [] then 0 else (if Contains(LowerStr(text), jl[0]) then 1 else 0) + Hits(jl[1..], text)
  }

  /** The hits over the bullets of an entry. */
  function BulletHits(jl: seq<string>, bullets: seq<string>): nat {
    if bullets == [] then 0 else Hits(jl, bullets[0]) + BulletHits(jl, bullets[1..])
  }

  /** The relevance of an experience entry: hits in its title, company, location and bullets. */
  function Score(e: Experience, jd: seq<string>): nat {
    var jl := LowerAll(jd);
    Hits(jl, e.title) + Hits(jl, e.company) + Hits(jl, e.location) + BulletHits(jl, e.bullets)
  }

  /** Some skill occurs in the text, case ignored on both sides. */
  predicate Mentions(jd: seq<string>, text: string) {
    exists k :: 0 <= k < |jd| && Contains(LowerStr(text), LowerStr(jd[k]))
  }

  lemma {:induction false} HitsZero(jl: seq<string>, text: string)
    ensures Hits(jl, text) == 0 <==> forall k :: 0 <= k < |jl| ==> !Contains(LowerStr(text), jl[k])
    ensures Hits(jl, text) <= |jl|
  {
    if jl != [] {
      HitsZero(jl[1..], text);
      forall k | 1 <= k < |jl| ensures jl[k] == jl[1..][k - 1] {}
    }
  }

  lemma {:induction false} BulletHitsZero(jl: seq<string>, bullets: seq<string>)
    ensures BulletHits(jl, bullets) == 0 <==> forall k :: 0 <= k < |bullets| ==> Hits(jl, bullets[k]) == 0
  {
    if bullets != [] {
      BulletHitsZero(jl, bullets[1..]);
      forall k | 1 <= k < |bullets| ensures bullets[k] == bullets[1..][k - 1] {}
    }
  }

  lemma {:induction false} BulletHitsBound(jl: seq<string>, bullets: seq<string>)
    ensures BulletHits(jl, bullets) <= |jl| * |bullets|
  {
    if bullets != [] {
      BulletHitsBound(jl, bullets[1..]);
      HitsZero(jl, bullets[0]);
      assert |jl| * |bullets| == |jl| + |jl| * |bullets[1..]|;
    }
  }

  /**
   * An entry scores 0 exactly when no skill occurs in any of its fields or bullets, and never
   * more than one point per skill and field.
   */
  lemma ScoreZeroIff(e: Experience, jd: seq<string>)
    ensures Score(e, jd) == 0 <==>
      !Mentions(jd, e.title) && !Mentions(jd, e.company) && !Mentions(jd, e.location)
      && forall k :: 0 <= k < |e.bullets| ==> !Mentions(jd, e.bullets[k])
  {
    var jl := LowerAll(jd);
    HitsMentions(jd, e.title);
    HitsMentions(jd, e.company);
    HitsMentions(jd, e.location);
    BulletHitsZero(jl, e.bullets);
    forall k | 0 <= k < |e.bullets| ensures Hits(jl, e.bullets[k]) == 0 <==> !Mentions(jd, e.bullets[k]) {
      HitsMentions(jd, e.bullets[k]);
    }
  }

  lemma HitsMentions(jd: seq<string>, text: string)
    ensures Hits(LowerAll(jd), text) == 0 <==> !Mentions(jd, text)
  {
    HitsZero(LowerAll(jd), text);
  }

  /** An entry scores at most one point per skill and field. */
  lemma ScoreBound(e: Experience, jd: seq<string>)
    ensures Score(e, jd) <= |jd| * (3 + |e.bullets|)
  {
    var jl := LowerAll(jd);
    HitsZero(jl, e.title);
    HitsZero(jl, e.company);
    HitsZero(jl, e.location);
    BulletHitsBound(jl, e.bullets);
    assert |jd| * (3 + |e.bullets|) == 3 * |jd| + |jd| * |e.bullets|;
  }

  // ---------------------------------------------------------------- reordering

  /** The sort key of an entry: its score. */
  function ScoreKey(jd: seq<string>): Experience -> Key {
    e => Key(Score(e, jd), 0)
  }

  /** `sorted(exps, key=score, reverse=True)`. */
  function Reorder(exps: seq<Experience>, jd: seq<string>): seq<Experience> {
    SortDesc(exps, ScoreKey(jd))
  }

  /**
   * The reordered entries are the input entries, by non-increasing score, entries of equal
   * score in their input order.
   */
  lemma ReorderSpec(exps: seq<Experience>, jd: seq<string>)
    ensures multiset(Reorder(exps, jd)) == multiset(exps)
    ensures |Reorder(exps, jd)| == |exps|
    ensures forall i, j :: 0 <= i < j < |Reorder(exps, jd)| ==>
      Score(Reorder(exps, jd)[i], jd) >= Score(Reorder(exps, jd)[j], jd)
    ensures forall v: nat :: WithKey(Reorder(exps, jd), ScoreKey(jd), Key(v, 0)) == WithKey(exps, ScoreKey(jd), Key(v, 0))
  {
    var key := ScoreKey(jd);
    SortDescPermutes(exps, key);
    SortDescSorted(exps, key);
    var r := Reorder(exps, jd);
    forall i, j | 0 <= i < j < |r| ensures Score(r[i], jd) >= Score(r[j], jd) {
      assert !Above(key(r[j]), key(r[i]));
    }
    forall v: nat ensures WithKey(r, key, Key(v, 0)) == WithKey(exps, key, Key(v, 0)) {
      SortDescStable(exps, key, Key(v, 0));
    }
  }

  // ---------------------------------------------------------------- one-page caps

  /** `xs[:n]`. */
  function Cap<T>(xs: seq<T>, n: nat): (r: seq<T>)
    ensures r <= xs && |r| == if |xs| < n then |xs| else n
  {
    if |xs| <= n then xs else xs[..n]
  }

  function CapExperience(ex: seq<Experience>): seq<Experience> {
    var kept := Cap(ex, 3);
    seq(|kept|, i requires 0 <= i < |kept| => kept[i].(bullets := Cap(kept[i].bullets, 4)))
  }

  function CapProjects(pr: seq<Project>): seq<Project> {
    var kept := Cap(pr, 2);
    seq(|kept|, i requires 0 <= i < |kept| => kept[i].(bullets := Cap(kept[i].bullets, 3)))
  }

  datatype Trimmed = Trimmed(
    education: seq<Education>, experience: seq<Experience>, projects: seq<Project>,
    skillsGroups: seq<SkillGroup>, skillsList: seq<string>, certifications: seq<string>)

  /**
   * `_trim_one_page`: the first 2 education entries, 3 experience entries with at most 4 bullets
   * each, 2 projects with at most 3 bullets each, 6 skill groups, 16 flat skills, 4 certifications.
   */
  function TrimOnePage(education: seq<Education>, experience: seq<Experience>, projects: seq<Project>,
                       skillsGroups: seq<SkillGroup>, skillsList: seq<string>, certifications: seq<string>): Trimmed
  {
    Trimmed(Cap(education, 2), CapExperience(experience), CapProjects(projects),
            Cap(skillsGroups, 6), Cap(skillsList, 16), Cap(certifications, 4))
  }

  /**
   * Each trimmed section is the leading part of its input, up to its cap; kept experience and
   * project entries differ from their inputs only in the bullets, which are a leading part of
   * the original bullets up to 4 (experience) or 3 (projects).
   */
  lemma TrimOnePageSpec(education: seq<Education>, experience: seq<Experience>, projects: seq<Project>,
                        skillsGroups: seq<SkillGroup>, skillsList: seq<string>, certifications: seq<string>)
    ensures var t := TrimOnePage(education, experience, projects, skillsGroups, skillsList, certifications);
      && t.education <= education && |t.education| == Min(|education|, 2)
      && |t.experience| == Min(|experience|, 3)
      && (forall i :: 0 <= i < |t.experience| ==>
            t.experience[i].(bullets := experience[i].bullets) == experience[i]
            && t.experience[i].bullets <= experience[i].bullets
            && |t.experience[i].bullets| == Min(|experience[i].bullets|, 4))
      && |t.projects| == Min(|projects|, 2)
      && (forall i :: 0 <= i < |t.projects| ==>
            t.projects[i].(bullets := projects[i].bullets) == projects[i]
            && t.projects[i].bullets <= projects[i].bullets
            && |t.projects[i].bullets| == Min(|projects[i].bullets|, 3))
      && t.skillsGroups <= skillsGroups && |t.skillsGroups| == Min(|skillsGroups|, 6)
      && t.skillsList <= skillsList && |t.skillsList| == Min(|skillsList|, 16)
      && t.certifications <= certifications && |t.certifications| == Min(|certifications|, 4)
  {
    var t := TrimOnePage(education, experience, projects, skillsGroups, skillsList, certifications);
    forall i | 0 <= i < |t.experience| ensures t.experience[i].(bullets := experience[i].bullets) == experience[i] {
      assert Cap(experience, 3)[i] == experience[i];
    }
    forall i | 0 <= i < |t.projects| ensures t.projects[i].(bullets := projects[i].bullets) == projects[i] {
      assert Cap(projects, 2)[i] == projects[i];
    }
  }

  function Min(a: nat, b: nat): nat { if a < b then a else b }

  // ---------------------------------------------------------------- grade lines

  /** Bullets to spaces, whitespace runs to one space, then strip. */
  function Despace(s: string): string {
    Strip(Sub(SpaceRun(1), ReplaceChar(ReplaceChar(s, '•', ' '), '●', ' ')))
  }

  /** The token and value repairs: spaced CGPA and GPA, digit runs, then the grade value. */
  function FixGrades(t: string): string {
    Sub(GradeValue(true), Sub(DigitRun, Sub(SpacedWord("GPA"), Sub(SpacedWord("CGPA"), t))))
  }

  /** `_normalize_cgpa_gpa_line`: the passes over one education detail line. */
  function NormalizeGradeLine(s: string): string {
    if s == [] then s else FixGrades(Despace(s))
  }

  /** What a normalised line never holds: a bullet, or whitespace other than a plain space. */
  predicate IsStray(c: char) { IsBullet(c) || IsOtherSpace(c) }

  /** The letters and punctuation the passes may write in addition to the line's own characters. */
  const GradeChars := "CGPA: "

  lemma InsertedNotStray()
    ensures NoneOf(Inserted(SpacedWord("CGPA")), IsStray)
    ensures NoneOf(Inserted(SpacedWord("GPA")), IsStray)
    ensures NoneOf(Inserted(DigitRun), IsStray)
    ensures NoneOf(Inserted(GradeValue(true)), IsStray)
  {
    assert Inserted(GradeValue(true)) == "CGPA: ";
  }

  lemma DespaceClean(s: string)
    ensures NoneOf(Despace(s), IsStray)
  {
    var s1 := ReplaceChar(ReplaceChar(s, '•', ' '), '●', ' ');
    var s1a := Sub(SpaceRun(1), s1);
    SpaceRunBlanks(s1);
    SubNoneOf(SpaceRun(1), s1, IsBullet);
    assert NoneOf(s1a, IsStray);
    StripNoneOf(s1a, IsStray);
  }

  lemma FixGradesClean(t: string)
    requires NoneOf(t, IsStray)
    ensures NoneOf(FixGrades(t), IsStray)
  {
    InsertedNotStray();
    var t3 := Sub(SpacedWord("CGPA"), t);
    var t4 := Sub(SpacedWord("GPA"), t3);
    var t5 := Sub(DigitRun, t4);
    SubNoneOf(SpacedWord("CGPA"), t, IsStray);
    SubNoneOf(SpacedWord("GPA"), t3, IsStray);
    SubNoneOf(DigitRun, t4, IsStray);
    SubNoneOf(GradeValue(true), t5, IsStray);
  }

  lemma DespaceChars(s: string)
    ensures CharsFrom(Despace(s), s, GradeChars)
  {
    var s1 := ReplaceChar(ReplaceChar(s, '•', ' '), '●', ' ');
    var s1a := Sub(SpaceRun(1), s1);
    assert CharsFrom(s1, s, GradeChars);
    SubChars(SpaceRun(1), s1);
    CharsFromWiden(s1a, s1, Inserted(SpaceRun(1)), GradeChars);
    var a := Span(s1a, 0, IsSpace);
    SliceChars(s1a, a, a + |Despace(s)|, GradeChars);
  }

  lemma FixGradesChars(t: string)
    ensures CharsFrom(FixGrades(t), t, GradeChars)
  {
    var t3 := Sub(SpacedWord("CGPA"), t);
    var t4 := Sub(SpacedWord("GPA"), t3);
    var t5 := Sub(DigitRun, t4);
    SubChars(SpacedWord("CGPA"), t);
    CharsFromWiden(t3, t, Inserted(SpacedWord("CGPA")), GradeChars);
    SubChars(SpacedWord("GPA"), t3);
    CharsFromWiden(t4, t3, Inserted(SpacedWord("GPA")), GradeChars);
    SubChars(DigitRun, t4);
    CharsFromWiden(t5, t4, Inserted(DigitRun), GradeChars);
    SubChars(GradeValue(true), t5);
  }

  /**
   * The normalised line is empty when the input is; it holds no bullet and no whitespace other
   * than a plain space, and every character in it is one of the input's or one of "CGPA: ".
   */
  lemma NormalizeGradeLineShape(s: string)
    ensures s == [] ==> NormalizeGradeLine(s) == []
    ensures NoneOf(NormalizeGradeLine(s), IsStray)
    ensures CharsFrom(NormalizeGradeLine(s), s, GradeChars)
  {
    if s != [] {
      DespaceClean(s);
      FixGradesClean(Despace(s));
      DespaceChars(s);
      FixGradesChars(Despace(s));
      CharsFromTrans(NormalizeGradeLine(s), Despace(s), s, GradeChars);
    }
  }

  // ---------------------------------------------------------------- character fragments

  /** A detail with surrounding whitespace removed and bullets deleted. */
  function CleanDetail(x: string): string {
    RemoveChar(RemoveChar(Strip(x), '•'), '●')
  }

  /** The details that are not blank after stripping, in order. */
  function NonBlank(details: seq<string>): (r: seq<string>)
    ensures |r| <= |details|
  {
    if details == [] then []
    else (if Strip(details[0]) != [] then [details[0]] else []) + NonBlank(details[1..])
  }

  /** The cleaned details, dropping those that are blank after stripping. */
  function CleanDetails(details: seq<string>): seq<string> {
    var kept := NonBlank(details);
    seq(|kept|, i requires 0 <= i < |kept| => CleanDetail(kept[i]))
  }

  /** How many cleaned details are one or two characters long. */
  function ShortCount(cleaned: seq<string>): (n: nat)
    ensures n <= |cleaned|
  {
    if cleaned == [] then 0 else (if |cleaned[0]| <= 2 then 1 else 0) + ShortCount(cleaned[1..])
  }

  /** `max(3, int(0.6 * n))`. */
  function CollapseThreshold(n: nat): nat {
    if (6 * n) / 10 > 3 then (6 * n) / 10 else 3
  }

  /** `_collapse_char_details`. */
  function CollapseCharDetails(details: seq<string>): seq<string> {
    if details == [] then details
    else
      var cleaned := CleanDetails(details);
      if cleaned == [] then []
      else if ShortCount(cleaned) >= CollapseThreshold(|cleaned|) then
        var joined := NormalizeGradeLine(Concat(cleaned));
        if joined == [] then [] else [joined]
      else seq(|cleaned|, i requires 0 <= i < |cleaned| => NormalizeGradeLine(cleaned[i]))
  }

  /**
   * The details are joined into one line when at least 3 of them are short and the short ones
   * reach `int(0.6 * n)`, the whole part of 60% of the `n` cleaned details: one more short detail
   * would make them more than 60%.
   */
  predicate Collapses(cleaned: seq<string>) {
    var n := ShortCount(cleaned);
    n >= 3 && 10 * (n + 1) > 6 * |cleaned|
  }

  /**
   * The threshold in the source's terms and what it means: 60% short (and at least 3) always
   * collapses; with at most six details three short ones are enough; a share below 60% can
   * still collapse, as 4 short details of 7 do; a collapse needs at least half of the details
   * short, and from ten details on a strict majority.
   */
  lemma CollapseThresholdMeaning(cleaned: seq<string>)
    ensures ShortCount(cleaned) >= CollapseThreshold(|cleaned|) <==> Collapses(cleaned)
    ensures ShortCount(cleaned) >= 3 && 10 * ShortCount(cleaned) >= 6 * |cleaned| ==> Collapses(cleaned)
    ensures |cleaned| <= 6 ==> (Collapses(cleaned) <==> ShortCount(cleaned) >= 3)
    ensures |cleaned| == 7 && ShortCount(cleaned) == 4 ==> Collapses(cleaned)
    ensures Collapses(cleaned) ==> 2 * ShortCount(cleaned) >= |cleaned|
    ensures |cleaned| >= 10 && Collapses(cleaned) ==> 2 * ShortCount(cleaned) > |cleaned|
  {
    var n, m := ShortCount(cleaned), |cleaned|;
    assert (6 * m) / 10 * 10 <= 6 * m < (6 * m) / 10 * 10 + 10;
  }

  /**
   * The collapsed details: nothing for no details; otherwise either the cleaned details joined
   * and normalised into at most one line (when mostly short fragments), or each cleaned detail
   * normalised on its own line. Every line is free of bullets and of non-space whitespace.
   */
  lemma CollapseCharDetailsSpec(details: seq<string>)
    ensures var r := CollapseCharDetails(details);
      var cleaned := CleanDetails(details);
      && (cleaned == [] ==> r == [])
      && (cleaned != [] && Collapses(cleaned) ==>
            r == (if NormalizeGradeLine(Concat(cleaned)) == [] then [] else [NormalizeGradeLine(Concat(cleaned))]))
      && (cleaned != [] && !Collapses(cleaned) ==>
            |r| == |cleaned| && forall i :: 0 <= i < |r| ==> r[i] == NormalizeGradeLine(cleaned[i]))
      && (|cleaned| < 3 ==> !Collapses(cleaned))
      && forall i :: 0 <= i < |r| ==> NoneOf(r[i], IsStray)
  {
    var cleaned := CleanDetails(details);
    var r := CollapseCharDetails(details);
    if details == [] {
      assert cleaned == [];
    }
    CollapseThresholdMeaning(cleaned);
    if cleaned != [] {
      NormalizeGradeLineShape(Concat(cleaned));
      forall i | 0 <= i < |cleaned| ensures NoneOf(NormalizeGradeLine(cleaned[i]), IsStray) {
        NormalizeGradeLineShape(cleaned[i]);
      }
    }
  }

  /** `NonBlank` keeps exactly the details that are not blank after stripping. */
  lemma {:induction false} NonBlankMembers(details: seq<string>, x: string)
    ensures x in NonBlank(details) <==> x in details && Strip(x) != []
  {
    if details != [] {
      NonBlankMembers(details[1..], x);
      assert details == [details[0]] + details[1..];
    }
  }

  lemma CleanDetailNoBullet(x: string)
    ensures NoneOf(CleanDetail(x), IsBullet)
  {
    var a := RemoveChar(Strip(x), '•');
    RemoveCharFacts(Strip(x), '•');
    RemoveCharFacts(a, '●');
  }

  // ---------------------------------------------------------------- education entries

  /**
   * One education entry after sanitising: list details collapsed, a single string detail
   * normalised into a one-line list, and non-empty dates passed through the month-year repair.
   */
  function SanitizeEntry(e: Education): Education {
    var e1 :=
      match e.details
      case DetailList(items) => e.(details := DetailList(CollapseCharDetails(items)))
      case DetailText(t) => e.(details := DetailList([NormalizeGradeLine(t)]))
      case NoDetails => e;
    if e1.dates != [] then e1.(dates := Sub(DateWord, e1.dates)) else e1
  }

  /**
   * Sanitising changes only details and dates: a detail list goes through the short-detail
   * collapse, a single string becomes a one-line list of its normalised grade line, absent
   * details stay absent; non-empty dates go through the month-year repair, empty dates stay
   * empty.
   */
  lemma SanitizeEntrySpec(e: Education)
    ensures SanitizeEntry(e).degree == e.degree && SanitizeEntry(e).school == e.school
    ensures !SanitizeEntry(e).details.DetailText?
    ensures e.details.NoDetails? <==> SanitizeEntry(e).details.NoDetails?
    ensures e.details.DetailText? ==> SanitizeEntry(e).details == DetailList([NormalizeGradeLine(e.details.text)])
    ensures e.details.DetailList? ==> SanitizeEntry(e).details == DetailList(CollapseCharDetails(e.details.items))
    ensures e.dates == [] <==> SanitizeEntry(e).dates == []
    ensures e.dates != [] ==> SanitizeEntry(e).dates == Sub(DateWord, e.dates)
    ensures SanitizeEntry(e).(details := e.details, dates := e.dates) == e
  {
    if e.dates != [] {
      DateWordNonEmpty(e.dates);
    }
  }

  /** The month-year repair never empties a non-empty string. */
  lemma DateWordNonEmpty(s: string)
    requires s != []
    ensures Sub(DateWord, s) != []
  {
    LensFit(DateWord, s);
    var lens, reps := Lens(DateWord, s), Reps(DateWord, s);
    if lens[0] > 0 {
      assert reps[0] == Replacement(DateWord, s, 0);
      assert |reps[0]| > 0;
    }
  }

  /** The sanitising loop over the education entries. */
  method SanitizeEducation(education: seq<Education>) returns (sanitized: seq<Education>)
    ensures |sanitized| == |education|
    ensures forall i :: 0 <= i < |education| ==> sanitized[i] == SanitizeEntry(education[i])
  {
    sanitized := [];
    for i := 0 to |education|
      invariant |sanitized| == i
      invariant forall k :: 0 <= k < i ==> sanitized[k] == SanitizeEntry(education[k])
    {
      var e := education[i];
      match e.details {
        case DetailList(items) =>
          e := e.(details := DetailList(CollapseCharDetails(items)));
        case DetailText(t) =>
          e := e.(details := DetailList([NormalizeGradeLine(t)]));
        case NoDetails =>
      }
      if e.dates != [] {
        e := e.(dates := Sub(DateWord, e.dates));
      }
      sanitized := sanitized + [e];
    }
  }

  // ---------------------------------------------------------------- the template context

  datatype Context = Context(
    name: string, email: string, phone: string, linkedin: string, github: string, location: string,
    education: seq<Education>, experience: seq<Experience>, projects: seq<Project>,
    skillsGroups: seq<SkillGroup>, skillsList: seq<string>, certifications: seq<string>,
    achievements: seq<string>)

  /** The skill groups handed to the template: the parser's, or the keyword grouping when it gave none. */
  function GroupsFor(resume: Resume): seq<SkillGroup> {
    if resume.skillsGroups == [] && resume.skills != [] then SkillGroups.Grouping(resume.skills)
    else resume.skillsGroups
  }

  /** The template context `build_overleaf_modern` assembles. */
  function ContextFor(resume: Resume, jd: seq<string>): Context {
    var education := seq(|resume.education|, i requires 0 <= i < |resume.education| => SanitizeEntry(resume.education[i]));
    var t := TrimOnePage(education, Reorder(resume.experience, jd), resume.projects, GroupsFor(resume), [], resume.certifications);
    Context(resume.name.GetOr(DefaultName), resume.email, resume.phone, resume.linkedin, resume.github,
            resume.location, t.education, t.experience, t.projects, t.skillsGroups, t.skillsList,
            t.certifications, resume.achievements)
  }

  /** The media type for the extension the renderer reports. */
  function MediaTypeFor(ext: string): string {
    if ext == ".pdf" then "application/pdf" else "application/x-tex"
  }

  /**
   * `build_overleaf_modern`, up to rendering: `ext` is the extension the renderer reports for
   * the bytes it produced.
   */
  method BuildOverleafModern(resume: Resume, jd: seq<string>, ext: string)
    returns (context: Context, mediaType: string, outExt: string)
    ensures context == ContextFor(resume, jd)
    ensures mediaType == MediaTypeFor(ext) && outExt == ext
    ensures mediaType == "application/pdf" <==> ext == ".pdf"
    ensures ext != ".pdf" ==> mediaType == "application/x-tex"
  {
    var experience := Reorder(resume.experience, jd);
    var education := SanitizeEducation(resume.education);
    var skillsGroups := resume.skillsGroups;
    if skillsGroups == [] && resume.skills != [] {
      skillsGroups := SkillGroups.GroupSkills(resume.skills);
    }
    var t := TrimOnePage(education, experience, resume.projects, skillsGroups, [], resume.certifications);
    context := Context(resume.name.GetOr(DefaultName), resume.email, resume.phone, resume.linkedin,
                       resume.github, resume.location, t.education, t.experience, t.projects,
                       t.skillsGroups, t.skillsList, t.certifications, resume.achievements);
    mediaType := if ext == ".pdf" then "application/pdf" else "application/x-tex";
    outExt := ext;
  }

  /**
   * The context keeps the 3 highest-scoring experience entries of the ranking, in ranking
   * order, each an input entry with its bullets cut to 4; no dropped entry outscores a kept one.
   */
  lemma ContextExperience(resume: Resume, jd: seq<string>)
    ensures var c := ContextFor(resume, jd);
      var ranked := Reorder(resume.experience, jd);
      && |c.experience| == Min(|resume.experience|, 3)
      && forall i :: 0 <= i < |c.experience| ==>
           && ranked[i] in resume.experience
           && c.experience[i] == ranked[i].(bullets := Cap(ranked[i].bullets, 4))
           && forall j :: 3 <= j < |ranked| ==> Score(ranked[i], jd) >= Score(ranked[j], jd)
  {
    var ranked := Reorder(resume.experience, jd);
    ReorderSpec(resume.experience, jd);
    forall i | 0 <= i < Min(|ranked|, 3) ensures ranked[i] in resume.experience {
      assert ranked[i] in multiset(ranked);
    }
  }

  /** Cutting an entry's bullets can only lower its score; an entry with at most 4 bullets keeps it. */
  lemma ScoreCappedBullets(e: Experience, jd: seq<string>)
    ensures Score(e.(bullets := Cap(e.bullets, 4)), jd) <= Score(e, jd)
    ensures |e.bullets| <= 4 ==> Score(e.(bullets := Cap(e.bullets, 4)), jd) == Score(e, jd)
  {
    BulletHitsPrefix(LowerAll(jd), e.bullets, Cap(e.bullets, 4));
  }

  lemma {:induction false} BulletHitsPrefix(jl: seq<string>, bullets: seq<string>, prefix: seq<string>)
    requires prefix <= bullets
    ensures BulletHits(jl, prefix) <= BulletHits(jl, bullets)
  {
    if prefix != [] {
      BulletHitsPrefix(jl, bullets[1..], prefix[1..]);
    }
  }

  /**
   * The rest of the context: name defaulted only when absent, contact fields copied, at most two
   * sanitised education entries (the first two), the parser's skill groups or the keyword
   * grouping when it gave none (the first six either way), the first two projects with their
   * first three bullets, no flat skill list, the first four certifications, and achievements
   * untouched.
   */
  lemma ContextSpec(resume: Resume, jd: seq<string>)
    ensures var c := ContextFor(resume, jd);
      && (resume.name.None? ==> c.name == DefaultName)
      && (resume.name.Some? ==> c.name == resume.name.value)
      && c.email == resume.email && c.phone == resume.phone && c.location == resume.location
      && c.linkedin == resume.linkedin && c.github == resume.github
      && |c.education| == Min(|resume.education|, 2)
      && (forall i :: 0 <= i < |c.education| ==> c.education[i] == SanitizeEntry(resume.education[i]))
      && (resume.skillsGroups != [] ==> c.skillsGroups == Cap(resume.skillsGroups, 6))
      && (resume.skillsGroups == [] && resume.skills == [] ==> c.skillsGroups == [])
      && (resume.skillsGroups == [] ==> c.skillsGroups == Cap(SkillGroups.Grouping(resume.skills), 6))
      && |c.projects| == Min(|resume.projects|, 2)
      && (forall i :: 0 <= i < |c.projects| ==>
            c.projects[i] == resume.projects[i].(bullets := Cap(resume.projects[i].bullets, 3)))
      && c.skillsList == []
      && c.certifications == Cap(resume.certifications, 4)
      && c.achievements == resume.achievements
  {
  }
}
