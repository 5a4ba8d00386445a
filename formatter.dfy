/**
 * The document path: `build_resume` appends headings and paragraphs to a word-processing
 * document section by section, and the compatibility shim picks the output format from the
 * uploaded file's extension. A document is modelled as the list of its paragraphs, each a
 * style and a text; the binary file, its PDF conversion and the unused job description are not.
 */
module Formatter {
  import opened Wrappers
  import opened Strings
  import opened ResumeData
  import SkillGroups

  const DocxMediaType := "application/vnd.openxmlformats-officedocument.wordprocessingml.document"
  const PdfMediaType := "application/pdf"

  /** `Heading(0)` is the document title, `Heading(1)` a section heading. */
  datatype Style = Heading(level: nat) | Plain | ListBullet

  datatype Paragraph = Paragraph(style: Style, text: string)

  /** The document under construction: paragraphs are only ever appended. */
  class Document {
    var paragraphs: seq<Paragraph>

    constructor()
      ensures paragraphs == []
    {
      paragraphs := [];
    }

    method AddHeading(text: string, level: nat)
      modifies this
      ensures paragraphs == old(paragraphs) + [Paragraph(Heading(level), text)]
    {
      paragraphs := paragraphs + [Paragraph(Heading(level), text)];
    }

    method AddParagraph(text: string, style: Style)
      modifies this
      ensures paragraphs == old(paragraphs) + [Paragraph(style, text)]
    {
      paragraphs := paragraphs + [Paragraph(style, text)];
    }
  }

  // ---------------------------------------------------------------- the layout, as values

  /** `[p for p in xs if p]`. */
  function NonEmpty(xs: seq<string>): seq<string> {
    if xs == [] then [] else (if xs[0] != "" then [xs[0]] else []) + NonEmpty(xs[1..])
  }

  /**
   * An entry header: the non-empty parts joined by `" - "`, then `" (dates)"`; the dates alone
   * when every part is empty.
   */
  function HeaderLine(parts: seq<string>, dates: string): string {
    var h := Join(NonEmpty(parts), " - ");
    if dates == "" then h else if h != "" then h + " (" + dates + ")" else dates
  }

  /** `resume.get("name", "Candidate Name")`: only an absent name is replaced. */
  function NameOf(r: Resume): string {
    r.name.GetOr(DefaultName)
  }

  function Contacts(r: Resume): seq<string> {
    NonEmpty([r.email, r.phone, r.linkedin, r.github, r.location])
  }

  const NoSummary := "Summary available upon request."

  function SummaryText(r: Resume): string {
    if r.summary != "" then r.summary else NoSummary
  }

  /** The paragraphs of each element, one after another (the source's `for` loops). */
  function FlatMap<T>(xs: seq<T>, f: T -> seq<Paragraph>): seq<Paragraph> {
    if xs == [] then [] else FlatMap(xs[..|xs| - 1], f) + f(xs[|xs| - 1])
  }

  /** A section: its heading and its entries, or nothing when there are no entries. */
  function Section<T>(title: string, xs: seq<T>, f: T -> seq<Paragraph>): seq<Paragraph> {
    if xs == [] then [] else [Paragraph(Heading(1), title)] + FlatMap(xs, f)
  }

  function BulletBlock(text: string): seq<Paragraph> {
    [Paragraph(ListBullet, text)]
  }

  function GroupLine(g: SkillGroup): string {
    g.name + ": " + Join(g.items, ", ")
  }

  function GroupBlock(g: SkillGroup): seq<Paragraph> {
    BulletBlock(GroupLine(g))
  }

  /** A paragraph for a non-empty header, none for an empty one. */
  function HeaderBlock(h: string): seq<Paragraph> {
    if h != "" then [Paragraph(Plain, h)] else []
  }

  function ExperienceBlock(e: Experience): seq<Paragraph> {
    HeaderBlock(HeaderLine([e.title, e.company], e.dates)) + FlatMap(e.bullets, BulletBlock)
  }

  /** The detail lines of an education entry: the list's items, a non-empty string, or none. */
  function DetailLines(d: Details): seq<string> {
    match d
    case DetailList(items) => items
    case DetailText(t) => if t != "" then [t] else []
    case NoDetails => []
  }

  /** An education entry with one bullet per detail line (see `EducationBlockAsWritten`). */
  function EducationBlock(e: Education): seq<Paragraph> {
    HeaderBlock(HeaderLine([e.degree, e.school], e.dates)) + FlatMap(DetailLines(e.details), BulletBlock)
  }

  function ProjectBlock(p: Project): seq<Paragraph> {
    HeaderBlock(HeaderLine([p.name], p.dates))
      + (if p.description != "" then [Paragraph(Plain, p.description)] else [])
      + FlatMap(p.bullets, BulletBlock)
  }

  function TitleBlock(r: Resume): seq<Paragraph> {
    [Paragraph(Heading(0), NameOf(r))]
      + (if Contacts(r) != [] then [Paragraph(Plain, Join(Contacts(r), " | "))] else [])
  }

  function SummaryBlock(r: Resume): seq<Paragraph> {
    [Paragraph(Heading(1), "Professional Summary"), Paragraph(Plain, SummaryText(r))]
  }

  /** The whole document, section by section. */
  function Layout(r: Resume): seq<Paragraph> {
    TitleBlock(r) + SummaryBlock(r) + Sections(r)
  }

  /** The optional sections, in their fixed order. */
  function Sections(r: Resume): seq<Paragraph> {
    Section("Skills", SkillGroups.Grouping(r.skills), GroupBlock)
      + Section("Experience", r.experience, ExperienceBlock)
      + Section("Education", r.education, EducationBlock)
      + Section("Projects", r.projects, ProjectBlock)
      + Section("Achievements", r.achievements, BulletBlock)
  }

  /** A resume that is not a dictionary is read as the empty one. */
  function AsResume(raw: Option<Resume>): Resume {
    raw.GetOr(EmptyResume)
  }

  /** `str(format).lower() == "pdf"`: whether the document is converted to PDF. */
  predicate WantsPdf(format: string) {
    LowerStr(format) == "pdf"
  }

  datatype Output = Output(format: string, mediaType: string, ext: string)

  /** The shim's choice from the uploaded file's extension (absent reads as ""). */
  function OutputFor(ext: string): Output {
    if LowerStr(ext) == ".pdf" then Output("pdf", PdfMediaType, ".pdf")
    else Output("docx", DocxMediaType, ".docx")
  }

  // ---------------------------------------------------------------- the builder

  method AddBullets(doc: Document, items: seq<string>)
    modifies doc
    ensures doc.paragraphs == old(doc.paragraphs) + FlatMap(items, BulletBlock)
  {
    for i := 0 to |items|
      invariant doc.paragraphs == old(doc.paragraphs) + FlatMap(items[..i], BulletBlock)
    {
      doc.AddParagraph(items[i], ListBullet);
      FlatMapPrefix(items, i, BulletBlock);
    }
    FlatMapWhole(items, BulletBlock);
  }

  method AddHeader(doc: Document, h: string)
    modifies doc
    ensures doc.paragraphs == old(doc.paragraphs) + HeaderBlock(h)
  {
    if h != "" {
      doc.AddParagraph(h, Plain);
    }
  }

  lemma AppendAssoc<T>(a: seq<T>, b: seq<T>, c: seq<T>)
    ensures a + (b + c) == a + b + c
  {
  }

  lemma FlatMapWhole<T>(xs: seq<T>, f: T -> seq<Paragraph>)
    ensures FlatMap(xs[..|xs|], f) == FlatMap(xs, f)
  {
    assert xs[..|xs|] == xs;
  }

  lemma FlatMapPrefix<T>(xs: seq<T>, i: nat, f: T -> seq<Paragraph>)
    requires i < |xs|
    ensures FlatMap(xs[..i + 1], f) == FlatMap(xs[..i], f) + f(xs[i])
  {
    assert xs[..i + 1][..i] == xs[..i];
  }

  method AddExperienceEntry(doc: Document, e: Experience)
    modifies doc
    ensures doc.paragraphs == old(doc.paragraphs) + ExperienceBlock(e)
  {
    AddHeader(doc, HeaderLine([e.title, e.company], e.dates));
    AddBullets(doc, e.bullets);
  }

  method AddEducationEntry(doc: Document, e: Education)
    modifies doc
    ensures doc.paragraphs == old(doc.paragraphs) + EducationBlock(e)
  {
    AddHeader(doc, HeaderLine([e.degree, e.school], e.dates));
    AddBullets(doc, DetailLines(e.details));
  }

  method AddProjectEntry(doc: Document, p: Project)
    modifies doc
    ensures doc.paragraphs == old(doc.paragraphs) + ProjectBlock(p)
  {
    AddHeader(doc, HeaderLine([p.name], p.dates));
    if p.description != "" {
      doc.AddParagraph(p.description, Plain);
    }
    AddBullets(doc, p.bullets);
  }

  method AddSkills(doc: Document, groups: seq<SkillGroup>)
    modifies doc
    ensures doc.paragraphs == old(doc.paragraphs) + Section("Skills", groups, GroupBlock)
  {
    if groups != [] {
      doc.AddHeading("Skills", 1);
      var start := doc.paragraphs;
      for i := 0 to |groups|
        invariant doc.paragraphs == start + FlatMap(groups[..i], GroupBlock)
      {
        doc.AddParagraph(GroupLine(groups[i]), ListBullet);
        FlatMapPrefix(groups, i, GroupBlock);
      }
      FlatMapWhole(groups, GroupBlock);
      AppendAssoc(old(doc.paragraphs), [Paragraph(Heading(1), "Skills")], FlatMap(groups, GroupBlock));
    }
  }

  method AddExperience(doc: Document, exps: seq<Experience>)
    modifies doc
    ensures doc.paragraphs == old(doc.paragraphs) + Section("Experience", exps, ExperienceBlock)
  {
    if exps != [] {
      doc.AddHeading("Experience", 1);
      var start := doc.paragraphs;
      for i := 0 to |exps|
        invariant doc.paragraphs == start + FlatMap(exps[..i], ExperienceBlock)
      {
        AddExperienceEntry(doc, exps[i]);
        FlatMapPrefix(exps, i, ExperienceBlock);
        AppendAssoc(start, FlatMap(exps[..i], ExperienceBlock), ExperienceBlock(exps[i]));
      }
      FlatMapWhole(exps, ExperienceBlock);
      AppendAssoc(old(doc.paragraphs), [Paragraph(Heading(1), "Experience")], FlatMap(exps, ExperienceBlock));
    }
  }

  method AddEducation(doc: Document, education: seq<Education>)
    modifies doc
    ensures doc.paragraphs == old(doc.paragraphs) + Section("Education", education, EducationBlock)
  {
    if education != [] {
      doc.AddHeading("Education", 1);
      var start := doc.paragraphs;
      for i := 0 to |education|
        invariant doc.paragraphs == start + FlatMap(education[..i], EducationBlock)
      {
        AddEducationEntry(doc, education[i]);
        FlatMapPrefix(education, i, EducationBlock);
        AppendAssoc(start, FlatMap(education[..i], EducationBlock), EducationBlock(education[i]));
      }
      FlatMapWhole(education, EducationBlock);
      AppendAssoc(old(doc.paragraphs), [Paragraph(Heading(1), "Education")], FlatMap(education, EducationBlock));
    }
  }

  method AddProjects(doc: Document, projects: seq<Project>)
    modifies doc
    ensures doc.paragraphs == old(doc.paragraphs) + Section("Projects", projects, ProjectBlock)
  {
    if projects != [] {
      doc.AddHeading("Projects", 1);
      var start := doc.paragraphs;
      for i := 0 to |projects|
        invariant doc.paragraphs == start + FlatMap(projects[..i], ProjectBlock)
      {
        AddProjectEntry(doc, projects[i]);
        FlatMapPrefix(projects, i, ProjectBlock);
        AppendAssoc(start, FlatMap(projects[..i], ProjectBlock), ProjectBlock(projects[i]));
      }
      FlatMapWhole(projects, ProjectBlock);
      AppendAssoc(old(doc.paragraphs), [Paragraph(Heading(1), "Projects")], FlatMap(projects, ProjectBlock));
    }
  }

  /** The name as the title, then the contact line when some contact value is non-empty. */
  method AddTitle(doc: Document, resume: Resume)
    modifies doc
    ensures doc.paragraphs == old(doc.paragraphs) + TitleBlock(resume)
  {
    doc.AddHeading(NameOf(resume), 0);
    var contacts := Contacts(resume);
    if contacts != [] {
      doc.AddParagraph(Join(contacts, " | "), Plain);
    }
  }

  /** The summary heading and the summary, or its placeholder. */
  method AddSummary(doc: Document, resume: Resume)
    modifies doc
    ensures doc.paragraphs == old(doc.paragraphs) + SummaryBlock(resume)
  {
    doc.AddHeading("Professional Summary", 1);
    doc.AddParagraph(SummaryText(resume), Plain);
  }

  /** The achievements heading and one bullet per achievement, when there are any. */
  method AddAchievements(doc: Document, achievements: seq<string>)
    modifies doc
    ensures doc.paragraphs == old(doc.paragraphs) + Section("Achievements", achievements, BulletBlock)
  {
    if achievements != [] {
      var before := doc.paragraphs;
      doc.AddHeading("Achievements", 1);
      AddBullets(doc, achievements);
      AppendAssoc(before, [Paragraph(Heading(1), "Achievements")], FlatMap(achievements, BulletBlock));
    }
  }

  /** The optional sections, in their fixed order. */
  method AddSections(doc: Document, resume: Resume)
    modifies doc
    ensures doc.paragraphs == old(doc.paragraphs) + Sections(resume)
  {
    var groups := SkillGroups.GroupSkills(resume.skills);
    AddSkills(doc, groups);
    AddExperience(doc, resume.experience);
    AddEducation(doc, resume.education);
    AddProjects(doc, resume.projects);
    AddAchievements(doc, resume.achievements);
    AppendAssoc5(old(doc.paragraphs), Section("Skills", groups, GroupBlock),
      Section("Experience", resume.experience, ExperienceBlock),
      Section("Education", resume.education, EducationBlock),
      Section("Projects", resume.projects, ProjectBlock),
      Section("Achievements", resume.achievements, BulletBlock));
  }

  /** `build_resume`: the document's paragraphs, and whether it is then converted to PDF. */
  method BuildResume(raw: Option<Resume>, format: string) returns (doc: Document, convert: bool)
    ensures fresh(doc)
    ensures doc.paragraphs == Layout(AsResume(raw))
    ensures convert == WantsPdf(format)
  {
    var resume := AsResume(raw);
    doc := new Document();
    AddTitle(doc, resume);
    assert doc.paragraphs == TitleBlock(resume);
    AddSummary(doc, resume);
    AddSections(doc, resume);
    convert := WantsPdf(format);
  }

  /** `update_resume_to_match_jd`: the format chosen from the extension, then the build. */
  method UpdateResumeToMatchJd(raw: Option<Resume>, ext: string)
    returns (doc: Document, convert: bool, mediaType: string, outExt: string)
    ensures fresh(doc)
    ensures doc.paragraphs == Layout(AsResume(raw))
    ensures convert == WantsPdf(OutputFor(ext).format)
    ensures mediaType == OutputFor(ext).mediaType && outExt == OutputFor(ext).ext
  {
    var out := OutputFor(ext);
    doc, convert := BuildResume(raw, out.format);
    mediaType, outExt := out.mediaType, out.ext;
  }

  // ---------------------------------------------------------------- reading the document back

  /** The texts of the section headings, in document order. */
  function SectionTitles(ps: seq<Paragraph>): seq<string> {
    if ps == [] then []
    else SectionTitles(ps[..|ps| - 1]) + (if ps[|ps| - 1].style == Heading(1) then [ps[|ps| - 1].text] else [])
  }

  /** The texts of the bulleted paragraphs, in document order. */
  function BulletTexts(ps: seq<Paragraph>): seq<string> {
    if ps == [] then []
    else BulletTexts(ps[..|ps| - 1]) + (if ps[|ps| - 1].style == ListBullet then [ps[|ps| - 1].text] else [])
  }

  lemma {:induction false} SectionTitlesAppend(a: seq<Paragraph>, b: seq<Paragraph>)
    ensures SectionTitles(a + b) == SectionTitles(a) + SectionTitles(b)
    decreases |b|
  {
    if b == [] {
      assert a + b == a;
    } else {
      var b' := b[..|b| - 1];
      assert (a + b)[..|a + b| - 1] == a + b';
      assert (a + b)[|a + b| - 1] == b[|b| - 1];
      SectionTitlesAppend(a, b');
    }
  }

  lemma {:induction false} BulletTextsAppend(a: seq<Paragraph>, b: seq<Paragraph>)
    ensures BulletTexts(a + b) == BulletTexts(a) + BulletTexts(b)
    decreases |b|
  {
    if b == [] {
      assert a + b == a;
    } else {
      var b' := b[..|b| - 1];
      assert (a + b)[..|a + b| - 1] == a + b';
      assert (a + b)[|a + b| - 1] == b[|b| - 1];
      BulletTextsAppend(a, b');
    }
  }

  /** No paragraph of `ps` is a section heading. */
  predicate NoSectionHeading(ps: seq<Paragraph>) {
    forall k :: 0 <= k < |ps| ==> ps[k].style != Heading(1)
  }

  lemma {:induction false} NoSectionTitles(ps: seq<Paragraph>)
    requires NoSectionHeading(ps)
    ensures SectionTitles(ps) == []
    decreases |ps|
  {
    if ps != [] {
      NoSectionTitles(ps[..|ps| - 1]);
    }
  }

  lemma {:induction false} FlatMapNoHeading<T>(xs: seq<T>, f: T -> seq<Paragraph>)
    requires forall k :: 0 <= k < |xs| ==> NoSectionHeading(f(xs[k]))
    ensures NoSectionHeading(FlatMap(xs, f))
    decreases |xs|
  {
    if xs != [] {
      var init := xs[..|xs| - 1];
      forall k | 0 <= k < |init| ensures NoSectionHeading(f(init[k])) {
        assert init[k] == xs[k];
      }
      FlatMapNoHeading(init, f);
    }
  }

  /** A section contributes its own title as the only section heading, when it has entries. */
  lemma SectionTitle<T>(title: string, xs: seq<T>, f: T -> seq<Paragraph>)
    requires forall k :: 0 <= k < |xs| ==> NoSectionHeading(f(xs[k]))
    ensures SectionTitles(Section(title, xs, f)) == (if xs == [] then [] else [title])
  {
    if xs != [] {
      FlatMapNoHeading(xs, f);
      NoSectionTitles(FlatMap(xs, f));
      SectionTitlesAppend([Paragraph(Heading(1), title)], FlatMap(xs, f));
      assert SectionTitles([Paragraph(Heading(1), title)]) == [title] by {
        assert [Paragraph(Heading(1), title)][..0] == [];
      }
    }
  }

  lemma BulletBlocksNoHeading(items: seq<string>)
    ensures forall k :: 0 <= k < |items| ==> NoSectionHeading(BulletBlock(items[k]))
  {
  }

  lemma GroupBlocksNoHeading(groups: seq<SkillGroup>)
    ensures forall k :: 0 <= k < |groups| ==> NoSectionHeading(GroupBlock(groups[k]))
  {
  }

  lemma {:induction false} BulletsNoHeading(items: seq<string>)
    ensures NoSectionHeading(FlatMap(items, BulletBlock))
  {
    FlatMapNoHeading(items, BulletBlock);
  }

  lemma EntriesNoHeading(r: Resume)
    ensures forall k :: 0 <= k < |r.experience| ==> NoSectionHeading(ExperienceBlock(r.experience[k]))
    ensures forall k :: 0 <= k < |r.education| ==> NoSectionHeading(EducationBlock(r.education[k]))
    ensures forall k :: 0 <= k < |r.projects| ==> NoSectionHeading(ProjectBlock(r.projects[k]))
  {
    forall k | 0 <= k < |r.experience| ensures NoSectionHeading(ExperienceBlock(r.experience[k])) {
      BulletsNoHeading(r.experience[k].bullets);
    }
    forall k | 0 <= k < |r.education| ensures NoSectionHeading(EducationBlock(r.education[k])) {
      BulletsNoHeading(DetailLines(r.education[k].details));
    }
    forall k | 0 <= k < |r.projects| ensures NoSectionHeading(ProjectBlock(r.projects[k])) {
      BulletsNoHeading(r.projects[k].bullets);
    }
  }

  /** There is something to group exactly when the skill list is non-empty. */
  lemma GroupingEmptyIff(skills: seq<string>)
    ensures SkillGroups.Grouping(skills) == [] <==> skills == []
  {
    if skills != [] {
      SkillGroups.GroupingCovers(skills, skills[0]);
    }
  }

  /**
   * The section headings appear in the fixed order Professional Summary, Skills, Experience,
   * Education, Projects, Achievements; the summary always, every other one exactly when it has
   * entries.
   */
  lemma SectionOrder(r: Resume)
    ensures SectionTitles(Layout(r)) == ["Professional Summary"]
      + (if r.skills != [] then ["Skills"] else [])
      + (if r.experience != [] then ["Experience"] else [])
      + (if r.education != [] then ["Education"] else [])
      + (if r.projects != [] then ["Projects"] else [])
      + (if r.achievements != [] then ["Achievements"] else [])
  {
    var groups := SkillGroups.Grouping(r.skills);
    var t, sm := TitleBlock(r), SummaryBlock(r);
    var sk := Section("Skills", groups, GroupBlock);
    var ex := Section("Experience", r.experience, ExperienceBlock);
    var ed := Section("Education", r.education, EducationBlock);
    var pr := Section("Projects", r.projects, ProjectBlock);
    var ac := Section("Achievements", r.achievements, BulletBlock);
    assert SectionTitles(sk) == (if r.skills != [] then ["Skills"] else []) by {
      GroupingEmptyIff(r.skills);
      GroupBlocksNoHeading(groups);
      SectionTitle("Skills", groups, GroupBlock);
    }
    assert SectionTitles(ex) == (if r.experience != [] then ["Experience"] else [])
      && SectionTitles(ed) == (if r.education != [] then ["Education"] else [])
      && SectionTitles(pr) == (if r.projects != [] then ["Projects"] else [])
    by {
      EntriesNoHeading(r);
      SectionTitle("Experience", r.experience, ExperienceBlock);
      SectionTitle("Education", r.education, EducationBlock);
      SectionTitle("Projects", r.projects, ProjectBlock);
    }
    assert SectionTitles(ac) == (if r.achievements != [] then ["Achievements"] else []) by {
      BulletBlocksNoHeading(r.achievements);
      SectionTitle("Achievements", r.achievements, BulletBlock);
    }
    assert SectionTitles(t) == [] by {
      var contacts := Contacts(r);
      TitleNoHeading(NameOf(r), contacts != [], Join(contacts, " | "));
      NoSectionTitles(t);
    }
    assert SectionTitles(sm) == ["Professional Summary"] by {
      PairTitles(sm[0], sm[1]);
    }
    assert Layout(r) == t + sm + (sk + ex + ed + pr + ac) by {
      assert Sections(r) == sk + ex + ed + pr + ac;
    }
    AppendAssoc5(t + sm, sk, ex, ed, pr, ac);
    SectionTitlesSeven(t, sm, sk, ex, ed, pr, ac);
  }

  lemma TitleNoHeading(name: string, present: bool, line: string)
    ensures NoSectionHeading([Paragraph(Heading(0), name)] + (if present then [Paragraph(Plain, line)] else []))
  {
  }

  lemma AppendAssoc5<T>(a: seq<T>, b: seq<T>, c: seq<T>, d: seq<T>, e: seq<T>, f: seq<T>)
    ensures a + (b + c + d + e + f) == a + b + c + d + e + f
  {
  }

  lemma PairTitles(p: Paragraph, q: Paragraph)
    ensures SectionTitles([p, q])
      == (if p.style == Heading(1) then [p.text] else []) + (if q.style == Heading(1) then [q.text] else [])
  {
    assert [p, q][..1] == [p];
    assert [p][..0] == [];
    assert SectionTitles([p]) == (if p.style == Heading(1) then [p.text] else []);
    assert SectionTitles([p, q]) == SectionTitles([p]) + (if q.style == Heading(1) then [q.text] else []);
  }

  lemma SectionTitlesSeven(a: seq<Paragraph>, b: seq<Paragraph>, c: seq<Paragraph>, d: seq<Paragraph>,
                           e: seq<Paragraph>, f: seq<Paragraph>, g: seq<Paragraph>)
    requires SectionTitles(a) == []
    ensures SectionTitles(a + b + c + d + e + f + g)
      == SectionTitles(b) + SectionTitles(c) + SectionTitles(d)
        + SectionTitles(e) + SectionTitles(f) + SectionTitles(g)
  {
    SectionTitlesAppend(a, b);
    SectionTitlesAppend(a + b, c);
    SectionTitlesAppend(a + b + c, d);
    SectionTitlesAppend(a + b + c + d, e);
    SectionTitlesAppend(a + b + c + d + e, f);
    SectionTitlesAppend(a + b + c + d + e + f, g);
    assert SectionTitles(a) + SectionTitles(b) == SectionTitles(b);
  }

  // ---------------------------------------------------------------- header and summary

  lemma PrefixIndex<T>(a: seq<T>, b: seq<T>, i: nat)
    requires i < |a|
    ensures (a + b)[i] == a[i]
  {
  }

  lemma {:induction false} NonEmptyMembers(xs: seq<string>, x: string)
    ensures x in NonEmpty(xs) <==> x in xs && x != ""
  {
    if xs != [] {
      NonEmptyMembers(xs[1..], x);
      assert xs == [xs[0]] + xs[1..];
    }
  }

  lemma {:induction false} NonEmptyNone(xs: seq<string>)
    ensures NonEmpty(xs) == [] <==> forall k :: 0 <= k < |xs| ==> xs[k] == ""
  {
    if xs != [] {
      NonEmptyNone(xs[1..]);
      if NonEmpty(xs) == [] {
        forall k | 0 <= k < |xs| ensures xs[k] == "" {
          if k > 0 {
            assert xs[k] == xs[1..][k - 1];
          }
        }
      }
    }
  }

  /** Joining non-empty strings gives a non-empty string. */
  lemma JoinNonEmpty(xs: seq<string>, sep: string)
    requires xs != [] && xs[0] != ""
    ensures Join(xs, sep) != ""
  {
    if |xs| > 1 {
      assert Join(xs, sep)[..|xs[0]|] == xs[0];
    }
  }

  lemma NonEmptyHead(xs: seq<string>)
    requires NonEmpty(xs) != []
    ensures NonEmpty(xs)[0] != ""
  {
    var x := NonEmpty(xs)[0];
    NonEmptyMembers(xs, x);
  }

  /** An entry header is empty exactly when the dates and every part are empty. */
  lemma HeaderLineEmptyIff(parts: seq<string>, dates: string)
    ensures HeaderLine(parts, dates) == "" <==> dates == "" && forall k :: 0 <= k < |parts| ==> parts[k] == ""
  {
    NonEmptyNone(parts);
    var ne := NonEmpty(parts);
    if ne != [] {
      NonEmptyHead(parts);
      JoinNonEmpty(ne, " - ");
    }
  }

  /** When the dates are given, the header ends with them, in parentheses after a title. */
  lemma HeaderLineDates(parts: seq<string>, dates: string)
    requires dates != ""
    ensures var h := HeaderLine(parts, dates);
      (forall k :: 0 <= k < |parts| ==> parts[k] == "") ==> h == dates
    ensures var h := HeaderLine(parts, dates);
      (exists k :: 0 <= k < |parts| && parts[k] != "") ==>
        |h| > |dates| + 3 && h[|h| - |dates| - 3..] == " (" + dates + ")"
  {
    NonEmptyNone(parts);
    var ne := NonEmpty(parts);
    if ne != [] {
      NonEmptyHead(parts);
      JoinNonEmpty(ne, " - ");
      var j := Join(ne, " - ");
      assert HeaderLine(parts, dates) == j + (" (" + dates + ")");
    }
  }

  /**
   * The document opens with the name as its title, then the contact line: the non-empty contact
   * values joined by " | ", present unless all five are empty.
   */
  lemma TitleAndContacts(r: Resume)
    ensures Layout(r)[0] == Paragraph(Heading(0), NameOf(r))
    ensures r.name == None ==> NameOf(r) == DefaultName
    ensures Contacts(r) == [] <==> r.email == "" && r.phone == "" && r.linkedin == "" && r.github == "" && r.location == ""
    ensures forall c :: c in Contacts(r) <==> c != "" && c in [r.email, r.phone, r.linkedin, r.github, r.location]
    ensures Contacts(r) != [] ==> Layout(r)[1] == Paragraph(Plain, Join(Contacts(r), " | "))
  {
    ContactMembers(r);
    PrefixIndex(TitleBlock(r), SummaryBlock(r) + Sections(r), 0);
    if Contacts(r) != [] {
      PrefixIndex(TitleBlock(r), SummaryBlock(r) + Sections(r), 1);
    }
  }

  /** The contact values kept are exactly the non-empty ones. */
  lemma ContactMembers(r: Resume)
    ensures Contacts(r) == [] <==> r.email == "" && r.phone == "" && r.linkedin == "" && r.github == "" && r.location == ""
    ensures forall c :: c in Contacts(r) <==> c != "" && c in [r.email, r.phone, r.linkedin, r.github, r.location]
  {
    var vs := [r.email, r.phone, r.linkedin, r.github, r.location];
    NonEmptyNone(vs);
    assert vs[0] == r.email && vs[1] == r.phone && vs[2] == r.linkedin && vs[3] == r.github && vs[4] == r.location;
    forall c ensures c in Contacts(r) <==> c != "" && c in vs {
      NonEmptyMembers(vs, c);
    }
  }

  /** The summary heading and its text always follow the title block; the text is never empty. */
  lemma SummaryPlacement(r: Resume)
    ensures var h := |TitleBlock(r)|;
      && 1 <= h <= 2
      && Layout(r)[h] == Paragraph(Heading(1), "Professional Summary")
      && Layout(r)[h + 1] == Paragraph(Plain, SummaryText(r))
    ensures SummaryText(r) != ""
    ensures r.summary != "" ==> SummaryText(r) == r.summary
  {
    var h := |TitleBlock(r)|;
    PrefixIndex(TitleBlock(r) + SummaryBlock(r), Sections(r), h);
    PrefixIndex(TitleBlock(r) + SummaryBlock(r), Sections(r), h + 1);
  }

  /** A resume that is not a dictionary gives the default title and summary, nothing else. */
  lemma NonDictDocument()
    ensures Layout(AsResume(None)) == [
      Paragraph(Heading(0), DefaultName),
      Paragraph(Heading(1), "Professional Summary"),
      Paragraph(Plain, NoSummary)]
  {
    var r := AsResume(None);
    assert r == EmptyResume;
    assert TitleBlock(r) == [Paragraph(Heading(0), DefaultName)] by {
      assert Contacts(r) == [];
    }
    assert Sections(r) == [] by {
      assert SkillGroups.Grouping(r.skills) == [];
    }
  }

  // ---------------------------------------------------------------- bulleted content

  lemma {:induction false} BulletTextsOfBullets(items: seq<string>)
    ensures BulletTexts(FlatMap(items, BulletBlock)) == items
    decreases |items|
  {
    if items != [] {
      var init := items[..|items| - 1];
      BulletTextsOfBullets(init);
      BulletTextsAppend(FlatMap(init, BulletBlock), BulletBlock(items[|items| - 1]));
      assert BulletTexts(BulletBlock(items[|items| - 1])) == [items[|items| - 1]] by {
        assert BulletBlock(items[|items| - 1])[..0] == [];
      }
      assert items == init + [items[|items| - 1]];
    }
  }

  /** Every bullet of every entry, entry by entry. */
  function AllBullets(exps: seq<Experience>): seq<string> {
    if exps == [] then [] else AllBullets(exps[..|exps| - 1]) + exps[|exps| - 1].bullets
  }

  lemma ExperienceBlockBullets(e: Experience)
    ensures BulletTexts(ExperienceBlock(e)) == e.bullets
  {
    var hb := HeaderBlock(HeaderLine([e.title, e.company], e.dates));
    BulletTextsAppend(hb, FlatMap(e.bullets, BulletBlock));
    BulletTextsOfBullets(e.bullets);
    assert BulletTexts(hb) == [] by {
      if hb != [] {
        assert hb[..0] == [];
      }
    }
  }

  lemma {:induction false} ExperienceBodyBullets(exps: seq<Experience>)
    ensures BulletTexts(FlatMap(exps, ExperienceBlock)) == AllBullets(exps)
    decreases |exps|
  {
    if exps != [] {
      var init := exps[..|exps| - 1];
      var e := exps[|exps| - 1];
      ExperienceBodyBullets(init);
      BulletTextsAppend(FlatMap(init, ExperienceBlock), ExperienceBlock(e));
      ExperienceBlockBullets(e);
    }
  }

  /** The experience section lists every bullet of every entry as a bullet, in input order. */
  lemma ExperienceBulletsInOrder(exps: seq<Experience>)
    ensures BulletTexts(Section("Experience", exps, ExperienceBlock)) == AllBullets(exps)
  {
    if exps != [] {
      ExperienceBodyBullets(exps);
      var hd := [Paragraph(Heading(1), "Experience")];
      BulletTextsAppend(hd, FlatMap(exps, ExperienceBlock));
      assert BulletTexts(hd) == [] by {
        assert hd[..0] == [];
      }
    }
  }

  /** One "Label: a, b" line per group, in group order. */
  function GroupLines(groups: seq<SkillGroup>): (r: seq<string>)
    ensures |r| == |groups|
  {
    if groups == [] then [] else GroupLines(groups[..|groups| - 1]) + [GroupLine(groups[|groups| - 1])]
  }

  lemma {:induction false} GroupBodyLines(groups: seq<SkillGroup>)
    ensures BulletTexts(FlatMap(groups, GroupBlock)) == GroupLines(groups)
    decreases |groups|
  {
    if groups != [] {
      var init := groups[..|groups| - 1];
      var g := groups[|groups| - 1];
      GroupBodyLines(init);
      BulletTextsAppend(FlatMap(init, GroupBlock), GroupBlock(g));
      assert BulletTexts(GroupBlock(g)) == [GroupLine(g)] by {
        assert GroupBlock(g)[..0] == [];
      }
    }
  }

  /** The skills section holds one "Label: a, b" bullet per group, in group order. */
  lemma SkillLinesInOrder(skills: seq<string>)
    ensures var groups := SkillGroups.Grouping(skills);
      BulletTexts(Section("Skills", groups, GroupBlock)) == GroupLines(groups)
  {
    var groups := SkillGroups.Grouping(skills);
    if groups != [] {
      GroupBodyLines(groups);
      var hd := [Paragraph(Heading(1), "Skills")];
      BulletTextsAppend(hd, FlatMap(groups, GroupBlock));
      assert BulletTexts(hd) == [] by {
        assert hd[..0] == [];
      }
    }
  }

  // ---------------------------------------------------------------- education details

  /**
   * The text of `add_paragraph(details)` as written: nothing is written for an empty value, a
   * string is written as it is, and a list is written as its items run together.
   */
  function DetailsArgument(d: Details): string {
    match d
    case DetailList(items) => Concat(items)
    case DetailText(t) => t
    case NoDetails => ""
  }

  /** The education entry as written: always exactly one bullet, holding the whole `details`. */
  function EducationBlockAsWritten(e: Education): seq<Paragraph> {
    HeaderBlock(HeaderLine([e.degree, e.school], e.dates)) + [Paragraph(ListBullet, DetailsArgument(e.details))]
  }

  /** As written, an entry without details still ends in an empty bullet paragraph. */
  lemma AsWrittenEmptyBullet(e: Education)
    requires DetailLines(e.details) == []
    ensures var b := EducationBlockAsWritten(e);
      b != [] && b[|b| - 1] == Paragraph(ListBullet, "")
  {
  }

  /** The concrete case: a degree and school with no details. */
  lemma NoDetailsExample(e: Education)
    requires e == Education("BSc", "MIT", "", NoDetails)
    ensures EducationBlockAsWritten(e) == [Paragraph(Plain, "BSc - MIT"), Paragraph(ListBullet, "")]
    ensures EducationBlock(e) == [Paragraph(Plain, "BSc - MIT")]
  {
    var parts := [e.degree, e.school];
    assert parts[1..] == ["MIT"] && parts[1..][1..] == [];
    assert parts[0] != "" && parts[1] != "";
    assert NonEmpty(parts[1..][1..]) == [];
    assert NonEmpty(parts[1..]) == ["MIT"];
    assert NonEmpty(parts) == parts;
    assert Join(parts[1..], " - ") == "MIT";
    assert HeaderLine(parts, e.dates) == "BSc - MIT";
    assert HeaderBlock(HeaderLine(parts, e.dates)) == [Paragraph(Plain, "BSc - MIT")];
    assert DetailLines(e.details) == [];
  }

  /** Corrected: the bullets of an entry are exactly its detail lines, none when it has none. */
  lemma EducationBulletsAreDetails(e: Education)
    ensures BulletTexts(EducationBlock(e)) == DetailLines(e.details)
  {
    var hb := HeaderBlock(HeaderLine([e.degree, e.school], e.dates));
    BulletTextsAppend(hb, FlatMap(DetailLines(e.details), BulletBlock));
    BulletTextsOfBullets(DetailLines(e.details));
    assert BulletTexts(hb) == [] by {
      if hb != [] {
        assert hb[..0] == [];
      }
    }
  }

  // ---------------------------------------------------------------- output format

  /** The shim asks for PDF exactly for a ".pdf" upload, with the matching media type and suffix. */
  lemma OutputForSpec(ext: string)
    ensures WantsPdf(OutputFor(ext).format) <==> LowerStr(ext) == ".pdf"
    ensures OutputFor(ext).ext == ".pdf" <==> LowerStr(ext) == ".pdf"
    ensures OutputFor(ext).mediaType == PdfMediaType <==> LowerStr(ext) == ".pdf"
    ensures OutputFor(ext).mediaType == DocxMediaType <==> LowerStr(ext) != ".pdf"
    ensures OutputFor(ext).ext == ".docx" <==> LowerStr(ext) != ".pdf"
  {
    assert LowerStr("pdf") == "pdf";
    assert LowerStr("docx") != "pdf" by {
      assert |LowerStr("docx")| == 4;
    }
    assert DocxMediaType != PdfMediaType by {
      assert |DocxMediaType| != |PdfMediaType|;
    }
  }
}
