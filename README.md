# resume-formatter: a verified model of the formatting core

resume-formatter reads a resume (PDF or DOCX) and a job description. A language model turns
both into JSON. The backend then builds a tailored resume from that JSON: a word-processing
document, or a one-page LaTeX file for Overleaf. A React frontend shows a preview of the same data.

This project models the deterministic code between the language model and the output files:

- `text_extractor.dfy`: `clean_extracted_text`, the regex passes and the line-merging loop that
  repair text extracted from PDF and DOCX files. Each regex is a per-position matcher.
  `patterns.dfy` holds the matchers and one `re.sub` driver (leftmost match, no overlap, scan
  resumes at the end of the match).
- `overleaf.dfy`: the one-page template path. It covers the relevance score, the stable ranking
  of experience entries, the one-page caps and the repair of CGPA/GPA lines. It also covers the
  collapsing of fragmented education details, the sanitising loop over education entries, the
  template context and the media type.
- `skill_groups.dfy`: `_group_skills`. Both backend modules carry an identical copy, and one
  model serves both.
- `formatter.dfy`: `build_resume` and its compatibility shim. The document is a class whose
  paragraph list only grows; each `add_*` call appends one paragraph.
- `resume_parser.dfy`, `jd_parser.dfy`: e-mail cleaning and selection, the failure reply for
  JSON that does not parse, and the job-description defaults.
- `saved.dfy`: the path-traversal check of the saved-files router, the listing filter and sort,
  and the download header.
- `client.dfy`: the Streamlit client's file-name and extension helpers.
- `normalize_data.dfy`, `json.dfy`: the frontend's `normalizeData`. That covers skill labels
  through the alias table, de-duplication by label into core / nice-to-have / other, the
  first-occurrence merge of list fields, and the defaults of the preview record. Values follow
  JavaScript truthiness.
- `sorting.dfy`: Python's stable `sorted(..., reverse=True)` over tuple keys, shared by every
  sort above.
- `worked_examples.dfy`: two worked examples, proved as lemmas. One shows "C G P A : 8 . 6 / 1 0" normalised to
  "CGPA: 8.6/10". The other shows "Aug2020" becoming "Aug 2020", while "A u g 2 0 2 0" is left as
  it is.

Where the comments in the source and the code disagree, the model follows the code:

- `list_saved`: the comment at `routers/saved.py:67` says directories come first. The key
  `(not is_dir, modified)` sorted in reverse puts files first. `Saved.ItemsOrder` states the
  order the code produces.
- Month-year dates: the comments at `utils/text_extractor.py:53` and
  `services/formatter_overleaf_modern.py:131` say "A u g 2 0 2 0" becomes "Aug 2020". The
  pattern `([A-Za-z]{3,9})\s*([0-9]{4})` needs four adjacent digits, so that input is not
  repaired. `DateExample.LetterspacedDateUnchanged` shows this.
- `int(0.6 * n)` in `_collapse_char_details` is modelled as the exact `(6 * n) / 10`.

## Model

| member | source | states |
|---|---|---|
| TextExtractor.CleanExtractedText | resume-formatter-ai/backend-ai/utils/text_extractor.py:8-63 | the result is the pass-by-pass cleaning (`CleanText`): empty for empty input; it has no line break and no bullet, is stripped, and has no two adjacent whitespace characters |
| TextExtractor.CleanTextShape | resume-formatter-ai/backend-ai/utils/text_extractor.py:13-63 | for every input, the cleaned text has no line boundary and no bullet, is stripped, and has single spacing |
| TextExtractor.MergeLinesRuns | resume-formatter-ai/backend-ai/utils/text_extractor.py:20-36 | the merge loop yields exactly `Runs` of the cleaned lines: each line of two or more characters as an entry of its own, each maximal run of one-character lines (blank lines inside a run skipped) as one entry that glues them together, other blank lines dropped, in input order |
| TextExtractor.MergeLinesContent | resume-formatter-ai/backend-ai/utils/text_extractor.py:20-36 | the merged lines glued together are the cleaned lines glued together: merging loses no character |
| TextExtractor.MergeLinesGood | resume-formatter-ai/backend-ai/utils/text_extractor.py:23-36 | every merged line is non-empty and free of bullets and line breaks |
| TextExtractor.SplitLinesHaveNoBreaks | resume-formatter-ai/backend-ai/utils/text_extractor.py:20 | no piece produced by `splitlines` contains a line boundary |
| TextExtractor.CleanLineChars | resume-formatter-ai/backend-ai/utils/text_extractor.py:24 | a stripped line has no bullet, and no line break when the input had none |
| TextExtractor.TidyShape | resume-formatter-ai/backend-ai/utils/text_extractor.py:60-61 | the closing passes leave the text stripped with single spacing and insert nothing banned |
| Patterns.LetterRunShape | resume-formatter-ai/backend-ai/utils/text_extractor.py:17 | a letter-collapse match alternates letter and whitespace, has at least three letters, ends in a letter and sits between word boundaries |
| Patterns.LetterRunLayout | resume-formatter-ai/backend-ai/utils/text_extractor.py:61 | the second letter collapse keeps single spacing and keeps a stripped text stripped |
| Patterns.SubKeepsNonSpace | resume-formatter-ai/backend-ai/utils/text_extractor.py:17-41 | the letter and digit collapses only delete spaces: every other character survives, in order |
| Patterns.DigitRunShape | resume-formatter-ai/backend-ai/utils/text_extractor.py:41 | a digit-run match starts and ends with a digit, holds only digits and whitespace, and has at least six digits |
| Patterns.FewDigitsUntouched | resume-formatter-ai/backend-ai/utils/text_extractor.py:41 | a text with fewer than six digits is left unchanged by the digit-joining pass |
| Patterns.SpacedWordShape | resume-formatter-ai/backend-ai/utils/text_extractor.py:44-45 | `C\s*G\s*P\s*A` (and `G\s*P\s*A`) matches at a position exactly when the word's letters stand there in any case with only whitespace between them; the match ends at the last letter and becomes the upper-case word |
| Patterns.SpacedWordAbsent | resume-formatter-ai/backend-ai/utils/text_extractor.py:44-45 | a text without the word's first letter is left unchanged |
| Patterns.GradeValueShape | resume-formatter-ai/backend-ai/utils/text_extractor.py:46-51 | the grade pattern matches exactly when `CGPA` or `GPA` in any case (between word boundaries in the bounded form) is followed by separator characters and a value of value characters, `/`, value characters; of the possible splits, the match takes the value that starts last, where backtracking first succeeds |
| Patterns.GradeValueReplacement | resume-formatter-ai/backend-ai/utils/text_extractor.py:46-51 | a grade match becomes "CGPA: " or "GPA: ", whatever case the text used, followed by the value with its spaces removed |
| Patterns.LastValueStartIsLast | resume-formatter-ai/backend-ai/utils/text_extractor.py:47 | the value group starts at the last position that still lets the greedy separator run match |
| Patterns.DateWordShape | resume-formatter-ai/backend-ai/utils/text_extractor.py:54-58 | the month-year pattern matches exactly when 3 to 9 letters, not followed by another letter, are followed by whitespace and at least four digits; the match becomes the letters, one space and the first four digits |
| Patterns.DateWordNeedsLetters | resume-formatter-ai/backend-ai/utils/text_extractor.py:55 | no month-year match starts without two letters in a row |
| Patterns.SpaceRunNoDouble | resume-formatter-ai/backend-ai/utils/text_extractor.py:60 | after whitespace runs are replaced by one space, no two whitespace characters are adjacent |
| Patterns.SubChars | resume-formatter-ai/backend-ai/utils/text_extractor.py:17-61 | every character a pass outputs was in its input or in the text that pass inserts |
| Patterns.SubNoneOf | resume-formatter-ai/backend-ai/utils/text_extractor.py:17-61 | a pass introduces no character of a class that is absent from both its input and its inserted text |
| Patterns.SubOneMatch | resume-formatter-ai/backend-ai/utils/text_extractor.py:17-61 | with a single match, `re.sub` replaces it and copies everything else |
| Patterns.SubNoMatch | resume-formatter-ai/backend-ai/utils/text_extractor.py:17-61 | with no match, `re.sub` returns the text unchanged |
| Overleaf.ScoreZeroIff | resume-formatter-ai/backend-ai/services/formatter_overleaf_modern.py:8-16 | an entry scores 0 exactly when no job skill occurs, case ignored, in its title, company, location or any bullet |
| Overleaf.ScoreBound | resume-formatter-ai/backend-ai/services/formatter_overleaf_modern.py:8-16 | the score is at most one point per skill and field |
| Overleaf.LowerAll | resume-formatter-ai/backend-ai/services/formatter_overleaf_modern.py:9 | the skills are lower-cased one by one, none dropped |
| Overleaf.ReorderSpec | resume-formatter-ai/backend-ai/services/formatter_overleaf_modern.py:18-19 | the ranking is a permutation of the entries by non-increasing score; entries with equal score keep their input order |
| Overleaf.TrimOnePageSpec | resume-formatter-ai/backend-ai/services/formatter_overleaf_modern.py:21-28 | each section is its leading part up to its cap (2 / 3 / 2 / 6 / 16 / 4); experience and project entries lose only bullets beyond 4 and 3 |
| Overleaf.Cap | resume-formatter-ai/backend-ai/services/formatter_overleaf_modern.py:22-27 | a slice `xs[:n]` is a prefix of length min(len, n) |
| Overleaf.NormalizeGradeLineShape | resume-formatter-ai/backend-ai/services/formatter_overleaf_modern.py:62-84 | an empty line stays empty; a normalised line has no bullet and no whitespace other than a plain space; its characters come from the input or "CGPA: " |
| GradeLineExample.NormalizeSpacedGrade | resume-formatter-ai/backend-ai/services/formatter_overleaf_modern.py:62-84 | "C G P A : 8 . 6 / 1 0" is normalised to "CGPA: 8.6/10" |
| Overleaf.CollapseThresholdMeaning | resume-formatter-ai/backend-ai/services/formatter_overleaf_modern.py:97-99 | details collapse exactly when at least 3 cleaned details are at most two characters long and they reach `int(0.6 * n)` of the `n` details; 60% short always collapses, up to six details three short suffice, 4 short of 7 (57%) already collapse, and a collapse needs at least half short (a strict majority from ten details on) |
| Overleaf.CollapseCharDetailsSpec | resume-formatter-ai/backend-ai/services/formatter_overleaf_modern.py:86-105 | nothing for blank details; mostly short fragments become at most one joined normalised line; otherwise each cleaned detail is normalised on its own; no output line holds a bullet |
| Overleaf.NonBlankMembers | resume-formatter-ai/backend-ai/services/formatter_overleaf_modern.py:93 | exactly the details that are not blank after stripping are kept |
| Overleaf.CleanDetailNoBullet | resume-formatter-ai/backend-ai/services/formatter_overleaf_modern.py:93 | a cleaned detail has no bullet |
| Overleaf.SanitizeEntrySpec | resume-formatter-ai/backend-ai/services/formatter_overleaf_modern.py:122-138 | sanitising changes only details and dates: a detail list goes through the short-detail collapse, a string detail becomes a one-line list of its normalised grade line, absent details stay absent; non-empty dates go through the month-year repair and empty dates stay empty |
| Overleaf.DateWordNonEmpty | resume-formatter-ai/backend-ai/services/formatter_overleaf_modern.py:132-137 | the month-year repair never empties non-empty dates |
| Overleaf.SanitizeEducation | resume-formatter-ai/backend-ai/services/formatter_overleaf_modern.py:122-138 | the loop yields one sanitised entry per input entry, in order |
| Overleaf.BuildOverleafModern | resume-formatter-ai/backend-ai/services/formatter_overleaf_modern.py:109-174 | the context assembled step by step is `ContextFor`, and the media type is PDF exactly for a ".pdf" rendering |
| Overleaf.ContextExperience | resume-formatter-ai/backend-ai/services/formatter_overleaf_modern.py:116-152 | the context keeps the three best-ranked entries, in ranking order, with bullets cut to 4; no dropped entry outscores a kept one |
| Overleaf.ScoreCappedBullets | resume-formatter-ai/backend-ai/services/formatter_overleaf_modern.py:23 | cutting bullets never raises an entry's score, and an entry with at most 4 bullets keeps it |
| Overleaf.ContextSpec | resume-formatter-ai/backend-ai/services/formatter_overleaf_modern.py:140-170 | name defaulted only when absent; e-mail, phone, LinkedIn, GitHub and location copied; the first two sanitised education entries; the first six of the parser's groups, or of the keyword grouping when the parser gave none; the first two projects with their first three bullets; no flat list; the first four certifications; achievements untouched |
| SkillGroups.GroupSkills | resume-formatter-ai/backend-ai/services/formatter_overleaf_modern.py:30-58 | the grouping loop produces `Grouping(skills)` |
| SkillGroups.GroupingOrder | resume-formatter-ai/backend-ai/services/formatter.py:32-41 | groups appear in table order (Frontend … Concepts, then Other), each label at most once |
| SkillGroups.GroupingContents | resume-formatter-ai/backend-ai/services/formatter.py:32-41 | each category group holds its found skills (non-empty); Other holds exactly the uncategorised skills and appears when there are any |
| SkillGroups.GroupingCovers | resume-formatter-ai/backend-ai/services/formatter.py:28-43 | every input skill lands in some group |
| SkillGroups.GroupItemsMatch | resume-formatter-ai/backend-ai/services/formatter.py:33 | every item of a category group is an input skill containing one of that category's keywords, case ignored |
| SkillGroups.FoundMembers | resume-formatter-ai/backend-ai/services/formatter.py:33 | a skill is found for a category exactly when it contains one of its keywords |
| SkillGroups.LeftoverMembers | resume-formatter-ai/backend-ai/services/formatter.py:38-39 | a skill is left over exactly when no category claims it |
| SkillGroups.InGroupsIffCategorized | resume-formatter-ai/backend-ai/services/formatter.py:32-38 | a skill is in some category group exactly when it is an input skill some category claims |
| Formatter.GroupingEmptyIff | resume-formatter-ai/backend-ai/services/formatter.py:28-30 | the grouping is empty exactly when there are no skills |
| Formatter.BuildResume | resume-formatter-ai/backend-ai/services/formatter.py:47-166 | the document built call by call is `Layout` of the resume (the empty resume when it is not a dictionary), with education details laid out in the corrected form of the first finding below, and it is converted exactly when the format, lower-cased, is "pdf" |
| Formatter.UpdateResumeToMatchJd | resume-formatter-ai/backend-ai/services/formatter.py:170-189 | the shim builds the same document (education details in the corrected form) and picks format, media type and suffix from the upload's extension |
| Formatter.SectionOrder | resume-formatter-ai/backend-ai/services/formatter.py:84-155 | section headings are Professional Summary, then Skills, Experience, Education, Projects and Achievements, each present exactly when its list is non-empty |
| Formatter.TitleAndContacts | resume-formatter-ai/backend-ai/services/formatter.py:70-81 | the title is the name ("Candidate Name" when absent); the contact line holds exactly the non-empty contacts joined by " \| ", and is absent when all are empty |
| Formatter.SummaryPlacement | resume-formatter-ai/backend-ai/services/formatter.py:84-86 | the summary heading and text follow the title block; the text is the summary or the fixed fallback, never empty |
| Formatter.NonDictDocument | resume-formatter-ai/backend-ai/services/formatter.py:61-86 | a resume that is not a dictionary yields just the default title, the summary heading and the fallback text |
| Formatter.HeaderLineEmptyIff | resume-formatter-ai/backend-ai/services/formatter.py:105-108 | an entry header is empty exactly when the dates and all the parts are empty |
| Formatter.HeaderLineDates | resume-formatter-ai/backend-ai/services/formatter.py:105-107 | with dates, the header is the dates alone when the parts are empty, otherwise it ends in " (dates)" |
| Formatter.ExperienceBulletsInOrder | resume-formatter-ai/backend-ai/services/formatter.py:98-111 | the bullet paragraphs of the Experience section are all the entries' bullets, in order |
| Formatter.SkillLinesInOrder | resume-formatter-ai/backend-ai/services/formatter.py:89-95 | the Skills section's bullets are the "label: items" lines of the groups, in order |
| Formatter.OutputForSpec | resume-formatter-ai/backend-ai/services/formatter.py:182-186 | PDF format, PDF media type and ".pdf" exactly for a ".pdf" upload (case ignored); DOCX otherwise |
| Formatter.Document.AddHeading | resume-formatter-ai/backend-ai/services/formatter.py:77 | a heading paragraph is appended and nothing else changes |
| Formatter.Document.AddParagraph | resume-formatter-ai/backend-ai/services/formatter.py:81 | a paragraph with the given style is appended and nothing else changes |
| Formatter.AsWrittenEmptyBullet | resume-formatter-ai/backend-ai/services/formatter.py:126-129 | as written, an education entry without details still ends in an empty bullet paragraph |
| Formatter.NoDetailsExample | resume-formatter-ai/backend-ai/services/formatter.py:117-129 | "BSc"/"MIT" with no details: an extra empty bullet as written, just the header line when corrected |
| Formatter.EducationBulletsAreDetails | resume-formatter-ai/backend-ai/services/formatter.py:126-129 | corrected: an education entry's bullets are exactly its detail lines |
| ResumeParser.FullMatchIffShaped | resume-formatter-ai/backend-ai/services/resume_parser.py:5 | the address pattern matches a whole string exactly when it is local part, "@", domain, ".", and a top-level domain of at least two letters |
| ResumeParser.FindAllShaped | resume-formatter-ai/backend-ai/services/resume_parser.py:5-17 | every address `findall` returns is address-shaped |
| ResumeParser.CleanEmailSpec | resume-formatter-ai/backend-ai/services/resume_parser.py:7-21 | empty or missing gives ""; with no match, the stripped text; otherwise the earliest of the shortest matches |
| ResumeParser.BestEmailTrustsParsed | resume-formatter-ai/backend-ai/services/resume_parser.py:27-31 | a parsed address that cleans to a whole address is returned cleaned |
| ResumeParser.BestEmailNoCandidates | resume-formatter-ai/backend-ai/services/resume_parser.py:33-36 | otherwise, a text without addresses gives back the parsed value or "" |
| ResumeParser.BestEmailRanking | resume-formatter-ai/backend-ai/services/resume_parser.py:38-44 | otherwise the pick is a found address: a preferred provider if any, then the shortest, then the earliest |
| ResumeParser.ParseResume | resume-formatter-ai/backend-ai/services/resume_parser.py:78-83 | decoded JSON is returned as it is; a reply that does not parse gives {"raw", "error": "JSON parse failed"} |
| JdParser.ParseJd | resume-formatter-ai/backend-ai/services/jd_parser.py:32-50 | the failure reply when the JSON does not parse; an object gets its defaults filled; any other JSON value raises |
| JdParser.SetDefault | resume-formatter-ai/backend-ai/services/jd_parser.py:38 | `setdefault` leaves a present key alone and appends a missing one |
| JdParser.JdDefaultsFilled | resume-formatter-ai/backend-ai/services/jd_parser.py:38-48 | every listed field is present afterwards; present values are kept; title and company default to "", the lists to []; other keys and the original members are untouched |
| JdParser.FailureHasNoDefaults | resume-formatter-ai/backend-ai/services/jd_parser.py:32-35 | the failure reply carries none of the defaulted fields |
| Saved.SafeResolveSpec | resume-formatter-ai/backend-ai/routers/saved.py:15-21 | a target is accepted exactly when it is the base or lies below it; a rejection is a 400 "Invalid path." |
| Saved.EmptySubpath | resume-formatter-ai/backend-ai/routers/saved.py:17 | no subpath, or an empty one, resolves to the base |
| Saved.ForwardSubpathAccepted | resume-formatter-ai/backend-ai/routers/saved.py:15-21 | a relative subpath without ".." is accepted as the base extended by its named components |
| Saved.ParentRejected | resume-formatter-ai/backend-ai/routers/saved.py:19-20 | ".." is rejected with a 400 |
| Saved.AcceptedIsNormal | resume-formatter-ai/backend-ai/routers/saved.py:15-21 | whatever the subpath, an accepted target is a resolved path inside the base |
| Saved.ListSaved | resume-formatter-ai/backend-ai/routers/saved.py:44-69 | an invalid path is the 400 error; a missing target is an empty listing; otherwise the filtered entries in sorted order |
| Saved.ListedMembers | resume-formatter-ai/backend-ai/routers/saved.py:60-65 | an entry is listed exactly when it is in the directory, is not a directory unless asked for, and contains the pattern, case ignored |
| Saved.ItemsContents | resume-formatter-ai/backend-ai/routers/saved.py:65-68 | sorting keeps exactly the listed entries, each as often |
| Saved.ItemsOrder | resume-formatter-ai/backend-ai/routers/saved.py:67-68 | files come before directories, each kind newest first; entries with equal kind and time keep directory order |
| Saved.DirectoriesOnRequest | resume-formatter-ai/backend-ai/routers/saved.py:61-62 | a directory is never listed unless directories are requested |
| StreamlitClient.FilenameSpec | resume-formatter-ai/app.py:42-45 | the name is the first `filename="…"` capture in the header (non-empty, quote-free), or the fallback when there is none or no header |
| StreamlitClient.DownloadNameRoundTrip | resume-formatter-ai/app.py:42-45 | the header the download route sends (routers/saved.py:82) is read back as the file's own name |
| StreamlitClient.DocumentExtRoundTrip | resume-formatter-ai/app.py:47-51 | the document path's media type maps back to the suffix it was sent with |
| StreamlitClient.TemplateExtRoundTrip | resume-formatter-ai/app.py:47-51 | the template path's media type maps back to the rendered file's extension |
| JsonValues.Get | resume-formatter-ai/frontend-ui/resume-formatter-UI/src/App.jsx:102-103 | a lookup succeeds exactly when some member has the key |
| JsonValues.Or | resume-formatter-ai/frontend-ui/resume-formatter-UI/src/App.jsx:171-177 | `a \|\| b` is `a` when truthy and `b` otherwise |
| JsonValues.UnescapeEscapeAll | resume-formatter-ai/frontend-ui/resume-formatter-UI/src/App.jsx:154 | reading a string literal's body back, escape by escape, gives the string `JSON.stringify` escaped |
| JsonValues.StringifyStringRoundTrip | resume-formatter-ai/frontend-ui/resume-formatter-UI/src/App.jsx:154 | a string is written as a quoted literal whose body reads back as the string |
| JsonValues.StringKeyInjective | resume-formatter-ai/frontend-ui/resume-formatter-UI/src/App.jsx:154 | a value gets the same `JSON.stringify` key as a string exactly when it is that string, so string items are merged only with equal strings |
| NormalizeData.LabelIsCanonicalOrSame | resume-formatter-ai/frontend-ui/resume-formatter-UI/src/App.jsx:121-127 | a label is the input unchanged or one of the eleven canonical names |
| NormalizeData.CanonicalIsOwnLabel | resume-formatter-ai/frontend-ui/resume-formatter-UI/src/App.jsx:105-126 | each canonical name labels to itself |
| NormalizeData.LabelIdempotent | resume-formatter-ai/frontend-ui/resume-formatter-UI/src/App.jsx:121-127 | corrected: labelling a label changes nothing |
| NormalizeData.LabelAsWrittenAgrees | resume-formatter-ai/frontend-ui/resume-formatter-UI/src/App.jsx:122-123 | as written, the lookup differs from the own-key lookup only for the key "constructor" |
| NormalizeData.ConstructorSkillThrows | resume-formatter-ai/frontend-ui/resume-formatter-UI/src/App.jsx:121-131 | as written, a skill "Constructor" is labelled with the `Object` function and the next push throws; corrected, it keeps its name |
| NormalizeData.UniqPushByLabel | resume-formatter-ai/frontend-ui/resume-formatter-UI/src/App.jsx:128-131 | the item's label is appended exactly when no entry already has that label |
| NormalizeData.FillByLabel | resume-formatter-ai/frontend-ui/resume-formatter-UI/src/App.jsx:137-141 | the `forEach` of pushes yields `ByLabel` |
| NormalizeData.DistinctSpec | resume-formatter-ai/frontend-ui/resume-formatter-UI/src/App.jsx:137-141 | the reference de-duplication keeps each element once, at its first occurrence, in order |
| NormalizeData.ByLabelSpec | resume-formatter-ai/frontend-ui/resume-formatter-UI/src/App.jsx:128-141 | the pushed list holds exactly the labels of the items, each its own label, no two with one label, ordered by first occurrence |
| NormalizeData.FillOther | resume-formatter-ai/frontend-ui/resume-formatter-UI/src/App.jsx:143-146 | the loop over resume skills yields the de-duplicated unclaimed skills |
| NormalizeData.OtherSpec | resume-formatter-ai/frontend-ui/resume-formatter-UI/src/App.jsx:143-146 | "other" holds exactly the resume skills in neither core nor nice, once per label; every resume skill lands in one of the three |
| NormalizeData.MergeList | resume-formatter-ai/frontend-ui/resume-formatter-UI/src/App.jsx:150-160 | the merge loop yields `Merged` |
| NormalizeData.Add | resume-formatter-ai/frontend-ui/resume-formatter-UI/src/App.jsx:153-156 | an item whose key is unseen is appended and its key recorded; an item with a seen key leaves both unchanged |
| NormalizeData.AddAll | resume-formatter-ai/frontend-ui/resume-formatter-UI/src/App.jsx:157-158 | one `forEach(add)` over a run of the concatenated input carries the output from the first-of-each-key picks before the run to those after it |
| NormalizeData.MergedSpec | resume-formatter-ai/frontend-ui/resume-formatter-UI/src/App.jsx:150-160 | the merge keeps exactly the first item of each key, in order, and every key of the input is kept |
| NormalizeData.MergedResumeFirst | resume-formatter-ai/frontend-ui/resume-formatter-UI/src/App.jsx:157-158 | the resume's own items come first, unchanged; everything after them comes from the job description |
| NormalizeData.NormalizeData | resume-formatter-ai/frontend-ui/resume-formatter-UI/src/App.jsx:101-190 | the step-by-step normalisation equals `Normalize`, which labels skills with the corrected own-key lookup of the second finding below |
| NormalizeData.NormalizeOutcome | resume-formatter-ai/frontend-ui/resume-formatter-UI/src/App.jsx:121-168 | with the corrected label lookup, the normalisation fails exactly when a skill is not a string (`replace` throws) or a merged field is a truthy non-list |
| NormalizeData.NormalizeSkills | resume-formatter-ai/frontend-ui/resume-formatter-UI/src/App.jsx:133-179 | skills are core + nice + other; core and nice are the distinct labels of the job's lists; other is the rest of the resume's, once per label; no resume skill is lost |
| NormalizeData.NormalizeDefaults | resume-formatter-ai/frontend-ui/resume-formatter-UI/src/App.jsx:170-181 | name, e-mail, phone, job title and company fall back to "Your Name" or ""; links and summary fall back in the source's order to profiles / [] and objective / ""; experience and education are passed on when they are arrays and are [] otherwise |
| NormalizeData.NormalizeEmpty | resume-formatter-ai/frontend-ui/resume-formatter-UI/src/App.jsx:101-189 | with no data the preview is the empty template |
| Sorting.SortDescPermutes | resume-formatter-ai/backend-ai/services/formatter_overleaf_modern.py:19 | `sorted` returns a permutation of its input |
| Sorting.SortDescSorted | resume-formatter-ai/backend-ai/routers/saved.py:68 | with `reverse=True` no element is followed by one with a greater key |
| Sorting.SortDescStable | resume-formatter-ai/backend-ai/services/resume_parser.py:44 | elements with equal keys keep their input order |
| Sorting.SortDescHead | resume-formatter-ai/backend-ai/services/resume_parser.py:44 | the first element has the greatest key, and is the earliest element with that key |
| DateExample.GluedDateSeparated | resume-formatter-ai/backend-ai/utils/text_extractor.py:54-58 | "Aug2020" becomes "Aug 2020" |
| DateExample.LetterspacedDateUnchanged | resume-formatter-ai/backend-ai/services/formatter_overleaf_modern.py:131-137 | "A u g 2 0 2 0" is left unchanged: the digits are not adjacent |

## Left out

- The language-model calls in `parse_resume`, `parse_jd` and the LaTeX path are left out. The model starts from the decoded reply, an `Option<Json>` that is `None` when `json.loads` raises.
- File reading, PDF/DOCX text extraction, `convert_to_pdf` and `render_tex_or_pdf` (Jinja and LaTeX) are I/O and left out. The rendered file's extension is a parameter.
- Serialising the word-processing document is left out: a document is its list of paragraphs.
- HTTP routing, `FileResponse`, `download_saved` and `delete_saved` are left out, apart from their path check and header. Directory listings, existence tests and modification times are parameters.
- Formatter.BuildResume: lays out each education entry in the corrected form (a header line, then one bullet per detail line). The code as written adds one bullet holding the whole `details` value, empty when there are none; that form is `EducationBlockAsWritten`, recorded under "## Findings".
- Formatter.UpdateResumeToMatchJd: builds the same corrected document as `BuildResume`, so its education entries differ from the code as written in the same way.
- NormalizeData.NormalizeData: labels skills with the own-key alias lookup. As written, a skill "Constructor" finds the inherited `constructor` property and the normalisation throws (`LabelAsWritten`, `ConstructorSkillThrows`, recorded under "## Findings"); the model returns a result there.
- NormalizeData.NormalizeOutcome: its failure condition is that of the corrected lookup. It leaves out the as-written throw on a skill whose trimmed, lower-cased key is "constructor".
- Saved.Resolve: resolves paths lexically. Symbolic links, which `Path.resolve` follows, are not modelled.
- Saved.FmtSize: formats only zero and negative sizes. Positive sizes go through floating-point logarithms and rounding, which are not modelled.
- Saved.Entry: the modification time is an integer. The router compares ISO-8601 text, whose order is the order of the times.
- Strings.Lower: case mapping and the `\d`, `\w` and `re.I` classes are ASCII only. Python and JavaScript also map non-ASCII letters.
- Patterns.SpacedWordShape: stated for words made of ASCII letters, as both words the backend uses (`CGPA`, `GPA`) are. For a word holding whitespace, `SpacedWordEnd` would not follow Python's backtracking.
- Patterns.MatchLen: the word boundary treats only ASCII letters, digits and `_` as word characters. Python's `\b` on `str` also counts other Unicode letters.
- JsonValues.Json: object members keep the order of the text. A JavaScript object lists integer-like keys first, in ascending order, so `JSON.stringify` of such an object, and the merge key built from it, can differ from `Stringify`.
- JsonValues.Json: numbers are integers. Fractions, exponents and `JSON.stringify`'s formatting of them are not modelled.
- JsonValues.Get: an object's members are taken to have distinct keys. On duplicate keys the lookup returns the first; `json.loads` and `JSON.parse` keep the last.
- StreamlitClient.FilenameFromHeaders: looks up the header name exactly. The HTTP client's header mapping is case-insensitive.
- Overleaf.CollapseThreshold: computes `int(0.6 * n)` exactly. The rounding of the floating-point product is not modelled.
- Overleaf.Score: field values are strings. `str(None)` and other non-string fields, which `str()` would render as text, are not modelled.
- ResumeData: typed records stand in for the backend's dictionaries. A missing string field reads as "", except the name, whose absence the code distinguishes.
- The React components, the Streamlit page layout, `main.py` wiring and the rate-limit script are outside the formatting core.

## Findings

| source | as written | input that shows it | evidently intended | confidence | as-written member | corrected member |
|---|---|---|---|---|---|---|
| resume-formatter-ai/backend-ai/services/formatter.py:126-129 | `EducationBlockAsWritten`: every education entry gets one bullet paragraph holding the whole `details` value; for an absent or empty value that bullet is empty, and a list is run together into one bullet | `{"degree": "BSc", "school": "MIT"}` with no details | one bullet per detail line, none when there are no details (`EducationBlock`, used by `BuildResume`) | not executed | Formatter.AsWrittenEmptyBullet | Formatter.EducationBulletsAreDetails |
| resume-formatter-ai/frontend-ui/resume-formatter-UI/src/App.jsx:121-131 | `LabelAsWritten`: `aliasMap[c]` also finds the inherited `constructor` property, so `label` returns the `Object` function; the next `label` call on it throws, because a function has no `replace` | a resume skill "Constructor" | only the table's own keys are aliases, so "Constructor" keeps its name (`Label`, used by the rest of the model) | not executed | NormalizeData.ConstructorSkillThrows | NormalizeData.LabelIdempotent |
