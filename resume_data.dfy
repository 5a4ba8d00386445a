/**
 * The parsed resume as the backend reads it. A text field the dictionary does not hold reads
 * as "" and a list field as [], which is what every `.get(key, default) or default` of the
 * formatters yields; only the name keeps the difference between absent and present.
 */
module ResumeData {
  import opened Wrappers

  datatype Experience = Experience(
    title: string, company: string, location: string, dates: string, bullets: seq<string>)

  /** The `details` of an education entry: a list, a single string, or neither (absent). */
  datatype Details = DetailList(items: seq<string>) | DetailText(text: string) | NoDetails

  datatype Education = Education(degree: string, school: string, dates: string, details: Details)

  datatype Project = Project(name: string, dates: string, description: string, bullets: seq<string>)

  datatype SkillGroup = SkillGroup(name: string, items: seq<string>)

  datatype Resume = Resume(
    name: Option<string>,
    email: string, phone: string, linkedin: string, github: string, location: string,
    summary: string,
    skills: seq<string>,
    skillsGroups: seq<SkillGroup>,
    experience: seq<Experience>,
    education: seq<Education>,
    projects: seq<Project>,
    achievements: seq<string>,
    certifications: seq<string>)

  /** The dictionary with no keys, which replaces a resume that is not a dictionary. */
  const EmptyResume := Resume(None, "", "", "", "", "", "", [], [], [], [], [], [], [])

  /** The name shown when the resume has none. */
  const DefaultName := "Candidate Name"
}
