/** `generateLinkedInText`: the résumé as plain text for a LinkedIn profile, built by appending
    to a string. It has the layout of the Markdown export without the markup. */
module LinkedInExport {
  import opened Wrappers
  import opened Text
  import opened Schema
  import opened ExportText

  const WorkHeading := "\nWork Experience\n"
  const EducationHeading := "\nEducation\n"
  const SkillsHeading := "\nSkills\n"

  /** `first last`, a line of its own. */
  function NameLine(p: PersonalInfo): string
  {
    p.firstName + " " + p.lastName + "\n"
  }

  function SummaryBlock(p: PersonalInfo): string
  {
    if SummaryShown(p.summary) then "\n" + p.summary.value + "\n" else ""
  }

  /** The title, the company and the dates, then the description indented below. Each
      line is the parts of its template literal, one after the other. */
  function WorkLine(w: WorkExperience): string
  {
    Join(["- ", w.title, ", ", w.company, " (", w.startDate, " - ", EndDateText(w.endDate), ")\n  ",
      DescriptionText(w.description), "\n"], "")
  }

  function EducationLine(e: Education): string
  {
    Join(["- ", e.degree, " in ", e.field, ", ", e.institution, " (", StartYearText(e.startYear), " - ",
      EndYearText(e.endYear), ")\n"], "")
  }

  function SkillLine(c: SkillCategory): string
  {
    Join(["- ", c.name, ": ", Join(c.skills, ", "), "\n"], "")
  }

  /** The whole document. */
  function LinkedInText(d: ResumeData): string
  {
    Document(NameLine(d.personalInfo) + SummaryBlock(d.personalInfo),
      WorkHeading, Each(d.workExperience, WorkLine),
      EducationHeading, Each(d.education, EducationLine),
      SkillsHeading, Each(d.skillCategories, SkillLine))
  }

  /** `generateLinkedInText` */
  method GenerateLinkedInText(d: ResumeData) returns (text: string)
    ensures text == LinkedInText(d)
  {
    var p := d.personalInfo;
    text := p.firstName + " " + p.lastName + "\n";
    if p.summary.Some? && p.summary.value != "" {
      text := text + ("\n" + p.summary.value + "\n");
    }
    assert text == NameLine(p) + SummaryBlock(p);
    text := text + WorkHeading;
    ghost var before := text;
    for i := 0 to |d.workExperience|
      invariant text == before + Each(d.workExperience[..i], WorkLine)
    {
      EachStep(d.workExperience, i, WorkLine);
      Assoc(before, Each(d.workExperience[..i], WorkLine), WorkLine(d.workExperience[i]));
      text := text + WorkLine(d.workExperience[i]);
    }
    assert d.workExperience[..|d.workExperience|] == d.workExperience;
    text := text + EducationHeading;
    before := text;
    for i := 0 to |d.education|
      invariant text == before + Each(d.education[..i], EducationLine)
    {
      EachStep(d.education, i, EducationLine);
      Assoc(before, Each(d.education[..i], EducationLine), EducationLine(d.education[i]));
      text := text + EducationLine(d.education[i]);
    }
    assert d.education[..|d.education|] == d.education;
    text := text + SkillsHeading;
    before := text;
    for i := 0 to |d.skillCategories|
      invariant text == before + Each(d.skillCategories[..i], SkillLine)
    {
      EachStep(d.skillCategories, i, SkillLine);
      Assoc(before, Each(d.skillCategories[..i], SkillLine), SkillLine(d.skillCategories[i]));
      text := text + SkillLine(d.skillCategories[i]);
    }
    assert d.skillCategories[..|d.skillCategories|] == d.skillCategories;
  }

  /** The document opens with the name line; the summary follows it exactly when it is
      present and non-empty, otherwise the work heading does. */
  lemma LinkedInOpening(d: ResumeData)
    ensures StartsWith(LinkedInText(d), d.personalInfo.firstName + " " + d.personalInfo.lastName + "\n")
    ensures var n := |NameLine(d.personalInfo)|;
      if SummaryShown(d.personalInfo.summary) then At(LinkedInText(d), n, "\n" + d.personalInfo.summary.value + "\n")
      else At(LinkedInText(d), n, WorkHeading)
  {
    var p := d.personalInfo;
    var opening := NameLine(p) + SummaryBlock(p);
    var b1, b2, b3 := Each(d.workExperience, WorkLine), Each(d.education, EducationLine), Each(d.skillCategories, SkillLine);
    AtStart(NameLine(p), SummaryBlock(p));
    InOpening(opening, WorkHeading, b1, EducationHeading, b2, SkillsHeading, b3, 0, NameLine(p));
    if SummaryShown(p.summary) {
      AtEnd(NameLine(p), SummaryBlock(p));
      InOpening(opening, WorkHeading, b1, EducationHeading, b2, SkillsHeading, b3, |NameLine(p)|, SummaryBlock(p));
    } else {
      assert opening == NameLine(p);
      var i, j, k := DocumentLayout(opening, WorkHeading, b1, EducationHeading, b2, SkillsHeading, b3);
    }
  }

  /** The three headings appear in this order whatever the lists hold; between two headings
      are exactly the lines of that part's entries, and the skills lines run to the end. */
  lemma LinkedInHeadings(d: ResumeData) returns (i: nat, j: nat, k: nat)
    ensures i < j < k
    ensures At(LinkedInText(d), i, WorkHeading) && At(LinkedInText(d), j, EducationHeading) && At(LinkedInText(d), k, SkillsHeading)
    ensures j == i + |WorkHeading| + |Each(d.workExperience, WorkLine)|
    ensures At(LinkedInText(d), i + |WorkHeading|, Each(d.workExperience, WorkLine))
    ensures k == j + |EducationHeading| + |Each(d.education, EducationLine)|
    ensures At(LinkedInText(d), j + |EducationHeading|, Each(d.education, EducationLine))
    ensures At(LinkedInText(d), k + |SkillsHeading|, Each(d.skillCategories, SkillLine))
    ensures k + |SkillsHeading| + |Each(d.skillCategories, SkillLine)| == |LinkedInText(d)|
  {
    i, j, k := DocumentLayout(NameLine(d.personalInfo) + SummaryBlock(d.personalInfo),
      WorkHeading, Each(d.workExperience, WorkLine), EducationHeading,
      Each(d.education, EducationLine), SkillsHeading, Each(d.skillCategories, SkillLine));
  }

  /** Work entry `n` has its line under the work heading, right after the lines of the
      entries before it. */
  lemma LinkedInWorkEntry(d: ResumeData, n: nat)
    requires n < |d.workExperience|
    ensures At(LinkedInText(d),
               |NameLine(d.personalInfo) + SummaryBlock(d.personalInfo)| + |WorkHeading| + |Each(d.workExperience[..n], WorkLine)|,
               WorkLine(d.workExperience[n]))
  {
    FirstPartEntry(NameLine(d.personalInfo) + SummaryBlock(d.personalInfo), WorkHeading, d.workExperience, WorkLine,
      EducationHeading, Each(d.education, EducationLine), SkillsHeading, Each(d.skillCategories, SkillLine), n,
      WorkLine(d.workExperience[n]));
  }

  /** Education entry `n` has its line under the education heading, in input order. */
  lemma LinkedInEducationEntry(d: ResumeData, n: nat)
    requires n < |d.education|
    ensures At(LinkedInText(d),
               |NameLine(d.personalInfo) + SummaryBlock(d.personalInfo)| + |WorkHeading| + |Each(d.workExperience, WorkLine)|
                 + |EducationHeading| + |Each(d.education[..n], EducationLine)|,
               EducationLine(d.education[n]))
  {
    SecondPartEntry(NameLine(d.personalInfo) + SummaryBlock(d.personalInfo), WorkHeading, Each(d.workExperience, WorkLine),
      EducationHeading, d.education, EducationLine, SkillsHeading, Each(d.skillCategories, SkillLine), n,
      EducationLine(d.education[n]));
  }

  /** Skill category `n` has its line under the skills heading, in input order. */
  lemma LinkedInSkillEntry(d: ResumeData, n: nat)
    requires n < |d.skillCategories|
    ensures At(LinkedInText(d),
               |NameLine(d.personalInfo) + SummaryBlock(d.personalInfo)| + |WorkHeading| + |Each(d.workExperience, WorkLine)|
                 + |EducationHeading| + |Each(d.education, EducationLine)| + |SkillsHeading|
                 + |Each(d.skillCategories[..n], SkillLine)|,
               SkillLine(d.skillCategories[n]))
  {
    ThirdPartEntry(NameLine(d.personalInfo) + SummaryBlock(d.personalInfo), WorkHeading, Each(d.workExperience, WorkLine),
      EducationHeading, Each(d.education, EducationLine), SkillsHeading, d.skillCategories, SkillLine, n,
      SkillLine(d.skillCategories[n]));
  }
}
