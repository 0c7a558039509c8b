/** `generateMarkdown`: the résumé as a Markdown document, built by appending to a string. */
module MarkdownExport {
  import opened Wrappers
  import opened Text
  import opened Schema
  import opened ExportText

  const WorkHeading := "\n## Work Experience\n"
  const EducationHeading := "\n## Education\n"
  const SkillsHeading := "\n## Skills\n"

  /** `# first last`, a line of its own. */
  function NameLine(p: PersonalInfo): string
  {
    "# " + p.firstName + " " + p.lastName + "\n"
  }

  function SummaryBlock(p: PersonalInfo): string
  {
    if SummaryShown(p.summary) then "\n" + p.summary.value + "\n" else ""
  }

  /** A bold title, the company and the dates, then the description indented below. Each
      line is the parts of its template literal, one after the other. */
  function WorkLine(w: WorkExperience): string
  {
    Join(["- **", w.title, "**, ", w.company, " (", w.startDate, " - ", EndDateText(w.endDate), ")\n  - ",
      DescriptionText(w.description), "\n"], "")
  }

  function EducationLine(e: Education): string
  {
    Join(["- **", e.degree, " in ", e.field, "**, ", e.institution, " (", StartYearText(e.startYear), " - ",
      EndYearText(e.endYear), ")\n"], "")
  }

  function SkillLine(c: SkillCategory): string
  {
    Join(["- **", c.name, "**: ", Join(c.skills, ", "), "\n"], "")
  }

  /** The whole document. */
  function Markdown(d: ResumeData): string
  {
    Document(NameLine(d.personalInfo) + SummaryBlock(d.personalInfo),
      WorkHeading, Each(d.workExperience, WorkLine),
      EducationHeading, Each(d.education, EducationLine),
      SkillsHeading, Each(d.skillCategories, SkillLine))
  }

  /** `generateMarkdown` */
  method GenerateMarkdown(d: ResumeData) returns (md: string)
    ensures md == Markdown(d)
  {
    var p := d.personalInfo;
    md := "# " + p.firstName + " " + p.lastName + "\n";
    if p.summary.Some? && p.summary.value != "" {
      md := md + ("\n" + p.summary.value + "\n");
    }
    assert md == NameLine(p) + SummaryBlock(p);
    md := md + WorkHeading;
    ghost var before := md;
    for i := 0 to |d.workExperience|
      invariant md == before + Each(d.workExperience[..i], WorkLine)
    {
      EachStep(d.workExperience, i, WorkLine);
      Assoc(before, Each(d.workExperience[..i], WorkLine), WorkLine(d.workExperience[i]));
      md := md + WorkLine(d.workExperience[i]);
    }
    assert d.workExperience[..|d.workExperience|] == d.workExperience;
    md := md + EducationHeading;
    before := md;
    for i := 0 to |d.education|
      invariant md == before + Each(d.education[..i], EducationLine)
    {
      EachStep(d.education, i, EducationLine);
      Assoc(before, Each(d.education[..i], EducationLine), EducationLine(d.education[i]));
      md := md + EducationLine(d.education[i]);
    }
    assert d.education[..|d.education|] == d.education;
    md := md + SkillsHeading;
    before := md;
    for i := 0 to |d.skillCategories|
      invariant md == before + Each(d.skillCategories[..i], SkillLine)
    {
      EachStep(d.skillCategories, i, SkillLine);
      Assoc(before, Each(d.skillCategories[..i], SkillLine), SkillLine(d.skillCategories[i]));
      md := md + SkillLine(d.skillCategories[i]);
    }
    assert d.skillCategories[..|d.skillCategories|] == d.skillCategories;
  }

  /** The document opens with the name line; the summary follows it exactly when it is
      present and non-empty, otherwise the work heading does. */
  lemma MarkdownOpening(d: ResumeData)
    ensures StartsWith(Markdown(d), "# " + d.personalInfo.firstName + " " + d.personalInfo.lastName + "\n")
    ensures var n := |NameLine(d.personalInfo)|;
      if SummaryShown(d.personalInfo.summary) then At(Markdown(d), n, "\n" + d.personalInfo.summary.value + "\n")
      else At(Markdown(d), n, WorkHeading)
  {
    var p := d.personalInfo;
    var opening := NameLine(p) + SummaryBlock(p);
    var b1, b2, b3 := Each(d.workExperience, WorkLine), Each(d.education, EducationLine), Each(d.skillCategories, SkillLine);
    AtStart(NameLine(p), SummaryBlock(p));
    InOpening(opening, WorkHeading, b1, EducationHeading, b2, SkillsHeading, b3, 0, NameLine(p));
    if SummaryShown(p.summary) {
      AtEnd(NameLine(p), SummaryBlock(p));
      InOpening(opening, WorkHeading, b1, EducationHeading, b2, SkillsHeading, b3, |NameLine(p)|, SummaryBlock(p));
    } else {
      assert opening == NameLine(p);
      var i, j, k := DocumentLayout(opening, WorkHeading, b1, EducationHeading, b2, SkillsHeading, b3);
    }
  }

  /** The three headings appear in this order whatever the lists hold; between two headings
      are exactly the lines of that part's entries, and the skills lines run to the end. */
  lemma MarkdownHeadings(d: ResumeData) returns (i: nat, j: nat, k: nat)
    ensures i < j < k
    ensures At(Markdown(d), i, WorkHeading) && At(Markdown(d), j, EducationHeading) && At(Markdown(d), k, SkillsHeading)
    ensures j == i + |WorkHeading| + |Each(d.workExperience, WorkLine)|
    ensures At(Markdown(d), i + |WorkHeading|, Each(d.workExperience, WorkLine))
    ensures k == j + |EducationHeading| + |Each(d.education, EducationLine)|
    ensures At(Markdown(d), j + |EducationHeading|, Each(d.education, EducationLine))
    ensures At(Markdown(d), k + |SkillsHeading|, Each(d.skillCategories, SkillLine))
    ensures k + |SkillsHeading| + |Each(d.skillCategories, SkillLine)| == |Markdown(d)|
  {
    i, j, k := DocumentLayout(NameLine(d.personalInfo) + SummaryBlock(d.personalInfo),
      WorkHeading, Each(d.workExperience, WorkLine), EducationHeading,
      Each(d.education, EducationLine), SkillsHeading, Each(d.skillCategories, SkillLine));
  }

  /** Work entry `n` has its line under the work heading, right after the lines of the
      entries before it. */
  lemma MarkdownWorkEntry(d: ResumeData, n: nat)
    requires n < |d.workExperience|
    ensures At(Markdown(d),
               |NameLine(d.personalInfo) + SummaryBlock(d.personalInfo)| + |WorkHeading| + |Each(d.workExperience[..n], WorkLine)|,
               WorkLine(d.workExperience[n]))
  {
    FirstPartEntry(NameLine(d.personalInfo) + SummaryBlock(d.personalInfo), WorkHeading, d.workExperience, WorkLine,
      EducationHeading, Each(d.education, EducationLine), SkillsHeading, Each(d.skillCategories, SkillLine), n,
      WorkLine(d.workExperience[n]));
  }

  /** Education entry `n` has its line under the education heading, in input order. */
  lemma MarkdownEducationEntry(d: ResumeData, n: nat)
    requires n < |d.education|
    ensures At(Markdown(d),
               |NameLine(d.personalInfo) + SummaryBlock(d.personalInfo)| + |WorkHeading| + |Each(d.workExperience, WorkLine)|
                 + |EducationHeading| + |Each(d.education[..n], EducationLine)|,
               EducationLine(d.education[n]))
  {
    SecondPartEntry(NameLine(d.personalInfo) + SummaryBlock(d.personalInfo), WorkHeading, Each(d.workExperience, WorkLine),
      EducationHeading, d.education, EducationLine, SkillsHeading, Each(d.skillCategories, SkillLine), n,
      EducationLine(d.education[n]));
  }

  /** Skill category `n` has its line under the skills heading, in input order. */
  lemma MarkdownSkillEntry(d: ResumeData, n: nat)
    requires n < |d.skillCategories|
    ensures At(Markdown(d),
               |NameLine(d.personalInfo) + SummaryBlock(d.personalInfo)| + |WorkHeading| + |Each(d.workExperience, WorkLine)|
                 + |EducationHeading| + |Each(d.education, EducationLine)| + |SkillsHeading|
                 + |Each(d.skillCategories[..n], SkillLine)|,
               SkillLine(d.skillCategories[n]))
  {
    ThirdPartEntry(NameLine(d.personalInfo) + SummaryBlock(d.personalInfo), WorkHeading, Each(d.workExperience, WorkLine),
      EducationHeading, Each(d.education, EducationLine), SkillsHeading, d.skillCategories, SkillLine, n,
      SkillLine(d.skillCategories[n]));
  }
}
