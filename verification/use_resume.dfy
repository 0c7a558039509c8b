/** The résumé hook: the empty record it starts from, the progress score, the shallow merge
    through which every edit flows, and the guard of the auto-save timer. The server
    round trips, the timer itself and the notifications are not part of this model. */
module UseResume {
  import opened Wrappers
  import opened Schema
  import opened Analytics

  /** `defaultResumeData` */
  const DefaultResumeData: ResumeData :=
    ResumeData(PersonalInfo("", "", "", "", Some(""), Some(""), Some(""), Some("")), [], [], [], None, None)

  // ---------------------------------------------------------------- progress

  /** All four contact fields are non-empty strings (white space counts: nothing is trimmed). */
  predicate PersonalDone(d: ResumeData)
  {
    var p := d.personalInfo;
    p.firstName != "" && p.lastName != "" && p.email != "" && p.phone != ""
  }

  /** Some entry has a title, a company and a start date. */
  predicate WorkDone(d: ResumeData)
  {
    exists w :: w in d.workExperience && w.title != "" && w.company != "" && w.startDate != ""
  }

  /** Some entry has a degree, a field and an institution. */
  predicate EducationDone(d: ResumeData)
  {
    exists e :: e in d.education && e.degree != "" && e.field != "" && e.institution != ""
  }

  /** Some category has a name and at least one skill. */
  predicate SkillsDone(d: ResumeData)
  {
    exists c :: c in d.skillCategories && c.name != "" && |c.skills| > 0
  }

  function Indicator(b: bool): nat
  {
    if b then 1 else 0
  }

  /** Number of completed sections. */
  function DoneCount(d: ResumeData): (n: nat)
    ensures n <= 4
  {
    Indicator(PersonalDone(d)) + Indicator(WorkDone(d)) + Indicator(EducationDone(d)) + Indicator(SkillsDone(d))
  }

  /** `calculateProgress`: a counter bumped once per completed section, then
      `Math.round(completed / 4 * 100)`. */
  method CalculateProgress(d: ResumeData) returns (progress: int)
    ensures progress == 25 * DoneCount(d)
    ensures progress in {0, 25, 50, 75, 100}
    ensures progress == 100 <==> PersonalDone(d) && WorkDone(d) && EducationDone(d) && SkillsDone(d)
    ensures progress == 0 <==> !PersonalDone(d) && !WorkDone(d) && !EducationDone(d) && !SkillsDone(d)
  {
    var completed: nat := 0;
    var p := d.personalInfo;
    if p.firstName != "" && p.lastName != "" && p.email != "" && p.phone != "" {
      completed := completed + 1;
    }
    if |d.workExperience| > 0 {
      var hasValidExperience := exists w :: w in d.workExperience && w.title != "" && w.company != "" && w.startDate != "";
      if hasValidExperience {
        completed := completed + 1;
      }
    }
    if |d.education| > 0 {
      var hasValidEducation := exists e :: e in d.education && e.degree != "" && e.field != "" && e.institution != "";
      if hasValidEducation {
        completed := completed + 1;
      }
    }
    if |d.skillCategories| > 0 {
      var hasValidSkills := exists c :: c in d.skillCategories && c.name != "" && |c.skills| > 0;
      if hasValidSkills {
        completed := completed + 1;
      }
    }
    assert completed == DoneCount(d);
    RoundPercentQuarters(completed);
    progress := RoundPercent(completed, 4);
    assert completed in {0, 1, 2, 3, 4};
  }

  /** The empty record has no completed section. */
  lemma DefaultHasNoProgress()
    ensures DoneCount(DefaultResumeData) == 0
  {
  }

  /** A record that satisfies the schema completes at least the personal section. */
  lemma ValidRecordHasProgress(d: ResumeData, isEmail: string -> bool, isUrl: string -> bool)
    requires ValidPersonalInfo(d.personalInfo, isEmail, isUrl)
    requires forall s :: isEmail(s) ==> s != ""
    ensures PersonalDone(d) && DoneCount(d) >= 1
  {
  }

  // ------------------------------------------------------------------- merge

  /** A `Partial<ResumeData>`: a key that is present (`Some`) replaces the field. */
  datatype ResumeUpdate = ResumeUpdate(
    personalInfo: Option<PersonalInfo>,
    workExperience: Option<seq<WorkExperience>>,
    education: Option<seq<Education>>,
    skillCategories: Option<seq<SkillCategory>>,
    customSections: Option<Option<seq<CustomSection>>>,
    sectionOrder: Option<Option<seq<string>>>)

  const NoUpdate: ResumeUpdate := ResumeUpdate(None, None, None, None, None, None)

  /** `updateResumeData`: `{ ...prev, ...updates }`. Schema validation only logs a warning,
      so the merged record is kept either way. */
  function Merge(prev: ResumeData, u: ResumeUpdate): (r: ResumeData)
    ensures r.personalInfo == u.personalInfo.GetOr(prev.personalInfo)
    ensures r.workExperience == u.workExperience.GetOr(prev.workExperience)
    ensures r.education == u.education.GetOr(prev.education)
    ensures r.skillCategories == u.skillCategories.GetOr(prev.skillCategories)
    ensures r.customSections == u.customSections.GetOr(prev.customSections)
    ensures r.sectionOrder == u.sectionOrder.GetOr(prev.sectionOrder)
  {
    ResumeData(
      u.personalInfo.GetOr(prev.personalInfo),
      u.workExperience.GetOr(prev.workExperience),
      u.education.GetOr(prev.education),
      u.skillCategories.GetOr(prev.skillCategories),
      u.customSections.GetOr(prev.customSections),
      u.sectionOrder.GetOr(prev.sectionOrder))
  }

  /** The keys of `second` win over those of `first`. */
  function Then(first: ResumeUpdate, second: ResumeUpdate): ResumeUpdate
  {
    ResumeUpdate(
      if second.personalInfo.Some? then second.personalInfo else first.personalInfo,
      if second.workExperience.Some? then second.workExperience else first.workExperience,
      if second.education.Some? then second.education else first.education,
      if second.skillCategories.Some? then second.skillCategories else first.skillCategories,
      if second.customSections.Some? then second.customSections else first.customSections,
      if second.sectionOrder.Some? then second.sectionOrder else first.sectionOrder)
  }

  /** An update without keys changes nothing, and merging the same update twice is the same
      as merging it once. */
  lemma MergeIdentityAndIdempotent(d: ResumeData, u: ResumeUpdate)
    ensures Merge(d, NoUpdate) == d
    ensures Merge(Merge(d, u), u) == Merge(d, u)
  {
  }

  /** Two successive merges are one merge of the combined update. */
  lemma MergeTwice(d: ResumeData, u1: ResumeUpdate, u2: ResumeUpdate)
    ensures Merge(Merge(d, u1), u2) == Merge(d, Then(u1, u2))
  {
  }

  /** An update that gives every key replaces the record outright. */
  lemma MergeFull(d: ResumeData, e: ResumeData)
    ensures Merge(d, ResumeUpdate(Some(e.personalInfo), Some(e.workExperience), Some(e.education),
                                  Some(e.skillCategories), Some(e.customSections), Some(e.sectionOrder))) == e
  {
  }

  // ---------------------------------------------------------------- auto-save

  /** The auto-save timer is set up unless both names are empty. */
  predicate AutoSaveScheduled(d: ResumeData)
  {
    !(d.personalInfo.firstName == "" && d.personalInfo.lastName == "")
  }

  /** When the timer fires, the record is saved only with some progress. */
  predicate AutoSaveFires(d: ResumeData, progress: int)
  {
    AutoSaveScheduled(d) && progress > 0
  }

  /** The empty record is never saved automatically, and a save needs a name and a completed
      section. */
  lemma AutoSaveGuard(d: ResumeData)
    ensures !AutoSaveScheduled(DefaultResumeData)
    ensures AutoSaveFires(d, 25 * DoneCount(d)) <==>
              (d.personalInfo.firstName != "" || d.personalInfo.lastName != "") && DoneCount(d) > 0
  {
  }
}
