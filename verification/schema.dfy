/** The résumé record and its validation schema. Each schema object becomes a
    datatype and a validity predicate; `.default(..)` becomes a parse step from a
    raw record whose defaulted fields may be absent. The e-mail and URL checks of
    the validation library are not part of this model and are passed in. */
module Schema {
  import opened Wrappers

  datatype PersonalInfo = PersonalInfo(
    firstName: string,
    lastName: string,
    email: string,
    phone: string,
    title: Option<string>,
    address: Option<string>,
    linkedin: Option<string>,
    summary: Option<string>)

  datatype WorkExperience = WorkExperience(
    id: string,
    title: string,
    company: string,
    location: Option<string>,
    startDate: string,
    endDate: Option<string>,
    current: bool,
    description: Option<string>)

  datatype Education = Education(
    id: string,
    degree: string,
    field: string,
    institution: string,
    location: Option<string>,
    startYear: Option<int>,
    endYear: Option<int>,
    gpa: Option<real>)

  datatype SkillCategory = SkillCategory(id: string, name: string, skills: seq<string>)

  datatype CustomSection = CustomSection(id: string, title: string, content: Option<string>)

  /** The record the form edits. `customSections` and `sectionOrder` are not in the
      schema; the form reads them as optional extra keys. */
  datatype ResumeData = ResumeData(
    personalInfo: PersonalInfo,
    workExperience: seq<WorkExperience>,
    education: seq<Education>,
    skillCategories: seq<SkillCategory>,
    customSections: Option<seq<CustomSection>>,
    sectionOrder: Option<seq<string>>)

  /** `personalInfoSchema`: non-empty first name, last name and phone, a valid e-mail,
      and a LinkedIn value that is absent, empty or a URL. */
  predicate ValidPersonalInfo(p: PersonalInfo, isEmail: string -> bool, isUrl: string -> bool)
  {
    && |p.firstName| >= 1
    && |p.lastName| >= 1
    && isEmail(p.email)
    && |p.phone| >= 1
    && (p.linkedin.None? || p.linkedin.value == "" || isUrl(p.linkedin.value))
  }

  /** `workExperienceSchema` */
  predicate ValidWorkExperience(w: WorkExperience)
  {
    |w.title| >= 1 && |w.company| >= 1 && |w.startDate| >= 1
  }

  /** `educationSchema`: non-empty degree, field and institution; a GPA, when given, in [0, 4]. */
  predicate ValidEducation(e: Education)
  {
    && |e.degree| >= 1 && |e.field| >= 1 && |e.institution| >= 1
    && (e.gpa.Some? ==> 0.0 <= e.gpa.value <= 4.0)
  }

  /** `skillCategorySchema` */
  predicate ValidSkillCategory(c: SkillCategory)
  {
    |c.name| >= 1
  }

  /** Input to `workExperienceSchema.parse`: `current` may be missing. */
  datatype RawWorkExperience = RawWorkExperience(
    id: string, title: string, company: string, location: Option<string>,
    startDate: string, endDate: Option<string>, current: Option<bool>, description: Option<string>)

  /** Input to `skillCategorySchema.parse`: `skills` may be missing. */
  datatype RawSkillCategory = RawSkillCategory(id: string, name: string, skills: Option<seq<string>>)

  /** Input to `resumeDataSchema.parse`: the three lists may be missing. */
  datatype RawResumeData = RawResumeData(
    personalInfo: PersonalInfo,
    workExperience: Option<seq<RawWorkExperience>>,
    education: Option<seq<Education>>,
    skillCategories: Option<seq<RawSkillCategory>>)

  /** `workExperienceSchema.parse`: fills `current` with false, then validates. */
  function ParseWorkExperience(raw: RawWorkExperience): (r: Option<WorkExperience>)
    ensures r.Some? <==> |raw.title| >= 1 && |raw.company| >= 1 && |raw.startDate| >= 1
    ensures r.Some? ==> ValidWorkExperience(r.value) && r.value.id == raw.id && r.value.title == raw.title
                        && r.value.company == raw.company && r.value.location == raw.location
                        && r.value.startDate == raw.startDate && r.value.endDate == raw.endDate
                        && r.value.description == raw.description
                        && r.value.current == (raw.current == Some(true))
  {
    var w := WorkExperience(raw.id, raw.title, raw.company, raw.location, raw.startDate,
                            raw.endDate, raw.current.GetOr(false), raw.description);
    if ValidWorkExperience(w) then Some(w) else None
  }

  /** `skillCategorySchema.parse`: fills `skills` with [], then validates. */
  function ParseSkillCategory(raw: RawSkillCategory): (r: Option<SkillCategory>)
    ensures r.Some? <==> |raw.name| >= 1
    ensures r.Some? ==> r.value.id == raw.id && r.value.name == raw.name
                        && (raw.skills.None? ==> r.value.skills == [])
                        && (raw.skills.Some? ==> r.value.skills == raw.skills.value)
  {
    var c := SkillCategory(raw.id, raw.name, raw.skills.GetOr([]));
    if ValidSkillCategory(c) then Some(c) else None
  }

  /** Parses every element; fails when one element fails. */
  function ParseAll<R, T>(raws: seq<R>, parse: R -> Option<T>): (r: Option<seq<T>>)
    ensures r.Some? <==> forall i :: 0 <= i < |raws| ==> parse(raws[i]).Some?
    ensures r.Some? ==> |r.value| == |raws| &&
                        forall i :: 0 <= i < |raws| ==> parse(raws[i]) == Some(r.value[i])
  {
    if raws == [] then Some([])
    else match (parse(raws[0]), ParseAll(raws[1..], parse))
      case (Some(x), Some(xs)) => Some([x] + xs)
      case _ => None
  }

  /** `resumeDataSchema.parse`: missing lists become [], every element is parsed, and the
      keys the schema does not know (`customSections`, `sectionOrder`) are dropped. */
  function ParseResumeData(raw: RawResumeData, isEmail: string -> bool, isUrl: string -> bool): (r: Option<ResumeData>)
    ensures r.Some? <==> && ValidPersonalInfo(raw.personalInfo, isEmail, isUrl)
                         && (forall w :: w in raw.workExperience.GetOr([]) ==> ParseWorkExperience(w).Some?)
                         && (forall e :: e in raw.education.GetOr([]) ==> ValidEducation(e))
                         && (forall c :: c in raw.skillCategories.GetOr([]) ==> ParseSkillCategory(c).Some?)
    ensures r.Some? ==> r.value.personalInfo == raw.personalInfo
    ensures r.Some? ==> r.value.customSections.None? && r.value.sectionOrder.None?
    ensures r.Some? ==> var raws := raw.workExperience.GetOr([]);
                        |r.value.workExperience| == |raws| &&
                        forall i :: 0 <= i < |raws| ==> ParseWorkExperience(raws[i]) == Some(r.value.workExperience[i])
    ensures r.Some? ==> r.value.education == raw.education.GetOr([])
    ensures r.Some? ==> var raws := raw.skillCategories.GetOr([]);
                        |r.value.skillCategories| == |raws| &&
                        forall i :: 0 <= i < |raws| ==> ParseSkillCategory(raws[i]) == Some(r.value.skillCategories[i])
    ensures r.Some? ==> ((raw.workExperience.None? ==> r.value.workExperience == [])
                      && (raw.education.None? ==> r.value.education == [])
                      && (raw.skillCategories.None? ==> r.value.skillCategories == []))
    ensures r.Some? ==> ((forall w :: w in r.value.workExperience ==> ValidWorkExperience(w))
                      && (forall e :: e in r.value.education ==> ValidEducation(e))
                      && (forall c :: c in r.value.skillCategories ==> ValidSkillCategory(c)))
  {
    if !ValidPersonalInfo(raw.personalInfo, isEmail, isUrl) then None
    else
      var work := ParseAll(raw.workExperience.GetOr([]), ParseWorkExperience);
      var edu := raw.education.GetOr([]);
      var skills := ParseAll(raw.skillCategories.GetOr([]), ParseSkillCategory);
      if work.None? || skills.None? || exists e :: e in edu && !ValidEducation(e) then None
      else
        assert forall w :: w in work.value ==> ValidWorkExperience(w) by {
          forall w | w in work.value ensures ValidWorkExperience(w) {
            var i :| 0 <= i < |work.value| && work.value[i] == w;
            assert ParseWorkExperience(raw.workExperience.GetOr([])[i]) == Some(w);
          }
        }
        assert forall c :: c in skills.value ==> ValidSkillCategory(c) by {
          forall c | c in skills.value ensures ValidSkillCategory(c) {
            var i :| 0 <= i < |skills.value| && skills.value[i] == c;
            assert ParseSkillCategory(raw.skillCategories.GetOr([])[i]) == Some(c);
          }
        }
        Some(ResumeData(raw.personalInfo, work.value, edu, skills.value, None, None))
  }
}
