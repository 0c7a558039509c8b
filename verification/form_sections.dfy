/** The required-field checks of the form's section components, the enabling of their move
    buttons, and the Enter-to-add rule of the skills input. A field is "blank" when `trim`
    leaves nothing, which is what `!x?.trim()` tests. */

/** The personal-information card. */
module PersonalInfoSection {
  import opened Wrappers
  import opened Text
  import opened Schema
  import opened AiSuggest

  const FirstNameRequired := "First name is required."
  const LastNameRequired := "Last name is required."
  const EmailRequired := "Email is required."
  const PhoneRequired := "Phone is required."

  /** The four fields the card insists on are all non-blank. */
  predicate Complete(p: PersonalInfo)
  {
    !IsBlank(p.firstName) && !IsBlank(p.lastName) && !IsBlank(p.email) && !IsBlank(p.phone)
  }

  /** The keys of the error record: `firstName`, `lastName`, `email` and `phone`. */
  datatype Field = FirstName | LastName | Email | Phone

  /** The value the card checks for a key. */
  function FieldValue(p: PersonalInfo, f: Field): string
  {
    match f
    case FirstName => p.firstName
    case LastName => p.lastName
    case Email => p.email
    case Phone => p.phone
  }

  function Message(f: Field): string
  {
    match f
    case FirstName => FirstNameRequired
    case LastName => LastNameRequired
    case Email => EmailRequired
    case Phone => PhoneRequired
  }

  /** The `errors` memo: an entry exactly for each blank required field, holding that
      field's message; title, address, LinkedIn and summary are never checked, and there
      are no errors exactly when the card is complete. */
  method Errors(p: PersonalInfo) returns (errs: map<Field, string>)
    ensures forall f :: f in errs <==> IsBlank(FieldValue(p, f))
    ensures forall f :: f in errs ==> errs[f] == Message(f)
    ensures errs == map[] <==> Complete(p)
  {
    errs := map[];
    if IsBlank(p.firstName) {
      errs := errs[FirstName := FirstNameRequired];
    }
    if IsBlank(p.lastName) {
      errs := errs[LastName := LastNameRequired];
    }
    if IsBlank(p.email) {
      errs := errs[Email := EmailRequired];
    }
    if IsBlank(p.phone) {
      errs := errs[Phone := PhoneRequired];
    }
    if !Complete(p) {
      assert FirstName in errs || LastName in errs || Email in errs || Phone in errs;
    }
  }

  /** Optional fields never produce errors: changing them leaves every checked value as it
      was. */
  lemma OptionalFieldsUnchecked(p: PersonalInfo, title: Option<string>, address: Option<string>,
                                linkedin: Option<string>, summary: Option<string>, f: Field)
    ensures FieldValue(p.(title := title, address := address, linkedin := linkedin, summary := summary), f) == FieldValue(p, f)
  {
  }

  /** The empty string is blank. */
  lemma EmptyIsBlank()
    ensures IsBlank("")
  {
    assert TrimStart("") == "";
  }

  /** A card without errors has the non-empty names and phone the schema asks for; with a
      schema-valid e-mail and LinkedIn value the record is schema-valid. The converse does
      not hold: a name of spaces passes the schema but not the card. */
  lemma CompleteMeetsSchema(p: PersonalInfo, isEmail: string -> bool, isUrl: string -> bool)
    ensures Complete(p) ==> |p.firstName| >= 1 && |p.lastName| >= 1 && |p.phone| >= 1 && p.email != ""
    ensures (Complete(p) && isEmail(p.email) && (p.linkedin.None? || p.linkedin.value == "" || isUrl(p.linkedin.value)))
              ==> ValidPersonalInfo(p, isEmail, isUrl)
    ensures var q := p.(firstName := " ");
            |q.firstName| >= 1 && !Complete(q)
  {
    EmptyIsBlank();
    assert IsBlank(" ") by {
      assert IsSpace(" "[0]);
    }
  }

  /** `analyzeResult && analyzeResult.missingKeywords.length > 0` */
  predicate ShowsMissingKeywords(r: Option<AnalyzeResult>)
  {
    r.Some? && |r.value.missingKeywords| > 0
  }

  /** Some keyword does not occur in the text. */
  predicate SomeMissing(keywords: seq<string>, text: string)
  {
    exists k :: k in keywords && !Contains(text, k)
  }

  /** The missing-keyword panel shows exactly when some keyword of the job description does
      not occur in the résumé text, for any analysis whose missing list is exactly the
      absent keywords, as `KeywordGap` promises. (Before an analysis has run,
      `ShowsMissingKeywords(None)` is false by definition.) */
  lemma PanelShowsMissing(r: AnalyzeResult, keywords: seq<string>, text: string)
    requires forall k :: k in r.missingKeywords <==> k in keywords && !Contains(text, k)
    ensures ShowsMissingKeywords(Some(r)) <==> SomeMissing(keywords, text)
  {
    if |r.missingKeywords| > 0 {
      assert r.missingKeywords[0] in r.missingKeywords;
    }
    if exists k :: k in keywords && !Contains(text, k) {
      var k :| k in keywords && !Contains(text, k);
      assert k in r.missingKeywords;
    }
  }
}

/** Move buttons of a list of cards: the first card cannot move up, the last cannot move
    down. */
module MoveButtons {
  import opened Wrappers
  import opened ResumeForm

  predicate UpDisabled(index: int)
  {
    index == 0
  }

  predicate DownDisabled(index: int, length: int)
  {
    index == length - 1
  }

  /** For a card whose id does not occur earlier in the list, a button is enabled exactly when
      the move handler would exchange the card with a neighbour. */
  lemma ButtonsMatchMoves<T>(xs: seq<T>, key: T -> string, index: nat)
    requires index < |xs|
    requires forall j :: 0 <= j < index ==> key(xs[j]) != key(xs[index])
    ensures MoveResult(xs, key, key(xs[index]), true).Some? <==> !UpDisabled(index)
    ensures MoveResult(xs, key, key(xs[index]), false).Some? <==> !DownDisabled(index, |xs|)
  {
    assert FindIndex(xs, key, key(xs[index])) == index;
  }
}

/** The work-experience card. */
module WorkExperienceSection {
  import opened Text
  import opened Seqs
  import opened Schema

  const TitleRequired := "Job title is required."
  const CompanyRequired := "Company is required."

  datatype WorkErrors = WorkErrors(title: string, company: string)

  function EntryErrors(w: WorkExperience): WorkErrors
  {
    WorkErrors(if IsBlank(w.title) then TitleRequired else "", if IsBlank(w.company) then CompanyRequired else "")
  }

  /** The `errors` memo: one record per entry, in order; a message exactly for a blank
      title or company, "" otherwise. */
  function Errors(ws: seq<WorkExperience>): (r: seq<WorkErrors>)
    ensures |r| == |ws|
    ensures forall i :: 0 <= i < |ws| ==>
              (r[i].title != "" <==> IsBlank(ws[i].title)) && r[i].title in {"", TitleRequired} &&
              (r[i].company != "" <==> IsBlank(ws[i].company)) && r[i].company in {"", CompanyRequired}
  {
    Map(ws, EntryErrors)
  }

  /** Dates, location, description and the `current` flag are never checked: entries that
      agree on title and company get the same errors. A start date is required by the schema
      but not by the card. */
  lemma OnlyTitleAndCompany(ws: seq<WorkExperience>, vs: seq<WorkExperience>)
    requires |ws| == |vs|
    requires forall i :: 0 <= i < |ws| ==> ws[i].title == vs[i].title && ws[i].company == vs[i].company
    ensures Errors(ws) == Errors(vs)
    ensures forall w: WorkExperience :: w.startDate == "" ==> EntryErrors(w) == EntryErrors(w.(startDate := "2020")) && !ValidWorkExperience(w)
  {
  }
}

/** The education card. */
module EducationSection {
  import opened Text
  import opened Seqs
  import opened Schema
  import opened MoveButtons

  const DegreeRequired := "Degree is required."
  const FieldRequired := "Field is required."
  const InstitutionRequired := "Institution is required."

  datatype EducationErrors = EducationErrors(degree: string, field: string, institution: string)

  function EntryErrors(e: Education): EducationErrors
  {
    EducationErrors(
      if IsBlank(e.degree) then DegreeRequired else "",
      if IsBlank(e.field) then FieldRequired else "",
      if IsBlank(e.institution) then InstitutionRequired else "")
  }

  /** The `errors` memo: one record per entry, in order; a message exactly for a blank
      degree, field or institution. */
  function Errors(es: seq<Education>): (r: seq<EducationErrors>)
    ensures |r| == |es|
    ensures forall i :: 0 <= i < |es| ==>
              (r[i].degree != "" <==> IsBlank(es[i].degree)) && r[i].degree in {"", DegreeRequired} &&
              (r[i].field != "" <==> IsBlank(es[i].field)) && r[i].field in {"", FieldRequired} &&
              (r[i].institution != "" <==> IsBlank(es[i].institution)) && r[i].institution in {"", InstitutionRequired}
  {
    Map(es, EntryErrors)
  }

  /** An entry without errors has the non-empty degree, field and institution the schema
      asks for; only the grade can still make it invalid. */
  lemma NoErrorsMeetsSchema(e: Education)
    requires EntryErrors(e) == EducationErrors("", "", "")
    ensures e.degree != "" && e.field != "" && e.institution != ""
    ensures (e.gpa.None? || 0.0 <= e.gpa.value <= 4.0) ==> ValidEducation(e)
  {
    assert TrimStart("") == "";
  }
}

/** The skills card. */
module SkillsSection {
  import opened Text
  import opened Seqs
  import opened Schema
  import opened ResumeForm

  const NameRequired := "Category name is required."
  const SkillRequired := "At least one skill is required."

  datatype CategoryErrors = CategoryErrors(name: string, skills: string)

  function EntryErrors(c: SkillCategory): CategoryErrors
  {
    CategoryErrors(if IsBlank(c.name) then NameRequired else "", if |c.skills| == 0 then SkillRequired else "")
  }

  /** The `errors` memo: one record per category, in order; a name message exactly for a
      blank name and a skills message exactly for an empty list (blank skills count). */
  function Errors(cs: seq<SkillCategory>): (r: seq<CategoryErrors>)
    ensures |r| == |cs|
    ensures forall i :: 0 <= i < |cs| ==>
              (r[i].name != "" <==> IsBlank(cs[i].name)) && r[i].name in {"", NameRequired} &&
              (r[i].skills != "" <==> cs[i].skills == []) && r[i].skills in {"", SkillRequired}
  {
    Map(cs, EntryErrors)
  }

  /** A category holding only a blank skill passes the card's check. */
  lemma BlankSkillPasses(c: SkillCategory)
    requires c.skills == [" "] && !IsBlank(c.name)
    ensures EntryErrors(c) == CategoryErrors("", "")
  {
  }

  /** The text box of one category. */
  class SkillInput {
    var value: string

    constructor()
      ensures value == ""
    {
      value := "";
    }

    /** The `onKeyDown` handler: Enter on a non-blank value adds the trimmed value to the
        category and empties the box; any other key, or Enter on a blank value, changes
        nothing. */
    method OnKeyDown(key: string, d: ResumeData, categoryId: string) returns (r: ResumeData)
      modifies this
      ensures key == "Enter" && !IsBlank(old(value)) ==> r == AddSkill(d, categoryId, Trim(old(value))) && value == ""
      ensures !(key == "Enter" && !IsBlank(old(value))) ==> r == d && value == old(value)
    {
      r := d;
      if key == "Enter" && !IsBlank(value) {
        r := AddSkill(d, categoryId, Trim(value));
        value := "";
      }
    }
  }

  /** What the handler adds is the trimmed input: trimming it once more changes nothing, so
      the category gains exactly `Trim(input)`. */
  lemma EnterAddsTrimmed(d: ResumeData, categoryId: string, input: string, i: nat)
    requires !IsBlank(input) && i < |d.skillCategories| && d.skillCategories[i].id == categoryId
    ensures AddSkill(d, categoryId, Trim(input)).skillCategories[i].skills == d.skillCategories[i].skills + [Trim(input)]
  {
    TrimIdempotent(input);
  }
}

/** The custom-section cards. */
module CustomSections {
  import opened Text
  import opened Seqs
  import opened Wrappers
  import opened Schema

  const TitleRequired := "Section title is required."

  datatype SectionErrors = SectionErrors(title: string)

  function EntryErrors(s: CustomSection): SectionErrors
  {
    SectionErrors(if IsBlank(s.title) then TitleRequired else "")
  }

  /** The `errors` memo: one record per section, in order; a message exactly for a blank
      title. The content is never checked. */
  function Errors(ss: seq<CustomSection>): (r: seq<SectionErrors>)
    ensures |r| == |ss|
    ensures forall i :: 0 <= i < |ss| ==>
              (r[i].title != "" <==> IsBlank(ss[i].title)) && r[i].title in {"", TitleRequired}
    ensures forall i :: 0 <= i < |ss| ==> r[i] == EntryErrors(ss[i].(content := None))
  {
    Map(ss, EntryErrors)
  }
}
