/** `CoverLetterBuilder`: a letter from one of three templates around the résumé summary
    and the start of the job description, then handed to the editor. */
module CoverLetter {
  import opened Wrappers
  import opened Seqs
  import opened Text
  import opened ExportText

  datatype TemplateOption = TemplateOption(name: string, desc: string)

  /** `templates` */
  const Templates: seq<TemplateOption> := [
    TemplateOption("Standard", "A classic, professional tone."),
    TemplateOption("Creative", "Show personality and creativity."),
    TemplateOption("Technical", "Highlight technical skills and experience.")]

  /** `templates.find(t => t.label === template)?.desc` */
  function Description(options: seq<TemplateOption>, templateLabel: string): Option<string>
  {
    if options == [] then None
    else if options[0].name == templateLabel then Some(options[0].desc)
    else Description(options[1..], templateLabel)
  }

  /** The description shown is that of the first option with the selected label, and there
      is none exactly when no option has that label. */
  lemma {:induction false} DescriptionFound(options: seq<TemplateOption>, templateLabel: string)
    ensures Description(options, templateLabel).Some? <==> exists i :: 0 <= i < |options| && options[i].name == templateLabel
    ensures Description(options, templateLabel).Some? ==>
              exists i :: 0 <= i < |options| && options[i].name == templateLabel
                          && options[i].desc == Description(options, templateLabel).value
                          && forall j :: 0 <= j < i ==> options[j].name != templateLabel
  {
    if options != [] && options[0].name != templateLabel {
      DescriptionFound(options[1..], templateLabel);
      assert forall i :: 1 <= i < |options| ==> options[i] == options[1..][i - 1];
      if Description(options, templateLabel).Some? {
        var i :| 0 <= i < |options[1..]| && options[1..][i].name == templateLabel
                 && options[1..][i].desc == Description(options, templateLabel).value
                 && forall j :: 0 <= j < i ==> options[1..][j].name != templateLabel;
        assert forall j :: 0 <= j < i + 1 ==> options[j].name != templateLabel by {
          forall j | 0 <= j < i + 1 ensures options[j].name != templateLabel {
            if j > 0 { assert options[j] == options[1..][j - 1]; }
          }
        }
      }
      if exists i :: 0 <= i < |options| && options[i].name == templateLabel {
        var i :| 0 <= i < |options| && options[i].name == templateLabel;
        assert options[1..][i - 1].name == templateLabel;
      }
    }
  }

  /** Each of the three templates has its description. */
  lemma TemplateDescriptions()
    ensures Description(Templates, "Standard") == Some("A classic, professional tone.")
    ensures Description(Templates, "Technical") == Some("Highlight technical skills and experience.")
    ensures Description(Templates, "Modern") == None
  {
  }

  /** The letter kinds: "Creative", "Technical", and every other label. */
  datatype Kind = Standard | Creative | Technical

  function KindOf(templateLabel: string): Kind
  {
    if templateLabel == "Creative" then Creative else if templateLabel == "Technical" then Technical else Standard
  }

  /** The opening words after the greeting. */
  function Words(k: Kind): string
  {
    match k
    case Creative => "I'm thrilled to apply for this opportunity. My journey: "
    case Technical => "With a strong technical background ("
    case Standard => "I am excited to apply for this position. My background: "
  }

  /** The text before the summary: the greeting, then the opening words. */
  function Intro(k: Kind): string
  {
    Greeting(k) + Words(k)
  }

  /** The text after the summary, ending the first paragraph. */
  function AfterSummary(k: Kind): string
  {
    match k
    case Technical => "), I am confident in my ability to excel in this role.\n"
    case _ => ".\n"
  }

  /** The words that introduce the job description. */
  function Lead(k: Kind): string
  {
    match k
    case Creative => "What excites me about this role: "
    case Technical => "Key requirements that match my skills: "
    case Standard => "I am particularly drawn to this role because: "
  }

  function Closing(k: Kind): string
  {
    match k
    case Creative => "\nLooking forward to connecting!\n"
    case Technical => "\nThank you for your time.\n"
    case Standard => "\nThank you for your consideration.\n"
  }

  function Greeting(k: Kind): string
  {
    if k == Creative then "Hello!\n\n" else "Dear Hiring Manager,\n\n"
  }

  function Opening(k: Kind, summary: string): string
  {
    Intro(k) + summary + AfterSummary(k)
  }

  /** `${jobDescription.slice(0, 200)}...`, present only for a non-empty description. */
  function JobLine(k: Kind, jobDescription: string): string
  {
    if jobDescription != "" then Lead(k) + Take(jobDescription, 200) + "...\n" else ""
  }

  /** The letter `generateCoverLetter` builds for a template templateLabel. */
  function Letter(templateLabel: string, summary: string, jobDescription: string): string
  {
    var k := KindOf(templateLabel);
    Opening(k, summary) + JobLine(k, jobDescription) + Closing(k)
  }

  /** A Creative letter greets with "Hello!", the others with "Dear Hiring Manager,". */
  lemma LetterGreeting(templateLabel: string, summary: string, jobDescription: string)
    ensures StartsWith(Letter(templateLabel, summary, jobDescription), Greeting(KindOf(templateLabel)))
  {
    var k := KindOf(templateLabel);
    AtStart(Greeting(k), Words(k));
    AtPrefix(Intro(k), summary, 0, Greeting(k));
    AtPrefix(Intro(k) + summary, AfterSummary(k), 0, Greeting(k));
    AtPrefix(Opening(k, summary), JobLine(k, jobDescription), 0, Greeting(k));
    AtPrefix(Opening(k, summary) + JobLine(k, jobDescription), Closing(k), 0, Greeting(k));
    var letter := Letter(templateLabel, summary, jobDescription);
    assert letter[..|Greeting(k)|] == letter[0..|Greeting(k)|];
  }

  /** The summary follows the template's introduction verbatim. */
  lemma LetterSummary(templateLabel: string, summary: string, jobDescription: string)
    ensures At(Letter(templateLabel, summary, jobDescription), |Intro(KindOf(templateLabel))|, summary)
  {
    var k := KindOf(templateLabel);
    AtEnd(Intro(k), summary);
    AtPrefix(Intro(k) + summary, AfterSummary(k), |Intro(k)|, summary);
    AtPrefix(Opening(k, summary), JobLine(k, jobDescription), |Intro(k)|, summary);
    AtPrefix(Opening(k, summary) + JobLine(k, jobDescription), Closing(k), |Intro(k)|, summary);
  }

  /** The letter ends with the template's closing line. */
  lemma LetterClosing(templateLabel: string, summary: string, jobDescription: string)
    ensures var k := KindOf(templateLabel);
            var letter := Letter(templateLabel, summary, jobDescription);
            |Closing(k)| <= |letter| && At(letter, |letter| - |Closing(k)|, Closing(k))
  {
    var k := KindOf(templateLabel);
    var letter, c := Letter(templateLabel, summary, jobDescription), Closing(k);
    assert |c| <= |letter| && At(letter, |letter| - |c|, c) by {
      AtTail(Opening(k, summary) + JobLine(k, jobDescription), c, letter);
    }
  }

  /** The job-description line is there exactly when the description is non-empty; it holds
      the first 200 characters (all of a shorter description) and always ends in "...". */
  lemma LetterJobLine(templateLabel: string, summary: string, jobDescription: string)
    ensures var k := KindOf(templateLabel);
            jobDescription == "" ==> Letter(templateLabel, summary, jobDescription) == Opening(k, summary) + Closing(k)
    ensures var k := KindOf(templateLabel);
            jobDescription != "" ==>
              At(Letter(templateLabel, summary, jobDescription), |Opening(k, summary)|,
                 Lead(k) + jobDescription[..if |jobDescription| < 200 then |jobDescription| else 200] + "...\n")
  {
    var k := KindOf(templateLabel);
    if jobDescription == "" {
      assert JobLine(k, jobDescription) == "";
      assert Opening(k, summary) + "" == Opening(k, summary);
    } else {
      AtEnd(Opening(k, summary), JobLine(k, jobDescription));
      AtPrefix(Opening(k, summary) + JobLine(k, jobDescription), Closing(k), |Opening(k, summary)|, JobLine(k, jobDescription));
    }
  }

  /** Any templateLabel other than "Creative" and "Technical" gives the Standard letter. */
  lemma OtherLabelsAreStandard(templateLabel: string, summary: string, jobDescription: string)
    requires templateLabel != "Creative" && templateLabel != "Technical"
    ensures Letter(templateLabel, summary, jobDescription) == Letter("Standard", summary, jobDescription)
  {
  }

  /** The builder's state. */
  class CoverLetterBuilder {
    var template: string
    var coverLetter: string
    var editing: bool

    /** The first template is selected, the letter is empty and not being edited. */
    constructor()
      ensures template == Templates[0].name && template == "Standard"
      ensures coverLetter == "" && !editing
    {
      template := Templates[0].name;
      coverLetter := "";
      editing := false;
    }

    /** `setTemplate(e.target.value)` */
    method SelectTemplate(templateLabel: string)
      modifies this
      ensures template == templateLabel && coverLetter == old(coverLetter) && editing == old(editing)
    {
      template := templateLabel;
    }

    /** `generateCoverLetter`: the letter for the selected template replaces the editor's
        text, editing starts, and the same letter is passed to `onGenerate` (returned). */
    method GenerateCoverLetter(resumeSummary: string, jobDescription: string) returns (generated: string)
      modifies this
      ensures generated == Letter(template, resumeSummary, jobDescription)
      ensures coverLetter == generated && editing && template == old(template)
    {
      var kind := KindOf(template);
      var letter := Intro(kind) + resumeSummary + AfterSummary(kind);
      if jobDescription != "" {
        letter := letter + (Lead(kind) + Take(jobDescription, 200) + "...\n");
      } else {
        assert letter + JobLine(kind, jobDescription) == letter;
      }
      assert letter == Opening(kind, resumeSummary) + JobLine(kind, jobDescription);
      letter := letter + Closing(kind);
      coverLetter := letter;
      editing := true;
      generated := letter;
    }

    /** Typing in the editor. */
    method EditLetter(text: string)
      modifies this
      ensures coverLetter == text && template == old(template) && editing == old(editing)
    {
      coverLetter := text;
    }

    /** Focusing the editor. */
    method Focus()
      modifies this
      ensures editing && coverLetter == old(coverLetter) && template == old(template)
    {
      editing := true;
    }
  }
}
