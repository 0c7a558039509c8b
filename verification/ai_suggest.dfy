/** The offline helpers of `ai-suggest.ts`: the job-description keyword gap, the
    template summary and work bullets, and the clean-up applied to a bullet list
    returned as text. The OpenAI requests themselves are not part of this model. */
module AiSuggest {
  import opened Wrappers
  import opened Seqs
  import opened Text

  /** `{ missingKeywords, suggestions }` */
  datatype AnalyzeResult = AnalyzeResult(missingKeywords: seq<string>, suggestions: string)

  /** The fixed stopword set of `localAnalyzeJobDescription`, written as the union of
      the five lines of its literal. */
  const JobStopwords: set<string> := StopwordLine1 + StopwordLine2 + StopwordLine3 + StopwordLine4 + StopwordLine5

  const StopwordLine1: set<string> := {"the", "and", "a", "to", "of", "in", "for", "with", "on", "at"}
  const StopwordLine2: set<string> := {"by", "an", "be", "is", "are", "as", "from", "or", "that", "this"}
  const StopwordLine3: set<string> := {"it", "will", "can", "your", "you", "we", "our", "their", "they", "has"}
  const StopwordLine4: set<string> := {"have", "but", "if", "not", "all", "any", "so", "do", "does", "was"}
  const StopwordLine5: set<string> := {"were", "which", "who", "what", "when", "where", "how"}

  /** A token may be a keyword: not a stopword and longer than two characters. */
  predicate IsKeywordCandidate(w: string, stopwords: set<string>)
  {
    w !in stopwords && |w| > 2
  }

  /** The keywords of a job description: its lower-case tokens that may be keywords,
      each once, in order of first occurrence. */
  function Keywords(jobDescription: string, stopwords: set<string>): (r: seq<string>)
    ensures Distinct(r)
    ensures forall k :: k in r <==> k in Tokens(Lower(jobDescription)) && IsKeywordCandidate(k, stopwords)
    ensures |r| <= |Tokens(jobDescription)|
  {
    var candidates := Filter(Tokens(Lower(jobDescription)), w => IsKeywordCandidate(w, stopwords));
    TokensLowerLength(jobDescription);
    Dedupe(candidates)
  }

  const CoverPrefix: string := "Consider adding these keywords to your resume: "
  const AllCovered: string := "Your resume covers most keywords from the job description!"

  /** The suggestion sentence for a list of missing keywords. */
  function Suggestions(missing: seq<string>): (r: string)
    ensures r == AllCovered <==> missing == []
    ensures missing != [] ==> StartsWith(r, CoverPrefix) && r[|CoverPrefix|..] == Join(Take(missing, 5), ", ")
  {
    if missing != [] then
      var r := CoverPrefix + Join(Take(missing, 5), ", ");
      assert r[46] == CoverPrefix[46] == ' ' && AllCovered[46] == 'd';
      r
    else AllCovered
  }

  /** The keyword gap against a given stopword set: the keywords that do not occur in
      the lower-cased résumé text, in keyword order, and the matching suggestion. */
  function KeywordGap(jobDescription: string, resumeText: string, stopwords: set<string>): (r: AnalyzeResult)
    ensures forall k :: k in r.missingKeywords <==>
                        k in Keywords(jobDescription, stopwords) && !Contains(Lower(resumeText), k)
    ensures IsSubsequence(r.missingKeywords, Keywords(jobDescription, stopwords))
    ensures Distinct(r.missingKeywords)
    ensures r.suggestions == Suggestions(r.missingKeywords)
  {
    var resumeLower := Lower(resumeText);
    var keywords := Keywords(jobDescription, stopwords);
    var missing := Filter(keywords, k => !Contains(resumeLower, k));
    assert forall k :: k in missing <==> k in keywords && !Contains(resumeLower, k);
    AnalyzeResult(missing, Suggestions(missing))
  }

  /** `localAnalyzeJobDescription`: the keyword gap against the fixed stopword set, so
      that short words and stopwords are never reported. */
  function LocalAnalyzeJobDescription(jobDescription: string, resumeText: string): AnalyzeResult
  {
    KeywordGap(jobDescription, resumeText, JobStopwords)
  }

  /** Never more keywords are missing than the job description has tokens. */
  lemma MissingAtMostTokens(jobDescription: string, resumeText: string, stopwords: set<string>)
    ensures |KeywordGap(jobDescription, resumeText, stopwords).missingKeywords| <= |Tokens(jobDescription)|
  {
    var r := KeywordGap(jobDescription, resumeText, stopwords);
    SubsequenceLength(r.missingKeywords, Keywords(jobDescription, stopwords));
  }

  /** When every keyword occurs in the résumé text, nothing is missing. */
  lemma NothingMissing(jobDescription: string, resumeText: string, stopwords: set<string>)
    requires forall k :: k in Keywords(jobDescription, stopwords) ==> Contains(Lower(resumeText), k)
    ensures KeywordGap(jobDescription, resumeText, stopwords) == AnalyzeResult([], AllCovered)
  {
    var r := KeywordGap(jobDescription, resumeText, stopwords);
    NoMembers(r.missingKeywords);
  }

  /** Every keyword occurs in the job description it came from. */
  lemma KeywordsOccur(jobDescription: string, stopwords: set<string>)
    ensures forall k :: k in Keywords(jobDescription, stopwords) ==> Contains(Lower(jobDescription), k)
  {
    forall k | k in Keywords(jobDescription, stopwords) ensures Contains(Lower(jobDescription), k) {
      TokenOccurs(Lower(jobDescription), k);
    }
  }

  /** A job description checked against itself misses nothing. */
  lemma SelfCovered(jobDescription: string, stopwords: set<string>)
    ensures KeywordGap(jobDescription, jobDescription, stopwords) == AnalyzeResult([], AllCovered)
  {
    KeywordsOccur(jobDescription, stopwords);
    NothingMissing(jobDescription, jobDescription, stopwords);
  }

  /** Adding text to the résumé never makes a keyword missing. */
  lemma MoreTextMissesLess(jobDescription: string, resumeText: string, extra: string, stopwords: set<string>)
    ensures forall k :: k in KeywordGap(jobDescription, resumeText + extra, stopwords).missingKeywords ==>
                        k in KeywordGap(jobDescription, resumeText, stopwords).missingKeywords
  {
    LowerAppend(resumeText, extra);
    forall k | Contains(Lower(resumeText), k) ensures Contains(Lower(resumeText + extra), k) {
      ContainsAppend(Lower(resumeText), Lower(extra), k);
    }
  }

  /** "Looking for a Python developer with AWS experience" against a résumé that
      mentions python but not aws: aws is missing and python is not. */
  lemma PythonAwsExample(jobDescription: string, resumeText: string, stopwords: set<string>)
    requires jobDescription == "Looking for a Python developer with AWS experience"
    requires "aws" !in stopwords
    requires Contains(Lower(resumeText), "python") && !Contains(Lower(resumeText), "aws")
    ensures var r := KeywordGap(jobDescription, resumeText, stopwords);
            "aws" in r.missingKeywords && "python" !in r.missingKeywords
  {
    AwsIsToken(jobDescription);
  }

  lemma AwsIsToken(jobDescription: string)
    requires jobDescription == "Looking for a Python developer with AWS experience"
    ensures "aws" in Tokens(Lower(jobDescription))
  {
    var l := Lower(jobDescription);
    assert l[36..39] == "aws";
    assert !IsWordChar(l[35]) && !IsWordChar(l[39]);
    TokenAt(l, 36, 3);
  }

  /** With the fixed stopword set, "aws" can be a keyword while "for", "a" and "with"
      never are. */
  lemma FixedStopwords(jobDescription: string)
    ensures IsKeywordCandidate("aws", JobStopwords)
    ensures forall k :: k in Keywords(jobDescription, JobStopwords) ==> k != "for" && k != "a" && k != "with"
  {
    StopwordFacts();
  }

  lemma StopwordFacts()
    ensures "for" in JobStopwords && "a" in JobStopwords && "with" in JobStopwords
    ensures "aws" !in JobStopwords
  {
    AwsNotStopword();
  }

  lemma AwsNotStopword()
    ensures "aws" !in JobStopwords
  {
    assert "aws" !in StopwordLine1;
    assert "aws" !in StopwordLine2;
    assert "aws" !in StopwordLine3;
    assert "aws" !in StopwordLine4;
    assert "aws" !in StopwordLine5;
  }

  /** The named options `localSuggestSummary` reads; the résumé data, job description
      and tone it also receives are unused. */
  datatype SummaryHints = SummaryHints(
    name: Option<string>,
    title: Option<string>,
    yearsExperience: Option<int>,
    skills: Option<seq<string>>,
    industry: Option<string>)

  /** JavaScript truthiness of an optional string. */
  predicate Given(s: Option<string>)
  {
    s.Some? && s.value != ""
  }

  predicate Experienced(h: SummaryHints)
  {
    h.yearsExperience.Some? && h.yearsExperience.value > 0
  }

  predicate HasSkills(skills: Option<seq<string>>)
  {
    skills.Some? && skills.value != []
  }

  /** `title || 'professional'` */
  function TitleOrDefault(h: SummaryHints): string
  {
    if Given(h.title) then h.title.value else "professional"
  }

  /** The opening `${name} is `, when a name is given. */
  function NamePart(h: SummaryHints): string
  {
    if Given(h.name) then h.name.value + " is " else ""
  }

  /** The part of the sentence that says how experienced the person is, as
      `localSuggestSummary` picks it. */
  function ExperiencePart(h: SummaryHints): (r: string)
    ensures Experienced(h) ==> StartsWith(r, "an experienced ")
    ensures !Experienced(h) ==> StartsWith(r, "a ")
  {
    if Experienced(h)
    then "an experienced " + TitleOrDefault(h) + " with over " + IntToString(h.yearsExperience.value) + " years in"
    else "a " + TitleOrDefault(h) + " in"
  }

  /** The sentence `localSuggestSummary` assembles before white space is normalised:
      the name part, the experience part, the industry part, the skills part and a
      full stop, in that order. */
  function SummaryDraft(h: SummaryHints): string
  {
    var withName := NamePart(h);
    var withExperience := withName + ExperiencePart(h);
    var withIndustry :=
      if Given(h.industry) then withExperience + " the " + h.industry.value + " industry" else withExperience;
    var withSkills :=
      if HasSkills(h.skills) then withIndustry + ", skilled in " + Join(Take(h.skills.value, 5), ", ") else withIndustry;
    withSkills + "."
  }

  /** `localSuggestSummary`: appends the parts one by one, then collapses white space
      and trims. */
  method LocalSuggestSummary(h: SummaryHints) returns (summary: string)
    ensures summary == Normalize(SummaryDraft(h))
  {
    summary := "";
    if Given(h.name) {
      summary := summary + h.name.value + " is ";
      assert summary == NamePart(h) by { assert "" + h.name.value == h.name.value; }
    }
    if Experienced(h) {
      summary := summary + ("an experienced " + TitleOrDefault(h) + " with over "
                 + IntToString(h.yearsExperience.value) + " years in");
    } else {
      summary := summary + ("a " + TitleOrDefault(h) + " in");
    }
    if Given(h.industry) {
      summary := summary + " the " + h.industry.value + " industry";
    }
    if HasSkills(h.skills) {
      summary := summary + ", skilled in " + Join(Take(h.skills.value, 5), ", ");
    }
    summary := summary + ".";
    summary := Normalize(summary);
  }

  /** The summary is single-spaced, has no white space at either end, ends with a full
      stop and has exactly the words of the assembled sentence. */
  lemma SummaryShape(h: SummaryHints)
    ensures var r := Normalize(SummaryDraft(h));
            SingleSpaced(r) && r != [] && !IsSpace(r[0]) && EndsWith(r, ".") &&
            Fields(r) == Fields(SummaryDraft(h))
  {
    var d := SummaryDraft(h);
    DraftEndsWithStop(h);
    NormalizeProperties(d);
    NormalizeLast(d);
  }

  lemma DraftEndsWithStop(h: SummaryHints)
    ensures SummaryDraft(h) != [] && SummaryDraft(h)[|SummaryDraft(h)| - 1] == '.'
  {
  }

  /** The sentence opens with the name part and then the experience part. */
  lemma DraftOpening(h: SummaryHints)
    ensures StartsWith(SummaryDraft(h), NamePart(h) + ExperiencePart(h))
  {
    var n, e := NamePart(h), ExperiencePart(h);
    var withIndustry := if Given(h.industry) then n + e + " the " + h.industry.value + " industry" else n + e;
    var withSkills :=
      if HasSkills(h.skills) then withIndustry + ", skilled in " + Join(Take(h.skills.value, 5), ", ") else withIndustry;
    assert SummaryDraft(h) == withSkills + ".";
    assert withIndustry[..|n + e|] == n + e;
    assert withSkills[..|n + e|] == n + e;
  }

  /** Right after the name, the sentence says "an experienced" exactly when a positive
      number of years is given, and "a" otherwise. */
  lemma SummaryOpening(h: SummaryHints)
    ensures var rest := SummaryDraft(h)[|NamePart(h)|..];
            (Experienced(h) <==> StartsWith(rest, "an experienced ")) &&
            (!Experienced(h) <==> StartsWith(rest, "a "))
  {
    DraftOpening(h);
    var n, e := NamePart(h), ExperiencePart(h);
    var rest := SummaryDraft(h)[|n|..];
    assert rest[..|e|] == e;
    OpeningWords(e, rest, Experienced(h));
  }

  /** "an experienced " and "a " differ in their second letter, so a text that opens
      with one does not open with the other. */
  lemma OpeningWords(e: string, rest: string, experienced: bool)
    requires StartsWith(rest, e)
    requires experienced ==> StartsWith(e, "an experienced ")
    requires !experienced ==> StartsWith(e, "a ")
    ensures experienced <==> StartsWith(rest, "an experienced ")
    ensures !experienced <==> StartsWith(rest, "a ")
  {
    assert rest[1] == e[1];
    assert "an experienced "[1] == 'n' && "a "[1] == ' ';
  }

  /** Only the first five skills can appear in the summary. */
  lemma SummaryNamesAtMostFiveSkills(h: SummaryHints)
    requires h.skills.Some?
    ensures SummaryDraft(h) == SummaryDraft(h.(skills := Some(Take(h.skills.value, 5))))
  {
    var s := h.skills.value;
    assert Take(Take(s, 5), 5) == Take(s, 5);
    assert s != [] <==> Take(s, 5) != [];
  }

  /** The named options `localSuggestWorkBullets` reads. */
  datatype BulletHints = BulletHints(role: Option<string>, industry: Option<string>, skills: Option<seq<string>>)

  const ClosingBullet: string := "Consistently delivered results in fast-paced, collaborative environments."

  function RoleBullet(role: string, industry: string): string
  {
    "Demonstrated expertise as a " + role + " in the " + industry + " sector."
  }

  function SkillsBullet(skills: seq<string>): string
  {
    "Utilized skills such as " + Join(Take(skills, 3), ", ") + " to achieve key objectives."
  }

  /** `localSuggestWorkBullets`: pushes the role bullet, the skills bullet and the
      closing bullet in turn. */
  method LocalSuggestWorkBullets(h: BulletHints) returns (bullets: seq<string>)
    ensures 1 <= |bullets| <= 3
    ensures bullets[|bullets| - 1] == ClosingBullet
    ensures |bullets| == 1 + (if Given(h.role) && Given(h.industry) then 1 else 0) + (if HasSkills(h.skills) then 1 else 0)
    ensures Given(h.role) && Given(h.industry) <==> bullets[0] == RoleBullet(h.role.GetOr(""), h.industry.GetOr(""))
    ensures HasSkills(h.skills) <==> SkillsBullet(h.skills.GetOr([])) in bullets
  {
    bullets := [];
    if Given(h.role) && Given(h.industry) {
      bullets := bullets + [RoleBullet(h.role.value, h.industry.value)];
    }
    if HasSkills(h.skills) {
      bullets := bullets + [SkillsBullet(h.skills.value)];
    }
    bullets := bullets + [ClosingBullet];
    var role, skills := RoleBullet(h.role.GetOr(""), h.industry.GetOr("")), SkillsBullet(h.skills.GetOr([]));
    assert role[0] == 'D' && skills[0] == 'U';
    assert role[|role| - 2] == 'r' && ClosingBullet[|ClosingBullet| - 2] == 's';
    assert skills[|skills| - 3] == 'e' && ClosingBullet[|ClosingBullet| - 3] == 't';
  }

  /** `[-*•]`, the bullet markers. */
  predicate IsMarker(c: char)
  {
    c == '-' || c == '*' || c == '•'
  }

  /** Drops one leading `-`, `*` or `•` together with the white space after it, then
      trims the line. */
  function CleanLine(l: string): (r: string)
    ensures IsTrimmed(r)
    ensures l != [] && IsMarker(l[0]) ==> r == Trim(l[1..])
    ensures l == [] || !IsMarker(l[0]) ==> r == Trim(l)
  {
    if l != [] && IsMarker(l[0]) then
      TrimSkipsSpace(l[1..], SpaceRun(l[1..]));
      Trim(l[1 + SpaceRun(l[1..])..])
    else Trim(l)
  }

  /** The post-processing of a bullet list returned as text: split at line breaks,
      drop one leading marker and trim each line, keep the non-empty lines. */
  function CleanBulletLines(text: string): (r: seq<string>)
    ensures |r| <= LineBreaks(text) + 1
    ensures forall b :: b in r ==> b != [] && IsTrimmed(b)
    ensures forall l :: l in Lines(text) && CleanLine(l) != [] ==> CleanLine(l) in r
    ensures IsSubsequence(r, Map(Lines(text), CleanLine))
  {
    LinesLength(text);
    MapMembers(Lines(text), CleanLine);
    Filter(Map(Lines(text), CleanLine), Kept)
  }

  /** `filter(Boolean)` on strings: the non-empty ones are kept. */
  predicate Kept(b: string)
  {
    b != []
  }

  /** Each bullet is a cleaned line of the text. */
  lemma CleanBulletLinesFromLines(text: string)
    ensures forall b :: b in CleanBulletLines(text) ==> exists l :: l in Lines(text) && CleanLine(l) == b
  {
    MapMembers(Lines(text), CleanLine);
  }

  /** Each non-empty cleaned line is a bullet exactly as often as it occurs among the lines. */
  lemma CleanBulletLinesCount(text: string, b: string)
    requires b != []
    ensures Count(CleanBulletLines(text), b) == Count(Map(Lines(text), CleanLine), b)
  {
    FilterCount(Map(Lines(text), CleanLine), Kept, b);
  }
}
