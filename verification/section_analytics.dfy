/** The form's per-section analytics: for the summary, the work descriptions, the education
    lines and the skills, the word and character counts, the share of job-description
    keywords present, the readability inputs and an ATS rating, together with the whole-word
    frequency of every keyword. Also the `counts` helper that prepares a text for the
    reading-ease library. */
module SectionAnalytics {
  import opened Wrappers
  import opened Seqs
  import opened Text
  import opened Schema
  import opened Analytics

  // ------------------------------------------------------------------- counts

  /** Length of the run of `.`, `!`, `?` at the start of `s`. */
  function TerminatorRun(s: string): (n: nat)
    ensures n <= |s|
    ensures forall i :: 0 <= i < n ==> IsTerminator(s[i])
    ensures n < |s| ==> !IsTerminator(s[n])
  {
    if s == [] || !IsTerminator(s[0]) then 0 else 1 + TerminatorRun(s[1..])
  }

  /** `(text.match(/[.!?]+/g) || []).length`: the number of maximal runs of terminators. */
  function TerminatorRuns(s: string): (n: nat)
    ensures n <= |s|
    decreases |s|
  {
    if s == [] then 0
    else if !IsTerminator(s[0]) then TerminatorRuns(s[1..])
    else 1 + TerminatorRuns(s[TerminatorRun(s)..])
  }

  /** There is a run exactly when there is a terminator. */
  lemma {:induction false} TerminatorRunsPositive(s: string)
    ensures TerminatorRuns(s) > 0 <==> exists i :: 0 <= i < |s| && IsTerminator(s[i])
    decreases |s|
  {
    if s != [] && !IsTerminator(s[0]) {
      TerminatorRunsPositive(s[1..]);
      if exists i :: 0 <= i < |s| && IsTerminator(s[i]) {
        var i :| 0 <= i < |s| && IsTerminator(s[i]);
        assert s[1..][i - 1] == s[i];
      }
      if exists i :: 0 <= i < |s[1..]| && IsTerminator(s[1..][i]) {
        var i :| 0 <= i < |s[1..]| && IsTerminator(s[1..][i]);
        assert s[i + 1] == s[1..][i];
      }
    }
  }

  /** Leading characters other than terminators do not start a run. */
  lemma {:induction false} RunsSkipPlain(s: string, j: nat)
    requires j <= |s| && forall i :: 0 <= i < j ==> !IsTerminator(s[i])
    ensures TerminatorRuns(s) == TerminatorRuns(s[j..])
  {
    if j > 0 {
      assert s[1..][j - 1..] == s[j..];
      RunsSkipPlain(s[1..], j - 1);
    }
  }

  /** Leading terminators start no sentence. */
  lemma {:induction false} SentencesSkipTerminators(s: string, j: nat)
    requires j <= |s| && forall i :: 0 <= i < j ==> IsTerminator(s[i])
    ensures Sentences(s) == Sentences(s[j..])
  {
    if j > 0 {
      assert s[1..][j - 1..] == s[j..];
      SentencesSkipTerminators(s[1..], j - 1);
    }
  }

  /** Every `[^.!?]+[.!?]` sentence ends inside its own run of terminators, so the counter
      used here never sees fewer sentences than the reading-ease counter of the analytics. */
  lemma {:induction false} SentencesAtMostRuns(s: string)
    ensures |Sentences(s)| <= TerminatorRuns(s)
    decreases |s|
  {
    if s != [] {
      if IsTerminator(s[0]) {
        var k := TerminatorRun(s);
        SentencesSkipTerminators(s, k);
        SentencesAtMostRuns(s[k..]);
      } else {
        var n := PlainRun(s);
        if n < |s| {
          RunsSkipPlain(s, n);
          var t := s[n..];
          var k := TerminatorRun(t);
          assert t[k..] == s[n + k..];
          assert t[1..] == s[n + 1..];
          SentencesSkipTerminators(t[1..], k - 1);
          assert t[1..][k - 1..] == s[n + k..];
          SentencesAtMostRuns(s[n + k..]);
        }
      }
    }
  }

  /** Syllables of one word in `counts`: the same suffix and "y" stripping and the same
      vowel-group count as `countSyllables`, at least one, but without the shortcut for
      words of up to three characters. */
  function RoughSyllables(word: string): (n: nat)
    ensures n >= 1
    ensures var g := VowelGroups(StripLeadingY(StripSuffix(Lower(word))));
            g > 0 ==> n == g
  {
    var g := VowelGroups(StripLeadingY(StripSuffix(Lower(word))));
    if g == 0 then 1 else g
  }

  /** On words longer than three characters the two syllable counters agree. */
  lemma RoughAgreesWithSyllables(word: string)
    requires |word| > 3
    ensures RoughSyllables(word) == Syllables(word)
  {
  }

  /** "eye" has one syllable by `countSyllables` (it is short) and two by `counts`. */
  lemma RoughSyllablesEye(w: string)
    requires w == "eye"
    ensures Syllables(w) == 1 && RoughSyllables(w) == 2
  {
    assert Lower(w) == w;
    assert StripSuffix(w) == w;
    assert StripLeadingY(w) == w;
    assert w[2..][1..] == [];
    assert VowelGroups(w[2..]) == 1;
  }

  /** `words.reduce((sum, word) => sum + syllables(word), 0)` */
  function RoughTotal(words: seq<string>): (n: nat)
    ensures n >= |words|
  {
    if words == [] then 0 else RoughSyllables(words[0]) + RoughTotal(words[1..])
  }

  datatype Counts = Counts(sentences: nat, words: nat, syllables: nat)

  /** `counts`: sentences as runs of terminators (at least one), words as `\w+` tokens. */
  function TextCounts(text: string): (r: Counts)
    ensures r.sentences == OrOne(TerminatorRuns(text)) >= 1
    ensures r.sentences >= |Sentences(text)|
    ensures r.words == |Tokens(text)|
    ensures r.syllables == RoughTotal(Tokens(text)) >= r.words
  {
    SentencesAtMostRuns(text);
    var words := Tokens(text);
    Counts(OrOne(TerminatorRuns(text)), |words|, RoughTotal(words))
  }

  // ------------------------------------------------------------ section rows

  datatype Section = Section(name: string, text: string)

  /** The four sections and their texts. */
  function SectionTexts(d: ResumeData): (r: seq<Section>)
    ensures |r| == 4
    ensures r[0].name == "Summary" && r[1].name == "Work Experience"
    ensures r[2].name == "Education" && r[3].name == "Skills"
    ensures r[0].text == d.personalInfo.summary.GetOr("")
  {
    [Section("Summary", SummaryText(d)),
     Section("Work Experience", WorkText(d)),
     Section("Education", Join(EducationLines(d), " ")),
     Section("Skills", Join(AllSkills(d.skillCategories), " "))]
  }

  /** `(jobDesc.match(/\b\w+\b/g) || []).map(k => k.toLowerCase())` */
  function KeywordList(jobDesc: string): (r: seq<string>)
    ensures |r| == |Tokens(jobDesc)|
    ensures forall i :: 0 <= i < |r| ==> r[i] == Lower(Tokens(jobDesc)[i])
  {
    var ts := Tokens(jobDesc);
    seq(|ts|, i requires 0 <= i < |ts| => Lower(ts[i]))
  }

  /** `[summary, work, education, skills].join(" ").toLowerCase()` */
  function AllSectionText(d: ResumeData): string
  {
    var s := SectionTexts(d);
    Lower(Join([s[0].text, s[1].text, s[2].text, s[3].text], " "))
  }

  /** `(t.match(new RegExp("\\b" + k + "\\b", "gi")) || []).length` for a keyword `k` made of
      word characters: a match bounded by non-word characters on both sides is exactly a
      maximal run of word characters equal to `k`, that is, a token of `t`. */
  function WholeWordCount(t: string, k: string): nat
  {
    Count(Tokens(t), k)
  }

  /** A keyword that occurs as a whole word also occurs as a substring, so a positive
      frequency means the keyword counts as present in that text. */
  lemma WholeWordCountPresent(t: string, k: string)
    ensures WholeWordCount(t, k) > 0 <==> k in Tokens(t)
    ensures WholeWordCount(t, k) > 0 ==> Contains(t, k)
  {
    CountPositive(Tokens(t), k);
    if k in Tokens(t) {
      TokenOccurs(t, k);
    }
  }

  /** The frequency record: one key per distinct keyword. */
  function FreqMap(keywords: seq<string>, allText: string): (m: map<string, nat>)
    ensures forall k :: k in m <==> k in keywords
  {
    map k | k in keywords :: WholeWordCount(allText, k)
  }

  /** A record with exactly the keywords as keys and their counts as values is `FreqMap`. */
  lemma FrequenciesAreFreqMap(freq: map<string, nat>, keywords: seq<string>, allText: string)
    requires forall k :: k in freq <==> k in keywords
    requires forall k :: k in freq ==> freq[k] == WholeWordCount(allText, k)
    ensures freq == FreqMap(keywords, allText)
  {
  }

  /** `keywordList.forEach(k => { keywordFreq[k] = ... })` */
  method KeywordFrequencies(keywords: seq<string>, allText: string) returns (freq: map<string, nat>)
    ensures forall k :: k in freq <==> k in keywords
    ensures forall k :: k in freq ==> freq[k] == WholeWordCount(allText, k)
  {
    freq := map[];
    var i := 0;
    while i < |keywords|
      invariant 0 <= i <= |keywords|
      invariant forall k :: k in freq <==> k in keywords[..i]
      invariant forall k :: k in freq ==> freq[k] == WholeWordCount(allText, k)
    {
      var k := keywords[i];
      freq := freq[k := WholeWordCount(allText, k)];
      assert keywords[..i + 1] == keywords[..i] + [k];
      i := i + 1;
    }
    assert keywords[..i] == keywords;
  }

  datatype Ats = Low | High

  /** `getATSCompatibility`: "Low" for a text mentioning tables, columns, images or fonts
      in any letter case, or shorter than 100 characters; "High" otherwise. */
  function AtsCompatibility(text: string): (r: Ats)
    ensures r == High <==>
              && |text| >= 100
              && !ContainsIgnoreCase(text, "table") && !ContainsIgnoreCase(text, "column")
              && !ContainsIgnoreCase(text, "image") && !ContainsIgnoreCase(text, "font")
  {
    if ContainsIgnoreCase(text, "table") || ContainsIgnoreCase(text, "column")
       || ContainsIgnoreCase(text, "image") || ContainsIgnoreCase(text, "font") then Low
    else if |text| < 100 then Low
    else High
  }

  /** `keywordList.filter(k => text.toLowerCase().includes(k))` */
  function PresentKeywords(keywords: seq<string>, text: string): (r: seq<string>)
    ensures |r| <= |keywords|
    ensures forall k :: k in r <==> k in keywords && Contains(Lower(text), k)
    ensures IsSubsequence(r, keywords)
  {
    Filter(keywords, (k: string) => Contains(Lower(text), k))
  }

  /** `keywordList.length ? Math.round(present / keywordList.length * 100) : 0` */
  function Coverage(keywords: seq<string>, text: string): (r: int)
    ensures 0 <= r <= 100
    ensures keywords == [] ==> r == 0
    ensures keywords != [] && PresentKeywords(keywords, text) == [] ==> r == 0
    ensures keywords != [] && |PresentKeywords(keywords, text)| == |keywords| ==> r == 100
  {
    var present := PresentKeywords(keywords, text);
    if |keywords| > 0 then
      RoundPercentRange(|present|, |keywords|);
      RoundPercent(|present|, |keywords|)
    else 0
  }

  /** The readability cell: "-" (`None`) for a blank text, otherwise the counts handed to
      the reading-ease library. */
  function ReadabilityInput(text: string): (r: Option<Counts>)
    ensures r.None? <==> IsBlank(text)
    ensures r.Some? ==> r.value.sentences >= 1 && r.value.syllables >= r.value.words
  {
    if IsBlank(text) then None else Some(TextCounts(text))
  }

  datatype SectionRow = SectionRow(
    name: string, text: string, wordCount: nat, charCount: nat, keywordCoverage: int,
    readability: Option<Counts>, ats: Ats, keywordFreq: map<string, nat>)

  /** One row of `sectionAnalytics`. */
  function RowOf(s: Section, keywords: seq<string>, freq: map<string, nat>): (r: SectionRow)
    ensures r.name == s.name && r.text == s.text && r.keywordFreq == freq
    ensures r.wordCount == |Fields(s.text)| && r.charCount == |s.text|
    ensures 0 <= r.keywordCoverage <= 100
    ensures keywords == [] ==> r.keywordCoverage == 0
  {
    SectionRow(s.name, s.text, |Fields(s.text)|, |s.text|, Coverage(keywords, s.text),
               ReadabilityInput(s.text), AtsCompatibility(s.text), freq)
  }

  /** `sections.map(...)`: one row per section, in order, all sharing the frequency record. */
  function Rows(sections: seq<Section>, keywords: seq<string>, freq: map<string, nat>): (rows: seq<SectionRow>)
    ensures |rows| == |sections|
    ensures forall i :: 0 <= i < |rows| ==>
              rows[i].name == sections[i].name && rows[i].text == sections[i].text && rows[i].keywordFreq == freq
    ensures forall i :: 0 <= i < |rows| ==> rows[i].wordCount == |Fields(sections[i].text)| && rows[i].charCount == |sections[i].text|
    ensures forall i :: 0 <= i < |rows| ==> 0 <= rows[i].keywordCoverage <= 100
    ensures keywords == [] ==> forall i :: 0 <= i < |rows| ==> rows[i].keywordCoverage == 0
  {
    seq(|sections|, i requires 0 <= i < |sections| => RowOf(sections[i], keywords, freq))
  }

  /** `sectionAnalytics`: the frequency record is filled by a loop, then every section is
      mapped to its row, in the order summary, work, education, skills. */
  method SectionAnalyticsOf(d: ResumeData, jobDesc: string) returns (rows: seq<SectionRow>)
    ensures |rows| == 4
    ensures rows == Rows(SectionTexts(d), KeywordList(jobDesc), FreqMap(KeywordList(jobDesc), AllSectionText(d)))
  {
    var sections := SectionTexts(d);
    var keywords := KeywordList(jobDesc);
    var allText := AllSectionText(d);
    var freq := KeywordFrequencies(keywords, allText);
    FrequenciesAreFreqMap(freq, keywords, allText);
    rows := Rows(sections, keywords, freq);
  }

  /** Every row's coverage is a percentage, zero for a job description without words, and
      every row carries the whole-word count of each keyword in the joined text. */
  lemma RowsProperties(sections: seq<Section>, jobDesc: string, allText: string)
    ensures var rows := Rows(sections, KeywordList(jobDesc), FreqMap(KeywordList(jobDesc), allText));
            && (forall i :: 0 <= i < |rows| ==> 0 <= rows[i].keywordCoverage <= 100)
            && (Tokens(jobDesc) == [] ==> forall i :: 0 <= i < |rows| ==> rows[i].keywordCoverage == 0)
            && (forall i, k :: 0 <= i < |rows| && k in KeywordList(jobDesc) ==>
                  k in rows[i].keywordFreq && rows[i].keywordFreq[k] == WholeWordCount(allText, k))
  {
    var keywords := KeywordList(jobDesc);
    var freq := FreqMap(keywords, allText);
    var rows := Rows(sections, keywords, freq);
    assert Tokens(jobDesc) == [] ==> keywords == [];
    forall i, k | 0 <= i < |rows| && k in keywords
      ensures k in rows[i].keywordFreq && rows[i].keywordFreq[k] == WholeWordCount(allText, k)
    {
      assert rows[i].keywordFreq == freq;
    }
  }
}
