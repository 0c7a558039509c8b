# Resume Builder: a verified model of its offline logic

This project models, in Dafny, the deterministic core of the Resume Builder web
application (a React/TypeScript résumé editor). It covers these parts:

- the local text analytics of the résumé form (word statistics, the most frequent words,
  spelling errors, passive sentences, sentence lengths, bullet lines, clichés, syllables
  and the Flesch reading ease, completeness and keyword density);
- the job-description keyword gap and the local summary and bullet suggestions;
- the list-editing operations of the form (add, update, remove and move entries; skills;
  custom sections and the section order) and the per-section analytics;
- the résumé hook: progress score, shallow merge of updates, auto-save guard;
- the field validators of the five form sections, with their move buttons and the Enter
  key of the skill input;
- the keyword highlighter, which cuts a text into plain and marked segments;
- the Markdown, LinkedIn and cover-letter generators;
- the browser-local version store, with `localStorage` as a map from keys to stored values;
- the zod schema of a résumé, as datatypes with validity predicates;
- two small UI state machines: the zoom of the live preview and the application tracker.

Module layout: one file per source file or concern. `wrappers.dfy` (Option), `seqs.dfy`
(filter, dedupe, stable sort, subsequences) and `text.dfy` (the regular expressions the
source uses, on ASCII) are shared. Code that changes state in the source is modelled
imperatively:

- classes whose methods update fields: `ResumeStorage.LocalStore`,
  `CoverLetter.CoverLetterBuilder`, `ResumePreview.Zoom`, `ApplicationTracker.Tracker`,
  `SkillsSection.SkillInput`;
- methods with loops where the source loops: the highlighter, the generators, the word
  count, the keyword frequencies.

Each such method is proved equal to a specification function, and the properties are
proved about that function.

Conventions:

- `\w` is `[A-Za-z0-9_]` and `toLowerCase` folds only `A`-`Z`, as JavaScript regular
  expressions without the `u` flag do for these patterns.
- An optional field is `Option`; an absent description prints as "undefined", as a
  template literal does.
- A percentage `Math.round((a / b) * 100)` is modelled on exact rationals: the
  nearest integer to `100a / b`, halves rounded up, which is `(200a + b) / (2b)`. The
  source rounds the double-precision product, which lands just below an exact half for
  some inputs (see `Analytics.RoundPercentNearest` under "Left out").

## Model

| member | source | states |
|---|---|---|
| Text.Lower | client/src/components/forms/ResumeForm/analyticsUtils.ts:12 | lower-casing keeps the length and lower-cases each character on its own, leaving no upper-case ASCII letter |
| Text.Tokens | client/src/components/forms/ResumeForm/analyticsUtils.ts:12 | every match of `\b\w+\b` is a non-empty run of word characters |
| Text.TokenOccurs | client/src/components/forms/ResumeForm/analyticsUtils.ts:12 | every token occurs in the text it came from |
| Text.TokensLowerLength | client/src/components/forms/ResumeForm/analyticsUtils.ts:12 | lower-casing a text does not change how many tokens it has |
| Text.Sentences | client/src/components/forms/ResumeForm/analyticsUtils.ts:41 | each match of `[^.!?]+[.!?]` has at least one non-terminator and ends in its only terminator |
| Text.Fields | client/src/components/forms/ResumeForm/analyticsUtils.ts:126 | `split(/\s+/).filter(Boolean)` yields non-empty pieces without white space |
| Text.Lines | client/src/components/forms/ResumeForm/analyticsUtils.ts:65 | `split(/\n\|\r/)` always yields at least one line |
| Text.LinesLength | client/src/components/forms/ResumeForm/analyticsUtils.ts:65 | the number of lines is the number of line breaks plus one |
| Text.LinesJoin | client/src/components/forms/ResumeForm/analyticsUtils.ts:65 | splitting lines joined by "\n" gives the lines back |
| Text.Trim | client/src/components/forms/ResumeForm/PersonalInfoSection.tsx:37 | `trim` leaves no white space at either end |
| Text.BlankIffTrimEmpty | client/src/components/forms/ResumeForm/PersonalInfoSection.tsx:37 | `!s.trim()` holds exactly when every character of `s` is white space |
| Text.TrimIdempotent | client/src/components/forms/ResumeForm/SkillsSection.tsx:143-144 | trimming twice is trimming once |
| Text.NormalizeProperties | client/src/lib/ai-suggest.ts:22 | `replace(/\s+/g, ' ').trim()` leaves single spaces only, none at the ends, and the same words |
| Schema.ParseWorkExperience | shared/schema.ts:28-37 | a work entry parses iff title, company and start date are non-empty; the result is valid, carries every given field unchanged and `current` defaults to false |
| Schema.ParseSkillCategory | shared/schema.ts:52-56 | a category parses iff its name is non-empty; id and name are kept, given skills are kept and absent skills default to [] |
| Schema.ParseAll | shared/schema.ts:61-63 | an array parses iff every element parses; the result has one parsed element per input |
| Schema.ParseResumeData | shared/schema.ts:59-64 | a record parses iff its personal info and every entry are valid; the result keeps the personal info, each list is the element-wise parse of the given list (absent arrays default to []), and it has no custom sections and no section order |
| Analytics.ContentWords | client/src/components/forms/ResumeForm/analyticsUtils.ts:12-13 | the non-stopword lower-case tokens, in order: exactly the tokens that are not stopwords |
| Analytics.ContentWordsCount | client/src/components/forms/ResumeForm/analyticsUtils.ts:13 | dropping stopwords keeps every occurrence of every other word |
| Analytics.UniqueWordStats | client/src/components/forms/ResumeForm/analyticsUtils.ts:11-19 | the unique count is the number of distinct non-stopword tokens, at most the number of tokens; richness is unique/all tokens (0 without tokens), between 0 and 1 |
| Analytics.CountWords | client/src/components/forms/ResumeForm/analyticsUtils.ts:25-26 | the `forEach` leaves one key per distinct word, in first-occurrence order, each mapped to its number of occurrences |
| Analytics.CountStep | client/src/components/forms/ResumeForm/analyticsUtils.ts:26 | one increment keeps the record in step with the words counted so far |
| Analytics.EntryOrder | client/src/components/forms/ResumeForm/analyticsUtils.ts:27 | `Object.entries` lists the same keys, array-index keys before all others and in ascending numeric order |
| Analytics.MostCommonWords | client/src/components/forms/ResumeForm/analyticsUtils.ts:22-31 | the method's table equals the record's entries stably sorted by descending count and cut to `topN` |
| Analytics.SortedEntries | client/src/components/forms/ResumeForm/analyticsUtils.ts:27-28 | the sorted entries are exactly the distinct words with their counts, each word once |
| Analytics.MostCommonOrdered | client/src/components/forms/ResumeForm/analyticsUtils.ts:27-29 | at most `topN` entries, counts non-increasing, no word twice |
| Analytics.MostCommonCounts | client/src/components/forms/ResumeForm/analyticsUtils.ts:26-30 | each entry is a word of the input with its exact, positive count |
| Analytics.MostCommonComplete | client/src/components/forms/ResumeForm/analyticsUtils.ts:28-29 | a word left out of the table is left out only when the table is full, and occurs no more often than any listed word |
| Analytics.MostCommonWordsProperties | client/src/components/forms/ResumeForm/analyticsUtils.ts:22-31 | no stopword is listed, and each count is the word's number of occurrences among the tokens of the text |
| Analytics.SpellingErrors | client/src/components/forms/ResumeForm/analyticsUtils.ts:34-37 | exactly the tokens in neither word list, as a subsequence of the tokens |
| Analytics.SpellingErrorsCount | client/src/components/forms/ResumeForm/analyticsUtils.ts:36 | every occurrence of an unknown word is reported and duplicates are kept |
| Analytics.PassiveVoiceSentences | client/src/components/forms/ResumeForm/analyticsUtils.ts:40-44 | exactly the sentences containing the passive pattern, as a subsequence of the sentences |
| Analytics.PassiveExample | client/src/components/forms/ResumeForm/analyticsUtils.ts:40-44 | "The report was completed." yields itself as its only passive sentence |
| Analytics.MinOf | client/src/components/forms/ResumeForm/analyticsUtils.ts:51 | `Math.min(...xs)` is the least element, and `Infinity` (None) only for no elements |
| Analytics.MaxOf | client/src/components/forms/ResumeForm/analyticsUtils.ts:52 | `Math.max(...xs)` is the greatest element, and `-Infinity` (None) only for no elements |
| Analytics.SentenceLengthStats | client/src/components/forms/ResumeForm/analyticsUtils.ts:47-56 | one word count per sentence, min and max of those counts (absent without sentences), the average as sum over count |
| Analytics.AverageBetween | client/src/components/forms/ResumeForm/analyticsUtils.ts:53 | the average sentence length lies between the shortest and the longest |
| Analytics.ReadingTime | client/src/components/forms/ResumeForm/analyticsUtils.ts:59-61 | reading time times 200 is the word count |
| Analytics.RoundPercentNearest | client/src/components/forms/ResumeForm/analyticsUtils.ts:70 | the integer formula is within one half of 100a/b, halves rounded up, as `Math.round` |
| Analytics.RoundPercentRange | client/src/components/forms/ResumeForm/analyticsUtils.ts:70 | a share of a whole rounds to 0..100, 0 for none and 100 for all |
| Analytics.BulletPointStats | client/src/components/forms/ResumeForm/analyticsUtils.ts:64-72 | total lines is line breaks plus one, bullets are the lines starting with a marker and at most the total, the percentage is in 0..100 |
| Analytics.BulletStatsOfLines | client/src/components/forms/ResumeForm/analyticsUtils.ts:64-72 | for text joined from lines without breaks, the total is the number of lines and the bullets are the marker lines |
| Analytics.BulletLinesFirst | client/src/components/forms/ResumeForm/analyticsUtils.ts:64-72 | bullet lines followed by plain lines are counted as exactly those bullet lines |
| Analytics.BulletExample | client/src/components/forms/ResumeForm/analyticsUtils.ts:64-72 | three bullet lines among ten give 3, 10 and 30 |
| Analytics.ClichesIn | client/src/components/forms/ResumeForm/analyticsUtils.ts:75-81 | exactly the listed phrases the text contains ignoring case, in list order, at most 13 |
| Analytics.ClicheExample | client/src/components/forms/ResumeForm/analyticsUtils.ts:79 | a text that is "team player" in any capitalisation is reported as "team player" |
| Analytics.Syllables | client/src/components/forms/ResumeForm/analyticsUtils.ts:93-100 | at least one syllable, exactly one for words of three characters or fewer |
| Analytics.VowelGroupsByRuns | client/src/components/forms/ResumeForm/analyticsUtils.ts:98-99 | the greedy `[aeiouy]{1,2}` count is the sum over maximal vowel runs of half the run rounded up |
| Analytics.SyllablesByRuns | client/src/components/forms/ResumeForm/analyticsUtils.ts:94-99 | a longer word's syllables are the run-based count after stripping the suffix and a leading "y", or 1 when that count is 0 |
| Analytics.SyllablesReading | client/src/components/forms/ResumeForm/analyticsUtils.ts:93-100 | "reading" has two syllables |
| Analytics.SyllablesMakes | client/src/components/forms/ResumeForm/analyticsUtils.ts:96 | "makes" loses "kes" and has one syllable |
| Analytics.TotalSyllables | client/src/components/forms/ResumeForm/analyticsUtils.ts:87 | a list of words has at least one syllable per word |
| Analytics.FleschReadingEase | client/src/components/forms/ResumeForm/analyticsUtils.ts:84-92 | both divisors are floored at 1, so the score is defined; it is at most 206.835, and at most 122.235 for a text with words |
| Analytics.FleschBound | client/src/components/forms/ResumeForm/analyticsUtils.ts:88-91 | with at least one syllable per word the formula is bounded as above |
| Analytics.AllSkills | client/src/components/forms/ResumeForm/analyticsUtils.ts:108 | `flatMap` yields exactly the skills of all categories |
| Analytics.SectionReadabilityLocal | client/src/components/forms/ResumeForm/analyticsUtils.ts:103-110 | each section's score depends only on that section: résumés agreeing on the summary, on the work descriptions, on the education degree/field/institution or on the skill lists get the same score for that section, whatever else differs |
| Analytics.KeywordDensity | client/src/components/forms/ResumeForm/analyticsUtils.ts:129-131 | 0 when the job description has no tokens; 100 when it has tokens and nothing is missing |
| Analytics.KeywordDensityRange | client/src/components/forms/ResumeForm/analyticsUtils.ts:129-131 | in 0..100 whenever no more keywords are missing than there are tokens |
| Analytics.LocalKeywordDensityRange | client/src/components/forms/ResumeForm/analyticsUtils.ts:129-131 | the local keyword gap always gives a density in 0..100 |
| Analytics.Sections | client/src/components/forms/ResumeForm/analyticsUtils.ts:134-139 | the four sections, each filled exactly under its own rule |
| Analytics.Completeness | client/src/components/forms/ResumeForm/analyticsUtils.ts:140-141 | 25 points per filled section, so one of 0, 25, 50, 75, 100 |
| Analytics.GetResumeAnalytics | client/src/components/forms/ResumeForm/analyticsUtils.ts:112-174 | the method returns the specification record of all statistics of the joined text |
| Analytics.ResumeAnalyticsCounts | client/src/components/forms/ResumeForm/analyticsUtils.ts:155-173 | the word count is the number of words of the joined text; the error and passive counts are the lengths of their lists |
| Analytics.ResumeAnalyticsTime | client/src/components/forms/ResumeForm/analyticsUtils.ts:155-173 | reading time is the word count over 200; completeness is 0, 25, 50, 75 or 100 |
| Analytics.ResumeAnalyticsRanges | client/src/components/forms/ResumeForm/analyticsUtils.ts:155-173 | richness in 0..1, unique words at most the tokens, bullet percentage in 0..100 |
| Analytics.ResumeAnalyticsScores | client/src/components/forms/ResumeForm/analyticsUtils.ts:155-173 | reading ease at most 206.835, at most 5 frequent words and at most 13 clichés |
| AiSuggest.Keywords | client/src/lib/ai-suggest.ts:45-47 | duplicate-free; exactly the lower-case tokens that are no stopword and longer than two characters |
| AiSuggest.KeywordsOccur | client/src/lib/ai-suggest.ts:46-47 | every keyword occurs in the lower-cased job description |
| AiSuggest.Suggestions | client/src/lib/ai-suggest.ts:52-54 | the fixed sentence iff nothing is missing; otherwise the prefix followed by the first five missing keywords joined by ", " |
| AiSuggest.KeywordGap | client/src/lib/ai-suggest.ts:43-55 | missing keywords are exactly the keywords not contained in the lower-cased résumé text, in keyword order, without duplicates |
| AiSuggest.MissingAtMostTokens | client/src/lib/ai-suggest.ts:46-50 | never more missing keywords than job-description tokens |
| AiSuggest.NothingMissing | client/src/lib/ai-suggest.ts:50-54 | when the résumé contains every keyword the result is empty with the fixed sentence |
| AiSuggest.SelfCovered | client/src/lib/ai-suggest.ts:43-55 | a job description checked against itself misses nothing |
| AiSuggest.MoreTextMissesLess | client/src/lib/ai-suggest.ts:49-50 | adding text to the résumé never adds a missing keyword |
| AiSuggest.PythonAwsExample | client/src/lib/ai-suggest.ts:43-55 | for the Python/AWS example "aws" is missing and "python" is not |
| AiSuggest.FixedStopwords | client/src/lib/ai-suggest.ts:45-47 | with the fixed stopword set "for", "a" and "with" are never keywords, and "aws" can be one |
| AiSuggest.LocalSuggestSummary | client/src/lib/ai-suggest.ts:12-22 | the method's summary is the normalised draft built from the hints |
| AiSuggest.SummaryShape | client/src/lib/ai-suggest.ts:21-22 | single-spaced, non-empty, no leading white space, ends with ".", same words as the draft |
| AiSuggest.SummaryNamesAtMostFiveSkills | client/src/lib/ai-suggest.ts:20 | only the first five skills influence the summary |
| AiSuggest.DraftOpening | client/src/lib/ai-suggest.ts:13-18 | the sentence opens with the name part ("name is " when a name is given) followed by the experience part |
| AiSuggest.SummaryOpening | client/src/lib/ai-suggest.ts:14-18 | right after the name part the sentence says "an experienced " exactly when a positive number of years is given, and "a " exactly when it is not |
| AiSuggest.LocalSuggestWorkBullets | client/src/lib/ai-suggest.ts:31-39 | 1 to 3 bullets ending with the fixed bullet; the role bullet first iff role and industry are given; the skills bullet iff skills are given |
| AiSuggest.CleanLine | client/src/lib/ai-suggest.ts:103 | a cleaned line is trimmed; a line starting with `-`, `*` or `•` is the trimmed rest after that one marker, any other line is just trimmed |
| AiSuggest.CleanBulletLines | client/src/lib/ai-suggest.ts:103 | no more results than lines; every result non-empty and trimmed; every line that cleans to something non-empty is kept; the results are the cleaned lines in their original order (a subsequence) |
| AiSuggest.CleanBulletLinesFromLines | client/src/lib/ai-suggest.ts:103 | every result is the cleaned form of some line of the text |
| AiSuggest.CleanBulletLinesCount | client/src/lib/ai-suggest.ts:103 | a non-empty cleaned line appears among the results exactly as often as among the cleaned lines |
| ResumeForm.FindIndex | client/src/components/resume-form.tsx:170 | `findIndex` is the first position with the id, or -1 when there is none |
| ResumeForm.UpdateById | client/src/components/resume-form.tsx:157-162 | same length; entries with the id are patched, all others unchanged |
| ResumeForm.RemoveById | client/src/components/resume-form.tsx:164-167 | keeps exactly the entries without the id, in order |
| ResumeForm.RemoveByIdExact | client/src/components/resume-form.tsx:165 | the length drops by the number of entries with the id, and every other entry keeps its multiplicity |
| ResumeForm.RemoveAppend | client/src/components/resume-form.tsx:165 | removing from two lists joined is removing from each |
| ResumeForm.RemoveAdded | client/src/components/resume-form.tsx:140-167 | removing an entry just appended under a fresh id gives the list back |
| ResumeForm.RemoveAfterUpdate | client/src/components/resume-form.tsx:157-167 | removing after an id-preserving update is removing alone |
| ResumeForm.Swap | client/src/components/resume-form.tsx:177 | the two cells are exchanged and every other cell is unchanged |
| ResumeForm.MoveById | client/src/components/resume-form.tsx:169-179 | the method returns the swapped list, or nothing for an unknown id or a target outside the list |
| ResumeForm.MovedSwapsNeighbour | client/src/components/resume-form.tsx:169-179 | a move swaps the entry with its neighbour and changes nothing else, or is a no-op |
| ResumeForm.MovedPermutes | client/src/components/resume-form.tsx:176-177 | a move is a permutation |
| ResumeForm.MoveUpThenDown | client/src/components/resume-form.tsx:169-179 | moving up then down restores the list |
| ResumeForm.MoveDownThenUp | client/src/components/resume-form.tsx:169-179 | moving down then up restores the list when the neighbour has another id |
| ResumeForm.AddWorkExperience | client/src/components/resume-form.tsx:140-155 | one blank entry with the new id appended; nothing else changes |
| ResumeForm.UpdateWorkExperience | client/src/components/resume-form.tsx:157-162 | entries with the id are patched, others and the rest of the record unchanged |
| ResumeForm.RemoveWorkExperience | client/src/components/resume-form.tsx:164-167 | exactly the entries without the id remain, in order |
| ResumeForm.RemoveAddedWorkExperience | client/src/components/resume-form.tsx:140-167 | removing an entry just added with a fresh id restores the record |
| ResumeForm.MoveWorkExperience | client/src/components/resume-form.tsx:169-179 | the list is moved as above, a permutation, and nothing else changes |
| ResumeForm.AddEducation | client/src/components/resume-form.tsx:182-197 | one blank entry with the new id appended; nothing else changes |
| ResumeForm.UpdateEducation | client/src/components/resume-form.tsx:199-204 | entries with the id are patched, others unchanged |
| ResumeForm.RemoveEducation | client/src/components/resume-form.tsx:206-209 | exactly the entries without the id remain, in order |
| ResumeForm.AddSkillCategory | client/src/components/resume-form.tsx:212-222 | one nameless, skill-less category appended; nothing else changes |
| ResumeForm.UpdateSkillCategory | client/src/components/resume-form.tsx:224-229 | categories with the id are patched, others unchanged |
| ResumeForm.RemoveSkillCategory | client/src/components/resume-form.tsx:231-234 | exactly the categories without the id remain, in order |
| ResumeForm.AddSkill | client/src/components/resume-form.tsx:236-245 | a blank skill changes nothing; otherwise the trimmed skill is appended to the matching categories only |
| ResumeForm.RemoveAt | client/src/components/resume-form.tsx:252 | removes exactly position k, or nothing when k is out of range |
| ResumeForm.RemoveSkill | client/src/components/resume-form.tsx:247-257 | only the matching categories lose position `skillIndex`; others are unchanged |
| ResumeForm.RemoveAddedSkill | client/src/components/resume-form.tsx:236-257 | removing the skill just added at its index restores the category |
| ResumeForm.EffectiveOrderCoversCustom | client/src/components/resume-form.tsx:309-315 | a record whose order places every custom section renders every custom section |
| ResumeForm.EffectiveSectionOrder | client/src/components/resume-form.tsx:309-315 | the record's own order, or the four default sections followed by every custom section |
| ResumeForm.AddCustomSection | client/src/components/resume-form.tsx:260-278 | the new section is appended, and its id is appended to the order (the default four when absent) |
| ResumeForm.UpdateCustomSection | client/src/components/resume-form.tsx:280-285 | sections with the id are patched, others unchanged |
| ResumeForm.RemoveCustomSection | client/src/components/resume-form.tsx:287-295 | exactly the sections and order keys without the id remain, in their original order (a subsequence of each list); everything else stays |
| ResumeForm.AddCustomSectionCovers | client/src/components/resume-form.tsx:260-278 | adding keeps every custom section placed in the order |
| ResumeForm.RemoveCustomSectionCovers | client/src/components/resume-form.tsx:287-295 | removing keeps every custom section placed in the order |
| ResumeForm.RemoveAddedCustomSection | client/src/components/resume-form.tsx:260-295 | removing a section just added restores the sections and the order |
| ResumeForm.MoveSection | client/src/components/resume-form.tsx:298-306 | only the section order changes, by the swap rule; every custom section stays placed in the order |
| ResumeForm.MoveEducationAsWired | client/src/components/resume-form.tsx:594 | the education move as wired is the section move applied to an education id |
| ResumeForm.EducationMoveIgnored | client/src/components/resume-form.tsx:298-306 | that move never changes the education list, and changes nothing at all when the id is not in the order |
| ResumeForm.MoveEducation | client/src/components/resume-form.tsx:169-179 | the intended education move: a permutation of the education list by the swap rule, nothing else changes |
| ResumeForm.EducationMoveExample | client/src/components/resume-form.tsx:594 | with two entries and no order, moving the second up does nothing as wired and swaps them as intended |
| SectionAnalytics.TerminatorRuns | client/src/components/resume-form.tsx:765 | the number of `[.!?]+` runs is at most the length |
| SectionAnalytics.TerminatorRunsPositive | client/src/components/resume-form.tsx:765 | there is a run iff the text has a terminator |
| SectionAnalytics.SentencesAtMostRuns | client/src/components/resume-form.tsx:765 | there are never more `[^.!?]+[.!?]` sentences than terminator runs |
| SectionAnalytics.RoughSyllables | client/src/components/resume-form.tsx:771-776 | at least one syllable per word, computed without the short-word rule |
| SectionAnalytics.RoughAgreesWithSyllables | client/src/components/resume-form.tsx:771-776 | for words longer than three characters it agrees with the analytics syllable count |
| SectionAnalytics.RoughSyllablesEye | client/src/components/resume-form.tsx:771-776 | "eye" differs: one syllable in the analytics count, two here |
| SectionAnalytics.TextCounts | client/src/components/resume-form.tsx:763-784 | sentences are the terminator runs floored at 1, and at least the sentence matches; words are the tokens; syllables are the rough syllable total of the tokens, at least one per word |
| SectionAnalytics.SectionTexts | client/src/components/resume-form.tsx:370-386 | the four named sections in order, the summary text defaulting to "" |
| SectionAnalytics.KeywordList | client/src/components/resume-form.tsx:388-390 | one lower-cased keyword per job-description token, in order |
| SectionAnalytics.WholeWordCountPresent | client/src/components/resume-form.tsx:397-398 | `\bk\b` matches iff k is a token of the text |
| SectionAnalytics.KeywordFrequencies | client/src/components/resume-form.tsx:393-399 | the loop gives every keyword a key whose value is its whole-word count in the joined text |
| SectionAnalytics.AtsCompatibility | client/src/components/resume-form.tsx:411-415 | "High" iff the text has no table/column/image/font (any case) and is at least 100 characters long |
| SectionAnalytics.PresentKeywords | client/src/components/resume-form.tsx:420-422 | exactly the keywords the lower-cased section contains, in order |
| SectionAnalytics.Coverage | client/src/components/resume-form.tsx:423-425 | in 0..100; 0 without keywords or with none present; 100 with all present |
| SectionAnalytics.ReadabilityInput | client/src/components/resume-form.tsx:401-409 | "-" iff the text is blank; otherwise counts with at least one sentence and a syllable per word |
| SectionAnalytics.RowOf | client/src/components/resume-form.tsx:417-435 | word and character counts of the section, coverage in 0..100, the shared frequency map |
| SectionAnalytics.SectionAnalyticsOf | client/src/components/resume-form.tsx:369-437 | the method returns the four rows of the specification |
| SectionAnalytics.RowsProperties | client/src/components/resume-form.tsx:369-437 | for any sections, every row's coverage is in 0..100, 0 when the job description has no tokens, and every row's frequency record holds each keyword's whole-word count in the joined text |
| UseResume.DoneCount | client/src/hooks/use-resume.ts:47-89 | at most four completed sections |
| UseResume.CalculateProgress | client/src/hooks/use-resume.ts:47-92 | 25 per completed section; 100 iff all four, 0 iff none |
| UseResume.DefaultHasNoProgress | client/src/hooks/use-resume.ts:8-22 | the default record completes no section |
| UseResume.ValidRecordHasProgress | client/src/hooks/use-resume.ts:52-59 | a schema-valid record completes at least the personal section |
| UseResume.Merge | client/src/hooks/use-resume.ts:130-143 | each given key replaces its field and every other field is kept, valid or not |
| UseResume.MergeIdentityAndIdempotent | client/src/hooks/use-resume.ts:132 | the empty update changes nothing; merging twice is merging once |
| UseResume.MergeTwice | client/src/hooks/use-resume.ts:132 | two merges are one merge of the combined update |
| UseResume.MergeFull | client/src/hooks/use-resume.ts:132 | an update with every key replaces the record |
| UseResume.AutoSaveGuard | client/src/hooks/use-resume.ts:146-155 | the default record is never scheduled; a save fires iff some name is non-empty and progress is positive |
| Highlight.FirstMatch | client/src/components/forms/ResumeForm/utils.ts:12 | the leftmost case-insensitive occurrence at or after q, or -1 when there is none |
| Highlight.SplitKeyword | client/src/components/forms/ResumeForm/utils.ts:11-15 | pieces and captures alternate (odd count), rejoin to the text, and every capture equals the keyword ignoring case; without an occurrence the text stays whole, otherwise the first capture is the leftmost occurrence |
| Highlight.SplitEmpty | client/src/components/forms/ResumeForm/utils.ts:15 | splitting by an empty capture rejoins to the text with empty captures |
| Highlight.SplitOn | client/src/components/forms/ResumeForm/utils.ts:15 | either split rejoins to the text and captures only the keyword |
| Highlight.ToSegments | client/src/components/forms/ResumeForm/utils.ts:16-26 | the segments render the pieces' characters in order |
| Highlight.ToSegmentsMarks | client/src/components/forms/ResumeForm/utils.ts:18 | only non-empty captures become marks, each matching the keyword |
| Highlight.HighlightOne | client/src/components/forms/ResumeForm/utils.ts:13-27 | one pass renders the same characters |
| Highlight.HighlightOneMarks | client/src/components/forms/ResumeForm/utils.ts:13-27 | a pass keeps every mark matching some keyword |
| Highlight.HighlightOneKeepsMarks | client/src/components/forms/ResumeForm/utils.ts:14 | the marks before a pass are still there, in order, after it |
| Highlight.ProcessingOrder | client/src/components/forms/ResumeForm/utils.ts:7 | the same keywords, longest first |
| Highlight.ProcessingOrderStable | client/src/components/forms/ResumeForm/utils.ts:7 | keywords of equal length keep their given order (the sort is stable) |
| Highlight.HighlightedKeepsMarks | client/src/components/forms/ResumeForm/utils.ts:9-28 | every later pass keeps the marks of the earlier passes, in order |
| Highlight.FirstOccurrenceMarked | client/src/components/forms/ResumeForm/utils.ts:13-26 | one pass over a text marks the leftmost occurrence of a non-empty keyword |
| Highlight.FirstPassMarkKept | client/src/components/forms/ResumeForm/utils.ts:9-28 | a mark made by the first pass survives every later pass |
| Highlight.LongestKeywordMarked | client/src/components/forms/ResumeForm/utils.ts:4-30 | the leftmost occurrence of the longest keyword is marked in the result; in particular a single keyword that occurs is marked |
| Highlight.HighlightKeywords | client/src/components/forms/ResumeForm/utils.ts:4-30 | the result is one pass per keyword over the text, in processing order; no keywords give the text itself; the segments render the text exactly; every mark is non-empty and equals a keyword ignoring case |
| ExportText.EndDateText | client/src/components/export/MarkdownGenerator.ts:9 | "Present" iff the end date is absent, empty or literally "Present"; otherwise the date itself |
| ExportText.StartYearText | client/src/components/export/MarkdownGenerator.ts:13 | "" iff the year is absent or 0; otherwise the number |
| ExportText.EndYearText | client/src/components/export/MarkdownGenerator.ts:13 | "Present" iff the year is absent or 0; otherwise the number |
| ExportText.DescriptionText | client/src/components/export/MarkdownGenerator.ts:9 | an absent description prints "undefined" |
| ExportText.EachEntry | client/src/components/export/MarkdownGenerator.ts:8-10 | every entry's line appears right after the lines of the entries before it |
| ExportText.DocumentLayout | client/src/components/export/MarkdownGenerator.ts:5-19 | the three headings appear in order, each part right after its heading, the last part running to the end |
| MarkdownExport.GenerateMarkdown | client/src/components/export/MarkdownGenerator.ts:3-20 | the method's text is the specification document |
| MarkdownExport.MarkdownOpening | client/src/components/export/MarkdownGenerator.ts:5-7 | starts with "# first last\n"; the summary block follows iff the summary is shown, else the work heading |
| MarkdownExport.MarkdownHeadings | client/src/components/export/MarkdownGenerator.ts:7-18 | the three headings in order, even for empty lists, each followed by its lines |
| MarkdownExport.MarkdownWorkEntry | client/src/components/export/MarkdownGenerator.ts:8-10 | entry n has its line, with end date and description defaults, in input order |
| MarkdownExport.MarkdownEducationEntry | client/src/components/export/MarkdownGenerator.ts:12-14 | entry n has its line, with year defaults, in input order |
| MarkdownExport.MarkdownSkillEntry | client/src/components/export/MarkdownGenerator.ts:16-18 | category n has its line with the skills joined by ", " |
| LinkedInExport.GenerateLinkedInText | client/src/components/export/LinkedInGenerator.ts:3-20 | the method's text is the specification document |
| LinkedInExport.LinkedInOpening | client/src/components/export/LinkedInGenerator.ts:5-7 | starts with "first last\n"; the summary block follows iff shown |
| LinkedInExport.LinkedInHeadings | client/src/components/export/LinkedInGenerator.ts:7-18 | the three headings in order, each followed by its lines |
| LinkedInExport.LinkedInWorkEntry | client/src/components/export/LinkedInGenerator.ts:8-10 | entry n has its line in input order |
| LinkedInExport.LinkedInEducationEntry | client/src/components/export/LinkedInGenerator.ts:12-14 | entry n has its line in input order |
| LinkedInExport.LinkedInSkillEntry | client/src/components/export/LinkedInGenerator.ts:16-18 | category n has its line with the skills joined by ", " |
| ResumeStorage.SaveThenLoad | client/src/lib/resume-storage.ts:7-29 | loading after saving gives the data and the template ("modern" for an empty one); versions and other keys are untouched |
| ResumeStorage.LoadEmpty | client/src/lib/resume-storage.ts:16-29 | an empty store loads no data, template "modern", no versions |
| ResumeStorage.ClearThenLoad | client/src/lib/resume-storage.ts:31-46 | after clearing there is no data, loading gives the defaults, versions stay |
| ResumeStorage.PushThenVersions | client/src/lib/resume-storage.ts:48-78 | a saved version is appended at the end; earlier versions restore as before; the loaded résumé is unchanged |
| ResumeStorage.RestoreRange | client/src/lib/resume-storage.ts:69-78 | restore gives a version iff the index is in range, and then that version |
| ResumeStorage.ClearVersionsThenVersions | client/src/lib/resume-storage.ts:80-86 | after clearing versions there are none and nothing restores; the résumé is untouched |
| ResumeStorage.LocalStore.SaveToLocal | client/src/lib/resume-storage.ts:7-14 | the store is the saved map, and loading gives back the data and template |
| ResumeStorage.LocalStore.LoadFromLocal | client/src/lib/resume-storage.ts:16-29 | data only when some is stored; the template is never empty |
| ResumeStorage.LocalStore.ClearLocal | client/src/lib/resume-storage.ts:31-38 | no data afterwards; versions unchanged |
| ResumeStorage.LocalStore.SaveVersion | client/src/lib/resume-storage.ts:48-58 | the versions gain exactly the new one at the end |
| ResumeStorage.LocalStore.GetVersions | client/src/lib/resume-storage.ts:60-67 | [] when the key is absent |
| ResumeStorage.LocalStore.RestoreVersion | client/src/lib/resume-storage.ts:69-78 | a version iff the index is in range, and then that version |
| ResumeStorage.LocalStore.ClearVersions | client/src/lib/resume-storage.ts:80-86 | no versions afterwards; loading unchanged |
| PersonalInfoSection.Errors | client/src/components/forms/ResumeForm/PersonalInfoSection.tsx:35-44 | a field has an error iff it is blank, with its own message; no errors iff all four are filled |
| PersonalInfoSection.OptionalFieldsUnchecked | client/src/components/forms/ResumeForm/PersonalInfoSection.tsx:35-44 | title, address, linkedin and summary never affect the checked fields |
| PersonalInfoSection.CompleteMeetsSchema | client/src/components/forms/ResumeForm/PersonalInfoSection.tsx:37-42 | passing the form check gives the schema's lengths; with a valid email and linkedin the schema holds; " " passes the schema length but fails the form |
| PersonalInfoSection.PanelShowsMissing | client/src/components/forms/ResumeForm/PersonalInfoSection.tsx:226 | for an analysis whose missing list is exactly the absent keywords, the panel shows iff some keyword is missing from the résumé text |
| MoveButtons.ButtonsMatchMoves | client/src/components/forms/ResumeForm/EducationSection.tsx:100-110 | up is enabled iff the index is not 0 and down iff it is not the last, exactly when the move by id does something |
| WorkExperienceSection.Errors | client/src/components/forms/ResumeForm/WorkExperienceSection.tsx:43-48 | one record per entry, in order; title and company messages iff blank, else "" |
| WorkExperienceSection.OnlyTitleAndCompany | client/src/components/forms/ResumeForm/WorkExperienceSection.tsx:43-48 | entries agreeing on title and company get the same errors; a missing start date is not reported though the schema rejects it |
| EducationSection.Errors | client/src/components/forms/ResumeForm/EducationSection.tsx:40-46 | one record per entry, in order; each message iff its field is blank |
| EducationSection.NoErrorsMeetsSchema | client/src/components/forms/ResumeForm/EducationSection.tsx:40-46 | an entry without errors has the schema's required fields |
| SkillsSection.Errors | client/src/components/forms/ResumeForm/SkillsSection.tsx:40-46 | one record per category; name message iff blank; skills message iff the list is empty |
| SkillsSection.BlankSkillPasses | client/src/components/forms/ResumeForm/SkillsSection.tsx:43-44 | a list holding only a blank skill passes |
| SkillsSection.SkillInput.OnKeyDown | client/src/components/forms/ResumeForm/SkillsSection.tsx:142-147 | Enter with non-blank input adds the trimmed input and clears it; anything else changes nothing |
| SkillsSection.EnterAddsTrimmed | client/src/components/forms/ResumeForm/SkillsSection.tsx:143-144 | the category gains exactly the trimmed input at the end |
| CustomSections.Errors | client/src/components/forms/ResumeForm/CustomSections.tsx:29-33 | one record per section; title message iff blank; content is never looked at |
| CoverLetter.DescriptionFound | client/src/components/cover-letter/CoverLetterBuilder.tsx:72 | a description is shown iff some template has the label, and it is the first such template's |
| CoverLetter.TemplateDescriptions | client/src/components/cover-letter/CoverLetterBuilder.tsx:11-15 | the listed templates' descriptions; none for an unlisted label |
| CoverLetter.LetterGreeting | client/src/components/cover-letter/CoverLetterBuilder.tsx:28-52 | "Hello!\n\n" for Creative, "Dear Hiring Manager,\n\n" otherwise, at the start |
| CoverLetter.LetterSummary | client/src/components/cover-letter/CoverLetterBuilder.tsx:29-45 | the summary appears verbatim right after the template's introduction |
| CoverLetter.LetterClosing | client/src/components/cover-letter/CoverLetterBuilder.tsx:35-51 | the template's closing line ends the letter |
| CoverLetter.LetterJobLine | client/src/components/cover-letter/CoverLetterBuilder.tsx:30-50 | no job line for an empty description; otherwise the lead, the first 200 characters and "...\n" |
| CoverLetter.OtherLabelsAreStandard | client/src/components/cover-letter/CoverLetterBuilder.tsx:44-52 | any other label writes the Standard letter |
| CoverLetter.CoverLetterBuilder.constructor | client/src/components/cover-letter/CoverLetterBuilder.tsx:22-24 | the template starts as the first listed, "Standard"; empty letter, not editing |
| CoverLetter.CoverLetterBuilder.SelectTemplate | client/src/components/cover-letter/CoverLetterBuilder.tsx:65 | only the template changes |
| CoverLetter.CoverLetterBuilder.GenerateCoverLetter | client/src/components/cover-letter/CoverLetterBuilder.tsx:26-56 | the letter of the selected template is stored, returned and editing starts |
| CoverLetter.CoverLetterBuilder.EditLetter | client/src/components/cover-letter/CoverLetterBuilder.tsx:81 | only the letter changes |
| CoverLetter.CoverLetterBuilder.Focus | client/src/components/cover-letter/CoverLetterBuilder.tsx:84 | editing becomes true and nothing else changes |
| ResumePreview.StepsKeepZoomOk | client/src/components/resume-preview.tsx:58-64 | both steps keep a multiple of ten in 30..100; in never lowers, out never raises |
| ResumePreview.ClicksKeepZoomOk | client/src/components/resume-preview.tsx:56-64 | any sequence of clicks from a valid level (60 is one) stays a multiple of ten in 30..100 |
| ResumePreview.ButtonsAndRoundTrips | client/src/components/resume-preview.tsx:100-111 | a button is disabled exactly where its click would do nothing; in then out, and out then in, restore the level away from the bounds |
| ResumePreview.Zoom.constructor | client/src/components/resume-preview.tsx:56 | the zoom starts at 60 |
| ResumePreview.Zoom.HandleZoomIn | client/src/components/resume-preview.tsx:58-60 | min(z+10, 100), valid afterwards; unchanged iff the button was disabled |
| ResumePreview.Zoom.HandleZoomOut | client/src/components/resume-preview.tsx:62-64 | max(z-10, 30), valid afterwards; unchanged iff the button was disabled |
| ResumePreview.RenderTemplate | client/src/components/resume-preview.tsx:66-87 | Modern iff the name is none of the seven named cases |
| ResumePreview.RenderTemplateRoundTrip | client/src/components/resume-preview.tsx:125-134 | each selector option renders its own view |
| ApplicationTracker.Tracker.constructor | client/src/components/job-matching/ApplicationTracker.tsx:11-14 | no applications, empty inputs, status "applied" |
| ApplicationTracker.Tracker.SetCompany | client/src/components/job-matching/ApplicationTracker.tsx:33 | only the company changes |
| ApplicationTracker.Tracker.SetPosition | client/src/components/job-matching/ApplicationTracker.tsx:38 | only the position changes |
| ApplicationTracker.Tracker.SetStatus | client/src/components/job-matching/ApplicationTracker.tsx:42 | only the status changes |
| ApplicationTracker.Tracker.AddApplication | client/src/components/job-matching/ApplicationTracker.tsx:16-24 | exactly one entry with the current inputs and the date is appended, earlier ones unchanged; the inputs reset |

## Left out

- Floating-point rounding: `toFixed` in the vocabulary richness, the sentence average, the reading time and the Flesch score. These are exact rationals (`real`), so `Analytics.UniqueWordStats`, `Analytics.SentenceLengthStats`, `Analytics.ReadingTime` and `Analytics.FleschReadingEase` state the unrounded values.
- Analytics.UniqueWordStats: the richness is the exact ratio, without rounding to two decimals.
- Analytics.FleschReadingEase: the score is the exact formula, without rounding to one decimal.
- The STOPWORDS and DICTIONARY word lists come from modules that are not part of this model; they are a parameter (`Lexicon`). The stopword set of the local keyword analysis is written out.
- The `flesch()` library call of the section readability is not part of this model; only its input counts are modelled.
- The OpenAI, Affinda and server requests, `JSON.parse` of their answers, the react-query mutation and the 3-second auto-save timer are left out. Only the line post-processing of bullet answers and the auto-save guard are modelled.
- The debounce timer, `Math.random` in `generateId` (new ids are parameters) and `new Date()` (timestamps and dates are parameters).
- The résumé text given to the keyword analysis is `JSON.stringify(resumeData)`. It is an opaque string here, so JSON key names are not modelled.
- `localStorage` quota errors and the try/catch fallbacks are left out; the store is a map that never fails.
- ResumeStorage.LocalStore.LoadFromLocal: a stored value that is not a résumé (any foreign text under the data key) reads as absent, where the source would parse it or fall back after an exception.
- `JSON.stringify`/`JSON.parse` of the stored résumé and versions is an exact round trip; the stored value is the datatype itself.
- Non-ASCII letters: case folding and `\w` cover ASCII only. The highlighter's case-insensitive match therefore does not model Unicode case folding.
- Escaping of regular-expression characters in the highlighter: the keyword is matched literally, which is what the escaping achieves.
- The custom-section move buttons are enabled by the position in `customSections`, but the move itself swaps positions in `sectionOrder`; `MoveButtons.ButtonsMatchMoves` relates the buttons to a move over the list they index.
- React rendering, the DOM, PDF and Word export, clipboard and sharing are left out.
- Analytics.RoundPercentNearest: proves rounding of the exact ratio, while the source rounds the IEEE-754 double `(a / b) * 100`; where that double falls just below an exact half the source gives one less (23 of 40 gives 57 there and 58 here; 29 of 200 gives 14 there and 15 here). The same holds for `Analytics.BulletPointStats` (percentBullets), `Analytics.KeywordDensity` and `SectionAnalytics.Coverage`; completeness and progress divide by 4 and are exact.
- Analytics.BulletPointStats: the percentage is the exact-rational rounding described for `Analytics.RoundPercentNearest`.
- Analytics.KeywordDensity: the percentage is the exact-rational rounding described for `Analytics.RoundPercentNearest`.
- SectionAnalytics.Coverage: the percentage is the exact-rational rounding described for `Analytics.RoundPercentNearest`.
- Analytics.CountWords: the frequency record of the source is a plain `{}` object, so a token that names an inherited property behaves differently there: for "constructor" the first read finds `Object.prototype.constructor` and the count becomes a string, and a "__proto__" token never becomes a key. The model counts every token as an ordinary key.
- Analytics.MostCommonWords: built on `Analytics.CountWords`, so it reports true counts, in sorted order, for "constructor" and "__proto__" too; in the source their entries are a string or missing, and the comparator gives NaN for a string count, which leaves their place in the order to the engine.
- SectionAnalytics.KeywordFrequencies: the frequency record is a plain `{}` object in the source, whose setter swallows the key "__proto__"; the model keeps an entry for it like any other keyword.
- SectionAnalytics.RowOf: `text.length` in JavaScript counts UTF-16 code units, the model counts characters, so `charCount` differs for text with characters outside the Basic Multilingual Plane (emoji). The same applies to the 100-character test of `SectionAnalytics.AtsCompatibility` and the 200-character cut of the job description in `CoverLetter.LetterJobLine`.
- Schema.ParseResumeData: the education years `startYear` and `endYear` and the hint `yearsExperience` are JavaScript numbers in the source and may be fractional ("over 2.5 years"); the model takes them as integers, in `ExportText.StartYearText`, `ExportText.EndYearText` and `AiSuggest.LocalSuggestSummary` alike.

## Findings

| source | as written | input that shows it | evidently intended | confidence | as-written member | corrected member |
|---|---|---|---|---|---|---|
| client/src/components/resume-form.tsx:594 | the education list's move buttons call `moveSection`, which looks the education id up in `sectionOrder` (lines 298-306) | two education entries a, b and no section order: moving b up leaves the record unchanged | swap the entry with its neighbour in `education`, as `moveWorkExperience` does for work entries | not executed | ResumeForm.EducationMoveIgnored | ResumeForm.MoveEducation |
