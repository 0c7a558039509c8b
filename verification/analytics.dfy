/** The résumé text analytics of `analyticsUtils.ts`: word statistics, the top-N word
    table, spelling errors, passive sentences, sentence lengths, bullet lines, clichés,
    syllables and the Flesch reading-ease inputs, and the summary record built from
    them. Ratios are exact `real` values; the decimal rounding of `toFixed` is not
    modelled. */
module Analytics {
  import opened Wrappers
  import opened Seqs
  import opened Text
  import opened Schema
  import opened AiSuggest

  /** The STOPWORDS and DICTIONARY word lists. They come from modules that are not part
      of this model, so they are parameters. */
  datatype Lexicon = Lexicon(stopwords: set<string>, dictionary: set<string>)

  /** `text.toLowerCase().match(/\b\w+\b/g) || []` */
  function LowerTokens(text: string): seq<string>
  {
    Tokens(Lower(text))
  }

  /** The lower-case tokens that are not stopwords, in order, duplicates kept. */
  function ContentWords(text: string, lex: Lexicon): (r: seq<string>)
    ensures forall w :: w in r <==> w in LowerTokens(text) && w !in lex.stopwords
    ensures IsSubsequence(r, LowerTokens(text))
  {
    Filter(LowerTokens(text), w => w !in lex.stopwords)
  }

  /** Dropping stopwords keeps every occurrence of the other words. */
  lemma ContentWordsCount(text: string, lex: Lexicon, w: string)
    ensures Count(ContentWords(text, lex), w) == if w in lex.stopwords then 0 else Count(LowerTokens(text), w)
  {
    FilterCount(LowerTokens(text), x => x !in lex.stopwords, w);
  }

  // ---------------------------------------------------------------- unique words

  /** `a / b` for a non-zero `b`, and 0 otherwise. */
  function Ratio(a: nat, b: nat): (r: real)
    ensures b == 0 ==> r == 0.0
    ensures b > 0 ==> r * b as real == a as real
    ensures 0.0 <= r
    ensures a <= b ==> r <= 1.0
  {
    if b == 0 then 0.0 else a as real / b as real
  }

  datatype WordStats = WordStats(uniqueWordCount: nat, vocabularyRichness: real)

  /** `getUniqueWordStats`: the number of distinct non-stopword tokens, and that number
      divided by the number of all tokens, stopwords included (0 without tokens). */
  function UniqueWordStats(text: string, lex: Lexicon): (r: WordStats)
    ensures r.uniqueWordCount == |Elements(ContentWords(text, lex))|
    ensures r.uniqueWordCount <= |LowerTokens(text)|
    ensures r.vocabularyRichness == Ratio(r.uniqueWordCount, |LowerTokens(text)|)
    ensures 0.0 <= r.vocabularyRichness <= 1.0
  {
    var content := ContentWords(text, lex);
    var unique := |Elements(content)|;
    var total := |LowerTokens(text)|;
    ElementsCard(content);
    assert |content| <= total;
    WordStats(unique, Ratio(unique, total))
  }

  // ---------------------------------------------------------- most common words

  datatype WordCount = WordCount(word: string, count: nat)

  function DigitValue(c: char): nat
  {
    if '0' <= c <= '9' then c as int - '0' as int else 0
  }

  /** The number a string of decimal digits denotes. */
  function DigitsValue(k: string): nat
  {
    if k == [] then 0 else DigitsValue(k[..|k| - 1]) * 10 + DigitValue(k[|k| - 1])
  }

  /** A key that is an array index ("0", "7", "2020", but not "007"): such keys come
      first in `Object.entries`, in ascending numeric order. */
  predicate IsArrayIndex(k: string)
  {
    && k != []
    && (forall i :: 0 <= i < |k| ==> '0' <= k[i] <= '9')
    && (k[0] == '0' ==> |k| == 1)
    && DigitsValue(k) < 0xFFFF_FFFF
  }

  predicate IsNamedKey(k: string)
  {
    !IsArrayIndex(k)
  }

  /** `Object.keys` order of a record whose keys were inserted in the order `keys`:
      array indices ascending, then the other keys in insertion order. */
  function EntryOrder(keys: seq<string>): (r: seq<string>)
    ensures multiset(r) == multiset(keys)
    ensures forall i, j :: 0 <= i < j < |r| && IsArrayIndex(r[j]) ==>
              IsArrayIndex(r[i]) && DigitsValue(r[i]) <= DigitsValue(r[j])
  {
    var indices := Filter(keys, IsArrayIndex);
    var others := Filter(keys, IsNamedKey);
    FilterPartition(keys, IsArrayIndex, IsNamedKey);
    SortBy(indices, (k: string) => DigitsValue(k) as int) + others
  }

  /** `[word, count]` entries for the keys, counting occurrences in `words`. */
  function Entries(keys: seq<string>, words: seq<string>): (r: seq<WordCount>)
    ensures |r| == |keys|
    ensures forall i :: 0 <= i < |keys| ==> r[i] == WordCount(keys[i], Count(words, keys[i]))
  {
    seq(|keys|, i requires 0 <= i < |keys| => WordCount(keys[i], Count(words, keys[i])))
  }

  /** Sort key of the comparator `(a, b) => b[1] - a[1]`: larger counts first. */
  function ByCountDescending(e: WordCount): int
  {
    -(e.count as int)
  }

  /** `Object.entries(freq).sort((a, b) => b[1] - a[1]).slice(0, topN)` for the record
      `freq` that counts `words`: entries in key order, stably sorted by descending
      count, cut to the first `topN`. */
  function MostCommon(words: seq<string>, topN: nat): seq<WordCount>
  {
    Take(SortBy(Entries(EntryOrder(Dedupe(words)), words), ByCountDescending), topN)
  }

  /** What the frequency record holds after counting `seen`: a key per distinct word, in
      order of first occurrence, mapped to its number of occurrences. */
  ghost predicate CountsOf(seen: seq<string>, keys: seq<string>, freq: map<string, nat>)
  {
    && keys == Dedupe(seen)
    && (forall w :: w in freq <==> w in seen)
    && (forall w :: w in freq ==> freq[w] == Count(seen, w))
  }

  /** `freq[word] = (freq[word] || 0) + 1` keeps the record in step with the words seen. */
  lemma CountStep(seen: seq<string>, w: string, keys: seq<string>, freq: map<string, nat>)
    requires CountsOf(seen, keys, freq)
    ensures CountsOf(seen + [w], if w in freq then keys else keys + [w],
                     freq[w := (if w in freq then freq[w] else 0) + 1])
  {
    var seen' := seen + [w];
    var freq' := freq[w := (if w in freq then freq[w] else 0) + 1];
    DedupeSnoc(seen, w);
    SnocMembers(seen, w);
    forall x | x in freq' ensures freq'[x] == Count(seen', x) {
      CountSnoc(seen, w, x);
      if x == w && w !in freq {
        CountPositive(seen, w);
      }
    }
  }

  lemma SnocMembers(seen: seq<string>, w: string)
    ensures forall x :: x in seen + [w] <==> x in seen || x == w
  {
  }

  lemma CountSnoc(seen: seq<string>, w: string, x: string)
    ensures Count(seen + [w], x) == Count(seen, x) + (if x == w then 1 else 0)
  {
    CountAppend(seen, [w], x);
    assert [w][1..] == [];
  }

  /** Every key of the entry order is in a complete record, with its count. */
  lemma CountedEntries(words: seq<string>, keys: seq<string>, freq: map<string, nat>)
    requires CountsOf(words, keys, freq)
    ensures forall k :: k in EntryOrder(keys) ==> k in freq && freq[k] == Count(words, k)
  {
    var order := EntryOrder(keys);
    forall k | k in order ensures k in keys {
      assert multiset(order)[k] > 0;
    }
  }

  /** The `forEach` of `getMostCommonWords`: counts each word into the record `freq`;
      `keys` is the record's insertion order. */
  method CountWords(words: seq<string>) returns (keys: seq<string>, freq: map<string, nat>)
    ensures CountsOf(words, keys, freq)
  {
    freq := map[];
    keys := [];
    var i := 0;
    assert CountsOf([], keys, freq);
    assert words[..0] == [];
    while i < |words|
      invariant 0 <= i <= |words|
      invariant CountsOf(words[..i], keys, freq)
    {
      var w := words[i];
      var keys' := if w in freq then keys else keys + [w];
      var freq' := freq[w := (if w in freq then freq[w] else 0) + 1];
      CountStep(words[..i], w, keys, freq);
      assert words[..i + 1] == words[..i] + [w];
      keys, freq, i := keys', freq', i + 1;
    }
    assert words[..i] == words;
  }

  /** `getMostCommonWords`: the record's entries sorted by descending count, first `topN`. */
  method MostCommonWords(text: string, lex: Lexicon, topN: nat) returns (top: seq<WordCount>)
    ensures top == MostCommon(ContentWords(text, lex), topN)
  {
    var filtered := ContentWords(text, lex);
    var keys, freq := CountWords(filtered);
    CountedEntries(filtered, keys, freq);
    var order := EntryOrder(keys);
    RecordEntriesCount(order, freq, filtered);
    top := Take(SortBy(RecordEntries(order, freq), ByCountDescending), topN);
  }

  /** `Object.entries(freq)` listed in the key order `order`. */
  function RecordEntries(order: seq<string>, freq: map<string, nat>): (r: seq<WordCount>)
    requires forall k :: k in order ==> k in freq
    ensures |r| == |order|
    ensures forall j :: 0 <= j < |order| ==> r[j].word == order[j]
  {
    seq(|order|, j requires 0 <= j < |order| => WordCount(order[j], freq[order[j]]))
  }

  /** A record that counts `words` has the entries that count `words`. */
  lemma RecordEntriesCount(order: seq<string>, freq: map<string, nat>, words: seq<string>)
    requires forall k :: k in order ==> k in freq && freq[k] == Count(words, k)
    ensures RecordEntries(order, freq) == Entries(order, words)
  {
    var r := RecordEntries(order, freq);
    assert forall j :: 0 <= j < |order| ==> r[j] == Entries(order, words)[j];
  }

  /** One entry per distinct word, each with its count. */
  lemma CountedWords(words: seq<string>)
    ensures var entries := Entries(EntryOrder(Dedupe(words)), words);
            && Distinct(entries)
            && (forall e :: e in entries ==> e.word in words && e.count == Count(words, e.word))
            && (forall w :: w in words ==> WordCount(w, Count(words, w)) in entries)
  {
    var keys := Dedupe(words);
    var order := EntryOrder(keys);
    var entries := Entries(order, words);
    DistinctMultiset(keys, order);
    forall i, j | 0 <= i < j < |entries| ensures entries[i] != entries[j] {
      assert entries[i].word == order[i] && entries[j].word == order[j];
    }
    forall e | e in entries ensures e.word in words && e.count == Count(words, e.word) {
      var i :| 0 <= i < |entries| && entries[i] == e;
      assert multiset(order)[order[i]] > 0;
    }
    forall w | w in words ensures WordCount(w, Count(words, w)) in entries {
      assert multiset(keys)[w] > 0;
      var i :| 0 <= i < |order| && order[i] == w;
      assert entries[i] == WordCount(w, Count(words, w));
    }
  }

  /** The sorted entries are the counted distinct words ... */
  lemma SortedEntries(words: seq<string>)
    ensures var sorted := SortBy(Entries(EntryOrder(Dedupe(words)), words), ByCountDescending);
            && (forall e :: e in sorted ==> e.word in words && e.count == Count(words, e.word))
            && (forall w :: w in words ==> WordCount(w, Count(words, w)) in sorted)
            && (forall i, j :: 0 <= i < j < |sorted| ==> sorted[i].word != sorted[j].word)
  {
    var entries := Entries(EntryOrder(Dedupe(words)), words);
    var sorted := SortBy(entries, ByCountDescending);
    CountedWords(words);
    DistinctMultiset(entries, sorted);
    forall i, j | 0 <= i < j < |sorted| ensures sorted[i].word != sorted[j].word {
      assert sorted[i] in entries && sorted[j] in entries;
      assert sorted[i] != sorted[j];
    }
  }

  /** ... in order of non-increasing count. */
  lemma SortedCounts(entries: seq<WordCount>)
    ensures var sorted := SortBy(entries, ByCountDescending);
            forall i, j :: 0 <= i < j < |sorted| ==> sorted[i].count >= sorted[j].count
  {
    var sorted := SortBy(entries, ByCountDescending);
    forall i, j | 0 <= i < j < |sorted| ensures sorted[i].count >= sorted[j].count {
      assert ByCountDescending(sorted[i]) <= ByCountDescending(sorted[j]);
    }
  }

  /** The table `getMostCommonWords` returns has at most `topN` entries, by
      non-increasing count, each word once. */
  lemma MostCommonOrdered(words: seq<string>, topN: nat)
    ensures var r := MostCommon(words, topN);
            && |r| <= topN
            && (forall i, j :: 0 <= i < j < |r| ==> r[i].count >= r[j].count)
            && (forall i, j :: 0 <= i < j < |r| ==> r[i].word != r[j].word)
  {
    var sorted := SortBy(Entries(EntryOrder(Dedupe(words)), words), ByCountDescending);
    var r := MostCommon(words, topN);
    SortedEntries(words);
    SortedCounts(Entries(EntryOrder(Dedupe(words)), words));
    assert forall i :: 0 <= i < |r| ==> r[i] == sorted[i];
  }

  /** Each entry of the table is a word of the input with its exact, positive number
      of occurrences. */
  lemma MostCommonCounts(words: seq<string>, topN: nat)
    ensures forall e :: e in MostCommon(words, topN) ==>
              e.word in words && e.count == Count(words, e.word) && e.count >= 1
  {
    var sorted := SortBy(Entries(EntryOrder(Dedupe(words)), words), ByCountDescending);
    var r := MostCommon(words, topN);
    SortedEntries(words);
    forall e | e in r ensures e.word in words && e.count == Count(words, e.word) && e.count >= 1 {
      assert e in sorted;
      CountPositive(words, e.word);
    }
  }

  /** Cutting a list sorted by non-increasing count keeps every entry at least as
      frequent as one it drops. */
  lemma TakeKeepsFrequent(sorted: seq<WordCount>, n: nat, x: WordCount)
    requires x in sorted
    requires forall i, j :: 0 <= i < j < |sorted| ==> sorted[i].count >= sorted[j].count
    ensures x !in Take(sorted, n) ==> |Take(sorted, n)| == n && forall e :: e in Take(sorted, n) ==> x.count <= e.count
  {
    var r := Take(sorted, n);
    var k :| 0 <= k < |sorted| && sorted[k] == x;
    if x !in r {
      assert forall i :: 0 <= i < |r| ==> r[i] == sorted[i] && r[i] != x;
      assert k >= |r|;
    }
  }

  /** No word is crowded out by a rarer one: a word left out of the table occurs no more
      often than any word in it, and is left out only when the table is full. */
  lemma MostCommonComplete(words: seq<string>, topN: nat, w: string)
    requires w in words
    ensures var r := MostCommon(words, topN);
            (forall e :: e in r ==> e.word != w) ==>
              |r| == topN && forall e :: e in r ==> Count(words, w) <= e.count
  {
    var entries := Entries(EntryOrder(Dedupe(words)), words);
    SortedEntries(words);
    SortedCounts(entries);
    TakeKeepsFrequent(SortBy(entries, ByCountDescending), topN, WordCount(w, Count(words, w)));
  }

  /** `getMostCommonWords` on a text: no stopword is listed, and each count is the number
      of times the word occurs among the lower-case tokens. */
  lemma MostCommonWordsProperties(text: string, lex: Lexicon, topN: nat)
    ensures var r := MostCommon(ContentWords(text, lex), topN);
            forall e :: e in r ==> && e.word !in lex.stopwords
                                   && e.word in LowerTokens(text)
                                   && e.count == Count(LowerTokens(text), e.word)
  {
    var words := ContentWords(text, lex);
    MostCommonCounts(words, topN);
    forall e | e in MostCommon(words, topN)
      ensures e.count == Count(LowerTokens(text), e.word)
    {
      ContentWordsCount(text, lex, e.word);
    }
  }

  // ------------------------------------------------------------- spelling errors

  predicate IsMisspelt(lex: Lexicon, w: string)
  {
    w !in lex.stopwords && w !in lex.dictionary
  }

  /** `getSpellingErrors`: the lower-case tokens that are neither stopwords nor in the
      dictionary, in order, with repetitions. */
  function SpellingErrors(text: string, lex: Lexicon): (r: seq<string>)
    ensures forall w :: w in r <==> w in LowerTokens(text) && w !in lex.stopwords && w !in lex.dictionary
    ensures IsSubsequence(r, LowerTokens(text))
  {
    Filter(LowerTokens(text), w => IsMisspelt(lex, w))
  }

  /** Every occurrence of an unknown word is reported, and nothing else. */
  lemma SpellingErrorsCount(text: string, lex: Lexicon, w: string)
    ensures Count(SpellingErrors(text, lex), w) ==
            if IsMisspelt(lex, w) then Count(LowerTokens(text), w) else 0
  {
    FilterCount(LowerTokens(text), x => IsMisspelt(lex, x), w);
  }

  // ----------------------------------------------------------------- passive voice

  /** `was|were|is|are|been|being` */
  predicate IsAuxiliary(w: string)
  {
    w == "was" || w == "were" || w == "is" || w == "are" || w == "been" || w == "being"
  }

  /** `/\b(was|were|is|are|been|being)\b\s+\w+ed\b/i` matches at position `i` with an
      auxiliary of length `n`: the auxiliary starts at a word boundary and is followed by
      white space and then by a word of at least three characters ending in "ed". */
  predicate PassiveAt(s: string, i: nat, n: nat)
  {
    && i + n <= |s|
    && IsAuxiliary(Lower(s[i..i + n]))
    && (i == 0 || !IsWordChar(s[i - 1]))
    && var k := SpaceRun(s[i + n..]);
       var j := i + n + k;
       var m := WordRun(s[j..]);
       && k >= 1
       && m >= 3
       && Lower(s[j + m - 2..j + m]) == "ed"
  }

  /** The regular-expression test of `getPassiveVoiceSentences`. */
  predicate IsPassive(s: string)
  {
    exists i: nat, n: nat :: i < |s| && 2 <= n <= 5 && PassiveAt(s, i, n)
  }

  /** `getPassiveVoiceSentences`: the sentences that contain a passive construction. */
  function PassiveVoiceSentences(text: string): (r: seq<string>)
    ensures forall t :: t in r <==> t in Sentences(text) && IsPassive(t)
    ensures IsSubsequence(r, Sentences(text))
  {
    Filter(Sentences(text), IsPassive)
  }

  /** The run of non-terminators has the length where the first terminator stands. */
  lemma {:induction false} PlainRunIs(s: string, n: nat)
    requires n <= |s| && (forall i :: 0 <= i < n ==> !IsTerminator(s[i]))
    requires n < |s| ==> IsTerminator(s[n])
    ensures PlainRun(s) == n
  {
    if n > 0 {
      PlainRunIs(s[1..], n - 1);
    }
  }

  /** The run of white space has the length where the first other character stands. */
  lemma {:induction false} SpaceRunIs(s: string, n: nat)
    requires n <= |s| && (forall i :: 0 <= i < n ==> IsSpace(s[i]))
    requires n < |s| ==> !IsSpace(s[n])
    ensures SpaceRun(s) == n
  {
    if n > 0 {
      SpaceRunIs(s[1..], n - 1);
    }
  }

  /** A text that ends in its only terminator is one sentence. */
  lemma OneSentence(s: string)
    requires |s| >= 2 && !IsTerminator(s[0]) && IsTerminator(s[|s| - 1])
    requires forall i :: 0 <= i < |s| - 1 ==> !IsTerminator(s[i])
    ensures Sentences(s) == [s]
  {
    PlainRunIs(s, |s| - 1);
    assert s[..|s|] == s;
    assert s[|s|..] == [];
  }

  /** "was completed" in "The report was completed." is a passive construction. */
  lemma PassiveExampleMatch(s: string)
    requires s == "The report was completed."
    ensures PassiveAt(s, 11, 3)
  {
    assert Lower(s[11..14]) == "was";
    SpaceRunIs(s[14..], 1);
    WordRunIs(s[15..], 9);
    assert Lower(s[22..24]) == "ed";
  }

  /** "The report was completed." is a single sentence. */
  lemma PassiveExampleSentence(s: string)
    requires s == "The report was completed."
    ensures Sentences(s) == [s]
  {
    OneSentence(s);
  }

  /** "The report was completed." is reported as a passive sentence. */
  lemma PassiveExample(s: string)
    requires s == "The report was completed."
    ensures PassiveVoiceSentences(s) == [s]
  {
    PassiveExampleSentence(s);
    PassiveExampleMatch(s);
    assert IsPassive(s);
    assert Filter([s], IsPassive) == [s] + Filter([s][1..], IsPassive);
    assert [s][1..] == [];
  }

  // ------------------------------------------------------------ sentence lengths

  /** `Math.min(...xs)`; `None` stands for the `Infinity` of an empty list. */
  function MinOf(xs: seq<nat>): (m: Option<nat>)
    ensures m.None? <==> xs == []
    ensures m.Some? ==> m.value in xs && forall x :: x in xs ==> m.value <= x
  {
    if xs == [] then None
    else
      var rest := MinOf(xs[1..]);
      assert forall x :: x in xs ==> x == xs[0] || x in xs[1..];
      if rest.None? || xs[0] <= rest.value then Some(xs[0]) else rest
  }

  /** `Math.max(...xs)`; `None` stands for the `-Infinity` of an empty list. */
  function MaxOf(xs: seq<nat>): (m: Option<nat>)
    ensures m.None? <==> xs == []
    ensures m.Some? ==> m.value in xs && forall x :: x in xs ==> x <= m.value
  {
    if xs == [] then None
    else
      var rest := MaxOf(xs[1..]);
      assert forall x :: x in xs ==> x == xs[0] || x in xs[1..];
      if rest.None? || xs[0] >= rest.value then Some(xs[0]) else rest
  }

  /** `xs.reduce((a, b) => a + b, 0)` */
  function Sum(xs: seq<nat>): nat
  {
    if xs == [] then 0 else xs[0] + Sum(xs[1..])
  }

  /** A sum lies between the count times the smallest and the count times the largest. */
  lemma {:induction false} SumBounds(xs: seq<nat>, lo: nat, hi: nat)
    requires forall x :: x in xs ==> lo <= x <= hi
    ensures |xs| * lo <= Sum(xs) <= |xs| * hi
  {
    if xs != [] {
      assert forall x :: x in xs[1..] ==> x in xs;
      SumBounds(xs[1..], lo, hi);
      assert xs[0] in xs;
      MulSucc(|xs[1..]|, lo);
      MulSucc(|xs[1..]|, hi);
    }
  }

  lemma MulSucc(n: nat, c: nat)
    ensures (n + 1) * c == c + n * c
  {
  }

  datatype SentenceStats = SentenceStats(min: Option<nat>, max: Option<nat>, avg: real, distribution: seq<nat>)

  /** The number of white-space separated words of each sentence. */
  function SentenceLengths(text: string): (r: seq<nat>)
    ensures |r| == |Sentences(text)|
    ensures forall i :: 0 <= i < |r| ==> r[i] == |Fields(Sentences(text)[i])|
  {
    var ss := Sentences(text);
    seq(|ss|, i requires 0 <= i < |ss| => |Fields(ss[i])|)
  }

  /** `getSentenceLengthStats` */
  function SentenceLengthStats(text: string): (r: SentenceStats)
    ensures r.distribution == SentenceLengths(text)
    ensures r.min.None? <==> Sentences(text) == []
    ensures r.max.None? <==> Sentences(text) == []
    ensures r.min.Some? ==> r.min.value in r.distribution && forall x :: x in r.distribution ==> r.min.value <= x
    ensures r.max.Some? ==> r.max.value in r.distribution && forall x :: x in r.distribution ==> x <= r.max.value
    ensures r.avg == Ratio(Sum(r.distribution), |r.distribution|)
  {
    var lengths := SentenceLengths(text);
    SentenceStats(MinOf(lengths), MaxOf(lengths), Ratio(Sum(lengths), |lengths|), lengths)
  }

  /** The average sentence length lies between the shortest and the longest. */
  lemma AverageBetween(text: string)
    requires Sentences(text) != []
    ensures var r := SentenceLengthStats(text);
            (r.min.value as real) <= r.avg <= (r.max.value as real)
  {
    var r := SentenceLengthStats(text);
    var n := |r.distribution|;
    SumBounds(r.distribution, r.min.value, r.max.value);
    MeanBetween(Sum(r.distribution), n, r.min.value, r.max.value);
  }

  /** A total between `n * lo` and `n * hi` has its mean between `lo` and `hi`. */
  lemma MeanBetween(total: nat, n: nat, lo: nat, hi: nat)
    requires n > 0 && n * lo <= total <= n * hi
    ensures (lo as real) <= Ratio(total, n) <= (hi as real)
  {
    var N := n as real;
    var m := Ratio(total, n);
    assert m * N == total as real;
    assert N * (lo as real) <= N * m by {
      assert (n * lo) as real == N * (lo as real);
    }
    assert N * m <= N * (hi as real) by {
      assert (n * hi) as real == N * (hi as real);
    }
    ScaleBack(lo as real, m, N);
    ScaleBack(m, hi as real, N);
  }

  // ------------------------------------------------------------------ reading time

  /** `getEstimatedReadingTime`: minutes at 200 words a minute. */
  function ReadingTime(wordCount: nat): (r: real)
    ensures r * 200.0 == wordCount as real
    ensures r >= 0.0
  {
    wordCount as real / 200.0
  }

  // ------------------------------------------------------------------ bullet lines

  /** `/^\s*[-*•]/`: the first character after leading white space is a marker. */
  predicate IsBulletLine(l: string)
  {
    SpaceRun(l) < |l| && IsMarker(l[SpaceRun(l)])
  }

  /** `Math.round((a / b) * 100)` computed exactly: `floor(100a/b + 1/2)`. */
  function RoundPercent(a: int, b: nat): int
    requires b > 0
  {
    (200 * a + b) / (2 * b)
  }

  /** The rounding is to the nearest integer, halves upwards, as `Math.round` does. */
  lemma RoundPercentNearest(a: int, b: nat)
    requires b > 0
    ensures var r := RoundPercent(a, b);
            (r as real) - 0.5 <= 100.0 * (a as real) / (b as real) < (r as real) + 0.5
  {
    var r := RoundPercent(a, b);
    assert 2 * b * r <= 200 * a + b < 2 * b * r + 2 * b;
    CastProduct(2 * b, r);
    var B := b as real;
    var R := r as real;
    assert 2.0 * B * R <= 200.0 * (a as real) + B < 2.0 * B * R + 2.0 * B;
    NearestFromBracket(a as real, B, R);
  }

  /** The real-number half of `RoundPercentNearest`. */
  lemma NearestFromBracket(A: real, B: real, R: real)
    requires B > 0.0
    requires 2.0 * B * R <= 200.0 * A + B < 2.0 * B * R + 2.0 * B
    ensures R - 0.5 <= 100.0 * A / B < R + 0.5
  {
    var x := 100.0 * A / B;
    var P := R * B;
    assert x * B == 100.0 * A;
    assert 2.0 * B * R == 2.0 * P;
    assert 2.0 * P <= 200.0 * A + B < 2.0 * P + 2.0 * B;
    assert (R - 0.5) * B == P - 0.5 * B;
    assert (R + 0.5) * B == P + 0.5 * B;
    assert P - 0.5 * B <= 100.0 * A < P + 0.5 * B;
    ScaleBack(R - 0.5, x, B);
    ScaleBack(x, R + 0.5, B);
  }

  lemma CastProduct(p: int, q: int)
    ensures (p * q) as real == (p as real) * (q as real)
  {
  }

  /** Inequalities between multiples of a positive number carry over to the factors. */
  lemma ScaleBack(u: real, v: real, B: real)
    requires B > 0.0
    ensures u * B <= v * B ==> u <= v
    ensures u * B < v * B ==> u < v
  {
    if u > v {
      assert u * B > v * B;
    }
  }

  /** A share of a whole rounds to a percentage between 0 and 100. */
  lemma RoundPercentRange(a: int, b: nat)
    requires b > 0 && 0 <= a <= b
    ensures 0 <= RoundPercent(a, b) <= 100
    ensures a == 0 ==> RoundPercent(a, b) == 0
    ensures a == b ==> RoundPercent(a, b) == 100
  {
    DivAtMost(200 * a + b, 2 * b, 100);
    if a == 0 {
      DivIs(200 * a + b, 2 * b, 0);
    }
    if a == b {
      DivIs(200 * a + b, 2 * b, 100);
    }
  }

  /** A quotient below `k + 1` times the divisor is at most `k`. */
  lemma DivAtMost(n: int, d: int, k: int)
    requires d > 0 && 0 <= n < d * (k + 1)
    ensures 0 <= n / d <= k
  {
    var r := n / d;
    assert d * r <= n < d * r + d;
    if r > k {
      MulMono(k + 1, r, d);
    }
    if r < 0 {
      MulMono(r + 1, 0, d);
    }
  }

  lemma MulMono(x: int, y: int, d: int)
    requires x <= y && d >= 0
    ensures d * x <= d * y
  {
    assert d * y - d * x == d * (y - x);
  }

  /** The quotient is the `q` whose multiple of the divisor brackets the dividend. */
  lemma DivIs(n: int, d: int, q: int)
    requires d > 0 && d * q <= n < d * q + d
    ensures n / d == q
  {
    var r := n / d;
    assert d * r <= n < d * r + d;
    if r < q {
      MulMono(r + 1, q, d);
    }
    if r > q {
      MulMono(q + 1, r, d);
    }
  }

  datatype BulletStats = BulletStats(bulletCount: nat, totalLines: nat, percentBullets: int)

  /** `getBulletPointStats`. `split` always yields at least one line, so the `0` branch
      of the source is never taken. */
  function BulletPointStats(text: string): (r: BulletStats)
    ensures r.totalLines == LineBreaks(text) + 1
    ensures r.bulletCount == |Filter(Lines(text), IsBulletLine)| <= r.totalLines
    ensures r.percentBullets == RoundPercent(r.bulletCount, r.totalLines)
    ensures 0 <= r.percentBullets <= 100
  {
    var lines := Lines(text);
    var bullets := Filter(lines, IsBulletLine);
    LinesLength(text);
    RoundPercentRange(|bullets|, |lines|);
    BulletStats(|bullets|, |lines|, RoundPercent(|bullets|, |lines|))
  }

  // --------------------------------------------------------------------- clichés

  const Cliches: seq<string> := [
    "team player", "hard worker", "go-getter", "think outside the box", "detail-oriented",
    "results-driven", "fast learner", "self-starter", "dynamic", "synergy", "proactive",
    "track record", "problem solver"]

  /** `getCliches`: the listed phrases the text contains, ignoring case, in list order. */
  function ClichesIn(text: string): (r: seq<string>)
    ensures forall c :: c in r <==> c in Cliches && ContainsIgnoreCase(text, c)
    ensures IsSubsequence(r, Cliches)
    ensures |r| <= 13
  {
    Filter(Cliches, c => ContainsIgnoreCase(text, c))
  }

  /** "team player" in any capitalisation is reported. */
  lemma ClicheExample(text: string)
    requires Lower(text) == "team player"
    ensures "team player" in ClichesIn(text)
  {
    FirstCliche();
    assert ContainsIgnoreCase(text, Cliches[0]) by {
      ContainsSelf(Lower(text));
    }
    ClicheReported(text, 0);
  }

  /** A listed phrase the text contains is reported. */
  lemma ClicheReported(text: string, i: nat)
    requires i < |Cliches| && ContainsIgnoreCase(text, Cliches[i])
    ensures Cliches[i] in ClichesIn(text)
  {
  }

  /** Every text contains itself. */
  lemma ContainsSelf(s: string)
    ensures Contains(s, s)
  {
    assert s[..|s|] == s;
  }

  /** The first listed phrase is "team player", already in lower case. */
  lemma FirstCliche()
    ensures Cliches[0] == "team player" && Lower(Cliches[0]) == "team player"
  {
    var c := Cliches[0];
    assert c == "team player";
    assert forall i :: 0 <= i < |c| ==> 'a' <= c[i] <= 'z' || c[i] == ' ';
    LowerNoUpper(c);
  }

  /** Lines of one visible character other than a marker are not bullet lines. */
  lemma PlainLines(ls: seq<string>)
    requires forall l :: l in ls ==> |l| == 1 && !IsSpace(l[0]) && !IsMarker(l[0])
    ensures forall l :: l in ls ==> !IsBulletLine(l)
  {
    forall l | l in ls ensures !IsBulletLine(l) {
      assert SpaceRun(l) == 0;
    }
  }

  /** Bullet lines followed by other lines: exactly the bullet lines are counted. */
  lemma {:induction false} BulletLinesFirst(bullets: seq<string>, plain: seq<string>)
    requires forall l :: l in bullets ==> IsBulletLine(l)
    requires forall l :: l in plain ==> !IsBulletLine(l)
    ensures Filter(bullets + plain, IsBulletLine) == bullets
  {
    if bullets == [] {
      assert bullets + plain == plain;
      NoBulletLines(plain);
    } else {
      var s := bullets + plain;
      assert s[0] == bullets[0] && s[1..] == bullets[1..] + plain;
      assert bullets[0] in bullets;
      BulletLinesFirst(bullets[1..], plain);
    }
  }

  /** Lines none of which is a bullet line count no bullets. */
  lemma {:induction false} NoBulletLines(ls: seq<string>)
    requires forall l :: l in ls ==> !IsBulletLine(l)
    ensures Filter(ls, IsBulletLine) == []
  {
    if ls != [] {
      assert ls[0] in ls;
      NoBulletLines(ls[1..]);
    }
  }

  /** The statistics of lines joined by line breaks: the bullet lines among them, all of
      them, and the rounded share. */
  lemma BulletStatsOfLines(lines: seq<string>)
    requires lines != []
    requires forall k :: 0 <= k < |lines| ==> NoLineBreak(lines[k])
    ensures var n := |Filter(lines, IsBulletLine)|;
            BulletPointStats(Join(lines, "\n")) == BulletStats(n, |lines|, RoundPercent(n, |lines|))
  {
    LinesJoin(lines);
  }

  /** Of the ten example lines, the three starting with a marker are bullet lines. */
  lemma ExampleBulletLines(bullets: seq<string>, plain: seq<string>)
    requires bullets == ["- a", "- b", "* c"]
    requires plain == ["d", "e", "f", "g", "h", "i", "j"]
    ensures Filter(bullets + plain, IsBulletLine) == bullets
  {
    MarkerLine(bullets[0]);
    MarkerLine(bullets[1]);
    MarkerLine(bullets[2]);
    PlainLines(plain);
    BulletLinesFirst(bullets, plain);
  }

  /** A line that starts with a marker is a bullet line. */
  lemma MarkerLine(l: string)
    requires l != [] && IsMarker(l[0])
    ensures IsBulletLine(l)
  {
    assert !IsSpace(l[0]);
    assert SpaceRun(l) == 0;
  }

  /** Three bullet lines among ten give 30 percent. */
  lemma BulletExample(text: string, bullets: seq<string>, plain: seq<string>)
    requires bullets == ["- a", "- b", "* c"]
    requires plain == ["d", "e", "f", "g", "h", "i", "j"]
    requires text == Join(bullets + plain, "\n")
    ensures BulletPointStats(text) == BulletStats(3, 10, 30)
  {
    var lines := bullets + plain;
    assert forall k :: 0 <= k < |lines| ==> NoLineBreak(lines[k]);
    BulletStatsOfLines(lines);
    ExampleBulletLines(bullets, plain);
    assert RoundPercent(3, 10) == 30;
  }

  // -------------------------------------------------------------------- syllables

  /** `[aeiouy]` */
  predicate IsVowel(c: char)
  {
    c == 'a' || c == 'e' || c == 'i' || c == 'o' || c == 'u' || c == 'y'
  }

  /** `[laeiouy]` */
  predicate IsLOrVowel(c: char)
  {
    c == 'l' || IsVowel(c)
  }

  /** `w.replace(/(?:[^laeiouy]es|ed|[^laeiouy]e)$/, "")`. The leftmost match wins, so a
      three-character "Xes" ending is tried before the two-character ones, and the
      consonant before "es" or "e" is removed with it. */
  function StripSuffix(w: string): (r: string)
    ensures |r| <= |w| && r == w[..|r|]
  {
    var n := |w|;
    if n >= 3 && !IsLOrVowel(w[n - 3]) && w[n - 2] == 'e' && w[n - 1] == 's' then w[..n - 3]
    else if n >= 2 && w[n - 2] == 'e' && w[n - 1] == 'd' then w[..n - 2]
    else if n >= 2 && !IsLOrVowel(w[n - 2]) && w[n - 1] == 'e' then w[..n - 2]
    else w
  }

  /** `w.replace(/^y/, "")` */
  function StripLeadingY(w: string): (r: string)
    ensures |r| <= |w|
  {
    if w != [] && w[0] == 'y' then w[1..] else w
  }

  /** `(w.match(/[aeiouy]{1,2}/g) || []).length`: vowels taken greedily two at a time. */
  function VowelGroups(w: string): (n: nat)
    ensures n <= |w|
  {
    if w == [] then 0
    else if !IsVowel(w[0]) then VowelGroups(w[1..])
    else if |w| >= 2 && IsVowel(w[1]) then 1 + VowelGroups(w[2..])
    else 1 + VowelGroups(w[1..])
  }

  /** Length of the run of vowels at the start of `w`. */
  function VowelRun(w: string): (n: nat)
    ensures n <= |w|
    ensures forall i :: 0 <= i < n ==> IsVowel(w[i])
    ensures n < |w| ==> !IsVowel(w[n])
  {
    if w == [] || !IsVowel(w[0]) then 0 else 1 + VowelRun(w[1..])
  }

  /** Reference count: every maximal run of `k` vowels contributes `ceil(k / 2)`. */
  function HalfRuns(w: string): nat
  {
    if w == [] then 0
    else if !IsVowel(w[0]) then HalfRuns(w[1..])
    else
      var k := VowelRun(w);
      (k + 1) / 2 + HalfRuns(w[k..])
  }

  /** A vowel run of length `k` yields `ceil(k / 2)` matches. */
  lemma {:induction false} VowelGroupsRun(w: string, k: nat)
    requires k == VowelRun(w)
    ensures VowelGroups(w) == (k + 1) / 2 + VowelGroups(w[k..])
    decreases k
  {
    if k == 1 {
    } else if k >= 2 {
      assert w[2..][k - 2..] == w[k..];
      VowelRunTail(w, k);
      VowelGroupsRun(w[2..], k - 2);
    }
  }

  lemma VowelRunTail(w: string, k: nat)
    requires k == VowelRun(w) && k >= 2
    ensures VowelRun(w[2..]) == k - 2
  {
    assert VowelRun(w[1..]) == k - 1;
    assert w[1..][1..] == w[2..];
  }

  /** The greedy regular-expression count agrees with the run-based reference. */
  lemma {:induction false} VowelGroupsByRuns(w: string)
    ensures VowelGroups(w) == HalfRuns(w)
    decreases |w|
  {
    if w != [] {
      if !IsVowel(w[0]) {
        VowelGroupsByRuns(w[1..]);
      } else {
        var k := VowelRun(w);
        VowelGroupsRun(w, k);
        VowelGroupsByRuns(w[k..]);
      }
    }
  }

  /** `countSyllables` */
  function Syllables(word: string): (n: nat)
    ensures n >= 1
    ensures |word| <= 3 ==> n == 1
    ensures n <= |word| || n == 1
  {
    var w := Lower(word);
    if |w| <= 3 then 1
    else
      var groups := VowelGroups(StripLeadingY(StripSuffix(w)));
      if groups == 0 then 1 else groups
  }

  /** A word longer than three characters has as many syllables as half-rounded-up vowel
      runs remain after the suffix and a leading "y" are stripped, and at least one. */
  lemma SyllablesByRuns(word: string)
    requires |word| > 3
    ensures var h := HalfRuns(StripLeadingY(StripSuffix(Lower(word))));
            Syllables(word) == if h == 0 then 1 else h
  {
    VowelGroupsByRuns(StripLeadingY(StripSuffix(Lower(word))));
  }

  /** "reading" has two syllables: "ea" and "i". */
  lemma SyllablesReading(w: string)
    requires w == "reading"
    ensures Syllables(w) == 2
  {
    assert Lower(w) == w;
    assert StripSuffix(w) == w;
    assert VowelGroups(w[5..]) == 0 by {
      assert w[5..] == "ng";
    }
    assert VowelGroups(w[3..]) == 1 by {
      assert w[3..][1..] == w[4..] && w[4..][1..] == w[5..];
    }
    assert VowelGroups(w) == 2 by {
      assert w[1..][2..] == w[3..];
    }
  }

  /** "makes" loses "kes" with its consonant and keeps one syllable. */
  lemma SyllablesMakes(w: string)
    requires w == "makes"
    ensures Syllables(w) == 1
  {
    assert Lower(w) == w;
    assert StripSuffix(w) == "ma";
  }

  // ---------------------------------------------------------------- reading ease

  /** Syllables of a list of words (`words.reduce((acc, w) => acc + countSyllables(w), 0)`). */
  function TotalSyllables(words: seq<string>): (n: nat)
    ensures n >= |words|
  {
    if words == [] then 0 else Syllables(words[0]) + TotalSyllables(words[1..])
  }

  /** `n || 1` */
  function OrOne(n: nat): (r: nat)
    ensures r >= 1
  {
    if n == 0 then 1 else n
  }

  /** `206.835 - 1.015 * ASL - 84.6 * ASW` with average sentence length `ASL` and average
      syllables per word `ASW`; each denominator falls back to 1 when it would be 0. */
  function FleschScore(sentences: nat, words: nat, syllables: nat): real
  {
    206.835 - 1.015 * (words as real / OrOne(sentences) as real)
            - 84.6 * (syllables as real / OrOne(words) as real)
  }

  /** `getFleschReadingEase`: sentences as `[^.!?]+[.!?]` matches, words as `\w+` runs
      (case kept). */
  function FleschReadingEase(text: string): (r: real)
    ensures r <= 206.835
    ensures Tokens(text) != [] ==> r <= 122.235
  {
    var words := Tokens(text);
    var syllables := TotalSyllables(words);
    FleschBound(|Sentences(text)|, |words|, syllables);
    FleschScore(|Sentences(text)|, |words|, syllables)
  }

  /** Since every word has a syllable, a text with words scores at most 206.835 - 84.6. */
  lemma FleschBound(sentences: nat, words: nat, syllables: nat)
    requires syllables >= words
    ensures FleschScore(sentences, words, syllables) <= 206.835
    ensures words > 0 ==> FleschScore(sentences, words, syllables) <= 122.235
  {
    var asl := words as real / OrOne(sentences) as real;
    var asw := syllables as real / OrOne(words) as real;
    assert asl * (OrOne(sentences) as real) == words as real;
    assert asw * (OrOne(words) as real) == syllables as real;
    ScaleBack(0.0, asl, OrOne(sentences) as real);
    ScaleBack(0.0, asw, OrOne(words) as real);
    assert FleschScore(sentences, words, syllables) == 206.835 - 1.015 * asl - 84.6 * asw;
    assert 1.015 * asl >= 0.0 && 84.6 * asw >= 0.0;
    if words > 0 {
      assert 1.0 * (words as real) <= asw * (words as real);
      ScaleBack(1.0, asw, words as real);
      assert 84.6 * asw >= 84.6;
    }
  }

  // -------------------------------------------------------- section readability

  /** `resumeData.personalInfo.summary || ""` */
  function SummaryText(d: ResumeData): string
  {
    d.personalInfo.summary.GetOr("")
  }

  /** `workExperience.map((w) => w.description).join(" ")`; `join` prints a missing
      description as "". */
  function WorkText(d: ResumeData): string
  {
    var ws := d.workExperience;
    Join(seq(|ws|, i requires 0 <= i < |ws| => ws[i].description.GetOr("")), " ")
  }

  /** `${e.degree} ${e.field} ${e.institution}` */
  function EducationLine(e: Education): string
  {
    e.degree + " " + e.field + " " + e.institution
  }

  function EducationLines(d: ResumeData): seq<string>
  {
    var es := d.education;
    seq(|es|, i requires 0 <= i < |es| => EducationLine(es[i]))
  }

  /** `skillCategories.flatMap((c) => c.skills)` */
  function AllSkills(cs: seq<SkillCategory>): (r: seq<string>)
    ensures forall s :: s in r <==> exists c :: c in cs && s in c.skills
  {
    if cs == [] then []
    else
      assert forall c :: c in cs <==> c == cs[0] || c in cs[1..];
      cs[0].skills + AllSkills(cs[1..])
  }

  datatype SectionReadability = SectionReadability(summary: real, work: real, education: real, skills: real)

  /** `getSectionReadability`: the reading ease of each section's text. */
  function SectionReadabilityOf(d: ResumeData): (r: SectionReadability)
    ensures r.summary == FleschReadingEase(SummaryText(d))
    ensures r.work == FleschReadingEase(WorkText(d))
    ensures r.education == FleschReadingEase(Join(EducationLines(d), " "))
    ensures r.skills == FleschReadingEase(Join(AllSkills(d.skillCategories), " "))
    ensures r.summary <= 206.835 && r.work <= 206.835 && r.education <= 206.835 && r.skills <= 206.835
  {
    SectionReadability(
      FleschReadingEase(SummaryText(d)),
      FleschReadingEase(WorkText(d)),
      FleschReadingEase(Join(EducationLines(d), " ")),
      FleschReadingEase(Join(AllSkills(d.skillCategories), " ")))
  }

  /** Each section's score reads only that section: résumés that agree on a section's
      fields get the same score for it, whatever else differs. */
  lemma SectionReadabilityLocal(d: ResumeData, e: ResumeData)
    ensures e.personalInfo.summary == d.personalInfo.summary ==>
              SectionReadabilityOf(e).summary == SectionReadabilityOf(d).summary
    ensures |e.workExperience| == |d.workExperience| &&
            (forall i :: 0 <= i < |d.workExperience| ==> e.workExperience[i].description == d.workExperience[i].description) ==>
              SectionReadabilityOf(e).work == SectionReadabilityOf(d).work
    ensures |e.education| == |d.education| &&
            (forall i :: 0 <= i < |d.education| ==>
               e.education[i].degree == d.education[i].degree && e.education[i].field == d.education[i].field &&
               e.education[i].institution == d.education[i].institution) ==>
              SectionReadabilityOf(e).education == SectionReadabilityOf(d).education
    ensures |e.skillCategories| == |d.skillCategories| &&
            (forall i :: 0 <= i < |d.skillCategories| ==> e.skillCategories[i].skills == d.skillCategories[i].skills) ==>
              SectionReadabilityOf(e).skills == SectionReadabilityOf(d).skills
  {
    if |e.workExperience| == |d.workExperience| &&
       (forall i :: 0 <= i < |d.workExperience| ==> e.workExperience[i].description == d.workExperience[i].description) {
      assert WorkText(e) == WorkText(d) by {
        var ws, vs := d.workExperience, e.workExperience;
        assert seq(|vs|, i requires 0 <= i < |vs| => vs[i].description.GetOr(""))
            == seq(|ws|, i requires 0 <= i < |ws| => ws[i].description.GetOr(""));
      }
    }
    if |e.education| == |d.education| &&
       (forall i :: 0 <= i < |d.education| ==>
          e.education[i].degree == d.education[i].degree && e.education[i].field == d.education[i].field &&
          e.education[i].institution == d.education[i].institution) {
      assert EducationLines(e) == EducationLines(d);
    }
    if |e.skillCategories| == |d.skillCategories| &&
       (forall i :: 0 <= i < |d.skillCategories| ==> e.skillCategories[i].skills == d.skillCategories[i].skills) {
      SameSkills(e.skillCategories, d.skillCategories);
    }
  }

  lemma {:induction false} SameSkills(cs: seq<SkillCategory>, ds: seq<SkillCategory>)
    requires |cs| == |ds| && forall i :: 0 <= i < |ds| ==> cs[i].skills == ds[i].skills
    ensures AllSkills(cs) == AllSkills(ds)
  {
    if cs != [] {
      SameSkills(cs[1..], ds[1..]);
    }
  }

  // ------------------------------------------------------------ résumé analytics

  /** The pieces `getResumeAnalytics` joins: the summary, every description, every
      education line and every skill; a missing value stands as "". */
  function TextParts(d: ResumeData): seq<string>
  {
    var ws := d.workExperience;
    [SummaryText(d)]
    + seq(|ws|, i requires 0 <= i < |ws| => ws[i].description.GetOr(""))
    + EducationLines(d)
    + AllSkills(d.skillCategories)
  }

  predicate NonEmpty(s: string)
  {
    s != ""
  }

  /** `[...].filter(Boolean).join(" ")`: the non-empty pieces separated by one space. */
  function AllText(d: ResumeData): string
  {
    Join(Filter(TextParts(d), NonEmpty), " ")
  }

  /** The keyword density: the share of job-description tokens that are not reported
      missing, as a rounded percentage; 0 for a job description without tokens. */
  function KeywordDensity(analyzeResult: Option<AnalyzeResult>, jobDesc: string): (r: int)
    ensures Tokens(jobDesc) == [] ==> r == 0
    ensures Tokens(jobDesc) != [] && (analyzeResult.None? || analyzeResult.value.missingKeywords == []) ==> r == 100
  {
    var total := |Tokens(jobDesc)|;
    var missing := if analyzeResult.Some? then |analyzeResult.value.missingKeywords| else 0;
    if total == 0 then 0
    else if missing == 0 then RoundPercentRange(total, total); RoundPercent(total, total)
    else RoundPercent(total - missing, total)
  }

  lemma RoundPercentQuarters(c: nat)
    ensures RoundPercent(c, 4) == 25 * c
  {
    assert 200 * c + 4 == 8 * (25 * c) + 4;
  }

  /** When no more keywords are missing than the job description has tokens, the
      density is a percentage. */
  lemma KeywordDensityRange(r: AnalyzeResult, jobDesc: string)
    requires |r.missingKeywords| <= |Tokens(jobDesc)|
    ensures 0 <= KeywordDensity(Some(r), jobDesc) <= 100
  {
    var total := |Tokens(jobDesc)|;
    if total > 0 && r.missingKeywords != [] {
      RoundPercentRange(total - |r.missingKeywords|, total);
    }
  }

  /** The local keyword analysis never reports more keywords missing than there are
      tokens, so its density is a percentage. */
  lemma LocalKeywordDensityRange(jobDesc: string, resumeText: string, stopwords: set<string>)
    ensures 0 <= KeywordDensity(Some(KeywordGap(jobDesc, resumeText, stopwords)), jobDesc) <= 100
  {
    MissingAtMostTokens(jobDesc, resumeText, stopwords);
    KeywordDensityRange(KeywordGap(jobDesc, resumeText, stopwords), jobDesc);
  }

  datatype SectionStatus = SectionStatus(name: string, filled: bool)

  /** The four sections `getResumeAnalytics` checks: a summary that is not blank, at
      least one job, at least one education entry, and a category with a skill. */
  function Sections(d: ResumeData): (r: seq<SectionStatus>)
    ensures |r| == 4
    ensures r[0].filled <==> d.personalInfo.summary.Some? && !IsBlank(d.personalInfo.summary.value)
    ensures r[1].filled <==> d.workExperience != []
    ensures r[2].filled <==> d.education != []
    ensures r[3].filled <==> exists c :: c in d.skillCategories && c.skills != []
  {
    [ SectionStatus("Summary", HasSummary(d)),
      SectionStatus("Work Experience", |d.workExperience| > 0),
      SectionStatus("Education", |d.education| > 0),
      SectionStatus("Skills", HasSkill(d)) ]
  }

  /** `!!resumeData.personalInfo.summary?.trim()` */
  predicate HasSummary(d: ResumeData)
  {
    d.personalInfo.summary.Some? && Trim(d.personalInfo.summary.value) != ""
  }

  /** `resumeData.skillCategories.some((c) => c.skills.length > 0)` */
  predicate HasSkill(d: ResumeData)
  {
    exists c :: c in d.skillCategories && |c.skills| > 0
  }

  predicate IsFilled(s: SectionStatus)
  {
    s.filled
  }

  /** `Math.round((completed / sections.length) * 100)`: 25 points per filled section. */
  function Completeness(d: ResumeData): (r: int)
    ensures r == 25 * |Filter(Sections(d), IsFilled)|
    ensures r == 0 || r == 25 || r == 50 || r == 75 || r == 100
  {
    var sections := Sections(d);
    var completed := |Filter(sections, IsFilled)|;
    assert completed <= |sections|;
    assert completed in {0, 1, 2, 3, 4};
    RoundPercentQuarters(completed);
    RoundPercent(completed, 4)
  }

  datatype ResumeAnalytics = ResumeAnalytics(
    wordCount: nat,
    keywordDensity: int,
    completeness: int,
    sections: seq<SectionStatus>,
    uniqueWordCount: nat,
    vocabularyRichness: real,
    mostCommonWords: seq<WordCount>,
    spellingErrorCount: nat,
    spellingErrors: seq<string>,
    passiveSentenceCount: nat,
    passiveSentences: seq<string>,
    sentenceStats: SentenceStats,
    readingTime: real,
    bulletStats: BulletStats,
    cliches: seq<string>,
    flesch: real,
    sectionReadability: SectionReadability)

  /** The record `getResumeAnalytics` returns. */
  function ResumeAnalyticsOf(d: ResumeData, analyzeResult: Option<AnalyzeResult>, jobDesc: string, lex: Lexicon): ResumeAnalytics
  {
    var allText := AllText(d);
    var wordCount := |Fields(allText)|;
    var uniqueStats := UniqueWordStats(allText, lex);
    var spelling := SpellingErrors(allText, lex);
    var passive := PassiveVoiceSentences(allText);
    ResumeAnalytics(
      wordCount,
      KeywordDensity(analyzeResult, jobDesc),
      Completeness(d),
      Sections(d),
      uniqueStats.uniqueWordCount,
      uniqueStats.vocabularyRichness,
      MostCommon(ContentWords(allText, lex), 5),
      |spelling|,
      spelling,
      |passive|,
      passive,
      SentenceLengthStats(allText),
      ReadingTime(wordCount),
      BulletPointStats(allText),
      ClichesIn(allText),
      FleschReadingEase(allText),
      SectionReadabilityOf(d))
  }

  /** `getResumeAnalytics`: every statistic of the joined résumé text, the keyword density
      against a job description, and the section completeness. */
  method GetResumeAnalytics(d: ResumeData, analyzeResult: Option<AnalyzeResult>, jobDesc: string, lex: Lexicon)
    returns (a: ResumeAnalytics)
    ensures a == ResumeAnalyticsOf(d, analyzeResult, jobDesc, lex)
  {
    var allText := AllText(d);
    var wordCount := |Fields(allText)|;
    var uniqueStats := UniqueWordStats(allText, lex);
    var mostCommon := MostCommonWords(allText, lex, 5);
    var spelling := SpellingErrors(allText, lex);
    var passive := PassiveVoiceSentences(allText);
    a := ResumeAnalytics(
      wordCount,
      KeywordDensity(analyzeResult, jobDesc),
      Completeness(d),
      Sections(d),
      uniqueStats.uniqueWordCount,
      uniqueStats.vocabularyRichness,
      mostCommon,
      |spelling|,
      spelling,
      |passive|,
      passive,
      SentenceLengthStats(allText),
      ReadingTime(wordCount),
      BulletPointStats(allText),
      ClichesIn(allText),
      FleschReadingEase(allText),
      SectionReadabilityOf(d));
  }

  /** The counts of the analytics record match their lists. */
  lemma ResumeAnalyticsCounts(d: ResumeData, analyzeResult: Option<AnalyzeResult>, jobDesc: string, lex: Lexicon)
    ensures var a := ResumeAnalyticsOf(d, analyzeResult, jobDesc, lex);
            && a.wordCount == |Fields(AllText(d))|
            && a.spellingErrorCount == |a.spellingErrors|
            && a.passiveSentenceCount == |a.passiveSentences|
  {
  }

  /** The reading time is the word count over 200, and the completeness is a multiple
      of 25. */
  lemma ResumeAnalyticsTime(d: ResumeData, analyzeResult: Option<AnalyzeResult>, jobDesc: string, lex: Lexicon)
    ensures var a := ResumeAnalyticsOf(d, analyzeResult, jobDesc, lex);
            && a.readingTime * 200.0 == a.wordCount as real
            && (a.completeness == 0 || a.completeness == 25 || a.completeness == 50 ||
                a.completeness == 75 || a.completeness == 100)
  {
  }

  /** The vocabulary ratio and the bullet share of the analytics record are in range. */
  lemma ResumeAnalyticsRanges(d: ResumeData, analyzeResult: Option<AnalyzeResult>, jobDesc: string, lex: Lexicon)
    ensures var a := ResumeAnalyticsOf(d, analyzeResult, jobDesc, lex);
            && 0.0 <= a.vocabularyRichness <= 1.0
            && a.uniqueWordCount <= |LowerTokens(AllText(d))|
            && 0 <= a.bulletStats.percentBullets <= 100
  {
  }

  /** The reading-ease score is at most 206.835, the word table has at most five entries
      and at most the thirteen listed clichés are reported. */
  lemma ResumeAnalyticsScores(d: ResumeData, analyzeResult: Option<AnalyzeResult>, jobDesc: string, lex: Lexicon)
    ensures var a := ResumeAnalyticsOf(d, analyzeResult, jobDesc, lex);
            && a.flesch <= 206.835
            && |a.mostCommonWords| <= 5
            && |a.cliches| <= 13
  {
    MostCommonOrdered(ContentWords(AllText(d), lex), 5);
  }
}
