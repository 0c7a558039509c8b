/** What the Markdown and LinkedIn exports have in common: how a template literal prints
    an optional field, and the text a `forEach` that appends one line per entry builds. */
module ExportText {
  import opened Wrappers
  import opened Text

  /** `if (personalInfo.summary)`: an absent or empty summary is skipped. */
  predicate SummaryShown(p: Option<string>)
  {
    p.Some? && p.value != ""
  }

  /** `${w.endDate || 'Present'}`: an absent or empty end date reads "Present", which a
      reader cannot tell from an end date that is literally "Present". */
  function EndDateText(endDate: Option<string>): (r: string)
    ensures r == "Present" <==> endDate.None? || endDate.value == "" || endDate.value == "Present"
    ensures r != "Present" ==> endDate == Some(r)
  {
    if endDate.Some? && endDate.value != "" then endDate.value else "Present"
  }

  /** `${e.startYear || ''}`: an absent year and the year 0 both print nothing; any other
      year prints as a number. */
  function StartYearText(year: Option<int>): (r: string)
    ensures r == "" <==> year.None? || year.value == 0
    ensures r != "" ==> r == IntToString(year.value)
  {
    if year.Some? && year.value != 0 then IntToString(year.value) else ""
  }

  /** `${e.endYear || 'Present'}`: an absent year and the year 0 read "Present"; a number
      never does. */
  function EndYearText(year: Option<int>): (r: string)
    ensures r == "Present" <==> year.None? || year.value == 0
    ensures r != "Present" ==> r == IntToString(year.value)
  {
    if year.Some? && year.value != 0 then
      var t := IntToString(year.value);
      assert t[0] == '-' || '0' <= t[0] <= '9';
      assert t != "Present" by { assert "Present"[0] == 'P'; }
      t
    else "Present"
  }

  /** `${w.description}`: an absent description prints as "undefined". */
  function DescriptionText(description: Option<string>): (r: string)
    ensures description.None? ==> r == "undefined"
    ensures description.Some? ==> r == description.value
  {
    if description.Some? then description.value else "undefined"
  }

  /** The text a `forEach` appending `line(x)` for every entry builds, in input order. */
  function Each<T>(xs: seq<T>, line: T -> string): string
  {
    if xs == [] then "" else Each(xs[..|xs| - 1], line) + line(xs[|xs| - 1])
  }

  /** One more iteration of the `forEach` appends the next entry's line. */
  lemma EachStep<T>(xs: seq<T>, i: nat, line: T -> string)
    requires i < |xs|
    ensures Each(xs[..i + 1], line) == Each(xs[..i], line) + line(xs[i])
  {
    assert xs[..i + 1][..i] == xs[..i];
  }

  /** The text of a concatenation of lists is the texts of the lists, one after the other. */
  lemma {:induction false} EachAppend<T>(a: seq<T>, b: seq<T>, line: T -> string)
    ensures Each(a + b, line) == Each(a, line) + Each(b, line)
    decreases |b|
  {
    if b == [] {
      assert a + b == a;
    } else {
      var c := a + b;
      assert c[..|c| - 1] == a + b[..|b| - 1];
      EachAppend(a, b[..|b| - 1], line);
    }
  }

  lemma Assoc(a: string, b: string, c: string)
    ensures a + (b + c) == a + b + c
  {
  }

  /** `p` occurs in `s` at position `i`. */
  predicate At(s: string, i: nat, p: string)
  {
    i + |p| <= |s| && s[i..i + |p|] == p
  }

  /** Entry `i` has its own line, and that line sits right after the lines of the entries
      before it: one line per entry, in input order. */
  lemma EachEntry<T>(xs: seq<T>, i: nat, line: T -> string)
    requires i < |xs|
    ensures At(Each(xs, line), |Each(xs[..i], line)|, line(xs[i]))
  {
    assert xs == xs[..i] + [xs[i]] + xs[i + 1..];
    EachAppend(xs[..i] + [xs[i]], xs[i + 1..], line);
    EachAppend(xs[..i], [xs[i]], line);
    assert Each([xs[i]], line) == line(xs[i]) by {
      assert [xs[i]][..0] == [];
    }
    AtEnd(Each(xs[..i], line), line(xs[i]));
    AtPrefix(Each(xs[..i], line) + line(xs[i]), Each(xs[i + 1..], line), |Each(xs[..i], line)|, line(xs[i]));
  }

  /** Text added after an occurrence leaves it where it is. */
  lemma AtPrefix(s: string, t: string, i: nat, p: string)
    requires At(s, i, p)
    ensures At(s + t, i, p)
  {
    assert (s + t)[i..i + |p|] == s[i..i + |p|];
  }

  /** Text added in front of an occurrence shifts it by its length. */
  lemma AtShift(a: string, s: string, i: nat, p: string)
    requires At(s, i, p)
    ensures At(a + s, |a| + i, p)
  {
    assert (a + s)[|a| + i..|a| + i + |p|] == s[i..i + |p|];
  }

  /** What was appended last sits at the old end. */
  lemma AtEnd(s: string, p: string)
    ensures At(s + p, |s|, p)
  {
    assert (s + p)[|s|..|s| + |p|] == p;
  }

  /** What a text ends with sits at its end. */
  lemma AtTail(a: string, p: string, s: string)
    requires s == a + p
    ensures |p| <= |s| && At(s, |s| - |p|, p)
  {
    AtEnd(a, p);
  }

  /** Both exports are an opening, then three headed parts: work, education, skills. */
  function Document(opening: string, h1: string, b1: string, h2: string, b2: string, h3: string, b3: string): string
  {
    opening + h1 + b1 + h2 + b2 + h3 + b3
  }

  /** The three headings appear in order, each part sits right after its heading and runs up
      to the next heading, and the last part runs to the end. */
  lemma DocumentLayout(opening: string, h1: string, b1: string, h2: string, b2: string, h3: string, b3: string)
    returns (i: nat, j: nat, k: nat)
    ensures i == |opening| && j == i + |h1| + |b1| && k == j + |h2| + |b2|
    ensures k + |h3| + |b3| == |Document(opening, h1, b1, h2, b2, h3, b3)|
    ensures At(Document(opening, h1, b1, h2, b2, h3, b3), i, h1)
    ensures At(Document(opening, h1, b1, h2, b2, h3, b3), i + |h1|, b1)
    ensures At(Document(opening, h1, b1, h2, b2, h3, b3), j, h2)
    ensures At(Document(opening, h1, b1, h2, b2, h3, b3), j + |h2|, b2)
    ensures At(Document(opening, h1, b1, h2, b2, h3, b3), k, h3)
    ensures At(Document(opening, h1, b1, h2, b2, h3, b3), k + |h3|, b3)
  {
    i, j, k := |opening|, |opening| + |h1| + |b1|, |opening| + |h1| + |b1| + |h2| + |b2|;
    var s1 := opening + h1;
    var s2 := s1 + b1;
    var s3 := s2 + h2;
    var s4 := s3 + b2;
    var s5 := s4 + h3;
    AtEnd(opening, h1);
    AtEnd(s1, b1);
    AtEnd(s2, h2);
    AtEnd(s3, b2);
    AtEnd(s4, h3);
    AtEnd(s5, b3);
    AtPrefix(s1, b1, i, h1);
    AtPrefix(s2, h2, i, h1);
    AtPrefix(s3, b2, i, h1);
    AtPrefix(s4, h3, i, h1);
    AtPrefix(s5, b3, i, h1);
    AtPrefix(s2, h2, i + |h1|, b1);
    AtPrefix(s3, b2, i + |h1|, b1);
    AtPrefix(s4, h3, i + |h1|, b1);
    AtPrefix(s5, b3, i + |h1|, b1);
    AtPrefix(s3, b2, j, h2);
    AtPrefix(s4, h3, j, h2);
    AtPrefix(s5, b3, j, h2);
    AtPrefix(s4, h3, j + |h2|, b2);
    AtPrefix(s5, b3, j + |h2|, b2);
    AtPrefix(s5, b3, k, h3);
  }

  /** An occurrence inside the first part is an occurrence in the document, shifted by what
      comes before the part. */
  lemma InFirstPart(opening: string, h1: string, b1: string, h2: string, b2: string, h3: string, b3: string, q: nat, p: string)
    requires At(b1, q, p)
    ensures At(Document(opening, h1, b1, h2, b2, h3, b3), |opening| + |h1| + q, p)
  {
    var s1 := opening + h1;
    AtShift(s1, b1, q, p);
    AtPrefix(s1 + b1, h2, |s1| + q, p);
    AtPrefix(s1 + b1 + h2, b2, |s1| + q, p);
    AtPrefix(s1 + b1 + h2 + b2, h3, |s1| + q, p);
    AtPrefix(s1 + b1 + h2 + b2 + h3, b3, |s1| + q, p);
  }

  /** The same for the second part. */
  lemma InSecondPart(opening: string, h1: string, b1: string, h2: string, b2: string, h3: string, b3: string, q: nat, p: string)
    requires At(b2, q, p)
    ensures At(Document(opening, h1, b1, h2, b2, h3, b3), |opening| + |h1| + |b1| + |h2| + q, p)
  {
    var s3 := opening + h1 + b1 + h2;
    AtShift(s3, b2, q, p);
    AtPrefix(s3 + b2, h3, |s3| + q, p);
    AtPrefix(s3 + b2 + h3, b3, |s3| + q, p);
  }

  /** The same for the last part. */
  lemma InThirdPart(opening: string, h1: string, b1: string, h2: string, b2: string, h3: string, b3: string, q: nat, p: string)
    requires At(b3, q, p)
    ensures At(Document(opening, h1, b1, h2, b2, h3, b3), |opening| + |h1| + |b1| + |h2| + |b2| + |h3| + q, p)
  {
    AtShift(opening + h1 + b1 + h2 + b2 + h3, b3, q, p);
  }

  /** Entry `n` of the first part has its line right after the heading and the lines of
      the entries before it. */
  lemma FirstPartEntry<T>(opening: string, h1: string, xs: seq<T>, line: T -> string, h2: string, b2: string, h3: string, b3: string, n: nat, p: string)
    requires n < |xs| && p == line(xs[n])
    ensures At(Document(opening, h1, Each(xs, line), h2, b2, h3, b3), |opening| + |h1| + |Each(xs[..n], line)|, p)
  {
    EachEntry(xs, n, line);
    InFirstPart(opening, h1, Each(xs, line), h2, b2, h3, b3, |Each(xs[..n], line)|, p);
  }

  /** The same for the second part. */
  lemma SecondPartEntry<T>(opening: string, h1: string, b1: string, h2: string, xs: seq<T>, line: T -> string, h3: string, b3: string, n: nat, p: string)
    requires n < |xs| && p == line(xs[n])
    ensures At(Document(opening, h1, b1, h2, Each(xs, line), h3, b3), |opening| + |h1| + |b1| + |h2| + |Each(xs[..n], line)|, p)
  {
    EachEntry(xs, n, line);
    InSecondPart(opening, h1, b1, h2, Each(xs, line), h3, b3, |Each(xs[..n], line)|, p);
  }

  /** The same for the last part. */
  lemma ThirdPartEntry<T>(opening: string, h1: string, b1: string, h2: string, b2: string, h3: string, xs: seq<T>, line: T -> string, n: nat, p: string)
    requires n < |xs| && p == line(xs[n])
    ensures At(Document(opening, h1, b1, h2, b2, h3, Each(xs, line)), |opening| + |h1| + |b1| + |h2| + |b2| + |h3| + |Each(xs[..n], line)|, p)
  {
    EachEntry(xs, n, line);
    InThirdPart(opening, h1, b1, h2, b2, h3, Each(xs, line), |Each(xs[..n], line)|, p);
  }

  /** An occurrence inside the opening is an occurrence in the document, at the same place. */
  lemma InOpening(opening: string, h1: string, b1: string, h2: string, b2: string, h3: string, b3: string, q: nat, p: string)
    requires At(opening, q, p)
    ensures At(Document(opening, h1, b1, h2, b2, h3, b3), q, p)
  {
    AtPrefix(opening, h1, q, p);
    AtPrefix(opening + h1, b1, q, p);
    AtPrefix(opening + h1 + b1, h2, q, p);
    AtPrefix(opening + h1 + b1 + h2, b2, q, p);
    AtPrefix(opening + h1 + b1 + h2 + b2, h3, q, p);
    AtPrefix(opening + h1 + b1 + h2 + b2 + h3, b3, q, p);
  }

  /** What was written first sits at the start. */
  lemma AtStart(s: string, t: string)
    ensures At(s + t, 0, s) && StartsWith(s + t, s)
  {
    assert (s + t)[..|s|] == s;
  }
}
