/** `highlightKeywords`: the text is cut into plain pieces and marked pieces, one keyword
    after another, longest keyword first. Each keyword splits the plain pieces with a
    capturing, case-insensitive literal pattern; the captured occurrences become marks and
    are never split again. The rendered elements are modelled as segments. */
module Highlight {
  import opened Seqs
  import opened Text

  datatype Segment = Plain(text: string) | Mark(text: string)

  /** The characters a list of pieces renders, in order. */
  function Concat(pieces: seq<string>): string
  {
    if pieces == [] then "" else pieces[0] + Concat(pieces[1..])
  }

  /** The characters a list of segments renders, in order. */
  function Flatten(segs: seq<Segment>): string
  {
    if segs == [] then "" else segs[0].text + Flatten(segs[1..])
  }

  lemma {:induction false} FlattenAppend(a: seq<Segment>, b: seq<Segment>)
    ensures Flatten(a + b) == Flatten(a) + Flatten(b)
  {
    if a == [] {
      assert a + b == b;
    } else {
      assert (a + b)[0] == a[0] && (a + b)[1..] == a[1..] + b;
      FlattenAppend(a[1..], b);
    }
  }

  /** The keyword occurs at position `q`, ignoring letter case. */
  predicate MatchAt(s: string, q: nat, kw: string)
  {
    q + |kw| <= |s| && Lower(s[q..q + |kw|]) == Lower(kw)
  }

  /** The leftmost occurrence at or after `q`, or -1. */
  function FirstMatch(s: string, kw: string, q: nat): (r: int)
    requires q <= |s|
    ensures r == -1 || (q <= r && MatchAt(s, r, kw))
    ensures forall j :: q <= j && (r == -1 || j < r) ==> !MatchAt(s, j, kw)
    decreases |s| - q
  {
    if q + |kw| > |s| then -1
    else if MatchAt(s, q, kw) then q
    else FirstMatch(s, kw, q + 1)
  }

  /** Pieces at odd positions (the captures) are empty or equal the keyword up to case. */
  predicate CapturesMatch(pieces: seq<string>, kw: string, odd: bool)
  {
    pieces == [] ||
    ((odd ==> pieces[0] == [] || Lower(pieces[0]) == Lower(kw)) && CapturesMatch(pieces[1..], kw, !odd))
  }

  lemma Reassemble(s: string, i: nat, j: nat)
    requires i <= j <= |s|
    ensures s[..i] + s[i..j] + s[j..] == s
  {
  }

  /** A plain piece followed by a capture in front of the rest of a split. */
  lemma PairStep(x: string, y: string, rest: seq<string>, kw: string)
    requires y == [] || Lower(y) == Lower(kw)
    requires CapturesMatch(rest, kw, false)
    ensures Concat([x, y] + rest) == x + y + Concat(rest)
    ensures CapturesMatch([x, y] + rest, kw, false)
    ensures |[x, y] + rest| == |rest| + 2
  {
    var r := [x, y] + rest;
    assert r[1..] == [y] + rest && r[1..][1..] == rest;
  }

  lemma OddPlusTwo(n: nat)
    requires n % 2 == 1
    ensures (n + 2) % 2 == 1
  {
  }

  /** `s.split(new RegExp("(" + kw + ")", "gi"))` for a non-empty keyword: the text before
      the leftmost occurrence, the occurrence itself, then the split of the rest. */
  function SplitKeyword(s: string, kw: string): (r: seq<string>)
    requires kw != []
    ensures |r| % 2 == 1
    ensures Concat(r) == s
    ensures CapturesMatch(r, kw, false)
    ensures FirstMatch(s, kw, 0) == -1 ==> r == [s]
    ensures var i := FirstMatch(s, kw, 0);
            i != -1 ==> |r| >= 3 && r[0] == s[..i] && r[1] == s[i..i + |kw|]
    decreases |s|
  {
    var i := FirstMatch(s, kw, 0);
    if i == -1 then
      assert [s][1..] == [];
      [s]
    else
      var j := i + |kw|;
      var rest := SplitKeyword(s[j..], kw);
      PairStep(s[..i], s[i..j], rest, kw);
      Reassemble(s, i, j);
      OddPlusTwo(|rest|);
      [s[..i], s[i..j]] + rest
  }

  /** `s.split(/()/)`: a pattern that only matches the empty string cuts between every two
      characters and captures an empty string there; "" gives no pieces at all. */
  function SplitEmpty(s: string): (r: seq<string>)
    ensures Concat(r) == s
    ensures CapturesMatch(r, "", false)
  {
    if s == [] then []
    else if |s| == 1 then
      assert [s][1..] == [];
      [s]
    else
      var rest := SplitEmpty(s[1..]);
      PairStep(s[..1], "", rest, "");
      Reassemble(s, 1, 1);
      [s[..1], ""] + rest
  }

  /** The split of a plain piece by one keyword. */
  function SplitOn(s: string, kw: string): (r: seq<string>)
    ensures Concat(r) == s
    ensures CapturesMatch(r, kw, false)
  {
    if kw == [] then
      var r := SplitEmpty(s);
      CapturesEmpty(r, kw, false);
      r
    else SplitKeyword(s, kw)
  }

  /** With the empty keyword, the captures match because they are empty. */
  lemma {:induction false} CapturesEmpty(pieces: seq<string>, kw: string, odd: bool)
    requires kw == [] && CapturesMatch(pieces, "", odd)
    ensures CapturesMatch(pieces, kw, odd)
  {
    if pieces != [] {
      CapturesEmpty(pieces[1..], kw, !odd);
    }
  }

  /** `split.map((s, i) => i % 2 === 1 && s.length > 0 ? <mark>{s}</mark> : s)` */
  function ToSegments(pieces: seq<string>, odd: bool): (r: seq<Segment>)
    ensures Flatten(r) == Concat(pieces)
  {
    if pieces == [] then []
    else
      var head := if odd && pieces[0] != [] then Mark(pieces[0]) else Plain(pieces[0]);
      var r := [head] + ToSegments(pieces[1..], !odd);
      assert r[1..] == ToSegments(pieces[1..], !odd);
      r
  }

  /** A marked segment is non-empty and equals one of the keywords up to letter case. */
  predicate MatchesSome(t: string, keywords: seq<string>)
  {
    exists k :: k in keywords && Lower(t) == Lower(k)
  }

  predicate MarksMatch(segs: seq<Segment>, keywords: seq<string>)
  {
    forall s :: s in segs && s.Mark? ==> s.text != [] && MatchesSome(s.text, keywords)
  }

  /** Turning captures into marks only marks occurrences of the keyword. */
  lemma {:induction false} ToSegmentsMarks(pieces: seq<string>, kw: string, odd: bool, keywords: seq<string>)
    requires kw in keywords && CapturesMatch(pieces, kw, odd)
    ensures MarksMatch(ToSegments(pieces, odd), keywords)
  {
    if pieces != [] {
      ToSegmentsMarks(pieces[1..], kw, !odd, keywords);
      var r := ToSegments(pieces, odd);
      assert forall s :: s in r ==> s == r[0] || s in ToSegments(pieces[1..], !odd);
    }
  }

  /** One keyword's pass: marks stay as they are, plain pieces are split. */
  function Expand(seg: Segment, kw: string): (r: seq<Segment>)
    ensures Flatten(r) == seg.text
  {
    match seg
    case Mark(_) =>
      assert [seg][1..] == [];
      [seg]
    case Plain(p) => ToSegments(SplitOn(p, kw), false)
  }

  /** `result.flatMap(part => ...)` for one keyword. */
  function HighlightOne(segs: seq<Segment>, kw: string): (r: seq<Segment>)
    ensures Flatten(r) == Flatten(segs)
  {
    if segs == [] then []
    else
      var head := Expand(segs[0], kw);
      var rest := HighlightOne(segs[1..], kw);
      FlattenAppend(head, rest);
      head + rest
  }

  /** A pass creates marks only for its keyword and keeps the marks it was given. */
  lemma {:induction false} HighlightOneMarks(segs: seq<Segment>, kw: string, keywords: seq<string>)
    requires kw in keywords && MarksMatch(segs, keywords)
    ensures MarksMatch(HighlightOne(segs, kw), keywords)
  {
    if segs != [] {
      HighlightOneMarks(segs[1..], kw, keywords);
      var head := Expand(segs[0], kw);
      if segs[0].Plain? {
        ToSegmentsMarks(SplitOn(segs[0].text, kw), kw, false, keywords);
      } else {
        assert segs[0] in segs;
      }
      assert forall s :: s in head + HighlightOne(segs[1..], kw) ==> s in head || s in HighlightOne(segs[1..], kw);
    }
  }

  /** The texts of the marked segments, in order. */
  function MarkTexts(segs: seq<Segment>): seq<string>
  {
    if segs == [] then []
    else (if segs[0].Mark? then [segs[0].text] else []) + MarkTexts(segs[1..])
  }

  lemma {:induction false} MarkTextsAppend(a: seq<Segment>, b: seq<Segment>)
    ensures MarkTexts(a + b) == MarkTexts(a) + MarkTexts(b)
  {
    if a == [] {
      assert a + b == b;
    } else {
      assert (a + b)[0] == a[0] && (a + b)[1..] == a[1..] + b;
      MarkTextsAppend(a[1..], b);
    }
  }

  /** A marked segment is never split again: every mark present before a pass is still
      present after it, in the same order. */
  lemma {:induction false} HighlightOneKeepsMarks(segs: seq<Segment>, kw: string)
    ensures IsSubsequence(MarkTexts(segs), MarkTexts(HighlightOne(segs, kw)))
  {
    if segs != [] {
      var head := Expand(segs[0], kw);
      var rest := HighlightOne(segs[1..], kw);
      HighlightOneKeepsMarks(segs[1..], kw);
      ExpandKeepsMarks(segs[0], kw);
      MarkTextsCons(segs);
      assert HighlightOne(segs, kw) == head + rest;
      MarkTextsAppend(head, rest);
      SubsequenceConcat(MarkTexts([segs[0]]), MarkTexts(head), MarkTexts(segs[1..]), MarkTexts(rest));
    }
  }

  /** The marks of a list are those of its head followed by those of its tail. */
  lemma MarkTextsCons(segs: seq<Segment>)
    requires segs != []
    ensures MarkTexts(segs) == MarkTexts([segs[0]]) + MarkTexts(segs[1..])
  {
    assert [segs[0]][1..] == [];
  }

  /** A segment's own mark survives its expansion. */
  lemma ExpandKeepsMarks(seg: Segment, kw: string)
    ensures IsSubsequence(MarkTexts([seg]), MarkTexts(Expand(seg, kw)))
  {
    if seg.Mark? {
      SubsequenceRefl(MarkTexts([seg]));
    } else {
      assert [seg][1..] == [];
      assert MarkTexts([seg]) == [];
    }
  }

  /** Sort key for `(a, b) => b.length - a.length`. */
  function ByLengthDescending(k: string): int
  {
    -|k|
  }

  /** The keywords in the order they are processed: longest first, equal lengths in their
      original order (the sort is stable, see `ProcessingOrderStable`). */
  function ProcessingOrder(keywords: seq<string>): (r: seq<string>)
    ensures multiset(r) == multiset(keywords)
    ensures forall i, j :: 0 <= i < j < |r| ==> |r[i]| >= |r[j]|
  {
    var r := SortBy(keywords, ByLengthDescending);
    assert forall i, j :: 0 <= i < j < |r| ==> ByLengthDescending(r[i]) <= ByLengthDescending(r[j]);
    r
  }

  /** Keywords of one length are processed in the order they were given. */
  lemma ProcessingOrderStable(keywords: seq<string>, n: nat, p: string -> bool)
    requires forall k :: p(k) <==> |k| == n
    ensures Filter(ProcessingOrder(keywords), p) == Filter(keywords, p)
  {
    SortByStable(keywords, ByLengthDescending, -(n as int), p);
  }

  /** The segments after one pass per keyword of `ks`, in the order of `ks`. */
  function Highlighted(segs: seq<Segment>, ks: seq<string>): (r: seq<Segment>)
    ensures Flatten(r) == Flatten(segs)
    decreases |ks|
  {
    if ks == [] then segs
    else HighlightOne(Highlighted(segs, ks[..|ks| - 1]), ks[|ks| - 1])
  }

  /** One more keyword is one more pass over the segments so far. */
  lemma HighlightedStep(segs: seq<Segment>, ks: seq<string>, j: nat)
    requires j < |ks|
    ensures Highlighted(segs, ks[..j + 1]) == HighlightOne(Highlighted(segs, ks[..j]), ks[j])
  {
    var p := ks[..j + 1];
    assert p[..|p| - 1] == ks[..j] && p[|p| - 1] == ks[j];
  }

  /** Every pass keeps the marks of the passes before it. */
  lemma {:induction false} HighlightedKeepsMarks(segs: seq<Segment>, ks: seq<string>, m: nat)
    requires m <= |ks|
    ensures IsSubsequence(MarkTexts(Highlighted(segs, ks[..m])), MarkTexts(Highlighted(segs, ks)))
    decreases |ks|
  {
    if m == |ks| {
      assert ks[..m] == ks;
      SubsequenceRefl(MarkTexts(Highlighted(segs, ks)));
    } else {
      var init := ks[..|ks| - 1];
      assert init[..m] == ks[..m];
      HighlightedKeepsMarks(segs, init, m);
      HighlightOneKeepsMarks(Highlighted(segs, init), ks[|ks| - 1]);
      SubsequenceTrans(MarkTexts(Highlighted(segs, ks[..m])), MarkTexts(Highlighted(segs, init)),
                       MarkTexts(Highlighted(segs, ks)));
    }
  }

  /** The first capture of a split is marked when it is not empty. */
  lemma CaptureMarked(pieces: seq<string>)
    requires |pieces| >= 2 && pieces[1] != []
    ensures pieces[1] in MarkTexts(ToSegments(pieces, false))
  {
    var tail := ToSegments(pieces[1..], true);
    assert tail == [Mark(pieces[1])] + ToSegments(pieces[1..][1..], false);
    assert MarkTexts(tail) == [pieces[1]] + MarkTexts(tail[1..]);
    var segs := ToSegments(pieces, false);
    assert segs == [Plain(pieces[0])] + tail;
    assert segs[1..] == tail;
  }

  /** One pass over a single plain segment is the segments of its split. */
  lemma PassOverPlain(text: string, kw: string)
    ensures HighlightOne([Plain(text)], kw) == ToSegments(SplitOn(text, kw), false)
  {
    var segs := ToSegments(SplitOn(text, kw), false);
    assert [Plain(text)][1..] == [];
    assert HighlightOne([Plain(text)], kw) == segs + [];
    assert segs + [] == segs;
  }

  /** A pass over a plain text marks the leftmost occurrence of a non-empty keyword. */
  lemma FirstOccurrenceMarked(text: string, kw: string, q: nat, i: int)
    requires kw != [] && MatchAt(text, q, kw) && i == FirstMatch(text, kw, 0)
    ensures 0 <= i <= q && text[i..i + |kw|] in MarkTexts(HighlightOne([Plain(text)], kw))
  {
    assert 0 <= i <= q;
    var pieces := SplitKeyword(text, kw);
    assert SplitOn(text, kw) == pieces;
    assert pieces[1] == text[i..i + |kw|];
    PassOverPlain(text, kw);
    CaptureMarked(pieces);
    var marks := MarkTexts(ToSegments(pieces, false));
    assert text[i..i + |kw|] in marks;
    assert MarkTexts(HighlightOne([Plain(text)], kw)) == marks;
  }

  /** The longest keyword goes first, so its leftmost occurrence is marked in the end. With a
      single keyword this says that a keyword occurring in the text is marked. */
  lemma LongestKeywordMarked(text: string, keywords: seq<string>, q: nat, i: int)
    requires keywords != []
    requires ProcessingOrder(keywords)[0] != [] && MatchAt(text, q, ProcessingOrder(keywords)[0])
    requires i == FirstMatch(text, ProcessingOrder(keywords)[0], 0)
    ensures 0 <= i <= q
    ensures text[i..i + |ProcessingOrder(keywords)[0]|] in MarkTexts(Highlighted([Plain(text)], ProcessingOrder(keywords)))
  {
    var ks := ProcessingOrder(keywords);
    var kw := ks[0];
    FirstOccurrenceMarked(text, kw, q, i);
    FirstPassMarkKept([Plain(text)], ks, text[i..i + |kw|]);
  }

  /** A mark made by the first pass is still there after the last. */
  lemma FirstPassMarkKept(segs: seq<Segment>, ks: seq<string>, m: string)
    requires ks != [] && m in MarkTexts(HighlightOne(segs, ks[0]))
    ensures m in MarkTexts(Highlighted(segs, ks))
  {
    var first := HighlightOne(segs, ks[0]);
    HighlightedStep(segs, ks, 0);
    assert ks[..0] == [];
    assert Highlighted(segs, ks[..1]) == first;
    HighlightedKeepsMarks(segs, ks, 1);
    SubsequenceMembers(MarkTexts(first), MarkTexts(Highlighted(segs, ks)));
  }

  /** `highlightKeywords`: one pass per keyword, longest first. */
  method HighlightKeywords(text: string, keywords: seq<string>) returns (result: seq<Segment>)
    ensures result == Highlighted([Plain(text)], ProcessingOrder(keywords))
    ensures keywords == [] ==> result == [Plain(text)]
    ensures Flatten(result) == text
    ensures MarksMatch(result, keywords)
  {
    result := [Plain(text)];
    assert Flatten(result) == text + Flatten([]);
    if |keywords| == 0 {
      assert ProcessingOrder(keywords) == [];
      return;
    }
    var sorted := ProcessingOrder(keywords);
    assert forall k :: k in sorted ==> k in keywords by {
      forall k | k in sorted ensures k in keywords {
        assert k in multiset(sorted);
      }
    }
    for j := 0 to |sorted|
      invariant result == Highlighted([Plain(text)], sorted[..j])
      invariant Flatten(result) == text
      invariant MarksMatch(result, keywords)
    {
      HighlightOneMarks(result, sorted[j], keywords);
      HighlightedStep([Plain(text)], sorted, j);
      result := HighlightOne(result, sorted[j]);
    }
    assert sorted[..|sorted|] == sorted;
  }
}
