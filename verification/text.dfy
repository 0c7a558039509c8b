/** Character classes and string operations as the JavaScript source uses them.
    Regular expressions run without the `u` flag, so `\w` is ASCII `[A-Za-z0-9_]`
    and `toLowerCase` is treated as ASCII case mapping. `\s` and `trim` use the
    ECMAScript white-space and line-terminator set. */
module Text {
  import opened Seqs

  /** `\w` */
  predicate IsWordChar(c: char)
  {
    ('a' <= c <= 'z') || ('A' <= c <= 'Z') || ('0' <= c <= '9') || c == '_'
  }

  /** `\s`, and what `String.prototype.trim` removes. */
  predicate IsSpace(c: char)
  {
    var n := c as int;
    (9 <= n <= 13) || n == 32 || n == 0xA0 || n == 0x1680 || (0x2000 <= n <= 0x200A) ||
    n == 0x2028 || n == 0x2029 || n == 0x202F || n == 0x205F || n == 0x3000 || n == 0xFEFF
  }

  /** `[.!?]`, the sentence terminators. */
  predicate IsTerminator(c: char)
  {
    c == '.' || c == '!' || c == '?'
  }

  function LowerChar(c: char): (d: char)
    ensures IsWordChar(d) <==> IsWordChar(c)
    ensures IsSpace(d) <==> IsSpace(c)
    ensures !('A' <= d <= 'Z')
  {
    if 'A' <= c <= 'Z' then (c as int + 32) as char else c
  }

  /** `s.toLowerCase()` on ASCII letters. */
  function Lower(s: string): (r: string)
    ensures |r| == |s|
    ensures forall i :: 0 <= i < |s| ==> r[i] == LowerChar(s[i])
  {
    if s == [] then [] else [LowerChar(s[0])] + Lower(s[1..])
  }

  lemma {:induction false} LowerAppend(a: string, b: string)
    ensures Lower(a + b) == Lower(a) + Lower(b)
  {
    var l, r := Lower(a + b), Lower(a) + Lower(b);
    assert |l| == |r|;
    forall i | 0 <= i < |l| ensures l[i] == r[i] {
      if i < |a| { assert (a + b)[i] == a[i]; } else { assert (a + b)[i] == b[i - |a|]; }
    }
  }

  lemma LowerSlice(s: string, i: nat, j: nat)
    requires i <= j <= |s|
    ensures Lower(s[i..j]) == Lower(s)[i..j]
  {
    var a, b := Lower(s[i..j]), Lower(s)[i..j];
    forall k | 0 <= k < |a| ensures a[k] == b[k] {
      assert s[i..j][k] == s[i + k];
    }
  }

  lemma {:induction false} LowerIdempotent(s: string)
    ensures Lower(Lower(s)) == Lower(s)
  {
    assert |Lower(Lower(s))| == |Lower(s)|;
    forall i | 0 <= i < |s| ensures Lower(Lower(s))[i] == Lower(s)[i] {
      assert Lower(Lower(s))[i] == LowerChar(LowerChar(s[i]));
    }
  }

  /** Text without upper-case letters is its own lower-case form. */
  lemma LowerNoUpper(s: string)
    requires forall i :: 0 <= i < |s| ==> !('A' <= s[i] <= 'Z')
    ensures Lower(s) == s
  {
    forall i | 0 <= i < |s| ensures Lower(s)[i] == s[i] {
      assert Lower(s)[i] == LowerChar(s[i]);
    }
  }

  /** `s.startsWith(p)` */
  predicate StartsWith(s: string, p: string)
  {
    |p| <= |s| && s[..|p|] == p
  }

  /** `s.endsWith(p)` */
  predicate EndsWith(s: string, p: string)
  {
    |p| <= |s| && s[|s| - |p|..] == p
  }

  /** `s.includes(p)`: `p` occurs in `s` at some position. */
  predicate Contains(s: string, p: string)
    decreases |s|
  {
    StartsWith(s, p) || (s != [] && Contains(s[1..], p))
  }

  /** A case-insensitive literal regular-expression test `new RegExp(p, "i").test(s)`
      for a pattern without metacharacters. */
  predicate ContainsIgnoreCase(s: string, p: string)
  {
    Contains(Lower(s), Lower(p))
  }

  lemma {:induction false} ContainsAt(s: string, p: string, i: nat)
    requires i + |p| <= |s| && s[i..i + |p|] == p
    ensures Contains(s, p)
  {
    if i > 0 {
      assert s[1..][i - 1..i - 1 + |p|] == s[i..i + |p|];
      ContainsAt(s[1..], p, i - 1);
    } else {
      assert s[..|p|] == s[0..0 + |p|];
    }
  }

  lemma {:induction false} ContainsInfix(a: string, p: string, b: string)
    ensures Contains(a + p + b, p)
  {
    var s := a + p + b;
    assert s[|a|..|a| + |p|] == p;
    ContainsAt(s, p, |a|);
  }

  /** An occurrence in a string is still an occurrence once more text is appended. */
  lemma {:induction false} ContainsAppend(a: string, b: string, p: string)
    requires Contains(a, p)
    ensures Contains(a + b, p)
    decreases |a|
  {
    if StartsWith(a, p) {
      assert (a + b)[..|p|] == a[..|p|];
    } else {
      ContainsAppend(a[1..], b, p);
      assert (a + b)[1..] == a[1..] + b;
    }
  }

  /** An occurrence in a suffix is an occurrence in the whole string. */
  lemma {:induction false} ContainsSuffix(s: string, k: nat, p: string)
    requires k <= |s| && Contains(s[k..], p)
    ensures Contains(s, p)
    decreases k
  {
    if k > 0 {
      assert s[1..][k - 1..] == s[k..];
      ContainsSuffix(s[1..], k - 1, p);
    }
  }

  /** `parts.join(sep)` */
  function Join(parts: seq<string>, sep: string): string
  {
    if parts == [] then ""
    else if |parts| == 1 then parts[0]
    else parts[0] + sep + Join(parts[1..], sep)
  }

  /** `s.trimStart()` */
  function TrimStart(s: string): (r: string)
    ensures |r| <= |s| && r == s[|s| - |r|..]
    ensures r != [] ==> !IsSpace(r[0])
    ensures forall i :: 0 <= i < |s| - |r| ==> IsSpace(s[i])
  {
    if s != [] && IsSpace(s[0]) then TrimStart(s[1..]) else s
  }

  /** `s.trimEnd()` */
  function TrimEnd(s: string): (r: string)
    ensures |r| <= |s| && r == s[..|r|]
    ensures r != [] ==> !IsSpace(r[|r| - 1])
    ensures forall i :: |r| <= i < |s| ==> IsSpace(s[i])
  {
    if s != [] && IsSpace(s[|s| - 1]) then TrimEnd(s[..|s| - 1]) else s
  }

  /** `s.trim()` */
  function Trim(s: string): (r: string)
    ensures IsTrimmed(r)
  {
    TrimEnd(TrimStart(s))
  }

  /** Leading white space makes no difference to `trimStart`. */
  lemma {:induction false} TrimSkipsSpace(s: string, k: nat)
    requires k <= |s| && forall i :: 0 <= i < k ==> IsSpace(s[i])
    ensures TrimStart(s[k..]) == TrimStart(s)
  {
    if k > 0 {
      assert IsSpace(s[0]) && TrimStart(s) == TrimStart(s[1..]);
      assert s[1..][k - 1..] == s[k..];
      TrimSkipsSpace(s[1..], k - 1);
    }
  }

  /** No white space at either end: what `trim` leaves. */
  predicate IsTrimmed(s: string)
  {
    s != [] ==> !IsSpace(s[0]) && !IsSpace(s[|s| - 1])
  }

  /** The string is empty or white space only. */
  predicate IsBlank(s: string)
  {
    forall i :: 0 <= i < |s| ==> IsSpace(s[i])
  }

  /** `!s.trim()`: a string is blank exactly when trimming leaves nothing. */
  lemma BlankIffTrimEmpty(s: string)
    ensures IsBlank(s) <==> Trim(s) == []
  {
    var t := TrimStart(s);
    if TrimEnd(t) == [] {
      // `t` starts with a non-space, which `TrimEnd` would have kept.
      assert t == [] by {
        if t != [] {
          assert false;
        }
      }
    }
  }

  lemma TrimIdempotent(s: string)
    ensures Trim(Trim(s)) == Trim(s)
  {
    var r := Trim(s);
    if r != [] {
      assert TrimStart(r) == r;
      assert TrimEnd(r) == r;
    }
  }

  /** Length of the run of `\w` characters at the start of `s`. */
  function WordRun(s: string): (n: nat)
    ensures n <= |s|
    ensures forall i :: 0 <= i < n ==> IsWordChar(s[i])
    ensures n < |s| ==> !IsWordChar(s[n])
  {
    if s == [] || !IsWordChar(s[0]) then 0 else 1 + WordRun(s[1..])
  }

  /** The run length is determined by where the run ends. */
  lemma {:induction false} WordRunIs(s: string, n: nat)
    requires n <= |s| && (forall i :: 0 <= i < n ==> IsWordChar(s[i]))
    requires n < |s| ==> !IsWordChar(s[n])
    ensures WordRun(s) == n
  {
    if n > 0 {
      WordRunIs(s[1..], n - 1);
    }
  }

  /** `s.match(/\b\w+\b/g) || []`: the maximal runs of word characters, in order. */
  function Tokens(s: string): (ts: seq<string>)
    ensures forall t :: t in ts ==> t != [] && forall i :: 0 <= i < |t| ==> IsWordChar(t[i])
    decreases |s|
  {
    if s == [] then []
    else if !IsWordChar(s[0]) then Tokens(s[1..])
    else
      var n := WordRun(s);
      [s[..n]] + Tokens(s[n..])
  }

  /** Every token occurs in the text it was taken from. */
  lemma {:induction false} TokenOccurs(s: string, t: string)
    requires t in Tokens(s)
    ensures Contains(s, t)
    decreases |s|
  {
    if !IsWordChar(s[0]) {
      TokenOccurs(s[1..], t);
      ContainsSuffix(s, 1, t);
    } else {
      var n := WordRun(s);
      if t == s[..n] {
        assert StartsWith(s, t);
      } else {
        TokenOccurs(s[n..], t);
        ContainsSuffix(s, n, t);
      }
    }
  }

  lemma {:induction false} WordRunLower(s: string)
    ensures WordRun(Lower(s)) == WordRun(s)
  {
    if s != [] && IsWordChar(s[0]) {
      WordRunLower(s[1..]);
      assert Lower(s)[1..] == Lower(s[1..]);
    }
  }

  /** Lower-casing neither merges nor splits tokens. */
  lemma {:induction false} TokensLowerLength(s: string)
    ensures |Tokens(Lower(s))| == |Tokens(s)|
    decreases |s|
  {
    if s != [] {
      var l := Lower(s);
      assert IsWordChar(l[0]) <==> IsWordChar(s[0]);
      var n := if IsWordChar(s[0]) then WordRun(s) else 1;
      WordRunLower(s);
      LowerSlice(s, n, |s|);
      assert s[n..|s|] == s[n..] && l[n..|s|] == l[n..];
      TokensLowerLength(s[n..]);
    }
  }

  /** Length of the run of characters other than `.`, `!`, `?` at the start of `s`. */
  function PlainRun(s: string): (n: nat)
    ensures n <= |s|
    ensures forall i :: 0 <= i < n ==> !IsTerminator(s[i])
    ensures n < |s| ==> IsTerminator(s[n])
  {
    if s == [] || IsTerminator(s[0]) then 0 else 1 + PlainRun(s[1..])
  }

  /** `s.match(/[^.!?]+[.!?]/g) || []`: every maximal run of non-terminators that is
      followed by a terminator, together with that one terminator. Text after the last
      terminator is not a sentence. */
  function Sentences(s: string): (ss: seq<string>)
    ensures forall t :: t in ss ==> |t| >= 2 && IsTerminator(t[|t| - 1])
    ensures forall t :: t in ss ==> forall i :: 0 <= i < |t| - 1 ==> !IsTerminator(t[i])
    decreases |s|
  {
    if s == [] then []
    else if IsTerminator(s[0]) then Sentences(s[1..])
    else
      var n := PlainRun(s);
      if n == |s| then [] else [s[..n + 1]] + Sentences(s[n + 1..])
  }

  /** Length of the run of white space at the start of `s`. */
  function SpaceRun(s: string): (n: nat)
    ensures n <= |s|
    ensures forall i :: 0 <= i < n ==> IsSpace(s[i])
    ensures n < |s| ==> !IsSpace(s[n])
  {
    if s == [] || !IsSpace(s[0]) then 0 else 1 + SpaceRun(s[1..])
  }

  /** Length of the run of non-white-space at the start of `s`. */
  function InkRun(s: string): (n: nat)
    ensures n <= |s|
    ensures forall i :: 0 <= i < n ==> !IsSpace(s[i])
    ensures n < |s| ==> IsSpace(s[n])
  {
    if s == [] || IsSpace(s[0]) then 0 else 1 + InkRun(s[1..])
  }

  lemma {:induction false} InkRunIs(s: string, n: nat)
    requires n <= |s| && (forall i :: 0 <= i < n ==> !IsSpace(s[i]))
    requires n < |s| ==> IsSpace(s[n])
    ensures InkRun(s) == n
  {
    if n > 0 {
      InkRunIs(s[1..], n - 1);
    }
  }

  /** `s.split(/\s+/).filter(Boolean)`: the maximal runs of non-white-space. */
  function Fields(s: string): (fs: seq<string>)
    ensures forall f :: f in fs ==> f != [] && forall i :: 0 <= i < |f| ==> !IsSpace(f[i])
    decreases |s|
  {
    if s == [] then []
    else if IsSpace(s[0]) then Fields(s[1..])
    else
      var n := InkRun(s);
      [s[..n]] + Fields(s[n..])
  }

  /** A maximal run of word characters, bounded by the ends of the text or by
      non-word characters, is one of the tokens. */
  lemma {:induction false} TokenAt(s: string, i: nat, n: nat)
    requires 1 <= n && i + n <= |s|
    requires forall k :: i <= k < i + n ==> IsWordChar(s[k])
    requires i == 0 || !IsWordChar(s[i - 1])
    requires i + n == |s| || !IsWordChar(s[i + n])
    ensures s[i..i + n] in Tokens(s)
    decreases |s|, 1
  {
    if i == 0 {
      WordRunIs(s, n);
      assert s[..n] == s[0..n];
    } else {
      var m := if IsWordChar(s[0]) then WordRun(s) else 1;
      assert 1 <= m <= i;
      TokenAtShift(s, i, n, m);
      assert Tokens(s) == (if IsWordChar(s[0]) then [s[..m]] else []) + Tokens(s[m..]);
    }
  }

  /** The occurrence seen from a suffix that starts before it. */
  lemma {:induction false} TokenAtShift(s: string, i: nat, n: nat, m: nat)
    requires 1 <= n && i + n <= |s| && 1 <= m <= i
    requires forall k :: i <= k < i + n ==> IsWordChar(s[k])
    requires !IsWordChar(s[i - 1])
    requires i + n == |s| || !IsWordChar(s[i + n])
    ensures s[i..i + n] in Tokens(s[m..])
    decreases |s|, 0
  {
    var t, j := s[m..], i - m;
    forall k | j <= k < j + n ensures IsWordChar(t[k]) {
      assert t[k] == s[k + m];
    }
    assert j == 0 || !IsWordChar(t[j - 1]) by {
      if j > 0 {
        assert t[j - 1] == s[i - 1];
      }
    }
    assert j + n == |t| || !IsWordChar(t[j + n]) by {
      if j + n < |t| {
        assert t[j + n] == s[i + n];
      }
    }
    TokenAt(t, j, n);
    assert t[j..j + n] == s[i..i + n];
  }

  /** `s` is a single run of non-white-space characters. */
  predicate IsInk(s: string)
  {
    s != [] && forall i :: 0 <= i < |s| ==> !IsSpace(s[i])
  }

  /** A string of white space only. */
  predicate AllSpace(s: string)
  {
    forall i :: 0 <= i < |s| ==> IsSpace(s[i])
  }

  /** A word followed by nothing or by white space is the first field. */
  lemma FieldsInk(ink: string, rest: string)
    requires IsInk(ink)
    requires rest == [] || IsSpace(rest[0])
    ensures Fields(ink + rest) == [ink] + Fields(rest)
  {
    var s := ink + rest;
    InkRunIs(s, |ink|);
    assert s[..|ink|] == ink && s[|ink|..] == rest;
  }

  /** Leading white space does not change the fields. */
  lemma {:induction false} FieldsSpaces(sp: string, rest: string)
    requires AllSpace(sp)
    ensures Fields(sp + rest) == Fields(rest)
  {
    if sp == [] {
      assert sp + rest == rest;
    } else {
      assert (sp + rest)[1..] == sp[1..] + rest;
      FieldsSpaces(sp[1..], rest);
    }
  }

  /** Trailing white space does not change the fields. */
  lemma {:induction false} FieldsTrailing(a: string, sp: string)
    requires AllSpace(sp)
    ensures Fields(a + sp) == Fields(a)
    decreases |a|
  {
    var s := a + sp;
    if a == [] {
      assert s == sp + [];
      FieldsSpaces(sp, []);
    } else if IsSpace(a[0]) {
      assert s[1..] == a[1..] + sp;
      FieldsTrailing(a[1..], sp);
    } else {
      var n := InkRun(a);
      InkRunIs(s, n);
      assert s[..n] == a[..n] && s[n..] == a[n..] + sp;
      FieldsTrailing(a[n..], sp);
    }
  }

  lemma TrimStartFields(s: string)
    ensures Fields(TrimStart(s)) == Fields(s)
  {
    var t := TrimStart(s);
    var k := |s| - |t|;
    assert s == s[..k] + t;
    assert AllSpace(s[..k]) by {
      forall i | 0 <= i < k ensures IsSpace(s[..k][i]) {
        assert s[..k][i] == s[i];
      }
    }
    FieldsSpaces(s[..k], t);
  }

  lemma TrimEndFields(s: string)
    ensures Fields(TrimEnd(s)) == Fields(s)
  {
    var u := TrimEnd(s);
    assert s == u + s[|u|..];
    assert AllSpace(s[|u|..]) by {
      forall i | 0 <= i < |s| - |u| ensures IsSpace(s[|u|..][i]) {
        assert s[|u|..][i] == s[|u| + i];
      }
    }
    FieldsTrailing(u, s[|u|..]);
  }

  /** Trimming does not change the fields. */
  lemma TrimFields(s: string)
    ensures Fields(Trim(s)) == Fields(s)
  {
    TrimStartFields(s);
    TrimEndFields(TrimStart(s));
  }

  /** Every white-space character is a plain space followed by a non-space one. */
  predicate SingleSpaced(s: string)
  {
    forall i :: 0 <= i < |s| && IsSpace(s[i]) ==> s[i] == ' ' && (i + 1 < |s| ==> !IsSpace(s[i + 1]))
  }

  /** `s.replace(/\s+/g, ' ')`: every maximal run of white space becomes one space. */
  function CollapseSpaces(s: string): (r: string)
    ensures SingleSpaced(r)
    ensures r == [] <==> s == []
    ensures s != [] ==> (IsSpace(r[0]) <==> IsSpace(s[0]))
    ensures r != [] ==> (IsSpace(r[|r| - 1]) <==> IsSpace(s[|s| - 1]))
    decreases |s|
  {
    if s == [] then []
    else if IsSpace(s[0]) then
      var k := SpaceRun(s);
      var rest := CollapseSpaces(s[k..]);
      SingleSpacedSpace(rest);
      assert k == |s| ==> IsSpace(s[|s| - 1]);
      " " + rest
    else
      var n := InkRun(s);
      var rest := CollapseSpaces(s[n..]);
      SingleSpacedInk(s[..n], rest);
      s[..n] + rest
  }

  /** One space in front of single-spaced text that does not start with white space. */
  lemma SingleSpacedSpace(rest: string)
    requires SingleSpaced(rest) && (rest == [] || !IsSpace(rest[0]))
    ensures SingleSpaced(" " + rest)
  {
    var r := " " + rest;
    forall i | 0 <= i < |r| && IsSpace(r[i]) ensures r[i] == ' ' && (i + 1 < |r| ==> !IsSpace(r[i + 1])) {
      if i > 0 {
        assert r[i] == rest[i - 1];
        if i + 1 < |r| {
          assert r[i + 1] == rest[i];
        }
      }
    }
  }

  /** A run without white space in front of single-spaced text. */
  lemma SingleSpacedInk(ink: string, rest: string)
    requires forall i :: 0 <= i < |ink| ==> !IsSpace(ink[i])
    requires SingleSpaced(rest)
    ensures SingleSpaced(ink + rest)
  {
    var r := ink + rest;
    forall i | 0 <= i < |ink| ensures !IsSpace(r[i]) {
      assert r[i] == ink[i];
    }
    forall i | |ink| <= i < |r| && IsSpace(r[i]) ensures r[i] == ' ' && (i + 1 < |r| ==> !IsSpace(r[i + 1])) {
      assert r[i] == rest[i - |ink|];
      if i + 1 < |r| {
        assert r[i + 1] == rest[i + 1 - |ink|];
      }
    }
  }

  lemma PrefixSuffix(s: string, k: nat)
    requires k <= |s|
    ensures s[..k] + s[k..] == s
  {
  }

  /** Collapsing white space keeps the words. */
  lemma {:induction false} CollapseFields(s: string)
    ensures Fields(CollapseSpaces(s)) == Fields(s)
    decreases |s|
  {
    if s != [] {
      if IsSpace(s[0]) {
        var k := SpaceRun(s);
        var rest := CollapseSpaces(s[k..]);
        CollapseFields(s[k..]);
        assert CollapseSpaces(s) == " " + rest;
        assert AllSpace(" ");
        FieldsSpaces(" ", rest);
        assert AllSpace(s[..k]) by {
          forall i | 0 <= i < k ensures IsSpace(s[..k][i]) {
            assert s[..k][i] == s[i];
          }
        }
        PrefixSuffix(s, k);
        FieldsSpaces(s[..k], s[k..]);
      } else {
        var n := InkRun(s);
        var rest := CollapseSpaces(s[n..]);
        CollapseFields(s[n..]);
        assert CollapseSpaces(s) == s[..n] + rest;
        assert IsInk(s[..n]) by {
          forall i | 0 <= i < n ensures !IsSpace(s[..n][i]) {
            assert s[..n][i] == s[i];
          }
        }
        assert rest == [] || IsSpace(rest[0]);
        FieldsInk(s[..n], rest);
        assert Fields(s) == [s[..n]] + Fields(s[n..]);
      }
    }
  }

  /** `s.replace(/\s+/g, ' ').trim()` */
  function Normalize(s: string): string
  {
    Trim(CollapseSpaces(s))
  }

  /** Collapsing keeps a final non-space character. */
  lemma {:induction false} CollapseLast(s: string)
    requires s != [] && !IsSpace(s[|s| - 1])
    ensures CollapseSpaces(s)[|CollapseSpaces(s)| - 1] == s[|s| - 1]
    decreases |s|
  {
    var last := s[|s| - 1];
    if IsSpace(s[0]) {
      var k := SpaceRun(s);
      assert k < |s|;
      var t := s[k..];
      assert t[|t| - 1] == last;
      CollapseLast(t);
      var rest := CollapseSpaces(t);
      assert CollapseSpaces(s) == " " + rest;
      assert (" " + rest)[|rest|] == rest[|rest| - 1];
    } else {
      var n := InkRun(s);
      var rest := CollapseSpaces(s[n..]);
      assert CollapseSpaces(s) == s[..n] + rest;
      if n < |s| {
        var t := s[n..];
        assert t[|t| - 1] == last;
        CollapseLast(t);
        assert (s[..n] + rest)[n + |rest| - 1] == rest[|rest| - 1];
      } else {
        assert rest == [];
        assert s[..n] + rest == s;
      }
    }
  }

  /** A text that ends in a non-space character keeps that character last. */
  lemma NormalizeLast(s: string)
    requires s != [] && !IsSpace(s[|s| - 1])
    ensures Normalize(s) != [] && Normalize(s)[|Normalize(s)| - 1] == s[|s| - 1]
  {
    var c := CollapseSpaces(s);
    CollapseLast(s);
    var t := TrimStart(c);
    assert t != [] && t[|t| - 1] == c[|c| - 1];
    assert TrimEnd(t) == t;
  }

  lemma SingleSpacedSlice(s: string, i: nat, j: nat)
    requires SingleSpaced(s) && i <= j <= |s|
    ensures SingleSpaced(s[i..j])
  {
    var t := s[i..j];
    forall k | 0 <= k < |t| && IsSpace(t[k]) ensures t[k] == ' ' && (k + 1 < |t| ==> !IsSpace(t[k + 1])) {
      assert t[k] == s[i + k];
      if k + 1 < |t| { assert t[k + 1] == s[i + k + 1]; }
    }
  }

  /** Normalised text has single spaces between words, no white space at either
      end, and the same words as the input. */
  lemma NormalizeProperties(s: string)
    ensures SingleSpaced(Normalize(s))
    ensures Normalize(s) != [] ==> !IsSpace(Normalize(s)[0]) && !IsSpace(Normalize(s)[|Normalize(s)| - 1])
    ensures Fields(Normalize(s)) == Fields(s)
  {
    NormalizeSpacing(s);
    TrimFields(CollapseSpaces(s));
    CollapseFields(s);
  }

  lemma NormalizeSpacing(s: string)
    ensures SingleSpaced(Normalize(s))
  {
    var c := CollapseSpaces(s);
    var t := TrimStart(c);
    SingleSpacedSlice(c, |c| - |t|, |c|);
    var u := TrimEnd(t);
    SingleSpacedSlice(t, 0, |u|);
  }

  /** `\n` or `\r`, the characters `/\n|\r/` matches. */
  predicate IsLineBreak(c: char)
  {
    c == '\n' || c == '\r'
  }

  /** `s.split(/\n|\r/)`: the pieces between line-break characters; "" gives [""]. */
  function Lines(s: string): (r: seq<string>)
    ensures |r| >= 1
  {
    if s == [] then [""]
    else
      var rest := Lines(s[1..]);
      if IsLineBreak(s[0]) then [""] + rest
      else [[s[0]] + rest[0]] + rest[1..]
  }

  /** Number of line-break characters in `s`. */
  function LineBreaks(s: string): nat
  {
    if s == [] then 0 else (if IsLineBreak(s[0]) then 1 else 0) + LineBreaks(s[1..])
  }

  /** Splitting yields one more piece than there are line breaks. */
  lemma {:induction false} LinesLength(s: string)
    ensures |Lines(s)| == LineBreaks(s) + 1
  {
    if s != [] {
      LinesLength(s[1..]);
    }
  }

  /** `s` contains no line-break character. */
  predicate NoLineBreak(s: string)
  {
    forall i :: 0 <= i < |s| ==> !IsLineBreak(s[i])
  }

  /** A prefix without line breaks stays attached to the first piece. */
  lemma {:induction false} LinesPlain(a: string, t: string)
    requires NoLineBreak(a)
    ensures Lines(a + t) == [a + Lines(t)[0]] + Lines(t)[1..]
  {
    var x := Lines(t);
    if a == [] {
      assert a + t == t;
      assert a + x[0] == x[0];
      assert x == [x[0]] + x[1..];
    } else {
      var s := a + t;
      assert s[0] == a[0] && s[1..] == a[1..] + t;
      LinesPlain(a[1..], t);
      var rest := Lines(s[1..]);
      assert rest[0] == a[1..] + x[0] && rest[1..] == x[1..];
      assert !IsLineBreak(s[0]);
      assert Lines(s) == [[s[0]] + rest[0]] + rest[1..];
      assert [a[0]] + (a[1..] + x[0]) == a + x[0];
    }
  }

  /** Joining lines with "\n" and splitting again gives back the lines, provided
      none contains a line break. */
  lemma {:induction false} LinesJoin(parts: seq<string>)
    requires parts != []
    requires forall k :: 0 <= k < |parts| ==> NoLineBreak(parts[k])
    ensures Lines(Join(parts, "\n")) == parts
  {
    if |parts| == 1 {
      LinesPlain(parts[0], "");
      assert parts[0] + "" == parts[0];
    } else {
      var rest := Join(parts[1..], "\n");
      LinesJoin(parts[1..]);
      assert Join(parts, "\n") == parts[0] + ("\n" + rest);
      LinesPlain(parts[0], "\n" + rest);
      var x := Lines("\n" + rest);
      assert ("\n" + rest)[1..] == rest && IsLineBreak(("\n" + rest)[0]);
      assert x == [""] + parts[1..];
      assert parts[0] + "" == parts[0];
      assert parts == [parts[0]] + parts[1..];
    }
  }

  /** Decimal digits of a natural number, as `String(n)` prints it. */
  function NatToString(n: nat): (r: string)
    ensures r != []
    ensures forall i :: 0 <= i < |r| ==> '0' <= r[i] <= '9'
    decreases n
  {
    var d := ['0' + (n % 10) as char];
    if n < 10 then d else NatToString(n / 10) + d
  }

  /** `String(n)` for an integer `n`. */
  function IntToString(n: int): (r: string)
    ensures r != []
  {
    if n < 0 then "-" + NatToString(-n) else NatToString(n)
  }
}
