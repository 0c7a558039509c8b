/** Sequence helpers shared by the model: the JavaScript array operations the
    source uses (`filter`, `Array.from(new Set(..))`, `slice(0, n)`, a stable
    `sort`) written as functions with the facts the rest of the model needs. */
module Seqs {

  /** `a` is obtained from `b` by deleting elements, keeping the order of the rest. */
  predicate IsSubsequence<T(==,!new)>(a: seq<T>, b: seq<T>)
  {
    a == [] ||
    (b != [] && ((a[0] == b[0] && IsSubsequence(a[1..], b[1..])) || IsSubsequence(a, b[1..])))
  }

  /** No element occurs twice. */
  predicate Distinct<T(==,!new)>(s: seq<T>)
  {
    forall i, j :: 0 <= i < j < |s| ==> s[i] != s[j]
  }

  /** Number of occurrences of `x` in `s`. */
  function Count<T(==,!new)>(s: seq<T>, x: T): nat
  {
    if s == [] then 0 else (if s[0] == x then 1 else 0) + Count(s[1..], x)
  }

  lemma {:induction false} CountAppend<T(!new)>(a: seq<T>, b: seq<T>, x: T)
    ensures Count(a + b, x) == Count(a, x) + Count(b, x)
  {
    if a == [] {
      assert a + b == b;
    } else {
      assert (a + b)[1..] == a[1..] + b;
      CountAppend(a[1..], b, x);
    }
  }

  lemma {:induction false} CountPositive<T(!new)>(s: seq<T>, x: T)
    ensures Count(s, x) > 0 <==> x in s
  {
    if s != [] {
      CountPositive(s[1..], x);
      assert x in s <==> s[0] == x || x in s[1..];
    }
  }

  /** `s.filter(p)`: the elements of `s` that satisfy `p`, in their original order. */
  function Filter<T(==,!new)>(s: seq<T>, p: T -> bool): (r: seq<T>)
    ensures |r| <= |s|
    ensures forall x :: x in r <==> x in s && p(x)
    ensures IsSubsequence(r, s)
    ensures Distinct(s) ==> Distinct(r)
  {
    if s == [] then []
    else
      var rest := Filter(s[1..], p);
      assert Distinct(s) ==> Distinct(s[1..]) && s[0] !in s[1..];
      if p(s[0]) then [s[0]] + rest else rest
  }

  /** Filtering keeps every occurrence of an element that passes and none of one that fails. */
  lemma {:induction false} FilterCount<T(!new)>(s: seq<T>, p: T -> bool, x: T)
    ensures Count(Filter(s, p), x) == if p(x) then Count(s, x) else 0
  {
    if s != [] {
      FilterCount(s[1..], p, x);
      var rest := Filter(s[1..], p);
      if p(s[0]) {
        assert Filter(s, p) == [s[0]] + rest;
        assert ([s[0]] + rest)[1..] == rest;
      }
    }
  }

  /** `Array.from(new Set(s))` with `seen` already in the set: first occurrences, in order. */
  function DedupeFrom<T(==,!new)>(s: seq<T>, seen: set<T>): (r: seq<T>)
    ensures forall x :: x in r <==> x in s && x !in seen
    ensures Distinct(r)
    ensures |r| <= |s|
  {
    if s == [] then []
    else if s[0] in seen then DedupeFrom(s[1..], seen)
    else [s[0]] + DedupeFrom(s[1..], seen + {s[0]})
  }

  /** `Array.from(new Set(s))`: each element once, at the place of its first occurrence. */
  function Dedupe<T(==,!new)>(s: seq<T>): (r: seq<T>)
    ensures forall x :: x in r <==> x in s
    ensures Distinct(r)
    ensures |r| <= |s|
  {
    DedupeFrom(s, {})
  }

  lemma {:induction false} DedupeFromSnoc<T(!new)>(s: seq<T>, seen: set<T>, x: T)
    ensures DedupeFrom(s + [x], seen) ==
            DedupeFrom(s, seen) + (if x in s || x in seen then [] else [x])
    decreases |s|, 1
  {
    if s == [] {
      assert s + [x] == [x];
      assert [x][1..] == [];
    } else if s[0] in seen {
      DedupeFromSnocStep(s, seen, seen, x);
    } else {
      DedupeFromSnocStep(s, seen, seen + {s[0]}, x);
    }
  }

  lemma {:induction false} DedupeFromSnocStep<T(!new)>(s: seq<T>, seen: set<T>, seen': set<T>, x: T)
    requires s != [] && seen' == seen + {s[0]}
    ensures DedupeFrom(s + [x], seen) ==
            DedupeFrom(s, seen) + (if x in s || x in seen then [] else [x])
    decreases |s|, 0
  {
    var t := s + [x];
    assert t[0] == s[0] && t[1..] == s[1..] + [x];
    DedupeFromSnoc(s[1..], seen', x);
    DedupeFromCons(t, seen);
    DedupeFromCons(s, seen);
    var a := DedupeFrom(s[1..], seen');
    assert x in s <==> x == s[0] || x in s[1..];
    assert (x in s || x in seen) <==> (x in s[1..] || x in seen');
    if s[0] in seen {
      assert seen' == seen;
    } else {
      var tail := if x in s || x in seen then [] else [x];
      assert [s[0]] + (a + tail) == [s[0]] + a + tail;
    }
  }

  /** One step of `DedupeFrom`. */
  lemma DedupeFromCons<T(!new)>(s: seq<T>, seen: set<T>)
    requires s != []
    ensures DedupeFrom(s, seen) ==
            if s[0] in seen then DedupeFrom(s[1..], seen) else [s[0]] + DedupeFrom(s[1..], seen + {s[0]})
  {
  }

  /** Appending an element extends the deduplicated sequence by it exactly when it is new. */
  lemma DedupeSnoc<T(!new)>(s: seq<T>, x: T)
    ensures Dedupe(s + [x]) == Dedupe(s) + (if x in s then [] else [x])
  {
    DedupeFromSnoc(s, {}, x);
  }

  /** `s.slice(0, n)` for `n >= 0`. */
  function Take<T>(s: seq<T>, n: nat): (r: seq<T>)
    ensures |r| == if n < |s| then n else |s|
    ensures r == s[..|r|]
  {
    if n < |s| then s[..n] else s
  }

  /** Keys never decrease along `s`. */
  predicate SortedBy<T>(s: seq<T>, key: T -> int)
  {
    forall i, j :: 0 <= i < j < |s| ==> key(s[i]) <= key(s[j])
  }

  /** Inserts `x` before the first element whose key is not smaller. */
  function Insert<T(==,!new)>(x: T, s: seq<T>, key: T -> int): (r: seq<T>)
    ensures multiset(r) == multiset(s) + multiset{x}
    ensures forall y :: y in r <==> y == x || y in s
    ensures SortedBy(s, key) ==> SortedBy(r, key)
  {
    if s == [] then [x]
    else if key(x) <= key(s[0]) then
      SortedCons(x, s, key);
      [x] + s
    else
      var rest := Insert(x, s[1..], key);
      InsertStep(x, s, key, rest);
      [s[0]] + rest
  }

  /** Putting an element with a key no larger than the first in front keeps the order. */
  lemma SortedCons<T>(h: T, s: seq<T>, key: T -> int)
    requires s != [] ==> key(h) <= key(s[0])
    ensures SortedBy(s, key) ==> SortedBy([h] + s, key)
  {
    if SortedBy(s, key) {
      var r := [h] + s;
      forall i, j | 0 <= i < j < |r| ensures key(r[i]) <= key(r[j]) {
        if i == 0 {
          assert r[j] == s[j - 1];
          if j > 1 {
            assert key(s[0]) <= key(s[j - 1]);
          }
        } else {
          assert r[i] == s[i - 1] && r[j] == s[j - 1];
        }
      }
    }
  }

  /** The recursive case of `Insert`: the head stays in front of the insertion into the tail. */
  lemma InsertStep<T(!new)>(x: T, s: seq<T>, key: T -> int, rest: seq<T>)
    requires s != [] && key(x) > key(s[0])
    requires multiset(rest) == multiset(s[1..]) + multiset{x}
    requires forall y :: y in rest <==> y == x || y in s[1..]
    requires SortedBy(s[1..], key) ==> SortedBy(rest, key)
    ensures multiset([s[0]] + rest) == multiset(s) + multiset{x}
    ensures forall y :: y in [s[0]] + rest <==> y == x || y in s
    ensures SortedBy(s, key) ==> SortedBy([s[0]] + rest, key)
  {
    assert s == [s[0]] + s[1..];
    if SortedBy(s, key) {
      SortedTail(s, key);
      SortedBelow(s[0], rest, key);
    }
  }

  /** The tail of a sorted sequence is sorted and no key in it is below the head's. */
  lemma SortedTail<T>(s: seq<T>, key: T -> int)
    requires s != [] && SortedBy(s, key)
    ensures SortedBy(s[1..], key)
    ensures forall y :: y in s[1..] ==> key(s[0]) <= key(y)
  {
    forall y | y in s[1..] ensures key(s[0]) <= key(y) {
      var k :| 0 <= k < |s[1..]| && s[1..][k] == y;
      assert y == s[k + 1];
    }
  }

  /** An element whose key is below every key of a sorted sequence can go in front. */
  lemma SortedBelow<T>(h: T, s: seq<T>, key: T -> int)
    requires SortedBy(s, key)
    requires forall y :: y in s ==> key(h) <= key(y)
    ensures SortedBy([h] + s, key)
  {
    var r := [h] + s;
    forall i, j | 0 <= i < j < |r| ensures key(r[i]) <= key(r[j]) {
      assert r[j] == s[j - 1];
      if i == 0 {
        assert s[j - 1] in s;
      } else {
        assert r[i] == s[i - 1];
      }
    }
  }

  /** Stable sort by ascending key (insertion sort): elements with equal keys keep their
      relative order, as in `Array.prototype.sort`, which is stable. */
  function SortBy<T(==,!new)>(s: seq<T>, key: T -> int): (r: seq<T>)
    ensures multiset(r) == multiset(s)
    ensures |r| == |s|
    ensures forall y :: y in r <==> y in s
    ensures SortedBy(r, key)
  {
    if s == [] then []
    else
      assert s == [s[0]] + s[1..];
      Insert(s[0], SortBy(s[1..], key), key)
  }

  /** Inserting `x` puts it among the elements of its own key in front of them, and leaves
      the elements of every other key as they were. */
  lemma {:induction false} InsertKeyClass<T(!new)>(x: T, t: seq<T>, key: T -> int, c: int, p: T -> bool)
    requires forall y :: p(y) <==> key(y) == c
    ensures Filter(Insert(x, t, key), p) == (if key(x) == c then [x] else []) + Filter(t, p)
  {
    if t != [] && key(x) > key(t[0]) {
      InsertKeyClass(x, t[1..], key, c, p);
      assert Insert(x, t, key) == [t[0]] + Insert(x, t[1..], key);
      assert ([t[0]] + Insert(x, t[1..], key))[1..] == Insert(x, t[1..], key);
    } else if t != [] {
      assert ([x] + t)[1..] == t;
    }
  }

  /** The sort is stable: the elements of any one key come out in their original order. */
  lemma {:induction false} SortByStable<T(!new)>(s: seq<T>, key: T -> int, c: int, p: T -> bool)
    requires forall y :: p(y) <==> key(y) == c
    ensures Filter(SortBy(s, key), p) == Filter(s, p)
  {
    if s != [] {
      SortByStable(s[1..], key, c, p);
      InsertKeyClass(s[0], SortBy(s[1..], key), key, c, p);
    }
  }

  /** A subsequence of a subsequence is a subsequence. */
  lemma {:induction false} SubsequenceTrans<T(!new)>(a: seq<T>, b: seq<T>, c: seq<T>)
    requires IsSubsequence(a, b) && IsSubsequence(b, c)
    ensures IsSubsequence(a, c)
    decreases |c|
  {
    if a != [] {
      if IsSubsequence(b, c[1..]) {
        SubsequenceTrans(a, b, c[1..]);
      } else if a[0] == b[0] && IsSubsequence(a[1..], b[1..]) {
        SubsequenceTrans(a[1..], b[1..], c[1..]);
      } else {
        SubsequenceTrans(a, b[1..], c[1..]);
      }
    }
  }

  /** The set of elements of `s` (`new Set(s)`). */
  function Elements<T(==,!new)>(s: seq<T>): (e: set<T>)
    ensures forall x :: x in e <==> x in s
  {
    set x | x in s
  }

  /** A set built from a sequence is never larger than the sequence. */
  lemma {:induction false} ElementsCard<T(!new)>(s: seq<T>)
    ensures |Elements(s)| <= |s|
  {
    if s != [] {
      ElementsCard(s[1..]);
      assert Elements(s) == Elements(s[1..]) + {s[0]};
    }
  }

  /** Without repetitions the set has exactly as many elements as the sequence. */
  lemma {:induction false} DistinctElementsCard<T(!new)>(s: seq<T>)
    requires Distinct(s)
    ensures |Elements(s)| == |s|
  {
    if s != [] {
      DistinctElementsCard(s[1..]);
      assert s[0] !in s[1..];
      assert Elements(s) == Elements(s[1..]) + {s[0]};
    }
  }

  /** Distinctness is a property of the multiset of elements. */
  lemma {:induction false} DistinctMultiset<T(!new)>(a: seq<T>, b: seq<T>)
    requires multiset(a) == multiset(b) && Distinct(a)
    ensures Distinct(b)
  {
    forall i, j | 0 <= i < j < |b| ensures b[i] != b[j] {
      if b[i] == b[j] {
        var x := b[i];
        assert b == b[..i] + [x] + b[i + 1..j] + [x] + b[j + 1..];
        assert multiset(b)[x] >= 2;
        MultisetAtMostOnce(a, x);
        assert false;
      }
    }
  }

  lemma {:induction false} MultisetAtMostOnce<T(!new)>(s: seq<T>, x: T)
    requires Distinct(s)
    ensures multiset(s)[x] <= 1
  {
    if s != [] {
      MultisetAtMostOnce(s[1..], x);
      assert s == [s[0]] + s[1..];
      assert s[0] == x ==> x !in s[1..];
    }
  }

  /** A subsequence is no longer than the sequence it is taken from. */
  lemma {:induction false} SubsequenceLength<T(!new)>(a: seq<T>, b: seq<T>)
    requires IsSubsequence(a, b)
    ensures |a| <= |b|
    decreases |b|
  {
    if a != [] {
      if a[0] == b[0] && IsSubsequence(a[1..], b[1..]) {
        SubsequenceLength(a[1..], b[1..]);
      } else {
        SubsequenceLength(a, b[1..]);
      }
    }
  }

  /** Every element of a subsequence occurs in the sequence. */
  lemma {:induction false} SubsequenceMembers<T(!new)>(a: seq<T>, b: seq<T>)
    requires IsSubsequence(a, b)
    ensures forall x :: x in a ==> x in b
    decreases |b|
  {
    if a != [] {
      if a[0] == b[0] && IsSubsequence(a[1..], b[1..]) {
        SubsequenceMembers(a[1..], b[1..]);
        assert forall x :: x in a ==> x == a[0] || x in a[1..];
      } else {
        SubsequenceMembers(a, b[1..]);
      }
    }
  }

  /** `s.map(f)` */
  function Map<A, B>(s: seq<A>, f: A -> B): (r: seq<B>)
    ensures |r| == |s|
    ensures forall i :: 0 <= i < |s| ==> r[i] == f(s[i])
  {
    if s == [] then [] else [f(s[0])] + Map(s[1..], f)
  }

  /** Every member of `s` is mapped into `Map(s, f)`, and every member there comes from one in `s`. */
  lemma MapMembers<A, B>(s: seq<A>, f: A -> B)
    ensures forall x :: x in s ==> f(x) in Map(s, f)
    ensures forall y :: y in Map(s, f) ==> exists x :: x in s && f(x) == y
  {
    var r := Map(s, f);
    forall x | x in s ensures f(x) in r {
      var i :| 0 <= i < |s| && s[i] == x;
      assert r[i] == f(x);
    }
    forall y | y in r ensures exists x :: x in s && f(x) == y {
      var i :| 0 <= i < |r| && r[i] == y;
      assert s[i] in s && f(s[i]) == y;
    }
  }

  /** A sequence without members is empty. */
  lemma NoMembers<T>(s: seq<T>)
    ensures (forall x :: x !in s) ==> s == []
  {
    if s != [] {
      assert s[0] in s;
    }
  }

  /** The elements that pass a filter and the elements that pass its complement together
      make up the original sequence. */
  lemma {:induction false} FilterPartition<T(!new)>(s: seq<T>, p: T -> bool, q: T -> bool)
    requires forall x :: q(x) == !p(x)
    ensures multiset(Filter(s, p)) + multiset(Filter(s, q)) == multiset(s)
  {
    if s != [] {
      FilterPartition(s[1..], p, q);
      FilterHead(s, p);
      FilterHead(s, q);
      assert s == [s[0]] + s[1..];
    }
  }

  /** One step of `Filter`, counted as a multiset. */
  lemma FilterHead<T(!new)>(s: seq<T>, p: T -> bool)
    requires s != []
    ensures multiset(Filter(s, p)) == (if p(s[0]) then multiset{s[0]} else multiset{}) + multiset(Filter(s[1..], p))
  {
  }

  /** Putting elements in front keeps a subsequence a subsequence. */
  lemma {:induction false} SubsequencePrepend<T(!new)>(a: seq<T>, b1: seq<T>, b2: seq<T>)
    requires IsSubsequence(a, b2)
    ensures IsSubsequence(a, b1 + b2)
    decreases |b1|
  {
    if b1 == [] {
      assert b1 + b2 == b2;
    } else if a != [] {
      assert (b1 + b2)[1..] == b1[1..] + b2;
      SubsequencePrepend(a, b1[1..], b2);
      assert IsSubsequence(a, (b1 + b2)[1..]);
    }
  }

  /** Subsequences of two sequences concatenate to a subsequence of their concatenation. */
  lemma {:induction false} SubsequenceConcat<T(!new)>(a1: seq<T>, b1: seq<T>, a2: seq<T>, b2: seq<T>)
    requires IsSubsequence(a1, b1) && IsSubsequence(a2, b2)
    ensures IsSubsequence(a1 + a2, b1 + b2)
    decreases |b1|
  {
    if a1 == [] {
      assert a1 + a2 == a2;
      SubsequencePrepend(a2, b1, b2);
    } else {
      assert (b1 + b2)[0] == b1[0] && (b1 + b2)[1..] == b1[1..] + b2;
      assert (a1 + a2)[0] == a1[0] && (a1 + a2)[1..] == a1[1..] + a2;
      if a1[0] == b1[0] && IsSubsequence(a1[1..], b1[1..]) {
        SubsequenceConcat(a1[1..], b1[1..], a2, b2);
      } else {
        SubsequenceConcat(a1, b1[1..], a2, b2);
      }
    }
  }

  /** Every sequence is a subsequence of itself. */
  lemma {:induction false} SubsequenceRefl<T(!new)>(a: seq<T>)
    ensures IsSubsequence(a, a)
  {
    if a != [] {
      SubsequenceRefl(a[1..]);
    }
  }
}
