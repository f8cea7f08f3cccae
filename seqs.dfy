/**
 * The array operations the pages use, on `seq`: `filter` (and `.length` of a filter
 * as a count), "keeps order" as a subsequence relation, `filter((_, i) => i !== idx)`
 * and `Array.from(new Set(xs))`.
 */
module Seqs {

  /** `s.filter(p)`. */
  function Filter<T>(s: seq<T>, p: T -> bool): (r: seq<T>)
    ensures |r| <= |s|
    ensures forall x :: x in r ==> x in s && p(x)
    ensures forall x :: x in s && p(x) ==> x in r
  {
    if |s| == 0 then []
    else if p(s[0]) then [s[0]] + Filter(s[1..], p)
    else Filter(s[1..], p)
  }

  /** `s.filter(p).length`. */
  function Count<T>(s: seq<T>, p: T -> bool): (n: nat)
    ensures n <= |s|
    ensures n == 0 <==> forall x :: x in s ==> !p(x)
  {
    var r := Filter(s, p);
    assert |r| > 0 ==> r[0] in r;
    |r|
  }

  /** Filtering a concatenation filters each part: the order of the input is kept. */
  lemma {:induction false} FilterAppend<T>(a: seq<T>, b: seq<T>, p: T -> bool)
    ensures Filter(a + b, p) == Filter(a, p) + Filter(b, p)
  {
    if |a| == 0 {
      assert a + b == b;
    } else {
      var ab := a + b;
      FilterAppend(a[1..], b, p);
      assert ab[0] == a[0] && ab[1..] == a[1..] + b;
      if p(a[0]) {
        assert Filter(ab, p) == [a[0]] + Filter(a[1..] + b, p);
        assert Filter(a, p) == [a[0]] + Filter(a[1..], p);
        AppendAssoc3([a[0]], Filter(a[1..], p), Filter(b, p));
      } else {
        assert Filter(ab, p) == Filter(a[1..] + b, p);
        assert Filter(a, p) == Filter(a[1..], p);
      }
    }
  }

  /** `a` is `b` with some elements left out, in the same order. */
  predicate IsSubsequence<T(==)>(a: seq<T>, b: seq<T>)
    decreases |b|
  {
    if |a| == 0 then true
    else if |b| == 0 then false
    else if a[0] == b[0] then IsSubsequence(a[1..], b[1..])
    else IsSubsequence(a, b[1..])
  }

  lemma {:induction false} SubsequenceCons<T>(a: seq<T>, b: seq<T>, x: T)
    requires IsSubsequence(a, b)
    ensures IsSubsequence(a, [x] + b)
    decreases |a| + |b|, 1
  {
    if |a| > 0 && a[0] == x {
      SubsequenceDropFirst(a, b);
      assert ([x] + b)[1..] == b;
    } else if |a| > 0 {
      assert ([x] + b)[1..] == b;
    }
  }

  lemma {:induction false} SubsequenceDropFirst<T>(a: seq<T>, b: seq<T>)
    requires |a| > 0 && IsSubsequence(a, b)
    ensures IsSubsequence(a[1..], b)
    decreases |a| + |b|, 0
  {
    assert |b| > 0;
    if a[0] == b[0] {
      SubsequenceCons(a[1..], b[1..], b[0]);
    } else {
      SubsequenceDropFirst(a, b[1..]);
      SubsequenceCons(a[1..], b[1..], b[0]);
    }
    assert [b[0]] + b[1..] == b;
  }

  /** The result of a filter keeps the input's order. */
  lemma {:induction false} FilterIsSubsequence<T>(s: seq<T>, p: T -> bool)
    ensures IsSubsequence(Filter(s, p), s)
  {
    if |s| > 0 {
      FilterIsSubsequence(s[1..], p);
      if !p(s[0]) {
        SubsequenceCons(Filter(s[1..], p), s[1..], s[0]);
        assert [s[0]] + s[1..] == s;
      }
    }
  }

  /** Two filters whose tests never both hold select at most the whole input. */
  lemma {:induction false} CountDisjoint<T>(s: seq<T>, p: T -> bool, q: T -> bool)
    requires forall x :: x in s ==> !(p(x) && q(x))
    ensures Count(s, p) + Count(s, q) <= |s|
  {
    if |s| > 0 {
      CountDisjoint(s[1..], p, q);
    }
  }

  /** Three pairwise exclusive tests select at most the whole input between them. */
  lemma {:induction false} CountDisjoint3<T>(s: seq<T>, p: T -> bool, q: T -> bool, r: T -> bool)
    requires forall x :: x in s ==> !(p(x) && q(x)) && !(p(x) && r(x)) && !(q(x) && r(x))
    ensures Count(s, p) + Count(s, q) + Count(s, r) <= |s|
  {
    if |s| > 0 {
      CountDisjoint3(s[1..], p, q, r);
    }
  }

  /** A filter and the filter of the opposite test split the input between them. */
  lemma {:induction false} CountComplement<T>(s: seq<T>, p: T -> bool, q: T -> bool)
    requires forall x :: x in s ==> (p(x) <==> !q(x))
    ensures Count(s, p) + Count(s, q) == |s|
  {
    if |s| > 0 {
      CountComplement(s[1..], p, q);
    }
  }

  /** Three tests of which exactly one holds of each element split the input three ways. */
  lemma {:induction false} CountPartition3<T>(s: seq<T>, p: T -> bool, q: T -> bool, r: T -> bool)
    requires forall x :: x in s ==> (p(x) || q(x) || r(x))
    requires forall x :: x in s ==> !(p(x) && q(x)) && !(p(x) && r(x)) && !(q(x) && r(x))
    ensures Count(s, p) + Count(s, q) + Count(s, r) == |s|
  {
    if |s| > 0 {
      CountPartition3(s[1..], p, q, r);
    }
  }

  /** The count of a test over a prefix grows by one exactly when the next element passes. */
  lemma CountSnoc<T>(s: seq<T>, x: T, p: T -> bool)
    ensures Count(s + [x], p) == Count(s, p) + (if p(x) then 1 else 0)
  {
    FilterAppend(s, [x], p);
    if p(x) {
      assert Filter([x], p) == [x] + Filter([], p);
    } else {
      assert Filter([x], p) == Filter([], p);
    }
  }

  /** The count over a concatenation is the sum of the counts. */
  lemma CountAppend<T>(a: seq<T>, b: seq<T>, p: T -> bool)
    ensures Count(a + b, p) == Count(a, p) + Count(b, p)
  {
    FilterAppend(a, b, p);
  }

  /** Reordering a sequence does not change how many of its elements pass a test. */
  lemma {:induction false} CountPermutation<T>(a: seq<T>, b: seq<T>, p: T -> bool)
    requires multiset(a) == multiset(b)
    ensures Count(a, p) == Count(b, p)
    decreases |a|
  {
    if |a| == 0 {
      assert |b| == |multiset(b)| == 0;
    } else {
      assert a[0] in multiset(b);
      var j :| 0 <= j < |b| && b[j] == a[0];
      var rest := b[..j] + b[j + 1..];
      assert b == b[..j] + [b[j]] + b[j + 1..];
      assert a == [a[0]] + a[1..];
      calc {
        multiset(a[1..]);
        multiset(a) - multiset{a[0]};
        multiset(b[..j]) + multiset{b[j]} + multiset(b[j + 1..]) - multiset{b[j]};
        multiset(rest);
      }
      CountPermutation(a[1..], rest, p);
      CountAppend([a[0]], a[1..], p);
      CountAppend(b[..j] + [b[j]], b[j + 1..], p);
      CountAppend(b[..j], [b[j]], p);
      CountAppend(b[..j], b[j + 1..], p);
      assert Count([a[0]], p) == if p(a[0]) then 1 else 0 by {
        assert [a[0]][1..] == [];
      }
    }
  }

  /** A filter selects everything when its test holds of every element. */
  lemma {:induction false} FilterAll<T>(s: seq<T>, p: T -> bool)
    requires forall x :: x in s ==> p(x)
    ensures Filter(s, p) == s
  {
    if |s| > 0 {
      FilterAll(s[1..], p);
      assert [s[0]] + s[1..] == s;
    }
  }

  /** A filter selects nothing when its test holds of no element. */
  lemma {:induction false} FilterNone<T>(s: seq<T>, p: T -> bool)
    requires forall x :: x in s ==> !p(x)
    ensures Filter(s, p) == []
  {
    if |s| > 0 {
      FilterNone(s[1..], p);
    }
  }

  /** Filters whose tests agree on every element give the same result. */
  lemma {:induction false} FilterSameTest<T>(s: seq<T>, p: T -> bool, q: T -> bool)
    requires forall x :: x in s ==> (p(x) <==> q(x))
    ensures Filter(s, p) == Filter(s, q)
  {
    if |s| > 0 {
      FilterSameTest(s[1..], p, q);
    }
  }

  /** `s.filter((_, i) => i !== idx)`: drops the element at `idx`, if there is one. */
  function RemoveIndex<T>(s: seq<T>, idx: int): (r: seq<T>)
    ensures 0 <= idx < |s| ==> |r| == |s| - 1
    ensures 0 <= idx < |s| ==> forall i :: 0 <= i < idx ==> r[i] == s[i]
    ensures 0 <= idx < |s| ==> forall i :: idx <= i < |r| ==> r[i] == s[i + 1]
    ensures !(0 <= idx < |s|) ==> r == s
  {
    if 0 <= idx < |s| then s[..idx] + s[idx + 1..] else s
  }

  /** Element `i` of `s` is element `i + 1` once `x` is put in front. */
  lemma ConsIndex<T>(x: T, s: seq<T>)
    ensures forall i :: 0 <= i < |s| ==> ([x] + s)[i + 1] == s[i]
  {
  }

  /** Regrouping a three-part concatenation. */
  lemma AppendAssoc3<T>(a: seq<T>, b: seq<T>, c: seq<T>)
    ensures (a + b) + c == a + (b + c)
  {
  }

  /** Regrouping a four-part concatenation. */
  lemma AppendAssoc4<T>(a: seq<T>, b: seq<T>, c: seq<T>, d: seq<T>)
    ensures ((a + b) + c) + d == a + ((b + c) + d)
  {
  }

  /** Removing by index keeps the remaining elements in order. */
  lemma RemoveIndexIsSubsequence<T>(s: seq<T>, idx: int)
    ensures IsSubsequence(RemoveIndex(s, idx), s)
  {
    if 0 <= idx < |s| {
      assert s == s[..idx] + [s[idx]] + s[idx + 1..];
      assert RemoveIndex(s, idx) == s[..idx] + s[idx + 1..];
      SubsequenceOfRemoval(s[..idx], s[idx], s[idx + 1..]);
    } else {
      SubsequenceRefl(s);
    }
  }

  /** Every sequence is a subsequence of itself. */
  lemma {:induction false} SubsequenceRefl<T>(s: seq<T>)
    ensures IsSubsequence(s, s)
  {
    if |s| > 0 {
      SubsequenceRefl(s[1..]);
    }
  }

  /** `a + c` is a subsequence of `a + [x] + c`. */
  lemma {:induction false} SubsequenceOfRemoval<T>(a: seq<T>, x: T, c: seq<T>)
    ensures IsSubsequence(a + c, a + [x] + c)
  {
    if |a| == 0 {
      SubsequenceRefl(c);
      SubsequenceCons(c, c, x);
      assert a + c == c;
      assert a + [x] + c == [x] + c;
    } else {
      SubsequenceOfRemoval(a[1..], x, c);
      SubsequenceSameHead(a[0], a[1..] + c, a[1..] + [x] + c);
      assert a + c == [a[0]] + (a[1..] + c);
      assert a + [x] + c == [a[0]] + (a[1..] + [x] + c);
    }
  }

  /** A common first element extends a subsequence. */
  lemma SubsequenceSameHead<T>(y: T, a: seq<T>, b: seq<T>)
    requires IsSubsequence(a, b)
    ensures IsSubsequence([y] + a, [y] + b)
  {
    assert ([y] + a)[1..] == a && ([y] + b)[1..] == b;
  }

  /** No value occurs twice. */
  predicate NoDuplicates<T(==)>(s: seq<T>) {
    forall i, j :: 0 <= i < j < |s| ==> s[i] != s[j]
  }

  /** A value occurs at most once in a sequence without duplicates. */
  lemma {:induction false} NoDuplicatesCount<T>(s: seq<T>, x: T)
    requires NoDuplicates(s)
    ensures multiset(s)[x] <= 1
  {
    if |s| > 0 {
      assert s == [s[0]] + s[1..];
      NoDuplicatesCount(s[1..], x);
      if s[0] == x {
        assert x !in s[1..];
      }
    }
  }

  /** A value at two positions occurs at least twice. */
  lemma CountTwo<T>(s: seq<T>, i: nat, j: nat)
    requires i < j < |s| && s[i] == s[j]
    ensures multiset(s)[s[i]] >= 2
  {
    assert s == s[..j] + s[j..];
    assert s[i] in s[..j];
    assert s[j..] == [s[j]] + s[j + 1..];
  }

  /** A rearrangement of a sequence without duplicates has none either. */
  lemma NoDuplicatesPermutation<T>(a: seq<T>, b: seq<T>)
    requires NoDuplicates(a) && multiset(a) == multiset(b)
    ensures NoDuplicates(b)
  {
    forall i, j | 0 <= i < j < |b| ensures b[i] != b[j] {
      if b[i] == b[j] {
        CountTwo(b, i, j);
        NoDuplicatesCount(a, b[i]);
      }
    }
  }

  /** The first occurrence of each value of `s` not in `seen`, in order. */
  function DistinctAfter<T(==)>(s: seq<T>, seen: set<T>): (r: seq<T>)
    ensures |r| <= |s|
    ensures NoDuplicates(r)
    ensures forall x :: x in r ==> x in s && x !in seen
    ensures forall x :: x in s && x !in seen ==> x in r
  {
    if |s| == 0 then []
    else if s[0] in seen then DistinctAfter(s[1..], seen)
    else [s[0]] + DistinctAfter(s[1..], seen + {s[0]})
  }

  /** `Array.from(new Set(s))`: each value once, at its first occurrence. */
  function Distinct<T(==)>(s: seq<T>): (r: seq<T>)
    ensures |r| <= |s|
    ensures NoDuplicates(r)
    ensures forall x :: x in r ==> x in s
    ensures forall x :: x in s ==> x in r
  {
    DistinctAfter(s, {})
  }

  /** Extending the input by one value adds it at the end, unless it was already there. */
  lemma {:induction false} DistinctAfterSnoc<T>(s: seq<T>, x: T, seen: set<T>)
    ensures DistinctAfter(s + [x], seen) ==
      DistinctAfter(s, seen) + (if x in s || x in seen then [] else [x])
  {
    if |s| == 0 {
      assert s + [x] == [x];
    } else {
      var t := s + [x];
      assert t[0] == s[0] && t[1..] == s[1..] + [x];
      assert x in s <==> x == s[0] || x in s[1..];
      if s[0] in seen {
        DistinctAfterSnoc(s[1..], x, seen);
        assert DistinctAfter(t, seen) == DistinctAfter(s[1..] + [x], seen);
        assert DistinctAfter(s, seen) == DistinctAfter(s[1..], seen);
      } else {
        var seen' := seen + {s[0]};
        DistinctAfterSnoc(s[1..], x, seen');
        var tail := if x in s[1..] || x in seen' then [] else [x];
        assert DistinctAfter(t, seen) == [s[0]] + DistinctAfter(s[1..] + [x], seen');
        assert DistinctAfter(s, seen) == [s[0]] + DistinctAfter(s[1..], seen');
        assert [s[0]] + (DistinctAfter(s[1..], seen') + tail) == ([s[0]] + DistinctAfter(s[1..], seen')) + tail;
      }
    }
  }

  lemma DistinctSnoc<T>(s: seq<T>, x: T)
    ensures Distinct(s + [x]) == Distinct(s) + (if x in s then [] else [x])
  {
    DistinctAfterSnoc(s, x, {});
  }

  /** Distinct keeps the order of first occurrences. */
  lemma {:induction false} DistinctAfterIsSubsequence<T>(s: seq<T>, seen: set<T>)
    ensures IsSubsequence(DistinctAfter(s, seen), s)
  {
    if |s| > 0 {
      if s[0] in seen {
        DistinctAfterIsSubsequence(s[1..], seen);
        SubsequenceCons(DistinctAfter(s[1..], seen), s[1..], s[0]);
        assert [s[0]] + s[1..] == s;
      } else {
        DistinctAfterIsSubsequence(s[1..], seen + {s[0]});
      }
    }
  }

  /** Applying `f` to each element (`s.map(f)`). */
  function Map<T, U>(s: seq<T>, f: T -> U): (r: seq<U>)
    ensures |r| == |s|
    ensures forall i :: 0 <= i < |s| ==> r[i] == f(s[i])
  {
    seq(|s|, i requires 0 <= i < |s| => f(s[i]))
  }
}

/** `Array.prototype.sort` with a comparator `(a, b) => key(b) - key(a)`: non-increasing by key. */
module Sorting {
  import Seqs

  /** Every element's key is at least the key of each later element. */
  predicate SortedDesc<T>(s: seq<T>, key: T -> int) {
    forall i, j :: 0 <= i < j < |s| ==> key(s[i]) >= key(s[j])
  }

  /** Puts `x` before the first element whose key is smaller: a stable insertion. */
  function Insert<T>(x: T, s: seq<T>, key: T -> int): (r: seq<T>)
    requires SortedDesc(s, key)
    ensures SortedDesc(r, key)
    ensures multiset(r) == multiset(s) + multiset{x}
    ensures |r| == |s| + 1
  {
    if |s| == 0 then [x]
    else if key(x) >= key(s[0]) then [x] + s
    else
      var t := Insert(x, s[1..], key);
      assert s == [s[0]] + s[1..];
      InsertBelowHead(x, s, t, key);
      [s[0]] + t
  }

  /** The head of `s` stays in front of `x` inserted into the rest, as `x`'s key is smaller. */
  lemma InsertBelowHead<T>(x: T, s: seq<T>, t: seq<T>, key: T -> int)
    requires |s| > 0 && SortedDesc(s, key) && key(x) < key(s[0])
    requires SortedDesc(t, key) && multiset(t) == multiset(s[1..]) + multiset{x}
    ensures SortedDesc([s[0]] + t, key)
  {
    forall j | 0 <= j < |t| ensures key(s[0]) >= key(t[j]) {
      assert t[j] in multiset(t);
      if t[j] != x {
        assert t[j] in multiset(s[1..]);
        var i :| 0 <= i < |s[1..]| && s[1..][i] == t[j];
        assert s[i + 1] == t[j];
      }
    }
    var r := [s[0]] + t;
    forall i, j | 0 <= i < j < |r| ensures key(r[i]) >= key(r[j]) {
      if i > 0 {
        assert r[i] == t[i - 1] && r[j] == t[j - 1];
      } else {
        assert r[j] == t[j - 1];
      }
    }
  }

  /** The sorted copy of `s`: a permutation of `s`, non-increasing by key, stable. */
  function SortDesc<T>(s: seq<T>, key: T -> int): (r: seq<T>)
    ensures SortedDesc(r, key)
    ensures multiset(r) == multiset(s)
    ensures |r| == |s|
  {
    if |s| == 0 then []
    else
      assert s == [s[0]] + s[1..];
      Insert(s[0], SortDesc(s[1..], key), key)
  }

  /** Keeping only some elements of a sorted sequence leaves it sorted. */
  lemma {:induction false} FilterSorted<T>(s: seq<T>, key: T -> int, p: T -> bool)
    requires SortedDesc(s, key)
    ensures SortedDesc(Seqs.Filter(s, p), key)
  {
    if |s| > 0 {
      FilterSorted(s[1..], key, p);
      var rest := Seqs.Filter(s[1..], p);
      forall y | y in rest ensures key(s[0]) >= key(y) {
        var j :| 0 <= j < |s[1..]| && s[1..][j] == y;
        assert s[j + 1] == y;
      }
    }
  }

  /** The first `k` elements of a sorted sequence: a sub-multiset whose keys dominate every dropped element. */
  lemma TakeDominates<T>(s: seq<T>, key: T -> int, k: nat)
    requires SortedDesc(s, key) && k <= |s|
    ensures SortedDesc(s[..k], key)
    ensures multiset(s[..k]) <= multiset(s)
    ensures forall x, y :: x in s[..k] && y in multiset(s) - multiset(s[..k]) ==> key(x) >= key(y)
  {
    var front, back := s[..k], s[k..];
    assert s == front + back;
    assert multiset(s) == multiset(front) + multiset(back);
    assert multiset(s) - multiset(front) == multiset(back);
    forall i, j | 0 <= i < j < |front| ensures key(front[i]) >= key(front[j]) {
      assert front[i] == s[i] && front[j] == s[j];
    }
    forall x, y | x in front && y in multiset(back) ensures key(x) >= key(y) {
      var i :| 0 <= i < k && front[i] == x;
      assert y in back;
      var j :| 0 <= j < |back| && back[j] == y;
      assert s[i] == x && s[k + j] == y;
    }
  }

  /** The elements of the sorted copy are exactly those of the input. */
  lemma SortDescMembers<T>(s: seq<T>, key: T -> int)
    ensures forall x :: x in SortDesc(s, key) <==> x in s
  {
    var r := SortDesc(s, key);
    forall x ensures x in r <==> x in s {
      assert x in r <==> x in multiset(r);
      assert x in s <==> x in multiset(s);
    }
  }
}
