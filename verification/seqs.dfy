/** Sequence helpers shared by the model: the `Array.prototype.filter`, `slice`,
    `join` and `String.prototype.includes` of the JavaScript code, and the
    insertion-ordered de-duplication that `[...new Set(xs)]` performs. */
module Seqs {

  /** `s.filter(p)`: the elements of `s` satisfying `p`, in their original order. */
  function Filter<T(==,!new)>(s: seq<T>, p: T -> bool): (r: seq<T>)
    ensures |r| <= |s|
    ensures forall x :: x in r <==> x in s && p(x)
    decreases |s|
  {
    if |s| == 0 then []
    else (if p(s[0]) then [s[0]] else []) + Filter(s[1..], p)
  }

  /** `a` is obtained from `b` by deleting elements, keeping the order of the rest. */
  predicate IsSubsequence<T(==)>(a: seq<T>, b: seq<T>)
    decreases |b|
  {
    if |a| == 0 then true
    else if |b| == 0 then false
    else if a[0] == b[0] then IsSubsequence(a[1..], b[1..])
    else IsSubsequence(a, b[1..])
  }

  /** Filtering never reorders: the result is a subsequence of the input. */
  lemma {:induction false} FilterIsSubsequence<T(!new)>(s: seq<T>, p: T -> bool)
    ensures IsSubsequence(Filter(s, p), s)
    decreases |s|
  {
    if |s| > 0 {
      FilterIsSubsequence(s[1..], p);
      var r := Filter(s, p);
      if p(s[0]) {
        assert r == [s[0]] + Filter(s[1..], p);
        assert r[1..] == Filter(s[1..], p);
      } else {
        assert r == Filter(s[1..], p);
        if |r| > 0 {
          assert r[0] in r;
          assert r[0] != s[0];
        }
      }
    }
  }

  /** A stronger filter keeps a subsequence of what a weaker filter keeps. */
  lemma {:induction false} FilterMonotone<T(!new)>(s: seq<T>, p: T -> bool, q: T -> bool)
    requires forall x :: p(x) ==> q(x)
    ensures IsSubsequence(Filter(s, p), Filter(s, q))
    decreases |s|
  {
    if |s| > 0 {
      FilterMonotone(s[1..], p, q);
      var a := Filter(s, p);
      var b := Filter(s, q);
      if p(s[0]) {
        assert a[1..] == Filter(s[1..], p);
        assert b[1..] == Filter(s[1..], q);
      } else if q(s[0]) {
        assert a == Filter(s[1..], p);
        assert b[1..] == Filter(s[1..], q);
        if |a| > 0 {
          assert a[0] in a;
          assert a[0] != s[0];
        }
      } else {
        assert a == Filter(s[1..], p);
        assert b == Filter(s[1..], q);
      }
    }
  }

  /** Filtering a sequence extended by one element extends the filtered sequence by at
      most that element. */
  lemma {:induction false} FilterSnoc<T(!new)>(s: seq<T>, x: T, p: T -> bool)
    ensures Filter(s + [x], p) == Filter(s, p) + (if p(x) then [x] else [])
    decreases |s|
  {
    if |s| == 0 {
      assert s + [x] == [x];
    } else {
      assert (s + [x])[1..] == s[1..] + [x];
      FilterSnoc(s[1..], x, p);
    }
  }

  /** A filter every element passes keeps the whole sequence. */
  lemma {:induction false} FilterKeepsAll<T(!new)>(s: seq<T>, p: T -> bool)
    requires forall i :: 0 <= i < |s| ==> p(s[i])
    ensures Filter(s, p) == s
    decreases |s|
  {
    if |s| > 0 {
      FilterKeepsAll(s[1..], p);
      assert [s[0]] + s[1..] == s;
    }
  }

  /** `s.map(f)`. */
  function Map<T, U>(s: seq<T>, f: T -> U): (r: seq<U>)
    ensures |r| == |s|
    ensures forall i :: 0 <= i < |s| ==> r[i] == f(s[i])
  {
    seq(|s|, i requires 0 <= i < |s| => f(s[i]))
  }

  /** Mapping the kept elements shows the image of every kept element. */
  lemma MapFilterComplete<T(!new), U>(s: seq<T>, p: T -> bool, f: T -> U)
    ensures forall x :: x in s && p(x) ==> f(x) in Map(Filter(s, p), f)
  {
    var kept := Filter(s, p);
    forall x | x in s && p(x)
      ensures f(x) in Map(kept, f)
    {
      var j :| 0 <= j < |kept| && kept[j] == x;
      assert Map(kept, f)[j] == f(x);
    }
  }

  /** Mapping preserves the subsequence relation. */
  lemma {:induction false} MapSubsequence<T(!new), U(!new)>(a: seq<T>, b: seq<T>, f: T -> U)
    requires IsSubsequence(a, b)
    ensures IsSubsequence(Map(a, f), Map(b, f))
    decreases |b|
  {
    if |a| > 0 && |b| > 0 {
      assert Map(a, f)[1..] == Map(a[1..], f);
      assert Map(b, f)[1..] == Map(b[1..], f);
      if a[0] == b[0] {
        MapSubsequence(a[1..], b[1..], f);
      } else {
        MapSubsequence(a, b[1..], f);
        SubsequenceCons(Map(a, f), Map(b, f));
      }
    }
  }

  /** Dropping the head of the longer sequence keeps a subsequence a subsequence of the
      whole. */
  lemma {:induction false} SubsequenceCons<T(!new)>(a: seq<T>, b: seq<T>)
    requires |b| > 0 && IsSubsequence(a, b[1..])
    ensures IsSubsequence(a, b)
    decreases |b|, 0
  {
    if |a| > 0 && a[0] == b[0] {
      if |b| > 1 {
        SubsequenceTail(a, b[1..]);
        assert IsSubsequence(a[1..], b[1..]);
      } else {
        assert false;
      }
    }
  }

  /** A subsequence stays one after its first element is removed. */
  lemma {:induction false} SubsequenceTail<T(!new)>(a: seq<T>, b: seq<T>)
    requires |a| > 0 && IsSubsequence(a, b)
    ensures IsSubsequence(a[1..], b)
    decreases |b|, 1
  {
    if |b| > 0 {
      if a[0] == b[0] {
        if |a| > 1 {
          SubsequenceCons(a[1..], b);
        }
      } else {
        SubsequenceTail(a, b[1..]);
        SubsequenceCons(a[1..], b);
      }
    }
  }

  /** Number of elements satisfying `p`: `s.filter(p).length`. */
  function Count<T(==,!new)>(s: seq<T>, p: T -> bool): nat
  {
    |Filter(s, p)|
  }

  /** `s.slice(0, n)`. */
  function Take<T>(s: seq<T>, n: nat): (r: seq<T>)
    ensures |r| == if |s| <= n then |s| else n
    ensures r == s[..|r|]
  {
    if |s| <= n then s else s[..n]
  }

  predicate NoDuplicates<T(==)>(s: seq<T>)
  {
    forall i, j :: 0 <= i < j < |s| ==> s[i] != s[j]
  }

  /** Two sequences without repetitions and without common elements join into one
      without repetitions. */
  lemma NoDuplicatesAppend<T>(a: seq<T>, b: seq<T>)
    requires NoDuplicates(a) && NoDuplicates(b)
    requires forall x :: x in a ==> x !in b
    ensures NoDuplicates(a + b)
  {
    forall i, j | 0 <= i < j < |a + b|
      ensures (a + b)[i] != (a + b)[j]
    {
      if i < |a| && |a| <= j {
        assert (a + b)[i] in a && (a + b)[j] == b[j - |a|];
      }
    }
  }

  /** Without repetitions, every element occurs once. */
  lemma {:induction false} DistinctMultiplicity<T>(s: seq<T>, x: T)
    requires NoDuplicates(s)
    ensures multiset(s)[x] == if x in s then 1 else 0
    decreases |s|
  {
    if |s| > 0 {
      assert s == [s[0]] + s[1..];
      assert NoDuplicates(s[1..]) by {
        forall i, j | 0 <= i < j < |s| - 1
          ensures s[1..][i] != s[1..][j]
        {
          assert s[1..][i] == s[i + 1] && s[1..][j] == s[j + 1];
        }
      }
      DistinctMultiplicity(s[1..], x);
      assert s[0] !in s[1..] by {
        forall k | 0 <= k < |s| - 1
          ensures s[1..][k] != s[0]
        {
          assert s[1..][k] == s[k + 1];
        }
      }
      assert multiset(s) == multiset([s[0]]) + multiset(s[1..]);
    }
  }

  /** Two sequences without repetitions and with the same elements are permutations of
      each other. */
  lemma DistinctSameElements<T>(a: seq<T>, b: seq<T>)
    requires NoDuplicates(a) && NoDuplicates(b)
    requires forall x :: x in a <==> x in b
    ensures multiset(a) == multiset(b)
  {
    forall x
      ensures multiset(a)[x] == multiset(b)[x]
    {
      DistinctMultiplicity(a, x);
      DistinctMultiplicity(b, x);
    }
  }

  /** Position of the first occurrence of `x` in `s`: `s.indexOf(x)` for a present value. */
  function FirstIndex<T(==)>(s: seq<T>, x: T): (r: nat)
    requires x in s
    ensures r < |s| && s[r] == x
    ensures forall k :: 0 <= k < r ==> s[k] != x
  {
    if s[0] == x then 0 else 1 + FirstIndex(s[1..], x)
  }

  /** An element in front that differs from `x` moves its first occurrence by one. */
  lemma FirstIndexCons<T>(a: T, s: seq<T>, x: T)
    requires x in s && a != x
    ensures x in [a] + s && FirstIndex([a] + s, x) == 1 + FirstIndex(s, x)
  {
    assert ([a] + s)[1..] == s;
  }

  /** `[...new Set(s)]`: the distinct elements of `s` in order of first occurrence.
      It is written as the left-to-right insertion a `Set` performs. */
  function Dedup<T(==,!new)>(s: seq<T>): (r: seq<T>)
    ensures forall x :: x in r <==> x in s
    ensures NoDuplicates(r)
    decreases |s|
  {
    if |s| == 0 then []
    else
      var d := Dedup(s[..|s| - 1]);
      if s[|s| - 1] in d then d else d + [s[|s| - 1]]
  }

  /** The de-duplicated elements appear in the order of their first occurrences. */
  lemma {:induction false} DedupFirstOccurrenceOrder<T(!new)>(s: seq<T>)
    ensures forall i, j :: 0 <= i < j < |Dedup(s)| ==>
              FirstIndex(s, Dedup(s)[i]) < FirstIndex(s, Dedup(s)[j])
    decreases |s|
  {
    if |s| > 0 {
      var init := s[..|s| - 1];
      var last := s[|s| - 1];
      DedupFirstOccurrenceOrder(init);
      var d := Dedup(init);
      forall x | x in init
        ensures FirstIndex(s, x) == FirstIndex(init, x)
      {
        FirstIndexOfPrefix(init, last, x);
      }
      if last !in d {
        assert last !in init;
        forall i | 0 <= i < |d|
          ensures d[i] in s && FirstIndex(s, d[i]) < FirstIndex(s, last)
        {
          assert d[i] in d;
          assert d[i] in init;
          assert FirstIndex(s, last) == |s| - 1;
        }
      }
    }
  }

  lemma FirstIndexOfPrefix<T>(init: seq<T>, last: T, x: T)
    requires x in init
    ensures FirstIndex(init + [last], x) == FirstIndex(init, x)
  {
    var s := init + [last];
    var a := FirstIndex(s, x);
    var b := FirstIndex(init, x);
    assert s[b] == x;
    assert a <= b;
    assert init[a] == x;
  }

  /** A list without repetitions is its own de-duplication. */
  lemma {:induction false} DedupOfDistinct<T(!new)>(s: seq<T>)
    requires NoDuplicates(s)
    ensures Dedup(s) == s
    decreases |s|
  {
    if |s| > 0 {
      var init := s[..|s| - 1];
      DedupOfDistinct(init);
      assert s[|s| - 1] !in init;
      assert init + [s[|s| - 1]] == s;
    }
  }

  /** Appending an element already present does not change the de-duplication. */
  lemma DedupAppendOneSeen<T(!new)>(s: seq<T>, x: T)
    requires x in s
    ensures Dedup(s + [x]) == Dedup(s)
  {
    assert (s + [x])[..|s|] == s;
  }

  /** Appending elements that were all seen already does not change the de-duplication. */
  lemma {:induction false} DedupAppendSeen<T(!new)>(a: seq<T>, b: seq<T>)
    requires forall x :: x in b ==> x in a
    ensures Dedup(a + b) == Dedup(a)
    decreases |b|
  {
    if |b| > 0 {
      var b' := b[..|b| - 1];
      var x := b[|b| - 1];
      DedupAppendSeen(a, b');
      assert x in b;
      assert a + b == (a + b') + [x];
      DedupAppendOneSeen(a + b', x);
    } else {
      assert a + b == a;
    }
  }

  /** The last element of a sequence without repetitions is not among the others. */
  lemma LastIsNew<T>(init: seq<T>, x: T)
    requires NoDuplicates(init + [x])
    ensures x !in init
  {
    assert (init + [x])[|init|] == x;
    forall k | 0 <= k < |init|
      ensures init[k] != x
    {
      assert (init + [x])[k] == init[k];
    }
  }

  /** The distinct elements of `a` followed by a run of one value new to them. */
  lemma DedupGrows<T(!new)>(a: seq<T>, run: seq<T>, init: seq<T>, x: T)
    requires Dedup(a) == init && NoDuplicates(init + [x])
    requires |run| > 0 && forall i :: 0 <= i < |run| ==> run[i] == x
    ensures Dedup(a + run) == init + [x]
  {
    LastIsNew(init, x);
    DedupAppendRun(a, run, x);
  }

  /** Appending a run of one new value adds that value once. */
  lemma {:induction false} DedupAppendRun<T(!new)>(a: seq<T>, run: seq<T>, x: T)
    requires x !in Dedup(a)
    requires |run| > 0 && forall i :: 0 <= i < |run| ==> run[i] == x
    ensures Dedup(a + run) == Dedup(a) + [x]
    decreases |run|
  {
    var run' := run[..|run| - 1];
    assert run[|run| - 1] == x;
    if |run'| == 0 {
      assert run == [x];
      assert (a + [x])[..|a|] == a;
    } else {
      DedupAppendRun(a, run', x);
      assert a + run == (a + run') + [x];
      assert (a + run')[|a|] == x;
      DedupAppendOneSeen(a + run', x);
    }
  }

  /** `s.startsWith(p)`. */
  predicate IsPrefix<T(==)>(p: seq<T>, s: seq<T>)
  {
    |p| <= |s| && s[..|p|] == p
  }

  /** `s.includes(t)` for strings: `t` occurs as a contiguous piece of `s`. */
  predicate Contains<T(==)>(s: seq<T>, t: seq<T>)
    decreases |s|
  {
    IsPrefix(t, s) || (|s| > 0 && Contains(s[1..], t))
  }

  /** `parts.join(sep)`. */
  function Join(parts: seq<string>, sep: string): string
    decreases |parts|
  {
    if |parts| == 0 then ""
    else if |parts| == 1 then parts[0]
    else parts[0] + sep + Join(parts[1..], sep)
  }

  /** `parts.join('')`. */
  function Concat(parts: seq<string>): string
    decreases |parts|
  {
    if |parts| == 0 then "" else parts[0] + Concat(parts[1..])
  }
}
