/** Order-preserving sequence operations the store and its views are built from. */
module Seqs {

  /** `a` is `b` with some elements deleted, the rest kept in their order. */
  predicate Subseq<T(==)>(a: seq<T>, b: seq<T>)
    decreases |b|
  {
    a == []
    || (b != [] && ((a[0] == b[0] && Subseq(a[1..], b[1..])) || Subseq(a, b[1..])))
  }

  /** No element occurs twice. */
  ghost predicate Distinct<T(!new)>(s: seq<T>)
  {
    forall x :: multiset(s)[x] <= 1
  }

  lemma {:induction false} SubseqMultiset<T>(a: seq<T>, b: seq<T>)
    requires Subseq(a, b)
    ensures multiset(a) <= multiset(b)
    decreases |b|
  {
    if a != [] {
      assert b == [b[0]] + b[1..];
      if a[0] == b[0] && Subseq(a[1..], b[1..]) {
        SubseqMultiset(a[1..], b[1..]);
        assert a == [a[0]] + a[1..];
      } else {
        SubseqMultiset(a, b[1..]);
      }
    }
  }

  /** Every element of a subsequence comes from the whole. */
  lemma SubseqMembers<T>(a: seq<T>, b: seq<T>)
    requires Subseq(a, b)
    ensures forall x :: x in a ==> x in b
  {
    SubseqMultiset(a, b);
    forall x | x in a ensures x in b {
      assert x in multiset(a);
    }
  }

  lemma {:induction false} SubseqRefl<T>(s: seq<T>)
    ensures Subseq(s, s)
    decreases |s|
  {
    if s != [] {
      SubseqRefl(s[1..]);
    }
  }

  /** Every prefix is a subsequence. */
  lemma {:induction false} PrefixIsSubseq<T>(s: seq<T>, k: nat)
    requires k <= |s|
    ensures Subseq(s[..k], s)
    decreases |s|
  {
    if k > 0 {
      assert s[..k][1..] == s[1..][..k - 1];
      PrefixIsSubseq(s[1..], k - 1);
    }
  }

  /** Cutting `s` at `k` before or after dropping its last element gives the same front,
      and the back differs only by that element. */
  lemma SliceInit<T>(s: seq<T>, k: nat)
    requires s != [] && k < |s|
    ensures s[..k] == s[..|s| - 1][..k]
    ensures s[k..] == s[..|s| - 1][k..] + [s[|s| - 1]]
  {
  }

  /** Putting `x` at `k` in `s` is putting it at `k` in all but the last element and then
      appending that element. */
  lemma SpliceInit<T>(s: seq<T>, x: T, k: nat)
    requires s != [] && k < |s|
    ensures s[..k] + [x] + s[k..] == s[..|s| - 1][..k] + [x] + s[..|s| - 1][k..] + [s[|s| - 1]]
  {
    SliceInit(s, k);
  }

  /** The elements of `s` that satisfy `p`, in their original order. */
  function Filter<T(!new)>(s: seq<T>, p: T -> bool): (r: seq<T>)
    ensures |r| <= |s|
    ensures forall x :: x in r <==> x in s && p(x)
    decreases |s|
  {
    if s == [] then []
    else if p(s[0]) then [s[0]] + Filter(s[1..], p)
    else Filter(s[1..], p)
  }

  /** The filter keeps each satisfying element exactly as often as `s` holds it. */
  lemma {:induction false} FilterMultiset<T(!new)>(s: seq<T>, p: T -> bool)
    ensures forall x :: multiset(Filter(s, p))[x] == if p(x) then multiset(s)[x] else 0
    decreases |s|
  {
    if s != [] {
      FilterMultiset(s[1..], p);
      assert s == [s[0]] + s[1..];
    }
  }

  /** The filter keeps the order of `s`. */
  lemma {:induction false} FilterIsSubseq<T(!new)>(s: seq<T>, p: T -> bool)
    ensures Subseq(Filter(s, p), s)
    decreases |s|
  {
    if s != [] {
      FilterIsSubseq(s[1..], p);
      if p(s[0]) {
        assert ([s[0]] + Filter(s[1..], p))[1..] == Filter(s[1..], p);
      }
    }
  }

  /** Any subsequence of `s` with exactly the multiplicities `Filter` keeps is
      `Filter(s, p)`: the filter is the one order-preserving selection. */
  lemma {:induction false} FilterUnique<T(!new)>(s: seq<T>, p: T -> bool, r: seq<T>)
    requires Subseq(r, s)
    requires forall x :: multiset(r)[x] == if p(x) then multiset(s)[x] else 0
    ensures r == Filter(s, p)
    decreases |s|
  {
    if s == [] {
      assert r == [];
    } else {
      assert s == [s[0]] + s[1..];
      var x := s[0];
      if r != [] && r[0] == x && Subseq(r[1..], s[1..]) {
        assert r == [r[0]] + r[1..];
        assert p(x) by {
          assert multiset(r)[x] > 0;
        }
        FilterUnique(s[1..], p, r[1..]);
      } else {
        // `r` skips `s[0]`, so it draws all its elements from `s[1..]`.
        assert Subseq(r, s[1..]);
        SubseqMultiset(r, s[1..]);
        FilterUnique(s[1..], p, r);
      }
    }
  }

  /** Filtering twice by the same predicate changes nothing. */
  lemma {:induction false} FilterIdempotent<T(!new)>(s: seq<T>, p: T -> bool)
    ensures Filter(Filter(s, p), p) == Filter(s, p)
    decreases |s|
  {
    if s != [] {
      FilterIdempotent(s[1..], p);
    }
  }

  /** Filters commute. */
  lemma {:induction false} FilterCommute<T(!new)>(s: seq<T>, p: T -> bool, q: T -> bool)
    ensures Filter(Filter(s, p), q) == Filter(Filter(s, q), p)
    decreases |s|
  {
    if s != [] {
      FilterCommute(s[1..], p, q);
    }
  }

  /** The index of the first occurrence of `x` in `s`. */
  function IndexOf<T(==)>(s: seq<T>, x: T): (i: nat)
    requires x in s
    ensures i < |s| && s[i] == x
    ensures forall j :: 0 <= j < i ==> s[j] != x
  {
    if s[0] == x then 0 else 1 + IndexOf(s[1..], x)
  }

  /** `List.remove(Object)`: drops the first occurrence of `x`, if any, and keeps the
      order of everything else. */
  function RemoveFirst<T(==)>(s: seq<T>, x: T): (r: seq<T>)
    ensures x !in s ==> r == s
    ensures x in s ==> r == s[..IndexOf(s, x)] + s[IndexOf(s, x) + 1..]
  {
    if s == [] then []
    else if s[0] == x then s[1..]
    else
      var rest := RemoveFirst(s[1..], x);
      assert x in s ==> [s[0]] + rest == s[..IndexOf(s, x)] + s[IndexOf(s, x) + 1..] by {
        if x in s {
          DropAfterHead(s, IndexOf(s[1..], x));
        }
      }
      [s[0]] + rest
  }

  /** Dropping index `i` of the tail and putting the head back drops index `i + 1`. */
  lemma DropAfterHead<T>(s: seq<T>, i: nat)
    requires i + 1 < |s|
    ensures [s[0]] + (s[1..][..i] + s[1..][i + 1..]) == s[..i + 1] + s[i + 2..]
  {
    assert [s[0]] + s[1..][..i] == s[..i + 1];
    assert s[1..][i + 1..] == s[i + 2..];
  }

  /** `RemoveFirst` takes away exactly one copy of `x`. */
  lemma RemoveFirstMultiset<T>(s: seq<T>, x: T)
    requires x in s
    ensures multiset(RemoveFirst(s, x)) + multiset{x} == multiset(s)
  {
    var i := IndexOf(s, x);
    assert s == s[..i] + [x] + s[i + 1..];
  }

  /** Removing an element from a sequence without duplicates removes every copy of it. */
  lemma RemoveFirstDistinct<T(!new)>(s: seq<T>, x: T)
    requires x in s && Distinct(s)
    ensures Distinct(RemoveFirst(s, x)) && x !in RemoveFirst(s, x)
  {
    var r := RemoveFirst(s, x);
    RemoveFirstMultiset(s, x);
    forall y ensures multiset(r)[y] <= 1 {
      assert multiset(r)[y] <= multiset(s)[y];
    }
    assert multiset(s)[x] == 1;
    assert x !in multiset(r);
  }

  lemma RemoveFirstIsSubseq<T>(s: seq<T>, x: T)
    ensures Subseq(RemoveFirst(s, x), s)
  {
    if x in s {
      var i := IndexOf(s, x);
      SubseqSkip(s, i);
    } else {
      SubseqRefl(s);
    }
  }

  /** Deleting the element at one index leaves a subsequence. */
  lemma {:induction false} SubseqSkip<T>(s: seq<T>, i: nat)
    requires i < |s|
    ensures Subseq(s[..i] + s[i + 1..], s)
    decreases |s|
  {
    if i == 0 {
      assert s[..0] + s[1..] == s[1..];
      SubseqRefl(s[1..]);
    } else {
      var r := s[..i] + s[i + 1..];
      assert r[0] == s[0];
      assert r[1..] == s[1..][..i - 1] + s[1..][i..];
      SubseqSkip(s[1..], i - 1);
    }
  }
}
