/** The array operations the handlers use: `filter`, `findIndex`-style lookups,
    sorting by a timestamp, and case-insensitive substring tests. */
module Seqs {
  import opened Common

  /** `s.filter(e => e !== x)`: every occurrence of `x` dropped. */
  function Without<T(==,!new)>(s: seq<T>, x: T): (r: seq<T>)
    ensures multiset(r) == multiset(s)[x := 0]
    ensures forall y :: y in r <==> y in s && y != x
    ensures |r| <= |s|
  {
    if s == [] then []
    else
      assert s == [s[0]] + s[1..];
      if s[0] == x then Without(s[1..], x) else [s[0]] + Without(s[1..], x)
  }

  /** `a` is `b` with some elements deleted, the rest in their original order. */
  predicate IsSubsequence<T(==)>(a: seq<T>, b: seq<T>)
    decreases |b|
  {
    if a == [] then true
    else if b == [] then false
    else if a[0] == b[0] then IsSubsequence(a[1..], b[1..])
    else IsSubsequence(a, b[1..])
  }

  /** Removing `x` keeps every other element in its original relative order. */
  lemma {:induction false} WithoutKeepsOrder<T(!new)>(s: seq<T>, x: T)
    ensures IsSubsequence(Without(s, x), s)
  {
    if s != [] {
      var w := Without(s[1..], x);
      WithoutKeepsOrder(s[1..], x);
      if s[0] == x {
        assert w == [] || w[0] != s[0];
      } else {
        assert ([s[0]] + w)[1..] == w;
      }
    }
  }

  /** Removing a value that does not occur changes nothing. */
  lemma {:induction false} WithoutAbsent<T(!new)>(s: seq<T>, x: T)
    requires x !in s
    ensures Without(s, x) == s
  {
    if s != [] {
      WithoutAbsent(s[1..], x);
    }
  }

  /** Removing the only value a sequence holds leaves nothing. */
  lemma {:induction false} WithoutOnly<T(!new)>(s: seq<T>, x: T)
    requires forall y :: y in s ==> y == x
    ensures Without(s, x) == []
  {
    if s != [] {
      assert s[0] in s;
      forall y | y in s[1..]
        ensures y == x
      {
        assert y in s;
      }
      WithoutOnly(s[1..], x);
    }
  }

  /** The head of `Without(s, x)` is the first element of `s` that is not `x`. */
  lemma {:induction false} WithoutHead<T(!new)>(s: seq<T>, x: T, k: nat)
    requires k < |s| && s[k] != x
    requires forall i :: 0 <= i < k ==> s[i] == x
    ensures Without(s, x) != [] && Without(s, x)[0] == s[k]
  {
    if k > 0 {
      WithoutHead(s[1..], x, k - 1);
    }
  }

  /** `s.filter(p)`: the elements satisfying `p`, as many times as they occur. */
  function Filter<T(==,!new)>(s: seq<T>, p: T -> bool): (r: seq<T>)
    ensures forall i :: 0 <= i < |r| ==> p(r[i])
    ensures forall x :: multiset(r)[x] == if p(x) then multiset(s)[x] else 0
  {
    if s == [] then []
    else
      assert s == [s[0]] + s[1..];
      if p(s[0]) then [s[0]] + Filter(s[1..], p) else Filter(s[1..], p)
  }

  /** An element survives the filter exactly when it was there and satisfies `p`. */
  lemma FilterMembers<T(!new)>(s: seq<T>, p: T -> bool)
    ensures forall x :: x in Filter(s, p) <==> x in s && p(x)
  {
    var r := Filter(s, p);
    assert forall x :: x in r <==> x in multiset(r);
    assert forall x :: x in s <==> x in multiset(s);
  }

  /** The index of the first element satisfying `p` (what `findOne`, `findById` and
      Mongo's positional `$` operator select), or None. */
  function FirstIndex<T>(s: seq<T>, p: T -> bool): (r: Option<nat>)
    ensures r.None? <==> forall i :: 0 <= i < |s| ==> !p(s[i])
    ensures r.Some? ==> r.value < |s| && p(s[r.value])
    ensures r.Some? ==> forall i :: 0 <= i < r.value ==> !p(s[i])
  {
    if s == [] then None
    else if p(s[0]) then Some(0)
    else match FirstIndex(s[1..], p)
      case None => None
      case Some(i) => Some(i + 1)
  }

  /** Non-decreasing by `key`: what `.sort({ createdAt: 1 })` guarantees. */
  predicate SortedBy<T>(s: seq<T>, key: T -> int)
  {
    forall i, j :: 0 <= i < j < |s| ==> key(s[i]) <= key(s[j])
  }

  function InsertBy<T(==)>(x: T, s: seq<T>, key: T -> int): (r: seq<T>)
    requires SortedBy(s, key)
    ensures SortedBy(r, key)
    ensures multiset(r) == multiset(s) + multiset{x}
    ensures |r| == |s| + 1
  {
    if s == [] || key(x) <= key(s[0]) then
      SortedCons(x, s, key);
      [x] + s
    else
      var rest := InsertBy(x, s[1..], key);
      InsertedBehindHead(x, s, rest, key);
      [s[0]] + rest
  }

  /** The recursive step of `InsertBy`: `x` sorts after the head, so the head goes first. */
  lemma InsertedBehindHead<T>(x: T, s: seq<T>, rest: seq<T>, key: T -> int)
    requires SortedBy(s, key) && s != [] && key(s[0]) < key(x)
    requires SortedBy(rest, key) && multiset(rest) == multiset(s[1..]) + multiset{x}
    ensures SortedBy([s[0]] + rest, key)
    ensures multiset([s[0]] + rest) == multiset(s) + multiset{x}
  {
    assert s == [s[0]] + s[1..];
    forall y | y in rest ensures key(s[0]) <= key(y) {
      assert y in multiset(rest);
      if y != x {
        assert y in multiset(s[1..]);
        var k :| 0 <= k < |s[1..]| && s[1..][k] == y;
        assert s[k + 1] == y;
      }
    }
    SortedCons(s[0], rest, key);
  }

  /** A head no greater than anything after it keeps a sorted sequence sorted. */
  lemma SortedCons<T>(y: T, rest: seq<T>, key: T -> int)
    requires SortedBy(rest, key)
    requires forall z :: z in rest ==> key(y) <= key(z)
    ensures SortedBy([y] + rest, key)
  {
    var r := [y] + rest;
    forall i, j | 0 <= i < j < |r| ensures key(r[i]) <= key(r[j]) {
      assert r[j] == rest[j - 1];
      if i > 0 {
        assert r[i] == rest[i - 1];
      }
    }
  }

  /** The elements of `s` ordered by `key`; the order among equal keys is not promised. */
  function SortBy<T(==)>(s: seq<T>, key: T -> int): (r: seq<T>)
    ensures SortedBy(r, key)
    ensures multiset(r) == multiset(s)
  {
    if s == [] then []
    else
      assert s == [s[0]] + s[1..];
      InsertBy(s[0], SortBy(s[1..], key), key)
  }

  /** ASCII upper case to lower case; every other character unchanged. */
  function Lower(c: char): char
  {
    if 'A' <= c <= 'Z' then (c as int + 32) as char else c
  }

  function LowerAll(s: string): (r: string)
    ensures |r| == |s| && forall i :: 0 <= i < |s| ==> r[i] == Lower(s[i])
  {
    seq(|s|, i requires 0 <= i < |s| => Lower(s[i]))
  }

  /** `needle` occurs in `hay` as a contiguous block. */
  predicate Contains(hay: string, needle: string)
    decreases |hay|
  {
    needle <= hay || (hay != [] && Contains(hay[1..], needle))
  }

  /** A literal case-insensitive substring match: `{ $regex: needle, $options: 'i' }` without
      metacharacters. */
  predicate ContainsIgnoringCase(hay: string, needle: string)
  {
    Contains(LowerAll(hay), LowerAll(needle))
  }

  /** `needle` occurs in `hay` starting at index `i`. */
  predicate OccursAt(hay: string, needle: string, i: nat)
  {
    i + |needle| <= |hay| && hay[i..i + |needle|] == needle
  }

  /** `Contains` means what it says: some window of `hay` equals `needle`. */
  lemma {:induction false} ContainsIsWindow(hay: string, needle: string)
    ensures Contains(hay, needle) <==> exists i: nat :: OccursAt(hay, needle, i)
  {
    if Contains(hay, needle) {
      if needle <= hay {
        assert OccursAt(hay, needle, 0);
      } else {
        ContainsIsWindow(hay[1..], needle);
        var i: nat :| OccursAt(hay[1..], needle, i);
        TailWindow(hay, i, |needle|);
        assert OccursAt(hay, needle, i + 1);
      }
    }
    if exists i: nat :: OccursAt(hay, needle, i) {
      var i: nat :| OccursAt(hay, needle, i);
      if i == 0 {
        assert needle <= hay;
      } else {
        TailWindow(hay, i - 1, |needle|);
        assert OccursAt(hay[1..], needle, i - 1);
        ContainsIsWindow(hay[1..], needle);
      }
    }
  }

  /** A window of the tail is the window one place further along. */
  lemma TailWindow(hay: string, i: nat, n: nat)
    requires i + 1 + n <= |hay|
    ensures hay[1..][i..i + n] == hay[i + 1..i + 1 + n]
  {
    var a, b := hay[1..][i..i + n], hay[i + 1..i + 1 + n];
    assert |a| == n == |b|;
    forall k | 0 <= k < n ensures a[k] == b[k] {
      assert a[k] == hay[1..][i + k] == hay[i + 1 + k];
    }
  }

  /** Every character of a needle that occurs in `hay` occurs in `hay`. */
  lemma {:induction false} ContainsKeepsChars(hay: string, needle: string, c: char)
    requires Contains(hay, needle) && c in needle
    ensures c in hay
  {
    if needle <= hay {
      var i :| 0 <= i < |needle| && needle[i] == c;
      assert hay[i] == c;
    } else {
      ContainsKeepsChars(hay[1..], needle, c);
    }
  }

  /** The empty keyword matches every text. */
  lemma EmptyKeywordMatches(hay: string)
    ensures ContainsIgnoringCase(hay, "")
  {
  }
}
