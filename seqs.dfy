/**
 * Generic facts about lists, stated over type parameters so that they hold
 * for any element type: mapping a function over a list, and counting
 * elements of prefixes.
 */
module Seqs {

  /** f applied to every element, order kept (`Array.prototype.map`). */
  function Map<A, B>(f: A -> B, s: seq<A>): (r: seq<B>)
    ensures |r| == |s|
    ensures forall i :: 0 <= i < |s| ==> r[i] == f(s[i])
  {
    seq(|s|, i requires 0 <= i < |s| => f(s[i]))
  }

  lemma MapAppend<A, B>(f: A -> B, a: seq<A>, b: seq<A>)
    ensures Map(f, a + b) == Map(f, a) + Map(f, b)
  {
    var fa, fb := Map(f, a), Map(f, b);
    forall i | 0 <= i < |a| + |b| ensures Map(f, a + b)[i] == (fa + fb)[i] {
      if i < |a| {
        assert (a + b)[i] == a[i];
      } else {
        assert (a + b)[i] == b[i - |a|];
      }
    }
  }

  /** Appending in two steps is appending the joined tail. */
  lemma AppendAssoc<T>(a: seq<T>, b: seq<T>, c: seq<T>)
    ensures (a + b) + c == a + (b + c)
  {
  }

  /** The last element of x followed by a non-empty t is t's last. */
  lemma LastOfCons<T>(x: T, t: seq<T>)
    ensures |[x] + t| == |t| + 1
    ensures |t| > 0 ==> ([x] + t)[|t|] == t[|t| - 1]
  {
  }

  /** Dropping the element at k takes exactly one copy of it out of the multiset. */
  lemma RemoveOneMultiset<T>(s: seq<T>, k: int)
    requires 0 <= k < |s|
    ensures multiset(s[..k] + s[k + 1..]) == multiset(s) - multiset{s[k]}
  {
    assert s == s[..k] + [s[k]] + s[k + 1..];
  }

  /** Lists that are rearrangements of each other map to rearrangements of each other. */
  lemma {:induction false} MapMultiset<A, B>(f: A -> B, s1: seq<A>, s2: seq<A>)
    requires multiset(s1) == multiset(s2)
    ensures multiset(Map(f, s1)) == multiset(Map(f, s2))
    decreases |s1|
  {
    if |s1| > 0 {
      assert s1[0] in multiset(s2);
      var k :| 0 <= k < |s2| && s2[k] == s1[0];
      DropMatching(s1, s2, k);
      MapMultiset(f, s1[1..], s2[..k] + s2[k + 1..]);
      MapCancel(f, s1, s2, k);
    }
  }

  /** Taking the head of one list and a matching element of a rearrangement leaves rearrangements. */
  lemma DropMatching<T>(s1: seq<T>, s2: seq<T>, k: int)
    requires multiset(s1) == multiset(s2)
    requires 0 < |s1| && 0 <= k < |s2| && s2[k] == s1[0]
    ensures multiset(s1[1..]) == multiset(s2[..k] + s2[k + 1..])
  {
    RemoveOneMultiset(s2, k);
    DropHeadMultiset(s1);
  }

  lemma DropHeadMultiset<T>(s: seq<T>)
    requires 0 < |s|
    ensures multiset(s[1..]) == multiset(s) - multiset{s[0]}
  {
    assert s == [s[0]] + s[1..];
  }

  /** Putting a matching element back into rearranged images keeps them rearranged. */
  lemma MapCancel<A, B>(f: A -> B, s1: seq<A>, s2: seq<A>, k: int)
    requires 0 < |s1| && 0 <= k < |s2| && s2[k] == s1[0]
    requires multiset(Map(f, s1[1..])) == multiset(Map(f, s2[..k] + s2[k + 1..]))
    ensures multiset(Map(f, s1)) == multiset(Map(f, s2))
  {
    var y := f(s1[0]);
    var m1, m2 := multiset(Map(f, s1)), multiset(Map(f, s2));
    MapDropOne(f, s2, k);
    MapDropHead(f, s1);
    MapHasImage(f, s1, 0);
    MapHasImage(f, s2, k);
    MultisetCancel(m1, m2, y);
  }

  lemma MapDropHead<A, B>(f: A -> B, s: seq<A>)
    requires 0 < |s|
    ensures multiset(Map(f, s[1..])) == multiset(Map(f, s)) - multiset{f(s[0])}
  {
    var m := Map(f, s);
    assert Map(f, s[1..]) == m[1..];
    DropHeadMultiset(m);
  }

  lemma MapHasImage<A, B>(f: A -> B, s: seq<A>, i: int)
    requires 0 <= i < |s|
    ensures f(s[i]) in multiset(Map(f, s))
  {
    assert Map(f, s)[i] == f(s[i]);
  }

  /** Mapping a list with one element dropped drops that element's image once. */
  lemma MapDropOne<A, B>(f: A -> B, s: seq<A>, k: int)
    requires 0 <= k < |s|
    ensures multiset(Map(f, s[..k] + s[k + 1..])) == multiset(Map(f, s)) - multiset{f(s[k])}
  {
    var m := Map(f, s);
    var t := s[..k] + s[k + 1..];
    forall i | 0 <= i < |t| ensures Map(f, t)[i] == (m[..k] + m[k + 1..])[i] {
      if i < k {
        assert t[i] == s[i];
      } else {
        assert t[i] == s[i + 1];
      }
    }
    assert Map(f, t) == m[..k] + m[k + 1..];
    RemoveOneMultiset(m, k);
  }

  lemma MultisetCancel<T>(a: multiset<T>, b: multiset<T>, y: T)
    requires y in a && y in b && a - multiset{y} == b - multiset{y}
    ensures a == b
  {
    assert forall z :: a[z] == (a - multiset{y})[z] + (if z == y then 1 else 0);
    assert forall z :: b[z] == (b - multiset{y})[z] + (if z == y then 1 else 0);
  }

  /** Growing a prefix by one element adds that element to its multiset. */
  lemma PrefixStep<T>(s: seq<T>, i: int)
    requires 0 <= i < |s|
    ensures multiset(s[..i + 1]) == multiset(s[..i]) + multiset{s[i]}
  {
    assert s[..i + 1] == s[..i] + [s[i]];
  }

  /** A prefix holds no more copies of anything than the whole list. */
  lemma PrefixWithin<T>(s: seq<T>, n: int)
    requires 0 <= n <= |s|
    ensures multiset(s[..n]) <= multiset(s)
  {
    assert s == s[..n] + s[n..];
  }

  // ---------------------------------------------------------------- counting

  /** The count a tally holds for k; a key it never saw counts zero. */
  function CountIn<T>(counts: map<T, nat>, k: T): nat
  {
    if k in counts then counts[k] else 0
  }

  /** The tally holds, for every value, how often it occurs in s. */
  ghost predicate Tally<T(!new)>(counts: map<T, nat>, s: seq<T>)
  {
    forall k :: CountIn(counts, k) == multiset(s)[k]
  }

  /** Counting the next element of s extends a tally of the prefix before it. */
  lemma TallyStep<T(!new)>(counts: map<T, nat>, s: seq<T>, i: int)
    requires 0 <= i < |s| && Tally(counts, s[..i])
    ensures Tally(counts[s[i] := CountIn(counts, s[i]) + 1], s[..i + 1])
  {
    PrefixStep(s, i);
  }

  /** No value occurs n times or more in s. */
  ghost predicate AllBelow<T(!new)>(s: seq<T>, n: nat)
  {
    forall k :: multiset(s)[k] < n
  }

  /** A prefix stays below n when the element it gains stays below n. */
  lemma AllBelowStep<T(!new)>(s: seq<T>, i: int, n: nat)
    requires 0 <= i < |s| && AllBelow(s[..i], n) && multiset(s[..i + 1])[s[i]] < n
    ensures AllBelow(s[..i + 1], n)
  {
    PrefixStep(s, i);
  }

  // ---------------------------------------------------------------- subsequences

  /** `a` is `b` with some elements left out and the rest kept in their order. */
  predicate IsSubsequence<T(==)>(a: seq<T>, b: seq<T>)
    decreases |b|
  {
    a == [] || (b != [] && ((a[0] == b[0] && IsSubsequence(a[1..], b[1..])) || IsSubsequence(a, b[1..])))
  }
}
