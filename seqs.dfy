/** Generic sequence operations the graph code relies on: JavaScript's
    `Array.prototype.filter` and lodash's `_.uniq`, with the facts about them
    that the rest of the model uses. */
module Seqs {

  /** `r` is obtained from `s` by deleting elements, keeping the order of the rest. */
  ghost predicate IsSubseq<T>(r: seq<T>, s: seq<T>)
    decreases |s|
  {
    if r == [] then true
    else if s == [] then false
    else (r[0] == s[0] && IsSubseq(r[1..], s[1..])) || IsSubseq(r, s[1..])
  }

  /** No element occurs twice. */
  predicate NoDup<T(==)>(s: seq<T>)
  {
    forall i, j :: 0 <= i < j < |s| ==> s[i] != s[j]
  }

  lemma {:induction false} SubseqRefl<T>(s: seq<T>)
    ensures IsSubseq(s, s)
  {
    if s != [] {
      SubseqRefl(s[1..]);
    }
  }

  /** Keeps, in order, the elements of `s` that satisfy `p`. */
  function Filter<T(==,!new)>(s: seq<T>, p: T -> bool): (r: seq<T>)
    ensures |r| <= |s|
    ensures forall x :: x in r <==> x in s && p(x)
    ensures IsSubseq(r, s)
  {
    if s == [] then []
    else if p(s[0]) then [s[0]] + Filter(s[1..], p)
    else Filter(s[1..], p)
  }

  /** Filtering keeps every copy of each passing element and no copy of the others. */
  lemma {:induction false} FilterCounts<T(!new)>(s: seq<T>, p: T -> bool)
    ensures forall x :: multiset(Filter(s, p))[x] == if p(x) then multiset(s)[x] else 0
  {
    if s != [] {
      FilterCounts(s[1..], p);
      assert s == [s[0]] + s[1..];
      assert multiset(s) == multiset([s[0]]) + multiset(s[1..]);
      if p(s[0]) {
        assert multiset(Filter(s, p)) == multiset([s[0]]) + multiset(Filter(s[1..], p));
      }
    }
  }

  lemma {:induction false} FilterAppend<T(!new)>(s: seq<T>, x: T, p: T -> bool)
    ensures Filter(s + [x], p) == Filter(s, p) + (if p(x) then [x] else [])
  {
    if s != [] {
      assert (s + [x])[1..] == s[1..] + [x];
      FilterAppend(s[1..], x, p);
    }
  }

  /** When every element passes, filtering changes nothing. */
  lemma {:induction false} FilterAllPass<T(!new)>(s: seq<T>, p: T -> bool)
    requires forall i :: 0 <= i < |s| ==> p(s[i])
    ensures Filter(s, p) == s
  {
    if s != [] {
      FilterAllPass(s[1..], p);
    }
  }

  /** Index of the first occurrence of `x` in `s`. */
  function FirstIndex<T(==)>(s: seq<T>, x: T): (i: nat)
    requires x in s
    ensures i < |s| && s[i] == x
    ensures forall j :: 0 <= j < i ==> s[j] != x
  {
    if s[0] == x then 0 else 1 + FirstIndex(s[1..], x)
  }

  /** Drops repeated elements, keeping each first occurrence (lodash `_.uniq`). */
  function Uniq<T(==,!new)>(s: seq<T>): (r: seq<T>)
    ensures NoDup(r)
    ensures forall x :: x in r <==> x in s
    ensures |r| <= |s|
  {
    if s == [] then []
    else
      var init := s[..|s| - 1];
      assert s == init + [s[|s| - 1]];
      var r := Uniq(init);
      if s[|s| - 1] in r then r else r + [s[|s| - 1]]
  }

  /** `Uniq` lists the distinct elements in the order in which they first occur in `s`. */
  lemma {:induction false} UniqFirstOccurrenceOrder<T(!new)>(s: seq<T>, i: nat, j: nat)
    requires i < j < |Uniq(s)|
    ensures FirstIndex(s, Uniq(s)[i]) < FirstIndex(s, Uniq(s)[j])
  {
    var init := s[..|s| - 1];
    var x := s[|s| - 1];
    assert s == init + [x];
    var r := Uniq(init);
    FirstIndexPrefix(init, x, Uniq(s)[i]);
    if j < |r| {
      UniqFirstOccurrenceOrder(init, i, j);
      FirstIndexPrefix(init, x, Uniq(s)[j]);
    } else {
      assert Uniq(s)[j] == x && x !in init;
      assert FirstIndex(s, x) == |s| - 1 by {
        FirstIndexLast(init, x);
      }
    }
  }

  lemma {:induction false} FirstIndexPrefix<T>(init: seq<T>, x: T, y: T)
    requires y in init
    ensures FirstIndex(init + [x], y) == FirstIndex(init, y)
  {
    if init[0] != y {
      assert (init + [x])[1..] == init[1..] + [x];
      FirstIndexPrefix(init[1..], x, y);
    }
  }

  lemma {:induction false} FirstIndexLast<T>(init: seq<T>, x: T)
    requires x !in init
    ensures FirstIndex(init + [x], x) == |init|
  {
    if init != [] {
      assert (init + [x])[1..] == init[1..] + [x];
      FirstIndexLast(init[1..], x);
    }
  }

  /** Some element of `s + [x]` satisfies `p` exactly when one of `s` does or `x` does. */
  lemma ExistsAppend<T>(s: seq<T>, x: T, p: T -> bool)
    ensures (exists y :: y in s + [x] && p(y)) <==> (exists y :: y in s && p(y)) || p(x)
  {
    if exists y :: y in s + [x] && p(y) {
      var y :| y in s + [x] && p(y);
      if y != x {
        assert y in s;
      }
    }
    if exists y :: y in s && p(y) {
      var y :| y in s && p(y);
      assert y in s + [x];
    }
    assert x in s + [x];
  }
}
