/** Python's `sorted` on values: a stable sort under a "may stay ahead of" relation. */
module Sorting {
  import opened Collections

  ghost predicate TotalPreorder<T(!new)>(leq: (T, T) -> bool) {
    && (forall a, b :: leq(a, b) || leq(b, a))
    && (forall a, b, c :: leq(a, b) && leq(b, c) ==> leq(a, c))
  }

  predicate SortedBy<T>(s: seq<T>, leq: (T, T) -> bool) {
    forall i, j :: 0 <= i < j < |s| ==> leq(s[i], s[j])
  }

  /** `a` stands somewhere before `b`. */
  predicate Ahead<T(==)>(s: seq<T>, a: T, b: T) {
    exists i, j :: 0 <= i < j < |s| && s[i] == a && s[j] == b
  }

  function Insert<T>(x: T, s: seq<T>, leq: (T, T) -> bool): seq<T> {
    if s == [] then [x]
    else if leq(x, s[0]) then [x] + s
    else [s[0]] + Insert(x, s[1..], leq)
  }

  function SortBy<T>(s: seq<T>, leq: (T, T) -> bool): seq<T> {
    if s == [] then [] else Insert(s[0], SortBy(s[1..], leq), leq)
  }

  lemma {:induction false} InsertPermutes<T>(x: T, s: seq<T>, leq: (T, T) -> bool)
    ensures multiset(Insert(x, s, leq)) == multiset{x} + multiset(s)
  {
    if s != [] && !leq(x, s[0]) {
      InsertPermutes(x, s[1..], leq);
      assert s == [s[0]] + s[1..];
    }
  }

  lemma {:induction false} SortPermutes<T>(s: seq<T>, leq: (T, T) -> bool)
    ensures multiset(SortBy(s, leq)) == multiset(s)
    ensures |SortBy(s, leq)| == |s|
    ensures forall x :: x in SortBy(s, leq) <==> x in s
  {
    if s != [] {
      SortPermutes(s[1..], leq);
      InsertPermutes(s[0], SortBy(s[1..], leq), leq);
      assert s == [s[0]] + s[1..];
    }
    SameMembers(SortBy(s, leq), s);
  }

  lemma SameMembers<T>(a: seq<T>, b: seq<T>)
    requires multiset(a) == multiset(b)
    ensures |a| == |b|
    ensures forall x :: x in a <==> x in b
  {
    assert |a| == |multiset(a)| == |multiset(b)| == |b|;
    forall x ensures x in a <==> x in b {
      assert x in a <==> x in multiset(a);
      assert x in b <==> x in multiset(b);
    }
  }

  lemma {:induction false} InsertSorted<T(!new)>(x: T, s: seq<T>, leq: (T, T) -> bool)
    requires TotalPreorder(leq) && SortedBy(s, leq)
    ensures SortedBy(Insert(x, s, leq), leq)
  {
    if s != [] {
      if leq(x, s[0]) {
        assert forall j :: 0 <= j < |s| ==> leq(s[0], s[j]);
      } else {
        var rest := Insert(x, s[1..], leq);
        InsertSorted(x, s[1..], leq);
        InsertPermutes(x, s[1..], leq);
        SameMembers(rest, [x] + s[1..]);
        forall y | y in rest ensures leq(s[0], y) {
          assert y in [x] + s[1..];
        }
      }
    }
  }

  lemma {:induction false} SortSorts<T(!new)>(s: seq<T>, leq: (T, T) -> bool)
    requires TotalPreorder(leq)
    ensures SortedBy(SortBy(s, leq), leq)
  {
    if s != [] {
      SortSorts(s[1..], leq);
      InsertSorted(s[0], SortBy(s[1..], leq), leq);
    }
  }

  lemma {:induction false} InsertKeepsAhead<T>(x: T, s: seq<T>, leq: (T, T) -> bool, a: T, b: T)
    requires Ahead(s, a, b)
    ensures Ahead(Insert(x, s, leq), a, b)
  {
    var i, j :| 0 <= i < j < |s| && s[i] == a && s[j] == b;
    if leq(x, s[0]) {
      AheadBehind(x, s, a, b);
    } else {
      var rest := Insert(x, s[1..], leq);
      assert s[1..][j - 1] == b;
      if i == 0 {
        InsertPermutes(x, s[1..], leq);
        SameMembers(rest, [x] + s[1..]);
        assert b in [x] + s[1..];
        FirstIsAhead(a, rest, b);
      } else {
        assert s[1..][i - 1] == a;
        InsertKeepsAhead(x, s[1..], leq, a, b);
        AheadBehind(s[0], rest, a, b);
      }
    }
  }

  lemma FirstIsAhead<T>(x: T, s: seq<T>, b: T)
    requires b in s
    ensures Ahead([x] + s, x, b)
  {
    var k :| 0 <= k < |s| && s[k] == b;
    assert ([x] + s)[0] == x && ([x] + s)[k + 1] == b;
  }

  lemma AheadBehind<T>(x: T, s: seq<T>, a: T, b: T)
    requires Ahead(s, a, b)
    ensures Ahead([x] + s, a, b)
  {
    var i, j :| 0 <= i < j < |s| && s[i] == a && s[j] == b;
    assert ([x] + s)[i + 1] == a && ([x] + s)[j + 1] == b;
  }

  lemma {:induction false} InsertGoesAhead<T(!new)>(x: T, s: seq<T>, leq: (T, T) -> bool, b: T)
    requires TotalPreorder(leq) && SortedBy(s, leq) && b in s && leq(x, b)
    ensures Ahead(Insert(x, s, leq), x, b)
  {
    if leq(x, s[0]) {
      FirstIsAhead(x, s, b);
    } else {
      assert b in s[1..];
      InsertGoesAhead(x, s[1..], leq, b);
      AheadBehind(s[0], Insert(x, s[1..], leq), x, b);
    }
  }

  /** Stability: what stood ahead and may stay ahead does. */
  lemma {:induction false} SortIsStable<T(!new)>(s: seq<T>, leq: (T, T) -> bool, a: T, b: T)
    requires TotalPreorder(leq) && Ahead(s, a, b) && leq(a, b)
    ensures Ahead(SortBy(s, leq), a, b)
  {
    var rest := SortBy(s[1..], leq);
    SortSorts(s[1..], leq);
    SortPermutes(s[1..], leq);
    var i, j :| 0 <= i < j < |s| && s[i] == a && s[j] == b;
    if i == 0 {
      assert s[1..][j - 1] == b;
      InsertGoesAhead(a, rest, leq, b);
    } else {
      assert s[1..][i - 1] == a && s[1..][j - 1] == b;
      SortIsStable(s[1..], leq, a, b);
      InsertKeepsAhead(s[0], rest, leq, a, b);
    }
  }

  /** A strictly better element comes first, wherever it stood. */
  lemma BetterComesFirst<T(!new)>(s: seq<T>, leq: (T, T) -> bool, a: T, b: T)
    requires TotalPreorder(leq) && a in s && b in s && !leq(b, a)
    ensures Ahead(SortBy(s, leq), a, b)
  {
    SortSorts(s, leq);
    SortPermutes(s, leq);
    assert leq(a, a);
    BetterIsAhead(SortBy(s, leq), leq, a, b);
  }

  lemma BetterIsAhead<T>(r: seq<T>, leq: (T, T) -> bool, a: T, b: T)
    requires SortedBy(r, leq) && a in r && b in r && !leq(b, a) && leq(a, a)
    ensures Ahead(r, a, b)
  {
    var i :| 0 <= i < |r| && r[i] == a;
    var j :| 0 <= j < |r| && r[j] == b;
    assert i < j;
  }

  lemma SortTwo<T>(a: T, b: T, leq: (T, T) -> bool)
    ensures SortBy([a, b], leq) == if leq(a, b) then [a, b] else [b, a]
  {
    assert [a, b][1..] == [b] && [b][1..] == [];
    assert SortBy([b], leq) == [b];
    assert Insert(a, [], leq) == [a] && [a] + [b] == [a, b] && [b] + [a] == [b, a];
  }

  lemma DistinctFromMultiset<T>(a: seq<T>, b: seq<T>)
    requires multiset(a) == multiset(b) && Distinct(a)
    ensures Distinct(b)
  {
    forall i, j | 0 <= i < j < |b| ensures b[i] != b[j] {
      if b[i] == b[j] {
        var x := b[i];
        assert b == b[..i] + [x] + b[i + 1..j] + [x] + b[j + 1..];
        assert multiset(b)[x] >= 2;
        DistinctCountsOnce(a, x);
      }
    }
  }

  lemma {:induction false} DistinctCountsOnce<T>(a: seq<T>, x: T)
    requires Distinct(a)
    ensures multiset(a)[x] <= 1
  {
    if a != [] {
      assert a == [a[0]] + a[1..];
      DistinctCountsOnce(a[1..], x);
      if a[0] == x {
        assert x !in a[1..];
        assert x !in multiset(a[1..]);
      }
    }
  }

  lemma SortedHeadIsLeast<T>(a: seq<T>, leq: (T, T) -> bool, x: T)
    requires SortedBy(a, leq) && x in a
    ensures x == a[0] || leq(a[0], x)
  {
  }

  lemma TailMultiset<T>(a: seq<T>)
    requires a != []
    ensures multiset(a[1..]) == multiset(a) - multiset{a[0]}
  {
    assert a == [a[0]] + a[1..];
  }

  /** Under an antisymmetric order a multiset has one sorted listing. */
  lemma {:induction false} SortedListingIsUnique<T(!new)>(a: seq<T>, b: seq<T>, leq: (T, T) -> bool)
    requires forall x, y :: leq(x, y) && leq(y, x) ==> x == y
    requires SortedBy(a, leq) && SortedBy(b, leq) && multiset(a) == multiset(b)
    ensures a == b
  {
    SameMembers(a, b);
    if a != [] {
      SortedHeadIsLeast(a, leq, b[0]);
      SortedHeadIsLeast(b, leq, a[0]);
      TailMultiset(a);
      TailMultiset(b);
      SortedListingIsUnique(a[1..], b[1..], leq);
      SameWithHead(a, b);
    }
  }

  lemma SameWithHead<T>(a: seq<T>, b: seq<T>)
    requires a != [] && b != [] && a[0] == b[0] && a[1..] == b[1..]
    ensures a == b
  {
    assert a == [a[0]] + a[1..] && b == [b[0]] + b[1..];
  }

  function MapSeq<A, B>(s: seq<A>, f: A -> B): seq<B> {
    seq(|s|, i requires 0 <= i < |s| => f(s[i]))
  }

  /** Mapping a permutation gives a permutation. */
  lemma {:induction false} MapPermutation<A, B>(a: seq<A>, b: seq<A>, f: A -> B)
    requires multiset(a) == multiset(b)
    ensures multiset(MapSeq(a, f)) == multiset(MapSeq(b, f))
  {
    SameMembers(a, b);
    if a != [] {
      assert a[0] in b;
      var i :| 0 <= i < |b| && b[i] == a[0];
      var rest := b[..i] + b[i + 1..];
      TailMultiset(a);
      WithoutOne(b, i);
      MapPermutation(a[1..], rest, f);
      MapFirst(a, f);
      MapMiddle(b, i, f);
    }
  }

  lemma MapFirst<A, B>(a: seq<A>, f: A -> B)
    requires a != []
    ensures multiset(MapSeq(a, f)) == multiset{f(a[0])} + multiset(MapSeq(a[1..], f))
  {
    assert MapSeq(a, f) == [f(a[0])] + MapSeq(a[1..], f);
  }

  lemma WithoutOne<A>(b: seq<A>, i: nat)
    requires i < |b|
    ensures multiset(b[..i] + b[i + 1..]) == multiset(b) - multiset{b[i]}
  {
    assert b == b[..i] + [b[i]] + b[i + 1..];
  }

  lemma MapMiddle<A, B>(b: seq<A>, i: nat, f: A -> B)
    requires i < |b|
    ensures multiset(MapSeq(b, f)) == multiset{f(b[i])} + multiset(MapSeq(b[..i] + b[i + 1..], f))
  {
    assert MapSeq(b, f) == MapSeq(b[..i], f) + [f(b[i])] + MapSeq(b[i + 1..], f);
    assert MapSeq(b[..i] + b[i + 1..], f) == MapSeq(b[..i], f) + MapSeq(b[i + 1..], f);
  }

  /** A sequence whose images are a permutation of `b` can be listed so that its images are `b`. */
  lemma {:induction false} LineUp<A, B>(a: seq<A>, b: seq<B>, f: A -> B) returns (p: seq<A>)
    requires multiset(MapSeq(a, f)) == multiset(b)
    ensures multiset(p) == multiset(a) && MapSeq(p, f) == b
  {
    SameMembers(MapSeq(a, f), b);
    if b == [] {
      p := a;
    } else {
      assert b[0] in MapSeq(a, f);
      var i :| 0 <= i < |a| && MapSeq(a, f)[i] == b[0];
      CutBoth(a, i, b, f);
      var rest := LineUp(a[..i] + a[i + 1..], b[1..], f);
      p := [a[i]] + rest;
      PutBack(a, i, b, f, rest);
    }
  }

  lemma CutBoth<A, B>(a: seq<A>, i: nat, b: seq<B>, f: A -> B)
    requires i < |a| && b != [] && f(a[i]) == b[0] && multiset(MapSeq(a, f)) == multiset(b)
    ensures multiset(MapSeq(a[..i] + a[i + 1..], f)) == multiset(b[1..])
  {
    MapMiddle(a, i, f);
    TailMultiset(b);
  }

  lemma PutBack<A, B>(a: seq<A>, i: nat, b: seq<B>, f: A -> B, rest: seq<A>)
    requires i < |a| && b != [] && f(a[i]) == b[0]
    requires multiset(rest) == multiset(a[..i] + a[i + 1..]) && MapSeq(rest, f) == b[1..]
    ensures multiset([a[i]] + rest) == multiset(a)
    ensures MapSeq([a[i]] + rest, f) == b
  {
    WithoutOne(a, i);
    assert MapSeq([a[i]] + rest, f) == [b[0]] + b[1..];
  }
}
