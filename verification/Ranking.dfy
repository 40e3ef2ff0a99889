/** Hybrid recall (codna/memory.py) and its rerank pipeline (codna/memory_rerank.py). */
module Ranking {
  import opened Collections
  import opened Sorting
  import opened Wrappers

  type Id = string

  datatype Candidate = Candidate(id: Id, score: real)

  const K_RRF := 60

  // ----- reciprocal-rank fusion -----

  /** What one hit at this rank of a lane is worth. */
  function RankShare(rank: nat): real {
    1.0 / (K_RRF + rank + 1) as real
  }

  /** What a lane gives an id: one share for each of its occurrences. */
  function LaneScore(lane: seq<Id>, id: Id): real {
    if lane == [] then 0.0 else
      var n := |lane| - 1;
      LaneScore(lane[..n], id) + if lane[n] == id then RankShare(n) else 0.0
  }

  function FusedScore(dense: seq<Id>, lexical: seq<Id>, id: Id): real {
    LaneScore(dense, id) + LaneScore(lexical, id)
  }

  /** Dictionary order: the distinct ids by first occurrence. */
  function FirstSeen(ids: seq<Id>): seq<Id> {
    if ids == [] then [] else
      var before := FirstSeen(ids[..|ids| - 1]);
      if ids[|ids| - 1] in before then before else before + [ids[|ids| - 1]]
  }

  function ByFusedScore(dense: seq<Id>, lexical: seq<Id>): (Id, Id) -> bool {
    (a, b) => FusedScore(dense, lexical, a) >= FusedScore(dense, lexical, b)
  }

  function FusedOrder(dense: seq<Id>, lexical: seq<Id>): seq<Id> {
    SortBy(FirstSeen(dense + lexical), ByFusedScore(dense, lexical))
  }

  lemma {:induction false} FirstSeenLists(ids: seq<Id>)
    ensures Distinct(FirstSeen(ids))
    ensures forall id :: id in FirstSeen(ids) <==> id in ids
  {
    if ids != [] {
      FirstSeenLists(ids[..|ids| - 1]);
      assert forall id :: id in ids <==> id == ids[|ids| - 1] || id in ids[..|ids| - 1];
    }
  }

  lemma {:induction false} LaneScoreAbsent(lane: seq<Id>, id: Id)
    ensures id !in lane ==> LaneScore(lane, id) == 0.0
    ensures LaneScore(lane, id) >= 0.0
  {
    if lane != [] {
      LaneScoreAbsent(lane[..|lane| - 1], id);
    }
  }

  lemma {:induction false} LaneScoreAt(lane: seq<Id>, i: nat)
    requires Distinct(lane) && i < |lane|
    ensures LaneScore(lane, lane[i]) == RankShare(i)
  {
    var n := |lane| - 1;
    if i == n {
      LaneScoreAbsent(lane[..n], lane[n]);
    } else {
      assert lane[..n][i] == lane[i];
      LaneScoreAt(lane[..n], i);
    }
  }

  lemma ReciprocalDecreases(x: real, y: real)
    requires 0.0 < x < y
    ensures 1.0 / x > 1.0 / y > 0.0
  {
    var a, b := 1.0 / x, 1.0 / y;
    assert a * x == 1.0 && b * y == 1.0;
    assert b > 0.0;
    assert b * (y - x) > 0.0;
    assert (a - b) * x == b * (y - x);
  }

  lemma RankShareDecreases(i: nat, j: nat)
    requires i < j
    ensures RankShare(i) > RankShare(j) > 0.0
  {
    ReciprocalDecreases((K_RRF + i + 1) as real, (K_RRF + j + 1) as real);
  }

  lemma LanePrefersAhead(lane: seq<Id>, a: Id, b: Id)
    requires Distinct(lane) && (b in lane ==> Ahead(lane, a, b))
    ensures LaneScore(lane, a) >= LaneScore(lane, b)
    ensures b in lane ==> LaneScore(lane, a) > LaneScore(lane, b)
  {
    LaneScoreAbsent(lane, a);
    LaneScoreAbsent(lane, b);
    if b in lane {
      var i, j :| 0 <= i < j < |lane| && lane[i] == a && lane[j] == b;
      LaneScoreAt(lane, i);
      LaneScoreAt(lane, j);
      RankShareDecreases(i, j);
    }
  }

  /** The fused order lists each id of either lane exactly once. */
  lemma FusionListsEachOnce(dense: seq<Id>, lexical: seq<Id>)
    ensures Distinct(FusedOrder(dense, lexical))
    ensures forall id :: id in FusedOrder(dense, lexical) <==> id in dense || id in lexical
  {
    FirstSeenLists(dense + lexical);
    SortPermutes(FirstSeen(dense + lexical), ByFusedScore(dense, lexical));
    DistinctFromMultiset(FirstSeen(dense + lexical), FusedOrder(dense, lexical));
  }

  /** A unit ranked ahead of another in every lane that holds the latter precedes it. */
  lemma FusionRespectsUnanimity(dense: seq<Id>, lexical: seq<Id>, a: Id, b: Id)
    requires Distinct(dense) && Distinct(lexical) && (b in dense || b in lexical)
    requires b in dense ==> Ahead(dense, a, b)
    requires b in lexical ==> Ahead(lexical, a, b)
    ensures Ahead(FusedOrder(dense, lexical), a, b)
  {
    LanePrefersAhead(dense, a, b);
    LanePrefersAhead(lexical, a, b);
    FirstSeenLists(dense + lexical);
    BetterComesFirst(FirstSeen(dense + lexical), ByFusedScore(dense, lexical), a, b);
  }

  /** Two lanes beat one, down to rank 62 (counted from one): an id among the first 62 of both lanes, and
      not 62nd in both, precedes everything that only one lane holds, wherever it stands there. */
  lemma BothLanesBeatOne(dense: seq<Id>, lexical: seq<Id>, i: nat, j: nat, b: Id)
    requires Distinct(dense) && Distinct(lexical) && i < |dense| && j < |lexical| && dense[i] == lexical[j]
    requires i <= 61 && j <= 61 && i + j < 122
    requires (b in dense) != (b in lexical)
    ensures Ahead(FusedOrder(dense, lexical), dense[i], b)
  {
    var a := dense[i];
    LaneScoreAt(dense, i);
    LaneScoreAt(lexical, j);
    LaneScoreAbsent(dense, b);
    LaneScoreAbsent(lexical, b);
    var lane := if b in dense then dense else lexical;
    var r :| 0 <= r < |lane| && lane[r] == b;
    LaneScoreAt(lane, r);
    ShareAtMostFirst(r);
    ShareAtLeastHalf(i);
    ShareAtLeastHalf(j);
    FirstSeenLists(dense + lexical);
    BetterComesFirst(FirstSeen(dense + lexical), ByFusedScore(dense, lexical), a, b);
  }

  lemma ShareAtMostFirst(r: nat)
    ensures RankShare(r) <= 1.0 / 61.0
  {
    if r > 0 {
      RankShareDecreases(0, r);
    }
  }

  lemma ShareAtLeastHalf(i: nat)
    requires i <= 61
    ensures RankShare(i) >= 1.0 / 122.0 && (i < 61 ==> RankShare(i) > 1.0 / 122.0)
  {
    if i < 61 {
      RankShareDecreases(i, 61);
    }
  }

  /** Between two ids of equal rank, one in each lane, the dense lane wins. */
  lemma DenseWinsTies(dense: seq<Id>, lexical: seq<Id>, i: nat)
    requires Distinct(dense) && Distinct(lexical) && i < |dense| && i < |lexical|
    requires dense[i] !in lexical && lexical[i] !in dense
    ensures Ahead(FusedOrder(dense, lexical), dense[i], lexical[i])
  {
    var a, b := dense[i], lexical[i];
    LaneScoreAt(dense, i);
    LaneScoreAt(lexical, i);
    LaneScoreAbsent(lexical, a);
    LaneScoreAbsent(dense, b);
    FirstSeenKeepsOrder(dense, lexical, a, b);
    SortIsStable(FirstSeen(dense + lexical), ByFusedScore(dense, lexical), a, b);
  }

  lemma {:induction false} FirstSeenKeepsOrder(dense: seq<Id>, lexical: seq<Id>, a: Id, b: Id)
    requires a in dense && b !in dense && b in lexical
    ensures Ahead(FirstSeen(dense + lexical), a, b)
  {
    var all := dense + lexical;
    var n := |lexical| - 1;
    assert all[..|all| - 1] == dense + lexical[..n];
    FirstSeenLists(all[..|all| - 1]);
    var before := FirstSeen(all[..|all| - 1]);
    if b in lexical[..n] {
      FirstSeenKeepsOrder(dense, lexical[..n], a, b);
      var p, q :| 0 <= p < q < |before| && before[p] == a && before[q] == b;
      assert FirstSeen(all)[p] == a && FirstSeen(all)[q] == b;
    } else {
      assert lexical[n] == b && b !in all[..|all| - 1];
      assert a in all[..|all| - 1];
      var p :| 0 <= p < |before| && before[p] == a;
      assert FirstSeen(all)[p] == a && FirstSeen(all)[|before|] == b;
    }
  }

  function Get(fused: map<Id, real>, id: Id): real {
    if id in fused then fused[id] else 0.0
  }

  lemma NextHit(seen: seq<Id>, lane: seq<Id>, rank: nat)
    requires rank < |lane|
    ensures var before := FirstSeen(seen + lane[..rank]);
            FirstSeen(seen + lane[..rank + 1]) == if lane[rank] in before then before else before + [lane[rank]]
  {
    assert (seen + lane[..rank + 1])[..|seen + lane[..rank + 1]| - 1] == seen + lane[..rank];
  }

  /** The dictionary has gained exactly what a lane gives each id. */
  ghost predicate Credited(before: map<Id, real>, after: map<Id, real>, lane: seq<Id>) {
    forall id :: Get(after, id) == Get(before, id) + LaneScore(lane, id)
  }

  lemma CreditNext(before: map<Id, real>, after: map<Id, real>, lane: seq<Id>, rank: nat)
    requires rank < |lane| && Credited(before, after, lane[..rank])
    ensures Credited(before, after[lane[rank] := Get(after, lane[rank]) + RankShare(rank)], lane[..rank + 1])
  {
    assert lane[..rank + 1][..rank] == lane[..rank];
  }

  /** One fusion loop: add a lane's shares to the dictionary, whose insertion order is `keys`. */
  method Accumulate(ghost seen: seq<Id>, lane: seq<Id>, fused0: map<Id, real>, keys0: seq<Id>)
    returns (fused: map<Id, real>, keys: seq<Id>)
    requires keys0 == FirstSeen(seen) && (forall id :: id in fused0 <==> id in keys0)
    ensures keys == FirstSeen(seen + lane) && (forall id :: id in fused <==> id in keys)
    ensures Credited(fused0, fused, lane)
  {
    fused, keys := fused0, keys0;
    assert seen + lane[..0] == seen;
    for rank := 0 to |lane|
      invariant keys == FirstSeen(seen + lane[..rank]) && (forall id :: id in fused <==> id in keys)
      invariant Credited(fused0, fused, lane[..rank])
    {
      var id := lane[rank];
      NextHit(seen, lane, rank);
      CreditNext(fused0, fused, lane, rank);
      if id !in fused {
        keys := keys + [id];
      }
      fused := fused[id := Get(fused, id) + RankShare(rank)];
    }
    assert lane[..|lane|] == lane;
  }

  /** The hybrid branch of `recall`: accumulate both lanes, then sort the keys by fused score. */
  method Fuse(dense: seq<Id>, lexical: seq<Id>) returns (order: seq<Id>)
    ensures order == FusedOrder(dense, lexical)
  {
    var fused, keys := Accumulate([], dense, map[], []);
    assert [] + dense == dense;
    fused, keys := Accumulate(dense, lexical, fused, keys);
    var leq := (a, b) => Get(fused, a) >= Get(fused, b);
    order := SortBy(keys, leq);
    SortAgrees(keys, leq, ByFusedScore(dense, lexical));
  }

  /** Sorting only compares elements of the list. */
  lemma {:induction false} SortAgrees<T(!new)>(s: seq<T>, f: (T, T) -> bool, g: (T, T) -> bool)
    requires forall a, b :: a in s && b in s ==> f(a, b) == g(a, b)
    ensures SortBy(s, f) == SortBy(s, g)
  {
    if s != [] {
      SortAgrees(s[1..], f, g);
      SortPermutes(s[1..], f);
      InsertAgrees(s[0], SortBy(s[1..], f), f, g);
    }
  }

  lemma {:induction false} InsertAgrees<T(!new)>(x: T, s: seq<T>, f: (T, T) -> bool, g: (T, T) -> bool)
    requires forall b :: b in s ==> f(x, b) == g(x, b)
    ensures Insert(x, s, f) == Insert(x, s, g)
  {
    if s != [] {
      InsertAgrees(x, s[1..], f, g);
    }
  }

  // ----- the pool handed to the reranker -----

  function Pool(order: seq<Id>, score: Id -> real, matches: Id -> bool): seq<Candidate> {
    if order == [] then []
    else (if matches(order[0]) then [Candidate(order[0], score(order[0]))] else []) + Pool(order[1..], score, matches)
  }

  function IdsOf(cands: seq<Candidate>): seq<Id> {
    seq(|cands|, i requires 0 <= i < |cands| => cands[i].id)
  }

  lemma {:induction false} PoolFilters(order: seq<Id>, score: Id -> real, matches: Id -> bool)
    requires Distinct(order)
    ensures Distinct(IdsOf(Pool(order, score, matches)))
    ensures forall id :: id in IdsOf(Pool(order, score, matches)) <==> id in order && matches(id)
    ensures forall c :: c in Pool(order, score, matches) ==> c.score == score(c.id)
  {
    if order != [] {
      PoolFilters(order[1..], score, matches);
      var rest := Pool(order[1..], score, matches);
      assert order[0] !in order[1..];
      if matches(order[0]) {
        assert IdsOf(Pool(order, score, matches)) == [order[0]] + IdsOf(rest);
      } else {
        assert Pool(order, score, matches) == rest;
      }
    }
  }

  // ----- the soft test penalty -----

  function Adjusted(c: Candidate, factor: real, isTest: Id -> bool): real {
    if isTest(c.id) then Penalised(c.score, factor) else c.score
  }

  function Penalised(score: real, factor: real): real {
    score * factor
  }

  function Downweight(cands: seq<Candidate>, factor: real, testOriented: bool, isTest: Id -> bool): seq<Candidate> {
    if factor == 1.0 || testOriented then cands
    else SortBy(cands, (a, b) => Adjusted(a, factor, isTest) >= Adjusted(b, factor, isTest))
  }

  /** The penalty only reorders: same candidates with the same scores, best adjusted score first, and
      the incoming order decides between equals alone. */
  lemma DownweightReorders(cands: seq<Candidate>, factor: real, testOriented: bool, isTest: Id -> bool)
    ensures var r := Downweight(cands, factor, testOriented, isTest);
            multiset(r) == multiset(cands) && |r| == |cands|
    ensures factor != 1.0 && !testOriented ==>
              SortedBy(Downweight(cands, factor, testOriented, isTest),
                       (a: Candidate, b: Candidate) => Adjusted(a, factor, isTest) >= Adjusted(b, factor, isTest))
    ensures forall a, b :: Ahead(cands, a, b) && Adjusted(a, factor, isTest) >= Adjusted(b, factor, isTest) ==>
              Ahead(Downweight(cands, factor, testOriented, isTest), a, b)
  {
    var leq := (a: Candidate, b: Candidate) => Adjusted(a, factor, isTest) >= Adjusted(b, factor, isTest);
    if factor != 1.0 && !testOriented {
      SortAgrees(cands, leq, (a, b) => Adjusted(a, factor, isTest) >= Adjusted(b, factor, isTest));
      SortPermutes(cands, leq);
      SortSorts(cands, leq);
      forall a, b | Ahead(cands, a, b) && Adjusted(a, factor, isTest) >= Adjusted(b, factor, isTest)
        ensures Ahead(SortBy(cands, leq), a, b)
      {
        SortIsStable(cands, leq, a, b);
      }
    }
  }

  /** Only tests are put back: with a penalty between nought and one and no negative scores, a source with at
      least a test's score stays ahead of it wherever it was ahead, a strictly better one gets ahead, and two
      of a kind are told apart by their scores alone. */
  lemma TestsOnlyFall(cands: seq<Candidate>, factor: real, isTest: Id -> bool, a: Candidate, b: Candidate)
    requires 0.0 <= factor < 1.0 && a in cands && b in cands && b.score >= 0.0
    requires a.score > b.score || (a.score == b.score && Ahead(cands, a, b))
    requires isTest(a.id) ==> isTest(b.id)
    requires isTest(a.id) && factor == 0.0 ==> Ahead(cands, a, b)
    ensures Ahead(Downweight(cands, factor, false, isTest), a, b)
  {
    AdjustedOrder(a, b, factor, isTest);
    if Adjusted(a, factor, isTest) > Adjusted(b, factor, isTest) {
      BetterAdjustedFirst(cands, factor, isTest, a, b);
    } else {
      DownweightReorders(cands, factor, false, isTest);
    }
  }

  lemma AdjustedOrder(a: Candidate, b: Candidate, factor: real, isTest: Id -> bool)
    requires 0.0 <= factor < 1.0 && a.score >= b.score >= 0.0 && (isTest(a.id) ==> isTest(b.id))
    ensures Adjusted(a, factor, isTest) >= Adjusted(b, factor, isTest)
    ensures a.score > b.score && (isTest(a.id) ==> factor > 0.0) ==>
              Adjusted(a, factor, isTest) > Adjusted(b, factor, isTest)
  {
    AdjustedAtMost(b, factor, isTest);
    if isTest(a.id) {
      BothAdjusted(a, b, factor, isTest);
    }
  }

  lemma AdjustedAtMost(b: Candidate, factor: real, isTest: Id -> bool)
    requires 0.0 <= factor < 1.0 && b.score >= 0.0
    ensures Adjusted(b, factor, isTest) <= b.score
  {
    PenaltyShrinks(b.score, factor);
  }

  lemma BothAdjusted(a: Candidate, b: Candidate, factor: real, isTest: Id -> bool)
    requires factor >= 0.0 && a.score >= b.score && isTest(a.id) && isTest(b.id)
    ensures Adjusted(a, factor, isTest) >= Adjusted(b, factor, isTest)
    ensures a.score > b.score && factor > 0.0 ==> Adjusted(a, factor, isTest) > Adjusted(b, factor, isTest)
  {
    PenaltyKeepsOrder(a.score, b.score, factor);
  }

  lemma BetterAdjustedFirst(cands: seq<Candidate>, factor: real, isTest: Id -> bool, a: Candidate, b: Candidate)
    requires factor != 1.0 && a in cands && b in cands
    requires Adjusted(a, factor, isTest) > Adjusted(b, factor, isTest)
    ensures Ahead(Downweight(cands, factor, false, isTest), a, b)
  {
    var leq := (c: Candidate, d: Candidate) => Adjusted(c, factor, isTest) >= Adjusted(d, factor, isTest);
    SortAgrees(cands, leq, (c, d) => Adjusted(c, factor, isTest) >= Adjusted(d, factor, isTest));
    BetterComesFirst(cands, leq, a, b);
  }

  lemma ProductOfPositives(x: real, y: real)
    requires x >= 0.0 && y >= 0.0
    ensures x * y >= 0.0
    ensures x > 0.0 && y > 0.0 ==> x * y > 0.0
  {
  }

  lemma PenaltyShrinks(score: real, factor: real)
    requires 0.0 <= factor < 1.0 && score >= 0.0
    ensures 0.0 <= Penalised(score, factor) <= score
  {
    var rest := 1.0 - factor;
    ProductOfPositives(score, factor);
    ProductOfPositives(score, rest);
    assert score * factor + score * rest == score * (factor + rest);
  }

  lemma PenaltyKeepsOrder(x: real, y: real, factor: real)
    requires x >= y && factor >= 0.0
    ensures Penalised(x, factor) >= Penalised(y, factor)
    ensures x > y && factor > 0.0 ==> Penalised(x, factor) > Penalised(y, factor)
  {
    var d := x - y;
    ProductOfPositives(d, factor);
    var p, q, r := x * factor, y * factor, d * factor;
    assert p == q + r;
    assert x > y ==> d > 0.0;
    assert Penalised(x, factor) == p && Penalised(y, factor) == q;
  }

  /** A test falls behind a source it led by less than the penalty. */
  lemma PenaltyReordersIff(factor: real, isTest: Id -> bool, test: Candidate, source: Candidate)
    requires factor != 1.0 && isTest(test.id) && !isTest(source.id) && test.score > source.score
    ensures Downweight([test, source], factor, false, isTest) ==
            if test.score * factor >= source.score then [test, source] else [source, test]
  {
    var leq := (c: Candidate, d: Candidate) => Adjusted(c, factor, isTest) >= Adjusted(d, factor, isTest);
    SortAgrees([test, source], leq, (c, d) => Adjusted(c, factor, isTest) >= Adjusted(d, factor, isTest));
    SortTwo(test, source, leq);
  }

  // ----- the semantic rerank of the head -----

  /** Python's `s[:k]` and `s[k:]` cut at the same place, also for a negative or oversized `k`. */
  function Cut(length: nat, k: int): (c: nat)
    ensures c <= length
    ensures 0 <= k <= length ==> c == k
  {
    if k < 0 then (if length + k < 0 then 0 else length + k)
    else if k > length then length else k
  }

  /** `order` is some sorting of the head by descending score: argsort promises no stability. */
  ghost predicate IsArgsort(order: seq<nat>, scores: seq<real>) {
    && |order| == |scores|
    && (forall i :: 0 <= i < |order| ==> order[i] < |scores|)
    && Distinct(order)
    && (forall i, j :: 0 <= i < j < |order| ==> scores[order[i]] >= scores[order[j]])
  }

  function RerankHead(cands: seq<Candidate>, k: int, order: seq<nat>, scores: seq<real>): seq<Candidate>
    requires |order| == |scores| == Cut(|cands|, k)
    requires forall i :: 0 <= i < |order| ==> order[i] < |scores|
  {
    seq(|order|, i requires 0 <= i < |order| => Candidate(cands[order[i]].id, scores[order[i]]))
      + cands[Cut(|cands|, k)..]
  }

  /** A list of distinct indices without its largest. */
  lemma OrderWithout(order: seq<nat>, k: nat, m: nat)
    requires k < |order| && Distinct(order) && order[k] == m
    requires forall i :: 0 <= i < |order| ==> order[i] <= m
    ensures var rest := order[..k] + order[k + 1..];
            && |rest| == |order| - 1 && Distinct(rest)
            && (forall i :: 0 <= i < |rest| ==> rest[i] < m)
    ensures forall i :: 0 <= i < |order| && i != k ==> order[i] < m
  {
    var rest := order[..k] + order[k + 1..];
    forall i | 0 <= i < |rest| ensures rest[i] == order[Skip(k, i)] && rest[i] < m {
      assert Skip(k, i) != k;
    }
    forall i, j | 0 <= i < j < |rest| ensures rest[i] != rest[j] {
      assert order[Skip(k, i)] != order[Skip(k, j)];
    }
  }

  function Skip(k: nat, i: nat): nat {
    if i < k then i else i + 1
  }

  lemma {:induction false} Pigeonhole(order: seq<nat>, n: nat)
    requires Distinct(order) && (forall i :: 0 <= i < |order| ==> order[i] < n)
    ensures |order| <= n
  {
    assert order != [] ==> order[0] < n;
    if n > 0 {
      if (n - 1) in order {
        var k :| 0 <= k < |order| && order[k] == n - 1;
        OrderWithout(order, k, n - 1);
        Pigeonhole(order[..k] + order[k + 1..], n - 1);
      } else {
        Pigeonhole(order, n - 1);
      }
    }
  }

  lemma DistinctIndicesCover(order: seq<nat>, j: nat)
    requires Distinct(order) && (forall i :: 0 <= i < |order| ==> order[i] < |order|) && j < |order|
    ensures j in order
  {
    if j !in order {
      Pigeonhole(order + [j], |order|);
    }
  }

  function Pick<T>(ids: seq<T>, order: seq<nat>): seq<T>
    requires forall i :: 0 <= i < |order| ==> order[i] < |ids|
  {
    seq(|order|, i requires 0 <= i < |order| => ids[order[i]])
  }

  /** Choosing by a permutation of the indices permutes the list. */
  lemma {:induction false} PickedMultiset<T>(ids: seq<T>, order: seq<nat>)
    requires |order| == |ids| && Distinct(order) && (forall i :: 0 <= i < |order| ==> order[i] < |ids|)
    ensures multiset(Pick(ids, order)) == multiset(ids)
  {
    var n := |ids|;
    if n > 0 {
      var k := LargestAt(order);
      PickedMultiset(ids[..n - 1], order[..k] + order[k + 1..]);
      PickWithout(ids, order, k);
      LastCounts(ids);
    }
  }

  /** Where a permutation of the indices has the largest, and that the rest permutes the others. */
  lemma LargestAt(order: seq<nat>) returns (k: nat)
    requires order != [] && Distinct(order) && forall i :: 0 <= i < |order| ==> order[i] < |order|
    ensures k < |order| && order[k] == |order| - 1
    ensures var rest := order[..k] + order[k + 1..];
            && |rest| == |order| - 1 && Distinct(rest)
            && (forall i :: 0 <= i < |rest| ==> rest[i] < |rest|)
    ensures forall i :: 0 <= i < |order| && i != k ==> order[i] < |order| - 1
  {
    DistinctIndicesCover(order, |order| - 1);
    k :| 0 <= k < |order| && order[k] == |order| - 1;
    OrderWithout(order, k, |order| - 1);
  }

  lemma LastCounts<T>(ids: seq<T>)
    requires ids != []
    ensures multiset(ids) == multiset{ids[|ids| - 1]} + multiset(ids[..|ids| - 1])
  {
    assert ids == ids[..|ids| - 1] + [ids[|ids| - 1]];
  }

  lemma PickWithout<T>(ids: seq<T>, order: seq<nat>, k: nat)
    requires ids != [] && k < |order| && order[k] == |ids| - 1
    requires forall i :: 0 <= i < |order| ==> order[i] < |ids| && (i != k ==> order[i] < |ids| - 1)
    ensures var rest := order[..k] + order[k + 1..];
            multiset(Pick(ids, order)) == multiset{ids[|ids| - 1]} + multiset(Pick(ids[..|ids| - 1], rest))
  {
    var picked := Pick(ids, order);
    assert picked == picked[..k] + [picked[k]] + picked[k + 1..];
    assert Pick(ids[..|ids| - 1], order[..k] + order[k + 1..]) == picked[..k] + picked[k + 1..];
  }

  /** The head with its new scores, each candidate with its own. */
  function Rescored(cands: seq<Candidate>, scores: seq<real>): seq<Candidate>
    requires |scores| <= |cands|
  {
    seq(|scores|, i requires 0 <= i < |scores| => Candidate(cands[i].id, scores[i]))
  }

  /** Reranking gives every candidate of the head its own new score, sorts the head by it, and leaves
      everything past the cutoff in place. */
  lemma RerankPermutesHeadOnly(cands: seq<Candidate>, k: int, order: seq<nat>, scores: seq<real>)
    requires |scores| == Cut(|cands|, k) && IsArgsort(order, scores)
    ensures var r := RerankHead(cands, k, order, scores);
            var c := Cut(|cands|, k);
            && |r| == |cands|
            && r[c..] == cands[c..]
            && multiset(r[..c]) == multiset(Rescored(cands, scores))
            && multiset(IdsOf(r)) == multiset(IdsOf(cands))
            && (forall i, j :: 0 <= i < j < c ==> r[i].score >= r[j].score)
  {
    var r := RerankHead(cands, k, order, scores);
    var c := Cut(|cands|, k);
    HeadIsPicked(cands, k, order, scores);
    PickedMultiset(Rescored(cands, scores), order);
    IdsOfPermutation(r[..c], Rescored(cands, scores));
    assert IdsOf(Rescored(cands, scores)) == IdsOf(cands[..c]);
    assert IdsOf(r) == IdsOf(r[..c]) + IdsOf(r[c..]);
    assert IdsOf(cands) == IdsOf(cands[..c]) + IdsOf(cands[c..]);
  }

  lemma HeadIsPicked(cands: seq<Candidate>, k: int, order: seq<nat>, scores: seq<real>)
    requires |scores| == Cut(|cands|, k) && IsArgsort(order, scores)
    ensures RerankHead(cands, k, order, scores)[..Cut(|cands|, k)] == Pick(Rescored(cands, scores), order)
  {
  }

  /** So of two candidates of the head the one with the better new score comes first. */
  lemma BetterNewScoreComesFirst(cands: seq<Candidate>, k: int, order: seq<nat>, scores: seq<real>, i: nat, j: nat)
    requires |scores| == Cut(|cands|, k) && IsArgsort(order, scores)
    requires i < |scores| && j < |scores| && scores[i] > scores[j]
    ensures Ahead(IdsOf(RerankHead(cands, k, order, scores)), cands[i].id, cands[j].id)
  {
    var r := RerankHead(cands, k, order, scores);
    var c := Cut(|cands|, k);
    DistinctIndicesCover(order, i);
    DistinctIndicesCover(order, j);
    var p :| 0 <= p < |order| && order[p] == i;
    var q :| 0 <= q < |order| && order[q] == j;
    assert p < q;
    assert IdsOf(r)[p] == cands[i].id && IdsOf(r)[q] == cands[j].id;
  }

  /** The cutoff is Python's: the first `k`, or all but the last `-k`. */
  lemma CutoffCountsFromEitherEnd(cands: seq<Candidate>, k: int, order: seq<nat>, scores: seq<real>)
    requires |scores| == Cut(|cands|, k) && IsArgsort(order, scores)
    ensures var r := RerankHead(cands, k, order, scores);
            && (0 <= k <= |cands| ==> r[k..] == cands[k..])
            && (k < 0 <= |cands| + k ==>
                  && r[|cands| + k..] == cands[|cands| + k..]
                  && multiset(r[..|cands| + k]) == multiset(Rescored(cands, scores)))
            && (|cands| + k < 0 ==> r == cands)
            && (k > |cands| ==> multiset(r) == multiset(Rescored(cands, scores)))
  {
    var r := RerankHead(cands, k, order, scores);
    RerankPermutesHeadOnly(cands, k, order, scores);
    if |cands| + k < 0 {
      assert r == r[0..] && cands == cands[0..];
    }
    if k > |cands| {
      assert r[..|cands|] == r;
    }
  }

  /** How the reranker is set up for one query. */
  datatype Rerank =
    | Off                                          // disabled, no text, or no model for the default blend
    | On(k: int, order: seq<nat>, scores: seq<real>)

  function SemanticRerank(cands: seq<Candidate>, mode: Rerank): seq<Candidate>
    requires mode.On? ==> |mode.order| == |mode.scores| == Cut(|cands|, mode.k)
    requires mode.On? ==> forall i :: 0 <= i < |mode.order| ==> mode.order[i] < |mode.scores|
  {
    match mode
    case Off => cands
    case On(k, order, scores) => RerankHead(cands, k, order, scores)
  }

  /** The order candidates enter the pool in: fused, or the dense lane's where there is no lexical one. */
  function RecallOrder(dense: seq<Id>, lexical: Option<seq<Id>>): seq<Id> {
    if lexical.Some? then FusedOrder(dense, lexical.value) else FirstSeen(dense)
  }

  /** The whole pipeline before the final cut loses and invents nothing: the ranked ids are the ids of
      either lane that pass the filter, each once. */
  lemma RecallIsLossless(dense: seq<Id>, lexical: Option<seq<Id>>, score: Id -> real, matches: Id -> bool,
                         factor: real, testOriented: bool, isTest: Id -> bool, mode: Rerank)
    requires var pool := Pool(RecallOrder(dense, lexical), score, matches);
             mode.On? ==> |mode.scores| == Cut(|pool|, mode.k) && IsArgsort(mode.order, mode.scores)
    ensures var pool := Pool(RecallOrder(dense, lexical), score, matches);
            var down := Downweight(pool, factor, testOriented, isTest);
            && |down| == |pool|
            && var ranked := IdsOf(SemanticRerank(down, mode));
               && Distinct(ranked)
               && forall id :: id in ranked <==> (id in dense || id in lexical.GetOr([])) && matches(id)
  {
    var order := RecallOrder(dense, lexical);
    var pool := Pool(order, score, matches);
    var down := Downweight(pool, factor, testOriented, isTest);
    FusionListsEachOnce(dense, lexical.GetOr([]));
    FirstSeenLists(dense);
    PoolFilters(order, score, matches);
    DownweightReorders(pool, factor, testOriented, isTest);
    IdsOfPermutation(down, pool);
    var ranked := SemanticRerank(down, mode);
    if mode.On? {
      RerankPermutesHeadOnly(down, mode.k, mode.order, mode.scores);
    }
    assert multiset(IdsOf(ranked)) == multiset(IdsOf(pool));
    DistinctFromMultiset(IdsOf(pool), IdsOf(ranked));
    SameMembers(IdsOf(pool), IdsOf(ranked));
  }

  lemma IdsOfPermutation(a: seq<Candidate>, b: seq<Candidate>)
    requires multiset(a) == multiset(b)
    ensures multiset(IdsOf(a)) == multiset(IdsOf(b))
  {
    var id := (c: Candidate) => c.id;
    assert IdsOf(a) == MapSeq(a, id) && IdsOf(b) == MapSeq(b, id);
    MapPermutation(a, b, id);
  }

  /** What every lane that lists `b` puts ahead of it comes ahead of it in the answer, as long as neither the
      penalty nor the reranker is on: filter and pipeline keep the fused order, or the dense lane's where
      there is no lexical one. */
  lemma UnanimityReachesTheAnswer(dense: seq<Id>, lexical: Option<seq<Id>>, score: Id -> real, matches: Id -> bool,
                                  factor: real, testOriented: bool, isTest: Id -> bool, a: Id, b: Id)
    requires Distinct(dense) && Distinct(lexical.GetOr([])) && (b in dense || b in lexical.GetOr([]))
    requires b in dense ==> Ahead(dense, a, b)
    requires b in lexical.GetOr([]) ==> Ahead(lexical.GetOr([]), a, b)
    requires matches(a) && matches(b) && (factor == 1.0 || testOriented)
    ensures var pool := Pool(RecallOrder(dense, lexical), score, matches);
            Ahead(IdsOf(SemanticRerank(Downweight(pool, factor, testOriented, isTest), Off)), a, b)
  {
    if lexical.Some? {
      FusionRespectsUnanimity(dense, lexical.value, a, b);
    } else {
      FirstSeenOfDistinct(dense);
    }
    PoolKeepsOrder(RecallOrder(dense, lexical), score, matches, a, b);
  }

  lemma {:induction false} FirstSeenOfDistinct(ids: seq<Id>)
    requires Distinct(ids)
    ensures FirstSeen(ids) == ids
  {
    if ids != [] {
      FirstSeenOfDistinct(ids[..|ids| - 1]);
    }
  }

  lemma {:induction false} PoolKeepsOrder(order: seq<Id>, score: Id -> real, matches: Id -> bool, a: Id, b: Id)
    requires Ahead(order, a, b) && matches(a) && matches(b)
    ensures Ahead(IdsOf(Pool(order, score, matches)), a, b)
  {
    var i, j :| 0 <= i < j < |order| && order[i] == a && order[j] == b;
    var rest := Pool(order[1..], score, matches);
    assert order[1..][j - 1] == b;
    if i == 0 {
      PoolLists(order[1..], score, matches, b);
      assert IdsOf(Pool(order, score, matches)) == [a] + IdsOf(rest);
      FirstIsAhead(a, IdsOf(rest), b);
    } else {
      assert order[1..][i - 1] == a;
      PoolKeepsOrder(order[1..], score, matches, a, b);
      if matches(order[0]) {
        assert IdsOf(Pool(order, score, matches)) == [order[0]] + IdsOf(rest);
        AheadBehind(order[0], IdsOf(rest), a, b);
      } else {
        assert Pool(order, score, matches) == rest;
      }
    }
  }

  lemma {:induction false} PoolLists(order: seq<Id>, score: Id -> real, matches: Id -> bool, id: Id)
    requires id in order && matches(id)
    ensures id in IdsOf(Pool(order, score, matches))
  {
    var rest := Pool(order[1..], score, matches);
    if order[0] == id {
      assert IdsOf(Pool(order, score, matches)) == [id] + IdsOf(rest);
    } else {
      PoolLists(order[1..], score, matches, id);
      var k :| 0 <= k < |rest| && IdsOf(rest)[k] == id;
      if matches(order[0]) {
        assert IdsOf(Pool(order, score, matches))[k + 1] == id;
      } else {
        assert IdsOf(Pool(order, score, matches))[k] == id;
      }
    }
  }
}
