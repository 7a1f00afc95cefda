/** Ranking a score vector: its indices ordered from the highest score to the
    lowest, as flipping an ascending argsort gives. numpy does not fix the order of tied scores; this model ranks tied
    cells by descending index (what flipping a stable argsort gives), and
    everything proved about the ranking's users relies only on IsRanking. */
module Ranking {

  /** The index vector 0, 1, ..., n - 1. */
  function Indices(n: nat): (r: seq<nat>)
    ensures |r| == n && forall i :: 0 <= i < n ==> r[i] == i
  {
    seq(n, i => i)
  }

  predicate AllBelow(r: seq<nat>, n: nat) {
    forall i :: 0 <= i < |r| ==> r[i] < n
  }

  /** Scores read along r never increase. */
  ghost predicate NonIncreasing(r: seq<nat>, scores: seq<int>)
    requires AllBelow(r, |scores|)
  {
    forall i, j :: 0 <= i < j < |r| ==> scores[r[i]] >= scores[r[j]]
  }

  /** r lists every index of scores exactly once, best score first. */
  ghost predicate IsRanking(r: seq<nat>, scores: seq<int>) {
    AllBelow(r, |scores|) &&
    multiset(r) == multiset(Indices(|scores|)) &&
    NonIncreasing(r, scores)
  }

  /** Put index k into the ranked list r in front of the first index whose score is not larger. */
  function Insert(scores: seq<int>, k: nat, r: seq<nat>): seq<nat>
    requires k < |scores| && AllBelow(r, |scores|)
  {
    if r == [] then [k]
    else if scores[k] >= scores[r[0]] then [k] + r
    else [r[0]] + Insert(scores, k, r[1..])
  }

  /** The ranking of the first n indices. */
  function RankPrefix(scores: seq<int>, n: nat): (r: seq<nat>)
    requires n <= |scores|
    ensures AllBelow(r, |scores|)
  {
    if n == 0 then []
    else
      var p := RankPrefix(scores, n - 1);
      InsertKeeps(scores, n - 1, p);
      Insert(scores, n - 1, p)
  }

  /** The ranking the turn driver walks: every index of the score vector,
      highest score first. */
  function Rank(scores: seq<int>): (r: seq<nat>)
    ensures AllBelow(r, |scores|)
    ensures multiset(r) == multiset(Indices(|scores|))
  {
    RankPrefixPermutes(scores, |scores|);
    RankPrefix(scores, |scores|)
  }

  lemma {:induction false} InsertKeeps(scores: seq<int>, k: nat, r: seq<nat>)
    requires k < |scores| && AllBelow(r, |scores|)
    ensures AllBelow(Insert(scores, k, r), |scores|)
    ensures multiset(Insert(scores, k, r)) == multiset(r) + multiset{k}
  {
    if r != [] && scores[k] < scores[r[0]] {
      InsertKeeps(scores, k, r[1..]);
      assert r == [r[0]] + r[1..];
    }
  }

  lemma {:induction false} InsertSorted(scores: seq<int>, k: nat, r: seq<nat>)
    requires k < |scores| && AllBelow(r, |scores|) && NonIncreasing(r, scores)
    ensures AllBelow(Insert(scores, k, r), |scores|)
    ensures NonIncreasing(Insert(scores, k, r), scores)
  {
    InsertKeeps(scores, k, r);
    if r != [] && scores[k] < scores[r[0]] {
      var rest := Insert(scores, k, r[1..]);
      InsertSorted(scores, k, r[1..]);
      InsertBelowHead(scores, k, r);
      assert Insert(scores, k, r) == [r[0]] + rest;
      ConsSorted(scores, r[0], rest);
    }
  }

  /** A head scoring at least every entry of a non-increasing tail keeps the
      list non-increasing. */
  lemma ConsSorted(scores: seq<int>, h: nat, rest: seq<nat>)
    requires h < |scores| && AllBelow(rest, |scores|) && NonIncreasing(rest, scores)
    requires forall e :: e in rest ==> scores[e] <= scores[h]
    ensures AllBelow([h] + rest, |scores|) && NonIncreasing([h] + rest, scores)
  {
    var s := [h] + rest;
    forall i, j | 0 <= i < j < |s|
      ensures scores[s[i]] >= scores[s[j]]
    {
      if i == 0 {
        assert s[j] == rest[j - 1] && s[j] in rest;
      } else {
        assert s[i] == rest[i - 1] && s[j] == rest[j - 1];
      }
    }
  }

  /** Inserting below the head keeps every later entry at most the head's score. */
  lemma InsertBelowHead(scores: seq<int>, k: nat, r: seq<nat>)
    requires k < |scores| && AllBelow(r, |scores|) && NonIncreasing(r, scores)
    requires r != [] && scores[k] < scores[r[0]]
    ensures AllBelow(Insert(scores, k, r[1..]), |scores|)
    ensures forall e :: e in Insert(scores, k, r[1..]) ==> scores[e] <= scores[r[0]]
  {
    var rest := Insert(scores, k, r[1..]);
    InsertKeeps(scores, k, r[1..]);
    forall e | e in rest
      ensures scores[e] <= scores[r[0]]
    {
      assert e in multiset(rest);
      if e != k {
        assert e in multiset(r[1..]);
        var j :| 0 <= j < |r[1..]| && r[1..][j] == e;
        assert r[j + 1] == e;
      }
    }
  }

  /** The ranking of the first n indices lists each of them once. */
  lemma {:induction false} RankPrefixPermutes(scores: seq<int>, n: nat)
    requires n <= |scores|
    ensures multiset(RankPrefix(scores, n)) == multiset(Indices(n))
  {
    if n > 0 {
      var r := RankPrefix(scores, n - 1);
      assert RankPrefix(scores, n) == Insert(scores, n - 1, r);
      RankPrefixPermutes(scores, n - 1);
      InsertKeeps(scores, n - 1, r);
      assert Indices(n) == Indices(n - 1) + [n - 1];
    }
  }

  /** The ranking of the first n indices never increases in score. */
  lemma {:induction false} RankPrefixSorted(scores: seq<int>, n: nat)
    requires n <= |scores|
    ensures NonIncreasing(RankPrefix(scores, n), scores)
  {
    if n > 0 {
      var r := RankPrefix(scores, n - 1);
      assert RankPrefix(scores, n) == Insert(scores, n - 1, r);
      RankPrefixSorted(scores, n - 1);
      InsertSorted(scores, n - 1, r);
    }
  }

  /** The ranking lists every cell index once, along non-increasing scores. */
  lemma RankIsRanking(scores: seq<int>)
    ensures IsRanking(Rank(scores), scores)
  {
    RankPrefixSorted(scores, |scores|);
  }

  /** Every index of the score vector has a place in any ranking of it. */
  lemma RankingCovers(r: seq<nat>, scores: seq<int>, k: nat) returns (p: nat)
    requires IsRanking(r, scores) && k < |scores|
    ensures p < |r| && r[p] == k
  {
    assert Indices(|scores|)[k] == k;
    assert k in multiset(Indices(|scores|));
    assert k in multiset(r);
    p :| 0 <= p < |r| && r[p] == k;
  }

  lemma {:induction false} IndicesOnce(n: nat, k: nat)
    ensures multiset(Indices(n))[k] == if k < n then 1 else 0
  {
    if n > 0 {
      assert Indices(n) == Indices(n - 1) + [n - 1];
      IndicesOnce(n - 1, k);
    }
  }

  /** A ranking has as many entries as scores, none repeated. */
  lemma RankingDistinct(r: seq<nat>, scores: seq<int>)
    requires IsRanking(r, scores)
    ensures |r| == |scores|
    ensures forall i, j :: 0 <= i < j < |r| ==> r[i] != r[j]
  {
    calc {
      |r|;
      |multiset(r)|;
      |multiset(Indices(|scores|))|;
      |scores|;
    }
    forall i, j | 0 <= i < j < |r|
      ensures r[i] != r[j]
    {
      var v := r[i];
      IndicesOnce(|scores|, v);
      assert r == r[..i] + [r[i]] + r[i + 1..j] + [r[j]] + r[j + 1..];
      assert multiset(r)[v] >= 1 + multiset{r[j]}[v];
    }
  }
}
