/** Reciprocal Rank Fusion as the retriever computes it, and the remapping of
    a reranker's answer (a list of document ids) back to the fused hits.
    Documents are compared by object identity throughout, as the retriever
    keys its table on `id(doc)`. */
module Fusion {
  import opened Values
  import opened Sorting

  /** A search hit: a document and its score. */
  type Hit = (Document, real)

  // ---------------------------------------------------------------------
  // The ranked lists.

  /** Every list's documents, one list after another: the order in which the
      fusion loop visits them (index order, then rank). */
  function Flatten(lists: seq<seq<Document>>): seq<Document> {
    if lists == [] then [] else Flatten(lists[..|lists| - 1]) + lists[|lists| - 1]
  }

  lemma {:induction false} FlattenMembers(lists: seq<seq<Document>>, d: Document)
    ensures d in Flatten(lists) <==> exists m :: 0 <= m < |lists| && d in lists[m]
  {
    if lists != [] {
      var init := lists[..|lists| - 1];
      FlattenMembers(init, d);
      if d in Flatten(init) {
        var m :| 0 <= m < |init| && d in init[m];
        assert lists[m] == init[m];
      }
      if exists m :: 0 <= m < |lists| && d in lists[m] {
        var m :| 0 <= m < |lists| && d in lists[m];
        if m < |init| {
          assert init[m] == lists[m];
        }
      }
    }
  }

  /** The documents in the order they are first met, each once: the insertion
      order of the retriever's dictionary. */
  function Distinct(s: seq<Document>): (r: seq<Document>)
    ensures forall i :: 0 <= i < |r| ==> r[i] in s
    ensures forall i :: 0 <= i < |s| ==> s[i] in r
    ensures forall i, j :: 0 <= i < j < |r| ==> r[i] != r[j]
  {
    if s == [] then []
    else
      var init := s[..|s| - 1];
      var p := Distinct(init);
      assert s == init + [s[|s| - 1]];
      if s[|s| - 1] in p then p else p + [s[|s| - 1]]
  }

  lemma DistinctMembers(s: seq<Document>, d: Document)
    ensures d in Distinct(s) <==> d in s
  {
    var r := Distinct(s);
    if d in s {
      var i :| 0 <= i < |s| && s[i] == d;
    }
  }

  lemma DistinctSnoc(s: seq<Document>, x: Document)
    ensures Distinct(s + [x]) == if x in s then Distinct(s) else Distinct(s) + [x]
  {
    assert (s + [x])[..|s|] == s;
    DistinctMembers(s, x);
  }

  /** The 1-based position of the LAST occurrence of `d` in `l` (the loop
      overwrites a document's rank each time it meets it), and 0, standing for
      `float("inf")`, when `d` is absent. */
  function RankIn(l: seq<Document>, d: Document): (r: nat)
    ensures r <= |l|
    ensures r == 0 <==> d !in l
    ensures r > 0 ==> l[r - 1] == d && d !in l[r..]
  {
    if l == [] then 0
    else if l[|l| - 1] == d then |l|
    else
      var init := l[..|l| - 1];
      var r := RankIn(init, d);
      assert l == init + [l[|l| - 1]];
      assert r > 0 ==> l[r..] == init[r..] + [l[|l| - 1]];
      r
  }

  lemma RankInSnoc(l: seq<Document>, x: Document, d: Document)
    ensures RankIn(l + [x], d) == if x == d then |l| + 1 else RankIn(l, d)
  {
    assert (l + [x])[..|l|] == l;
  }

  /** A document's rank in each list. */
  function RankVector(lists: seq<seq<Document>>, d: Document): (r: seq<nat>)
    ensures |r| == |lists|
    ensures forall m :: 0 <= m < |lists| ==> r[m] == RankIn(lists[m], d)
  {
    seq(|lists|, m requires 0 <= m < |lists| => RankIn(lists[m], d))
  }

  // ---------------------------------------------------------------------
  // Scores.

  /** One list's contribution `1 / (k_rrf + r)`; nothing for an infinite rank. */
  function RrfTerm(rank: nat, kRrf: nat): real {
    if rank == 0 then 0.0 else 1.0 / (kRrf + rank) as real
  }

  /** `calc_rrf_score`: the contributions summed over the lists. */
  function RrfSum(ranks: seq<nat>, kRrf: nat): real {
    if ranks == [] then 0.0
    else RrfSum(ranks[..|ranks| - 1], kRrf) + RrfTerm(ranks[|ranks| - 1], kRrf)
  }

  /** The fused score of a document. */
  function RrfScore(lists: seq<seq<Document>>, d: Document, kRrf: nat): real {
    RrfSum(RankVector(lists, d), kRrf)
  }

  /** `scored_docs`: each document once, in first-seen order, with its fused score. */
  function FusedScores(lists: seq<seq<Document>>, kRrf: nat): (r: seq<Hit>)
    ensures |r| == |Distinct(Flatten(lists))|
    ensures forall i :: 0 <= i < |r| ==> r[i] == (Distinct(Flatten(lists))[i], RrfScore(lists, Distinct(Flatten(lists))[i], kRrf))
  {
    var order := Distinct(Flatten(lists));
    seq(|order|, i requires 0 <= i < |order| => (order[i], RrfScore(lists, order[i], kRrf)))
  }

  /** `[(doc, score) for doc, score in scored if score > 0]`. */
  function Positive(s: seq<Hit>): seq<Hit> {
    if s == [] then []
    else Positive(s[..|s| - 1]) + (if s[|s| - 1].1 > 0.0 then [s[|s| - 1]] else [])
  }

  /** The filter keeps exactly the positively scored hits. */
  lemma {:induction false} PositiveKeeps(s: seq<Hit>)
    ensures forall i :: 0 <= i < |Positive(s)| ==> Positive(s)[i] in s && Positive(s)[i].1 > 0.0
    ensures forall i :: 0 <= i < |s| && s[i].1 > 0.0 ==> s[i] in Positive(s)
  {
    if s != [] {
      var init, last := s[..|s| - 1], s[|s| - 1];
      assert s == init + [last];
      PositiveKeeps(init);
      forall i | 0 <= i < |s| && s[i].1 > 0.0 ensures s[i] in Positive(s) {
        if i < |init| {
          assert s[i] == init[i];
        }
      }
    }
  }

  /** Sorting by score with `reverse=True`. */
  function FusedKey(h: Hit): real { -h.1 }

  /** The fused ranking before any reranking: positive scores, highest first,
      at most `k` of them. */
  function Fuse(lists: seq<seq<Document>>, k: int, kRrf: nat): seq<Hit> {
    Top(SortBy(Positive(FusedScores(lists, kRrf)), FusedKey), Max(k, 0))
  }

  /** `s[:n]`. */
  function Top<T>(s: seq<T>, n: nat): seq<T> {
    if n == 0 || s == [] then [] else [s[0]] + Top(s[1..], n - 1)
  }

  lemma {:induction false} TopPrefix<T>(s: seq<T>, n: nat)
    ensures Top(s, n) == s[..Min(n, |s|)]
  {
    if n > 0 && s != [] {
      TopPrefix(s[1..], n - 1);
      assert s[..Min(n, |s|)] == [s[0]] + s[1..][..Min(n - 1, |s| - 1)];
    }
  }

  // ---------------------------------------------------------------------
  // Properties of the scores.

  lemma RrfTermBounds(rank: nat, kRrf: nat)
    ensures RrfTerm(rank, kRrf) >= 0.0
    ensures rank > 0 ==> RrfTerm(rank, kRrf) > 0.0
  {
  }

  /** A better (smaller) finite rank contributes more. */
  lemma RrfTermMonotone(a: nat, b: nat, kRrf: nat)
    requires 0 < a <= b
    ensures RrfTerm(a, kRrf) >= RrfTerm(b, kRrf)
  {
    var x := (kRrf + a) as real;
    var y := (kRrf + b) as real;
    assert 0.0 < x <= y;
    assert 1.0 / x - 1.0 / y == (y - x) / (x * y);
    assert x * y > 0.0;
  }

  lemma {:induction false} RrfSumNonNegative(ranks: seq<nat>, kRrf: nat)
    ensures RrfSum(ranks, kRrf) >= 0.0
  {
    if ranks != [] {
      RrfSumNonNegative(ranks[..|ranks| - 1], kRrf);
      RrfTermBounds(ranks[|ranks| - 1], kRrf);
    }
  }

  /** A document in at least one list has a positive fused score. */
  lemma {:induction false} RrfSumPositive(ranks: seq<nat>, kRrf: nat, m: nat)
    requires m < |ranks| && ranks[m] > 0
    ensures RrfSum(ranks, kRrf) > 0.0
  {
    var init := ranks[..|ranks| - 1];
    RrfTermBounds(ranks[|ranks| - 1], kRrf);
    if m == |ranks| - 1 {
      RrfSumNonNegative(init, kRrf);
    } else {
      RrfSumPositive(init, kRrf, m);
    }
  }

  /** Dominance: a document found in every list where another is found, at
      an equal or better rank, scores at least as much; found in one list
      more, it scores strictly more. */
  lemma {:induction false} RrfDominates(rx: seq<nat>, ry: seq<nat>, kRrf: nat)
    requires |rx| == |ry|
    requires forall m :: 0 <= m < |ry| && ry[m] > 0 ==> 0 < rx[m] <= ry[m]
    ensures RrfSum(rx, kRrf) >= RrfSum(ry, kRrf)
    ensures (exists m :: 0 <= m < |rx| && rx[m] > 0 && ry[m] == 0) ==> RrfSum(rx, kRrf) > RrfSum(ry, kRrf)
  {
    if rx != [] {
      var n := |rx| - 1;
      RrfDominates(rx[..n], ry[..n], kRrf);
      RrfTermBounds(rx[n], kRrf);
      if ry[n] > 0 {
        RrfTermMonotone(rx[n], ry[n], kRrf);
      }
      if exists m :: 0 <= m < |rx| && rx[m] > 0 && ry[m] == 0 {
        var m :| 0 <= m < |rx| && rx[m] > 0 && ry[m] == 0;
        if m < n {
          assert rx[..n][m] > 0 && ry[..n][m] == 0;
        }
      }
    }
  }

  /** A list ranking X before Y and another ranking Y before X give X and Y
      the same fused score. */
  lemma RrfSwapEqual(x: Document, y: Document, kRrf: nat)
    requires x != y
    ensures RrfScore([[x, y], [y, x]], x, kRrf) == RrfScore([[x, y], [y, x]], y, kRrf)
  {
    var lists := [[x, y], [y, x]];
    assert RankIn([x, y], x) == 1 && RankIn([y, x], x) == 2 by {
      assert [x, y][..1] == [x];
      assert [y, x][..1] == [y];
    }
    assert RankIn([x, y], y) == 2 && RankIn([y, x], y) == 1 by {
      assert [x, y][..1] == [x];
      assert [y, x][..1] == [y];
    }
    var rx: seq<nat> := [1, 2];
    var ry: seq<nat> := [2, 1];
    assert RankVector(lists, x) == rx;
    assert RankVector(lists, y) == ry;
    assert rx[..1][..0] == [] && ry[..1][..0] == [];
    assert RrfSum(rx[..1], kRrf) == RrfTerm(1, kRrf);
    assert RrfSum(ry[..1], kRrf) == RrfTerm(2, kRrf);
    assert RrfSum(rx, kRrf) == RrfTerm(1, kRrf) + RrfTerm(2, kRrf);
    assert RrfSum(ry, kRrf) == RrfTerm(2, kRrf) + RrfTerm(1, kRrf);
  }

  /** A document at rank `r` in both of two lists outscores a document at
      rank `r` in only one of them. */
  lemma RrfBothBeatsOne(r: nat, kRrf: nat)
    requires r > 0
    ensures RrfSum([r, r], kRrf) > RrfSum([r, 0], kRrf)
    ensures RrfSum([r, r], kRrf) > RrfSum([0, r], kRrf)
  {
    RrfDominates([r, r], [r, 0], kRrf);
    assert [r, r][1] > 0 && [r, 0][1] == 0;
    RrfDominates([r, r], [0, r], kRrf);
    assert [r, r][0] > 0 && [0, r][0] == 0;
  }

  /** The `score > 0` filter drops nothing: every document met in some list
      has a positive fused score. */
  lemma FiltersNothing(lists: seq<seq<Document>>, kRrf: nat)
    ensures Positive(FusedScores(lists, kRrf)) == FusedScores(lists, kRrf)
  {
    var s := FusedScores(lists, kRrf);
    forall i | 0 <= i < |s| ensures s[i].1 > 0.0 {
      var d := Distinct(Flatten(lists))[i];
      FlattenMembers(lists, d);
      var m :| 0 <= m < |lists| && d in lists[m];
      RrfSumPositive(RankVector(lists, d), kRrf, m);
    }
    AllPositive(s);
  }

  lemma {:induction false} AllPositive(s: seq<Hit>)
    requires forall i :: 0 <= i < |s| ==> s[i].1 > 0.0
    ensures Positive(s) == s
  {
    if s != [] {
      var init := s[..|s| - 1];
      assert forall i :: 0 <= i < |init| ==> init[i] == s[i];
      AllPositive(init);
      SnocSplit(s);
    }
  }

  lemma SnocSplit<T>(s: seq<T>)
    requires s != []
    ensures s[..|s| - 1] + [s[|s| - 1]] == s
  {
  }

  // ---------------------------------------------------------------------
  // Properties of the fused ranking.

  predicate DistinctDocs(s: seq<Hit>) {
    forall i, j :: 0 <= i < j < |s| ==> s[i].0 != s[j].0
  }

  lemma {:induction false} DistinctOnce(s: seq<Hit>, x: Hit)
    requires DistinctDocs(s)
    ensures multiset(s)[x] <= 1
  {
    if s != [] {
      var init := s[..|s| - 1];
      assert s == init + [s[|s| - 1]];
      DistinctOnce(init, x);
      if x == s[|s| - 1] {
        assert x !in init;
      }
    }
  }

  lemma Twice(s: seq<Hit>, i: nat, j: nat)
    requires i < j < |s| && s[i] == s[j]
    ensures multiset(s)[s[i]] >= 2
  {
    assert s == s[..j] + [s[j]] + s[j + 1..];
    assert s[i] in s[..j];
  }

  /** The hits the ranking sorts: every document met, with its fused score. */
  lemma SortedMember(lists: seq<seq<Document>>, kRrf: nat, h: Hit)
    requires h in SortBy(FusedScores(lists, kRrf), FusedKey)
    ensures h.0 in Flatten(lists) && h.1 == RrfScore(lists, h.0, kRrf)
  {
    var scored := FusedScores(lists, kRrf);
    SortByMembers(scored, FusedKey);
    var i :| 0 <= i < |scored| && scored[i] == h;
    DistinctMembers(Flatten(lists), h.0);
  }

  lemma FusedDistinct(lists: seq<seq<Document>>, kRrf: nat)
    ensures DistinctDocs(FusedScores(lists, kRrf))
  {
  }

  /** Sorting keeps the documents distinct. */
  lemma SortedDistinct(lists: seq<seq<Document>>, kRrf: nat)
    ensures DistinctDocs(SortBy(FusedScores(lists, kRrf), FusedKey))
  {
    var scored := FusedScores(lists, kRrf);
    var sorted := SortBy(scored, FusedKey);
    FusedDistinct(lists, kRrf);
    forall i, j | 0 <= i < j < |sorted| ensures sorted[i].0 != sorted[j].0 {
      SortedMember(lists, kRrf, sorted[i]);
      SortedMember(lists, kRrf, sorted[j]);
      if sorted[i].0 == sorted[j].0 {
        Twice(sorted, i, j);
        DistinctOnce(scored, sorted[i]);
      }
    }
  }

  predicate Descending(s: seq<Hit>) {
    forall i, j :: 0 <= i < j < |s| ==> s[i].1 >= s[j].1
  }

  /** A prefix keeps the order, the distinctness and the members. */
  lemma TakeKeeps(s: seq<Hit>, m: nat)
    requires m <= |s|
    ensures Descending(s) ==> Descending(s[..m])
    ensures DistinctDocs(s) ==> DistinctDocs(s[..m])
    ensures forall h :: h in s[..m] ==> h in s
  {
  }

  lemma SortedDescending(s: seq<Hit>)
    ensures Descending(SortBy(s, FusedKey))
  {
    var sorted := SortBy(s, FusedKey);
    forall i, j | 0 <= i < j < |sorted| ensures sorted[i].1 >= sorted[j].1 {
      assert FusedKey(sorted[i]) <= FusedKey(sorted[j]);
    }
  }

  /** The ranking's shape: at most `k` hits (exactly `min(k, #documents)`),
      highest score first, each document once, each with its fused score. */
  lemma FuseShape(lists: seq<seq<Document>>, k: int, kRrf: nat)
    requires k > 0
    ensures |Fuse(lists, k, kRrf)| == Min(k, |Distinct(Flatten(lists))|)
    ensures Descending(Fuse(lists, k, kRrf))
    ensures DistinctDocs(Fuse(lists, k, kRrf))
    ensures forall h :: h in Fuse(lists, k, kRrf) ==> h.0 in Flatten(lists) && h.1 == RrfScore(lists, h.0, kRrf)
  {
    var scored := FusedScores(lists, kRrf);
    FiltersNothing(lists, kRrf);
    var sorted := SortBy(scored, FusedKey);
    var m := Min(k, |sorted|);
    TopPrefix(sorted, k);
    assert Fuse(lists, k, kRrf) == sorted[..m];
    SortedDescending(scored);
    SortedDistinct(lists, kRrf);
    TakeKeeps(sorted, m);
    forall h | h in sorted[..m] ensures h.0 in Flatten(lists) && h.1 == RrfScore(lists, h.0, kRrf) {
      SortedMember(lists, kRrf, h);
    }
  }

  /** Nothing left out of the ranking scores more than anything kept. */
  lemma FuseKeepsBest(lists: seq<seq<Document>>, k: int, kRrf: nat, kept: Hit, dropped: Hit)
    requires k > 0
    requires var sorted := SortBy(FusedScores(lists, kRrf), FusedKey);
      kept in sorted[..Min(k, |sorted|)] && dropped in sorted[Min(k, |sorted|)..]
    ensures kept.1 >= dropped.1
  {
    var sorted := SortBy(FusedScores(lists, kRrf), FusedKey);
    TakeIsSmallest(sorted, FusedKey, Min(k, |sorted|));
  }

  /** Ties keep first-seen order: the hits with any one score come out in the
      order their documents were first met. */
  lemma FuseStable(lists: seq<seq<Document>>, kRrf: nat, c: real)
    ensures WithKey(SortBy(Positive(FusedScores(lists, kRrf)), FusedKey), FusedKey, c)
         == WithKey(FusedScores(lists, kRrf), FusedKey, c)
  {
    FiltersNothing(lists, kRrf);
    SortByStable(FusedScores(lists, kRrf), FusedKey, c);
  }

  /** Rank 1 contributes strictly more than any other rank, found or not. */
  lemma RrfTermFirst(rank: nat, kRrf: nat)
    requires rank != 1
    ensures RrfTerm(1, kRrf) > RrfTerm(rank, kRrf)
  {
    var x := (kRrf + 1) as real;
    if rank > 1 {
      var y := (kRrf + rank) as real;
      assert 0.0 < x < y;
      assert 1.0 / x - 1.0 / y == (y - x) / (x * y);
      assert x * y > 0.0;
    }
  }

  /** First in every one of at least one list beats anything never first. */
  lemma {:induction false} RrfFirstEverywhere(rx: seq<nat>, ry: seq<nat>, kRrf: nat)
    requires |rx| == |ry| > 0
    requires forall m :: 0 <= m < |rx| ==> rx[m] == 1 && ry[m] != 1
    ensures RrfSum(rx, kRrf) > RrfSum(ry, kRrf)
  {
    var n := |rx| - 1;
    RrfTermFirst(ry[n], kRrf);
    if n == 0 {
      assert rx[..n] == [] && ry[..n] == [];
    } else {
      RrfFirstEverywhere(rx[..n], ry[..n], kRrf);
    }
  }

  /** A document that heads every list, and appears nowhere else in them,
      is ranked 1 in each, and any other document is not. */
  lemma HeadRanks(l: seq<Document>, d: Document, e: Document)
    requires |l| > 0 && l[0] == d && d !in l[1..] && e != d
    ensures RankIn(l, d) == 1 && RankIn(l, e) != 1
  {
    assert d in l;
  }

  /** Such a document outscores every other document. */
  lemma HeadOutscores(lists: seq<seq<Document>>, d: Document, e: Document, kRrf: nat)
    requires |lists| > 0 && e != d
    requires forall m :: 0 <= m < |lists| ==> |lists[m]| > 0 && lists[m][0] == d && d !in lists[m][1..]
    ensures RrfScore(lists, d, kRrf) > RrfScore(lists, e, kRrf)
  {
    var rx := RankVector(lists, d);
    var ry := RankVector(lists, e);
    forall m | 0 <= m < |lists| ensures rx[m] == 1 && ry[m] != 1 {
      HeadRanks(lists[m], d, e);
    }
    RrfFirstEverywhere(rx, ry, kRrf);
  }

  /** The head of a list sorted by `FusedKey` has the highest score. */
  lemma SortedHeadHighest(sorted: seq<Hit>, h: Hit)
    requires SortedBy(sorted, FusedKey) && h in sorted
    ensures sorted[0].1 >= h.1
  {
    var j :| 0 <= j < |sorted| && sorted[j] == h;
    if j > 0 {
      assert FusedKey(sorted[0]) <= FusedKey(sorted[j]);
    }
  }

  /** A document met in some list is among the scored hits, with its score. */
  lemma MetIsScored(lists: seq<seq<Document>>, d: Document, m: nat, kRrf: nat)
    requires m < |lists| && d in lists[m]
    ensures (d, RrfScore(lists, d, kRrf)) in FusedScores(lists, kRrf)
  {
    FlattenMembers(lists, d);
    DistinctMembers(Flatten(lists), d);
    var order := Distinct(Flatten(lists));
    var i :| 0 <= i < |order| && order[i] == d;
    assert FusedScores(lists, kRrf)[i] == (d, RrfScore(lists, d, kRrf));
  }

  /** Every scored hit carries its document's fused score. */
  lemma ScoredCarriesScore(lists: seq<seq<Document>>, kRrf: nat, h: Hit)
    requires h in FusedScores(lists, kRrf)
    ensures h.1 == RrfScore(lists, h.0, kRrf)
  {
  }

  /** The top 1 is the head of the sorted hits. */
  lemma FuseOne(lists: seq<seq<Document>>, kRrf: nat)
    requires FusedScores(lists, kRrf) != []
    ensures Fuse(lists, 1, kRrf) == [SortBy(FusedScores(lists, kRrf), FusedKey)[0]]
  {
    FiltersNothing(lists, kRrf);
    var sorted := SortBy(FusedScores(lists, kRrf), FusedKey);
    TopPrefix(sorted, 1);
    assert sorted[..1] == [sorted[0]];
  }

  /** The end-to-end case of the indexes agreeing on the best document: when
      one document heads every index's list (and occurs nowhere further
      down), it is the fused top 1. */
  lemma FuseAgreedHead(lists: seq<seq<Document>>, d: Document, kRrf: nat)
    requires |lists| > 0
    requires forall m :: 0 <= m < |lists| ==> |lists[m]| > 0 && lists[m][0] == d && d !in lists[m][1..]
    ensures Fuse(lists, 1, kRrf) == [(d, RrfScore(lists, d, kRrf))]
  {
    var scored := FusedScores(lists, kRrf);
    var hd := (d, RrfScore(lists, d, kRrf));
    assert d in lists[0];
    MetIsScored(lists, d, 0, kRrf);
    var sorted := SortBy(scored, FusedKey);
    SortByMembers(scored, FusedKey);
    SortedHeadHighest(sorted, hd);
    var first := sorted[0];
    assert first in multiset(sorted);
    assert first in scored;
    ScoredCarriesScore(lists, kRrf, first);
    if first.0 != d {
      HeadOutscores(lists, d, first.0, kRrf);
      assert false;
    }
    FuseOne(lists, kRrf);
  }

  // ---------------------------------------------------------------------
  // Reranking.

  /** The reranker: the candidates (as dictionaries), the query and `k`, to
      a list of document ids, or the exception it raises. */
  type Reranker = (seq<map<string, PyValue>>, string, int) -> Result<seq<string>>

  predicate IsIdChar(c: char) {
    'a' <= c <= 'z' || 'A' <= c <= 'Z' || '0' <= c <= '9'
  }

  /** A generated id: four characters from `ascii_letters + digits`. */
  predicate IsGeneratedId(s: string) {
    |s| == 4 && forall i :: 0 <= i < |s| ==> IsIdChar(s[i])
  }

  /** `if "id" not in doc: doc["id"] = <generated id>`: an id is present
      afterwards, and one that was there is kept. */
  ghost predicate IdAssigned(before: map<string, PyValue>, after: map<string, PyValue>) {
    && "id" in after
    && ("id" in before ==> after == before)
    && ("id" !in before ==> exists s :: IsGeneratedId(s) && after == before["id" := PyStr(s)])
  }

  /** Assigning ids keeps every other field, and assigning again after an
      assignment changes nothing: the result has an id and agrees with the
      original dictionary on all of its keys. */
  lemma IdAssignedTwice(before: map<string, PyValue>, mid: map<string, PyValue>, after: map<string, PyValue>)
    requires IdAssigned(before, mid) && (after == mid || IdAssigned(mid, after))
    ensures after == mid && "id" in after
    ensures forall key :: key in before ==> key in after && after[key] == before[key]
  {
    if "id" !in before {
      var s :| IsGeneratedId(s) && mid == before["id" := PyStr(s)];
    }
  }

  /** The position a dictionary built from `keys` (later keys overwriting
      earlier ones) maps `v` to: its last occurrence. */
  function LastIndex(keys: seq<PyValue>, v: PyValue): (r: Option<nat>)
    ensures r.None? <==> v !in keys
    ensures r.Some? ==> r.value < |keys| && keys[r.value] == v && v !in keys[r.value + 1..]
  {
    if keys == [] then None
    else if keys[|keys| - 1] == v then Some(|keys| - 1)
    else
      var init := keys[..|keys| - 1];
      var r := LastIndex(init, v);
      assert keys == init + [keys[|keys| - 1]];
      assert r.Some? ==> keys[r.value + 1..] == init[r.value + 1..] + [keys[|keys| - 1]];
      r
  }

  lemma LastIndexSnoc(keys: seq<PyValue>, x: PyValue, v: PyValue)
    ensures LastIndex(keys + [x], v) == if x == v then Some(|keys|) else LastIndex(keys, v)
  {
    assert (keys + [x])[..|keys|] == keys;
  }

  /** The candidates' ids, once each has one. */
  function IdsOf(fields: seq<map<string, PyValue>>): (r: seq<PyValue>)
    requires forall i :: 0 <= i < |fields| ==> "id" in fields[i]
    ensures |r| == |fields| && forall i :: 0 <= i < |fields| ==> r[i] == fields[i]["id"]
  {
    seq(|fields|, i requires 0 <= i < |fields| && "id" in fields[i] => fields[i]["id"])
  }

  /** The new result: for each returned id that names a candidate, that
      candidate with its fused score, in the reranker's order. */
  function Remap(result: seq<Hit>, ids: seq<PyValue>, reranked: seq<string>): (r: seq<Hit>)
    requires |ids| == |result|
    ensures |r| <= |reranked|
  {
    if reranked == [] then []
    else
      var rest := Remap(result, ids, reranked[..|reranked| - 1]);
      match LastIndex(ids, PyStr(reranked[|reranked| - 1]))
      case None => rest
      case Some(j) => rest + [result[j]]
  }

  /** The reranked answer: building the id lookup fails on an unhashable id;
      otherwise the reranker is asked, its exception propagates, and its ids
      are remapped. */
  function Reranked(result: seq<Hit>, fields: seq<map<string, PyValue>>, reranker: Reranker, query: string, k: int): Result<seq<Hit>>
    requires |fields| == |result|
    requires forall i :: 0 <= i < |fields| ==> "id" in fields[i]
  {
    var ids := IdsOf(fields);
    if exists i :: 0 <= i < |ids| && Unhashable(ids[i]) then Err(TypeError)
    else match reranker(fields, query, k)
      case Err(e) => Err(e)
      case Ok(reranked) => Ok(Remap(result, ids, reranked))
  }

  /** The output follows the reranker's order: remapping a concatenation is
      concatenating the remapped parts. */
  lemma {:induction false} RemapConcat(result: seq<Hit>, ids: seq<PyValue>, a: seq<string>, b: seq<string>)
    requires |ids| == |result|
    ensures Remap(result, ids, a + b) == Remap(result, ids, a) + Remap(result, ids, b)
  {
    if b != [] {
      var init := b[..|b| - 1];
      RemapConcat(result, ids, a, init);
      assert (a + b)[..|a + b| - 1] == a + init;
      assert (a + b)[|a + b| - 1] == b[|b| - 1];
    } else {
      assert a + b == a;
    }
  }

  /** One more id from the reranker extends the output by at most the
      candidate it names. */
  lemma RemapSnoc(result: seq<Hit>, ids: seq<PyValue>, init: seq<string>, s: string)
    requires |ids| == |result|
    ensures LastIndex(ids, PyStr(s)).None? ==> Remap(result, ids, init + [s]) == Remap(result, ids, init)
    ensures LastIndex(ids, PyStr(s)).Some? ==>
      Remap(result, ids, init + [s]) == Remap(result, ids, init) + [result[LastIndex(ids, PyStr(s)).value]]
  {
    assert (init + [s])[..|init|] == init;
  }

  /** One id gives the candidate it names, or nothing when it names none. */
  lemma RemapOne(result: seq<Hit>, ids: seq<PyValue>, s: string)
    requires |ids| == |result|
    ensures Remap(result, ids, [s]) == match LastIndex(ids, PyStr(s)) case None => [] case Some(j) => [result[j]]
  {
    assert [s][..0] == [];
  }

  /** Every hit of the remapped result is a candidate, with its fused score,
      named by some id the reranker returned. */
  lemma {:induction false} RemapSound(result: seq<Hit>, ids: seq<PyValue>, reranked: seq<string>, h: Hit)
    requires |ids| == |result| && h in Remap(result, ids, reranked)
    ensures exists s, j :: s in reranked && LastIndex(ids, PyStr(s)) == Some(j) && h == result[j]
  {
    var init := reranked[..|reranked| - 1];
    var s := reranked[|reranked| - 1];
    if h in Remap(result, ids, init) {
      RemapSound(result, ids, init, h);
      var s', j :| s' in init && LastIndex(ids, PyStr(s')) == Some(j) && h == result[j];
      assert s' in reranked;
    } else {
      var j := LastIndex(ids, PyStr(s)).value;
      assert h == result[j];
    }
  }

  /** A candidate whose id the reranker does not return is dropped. */
  lemma RemapDropsOmitted(result: seq<Hit>, ids: seq<PyValue>, reranked: seq<string>, j: nat)
    requires |ids| == |result| && j < |result| && DistinctDocs(result)
    requires forall s :: s in reranked ==> ids[j] != PyStr(s)
    ensures result[j] !in Remap(result, ids, reranked)
  {
    forall s, i | s in reranked && LastIndex(ids, PyStr(s)) == Some(i)
      ensures result[i] != result[j]
    {
      if i < j {
        assert result[i].0 != result[j].0;
      } else if j < i {
        assert result[j].0 != result[i].0;
      }
    }
    if result[j] in Remap(result, ids, reranked) {
      RemapSound(result, ids, reranked, result[j]);
    }
  }

  /** A reranker that returns the candidates' own (distinct, string) ids in
      their order gives the fused ranking back unchanged. */
  lemma RemapIdentity(result: seq<Hit>, ids: seq<PyValue>, reranked: seq<string>)
    requires |ids| == |result| == |reranked|
    requires forall i :: 0 <= i < |ids| ==> ids[i] == PyStr(reranked[i])
    requires forall i, j :: 0 <= i < j < |ids| ==> ids[i] != ids[j]
    ensures Remap(result, ids, reranked) == result
  {
    RemapPrefix(result, ids, reranked, |reranked|);
    assert reranked[..|reranked|] == reranked && result[..|result|] == result;
  }

  /** Remapping a prefix of the candidates' own ids. */
  lemma {:induction false} RemapPrefix(result: seq<Hit>, ids: seq<PyValue>, reranked: seq<string>, n: nat)
    requires |ids| == |result| == |reranked| && n <= |reranked|
    requires forall i :: 0 <= i < |ids| ==> ids[i] == PyStr(reranked[i])
    requires forall i, j :: 0 <= i < j < |ids| ==> ids[i] != ids[j]
    ensures Remap(result, ids, reranked[..n]) == result[..n]
  {
    if n > 0 {
      RemapPrefix(result, ids, reranked, n - 1);
      TakeSnoc(reranked, n);
      LastIndexDistinct(ids, n - 1);
      RemapSnoc(result, ids, reranked[..n - 1], reranked[n - 1]);
      TakeSnoc(result, n);
    }
  }

  /** A non-empty prefix is the shorter prefix and its last element. */
  lemma TakeSnoc<T>(s: seq<T>, n: nat)
    requires 0 < n <= |s|
    ensures s[..n] == s[..n - 1] + [s[n - 1]]
  {
  }

  /** In a list without repeats, the last occurrence of an element is its only one. */
  lemma LastIndexDistinct(ids: seq<PyValue>, i: nat)
    requires i < |ids| && forall a, b :: 0 <= a < b < |ids| ==> ids[a] != ids[b]
    ensures LastIndex(ids, ids[i]) == Some(i)
  {
  }
}
