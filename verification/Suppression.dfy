/**
  `non_maximum_suppression`: a greedy choice of boxes by descending score.  The order in which
  equal scores are visited is a parameter, because the sort in use does not fix it; every
  theorem holds for all of them.
*/
module Suppression {
  import opened Boxes

  // ---------- Greedy choice over any conflict relation ----------

  type Conflicts = (nat, nat) -> bool

  ghost predicate Distinct<T>(s: seq<T>) {
    forall i, j :: 0 <= i < j < |s| ==> s[i] != s[j]
  }

  /** `order` lists every index of `scores` once, highest score first. */
  ghost predicate IsDescendingOrder(order: seq<nat>, scores: seq<real>) {
    && |order| == |scores|
    && Distinct(order)
    && (forall k :: 0 <= k < |scores| ==> k in order)
    && (forall i :: 0 <= i < |order| ==> order[i] < |scores|)
    && (forall i, j :: 0 <= i < j < |order| ==> scores[order[i]] >= scores[order[j]])
  }

  /** Visit `order`; keep an index unless it conflicts with one kept before. */
  ghost function Greedy(order: seq<nat>, conflict: Conflicts): set<nat> {
    if |order| == 0 then {}
    else
      var n := |order| - 1;
      var kept := Greedy(order[..n], conflict);
      if exists y :: y in kept && conflict(order[n], y) then kept else kept + {order[n]}
  }

  /** The defining property of the greedy choice, without the computation. */
  ghost predicate IsGreedyChoice(kept: set<nat>, order: seq<nat>, conflict: Conflicts) {
    && (forall x :: x in kept ==> x in order)
    && (forall i :: 0 <= i < |order| ==> (order[i] in kept <==> !Beaten(kept, order, i, conflict)))
  }

  ghost predicate Beaten(kept: set<nat>, order: seq<nat>, i: nat, conflict: Conflicts)
    requires i < |order|
  {
    exists j :: 0 <= j < i && order[j] in kept && conflict(order[i], order[j])
  }

  lemma {:induction false} GreedyWithin(order: seq<nat>, conflict: Conflicts)
    ensures forall x :: x in Greedy(order, conflict) ==> x in order
  {
    if |order| != 0 {
      GreedyWithin(order[..|order| - 1], conflict);
    }
  }

  lemma {:induction false} GreedyPrefix(order: seq<nat>, conflict: Conflicts, m: nat)
    requires Distinct(order) && m <= |order|
    ensures forall i :: 0 <= i < m ==>
              (order[i] in Greedy(order, conflict) <==> order[i] in Greedy(order[..m], conflict))
  {
    if m < |order| {
      GreedyPrefix(order[..|order| - 1], conflict, m);
      assert order[..|order| - 1][..m] == order[..m];
    } else {
      assert order[..m] == order;
    }
  }

  lemma {:induction false} GreedyMeetsDefinition(order: seq<nat>, conflict: Conflicts)
    requires Distinct(order)
    ensures IsGreedyChoice(Greedy(order, conflict), order, conflict)
  {
    GreedyWithin(order, conflict);
    forall i | 0 <= i < |order|
      ensures order[i] in Greedy(order, conflict) <==> !Beaten(Greedy(order, conflict), order, i, conflict)
    {
      GreedyAt(order, conflict, i);
    }
  }

  lemma GreedyAt(order: seq<nat>, conflict: Conflicts, i: nat)
    requires Distinct(order) && i < |order|
    ensures order[i] in Greedy(order, conflict) <==> !Beaten(Greedy(order, conflict), order, i, conflict)
  {
    var kept, before := Greedy(order, conflict), Greedy(order[..i], conflict);
    GreedyPrefix(order, conflict, i + 1);
    GreedyPrefix(order, conflict, i);
    GreedyWithin(order[..i], conflict);
    assert order[..i + 1][..i] == order[..i] && order[..i + 1][i] == order[i];
    assert order[i] !in order[..i];
    if y :| y in before && conflict(order[i], y) {
      var j :| 0 <= j < i && order[j] == y;
    }
    if j :| 0 <= j < i && order[j] in kept && conflict(order[i], order[j]) {
      assert order[j] in before;
    }
  }

  /** The greedy choice for an order is unique. */
  lemma {:induction false} GreedyChoiceUnique(a: set<nat>, b: set<nat>, order: seq<nat>, conflict: Conflicts)
    requires IsGreedyChoice(a, order, conflict) && IsGreedyChoice(b, order, conflict)
    ensures a == b
  {
    forall i | 0 <= i < |order|
      ensures order[i] in a <==> order[i] in b
    {
      GreedyChoicesAgree(a, b, order, conflict, i);
    }
  }

  lemma {:induction false} GreedyChoicesAgree(a: set<nat>, b: set<nat>, order: seq<nat>, conflict: Conflicts, i: nat)
    requires IsGreedyChoice(a, order, conflict) && IsGreedyChoice(b, order, conflict) && i < |order|
    ensures order[i] in a <==> order[i] in b
    decreases i
  {
    forall j | 0 <= j < i
      ensures order[j] in a <==> order[j] in b
    {
      GreedyChoicesAgree(a, b, order, conflict, j);
    }
    assert Beaten(a, order, i, conflict) <==> Beaten(b, order, i, conflict);
  }

  lemma {:induction false} NoConflictKeepsAll(order: seq<nat>, conflict: Conflicts)
    requires forall i, j :: 0 <= j < i < |order| ==> !conflict(order[i], order[j])
    ensures forall x :: x in order ==> x in Greedy(order, conflict)
  {
    if |order| != 0 {
      var n := |order| - 1;
      NoConflictKeepsAll(order[..n], conflict);
      GreedyWithin(order[..n], conflict);
      assert order == order[..n] + [order[n]];
      assert order[n] in Greedy(order, conflict);
    }
  }

  // ---------- The candidates ----------

  /** Do the boxes with indices `i` and `j` overlap above the threshold? */
  function Overlaps(locations: seq<Point>, sizes: seq<Size>, threshold: real): Conflicts {
    (i: nat, j: nat) =>
      i < |locations| && i < |sizes| && j < |locations| && j < |sizes| &&
      Iou(locations[i], sizes[i], locations[j], sizes[j]) > threshold
  }

  ghost function Survivors(locations: seq<Point>, sizes: seq<Size>, threshold: real, order: seq<nat>): set<nat> {
    Greedy(order, Overlaps(locations, sizes, threshold))
  }

  /** The elements of `s` at the kept indices, in input order. */
  ghost function Kept<T>(s: seq<T>, keep: set<nat>): seq<T> {
    if |s| == 0 then []
    else
      var n := |s| - 1;
      Kept(s[..n], keep) + if n in keep then [s[n]] else []
  }

  /** No two kept boxes overlap above the threshold. */
  lemma KeptDoNotOverlap(locations: seq<Point>, scores: seq<real>, sizes: seq<Size>, threshold: real,
                         order: seq<nat>, a: nat, b: nat)
    requires |locations| == |scores| == |sizes| && IsDescendingOrder(order, scores)
    requires a in Survivors(locations, sizes, threshold, order) && b in Survivors(locations, sizes, threshold, order)
    requires a != b
    ensures a < |scores| && b < |scores|
    ensures Iou(locations[a], sizes[a], locations[b], sizes[b]) <= threshold
  {
    hide Iou;
    var conflict := Overlaps(locations, sizes, threshold);
    GreedyMeetsDefinition(order, conflict);
    var i :| 0 <= i < |order| && order[i] == a;
    var j :| 0 <= j < |order| && order[j] == b;
    IouSymmetric(locations[a], sizes[a], locations[b], sizes[b]);
    if j < i {
      assert !Beaten(Greedy(order, conflict), order, i, conflict);
    } else {
      assert !Beaten(Greedy(order, conflict), order, j, conflict);
    }
  }

  /** Every suppressed box overlaps a kept box of at least its score. */
  lemma SuppressedOverlapsBetter(locations: seq<Point>, scores: seq<real>, sizes: seq<Size>, threshold: real,
                                 order: seq<nat>, a: nat) returns (better: nat)
    requires |locations| == |scores| == |sizes| && IsDescendingOrder(order, scores)
    requires a < |scores| && a !in Survivors(locations, sizes, threshold, order)
    ensures better < |scores| && better in Survivors(locations, sizes, threshold, order)
    ensures Iou(locations[a], sizes[a], locations[better], sizes[better]) > threshold && scores[better] >= scores[a]
  {
    hide Iou;
    var conflict := Overlaps(locations, sizes, threshold);
    GreedyMeetsDefinition(order, conflict);
    assert a in order;
    var i :| 0 <= i < |order| && order[i] == a;
    assert Beaten(Greedy(order, conflict), order, i, conflict);
    var j :| 0 <= j < i && order[j] in Greedy(order, conflict) && conflict(order[i], order[j]);
    better := order[j];
  }

  /** Some box with the highest score is kept; a single highest box always is. */
  lemma TopIsKept(locations: seq<Point>, scores: seq<real>, sizes: seq<Size>, threshold: real, order: seq<nat>)
    returns (top: nat)
    requires |locations| == |scores| == |sizes| && IsDescendingOrder(order, scores) && |scores| > 0
    ensures top < |scores| && top in Survivors(locations, sizes, threshold, order)
    ensures forall k :: 0 <= k < |scores| ==> scores[k] <= scores[top]
  {
    var conflict := Overlaps(locations, sizes, threshold);
    GreedyMeetsDefinition(order, conflict);
    top := order[0];
    assert !Beaten(Greedy(order, conflict), order, 0, conflict);
    forall k | 0 <= k < |scores|
      ensures scores[k] <= scores[top]
    {
      assert k in order;
      var i :| 0 <= i < |order| && order[i] == k;
    }
  }

  // ---------- Running again ----------

  /** The kept indices in ascending order. */
  ghost function KeptIndices(n: nat, keep: set<nat>): seq<nat> {
    if n == 0 then [] else KeptIndices(n - 1, keep) + if n - 1 in keep then [n - 1] else []
  }

  ghost predicate Rising(ks: seq<nat>) {
    forall i, j :: 0 <= i < j < |ks| ==> ks[i] < ks[j]
  }

  /** Kept elements are the elements at the kept indices, all of them, in input order. */
  lemma {:induction false} KeptByIndex<T>(s: seq<T>, keep: set<nat>)
    ensures var ks := KeptIndices(|s|, keep);
            && |Kept(s, keep)| == |ks| && Rising(ks)
            && (forall a :: 0 <= a < |ks| ==> ks[a] < |s| && ks[a] in keep && Kept(s, keep)[a] == s[ks[a]])
            && (forall k :: 0 <= k < |s| && k in keep ==> k in ks)
  {
    if |s| != 0 {
      hide Kept, KeptIndices, Rising;
      var n := |s| - 1;
      var ks, kept := KeptIndices(n, keep), Kept(s[..n], keep);
      KeptByIndex(s[..n], keep);
      OneMoreKept(s, keep);
      assert Rising(ks + [n]) by { RisingSnoc(ks, n); }
    }
  }

  lemma OneMoreKept<T>(s: seq<T>, keep: set<nat>)
    requires |s| != 0
    ensures var n := |s| - 1;
            && Kept(s, keep) == Kept(s[..n], keep) + (if n in keep then [s[n]] else [])
            && KeptIndices(n + 1, keep) == KeptIndices(n, keep) + (if n in keep then [n] else [])
  {
  }

  lemma RisingSnoc(ks: seq<nat>, n: nat)
    requires Rising(ks) && forall a :: 0 <= a < |ks| ==> ks[a] < n
    ensures Rising(ks + [n])
  {
  }

  lemma {:induction false} KeepEverything<T>(s: seq<T>, keep: set<nat>)
    requires forall k :: 0 <= k < |s| ==> k in keep
    ensures Kept(s, keep) == s
  {
    if |s| != 0 {
      KeepEverything(s[..|s| - 1], keep);
      assert s == s[..|s| - 1] + [s[|s| - 1]];
    }
  }

  lemma KeptAgainDoNotConflict(locations: seq<Point>, scores: seq<real>, sizes: seq<Size>, threshold: real,
                               order: seq<nat>, a: nat, b: nat)
    requires |locations| == |scores| == |sizes| && IsDescendingOrder(order, scores) && a != b
    ensures var keep := Survivors(locations, sizes, threshold, order);
            !Overlaps(Kept(locations, keep), Kept(sizes, keep), threshold)(a, b)
  {
    hide Iou, Kept, Survivors;
    var keep := Survivors(locations, sizes, threshold, order);
    KeptByIndex(locations, keep);
    KeptByIndex(sizes, keep);
    var ks := KeptIndices(|scores|, keep);
    if a < |ks| && b < |ks| {
      assert ks[a] != ks[b];
      KeptDoNotOverlap(locations, scores, sizes, threshold, order, ks[a], ks[b]);
    }
  }

  /** Suppression is idempotent: the kept boxes survive a second run in any descending order. */
  lemma RerunChangesNothing(locations: seq<Point>, scores: seq<real>, sizes: seq<Size>, threshold: real,
                            order: seq<nat>, again: seq<nat>)
    requires |locations| == |scores| == |sizes| && IsDescendingOrder(order, scores)
    requires IsDescendingOrder(again, Kept(scores, Survivors(locations, sizes, threshold, order)))
    ensures var keep := Survivors(locations, sizes, threshold, order);
            var locations', sizes' := Kept(locations, keep), Kept(sizes, keep);
            var keep' := Survivors(locations', sizes', threshold, again);
            && Kept(locations', keep') == locations'
            && Kept(Kept(scores, keep), keep') == Kept(scores, keep)
  {
    hide Iou, Kept, Overlaps;
    var keep := Survivors(locations, sizes, threshold, order);
    var locations', sizes', scores' := Kept(locations, keep), Kept(sizes, keep), Kept(scores, keep);
    KeptByIndex(locations, keep);
    KeptByIndex(scores, keep);
    var conflict' := Overlaps(locations', sizes', threshold);
    forall i, j | 0 <= j < i < |again|
      ensures !conflict'(again[i], again[j])
    {
      KeptAgainDoNotConflict(locations, scores, sizes, threshold, order, again[i], again[j]);
    }
    NoConflictKeepsAll(again, conflict');
    KeepEverything(locations', Greedy(again, conflict'));
    KeepEverything(scores', Greedy(again, conflict'));
  }

  // ---------- Independence of the input order ----------

  datatype Candidate = Candidate(location: Point, size: Size, score: real)

  ghost predicate Outranks(y: Candidate, x: Candidate, threshold: real) {
    y.score > x.score && Iou(x.location, x.size, y.location, y.size) > threshold
  }

  /** A choice of candidates that refers to scores only, not to any order of visiting them. */
  ghost predicate IsChoiceByScore(chosen: set<Candidate>, all: set<Candidate>, threshold: real) {
    forall x :: x in chosen <==> x in all && !(exists y :: y in chosen && Outranks(y, x, threshold))
  }

  ghost function Above(all: set<Candidate>, x: Candidate): set<Candidate> {
    set y | y in all && y.score > x.score
  }

  lemma SmallerAbove(all: set<Candidate>, x: Candidate, y: Candidate)
    requires y in all && y.score > x.score
    ensures |Above(all, y)| < |Above(all, x)|
  {
    var a, b := Above(all, y), Above(all, x);
    assert a <= b - {y};
    assert b == (b - {y}) + {y};
    assert b - {y} == a + (b - {y} - a);
  }

  lemma {:induction false} ChoiceByScoreUnique(a: set<Candidate>, b: set<Candidate>, all: set<Candidate>,
                                               threshold: real, x: Candidate)
    requires IsChoiceByScore(a, all, threshold) && IsChoiceByScore(b, all, threshold)
    ensures x in a <==> x in b
    decreases |Above(all, x)|
  {
    hide Iou;
    forall y | y in all && y.score > x.score
      ensures y in a <==> y in b
    {
      SmallerAbove(all, x, y);
      ChoiceByScoreUnique(a, b, all, threshold, y);
    }
  }

  ghost function CandidateAt(locations: seq<Point>, scores: seq<real>, sizes: seq<Size>, i: nat): Candidate
    requires |locations| == |scores| == |sizes| && i < |scores|
  {
    Candidate(locations[i], sizes[i], scores[i])
  }

  ghost function Candidates(locations: seq<Point>, scores: seq<real>, sizes: seq<Size>): set<Candidate>
    requires |locations| == |scores| == |sizes|
  {
    set i | 0 <= i < |scores| :: CandidateAt(locations, scores, sizes, i)
  }

  ghost function KeptCandidates(locations: seq<Point>, scores: seq<real>, sizes: seq<Size>, threshold: real,
                                order: seq<nat>): set<Candidate>
    requires |locations| == |scores| == |sizes|
  {
    set i | 0 <= i < |scores| && i in Survivors(locations, sizes, threshold, order)
      :: CandidateAt(locations, scores, sizes, i)
  }

  lemma KeptAreChosenByScore(locations: seq<Point>, scores: seq<real>, sizes: seq<Size>, threshold: real,
                             order: seq<nat>)
    requires |locations| == |scores| == |sizes| && IsDescendingOrder(order, scores) && Distinct(scores)
    ensures IsChoiceByScore(KeptCandidates(locations, scores, sizes, threshold, order),
                            Candidates(locations, scores, sizes), threshold)
  {
    hide Iou;
    var chosen := KeptCandidates(locations, scores, sizes, threshold, order);
    forall i | 0 <= i < |scores|
      ensures CandidateAt(locations, scores, sizes, i) in chosen <==>
              !(exists y :: y in chosen && Outranks(y, CandidateAt(locations, scores, sizes, i), threshold))
    {
      var x := CandidateAt(locations, scores, sizes, i);
      if i in Survivors(locations, sizes, threshold, order) {
        assert x in chosen;
        forall y | y in chosen && y.score > x.score
          ensures !Outranks(y, x, threshold)
        {
          var j :| 0 <= j < |scores| && j in Survivors(locations, sizes, threshold, order) &&
                   CandidateAt(locations, scores, sizes, j) == y;
          KeptDoNotOverlap(locations, scores, sizes, threshold, order, i, j);
        }
      } else {
        var better := SuppressedOverlapsBetter(locations, scores, sizes, threshold, order, i);
        assert better != i;
        assert CandidateAt(locations, scores, sizes, better) in chosen;
        assert Outranks(CandidateAt(locations, scores, sizes, better), x, threshold);
        if x in chosen {
          var j :| 0 <= j < |scores| && j in Survivors(locations, sizes, threshold, order) &&
                   CandidateAt(locations, scores, sizes, j) == x;
          assert false;
        }
      }
    }
  }

  /** With distinct scores the kept boxes do not depend on the order of the input. */
  lemma InputOrderIrrelevant(locations: seq<Point>, scores: seq<real>, sizes: seq<Size>, order: seq<nat>,
                             locations': seq<Point>, scores': seq<real>, sizes': seq<Size>, order': seq<nat>,
                             threshold: real)
    requires |locations| == |scores| == |sizes| && IsDescendingOrder(order, scores) && Distinct(scores)
    requires |locations'| == |scores'| == |sizes'| && IsDescendingOrder(order', scores') && Distinct(scores')
    requires Candidates(locations, scores, sizes) == Candidates(locations', scores', sizes')
    ensures KeptCandidates(locations, scores, sizes, threshold, order) ==
            KeptCandidates(locations', scores', sizes', threshold, order')
  {
    hide Iou, KeptCandidates, IsChoiceByScore;
    var all := Candidates(locations, scores, sizes);
    var a := KeptCandidates(locations, scores, sizes, threshold, order);
    var b := KeptCandidates(locations', scores', sizes', threshold, order');
    KeptAreChosenByScore(locations, scores, sizes, threshold, order);
    KeptAreChosenByScore(locations', scores', sizes', threshold, order');
    forall x: Candidate
      ensures x in a <==> x in b
    {
      ChoiceByScoreUnique(a, b, all, threshold, x);
    }
  }

  // ---------- The code ----------

  method NonMaximumSuppression(locations: seq<Point>, scores: seq<real>, sizes: seq<Size>, threshold: real,
                               order: seq<nat>) returns (keptLocations: seq<Point>, keptScores: seq<real>)
    requires |locations| == |scores| == |sizes| ==> IsDescendingOrder(order, scores)
    ensures |locations| == 0 || |scores| == 0 || |sizes| == 0 ==> keptLocations == [] && keptScores == []
    ensures |locations| != 0 && |scores| != 0 && |sizes| != 0 && !(|locations| == |scores| == |sizes|) ==>
              keptLocations == locations && keptScores == scores
    ensures |locations| == |scores| == |sizes| ==>
              && keptLocations == Kept(locations, Survivors(locations, sizes, threshold, order))
              && keptScores == Kept(scores, Survivors(locations, sizes, threshold, order))
  {
    hide Iou;
    if |locations| == 0 || |scores| == 0 || |sizes| == 0 {
      return [], [];
    }
    if |locations| != |scores| || |locations| != |sizes| {
      return locations, scores;
    }
    ghost var conflict := Overlaps(locations, sizes, threshold);
    ghost var keep := Greedy(order, conflict);
    var keepMask := SuppressedMask(locations, scores, sizes, threshold, order);
    keptLocations, keptScores := [], [];
    for i := 0 to |locations|
      invariant keptLocations == Kept(locations[..i], keep) && keptScores == Kept(scores[..i], keep)
    {
      assert locations[..i + 1][..i] == locations[..i] && scores[..i + 1][..i] == scores[..i];
      if keepMask[i] {
        keptLocations, keptScores := keptLocations + [locations[i]], keptScores + [scores[i]];
      }
    }
    assert locations[..|locations|] == locations && scores[..|scores|] == scores;
  }

  /** The nested loops over the sorted indices. */
  method SuppressedMask(locations: seq<Point>, scores: seq<real>, sizes: seq<Size>, threshold: real, order: seq<nat>)
    returns (keepMask: array<bool>)
    requires |locations| == |scores| == |sizes| && IsDescendingOrder(order, scores)
    ensures fresh(keepMask) && keepMask.Length == |locations|
    ensures forall k :: 0 <= k < |locations| ==>
              (keepMask[k] <==> k in Greedy(order, Overlaps(locations, sizes, threshold)))
  {
    hide Iou, Greedy;
    keepMask := new bool[|locations|](_ => true);
    ghost var conflict := Overlaps(locations, sizes, threshold);
    ghost var keep := Greedy(order, conflict);
    GreedyMeetsDefinition(order, conflict);
    for i := 0 to |order|
      invariant forall k :: 0 <= k < i ==> (keepMask[order[k]] <==> order[k] in keep)
      invariant forall k :: i <= k < |order| ==> keepMask[order[k]]
    {
      var idx := order[i];
      if keepMask[idx] {
        for p := 0 to i
          invariant keepMask[idx]
          invariant forall k :: 0 <= k < i ==> (keepMask[order[k]] <==> order[k] in keep)
          invariant forall k :: i <= k < |order| ==> keepMask[order[k]]
          invariant forall k :: 0 <= k < p ==> !(order[k] in keep && conflict(idx, order[k]))
        {
          var prevIdx := order[p];
          if !keepMask[prevIdx] {
            continue;
          }
          if Iou(locations[idx], sizes[idx], locations[prevIdx], sizes[prevIdx]) > threshold {
            keepMask[idx] := false;
            assert Beaten(keep, order, i, conflict);
            break;
          }
        }
      }
    }
    forall k | 0 <= k < |locations|
      ensures keepMask[k] <==> k in keep
    {
      assert k in order;
    }
  }
}
