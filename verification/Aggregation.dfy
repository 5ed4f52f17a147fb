/**
  `_aggregate_matches`: suppression over all detection methods, grouping of all raw matches by
  surviving location, then one row per survivor with the best score and every contributing
  method there, sorted and limited.
*/
module Aggregation {
  import opened Common
  import opened Boxes
  import opened Sorting
  import opened Suppression

  /** One raw detection; `weighted` is the similarity times the weight of its method. */
  datatype Match = Match(location: Point, source: string, scale: real, size: Size, weighted: real)

  datatype Row = Row(location: Point, score: real, primary: string, contributing: set<string>)

  datatype Report = Report(
    locations: seq<Point>,
    similarities: seq<real>,
    methods: seq<string>,
    contributing: seq<set<string>>,
    methodUsed: string)

  const NMS_OVERLAP_THRESHOLD := 0.5
  const SIFT_NORMALIZATION_THRESHOLD := 20.0

  // ---------- Scores and sizes ----------

  function NormalizeSimilarity(similarity: real, source: string): real {
    if source == "sift" then
      if similarity / SIFT_NORMALIZATION_THRESHOLD < 1.0 then similarity / SIFT_NORMALIZATION_THRESHOLD else 1.0
    else similarity
  }

  function MethodWeight(source: string): real {
    match source
    case "canny_edge" => 1.0
    case "multiscale_template" => 0.95
    case "sift" => 0.90
    case "orb" => 0.85
    case "template" => 0.80
    case _ => 0.8
  }

  /**
    The known methods are a twentieth apart, edge detection first at 1, and anything else weighs as
    much as the last.
  */
  lemma WeightsByRank(ranked: seq<string>, source: string)
    requires ranked == ["canny_edge", "multiscale_template", "sift", "orb", "template"]
    ensures forall i :: 0 <= i < 5 ==> MethodWeight(ranked[i]) == 1.0 - 0.05 * i as real
    ensures source !in ranked ==> MethodWeight(source) == MethodWeight(ranked[4])
  {
  }

  /** Weighted scores stay in 0..1 when a match count is not negative and every other similarity is in 0..1. */
  lemma WeightedScoreRange(similarity: real, source: string)
    requires 0.0 <= similarity && (source != "sift" ==> similarity <= 1.0)
    ensures 0.0 <= NormalizeSimilarity(similarity, source) * MethodWeight(source) <= MethodWeight(source) <= 1.0
  {
    var n, w := NormalizeSimilarity(similarity, source), MethodWeight(source);
    assert 0.0 <= n <= 1.0 && 0.0 <= w <= 1.0;
    assert n * w <= 1.0 * w;
  }

  /** Python's `int` of a float: truncation towards zero. */
  function Truncate(r: real): int {
    if r >= 0.0 then r.Floor else -((-r).Floor)
  }

  function EstimateMatchSize(scale: real, iconSize: Size): Size {
    Size(Truncate(iconSize.width as real * scale), Truncate(iconSize.height as real * scale))
  }

  function MatchSize(m: Match, iconSize: Size): Size {
    if m.size != Size(0, 0) then m.size else EstimateMatchSize(m.scale, iconSize)
  }

  /**
    A detection with a size keeps it.  Without one, each side of the icon is scaled and rounded towards
    zero: the largest whole number within the scaled side, or for a negative product the least above it.
  */
  lemma SizeOfMatch(m: Match, iconSize: Size)
    ensures m.size != Size(0, 0) ==> MatchSize(m, iconSize) == m.size
    ensures m.size == Size(0, 0) ==>
              && TowardsZero(MatchSize(m, iconSize).width, iconSize.width as real * m.scale)
              && TowardsZero(MatchSize(m, iconSize).height, iconSize.height as real * m.scale)
  {
  }

  predicate TowardsZero(n: int, r: real) {
    (r >= 0.0 ==> n as real <= r < n as real + 1.0) && (r < 0.0 ==> n as real - 1.0 < r <= n as real)
  }

  /** A match count becomes a similarity that grows in twentieths up to 1; every other similarity stays. */
  lemma CountsBecomeTwentieths(similarity: real, source: string)
    ensures source != "sift" ==> NormalizeSimilarity(similarity, source) == similarity
    ensures source == "sift" && similarity >= 20.0 ==> NormalizeSimilarity(similarity, source) == 1.0
    ensures source == "sift" && similarity < 20.0 ==> 20.0 * NormalizeSimilarity(similarity, source) == similarity
  {
  }

  function Locations(all: seq<Match>): seq<Point> { seq(|all|, i requires 0 <= i < |all| => all[i].location) }

  function Scores(all: seq<Match>): seq<real> { seq(|all|, i requires 0 <= i < |all| => all[i].weighted) }

  function Sizes(all: seq<Match>, iconSize: Size): seq<Size> {
    seq(|all|, i requires 0 <= i < |all| => MatchSize(all[i], iconSize))
  }

  // ---------- Rows ----------

  const byScore: Match -> real := (m: Match) => -m.weighted
  const rowByScore: Row -> real := (r: Row) => -r.score

  /** The raw matches at a location, in input order. */
  function AtLocation(all: seq<Match>, location: Point): seq<Match> {
    if |all| == 0 then []
    else
      var n := |all| - 1;
      AtLocation(all[..n], location) + if all[n].location == location then [all[n]] else []
  }

  function RowFor(location: Point, best: seq<Match>): Row
    requires |best| > 0
  {
    Row(location, best[0].weighted, best[0].source, set m | m in best :: m.source)
  }

  /** One row for every surviving location, in the order of the survivors. */
  function RowsFor(all: seq<Match>, kept: seq<Point>): seq<Row> {
    if |kept| == 0 then []
    else
      var n := |kept| - 1;
      var best := Sorted(AtLocation(all, kept[n]), byScore);
      RowsFor(all, kept[..n]) + if |best| == 0 then [] else [RowFor(kept[n], best)]
  }

  /** The locations suppression keeps. */
  ghost function KeptLocations(all: seq<Match>, iconSize: Size, order: seq<nat>): seq<Point> {
    Kept(Locations(all), Survivors(Locations(all), Sizes(all, iconSize), NMS_OVERLAP_THRESHOLD, order))
  }

  /** All rows, best first, before the limit. */
  ghost function Ranking(all: seq<Match>, iconSize: Size, order: seq<nat>): seq<Row> {
    Sorted(RowsFor(all, KeptLocations(all, iconSize, order)), rowByScore)
  }

  function Limited(rows: seq<Row>, maxResults: int): seq<Row> {
    if maxResults != 0 && |rows| > maxResults then Prefix(rows, maxResults) else rows
  }

  function MethodUsed(rows: seq<Row>): string {
    if |set r | r in rows :: r.primary| == 1 then rows[0].primary else "aggregated"
  }

  /** The report lists exactly these rows, column by column. */
  ghost predicate Lists(r: Report, rows: seq<Row>) {
    && |r.locations| == |r.similarities| == |r.methods| == |r.contributing| == |rows|
    && forall i :: 0 <= i < |rows| ==>
         Row(r.locations[i], r.similarities[i], r.methods[i], r.contributing[i]) == rows[i]
  }

  // ---------- What a row says ----------

  lemma {:induction false} AtLocationMembers(all: seq<Match>, location: Point)
    ensures forall m :: m in AtLocation(all, location) <==> m in all && m.location == location
  {
    if |all| != 0 {
      AtLocationMembers(all[..|all| - 1], location);
      assert all == all[..|all| - 1] + [all[|all| - 1]];
    }
  }

  /** They are all the raw matches there, each as often as it occurs, in the order of the input. */
  lemma {:induction false} AtLocationByIndex(all: seq<Match>, location: Point)
    ensures AtLocation(all, location) == Kept(all, set i | 0 <= i < |all| && all[i].location == location)
  {
    if |all| != 0 {
      var n := |all| - 1;
      AtLocationByIndex(all[..n], location);
      KeptDependsOnIndices(all[..n], set i | 0 <= i < n && all[..n][i].location == location,
                           set i | 0 <= i < |all| && all[i].location == location);
    }
  }

  lemma {:induction false} KeptDependsOnIndices(all: seq<Match>, a: set<nat>, b: set<nat>)
    requires forall i :: 0 <= i < |all| ==> (i in a <==> i in b)
    ensures Kept(all, a) == Kept(all, b)
  {
    if |all| != 0 {
      KeptDependsOnIndices(all[..|all| - 1], a, b);
    }
  }

  /** `all[i]` is the earliest match with the best score at its location. */
  ghost predicate EarliestBest(all: seq<Match>, i: nat) {
    && i < |all|
    && (forall k :: 0 <= k < i && all[k].location == all[i].location ==> all[k].weighted < all[i].weighted)
    && (forall k :: i <= k < |all| && all[k].location == all[i].location ==> all[k].weighted <= all[i].weighted)
  }

  /**
    `row` reports the best score among all raw matches at its location, suppressed or not, the
    method of the earliest match with that score, and exactly the methods seen there.
  */
  ghost predicate Exact(row: Row, all: seq<Match>) {
    && (exists i: nat :: EarliestBest(all, i) && all[i].location == row.location && all[i].weighted == row.score &&
                    all[i].source == row.primary)
    && (forall m :: m in all && m.location == row.location ==> m.weighted <= row.score)
    && (forall s :: s in row.contributing <==> exists m :: m in all && m.location == row.location && m.source == s)
  }

  lemma {:induction false} FindEarliestBest(all: seq<Match>, location: Point) returns (i: nat, f: nat)
    requires |AtLocation(all, location)| > 0
    ensures EarliestBest(all, i) && all[i].location == location
    ensures f < |AtLocation(all, location)| && AtLocation(all, location)[f] == all[i]
    ensures forall k :: 0 <= k < f ==> AtLocation(all, location)[k].weighted < all[i].weighted
    ensures forall k :: 0 <= k < |AtLocation(all, location)| ==>
              AtLocation(all, location)[k].weighted <= all[i].weighted
  {
    var n := |all| - 1;
    var before := AtLocation(all[..n], location);
    if |before| == 0 {
      AtLocationMembers(all[..n], location);
      forall k | 0 <= k < n
        ensures all[k].location != location
      {
        assert all[k] in all[..n];
      }
      i, f := n, 0;
    } else {
      i, f := FindEarliestBest(all[..n], location);
      assert forall k :: 0 <= k < n ==> all[..n][k] == all[k];
      if all[n].location == location && all[n].weighted > all[i].weighted {
        i, f := n, |before|;
      }
    }
  }

  lemma RowForIsExact(all: seq<Match>, location: Point)
    requires |AtLocation(all, location)| > 0
    ensures |Sorted(AtLocation(all, location), byScore)| > 0
    ensures Exact(RowFor(location, Sorted(AtLocation(all, location), byScore)), all)
  {
    hide Sorted, AtLocation, EarliestBest;
    var here := AtLocation(all, location);
    SortedIsPermutation(here, byScore);
    AtLocationMembers(all, location);
    var i, f := FindEarliestBest(all, location);
    SortedHead(here, byScore, f);
    forall m | m in all && m.location == location
      ensures m.weighted <= all[i].weighted
    {
      assert m in here;
    }
    MethodsOf(location, here, byScore);
  }

  lemma MethodsOf(location: Point, here: seq<Match>, key: Match -> real)
    requires |Sorted(here, key)| > 0
    ensures forall s :: s in RowFor(location, Sorted(here, key)).contributing <==>
                        exists m :: m in here && m.source == s
  {
    SortedIsPermutation(here, key);
    var best := Sorted(here, key);
    forall s | exists m :: m in here && m.source == s
      ensures s in RowFor(location, best).contributing
    {
      var m :| m in here && m.source == s;
      assert m in best;
    }
  }

  lemma {:induction false} RowsForMembers(all: seq<Match>, kept: seq<Point>)
    ensures forall r :: r in RowsFor(all, kept) ==> r.location in kept && Exact(r, all)
    ensures forall m :: m in all && m.location in kept ==>
              exists r :: r in RowsFor(all, kept) && r.location == m.location
  {
    hide Sorted, Exact, RowFor;
    if |kept| != 0 {
      var n := |kept| - 1;
      var loc := kept[n];
      RowsForMembers(all, kept[..n]);
      assert kept == kept[..n] + [loc];
      AtLocationMembers(all, loc);
      OneRow(all, loc);
      forall m | m in all && m.location in kept
        ensures exists r :: r in RowsFor(all, kept) && r.location == m.location
      {
        if m.location == loc {
          assert m in AtLocation(all, loc);
          var row := RowFor(loc, Sorted(AtLocation(all, loc), byScore));
          assert row in RowsFor(all, kept);
        } else {
          assert m.location in kept[..n];
          var r :| r in RowsFor(all, kept[..n]) && r.location == m.location;
          assert r in RowsFor(all, kept);
        }
      }
    }
  }

  lemma OneRow(all: seq<Match>, location: Point)
    ensures |Sorted(AtLocation(all, location), byScore)| == |AtLocation(all, location)|
    ensures |AtLocation(all, location)| > 0 ==>
              var row := RowFor(location, Sorted(AtLocation(all, location), byScore));
              row.location == location && Exact(row, all)
  {
    SortedIsPermutation(AtLocation(all, location), byScore);
    if |AtLocation(all, location)| > 0 {
      RowForIsExact(all, location);
    }
  }

  // ---------- The theorems ----------

  lemma RankingMembers(all: seq<Match>, iconSize: Size, order: seq<nat>)
    ensures forall r :: r in Ranking(all, iconSize, order) ==>
              r.location in KeptLocations(all, iconSize, order) && Exact(r, all)
    ensures forall m :: m in all && m.location in KeptLocations(all, iconSize, order) ==>
              exists r :: r in Ranking(all, iconSize, order) && r.location == m.location
  {
    hide Exact, Sorted;
    var kept := KeptLocations(all, iconSize, order);
    RowsForMembers(all, kept);
    SortedIsPermutation(RowsFor(all, kept), rowByScore);
    forall m | m in all && m.location in kept
      ensures exists r :: r in Ranking(all, iconSize, order) && r.location == m.location
    {
      var r :| r in RowsFor(all, kept) && r.location == m.location;
      assert r in Ranking(all, iconSize, order);
    }
  }

  /** Every reported row is exact: its score and methods cover all raw matches at its location. */
  lemma RankedRowsAreExact(all: seq<Match>, iconSize: Size, order: seq<nat>, row: Row)
    requires row in Ranking(all, iconSize, order)
    ensures Exact(row, all)
  {
    hide Exact, Ranking;
    RankingMembers(all, iconSize, order);
  }

  ghost predicate Reported(rows: seq<Row>, location: Point) {
    exists r :: r in rows && r.location == location
  }

  lemma SurvivorIsReported(all: seq<Match>, iconSize: Size, order: seq<nat>, i: nat)
    requires IsDescendingOrder(order, Scores(all)) && i < |all|
    requires i in Survivors(Locations(all), Sizes(all, iconSize), NMS_OVERLAP_THRESHOLD, order)
    ensures Reported(Ranking(all, iconSize, order), all[i].location)
  {
    hide Exact, Ranking, Survivors;
    var keep := Survivors(Locations(all), Sizes(all, iconSize), NMS_OVERLAP_THRESHOLD, order);
    KeptByIndex(Locations(all), keep);
    var ks := KeptIndices(|all|, keep);
    var a :| 0 <= a < |ks| && ks[a] == i;
    assert KeptLocations(all, iconSize, order)[a] == all[i].location;
    RankingMembers(all, iconSize, order);
    assert all[i] in all;
  }

  /**
    Nothing is lost silently: each raw match is reported, or a reported location holds a better match
    overlapping it.
  */
  lemma EveryMatchIsAccountedFor(all: seq<Match>, iconSize: Size, order: seq<nat>, i: nat)
    requires IsDescendingOrder(order, Scores(all)) && i < |all|
    ensures Reported(Ranking(all, iconSize, order), all[i].location) ||
            exists j :: 0 <= j < |all| && all[j].weighted >= all[i].weighted &&
                        Iou(all[i].location, MatchSize(all[i], iconSize),
                            all[j].location, MatchSize(all[j], iconSize)) > 0.5 &&
                        Reported(Ranking(all, iconSize, order), all[j].location)
  {
    hide Iou, Ranking, Reported, Survivors;
    var locations, scores, sizes := Locations(all), Scores(all), Sizes(all, iconSize);
    if i in Survivors(locations, sizes, NMS_OVERLAP_THRESHOLD, order) {
      SurvivorIsReported(all, iconSize, order, i);
    } else {
      var j := SuppressedOverlapsBetter(locations, scores, sizes, NMS_OVERLAP_THRESHOLD, order, i);
      SurvivorIsReported(all, iconSize, order, j);
    }
  }

  /** What suppression keeps overlaps by half at most, and it is what the rows are made for. */
  lemma KeptOverlapByHalfAtMost(all: seq<Match>, iconSize: Size, order: seq<nat>, i: nat, j: nat)
    requires IsDescendingOrder(order, Scores(all)) && i < |all| && j < |all| && i != j
    ensures var keep := Survivors(Locations(all), Sizes(all, iconSize), 0.5, order);
            && KeptLocations(all, iconSize, order) == Kept(Locations(all), keep)
            && (i in keep && j in keep ==>
                  Iou(all[i].location, MatchSize(all[i], iconSize),
                      all[j].location, MatchSize(all[j], iconSize)) <= 0.5)
  {
    hide Iou, Survivors;
    var keep := Survivors(Locations(all), Sizes(all, iconSize), 0.5, order);
    if i in keep && j in keep {
      KeptDoNotOverlap(Locations(all), Scores(all), Sizes(all, iconSize), 0.5, order, i, j);
    }
  }

  lemma RankingDescends(all: seq<Match>, iconSize: Size, order: seq<nat>)
    ensures var rows := Ranking(all, iconSize, order);
            forall i, j :: 0 <= i < j < |rows| ==> rows[i].score >= rows[j].score
  {
    hide Sorted;
    var rows := Ranking(all, iconSize, order);
    SortedIsPermutation(RowsFor(all, KeptLocations(all, iconSize, order)), rowByScore);
    forall i, j | 0 <= i < j < |rows|
      ensures rows[i].score >= rows[j].score
    {
      assert rowByScore(rows[i]) <= rowByScore(rows[j]);
    }
  }

  /** The ranking is descending, never empty for a non-empty input, and starts with the best raw score of all. */
  lemma RankingStartsWithTheBest(all: seq<Match>, iconSize: Size, order: seq<nat>)
    requires IsDescendingOrder(order, Scores(all)) && |all| > 0
    ensures var rows := Ranking(all, iconSize, order);
            && |rows| > 0
            && (forall i, j :: 0 <= i < j < |rows| ==> rows[i].score >= rows[j].score)
            && (forall m :: m in all ==> m.weighted <= rows[0].score)
            && (exists m :: m in all && m.weighted == rows[0].score && m.location == rows[0].location)
  {
    hide Ranking, Iou, Survivors;
    var rows := Ranking(all, iconSize, order);
    RankingDescends(all, iconSize, order);
    var top := TopIsKept(Locations(all), Scores(all), Sizes(all, iconSize), NMS_OVERLAP_THRESHOLD, order);
    SurvivorIsReported(all, iconSize, order, top);
    var r :| r in rows && r.location == all[top].location;
    RankedRowsAreExact(all, iconSize, order, r);
    RankedRowsAreExact(all, iconSize, order, rows[0]);
    assert all[top] in all;
    var best: nat :| EarliestBest(all, best) && all[best].location == rows[0].location &&
                     all[best].weighted == rows[0].score;
    assert all[best] in all;
    var k :| 0 <= k < |rows| && rows[k] == r;
    assert rows[0].score >= all[top].weighted;
    forall m | m in all
      ensures m.weighted <= rows[0].score
    {
      var i :| 0 <= i < |all| && all[i] == m;
      assert Scores(all)[i] <= Scores(all)[top];
    }
  }

  function RowLocations(rows: seq<Row>): seq<Point> {
    if |rows| == 0 then [] else RowLocations(rows[..|rows| - 1]) + [rows[|rows| - 1].location]
  }

  /** The reported locations are the survivors' locations, each as often as it survived. */
  lemma ReportedLocationsAreTheSurvivors(all: seq<Match>, iconSize: Size, order: seq<nat>)
    ensures multiset(RowLocations(Ranking(all, iconSize, order))) == multiset(KeptLocations(all, iconSize, order))
  {
    hide Sorted, Exact, Survivors;
    var keep := Survivors(Locations(all), Sizes(all, iconSize), NMS_OVERLAP_THRESHOLD, order);
    var kept := KeptLocations(all, iconSize, order);
    KeptByIndex(Locations(all), keep);
    var ks := KeptIndices(|all|, keep);
    forall a | 0 <= a < |kept|
      ensures Occurs(all, kept[a])
    {
      assert all[ks[a]] in all && all[ks[a]].location == kept[a];
    }
    OneRowEach(all, kept);
    SortKeepsLocations(RowsFor(all, kept), rowByScore);
  }

  lemma LocationsOfOneMore(t: seq<Row>, x: Row)
    ensures RowLocations(t + [x]) == RowLocations(t) + [x.location]
  {
    assert (t + [x])[..|t|] == t;
  }

  lemma {:induction false} InsertKeepsLocations(t: seq<Row>, x: Row, key: Row -> real)
    ensures multiset(RowLocations(InsertSorted(t, x, key))) == multiset(RowLocations(t)) + multiset{x.location}
  {
    if |t| == 0 || key(t[|t| - 1]) <= key(x) {
      InsertAtEnd(t, x, key);
      LocationsOfOneMore(t, x);
    } else {
      hide RowLocations;
      var init, last := t[..|t| - 1], t[|t| - 1];
      InsertKeepsLocations(init, x, key);
      LocationsOfOneMore(init, last);
      LocationsOfOneMore(InsertSorted(init, x, key), last);
      assert t == init + [last];
    }
  }

  lemma {:induction false} SortKeepsLocations(rows: seq<Row>, key: Row -> real)
    ensures multiset(RowLocations(Sorted(rows, key))) == multiset(RowLocations(rows))
  {
    if |rows| != 0 {
      hide InsertSorted;
      SortKeepsLocations(rows[..|rows| - 1], key);
      InsertKeepsLocations(Sorted(rows[..|rows| - 1], key), rows[|rows| - 1], key);
    }
  }

  ghost predicate Occurs(all: seq<Match>, location: Point) {
    exists m :: m in all && m.location == location
  }

  lemma {:induction false} OneRowEach(all: seq<Match>, kept: seq<Point>)
    requires forall a :: 0 <= a < |kept| ==> Occurs(all, kept[a])
    ensures RowLocations(RowsFor(all, kept)) == kept
  {
    if |kept| != 0 {
      hide RowsFor, RowLocations, Occurs;
      var n := |kept| - 1;
      assert kept[..n] + [kept[n]] == kept;
      OneRowEach(all, kept[..n]);
      OneMoreRow(all, kept[..n], kept[n]);
    }
  }

  lemma OneMoreRow(all: seq<Match>, kept: seq<Point>, location: Point)
    requires Occurs(all, location)
    ensures RowLocations(RowsFor(all, kept + [location])) == RowLocations(RowsFor(all, kept)) + [location]
  {
    hide Sorted, RowFor, AtLocation, Occurs, RowLocations;
    HasRow(all, location);
    assert (kept + [location])[..|kept|] == kept;
    LocationsOfOneMore(RowsFor(all, kept), RowFor(location, Sorted(AtLocation(all, location), byScore)));
  }

  lemma HasRow(all: seq<Match>, location: Point)
    requires Occurs(all, location)
    ensures |Sorted(AtLocation(all, location), byScore)| > 0
    ensures RowFor(location, Sorted(AtLocation(all, location), byScore)).location == location
  {
    hide Sorted, Exact, RowFor, AtLocation;
    AtLocationMembers(all, location);
    OneRow(all, location);
    var m :| m in all && m.location == location;
    assert m in AtLocation(all, location);
  }

  /** A positive limit keeps the best rows, zero means no limit, and a negative one drops that many of the worst. */
  lemma LimitKeepsTheBest(all: seq<Match>, iconSize: Size, order: seq<nat>, maxResults: int)
    ensures var rows := Ranking(all, iconSize, order);
            var limited := Limited(rows, maxResults);
            && limited <= rows
            && (maxResults == 0 ==> limited == rows)
            && (maxResults > 0 ==> |limited| == if |rows| <= maxResults then |rows| else maxResults)
            && (maxResults < 0 ==> |limited| == if |rows| + maxResults >= 0 then |rows| + maxResults else 0)
            && (forall i, j :: 0 <= i < |limited| <= j < |rows| ==> limited[i].score >= rows[j].score)
  {
    RankingDescends(all, iconSize, order);
  }

  /** Rows of equal score stay in the order of the survivors. */
  lemma TiesKeepOrder(all: seq<Match>, iconSize: Size, order: seq<nat>, score: real)
    ensures WithKey(Ranking(all, iconSize, order), rowByScore, -score) ==
            WithKey(RowsFor(all, KeptLocations(all, iconSize, order)), rowByScore, -score)
  {
    hide Sorted, WithKey, RowsFor, KeptLocations;
    SortedIsStable(RowsFor(all, KeptLocations(all, iconSize, order)), rowByScore, -score);
  }

  /** Without rows there is no common method. */
  lemma NoRowsNoMethod()
    ensures MethodUsed([]) == "aggregated"
  {
  }

  /** The method named for the whole report is the one all rows share, if they do share one. */
  lemma MethodUsedIsTheCommonOne(rows: seq<Row>, common: string)
    requires |rows| > 0
    ensures (forall r :: r in rows ==> r.primary == common) ==> MethodUsed(rows) == common
    ensures MethodUsed(rows) == common && common != "aggregated" ==> forall r :: r in rows ==> r.primary == common
  {
    var primaries := set r | r in rows :: r.primary;
    var first := rows[0].primary;
    assert first in primaries;
    if forall r :: r in rows ==> r.primary == common {
      assert primaries == {common};
    } else if |primaries| == 1 {
      assert |primaries - {first}| == 0;
      assert forall r :: r in rows ==> r.primary in primaries;
    }
  }

  // ---------- The code ----------

  method AggregateMatches(all: seq<Match>, maxResults: int, iconSize: Size, order: seq<nat>) returns (r: Report)
    requires IsDescendingOrder(order, Scores(all))
    ensures |all| == 0 ==> r == Report([], [], [], [], "no_matches")
    ensures |all| > 0 ==>
              var rows := Limited(Ranking(all, iconSize, order), maxResults);
              Lists(r, rows) && r.methodUsed == MethodUsed(rows)
  {
    hide Survivors, Sorted, Exact, RowFor;
    if |all| == 0 {
      return Report([], [], [], [], "no_matches");
    }
    var keptLocations, keptScores :=
      NonMaximumSuppression(Locations(all), Scores(all), Sizes(all, iconSize), NMS_OVERLAP_THRESHOLD, order);
    assert keptLocations == KeptLocations(all, iconSize, order);
    // The code answers "all_suppressed" when nothing survives; that cannot happen.
    assert |keptLocations| > 0 by { SomethingSurvives(all, iconSize, order); }
    var groups := GroupByLocation(all, keptLocations);
    var unsorted := BuildRows(all, keptLocations, groups);
    var ranked := Sorted(unsorted, rowByScore);
    var rows: seq<Row> := if maxResults != 0 && |ranked| > maxResults then Prefix(ranked, maxResults) else ranked;
    var methods := set row | row in rows :: row.primary;
    var methodUsed := if |methods| == 1 then rows[0].primary else "aggregated";
    r := Report(
      seq(|rows|, i requires 0 <= i < |rows| => rows[i].location),
      seq(|rows|, i requires 0 <= i < |rows| => rows[i].score),
      seq(|rows|, i requires 0 <= i < |rows| => rows[i].primary),
      seq(|rows|, i requires 0 <= i < |rows| => rows[i].contributing),
      methodUsed);
  }

  /** Suppression never drops everything, so the `all_suppressed` answer of the code cannot occur. */
  lemma SomethingSurvives(all: seq<Match>, iconSize: Size, order: seq<nat>)
    requires IsDescendingOrder(order, Scores(all)) && |all| > 0
    ensures |KeptLocations(all, iconSize, order)| > 0
  {
    var keep := Survivors(Locations(all), Sizes(all, iconSize), NMS_OVERLAP_THRESHOLD, order);
    var top := TopIsKept(Locations(all), Scores(all), Sizes(all, iconSize), NMS_OVERLAP_THRESHOLD, order);
    KeptByIndex(Locations(all), keep);
  }

  /** The dictionary from surviving locations to all raw matches there. */
  method GroupByLocation(all: seq<Match>, kept: seq<Point>) returns (groups: map<Point, seq<Match>>)
    ensures forall p :: p in kept && |AtLocation(all, p)| > 0 ==> p in groups
    ensures forall p :: p in groups ==> p in kept && groups[p] == AtLocation(all, p)
  {
    groups := map[];
    for i := 0 to |all|
      invariant forall p :: p in kept && |AtLocation(all[..i], p)| > 0 ==> p in groups
      invariant forall p :: p in groups ==> p in kept && groups[p] == AtLocation(all[..i], p)
    {
      var m := all[i];
      assert all[..i + 1][..i] == all[..i];
      if m.location in kept {
        if m.location !in groups {
          groups := groups[m.location := []];
        }
        groups := groups[m.location := groups[m.location] + [m]];
      }
    }
    assert all[..|all|] == all;
  }

  /** The loop over the surviving locations; each group is sorted in place before its row is read off. */
  method BuildRows(all: seq<Match>, kept: seq<Point>, groups0: map<Point, seq<Match>>) returns (rows: seq<Row>)
    requires forall p :: p in kept && |AtLocation(all, p)| > 0 ==> p in groups0
    requires forall p :: p in groups0 ==> groups0[p] == AtLocation(all, p)
    ensures rows == RowsFor(all, kept)
  {
    hide Sorted, RowFor, AtLocation;
    var groups := groups0;
    rows := [];
    for i := 0 to |kept|
      invariant rows == RowsFor(all, kept[..i])
      invariant groups.Keys == groups0.Keys
      invariant forall p :: p in groups ==>
                  groups[p] == AtLocation(all, p) || groups[p] == Sorted(AtLocation(all, p), byScore)
    {
      var loc := kept[i];
      assert kept[..i + 1][..i] == kept[..i];
      SortedIsPermutation(AtLocation(all, loc), byScore);
      var here := if loc in groups then groups[loc] else [];
      if |here| > 0 {
        SortedOfAscending(Sorted(AtLocation(all, loc), byScore), byScore);
        here := Sorted(here, byScore);
        groups := groups[loc := here];
        rows := rows + [RowFor(loc, here)];
      }
    }
    assert kept[..|kept|] == kept;
  }
}
