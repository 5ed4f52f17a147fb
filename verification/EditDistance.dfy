/**
  Levenshtein distance as the OCR server computes it: a table filled row by row that
  copies the diagonal whenever two characters agree and takes a minimum only when they
  differ.  `Distance` is the value of one table cell; the theorems compare it with the
  independent notion of a shortest script of single-character edits.
*/
module EditDistance {

  // ---------- Edit scripts ----------

  /** One single-character edit of a string. */
  datatype Edit = Insert(at: nat, c: char) | Delete(at: nat) | Substitute(at: nat, c: char)

  predicate Applicable(e: Edit, s: string) {
    match e
    case Insert(at, _) => at <= |s|
    case Delete(at) => at < |s|
    case Substitute(at, _) => at < |s|
  }

  function Apply(e: Edit, s: string): string
    requires Applicable(e, s)
  {
    match e
    case Insert(at, c) => s[..at] + [c] + s[at..]
    case Delete(at) => s[..at] + s[at + 1..]
    case Substitute(at, c) => s[..at] + [c] + s[at + 1..]
  }

  /** `script`, applied left to right, turns `s` into `t`. */
  ghost predicate Turns(script: seq<Edit>, s: string, t: string)
    decreases |script|
  {
    if script == [] then s == t
    else Applicable(script[0], s) && Turns(script[1..], Apply(script[0], s), t)
  }

  /** `d` is the length of a shortest edit script from `s` to `t`. */
  ghost predicate IsShortestScriptLength(d: nat, s: string, t: string) {
    && (exists script :: Turns(script, s, t) && |script| == d)
    && (forall script :: Turns(script, s, t) ==> d <= |script|)
  }

  // ---------- The recurrence behind the table ----------

  function Init(s: string): string
    requires |s| != 0
  {
    s[..|s| - 1]
  }

  function Last(s: string): char
    requires |s| != 0
  {
    s[|s| - 1]
  }

  function Min(a: nat, b: nat): nat { if a <= b then a else b }

  function Max(a: nat, b: nat): nat { if a <= b then b else a }

  /** The table cell for the prefixes `s` and `t`: equal last characters copy the diagonal. */
  function Distance(s: string, t: string): nat
    decreases |s| + |t|
  {
    if |s| == 0 then |t|
    else if |t| == 0 then |s|
    else if Last(s) == Last(t) then Distance(Init(s), Init(t))
    else 1 + Min(Min(Distance(Init(s), t), Distance(s, Init(t))), Distance(Init(s), Init(t)))
  }

  /** One unfolding of the recurrence, for proofs that hide its body. */
  lemma Cell(s: string, t: string)
    ensures |s| == 0 ==> Distance(s, t) == |t|
    ensures |t| == 0 ==> Distance(s, t) == |s|
    ensures |s| != 0 && |t| != 0 && Last(s) == Last(t) ==> Distance(s, t) == Distance(Init(s), Init(t))
    ensures |s| != 0 && |t| != 0 && Last(s) != Last(t) ==>
              Distance(s, t) ==
              1 + Min(Min(Distance(Init(s), t), Distance(s, Init(t))), Distance(Init(s), Init(t)))
  {
  }

  // ---------- The distance is a metric ----------

  lemma {:induction false} Symmetric(s: string, t: string)
    ensures Distance(s, t) == Distance(t, s)
    decreases |s| + |t|
  {
    if |s| != 0 && |t| != 0 {
      Symmetric(Init(s), Init(t));
      Symmetric(Init(s), t);
      Symmetric(s, Init(t));
    }
  }

  /** Neighbouring cells of the table differ by at most one. */
  lemma {:induction false} Neighbours(s: string, t: string)
    ensures |s| != 0 ==> Distance(s, t) <= Distance(Init(s), t) + 1
    ensures |s| != 0 ==> Distance(Init(s), t) <= Distance(s, t) + 1
    ensures |t| != 0 ==> Distance(s, t) <= Distance(s, Init(t)) + 1
    ensures |t| != 0 ==> Distance(s, Init(t)) <= Distance(s, t) + 1
    decreases |s| + |t|
  {
    if |s| != 0 && |t| != 0 {
      Neighbours(Init(s), t);
      Neighbours(s, Init(t));
      Neighbours(Init(s), Init(t));
    }
  }

  /**
    Copying the diagonal on equal characters loses nothing: the cell is still the minimum over all
    three neighbours.
  */
  lemma CellIsMinimumOfNeighbours(s: string, t: string)
    requires |s| != 0 && |t| != 0
    ensures Distance(s, t) ==
            Min(Min(Distance(Init(s), t) + 1, Distance(s, Init(t)) + 1),
                Distance(Init(s), Init(t)) + if Last(s) == Last(t) then 0 else 1)
  {
    hide Distance;
    Cell(s, t);
    Neighbours(Init(s), t);
    Neighbours(s, Init(t));
  }

  /** A single edit of the source string changes the distance by at most one. */
  lemma {:induction false} OneEdit(e: Edit, s: string, t: string)
    requires Applicable(e, s)
    ensures Distance(s, t) <= Distance(Apply(e, s), t) + 1
    decreases |s| + |t|
  {
    hide Distance;
    var s2 := Apply(e, s);
    Neighbours(s, t);
    if e.Insert? && e.at == |s| {
      assert Init(s2) == s;
      Neighbours(s2, t);
    } else if e.Delete? && e.at == |s| - 1 {
      assert s2 == Init(s);
    } else if e.Substitute? && e.at == |s| - 1 {
      assert Init(s2) == Init(s);
      Cell(s, t);
      Cell(s2, t);
      if |t| != 0 {
        CellIsMinimumOfNeighbours(s, t);
        OneEdit(e, s, Init(t));
      }
    } else {
      EditInside(e, s);
      Cell(s, t);
      Cell(s2, t);
      if |t| != 0 {
        OneEdit(e, Init(s), Init(t));
        OneEdit(e, Init(s), t);
        OneEdit(e, s, Init(t));
      }
    }
  }

  /** An edit that spares the last character acts on the rest of the string. */
  lemma EditInside(e: Edit, s: string)
    requires Applicable(e, s)
    requires e.at < if e.Insert? then |s| else |s| - 1
    ensures Applicable(e, Init(s)) && |Apply(e, s)| != 0
    ensures Init(Apply(e, s)) == Apply(e, Init(s)) && Last(Apply(e, s)) == Last(s)
  {
  }

  lemma {:induction false} SelfDistance(s: string)
    ensures Distance(s, s) == 0
    decreases |s|
  {
    if |s| != 0 {
      SelfDistance(Init(s));
    }
  }

  /** No edit script is shorter than the distance. */
  lemma {:induction false} ScriptsAreNoShorter(script: seq<Edit>, s: string, t: string)
    requires Turns(script, s, t)
    ensures Distance(s, t) <= |script|
    decreases |script|
  {
    if script == [] {
      SelfDistance(s);
    } else {
      OneEdit(script[0], s, t);
      ScriptsAreNoShorter(script[1..], Apply(script[0], s), t);
    }
  }

  lemma {:induction false} ExtendScript(script: seq<Edit>, s: string, t: string, c: char)
    requires Turns(script, s, t)
    ensures Turns(script, s + [c], t + [c])
    decreases |script|
  {
    if script != [] {
      var s1 := Apply(script[0], s);
      assert Apply(script[0], s + [c]) == s1 + [c];
      ExtendScript(script[1..], s1, t, c);
    }
  }

  lemma Prepend(e: Edit, script: seq<Edit>, s: string, t: string)
    requires Applicable(e, s) && Turns(script, Apply(e, s), t)
    ensures Turns([e] + script, s, t)
  {
    assert ([e] + script)[1..] == script;
  }

  /** Some edit script is exactly as long as the distance. */
  lemma {:induction false} ShortestScript(s: string, t: string) returns (script: seq<Edit>)
    ensures Turns(script, s, t)
    ensures |script| == Distance(s, t)
    decreases |s| + |t|
  {
    hide Distance;
    Cell(s, t);
    if |s| == 0 && |t| == 0 {
      script := [];
    } else if |s| != 0 && |t| != 0 && Last(s) == Last(t) {
      script := ShortestScript(Init(s), Init(t));
      ExtendScript(script, Init(s), Init(t), Last(t));
      assert s == Init(s) + [Last(t)] && t == Init(t) + [Last(t)];
    } else if |t| == 0 || (|s| != 0 && Distance(s, t) == 1 + Distance(Init(s), t)) {
      Cell(Init(s), t);
      var rest := ShortestScript(Init(s), t);
      script := [Delete(|s| - 1)] + rest;
      assert Apply(Delete(|s| - 1), s) == Init(s);
      Prepend(Delete(|s| - 1), rest, s, t);
    } else if |s| == 0 || Distance(s, t) == 1 + Distance(s, Init(t)) {
      Cell(s, Init(t));
      var rest := ShortestScript(s, Init(t));
      script := EndWith(Insert(|s|, Last(t)), rest, s, s, t);
    } else {
      var rest := ShortestScript(Init(s), Init(t));
      script := EndWith(Substitute(|s| - 1, Last(t)), rest, s, Init(s), t);
    }
  }

  /** An edit that makes the last characters agree, followed by a script for the rest. */
  lemma EndWith(e: Edit, rest: seq<Edit>, s: string, p: string, t: string) returns (script: seq<Edit>)
    requires |t| != 0 && Applicable(e, s) && Apply(e, s) == p + [Last(t)]
    requires Turns(rest, p, Init(t))
    ensures Turns(script, s, t) && |script| == 1 + |rest|
  {
    hide Turns;
    ExtendScript(rest, p, Init(t), Last(t));
    assert t == Init(t) + [Last(t)];
    script := [e] + rest;
    Prepend(e, rest, s, t);
  }

  /** The last cell of the table is the minimum over all insert/delete/substitute scripts. */
  lemma DistanceIsShortestScript(s: string, t: string)
    ensures IsShortestScriptLength(Distance(s, t), s, t)
  {
    var script := ShortestScript(s, t);
    forall other | Turns(other, s, t)
      ensures Distance(s, t) <= |other|
    {
      ScriptsAreNoShorter(other, s, t);
    }
  }

  lemma EmptyScript(s: string, t: string)
    requires Turns([], s, t)
    ensures s == t
  {
  }

  lemma FirstEdit(script: seq<Edit>, s: string, t: string)
    requires script != [] && Turns(script, s, t)
    ensures Applicable(script[0], s) && Turns(script[1..], Apply(script[0], s), t)
  {
  }

  lemma {:induction false} ConcatScripts(a: seq<Edit>, b: seq<Edit>, s: string, t: string, u: string)
    requires Turns(a, s, t) && Turns(b, t, u)
    ensures Turns(a + b, s, u)
    decreases |a|
  {
    hide Apply, Applicable, Turns;
    if a == [] {
      EmptyScript(s, t);
      assert a + b == b;
    } else {
      FirstEdit(a, s, t);
      ConcatScripts(a[1..], b, Apply(a[0], s), t, u);
      Prepend(a[0], a[1..] + b, s, u);
      assert [a[0]] + (a[1..] + b) == a + b;
    }
  }

  lemma TriangleInequality(s: string, t: string, u: string)
    ensures Distance(s, u) <= Distance(s, t) + Distance(t, u)
  {
    var a := ShortestScript(s, t);
    var b := ShortestScript(t, u);
    ConcatScripts(a, b, s, t, u);
    ScriptsAreNoShorter(a + b, s, u);
  }

  /** The distance lies between the difference of the lengths and the longer length. */
  lemma {:induction false} Bounds(s: string, t: string)
    ensures |s| - |t| <= Distance(s, t) && |t| - |s| <= Distance(s, t)
    ensures Distance(s, t) <= Max(|s|, |t|)
    decreases |s| + |t|
  {
    if |s| != 0 && |t| != 0 {
      Bounds(Init(s), Init(t));
      Bounds(Init(s), t);
      Bounds(s, Init(t));
    }
  }

  lemma {:induction false} ZeroOnlyForEqual(s: string, t: string)
    ensures Distance(s, t) == 0 <==> s == t
  {
    if Distance(s, t) == 0 {
      var script := ShortestScript(s, t);
    } else if s == t {
      SelfDistance(s);
    }
  }

  // ---------- The code ----------

  /** Case folding is a parameter: any function on strings, applied unless the comparison is case sensitive. */
  function Folded(s: string, caseSensitive: bool, lower: string -> string): string {
    if caseSensitive then s else lower(s)
  }

  /** The value of the table cell `k, l`. */
  ghost function Table(a: string, b: string, k: nat, l: nat): nat
    requires k <= |a| && l <= |b|
  {
    Distance(a[..k], b[..l])
  }

  lemma TableBorder(a: string, b: string, k: nat, l: nat)
    requires k <= |a| && l <= |b|
    ensures k == 0 ==> Table(a, b, k, l) == l
    ensures l == 0 ==> Table(a, b, k, l) == k
  {
    hide Distance;
    Cell(a[..k], b[..l]);
  }

  lemma TableStep(a: string, b: string, k: nat, l: nat)
    requires 0 < k <= |a| && 0 < l <= |b|
    ensures a[k - 1] == b[l - 1] ==> Table(a, b, k, l) == Table(a, b, k - 1, l - 1)
    ensures a[k - 1] != b[l - 1] ==>
              Table(a, b, k, l) == 1 + Min(Min(Table(a, b, k - 1, l), Table(a, b, k, l - 1)), Table(a, b, k - 1, l - 1))
  {
    hide Distance;
    Cell(a[..k], b[..l]);
    assert Init(a[..k]) == a[..k - 1] && Init(b[..l]) == b[..l - 1];
  }

  lemma TableCorner(a: string, b: string)
    ensures Table(a, b, |a|, |b|) == Distance(a, b)
  {
    assert a[..|a|] == a && b[..|b|] == b;
  }

  method LevenshteinDistance(s1: string, s2: string, caseSensitive: bool, lower: string -> string)
    returns (distance: nat)
    ensures distance == Distance(Folded(s1, caseSensitive, lower), Folded(s2, caseSensitive, lower))
    ensures caseSensitive ==> IsShortestScriptLength(distance, s1, s2)
    ensures !caseSensitive ==> IsShortestScriptLength(distance, lower(s1), lower(s2))
  {
    var a, b := Folded(s1, caseSensitive, lower), Folded(s2, caseSensitive, lower);
    hide Distance, IsShortestScriptLength, Table;
    DistanceIsShortestScript(a, b);
    if a == b {
      SelfDistance(a);
      return 0;
    }
    var dp := new nat[|a| + 1, |b| + 1]((_, _) => 0);
    for i := 0 to |a| + 1
      invariant forall k :: 0 <= k < i ==> dp[k, 0] == k
    {
      dp[i, 0] := i;
    }
    for j := 0 to |b| + 1
      invariant forall k :: 0 <= k <= |a| ==> dp[k, 0] == k
      invariant forall k :: 0 <= k < j ==> dp[0, k] == k
    {
      dp[0, j] := j;
    }
    forall k: nat, l: nat | k <= |a| && l <= |b|
      ensures k == 0 ==> Table(a, b, k, l) == l
      ensures l == 0 ==> Table(a, b, k, l) == k
    {
      TableBorder(a, b, k, l);
    }
    for i := 1 to |a| + 1
      invariant forall k :: 0 <= k <= |a| ==> dp[k, 0] == k
      invariant forall k, l :: 0 <= k < i && 0 <= l <= |b| ==> dp[k, l] == Table(a, b, k, l)
    {
      for j := 1 to |b| + 1
        invariant forall k :: 0 <= k <= |a| ==> dp[k, 0] == k
        invariant forall k, l :: 0 <= k < i && 0 <= l <= |b| ==> dp[k, l] == Table(a, b, k, l)
        invariant forall l :: 0 <= l < j ==> dp[i, l] == Table(a, b, i, l)
      {
        TableStep(a, b, i, j);
        if a[i - 1] == b[j - 1] {
          dp[i, j] := dp[i - 1, j - 1];
        } else {
          dp[i, j] := 1 + Min(Min(dp[i - 1, j], dp[i, j - 1]), dp[i - 1, j - 1]);
        }
      }
    }
    TableCorner(a, b);
    distance := dp[|a|, |b|];
  }

  /** `similarity_ratio` over the reals, with its two early exits. */
  function SimilarityRatio(s1: string, s2: string, caseSensitive: bool, lower: string -> string): real {
    var a, b := Folded(s1, caseSensitive, lower), Folded(s2, caseSensitive, lower);
    if a == b then 1.0
    else if |a| == 0 || |b| == 0 then 0.0
    else 1.0 - Distance(a, b) as real / Max(|a|, |b|) as real
  }

  lemma DivideBounds(d: nat, m: nat)
    requires d <= m && 0 < m
    ensures 0.0 <= d as real / m as real <= 1.0
    ensures d as real / m as real == 0.0 <==> d == 0
    ensures d as real / m as real == 1.0 <==> d == m
  {
    var q := d as real / m as real;
    assert q * m as real == d as real;
  }

  /** The ratio lies in 0..1, is 1 exactly for strings equal after folding, and is symmetric. */
  lemma RatioRange(s1: string, s2: string, caseSensitive: bool, lower: string -> string)
    ensures 0.0 <= SimilarityRatio(s1, s2, caseSensitive, lower) <= 1.0
    ensures SimilarityRatio(s1, s2, caseSensitive, lower) == 1.0 <==>
            Folded(s1, caseSensitive, lower) == Folded(s2, caseSensitive, lower)
    ensures SimilarityRatio(s1, s2, caseSensitive, lower) == SimilarityRatio(s2, s1, caseSensitive, lower)
  {
    var a, b := Folded(s1, caseSensitive, lower), Folded(s2, caseSensitive, lower);
    Symmetric(a, b);
    if a != b && |a| != 0 && |b| != 0 {
      Bounds(a, b);
      ZeroOnlyForEqual(a, b);
      DivideBounds(Distance(a, b), Max(|a|, |b|));
    }
  }

  /** The ratio is the share of the longer string that a shortest edit script leaves alone. */
  lemma RatioCountsEdits(s1: string, s2: string, caseSensitive: bool, lower: string -> string, d: nat, longer: nat)
    requires var a, b := if caseSensitive then s1 else lower(s1), if caseSensitive then s2 else lower(s2);
             && IsShortestScriptLength(d, a, b)
             && |a| <= longer && |b| <= longer && (longer == |a| || longer == |b|)
    ensures var ratio := SimilarityRatio(s1, s2, caseSensitive, lower);
            ratio * longer as real == (longer - d) as real && (longer == 0 ==> ratio == 1.0)
  {
    hide Distance, IsShortestScriptLength;
    var a, b := Folded(s1, caseSensitive, lower), Folded(s2, caseSensitive, lower);
    ShortestIsUnique(a, b, d);
    Bounds(a, b);
    ZeroOnlyForEqual(a, b);
    if longer != 0 {
      EarlyExitsAgree(s1, s2, caseSensitive, lower);
      MultipliedBack(d, longer);
    }
  }

  lemma ShortestIsUnique(s: string, t: string, d: nat)
    requires IsShortestScriptLength(d, s, t)
    ensures d == Distance(s, t)
  {
    DistanceIsShortestScript(s, t);
  }

  lemma MultipliedBack(d: nat, m: nat)
    requires 0 < m
    ensures (1.0 - d as real / m as real) * m as real == m as real - d as real
  {
    var q := d as real / m as real;
    assert q * m as real == d as real;
  }

  /** Neither early exit changes the value: the closed formula holds for all strings that are not both empty. */
  lemma EarlyExitsAgree(s1: string, s2: string, caseSensitive: bool, lower: string -> string)
    requires |Folded(s1, caseSensitive, lower)| + |Folded(s2, caseSensitive, lower)| != 0
    ensures var a, b := Folded(s1, caseSensitive, lower), Folded(s2, caseSensitive, lower);
            SimilarityRatio(s1, s2, caseSensitive, lower) ==
            1.0 - Distance(a, b) as real / Max(|a|, |b|) as real
  {
    var a, b := Folded(s1, caseSensitive, lower), Folded(s2, caseSensitive, lower);
    Bounds(a, b);
    ZeroOnlyForEqual(a, b);
    DivideBounds(Distance(a, b), Max(|a|, |b|));
  }
}
