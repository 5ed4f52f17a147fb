/**
  `FuzzyMatcher.fuzzy_match`: the one-pass greedy "missing characters" mode and the
  similarity threshold mode.  The greedy scan is compared with all ways of embedding the
  detected text in the pattern, and with the edit distance.
*/
module FuzzyMatch {
  import opened Common
  import opened EditDistance

  /** The accepted shapes of `allow_missing_chars`. */
  datatype AllowMissing =
    | Absent
    | Flag(value: bool)
    | Characters(chars: string)
    | CharacterList(items: seq<string>)
    | Unsupported

  function Joined(items: seq<string>): string {
    if items == [] then "" else items[0] + Joined(items[1..])
  }

  predicate MissingModeOn(allow: AllowMissing) {
    allow != Absent && allow != Flag(false)
  }

  /** May character `c` of the folded pattern be missing?  The allowed characters themselves are not folded. */
  predicate MayMiss(allow: AllowMissing, c: char) {
    match allow
    case Flag(_) => true
    case Characters(chars) => c in chars
    case CharacterList(items) => c in Joined(items)
    case _ => false
  }

  // ---------- Embeddings ----------

  /** The characters of `pattern` at the positions where `mask` equals `side`. */
  function Select(pattern: string, mask: seq<bool>, side: bool): string
    requires |mask| == |pattern|
  {
    if |pattern| == 0 then ""
    else
      var n := |pattern| - 1;
      Select(pattern[..n], mask[..n], side) + if mask[n] == side then [pattern[n]] else ""
  }

  /** `mask` marks the positions of `pattern` that spell `text`. */
  predicate Embeds(mask: seq<bool>, pattern: string, text: string) {
    |mask| == |pattern| && Select(pattern, mask, true) == text
  }

  /** The pattern characters an embedding leaves out. */
  function Skipped(mask: seq<bool>, pattern: string): string
    requires |mask| == |pattern|
  {
    Select(pattern, mask, false)
  }

  lemma SelectSnoc(pattern: string, c: char, mask: seq<bool>, b: bool, side: bool)
    requires |mask| == |pattern|
    ensures Select(pattern + [c], mask + [b], side) ==
            Select(pattern, mask, side) + if b == side then [c] else ""
  {
    assert (pattern + [c])[..|pattern|] == pattern && (mask + [b])[..|pattern|] == mask;
  }

  lemma {:induction false} SelectPartitions(pattern: string, mask: seq<bool>)
    requires |mask| == |pattern|
    ensures multiset(pattern) == multiset(Select(pattern, mask, true)) + multiset(Select(pattern, mask, false))
  {
    if |pattern| != 0 {
      hide Select;
      var n := |pattern| - 1;
      SelectPartitions(pattern[..n], mask[..n]);
      assert pattern == pattern[..n] + [pattern[n]];
      SelectLast(pattern, mask);
      OneMore(pattern[..n], Select(pattern[..n], mask[..n], true), Select(pattern[..n], mask[..n], false), pattern[n]);
    }
  }

  lemma SelectLast(pattern: string, mask: seq<bool>)
    requires |mask| == |pattern| > 0
    ensures var n := |pattern| - 1;
            && Select(pattern, mask, mask[n]) == Select(pattern[..n], mask[..n], mask[n]) + [pattern[n]]
            && Select(pattern, mask, !mask[n]) == Select(pattern[..n], mask[..n], !mask[n])
  {
  }

  lemma OneMore(all: string, a: string, b: string, c: char)
    requires multiset(all) == multiset(a) + multiset(b)
    ensures multiset(all + [c]) == multiset(a + [c]) + multiset(b) == multiset(a) + multiset(b + [c])
  {
  }

  lemma SelectLengths(pattern: string, mask: seq<bool>)
    requires |mask| == |pattern|
    ensures |pattern| == |Select(pattern, mask, true)| + |Select(pattern, mask, false)|
  {
    hide Select;
    SelectPartitions(pattern, mask);
    assert |multiset(pattern)| == |pattern|;
  }

  /** Whatever the embedding, the skipped characters are the pattern minus the text. */
  lemma SkippedIsPatternMinusText(mask: seq<bool>, pattern: string, text: string)
    requires Embeds(mask, pattern, text)
    ensures multiset(Skipped(mask, pattern)) == multiset(pattern) - multiset(text)
    ensures |Skipped(mask, pattern)| == |pattern| - |text|
  {
    SelectPartitions(pattern, mask);
    SelectLengths(pattern, mask);
  }

  // ---------- The greedy scan ----------

  /** How many characters of `text` the greedy scan has consumed after reading `pattern`. */
  function Matched(pattern: string, text: string): (n: nat)
    ensures n <= |text|
  {
    if |pattern| == 0 then 0
    else
      var m := Matched(pattern[..|pattern| - 1], text);
      if m < |text| && pattern[|pattern| - 1] == text[m] then m + 1 else m
  }

  /** No embedding of any prefix of `text` in `pattern` gets further than the greedy scan. */
  lemma {:induction false} GreedyGetsFurthest(pattern: string, text: string, mask: seq<bool>, n: nat)
    requires n <= |text| && Embeds(mask, pattern, text[..n])
    ensures n <= Matched(pattern, text)
  {
    if |pattern| != 0 {
      var last := |pattern| - 1;
      if mask[last] {
        assert text[..n][n - 1] == pattern[last];
        assert text[..n][..n - 1] == text[..n - 1];
        GreedyGetsFurthest(pattern[..last], text, mask[..last], n - 1);
      } else {
        GreedyGetsFurthest(pattern[..last], text, mask[..last], n);
      }
    }
  }

  /** The acceptance rule the documentation promises: some embedding skips only allowed characters, and few enough. */
  ghost predicate HasAllowedEmbedding(pattern: string, text: string, allow: AllowMissing, maxMissing: Option<int>) {
    exists mask :: Embeds(mask, pattern, text) && SkipsAllowed(Skipped(mask, pattern), allow, maxMissing)
  }

  ghost predicate SkipsAllowed(skipped: string, allow: AllowMissing, maxMissing: Option<int>) {
    && (forall c :: c in skipped ==> MayMiss(allow, c))
    && (maxMissing.Some? ==> |skipped| <= maxMissing.value)
  }

  /** One embedding decides for all of them. */
  lemma EmbeddingsAgree(a: seq<bool>, b: seq<bool>, pattern: string, text: string,
                        allow: AllowMissing, maxMissing: Option<int>)
    requires Embeds(a, pattern, text) && Embeds(b, pattern, text)
    requires SkipsAllowed(Skipped(a, pattern), allow, maxMissing)
    ensures SkipsAllowed(Skipped(b, pattern), allow, maxMissing)
  {
    SkippedIsPatternMinusText(a, pattern, text);
    SkippedIsPatternMinusText(b, pattern, text);
    forall c | c in Skipped(b, pattern)
      ensures MayMiss(allow, c)
    {
      assert c in multiset(Skipped(b, pattern));
      assert c in multiset(Skipped(a, pattern));
    }
  }

  /** `fuzzy_match` in missing-character mode; `pattern` and `text` are already folded. */
  method MatchWithMissing(pattern: string, text: string, allow: AllowMissing, maxMissing: Option<int>)
    returns (ok: bool)
    requires MissingModeOn(allow)
    ensures ok <==> HasAllowedEmbedding(pattern, text, allow, maxMissing)
  {
    hide SkipsAllowed;
    var patternIdx, textIdx, missing := 0, 0, "";
    ghost var mask := [];
    while patternIdx < |pattern|
      invariant patternIdx <= |pattern| && textIdx <= |text|
      invariant textIdx == Matched(pattern[..patternIdx], text)
      invariant Embeds(mask, pattern[..patternIdx], text[..textIdx])
      invariant missing == Skipped(mask, pattern[..patternIdx])
    {
      ghost var hit := textIdx < |text| && pattern[patternIdx] == text[textIdx];
      ScanStep(pattern, patternIdx, mask, hit);
      if textIdx < |text| && pattern[patternIdx] == text[textIdx] {
        assert text[..textIdx + 1] == text[..textIdx] + [text[textIdx]];
        textIdx := textIdx + 1;
      } else {
        missing := missing + [pattern[patternIdx]];
      }
      patternIdx := patternIdx + 1;
      mask := mask + [hit];
    }
    assert pattern[..|pattern|] == pattern && text[..|text|] == text;
    if textIdx < |text| {
      forall other | Embeds(other, pattern, text)
        ensures false
      {
        GreedyGetsFurthest(pattern, text, other, |text|);
      }
      return false;
    }
    assert text[..textIdx] == text;
    ok := WithinLimits(missing, allow, maxMissing);
    forall other | Embeds(other, pattern, text) && SkipsAllowed(Skipped(other, pattern), allow, maxMissing)
      ensures ok
    {
      EmbeddingsAgree(other, mask, pattern, text, allow, maxMissing);
    }
  }

  lemma ScanStep(pattern: string, i: nat, mask: seq<bool>, hit: bool)
    requires i < |pattern| && |mask| == i
    ensures pattern[..i + 1][..i] == pattern[..i] && |pattern[..i + 1]| == i + 1
    ensures forall side :: Select(pattern[..i + 1], mask + [hit], side) ==
                           Select(pattern[..i], mask, side) + if hit == side then [pattern[i]] else ""
  {
    assert pattern[..i + 1] == pattern[..i] + [pattern[i]];
    SelectSnoc(pattern[..i], pattern[i], mask, hit, true);
    SelectSnoc(pattern[..i], pattern[i], mask, hit, false);
  }

  /** The two checks after the scan: every missing character allowed, and not too many of them. */
  method WithinLimits(missing: string, allow: AllowMissing, maxMissing: Option<int>) returns (ok: bool)
    requires MissingModeOn(allow)
    ensures ok <==> SkipsAllowed(missing, allow, maxMissing)
  {
    if allow != Flag(true) {
      for i := 0 to |missing|
        invariant forall j :: 0 <= j < i ==> MayMiss(allow, missing[j])
      {
        if !MayMiss(allow, missing[i]) {
          return false;
        }
      }
    }
    if maxMissing.Some? {
      return |missing| <= maxMissing.value;
    }
    return true;
  }

  /** `fuzzy_match`: missing-character mode first, then the similarity threshold, otherwise no match. */
  method Match(pattern: string, text: string, allow: AllowMissing, maxMissing: Option<int>,
               minSimilarity: Option<real>, caseSensitive: bool, lower: string -> string) returns (ok: bool)
    ensures allow != Absent && allow != Flag(false) ==>
              var p := if caseSensitive then pattern else lower(pattern);
              var t := if caseSensitive then text else lower(text);
              ok <==> HasAllowedEmbedding(p, t, allow, maxMissing)
    ensures allow == Absent || allow == Flag(false) ==>
              (ok <==> minSimilarity.Some? &&
                       SimilarityRatio(pattern, text, caseSensitive, lower) >= minSimilarity.value)
  {
    if MissingModeOn(allow) {
      ok := MatchWithMissing(Folded(pattern, caseSensitive, lower), Folded(text, caseSensitive, lower),
                             allow, maxMissing);
      return;
    }
    if minSimilarity.Some? {
      return SimilarityRatio(pattern, text, caseSensitive, lower) >= minSimilarity.value;
    }
    return false;
  }

  // ---------- Missing characters and the edit distance ----------

  lemma {:induction false} EmbeddingBoundsDistance(mask: seq<bool>, pattern: string, text: string)
    requires Embeds(mask, pattern, text)
    ensures Distance(pattern, text) <= |pattern| - |text|
  {
    hide Distance;
    Cell(pattern, text);
    SelectLengths(pattern, mask);
    if |pattern| != 0 && |text| != 0 {
      var n := |pattern| - 1;
      if mask[n] {
        assert text == Select(pattern[..n], mask[..n], true) + [pattern[n]];
        EmbeddingBoundsDistance(mask[..n], pattern[..n], Init(text));
      } else {
        EmbeddingBoundsDistance(mask[..n], pattern[..n], text);
        Neighbours(pattern, text);
      }
    }
  }

  lemma {:induction false} DistanceGivesEmbedding(pattern: string, text: string) returns (mask: seq<bool>)
    requires Distance(pattern, text) == |pattern| - |text|
    ensures Embeds(mask, pattern, text)
    decreases |pattern|
  {
    hide Distance;
    Cell(pattern, text);
    if |pattern| == 0 {
      mask := [];
    } else {
      var n := |pattern| - 1;
      assert pattern == Init(pattern) + [pattern[n]];
      if |text| == 0 {
        Cell(Init(pattern), text);
        mask := DistanceGivesEmbedding(Init(pattern), text);
        SelectSnoc(Init(pattern), pattern[n], mask, false, true);
        mask := mask + [false];
      } else if Last(pattern) == Last(text) {
        mask := DistanceGivesEmbedding(Init(pattern), Init(text));
        SelectSnoc(Init(pattern), pattern[n], mask, true, true);
        mask := mask + [true];
      } else {
        Bounds(pattern, Init(text));
        Bounds(Init(pattern), Init(text));
        mask := DistanceGivesEmbedding(Init(pattern), text);
        SelectSnoc(Init(pattern), pattern[n], mask, false, true);
        mask := mask + [false];
      }
    }
  }

  /** The text embeds in the pattern exactly when their edit distance is the difference of the lengths. */
  lemma EmbedsIffDistanceIsLengthDifference(pattern: string, text: string)
    ensures (exists mask :: Embeds(mask, pattern, text)) <==> Distance(pattern, text) == |pattern| - |text|
  {
    hide Distance, Embeds;
    Bounds(pattern, text);
    if Distance(pattern, text) == |pattern| - |text| {
      var mask := DistanceGivesEmbedding(pattern, text);
    } else if mask :| Embeds(mask, pattern, text) {
      EmbeddingBoundsDistance(mask, pattern, text);
    }
  }

  /** Acceptance makes the edit distance equal to the number of missing characters, hence at most `maxMissing`. */
  lemma AcceptanceFixesDistance(pattern: string, text: string, allow: AllowMissing, maxMissing: Option<int>)
    requires HasAllowedEmbedding(pattern, text, allow, maxMissing)
    ensures forall mask :: Embeds(mask, pattern, text) ==> Distance(pattern, text) == |Skipped(mask, pattern)|
    ensures maxMissing.Some? ==> Distance(pattern, text) <= maxMissing.value
  {
    hide Distance;
    EmbedsIffDistanceIsLengthDifference(pattern, text);
    forall mask | Embeds(mask, pattern, text)
      ensures Distance(pattern, text) == |Skipped(mask, pattern)|
    {
      SkippedIsPatternMinusText(mask, pattern, text);
    }
  }

  lemma {:induction false} JoinedHolds(items: seq<string>, c: char)
    ensures c in Joined(items) <==> exists i :: 0 <= i < |items| && c in items[i]
  {
    if items != [] {
      JoinedHolds(items[1..], c);
      assert items == [items[0]] + items[1..];
    }
  }

  /**
    Acceptance without embeddings: the edit distance is the difference of the lengths, that difference
    is within the limit, and every character the pattern has more often than the text is one given as
    allowed, in the string or in some item of the list.  An unsupported value allows no character.
  */
  lemma AcceptedIff(pattern: string, text: string, allow: AllowMissing, maxMissing: Option<int>)
    requires allow != Absent && allow != Flag(false)
    ensures HasAllowedEmbedding(pattern, text, allow, maxMissing) <==>
            && Distance(pattern, text) == |pattern| - |text|
            && (maxMissing.Some? ==> |pattern| - |text| <= maxMissing.value)
            && (forall c :: c in multiset(pattern) - multiset(text) ==>
                  && allow != Unsupported
                  && (allow.Characters? ==> c in allow.chars)
                  && (allow.CharacterList? ==> exists i :: 0 <= i < |allow.items| && c in allow.items[i]))
  {
    hide Distance, Select;
    EmbedsIffDistanceIsLengthDifference(pattern, text);
    forall mask | Embeds(mask, pattern, text)
      ensures SkipsAllowed(Skipped(mask, pattern), allow, maxMissing) <==>
              && (maxMissing.Some? ==> |pattern| - |text| <= maxMissing.value)
              && forall c :: c in multiset(pattern) - multiset(text) ==> MayMiss(allow, c)
    {
      SkippedIsPatternMinusText(mask, pattern, text);
      SkippedMembers(Skipped(mask, pattern), multiset(pattern) - multiset(text));
    }
    if allow.CharacterList? {
      forall c
        ensures MayMiss(allow, c) <==> exists i :: 0 <= i < |allow.items| && c in allow.items[i]
      {
        JoinedHolds(allow.items, c);
      }
    }
  }

  lemma SkippedMembers(skipped: string, missing: multiset<char>)
    requires multiset(skipped) == missing
    ensures forall c :: c in skipped <==> c in missing
  {
  }

  /** With every character allowed, acceptance is a statement about the edit distance alone. */
  lemma AnyCharacterMode(pattern: string, text: string, maxMissing: Option<int>)
    ensures HasAllowedEmbedding(pattern, text, Flag(true), maxMissing) <==>
            && Distance(pattern, text) == |pattern| - |text|
            && (maxMissing.Some? ==> Distance(pattern, text) <= maxMissing.value)
  {
    hide Distance;
    EmbedsIffDistanceIsLengthDifference(pattern, text);
    forall mask | Embeds(mask, pattern, text)
      ensures |Skipped(mask, pattern)| == |pattern| - |text|
    {
      SkippedIsPatternMinusText(mask, pattern, text);
    }
  }

  // ---------- Allowed characters are not folded ----------

  /** The two lists of allowed characters give the same verdict for every detected text and every limit. */
  ghost predicate SameVerdicts(pattern: string, s: string, t: string) {
    forall text, maxMissing ::
      HasAllowedEmbedding(pattern, text, Characters(s), maxMissing) <==>
      HasAllowedEmbedding(pattern, text, Characters(t), maxMissing)
  }

  /**
    Exactly when two lists of allowed characters, such as the list given and the same list folded,
    are interchangeable: when they agree on the characters of the folded pattern.
  */
  lemma AllowanceMattersIffInPattern(pattern: string, s: string, t: string)
    ensures SameVerdicts(pattern, s, t) <==> forall c :: c in pattern ==> (c in s <==> c in t)
  {
    if forall c :: c in pattern ==> (c in s <==> c in t) {
      forall text, maxMissing
        ensures HasAllowedEmbedding(pattern, text, Characters(s), maxMissing) <==>
                HasAllowedEmbedding(pattern, text, Characters(t), maxMissing)
      {
        AgreeingAllowances(pattern, text, s, t, maxMissing);
      }
    } else {
      var i :| 0 <= i < |pattern| && !(pattern[i] in s <==> pattern[i] in t);
      if pattern[i] in s {
        OneMissing(pattern, i, s, t);
      } else {
        OneMissing(pattern, i, t, s);
      }
    }
  }

  lemma AgreeingAllowances(pattern: string, text: string, s: string, t: string, maxMissing: Option<int>)
    requires forall c :: c in pattern ==> (c in s <==> c in t)
    ensures HasAllowedEmbedding(pattern, text, Characters(s), maxMissing) <==>
            HasAllowedEmbedding(pattern, text, Characters(t), maxMissing)
  {
    forall mask | Embeds(mask, pattern, text)
      ensures SkipsAllowed(Skipped(mask, pattern), Characters(s), maxMissing) <==>
              SkipsAllowed(Skipped(mask, pattern), Characters(t), maxMissing)
    {
      SelectPartitions(pattern, mask);
      forall c | c in Skipped(mask, pattern)
        ensures c in pattern
      {
        assert c in multiset(pattern);
      }
    }
  }

  /** The positions of a pattern, all kept but one. */
  function AllBut(n: nat, i: nat): seq<bool> { seq(n, k => k != i) }

  lemma {:induction false} SelectAllBut(pattern: string, i: nat)
    ensures Select(pattern, AllBut(|pattern|, i), false) == if i < |pattern| then [pattern[i]] else ""
    decreases |pattern|
  {
    if |pattern| != 0 {
      hide Select;
      var n := |pattern| - 1;
      SelectAllBut(pattern[..n], i);
      SelectSnoc(pattern[..n], pattern[n], AllBut(n, i), n != i, false);
      assert pattern == pattern[..n] + [pattern[n]] && AllBut(|pattern|, i) == AllBut(n, i) + [n != i];
    }
  }

  /** A text that lacks one character of the pattern is accepted with one list and not with the other. */
  lemma OneMissing(pattern: string, i: nat, allowed: string, other: string)
    requires i < |pattern| && pattern[i] in allowed && pattern[i] !in other
    ensures var text := Select(pattern, AllBut(|pattern|, i), true);
            && HasAllowedEmbedding(pattern, text, Characters(allowed), None)
            && !HasAllowedEmbedding(pattern, text, Characters(other), None)
  {
    hide Select;
    var mask := AllBut(|pattern|, i);
    var text := Select(pattern, mask, true);
    SelectAllBut(pattern, i);
    assert Embeds(mask, pattern, text);
    forall m | Embeds(m, pattern, text)
      ensures pattern[i] in Skipped(m, pattern)
    {
      SkippedIsPatternMinusText(m, pattern, text);
      SkippedIsPatternMinusText(mask, pattern, text);
      assert pattern[i] in multiset(Skipped(mask, pattern));
      assert pattern[i] in multiset(Skipped(m, pattern));
    }
  }

  /** Case-insensitively, with "A" allowed to be missing, "bc" does not match "ABC"; with "a" allowed it does. */
  lemma UpperCaseAllowanceFails()
    ensures !HasAllowedEmbedding("abc", "bc", Characters("A"), None)
    ensures HasAllowedEmbedding("abc", "bc", Characters("a"), None)
  {
    var mask := AllBut(3, 0);
    assert "abc"[..2][..1] == "a" && "abc"[..2][1] == 'b';
    SelectSnoc("", 'a', [], false, true);
    SelectSnoc("a", 'b', [false], true, true);
    SelectSnoc("ab", 'c', [false, true], true, true);
    assert "" + ['a'] == "a" && "a" + ['b'] == "ab" && "ab" + ['c'] == "abc";
    assert [] + [false] == [false] && [false] + [true] == [false, true] && [false, true] + [true] == mask;
    assert Select("abc", mask, true) == "bc";
    OneMissing("abc", 0, "a", "A");
  }
}
