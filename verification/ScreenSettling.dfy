/**
  `QMP.wait_stable`: poll the screen until it has stayed the same for a while.  Frames and clock
  readings form an arbitrary trace; the theorem pins down the verdict and the poll it comes at.
*/
module ScreenSettling {
  import opened Common

  type Frame = seq<int>

  // ---------- Comparing frames ----------

  const STEP := 7

  /** How many of the bytes at `i`, `i + 7`, `i + 14`, ... below `n` differ. */
  function SampledDiffs(a: Frame, b: Frame, i: nat, n: nat): nat
    requires n <= |a| && n <= |b|
    decreases n - i
  {
    if i >= n then 0 else (if a[i] != b[i] then 1 else 0) + SampledDiffs(a, b, i + STEP, n)
  }

  /** `_diff_ratio`. */
  function DiffRatio(a: Frame, b: Frame): real {
    var n := if |a| <= |b| then |a| else |b|;
    if n == 0 then 1.0 else SampledDiffs(a, b, 0, n) as real / (n as real / STEP as real)
  }

  predicate Similar(prev: Frame, cur: Frame, tol: real) {
    |cur| == |prev| && DiffRatio(prev, cur) < tol
  }

  /** Offset `k` is sampled when the sampling starts at `i`. */
  predicate Sampled(i: nat, k: nat) { i <= k && (k - i) % STEP == 0 }

  lemma {:induction false} DiffsRange(a: Frame, b: Frame, i: nat, n: nat)
    requires n <= |a| && n <= |b|
    ensures i <= n ==> STEP * SampledDiffs(a, b, i, n) <= n - i + STEP - 1
    ensures SampledDiffs(a, b, i, n) == 0 <==> forall k: nat :: k < n && Sampled(i, k) ==> a[k] == b[k]
    decreases n - i
  {
    if i < n {
      DiffsRange(a, b, i + STEP, n);
      assert Sampled(i, i);
      assert forall k: nat :: Sampled(i, k) <==> k == i || Sampled(i + STEP, k);
    }
  }

  /** The count is the number of sampled offsets at which the frames differ. */
  lemma {:induction false} DiffsCountOffsets(a: Frame, b: Frame, i: nat, n: nat)
    requires n <= |a| && n <= |b|
    ensures SampledDiffs(a, b, i, n) == |set k: nat | k < n && Sampled(i, k) && a[k] != b[k]|
    decreases n - i
  {
    var here := set k: nat | k < n && Sampled(i, k) && a[k] != b[k];
    if i < n {
      var later := set k: nat | k < n && Sampled(i + STEP, k) && a[k] != b[k];
      DiffsCountOffsets(a, b, i + STEP, n);
      SampledStep(i);
      hide Sampled;
      assert here == if a[i] != b[i] then later + {i} else later;
    } else {
      assert here == {};
    }
  }

  lemma SampledStep(i: nat)
    ensures !Sampled(i + STEP, i) && forall k: nat :: Sampled(i, k) <==> k == i || Sampled(i + STEP, k)
  {
  }

  /** Only every seventh byte counts: two frames that agree there are similar however much else differs. */
  lemma UnsampledBytesAreIgnored(a: Frame, b: Frame, tol: real)
    requires |a| == |b| && |a| > 0 && 0.0 < tol
    requires forall k: nat :: k < |a| && Sampled(0, k) ==> a[k] == b[k]
    ensures Similar(a, b, tol)
  {
    DiffsRange(a, b, 0, |a|);
    assert DiffRatio(a, b) == 0.0;
  }

  /** Similarity without division: seven times the differing samples, against the tolerated share of the bytes. */
  lemma SimilarIff(a: Frame, b: Frame, tol: real)
    ensures Similar(a, b, tol) <==>
            |a| == |b| && if |a| == 0 then 1.0 < tol
                          else STEP as real * SampledDiffs(a, b, 0, |a|) as real < tol * |a| as real
  {
    hide SampledDiffs;
    if |a| == |b| && |a| > 0 {
      SamplesOverBytes(SampledDiffs(a, b, 0, |a|), |a|, tol);
    }
  }

  lemma SamplesOverBytes(diffs: nat, n: nat, tol: real)
    requires 0 < n
    ensures diffs as real / (n as real / STEP as real) < tol <==> STEP as real * diffs as real < tol * n as real
  {
    var m := n as real / STEP as real;
    assert m * STEP as real == n as real;
    Quotient(diffs as real, m, tol);
    assert tol * n as real == (tol * m) * STEP as real;
  }

  lemma Quotient(d: real, m: real, tol: real)
    requires 0.0 < m
    ensures d / m < tol <==> d < tol * m
  {
    var q := d / m;
    assert q * m == d;
    if q < tol {
      assert (tol - q) * m > 0.0;
    } else {
      assert (q - tol) * m >= 0.0;
    }
  }

  /** How many of the first `n` bytes differ. */
  function AllDiffs(a: Frame, b: Frame, n: nat): nat
    requires n <= |a| && n <= |b|
  {
    if n == 0 then 0 else AllDiffs(a, b, n - 1) + if a[n - 1] != b[n - 1] then 1 else 0
  }

  lemma {:induction false} AllDiffsCountOffsets(a: Frame, b: Frame, n: nat)
    requires n <= |a| && n <= |b|
    ensures AllDiffs(a, b, n) == |set k: nat | k < n && a[k] != b[k]|
  {
    var here := set k: nat | k < n && a[k] != b[k];
    if n > 0 {
      AllDiffsCountOffsets(a, b, n - 1);
      var before := set k: nat | k < n - 1 && a[k] != b[k];
      assert here == if a[n - 1] != b[n - 1] then before + {n - 1} else before;
    }
  }

  /**
    The comparison itself, by offsets: the frames have one size, and seven times the number of offsets
    divisible by seven at which they differ is below the tolerated share of the bytes.
  */
  lemma SimilarCountsOffsets(a: Frame, b: Frame, tol: real)
    requires |a| == |b| > 0
    ensures Similar(a, b, tol) <==>
            7.0 * |set k: nat | k < |a| && k % 7 == 0 && a[k] != b[k]| as real < tol * |a| as real
  {
    SimilarIff(a, b, tol);
    DiffsCountOffsets(a, b, 0, |a|);
    assert (set k: nat | k < |a| && k % 7 == 0 && a[k] != b[k]) ==
           (set k: nat | k < |a| && Sampled(0, k) && a[k] != b[k]);
  }

  /** The rule of the documentation: the same size, and fewer than the tolerated share of the bytes differ. */
  predicate DocumentedSame(a: Frame, b: Frame, tol: real) {
    |a| == |b| && AllDiffs(a, b, |a|) as real < tol * |a| as real
  }

  /**
    Exactly when the comparison follows its documentation, for every tolerance: when the frames
    differ in size, or are not empty and one in seven of their differing bytes is sampled.
  */
  lemma DocumentedIffSamplesRepresentative(a: Frame, b: Frame)
    ensures (forall tol: real :: Similar(a, b, tol) <==> DocumentedSame(a, b, tol))
            <==> |a| != |b| || (|a| > 0 && STEP * SampledDiffs(a, b, 0, |a|) == AllDiffs(a, b, |a|))
  {
    hide SampledDiffs, AllDiffs, Similar, DiffRatio;
    forall tol: real
      ensures Similar(a, b, tol) <==>
              |a| == |b| && if |a| == 0 then 1.0 < tol
                            else STEP as real * SampledDiffs(a, b, 0, |a|) as real < tol * |a| as real
    {
      SimilarIff(a, b, tol);
    }
    if |a| == |b| {
      if |a| == 0 {
        assert Similar(a, b, 2.0) && !DocumentedSame(a, b, 2.0);
      } else {
        var sampled, all := STEP * SampledDiffs(a, b, 0, |a|), AllDiffs(a, b, |a|);
        if sampled != all {
          // A tolerance between the two counts tells the rules apart.
          var larger := if sampled < all then all else sampled;
          var tol := larger as real / |a| as real;
          assert tol * |a| as real == larger as real;
          assert Similar(a, b, tol) <==> sampled < larger;
          assert DocumentedSame(a, b, tol) <==> all < larger;
        }
      }
    }
  }

  /**
    Sampling goes wrong both ways: six of seven bytes may differ unnoticed, and one differing byte
    in seven thousand can be too many.
  */
  lemma SamplingIsNotTheShareOfBytes(still: Frame, changed: Frame)
    requires |still| == |changed| == 7 && still[0] == changed[0]
    requires forall k :: 1 <= k < 7 ==> still[k] != changed[k]
    ensures Similar(still, changed, 0.001) && !DocumentedSame(still, changed, 0.001)
    ensures var a, b := seq(7000, _ => 0), seq(7000, i => if i == 0 then 1 else 0);
            !Similar(a, b, 0.001) && DocumentedSame(a, b, 0.001)
  {
    UnsampledBytesAreIgnored(still, changed, 0.001);
    OnlyFirstAgrees(still, changed, 7);
    var a, b := seq(7000, _ => 0), seq(7000, i => if i == 0 then 1 else 0);
    SimilarIff(a, b, 0.001);
    assert SampledDiffs(a, b, 0, 7000) == 1 + SampledDiffs(a, b, STEP, 7000);
    OnlyFirstDiffers(a, b, 7000);
  }

  lemma {:induction false} OnlyFirstAgrees(a: Frame, b: Frame, n: nat)
    requires 0 < n <= |a| && n <= |b| && a[0] == b[0] && forall k :: 0 < k < n ==> a[k] != b[k]
    ensures AllDiffs(a, b, n) == n - 1
  {
    if n > 1 {
      OnlyFirstAgrees(a, b, n - 1);
    }
  }

  lemma {:induction false} OnlyFirstDiffers(a: Frame, b: Frame, n: nat)
    requires 0 < n <= |a| && n <= |b| && a[0] != b[0] && forall k :: 0 < k < n ==> a[k] == b[k]
    ensures AllDiffs(a, b, n) == 1
  {
    if n > 1 {
      OnlyFirstDiffers(a, b, n - 1);
    }
  }

  // ---------- Settling ----------

  /**
    One round of the loop: the clock at the deadline test, the frame after the sleep, and the two
    readings a similar frame leads to.  Readings the code does not take are never looked at.
  */
  datatype Round = Round(check: real, frame: Frame, age: real, elapsed: real)

  type Trace = nat -> Round

  datatype Settings = Settings(settle: real, timeout: real, poll: real, tol: real, minElapsed: real)

  function Before(first: Frame, trace: Trace, k: nat): Frame {
    if k == 0 then first else trace(k - 1).frame
  }

  predicate Same(first: Frame, trace: Trace, tol: real, k: nat) {
    Similar(Before(first, trace, k), trace(k).frame, tol)
  }

  /** The polls `s..k` are all similar to their predecessors, and `s` is the first of that unbroken run. */
  ghost predicate UnbrokenFrom(first: Frame, trace: Trace, tol: real, s: nat, k: nat) {
    && s <= k
    && (forall i :: s <= i <= k ==> Same(first, trace, tol, i))
    && (s == 0 || !Same(first, trace, tol, s - 1))
  }

  /** Poll `k` ends a run that started at an earlier poll at least `settle` ago, with `minElapsed` passed. */
  ghost predicate Settled(first: Frame, start: real, trace: Trace, p: Settings, k: nat) {
    exists s: nat :: s < k && UnbrokenFrom(first, trace, p.tol, s, k) &&
                trace(k).age - trace(s).age >= p.settle && trace(k).elapsed - start >= p.minElapsed
  }

  /** Poll `k` is reached: the deadline had not passed at any test up to it. */
  ghost predicate InTime(start: real, trace: Trace, p: Settings, k: nat) {
    forall j :: 0 <= j <= k ==> trace(j).check < start + p.timeout
  }

  /** The start of an unbroken run is determined by its end. */
  lemma RunStartUnique(first: Frame, trace: Trace, tol: real, s: nat, t: nat, k: nat)
    requires UnbrokenFrom(first, trace, tol, s, k) && UnbrokenFrom(first, trace, tol, t, k)
    ensures s == t
  {
  }

  /** Every round takes at least `poll` on the clock. */
  ghost predicate ClockAdvances(trace: Trace, poll: real) {
    forall k: nat :: trace(k).check + poll <= trace(k + 1).check
  }

  lemma NextPoll(trace: Trace, poll: real, k: nat)
    requires ClockAdvances(trace, poll)
    ensures trace(k).check + poll <= trace(k + 1).check
  {
  }

  /**
    True exactly when some poll in time is settled, and then at the first such poll; false only
    after the deadline, with no settled poll before it.  It ends because the clock advances by at
    least a positive `poll` every round.
  */
  method WaitStable(first: Frame, start: real, trace: Trace, p: Settings) returns (ok: bool, polls: nat)
    requires 0.0 < p.poll && ClockAdvances(trace, p.poll)
    ensures ok <==> exists k: nat :: InTime(start, trace, p, k) && Settled(first, start, trace, p, k)
    ensures ok ==> 0 < polls && InTime(start, trace, p, polls - 1) && Settled(first, start, trace, p, polls - 1)
    ensures ok ==> forall j :: 0 <= j < polls - 1 ==> !Settled(first, start, trace, p, j)
    ensures !ok ==> trace(polls).check >= start + p.timeout
    ensures !ok ==> forall j :: 0 <= j < polls ==>
                      trace(j).check < start + p.timeout && !Settled(first, start, trace, p, j)
  {
    hide Similar, Same, Settled, Watching, ClockAdvances;
    var deadline := start + p.timeout;
    var prev := first;
    var stableSince: Option<real> := None;
    ghost var s := 0;
    polls := 0;
    NothingWatched(first, trace, p.tol);
    while trace(polls).check < deadline
      invariant prev == Before(first, trace, polls)
      invariant forall j :: 0 <= j < polls ==> trace(j).check < deadline && !Settled(first, start, trace, p, j)
      invariant Watching(first, trace, p.tol, polls, stableSince, s)
      decreases (deadline - trace(polls).check) / p.poll
    {
      ghost var k := polls;
      var round := trace(polls);
      polls := polls + 1;
      var same := Similar(prev, round.frame, p.tol);
      prev := round.frame;
      OnePoll(first, start, trace, p, k, stableSince, s);
      if same {
        if stableSince == None {
          stableSince := Some(round.age);
          s := k;
        } else if round.age - stableSince.value >= p.settle && round.elapsed - start >= p.minElapsed {
          return true, polls;
        }
      } else {
        stableSince := None;
      }
      NextPoll(trace, p.poll, k);
      Progress(deadline, trace(k).check, trace(polls).check, p.poll);
    }
    NoneInTime(first, start, trace, p, polls);
    return false, polls;
  }

  /** What `stable_since` means after `polls` polls; `s` is the poll it was set at. */
  ghost predicate Watching(first: Frame, trace: Trace, tol: real, polls: nat, stableSince: Option<real>, s: nat) {
    && (stableSince == None ==> polls == 0 || !Same(first, trace, tol, polls - 1))
    && (stableSince.Some? ==>
          s < polls && UnbrokenFrom(first, trace, tol, s, polls - 1) && stableSince.value == trace(s).age)
  }

  lemma NothingWatched(first: Frame, trace: Trace, tol: real)
    ensures Watching(first, trace, tol, 0, None, 0)
  {
  }

  /**
    One poll: a change forgets the time, the first similar frame sets it and never settles, even
    with `settle` zero, and within a run settling is decided by the run's own start.
  */
  lemma OnePoll(first: Frame, start: real, trace: Trace, p: Settings, k: nat, since: Option<real>, s: nat)
    requires Watching(first, trace, p.tol, k, since, s)
    ensures Same(first, trace, p.tol, k) == Similar(Before(first, trace, k), trace(k).frame, p.tol)
    ensures !Same(first, trace, p.tol, k) ==>
              Watching(first, trace, p.tol, k + 1, None, s) && !Settled(first, start, trace, p, k)
    ensures Same(first, trace, p.tol, k) && since == None ==>
              Watching(first, trace, p.tol, k + 1, Some(trace(k).age), k) && !Settled(first, start, trace, p, k)
    ensures Same(first, trace, p.tol, k) && since.Some? ==>
              && Watching(first, trace, p.tol, k + 1, since, s)
              && (Settled(first, start, trace, p, k) <==>
                  trace(k).age - since.value >= p.settle && trace(k).elapsed - start >= p.minElapsed)
  {
    hide Similar;
    if Same(first, trace, p.tol, k) && since.Some? {
      assert UnbrokenFrom(first, trace, p.tol, s, k);
      forall t: nat | UnbrokenFrom(first, trace, p.tol, t, k)
        ensures t == s
      {
        RunStartUnique(first, trace, p.tol, s, t, k);
      }
    }
  }

  lemma NoneInTime(first: Frame, start: real, trace: Trace, p: Settings, polls: nat)
    requires trace(polls).check >= start + p.timeout
    requires forall j :: 0 <= j < polls ==> !Settled(first, start, trace, p, j)
    ensures forall k: nat :: InTime(start, trace, p, k) ==> !Settled(first, start, trace, p, k)
  {
    hide Settled;
  }

  lemma PositiveProduct(x: real, y: real)
    requires 0.0 < x && 0.0 < y
    ensures 0.0 < x * y
  {
  }

  lemma Progress(deadline: real, now: real, later: real, poll: real)
    requires 0.0 < poll && now + poll <= later
    ensures (deadline - later) / poll <= (deadline - now) / poll - 1.0
  {
    var a, b := (deadline - later) / poll, (deadline - now) / poll;
    assert a * poll == deadline - later && b * poll == deadline - now;
    assert (a - b + 1.0) * poll == a * poll - b * poll + poll;
    if a > b - 1.0 {
      PositiveProduct(a - b + 1.0, poll);
    }
  }
}
