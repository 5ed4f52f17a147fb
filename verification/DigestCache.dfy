/**
  The SHA256 sidecar cache as small steps: any number of callers stat, load, read, check and
  replace, interleaved with writers of the file and with other programs that put or remove a
  sidecar of their own.  Every change of the file is assumed to give it a fingerprint it never
  had before; replacing the sidecar is one step.
*/
module DigestCache {

  type Content = seq<int>

  type Digest = string

  /** The hash function, already followed by `lower()`. */
  type Hash = Content -> Digest

  datatype Fingerprint = Fingerprint(size: int, mtime: int, ctime: int, inode: int)

  /** The sidecar file.  A foreign one carries the time it was put there. */
  datatype Sidecar =
    | Absent
    | Foreign(born: nat)
    | Entry(fp: Fingerprint, digest: Digest)

  /** Where a call is; `Hit` and `FreshHit` are answers that come from the cache. */
  datatype Phase =
    | Idle
    | Statted(fp: Fingerprint)
    | Reading(fp: Fingerprint, read: Content)
    | Hashed(fp: Fingerprint, digest: Digest)
    | Checked(fp: Fingerprint, digest: Digest, since: nat)
    | Loaded(entry: Sidecar)
    | Hit(fp: Fingerprint, digest: Digest)
    | FreshHit(fp: Fingerprint, digest: Digest)
    | Computed(digest: Digest)
    | Miss

  /** `history` remembers which content each fingerprint stood for. */
  datatype State = State(
    clock: nat,
    content: Content,
    fp: Fingerprint,
    history: map<Fingerprint, Content>,
    sidecar: Sidecar,
    calls: map<nat, Phase>)

  datatype Step =
    | ChangeFile(content: Content, fp: Fingerprint)
    | PutForeign
    | RemoveSidecar
    | Stat(pid: nat)               // cached_file_sha256: fingerprint first
    | Load(pid: nat)               // then the sidecar: hit, or start hashing
    | StatToRecord(pid: nat)       // record_file_sha256 with the stat taken before hashing
    | RecordNow(pid: nat, digest: Digest) // record_file_sha256 of a digest known from before, with the stat taken now
    | Read(pid: nat, n: nat)
    | EndOfFile(pid: nat)
    | Check(pid: nat)              // _write_sidecar: is the sidecar ours to replace?
    | Replace(pid: nat)
    | ReplaceFails(pid: nat)
    | LoadFresh(pid: nat)          // fresh_cached_sha256: the sidecar first
    | StatFresh(pid: nat)          // then the fingerprint
    | Return(pid: nat)

  function At(s: State, pid: nat): Phase { if pid in s.calls then s.calls[pid] else Idle }

  function To(s: State, pid: nat, phase: Phase): State { s.(clock := s.clock + 1, calls := s.calls[pid := phase]) }

  predicate Enabled(s: State, step: Step) {
    match step
    case ChangeFile(_, fp) => fp !in s.history
    case PutForeign => true
    case RemoveSidecar => true
    case Stat(pid) => At(s, pid).Idle?
    case StatToRecord(pid) => At(s, pid).Idle?
    case RecordNow(pid, _) => At(s, pid).Idle?
    case LoadFresh(pid) => At(s, pid).Idle?
    case Load(pid) => At(s, pid).Statted?
    case Read(pid, _) => At(s, pid).Reading?
    case EndOfFile(pid) => At(s, pid).Reading? && |At(s, pid).read| >= |s.content|
    case Check(pid) => At(s, pid).Hashed?
    case Replace(pid) => At(s, pid).Checked?
    case ReplaceFails(pid) => At(s, pid).Checked?
    case StatFresh(pid) => At(s, pid).Loaded?
    case Return(pid) => Answered(At(s, pid))
  }

  predicate Answered(phase: Phase) { phase.Hit? || phase.FreshHit? || phase.Computed? || phase.Miss? }

  /** The next block of the file as it is now, at the reader's offset. */
  function NextBlock(content: Content, offset: nat, n: nat): Content {
    if offset >= |content| then []
    else if offset + n <= |content| then content[offset..offset + n]
    else content[offset..]
  }

  function Do(s: State, step: Step, hash: Hash): State
    requires Enabled(s, step)
  {
    match step
    case ChangeFile(content, fp) =>
      s.(clock := s.clock + 1, content := content, fp := fp, history := s.history[fp := content])
    case PutForeign => s.(clock := s.clock + 1, sidecar := Foreign(s.clock))
    case RemoveSidecar => s.(clock := s.clock + 1, sidecar := Absent)
    case Stat(pid) => To(s, pid, Statted(s.fp))
    case Load(pid) =>
      var p := At(s, pid).fp;
      To(s, pid, if s.sidecar.Entry? && s.sidecar.fp == p then Hit(p, s.sidecar.digest) else Reading(p, []))
    case StatToRecord(pid) => To(s, pid, Reading(s.fp, []))
    case RecordNow(pid, digest) => To(s, pid, Hashed(s.fp, digest))
    case Read(pid, n) =>
      var r := At(s, pid);
      To(s, pid, Reading(r.fp, r.read + NextBlock(s.content, |r.read|, n)))
    case EndOfFile(pid) => To(s, pid, Hashed(At(s, pid).fp, hash(At(s, pid).read)))
    case Check(pid) =>
      var h := At(s, pid);
      To(s, pid, if s.sidecar.Foreign? then Computed(h.digest) else Checked(h.fp, h.digest, s.clock))
    case Replace(pid) =>
      var c := At(s, pid);
      To(s, pid, Computed(c.digest)).(sidecar := Entry(c.fp, c.digest))
    case ReplaceFails(pid) => To(s, pid, Computed(At(s, pid).digest))
    case LoadFresh(pid) => To(s, pid, if s.sidecar.Entry? then Loaded(s.sidecar) else Miss)
    case StatFresh(pid) =>
      var e := At(s, pid).entry;
      To(s, pid, if e.Entry? && e.fp == s.fp then FreshHit(s.fp, e.digest) else Miss)
    case Return(pid) => To(s, pid, Idle)
  }

  /** `steps` can be taken one after the other from `s`. */
  ghost predicate CanRun(s: State, steps: seq<Step>, hash: Hash)
    decreases |steps|
  {
    |steps| == 0 || (Enabled(s, steps[0]) && CanRun(Do(s, steps[0], hash), steps[1..], hash))
  }

  ghost function After(s: State, steps: seq<Step>, hash: Hash): State
    requires CanRun(s, steps, hash)
    decreases |steps|
  {
    if |steps| == 0 then s else After(Do(s, steps[0], hash), steps[1..], hash)
  }

  ghost predicate Initial(s: State) {
    && s.history == map[s.fp := s.content]
    && !s.sidecar.Entry? && (s.sidecar.Foreign? ==> s.sidecar.born < s.clock)
    && s.calls == map[]
  }

  /** A digest recorded with a stat taken now names the content the file has at that stat. */
  predicate Truthful(s: State, step: Step, hash: Hash) {
    step.RecordNow? ==> step.digest == hash(s.content)
  }

  ghost predicate TruthfulRun(s: State, steps: seq<Step>, hash: Hash)
    requires CanRun(s, steps, hash)
    decreases |steps|
  {
    |steps| == 0 || (Truthful(s, steps[0], hash) && TruthfulRun(Do(s, steps[0], hash), steps[1..], hash))
  }

  /** Some run whose recordings are truthful leads to `s`. */
  ghost predicate Reachable(s: State, hash: Hash) {
    exists s0, steps ::
      Initial(s0) && CanRun(s0, steps, hash) && TruthfulRun(s0, steps, hash) && After(s0, steps, hash) == s
  }

  // ---------- The invariant ----------

  /** A digest filed under a fingerprint is that of the content, unless the fingerprint is out of date. */
  ghost predicate FiledRight(s: State, fp: Fingerprint, digest: Digest, hash: Hash) {
    fp in s.history && (fp == s.fp ==> digest == hash(s.content))
  }

  ghost predicate EntryOk(s: State, e: Sidecar, hash: Hash) {
    e.Entry? ==> FiledRight(s, e.fp, e.digest, hash)
  }

  ghost predicate PhaseOk(s: State, phase: Phase, hash: Hash) {
    match phase
    case Statted(p) => p in s.history
    case Reading(p, read) => p in s.history && (p == s.fp ==> read <= s.content)
    case Hashed(p, digest) => FiledRight(s, p, digest, hash)
    case Checked(p, digest, _) => FiledRight(s, p, digest, hash)
    case Loaded(e) => EntryOk(s, e, hash)
    case Hit(p, _) => p in s.history
    case FreshHit(p, digest) => p in s.history && digest == hash(s.history[p])
    case _ => true
  }

  ghost predicate Inv(s: State, hash: Hash) {
    && s.fp in s.history && s.history[s.fp] == s.content
    && EntryOk(s, s.sidecar, hash)
    && (forall pid :: pid in s.calls ==> PhaseOk(s, s.calls[pid], hash))
  }

  lemma InitialInv(s: State, hash: Hash)
    requires Initial(s)
    ensures Inv(s, hash)
  {
  }

  lemma ReadKeepsPrefix(content: Content, read: Content, n: nat)
    requires read <= content
    ensures read + NextBlock(content, |read|, n) <= content
  {
  }

  /** A read goes on where the last one ended, and gets as much as it asked for unless the file ends. */
  lemma BlockIsNext(content: Content, offset: nat, n: nat)
    requires offset <= |content|
    ensures var block := NextBlock(content, offset, n);
            && block <= content[offset..]
            && |block| == if n <= |content| - offset then n else |content| - offset
  {
  }

  /** A change of the file leaves every phase in order: what was filed under the old fingerprint is now out of date. */
  lemma ChangeKeepsPhase(s: State, content: Content, fp: Fingerprint, phase: Phase, hash: Hash)
    requires PhaseOk(s, phase, hash) && fp !in s.history
    ensures PhaseOk(Do(s, ChangeFile(content, fp), hash), phase, hash)
  {
  }

  lemma StepKeepsPhase(s: State, step: Step, phase: Phase, hash: Hash)
    requires Enabled(s, step) && Inv(s, hash) && PhaseOk(s, phase, hash)
    ensures PhaseOk(Do(s, step, hash), phase, hash)
  {
    if step.ChangeFile? {
      ChangeKeepsPhase(s, step.content, step.fp, phase, hash);
    }
  }

  lemma StepMakesPhase(s: State, step: Step, pid: nat, hash: Hash)
    requires Enabled(s, step) && Truthful(s, step, hash) && Inv(s, hash)
    requires !step.ChangeFile? && !step.PutForeign? && !step.RemoveSidecar? && pid == step.pid
    ensures PhaseOk(Do(s, step, hash), At(Do(s, step, hash), pid), hash)
  {
    if pid in s.calls {
      assert PhaseOk(s, s.calls[pid], hash);
    }
    if step.EndOfFile? && At(s, pid).fp == s.fp {
      assert At(s, pid).read == s.content;
    }
    if step.Read? && At(s, pid).fp == s.fp {
      ReadKeepsPrefix(s.content, At(s, pid).read, step.n);
    }
  }

  /** Every step of every interleaving keeps the invariant, as long as recordings are truthful. */
  lemma StepKeepsInv(s: State, step: Step, hash: Hash)
    requires Inv(s, hash) && Enabled(s, step) && Truthful(s, step, hash)
    ensures Inv(Do(s, step, hash), hash)
  {
    hide PhaseOk;
    var s' := Do(s, step, hash);
    forall pid | pid in s'.calls
      ensures PhaseOk(s', s'.calls[pid], hash)
    {
      if pid in s.calls && s'.calls[pid] == s.calls[pid] {
        StepKeepsPhase(s, step, s.calls[pid], hash);
      } else {
        StepMakesPhase(s, step, pid, hash);
      }
    }
    if step.Replace? {
      CheckedIsFiledRight(s, step.pid, hash);
    }
  }

  lemma CheckedIsFiledRight(s: State, pid: nat, hash: Hash)
    requires Inv(s, hash) && At(s, pid).Checked?
    ensures FiledRight(s, At(s, pid).fp, At(s, pid).digest, hash)
  {
    assert PhaseOk(s, s.calls[pid], hash);
  }

  lemma {:induction false} RunKeepsInv(s: State, steps: seq<Step>, hash: Hash)
    requires Inv(s, hash) && CanRun(s, steps, hash) && TruthfulRun(s, steps, hash)
    ensures Inv(After(s, steps, hash), hash)
    decreases |steps|
  {
    if |steps| != 0 {
      StepKeepsInv(s, steps[0], hash);
      RunKeepsInv(Do(s, steps[0], hash), steps[1..], hash);
    }
  }

  lemma ReachableInv(s: State, hash: Hash)
    requires Reachable(s, hash)
    ensures Inv(s, hash)
  {
    hide Inv;
    var s0, steps :|
      Initial(s0) && CanRun(s0, steps, hash) && TruthfulRun(s0, steps, hash) && After(s0, steps, hash) == s;
    InitialInv(s0, hash);
    RunKeepsInv(s0, steps, hash);
  }

  // ---------- Hits ----------

  /** The call `pid`, about to load the sidecar, gets its answer from it. */
  ghost predicate WillHit(s: State, pid: nat) {
    At(s, pid).Statted? && s.sidecar.Entry? && s.sidecar.fp == At(s, pid).fp
  }

  /** That answer is the digest of the content the file had when the call took its stat. */
  ghost predicate HitIsTrue(s: State, pid: nat, hash: Hash)
    requires WillHit(s, pid)
  {
    At(s, pid).fp in s.history && s.sidecar.digest == hash(s.history[At(s, pid).fp])
  }

  /** `fresh_cached_sha256` loads before it stats: in every interleaving its answers are true digests. */
  lemma FreshHitsAreTrue(s: State, pid: nat, hash: Hash)
    requires Reachable(s, hash) && At(s, pid).FreshHit?
    ensures At(s, pid).fp in s.history && At(s, pid).digest == hash(s.history[At(s, pid).fp])
  {
    ReachableInv(s, hash);
    assert PhaseOk(s, s.calls[pid], hash);
  }

  /** A hit of `cached_file_sha256` is true whenever the file has not changed between its stat and its load. */
  lemma UnchangedHitIsTrue(s: State, pid: nat, hash: Hash)
    requires Reachable(s, hash) && WillHit(s, pid) && At(s, pid).fp == s.fp
    ensures HitIsTrue(s, pid, hash)
  {
    ReachableInv(s, hash);
  }

  /** All hits of calls that saw `st` are true when the file now has the fingerprint `now`. */
  ghost predicate AlwaysTrueFor(st: Fingerprint, now: Fingerprint, hash: Hash) {
    forall s, pid :: Reachable(s, hash) && WillHit(s, pid) && At(s, pid).fp == st && s.fp == now
                     ==> HitIsTrue(s, pid, hash)
  }

  /** A step from a reachable state leads to a reachable state. */
  lemma ReachableStep(s: State, step: Step, hash: Hash)
    requires Reachable(s, hash) && Enabled(s, step) && Truthful(s, step, hash)
    ensures Reachable(Do(s, step, hash), hash)
  {
    hide Do, Enabled;
    var s0, steps :|
      Initial(s0) && CanRun(s0, steps, hash) && TruthfulRun(s0, steps, hash) && After(s0, steps, hash) == s;
    Append(s0, steps, step, hash);
  }

  lemma {:induction false} Append(s: State, steps: seq<Step>, step: Step, hash: Hash)
    requires CanRun(s, steps, hash) && Enabled(After(s, steps, hash), step)
    ensures CanRun(s, steps + [step], hash)
    ensures TruthfulRun(s, steps, hash) && Truthful(After(s, steps, hash), step, hash) ==>
              TruthfulRun(s, steps + [step], hash)
    ensures After(s, steps + [step], hash) == Do(After(s, steps, hash), step, hash)
    decreases |steps|
  {
    hide Do, Enabled;
    if |steps| == 0 {
      assert steps + [step] == [step];
      Nothing(Do(s, step, hash), hash);
      Prepend(s, step, [], Do(s, step, hash), hash);
    } else {
      Append(Do(s, steps[0], hash), steps[1..], step, hash);
      assert (steps + [step])[1..] == steps[1..] + [step];
    }
  }

  /**
    Two calls stat the same version `a` of the file; it changes to `b` while the first one hashes;
    the first one files the digest of `b` under the old fingerprint, and the second one believes it.
  */
  lemma WrongHit(a: Content, b: Content, st: Fingerprint, now: Fingerprint, hash: Hash) returns (s: State)
    requires st != now && hash(a) != hash(b)
    ensures Reachable(s, hash) && WillHit(s, 1) && At(s, 1).fp == st && s.fp == now
    ensures !HitIsTrue(s, 1, hash)
  {
    hide CanRun, After, Reachable;
    var s4 := ChangedWhileHashing(a, b, st, now, hash);
    ReachableStep(s4, Read(0, |b|), hash);
    var s5 := Do(s4, Read(0, |b|), hash);
    assert At(s5, 0) == Reading(st, b);
    ReachableStep(s5, EndOfFile(0), hash);
    var s6 := Do(s5, EndOfFile(0), hash);
    ReachableStep(s6, Check(0), hash);
    var s7 := Do(s6, Check(0), hash);
    ReachableStep(s7, Replace(0), hash);
    s := Do(s7, Replace(0), hash);
  }

  lemma ChangedWhileHashing(a: Content, b: Content, st: Fingerprint, now: Fingerprint, hash: Hash) returns (s: State)
    requires st != now
    ensures Reachable(s, hash) && s.content == b && s.fp == now && s.sidecar == Absent
    ensures s.history == map[st := a, now := b] && s.calls == map[1 := Statted(st), 0 := Reading(st, [])]
  {
    hide CanRun, After, Reachable;
    var s0 := State(0, a, st, map[st := a], Absent, map[]);
    Nothing(s0, hash);
    ReachedFrom(s0, [], s0, hash);
    ReachableStep(s0, Stat(1), hash);
    var s1 := Do(s0, Stat(1), hash);
    ReachableStep(s1, Stat(0), hash);
    var s2 := Do(s1, Stat(0), hash);
    ReachableStep(s2, Load(0), hash);
    var s3 := Do(s2, Load(0), hash);
    ReachableStep(s3, ChangeFile(b, now), hash);
    s := Do(s3, ChangeFile(b, now), hash);
  }

  /**
    A file that changes between two reads: the digest of the mixture that was read, which need not be
    that of either version, is filed under the old fingerprint, where no later stat finds it.
  */
  lemma TornRead(st: Fingerprint, now: Fingerprint, hash: Hash) returns (s: State)
    requires st != now
    ensures Reachable(s, hash) && s.history == map[st := [1, 2], now := [3, 4]] && s.fp == now
    ensures s.sidecar == Entry(st, hash([1, 4]))
  {
    hide CanRun, After, Reachable;
    var s0 := State(0, [1, 2], st, map[st := [1, 2]], Absent, map[]);
    Nothing(s0, hash);
    ReachedFrom(s0, [], s0, hash);
    ReachableStep(s0, Stat(0), hash);
    var s1 := Do(s0, Stat(0), hash);
    ReachableStep(s1, Load(0), hash);
    var s2 := Do(s1, Load(0), hash);
    ReachableStep(s2, Read(0, 1), hash);
    var s3 := Do(s2, Read(0, 1), hash);
    assert At(s3, 0) == Reading(st, [1]);
    ReachableStep(s3, ChangeFile([3, 4], now), hash);
    var s4 := Do(s3, ChangeFile([3, 4], now), hash);
    ReachableStep(s4, Read(0, 1), hash);
    var s5 := Do(s4, Read(0, 1), hash);
    assert At(s5, 0) == Reading(st, [1, 4]);
    s := TornDigest(s5, st, hash);
  }

  lemma TornDigest(s5: State, st: Fingerprint, hash: Hash) returns (s: State)
    requires Reachable(s5, hash) && At(s5, 0) == Reading(st, [1, 4]) && s5.sidecar == Absent && s5.content == [3, 4]
    ensures Reachable(s, hash) && s.history == s5.history && s.fp == s5.fp && s.sidecar == Entry(st, hash([1, 4]))
  {
    hide CanRun, After, Reachable;
    ReachableStep(s5, EndOfFile(0), hash);
    var s6 := Do(s5, EndOfFile(0), hash);
    ReachableStep(s6, Check(0), hash);
    var s7 := Do(s6, Check(0), hash);
    ReachableStep(s7, Replace(0), hash);
    s := Do(s7, Replace(0), hash);
  }

  lemma Nothing(s: State, hash: Hash)
    ensures CanRun(s, [], hash) && TruthfulRun(s, [], hash) && After(s, [], hash) == s
  {
  }

  lemma Prepend(s: State, step: Step, rest: seq<Step>, end: State, hash: Hash)
    requires Enabled(s, step) && CanRun(Do(s, step, hash), rest, hash) && After(Do(s, step, hash), rest, hash) == end
    ensures CanRun(s, [step] + rest, hash) && After(s, [step] + rest, hash) == end
    ensures Truthful(s, step, hash) && TruthfulRun(Do(s, step, hash), rest, hash) ==>
              TruthfulRun(s, [step] + rest, hash)
  {
    hide Do, Enabled;
    assert ([step] + rest)[1..] == rest;
  }

  lemma ReachedFrom(s0: State, steps: seq<Step>, s: State, hash: Hash)
    requires Initial(s0) && CanRun(s0, steps, hash) && TruthfulRun(s0, steps, hash) && After(s0, steps, hash) == s
    ensures Reachable(s, hash)
  {
  }

  /**
    Exactly when hits are safe among concurrent callers: all hits of calls that saw `st`, on a file
    that now has `now`, are true if and only if the two fingerprints are equal.
  */
  lemma HitsTrueIffFileUnchanged(st: Fingerprint, now: Fingerprint, a: Content, b: Content, hash: Hash)
    requires hash(a) != hash(b)
    ensures AlwaysTrueFor(st, now, hash) <==> st == now
  {
    hide Reachable, HitIsTrue;
    if st == now {
      forall s, pid | Reachable(s, hash) && WillHit(s, pid) && At(s, pid).fp == st && s.fp == now
        ensures HitIsTrue(s, pid, hash)
      {
        UnchangedHitIsTrue(s, pid, hash);
      }
    } else {
      var s := WrongHit(a, b, st, now, hash);
    }
  }

  /**
    A fingerprint the file once had and lost never comes back, so what is filed under it never
    matches a later stat.
  */
  lemma {:induction false} LostFingerprintStaysLost(s: State, steps: seq<Step>, lost: Fingerprint, hash: Hash)
    requires CanRun(s, steps, hash) && lost in s.history && lost != s.fp
    ensures After(s, steps, hash).fp != lost
    decreases |steps|
  {
    if |steps| != 0 {
      LostFingerprintStaysLost(Do(s, steps[0], hash), steps[1..], lost, hash);
    }
  }

  /**
    An entry whose digest is not that of the content its fingerprint stood for is dead: no later
    stat, in any run, matches it.
  */
  lemma SpoiledEntryNeverMatchesAgain(s: State, steps: seq<Step>, hash: Hash)
    requires Reachable(s, hash) && CanRun(s, steps, hash)
    requires s.sidecar.Entry? && s.sidecar.fp in s.history && s.sidecar.digest != hash(s.history[s.sidecar.fp])
    ensures After(s, steps, hash).fp != s.sidecar.fp
  {
    ReachableInv(s, hash);
    LostFingerprintStaysLost(s, steps, s.sidecar.fp, hash);
  }

  // ---------- One call at a time ----------

  predicate Starts(step: Step) { step.Stat? || step.StatToRecord? || step.RecordNow? || step.LoadFresh? }

  predicate Busy(phase: Phase) { !phase.Idle? && !Answered(phase) }

  ghost predicate NobodyBusy(s: State) {
    forall pid :: pid in s.calls ==> !Busy(s.calls[pid])
  }

  /** A run in which a call starts only when no other call is under way; writers interleave freely. */
  ghost predicate OneCallAtATime(s: State, steps: seq<Step>, hash: Hash)
    requires CanRun(s, steps, hash)
    decreases |steps|
  {
    |steps| == 0 || ((Starts(steps[0]) ==> NobodyBusy(s)) && OneCallAtATime(Do(s, steps[0], hash), steps[1..], hash))
  }

  ghost predicate SerialInv(s: State, hash: Hash) {
    && Inv(s, hash)
    && (forall p, q :: p in s.calls && q in s.calls && Busy(s.calls[p]) && Busy(s.calls[q]) ==> p == q)
    && (forall p :: p in s.calls && WillHit(s, p) ==> HitIsTrue(s, p, hash))
    && (forall p :: p in s.calls && s.calls[p].Hit? ==>
          s.calls[p].fp in s.history && s.calls[p].digest == hash(s.history[s.calls[p].fp]))
  }

  lemma SerialStep(s: State, step: Step, hash: Hash)
    requires SerialInv(s, hash) && Enabled(s, step) && Truthful(s, step, hash) && (Starts(step) ==> NobodyBusy(s))
    ensures SerialInv(Do(s, step, hash), hash)
  {
    hide Inv, Do, Enabled, WillHit, HitIsTrue, Busy;
    StepKeepsInv(s, step, hash);
    var s' := Do(s, step, hash);
    forall p | p in s'.calls && WillHit(s', p)
      ensures HitIsTrue(s', p, hash)
    {
      SerialWillHit(s, step, p, hash);
    }
    forall p, q | p in s'.calls && q in s'.calls && Busy(s'.calls[p]) && Busy(s'.calls[q])
      ensures p == q
    {
      SerialBusy(s, step, p, q, hash);
    }
    forall p | p in s'.calls && s'.calls[p].Hit?
      ensures s'.calls[p].fp in s'.history && s'.calls[p].digest == hash(s'.history[s'.calls[p].fp])
    {
      SerialHit(s, step, p, hash);
    }
  }

  /** Only a starting call makes a process busy. */
  lemma SerialBusy(s: State, step: Step, p: nat, q: nat, hash: Hash)
    requires SerialInv(s, hash) && Enabled(s, step) && (Starts(step) ==> NobodyBusy(s))
    requires var s' := Do(s, step, hash);
             p in s'.calls && q in s'.calls && Busy(s'.calls[p]) && Busy(s'.calls[q])
    ensures p == q
  {
    hide Inv, WillHit, HitIsTrue;
  }

  lemma SerialHit(s: State, step: Step, p: nat, hash: Hash)
    requires SerialInv(s, hash) && Enabled(s, step)
    requires p in Do(s, step, hash).calls && Do(s, step, hash).calls[p].Hit?
    ensures var s' := Do(s, step, hash);
            s'.calls[p].fp in s'.history && s'.calls[p].digest == hash(s'.history[s'.calls[p].fp])
  {
    hide Inv, Busy;
    if step == Load(p) {
      assert WillHit(s, p);
    }
  }

  lemma SerialWillHit(s: State, step: Step, p: nat, hash: Hash)
    requires SerialInv(s, hash) && Enabled(s, step) && (Starts(step) ==> NobodyBusy(s))
    requires WillHit(Do(s, step, hash), p)
    ensures HitIsTrue(Do(s, step, hash), p, hash)
  {
    if step != Stat(p) {
      assert Busy(s.calls[p]);
      assert step.Replace? ==> Busy(s.calls[step.pid]);
      assert WillHit(s, p);
    }
  }

  /** All answers that calls of `cached_file_sha256` have got from the cache are true. */
  ghost predicate HitsTrue(s: State, hash: Hash) {
    forall pid :: pid in s.calls && s.calls[pid].Hit? ==>
      s.calls[pid].fp in s.history && s.calls[pid].digest == hash(s.history[s.calls[pid].fp])
  }

  /** The same for `fresh_cached_sha256`. */
  ghost predicate FreshHitsTrue(s: State, hash: Hash) {
    forall pid :: pid in s.calls && s.calls[pid].FreshHit? ==>
      s.calls[pid].fp in s.history && s.calls[pid].digest == hash(s.history[s.calls[pid].fp])
  }

  lemma {:induction false} SerialRun(s: State, steps: seq<Step>, hash: Hash)
    requires SerialInv(s, hash) && CanRun(s, steps, hash)
    requires OneCallAtATime(s, steps, hash) && TruthfulRun(s, steps, hash)
    ensures SerialInv(After(s, steps, hash), hash)
    decreases |steps|
  {
    hide SerialInv;
    if |steps| != 0 {
      SerialStep(s, steps[0], hash);
      SerialRun(Do(s, steps[0], hash), steps[1..], hash);
    }
  }

  lemma InitialSerial(s: State, hash: Hash)
    requires Initial(s)
    ensures SerialInv(s, hash)
  {
  }

  /** Without concurrent callers and with truthful recordings, every hit is true however the file changes in between. */
  lemma SerialHitsAreTrue(s: State, steps: seq<Step>, hash: Hash)
    requires Initial(s) && CanRun(s, steps, hash)
    requires OneCallAtATime(s, steps, hash) && TruthfulRun(s, steps, hash)
    ensures HitsTrue(After(s, steps, hash), hash)
  {
    hide CanRun, After, OneCallAtATime, TruthfulRun;
    InitialSerial(s, hash);
    SerialRun(s, steps, hash);
  }

  // ---------- Recording a digest known from before ----------

  /** The rest of a recording call, then one `fresh_cached_sha256`. */
  function RecordThenAskFresh(pid: nat): seq<Step> {
    [RemoveSidecar, Check(pid), Replace(pid), Return(pid), LoadFresh(pid), StatFresh(pid)]
  }

  /** The rest of a recording call, then one `cached_file_sha256` up to its answer. */
  function RecordThenAsk(pid: nat): seq<Step> {
    [RemoveSidecar, Check(pid), Replace(pid), Return(pid), Stat(pid), Load(pid)]
  }

  /** Any run of steps that are not recordings is truthful. */
  lemma {:induction false} NothingRecorded(s: State, steps: seq<Step>, hash: Hash)
    requires CanRun(s, steps, hash) && forall i :: 0 <= i < |steps| ==> !steps[i].RecordNow?
    ensures TruthfulRun(s, steps, hash)
    decreases |steps|
  {
    if |steps| != 0 {
      NothingRecorded(Do(s, steps[0], hash), steps[1..], hash);
    }
  }

  /** What a recording leaves once it has replaced the sidecar. */
  function Recorded(s: State, pid: nat, digest: Digest): State {
    s.(clock := s.clock + 4, sidecar := Entry(s.fp, digest), calls := s.calls[pid := Idle])
  }

  lemma RecordingSteps(s: State, pid: nat, digest: Digest, rest: seq<Step>, hash: Hash) returns (steps: seq<Step>)
    requires At(s, pid) == Hashed(s.fp, digest) && CanRun(Recorded(s, pid, digest), rest, hash)
    ensures steps == [RemoveSidecar, Check(pid), Replace(pid), Return(pid)] + rest
    ensures CanRun(s, steps, hash) && After(s, steps, hash) == After(Recorded(s, pid, digest), rest, hash)
  {
    hide CanRun, After;
    var final := After(Recorded(s, pid, digest), rest, hash);
    var s1 := Do(s, RemoveSidecar, hash);
    var s2 := Do(s1, Check(pid), hash);
    var s3 := Do(s2, Replace(pid), hash);
    assert s.calls[pid := Checked(s.fp, digest, s1.clock)][pid := Computed(digest)][pid := Idle] ==
           s.calls[pid := Idle];
    Prepend(s3, Return(pid), rest, final, hash);
    Prepend(s2, Replace(pid), [Return(pid)] + rest, final, hash);
    Prepend(s1, Check(pid), [Replace(pid)] + ([Return(pid)] + rest), final, hash);
    steps := [RemoveSidecar] + ([Check(pid)] + ([Replace(pid)] + ([Return(pid)] + rest)));
    Prepend(s, RemoveSidecar, [Check(pid)] + ([Replace(pid)] + ([Return(pid)] + rest)), final, hash);
    assert steps == [RemoveSidecar, Check(pid), Replace(pid), Return(pid)] + rest;
  }

  lemma AskFreshAfterRecording(s: State, pid: nat, digest: Digest, hash: Hash)
    requires At(s, pid) == Hashed(s.fp, digest)
    ensures CanRun(s, RecordThenAskFresh(pid), hash)
    ensures var end := After(s, RecordThenAskFresh(pid), hash);
            pid in end.calls && end.calls[pid] == FreshHit(s.fp, digest) && end.history == s.history
  {
    hide CanRun, After;
    var t := Recorded(s, pid, digest);
    var t1 := Do(t, LoadFresh(pid), hash);
    var end := Do(t1, StatFresh(pid), hash);
    Nothing(end, hash);
    Prepend(t1, StatFresh(pid), [], end, hash);
    Prepend(t, LoadFresh(pid), [StatFresh(pid)] + [], end, hash);
    var steps := RecordingSteps(s, pid, digest, [LoadFresh(pid)] + ([StatFresh(pid)] + []), hash);
    assert steps == RecordThenAskFresh(pid);
  }

  lemma AskAfterRecording(s: State, pid: nat, digest: Digest, hash: Hash)
    requires At(s, pid) == Hashed(s.fp, digest)
    ensures CanRun(s, RecordThenAsk(pid), hash)
    ensures var end := After(s, RecordThenAsk(pid), hash);
            pid in end.calls && end.calls[pid] == Hit(s.fp, digest) && end.history == s.history
  {
    hide CanRun, After;
    var t := Recorded(s, pid, digest);
    var t1 := Do(t, Stat(pid), hash);
    var end := Do(t1, Load(pid), hash);
    Nothing(end, hash);
    Prepend(t1, Load(pid), [], end, hash);
    Prepend(t, Stat(pid), [Load(pid)] + [], end, hash);
    var steps := RecordingSteps(s, pid, digest, [Stat(pid)] + ([Load(pid)] + []), hash);
    assert steps == RecordThenAsk(pid);
  }

  /**
    Exactly when recording a known digest is safe: from a reachable state, every later answer of
    `fresh_cached_sha256` is true if and only if the digest is that of the content at the stat.
  */
  lemma RecordingSafeIffTruthful(s: State, pid: nat, digest: Digest, hash: Hash)
    requires Reachable(s, hash) && At(s, pid).Idle?
    ensures (forall steps ::
               CanRun(Do(s, RecordNow(pid, digest), hash), steps, hash) &&
               TruthfulRun(Do(s, RecordNow(pid, digest), hash), steps, hash) ==>
               FreshHitsTrue(After(Do(s, RecordNow(pid, digest), hash), steps, hash), hash))
            <==> digest == hash(s.content)
  {
    var s1 := Do(s, RecordNow(pid, digest), hash);
    ReachableInv(s, hash);
    if digest == hash(s.content) {
      StepKeepsInv(s, RecordNow(pid, digest), hash);
      forall steps | CanRun(s1, steps, hash) && TruthfulRun(s1, steps, hash)
        ensures FreshHitsTrue(After(s1, steps, hash), hash)
      {
        RunKeepsInv(s1, steps, hash);
        InvFreshHitsTrue(After(s1, steps, hash), hash);
      }
    } else {
      WrongFreshAnswer(s1, pid, digest, hash);
    }
  }

  lemma InvFreshHitsTrue(s: State, hash: Hash)
    requires Inv(s, hash)
    ensures FreshHitsTrue(s, hash)
  {
    forall pid | pid in s.calls && s.calls[pid].FreshHit?
      ensures s.calls[pid].fp in s.history && s.calls[pid].digest == hash(s.history[s.calls[pid].fp])
    {
      assert PhaseOk(s, s.calls[pid], hash);
    }
  }

  lemma WrongFreshAnswer(s: State, pid: nat, digest: Digest, hash: Hash)
    requires At(s, pid) == Hashed(s.fp, digest) && s.fp in s.history && digest != hash(s.history[s.fp])
    ensures exists steps ::
              CanRun(s, steps, hash) && TruthfulRun(s, steps, hash) && !FreshHitsTrue(After(s, steps, hash), hash)
  {
    hide CanRun, After, TruthfulRun;
    AskFreshAfterRecording(s, pid, digest, hash);
    NothingRecorded(s, RecordThenAskFresh(pid), hash);
  }

  /** With one call at a time, the answers of `cached_file_sha256` are safe under the same condition. */
  lemma SerialRecordingSafeIffTruthful(s: State, pid: nat, digest: Digest, hash: Hash)
    requires SerialInv(s, hash) && NobodyBusy(s) && At(s, pid).Idle?
    ensures (forall steps ::
               CanRun(Do(s, RecordNow(pid, digest), hash), steps, hash) &&
               OneCallAtATime(Do(s, RecordNow(pid, digest), hash), steps, hash) &&
               TruthfulRun(Do(s, RecordNow(pid, digest), hash), steps, hash) ==>
               HitsTrue(After(Do(s, RecordNow(pid, digest), hash), steps, hash), hash))
            <==> digest == hash(s.content)
  {
    var s1 := Do(s, RecordNow(pid, digest), hash);
    if digest == hash(s.content) {
      SerialStep(s, RecordNow(pid, digest), hash);
      forall steps | CanRun(s1, steps, hash) && OneCallAtATime(s1, steps, hash) && TruthfulRun(s1, steps, hash)
        ensures HitsTrue(After(s1, steps, hash), hash)
      {
        SerialRun(s1, steps, hash);
      }
    } else {
      WrongSerialAnswer(s1, pid, digest, hash);
    }
  }

  lemma WrongSerialAnswer(s: State, pid: nat, digest: Digest, hash: Hash)
    requires At(s, pid) == Hashed(s.fp, digest) && s.fp in s.history && digest != hash(s.history[s.fp])
    requires forall p :: p in s.calls && p != pid ==> !Busy(s.calls[p])
    ensures exists steps ::
              && CanRun(s, steps, hash) && OneCallAtATime(s, steps, hash) && TruthfulRun(s, steps, hash)
              && !HitsTrue(After(s, steps, hash), hash)
  {
    hide CanRun, After, TruthfulRun, OneCallAtATime;
    AskAfterRecording(s, pid, digest, hash);
    NothingRecorded(s, RecordThenAsk(pid), hash);
    OnlyThisCall(s, pid, RecordThenAsk(pid), hash);
  }

  /** Steps of a single process are one call at a time when nobody else is busy and it starts only when it is not. */
  lemma {:induction false} OnlyThisCall(s: State, pid: nat, steps: seq<Step>, hash: Hash)
    requires CanRun(s, steps, hash) && forall p :: p in s.calls && p != pid ==> !Busy(s.calls[p])
    requires forall i :: 0 <= i < |steps| ==> steps[i].RemoveSidecar? || (OfProcess(steps[i], pid))
    ensures OneCallAtATime(s, steps, hash)
    decreases |steps|
  {
    if |steps| != 0 {
      assert steps[0].RemoveSidecar? || OfProcess(steps[0], pid);
      OnlyThisCall(Do(s, steps[0], hash), pid, steps[1..], hash);
    }
  }

  predicate OfProcess(step: Step, pid: nat) {
    !step.ChangeFile? && !step.PutForeign? && !step.RemoveSidecar? && step.pid == pid
  }

  // ---------- Foreign sidecars ----------

  /** Whoever has checked did so before the foreign sidecar that is there now appeared. */
  ghost predicate ForeignIsLate(s: State) {
    && (s.sidecar.Foreign? ==> s.sidecar.born < s.clock)
    && (forall pid :: pid in s.calls && s.calls[pid].Checked? ==>
          s.calls[pid].since < s.clock && (s.sidecar.Foreign? ==> s.calls[pid].since < s.sidecar.born))
  }

  lemma {:induction false} ForeignStaysLate(s: State, steps: seq<Step>, hash: Hash)
    requires ForeignIsLate(s) && CanRun(s, steps, hash)
    ensures ForeignIsLate(After(s, steps, hash))
    decreases |steps|
  {
    if |steps| != 0 {
      ForeignStaysLate(Do(s, steps[0], hash), steps[1..], hash);
    }
  }

  lemma {:induction false} ForeignAppeared(s: State, steps: seq<Step>, hash: Hash) returns (j: nat)
    requires !s.sidecar.Foreign? && CanRun(s, steps, hash) && After(s, steps, hash).sidecar.Foreign?
    ensures j < |steps| && steps[j] == PutForeign
    decreases |steps|
  {
    if steps[0] == PutForeign {
      j := 0;
    } else {
      j := ForeignAppeared(Do(s, steps[0], hash), steps[1..], hash);
      j := j + 1;
    }
  }

  /** A call that ends between check and replacement made a check, and saw no foreign sidecar at its last one. */
  lemma {:induction false} LastCheck(s: State, steps: seq<Step>, pid: nat, hash: Hash) returns (i: nat, j: nat)
    requires CanRun(s, steps, hash) && !At(s, pid).Checked?
    requires At(After(s, steps, hash), pid).Checked? && After(s, steps, hash).sidecar.Foreign?
    ensures i < j < |steps| && steps[i] == Check(pid) && steps[j] == PutForeign
    ensures forall k :: i < k < |steps| ==> steps[k] != Check(pid)
    decreases |steps|
  {
    var s1 := Do(s, steps[0], hash);
    assert forall k :: 0 < k < |steps| ==> steps[k] == steps[1..][k - 1];
    if At(s1, pid).Checked? && forall k :: 0 < k < |steps| ==> steps[k] != Check(pid) {
      assert steps[0] == Check(pid) && !s1.sidecar.Foreign?;
      i := 0;
      j := ForeignAppeared(s1, steps[1..], hash);
      j := j + 1;
    } else if At(s1, pid).Checked? {
      i, j := LaterCheck(s1, steps[1..], pid, hash);
      i, j := i + 1, j + 1;
    } else {
      i, j := LastCheck(s1, steps[1..], pid, hash);
      i, j := i + 1, j + 1;
    }
  }

  /** The same for a call that is at that place before, but checks again. */
  lemma {:induction false} LaterCheck(s: State, steps: seq<Step>, pid: nat, hash: Hash) returns (i: nat, j: nat)
    requires CanRun(s, steps, hash) && At(s, pid).Checked?
    requires exists k :: 0 <= k < |steps| && steps[k] == Check(pid)
    requires At(After(s, steps, hash), pid).Checked? && After(s, steps, hash).sidecar.Foreign?
    ensures i < j < |steps| && steps[i] == Check(pid) && steps[j] == PutForeign
    ensures forall k :: i < k < |steps| ==> steps[k] != Check(pid)
    decreases |steps|
  {
    var s1 := Do(s, steps[0], hash);
    assert forall k :: 0 < k < |steps| ==> steps[k] == steps[1..][k - 1];
    if At(s1, pid).Checked? {
      var k :| 0 <= k < |steps| && steps[k] == Check(pid);
      assert steps[1..][k - 1] == Check(pid);
      i, j := LaterCheck(s1, steps[1..], pid, hash);
    } else {
      i, j := LastCheck(s1, steps[1..], pid, hash);
    }
    i, j := i + 1, j + 1;
  }

  /** In every run, a replacement destroys a foreign sidecar only if that file appeared after the call's last check. */
  lemma OnlyLateForeignIsOverwritten(s0: State, steps: seq<Step>, pid: nat, hash: Hash) returns (i: nat, j: nat)
    requires Initial(s0) && CanRun(s0, steps, hash)
    requires Enabled(After(s0, steps, hash), Replace(pid)) && After(s0, steps, hash).sidecar.Foreign?
    ensures i < j < |steps| && steps[i] == Check(pid) && steps[j] == PutForeign
    ensures forall k :: i < k < |steps| ==> steps[k] != Check(pid)
    ensures At(After(s0, steps, hash), pid).since < After(s0, steps, hash).sidecar.born
  {
    ForeignStaysLate(s0, steps, hash);
    i, j := LastCheck(s0, steps, pid, hash);
  }

  predicate LeavesSidecarsAlone(steps: seq<Step>) {
    forall i :: 0 <= i < |steps| ==> !steps[i].PutForeign? && !steps[i].RemoveSidecar?
  }

  ghost predicate SomeoneChecked(s: State) {
    exists pid :: pid in s.calls && s.calls[pid].Checked?
  }

  lemma {:induction false} ForeignStays(s: State, steps: seq<Step>, hash: Hash)
    requires s.sidecar.Foreign? && !SomeoneChecked(s) && CanRun(s, steps, hash) && LeavesSidecarsAlone(steps)
    ensures After(s, steps, hash).sidecar == s.sidecar
    decreases |steps|
  {
    if |steps| != 0 {
      var s1 := Do(s, steps[0], hash);
      assert !steps[0].PutForeign? && !steps[0].RemoveSidecar?;
      assert s1.sidecar == s.sidecar;
      forall pid | pid in s1.calls
        ensures !s1.calls[pid].Checked?
      {
        assert pid in s.calls ==> !s.calls[pid].Checked?;
      }
      ForeignStays(s1, steps[1..], hash);
    }
  }

  /** Callers can destroy a foreign sidecar put in place at `s` exactly when a call stands between check and replace. */
  lemma ForeignLostIffCheckedBefore(s: State, hash: Hash)
    ensures (exists steps :: LeavesSidecarsAlone(steps) && CanRun(Do(s, PutForeign, hash), steps, hash) &&
                             !After(Do(s, PutForeign, hash), steps, hash).sidecar.Foreign?)
            <==> SomeoneChecked(s)
  {
    var s1 := Do(s, PutForeign, hash);
    if SomeoneChecked(s) {
      var pid :| pid in s.calls && s.calls[pid].Checked?;
      var s2 := Do(s1, Replace(pid), hash);
      Nothing(s2, hash);
      Prepend(s1, Replace(pid), [], s2, hash);
      assert LeavesSidecarsAlone([Replace(pid)] + []);
    } else if steps :|
      LeavesSidecarsAlone(steps) && CanRun(s1, steps, hash) && !After(s1, steps, hash).sidecar.Foreign?
    {
      assert !SomeoneChecked(s1);
      ForeignStays(s1, steps, hash);
    }
  }

  /** Such a run: a foreign file put down between the check and the replacement of a recording call is gone. */
  lemma ForeignFileLost(s0: State, pid: nat, hash: Hash) returns (s: State)
    requires Initial(s0) && s0.sidecar == Absent
    ensures Reachable(s, hash) && s.sidecar.Foreign? && SomeoneChecked(s)
    ensures Enabled(s, Replace(pid)) && Do(s, Replace(pid), hash).sidecar == Entry(s0.fp, hash(s0.content))
  {
    hide CanRun, After, Reachable, TruthfulRun;
    Nothing(s0, hash);
    ReachedFrom(s0, [], s0, hash);
    var record := RecordNow(pid, hash(s0.content));
    ReachableStep(s0, record, hash);
    var s1 := Do(s0, record, hash);
    ReachableStep(s1, Check(pid), hash);
    var s2 := Do(s1, Check(pid), hash);
    ReachableStep(s2, PutForeign, hash);
    s := Do(s2, PutForeign, hash);
    assert s.calls[pid].Checked?;
  }
}
