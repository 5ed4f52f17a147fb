/**
  The calls of the digest cache without interference: the sidecar as a field that the methods
  replace.  `UninterruptedCall` ties them to the step machine in DigestCache.
*/
module DigestCalls {
  import opened Common
  import opened DigestCache

  // ---------- The sidecar file ----------

  const FORMAT := "adare-sha256-cache/1"

  /** A member of a JSON object, as far as `_load_sidecar` and the fingerprint comparison look at it. */
  datatype Json = Text(text: string) | Number(number: int) | Other

  /** The file as it lies on disk: missing, unreadable or not UTF-8, not JSON, no JSON object, or an object. */
  datatype RawSidecar =
    | Missing
    | Unreadable
    | NotJson
    | NotAnObject
    | Object(members: map<string, Json>)

  type Members = map<string, Json>

  /** `data.get('format') != _FORMAT or not isinstance(data.get('sha256'), str)`, negated. */
  predicate IsOurs(members: Members) {
    && "format" in members && members["format"] == Text(FORMAT)
    && "sha256" in members && members["sha256"].Text?
  }

  /** `entry.get(k) == v` for the four parts of a fingerprint. */
  predicate Matches(members: Members, fp: Fingerprint) {
    && "size" in members && members["size"] == Number(fp.size)
    && "mtime_ns" in members && members["mtime_ns"] == Number(fp.mtime)
    && "ctime_ns" in members && members["ctime_ns"] == Number(fp.ctime)
    && "inode" in members && members["inode"] == Number(fp.inode)
  }

  function Payload(fp: Fingerprint, digest: Digest): Members {
    map["format" := Text(FORMAT), "sha256" := Text(digest), "size" := Number(fp.size),
        "mtime_ns" := Number(fp.mtime), "ctime_ns" := Number(fp.ctime), "inode" := Number(fp.inode)]
  }

  /** All four parts of a fingerprint are there. */
  predicate IsComplete(members: Members) {
    && "size" in members && members["size"].Number? && "mtime_ns" in members && members["mtime_ns"].Number?
    && "ctime_ns" in members && members["ctime_ns"].Number? && "inode" in members && members["inode"].Number?
  }

  /**
    What the sidecar is to the step machine.  An object of ours without a complete fingerprint can
    never match and may be overwritten, so it counts as absent.
  */
  function View(raw: RawSidecar): Sidecar {
    match raw
    case Missing => Absent
    case Object(m) =>
      if !IsOurs(m) then Foreign(0)
      else if !IsComplete(m) then Absent
      else Entry(Fingerprint(m["size"].number, m["mtime_ns"].number, m["ctime_ns"].number, m["inode"].number),
                 m["sha256"].text)
    case _ => Foreign(0)
  }

  /** Comparing members one by one is comparing fingerprints. */
  lemma MatchesIffEntry(members: Members, fp: Fingerprint)
    requires IsOurs(members)
    ensures Matches(members, fp) <==> View(Object(members)) == Entry(fp, members["sha256"].text)
  {
  }

  /** What is written is read back as the same entry. */
  lemma PayloadIsEntry(fp: Fingerprint, digest: Digest)
    ensures IsOurs(Payload(fp, digest)) && View(Object(Payload(fp, digest))) == Entry(fp, digest)
  {
  }

  /**
    Member by member: a sidecar is an entry exactly when it is an object with the format string, a
    textual digest and the four numbers of the fingerprint; it is foreign when it exists without being
    an object of that format with a textual digest.
  */
  lemma EntryByMembers(raw: RawSidecar, fp: Fingerprint, digest: Digest)
    ensures View(raw) == Entry(fp, digest) <==>
            && raw.Object?
            && "format" in raw.members && raw.members["format"] == Text("adare-sha256-cache/1")
            && "sha256" in raw.members && raw.members["sha256"] == Text(digest)
            && "size" in raw.members && raw.members["size"] == Number(fp.size)
            && "mtime_ns" in raw.members && raw.members["mtime_ns"] == Number(fp.mtime)
            && "ctime_ns" in raw.members && raw.members["ctime_ns"] == Number(fp.ctime)
            && "inode" in raw.members && raw.members["inode"] == Number(fp.inode)
    ensures View(raw).Foreign? <==>
            raw != Missing && !(&& raw.Object?
                                && "format" in raw.members && raw.members["format"] == Text("adare-sha256-cache/1")
                                && "sha256" in raw.members && raw.members["sha256"].Text?)
  {
  }

  // ---------- Calls ----------

  /** The digest an undisturbed `cached_file_sha256` answers with. */
  function CallAnswer(content: Content, fp: Fingerprint, sidecar: Sidecar, hash: Hash): Digest {
    if sidecar.Entry? && sidecar.fp == fp then sidecar.digest else hash(content)
  }

  /** The sidecar it leaves behind; `writable` is false when the directory refuses the write. */
  function CallSidecar(content: Content, fp: Fingerprint, sidecar: Sidecar, writable: bool, hash: Hash): Sidecar {
    if (sidecar.Entry? && sidecar.fp == fp) || sidecar.Foreign? || !writable then sidecar
    else Entry(fp, hash(content))
  }

  class HashedFile {
    /** The hash function and `str.lower`; digests are compared and stored in lower case. */
    const compute: Hash
    const lower: Digest -> Digest
    var content: Content
    var fp: Fingerprint
    var raw: RawSidecar

    function Digested(): Digest
      reads this
    {
      lower(compute(content))
    }

    function LowerHash(): Hash { c => lower(compute(c)) }

    /** An entry that matches the file's fingerprint names the digest of its content. */
    ghost predicate Honest()
      reads this
    {
      View(raw).Entry? && View(raw).fp == fp ==> View(raw).digest == Digested()
    }

    constructor (compute: Hash, lower: Digest -> Digest, content: Content, fp: Fingerprint)
      ensures this.compute == compute && this.lower == lower && this.content == content && this.fp == fp
      ensures raw == Missing && Honest()
    {
      this.compute, this.lower, this.content, this.fp, raw := compute, lower, content, fp, Missing;
    }

    /** Does a sidecar exist, and is it an entry of ours? */
    method LoadSidecar() returns (present: bool, entry: Option<Members>)
      ensures present <==> raw != Missing
      ensures entry.Some? <==> present && !View(raw).Foreign?
      ensures entry.Some? ==> raw == Object(entry.value) && IsOurs(entry.value)
    {
      if raw == Missing {
        return false, None;
      }
      if raw == Unreadable {
        return true, None;
      }
      if raw == NotJson {
        return true, None;
      }
      if raw == NotAnObject || "format" !in raw.members || raw.members["format"] != Text(FORMAT)
         || "sha256" !in raw.members || !raw.members["sha256"].Text? {
        return true, None;
      }
      return true, Some(raw.members);
    }

    /** Never touches a sidecar that exists and is not ours. */
    method WriteSidecar(st: Fingerprint, digest: Digest, writable: bool)
      modifies this`raw
      ensures old(View(raw)).Foreign? || !writable ==> raw == old(raw)
      ensures !old(View(raw)).Foreign? && writable ==> View(raw) == Entry(st, digest)
    {
      var present, entry := LoadSidecar();
      if present && entry == None {
        return;
      }
      if writable {
        raw := Object(Payload(st, digest));
        PayloadIsEntry(st, digest);
      }
    }

    /**
      Recording a digest, in whatever case, keeps the cache honest exactly when the stat is out of
      date or the digest is the file's.
    */
    method RecordFileSha256(digest: Digest, st: Option<Fingerprint>, writable: bool)
      modifies this`raw
      ensures old(View(raw)).Foreign? || !writable ==> raw == old(raw)
      ensures !old(View(raw)).Foreign? && writable ==>
                && View(raw) == Entry(if st.Some? then st.value else fp, lower(digest))
                && (Honest() <==> (st.Some? && st.value != fp) || lower(digest) == Digested())
    {
      WriteSidecar(if st.Some? then st.value else fp, lower(digest), writable);
    }

    method FreshCachedSha256() returns (r: Option<Digest>)
      ensures r.Some? <==> View(raw).Entry? && View(raw).fp == fp
      ensures r.Some? && Honest() ==> r.value == Digested()
    {
      var _, entry := LoadSidecar();
      if entry.Some? {
        MatchesIffEntry(entry.value, fp);
        if Matches(entry.value, fp) {
          return Some(entry.value["sha256"].text);
        }
      }
      return None;
    }

    method CachedFileSha256(writable: bool) returns (r: Digest)
      requires Honest()
      modifies this`raw
      ensures r == Digested() == lower(compute(content)) && Honest()
      ensures old(View(raw)).Foreign? || !writable ==> raw == old(raw)
      ensures old(View(raw)) == Entry(fp, lower(compute(content))) ==> raw == old(raw)
      ensures !old(View(raw)).Foreign? && writable ==> View(raw) == Entry(fp, lower(compute(content)))
      ensures r == CallAnswer(content, fp, old(View(raw)), LowerHash())
      ensures View(raw) == CallSidecar(content, fp, old(View(raw)), writable, LowerHash())
    {
      var st := fp;
      var _, entry := LoadSidecar();
      if entry.Some? {
        MatchesIffEntry(entry.value, st);
        if Matches(entry.value, st) {
          return entry.value["sha256"].text;
        }
      }
      r := lower(compute(content));
      WriteSidecar(st, r, writable);
    }
  }

  /** The steps of one call that nothing interrupts. */
  function CallSteps(s: State, pid: nat, writable: bool): seq<Step> {
    if s.sidecar.Entry? && s.sidecar.fp == s.fp then [Stat(pid), Load(pid)]
    else if s.sidecar.Foreign? then [Stat(pid), Load(pid), Read(pid, |s.content|), EndOfFile(pid), Check(pid)]
    else [Stat(pid), Load(pid), Read(pid, |s.content|), EndOfFile(pid), Check(pid),
          if writable then Replace(pid) else ReplaceFails(pid)]
  }

  /** Uninterrupted, the small steps of a call give the answer and the sidecar of the method. */
  lemma UninterruptedCall(s: State, pid: nat, writable: bool, hash: Hash)
    requires At(s, pid).Idle?
    ensures CanRun(s, CallSteps(s, pid, writable), hash)
    ensures var end := After(s, CallSteps(s, pid, writable), hash);
            && Answered(At(end, pid)) && !At(end, pid).Miss?
            && At(end, pid).digest == CallAnswer(s.content, s.fp, s.sidecar, hash)
            && end.sidecar == CallSidecar(s.content, s.fp, s.sidecar, writable, hash)
            && end.content == s.content && end.fp == s.fp && end.history == s.history
            && (forall other :: other != pid ==> At(end, other) == At(s, other))
  {
    hide CanRun, After;
    var s1 := Do(s, Stat(pid), hash);
    var s2 := Do(s1, Load(pid), hash);
    if s.sidecar.Entry? && s.sidecar.fp == s.fp {
      Nothing(s2, hash);
      Prepend(s1, Load(pid), [], s2, hash);
      assert [Load(pid)] + [] == [Load(pid)];
      Prepend(s, Stat(pid), [Load(pid)], s2, hash);
      assert [Stat(pid)] + [Load(pid)] == CallSteps(s, pid, writable);
    } else {
      var rest := CallSteps(s, pid, writable)[2..];
      var end := HashAndWrite(s2, s.fp, pid, rest, writable, hash);
      Prepend(s1, Load(pid), rest, end, hash);
      Prepend(s, Stat(pid), [Load(pid)] + rest, end, hash);
      assert [Stat(pid)] + ([Load(pid)] + rest) == CallSteps(s, pid, writable);
    }
  }

  lemma HashAndWrite(s: State, st: Fingerprint, pid: nat, rest: seq<Step>, writable: bool, hash: Hash)
    returns (end: State)
    requires At(s, pid) == Reading(st, []) && st == s.fp && !(s.sidecar.Entry? && s.sidecar.fp == st)
    requires rest == [Read(pid, |s.content|), EndOfFile(pid), Check(pid)] +
                     if s.sidecar.Foreign? then [] else [if writable then Replace(pid) else ReplaceFails(pid)]
    ensures CanRun(s, rest, hash) && After(s, rest, hash) == end
    ensures At(end, pid) == Computed(hash(s.content))
    ensures end.sidecar == CallSidecar(s.content, s.fp, s.sidecar, writable, hash)
    ensures end.content == s.content && end.fp == s.fp && end.history == s.history
    ensures forall other :: other != pid ==> At(end, other) == At(s, other)
  {
    hide CanRun, After;
    var s1 := Do(s, Read(pid, |s.content|), hash);
    assert At(s1, pid) == Reading(st, s.content);
    var s2 := Do(s1, EndOfFile(pid), hash);
    var tail := rest[2..];
    end := CheckAndWrite(s2, st, pid, tail, writable, hash);
    Prepend(s1, EndOfFile(pid), tail, end, hash);
    Prepend(s, Read(pid, |s.content|), [EndOfFile(pid)] + tail, end, hash);
    assert [Read(pid, |s.content|)] + ([EndOfFile(pid)] + tail) == rest;
  }

  lemma CheckAndWrite(s: State, st: Fingerprint, pid: nat, rest: seq<Step>, writable: bool, hash: Hash)
    returns (end: State)
    requires At(s, pid) == Hashed(st, hash(s.content)) && st == s.fp && !(s.sidecar.Entry? && s.sidecar.fp == st)
    requires rest == [Check(pid)] +
                     if s.sidecar.Foreign? then [] else [if writable then Replace(pid) else ReplaceFails(pid)]
    ensures CanRun(s, rest, hash) && After(s, rest, hash) == end
    ensures At(end, pid) == Computed(hash(s.content))
    ensures end.sidecar == CallSidecar(s.content, s.fp, s.sidecar, writable, hash)
    ensures end.content == s.content && end.fp == s.fp && end.history == s.history
    ensures forall other :: other != pid ==> At(end, other) == At(s, other)
  {
    hide CanRun, After;
    var s1 := Do(s, Check(pid), hash);
    var last := rest[1..];
    if s.sidecar.Foreign? {
      end := s1;
      Nothing(s1, hash);
    } else {
      end := Do(s1, last[0], hash);
      Nothing(end, hash);
      Prepend(s1, last[0], [], end, hash);
      assert [last[0]] + [] == last;
    }
    Prepend(s, Check(pid), last, end, hash);
    assert [Check(pid)] + last == rest;
  }

  /** The steps of `record_file_sha256` with a stat taken before hashing, when nothing interrupts them. */
  function RecordSteps(s: State, pid: nat): seq<Step> {
    [StatToRecord(pid), Read(pid, |s.content|), EndOfFile(pid), Check(pid)] +
    if s.sidecar.Foreign? then [] else [Replace(pid)]
  }

  /** Uninterrupted, they file the digest of the content under its fingerprint, unless the sidecar is foreign. */
  lemma UninterruptedRecording(s: State, pid: nat, hash: Hash)
    requires At(s, pid).Idle?
    ensures CanRun(s, RecordSteps(s, pid), hash)
    ensures var end := After(s, RecordSteps(s, pid), hash);
            && At(end, pid) == Computed(hash(s.content))
            && end.sidecar == (if s.sidecar.Foreign? then s.sidecar else Entry(s.fp, hash(s.content)))
            && end.content == s.content && end.fp == s.fp
  {
    hide CanRun, After;
    var s1 := Do(s, StatToRecord(pid), hash);
    var s2 := Do(s1, Read(pid, |s.content|), hash);
    assert At(s2, pid) == Reading(s.fp, s.content);
    var s3 := Do(s2, EndOfFile(pid), hash);
    var end := CheckAndReplace(s3, pid, hash);
    var last := if s.sidecar.Foreign? then [] else [Replace(pid)];
    Prepend(s2, EndOfFile(pid), [Check(pid)] + last, end, hash);
    Prepend(s1, Read(pid, |s.content|), [EndOfFile(pid)] + ([Check(pid)] + last), end, hash);
    Prepend(s, StatToRecord(pid), [Read(pid, |s.content|)] + ([EndOfFile(pid)] + ([Check(pid)] + last)), end, hash);
    assert [StatToRecord(pid)] + ([Read(pid, |s.content|)] + ([EndOfFile(pid)] + ([Check(pid)] + last))) ==
           RecordSteps(s, pid);
  }

  lemma CheckAndReplace(s: State, pid: nat, hash: Hash) returns (end: State)
    requires At(s, pid).Hashed?
    ensures var steps := [Check(pid)] + if s.sidecar.Foreign? then [] else [Replace(pid)];
            CanRun(s, steps, hash) && After(s, steps, hash) == end
    ensures At(end, pid) == Computed(At(s, pid).digest) && end.content == s.content && end.fp == s.fp
    ensures end.sidecar == if s.sidecar.Foreign? then s.sidecar else Entry(At(s, pid).fp, At(s, pid).digest)
  {
    hide CanRun, After;
    var s1 := Do(s, Check(pid), hash);
    if s.sidecar.Foreign? {
      end := s1;
      Nothing(end, hash);
      Prepend(s, Check(pid), [], end, hash);
    } else {
      end := Do(s1, Replace(pid), hash);
      Nothing(end, hash);
      Prepend(s1, Replace(pid), [], end, hash);
      assert [Replace(pid)] + [] == [Replace(pid)];
      Prepend(s, Check(pid), [Replace(pid)], end, hash);
    }
  }
}
