/** One upload: chunks written at their offsets in any order, then published by a rename. */
module UploadSession {
  import opened Options
  import opened UploadSpec

  type Bytes = seq<bv8>

  const COPY_BUFFER: nat := 512 * 1024

  datatype Session = Session(expectedSize: int64, chunkSize: int64, targetPath: string, partCount: int64,
                             parts: set<int>, size: int)

  /** How a chunk attempt goes: all the way, or it stops before or while writing. */
  datatype ChunkFate = Through | CreateFails | OpenFails | BreaksAfter(written: nat) | SyncFails

  /** How a commit goes once its checks have passed; `LateSync` fails after the rename. */
  datatype CommitFate = Published | FailsBefore(truncated: bool) | LateSync

  function Max(a: int, b: int): int { if a < b then b else a }

  function Min(a: int, b: int): int { if a < b then a else b }

  /** Writing at an offset; a gap reads as zeros. */
  function Overlay(c: Bytes, offset: nat, b: Bytes): (r: Bytes)
    ensures |r| == if b == [] then |c| else Max(|c|, offset + |b|)
    ensures forall k :: 0 <= k < |r| ==>
              r[k] == if offset <= k < offset + |b| then b[k - offset] else if k < |c| then c[k] else 0
  {
    if b == [] then c
    else seq(Max(|c|, offset + |b|),
             k requires 0 <= k => if offset <= k < offset + |b| then b[k - offset] else if k < |c| then c[k] else 0)
  }

  lemma OverlayInBlocks(c: Bytes, offset: nat, a: Bytes, b: Bytes)
    ensures Overlay(Overlay(c, offset, a), offset + |a|, b) == Overlay(c, offset, a + b)
  {
    if a == [] { assert a + b == b; }
    if b == [] { assert a + b == a; }
  }

  /** The bytes from `offset` on, as far as they go, are the file's. */
  ghost predicate Agrees(b: Bytes, offset: nat, data: Bytes) {
    offset + |b| <= |data| && forall k :: 0 <= k < |b| ==> b[k] == data[offset + k]
  }

  /** Chunk `i` is completely and correctly in the part file. */
  ghost predicate Holds(part: Bytes, data: Bytes, chunkSize: int, count: int, i: int)
    requires 0 < chunkSize && 0 <= i
  {
    var offset := i * chunkSize;
    && offset + Length(|data|, chunkSize, count, i) <= |part| && offset + Length(|data|, chunkSize, count, i) <= |data|
    && forall k :: 0 <= k && offset <= k < offset + Length(|data|, chunkSize, count, i) ==> part[k] == data[k]
  }

  /** Any write of the file's own bytes, even a partial or overlapping one, keeps every chunk
      that is already right: chunk writers do not disturb each other. */
  lemma FaithfulWritesKeepChunks(part: Bytes, data: Bytes, chunkSize: int, count: int, i: int, offset: nat, b: Bytes)
    requires 0 < chunkSize && 0 <= i && 0 <= i * chunkSize
    requires Holds(part, data, chunkSize, count, i) && Agrees(b, offset, data)
    ensures Holds(Overlay(part, offset, b), data, chunkSize, count, i)
  {
  }

  /** The part file holds the file's bytes at the written positions and zeros everywhere else. */
  ghost predicate WrittenAt(part: Bytes, written: set<int>, data: Bytes) {
    && (forall k :: k in written ==> 0 <= k < |part| && k < |data| && part[k] == data[k])
    && (forall k :: 0 <= k < |part| && k !in written ==> part[k] == 0)
  }

  ghost function Range(offset: int, length: nat): (s: set<int>)
    ensures forall k :: k in s <==> offset <= k < offset + length
  {
    if length == 0 then {} else Range(offset, length - 1) + {offset + length - 1}
  }

  ghost predicate ZerosOutside(data: Bytes, written: set<int>) {
    forall k :: 0 <= k < |data| && k !in written ==> data[k] == 0
  }

  lemma MoreIsWritten(part: Bytes, written: set<int>, data: Bytes, offset: nat, b: Bytes)
    requires WrittenAt(part, written, data) && Agrees(b, offset, data)
    ensures WrittenAt(Overlay(part, offset, b), written + Range(offset, |b|), data)
  {
  }

  /** What would be published is the file exactly when the bytes not written since the part file
      was last created are zeros in the file too. */
  lemma LostChunksExactly(part: Bytes, written: set<int>, data: Bytes)
    requires WrittenAt(part, written, data) && |data| <= |part|
    ensures part[..|data|] == data <==> ZerosOutside(data, written)
  {
    if part[..|data|] == data {
      forall k | 0 <= k < |data| && k !in written ensures data[k] == 0 {
        assert part[..|data|][k] == part[k];
      }
    }
  }

  function Indexes(n: nat): (s: set<int>)
    ensures |s| == n
    ensures forall i :: i in s <==> 0 <= i < n
  {
    if n == 0 then {} else Indexes(n - 1) + {n - 1}
  }

  lemma FullSet(s: set<int>, n: nat)
    requires forall i :: i in s ==> 0 <= i < n
    requires |s| == n
    ensures s == Indexes(n)
  {
    if x :| x in Indexes(n) && x !in s {
      SubsetSize(s, Indexes(n) - {x});
    }
  }

  lemma {:induction false} SubsetSize<T>(a: set<T>, b: set<T>)
    requires a <= b
    ensures |a| <= |b|
  {
    if a != {} {
      var x :| x in a;
      SubsetSize(a - {x}, b - {x});
    }
  }

  /** All chunks present is all bytes present. */
  lemma AllChunksAreTheFile(part: Bytes, data: Bytes, chunkSize: int, count: int, parts: set<int>)
    requires 0 < chunkSize && 0 < |data| && (count - 1) * chunkSize < |data| <= count * chunkSize
    requires forall i :: i in parts ==> 0 <= i < count && Holds(part, data, chunkSize, count, i)
    requires |parts| == count
    ensures |part| >= |data| && part[..|data|] == data
  {
    FullSet(parts, count);
    var last := count - 1;
    assert last in parts;
    forall k | 0 <= k < |data| ensures part[k] == data[k] {
      ChunksTile(|data|, chunkSize, count, k);
      assert k / chunkSize in parts;
    }
  }

  // ---- the steps as functions --------------------------------------------------------------

  /** The session, the part file, the target file, and which positions were written since the part
      file was last created. */
  datatype Status = Status(session: Option<Session>, part: Option<Bytes>, target: Option<Bytes>, written: set<int>)

  function NewSession(spec: Spec): Session {
    Session(spec.total, spec.chunkSize, spec.path, spec.count, {}, 0)
  }

  predicate Matches(s: Session, spec: Spec) {
    && s.targetPath == spec.path && s.expectedSize == spec.total
    && s.chunkSize == spec.chunkSize && s.partCount == spec.count
  }

  predicate Admits(session: Option<Session>, spec: Spec, fate: ChunkFate) {
    && !fate.CreateFails? && !fate.OpenFails?
    && if session.Some? then Matches(session.value, spec) else spec.first
  }

  /** A session is created with an empty part file; so is a part file that is missing. */
  function Admitted(u: Status, spec: Spec, fate: ChunkFate): Status {
    if (u.session.None? && spec.first && !fate.CreateFails?) || (Admits(u.session, spec, fate) && u.part.None?)
    then u.(session := if u.session.None? then Some(NewSession(spec)) else u.session, part := Some([]), written := {})
    else u
  }

  /** A copy that breaks off after some bytes has written whole buffers. */
  function Copied(all: nat, breaksAfter: Option<nat>): (written: nat)
    ensures written <= all
  {
    if breaksAfter.None? then all else Min(all, (breaksAfter.value + COPY_BUFFER - 1) / COPY_BUFFER * COPY_BUFFER)
  }

  /** So many blocks have been written, all of them before the copy was to break off. */
  ghost predicate Reached(all: nat, breaksAfter: Option<nat>, written: nat, blocks: nat) {
    && written == Min(all, blocks * COPY_BUFFER)
    && (blocks > 0 && breaksAfter.Some? ==> (blocks - 1) * COPY_BUFFER < breaksAfter.value)
  }

  lemma NothingCopied(all: nat, breaksAfter: Option<nat>, part: Bytes, offset: nat, source: Bytes)
    ensures Reached(all, breaksAfter, 0, 0) && Overlay(part, offset, source[..0]) == part
  {
  }

  lemma OneMoreBlock(all: nat, breaksAfter: Option<nat>, written: nat, blocks: nat)
    requires Reached(all, breaksAfter, written, blocks) && written < all
    requires breaksAfter.Some? ==> written < breaksAfter.value
    ensures Reached(all, breaksAfter, written + Min(COPY_BUFFER, all - written), blocks + 1)
  {
    assert (blocks + 1) * COPY_BUFFER == blocks * COPY_BUFFER + COPY_BUFFER;
  }

  lemma CopyEnds(all: nat, breaksAfter: Option<nat>, written: nat, blocks: nat)
    requires Reached(all, breaksAfter, written, blocks)
    requires written == all || (breaksAfter.Some? && written >= breaksAfter.value)
    ensures written == Copied(all, breaksAfter)
  {
  }

  function CopiedOf(spec: Spec, source: Bytes, fate: ChunkFate): (count: nat)
    ensures count <= |source| && (!fate.BreaksAfter? && 0 <= spec.expected ==> count == Min(|source|, spec.expected))
  {
    var all := if spec.expected < 0 then 0 else Min(|source|, spec.expected);
    Copied(all, if fate.BreaksAfter? then Some(fate.written) else None)
  }

  /** The part file with some of the chunk's bytes. */
  ghost function Filled(u: Status, spec: Spec, block: Bytes): Status {
    if u.part.None? || spec.offset < 0 then u
    else u.(part := Some(Overlay(u.part.value, spec.offset, block)), written := u.written + Range(spec.offset, |block|))
  }

  function Tallied(u: Status, spec: Spec): Status {
    if u.session.None? then u
    else u.(session := Some(u.session.value.(size := Max(u.session.value.size, spec.offset + spec.expected),
                                             parts := u.session.value.parts + {spec.index})))
  }

  predicate Counts(spec: Spec, source: Bytes, fate: ChunkFate) {
    fate.Through? && |source| >= spec.expected
  }

  ghost function Chunked(u: Status, spec: Spec, source: Bytes, fate: ChunkFate): Status {
    var admitted := Admitted(u, spec, fate);
    if !Admits(u.session, spec, fate) then admitted
    else
      var filled := Filled(admitted, spec, source[..CopiedOf(spec, source, fate)]);
      if Counts(spec, source, fate) then Tallied(filled, spec) else filled
  }

  predicate Committable(session: Option<Session>, part: Option<Bytes>, path: string, total: int64, chunkSize: int64,
                        count: int64) {
    && path != "/" && path != "." && 0 < total && 0 < count
    && 0 < SizeOf(chunkSize) <= MAX_CHUNK_SIZE && count == ChunkCount(total, SizeOf(chunkSize))
    && session.Some? && session.value.targetPath == path && session.value.expectedSize == total
    && session.value.chunkSize == SizeOf(chunkSize)
    && session.value.partCount == count && |session.value.parts| == count
    && part.Some? && |part.value| >= total
  }

  /** The rename comes before the step that can fail late, and the session ends after it. */
  function Committed(u: Status, path: string, total: int64, chunkSize: int64, count: int64, fate: CommitFate): Status {
    if !Committable(u.session, u.part, path, total, chunkSize, count) then u
    else if fate.FailsBefore? then (if fate.truncated then u.(part := Some(u.part.value[..total])) else u)
    else u.(session := if fate.LateSync? then u.session else None, part := None, target := Some(u.part.value[..total]))
  }

  predicate Cancels(u: Status, path: string, removalFails: bool) {
    if u.session.Some? then (path == "" || path == u.session.value.targetPath) && !removalFails
    else path == "" || !removalFails
  }

  function Cancelled(u: Status, path: string, removalFails: bool): Status {
    if Cancels(u, path, removalFails) && (u.session.Some? || path != "") then u.(session := None, part := None) else u
  }

  class Upload {
    ghost const data: Bytes
    var session: Option<Session>
    var part: Option<Bytes>
    var target: Option<Bytes>
    ghost var written: set<int>   // positions written since the part file was last created

    constructor (ghost data: Bytes, part: Option<Bytes>, target: Option<Bytes>)
      ensures this.data == data && session == None && this.part == part && this.target == target
      ensures Intact() && Traced()
    {
      this.data, session, this.part, this.target, written := data, None, part, target, {};
    }

    ghost predicate Shaped(s: Session) {
      && 0 < s.chunkSize && s.expectedSize == |data| && 0 < |data|
      && (s.partCount - 1) * s.chunkSize < |data| <= s.partCount * s.chunkSize
      && forall i :: i in s.parts ==> 0 <= i < s.partCount
    }

    ghost predicate InPlace(s: Session, part: Option<Bytes>)
      requires Shaped(s)
    {
      forall i :: i in s.parts ==> part.Some? && Holds(part.value, data, s.chunkSize, s.partCount, i)
    }

    /** Every chunk the session counts is in the part file. */
    ghost predicate Intact()
      reads this
    {
      session.Some? ==> Shaped(session.value) && InPlace(session.value, part)
    }

    /** The part file of a session is what was written to it, whatever the session counts. */
    ghost predicate Traced()
      reads this
    {
      session.Some? ==> Shaped(session.value) && (part.Some? ==> WrittenAt(part.value, written, data))
    }

    ghost function Now(): Status
      reads this
    {
      Status(session, part, target, written)
    }

    /** The attempt belongs to this file and carries its bytes, or only some of them. */
    ghost predicate Faithful(spec: Spec, source: Bytes) {
      && spec.total == |data| && Cuts(spec.total, spec.chunkSize, spec.count, spec.index, spec.offset, spec.expected)
      && 0 <= spec.offset && 0 < spec.expected
      && Agrees(source[..Min(|source|, spec.expected)], spec.offset, data)
    }

    /** Copies at most `limit` bytes, a buffer at a time, and reports how many were written. */
    method CopyBlocks(offset: nat, source: Bytes, limit: nat, breaksAfter: Option<nat>) returns (written: nat)
      requires part.Some?
      modifies this`part
      ensures written == Copied(Min(|source|, limit), breaksAfter) <= |source|
      ensures part == Some(Overlay(old(part).value, offset, source[..written]))
    {
      hide Copied, Overlay;
      written := 0;
      ghost var all, blocks: nat := Min(|source|, limit), 0;
      NothingCopied(all, breaksAfter, old(part).value, offset, source);
      while written < limit && written < |source|
        invariant part.Some? && written <= all && Reached(all, breaksAfter, written, blocks)
        invariant part == Some(Overlay(old(part).value, offset, source[..written]))
        decreases limit - written
      {
        if breaksAfter.Some? && written >= breaksAfter.value {
          CopyEnds(all, breaksAfter, written, blocks);
          return;
        }
        var n := Min(COPY_BUFFER, Min(limit - written, |source| - written));
        OverlayInBlocks(old(part).value, offset, source[..written], source[written..written + n]);
        assert source[..written] + source[written..written + n] == source[..written + n];
        part := Some(Overlay(part.value, offset + written, source[written..written + n]));
        OneMoreBlock(all, breaksAfter, written, blocks);
        written, blocks := written + n, blocks + 1;
      }
      CopyEnds(all, breaksAfter, written, blocks);
    }

    /** Finds the chunk's session, or creates it with an empty part file, and opens the part file. */
    method Admit(spec: Spec, source: Bytes, fate: ChunkFate) returns (ok: bool)
      requires Faithful(spec, source)
      modifies this`session, this`part, this`written
      ensures old(Intact()) ==> Intact()
      ensures old(Traced()) ==> Traced()
      ensures ok == Admits(old(session), spec, fate)
      ensures Now() == Admitted(old(Now()), spec, fate)
    {
      if session.None? {
        if !spec.first || fate.CreateFails? { return false; }
        part, written := Some([]), {};
        session := Some(NewSession(spec));
        CutsShape(spec);
      }
      if !Matches(session.value, spec) { return false; }
      if fate.OpenFails? || fate.CreateFails? { return false; }
      if part.None? { part, written := Some([]), {}; }
      ok := true;
    }

    /** Copies the chunk's bytes, or some of them, into the part file. */
    method Fill(spec: Spec, source: Bytes, fate: ChunkFate) returns (count: nat)
      requires Faithful(spec, source) && session.Some? && part.Some?
      modifies this`part, this`written
      ensures old(Intact()) ==> Intact()
      ensures old(Traced()) ==> Traced()
      ensures count == CopiedOf(spec, source, fate)
      ensures Now() == Filled(old(Now()), spec, source[..count])
      ensures count <= spec.expected
    {
      hide Copied, Overlay, Cuts, InPlace, WrittenAt, Agrees;
      count := CopyBlocks(spec.offset, source, spec.expected, if fate.BreaksAfter? then Some(fate.written) else None);
      ghost var before, block := old(part).value, source[..count];
      BlockAgrees(spec, source, count);
      if old(Intact()) { StaysInPlace(session.value, before, spec.offset, block); }
      if WrittenAt(before, written, data) { MoreIsWritten(before, written, data, spec.offset, block); }
      written := written + Range(spec.offset, count);
    }

    /** Admits or opens the session, writes the chunk and then counts it. */
    method WriteUploadStreamChunk(spec: Spec, source: Bytes, fate: ChunkFate) returns (ok: bool)
      requires Faithful(spec, source)
      modifies this`session, this`part, this`written
      ensures old(Intact()) ==> Intact()
      ensures old(Traced()) ==> Traced()
      ensures ok <==> fate.Through? && |source| >= spec.expected
                      && (if old(session).Some?
                          then && old(session).value.targetPath == spec.path
                               && old(session).value.expectedSize == spec.total
                               && old(session).value.chunkSize == spec.chunkSize
                               && old(session).value.partCount == spec.count
                          else spec.first)
      ensures ok ==> var was := if old(session).Some? then old(session).value
                                else Session(spec.total, spec.chunkSize, spec.path, spec.count, {}, 0);
                     session == Some(was.(size := Max(was.size, spec.offset + spec.expected),
                                          parts := was.parts + {spec.index}))
      ensures ok ==> part == Some(Overlay(if old(session).Some? && old(part).Some? then old(part).value else [],
                                          spec.offset, source[..spec.expected]))
      ensures Now() == Chunked(old(Now()), spec, source, fate)
      ensures ok ==> session.Some? && spec.index in session.value.parts && Matches(session.value, spec)
      ensures !ok && old(session).Some? ==> session == old(session)
      ensures !ok && session.Some? && old(session).None? ==> session.value.parts == {}
    {
      hide Intact, Traced, Holds, WrittenAt, Faithful;
      ok := Admit(spec, source, fate);
      if !ok { return; }
      ghost var was := part.value;
      var count := Fill(spec, source, fate);
      if fate.BreaksAfter? || count != spec.expected || fate.SyncFails? { return false; }
      Placed(spec, source);
      assert part.value == Overlay(was, spec.offset, source[..spec.expected]);
      ChunkHolds(spec, source);
      Tally(spec);
    }

    /** Counts a chunk that is completely in place. */
    method Tally(spec: Spec)
      requires session.Some? && Matches(session.value, spec) && part.Some?
      requires 0 < spec.chunkSize && 0 <= spec.index < spec.count
      requires Holds(part.value, data, spec.chunkSize, spec.count, spec.index)
      modifies this`session
      ensures old(Intact()) ==> Intact()
      ensures old(Traced()) ==> Traced()
      ensures Now() == Tallied(old(Now()), spec)
    {
      hide Holds, WrittenAt;
      session := Some(session.value.(size := Max(session.value.size, spec.offset + spec.expected),
                                     parts := session.value.parts + {spec.index}));
    }

    lemma BlockAgrees(spec: Spec, source: Bytes, count: nat)
      requires Faithful(spec, source) && count <= Min(|source|, spec.expected)
      ensures Agrees(source[..count], spec.offset, data)
    {
      assert forall k :: 0 <= k < count ==> source[..count][k] == source[..Min(|source|, spec.expected)][k];
    }

    lemma Placed(spec: Spec, source: Bytes)
      requires Faithful(spec, source)
      ensures 0 <= spec.offset && 0 < spec.expected
    {
    }

    lemma ChunkHolds(spec: Spec, source: Bytes)
      requires Faithful(spec, source) && part.Some? && |source| >= spec.expected
      requires exists before :: part.value == Overlay(before, spec.offset, source[..spec.expected])
      ensures 0 < spec.chunkSize && 0 <= spec.index < spec.count
      ensures Holds(part.value, data, spec.chunkSize, spec.count, spec.index)
    {
      var before :| part.value == Overlay(before, spec.offset, source[..spec.expected]);
      assert source[..Min(|source|, spec.expected)] == source[..spec.expected];
    }

    lemma CutsShape(spec: Spec)
      requires spec.total == |data|
                && Cuts(spec.total, spec.chunkSize, spec.count, spec.index, spec.offset, spec.expected)
      ensures Shaped(Session(spec.total, spec.chunkSize, spec.path, spec.count, {}, 0))
    {
    }

    lemma StaysInPlace(s: Session, before: Bytes, offset: nat, block: Bytes)
      requires Shaped(s) && InPlace(s, Some(before)) && Agrees(block, offset, data)
      ensures InPlace(s, Some(Overlay(before, offset, block)))
    {
      forall i | i in s.parts ensures Holds(Overlay(before, offset, block), data, s.chunkSize, s.partCount, i) {
        FaithfulWritesKeepChunks(before, data, s.chunkSize, s.partCount, i, offset, block);
      }
    }

    /** Publishes the part file once every chunk has been counted. */
    method CommitFileUpload(path: string, total: int64, chunkSize: int64, count: int64,
                            fate: CommitFate) returns (ok: bool)
      modifies this`session, this`part, this`target
      ensures old(Traced()) ==> Traced()
      ensures old(Traced()) && ok ==> (target == Some(data) <==> ZerosOutside(data, written))
      ensures Now() == Committed(old(Now()), path, total, chunkSize, count, fate)
      ensures ok <==> fate.Published? && Committable(old(session), old(part), path, total, chunkSize, count)
      ensures var size := if chunkSize == 0 then DEFAULT_CHUNK_SIZE else chunkSize;
              ok <==>
                && fate.Published? && path != "/" && path != "." && 0 < total && 0 < count
                && 0 < size <= MAX_CHUNK_SIZE && count == ChunkCount(total, size)
                && old(session).Some? && old(part).Some? && total <= |old(part).value|
                && old(session).value.targetPath == path && old(session).value.expectedSize == total
                && old(session).value.chunkSize == size
                && old(session).value.partCount == count == |old(session).value.parts|
      ensures ok ==> target == Some(old(part).value[..total]) && part.None? && session.None?
      ensures !ok ==> session == old(session)
      ensures fate.FailsBefore? ==> target == old(target)
      ensures old(Intact()) && ok ==> target == Some(data)
      ensures old(Intact()) && !fate.LateSync? ==> Intact()
    {
      if path == "/" || path == "." { return false; }
      if total <= 0 || count <= 0 { return false; }
      var size := SizeOf(chunkSize);
      if size <= 0 || size > MAX_CHUNK_SIZE { return false; }
      if count != ChunkCount(total, size) { return false; }
      if session.None? { return false; }
      var s := session.value;
      if s.targetPath != path || s.expectedSize != total { return false; }
      if s.chunkSize != size || s.partCount != count { return false; }
      if |s.parts| != count || part.None? || |part.value| < total { return false; }
      if fate.FailsBefore? {
        if !fate.truncated { return false; }
        ghost var before := part.value;
        part := Some(part.value[..total]);
        if old(Intact()) {
          assert forall i :: i in s.parts && Holds(before, data, s.chunkSize, s.partCount, i) ==>
              Holds(part.value, data, s.chunkSize, s.partCount, i);
        }
        return false;
      }
      if Intact() { AllChunksAreTheFile(part.value, data, s.chunkSize, s.partCount, s.parts); }
      if Traced() { LostChunksExactly(part.value, written, data); }
      target, part := Some(part.value[..total]), None;
      if fate.LateSync? { return false; }
      session := None;
      ok := true;
    }

    /** Removes the part file and the session; without a session, the leftover part file. */
    method CancelFileUpload(path: string, removalFails: bool) returns (ok: bool)
      modifies this`session, this`part
      ensures old(Intact()) || ok ==> Intact()
      ensures old(Traced()) || ok ==> Traced()
      ensures ok <==> (if old(session).Some? then (path == "" || path == old(session).value.targetPath) && !removalFails
                       else path == "" || !removalFails)
      ensures ok ==> session.None?
      ensures ok && (old(session).Some? || path != "") ==> part.None?
      ensures ok && old(session).None? && path == "" ==> part == old(part)
      ensures !ok ==> session == old(session) && part == old(part)
      ensures Now() == Cancelled(old(Now()), path, removalFails)
      ensures target == old(target)
    {
      if session.Some? {
        if path != "" && path != session.value.targetPath { return false; }
        if removalFails { return false; }
        part, session := None, None;
        return true;
      }
      if path != "" {
        if removalFails { return false; }
        part := None;
      }
      ok := true;
    }
  }

  // ---- whole transfers ---------------------------------------------------------------------

  datatype Step =
    | Chunk(spec: Spec, source: Bytes, fate: ChunkFate)
    | Commit(path: string, total: int64, chunkSize: int64, count: int64, ending: CommitFate)
    | Cancel(path: string, removalFails: bool)

  ghost function Next(u: Status, step: Step): Status {
    match step
    case Chunk(spec, source, fate) => Chunked(u, spec, source, fate)
    case Commit(path, total, chunkSize, count, ending) => Committed(u, path, total, chunkSize, count, ending)
    case Cancel(path, removalFails) => Cancelled(u, path, removalFails)
  }

  predicate Works(u: Status, step: Step) {
    match step
    case Chunk(spec, source, fate) => Admits(u.session, spec, fate) && Counts(spec, source, fate)
    case Commit(path, total, chunkSize, count, ending) =>
      ending.Published? && Committable(u.session, u.part, path, total, chunkSize, count)
    case Cancel(path, removalFails) => Cancels(u, path, removalFails)
  }

  ghost function Run(u: Status, steps: seq<Step>): Status {
    if steps == [] then u else Next(Run(u, steps[..|steps| - 1]), steps[|steps| - 1])
  }

  ghost predicate NoLateCommit(steps: seq<Step>) {
    forall i :: 0 <= i < |steps| && steps[i].Commit? ==> !steps[i].ending.LateSync?
  }

  lemma NoLateCommitBefore(steps: seq<Step>, i: nat)
    requires i < |steps| && NoLateCommit(steps[..i + 1])
    ensures NoLateCommit(steps[..i]) && !(steps[i].Commit? && steps[i].ending.LateSync?)
  {
    assert steps[..i + 1][i] == steps[i] && forall k :: 0 <= k < i ==> steps[..i + 1][k] == steps[..i][k];
  }

  method TakeStep(u: Upload, step: Step) returns (ok: bool)
    requires u.Traced() && (step.Chunk? ==> u.Faithful(step.spec, step.source))
    modifies u
    ensures u.Traced() && u.Now() == Next(old(u.Now()), step) && ok == Works(old(u.Now()), step)
    ensures old(u.Intact()) && !(step.Commit? && step.ending.LateSync?) ==> u.Intact()
    ensures step.Commit? && ok ==> (u.target == Some(u.data) <==> ZerosOutside(u.data, old(u.written)))
    ensures step.Commit? && ok && old(u.Intact()) ==> u.target == Some(u.data)
  {
    hide Upload.Faithful, Upload.Intact, Upload.Traced;
    match step {
      case Chunk(spec, source, fate) => ok := u.WriteUploadStreamChunk(spec, source, fate);
      case Commit(path, total, chunkSize, count, ending) =>
        ok := u.CommitFileUpload(path, total, chunkSize, count, ending);
      case Cancel(path, removalFails) => ok := u.CancelFileUpload(path, removalFails);
    }
  }

  /** Chunks in any order, repeated, cut short or failing, with commits of any ending and cancels
      in between.  A commit that succeeds has published the file exactly when every byte not
      written since the part file was last created is a zero, which is so for every file while no
      commit has failed after its rename.  (Every prefix of a transfer is a transfer.) */
  method AnyTransfer(u: Upload, steps: seq<Step>) returns (ok: bool)
    requires u.Intact() && u.Traced()
    requires forall i :: 0 <= i < |steps| && steps[i].Chunk? ==> u.Faithful(steps[i].spec, steps[i].source)
    modifies u
    ensures u.Traced() && u.Now() == Run(old(u.Now()), steps)
    ensures steps != [] ==> ok == Works(Run(old(u.Now()), steps[..|steps| - 1]), steps[|steps| - 1])
    ensures steps != [] && steps[|steps| - 1].Commit? && ok ==>
              (u.target == Some(u.data) <==> ZerosOutside(u.data, Run(old(u.Now()), steps[..|steps| - 1]).written))
    ensures steps != [] && steps[|steps| - 1].Commit? && ok && NoLateCommit(steps) ==> u.target == Some(u.data)
  {
    hide Upload.Faithful, Upload.Intact, Upload.Traced, Next, Works, ZerosOutside;
    ok := true;
    for i := 0 to |steps|
      invariant u.Traced() && u.Now() == Run(old(u.Now()), steps[..i])
      invariant NoLateCommit(steps[..i]) ==> u.Intact()
      invariant i > 0 ==> ok == Works(Run(old(u.Now()), steps[..i - 1]), steps[i - 1])
      invariant i > 0 && steps[i - 1].Commit? && ok ==>
                  (u.target == Some(u.data) <==> ZerosOutside(u.data, Run(old(u.Now()), steps[..i - 1]).written))
      invariant i > 0 && steps[i - 1].Commit? && ok && NoLateCommit(steps[..i]) ==> u.target == Some(u.data)
    {
      assert steps[..i + 1][..i] == steps[..i];
      if NoLateCommit(steps[..i + 1]) { NoLateCommitBefore(steps, i); }
      ok := TakeStep(u, steps[i]);
    }
    assert steps[..|steps|] == steps;
  }

  function Zeros(n: nat): Bytes {
    seq(n, _ => 0)
  }

  lemma TailIsLast(u: Upload, spec: Spec, source: Bytes)
    requires u.Faithful(spec, source) && |source| == spec.expected && spec.index == spec.count - 1
    ensures 0 <= spec.offset <= |u.data| == spec.total && spec.expected == spec.total - spec.offset
    ensures source[..spec.expected] == source == u.data[spec.offset..]
  {
    assert source[..spec.expected] == source;
  }

  lemma LastOverNothing(offset: nat, tail: Bytes)
    requires tail != []
    ensures Overlay([], offset, tail) == Zeros(offset) + tail
  {
  }

  method ResendLastChunk(u: Upload, spec: Spec, source: Bytes)
    requires u.Traced() && u.Faithful(spec, source) && |source| == spec.expected && spec.index == spec.count - 1
    requires u.part.None? && u.session.Some? && Matches(u.session.value, spec)
    modifies u
    ensures u.Traced() && u.written == Range(spec.offset, spec.expected) && u.target == old(u.target)
    ensures 0 <= spec.offset <= |u.data| && u.part == Some(Zeros(spec.offset) + u.data[spec.offset..])
    ensures u.session.Some? && Matches(u.session.value, spec)
    ensures u.session.value.parts == old(u.session).value.parts + {spec.index}
  {
    hide Holds, WrittenAt, Overlay, Cuts, Upload.Intact, Upload.Traced;
    TailIsLast(u, spec, source);
    var resent := u.WriteUploadStreamChunk(spec, source, Through);
    LastOverNothing(spec.offset, source);
  }

  /** The failing case: a commit fails after its rename, the sender resends the last chunk and
      commits again.  The session still counts every chunk, so the new part file, which holds
      only the last one, is published with zeros in front. */
  method ResendAfterLateCommit(u: Upload, spec: Spec, source: Bytes) returns (ok: bool)
    requires u.Intact() && u.Traced() && u.Faithful(spec, source) && |source| == spec.expected
    requires Committable(u.session, u.part, spec.path, spec.total, spec.chunkSize, spec.count)
    requires Matches(u.session.value, spec) && spec.index == spec.count - 1
    modifies u
    ensures ok && u.target == Some(Zeros(spec.offset) + u.data[spec.offset..])
    ensures 0 < spec.expected
    ensures u.target == Some(u.data) <==> ZerosOutside(u.data, Range(spec.offset, spec.expected))
  {
    hide Holds, WrittenAt, Overlay, Cuts, ChunkCount, SizeOf, ZerosOutside;
    hide Upload.Intact, Upload.Traced, Upload.Faithful;
    u.Placed(spec, source);
    TailIsLast(u, spec, source);
    LastChunkCounted(u, spec);
    var first := u.CommitFileUpload(spec.path, spec.total, spec.chunkSize, spec.count, LateSync);
    ResendLastChunk(u, spec, source);
    assert u.part.value[..spec.total] == u.part.value;
    ok := u.CommitFileUpload(spec.path, spec.total, spec.chunkSize, spec.count, Published);
  }

  lemma LastChunkCounted(u: Upload, spec: Spec)
    requires u.Traced() && u.session.Some? && |u.session.value.parts| == spec.count == u.session.value.partCount
    requires spec.index == spec.count - 1 && 0 < spec.count
    ensures u.session.value.parts + {spec.index} == u.session.value.parts
  {
    FullSet(u.session.value.parts, spec.count);
  }
}
