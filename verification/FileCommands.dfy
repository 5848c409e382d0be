/** What each command of the resource service answers and does, case by case, told by the request, the pieces received
    so far, the index entries and the files. */
module FileCommands {
  import opened Sorting
  import opened ChunkRanges
  import opened PyJson
  import opened ResourceManifest
  import opened FileService
  import opened FilePublishing

  // ---- file_chunk ----

  /** The request's fields are usable on their own, whatever the transfer. */
  predicate UsableChunk(cfg: Config, req: ChunkRequest) {
    && IsResourceId(req.transferId)
    && req.index.Some? && 0 <= req.index.value && req.offset.Some? && 0 <= req.offset.value
    && req.data.Some? && |req.data.value| <= cfg.maxChunk && cfg.digest(req.data.value) == Lower(req.sha256)
  }

  predicate UsablePosition(req: ChunkRequest) {
    req.index.Some? && req.offset.Some? && 0 <= req.index.value && 0 <= req.offset.value
  }

  /** A chunk that is not usable, or whose transfer is not there, changes nothing; what it is refused with, the earlier
      complaint first. */
  lemma UnusableChunk(cfg: Config, s: Service, now: Clock, req: ChunkRequest)
    requires ConfigOk(cfg)
    ensures var (s', r) := Chunk(cfg, s, now, req);
      var id, at := IsResourceId(req.transferId), UsablePosition(req);
      && (r == Refused(InvalidTransferId) <==> !id)
      && (r == Refused(InvalidChunkPosition) <==> id && !at)
      && (r == Refused(InvalidChunkData) <==> id && at && req.data == None)
      && (r == Refused(ChunkTooLarge) <==> id && at && req.data.Some? && |req.data.value| > cfg.maxChunk)
      && (r == Refused(ChunkChecksumMismatch) <==> id && at && req.data.Some? && |req.data.value| <= cfg.maxChunk
                                                   && cfg.digest(req.data.value) != Lower(req.sha256))
      && (r == Refused(TransferNotFound) <==> UsableChunk(cfg, req) && req.transferId !in s.transfers)
      && (!UsableChunk(cfg, req) || req.transferId !in s.transfers ==> s' == s && r.Refused?)
  {
    hide IsSha256, Lower, IsResourceId, OverlapsAny, WriteAt, Record;
    if req.data.Some? { assert IsSha256(cfg.digest(req.data.value)); }
  }

  predicate KnownIndex(received: seq<Piece>, index: int) {
    exists q :: q in received && q.index == index
  }

  /** The two pieces have the same number, place, length and digest. */
  predicate SameChunk(cfg: Config, q: Piece, p: Piece) {
    q.index == p.index && q.offset == p.offset && |q.data| == |p.data| && cfg.digest(q.data) == cfg.digest(p.data)
  }

  predicate KnownChunk(cfg: Config, received: seq<Piece>, p: Piece) {
    exists q :: q in received && SameChunk(cfg, q, p)
  }

  /** A received piece shares bytes with the place of `p`; for an empty piece, it has that place inside it. */
  predicate InTheWay(received: seq<Piece>, p: Piece) {
    exists q :: q in received && q.offset < p.offset + |p.data| && q.offset + |q.data| > p.offset
  }

  lemma KnownByIndex(cfg: Config, t: Transfer, p: Piece)
    requires Indexes(t.chunks, t.received, cfg.digest)
    ensures KnownIndex(t.received, p.index) <==> p.index in t.chunks
    ensures KnownChunk(cfg, t.received, p)
      <==> p.index in t.chunks && t.chunks[p.index] == Fingerprint(p.offset, |p.data|, cfg.digest(p.data))
  {
    if KnownIndex(t.received, p.index) {
      var q :| q in t.received && q.index == p.index;
      var i :| 0 <= i < |t.received| && t.received[i] == q;
    }
    if p.index in t.chunks {
      var i :| 0 <= i < |t.received| && t.received[i].index == p.index;
      assert t.received[i] in t.received;
      forall q | q in t.received && q.index == p.index ensures q == t.received[i] {
        var j :| 0 <= j < |t.received| && t.received[j] == q;
      }
    }
  }

  lemma OverlapsInTheWay(received: seq<Piece>, p: Piece)
    ensures OverlapsAny(p.offset, p.End(), Spans(received)) <==> InTheWay(received, p)
  {
    if OverlapsAny(p.offset, p.End(), Spans(received)) {
      var i :| 0 <= i < |received| && Overlap(Range(p.offset, p.End()), Spans(received)[i]);
      assert received[i] in received;
    }
    if InTheWay(received, p) {
      var q :| q in received && q.offset < p.offset + |p.data| && q.offset + |q.data| > p.offset;
      var i :| 0 <= i < |received| && received[i] == q;
      assert Overlap(Range(p.offset, p.End()), Spans(received)[i]);
    }
  }

  lemma KnownFits(cfg: Config, tid: string, t: Transfer, part: Bytes, p: Piece)
    requires TransferOk(cfg, tid, t, part) && KnownChunk(cfg, t.received, p)
    ensures p.offset + |p.data| <= t.expectedSize
  {
    var q :| q in t.received && SameChunk(cfg, q, p);
    var i :| 0 <= i < |t.received| && t.received[i] == q;
    assert Spans(t.received)[i].end <= t.expectedSize;
  }

  /** The answer to a usable chunk of a live transfer in every case: too long for the file, a number taken by other
      bytes, a place partly taken, a retry, or new. */
  lemma ChunkAnswer(cfg: Config, s: Service, now: Clock, req: ChunkRequest)
    requires ConfigOk(cfg) && Inv(cfg, s) && UsableChunk(cfg, req) && req.transferId in s.transfers
    ensures var r, t := Chunk(cfg, s, now, req).1, s.transfers[req.transferId];
      var p := Piece(req.index.value, req.offset.value, req.data.value);
      var fits, taken := p.offset + |p.data| <= t.expectedSize, KnownIndex(t.received, p.index);
      && (r == Refused(SizeOverflow) <==> !fits)
      && (r == Refused(ChunkConflict) <==> fits && taken && !KnownChunk(cfg, t.received, p))
      && (r == Refused(ChunkOverlap) <==> fits && !taken && InTheWay(t.received, p))
      && (r.Ok? && r.value.idempotent <==> KnownChunk(cfg, t.received, p))
      && (r.Ok? && !r.value.idempotent <==> fits && !taken && !InTheWay(t.received, p))
  {
    hide IsSha256, Lower, IsResourceId, WriteAt, Record, OverlapsAny, KnownChunk, KnownIndex, InTheWay, Find, Holds,
      Indexes, InBounds, Disjoint;
    var tid, t := req.transferId, s.transfers[req.transferId];
    var p := PieceOf(req);
    assert TransferOk(cfg, tid, t, s.parts[tid]);
    assert IsSha256(cfg.digest(p.data));
    KnownByIndex(cfg, t, p);
    OverlapsInTheWay(t.received, p);
    if KnownChunk(cfg, t.received, p) { KnownFits(cfg, tid, t, s.parts[tid], p); }
  }

  function BytesOf(received: seq<Piece>): nat {
    if received == [] then 0 else BytesOf(received[..|received| - 1]) + |received[|received| - 1].data|
  }

  lemma {:induction false} TotalAppend(rs: seq<Range>, r: Range)
    ensures TotalLength(rs + [r]) == TotalLength(rs) + r.end - r.start
  {
    if rs != [] {
      assert (rs + [r])[1..] == rs[1..] + [r];
      TotalAppend(rs[1..], r);
    }
  }

  lemma {:induction false} TotalIsBytes(received: seq<Piece>)
    ensures TotalLength(Spans(received)) == BytesOf(received)
  {
    if received != [] {
      var n := |received| - 1;
      TotalIsBytes(received[..n]);
      assert Spans(received) == Spans(received[..n]) + [received[n].Span()];
      TotalAppend(Spans(received[..n]), received[n].Span());
    }
  }

  /** `part'` is `part` with `data` at `offset`: nothing else is overwritten, a gap reads as zero, and it grows no
      further than the data reach. */
  predicate WrittenAt(part: Bytes, part': Bytes, offset: nat, data: Bytes) {
    var end := offset + |data|;
    && |part'| == (if data != [] && |part| < end then end else |part|)
    && (data != [] ==> part'[offset..end] == data)
    && (forall i | 0 <= i < |part'| && !(offset <= i < end) :: part'[i] == if i < |part| then part[i] else 0)
  }

  lemma WriteIsWrittenAt(part: Bytes, offset: nat, data: Bytes)
    ensures WrittenAt(part, WriteAt(part, offset, data), offset, data)
  {
  }

  lemma NewChunkRecorded(cfg: Config, s: Service, now: Clock, req: ChunkRequest)
    requires ConfigOk(cfg) && Inv(cfg, s) && UsableChunk(cfg, req) && req.transferId in s.transfers
    requires var r := Chunk(cfg, s, now, req).1; r.Ok? && !r.value.idempotent
    ensures var (s', r) := Chunk(cfg, s, now, req); var tid := req.transferId; var t := s.transfers[tid];
      var p := Piece(req.index.value, req.offset.value, req.data.value); var received' := t.received + [p];
      && tid in s'.transfers && tid in s'.parts
      && s'.transfers[tid].received == received' && s'.transfers[tid].lastActivity == now.mono
      && SameTransaction(t, s'.transfers[tid])
      && WrittenAt(s.parts[tid], s'.parts[tid], p.offset, p.data)
      && r.value == ChunkReply(p.index, p.offset, BytesOf(received'), false)
      && SameElse(s, s', tid)
  {
    hide IsSha256, Lower, IsResourceId, WriteAt, OverlapsAny, Find, Holds, Indexes, InBounds, Disjoint, Spans,
      WrittenAt, TotalLength, BytesOf;
    var tid, t, p := req.transferId, s.transfers[req.transferId], PieceOf(req);
    assert TransferOk(cfg, tid, t, s.parts[tid]);
    assert t.received == Touch(s, tid, now.mono).transfers[tid].received;
    WriteIsWrittenAt(s.parts[tid], p.offset, p.data);
    TotalIsBytes(t.received + [p]);
    SpansAppend(t.received, p);
  }

  lemma SpansAppend(received: seq<Piece>, p: Piece)
    ensures Spans(received + [p]) == Spans(received) + [p.Span()]
  {
  }

  /** What a usable chunk of a live transfer does. New: the piece is recorded, its bytes are written at their place and
      nowhere else, and the answer counts all bytes received so far. A retry or a refusal changes the transfer's last
      activity and nothing more. Whenever the answer is a success, the bytes under that number, place, length and
      digest stand in the part file. */
  lemma ChunkEffect(cfg: Config, s: Service, now: Clock, req: ChunkRequest)
    requires ConfigOk(cfg) && Inv(cfg, s) && UsableChunk(cfg, req) && req.transferId in s.transfers
    ensures var (s', r) := Chunk(cfg, s, now, req); var tid := req.transferId; var t := s.transfers[tid];
      var p := Piece(req.index.value, req.offset.value, req.data.value);
      && tid in s'.transfers && tid in s'.parts && SameElse(s, s', tid)
      && (r.Ok? && !r.value.idempotent ==>
            && s'.transfers[tid].received == t.received + [p] && s'.transfers[tid].lastActivity == now.mono
            && SameTransaction(t, s'.transfers[tid])
            && WrittenAt(s.parts[tid], s'.parts[tid], p.offset, p.data)
            && r.value == ChunkReply(p.index, p.offset, BytesOf(t.received + [p]), false))
      && (r.Ok? && r.value.idempotent ==> r.value == ChunkReply(p.index, p.offset, |p.data|, true))
      && (r.Refused? || r.value.idempotent ==>
            s' == s.(transfers := s.transfers[tid := t.(lastActivity := now.mono)]))
      && (r.Ok? ==> ReceivedAndStands(cfg, s'.transfers[tid].received, s'.parts[tid], p))
  {
    hide Chunk, IsResourceId, WrittenAt, KnownChunk, InTheWay, KnownIndex, TransferOk, Find, BytesOf, Lower;
    var tid := req.transferId;
    var (s', r) := Chunk(cfg, s, now, req);
    var t, p := s.transfers[tid], Piece(req.index.value, req.offset.value, req.data.value);
    InvHasPart(cfg, s, tid);
    if r.Ok? && !r.value.idempotent {
      NewChunkRecorded(cfg, s, now, req);
      assert p in s'.transfers[tid].received;
    } else {
      ChunkKeeps(cfg, s, now, req);
    }
    ChunkKeepsInv(cfg, s, now, req);
    ChunkAnswer(cfg, s, now, req);
    if r.Ok? {
      hide Inv;
      NewIsKnown(cfg, t.received, p);
      KnownStands(cfg, s', tid, p);
    }
  }

  lemma InvHasPart(cfg: Config, s: Service, tid: string)
    requires Inv(cfg, s) && tid in s.transfers
    ensures tid in s.parts
  {
  }

  lemma NewIsKnown(cfg: Config, received: seq<Piece>, p: Piece)
    ensures KnownChunk(cfg, received + [p], p)
  {
    assert p in received + [p] && SameChunk(cfg, p, p);
  }

  /** The payload of `q` is in the part file at its place. */
  predicate StandsAt(part: Bytes, q: Piece) {
    q.data != [] ==> 0 <= q.offset && q.offset + |q.data| <= |part| && part[q.offset..q.offset + |q.data|] == q.data
  }

  predicate ReceivedAndStands(cfg: Config, received: seq<Piece>, part: Bytes, p: Piece) {
    exists q :: q in received && SameChunk(cfg, q, p) && StandsAt(part, q)
  }

  lemma KnownStands(cfg: Config, s: Service, tid: string, p: Piece)
    requires Inv(cfg, s) && tid in s.transfers && KnownChunk(cfg, s.transfers[tid].received, p)
    ensures tid in s.parts && ReceivedAndStands(cfg, s.transfers[tid].received, s.parts[tid], p)
  {
    hide Find, Indexes, Disjoint, InBounds, IsResourceId;
    var t := s.transfers[tid];
    assert TransferOk(cfg, tid, t, s.parts[tid]);
    var q :| q in t.received && SameChunk(cfg, q, p);
    var i :| 0 <= i < |t.received| && t.received[i] == q;
    assert Placed(s.parts[tid], t.received[i]);
  }

  lemma ChunkKeeps(cfg: Config, s: Service, now: Clock, req: ChunkRequest)
    requires ConfigOk(cfg) && Inv(cfg, s) && UsableChunk(cfg, req) && req.transferId in s.transfers
    requires var r := Chunk(cfg, s, now, req).1; r.Refused? || r.value.idempotent
    ensures var (s', r) := Chunk(cfg, s, now, req); var tid := req.transferId;
      && s' == s.(transfers := s.transfers[tid := s.transfers[tid].(lastActivity := now.mono)])
      && (r.Ok? ==> r.value == ChunkReply(req.index.value, req.offset.value, |req.data.value|, true))
      && SameElse(s, s', tid)
  {
    hide IsSha256, Lower, IsResourceId, WriteAt, OverlapsAny, Record, Find, TransferOk;
    assert IsSha256(cfg.digest(req.data.value));
    PutThenDrop(s.transfers, req.transferId, s.transfers[req.transferId].(lastActivity := now.mono));
  }

  // ---- file_delete ----

  /** A delete in every case. With an index entry the entry and the file go, and nothing else does; without one nothing
      changes. */
  lemma DeleteEffect(cfg: Config, s: Service, rid: string, other: string)
    ensures !IsResourceId(rid) ==> Delete(cfg, s, rid) == (s, Refused(InvalidResourceId))
    ensures IsResourceId(rid) && Find(s.manifest, rid, cfg.conv) == None ==> Delete(cfg, s, rid) == (s, Ok(false))
    ensures IsResourceId(rid) && Find(s.manifest, rid, cfg.conv).Some? ==>
      var (s', r) := Delete(cfg, s, rid);
      && r == Ok(true)
      && Find(s'.manifest, rid, cfg.conv) == None && rid !in s'.files
      && s'.transfers == s.transfers && s'.parts == s.parts
      && (other != rid ==> Find(s'.manifest, other, cfg.conv) == Find(s.manifest, other, cfg.conv))
      && (other != rid ==> (other in s'.files <==> other in s.files))
      && (other != rid && other in s.files ==> s'.files[other] == s.files[other])
  {
    hide Find, Removed, IsResourceId;
    RemoveThenGet(s.manifest, rid, other, cfg.conv);
  }

  /** After a delete the resource is gone for every query and every read, and a second delete answers that there was
      nothing to delete and changes nothing. */
  lemma DeleteThenNothing(cfg: Config, s: Service, now: Clock, q: Query)
    requires IsResourceId(q.resourceId)
    ensures var s' := Delete(cfg, s, q.resourceId).0;
      && Stat(cfg, s', now, q) == Refused(ResourceNotFound)
      && Read(cfg, s', now, q) == Refused(ResourceNotFound)
      && Delete(cfg, s', q.resourceId) == (s', Ok(false))
  {
    hide Find, IsResourceId, Delete;
    DeleteEffect(cfg, s, q.resourceId, "");
    DeleteEffect(cfg, Delete(cfg, s, q.resourceId).0, q.resourceId, "");
  }

  /** A delete frees the id for other content exactly when it finds an entry: a file without an entry survives it, and
      goes on refusing the commit of other content. */
  lemma DeleteFreesExactlyWhen(cfg: Config, s: Service, now: Clock, tid: string)
    requires Inv(cfg, s) && IsResourceId(tid) && tid in s.transfers
    requires Complete(s.transfers[tid].ranges, s.transfers[tid].expectedSize)
      && cfg.digest(Payload(s.transfers[tid])) == s.transfers[tid].expectedSha256
    requires s.transfers[tid].resourceId in s.files
      && cfg.digest(s.files[s.transfers[tid].resourceId]) != s.transfers[tid].expectedSha256
    ensures var t := s.transfers[tid]; var s' := Delete(cfg, s, t.resourceId).0;
      && (Commit(cfg, s', now, tid).1.Ok? <==> Find(s.manifest, t.resourceId, cfg.conv).Some?)
      && (Commit(cfg, s', now, tid).1 == Refused(ResourceConflict)
          <==> Find(s.manifest, t.resourceId, cfg.conv) == None)
  {
    hide Find, IsResourceId, Delete, Commit, Complete, Payload, EntryOk;
    var t := s.transfers[tid];
    TransferHasId(cfg, s, tid);
    DeleteKeepsInv(cfg, s, t.resourceId);
    DeleteEffect(cfg, s, t.resourceId, "");
    hide Inv;
    CommitSucceedsExactlyWhen(cfg, Delete(cfg, s, t.resourceId).0, now, tid);
    FailedCommitChangesNothing(cfg, Delete(cfg, s, t.resourceId).0, now, tid);
  }

  lemma TransferHasId(cfg: Config, s: Service, tid: string)
    requires Inv(cfg, s) && tid in s.transfers
    ensures IsResourceId(s.transfers[tid].resourceId)
  {
    assert TransferOk(cfg, tid, s.transfers[tid], s.parts[tid]);
  }

  // ---- file_stat ----

  /** The answer to a query in every case, in a state that satisfies the invariant: the file itself can neither be
      missing nor differ from its entry, so all depends on the entry, the time, and what the query expects. */
  lemma StatAnswer(cfg: Config, s: Service, now: Clock, q: Query)
    requires Inv(cfg, s) && IsResourceId(q.resourceId) && Find(s.manifest, q.resourceId, cfg.conv).Some?
    ensures var r, m := Stat(cfg, s, now, q), Find(s.manifest, q.resourceId, cfg.conv).value;
      var expiry := cfg.parseTime(m.expires);
      var open := expiry.Time? && now.epoch < expiry.epoch;
      var sized := q.size == None || q.size == Some(Some(m.size));
      && (r == Refused(InvalidExpiry) <==> !expiry.Time?)
      && (r == Refused(ResourceExpired) <==> expiry.Time? && expiry.epoch <= now.epoch)
      && (r == Refused(InvalidExpectedSize) <==> open && q.size == Some(None))
      && (r == Refused(SizeMismatch) <==> open && q.size.Some? && q.size.value.Some? && q.size.value.value != m.size)
      && (r == Refused(InvalidExpectedSha256) <==> open && sized && q.sha256.Some? && !IsSha256(q.sha256.value))
      && (r == Refused(ChecksumMismatch) <==>
            open && sized && q.sha256.Some? && IsSha256(q.sha256.value) && Lower(q.sha256.value) != m.sha256)
      && (r == Ok(m) <==> open && sized && (q.sha256.Some? ==> Lower(q.sha256.value) == m.sha256))
      && (r.Ok? ==> r == Ok(m))
  {
    hide Find, IsSha256, Lower, IsResourceId, Inv, ValidateLocator, Accept, HasKey, Get, Resources, ContentCheck,
      Loadable, EntryOk;
    EntryIsSound(cfg, s, q.resourceId);
    ContentAnswer(cfg, Find(s.manifest, q.resourceId, cfg.conv).value, s.files[q.resourceId], q);
  }

  lemma EntryIsSound(cfg: Config, s: Service, id: string)
    requires Inv(cfg, s) && Find(s.manifest, id, cfg.conv).Some?
    ensures var m := Find(s.manifest, id, cfg.conv).value;
      id in s.files && |s.files[id]| == m.size && cfg.digest(s.files[id]) == m.sha256 && IsSha256(m.sha256)
  {
    hide Find, IsSha256, Lower, IsResourceId, Inv, ValidateLocator, Accept, HasKey, Get, Resources;
    EntryHolds(cfg, s, id);
    FindInResources(s.manifest, id, cfg.conv);
  }

  lemma ContentAnswer(cfg: Config, m: Manifest, content: Bytes, q: Query)
    requires |content| == m.size && cfg.digest(content) == m.sha256 && IsSha256(m.sha256)
    ensures var c, sized := ContentCheck(cfg, m, content, q), q.size == None || q.size == Some(Some(m.size));
      && (c == Some(InvalidExpectedSize) <==> q.size == Some(None))
      && (c == Some(SizeMismatch) <==> q.size.Some? && q.size.value.Some? && q.size.value.value != m.size)
      && (c == Some(InvalidExpectedSha256) <==> sized && q.sha256.Some? && !IsSha256(q.sha256.value))
      && (c == Some(ChecksumMismatch) <==>
            sized && q.sha256.Some? && IsSha256(q.sha256.value) && Lower(q.sha256.value) != m.sha256)
      && (c == None <==> sized && (q.sha256.Some? ==> Lower(q.sha256.value) == m.sha256))
      && (c.Some? ==> c.value in {InvalidExpectedSize, SizeMismatch, InvalidExpectedSha256, ChecksumMismatch})
  {
    hide IsSha256, Lower;
    if q.sha256.Some? { LowerSha256(q.sha256.value); }
  }

  lemma StatOfNothing(cfg: Config, s: Service, now: Clock, q: Query)
    ensures Stat(cfg, s, now, q) == Refused(InvalidResourceId) <==> !IsResourceId(q.resourceId)
    ensures Stat(cfg, s, now, q) == Refused(ResourceNotFound)
      <==> IsResourceId(q.resourceId) && Find(s.manifest, q.resourceId, cfg.conv) == None
  {
    hide Find, IsSha256, Lower, IsResourceId;
  }

  /** A query of a file that was lost or damaged on disk notices it, whatever it expects: missing, then another size,
      then other bytes. */
  lemma DamageIsNoticed(cfg: Config, s: Service, now: Clock, q: Query)
    requires IsResourceId(q.resourceId) && Find(s.manifest, q.resourceId, cfg.conv).Some?
    requires var expiry := cfg.parseTime(Find(s.manifest, q.resourceId, cfg.conv).value.expires);
      expiry.Time? && now.epoch < expiry.epoch
    ensures var r, m, id := Stat(cfg, s, now, q), Find(s.manifest, q.resourceId, cfg.conv).value, q.resourceId;
      && (r == Refused(ResourcePathInvalid) <==> id !in s.files)
      && (id in s.files && |s.files[id]| != m.size ==> r == Refused(SizeMismatch))
      && (id in s.files && |s.files[id]| == m.size && cfg.digest(s.files[id]) != m.sha256 ==>
            r == Refused(ChecksumMismatch))
      && (r.Ok? ==> id in s.files && |s.files[id]| == m.size && cfg.digest(s.files[id]) == m.sha256)
  {
    hide Find, IsSha256, Lower, IsResourceId;
  }

  /** A read is refused as too large exactly when the resource is there, has not expired, and its file exceeds the
      limit; every other refusal is the query's, and where the query answers the read ends in an internal error. */
  lemma ReadAnswer(cfg: Config, s: Service, now: Clock, q: Query)
    ensures var read, stat := Read(cfg, s, now, q), Stat(cfg, s, now, q);
      var found := Find(s.manifest, q.resourceId, cfg.conv);
      var open := IsResourceId(q.resourceId) && found.Some? && cfg.parseTime(found.value.expires).Time?
        && now.epoch < cfg.parseTime(found.value.expires).epoch && q.resourceId in s.files;
      && (read == Refused(FileTooLarge) <==> open && |s.files[q.resourceId]| > cfg.maxFile)
      && (read == Refused(ResourceInternalError) <==> stat.Ok? && |s.files[q.resourceId]| <= cfg.maxFile)
      && (read != Refused(FileTooLarge) && read != Refused(ResourceInternalError) ==> read == Refused(stat.code))
  {
    ReadNeverReturnsContent(cfg, s, now, q);
    hide IsSha256, Lower, IsResourceId, Find;
  }

  // ---- publish_begin and publish_commit ----

  /** A begin whose request is not usable is refused with the first complaint and changes nothing. */
  lemma UnusableBegin(cfg: Config, s: Service, now: Clock, req: BeginRequest)
    ensures var (s', r) := Begin(cfg, s, now, req);
      var ids := IsResourceId(req.resourceId) && IsResourceId(req.transferId);
      var sized := ids && req.size.Some? && 0 <= req.size.value <= cfg.maxFile;
      && (r == Refused(InvalidResourceId) <==> !IsResourceId(req.resourceId))
      && (r == Refused(InvalidTransferId) <==> IsResourceId(req.resourceId) && !IsResourceId(req.transferId))
      && (r == Refused(InvalidSize) <==> ids && req.size == None)
      && (r == Refused(FileTooLarge) <==> ids && req.size.Some? && !(0 <= req.size.value <= cfg.maxFile))
      && (r == Refused(InvalidSha256) <==> sized && !IsSha256(req.sha256))
      && (r == Refused(InvalidFileName) <==>
            sized && IsSha256(req.sha256) && (req.fileName == "" || exists i :: 0 <= i < |req.fileName|
                                                                             && req.fileName[i] == '\0'))
      && (!UsableBegin(cfg, req) ==> s' == s && r.Refused?)
      && (BeginCheck(cfg, req) == None <==> UsableBegin(cfg, req))
  {
    LowerSha256(req.sha256);
    hide IsSha256, Lower, IsResourceId, Cleanup, CleanupCompletes;
  }

  predicate UsableBegin(cfg: Config, req: BeginRequest) {
    && IsResourceId(req.resourceId) && IsResourceId(req.transferId)
    && req.size.Some? && 0 <= req.size.value <= cfg.maxFile && IsSha256(req.sha256)
    && req.fileName != "" && '\0' !in req.fileName
  }

  /** The announcement a begin makes of a new transfer, field by field. */
  lemma FreshBegin(cfg: Config, s: Service, now: Clock, req: BeginRequest)
    requires UsableBegin(cfg, req) && CleanupCompletes(cfg, s) && req.version.Some?
    requires req.transferId !in Cleanup(cfg, s, now).transfers
    requires |Cleanup(cfg, s, now).transfers| < cfg.maxTransfers
    ensures var live, tid := Cleanup(cfg, s, now), req.transferId; var (s', r) := Begin(cfg, s, now, req);
      && r == Ok(BeginReply(tid, req.resourceId, req.size.value, cfg.maxChunk))
      && SameElse(live, s', tid) && tid in s'.parts && s'.parts[tid] == []
      && tid in s'.transfers && s'.transfers[tid].received == [] && s'.transfers[tid].lastActivity == now.mono
      && Announces(s'.transfers[tid], req, now)
  {
    UnusableBegin(cfg, s, now, req);
    hide IsSha256, IsResourceId, Cleanup, CleanupCompletes, UsableBegin, BeginCheck, Lower;
    BeginOpens(cfg, s, now, req);
    OpenTouchesOne(cfg, Cleanup(cfg, s, now), now, req);
    hide Begin;
  }

  /** Transfer `t` stands for what `req` announced at `now`. */
  predicate Announces(t: Transfer, req: BeginRequest, now: Clock) {
    && t.transferId == req.transferId && t.resourceId == req.resourceId && t.fileName == req.fileName
    && (req.mime != "" ==> t.mime == req.mime) && (req.mime == "" ==> t.mime == "application/octet-stream")
    && req.size == Some(t.expectedSize) && t.expectedSha256 == Lower(req.sha256)
    && req.version.Some? && t.version >= 1 && t.version >= req.version.value && t.version in {1, req.version.value}
    && t.expires == req.expires && t.created == now.iso
  }

  /** Repeating the begin of a live transfer gives the answer of the first one. */
  lemma ResumedBegin(cfg: Config, s: Service, now: Clock, req: BeginRequest)
    requires Inv(cfg, s) && UsableBegin(cfg, req) && CleanupCompletes(cfg, s)
    requires var live := Cleanup(cfg, s, now);
      req.transferId in live.transfers && SameIdentity(live.transfers[req.transferId], req)
    ensures Begin(cfg, s, now, req).1 == Ok(BeginReply(req.transferId, req.resourceId, req.size.value, cfg.maxChunk))
  {
    UnusableBegin(cfg, s, now, req);
    CleanupKeepsInv(cfg, s, now);
    var live, tid := Cleanup(cfg, s, now), req.transferId;
    assert TransferOk(cfg, tid, live.transfers[tid], live.parts[tid]);
    hide Inv, IsSha256, IsResourceId, Cleanup, CleanupCompletes, UsableBegin, BeginCheck, Lower, Holds, Indexes,
      InBounds, Disjoint;
    BeginOpens(cfg, s, now, req);
    hide Begin;
  }

  /** What a commit is refused with, in a state that satisfies the invariant. */
  lemma CommitAnswer(cfg: Config, s: Service, now: Clock, tid: string)
    requires Inv(cfg, s) && IsResourceId(tid) && tid in s.transfers
    ensures var t, r := s.transfers[tid], Commit(cfg, s, now, tid).1;
      var whole := Complete(t.ranges, t.expectedSize);
      var intact := whole && cfg.digest(Payload(t)) == t.expectedSha256;
      var other := t.resourceId in s.files
        && (|s.files[t.resourceId]| != t.expectedSize || cfg.digest(s.files[t.resourceId]) != t.expectedSha256);
      && (r == Refused(IncompleteFile) <==> !whole)
      && (r == Refused(ChecksumMismatch) <==> whole && !intact)
      && (r == Refused(ResourceConflict) <==> intact && other)
  {
    if Complete(s.transfers[tid].ranges, s.transfers[tid].expectedSize) {
      CompleteTransferHoldsPayload(cfg, s, tid);
    }
    hide Complete, Payload, IsResourceId, Find;
  }

  /** The entry a commit at `now` publishes for a transfer, field by field. */
  predicate PublishedFor(m: Manifest, t: Transfer, now: Clock) {
    && m.resourceId == t.resourceId && m.locator == "resources/" + t.resourceId
    && m.originalFileName == t.fileName && m.mimeType == t.mime
    && m.size == t.expectedSize && m.sha256 == t.expectedSha256 && m.version == t.version
    && m.created == t.created && m.lastUsed == now.iso
    && (t.expires != "" ==> m.expires == t.expires) && (t.expires == "" ==> m.expires == now.futureExpiry)
  }

  lemma CommitPublishesEntry(cfg: Config, s: Service, now: Clock, tid: string)
    requires ConfigOk(cfg) && ClockOk(now) && Inv(cfg, s) && Commit(cfg, s, now, tid).1.Ok?
    ensures tid in s.transfers
    ensures var (s', r) := Commit(cfg, s, now, tid);
      && PublishedFor(r.value, s.transfers[tid], now)
      && Find(s'.manifest, s.transfers[tid].resourceId, cfg.conv) == Some(r.value)
  {
    hide Find, Inv, Commit;
    CommitFindsTransfer(cfg, s, now, tid);
    CommitPublishes(cfg, s, now, tid, "");
  }

  /** From the announcement to the resource: a begin at `start`, the chunks of a completing set in any order with any
      retries, and a commit at `now` publish under the unused id the payloads in offset order, and the index entry
      carries what the begin announced. */
  lemma PublishedAsAnnounced(
    cfg: Config, s: Service, start: Clock, req: BeginRequest, plan: seq<Piece>, arrivals: seq<(Clock, Piece)>,
    now: Clock)
    requires ConfigOk(cfg) && ClockOk(start) && ClockOk(now) && Inv(cfg, s)
    requires UsableBegin(cfg, req) && CleanupCompletes(cfg, s) && req.version.Some?
    requires var live := Cleanup(cfg, s, start);
      req.transferId !in live.transfers && |live.transfers| < cfg.maxTransfers && req.resourceId !in live.files
    requires Fits(plan, req.size.value) && Complete(Spans(plan), req.size.value)
    requires forall i | 0 <= i < |arrivals| :: arrivals[i].1 in plan && |arrivals[i].1.data| <= cfg.maxChunk
    requires forall p | p in plan :: Arrived(arrivals, p)
    requires cfg.digest(Concat(InOffsetOrder(plan))) == Lower(req.sha256)
    ensures var s1 := Deliver(cfg, Begin(cfg, s, start, req).0, req.transferId, arrivals).0;
      var (s2, r) := Commit(cfg, s1, now, req.transferId);
      && s2.files == Cleanup(cfg, s, start).files[req.resourceId := Concat(InOffsetOrder(plan))]
      && r.Ok? && Find(s2.manifest, req.resourceId, cfg.conv) == Some(r.value)
      && exists t :: Announces(t, req, start) && PublishedFor(r.value, t, now)
  {
    hide Inv, CleanupCompletes, Cleanup, Begin, Commit, Deliver, Fits, Complete, Find, IsResourceId, IsSha256, Lower,
      Spans, InOffsetOrder, Concat, PublishedFor, Arrived, SameTransaction;
    var tid, s0 := req.transferId, Begin(cfg, s, start, req).0;
    FreshBegin(cfg, s, start, req);
    BeginKeepsInv(cfg, s, start, req);
    EveryArrivalAccepted(cfg, s0, tid, plan, arrivals);
    EveryArrivalOrderPublishes(cfg, s0, tid, plan, arrivals, now);
    var s1 := Deliver(cfg, s0, tid, arrivals).0;
    CommitPublishesEntry(cfg, s1, now, tid);
    StillAnnounces(s0.transfers[tid], s1.transfers[tid], req, start);
  }

  lemma StillAnnounces(t: Transfer, t': Transfer, req: BeginRequest, now: Clock)
    requires SameTransaction(t, t') && Announces(t, req, now)
    ensures Announces(t', req, now) && t'.resourceId == t.resourceId
  {
    hide Lower;
  }

  /** What the service says when a part file was lost or changed under it: a new chunk cannot be written, a complete
      transfer cannot be read, or its part file has the wrong size or digest. Nothing but the last activity changes. */
  lemma LostOrChangedPart(cfg: Config, s: Service, now: Clock, req: ChunkRequest, tid: string)
    requires ConfigOk(cfg) && IsResourceId(tid) && tid in s.transfers
    requires UsableChunk(cfg, req) && req.transferId == tid
    ensures var t := s.transfers[tid]; var (s', r) := Chunk(cfg, s, now, req);
      req.offset.value + |req.data.value| <= t.expectedSize && req.index.value !in t.chunks
      && !OverlapsAny(req.offset.value, req.offset.value + |req.data.value|, t.ranges) && tid !in s.parts
      ==> r == Refused(WriteFailed) && s' == Touch(s, tid, now.mono)
    ensures var t := s.transfers[tid]; var (s', r) := Commit(cfg, s, now, tid);
      Complete(t.ranges, t.expectedSize) ==>
        && (r == Refused(StatFailed) <==> tid !in s.parts)
        && (tid in s.parts ==> (r == Refused(SizeMismatch) <==> |s.parts[tid]| != t.expectedSize))
        && (tid in s.parts && |s.parts[tid]| == t.expectedSize ==>
              (r == Refused(ChecksumMismatch) <==> cfg.digest(s.parts[tid]) != t.expectedSha256))
        && (r.Refused? ==> s' == Touch(s, tid, now.mono))
  {
    hide IsSha256, Lower, IsResourceId, OverlapsAny, Complete, WriteAt, Record, Saved;
    assert IsSha256(cfg.digest(req.data.value));
  }

  /** A commit under an unusable or unknown transfer id changes nothing. */
  lemma UnusableCommit(cfg: Config, s: Service, now: Clock, tid: string)
    ensures var (s', r) := Commit(cfg, s, now, tid);
      && (r == Refused(InvalidTransferId) <==> !IsResourceId(tid))
      && (r == Refused(TransferNotFound) <==> IsResourceId(tid) && tid !in s.transfers)
      && (!IsResourceId(tid) || tid !in s.transfers ==> s' == s && r.Refused?)
  {
    hide IsResourceId, Complete, Saved;
  }

  // ---- handle_command ----

  /** The code a command ends with says what its operation answered. */
  predicate Tells<T>(code: Option<ErrorCode>, r: Reply<T>) {
    match r
    case Ok(_) => code == None
    case Refused(c) => code == Some(c)
  }

  /** A whole command is its own operation on what the cleanup in front of it leaves; queries and reads change nothing
      more. */
  lemma HandleIsItsCommand(cfg: Config, s: Service, first: Clock, now: Clock, c: Command)
    requires CleanupCompletes(cfg, s)
    ensures var live := Cleanup(cfg, s, first); var (s', code) := Handle(cfg, s, first, now, c);
      && (c.BeginCommand? ==>
            s' == Begin(cfg, live, now, c.begin).0 && Tells(code, Begin(cfg, live, now, c.begin).1))
      && (c.ChunkCommand? ==>
            s' == Chunk(cfg, live, now, c.chunk).0 && Tells(code, Chunk(cfg, live, now, c.chunk).1))
      && (c.CommitCommand? ==> s' == Commit(cfg, live, now, c.tid).0 && Tells(code, Commit(cfg, live, now, c.tid).1))
      && (c.StatCommand? ==> s' == live && Tells(code, Stat(cfg, live, now, c.query)))
      && (c.ReadCommand? ==> s' == live && Tells(code, Read(cfg, live, now, c.query)))
      && (c.DeleteCommand? ==> s' == Delete(cfg, live, c.rid).0 && Tells(code, Delete(cfg, live, c.rid).1))
      && (c.CleanupCommand? && CleanupCompletes(cfg, live) ==> s' == Cleanup(cfg, live, now) && code == None)
  {
    hide Cleanup, CleanupCompletes, Begin, Chunk, Commit, Stat, Read, Delete;
  }

  /** The whole delete command, the cleanup in front of it included: afterwards the resource is gone for the whole
      query, read and delete commands, whenever they come. */
  lemma DeletedForEveryCommand(
    cfg: Config, s: Service, first: Clock, now: Clock, q: Query, later: Clock, last: Clock)
    requires CleanupCompletes(cfg, s) && IsResourceId(q.resourceId)
    ensures var s' := Handle(cfg, s, first, now, DeleteCommand(q.resourceId)).0;
      && Handle(cfg, s, first, now, DeleteCommand(q.resourceId)).1 == None
      && Find(s'.manifest, q.resourceId, cfg.conv) == None
      && (CleanupCompletes(cfg, s') ==>
            && Handle(cfg, s', later, last, StatCommand(q)).1 == Some(ResourceNotFound)
            && Handle(cfg, s', later, last, ReadCommand(q)).1 == Some(ResourceNotFound)
            && Handle(cfg, s', later, last, DeleteCommand(q.resourceId))
               == (Cleanup(cfg, s', later), None))
  {
    var rid, s1 := q.resourceId, Cleanup(cfg, s, first);
    var s' := Delete(cfg, s1, rid).0;
    hide Cleanup, CleanupCompletes, Find, IsResourceId, Delete, Stat, Read;
    DeleteEffect(cfg, s1, rid, "");
    CleanupForgetsExactly(cfg, s', later, rid);
    hide Expired, Reached;
    NothingThere(cfg, Cleanup(cfg, s', later), last, q);
  }

  lemma NothingThere(cfg: Config, s: Service, now: Clock, q: Query)
    requires IsResourceId(q.resourceId) && Find(s.manifest, q.resourceId, cfg.conv) == None
    ensures Stat(cfg, s, now, q) == Refused(ResourceNotFound) && Read(cfg, s, now, q) == Refused(ResourceNotFound)
    ensures Delete(cfg, s, q.resourceId) == (s, Ok(false))
  {
    hide Find, IsResourceId;
  }
}
