/** The resource service as the program runs it: methods that update the dictionaries in place. Each is proved to
    make exactly the step the protocol describes. */
module FileAgent {
  import opened ChunkRanges
  import opened PyJson
  import opened ResourceManifest
  import opened FileService

  class AgentFileService {
    const cfg: Config
    const store: ResourceManifestStore
    var transfers: map<string, Transfer>
    var parts: map<string, Bytes>
    var files: map<string, Bytes>

    ghost predicate Valid()
      reads this
    {
      store.conv == cfg.conv && forall tid | tid in transfers :: IsResourceId(transfers[tid].resourceId)
    }

    /** The state of the protocol that the fields stand for. */
    ghost function State(): Service
      reads this, store
    {
      Service(transfers, parts, files, store.file)
    }

    constructor (cfg: Config, store: ResourceManifestStore, parts: map<string, Bytes>, files: map<string, Bytes>)
      requires store.conv == cfg.conv
      ensures Valid() && this.cfg == cfg && this.store == store
      ensures State() == Service(map[], parts, files, store.file)
    {
      this.cfg, this.store, this.parts, this.files := cfg, store, parts, files;
      transfers := map[];
    }

    /** `completed` is false when an overflow while parsing an expiry escapes. */
    method CleanupExpired(now: Clock) returns (completed: bool)
      requires Valid()
      modifies this, store
      ensures Valid() && State() == Cleanup(cfg, old(State()), now) && completed == CleanupCompletes(cfg, old(State()))
    {
      hide Resources, RemovedAll, ExpiredIds, NoneOverflows, IsResourceId;
      DropIdleTransfers(now);
      completed := DropExpiredResources(now);
    }

    method DropIdleTransfers(now: Clock)
      modifies this`transfers, this`parts
      ensures transfers == map tid | tid in old(transfers)
        && !TransferIdle(cfg, old(transfers)[tid], now) :: old(transfers)[tid]
      ensures parts == map tid | tid in old(parts) && (tid in old(transfers) ==> tid in transfers) :: old(parts)[tid]
    {
      var todo := transfers.Keys;
      while todo != {}
        invariant todo <= transfers.Keys
        invariant transfers == map tid | tid in old(transfers)
          && (tid in todo || !TransferIdle(cfg, old(transfers)[tid], now))
          :: old(transfers)[tid]
        invariant parts == map tid | tid in old(parts)
          && (tid in old(transfers) ==> tid in transfers) :: old(parts)[tid]
        decreases todo
      {
        var tid :| tid in todo;
        todo := todo - {tid};
        if now.mono - transfers[tid].lastActivity > cfg.transferTtl {
          parts := parts - {tid};
          transfers := transfers - {tid};
        }
      }
    }

    method DropExpiredResources(now: Clock) returns (completed: bool)
      requires store.conv == cfg.conv
      modifies this`files, store
      ensures var doc := Resources(old(store.file), cfg.conv); var gone := ExpiredIds(cfg, doc, now);
        && files == Drop(old(files), gone) && store.file == RemovedAll(old(store.file), gone, cfg.conv)
        && completed == NoneOverflows(cfg, doc)
    {
      hide Resources, Removed, ExpiryOf, Find;
      var doc := store.LoadDocument();
      assert doc[..0] == [];
      for i := 0 to |doc|
        invariant NoneOverflows(cfg, doc[..i])
        invariant files == Drop(old(files), ExpiredIds(cfg, doc[..i], now))
        invariant store.file == RemovedAll(old(store.file), ExpiredIds(cfg, doc[..i], now), cfg.conv)
      {
        ghost var gone := ExpiredIds(cfg, doc[..i], now);
        if EntryOverflows(cfg, doc[i]) {
          ExpiredIdsStop(cfg, doc, i, now);
          return false;
        }
        assert doc[..i + 1] == doc[..i] + [doc[i]];
        ExpiredIdsAppend(cfg, doc[..i], doc[i], now);
        if EntryExpired(cfg, doc[i], now) {
          files := files - {doc[i].key};
          var _ := store.Remove(doc[i].key);
          RemovedAllAppend(old(store.file), gone, doc[i].key, cfg.conv);
        } else {
          assert gone + [] == gone;
        }
      }
      assert doc[..|doc|] == doc;
      completed := true;
    }

    method PublishBegin(now: Clock, req: BeginRequest) returns (reply: Reply<BeginReply>)
      requires Valid()
      modifies this, store
      ensures Valid() && (State(), reply) == Begin(cfg, old(State()), now, req)
    {
      hide Cleanup, CleanupCompletes, IsResourceId, IsSha256, Lower;
      var failure := BeginCheck(cfg, req);
      if failure.Some? {
        return Refused(failure.value);
      }
      var completed := CleanupExpired(now);
      if !completed {
        return Refused(ResourceInternalError);
      }
      var tid := req.transferId;
      if tid in transfers {
        var existing := transfers[tid];
        if existing.resourceId == req.resourceId && existing.expectedSize == req.size.value
           && existing.expectedSha256 == Lower(req.sha256)
        {
          transfers := transfers[tid := existing.(lastActivity := now.mono)];
          return Ok(BeginReplyFor(cfg, existing));
        }
        return Refused(TransferConflict);
      }
      if |transfers| >= cfg.maxTransfers {
        return Refused(TooManyTransfers);
      }
      parts := parts[tid := []];
      if req.version == None {
        return Refused(ResourceInternalError);
      }
      var transfer := NewTransfer(now, req);
      transfers := transfers[tid := transfer];
      reply := Ok(BeginReplyFor(cfg, transfer));
    }

    method FileChunk(now: Clock, req: ChunkRequest) returns (reply: Reply<ChunkReply>)
      requires Valid()
      modifies this`transfers, this`parts
      ensures Valid() && (State(), reply) == Chunk(cfg, old(State()), now, req)
    {
      hide IsResourceId, IsSha256, Lower, WriteAt, OverlapsAny;
      var failure := ChunkCheck(cfg, req);
      if failure.Some? {
        return Refused(failure.value);
      }
      var tid, index, offset, chunk := req.transferId, req.index.value, req.offset.value, req.data.value;
      if tid !in transfers {
        return Refused(TransferNotFound);
      }
      var transfer := transfers[tid].(lastActivity := now.mono);
      transfers := transfers[tid := transfer];
      if offset + |chunk| > transfer.expectedSize {
        return Refused(SizeOverflow);
      }
      var fingerprint := Fingerprint(offset, |chunk|, Lower(req.sha256));
      if index in transfer.chunks {
        if transfer.chunks[index] != fingerprint {
          return Refused(ChunkConflict);
        }
        return Ok(ChunkReply(index, offset, |chunk|, true));
      }
      if OverlapsAny(offset, offset + |chunk|, transfer.ranges) {
        return Refused(ChunkOverlap);
      }
      if tid !in parts {
        return Refused(WriteFailed);
      }
      parts := parts[tid := WriteAt(parts[tid], offset, chunk)];
      transfer := transfer.(chunks := transfer.chunks[index := fingerprint],
                            ranges := transfer.ranges + [Range(offset, offset + |chunk|)],
                            received := transfer.received + [Piece(index, offset, chunk)]);
      transfers := transfers[tid := transfer];
      var received := SumOfLengths(transfer.ranges);
      reply := Ok(ChunkReply(index, offset, received, false));
    }

    method PublishCommit(now: Clock, tid: string) returns (reply: Reply<Manifest>)
      requires Valid()
      modifies this, store
      ensures Valid() && (State(), reply) == Commit(cfg, old(State()), now, tid)
    {
      hide Saved, IsResourceId, ValidateLocator, LocatorFor, Complete;
      if !IsResourceId(tid) {
        return Refused(InvalidTransferId);
      }
      if tid !in transfers {
        return Refused(TransferNotFound);
      }
      var transfer := transfers[tid].(lastActivity := now.mono);
      transfers := transfers[tid := transfer];
      var complete := IsComplete(transfer.ranges, transfer.expectedSize);
      if !complete {
        return Refused(IncompleteFile);
      }
      if tid !in parts {
        return Refused(StatFailed);
      }
      var part, rid := parts[tid], transfer.resourceId;
      var actualSize, actualSha256 := |part|, cfg.digest(part);
      if actualSize != transfer.expectedSize {
        return Refused(SizeMismatch);
      }
      if actualSha256 != transfer.expectedSha256 {
        return Refused(ChecksumMismatch);
      }
      if rid in files {
        if |files[rid]| != actualSize || cfg.digest(files[rid]) != actualSha256 {
          return Refused(ResourceConflict);
        }
        parts := parts - {tid};
      } else {
        parts, files := parts - {tid}, files[rid := part];
      }
      var expires := if transfer.expires == "" then now.futureExpiry else transfer.expires;
      var manifest := Manifest(rid, LocatorFor(rid), transfer.fileName, transfer.mime, actualSize, actualSha256,
                               transfer.version, transfer.created, expires, now.iso);
      OwnLocatorIsValid(rid);
      var saved := store.Save(manifest);
      transfers := transfers - {tid};
      reply := Ok(manifest);
    }

    method FileDelete(rid: string) returns (reply: Reply<bool>)
      requires Valid()
      modifies this`files, store
      ensures Valid() && (State(), reply) == Delete(cfg, old(State()), rid)
    {
      hide Find, Removed, IsResourceId, Resources;
      if !IsResourceId(rid) {
        return Refused(InvalidResourceId);
      }
      var manifest := store.Lookup(rid);
      if manifest == None {
        return Ok(false);
      }
      files := files - {rid};
      var _ := store.Remove(rid);
      reply := Ok(true);
    }

    method FileStat(now: Clock, q: Query) returns (reply: Reply<Manifest>)
      requires Valid()
      ensures reply == Stat(cfg, State(), now, q)
    {
      hide Find, IsResourceId, Resources;
      if !IsResourceId(q.resourceId) {
        return Refused(InvalidResourceId);
      }
      var found := store.Lookup(q.resourceId);
      if found == None {
        return Refused(ResourceNotFound);
      }
      var expiry := cfg.parseTime(found.value.expires);
      if !expiry.Time? {
        return Refused(InvalidExpiry);
      }
      if expiry.epoch <= now.epoch {
        return Refused(ResourceExpired);
      }
      if q.resourceId !in files {
        return Refused(ResourcePathInvalid);
      }
      var failure := ContentCheck(cfg, found.value, files[q.resourceId], q);
      reply := if failure.Some? then Refused(failure.value) else Ok(found.value);
    }

    /** The assignment to the frozen manifest that follows the checks raises, so no content is ever answered. */
    method FileRead(now: Clock, q: Query) returns (reply: Reply<Bytes>)
      requires Valid()
      ensures reply == Read(cfg, State(), now, q)
    {
      hide Find, IsResourceId, Resources, ContentCheck;
      if !IsResourceId(q.resourceId) {
        return Refused(InvalidResourceId);
      }
      var found := store.Lookup(q.resourceId);
      if found == None {
        return Refused(ResourceNotFound);
      }
      var expiry := cfg.parseTime(found.value.expires);
      if !expiry.Time? {
        return Refused(InvalidExpiry);
      }
      if expiry.epoch <= now.epoch {
        return Refused(ResourceExpired);
      }
      if q.resourceId !in files {
        return Refused(ResourcePathInvalid);
      }
      var content := files[q.resourceId];
      if |content| > cfg.maxFile {
        return Refused(FileTooLarge);
      }
      var failure := ContentCheck(cfg, found.value, content, q);
      reply := if failure.Some? then Refused(failure.value) else Refused(ResourceInternalError);
    }

    /** Cleans up, then runs the command; `first` and `now` are the clock readings of the two. */
    method HandleCommand(first: Clock, now: Clock, c: Command) returns (failure: Option<ErrorCode>)
      requires Valid()
      modifies this, store
      ensures Valid() && (State(), failure) == Handle(cfg, old(State()), first, now, c)
    {
      hide Cleanup, CleanupCompletes, Begin, Chunk, Commit, Stat, Read, Delete, IsResourceId;
      var completed := CleanupExpired(first);
      if !completed {
        return Some(ResourceInternalError);
      }
      match c
      case BeginCommand(req) => var r := PublishBegin(now, req); failure := CodeOf(r);
      case ChunkCommand(req) => var r := FileChunk(now, req); failure := CodeOf(r);
      case CommitCommand(tid) => var r := PublishCommit(now, tid); failure := CodeOf(r);
      case StatCommand(q) => var r := FileStat(now, q); failure := CodeOf(r);
      case ReadCommand(q) => var r := FileRead(now, q); failure := CodeOf(r);
      case DeleteCommand(rid) => var r := FileDelete(rid); failure := CodeOf(r);
      case CleanupCommand =>
        completed := CleanupExpired(now);
        failure := if completed then None else Some(ResourceInternalError);
    }
  }

  method SumOfLengths(ranges: seq<Range>) returns (sum: int)
    ensures sum == TotalLength(ranges)
  {
    sum := 0;
    for i := 0 to |ranges|
      invariant sum + TotalLength(ranges[i..]) == TotalLength(ranges)
    {
      sum := sum + ranges[i].end - ranges[i].start;
    }
  }

  lemma {:induction false} ExpiredIdsAppend(cfg: Config, doc: seq<Field>, f: Field, now: Clock)
    requires NoneOverflows(cfg, doc) && !EntryOverflows(cfg, f)
    ensures ExpiredIds(cfg, doc + [f], now)
      == ExpiredIds(cfg, doc, now) + (if EntryExpired(cfg, f, now) then [f.key] else [])
  {
    hide EntryExpired, EntryOverflows;
    if doc != [] {
      assert (doc + [f])[1..] == doc[1..] + [f];
      ExpiredIdsAppend(cfg, doc[1..], f, now);
    }
  }

  /** Nothing behind an overflow counts. */
  lemma {:induction false} ExpiredIdsStop(cfg: Config, doc: seq<Field>, i: nat, now: Clock)
    requires i < |doc| && NoneOverflows(cfg, doc[..i]) && EntryOverflows(cfg, doc[i])
    ensures ExpiredIds(cfg, doc, now) == ExpiredIds(cfg, doc[..i], now)
  {
    hide EntryExpired, EntryOverflows;
    if i > 0 {
      assert doc[1..][..i - 1] == doc[..i][1..] && doc[..i][0] == doc[0];
      ExpiredIdsStop(cfg, doc[1..], i - 1, now);
    }
  }

  lemma {:induction false} RemovedAllAppend(file: ManifestFile, ids: seq<string>, id: string, conv: Conversions)
    ensures RemovedAll(file, ids + [id], conv) == Removed(RemovedAll(file, ids, conv), id, conv)
    decreases |ids|
  {
    hide Removed;
    if ids != [] {
      assert (ids + [id])[1..] == ids[1..] + [id];
      RemovedAllAppend(Removed(file, ids[0], conv), ids[1..], id, conv);
    }
  }
}
