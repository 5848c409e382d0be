/** What the resource publishing protocol guarantees over every run. */
module FilePublishing {
  import opened Sorting
  import opened ChunkRanges
  import opened PyJson
  import opened ResourceManifest
  import opened FileService

  // ---- The invariant ----

  /** `chunks` is the index of the accepted pieces by chunk number. */
  ghost predicate Indexes(chunks: map<int, Fingerprint>, received: seq<Piece>, digest: Bytes -> string) {
    && (forall i | 0 <= i < |received| :: received[i].index in chunks
          && chunks[received[i].index] == Fingerprint(received[i].offset, |received[i].data|, digest(received[i].data)))
    && (forall k | k in chunks :: exists i :: 0 <= i < |received| && received[i].index == k)
    && (forall i, j | 0 <= i < j < |received| :: received[i].index != received[j].index)
  }

  ghost predicate TransferOk(cfg: Config, tid: string, t: Transfer, part: Bytes) {
    && t.transferId == tid && IsResourceId(t.resourceId) && t.fileName != "" && 1 <= t.version && t.created != ""
    && 0 <= t.expectedSize <= cfg.maxFile
    && t.ranges == Spans(t.received) && InBounds(t.ranges, t.expectedSize) && Disjoint(t.ranges)
    && Indexes(t.chunks, t.received, cfg.digest)
    && Holds(part, t.received)
  }

  ghost predicate TransfersOk(cfg: Config, s: Service) {
    && |s.transfers| <= cfg.maxTransfers
    && forall tid | tid in s.transfers :: tid in s.parts && TransferOk(cfg, tid, s.transfers[tid], s.parts[tid])
  }

  /** The entry of resource `id`, if there is one, has its file with the recorded size and digest. */
  ghost predicate EntryOk(cfg: Config, s: Service, id: string) {
    var found := Find(s.manifest, id, cfg.conv);
    found.Some? ==> id in s.files && |s.files[id]| == found.value.size && cfg.digest(s.files[id]) == found.value.sha256
  }

  ghost predicate Inv(cfg: Config, s: Service) {
    TransfersOk(cfg, s) && forall id :: EntryOk(cfg, s, id)
  }

  // ---- Each step keeps the invariant ----

  lemma {:induction false} RemovedAllFind(file: ManifestFile, ids: seq<string>, id: string, conv: Conversions)
    ensures Find(RemovedAll(file, ids, conv), id, conv) == if id in ids then None else Find(file, id, conv)
    decreases |ids|
  {
    if ids != [] {
      RemoveThenGet(file, ids[0], id, conv);
      RemovedAllFind(Removed(file, ids[0], conv), ids[1..], id, conv);
    }
  }

  lemma CleanupKeepsInv(cfg: Config, s: Service, now: Clock)
    requires Inv(cfg, s)
    ensures Inv(cfg, Cleanup(cfg, s, now))
  {
    var s' := Cleanup(cfg, s, now);
    SubmapNotLarger(s'.transfers, s.transfers);
    var gone := ExpiredIds(cfg, Resources(s.manifest, cfg.conv), now);
    forall id ensures EntryOk(cfg, s', id) {
      RemovedAllFind(s.manifest, gone, id, cfg.conv);
      assert EntryOk(cfg, s, id);
    }
  }

  lemma SubmapNotLarger<K, V>(small: map<K, V>, large: map<K, V>)
    requires small.Keys <= large.Keys
    ensures |small| <= |large|
  {
    SubsetNotLarger(small.Keys, large.Keys);
  }

  lemma {:induction false} SubsetNotLarger<K>(a: set<K>, b: set<K>)
    requires a <= b
    ensures |a| <= |b|
    decreases a
  {
    if a != {} {
      var x :| x in a;
      SubsetNotLarger(a - {x}, b - {x});
    }
  }

  /** A step that rewrites one transaction and its part file keeps the invariant if that transaction is sound. */
  lemma OneTransferChanged(cfg: Config, s: Service, s': Service, tid: string)
    requires Inv(cfg, s) && s'.files == s.files && s'.manifest == s.manifest
    requires s'.transfers.Keys == s.transfers.Keys + {tid} && (tid in s.transfers || |s.transfers| < cfg.maxTransfers)
    requires forall x | x in s.transfers && x != tid ::
      s'.transfers[x] == s.transfers[x] && x in s'.parts && s'.parts[x] == s.parts[x]
    requires tid in s'.parts && TransferOk(cfg, tid, s'.transfers[tid], s'.parts[tid])
    ensures Inv(cfg, s')
  {
    hide TransferOk, Find;
    assert |s'.transfers| == |s'.transfers.Keys| && |s.transfers| == |s.transfers.Keys|;
    if tid in s.transfers { assert s'.transfers.Keys == s.transfers.Keys; }
    forall x | x in s'.transfers ensures x in s'.parts && TransferOk(cfg, x, s'.transfers[x], s'.parts[x]) {
      if x != tid { assert TransferOk(cfg, x, s.transfers[x], s.parts[x]); }
    }
    SameIndexSameEntries(cfg, s, s');
  }

  lemma SameIndexSameEntries(cfg: Config, s: Service, s': Service)
    requires (forall id :: EntryOk(cfg, s, id)) && s'.files == s.files && s'.manifest == s.manifest
    ensures forall id :: EntryOk(cfg, s', id)
  {
    forall id ensures EntryOk(cfg, s', id) { assert EntryOk(cfg, s, id); }
  }

  lemma TouchKeepsInv(cfg: Config, s: Service, tid: string, mono: int)
    requires Inv(cfg, s) && tid in s.transfers
    ensures Inv(cfg, Touch(s, tid, mono))
  {
    var t := s.transfers[tid];
    assert TransferOk(cfg, tid, t, s.parts[tid]);
    assert TransferOk(cfg, tid, t.(lastActivity := mono), s.parts[tid]);
    OneTransferChanged(cfg, s, Touch(s, tid, mono), tid);
  }

  lemma BeginKeepsInv(cfg: Config, s: Service, now: Clock, req: BeginRequest)
    requires Inv(cfg, s) && ClockOk(now)
    ensures Inv(cfg, Begin(cfg, s, now, req).0)
  {
    hide Inv, Open, Cleanup, CleanupCompletes;
    if BeginCheck(cfg, req) == None {
      CleanupKeepsInv(cfg, s, now);
      OpenKeepsInv(cfg, Cleanup(cfg, s, now), now, req);
    }
  }

  lemma OpenKeepsInv(cfg: Config, s: Service, now: Clock, req: BeginRequest)
    requires Inv(cfg, s) && ClockOk(now) && BeginCheck(cfg, req) == None
    ensures Inv(cfg, Open(cfg, s, now, req).0)
  {
    var tid := req.transferId;
    assert req.size.Some?;
    hide Inv, TransferOk, IsResourceId, NewTransfer, BeginCheck;
    if tid in s.transfers {
      TouchKeepsInv(cfg, s, tid, now.mono);
    } else if |s.transfers| < cfg.maxTransfers {
      FreshPartKeepsInv(cfg, s, tid);
      if req.version.Some? {
        NewTransferOk(cfg, now, req);
        NewTransferKeepsInv(cfg, s, tid, NewTransfer(now, req));
      }
    }
  }

  lemma NewTransferKeepsInv(cfg: Config, s: Service, tid: string, t: Transfer)
    requires Inv(cfg, s) && tid !in s.transfers && |s.transfers| < cfg.maxTransfers && TransferOk(cfg, tid, t, [])
    ensures Inv(cfg, s.(parts := s.parts[tid := []], transfers := s.transfers[tid := t]))
  {
    var s' := s.(parts := s.parts[tid := []], transfers := s.transfers[tid := t]);
    assert forall x | x in s.transfers :: x in s.parts;
    hide Inv, TransferOk;
    OneTransferChanged(cfg, s, s', tid);
  }

  /** Creating an empty part file for a transaction that is not there changes nothing that counts. */
  lemma FreshPartKeepsInv(cfg: Config, s: Service, tid: string)
    requires Inv(cfg, s) && tid !in s.transfers
    ensures Inv(cfg, s.(parts := s.parts[tid := []]))
  {
    hide TransferOk, EntryOk;
    var s' := s.(parts := s.parts[tid := []]);
    forall x | x in s.transfers ensures x in s'.parts && TransferOk(cfg, x, s.transfers[x], s'.parts[x]) {
      assert TransferOk(cfg, x, s.transfers[x], s.parts[x]);
    }
    SameIndexSameEntries(cfg, s, s');
  }

  lemma NewTransferOk(cfg: Config, now: Clock, req: BeginRequest)
    requires ClockOk(now) && BeginCheck(cfg, req) == None && req.version.Some?
    ensures TransferOk(cfg, req.transferId, NewTransfer(now, req), [])
  {
  }

  lemma RecordKeepsRanges(t: Transfer, p: Piece, sha256: string)
    requires t.ranges == Spans(t.received) && InBounds(t.ranges, t.expectedSize) && Disjoint(t.ranges)
    requires 0 <= p.offset && p.End() <= t.expectedSize && !OverlapsAny(p.offset, p.End(), t.ranges)
    ensures var t' := Record(t, p, sha256);
      t'.ranges == Spans(t'.received) && InBounds(t'.ranges, t.expectedSize) && Disjoint(t'.ranges)
  {
    var t' := Record(t, p, sha256);
    assert Spans(t'.received) == t'.ranges;
    forall i, j | 0 <= i < j < |t'.ranges| ensures !Overlap(t'.ranges[i], t'.ranges[j]) {
      if j == |t.ranges| { assert !Overlap(Range(p.offset, p.End()), t.ranges[i]); }
    }
  }

  lemma RecordKeepsIndexes(t: Transfer, p: Piece, digest: Bytes -> string)
    requires Indexes(t.chunks, t.received, digest) && p.index !in t.chunks
    ensures var t' := Record(t, p, digest(p.data)); Indexes(t'.chunks, t'.received, digest)
  {
    IndexesGrow(t.chunks, t.received, p, digest);
  }

  lemma IndexesGrow(chunks: map<int, Fingerprint>, received: seq<Piece>, p: Piece, digest: Bytes -> string)
    requires Indexes(chunks, received, digest) && p.index !in chunks
    ensures Indexes(chunks[p.index := Fingerprint(p.offset, |p.data|, digest(p.data))], received + [p], digest)
  {
    var chunks', received' := chunks[p.index := Fingerprint(p.offset, |p.data|, digest(p.data))], received + [p];
    assert received'[|received|] == p;
    assert forall i | 0 <= i < |received| :: received'[i] == received[i];
    forall k | k in chunks' ensures exists i :: 0 <= i < |received'| && received'[i].index == k {
      if k != p.index {
        var i :| 0 <= i < |received| && received[i].index == k;
        assert received'[i].index == k;
      }
    }
  }

  lemma RecordKeepsTransferOk(cfg: Config, tid: string, t: Transfer, part: Bytes, p: Piece)
    requires TransferOk(cfg, tid, t, part)
    requires 0 <= p.offset && p.End() <= t.expectedSize && p.index !in t.chunks
      && !OverlapsAny(p.offset, p.End(), t.ranges)
    ensures TransferOk(cfg, tid, Record(t, p, cfg.digest(p.data)), WriteAt(part, p.offset, p.data))
  {
    WriteKeepsHolds(part, t.received, p);
    RecordKeepsRanges(t, p, cfg.digest(p.data));
    RecordKeepsIndexes(t, p, cfg.digest);
  }

  lemma ChunkKeepsInv(cfg: Config, s: Service, now: Clock, req: ChunkRequest)
    requires Inv(cfg, s)
    ensures Inv(cfg, Chunk(cfg, s, now, req).0)
  {
    if ChunkCheck(cfg, req) == None && req.transferId in s.transfers {
      TouchKeepsInv(cfg, s, req.transferId, now.mono);
      ReceiveKeepsInv(cfg, Touch(s, req.transferId, now.mono), req);
    }
  }

  lemma ReceiveKeepsInv(cfg: Config, s: Service, req: ChunkRequest)
    requires Inv(cfg, s) && ChunkCheck(cfg, req) == None && req.transferId in s.transfers
    ensures Inv(cfg, Receive(cfg, s, req).0)
  {
    hide Find, OverlapsAny, IsSha256, Lower, WriteAt, Holds, Indexes, Disjoint, InBounds;
    var tid, p := req.transferId, PieceOf(req);
    var t, s' := s.transfers[tid], Receive(cfg, s, req).0;
    assert TransferOk(cfg, tid, t, s.parts[tid]);
    if s' != s {
      RecordKeepsTransferOk(cfg, tid, t, s.parts[tid], p);
      OneTransferChanged(cfg, s, s', tid);
    }
  }

  lemma ManifestForLoadable(cfg: Config, tid: string, t: Transfer, part: Bytes, now: Clock)
    requires ConfigOk(cfg) && ClockOk(now) && TransferOk(cfg, tid, t, part)
    ensures var m := ManifestFor(t, now, |part|, cfg.digest(part));
      Loadable(m) && ValidateLocator(m.locator, m.resourceId).Success? && m.resourceId == t.resourceId
  {
    OwnLocatorIsValid(t.resourceId);
  }

  lemma TouchKeepsKeys(s: Service, tid: string, mono: int)
    requires tid in s.transfers
    ensures Touch(s, tid, mono).transfers.Keys == s.transfers.Keys
  {
  }

  lemma CommitKeepsInv(cfg: Config, s: Service, now: Clock, tid: string)
    requires ConfigOk(cfg) && ClockOk(now) && Inv(cfg, s)
    ensures Inv(cfg, Commit(cfg, s, now, tid).0)
  {
    hide Inv, Publish, CommitCheck, Touch, IsResourceId;
    if IsResourceId(tid) && tid in s.transfers {
      TouchKeepsInv(cfg, s, tid, now.mono);
      var s1 := Touch(s, tid, now.mono);
      TouchKeepsKeys(s, tid, now.mono);
      if CommitCheck(cfg, s1, tid) == None { PublishKeepsInv(cfg, s1, now, tid); }
    }
  }

  lemma PublishKeepsInv(cfg: Config, s: Service, now: Clock, tid: string)
    requires ConfigOk(cfg) && ClockOk(now) && Inv(cfg, s) && tid in s.transfers && CommitCheck(cfg, s, tid) == None
    ensures Inv(cfg, Publish(cfg, s, now, tid).0)
  {
    var (s', r) := Publish(cfg, s, now, tid);
    ManifestForLoadable(cfg, tid, s.transfers[tid], s.parts[tid], now);
    SubmapNotLarger(s'.transfers, s.transfers);
    forall x | x in s'.transfers ensures x in s'.parts && TransferOk(cfg, x, s'.transfers[x], s'.parts[x]) {
      assert TransferOk(cfg, x, s.transfers[x], s.parts[x]);
    }
    forall id ensures EntryOk(cfg, s', id) {
      PublishedEntry(cfg, s, now, tid, id);
    }
  }

  lemma PublishedEntry(cfg: Config, s: Service, now: Clock, tid: string, id: string)
    requires ConfigOk(cfg) && ClockOk(now) && Inv(cfg, s) && tid in s.transfers && CommitCheck(cfg, s, tid) == None
    ensures EntryOk(cfg, Publish(cfg, s, now, tid).0, id)
  {
    hide Find, Saved;
    ManifestForLoadable(cfg, tid, s.transfers[tid], s.parts[tid], now);
    SaveThenGet(s.manifest, Publish(cfg, s, now, tid).1, id, cfg.conv);
    assert EntryOk(cfg, s, id);
  }

  lemma DeleteKeepsInv(cfg: Config, s: Service, rid: string)
    requires Inv(cfg, s)
    ensures Inv(cfg, Delete(cfg, s, rid).0)
  {
    hide TransferOk, Find, Removed, IsResourceId;
    var s' := Delete(cfg, s, rid).0;
    assert s'.transfers == s.transfers && s'.parts == s.parts;
    forall id ensures EntryOk(cfg, s', id) { DeletedEntry(cfg, s, rid, id); }
  }

  lemma DeletedEntry(cfg: Config, s: Service, rid: string, id: string)
    requires forall x :: EntryOk(cfg, s, x)
    ensures EntryOk(cfg, Delete(cfg, s, rid).0, id)
  {
    hide Find, Removed, IsResourceId;
    RemoveThenGet(s.manifest, rid, id, cfg.conv);
    assert EntryOk(cfg, s, id);
  }

  lemma NextKeepsInv(cfg: Config, s: Service, step: Step)
    requires ConfigOk(cfg) && StepOk(step) && Inv(cfg, s)
    ensures Inv(cfg, Next(cfg, s, step))
  {
    match step
    case BeginStep(now, req) => BeginKeepsInv(cfg, s, now, req);
    case ChunkStep(now, req) => ChunkKeepsInv(cfg, s, now, req);
    case CommitStep(now, tid) => CommitKeepsInv(cfg, s, now, tid);
    case DeleteStep(rid) => DeleteKeepsInv(cfg, s, rid);
    case CleanupStep(now) => CleanupKeepsInv(cfg, s, now);
    case RestartStep =>
      forall id ensures EntryOk(cfg, s.(transfers := map[]), id) { assert EntryOk(cfg, s, id); }
  }

  /** Every run from a state that satisfies the invariant, restarts included, ends in one that does. */
  lemma {:induction false} RunKeepsInv(cfg: Config, s: Service, steps: seq<Step>)
    requires ConfigOk(cfg) && Inv(cfg, s) && forall i | 0 <= i < |steps| :: StepOk(steps[i])
    ensures Inv(cfg, Run(cfg, s, steps))
  {
    if steps != [] {
      RunKeepsInv(cfg, s, steps[..|steps| - 1]);
      NextKeepsInv(cfg, Run(cfg, s, steps[..|steps| - 1]), steps[|steps| - 1]);
    }
  }

  // ---- Published bytes ----

  /** A fresh installation: no transfers, no files, no index. */
  const EMPTY := Service(map[], map[], map[], Absent)

  lemma EmptyServiceOk(cfg: Config)
    ensures cfg.maxTransfers >= 1 ==> Inv(cfg, EMPTY)
  {
  }

  lemma RunsFromEmptyKeepInv(cfg: Config, steps: seq<Step>)
    requires ConfigOk(cfg) && forall i | 0 <= i < |steps| :: StepOk(steps[i])
    ensures Inv(cfg, Run(cfg, EMPTY, steps))
  {
    EmptyServiceOk(cfg);
    RunKeepsInv(cfg, EMPTY, steps);
  }

  predicate Live(cfg: Config, s: Service, id: string) {
    Find(s.manifest, id, cfg.conv).Some?
  }

  /** No step rewrites a published file: it stays as it is or disappears. */
  lemma StepNeverRewrites(cfg: Config, s: Service, step: Step, id: string)
    requires id in s.files && id in Next(cfg, s, step).files
    ensures Next(cfg, s, step).files[id] == s.files[id]
  {
    hide Find, Saved, Removed, RemovedAll, Resources, Open, Receive, Publish;
    match step
    case BeginStep(now, req) =>
      if BeginCheck(cfg, req) == None { OpenKeepsFiles(cfg, Cleanup(cfg, s, now), now, req); }
    case ChunkStep(now, req) =>
      if ChunkCheck(cfg, req) == None && req.transferId in s.transfers {
        ReceiveKeepsFiles(cfg, Touch(s, req.transferId, now.mono), req);
      }
    case CommitStep(now, tid) =>
      if IsResourceId(tid) && tid in s.transfers {
        var s1 := Touch(s, tid, now.mono);
        if CommitCheck(cfg, s1, tid) == None { PublishOnlyAdds(cfg, s1, now, tid, id); }
      }
    case _ =>
  }

  lemma OpenKeepsFiles(cfg: Config, s: Service, now: Clock, req: BeginRequest)
    requires BeginCheck(cfg, req) == None
    ensures Open(cfg, s, now, req).0.files == s.files
  {
  }

  lemma ReceiveKeepsFiles(cfg: Config, s: Service, req: ChunkRequest)
    requires ChunkCheck(cfg, req) == None && req.transferId in s.transfers
    ensures Receive(cfg, s, req).0.files == s.files
  {
  }

  lemma PublishOnlyAdds(cfg: Config, s: Service, now: Clock, tid: string, id: string)
    requires tid in s.transfers && tid in s.parts && id in s.files
    ensures id in Publish(cfg, s, now, tid).0.files && Publish(cfg, s, now, tid).0.files[id] == s.files[id]
  {
    hide Saved;
  }

  lemma LiveHasFile(cfg: Config, s: Service, id: string)
    requires Inv(cfg, s) && Live(cfg, s, id)
    ensures id in s.files
  {
    hide Find, TransfersOk;
    assert EntryOk(cfg, s, id);
  }

  /** The bytes of a resource never change while its entry stays live. */
  lemma {:induction false} LiveBytesNeverChange(cfg: Config, s: Service, steps: seq<Step>, id: string)
    requires ConfigOk(cfg) && Inv(cfg, s) && forall i | 0 <= i < |steps| :: StepOk(steps[i])
    requires forall n | 0 <= n <= |steps| :: Live(cfg, Run(cfg, s, steps[..n]), id)
    ensures id in s.files && id in Run(cfg, s, steps).files && Run(cfg, s, steps).files[id] == s.files[id]
  {
    hide Next, Find, Inv;
    assert steps[..|steps|] == steps;
    assert Live(cfg, Run(cfg, s, steps[..0]), id);
    if steps == [] {
      LiveHasFile(cfg, s, id);
    } else {
      var init := steps[..|steps| - 1];
      forall n | 0 <= n <= |init| ensures Live(cfg, Run(cfg, s, init[..n]), id) {
        assert init[..n] == steps[..n];
      }
      LiveBytesNeverChange(cfg, s, init, id);
      RunKeepsInv(cfg, s, init);
      RunKeepsInv(cfg, s, steps);
      assert Live(cfg, Run(cfg, s, steps[..|steps|]), id);
      LiveHasFile(cfg, Run(cfg, s, steps), id);
      StepNeverRewrites(cfg, Run(cfg, s, init), steps[|steps| - 1], id);
    }
  }

  // ---- What cleanup and begin do ----

  predicate Expired(cfg: Config, m: Manifest, now: Clock) {
    cfg.parseTime(m.expires).Time? && cfg.parseTime(m.expires).epoch <= now.epoch
  }

  /** The cleanup loop gets as far as resource `id`: no entry in front of it overflows. */
  predicate Reached(cfg: Config, file: ManifestFile, id: string) {
    var doc := Resources(file, cfg.conv);
    NoneOverflows(cfg, doc[..IndexOf(doc, id)])
  }

  predicate ExpiredAt(cfg: Config, doc: seq<Field>, now: Clock, id: string, i: int) {
    0 <= i < |doc| && doc[i].key == id && EntryExpired(cfg, doc[i], now) && NoneOverflows(cfg, doc[..i])
  }

  lemma OverflowsCons(cfg: Config, doc: seq<Field>, i: nat)
    requires i < |doc|
    ensures NoneOverflows(cfg, doc[..i + 1]) <==> !EntryOverflows(cfg, doc[0]) && NoneOverflows(cfg, doc[1..][..i])
  {
    hide EntryOverflows;
    assert doc[..i + 1] == [doc[0]] + doc[1..][..i];
  }

  lemma {:induction false} ExpiredIdsAre(cfg: Config, doc: seq<Field>, now: Clock, id: string)
    ensures id in ExpiredIds(cfg, doc, now) <==> exists i :: ExpiredAt(cfg, doc, now, id, i)
  {
    hide EntryExpired, EntryOverflows, NoneOverflows;
    if doc != [] {
      ExpiredIdsAre(cfg, doc[1..], now, id);
      if i :| ExpiredAt(cfg, doc, now, id, i) {
        if i > 0 {
          OverflowsCons(cfg, doc, i - 1);
          assert ExpiredAt(cfg, doc[1..], now, id, i - 1);
        } else {
          NothingInFront(cfg, doc);
        }
      }
      if i :| ExpiredAt(cfg, doc[1..], now, id, i) {
        OverflowsCons(cfg, doc, i);
        if !EntryOverflows(cfg, doc[0]) { assert ExpiredAt(cfg, doc, now, id, i + 1); }
      }
      NothingInFront(cfg, doc);
      if EntryExpired(cfg, doc[0], now) && doc[0].key == id { assert ExpiredAt(cfg, doc, now, id, 0); }
    }
  }

  lemma NothingInFront(cfg: Config, doc: seq<Field>)
    requires doc != []
    ensures NoneOverflows(cfg, doc[..0])
    ensures forall now :: EntryExpired(cfg, doc[0], now) ==> !EntryOverflows(cfg, doc[0])
  {
    hide ExpiryOf;
  }

  lemma ExpiryOfEntry(cfg: Config, m: Manifest)
    ensures ExpiryOf(cfg, Field(m.resourceId, Obj(ToDict(m)))) == cfg.parseTime(m.expires)
  {
    DictValues(m);
    hide ToDict, HasRequired;
    assert NAMES[8] == "expires" && At(ToDict(m), 8) == Str(m.expires);
  }

  lemma StoredEntry(cfg: Config, file: ManifestFile, id: string, i: int)
    requires 0 <= i < |Resources(file, cfg.conv)| && Resources(file, cfg.conv)[i].key == id
    ensures Find(file, id, cfg.conv).Some?
    ensures Resources(file, cfg.conv)[i] == Field(id, Obj(ToDict(Find(file, id, cfg.conv).value)))
    ensures Find(file, id, cfg.conv).value.resourceId == id
  {
    var doc := Resources(file, cfg.conv);
    hide Find, LoadEntries, RawResources, Accept, ToDict;
    LoadedIsClean(RawResources(file), cfg.conv);
    IndexIsUnique(doc, i);
    FindInResources(file, id, cfg.conv);
    assert Settled(doc[i], cfg.conv);
  }

  /** Cleanup forgets exactly the resources it reaches whose expiry parses to a time that has come, index entry and
      file, and the transfers idle for longer than their lifetime, with their part files; it changes nothing else. It
      reaches every resource if it completes. */
  lemma CleanupForgetsExactly(cfg: Config, s: Service, now: Clock, id: string)
    ensures var s', found := Cleanup(cfg, s, now), Find(s.manifest, id, cfg.conv);
      var gone := found.Some? && Expired(cfg, found.value, now) && Reached(cfg, s.manifest, id);
      && Find(s'.manifest, id, cfg.conv) == (if gone then None else found)
      && (id in s'.files <==> id in s.files && !gone) && (id in s'.files ==> s'.files[id] == s.files[id])
      && (id in s'.transfers <==> id in s.transfers && now.mono - s.transfers[id].lastActivity <= cfg.transferTtl)
      && (id in s'.transfers ==> s'.transfers[id] == s.transfers[id])
      && (id in s'.parts <==> id in s.parts && (id in s.transfers ==> id in s'.transfers))
      && (id in s'.parts ==> s'.parts[id] == s.parts[id])
    ensures CleanupCompletes(cfg, s) ==> Reached(cfg, s.manifest, id)
  {
    var doc := Resources(s.manifest, cfg.conv);
    var gone := ExpiredIds(cfg, doc, now);
    RemovedAllFind(s.manifest, gone, id, cfg.conv);
    hide RemovedAll, EntryOverflows;
    GoneExactly(cfg, s.manifest, now, id);
    hide Find, ExpiredIds, Resources, Expired;
  }

  lemma GoneExactly(cfg: Config, file: ManifestFile, now: Clock, id: string)
    ensures id in ExpiredIds(cfg, Resources(file, cfg.conv), now) <==>
      Find(file, id, cfg.conv).Some? && Expired(cfg, Find(file, id, cfg.conv).value, now) && Reached(cfg, file, id)
  {
    hide Find, Resources, ExpiredIds, ExpiryOf, ToDict, NoneOverflows, IndexOf, Expired, EntryExpired;
    var doc, found := Resources(file, cfg.conv), Find(file, id, cfg.conv);
    ExpiredIdsAre(cfg, doc, now, id);
    FindInResources(file, id, cfg.conv);
    if found.Some? {
      ExpiryOfStored(cfg, file, id, IndexOf(doc, id), now);
      if Expired(cfg, found.value, now) && Reached(cfg, file, id) {
        assert ExpiredAt(cfg, doc, now, id, IndexOf(doc, id));
      }
    }
    if i :| ExpiredAt(cfg, doc, now, id, i) {
      ExpiryOfStored(cfg, file, id, i, now);
    }
  }

  lemma ExpiryOfStored(cfg: Config, file: ManifestFile, id: string, i: int, now: Clock)
    requires 0 <= i < |Resources(file, cfg.conv)| && Resources(file, cfg.conv)[i].key == id
    ensures Find(file, id, cfg.conv).Some? && i == IndexOf(Resources(file, cfg.conv), id)
    ensures ExpiryOf(cfg, Resources(file, cfg.conv)[i]) == cfg.parseTime(Find(file, id, cfg.conv).value.expires)
    ensures EntryExpired(cfg, Resources(file, cfg.conv)[i], now) <==> Expired(cfg, Find(file, id, cfg.conv).value, now)
  {
    hide Find, LoadEntries, RawResources, ToDict, ExpiryOf, Settled;
    StoredEntry(cfg, file, id, i);
    ExpiryOfEntry(cfg, Find(file, id, cfg.conv).value);
    LoadedIsClean(RawResources(file), cfg.conv);
    IndexIsUnique(Resources(file, cfg.conv), i);
  }

  /** Cleanup completes if and only if no indexed expiry is one whose parsing overflows. */
  lemma CleanupCompletesExactlyWhen(cfg: Config, s: Service)
    ensures CleanupCompletes(cfg, s) <==>
      forall id | Find(s.manifest, id, cfg.conv).Some? ::
        !cfg.parseTime(Find(s.manifest, id, cfg.conv).value.expires).OutOfRange?
  {
    hide Find, Resources, ExpiryOf, ToDict, IndexOf, Expired, EntryExpired;
    var doc, now := Resources(s.manifest, cfg.conv), Clock(0, 0, "", "");
    forall id | Find(s.manifest, id, cfg.conv).Some?
      ensures exists i ::
        0 <= i < |doc| && ExpiryOf(cfg, doc[i]) == cfg.parseTime(Find(s.manifest, id, cfg.conv).value.expires)
    {
      FindInResources(s.manifest, id, cfg.conv);
      ExpiryOfStored(cfg, s.manifest, id, IndexOf(doc, id), now);
    }
    forall i | 0 <= i < |doc|
      ensures var found := Find(s.manifest, doc[i].key, cfg.conv);
        found.Some? && ExpiryOf(cfg, doc[i]) == cfg.parseTime(found.value.expires)
    {
      ExpiryOfStored(cfg, s.manifest, doc[i].key, i, now);
    }
  }

  /** The service after a number of commands and what each was refused with. */
  function HandleAll(cfg: Config, s: Service, cs: seq<(Clock, Clock, Command)>): (Service, seq<Option<ErrorCode>>) {
    if cs == [] then (s, [])
    else
      var n := |cs| - 1;
      var (s1, rs) := HandleAll(cfg, s, cs[..n]);
      var (s2, r) := Handle(cfg, s1, cs[n].0, cs[n].1, cs[n].2);
      (s2, rs + [r])
  }

  lemma OverflowSurvivesCleanup(cfg: Config, s: Service, now: Clock)
    requires !CleanupCompletes(cfg, s)
    ensures !CleanupCompletes(cfg, Cleanup(cfg, s, now))
  {
    hide CleanupCompletes, Find, Cleanup, Reached;
    CleanupCompletesExactlyWhen(cfg, s);
    CleanupCompletesExactlyWhen(cfg, Cleanup(cfg, s, now));
    var id :| Find(s.manifest, id, cfg.conv).Some?
      && cfg.parseTime(Find(s.manifest, id, cfg.conv).value.expires).OutOfRange?;
    CleanupForgetsExactly(cfg, s, now, id);
  }

  /** One indexed expiry that overflows ends the service: from then on every command whatever is answered with an
      internal error, no transfer is begun, and that entry is never removed. */
  lemma {:induction false} OverflowBlocksEveryCommand(cfg: Config, s: Service, cs: seq<(Clock, Clock, Command)>)
    requires !CleanupCompletes(cfg, s)
    ensures var (s', rs) := HandleAll(cfg, s, cs);
      && !CleanupCompletes(cfg, s') && s'.transfers.Keys <= s.transfers.Keys
      && |rs| == |cs| && forall i | 0 <= i < |rs| :: rs[i] == Some(ResourceInternalError)
  {
    hide CleanupCompletes;
    if cs != [] {
      var n := |cs| - 1;
      OverflowBlocksEveryCommand(cfg, s, cs[..n]);
      OverflowSurvivesCleanup(cfg, HandleAll(cfg, s, cs[..n]).0, cs[n].0);
      hide Perform, RemovedAll, ExpiredIds;
    }
  }

  /** Every command, the cleanup in front of it included, keeps the invariant. */
  lemma HandleKeepsInv(cfg: Config, s: Service, first: Clock, now: Clock, c: Command)
    requires ConfigOk(cfg) && Inv(cfg, s) && ClockOk(now)
    ensures Inv(cfg, Handle(cfg, s, first, now, c).0)
  {
    hide Inv, Cleanup, CleanupCompletes, Begin, Chunk, Commit, Delete, Stat, Read;
    CleanupKeepsInv(cfg, s, first);
    var s1 := Cleanup(cfg, s, first);
    match c
    case BeginCommand(req) => BeginKeepsInv(cfg, s1, now, req);
    case ChunkCommand(req) => ChunkKeepsInv(cfg, s1, now, req);
    case CommitCommand(tid) => CommitKeepsInv(cfg, s1, now, tid);
    case DeleteCommand(rid) => DeleteKeepsInv(cfg, s1, rid);
    case CleanupCommand => CleanupKeepsInv(cfg, s1, now);
    case _ =>
  }

  /** Begin in every case. Refused by its checks it changes nothing, refused by its cleanup no more than that cleanup.
      Otherwise: repeating a live transfer's identity resumes it with all it has received, another identity is a
      conflict, and a new transfer starts empty if there is room and its version converts. Nobody else is touched. A
      refused begin changes something exactly when only the version is wrong and the part file was not there empty
      already: then it leaves an empty part file behind. */
  lemma BeginEffect(cfg: Config, s: Service, now: Clock, req: BeginRequest)
    ensures BeginCheck(cfg, req).Some? ==> Begin(cfg, s, now, req) == (s, Refused(BeginCheck(cfg, req).value))
    ensures BeginCheck(cfg, req) == None && !CleanupCompletes(cfg, s)
      ==> Begin(cfg, s, now, req) == (Cleanup(cfg, s, now), Refused(ResourceInternalError))
    ensures BeginCheck(cfg, req) == None && CleanupCompletes(cfg, s) ==>
      var live := Cleanup(cfg, s, now); var tid := req.transferId; var (s', r) := Begin(cfg, s, now, req);
      var known := tid in live.transfers;
      var same := known && SameIdentity(live.transfers[tid], req);
      var room := |live.transfers| < cfg.maxTransfers;
      && (r.Ok? <==> same || (!known && room && req.version.Some?))
      && (r == Refused(TransferConflict) <==> known && !same)
      && (r == Refused(TooManyTransfers) <==> !known && !room)
      && (same ==> s'.parts == live.parts && s'.transfers[tid] == live.transfers[tid].(lastActivity := now.mono))
      && (r.Ok? && !same ==> s'.parts[tid] == [] && s'.transfers[tid].received == [] && s'.transfers[tid].ranges == [])
      && (r.Ok? ==> SameIdentity(s'.transfers[tid], req))
      && (r.Refused? ==> s'.transfers == live.transfers)
      && (r.Refused? ==> (s' != live <==>
            !known && room && req.version == None && (tid !in live.parts || live.parts[tid] != [])))
      && (r.Refused? && s' != live ==> tid in s'.parts && s'.parts[tid] == [])
      && SameElse(live, s', tid)
  {
    hide Cleanup, BeginCheck, CleanupCompletes, Lower, IsResourceId, IsSha256;
    if BeginCheck(cfg, req) == None && CleanupCompletes(cfg, s) {
      BeginOpens(cfg, s, now, req);
      hide Begin;
      OpenTouchesOne(cfg, Cleanup(cfg, s, now), now, req);
      if Open(cfg, Cleanup(cfg, s, now), now, req).1.Refused? { RefusedOpen(cfg, Cleanup(cfg, s, now), now, req); }
    }
  }

  /** What makes a begin a retry: the resource, the size and the digest. */
  predicate SameIdentity(t: Transfer, req: BeginRequest) {
    req.size.Some? && t.resourceId == req.resourceId && t.expectedSize == req.size.value
      && t.expectedSha256 == Lower(req.sha256)
  }

  lemma RefusedOpen(cfg: Config, s: Service, now: Clock, req: BeginRequest)
    requires BeginCheck(cfg, req) == None && Open(cfg, s, now, req).1.Refused?
    ensures var tid, s' := req.transferId, Open(cfg, s, now, req).0;
      && s'.transfers == s.transfers
      && (s' != s <==> tid !in s.transfers && |s.transfers| < cfg.maxTransfers && req.version == None
                       && (tid !in s.parts || s.parts[tid] != []))
      && (s' != s ==> tid in s'.parts && s'.parts[tid] == [])
  {
    hide Lower, IsResourceId, IsSha256, NewTransfer, BeginCheck;
    var tid := req.transferId;
    if tid in s.parts && s.parts[tid] == [] { assert s.parts[tid := []] == s.parts; }
  }

  lemma BeginOpens(cfg: Config, s: Service, now: Clock, req: BeginRequest)
    requires BeginCheck(cfg, req) == None && CleanupCompletes(cfg, s)
    ensures req.size.Some? && Begin(cfg, s, now, req) == Open(cfg, Cleanup(cfg, s, now), now, req)
  {
    hide Cleanup, CleanupCompletes, Open, Lower, IsResourceId, IsSha256;
  }

  /** A part file that no transfer refers to. */
  predicate Orphan(s: Service, tid: string) {
    tid in s.parts && tid !in s.transfers
  }

  /** `tid` still has its part file and no transfer. */
  predicate OrphanKept(s: Service, s': Service, tid: string) {
    Orphan(s, tid) && Orphan(s', tid) && s'.parts[tid] == s.parts[tid]
  }

  lemma OrphanStays(cfg: Config, s: Service, step: Step, tid: string)
    requires Orphan(s, tid) && !(step.BeginStep? && step.begin.transferId == tid)
    ensures OrphanKept(s, Next(cfg, s, step), tid)
  {
    hide CleanupCompletes, Cleanup, BeginCheck, Open, Chunk, Commit, Find, Removed, IsResourceId;
    match step
    case BeginStep(now, req) =>
      CleanupKeepsOrphan(cfg, s, now, tid);
      if BeginCheck(cfg, req) == None { OpenKeepsOrphan(cfg, Cleanup(cfg, s, now), now, req, tid); }
    case ChunkStep(now, req) => ChunkKeepsOrphan(cfg, s, now, req, tid);
    case CommitStep(now, other) => CommitKeepsOrphan(cfg, s, now, other, tid);
    case CleanupStep(now) => CleanupKeepsOrphan(cfg, s, now, tid);
    case _ =>
  }

  lemma CleanupKeepsOrphan(cfg: Config, s: Service, now: Clock, tid: string)
    requires Orphan(s, tid)
    ensures OrphanKept(s, Cleanup(cfg, s, now), tid)
  {
    hide ExpiredIds, Resources, RemovedAll;
  }

  lemma ChunkKeepsOrphan(cfg: Config, s: Service, now: Clock, req: ChunkRequest, tid: string)
    requires Orphan(s, tid)
    ensures OrphanKept(s, Chunk(cfg, s, now, req).0, tid)
  {
    hide ChunkCheck, WriteAt, OverlapsAny, Record, Lower;
  }

  lemma CommitKeepsOrphan(cfg: Config, s: Service, now: Clock, other: string, tid: string)
    requires Orphan(s, tid)
    ensures OrphanKept(s, Commit(cfg, s, now, other).0, tid)
  {
    hide IsResourceId, CommitCheck, Saved;
  }

  lemma OpenKeepsOrphan(cfg: Config, s: Service, now: Clock, req: BeginRequest, tid: string)
    requires BeginCheck(cfg, req) == None && Orphan(s, tid) && req.transferId != tid
    ensures OrphanKept(s, Open(cfg, s, now, req).0, tid)
  {
    hide Lower, IsResourceId, IsSha256, NewTransfer;
  }

  /** Over every run, cleanups and restarts included, an orphaned part file stays with its bytes until somebody begins
      that very transfer. */
  lemma {:induction false} OrphanIsNeverCollected(cfg: Config, s: Service, steps: seq<Step>, tid: string)
    requires Orphan(s, tid) && forall i | 0 <= i < |steps| :: !(steps[i].BeginStep? && steps[i].begin.transferId == tid)
    ensures OrphanKept(s, Run(cfg, s, steps), tid)
  {
    hide Next;
    if steps != [] {
      OrphanIsNeverCollected(cfg, s, steps[..|steps| - 1], tid);
      OrphanStays(cfg, Run(cfg, s, steps[..|steps| - 1]), steps[|steps| - 1], tid);
    }
  }

  lemma OpenTouchesOne(cfg: Config, s: Service, now: Clock, req: BeginRequest)
    requires BeginCheck(cfg, req) == None
    ensures SameElse(s, Open(cfg, s, now, req).0, req.transferId)
  {
    var tid, s' := req.transferId, Open(cfg, s, now, req).0;
    assert s'.files == s.files && s'.manifest == s.manifest;
    assert s'.parts == s.parts || s'.parts == s.parts[tid := []];
    assert s'.transfers == s.transfers
      || (tid in s'.transfers && s'.transfers == s.transfers[tid := s'.transfers[tid]]);
    hide Open;
    PutThenDrop(s.parts, tid, []);
    if tid in s'.transfers { PutThenDrop(s.transfers, tid, s'.transfers[tid]); }
  }

  lemma PutThenDrop<K, V>(m: map<K, V>, k: K, v: V)
    ensures m[k := v] - {k} == m - {k}
  {
  }

  // ---- What a commit does ----

  function Payload(t: Transfer): Bytes {
    Concat(InOffsetOrder(t.received))
  }

  lemma CompleteTransferHoldsPayload(cfg: Config, s: Service, tid: string)
    requires Inv(cfg, s) && tid in s.transfers && Complete(s.transfers[tid].ranges, s.transfers[tid].expectedSize)
    ensures s.parts[tid] == Payload(s.transfers[tid]) && |s.parts[tid]| == s.transfers[tid].expectedSize
  {
    assert TransferOk(cfg, tid, s.transfers[tid], s.parts[tid]);
    CompletePart(s.parts[tid], s.transfers[tid].received, s.transfers[tid].expectedSize);
  }

  /** In every state that satisfies the invariant a commit of a live transfer succeeds exactly when the ranges are
      complete, the payloads in offset order have the announced digest, and a file already published under the id has
      the same size and digest. The size check and the read of the part file cannot fail. */
  lemma CommitSucceedsExactlyWhen(cfg: Config, s: Service, now: Clock, tid: string)
    requires Inv(cfg, s) && IsResourceId(tid) && tid in s.transfers
    ensures var t, r := s.transfers[tid], Commit(cfg, s, now, tid).1;
      && (r.Ok? <==>
          (&& Complete(t.ranges, t.expectedSize)
           && cfg.digest(Payload(t)) == t.expectedSha256
           && (t.resourceId in s.files ==> |s.files[t.resourceId]| == t.expectedSize)
           && (t.resourceId in s.files ==> cfg.digest(s.files[t.resourceId]) == t.expectedSha256)))
      && (r.Refused? ==> r.code in {IncompleteFile, ChecksumMismatch, ResourceConflict})
  {
    if Complete(s.transfers[tid].ranges, s.transfers[tid].expectedSize) {
      CompleteTransferHoldsPayload(cfg, s, tid);
    }
  }

  lemma PublishEffect(cfg: Config, s: Service, now: Clock, tid: string, other: string)
    requires ConfigOk(cfg) && ClockOk(now) && Inv(cfg, s) && tid in s.transfers && CommitCheck(cfg, s, tid) == None
    ensures var (s', m) := Publish(cfg, s, now, tid); var t := s.transfers[tid];
      && s'.files == (if t.resourceId in s.files then s.files else s.files[t.resourceId := Payload(t)])
      && m == ManifestFor(t, now, t.expectedSize, t.expectedSha256)
      && Find(s'.manifest, t.resourceId, cfg.conv) == Some(m)
      && (other != t.resourceId ==> Find(s'.manifest, other, cfg.conv) == Find(s.manifest, other, cfg.conv))
  {
    hide Find, Saved, Loadable, ValidateLocator, LocatorFor;
    var t := s.transfers[tid];
    CompleteTransferHoldsPayload(cfg, s, tid);
    assert TransferOk(cfg, tid, t, s.parts[tid]);
    ManifestForLoadable(cfg, tid, t, s.parts[tid], now);
    SaveThenGet(s.manifest, ManifestFor(t, now, |s.parts[tid]|, cfg.digest(s.parts[tid])), other, cfg.conv);
  }

  /** A successful commit stores exactly the payloads in offset order under an unused id, keeps the existing bytes
      otherwise, and leaves the entry, the file and the transaction of everybody else alone. */
  lemma CommitPublishes(cfg: Config, s: Service, now: Clock, tid: string, other: string)
    requires ConfigOk(cfg) && ClockOk(now) && Inv(cfg, s) && Commit(cfg, s, now, tid).1.Ok?
    ensures var (s', r) := Commit(cfg, s, now, tid); var t := s.transfers[tid]; var rid := t.resourceId;
      && s'.files == (if rid in s.files then s.files else s.files[rid := Payload(t)])
      && r.value == ManifestFor(t, now, t.expectedSize, t.expectedSha256)
      && Find(s'.manifest, rid, cfg.conv) == Some(r.value)
      && (other != rid ==> Find(s'.manifest, other, cfg.conv) == Find(s.manifest, other, cfg.conv))
      && s'.transfers == s.transfers - {tid} && s'.parts == s.parts - {tid}
  {
    hide Find, Inv, Saved, CommitCheck, LocatorFor;
    TouchKeepsInv(cfg, s, tid, now.mono);
    PublishEffect(cfg, Touch(s, tid, now.mono), now, tid, other);
  }

  /** A commit that fails changes nothing but the transaction's last activity; in particular a commit of different
      content to a published id is refused as a conflict. */
  lemma FailedCommitChangesNothing(cfg: Config, s: Service, now: Clock, tid: string)
    requires Inv(cfg, s) && IsResourceId(tid) && tid in s.transfers
    ensures var t := s.transfers[tid];
      Complete(t.ranges, t.expectedSize) && cfg.digest(Payload(t)) == t.expectedSha256
      && t.resourceId in s.files && cfg.digest(s.files[t.resourceId]) != t.expectedSha256
      ==> Commit(cfg, s, now, tid).1 == Refused(ResourceConflict)
    ensures Commit(cfg, s, now, tid).1.Refused? ==> Commit(cfg, s, now, tid).0 == Touch(s, tid, now.mono)
  {
    if Complete(s.transfers[tid].ranges, s.transfers[tid].expectedSize) {
      CompleteTransferHoldsPayload(cfg, s, tid);
    }
  }

  lemma EntryHolds(cfg: Config, s: Service, id: string)
    requires Inv(cfg, s)
    ensures EntryOk(cfg, s, id)
  {
  }

  lemma StatOfEntry(cfg: Config, s: Service, id: string, m: Manifest, later: Clock)
    requires EntryOk(cfg, s, id) && Find(s.manifest, id, cfg.conv) == Some(m) && IsResourceId(id)
    ensures var expiry := cfg.parseTime(m.expires);
      (expiry.Time? && later.epoch < expiry.epoch) <==> Stat(cfg, s, later, Query(id, None, None)) == Ok(m)
  {
    hide Find;
  }

  /** After a commit, a plain query finds the resource exactly when its expiry parses to a later time. */
  lemma CommitThenStat(cfg: Config, s: Service, now: Clock, tid: string, later: Clock)
    requires ConfigOk(cfg) && ClockOk(now) && Inv(cfg, s) && Commit(cfg, s, now, tid).1.Ok?
    ensures var (s', r) := Commit(cfg, s, now, tid); var expiry := cfg.parseTime(r.value.expires);
      (expiry.Time? && later.epoch < expiry.epoch)
        <==> Stat(cfg, s', later, Query(r.value.resourceId, None, None)) == Ok(r.value)
  {
    hide Find, Saved, Inv, Loadable, ValidateLocator, Commit, Stat, EntryOk, LocatorFor;
    var (s', r) := Commit(cfg, s, now, tid);
    CommitFindsTransfer(cfg, s, now, tid);
    CommitPublishes(cfg, s, now, tid, "");
    CommitKeepsInv(cfg, s, now, tid);
    EntryHolds(cfg, s', r.value.resourceId);
    FindInResources(s'.manifest, r.value.resourceId, cfg.conv);
    StatOfEntry(cfg, s', r.value.resourceId, r.value, later);
  }

  lemma CommitFindsTransfer(cfg: Config, s: Service, now: Clock, tid: string)
    requires Commit(cfg, s, now, tid).1.Ok?
    ensures tid in s.transfers
  {
  }

  /** The way into that state: a successful commit makes cleanup fail from then on exactly when the expiry it
      publishes, the one its begin was given, is one whose parsing overflows. */
  lemma CommitBreaksCleanupExactlyWhen(cfg: Config, s: Service, now: Clock, tid: string)
    requires ConfigOk(cfg) && ClockOk(now) && Inv(cfg, s) && CleanupCompletes(cfg, s) && Commit(cfg, s, now, tid).1.Ok?
    ensures var (s', r) := Commit(cfg, s, now, tid);
      !CleanupCompletes(cfg, s') <==> cfg.parseTime(r.value.expires).OutOfRange?
    ensures tid in s.transfers
    ensures s.transfers[tid].expires != "" ==> Commit(cfg, s, now, tid).1.value.expires == s.transfers[tid].expires
  {
    hide Find, Inv, Saved, Commit, CleanupCompletes, LocatorFor;
    var (s', r) := Commit(cfg, s, now, tid);
    CommitFindsTransfer(cfg, s, now, tid);
    CommitPublishes(cfg, s, now, tid, "");
    var rid := s.transfers[tid].resourceId;
    CleanupCompletesExactlyWhen(cfg, s);
    CleanupCompletesExactlyWhen(cfg, s');
    forall id ensures Find(s'.manifest, id, cfg.conv) == if id == rid then Some(r.value)
      else Find(s.manifest, id, cfg.conv) {
      CommitPublishes(cfg, s, now, tid, id);
    }
  }

  /** The documented purpose of `file_read` is to return the content; the code never does. It answers an internal error
      exactly where `file_stat` would answer and the content is within the size limit, and otherwise refuses as that
      query does, or because the content is too large. */
  lemma ReadNeverReturnsContent(cfg: Config, s: Service, now: Clock, q: Query)
    ensures var read, stat := Read(cfg, s, now, q), Stat(cfg, s, now, q);
      && read.Refused?
      && (read == Refused(ResourceInternalError) <==> stat.Ok? && |s.files[q.resourceId]| <= cfg.maxFile)
      && (stat.Refused? ==> read.code in {stat.code, FileTooLarge})
      && (stat.Ok? && |s.files[q.resourceId]| > cfg.maxFile ==> read.code == FileTooLarge)
  {
    OpenedCode(cfg, s, now, q.resourceId);
    hide Opened;
    if Opened(cfg, s, now, q.resourceId).Ok? {
      ContentCode(cfg, Opened(cfg, s, now, q.resourceId).value, s.files[q.resourceId], q);
    }
    hide ContentCheck;
  }

  lemma OpenedCode(cfg: Config, s: Service, now: Clock, rid: string)
    ensures var r := Opened(cfg, s, now, rid); r.Refused? ==> r.code != ResourceInternalError
    ensures Opened(cfg, s, now, rid).Ok? ==> rid in s.files
  {
    hide Find, IsResourceId;
  }

  lemma ContentCode(cfg: Config, m: Manifest, content: Bytes, q: Query)
    ensures ContentCheck(cfg, m, content, q) != Some(ResourceInternalError)
  {
    hide IsSha256, Lower;
  }

  // ---- Arrival order ----

  /** A chunk set that fits a file: in bounds, pairwise disjoint, numbered distinctly. */
  predicate Fits(plan: seq<Piece>, size: int) {
    && InBounds(Spans(plan), size) && Disjoint(Spans(plan))
    && (forall i | 0 <= i < |plan| :: 0 <= plan[i].index)
    && (forall i, j | 0 <= i < j < |plan| :: plan[i].index != plan[j].index)
  }

  function RequestFor(cfg: Config, tid: string, p: Piece): ChunkRequest {
    ChunkRequest(tid, Some(p.index), Some(p.offset), Some(p.data), cfg.digest(p.data))
  }

  /** The chunks arrive one after the other, each at its own time. */
  function Deliver(cfg: Config, s: Service, tid: string, arrivals: seq<(Clock, Piece)>): (Service,
      seq<Reply<ChunkReply>>) {
    if arrivals == [] then (s, [])
    else
      var n := |arrivals| - 1;
      var (s1, rs) := Deliver(cfg, s, tid, arrivals[..n]);
      var (s2, r) := Chunk(cfg, s1, arrivals[n].0, RequestFor(cfg, tid, arrivals[n].1));
      (s2, rs + [r])
  }

  predicate SameElse(s: Service, s': Service, tid: string) {
    && s'.files == s.files && s'.manifest == s.manifest
    && s'.transfers - {tid} == s.transfers - {tid} && s'.parts - {tid} == s.parts - {tid}
  }

  predicate SameTransaction(t: Transfer, t': Transfer) {
    t' == t.(chunks := t'.chunks, ranges := t'.ranges, received := t'.received, lastActivity := t'.lastActivity)
  }

  lemma SpanAt(plan: seq<Piece>, i: int)
    requires 0 <= i < |plan|
    ensures Spans(plan)[i] == plan[i].Span()
  {
  }

  lemma PlannedDisjoint(plan: seq<Piece>, a: Piece, b: Piece, size: int)
    requires Fits(plan, size) && a in plan && b in plan
    ensures a.index == b.index ==> a == b
    ensures a.index != b.index ==> !Overlap(a.Span(), b.Span())
  {
    var i :| 0 <= i < |plan| && plan[i] == a;
    var j :| 0 <= j < |plan| && plan[j] == b;
    SpanAt(plan, i);
    SpanAt(plan, j);
    if i < j { assert !Overlap(Spans(plan)[i], Spans(plan)[j]); }
    if j < i { assert !Overlap(Spans(plan)[j], Spans(plan)[i]); }
  }

  lemma PlannedChunkFresh(cfg: Config, tid: string, t: Transfer, part: Bytes, plan: seq<Piece>, p: Piece)
    requires TransferOk(cfg, tid, t, part) && Fits(plan, t.expectedSize) && p in plan
    requires forall x | x in t.received :: x in plan
    ensures 0 <= p.index && 0 <= p.offset && p.End() <= t.expectedSize
    ensures p in t.received
      ==> p.index in t.chunks && t.chunks[p.index] == Fingerprint(p.offset, |p.data|, cfg.digest(p.data))
    ensures p !in t.received ==> p.index !in t.chunks && !OverlapsAny(p.offset, p.End(), t.ranges)
  {
    hide Holds;
    var j :| 0 <= j < |plan| && plan[j] == p;
    SpanAt(plan, j);
    assert Spans(plan)[j].end <= t.expectedSize && 0 <= Spans(plan)[j].start;
    if p in t.received {
      var i :| 0 <= i < |t.received| && t.received[i] == p;
    } else {
      forall i | 0 <= i < |t.received|
        ensures t.received[i].index != p.index && !Overlap(Range(p.offset, p.End()), t.ranges[i]) {
        assert t.received[i] in plan;
        PlannedDisjoint(plan, p, t.received[i], t.expectedSize);
      }
    }
  }

  lemma PlannedChunkAccepted(cfg: Config, s: Service, now: Clock, tid: string, plan: seq<Piece>, p: Piece)
    requires ConfigOk(cfg) && Inv(cfg, s) && IsResourceId(tid) && tid in s.transfers
    requires Fits(plan, s.transfers[tid].expectedSize) && p in plan && |p.data| <= cfg.maxChunk
    requires forall x | x in s.transfers[tid].received :: x in plan
    ensures var (s', r) := Chunk(cfg, s, now, RequestFor(cfg, tid, p)); var t := s.transfers[tid];
      && r.Ok? && (r.value.idempotent <==> p in t.received)
      && tid in s'.transfers && SameTransaction(t, s'.transfers[tid]) && SameElse(s, s', tid)
      && s'.transfers[tid].received == (if p in t.received then t.received else t.received + [p])
      && (p in t.received ==> s'.parts == s.parts)
  {
    hide Find, Fits, IsSha256, Lower, IsResourceId, TransferOk, OverlapsAny, Record, WriteAt, Receive, RequestFor,
      Chunk;
    var t := s.transfers[tid];
    PlannedChunkFresh(cfg, tid, t, s.parts[tid], plan, p);
    RequestPasses(cfg, s, now, tid, p);
    ReceiveFresh(cfg, Touch(s, tid, now.mono), tid, p);
  }

  lemma RequestPasses(cfg: Config, s: Service, now: Clock, tid: string, p: Piece)
    requires ConfigOk(cfg) && IsResourceId(tid) && tid in s.transfers
    requires 0 <= p.index && 0 <= p.offset && |p.data| <= cfg.maxChunk
    ensures ChunkCheck(cfg, RequestFor(cfg, tid, p)) == None
    ensures Chunk(cfg, s, now, RequestFor(cfg, tid, p))
      == Receive(cfg, Touch(s, tid, now.mono), RequestFor(cfg, tid, p))
  {
    hide IsSha256, Lower, IsResourceId, Receive;
    assert IsSha256(cfg.digest(p.data)) && Lower(cfg.digest(p.data)) == cfg.digest(p.data);
  }

  lemma ReceiveFresh(cfg: Config, s: Service, tid: string, p: Piece)
    requires ConfigOk(cfg) && tid in s.transfers && tid in s.parts && p.End() <= s.transfers[tid].expectedSize
    requires ChunkCheck(cfg, RequestFor(cfg, tid, p)) == None
    requires var t := s.transfers[tid];
      if p in t.received
      then p.index in t.chunks && t.chunks[p.index] == Fingerprint(p.offset, |p.data|, cfg.digest(p.data))
      else p.index !in t.chunks && !OverlapsAny(p.offset, p.End(), t.ranges)
    ensures var (s', r) := Receive(cfg, s, RequestFor(cfg, tid, p)); var t := s.transfers[tid];
      && r.Ok? && (r.value.idempotent <==> p in t.received)
      && tid in s'.transfers && SameTransaction(t, s'.transfers[tid]) && SameElse(s, s', tid)
      && s'.transfers[tid].received == (if p in t.received then t.received else t.received + [p])
      && (p in t.received ==> s'.parts == s.parts)
  {
    hide OverlapsAny, WriteAt, IsSha256, Lower, IsResourceId;
    assert Lower(cfg.digest(p.data)) == cfg.digest(p.data);
  }

  /** For any fitting chunk set, every arrival order with any number of retries is accepted, and what has been
      received is exactly what arrived. Nobody else is touched. */
  lemma {:induction false} EveryArrivalAccepted(
    cfg: Config, s: Service, tid: string, plan: seq<Piece>, arrivals: seq<(Clock, Piece)>)
    requires ConfigOk(cfg) && Inv(cfg, s) && IsResourceId(tid) && tid in s.transfers && s.transfers[tid].received == []
    requires Fits(plan, s.transfers[tid].expectedSize)
    requires forall i | 0 <= i < |arrivals| :: arrivals[i].1 in plan && |arrivals[i].1.data| <= cfg.maxChunk
    ensures var (s', rs) := Deliver(cfg, s, tid, arrivals);
      && |rs| == |arrivals| && (forall i | 0 <= i < |rs| :: rs[i].Ok?)
      && Inv(cfg, s') && tid in s'.transfers && SameTransaction(s.transfers[tid], s'.transfers[tid])
        && SameElse(s, s', tid)
      && (forall x | x in s'.transfers[tid].received :: x in plan)
      && (forall x :: x in s'.transfers[tid].received <==> Arrived(arrivals, x))
  {
    hide Inv, Chunk, Fits, RequestFor;
    if arrivals != [] {
      var n := |arrivals| - 1;
      EveryArrivalAccepted(cfg, s, tid, plan, arrivals[..n]);
      var (s1, _) := Deliver(cfg, s, tid, arrivals[..n]);
      var (now, p) := arrivals[n];
      PlannedChunkAccepted(cfg, s1, now, tid, plan, p);
      ChunkKeepsInv(cfg, s1, now, RequestFor(cfg, tid, p));
      var s2 := Chunk(cfg, s1, now, RequestFor(cfg, tid, p)).0;
      forall x ensures x in s2.transfers[tid].received <==> Arrived(arrivals, x) {
        ArrivedAppend(arrivals, x);
      }
    }
  }

  predicate Arrived(arrivals: seq<(Clock, Piece)>, p: Piece) {
    exists i :: 0 <= i < |arrivals| && arrivals[i].1 == p
  }

  lemma ArrivedAppend(arrivals: seq<(Clock, Piece)>, p: Piece)
    requires arrivals != []
    ensures Arrived(arrivals, p) <==> Arrived(arrivals[..|arrivals| - 1], p) || arrivals[|arrivals| - 1].1 == p
  {
    var n := |arrivals| - 1;
    if Arrived(arrivals[..n], p) {
      var i :| 0 <= i < n && arrivals[..n][i].1 == p;
      assert arrivals[i].1 == p;
    }
    if Arrived(arrivals, p) {
      var i :| 0 <= i < |arrivals| && arrivals[i].1 == p;
      if i < n { assert arrivals[..n][i].1 == p; }
    }
  }

  /** Two arrival orders of the same chunks, retried or not, leave the same part file. */
  lemma ArrivalOrderIrrelevant(
    cfg: Config, s: Service, tid: string, plan: seq<Piece>, a: seq<(Clock, Piece)>, b: seq<(Clock, Piece)>)
    requires ConfigOk(cfg) && Inv(cfg, s) && IsResourceId(tid) && tid in s.transfers && s.transfers[tid].received == []
    requires Fits(plan, s.transfers[tid].expectedSize)
    requires forall i | 0 <= i < |a| :: a[i].1 in plan && |a[i].1.data| <= cfg.maxChunk
    requires forall i | 0 <= i < |b| :: b[i].1 in plan && |b[i].1.data| <= cfg.maxChunk
    requires forall p :: Arrived(a, p) <==> Arrived(b, p)
    ensures Deliver(cfg, s, tid, a).0.parts == Deliver(cfg, s, tid, b).0.parts
  {
    EveryArrivalAccepted(cfg, s, tid, plan, a);
    EveryArrivalAccepted(cfg, s, tid, plan, b);
    var sa, sb := Deliver(cfg, s, tid, a).0, Deliver(cfg, s, tid, b).0;
    assert TransferOk(cfg, tid, sa.transfers[tid], sa.parts[tid]);
    assert TransferOk(cfg, tid, sb.transfers[tid], sb.parts[tid]);
    forall p ensures p in sa.transfers[tid].received <==> p in sb.transfers[tid].received {
      assert Arrived(a, p) <==> Arrived(b, p);
    }
    PartDeterminedByPieces(sa.parts[tid], sa.transfers[tid].received, sb.parts[tid], sb.transfers[tid].received);
    MapsAgree(sa.parts, sb.parts, tid);
  }

  lemma MapsAgree(m: map<string, Bytes>, n: map<string, Bytes>, k: string)
    requires k in m && k in n && m[k] == n[k] && m - {k} == n - {k}
    ensures m == n
  {
    assert m == (m - {k})[k := m[k]];
    assert n == (n - {k})[k := n[k]];
  }

  /** End to end: whatever the order and the retries, once every chunk of a set that completes the file has arrived,
      a commit to an unused id stores exactly the payloads in offset order, if their digest is the announced one. */
  lemma EveryArrivalOrderPublishes(
    cfg: Config, s: Service, tid: string, plan: seq<Piece>, arrivals: seq<(Clock, Piece)>, now: Clock)
    requires ConfigOk(cfg) && ClockOk(now) && Inv(cfg, s) && IsResourceId(tid) && tid in s.transfers
    requires s.transfers[tid].received == [] && s.transfers[tid].resourceId !in s.files
    requires Fits(plan, s.transfers[tid].expectedSize) && Complete(Spans(plan), s.transfers[tid].expectedSize)
    requires forall i | 0 <= i < |arrivals| :: arrivals[i].1 in plan && |arrivals[i].1.data| <= cfg.maxChunk
    requires forall p | p in plan :: Arrived(arrivals, p)
    requires cfg.digest(Concat(InOffsetOrder(plan))) == s.transfers[tid].expectedSha256
    ensures var (s', r) := Commit(cfg, Deliver(cfg, s, tid, arrivals).0, now, tid);
      r.Ok? && s'.files == s.files[s.transfers[tid].resourceId := Concat(InOffsetOrder(plan))]
  {
    EveryArrivalAccepted(cfg, s, tid, plan, arrivals);
    forall p | p in plan ensures p in Deliver(cfg, s, tid, arrivals).0.transfers[tid].received {
      assert Arrived(arrivals, p);
    }
    CommitOfPlan(cfg, Deliver(cfg, s, tid, arrivals).0, now, tid, plan);
  }

  /** Once a transfer has received exactly the pieces of a completing plan, its commit to an unused id publishes
      them. */
  lemma CommitOfPlan(cfg: Config, s: Service, now: Clock, tid: string, plan: seq<Piece>)
    requires ConfigOk(cfg) && ClockOk(now) && Inv(cfg, s) && IsResourceId(tid) && tid in s.transfers
    requires s.transfers[tid].resourceId !in s.files
    requires Fits(plan, s.transfers[tid].expectedSize) && Complete(Spans(plan), s.transfers[tid].expectedSize)
    requires SamePieces(s.transfers[tid].received, plan)
    requires cfg.digest(Concat(InOffsetOrder(plan))) == s.transfers[tid].expectedSha256
    ensures var (s', r) := Commit(cfg, s, now, tid);
      r.Ok? && s'.files == s.files[s.transfers[tid].resourceId := Concat(InOffsetOrder(plan))]
  {
    var t := s.transfers[tid];
    assert TransferOk(cfg, tid, t, s.parts[tid]);
    HoldsForSamePieces(s.parts[tid], t.received, plan);
    CompletePart(s.parts[tid], plan, t.expectedSize);
    CompleteForSamePieces(t.received, plan, t.expectedSize);
    CompleteTransferHoldsPayload(cfg, s, tid);
    CommitSucceedsExactlyWhen(cfg, s, now, tid);
    CommitPublishes(cfg, s, now, tid, "");
  }

  lemma HoldsForSamePieces(part: Bytes, ps: seq<Piece>, qs: seq<Piece>)
    requires Holds(part, ps) && SamePieces(ps, qs)
    ensures Holds(part, qs)
  {
    forall k | 0 <= k < |qs| ensures Placed(part, qs[k]) {
      assert qs[k] in ps;
      var j :| 0 <= j < |ps| && ps[j] == qs[k];
    }
    if part != [] { CoverTransfers(ps, qs, |part| - 1); }
    forall p | 0 <= p < |part| && !CoveredBy(qs, p) ensures part[p] == 0 {
      if CoveredBy(ps, p) { CoverTransfers(ps, qs, p); }
    }
  }

  lemma NothingInEmpty(ps: seq<Piece>, qs: seq<Piece>)
    requires |qs| == 0 && forall p | p in ps :: p in qs
    ensures Spans(ps) == []
  {
    if |ps| > 0 { HasElement(ps); }
  }

  lemma HasElement(ps: seq<Piece>)
    requires |ps| > 0
    ensures exists p :: p in ps
  {
    assert ps[0] in ps;
  }

  lemma CompleteForSamePieces(ps: seq<Piece>, qs: seq<Piece>, size: int)
    requires SamePieces(ps, qs) && 0 <= size
    requires InBounds(Spans(ps), size) && Disjoint(Spans(ps)) && InBounds(Spans(qs), size) && Disjoint(Spans(qs))
    requires Complete(Spans(qs), size)
    ensures Complete(Spans(ps), size)
  {
    if size == 0 {
      assert |Spans(qs)| == 0;
      assert Spans(qs) == [] && |qs| == |Spans(qs)|;
      NothingInEmpty(ps, qs);
    } else {
      CompleteIffEveryByteOnce(Spans(qs), size);
      forall p | 0 <= p < size ensures Covers(Sort(Spans(ps), RangeBefore), p) >= 1 {
        assert Covers(Spans(qs), p) == 1;
        CoveredSomewhere(qs, p);
        CoverTransfers(qs, ps, p);
        CoveredCounts(ps, p);
        SortKeepsSums(Spans(ps), p);
      }
      ReceivedChain(Spans(ps), size);
      CoveredMeansReached(Sort(Spans(ps), RangeBefore), 0, size);
    }
  }

  lemma {:induction false} CoveredCounts(ps: seq<Piece>, p: int)
    requires CoveredBy(ps, p)
    ensures Covers(Spans(ps), p) >= 1
  {
    var k :| 0 <= k < |ps| && ps[k].offset <= p < ps[k].End();
    assert Spans(ps)[0] == ps[0].Span();
    if k > 0 {
      assert Spans(ps)[1..] == Spans(ps[1..]);
      assert ps[1..][k - 1] == ps[k];
      CoveredCounts(ps[1..], p);
    }
  }
}
