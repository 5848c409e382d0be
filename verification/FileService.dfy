/** The resource publishing protocol (client_new/services/agent_file_service.py) as a state machine:
    every command is one step, because every command body runs under the service lock. */
module FileService {
  import opened Sorting
  import opened ChunkRanges
  import opened PyJson
  import opened ResourceManifest

  /** The protocol's error codes. */
  datatype ErrorCode =
    | ChecksumMismatch | ChunkChecksumMismatch | ChunkConflict | ChunkOverlap | ChunkTooLarge | FileTooLarge
    | IncompleteFile | InvalidChunkData | InvalidChunkPosition | InvalidExpectedSha256 | InvalidExpectedSize
    | InvalidExpiry | InvalidFileName | InvalidResourceId | InvalidSha256 | InvalidSize | InvalidTransferId
    | ResourceConflict | ResourceExpired | ResourceInternalError | ResourceNotFound | ResourcePathInvalid
    | SizeMismatch | SizeOverflow | StatFailed | TooManyTransfers | TransferConflict | TransferNotFound
    | WriteFailed

  datatype Reply<+T> = Ok(value: T) | Refused(code: ErrorCode)

  /** What parsing an expiry gives: a time, a TypeError or ValueError, or another exception, such as an OverflowError
      or the OSError some platforms raise for early dates. */
  datatype TimeParse = Time(epoch: int) | NotATime | OutOfRange

  /** Limits of one service, and the library functions it calls: SHA-256, ISO time parsing, str() and int(). */
  datatype Config = Config(
    maxChunk: int, maxFile: int, maxTransfers: int, transferTtl: int,
    conv: Conversions, digest: Bytes -> string, parseTime: string -> TimeParse)

  ghost predicate ConfigOk(cfg: Config) {
    && 1 <= cfg.maxTransfers
    && forall b: Bytes :: IsSha256(cfg.digest(b)) && Lower(cfg.digest(b)) == cfg.digest(b)
  }

  /** The clock readings one command makes. */
  datatype Clock = Clock(mono: int, epoch: int, iso: string, futureExpiry: string)

  predicate ClockOk(now: Clock) {
    now.iso != "" && now.futureExpiry != ""
  }

  datatype Fingerprint = Fingerprint(offset: int, length: int, sha256: string)

  /** One publishing transaction. `received` records the accepted payloads; the program keeps only their
      fingerprints. */
  datatype Transfer = Transfer(
    transferId: string, resourceId: string, fileName: string, mime: string, expectedSize: int, expectedSha256: string,
    version: int, expires: string, created: string,
    chunks: map<int, Fingerprint>, ranges: seq<Range>, lastActivity: int, received: seq<Piece>)

  /** The service: transactions in memory, part files by transfer id, published files by resource id, the index file. */
  datatype Service = Service(
    transfers: map<string, Transfer>, parts: map<string, Bytes>, files: map<string, Bytes>, manifest: ManifestFile)

  datatype BeginRequest = BeginRequest(
    resourceId: string, transferId: string, size: Option<int>, sha256: string, fileName: string, mime: string,
    version: Option<int>, expires: string)

  datatype BeginReply = BeginReply(transferId: string, resourceId: string, size: int, maxChunk: int)

  datatype ChunkRequest = ChunkRequest(
    transferId: string, index: Option<int>, offset: Option<int>, data: Option<Bytes>, sha256: string)

  datatype ChunkReply = ChunkReply(index: int, offset: int, received: int, idempotent: bool)

  /** The optional expected size and digest of a query; `Some(None)` is a size that does not convert. */
  datatype Query = Query(resourceId: string, size: Option<Option<int>>, sha256: Option<string>)

  function Touch(s: Service, tid: string, mono: int): Service
    requires tid in s.transfers
  {
    s.(transfers := s.transfers[tid := s.transfers[tid].(lastActivity := mono)])
  }

  // ---- cleanup ----

  predicate TransferIdle(cfg: Config, t: Transfer, now: Clock) {
    now.mono - t.lastActivity > cfg.transferTtl
  }

  function ExpiryOf(cfg: Config, f: Field): TimeParse {
    if f.value.Obj?
      && GetOrNull(f.value.fields, "expires").Str? then cfg.parseTime(GetOrNull(f.value.fields, "expires").s)
    else NotATime
  }

  predicate EntryExpired(cfg: Config, f: Field, now: Clock) {
    ExpiryOf(cfg, f).Time? && ExpiryOf(cfg, f).epoch <= now.epoch
  }

  predicate EntryOverflows(cfg: Config, f: Field) {
    ExpiryOf(cfg, f).OutOfRange?
  }

  /** The entries the loop removes: it skips an expiry that is no time, but an overflow escapes it. */
  function ExpiredIds(cfg: Config, doc: seq<Field>, now: Clock): seq<string> {
    if doc == [] || EntryOverflows(cfg, doc[0]) then []
    else (if EntryExpired(cfg, doc[0], now) then [doc[0].key] else []) + ExpiredIds(cfg, doc[1..], now)
  }

  function RemovedAll(file: ManifestFile, ids: seq<string>, conv: Conversions): ManifestFile
    decreases |ids|
  {
    if ids == [] then file else RemovedAll(Removed(file, ids[0], conv), ids[1..], conv)
  }

  function Drop<K, V>(m: map<K, V>, ks: seq<K>): map<K, V> {
    map k | k in m && k !in ks :: m[k]
  }

  predicate NoneOverflows(cfg: Config, doc: seq<Field>) {
    forall i | 0 <= i < |doc| :: !EntryOverflows(cfg, doc[i])
  }

  /** Cleanup runs to its end instead of raising. */
  predicate CleanupCompletes(cfg: Config, s: Service) {
    NoneOverflows(cfg, Resources(s.manifest, cfg.conv))
  }

  /** The service after cleanup, whether it ran to its end or not. */
  function Cleanup(cfg: Config, s: Service, now: Clock): Service {
    var live := map tid | tid in s.transfers && !TransferIdle(cfg, s.transfers[tid], now) :: s.transfers[tid];
    var gone := ExpiredIds(cfg, Resources(s.manifest, cfg.conv), now);
    Service(
      live,
      map tid | tid in s.parts && (tid in s.transfers ==> tid in live) :: s.parts[tid],
      Drop(s.files, gone),
      RemovedAll(s.manifest, gone, cfg.conv))
  }

  // ---- publish_begin ----

  function BeginCheck(cfg: Config, req: BeginRequest): Option<ErrorCode> {
    if !IsResourceId(req.resourceId) then Some(InvalidResourceId)
    else if !IsResourceId(req.transferId) then Some(InvalidTransferId)
    else if req.size == None then Some(InvalidSize)
    else if req.size.value < 0 || req.size.value > cfg.maxFile then Some(FileTooLarge)
    else if !IsSha256(Lower(req.sha256)) then Some(InvalidSha256)
    else if req.fileName == "" || '\0' in req.fileName then Some(InvalidFileName)
    else None
  }

  function NewTransfer(now: Clock, req: BeginRequest): Transfer
    requires req.size.Some? && req.version.Some?
  {
    Transfer(req.transferId, req.resourceId, req.fileName,
      if req.mime == "" then "application/octet-stream" else req.mime,
             req.size.value, Lower(req.sha256), if req.version.value < 1 then 1 else req.version.value, req.expires,
               now.iso,
             map[], [], now.mono, [])
  }

  function BeginReplyFor(cfg: Config, t: Transfer): BeginReply {
    BeginReply(t.transferId, t.resourceId, t.expectedSize, cfg.maxChunk)
  }

  /** The locked part of `publish_begin`, after its own cleanup. */
  function Open(cfg: Config, s: Service, now: Clock, req: BeginRequest): (Service, Reply<BeginReply>)
    requires BeginCheck(cfg, req) == None
  {
    var tid := req.transferId;
    if tid in s.transfers then
      var t := s.transfers[tid];
      if t.resourceId == req.resourceId && t.expectedSize == req.size.value && t.expectedSha256 == Lower(req.sha256)
      then (Touch(s, tid, now.mono), Ok(BeginReplyFor(cfg, t)))
      else (s, Refused(TransferConflict))
    else if |s.transfers| >= cfg.maxTransfers then (s, Refused(TooManyTransfers))
    else if req.version == None then
      // An unconvertible version is only noticed now, after the part file was created.
      (s.(parts := s.parts[tid := []]), Refused(ResourceInternalError))
    else
      var t := NewTransfer(now, req);
      (s.(parts := s.parts[tid := []], transfers := s.transfers[tid := t]), Ok(BeginReplyFor(cfg, t)))
  }

  function Begin(cfg: Config, s: Service, now: Clock, req: BeginRequest): (Service, Reply<BeginReply>) {
    if BeginCheck(cfg, req).Some? then (s, Refused(BeginCheck(cfg, req).value))
    else if !CleanupCompletes(cfg, s) then (Cleanup(cfg, s, now), Refused(ResourceInternalError))
    else Open(cfg, Cleanup(cfg, s, now), now, req)
  }

  // ---- file_chunk ----

  function ChunkCheck(cfg: Config, req: ChunkRequest): Option<ErrorCode> {
    if !IsResourceId(req.transferId) then Some(InvalidTransferId)
    else if req.index == None || req.offset == None then Some(InvalidChunkPosition)
    else if req.index.value < 0 || req.offset.value < 0 then Some(InvalidChunkPosition)
    else if req.data == None then Some(InvalidChunkData)
    else if |req.data.value| > cfg.maxChunk then Some(ChunkTooLarge)
    else if !IsSha256(Lower(req.sha256)) || cfg.digest(req.data.value) != Lower(req.sha256)
      then Some(ChunkChecksumMismatch)
    else None
  }

  function PieceOf(req: ChunkRequest): Piece
    requires req.index.Some? && req.offset.Some? && req.data.Some?
  {
    Piece(req.index.value, req.offset.value, req.data.value)
  }

  function Record(t: Transfer, p: Piece, sha256: string): Transfer {
    t.(chunks := t.chunks[p.index := Fingerprint(p.offset, |p.data|, sha256)],
       ranges := t.ranges + [p.Span()],
       received := t.received + [p])
  }

  function Receive(cfg: Config, s: Service, req: ChunkRequest): (Service, Reply<ChunkReply>)
    requires ChunkCheck(cfg, req) == None && req.transferId in s.transfers
  {
    var tid, p, sha256 := req.transferId, PieceOf(req), Lower(req.sha256);
    var t := s.transfers[tid];
    if p.End() > t.expectedSize then (s, Refused(SizeOverflow))
    else if p.index in t.chunks then
      if t.chunks[p.index] != Fingerprint(p.offset, |p.data|, sha256) then (s, Refused(ChunkConflict))
      else (s, Ok(ChunkReply(p.index, p.offset, |p.data|, true)))
    else if OverlapsAny(p.offset, p.End(), t.ranges) then (s, Refused(ChunkOverlap))
    else if tid !in s.parts then (s, Refused(WriteFailed))
    else
      var t' := Record(t, p, sha256);
      (s.(transfers := s.transfers[tid := t'], parts := s.parts[tid := WriteAt(s.parts[tid], p.offset, p.data)]),
       Ok(ChunkReply(p.index, p.offset, TotalLength(t'.ranges), false)))
  }

  function Chunk(cfg: Config, s: Service, now: Clock, req: ChunkRequest): (Service, Reply<ChunkReply>) {
    if ChunkCheck(cfg, req).Some? then (s, Refused(ChunkCheck(cfg, req).value))
    else if req.transferId !in s.transfers then (s, Refused(TransferNotFound))
    else Receive(cfg, Touch(s, req.transferId, now.mono), req)
  }

  // ---- publish_commit ----

  function ManifestFor(t: Transfer, now: Clock, size: int, sha256: string): Manifest {
    Manifest(t.resourceId, LocatorFor(t.resourceId), t.fileName, t.mime, size, sha256, t.version, t.created,
             if t.expires == "" then now.futureExpiry else t.expires, now.iso)
  }

  /** What stands in the way of publishing a live transfer. */
  function CommitCheck(cfg: Config, s: Service, tid: string): (failure: Option<ErrorCode>)
    requires tid in s.transfers
    ensures failure == None ==> tid in s.parts
  {
    var t := s.transfers[tid];
    if !Complete(t.ranges, t.expectedSize) then Some(IncompleteFile)
    else if tid !in s.parts then Some(StatFailed)
    else
      var part, rid := s.parts[tid], t.resourceId;
      if |part| != t.expectedSize then Some(SizeMismatch)
      else if cfg.digest(part) != t.expectedSha256 then Some(ChecksumMismatch)
      else if rid in s.files && (|s.files[rid]| != |part| || cfg.digest(s.files[rid]) != cfg.digest(part))
        then Some(ResourceConflict)
      else None
  }

  /** The part file becomes the resource, unless the same content is already there, and the index entry is written. */
  function Publish(cfg: Config, s: Service, now: Clock, tid: string): (Service, Manifest)
    requires tid in s.transfers && tid in s.parts
  {
    var t, part := s.transfers[tid], s.parts[tid];
    var m := ManifestFor(t, now, |part|, cfg.digest(part));
    (Service(s.transfers - {tid}, s.parts - {tid},
             if t.resourceId in s.files then s.files else s.files[t.resourceId := part],
             Saved(s.manifest, m, cfg.conv)),
     m)
  }

  function Commit(cfg: Config, s: Service, now: Clock, tid: string): (Service, Reply<Manifest>) {
    if !IsResourceId(tid) then (s, Refused(InvalidTransferId))
    else if tid !in s.transfers then (s, Refused(TransferNotFound))
    else
      var s := Touch(s, tid, now.mono);
      var failure := CommitCheck(cfg, s, tid);
      if failure.Some? then (s, Refused(failure.value))
      else
        var (s', m) := Publish(cfg, s, now, tid);
        (s', Ok(m))
  }

  // ---- file_delete, file_stat, file_read ----

  function Delete(cfg: Config, s: Service, rid: string): (Service, Reply<bool>) {
    if !IsResourceId(rid) then (s, Refused(InvalidResourceId))
    else if Find(s.manifest, rid, cfg.conv) == None then (s, Ok(false))
    else (s.(files := s.files - {rid}, manifest := Removed(s.manifest, rid, cfg.conv)), Ok(true))
  }

  function Opened(cfg: Config, s: Service, now: Clock, rid: string): Reply<Manifest> {
    if !IsResourceId(rid) then Refused(InvalidResourceId)
    else
      var found := Find(s.manifest, rid, cfg.conv);
      if found == None then Refused(ResourceNotFound)
      else if !cfg.parseTime(found.value.expires).Time? then Refused(InvalidExpiry)
      else if cfg.parseTime(found.value.expires).epoch <= now.epoch then Refused(ResourceExpired)
      else if rid !in s.files then Refused(ResourcePathInvalid)
      else Ok(found.value)
  }

  function ContentCheck(cfg: Config, m: Manifest, content: Bytes, q: Query): Option<ErrorCode> {
    var sha256 := cfg.digest(content);
    if |content| != m.size then Some(SizeMismatch)
    else if sha256 != m.sha256 then Some(ChecksumMismatch)
    else if q.size == Some(None) then Some(InvalidExpectedSize)
    else if q.size.Some? && q.size.value != Some(|content|) then Some(SizeMismatch)
    else if q.sha256.Some? && !IsSha256(Lower(q.sha256.value)) then Some(InvalidExpectedSha256)
    else if q.sha256.Some? && Lower(q.sha256.value) != sha256 then Some(ChecksumMismatch)
    else None
  }

  function Stat(cfg: Config, s: Service, now: Clock, q: Query): Reply<Manifest> {
    match Opened(cfg, s, now, q.resourceId)
    case Refused(code) => Refused(code)
    case Ok(m) =>
      var failure := ContentCheck(cfg, m, s.files[q.resourceId], q);
      if failure.Some? then Refused(failure.value) else Ok(m)
  }

  /** After its checks `file_read` assigns `last_used` on a frozen dataclass, which raises; the command
      answers RESOURCE_INTERNAL_ERROR and never reaches the content. */
  function Read(cfg: Config, s: Service, now: Clock, q: Query): Reply<Bytes> {
    match Opened(cfg, s, now, q.resourceId)
    case Refused(code) => Refused(code)
    case Ok(m) =>
      var content := s.files[q.resourceId];
      if |content| > cfg.maxFile then Refused(FileTooLarge)
      else
        var failure := ContentCheck(cfg, m, content, q);
        if failure.Some? then Refused(failure.value) else Refused(ResourceInternalError)
  }

  // ---- handle_command ----

  datatype Command =
    | BeginCommand(begin: BeginRequest)
    | ChunkCommand(chunk: ChunkRequest)
    | CommitCommand(tid: string)
    | StatCommand(query: Query)
    | ReadCommand(query: Query)
    | DeleteCommand(rid: string)
    | CleanupCommand

  function CodeOf<T>(r: Reply<T>): Option<ErrorCode> {
    if r.Ok? then None else Some(r.code)
  }

  /** The command itself, and the code it is refused with. */
  function Perform(cfg: Config, s: Service, now: Clock, c: Command): (Service, Option<ErrorCode>) {
    match c
    case BeginCommand(req) => var (s', r) := Begin(cfg, s, now, req); (s', CodeOf(r))
    case ChunkCommand(req) => var (s', r) := Chunk(cfg, s, now, req); (s', CodeOf(r))
    case CommitCommand(tid) => var (s', r) := Commit(cfg, s, now, tid); (s', CodeOf(r))
    case StatCommand(q) => (s, CodeOf(Stat(cfg, s, now, q)))
    case ReadCommand(q) => (s, CodeOf(Read(cfg, s, now, q)))
    case DeleteCommand(rid) => var (s', r) := Delete(cfg, s, rid); (s', CodeOf(r))
    case CleanupCommand => (Cleanup(cfg, s, now),
      if CleanupCompletes(cfg, s) then None else Some(ResourceInternalError))
  }

  /** `handle_command` cleans up before every command; what cleanup raises is the answer. */
  function Handle(cfg: Config, s: Service, first: Clock, now: Clock, c: Command): (Service, Option<ErrorCode>) {
    if CleanupCompletes(cfg, s) then Perform(cfg, Cleanup(cfg, s, first), now, c)
    else (Cleanup(cfg, s, first), Some(ResourceInternalError))
  }

  // ---- Runs ----

  datatype Step =
    | BeginStep(now: Clock, begin: BeginRequest)
    | ChunkStep(now: Clock, chunk: ChunkRequest)
    | CommitStep(now: Clock, tid: string)
    | DeleteStep(rid: string)
    | CleanupStep(now: Clock)
    | RestartStep  // the process restarts: transactions are lost, files stay

  predicate StepOk(step: Step) {
    match step
    case DeleteStep(_) => true
    case RestartStep => true
    case _ => ClockOk(step.now)
  }

  function Next(cfg: Config, s: Service, step: Step): Service {
    match step
    case BeginStep(now, req) => Begin(cfg, s, now, req).0
    case ChunkStep(now, req) => Chunk(cfg, s, now, req).0
    case CommitStep(now, tid) => Commit(cfg, s, now, tid).0
    case DeleteStep(rid) => Delete(cfg, s, rid).0
    case CleanupStep(now) => Cleanup(cfg, s, now)
    case RestartStep => s.(transfers := map[])
  }

  function Run(cfg: Config, s: Service, steps: seq<Step>): Service {
    if steps == [] then s else Next(cfg, Run(cfg, s, steps[..|steps| - 1]), steps[|steps| - 1])
  }
}
