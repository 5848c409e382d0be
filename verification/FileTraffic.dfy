/** One transfer among all the others: its chunks arrive as commands, each with a cleanup in front of it, and any
    commands of other transfers and resources come in between. */
module FileTraffic {
  import opened ChunkRanges
  import opened PyJson
  import opened ResourceManifest
  import opened FileService
  import opened FilePublishing

  /** A command with the clock readings of the cleanup in front of it and of its own. */
  type Call = (Clock, Clock, Command)

  /** The command does not name transfer `tid`. */
  predicate Foreign(c: Command, tid: string) {
    match c
    case BeginCommand(req) => req.transferId != tid
    case ChunkCommand(req) => req.transferId != tid
    case CommitCommand(x) => x != tid
    case _ => true
  }

  /** The command brings piece `p` to transfer `tid`. */
  predicate Brings(cfg: Config, c: Command, tid: string, p: Piece) {
    c == ChunkCommand(RequestFor(cfg, tid, p))
  }

  ghost predicate Own(cfg: Config, c: Command, tid: string, plan: seq<Piece>) {
    exists p :: p in plan && |p.data| <= cfg.maxChunk && Brings(cfg, c, tid, p)
  }

  predicate Lively(cfg: Config, t: Transfer, now: Clock) {
    now.mono - t.lastActivity <= cfg.transferTtl
  }

  /** At each call cleanup completes and does not find the transfer idle. */
  predicate Undisturbed(cfg: Config, s: Service, tid: string, calls: seq<Call>) {
    forall i | 0 <= i < |calls| :: LivelyAt(cfg, HandleAll(cfg, s, calls[..i]).0, tid, calls[i])
  }

  predicate LivelyAt(cfg: Config, s: Service, tid: string, call: Call) {
    && CleanupCompletes(cfg, s)
    && (tid in s.transfers ==> Lively(cfg, s.transfers[tid], call.0) && Lively(cfg, s.transfers[tid], call.1))
  }

  /** The transfer and its part file are as they were. */
  predicate KeepsTransfer(s: Service, s': Service, tid: string) {
    && tid in s.transfers && tid in s'.transfers && s'.transfers[tid] == s.transfers[tid]
    && tid in s.parts && tid in s'.parts && s'.parts[tid] == s.parts[tid]
  }

  lemma CleanupKeepsLively(cfg: Config, s: Service, now: Clock, tid: string)
    requires tid in s.transfers && tid in s.parts && Lively(cfg, s.transfers[tid], now)
    ensures KeepsTransfer(s, Cleanup(cfg, s, now), tid)
  {
    hide Cleanup, Find, Reached, Expired;
    CleanupForgetsExactly(cfg, s, now, tid);
  }

  lemma CleanupAddsNoFile(cfg: Config, s: Service, now: Clock, id: string)
    requires id !in s.files
    ensures id !in Cleanup(cfg, s, now).files
  {
    hide ExpiredIds, Resources, RemovedAll;
  }

  lemma ForeignOpen(cfg: Config, s: Service, now: Clock, req: BeginRequest, tid: string)
    requires BeginCheck(cfg, req) == None && req.transferId != tid && tid in s.transfers && tid in s.parts
    ensures KeepsTransfer(s, Open(cfg, s, now, req).0, tid)
  {
    hide Lower, IsResourceId, IsSha256, NewTransfer;
  }

  lemma ForeignChunk(cfg: Config, s: Service, now: Clock, req: ChunkRequest, tid: string)
    requires req.transferId != tid && tid in s.transfers && tid in s.parts
    ensures KeepsTransfer(s, Chunk(cfg, s, now, req).0, tid)
  {
    hide Lower, IsResourceId, IsSha256, WriteAt, OverlapsAny, Record, ChunkCheck;
  }

  lemma ForeignCommit(cfg: Config, s: Service, now: Clock, other: string, tid: string)
    requires other != tid && tid in s.transfers && tid in s.parts
    ensures KeepsTransfer(s, Commit(cfg, s, now, other).0, tid)
  {
    hide IsResourceId, Saved, Complete, CommitCheck;
  }

  lemma ForeignPerform(cfg: Config, s: Service, now: Clock, c: Command, tid: string)
    requires Foreign(c, tid) && tid in s.transfers && tid in s.parts && Lively(cfg, s.transfers[tid], now)
    ensures KeepsTransfer(s, Perform(cfg, s, now, c).0, tid)
  {
    hide Cleanup, CleanupCompletes, Open, BeginCheck, Chunk, Commit, Stat, Read, Find, Removed, IsResourceId;
    match c
    case BeginCommand(req) =>
      CleanupKeepsLively(cfg, s, now, tid);
      if BeginCheck(cfg, req) == None { ForeignOpen(cfg, Cleanup(cfg, s, now), now, req, tid); }
    case ChunkCommand(req) => ForeignChunk(cfg, s, now, req, tid);
    case CommitCommand(other) => ForeignCommit(cfg, s, now, other, tid);
    case CleanupCommand => CleanupKeepsLively(cfg, s, now, tid);
    case _ =>
  }

  lemma InvHasPart(cfg: Config, s: Service, tid: string)
    requires Inv(cfg, s) && tid in s.transfers
    ensures tid in s.parts
  {
  }

  lemma ForeignHandle(cfg: Config, s: Service, call: Call, tid: string)
    requires Inv(cfg, s) && Foreign(call.2, tid) && tid in s.transfers && LivelyAt(cfg, s, tid, call)
    ensures KeepsTransfer(s, Handle(cfg, s, call.0, call.1, call.2).0, tid)
  {
    InvHasPart(cfg, s, tid);
    hide Inv, Cleanup, CleanupCompletes, Perform;
    CleanupKeepsLively(cfg, s, call.0, tid);
    ForeignPerform(cfg, Cleanup(cfg, s, call.0), call.1, call.2, tid);
  }

  /** One more piece of the plan comes in. */
  lemma OwnHandle(cfg: Config, s: Service, call: Call, tid: string, plan: seq<Piece>, p: Piece)
    requires ConfigOk(cfg) && Inv(cfg, s) && IsResourceId(tid) && tid in s.transfers && LivelyAt(cfg, s, tid, call)
    requires Fits(plan, s.transfers[tid].expectedSize) && p in plan && |p.data| <= cfg.maxChunk
    requires Brings(cfg, call.2, tid, p) && forall x | x in s.transfers[tid].received :: x in plan
    ensures var (s', failure) := Handle(cfg, s, call.0, call.1, call.2); var t := s.transfers[tid];
      && failure == None && tid in s'.transfers && SameTransaction(t, s'.transfers[tid])
      && s'.transfers[tid].received == (if p in t.received then t.received else t.received + [p])
  {
    InvHasPart(cfg, s, tid);
    CleanupKeepsInv(cfg, s, call.0);
    hide Inv, Cleanup, CleanupCompletes, Fits, Chunk, RequestFor, IsResourceId;
    CleanupKeepsLively(cfg, s, call.0, tid);
    PlannedChunkAccepted(cfg, Cleanup(cfg, s, call.0), call.1, tid, plan, p);
  }

  /** Some call has brought piece `p`. */
  predicate Came(cfg: Config, calls: seq<Call>, tid: string, p: Piece) {
    exists i :: 0 <= i < |calls| && Brings(cfg, calls[i].2, tid, p)
  }

  lemma CameAppend(cfg: Config, calls: seq<Call>, tid: string, p: Piece)
    requires calls != []
    ensures Came(cfg, calls, tid, p)
      <==> Came(cfg, calls[..|calls| - 1], tid, p) || Brings(cfg, calls[|calls| - 1].2, tid, p)
  {
    hide Brings;
    var n := |calls| - 1;
    if i :| 0 <= i < n && Brings(cfg, calls[..n][i].2, tid, p) { assert calls[i] == calls[..n][i]; }
    if i :| 0 <= i < |calls| && Brings(cfg, calls[i].2, tid, p) {
      if i < n { assert calls[..n][i] == calls[i]; }
    }
  }

  /** A command brings one piece at most, and a foreign one none. */
  lemma BringsOne(cfg: Config, c: Command, tid: string, p: Piece, q: Piece)
    requires Brings(cfg, c, tid, p)
    ensures !Foreign(c, tid) && (Brings(cfg, c, tid, q) ==> p == q)
  {
  }

  /** Each call brings a piece of the plan to the transfer, or is foreign to it. */
  ghost predicate Traffic(cfg: Config, calls: seq<Call>, tid: string, plan: seq<Piece>) {
    forall i | 0 <= i < |calls| ::
      ClockOk(calls[i].1) && (Own(cfg, calls[i].2, tid, plan) || Foreign(calls[i].2, tid))
  }

  /** What the transfer has after the calls: everything they brought, and only that. */
  ghost predicate Received(cfg: Config, s: Service, s': Service, calls: seq<Call>, tid: string, plan: seq<Piece>) {
    && Inv(cfg, s') && tid in s.transfers && tid in s'.transfers && SameTransaction(s.transfers[tid], s'.transfers[tid])
    && (forall x | x in s'.transfers[tid].received :: x in plan)
    && (forall x :: x in s'.transfers[tid].received <==> Came(cfg, calls, tid, x))
  }

  /** Whatever the other transfers and resources do in between, and with a cleanup before every command: as long as
      cleanup completes and the transfer is never left idle, every piece of a fitting set is accepted in any order
      with any retries, and what has been received is exactly what came. */
  lemma {:induction false} MixedTrafficAccepted(
    cfg: Config, s: Service, tid: string, plan: seq<Piece>, calls: seq<Call>)
    requires ConfigOk(cfg) && Inv(cfg, s) && IsResourceId(tid) && tid in s.transfers && s.transfers[tid].received == []
    requires Fits(plan, s.transfers[tid].expectedSize) && Traffic(cfg, calls, tid, plan)
      && Undisturbed(cfg, s, tid, calls)
    ensures var (s', failures) := HandleAll(cfg, s, calls);
      && Received(cfg, s, s', calls, tid, plan) && |failures| == |calls|
      && forall i | 0 <= i < |calls| && Own(cfg, calls[i].2, tid, plan) :: failures[i] == None
  {
    hide Inv, Fits, Own, Foreign, Brings, LivelyAt, Handle, IsResourceId;
    if calls != [] {
      var n := |calls| - 1;
      var init, call := calls[..n], calls[n];
      forall i | 0 <= i < n ensures init[..i] == calls[..i] && init[i] == calls[i] {}
      MixedTrafficAccepted(cfg, s, tid, plan, init);
      var s1 := HandleAll(cfg, s, init).0;
      HandleKeepsInv(cfg, s1, call.0, call.1, call.2);
      CallStep(cfg, s, s1, calls, tid, plan);
    }
  }

  lemma CallStep(cfg: Config, s: Service, s1: Service, calls: seq<Call>, tid: string, plan: seq<Piece>)
    requires ConfigOk(cfg) && IsResourceId(tid) && calls != []
    requires Received(cfg, s, s1, calls[..|calls| - 1], tid, plan) && Fits(plan, s.transfers[tid].expectedSize)
    requires var call := calls[|calls| - 1];
      ClockOk(call.1) && (Own(cfg, call.2, tid, plan) || Foreign(call.2, tid)) && LivelyAt(cfg, s1, tid, call)
    ensures var call := calls[|calls| - 1]; var (s', failure) := Handle(cfg, s1, call.0, call.1, call.2);
      Received(cfg, s, s', calls, tid, plan) && (Own(cfg, call.2, tid, plan) ==> failure == None)
  {
    hide Inv, Fits, Foreign, Brings, LivelyAt, Handle, IsResourceId;
    var call := calls[|calls| - 1];
    var s' := Handle(cfg, s1, call.0, call.1, call.2).0;
    HandleKeepsInv(cfg, s1, call.0, call.1, call.2);
    forall x ensures Came(cfg, calls, tid, x)
        <==> Came(cfg, calls[..|calls| - 1], tid, x) || Brings(cfg, call.2, tid, x)
    {
      CameAppend(cfg, calls, tid, x);
    }
    if Own(cfg, call.2, tid, plan) {
      var p :| p in plan && |p.data| <= cfg.maxChunk && Brings(cfg, call.2, tid, p);
      OwnHandle(cfg, s1, call, tid, plan, p);
      forall x ensures Brings(cfg, call.2, tid, x) <==> x == p {
        BringsOne(cfg, call.2, tid, p, x);
      }
    } else {
      ForeignHandle(cfg, s1, call, tid);
      forall x ensures !Brings(cfg, call.2, tid, x) {
        if Brings(cfg, call.2, tid, x) { BringsOne(cfg, call.2, tid, x, x); }
      }
    }
  }

  /** End to end under mixed traffic: once every piece of a completing set has come, the commit command publishes
      exactly the payloads in offset order under the id, if the id is unused then and the digest is the announced
      one. */
  lemma MixedTrafficPublishes(
    cfg: Config, s: Service, tid: string, plan: seq<Piece>, calls: seq<Call>, first: Clock, now: Clock)
    requires ConfigOk(cfg) && ClockOk(now) && Inv(cfg, s) && IsResourceId(tid) && tid in s.transfers
    requires s.transfers[tid].received == [] && Traffic(cfg, calls, tid, plan)
    requires Undisturbed(cfg, s, tid, calls + [(first, now, CommitCommand(tid))])
    requires Fits(plan, s.transfers[tid].expectedSize) && Complete(Spans(plan), s.transfers[tid].expectedSize)
    requires forall p | p in plan :: Came(cfg, calls, tid, p)
    requires cfg.digest(Concat(InOffsetOrder(plan))) == s.transfers[tid].expectedSha256
    requires s.transfers[tid].resourceId !in HandleAll(cfg, s, calls).0.files
    ensures var s1 := HandleAll(cfg, s, calls).0; var (s', failure) := Handle(cfg, s1, first, now, CommitCommand(tid));
      failure == None && Published(s', tid, s.transfers[tid].resourceId, Concat(InOffsetOrder(plan)))
  {
    hide Published, Inv, Fits, LivelyAt, Own, Foreign, Brings, Complete, IsResourceId;
    var all := calls + [(first, now, CommitCommand(tid))];
    forall i | 0 <= i < |calls| ensures all[..i] == calls[..i] && all[i] == calls[i] {}
    assert all[..|calls|] == calls;
    MixedTrafficAccepted(cfg, s, tid, plan, calls);
    var s1 := HandleAll(cfg, s, calls).0;
    CommitCall(cfg, s1, tid, plan, first, now);
  }

  /** The resource holds the data and the transfer is gone. */
  predicate Published(s: Service, tid: string, rid: string, data: Bytes) {
    rid in s.files && s.files[rid] == data && tid !in s.transfers
  }

  lemma CommitCall(cfg: Config, s: Service, tid: string, plan: seq<Piece>, first: Clock, now: Clock)
    requires ConfigOk(cfg) && ClockOk(now) && Inv(cfg, s) && IsResourceId(tid) && tid in s.transfers
    requires LivelyAt(cfg, s, tid, (first, now, CommitCommand(tid))) && SamePieces(s.transfers[tid].received, plan)
    requires Fits(plan, s.transfers[tid].expectedSize) && Complete(Spans(plan), s.transfers[tid].expectedSize)
    requires cfg.digest(Concat(InOffsetOrder(plan))) == s.transfers[tid].expectedSha256
    requires s.transfers[tid].resourceId !in s.files
    ensures var (s', failure) := Handle(cfg, s, first, now, CommitCommand(tid));
      failure == None && Published(s', tid, s.transfers[tid].resourceId, Concat(InOffsetOrder(plan)))
  {
    InvHasPart(cfg, s, tid);
    CleanupKeepsInv(cfg, s, first);
    hide Inv, Fits, Complete, CleanupCompletes, Cleanup, Commit, IsResourceId, ConfigOk, ClockOk, SamePieces, Concat,
         InOffsetOrder, Published;
    HandleCommit(cfg, s, first, now, tid);
    hide Handle, Perform;
    CleanupKeepsLively(cfg, s, first, tid);
    CleanupAddsNoFile(cfg, s, first, s.transfers[tid].resourceId);
    PublishedByCommit(cfg, Cleanup(cfg, s, first), now, tid, plan);
  }

  lemma HandleCommit(cfg: Config, s: Service, first: Clock, now: Clock, tid: string)
    requires CleanupCompletes(cfg, s)
    ensures var (s', r) := Commit(cfg, Cleanup(cfg, s, first), now, tid);
      Handle(cfg, s, first, now, CommitCommand(tid)) == (s', CodeOf(r))
  {
    hide CleanupCompletes, Cleanup, Commit;
  }

  lemma PublishedByCommit(cfg: Config, s: Service, now: Clock, tid: string, plan: seq<Piece>)
    requires ConfigOk(cfg) && ClockOk(now) && Inv(cfg, s) && IsResourceId(tid) && tid in s.transfers
    requires SamePieces(s.transfers[tid].received, plan) && s.transfers[tid].resourceId !in s.files
    requires Fits(plan, s.transfers[tid].expectedSize) && Complete(Spans(plan), s.transfers[tid].expectedSize)
    requires cfg.digest(Concat(InOffsetOrder(plan))) == s.transfers[tid].expectedSha256
    ensures var (s', r) := Commit(cfg, s, now, tid);
      r.Ok? && Published(s', tid, s.transfers[tid].resourceId, Concat(InOffsetOrder(plan)))
  {
    hide Inv, Fits, Complete, Find, Commit, IsResourceId, ConfigOk, ClockOk, SamePieces, Concat, InOffsetOrder,
      LocatorFor;
    CommitOfPlan(cfg, s, now, tid, plan);
    CommitPublishes(cfg, s, now, tid, "");
  }
}
