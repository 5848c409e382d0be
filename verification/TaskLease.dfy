/** The lease lock that keeps one analysis worker per task workspace
    (client_new/services/ticket_ai_analysis_service.py). Times are microseconds of one clock that never goes back. */
module TaskLease {
  import opened PyJson

  const STALE_AFTER: int := 60_000_000
  const DEFAULT_TIMEOUT_SEC: int := 3600

  /** What `analysis.lock` holds: nothing yet, text that is no JSON object, or a payload with its optional times. */
  datatype LockFile = Empty | Garbled | Lock(startedAt: Option<int>, heartbeatAt: Option<int>)

  /** Heartbeats decide when there are any; an older lock falls back to twice its timeout. */
  predicate IsStale(lock: LockFile, timeoutSec: int, now: int) {
    if !lock.Lock? then true
    else if lock.heartbeatAt.Some? then now - lock.heartbeatAt.value > STALE_AFTER
    else if lock.startedAt == None then true
    else
      var timeout := if timeoutSec == 0 then DEFAULT_TIMEOUT_SEC else timeoutSec;
      now - lock.startedAt.value > (if timeout < 60 then 60 else timeout) * 2 * 1_000_000
  }

  /** How the exclusive creation of the lock file ends when the file is not there. */
  datatype Creation = Created | NotCreated | CreatedButNotWritten

  // ---- The lock file operations ----

  class TaskLock {
    var file: Option<LockFile>

    method Acquire(now: int, creation: Creation) returns (acquired: bool)
      modifies this
      ensures acquired <==> old(file) == None && creation == Created
      ensures file == if old(file).Some? then old(file) else Acquiring(now, creation)
    {
      if file.Some? {
        return false;
      }
      match creation
      case Created =>
        file := Some(Lock(Some(now), Some(now)));
        return true;
      case NotCreated =>
        return false;
      case CreatedButNotWritten =>
        file := Some(Empty);
        return false;
    }

    method RefreshHeartbeat(now: int)
      modifies this
      ensures file == Refreshed(old(file), now)
    {
      if file == None || file.value.Garbled? {
        return;
      }
      var startedAt := if file.value.Lock? then file.value.startedAt else None;
      file := Some(Lock(startedAt, Some(now)));
    }

    method Release(unlinked: bool)
      modifies this
      ensures file == if unlinked then None else old(file)
    {
      if file.Some? && unlinked {
        file := None;
      }
    }

    /** The part of `handle_request` from the stale check to the creation of the lock; nothing is awaited in between. */
    method Enter(now: int, timeoutSec: int, unlinked: bool, creation: Creation) returns (entered: bool)
      modifies this
      ensures entered == Enters(old(file), now, timeoutSec, unlinked, creation)
      ensures file == Entering(old(file), now, timeoutSec, unlinked, creation)
    {
      if file.Some? && !IsStale(file.value, timeoutSec, now) {
        return false;
      }
      Release(unlinked);
      entered := Acquire(now, creation);
    }
  }

  function Acquiring(now: int, creation: Creation): Option<LockFile> {
    match creation
    case Created => Some(Lock(Some(now), Some(now)))
    case NotCreated => None
    case CreatedButNotWritten => Some(Empty)
  }

  function Refreshed(file: Option<LockFile>, now: int): Option<LockFile> {
    if file == None || file.value.Garbled? then file
    else Some(Lock(if file.value.Lock? then file.value.startedAt else None, Some(now)))
  }

  predicate Enters(file: Option<LockFile>, now: int, timeoutSec: int, unlinked: bool, creation: Creation) {
    (file == None || (IsStale(file.value, timeoutSec, now) && unlinked)) && creation == Created
  }

  function Entering(file: Option<LockFile>, now: int, timeoutSec: int, unlinked: bool,
      creation: Creation): Option<LockFile> {
    if file.Some? && (!IsStale(file.value, timeoutSec, now) || !unlinked) then file
    else Acquiring(now, creation)
  }

  // ---- The workspace as a state machine ----

  type Worker = nat

  datatype Phase = Working | Stopping  // Stopping: the heartbeat task is cancelled, the lock is not yet released

  datatype Activity = Activity(phase: Phase, lastBeat: int)

  datatype State = State(now: int, file: Option<LockFile>, workers: map<Worker, Activity>)

  datatype Event =
    | Request(worker: Worker, timeoutSec: int, unlinked: bool, creation: Creation)
    | Heartbeat(worker: Worker)
    | LateHeartbeat           // a refresh still running in its thread after its worker has ended
    | Stop(worker: Worker)    // the worker has its result: its heartbeat task is cancelled
    | Finish(worker: Worker, unlinked: bool)
    | Die(worker: Worker)     // the worker disappears without releasing anything
    | Tick(delta: nat)

  function Next(s: State, e: Event): State {
    match e
    case Request(w, timeoutSec, unlinked, creation) =>
      State(s.now, Entering(s.file, s.now, timeoutSec, unlinked, creation),
            if Enters(s.file, s.now, timeoutSec, unlinked, creation) then s.workers[w := Activity(Working, s.now)]
              else s.workers)
    case Heartbeat(w) =>
      if w in s.workers
      then State(s.now, Refreshed(s.file, s.now), s.workers[w := s.workers[w].(lastBeat := s.now)]) else s
    case LateHeartbeat => s.(file := Refreshed(s.file, s.now))
    case Stop(w) => if w in s.workers then s.(workers := s.workers[w := s.workers[w].(phase := Stopping)]) else s
    case Finish(w, unlinked) =>
      State(s.now, if unlinked then None else s.file, s.workers - {w})
    case Die(w) => s.(workers := s.workers - {w})
    case Tick(delta) => s.(now := s.now + delta)
  }

  /** Which events can happen. The last line is the hypothesis on heartbeats: no live worker goes longer than 60 s
      without one, from its start until it has released the lock. */
  predicate CanHappen(s: State, e: Event) {
    match e
    case Request(w, _, _, _) => w !in s.workers
    case Heartbeat(w) => w in s.workers && s.workers[w].phase == Working
    case LateHeartbeat => true
    case Stop(w) => w in s.workers && s.workers[w].phase == Working
    case Finish(w, _) => w in s.workers && s.workers[w].phase == Stopping
    case Die(w) => w in s.workers
    case Tick(delta) => forall w | w in s.workers :: s.now + delta - s.workers[w].lastBeat <= STALE_AFTER
  }

  ghost predicate Happens(s: State, es: seq<Event>) {
    es == [] || (Happens(s, es[..|es| - 1]) && CanHappen(After(s, es[..|es| - 1]), es[|es| - 1]))
  }

  function After(s: State, es: seq<Event>): State {
    if es == [] then s else Next(After(s, es[..|es| - 1]), es[|es| - 1])
  }

  predicate Start(s: State) {
    s.workers == map[]  // whatever lock file an earlier process left
  }

  /** A live worker is alone, and the lock it holds carries a heartbeat no older than its own last one. */
  predicate Inv(s: State) {
    && (forall v, w | v in s.workers && w in s.workers :: v == w)
    && (forall w | w in s.workers ::
          && s.now - s.workers[w].lastBeat <= STALE_AFTER
          && s.file.Some? && s.file.value.Lock? && s.file.value.heartbeatAt.Some?
          && s.workers[w].lastBeat <= s.file.value.heartbeatAt.value <= s.now)
  }

  lemma NextKeepsInv(s: State, e: Event)
    requires Inv(s) && CanHappen(s, e)
    ensures Inv(Next(s, e))
  {
  }

  lemma {:induction false} RunKeepsInv(s: State, es: seq<Event>)
    requires Start(s) && Happens(s, es)
    ensures Inv(After(s, es))
  {
    if es != [] {
      RunKeepsInv(s, es[..|es| - 1]);
      NextKeepsInv(After(s, es[..|es| - 1]), es[|es| - 1]);
    }
  }

  /** Over every interleaving that keeps the heartbeat hypothesis, two workers never hold the workspace at once. */
  lemma NeverTwoWorkers(s: State, es: seq<Event>, v: Worker, w: Worker)
    requires Start(s) && Happens(s, es)
    requires v in After(s, es).workers && w in After(s, es).workers
    ensures v == w
  {
    RunKeepsInv(s, es);
  }

  /** A request made while a worker lives is refused and leaves its lock exactly as it is, whatever the request asks. */
  lemma RequestNeverDisturbsHolder(s: State, es: seq<Event>, w: Worker, e: Event)
    requires Start(s) && Happens(s, es) && w in After(s, es).workers && e.Request?
    ensures Next(After(s, es), e) == After(s, es)
  {
    RunKeepsInv(s, es);
  }

  /** With nobody alive, which lock file lets a request in, provided the file can be unlinked and the new one created:
      no file, one that holds no lock, a lock whose last heartbeat is more than 60 s old, a lock without heartbeat that
      was started more than twice the timeout ago, counting at least 60 s and an hour for a missing timeout, and a lock
      without any time. The new lock starts and beats now; a refused request leaves the file. */
  lemma TakeableExactlyWhen(s: State, w: Worker, timeoutSec: int)
    requires s.workers == map[]
    ensures var s' := Next(s, Request(w, timeoutSec, true, Created)); var entered := w in s'.workers;
      && (s.file == None ==> entered)
      && (s.file == Some(Empty) || s.file == Some(Garbled) ==> entered)
      && (entered ==> s'.file == Some(Lock(Some(s.now), Some(s.now))))
      && (entered ==> s'.workers == map[w := Activity(Working, s.now)])
      && (!entered ==> s' == s)
      && (s.file.Some? && s.file.value.Lock? ==>
            match s.file.value.heartbeatAt
            case Some(beat) => entered <==> s.now - beat > 60_000_000
            case None =>
              match s.file.value.startedAt
              case None => entered
              case Some(start) =>
                && (timeoutSec == 0 ==> (entered <==> s.now - start > 7_200_000_000))
                && (timeoutSec != 0 && timeoutSec <= 60 ==> (entered <==> s.now - start > 120_000_000))
                && (timeoutSec > 60 ==> (entered <==> s.now - start > 2_000_000 * timeoutSec)))
  {
  }

  /** A stale lock that cannot be unlinked, or a file that is not created, keeps the request out; a file created but
      not written is left behind empty, and lets the next request in. */
  lemma FailedEntry(s: State, w: Worker, v: Worker, timeoutSec: int, creation: Creation)
    requires s.workers == map[]
    ensures s.file.Some? ==> Next(s, Request(w, timeoutSec, false, creation)) == s
    ensures s.file == None && creation == NotCreated ==> Next(s, Request(w, timeoutSec, true, creation)) == s
    ensures s.file == None && creation == CreatedButNotWritten ==>
      var s' := Next(s, Request(w, timeoutSec, true, creation));
      s'.workers == map[] && v in Next(s', Request(v, timeoutSec, true, Created)).workers
  {
    if s.file == None && creation == CreatedButNotWritten {
      TakeableExactlyWhen(Next(s, Request(w, timeoutSec, true, creation)), v, timeoutSec);
    }
  }

  /** A heartbeat moves the lock's heartbeat to now and keeps when it was started; it neither creates a lock file nor
      mends one that holds no lock. */
  lemma HeartbeatEffect(s: State, w: Worker)
    requires w in s.workers
    ensures var s' := Next(s, Heartbeat(w));
      && (s.file == None || s.file == Some(Garbled) ==> s'.file == s.file)
      && (s.file == Some(Empty) ==> s'.file == Some(Lock(None, Some(s.now))))
      && (s.file.Some? && s.file.value.Lock? ==> s'.file == Some(Lock(s.file.value.startedAt, Some(s.now))))
      && s'.workers == s.workers[w := Activity(s.workers[w].phase, s.now)] && s'.now == s.now
      && Next(s, LateHeartbeat) == s.(file := s'.file)
  {
  }

  function LastHeartbeat(file: Option<LockFile>): Option<int> {
    if file.Some? && file.value.Lock? then file.value.heartbeatAt else None
  }

  predicate Fresh(s: State, heartbeat: Option<int>) {
    heartbeat.Some? && s.now - heartbeat.value <= STALE_AFTER
  }

  /** Only time passes and requests come, every request while the lock's heartbeat is at most 60 s old. */
  predicate OnlyEarlyRequests(s: State, es: seq<Event>) {
    forall i | 0 <= i < |es| :: es[i].Tick? || (es[i].Request? && Fresh(After(s, es[..i]), LastHeartbeat(s.file)))
  }

  /** With nobody alive, a lock that carries a heartbeat stays exactly as it is while such requests come: all are
      refused. */
  lemma {:induction false} EarlyRequestsAreRefused(s: State, es: seq<Event>)
    requires s.workers == map[] && LastHeartbeat(s.file).Some? && OnlyEarlyRequests(s, es)
    ensures After(s, es).file == s.file && After(s, es).workers == map[] && s.now <= After(s, es).now
  {
    if es != [] {
      var init := es[..|es| - 1];
      forall i | 0 <= i < |init| ensures init[..i] == es[..i] {}
      EarlyRequestsAreRefused(s, init);
    }
  }

  /** After its holder died, whatever requests came and were refused while the lock was fresh, the lock is takeable
      exactly when more than 60 s have passed since its last heartbeat: then a request gets in, provided the old file
      can be unlinked and the new one created. */
  lemma TakeableExactlyWhenQuiet(s: State, es: seq<Event>, w: Worker, waiting: seq<Event>, timeoutSec: int,
      next: Worker)
    requires Start(s) && Happens(s, es) && w in After(s, es).workers
    requires OnlyEarlyRequests(Next(After(s, es), Die(w)), waiting)
    ensures var dead := Next(After(s, es), Die(w)); var later := After(dead, waiting);
      && dead.workers == map[] && LastHeartbeat(dead.file).Some?
      && later.workers == map[] && later.file == dead.file
      && (next in Next(later, Request(next, timeoutSec, true, Created)).workers
          <==> later.now - LastHeartbeat(dead.file).value > 60_000_000)
  {
    RunKeepsInv(s, es);
    var dead := Next(After(s, es), Die(w));
    assert dead.workers == map[];
    EarlyRequestsAreRefused(dead, waiting);
  }

  /** A second worker gets in beside a live one exactly when the lock's last heartbeat is more than 60 s old, whatever
      timeout its request names. */
  lemma SecondWorkerEntersExactlyWhen(s: State, w: Worker, v: Worker, delta: nat, timeoutSec: int)
    requires Inv(s) && w in s.workers && v !in s.workers
    ensures LastHeartbeat(s.file).Some?
    ensures var late := Next(s, Tick(delta));
      Next(late, Request(v, timeoutSec, true, Created)).workers.Keys == {v, w}
      <==> late.now - LastHeartbeat(s.file).value > 60_000_000
  {
    assert s.workers.Keys == {w};
  }

  /** A release does not ask whose lock it is: of any two workers, the one that finishes first removes the lock of the
      other, so that any third one gets in beside it. */
  lemma ReleaseRemovesAnothersLock(s: State, w: Worker, v: Worker, third: Worker, timeoutSec: int)
    requires w in s.workers && v in s.workers && w != v && third !in s.workers
    ensures var released := Next(Next(s, Stop(w)), Finish(w, true));
      && released.file == None && v in released.workers
      && {v, third} <= Next(released, Request(third, timeoutSec, true, Created)).workers.Keys
  {
  }

  /** An example of both: when a live worker misses its heartbeats for 61 s, a second worker gets in, and the
      first one's release then removes the second one's lock, so that a third gets in as well. */
  lemma MissedHeartbeatsBreakExclusion()
    ensures var s0 := State(0, None, map[]);
      var s1 := Next(s0, Request(1, 3600, true, Created));
      var s2 := Next(Next(s1, Tick(61_000_000)), Request(2, 3600, true, Created));
      var s3 := Next(Next(Next(s2, Stop(1)), Finish(1, true)), Request(3, 3600, true, Created));
      && !CanHappen(s1, Tick(61_000_000))
      && s2.workers.Keys == {1, 2}
      && s3.workers.Keys == {2, 3}
  {
    var s0 := State(0, None, map[]);
    var s1 := Next(s0, Request(1, 3600, true, Created));
    assert s1.workers == map[1 := Activity(Working, 0)] && 1 in s1.workers;
    var s2 := Next(Next(s1, Tick(61_000_000)), Request(2, 3600, true, Created));
    assert s2.workers == map[1 := Activity(Working, 0), 2 := Activity(Working, 61_000_000)];
    var s := Next(Next(s2, Stop(1)), Finish(1, true));
    assert s.file == None && s.workers == map[2 := Activity(Working, 61_000_000)];
  }
}
