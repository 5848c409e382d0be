/** Handing browser sessions from prepare to continue while stop may come at any time
    (client_new/services/web_test_service.py). A step is what runs between two awaits; every registry access is one. */
module RunSessions {

  /** Where a session is in its life. `Picked` is between leaving the prepared registry and entering the active one,
      `Finishing` between leaving the active one and being closed or retained. */
  datatype Phase = Waiting | Picked | Running | Finishing(close: bool) | Ended | Stopped

  /** `mustClose`: the case closes its browser when it finishes, or has none to keep. `released`: a stop or cancel took
      the session and answers for it. `displaced` is history: while it ran, the active entry of its run id was taken by
      something done for another session. */
  datatype Session = Session(
    run: int, mustClose: bool, phase: Phase, cancelled: bool, browserOpen: bool, released: bool, displaced: bool)

  /** A stop or cancel at work: the sessions it took, how many of them it has closed, whether it has answered. It
      answers "released" when it took any. */
  datatype StopCall = StopCall(run: int, taken: seq<nat>, closed: nat, answered: bool)

  datatype World = World(
    sessions: seq<Session>, prepared: map<int, nat>, active: map<int, nat>, retained: set<nat>, calls: seq<StopCall>)

  const EMPTY := World([], map[], map[], {}, [])

  datatype Event =
    | Prepare(run: int, mustClose: bool)
    | Pick(run: int)
    | Register(id: nat)
    | Finish(id: nat)
    | Settle(id: nat)
    | Stop(run: int)
    | Cancel(run: int)
    | Proceed(call: nat)

  predicate InPhase(w: World, id: nat, p: Phase) {
    id < |w.sessions| && w.sessions[id].phase == p
  }

  /** The steps of a continue follow one another for the session it picked; a stop proceeds until it has answered. */
  predicate CanHappen(w: World, e: Event) {
    match e
    case Register(id) => InPhase(w, id, Picked)
    case Finish(id) => InPhase(w, id, Running)
    case Settle(id) => id < |w.sessions| && w.sessions[id].phase.Finishing?
    case Proceed(k) => k < |w.calls| && !w.calls[k].answered
    case _ => true
  }

  function Put(w: World, id: nat, s: Session): World
    requires id < |w.sessions|
  {
    w.(sessions := w.sessions[id := s])
  }

  /** The active entry of a run id is taken on behalf of session `id`: another session registered there is displaced. */
  function Displace(w: World, run: int, id: nat): World {
    if run in w.active && w.active[run] != id && w.active[run] < |w.sessions| then
      Put(w, w.active[run], w.sessions[w.active[run]].(displaced := true))
    else w
  }

  function RegisterActive(w: World, id: nat): World
    requires id < |w.sessions|
  {
    var s := w.sessions[id];
    var w1 := Displace(w, s.run, id);
    Put(w1, id, s.(phase := Running)).(active := w.active[s.run := id])
  }

  /** The `finally` block of a continue: it pops whatever its run id has in the active registry, reads its own flag, and
      decides. */
  function FinishRun(w: World, id: nat): World
    requires id < |w.sessions|
  {
    var s := w.sessions[id];
    var w1 := Displace(w, s.run, id);
    Put(w1, id, s.(phase := Finishing(s.cancelled || s.mustClose))).(active := w.active - {s.run})
  }

  function SettleRun(w: World, id: nat): World
    requires id < |w.sessions| && w.sessions[id].phase.Finishing?
  {
    var s := w.sessions[id];
    if s.phase.close then Put(w, id, s.(phase := Ended, browserOpen := false))
    else Put(w, id, s.(phase := Ended)).(retained := w.retained + {id})
  }

  function ReleasePrepared(w: World, run: int): World {
    if run in w.prepared && w.prepared[run] < |w.sessions| then
      var id := w.prepared[run];
      Put(w, id, w.sessions[id].(phase := Stopped, released := true)).(prepared := w.prepared - {run})
    else w.(prepared := w.prepared - {run})
  }

  function ReleaseActive(w: World, run: int): World {
    if run in w.active && w.active[run] < |w.sessions| then
      var id := w.active[run];
      Put(w, id, w.sessions[id].(cancelled := true, released := true)).(active := w.active - {run})
    else w.(active := w.active - {run})
  }

  function EntryOf(registry: map<int, nat>, run: int): seq<nat> {
    if run in registry then [registry[run]] else []
  }

  function AddCall(w: World, run: int, taken: seq<nat>): World {
    w.(calls := w.calls + [StopCall(run, taken, 0, false)])
  }

  /** `_stop_run_case` takes both entries in one step. */
  function StopRun(w: World, run: int): World {
    AddCall(ReleasePrepared(ReleaseActive(w, run), run), run, EntryOf(w.active, run) + EntryOf(w.prepared, run))
  }

  /** A stop closes the sessions it took, one await each, and then answers. */
  function ProceedCall(w: World, k: nat): World
    requires k < |w.calls|
  {
    var call := w.calls[k];
    if call.closed < |call.taken| then
      var id, w1 := call.taken[call.closed], w.(calls := w.calls[k := call.(closed := call.closed + 1)]);
      if id < |w.sessions| then Put(w1, id, w.sessions[id].(browserOpen := false)) else w1
    else w.(calls := w.calls[k := call.(answered := true)])
  }

  /** `_cancel_run_case` also takes both entries, but with a prepared one it leaves the active session running. */
  function CancelRun(w: World, run: int): World {
    if run in w.prepared then
      AddCall(ReleasePrepared(Displace(w, run, |w.sessions|), run).(active := w.active - {run}), run,
        EntryOf(w.prepared, run))
    else AddCall(ReleaseActive(w, run), run, EntryOf(w.active, run))
  }

  predicate Released(w: World, run: int) {
    run in w.active || run in w.prepared
  }

  function Next(w: World, e: Event): World
    requires CanHappen(w, e)
  {
    match e
    case Prepare(run, mustClose) =>
      w.(sessions := w.sessions + [Session(run, mustClose, Waiting, false, true, false, false)],
         prepared := w.prepared[run := |w.sessions|])
    case Pick(run) =>
      if run in w.prepared && w.prepared[run] < |w.sessions| then
        Put(w, w.prepared[run], w.sessions[w.prepared[run]].(phase := Picked)).(prepared := w.prepared - {run})
      else w
    case Register(id) => RegisterActive(w, id)
    case Finish(id) => FinishRun(w, id)
    case Settle(id) => SettleRun(w, id)
    case Stop(run) => StopRun(w, run)
    case Cancel(run) => CancelRun(w, run)
    case Proceed(k) => ProceedCall(w, k)
  }

  // ---- The registries ----

  class WebTestService {
    var sessions: seq<Session>
    var prepared: map<int, nat>
    var active: map<int, nat>
    var retained: set<nat>
    var calls: seq<StopCall>

    ghost function State(): World
      reads this
    {
      World(sessions, prepared, active, retained, calls)
    }

    constructor ()
      ensures State() == EMPTY
    {
      sessions, prepared, active, retained, calls := [], map[], map[], {}, [];
    }

    method AddPrepared(run: int, mustClose: bool)
      modifies this
      ensures State() == Next(old(State()), Prepare(run, mustClose))
    {
      prepared := prepared[run := |sessions|];
      sessions := sessions + [Session(run, mustClose, Waiting, false, true, false, false)];
    }

    method PopPrepared(run: int) returns (found: bool)
      requires Inv(State())
      modifies this
      ensures State() == Next(old(State()), Pick(run)) && (found <==> run in old(prepared))
    {
      found := run in prepared;
      if !found { return; }
      var id := prepared[run];
      prepared := prepared - {run};
      sessions := sessions[id := sessions[id].(phase := Picked)];
    }

    method RegisterRun(id: nat)
      requires Inv(State()) && InPhase(State(), id, Picked)
      modifies this
      ensures State() == Next(old(State()), Register(id))
    {
      var s := sessions[id];
      if s.run in active {
        var other := active[s.run];
        if other != id { sessions := sessions[other := sessions[other].(displaced := true)]; }
      }
      sessions := sessions[id := s.(phase := Running)];
      active := active[s.run := id];
    }

    method FinishAndDecide(id: nat)
      requires Inv(State()) && InPhase(State(), id, Running)
      modifies this
      ensures State() == Next(old(State()), Finish(id))
    {
      var s := sessions[id];
      if s.run in active {
        var other := active[s.run];
        if other != id { sessions := sessions[other := sessions[other].(displaced := true)]; }
      }
      active := active - {s.run};
      sessions := sessions[id := s.(phase := Finishing(s.cancelled || s.mustClose))];
    }

    method CloseOrRetain(id: nat)
      requires id < |sessions| && sessions[id].phase.Finishing?
      modifies this
      ensures State() == Next(old(State()), Settle(id))
    {
      var s := sessions[id];
      if s.phase.close {
        sessions := sessions[id := s.(phase := Ended, browserOpen := false)];
      } else {
        sessions := sessions[id := s.(phase := Ended)];
        retained := retained + {id};
      }
    }

    /** The locked part of `_stop_run_case`, up to its first await. */
    method StopRunCase(run: int) returns (call: nat)
      requires Inv(State())
      modifies this
      ensures State() == Next(old(State()), Stop(run)) && call == |old(calls)|
      ensures calls[call].taken != [] <==> Released(old(State()), run)
    {
      var taken: seq<nat> := [];
      if run in active {
        var id := active[run];
        taken := taken + [id];
        sessions := sessions[id := sessions[id].(cancelled := true, released := true)];
      }
      active := active - {run};
      if run in prepared {
        var id := prepared[run];
        taken := taken + [id];
        sessions := sessions[id := sessions[id].(phase := Stopped, released := true)];
      }
      prepared := prepared - {run};
      assert taken == EntryOf(old(active), run) + EntryOf(old(prepared), run);
      call := |calls|;
      calls := calls + [StopCall(run, taken, 0, false)];
    }

    /** The rest of it, one await at a time: `answered` comes with the answer. */
    method ContinueStop(call: nat) returns (answered: bool, released: bool)
      requires CallsOk(State()) && CanHappen(State(), Proceed(call))
      modifies this
      ensures State() == Next(old(State()), Proceed(call))
      ensures answered == calls[call].answered && (answered ==> released == (calls[call].taken != []))
    {
      var c := calls[call];
      released := c.taken != [];
      answered := c.closed >= |c.taken|;
      if !answered {
        var id := c.taken[c.closed];
        assert CallOk(State(), c);
        sessions := sessions[id := sessions[id].(browserOpen := false)];
        calls := calls[call := c.(closed := c.closed + 1)];
      } else {
        calls := calls[call := c.(answered := true)];
      }
    }
  }

  // ---- The invariant ----

  predicate SessionOk(w: World, id: nat)
    requires id < |w.sessions|
  {
    var s := w.sessions[id];
    && (s.released <==> s.cancelled || s.phase.Stopped?)
    && (s.cancelled ==> s.phase.Running? || s.phase == Finishing(true) || s.phase.Ended?)
    && (s.phase == Finishing(true) ==> s.cancelled || s.mustClose)
    && (s.phase == Finishing(false) ==> !s.mustClose)
    && (id in w.retained ==> s.phase.Ended? && s.browserOpen && !s.released && !s.mustClose)
    && (s.phase.Ended? ==> (s.browserOpen <==> id in w.retained))
    && (!s.browserOpen ==> s.phase.Ended? || s.released)
    && (s.phase.Running? && !s.cancelled && !s.displaced ==> s.run in w.active && w.active[s.run] == id)
    && (s.displaced ==> s.phase.Running? || s.phase.Finishing? || s.phase.Ended?)
    && (s.displaced ==> s.run !in w.active || w.active[s.run] != id)
  }

  predicate RegistriesOk(w: World) {
    && (forall r | r in w.prepared :: w.prepared[r] < |w.sessions| && w.sessions[w.prepared[r]].run == r
                                      && w.sessions[w.prepared[r]].phase.Waiting?)
    && (forall r | r in w.active :: w.active[r] < |w.sessions| && w.sessions[w.active[r]].run == r
                                    && w.sessions[w.active[r]].phase.Running? && !w.sessions[w.active[r]].cancelled)
    && (forall id | id in w.retained :: id < |w.sessions|)
  }

  predicate Inv(w: World) {
    RegistriesOk(w) && forall id: nat | id < |w.sessions| :: SessionOk(w, id)
  }

  predicate CallOk(w: World, c: StopCall) {
    && c.closed <= |c.taken| && (c.answered ==> c.closed == |c.taken|)
    && (forall i | 0 <= i < |c.taken| ::
          c.taken[i] < |w.sessions| && w.sessions[c.taken[i]].released && w.sessions[c.taken[i]].run == c.run)
    && (forall i | 0 <= i < c.closed :: !w.sessions[c.taken[i]].browserOpen)
  }

  /** What the stops at work have done to the sessions they took. */
  predicate CallsOk(w: World) {
    forall k | 0 <= k < |w.calls| :: CallOk(w, w.calls[k])
  }

  lemma RegisterKeepsInv(w: World, id: nat)
    requires Inv(w) && InPhase(w, id, Picked)
    ensures Inv(RegisterActive(w, id))
  {
    assert SessionOk(w, id);
    var w' := RegisterActive(w, id);
    forall k: nat | k < |w'.sessions| ensures SessionOk(w', k) { assert SessionOk(w, k); }
  }

  lemma FinishKeepsInv(w: World, id: nat)
    requires Inv(w) && InPhase(w, id, Running)
    ensures Inv(FinishRun(w, id))
  {
    assert SessionOk(w, id);
    var w' := FinishRun(w, id);
    forall k: nat | k < |w'.sessions| ensures SessionOk(w', k) { assert SessionOk(w, k); }
  }

  lemma SettleKeepsInv(w: World, id: nat)
    requires Inv(w) && id < |w.sessions| && w.sessions[id].phase.Finishing?
    ensures Inv(SettleRun(w, id))
  {
    assert SessionOk(w, id);
    var w' := SettleRun(w, id);
    forall k: nat | k < |w'.sessions| ensures SessionOk(w', k) { assert SessionOk(w, k); }
  }

  lemma ReleaseActiveKeepsInv(w: World, run: int)
    requires Inv(w)
    ensures Inv(ReleaseActive(w, run))
  {
    var w' := ReleaseActive(w, run);
    forall k: nat | k < |w'.sessions| ensures SessionOk(w', k) { assert SessionOk(w, k); }
  }

  lemma ReleasePreparedKeepsInv(w: World, run: int)
    requires Inv(w)
    ensures Inv(ReleasePrepared(w, run))
  {
    var w' := ReleasePrepared(w, run);
    forall k: nat | k < |w'.sessions| ensures SessionOk(w', k) { assert SessionOk(w, k); }
  }

  lemma AddCallKeepsInv(w: World, run: int, taken: seq<nat>)
    requires Inv(w)
    ensures Inv(AddCall(w, run, taken))
  {
    var w' := AddCall(w, run, taken);
    forall id: nat | id < |w'.sessions| ensures SessionOk(w', id) { assert SessionOk(w, id); }
  }

  lemma CancelKeepsInv(w: World, run: int)
    requires Inv(w)
    ensures Inv(CancelRun(w, run))
  {
    if run in w.prepared {
      var w1 := Displace(w, run, |w.sessions|).(active := w.active - {run});
      forall k: nat | k < |w1.sessions| ensures SessionOk(w1, k) { assert SessionOk(w, k); }
      var w2 := ReleasePrepared(Displace(w, run, |w.sessions|), run).(active := w.active - {run});
      assert w2 == ReleasePrepared(w1, run);
      hide ReleasePrepared, Displace;
      ReleasePreparedKeepsInv(w1, run);
      AddCallKeepsInv(w2, run, EntryOf(w.prepared, run));
    } else {
      ReleaseActiveKeepsInv(w, run);
      AddCallKeepsInv(ReleaseActive(w, run), run, EntryOf(w.active, run));
    }
  }

  lemma OtherKeepsInv(w: World, e: Event)
    requires Inv(w) && CanHappen(w, e) && (e.Prepare? || e.Pick?)
    ensures Inv(Next(w, e))
  {
    var w' := Next(w, e);
    forall k: nat | k < |w'.sessions| ensures SessionOk(w', k) {
      if k < |w.sessions| { assert SessionOk(w, k); }
    }
  }

  lemma ProceedKeepsInv(w: World, k: nat)
    requires Inv(w) && CallsOk(w) && CanHappen(w, Proceed(k))
    ensures Inv(ProceedCall(w, k))
  {
    assert CallOk(w, w.calls[k]);
    var w' := ProceedCall(w, k);
    forall id: nat | id < |w'.sessions| ensures SessionOk(w', id) { assert SessionOk(w, id); }
  }

  lemma NextKeepsInv(w: World, e: Event)
    requires Inv(w) && CallsOk(w) && CanHappen(w, e)
    ensures Inv(Next(w, e))
  {
    hide Inv, CallsOk, RegisterActive, FinishRun, SettleRun, ReleaseActive, ReleasePrepared, CancelRun, ProceedCall,
      AddCall;
    match e
    case Register(id) => RegisterKeepsInv(w, id);
    case Finish(id) => FinishKeepsInv(w, id);
    case Settle(id) => SettleKeepsInv(w, id);
    case Stop(run) =>
      ReleaseActiveKeepsInv(w, run);
      ReleasePreparedKeepsInv(ReleaseActive(w, run), run);
      AddCallKeepsInv(ReleasePrepared(ReleaseActive(w, run), run), run,
        EntryOf(w.active, run) + EntryOf(w.prepared, run));
    case Cancel(run) => CancelKeepsInv(w, run);
    case Proceed(k) => ProceedKeepsInv(w, k);
    case _ => OtherKeepsInv(w, e);
  }

  /** What no step takes back: a released session stays released, a closed browser stays closed; nor does the run
      change. */
  predicate KeepsFacts(w: World, w': World, id: nat) {
    && id < |w.sessions| && id < |w'.sessions| && w'.sessions[id].run == w.sessions[id].run
    && (w.sessions[id].released ==> w'.sessions[id].released)
    && (!w.sessions[id].browserOpen ==> !w'.sessions[id].browserOpen)
  }

  lemma ReleasingKeepsFacts(w: World, run: int, id: nat)
    requires id < |w.sessions|
    ensures KeepsFacts(w, ReleaseActive(w, run), id) && KeepsFacts(w, ReleasePrepared(w, run), id)
    ensures KeepsFacts(w, Displace(w, run, |w.sessions|), id)
    ensures ReleaseActive(w, run).sessions[id].displaced == w.sessions[id].displaced
    ensures ReleasePrepared(w, run).sessions[id].displaced == w.sessions[id].displaced
  {
  }

  lemma SingleStepKeepsFacts(w: World, e: Event, id: nat)
    requires CanHappen(w, e) && id < |w.sessions| && !e.Stop? && !e.Cancel?
    ensures KeepsFacts(w, Next(w, e), id)
  {
    hide StopRun, CancelRun;
  }

  lemma NothingComesBack(w: World, e: Event, id: nat)
    requires CanHappen(w, e) && id < |w.sessions|
    ensures KeepsFacts(w, Next(w, e), id)
  {
    hide ReleaseActive, ReleasePrepared, Displace, RegisterActive, FinishRun, SettleRun, ProceedCall;
    if e.Stop? {
      ReleasingKeepsFacts(w, e.run, id);
      ReleasingKeepsFacts(ReleaseActive(w, e.run), e.run, id);
    } else if e.Cancel? {
      ReleasingKeepsFacts(w, e.run, id);
      ReleasingKeepsFacts(Displace(w, e.run, |w.sessions|), e.run, id);
    } else {
      SingleStepKeepsFacts(w, e, id);
    }
  }

  lemma CallKept(w: World, w': World, c: StopCall)
    requires CallOk(w, c) && forall id: nat | id < |w.sessions| :: KeepsFacts(w, w', id)
    ensures CallOk(w', c)
  {
    assert forall i | 0 <= i < |c.taken| :: KeepsFacts(w, w', c.taken[i]);
  }

  /** What a stop or cancel takes, it releases. */
  lemma StopReleases(w: World, run: int)
    requires Inv(w)
    ensures var w' := StopRun(w, run); w'.calls == w.calls + [w'.calls[|w.calls|]] && CallOk(w', w'.calls[|w.calls|])
  {
    hide SessionOk;
  }

  lemma CancelReleases(w: World, run: int)
    requires Inv(w)
    ensures var w' := CancelRun(w, run); w'.calls == w.calls + [w'.calls[|w.calls|]] && CallOk(w', w'.calls[|w.calls|])
  {
    hide SessionOk;
  }

  lemma NextKeepsCalls(w: World, e: Event)
    requires Inv(w) && CallsOk(w) && CanHappen(w, e)
    ensures CallsOk(Next(w, e))
  {
    var w' := Next(w, e);
    forall id: nat | id < |w.sessions| ensures KeepsFacts(w, w', id) { NothingComesBack(w, e, id); }
    forall k | 0 <= k < |w.calls| ensures CallOk(w', w.calls[k]) { CallKept(w, w', w.calls[k]); }
    CallsOfNext(w, e);
    if e.Stop? {
      StopReleases(w, e.run);
    } else if e.Cancel? {
      CancelReleases(w, e.run);
    } else if e.Proceed? {
      ProceedsOk(w, e.call);
    }
    hide Next, Inv, CallOk, KeepsFacts;
  }

  lemma CallsOfNext(w: World, e: Event)
    requires CanHappen(w, e)
    ensures !e.Stop? && !e.Cancel? && !e.Proceed? ==> Next(w, e).calls == w.calls
    ensures e.Proceed? ==> |Next(w, e).calls| == |w.calls|
    ensures e.Proceed? ==> forall k | 0 <= k < |w.calls| && k != e.call :: Next(w, e).calls[k] == w.calls[k]
  {
  }

  lemma ProceedsOk(w: World, k: nat)
    requires CallsOk(w) && CanHappen(w, Proceed(k))
    ensures CallOk(ProceedCall(w, k), ProceedCall(w, k).calls[k])
  {
    assert CallOk(w, w.calls[k]);
  }

  // ---- Every interleaving ----

  predicate IsRun(ws: seq<World>, es: seq<Event>) {
    && |ws| == |es| + 1 && ws[0] == EMPTY
    && forall i | 0 <= i < |es| :: CanHappen(ws[i], es[i]) && ws[i + 1] == Next(ws[i], es[i])
  }

  lemma {:induction false} RunKeepsInv(ws: seq<World>, es: seq<Event>, n: nat)
    requires IsRun(ws, es) && n <= |es|
    ensures Inv(ws[n]) && CallsOk(ws[n])
  {
    if n > 0 {
      hide Inv, CallsOk, Next;
      RunKeepsInv(ws, es, n - 1);
      NextKeepsInv(ws[n - 1], es[n - 1]);
      NextKeepsCalls(ws[n - 1], es[n - 1]);
      assert ws[(n - 1) + 1] == Next(ws[n - 1], es[n - 1]);
    } else {
      assert Inv(EMPTY);
    }
  }

  /** Whatever the interleaving: once a stop has taken a session, that session is never retained, and once its browser
      has been closed it stays closed. */
  lemma {:induction false} ReleasedIsNeverRetained(ws: seq<World>, es: seq<Event>, i: nat, j: nat, id: nat)
    requires IsRun(ws, es) && i <= j <= |es| && id < |ws[i].sessions| && ws[i].sessions[id].released
    ensures id < |ws[j].sessions| && ws[j].sessions[id].released && id !in ws[j].retained
    ensures !ws[i].sessions[id].browserOpen ==> !ws[j].sessions[id].browserOpen
  {
    hide Next, Inv, CallsOk;
    if i < j {
      ReleasedIsNeverRetained(ws, es, i, j - 1, id);
      NothingComesBack(ws[j - 1], es[j - 1], id);
      assert ws[(j - 1) + 1] == Next(ws[j - 1], es[j - 1]);
    }
    RunKeepsInv(ws, es, j);
    ReleasedNotRetained(ws[j], id);
  }

  lemma ReleasedNotRetained(w: World, id: nat)
    requires Inv(w) && id < |w.sessions| && w.sessions[id].released
    ensures id !in w.retained
  {
    assert SessionOk(w, id);
  }

  lemma CallsGoOn(w: World, e: Event, k: nat)
    requires CanHappen(w, e) && k < |w.calls| && w.calls[k].answered
    ensures k < |Next(w, e).calls| && Next(w, e).calls[k] == w.calls[k]
  {
  }

  lemma {:induction false} AnswerStands(ws: seq<World>, es: seq<Event>, i: nat, j: nat, k: nat)
    requires IsRun(ws, es) && i <= j <= |es| && k < |ws[i].calls| && ws[i].calls[k].answered
    ensures k < |ws[j].calls| && ws[j].calls[k] == ws[i].calls[k]
  {
    hide Next;
    if i < j {
      AnswerStands(ws, es, i, j - 1, k);
      CallsGoOn(ws[j - 1], es[j - 1], k);
      assert ws[(j - 1) + 1] == Next(ws[j - 1], es[j - 1]);
    }
  }

  /** Whatever the interleaving: from the moment a stop or cancel has answered, every session it took is of the run it
      names, has its browser closed and is not retained, for good. "Released" says there was one. */
  lemma AnsweredMeansClosedForGood(ws: seq<World>, es: seq<Event>, i: nat, j: nat, k: nat, id: nat)
    requires IsRun(ws, es) && i <= j <= |es| && k < |ws[i].calls| && ws[i].calls[k].answered
      && id in ws[i].calls[k].taken
    ensures id < |ws[j].sessions| && ws[j].sessions[id].run == ws[i].calls[k].run
    ensures !ws[j].sessions[id].browserOpen && id !in ws[j].retained
  {
    hide Next;
    RunKeepsInv(ws, es, j);
    AnswerStands(ws, es, i, j, k);
    var c := ws[j].calls[k];
    assert CallOk(ws[j], c);
    var n :| 0 <= n < |c.taken| && c.taken[n] == id;
    assert SessionOk(ws[j], id);
  }

  /** A continue that has ended left its browser either closed or retained, never both, retained only if no stop took
      the session, and left the session in neither registry. */
  lemma EndedIsClosedOrRetained(w: World, id: nat)
    requires Inv(w) && InPhase(w, id, Ended)
    ensures w.sessions[id].browserOpen <==> id in w.retained
    ensures id in w.retained ==> !w.sessions[id].released && !w.sessions[id].mustClose
    ensures forall r :: (r in w.prepared ==> w.prepared[r] != id) && (r in w.active ==> w.active[r] != id)
  {
    assert SessionOk(w, id);
  }

  /** Which sessions a stop takes: the waiting one in the prepared registry, and a running one exactly when nothing done
      for another session has taken its place in the active registry. */
  lemma StopTakesExactly(w: World, run: int, id: nat)
    requires Inv(w) && id < |w.sessions| && w.sessions[id].run == run && !w.sessions[id].released
    ensures Next(w, Stop(run)).sessions[id].released <==>
      (run in w.prepared && w.prepared[run] == id) || (w.sessions[id].phase.Running? && !w.sessions[id].displaced)
    ensures w.sessions[id].phase.Running? && !w.sessions[id].displaced ==> Released(w, run)
    ensures run !in Next(w, Stop(run)).prepared && run !in Next(w, Stop(run)).active
  {
    assert SessionOk(w, id);
  }

  /** Which sessions a cancel takes: the waiting one, and only when none waits the running one, if nothing done for
      another session has taken its place. Both entries are gone afterwards, so with a session waiting the running one
      goes on, found by no later stop. */
  lemma CancelTakesExactly(w: World, run: int, id: nat)
    requires Inv(w) && id < |w.sessions| && w.sessions[id].run == run && !w.sessions[id].released
    ensures var s, w' := w.sessions[id], Next(w, Cancel(run)); var s' := w'.sessions[id];
      && (s'.released <==>
            if run in w.prepared then w.prepared[run] == id else s.phase.Running? && !s.displaced)
      && (s'.released && run in w.prepared ==> s' == s.(phase := Stopped, released := true))
      && (s'.released && run !in w.prepared ==> s' == s.(cancelled := true, released := true))
      && (!s'.released ==> s' == s.(displaced := s'.displaced))
      && run !in w'.prepared && run !in w'.active
  {
    assert SessionOk(w, id);
  }

  /** What a stop and a cancel undertake to close, and that neither touches another run. */
  lemma TakenByStopAndCancel(w: World, run: int, other: nat, r: int)
    requires Inv(w) && other < |w.sessions| && w.sessions[other].run != run && r != run
    ensures var taken := (if run in w.active then [w.active[run]] else [])
        + (if run in w.prepared then [w.prepared[run]] else []);
      Next(w, Stop(run)).calls == w.calls + [StopCall(run, taken, 0, false)]
    ensures Next(w, Cancel(run)).calls == w.calls + [StopCall(run,
      if run in w.prepared then [w.prepared[run]] else if run in w.active then [w.active[run]] else [], 0, false)]
    ensures forall e | e == Stop(run) || e == Cancel(run) :: var w' := Next(w, e);
      && w'.sessions[other] == w.sessions[other] && w'.retained == w.retained
      && (r in w'.active <==> r in w.active) && (r in w.active ==> w'.active[r] == w.active[r])
      && (r in w'.prepared <==> r in w.prepared) && (r in w.prepared ==> w'.prepared[r] == w.prepared[r])
  {
    hide SessionOk;
  }

  /** From prepare to running: the new session waits under its run id, is picked by the next continue and takes the
      active entry. */
  lemma PreparedIsPickedAndRuns(w: World, run: int, mustClose: bool)
    requires Inv(w)
    ensures var id, w1 := |w.sessions|, Next(w, Prepare(run, mustClose)); var w2 := Next(w1, Pick(run));
      && InPhase(w1, id, Waiting) && run in w1.prepared && w1.prepared[run] == id && w1.sessions[id].browserOpen
      && InPhase(w2, id, Picked) && run !in w2.prepared
      && InPhase(Next(w2, Register(id)), id, Running) && run in Next(w2, Register(id)).active
      && Next(w2, Register(id)).active[run] == id && Next(w2, Register(id)).sessions[id].run == run
      && Next(w2, Register(id)).sessions[id].mustClose == mustClose
  {
    hide SessionOk;
  }

  /** How a continue ends that is not disturbed between its last two steps: the active entry is gone, and the browser is
      retained exactly when no stop came and the case does not close it, and closed otherwise. */
  lemma FinishedExactly(w: World, id: nat)
    requires Inv(w) && InPhase(w, id, Running)
    ensures var s, w1 := w.sessions[id], Next(w, Finish(id));
      && w1.sessions[id].phase.Finishing? && s.run !in w1.active
      && var w2 := Next(w1, Settle(id));
        && InPhase(w2, id, Ended)
        && (id in w2.retained <==> !s.cancelled && !s.mustClose)
        && (w2.sessions[id].browserOpen <==> !s.cancelled && !s.mustClose)
  {
    assert SessionOk(w, id);
  }

  predicate DisplacedBy(w: World, e: Event, id: nat, other: nat) {
    && id < |w.sessions| && other < |w.sessions| && other != id && w.sessions[other].run == w.sessions[id].run
    && (e == Register(other) || e == Finish(other)
      || (e == Cancel(w.sessions[other].run) && w.sessions[other].phase.Waiting?))
  }

  /** A session is displaced only by another one of the same run id: registered or finished while it runs, or cancelled
      while still waiting. */
  lemma OnlyOverlapDisplaces(w: World, e: Event, id: nat)
    requires Inv(w) && CanHappen(w, e) && id < |w.sessions| && !w.sessions[id].displaced
      && Next(w, e).sessions[id].displaced
    ensures exists other: nat :: DisplacedBy(w, e, id, other)
  {
    hide SessionOk, DisplacedBy;
    match e
    case Register(k) => RegisterOrFinishDisplaces(w, k, id);
    case Finish(k) => RegisterOrFinishDisplaces(w, k, id);
    case Stop(run) =>
      hide ReleaseActive, ReleasePrepared;
      ReleasingKeepsFacts(w, run, id);
      ReleasingKeepsFacts(ReleaseActive(w, run), run, id);
    case Cancel(run) => CancelDisplaces(w, run, id);
    case _ =>
  }

  lemma RegisterOrFinishDisplaces(w: World, k: nat, id: nat)
    requires RegistriesOk(w) && id < |w.sessions| && k < |w.sessions| && !w.sessions[id].displaced
    ensures RegisterActive(w, k).sessions[id].displaced ==> DisplacedBy(w, Register(k), id, k)
    ensures FinishRun(w, k).sessions[id].displaced ==> DisplacedBy(w, Finish(k), id, k)
  {
  }

  lemma CancelDisplaces(w: World, run: int, id: nat)
    requires RegistriesOk(w) && id < |w.sessions| && !w.sessions[id].displaced
      && CancelRun(w, run).sessions[id].displaced
    ensures run in w.prepared && DisplacedBy(w, Cancel(run), id, w.prepared[run])
  {
    hide ReleaseActive, ReleasePrepared;
    ReleasingKeepsFacts(w, run, id);
    ReleasingKeepsFacts(Displace(w, run, |w.sessions|), run, id);
  }

  const RUNNING := Session(7, false, Running, false, true, false, false)

  /** Two sessions of run 7 at once: the second registration has taken the first one's place. */
  const OVERLAP := World([RUNNING.(displaced := true), RUNNING], map[], map[7 := 1], {}, [])

  lemma OverlapHappens()
    ensures Next(Next(Next(Next(Next(Next(EMPTY, Prepare(7, false)), Pick(7)), Register(0)), Prepare(7, false)),
      Pick(7)), Register(1))
         == OVERLAP
  {
    var w1 := Next(EMPTY, Prepare(7, false));
    assert w1.prepared == map[7 := 0];
    var w3 := Next(Next(w1, Pick(7)), Register(0));
    assert w3 == World([RUNNING], map[], map[7 := 0], {}, []);
    var w4 := Next(w3, Prepare(7, false));
    assert w4 == World([RUNNING, RUNNING.(phase := Waiting)], map[7 := 1], map[7 := 0], {}, []);
  }

  lemma StopInOverlap()
    ensures Next(OVERLAP, Stop(7)) == World(
      [RUNNING.(displaced := true), RUNNING.(cancelled := true, released := true)], map[], map[], {},
        [StopCall(7, [1], 0, false)])
  {
    assert EntryOf(OVERLAP.active, 7) + EntryOf(OVERLAP.prepared, 7) == [1];
  }

  /** The overlap breaks the promise: a stop of run 7 closes the second session and answers "released", and the first
      goes on and is retained. */
  lemma OverlapEscapesStop()
    ensures var answered := Next(Next(Next(OVERLAP, Stop(7)), Proceed(0)), Proceed(0));
      && answered.calls == [StopCall(7, [1], 1, true)]
      && 0 in Next(Next(answered, Finish(0)), Settle(0)).retained
  {
    StopInOverlap();
    var stopped := Next(OVERLAP, Stop(7));
    hide StopRun;
    var t := RUNNING.(cancelled := true, released := true, browserOpen := false);
    assert Next(Next(stopped, Proceed(0)), Proceed(0))
        == World([RUNNING.(displaced := true), t], map[], map[], {}, [StopCall(7, [1], 1, true)]);
  }
}
