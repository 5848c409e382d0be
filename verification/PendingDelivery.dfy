/** Store and forward of responses that could not be sent (client_new/server/agent_server.py). The pending list is a
    JSON file holding an insertion-ordered dictionary; enqueue and flush are each one step. */
module PendingDelivery {
  import opened Sorting

  const BATCH_SIZE: nat := 10
  const MAX_ENTRIES: nat := 200

  datatype Response = Response(id: string, payload: string, queuedAt: int)

  datatype Entry = Entry(response: Response, retryCount: nat)

  function Responses(es: seq<Entry>): seq<Response> {
    seq(|es|, i requires 0 <= i < |es| => es[i].response)
  }

  predicate DistinctIds(es: seq<Entry>) {
    forall i, j | 0 <= i < j < |es| :: es[i].response.id != es[j].response.id
  }

  predicate HasId(es: seq<Entry>, id: string) {
    exists i :: 0 <= i < |es| && es[i].response.id == id
  }

  predicate Earlier(a: Entry, b: Entry) {
    a.response.queuedAt <= b.response.queuedAt
  }

  /** `_save_pending_responses`: past the limit only the most recently queued entries stay. */
  function Saved(es: seq<Entry>): seq<Entry> {
    if |es| > MAX_ENTRIES then Newest(es) else es
  }

  function Newest(es: seq<Entry>): seq<Entry>
    requires |es| > MAX_ENTRIES
  {
    SortElements(es, Earlier);
    Sort(es, Earlier)[|es| - MAX_ENTRIES..]
  }

  /** What saving drops. */
  function Overflow(es: seq<Entry>): seq<Entry> {
    SortElements(es, Earlier);
    if |es| > MAX_ENTRIES then Sort(es, Earlier)[..|es| - MAX_ENTRIES] else []
  }

  function Batch(es: seq<Entry>): (batch: seq<Entry>)
    ensures batch <= es
  {
    if |es| <= BATCH_SIZE then es else es[..BATCH_SIZE]
  }

  datatype Outcome = Sent | Failed | SkippedEmpty

  /** An entry without payload counts as delivered without being sent; `sent` is how sending it would end. */
  function OutcomeOf(e: Entry, sent: bool): Outcome {
    if e.response.payload == "" then SkippedEmpty else if sent then Sent else Failed
  }

  /** The responses of a batch whose attempt ended in `outcome`, in order. */
  function Ended(es: seq<Entry>, sends: seq<bool>, outcome: Outcome): seq<Response>
    requires |sends| == |es|
  {
    if es == [] then []
    else
      var n := |es| - 1;
      Ended(es[..n], sends[..n], outcome) + (if OutcomeOf(es[n], sends[n]) == outcome then [es[n].response] else [])
  }

  /** The entries of a batch that stay, with one more retry counted. */
  function Retained(es: seq<Entry>, sends: seq<bool>): seq<Entry>
    requires |sends| == |es|
  {
    if es == [] then []
    else
      var n := |es| - 1;
      Retained(es[..n], sends[..n])
      + (if OutcomeOf(es[n], sends[n]) == Failed then [es[n].(retryCount := es[n].retryCount + 1)] else [])
  }

  /** The pending list and the whole history of what happened to the responses accepted into it. */
  datatype Outbox = Outbox(
    entries: seq<Entry>, accepted: seq<Response>, delivered: seq<Response>, skipped: seq<Response>,
      dropped: seq<Response>)

  function Enqueue(o: Outbox, id: string, payload: string, now: int): Outbox {
    if HasId(o.entries, id) then o
    else
      var es := o.entries + [Entry(Response(id, payload, now), 0)];
      o.(entries := Saved(es), accepted := o.accepted + [Response(id, payload, now)],
        dropped := o.dropped + Responses(Overflow(es)))
  }

  function Flush(o: Outbox, sends: seq<bool>): Outbox
    requires |sends| == |Batch(o.entries)|
  {
    var batch := Batch(o.entries);
    var es := Retained(batch, sends) + o.entries[|batch|..];
    Outbox(Saved(es), o.accepted, o.delivered + Ended(batch, sends, Sent),
      o.skipped + Ended(batch, sends, SkippedEmpty),
           o.dropped + Responses(Overflow(es)))
  }

  // ---- The file-backed list ----

  class PendingResponses {
    var entries: seq<Entry>
    ghost var accepted: seq<Response>
    ghost var delivered: seq<Response>
    ghost var skipped: seq<Response>
    ghost var dropped: seq<Response>

    ghost function State(): Outbox
      reads this
    {
      Outbox(entries, accepted, delivered, skipped, dropped)
    }

    method SavePendingResponses(es: seq<Entry>)
      modifies this`entries, this`dropped
      ensures entries == Saved(es) && dropped == old(dropped) + Responses(Overflow(es))
    {
      dropped := dropped + Responses(Overflow(es));
      entries := es;
      if |es| > MAX_ENTRIES {
        var ordered := Sort(es, Earlier);
        SortElements(es, Earlier);
        entries := ordered[|ordered| - MAX_ENTRIES..];
      }
    }

    method EnqueuePendingResponse(id: string, payload: string, now: int)
      modifies this
      ensures State() == Enqueue(old(State()), id, payload, now)
    {
      hide Saved, Overflow;
      if HasId(entries, id) {
        return;
      }
      accepted := accepted + [Response(id, payload, now)];
      SavePendingResponses(entries + [Entry(Response(id, payload, now), 0)]);
    }

    /** The loop over the batch: `sends` says for each entry whether sending it succeeds. */
    method AttemptBatch(batch: seq<Entry>, sends: seq<bool>) returns (updated: seq<Entry>, deliveredIds: seq<string>)
      requires batch == Batch(entries) && |sends| == |batch|
      modifies this`delivered, this`skipped
      ensures updated == Tried(batch, sends) + entries[|batch|..] && deliveredIds == DeliveredIds(batch, sends)
      ensures delivered == old(delivered) + Ended(batch, sends, Sent)
      ensures skipped == old(skipped) + Ended(batch, sends, SkippedEmpty)
    {
      hide OutcomeOf, Ended, Tried, DeliveredIds, Batch;
      updated, deliveredIds := entries, [];
      NothingTried(batch, sends, entries);
      for i := 0 to |batch|
        invariant updated == Tried(batch[..i], sends[..i]) + entries[i..]
        invariant deliveredIds == DeliveredIds(batch[..i], sends[..i])
        invariant delivered == old(delivered) + Ended(batch[..i], sends[..i], Sent)
        invariant skipped == old(skipped) + Ended(batch[..i], sends[..i], SkippedEmpty)
      {
        AttemptStep(entries, batch, sends, i);
        var record := updated[i];
        if record.response.payload == "" {
          deliveredIds := deliveredIds + [record.response.id];
          skipped := skipped + [record.response];
        } else if sends[i] {
          deliveredIds := deliveredIds + [record.response.id];
          delivered := delivered + [record.response];
        } else {
          updated := updated[i := record.(retryCount := record.retryCount + 1)];
        }
      }
      assert batch[..|batch|] == batch && sends[..|batch|] == sends;
    }

    method FlushPendingResponses(sends: seq<bool>)
      requires DistinctIds(entries) && |sends| == |Batch(entries)|
      modifies this
      ensures State() == Flush(old(State()), sends)
    {
      hide OutcomeOf, Retained, Ended, Tried, DeliveredIds, WithoutIds, Saved, Overflow, Responses, DistinctIds, Batch,
        Flush;
      if entries == [] {
        FlushEmpty(State(), sends);
        return;
      }
      var batch := Batch(entries);
      FlushInSteps(State(), batch, sends);
      var updated, deliveredIds := AttemptBatch(batch, sends);
      var remaining := WithoutIds(updated, deliveredIds);
      SavePendingResponses(remaining);
    }
  }

  /** The batch after the attempts: a failed entry has one more retry. */
  function Tried(es: seq<Entry>, sends: seq<bool>): seq<Entry>
    requires |sends| == |es|
  {
    seq(|es|, i requires 0 <= i < |es| =>
      if OutcomeOf(es[i], sends[i]) == Failed then es[i].(retryCount := es[i].retryCount + 1) else es[i])
  }

  function DeliveredIds(es: seq<Entry>, sends: seq<bool>): seq<string>
    requires |sends| == |es|
  {
    if es == [] then []
    else
      var n := |es| - 1;
      DeliveredIds(es[..n], sends[..n]) + (if OutcomeOf(es[n], sends[n]) == Failed then [] else [es[n].response.id])
  }

  /** `entries.pop(id)` for every id. */
  function WithoutIds(es: seq<Entry>, ids: seq<string>): seq<Entry> {
    if es == [] then []
    else
      var n := |es| - 1;
      WithoutIds(es[..n], ids) + (if es[n].response.id in ids then [] else [es[n]])
  }

  lemma NothingTried(batch: seq<Entry>, sends: seq<bool>, entries: seq<Entry>)
    requires |sends| == |batch|
    ensures Tried(batch[..0], sends[..0]) + entries[0..] == entries && DeliveredIds(batch[..0], sends[..0]) == []
    ensures forall o: Outcome :: Ended(batch[..0], sends[..0], o) == []
  {
    assert Tried(batch[..0], sends[..0]) == [] && [] + entries[0..] == entries;
  }

  /** One more entry of the batch is attempted. */
  lemma AttemptStep(entries: seq<Entry>, batch: seq<Entry>, sends: seq<bool>, i: nat)
    requires batch == Batch(entries) && |sends| == |batch| && i < |batch|
    ensures var before := Tried(batch[..i], sends[..i]) + entries[i..]; var e := batch[i];
      var outcome := OutcomeOf(e, sends[i]);
      && i < |before| && before[i] == e
      && Tried(batch[..i + 1], sends[..i + 1]) + entries[i + 1..]
         == (if outcome == Failed then before[i := e.(retryCount := e.retryCount + 1)] else before)
      && DeliveredIds(batch[..i + 1], sends[..i + 1])
         == DeliveredIds(batch[..i], sends[..i]) + (if outcome == Failed then [] else [e.response.id])
      && (forall o: Outcome :: Ended(batch[..i + 1], sends[..i + 1], o)
            == Ended(batch[..i], sends[..i], o) + (if outcome == o then [e.response] else []))
      && outcome == (if e.response.payload == "" then SkippedEmpty else if sends[i] then Sent else Failed)
  {
    assert batch[..i + 1][..i] == batch[..i] && sends[..i + 1][..i] == sends[..i];
  }

  lemma {:induction false} DeliveredIdsAre(es: seq<Entry>, sends: seq<bool>, id: string)
    requires |sends| == |es|
    ensures id in DeliveredIds(es, sends) <==>
      exists i :: 0 <= i < |es| && es[i].response.id == id && OutcomeOf(es[i], sends[i]) != Failed
  {
    if es != [] {
      hide OutcomeOf;
      var n := |es| - 1;
      DeliveredIdsAre(es[..n], sends[..n], id);
      if i :| 0 <= i < n && es[i].response.id == id && OutcomeOf(es[i], sends[i]) != Failed {
        assert es[..n][i].response.id == id && OutcomeOf(es[..n][i], sends[..n][i]) != Failed;
      }
    }
  }

  lemma {:induction false} WithoutIdsConcat(a: seq<Entry>, b: seq<Entry>, ids: seq<string>)
    ensures WithoutIds(a + b, ids) == WithoutIds(a, ids) + WithoutIds(b, ids)
  {
    if b == [] {
      assert a + b == a;
    } else {
      WithoutIdsConcat(a, b[..|b| - 1], ids);
      assert (a + b)[..|a + b| - 1] == a + b[..|b| - 1];
    }
  }

  lemma {:induction false} NonePopped(es: seq<Entry>, ids: seq<string>)
    requires forall i | 0 <= i < |es| :: es[i].response.id !in ids
    ensures WithoutIds(es, ids) == es
  {
    if es != [] { NonePopped(es[..|es| - 1], ids); }
  }

  lemma {:induction false} PoppedFromBatch(es: seq<Entry>, sends: seq<bool>, ids: seq<string>)
    requires |sends| == |es|
    requires forall i | 0 <= i < |es| :: es[i].response.id in ids <==> OutcomeOf(es[i], sends[i]) != Failed
    ensures WithoutIds(Tried(es, sends), ids) == Retained(es, sends)
  {
    if es != [] {
      var n := |es| - 1;
      PoppedFromBatch(es[..n], sends[..n], ids);
      assert Tried(es, sends)[..n] == Tried(es[..n], sends[..n]);
    }
  }

  lemma PopDelivered(entries: seq<Entry>, batch: seq<Entry>, sends: seq<bool>)
    requires DistinctIds(entries) && batch == Batch(entries) && |sends| == |batch|
    ensures WithoutIds(Tried(batch, sends) + entries[|batch|..], DeliveredIds(batch, sends))
         == Retained(batch, sends) + entries[|batch|..]
  {
    var ids, rest := DeliveredIds(batch, sends), entries[|batch|..];
    forall i | 0 <= i < |batch| ensures batch[i].response.id in ids <==> OutcomeOf(batch[i], sends[i]) != Failed {
      DeliveredIdsAre(batch, sends, batch[i].response.id);
    }
    forall i | 0 <= i < |rest| ensures rest[i].response.id !in ids {
      DeliveredIdsAre(batch, sends, rest[i].response.id);
    }
    PoppedFromBatch(batch, sends, ids);
    NonePopped(rest, ids);
    WithoutIdsConcat(Tried(batch, sends), rest, ids);
  }

  lemma FlushEmpty(o: Outbox, sends: seq<bool>)
    requires o.entries == [] && |sends| == |Batch(o.entries)|
    ensures Flush(o, sends) == o
  {
    assert Responses([]) == [] && [] + o.entries[0..] == [];
    assert o.delivered + [] == o.delivered && o.skipped + [] == o.skipped && o.dropped + [] == o.dropped;
  }

  /** Popping the delivered ids from the updated dictionary leaves what the batch retains, then the rest. */
  lemma FlushInSteps(o: Outbox, batch: seq<Entry>, sends: seq<bool>)
    requires DistinctIds(o.entries) && batch == Batch(o.entries) && |sends| == |batch|
    ensures var remaining := WithoutIds(Tried(batch, sends) + o.entries[|batch|..], DeliveredIds(batch, sends));
      Flush(o, sends) == Outbox(Saved(remaining), o.accepted, o.delivered + Ended(batch, sends, Sent),
                                o.skipped + Ended(batch, sends, SkippedEmpty),
                                  o.dropped + Responses(Overflow(remaining)))
  {
    hide OutcomeOf, Retained, Ended, Tried, DeliveredIds, WithoutIds, Saved, Overflow, Responses, DistinctIds, Batch;
    PopDelivered(o.entries, batch, sends);
  }

  // ---- What every history guarantees ----

  datatype Event = Queued(id: string, payload: string, now: int) | Flushed(sends: seq<bool>)

  predicate CanHappen(o: Outbox, e: Event) {
    e.Flushed? ==> |e.sends| == |Batch(o.entries)|
  }

  function Next(o: Outbox, e: Event): Outbox
    requires CanHappen(o, e)
  {
    match e
    case Queued(id, payload, now) => Enqueue(o, id, payload, now)
    case Flushed(sends) => Flush(o, sends)
  }

  /** A history: the outboxes before and after each event. */
  predicate IsHistory(os: seq<Outbox>, es: seq<Event>) {
    && |os| == |es| + 1
    && os[0] == Outbox([], [], [], [], [])
    && forall i | 0 <= i < |es| :: CanHappen(os[i], es[i]) && os[i + 1] == Next(os[i], es[i])
  }

  /** Every accepted response is pending, delivered, skipped for being empty, or dropped, exactly once. */
  predicate Conserved(o: Outbox) {
    multiset(o.accepted) == multiset(Responses(o.entries)) + multiset(o.delivered) + multiset(o.skipped)
      + multiset(o.dropped)
  }

  predicate Inv(o: Outbox) {
    |o.entries| <= MAX_ENTRIES && DistinctIds(o.entries) && Conserved(o)
  }

  lemma ResponsesConcat(a: seq<Entry>, b: seq<Entry>)
    ensures Responses(a + b) == Responses(a) + Responses(b)
  {
  }

  lemma SplitLast(es: seq<Entry>)
    requires es != []
    ensures es == es[..|es| - 1] + [es[|es| - 1]]
  {
  }

  lemma ResponsesOfFew(e: Entry)
    ensures Responses([e]) == [e.response] && Responses([]) == []
  {
  }

  lemma {:induction false} InsertResponses(e: Entry, es: seq<Entry>)
    ensures multiset(Responses(Insert(e, es, Earlier))) == multiset{e.response} + multiset(Responses(es))
  {
    ResponsesConcat([e], es);
    if es != [] && !Earlier(e, es[0]) {
      InsertResponses(e, es[1..]);
      ResponsesConcat([es[0]], Insert(e, es[1..], Earlier));
      ResponsesConcat([es[0]], es[1..]);
      assert es == [es[0]] + es[1..] && Responses([es[0]]) == [es[0].response];
    } else {
      assert Responses([e]) == [e.response];
    }
  }

  lemma {:induction false} SortResponses(es: seq<Entry>)
    ensures multiset(Responses(Sort(es, Earlier))) == multiset(Responses(es))
  {
    if es != [] {
      SortResponses(es[1..]);
      InsertResponses(es[0], Sort(es[1..], Earlier));
      ResponsesConcat([es[0]], es[1..]);
      assert es == [es[0]] + es[1..] && Responses([es[0]]) == [es[0].response];
    }
  }

  lemma SortSplits(es: seq<Entry>)
    requires |es| > MAX_ENTRIES
    ensures Sort(es, Earlier) == Overflow(es) + Saved(es) && |Saved(es)| == MAX_ENTRIES
      && SortedBy(Sort(es, Earlier), Earlier)
  {
    SortElements(es, Earlier);
    EarlierIsPreorder();
    SortSorted(es, Earlier);
    hide Sort, SortedBy, TotalPreorder;
    var ordered := Sort(es, Earlier);
    assert ordered == ordered[..|es| - MAX_ENTRIES] + ordered[|es| - MAX_ENTRIES..];
  }

  lemma EarlierIsPreorder()
    ensures TotalPreorder(Earlier)
  {
  }

  /** Saving splits the list into what stays and what is dropped. */
  lemma SavingSplits(es: seq<Entry>)
    ensures multiset(Responses(es)) == multiset(Responses(Saved(es))) + multiset(Responses(Overflow(es)))
    ensures |Saved(es)| <= MAX_ENTRIES
  {
    if |es| > MAX_ENTRIES {
      SortSplits(es);
      SortResponses(es);
      hide Overflow, Saved, Sort, Responses;
      ResponsesConcat(Overflow(es), Saved(es));
    } else {
      assert Responses([]) == [];
    }
  }

  /** Everything dropped is at least as old as everything kept. */
  lemma OverflowIsOldest(es: seq<Entry>, d: Entry, k: Entry)
    requires d in Overflow(es) && k in Saved(es)
    ensures d.response.queuedAt <= k.response.queuedAt
  {
    if |es| > MAX_ENTRIES {
      SortSplits(es);
      var ordered, gone, kept := Sort(es, Earlier), Overflow(es), Saved(es);
      hide Overflow, Saved, Sort;
      var i :| 0 <= i < |gone| && gone[i] == d;
      var j :| 0 <= j < |kept| && kept[j] == k;
      assert Earlier(ordered[i], ordered[|gone| + j]);
    }
  }

  lemma SavingKeepsDistinct(es: seq<Entry>)
    requires DistinctIds(es)
    ensures DistinctIds(Saved(es))
  {
    if |es| > MAX_ENTRIES {
      SortKeepsDistinct(es);
      SortSplits(es);
      hide Overflow, Sort;
      var ordered, gone, kept := Sort(es, Earlier), Overflow(es), Saved(es);
      hide Saved;
      forall i, j | 0 <= i < j < |kept| ensures kept[i].response.id != kept[j].response.id {
        assert ordered[|gone| + i] == kept[i] && ordered[|gone| + j] == kept[j];
      }
    }
  }

  lemma SavingInOrder(es: seq<Entry>)
    requires SortedBy(es, Earlier)
    ensures Saved(es) == if |es| > MAX_ENTRIES then es[|es| - MAX_ENTRIES..] else es
  {
    if |es| > MAX_ENTRIES { SortOfSorted(es, Earlier); }
  }

  lemma {:induction false} SortKeepsDistinct(es: seq<Entry>)
    requires DistinctIds(es)
    ensures DistinctIds(Sort(es, Earlier))
  {
    if es != [] {
      SortKeepsDistinct(es[1..]);
      SortElements(es[1..], Earlier);
      InsertKeepsDistinct(es[0], Sort(es[1..], Earlier));
    }
  }

  lemma {:induction false} InsertKeepsDistinct(e: Entry, es: seq<Entry>)
    requires DistinctIds(es) && forall x | x in es :: x.response.id != e.response.id
    ensures DistinctIds(Insert(e, es, Earlier))
  {
    if es != [] && !Earlier(e, es[0]) {
      InsertKeepsDistinct(e, es[1..]);
      InsertElements(e, es[1..], Earlier);
      var rest := Insert(e, es[1..], Earlier);
      forall x | x in rest ensures x.response.id != es[0].response.id {
        assert x in multiset(rest);
        assert x == e || x in es[1..];
      }
    }
  }

  /** The outcome of one more entry decides which of the three collections it joins. */
  function Joins(e: Entry, sent: bool, outcome: Outcome): multiset<Response> {
    if OutcomeOf(e, sent) == outcome then multiset{e.response} else multiset{}
  }

  lemma RetainedIs(es: seq<Entry>, sends: seq<bool>)
    requires |sends| == |es| > 0
    ensures var n := |es| - 1; var kept := Retained(es[..n], sends[..n]);
      Retained(es, sends) ==
        if OutcomeOf(es[n], sends[n]) == Failed then kept + [es[n].(retryCount := es[n].retryCount + 1)] else kept
  {
    hide OutcomeOf;
    var kept := Retained(es[..|es| - 1], sends[..|es| - 1]);
    assert kept + [] == kept;
  }

  lemma RetainedStep(es: seq<Entry>, sends: seq<bool>)
    requires |sends| == |es| > 0
    ensures var n := |es| - 1; var kept := Retained(es[..n], sends[..n]);
      multiset(Responses(Retained(es, sends))) == multiset(Responses(kept)) + Joins(es[n], sends[n], Failed)
  {
    hide OutcomeOf, Responses, Retained;
    var n := |es| - 1;
    var kept, failed := Retained(es[..n], sends[..n]), es[n].(retryCount := es[n].retryCount + 1);
    RetainedIs(es, sends);
    if OutcomeOf(es[n], sends[n]) == Failed {
      AppendedResponse(kept, failed);
      assert Joins(es[n], sends[n], Failed) == multiset{failed.response};
    } else {
      assert Joins(es[n], sends[n], Failed) == multiset{};
    }
  }

  lemma AppendedResponse(es: seq<Entry>, e: Entry)
    ensures multiset(Responses(es + [e])) == multiset(Responses(es)) + multiset{e.response}
  {
    hide Responses;
    ResponsesConcat(es, [e]);
    ResponsesOfFew(e);
  }

  lemma EndedStep(es: seq<Entry>, sends: seq<bool>, outcome: Outcome)
    requires |sends| == |es| > 0
    ensures var n := |es| - 1;
      multiset(Ended(es, sends, outcome))
        == multiset(Ended(es[..n], sends[..n], outcome)) + Joins(es[n], sends[n], outcome)
  {
    hide OutcomeOf;
  }

  lemma ResponsesStep(es: seq<Entry>)
    requires es != []
    ensures var n := |es| - 1; multiset(Responses(es)) == multiset(Responses(es[..n])) + multiset{es[n].response}
  {
    hide Responses;
    SplitLast(es);
    ResponsesConcat(es[..|es| - 1], [es[|es| - 1]]);
    ResponsesOfFew(es[|es| - 1]);
  }

  lemma {:induction false} BatchSplits(es: seq<Entry>, sends: seq<bool>)
    requires |sends| == |es|
    ensures multiset(Responses(es)) == multiset(Responses(Retained(es, sends)))
      + multiset(Ended(es, sends, Sent)) + multiset(Ended(es, sends, SkippedEmpty))
  {
    if es != [] {
      hide OutcomeOf, Responses, Retained, Ended;
      var n := |es| - 1;
      BatchSplits(es[..n], sends[..n]);
      ResponsesStep(es);
      RetainedStep(es, sends);
      EndedStep(es, sends, Sent);
      EndedStep(es, sends, SkippedEmpty);
    }
  }

  lemma {:induction false} RetainedAreFromBatch(es: seq<Entry>, sends: seq<bool>)
    requires |sends| == |es| && DistinctIds(es)
    ensures |Retained(es, sends)| <= |es| && DistinctIds(Retained(es, sends))
    ensures forall x | x in Retained(es, sends) :: HasId(es, x.response.id)
  {
    hide OutcomeOf;
    if es != [] {
      var n := |es| - 1;
      RetainedAreFromBatch(es[..n], sends[..n]);
      forall x | x in Retained(es, sends) ensures HasId(es, x.response.id) {
        if x in Retained(es[..n], sends[..n]) {
          var i :| 0 <= i < n && es[..n][i].response.id == x.response.id;
          assert es[i].response.id == x.response.id;
        } else {
          assert es[n].response.id == x.response.id;
        }
      }
      forall x | x in Retained(es[..n], sends[..n]) ensures x.response.id != es[n].response.id {
        var i :| 0 <= i < n && es[..n][i].response.id == x.response.id;
        assert es[i].response.id != es[n].response.id;
      }
    }
  }

  lemma AppendNewId(es: seq<Entry>, e: Entry)
    requires DistinctIds(es) && !HasId(es, e.response.id)
    ensures DistinctIds(es + [e])
  {
    forall i | 0 <= i < |es| ensures es[i].response.id != e.response.id { assert !HasId(es, e.response.id); }
  }

  lemma EnqueueKeepsInv(o: Outbox, id: string, payload: string, now: int)
    requires Inv(o)
    ensures Inv(Enqueue(o, id, payload, now))
  {
    if !HasId(o.entries, id) {
      var e := Entry(Response(id, payload, now), 0);
      var es := o.entries + [e];
      hide Saved, Overflow, DistinctIds, HasId, Responses;
      AppendNewId(o.entries, e);
      SavingKeepsDistinct(es);
      SavingConserves(o, e);
    }
  }

  lemma SavingConserves(o: Outbox, e: Entry)
    requires Conserved(o)
    ensures var es := o.entries + [e];
      && |Saved(es)| <= MAX_ENTRIES
      && Conserved(o.(entries := Saved(es), accepted := o.accepted + [e.response],
        dropped := o.dropped + Responses(Overflow(es))))
  {
    hide Saved, Overflow, Responses;
    var es := o.entries + [e];
    SavingSplits(es);
    ResponsesConcat(o.entries, [e]);
    ResponsesOfFew(e);
    var r, kept, gone := e.response, Responses(Saved(es)), Responses(Overflow(es));
    assert multiset(Responses(o.entries)) + multiset{r} == multiset(kept) + multiset(gone) by {
      assert Responses(es) == Responses(o.entries) + [r];
    }
    assert multiset(o.accepted + [r]) == multiset(o.accepted) + multiset{r};
    assert multiset(o.dropped + gone) == multiset(o.dropped) + multiset(gone);
    Regroup(multiset(o.accepted), multiset(Responses(o.entries)), multiset(o.delivered), multiset(o.skipped),
            multiset(o.dropped), multiset{r}, multiset(kept), multiset(gone));
  }

  lemma Regroup<T>(a: multiset<T>, e: multiset<T>, d: multiset<T>, s: multiset<T>, x: multiset<T>,
                   r: multiset<T>, k: multiset<T>, g: multiset<T>)
    requires a == e + d + s + x && e + r == k + g
    ensures a + r == k + d + s + (x + g)
  {
    assert a + r == (e + r) + d + s + x;
  }

  lemma FlushEffect(o: Outbox, sends: seq<bool>)
    requires Inv(o) && |sends| == |Batch(o.entries)|
    ensures var batch := Batch(o.entries);
      Flush(o, sends) == Outbox(Retained(batch, sends) + o.entries[|batch|..], o.accepted,
                                o.delivered + Ended(batch, sends, Sent), o.skipped + Ended(batch, sends, SkippedEmpty),
                                  o.dropped)
    ensures |Flush(o, sends).entries| <= |o.entries| && DistinctIds(Flush(o, sends).entries)
  {
    hide Retained, Ended;
    var batch := Batch(o.entries);
    var rest, retained := o.entries[|batch|..], Retained(batch, sends);
    assert DistinctIds(batch);
    RetainedAreFromBatch(batch, sends);
    forall x, j | x in retained && 0 <= j < |rest| ensures x.response.id != rest[j].response.id {
      var i :| 0 <= i < |batch| && batch[i].response.id == x.response.id;
      assert o.entries[i].response.id != o.entries[|batch| + j].response.id;
    }
    assert Responses([]) == [] && o.dropped + [] == o.dropped;
  }

  lemma FlushKeepsInv(o: Outbox, sends: seq<bool>)
    requires Inv(o) && |sends| == |Batch(o.entries)|
    ensures Inv(Flush(o, sends))
  {
    FlushEffect(o, sends);
    hide Flush, Retained, Ended, DistinctIds;
    var batch := Batch(o.entries);
    var rest := o.entries[|batch|..];
    assert o.entries == batch + rest;
    BatchSplits(batch, sends);
    ResponsesConcat(batch, rest);
    ResponsesConcat(Retained(batch, sends), rest);
  }

  /** Over every history of enqueues and flushes, whatever the sends do: every response that was accepted is in exactly
      one of pending, delivered, skipped or dropped; the list never exceeds its limit; ids stay distinct. */
  lemma {:induction false} HistoryKeepsInv(os: seq<Outbox>, es: seq<Event>, n: nat)
    requires IsHistory(os, es) && n <= |es|
    ensures Inv(os[n])
  {
    if n > 0 {
      HistoryKeepsInv(os, es, n - 1);
      assert os[(n - 1) + 1] == Next(os[n - 1], es[n - 1]);
      match es[n - 1]
      case Queued(id, payload, now) => EnqueueKeepsInv(os[n - 1], id, payload, now);
      case Flushed(sends) => FlushKeepsInv(os[n - 1], sends);
    }
  }

  /** The first payload of an id wins while it is pending; a new id is accepted, and only overflow can push anything
      out: at most one entry, none queued later than any that stays. */
  lemma EnqueueEffect(o: Outbox, id: string, payload: string, now: int)
    requires Inv(o)
    ensures var o' := Enqueue(o, id, payload, now);
      && (HasId(o.entries, id) ==> o' == o)
      && (!HasId(o.entries, id) ==> o'.accepted == o.accepted + [Response(id, payload, now)])
      && (!HasId(o.entries, id) && |o.entries| < 200 ==>
            o'.entries == o.entries + [Entry(Response(id, payload, now), 0)] && o'.dropped == o.dropped)
      && (!HasId(o.entries, id) && |o.entries| == 200 ==>
            |o'.entries| == 200 && |o'.dropped| == |o.dropped| + 1
            && forall k | k in o'.entries :: o'.dropped[|o.dropped|].queuedAt <= k.response.queuedAt)
  {
    var e := Entry(Response(id, payload, now), 0);
    var es := o.entries + [e];
    SavingSplits(es);
    SortElements(es, Earlier);
    assert o.dropped + Responses([]) == o.dropped;
    if |o.entries| == MAX_ENTRIES {
      var gone := Overflow(es)[0];
      assert Responses(Overflow(es))[0] == gone.response;
      forall k | k in Saved(es) ensures gone.response.queuedAt <= k.response.queuedAt { OverflowIsOldest(es, gone, k); }
    }
  }

  // ---- What becomes of each entry in a flush ----

  /** The batch is the first ten entries, or all if there are no more than ten. */
  lemma BatchIsFirstTen(es: seq<Entry>)
    ensures |Batch(es)| == (if |es| < 10 then |es| else 10)
    ensures forall i | 0 <= i < |Batch(es)| :: Batch(es)[i] == es[i]
  {
  }

  /** The place of entry `i` of the batch among those that stay. */
  function PlaceIn(es: seq<Entry>, sends: seq<bool>, i: nat): nat
    requires |sends| == |es| && i <= |es|
  {
    |Retained(es[..i], sends[..i])|
  }

  lemma {:induction false} PlaceOfKept(es: seq<Entry>, sends: seq<bool>, i: nat, n: nat)
    requires |sends| == |es| && i < n <= |es|
    ensures PlaceIn(es, sends, i) <= PlaceIn(es, sends, n) <= PlaceIn(es, sends, i) + (n - i)
    ensures es[i].response.payload != "" && !sends[i] ==>
      && PlaceIn(es, sends, i) < PlaceIn(es, sends, n)
      && Retained(es[..n], sends[..n])[PlaceIn(es, sends, i)] == es[i].(retryCount := es[i].retryCount + 1)
  {
    assert es[..n][..n - 1] == es[..n - 1] && sends[..n][..n - 1] == sends[..n - 1];
    if i < n - 1 { PlaceOfKept(es, sends, i, n - 1); }
  }

  lemma {:induction false} RetainedFailed(es: seq<Entry>, sends: seq<bool>, x: Entry)
    requires |sends| == |es| && x in Retained(es, sends)
    ensures exists i :: 0 <= i < |es| && es[i].response == x.response && es[i].response.payload != "" && !sends[i]
  {
    var n := |es| - 1;
    if x in Retained(es[..n], sends[..n]) {
      RetainedFailed(es[..n], sends[..n], x);
      var i :| 0 <= i < n && es[..n][i].response == x.response && es[..n][i].response.payload != "" && !sends[..n][i];
      assert es[i].response == x.response && !sends[i];
    }
  }

  lemma {:induction false} EndedAre(es: seq<Entry>, sends: seq<bool>, i: nat)
    requires |sends| == |es| && i < |es|
    ensures es[i].response.payload == "" ==> es[i].response in Ended(es, sends, SkippedEmpty)
    ensures es[i].response.payload != "" && sends[i] ==> es[i].response in Ended(es, sends, Sent)
  {
    var n := |es| - 1;
    if i < n { EndedAre(es[..n], sends[..n], i); }
  }

  lemma FlushedEntries(o: Outbox, sends: seq<bool>)
    requires Inv(o) && |sends| == |Batch(o.entries)|
    ensures var batch, o' := Batch(o.entries), Flush(o, sends);
      && o'.entries == Retained(batch, sends) + o.entries[|batch|..]
      && o'.delivered == o.delivered + Ended(batch, sends, Sent)
      && o'.skipped == o.skipped + Ended(batch, sends, SkippedEmpty)
  {
    hide Retained, Ended, Conserved, DistinctIds;
    FlushEffect(o, sends);
  }

  /** What a flush makes of each entry. Beyond the first ten an entry stays as it is. Of the first ten, one whose send
      fails stays with one more retry counted; one that is sent leaves the list as delivered; one without a payload
      leaves it without being sent. */
  lemma FlushFate(o: Outbox, sends: seq<bool>, i: nat)
    requires Inv(o) && |sends| == (if |o.entries| < 10 then |o.entries| else 10) && i < |o.entries|
    ensures |sends| == |Batch(o.entries)|
    ensures var e, o' := o.entries[i], Flush(o, sends);
      && (i >= 10 ==> e in o'.entries)
      && (i < 10 && e.response.payload != "" && !sends[i] ==> e.(retryCount := e.retryCount + 1) in o'.entries)
      && (i < 10 && e.response.payload != "" && sends[i] ==>
            e.response in o'.delivered && !HasId(o'.entries, e.response.id))
      && (i < 10 && e.response.payload == "" ==> e.response in o'.skipped && !HasId(o'.entries, e.response.id))
  {
    BatchIsFirstTen(o.entries);
    FlushedEntries(o, sends);
    var batch := Batch(o.entries);
    hide Flush, Retained, Ended, Inv, Batch;
    if i < 10 {
      assert batch[..|batch|] == batch && sends[..|batch|] == sends;
      PlaceOfKept(batch, sends, i, |batch|);
      EndedAre(batch, sends, i);
      if batch[i].response.payload == "" || sends[i] { GoneFromList(o, sends, i); }
    } else {
      assert o.entries[|batch|..][i - |batch|] == o.entries[i];
    }
  }

  lemma GoneFromList(o: Outbox, sends: seq<bool>, i: nat)
    requires Inv(o) && |sends| == |Batch(o.entries)| && i < |Batch(o.entries)|
    requires o.entries[i].response.payload == "" || sends[i]
    ensures !HasId(Flush(o, sends).entries, o.entries[i].response.id)
  {
    FlushedEntries(o, sends);
    BatchIsFirstTen(o.entries);
    hide Flush, Retained, Ended, Batch, Conserved;
    var batch, es, id := Batch(o.entries), Flush(o, sends).entries, o.entries[i].response.id;
    var kept := Retained(batch, sends);
    forall k | 0 <= k < |es| ensures es[k].response.id != id {
      if k < |kept| {
        assert kept[k] in kept;
        RetainedFailed(batch, sends, kept[k]);
        var j :| 0 <= j < |batch| && batch[j].response == kept[k].response && batch[j].response.payload != ""
          && !sends[j];
        OthersDiffer(o.entries, i, j);
      } else {
        OthersDiffer(o.entries, i, k - |kept| + |batch|);
      }
    }
  }

  lemma OthersDiffer(es: seq<Entry>, i: int, j: int)
    requires DistinctIds(es) && 0 <= i < |es| && 0 <= j < |es| && i != j
    ensures es[i].response.id != es[j].response.id
  {
  }

  predicate InFront(es: seq<Entry>, x: Response, y: Response) {
    exists a, b | 0 <= a < b < |es| :: es[a].response == x && es[b].response == y
  }

  /** A flush keeps the order: of two entries that stay, the one that was in front still is. */
  lemma FlushKeepsOrder(o: Outbox, sends: seq<bool>, i: nat, j: nat)
    requires Inv(o) && |sends| == |Batch(o.entries)| && i < j < |o.entries|
    requires i < |sends| ==> o.entries[i].response.payload != "" && !sends[i]
    requires j < |sends| ==> o.entries[j].response.payload != "" && !sends[j]
    ensures InFront(Flush(o, sends).entries, o.entries[i].response, o.entries[j].response)
  {
    FlushedEntries(o, sends);
    BatchIsFirstTen(o.entries);
    var batch, es := Batch(o.entries), Flush(o, sends).entries;
    hide Flush, Retained, Ended, Batch, Inv;
    var n, kept := |batch|, |Retained(batch, sends)|;
    assert batch[..n] == batch && sends[..n] == sends;
    if i < n { PlaceOfKept(batch, sends, i, n); }
    if j < n {
      PlaceOfKept(batch, sends, j, n);
      PlaceOfKept(batch, sends, i, j);
    }
    var a := if i < n then PlaceIn(batch, sends, i) else kept + i - n;
    var b := if j < n then PlaceIn(batch, sends, j) else kept + j - n;
    assert es[a].response == o.entries[i].response && es[b].response == o.entries[j].response;
  }

  // ---- Draining ----

  ghost predicate InQueueOrder(es: seq<Entry>) {
    SortedBy(es, Earlier)
  }

  /** With queue times that never go back, the list stays in insertion order and overflow drops its head. */
  lemma EnqueueKeepsOrder(o: Outbox, id: string, payload: string, now: int)
    requires Inv(o) && InQueueOrder(o.entries) && forall e | e in o.entries :: e.response.queuedAt <= now
    ensures var o' := Enqueue(o, id, payload, now);
      && InQueueOrder(o'.entries)
      && (!HasId(o.entries, id) && |o.entries| == 200 ==>
            o'.entries == o.entries[1..] + [Entry(Response(id, payload, now), 0)])
  {
    var es := o.entries + [Entry(Response(id, payload, now), 0)];
    assert SortedBy(es, Earlier) by {
      hide Saved, Overflow, DistinctIds, Conserved;
      forall i, j | 0 <= i < j < |es| ensures Earlier(es[i], es[j]) {
        assert o.entries[i] in o.entries;
      }
    }
    SavingInOrder(es);
    hide Saved, Overflow, DistinctIds, Conserved;
  }

  function AllSent(n: nat): (sends: seq<bool>)
    ensures |sends| == n
  {
    seq(n, _ => true)
  }

  /** `k` flushes in a row, all of whose sends succeed. */
  function Drained(o: Outbox, k: nat): Outbox {
    if k == 0 then o else var before := Drained(o, k - 1); Flush(before, AllSent(|Batch(before.entries)|))
  }

  /** The non-empty responses of a list, in order: what draining it sends. */
  function NonEmpty(es: seq<Entry>): seq<Response> {
    Ended(es, AllSent(|es|), Sent)
  }

  lemma {:induction false} NothingRetained(es: seq<Entry>)
    ensures Retained(es, AllSent(|es|)) == []
  {
    if es != [] {
      assert AllSent(|es|)[..|es| - 1] == AllSent(|es| - 1);
      NothingRetained(es[..|es| - 1]);
    }
  }

  lemma {:induction false} NonEmptyConcat(a: seq<Entry>, b: seq<Entry>)
    ensures NonEmpty(a + b) == NonEmpty(a) + NonEmpty(b)
  {
    if b == [] {
      assert a + b == a;
    } else {
      var n := |b| - 1;
      NonEmptyConcat(a, b[..n]);
      assert (a + b)[..|a| + n] == a + b[..n] && AllSent(|a| + |b|)[..|a| + n] == AllSent(|a| + n)
        && AllSent(|b|)[..n] == AllSent(n);
    }
  }

  function Min(a: nat, b: nat): (m: nat)
    ensures m <= a && m <= b && (m == a || m == b)
  {
    if a < b then a else b
  }

  /** `o'` is `o` after its first `n` entries have been sent in insertion order. */
  predicate SentFirst(o: Outbox, o': Outbox, n: nat)
    requires n <= |o.entries|
  {
    && o'.entries == o.entries[n..] && o'.delivered == o.delivered + NonEmpty(o.entries[..n])
    && o'.dropped == o.dropped && o'.accepted == o.accepted
  }

  lemma NothingSent(o: Outbox)
    ensures SentFirst(o, o, 0)
  {
    assert o.entries[..0] == [] && o.entries[0..] == o.entries && o.delivered + [] == o.delivered;
  }

  /** After k successful flushes the first 10k entries are gone and have been sent in insertion order. */
  lemma {:induction false} DrainsInOrder(o: Outbox, k: nat)
    requires Inv(o)
    ensures Inv(Drained(o, k)) && SentFirst(o, Drained(o, k), Min(k * 10, |o.entries|))
  {
    hide Flush, Batch, AllSent, Inv, NonEmpty, SentFirst;
    if k == 0 {
      NothingSent(o);
    } else {
      DrainsInOrder(o, k - 1);
      var m := Min((k - 1) * BATCH_SIZE, |o.entries|);
      assert Min(k * BATCH_SIZE, |o.entries|) == Min(m + BATCH_SIZE, |o.entries|);
      DrainStep(o, Drained(o, k - 1), m);
    }
  }

  lemma FlushAllSent(o: Outbox)
    requires Inv(o)
    ensures var batch := Batch(o.entries); var o' := Flush(o, AllSent(|batch|));
      && Inv(o') && o'.entries == o.entries[|batch|..] && o'.delivered == o.delivered + NonEmpty(batch)
      && o'.dropped == o.dropped && o'.accepted == o.accepted
  {
    var batch := Batch(o.entries);
    FlushEffect(o, AllSent(|batch|));
    FlushKeepsInv(o, AllSent(|batch|));
    hide Flush, Inv, Ended, AllSent, Retained;
    NothingRetained(batch);
    assert [] + o.entries[|batch|..] == o.entries[|batch|..];
  }

  lemma NextBatch(es: seq<Entry>, m: nat)
    requires m <= |es|
    ensures var n := Min(m + BATCH_SIZE, |es|); var batch := Batch(es[m..]);
      es[m..][|batch|..] == es[n..] && es[..m] + batch == es[..n]
  {
    assert Batch(es[m..]) == es[m..Min(m + BATCH_SIZE, |es|)];
  }

  lemma DrainStep(o: Outbox, before: Outbox, m: nat)
    requires Inv(before) && m <= |o.entries| && SentFirst(o, before, m)
    ensures var o' := Flush(before, AllSent(|Batch(before.entries)|));
      Inv(o') && SentFirst(o, o', Min(m + BATCH_SIZE, |o.entries|))
  {
    hide Flush, Inv, Batch, Min, NonEmpty, AllSent;
    var first, batch := o.entries[..m], Batch(before.entries);
    FlushAllSent(before);
    NextBatch(o.entries, m);
    NonEmptyConcat(first, batch);
    assert o.delivered + NonEmpty(first) + NonEmpty(batch) == o.delivered + (NonEmpty(first) + NonEmpty(batch));
  }

  /** If every send succeeds, n entries are drained by exactly ceil(n / 10) flushes: that many empty the list, and no
      fewer. */
  lemma DrainedExactlyAfter(o: Outbox, k: nat)
    requires Inv(o)
    ensures Drained(o, k).entries == [] <==> k >= (|o.entries| + 9) / 10
    ensures Drained(o, k).entries == [] ==> Drained(o, k).delivered == o.delivered + NonEmpty(o.entries)
  {
    DrainsInOrder(o, k);
    assert o.entries[..|o.entries|] == o.entries;
  }

  // ---- A flush that enqueues overtake ----

  datatype Queueing = Queueing(id: string, payload: string, now: int)

  function EnqueueAll(o: Outbox, queued: seq<Queueing>): Outbox {
    if queued == [] then o
    else
      var n := |queued| - 1;
      Enqueue(EnqueueAll(o, queued[..n]), queued[n].id, queued[n].payload, queued[n].now)
  }

  /** The list file after a flush that read it as it is in `o`, when `queued` were enqueued while it was sending: it
      writes back what it read, less what was delivered. Having read nothing it sends nothing and writes nothing. */
  function EntriesAfterFlush(o: Outbox, sends: seq<bool>, queued: seq<Queueing>): seq<Entry>
    requires |sends| == |Batch(o.entries)|
  {
    if o.entries == [] then EnqueueAll(o, queued).entries else Flush(o, sends).entries
  }

  /** With nothing enqueued in between this is the flush in one step. */
  lemma UndisturbedFlush(o: Outbox, sends: seq<bool>)
    requires |sends| == |Batch(o.entries)|
    ensures EntriesAfterFlush(o, sends, []) == Flush(o, sends).entries
  {
    if o.entries == [] { FlushEmpty(o, sends); }
  }

  /** A response enqueued while a flush is sending is pending afterwards exactly when the flush had read an empty list:
      otherwise what the flush writes back overwrites it, whether its sends succeed or not. */
  lemma OvertakingSurvivesExactlyWhen(o: Outbox, sends: seq<bool>, queued: seq<Queueing>, e: Entry)
    requires Inv(o) && |sends| == |Batch(o.entries)|
    requires e in EnqueueAll(o, queued).entries && !HasId(o.entries, e.response.id)
    ensures HasId(EntriesAfterFlush(o, sends, queued), e.response.id) <==> o.entries == []
    ensures e in EntriesAfterFlush(o, sends, queued) <==> o.entries == []
  {
    hide Enqueue;
    EntryHasId(EnqueueAll(o, queued).entries, e);
    if o.entries != [] {
      var es := Flush(o, sends).entries;
      if HasId(es, e.response.id) { FlushedIdsWereThere(o, sends, e.response.id); }
      hide Flush, Inv;
      if e in es { EntryHasId(es, e); }
    }
  }

  lemma EntryHasId(es: seq<Entry>, e: Entry)
    requires e in es
    ensures HasId(es, e.response.id)
  {
    var i :| 0 <= i < |es| && es[i] == e;
    assert es[i].response.id == e.response.id;
  }

  lemma FlushedIdsWereThere(o: Outbox, sends: seq<bool>, id: string)
    requires Inv(o) && |sends| == |Batch(o.entries)| && HasId(Flush(o, sends).entries, id)
    ensures HasId(o.entries, id)
  {
    FlushEffect(o, sends);
    var batch := Batch(o.entries);
    assert DistinctIds(batch) && o.entries == batch + o.entries[|batch|..];
    RetainedAreFromBatch(batch, sends);
    hide Flush, Retained, Ended, Conserved, DistinctIds, Batch;
    OneOfTheTwo(batch, Retained(batch, sends), o.entries[|batch|..], id);
  }

  lemma OneOfTheTwo(batch: seq<Entry>, retained: seq<Entry>, rest: seq<Entry>, id: string)
    requires HasId(retained + rest, id) && forall x | x in retained :: HasId(batch, x.response.id)
    ensures HasId(batch + rest, id)
  {
    var i :| 0 <= i < |retained + rest| && (retained + rest)[i].response.id == id;
    if i < |retained| {
      assert retained[i] in retained;
      var j :| 0 <= j < |batch| && batch[j].response.id == id;
      assert (batch + rest)[j].response.id == id;
    } else {
      assert (batch + rest)[|batch| + (i - |retained|)].response.id == id;
    }
  }
}
