/** Message framing over the agent's WebSocket (client_new/server/agent_server.py): payloads are split into frames and
    put together again per request id, however the frames of different requests interleave. */
module MessageFrames {
  import opened PyJson

  const DEFAULT_MESSAGE_SIZE: int := 5 * 1024

  datatype Frame = Frame(requestId: string, index: nat, total: nat, data: string, finished: bool)

  /** `clamp_message_size`; None stands for a value that does not convert to an integer. */
  function ClampMessageSize(value: Option<int>): (size: nat)
    ensures size >= 1024
  {
    var size := if value.Some? then value.value else DEFAULT_MESSAGE_SIZE;
    if size < 1024 then 1024 else size
  }

  function SplitFrom(payload: string, size: nat): seq<string>
    requires size > 0
    decreases |payload|
  {
    if |payload| <= size then [payload] else [payload[..size]] + SplitFrom(payload[size..], size)
  }

  function SplitPayload(payload: string, chunkSize: Option<int>): seq<string> {
    SplitFrom(payload, ClampMessageSize(chunkSize))
  }

  function FramesFor(requestId: string, chunks: seq<string>): seq<Frame> {
    seq(|chunks|, i requires 0 <= i < |chunks| => Frame(requestId, i, |chunks|, chunks[i], i == |chunks| - 1))
  }

  /** The split loop: the payload is cut at every multiple of the chunk size; an empty payload is one empty chunk. */
  method Split(payload: string, chunkSize: Option<int>) returns (chunks: seq<string>)
    ensures chunks == SplitPayload(payload, chunkSize)
  {
    var safeChunkSize := ClampMessageSize(chunkSize);
    if payload == "" {
      return [""];
    }
    chunks := [];
    var i := 0;
    assert SplitRest(payload, |payload|, safeChunkSize) == [];
    assert payload[0..] == payload;
    hide SplitFrom;
    while i < |payload|
      invariant 0 <= i
      invariant chunks + SplitRest(payload, i, safeChunkSize) == SplitFrom(payload, safeChunkSize)
    {
      SplitRestStep(payload, i, safeChunkSize);
      hide SplitRest;
      var end := if i + safeChunkSize < |payload| then i + safeChunkSize else |payload|;
      ghost var before := chunks;
      chunks := chunks + [payload[i..end]];
      i := i + safeChunkSize;
      assert before + ([payload[i - safeChunkSize..end]] + SplitRest(payload, i, safeChunkSize))
          == chunks + SplitRest(payload, i, safeChunkSize);
    }
  }

  /** The chunks still to come when the cut stands at `i`. */
  function SplitRest(payload: string, i: nat, size: nat): seq<string>
    requires size > 0
  {
    if i < |payload| then SplitFrom(payload[i..], size) else []
  }

  lemma SplitRestStep(payload: string, i: nat, size: nat)
    requires size > 0 && i < |payload|
    ensures var end := if i + size < |payload| then i + size else |payload|;
      SplitRest(payload, i, size) == [payload[i..end]] + SplitRest(payload, i + size, size)
  {
    var rest := payload[i..];
    if size < |rest| {
      assert rest[..size] == payload[i..i + size] && rest[size..] == payload[i + size..];
    } else {
      assert rest == payload[i..|payload|];
    }
  }

  method SendChunkedMessage(payload: string, maxSize: Option<int>, requestId: string) returns (frames: seq<Frame>)
    ensures frames == FramesFor(requestId, SplitPayload(payload, maxSize))
  {
    var chunks := Split(payload, maxSize);
    frames := [];
    for idx := 0 to |chunks|
      invariant frames == FramesFor(requestId, chunks)[..idx]
    {
      frames := frames + [Frame(requestId, idx, |chunks|, chunks[idx], idx == |chunks| - 1)];
    }
  }

  function Joined(chunks: seq<string>): string {
    if chunks == [] then "" else chunks[0] + Joined(chunks[1..])
  }

  /** Splitting loses nothing, every chunk fits, and only the last may be shorter than the limit. */
  lemma {:induction false} SplitFromJoins(payload: string, size: nat)
    requires size > 0
    ensures var chunks := SplitFrom(payload, size);
      && Joined(chunks) == payload && chunks != []
      && (forall i | 0 <= i < |chunks| :: |chunks[i]| <= size)
      && (forall i | 0 <= i < |chunks| - 1 :: |chunks[i]| == size)
    decreases |payload|
  {
    var chunks := SplitFrom(payload, size);
    if |payload| > size {
      SplitFromJoins(payload[size..], size);
      assert chunks[1..] == SplitFrom(payload[size..], size);
      assert payload[..size] + payload[size..] == payload;
    } else {
      assert chunks[1..] == [] && payload + "" == payload;
    }
  }

  /** Every frame of a message is at most max(1024, size) long, exactly the last one is marked finished, and the
      frames together carry the payload. */
  lemma FramesOfPayload(requestId: string, payload: string, maxSize: Option<int>)
    ensures var frames := FramesFor(requestId, SplitPayload(payload, maxSize)); var limit := ClampMessageSize(maxSize);
      && frames != [] && Joined(SplitPayload(payload, maxSize)) == payload
      && (forall i | 0 <= i < |frames| :: frames[i].requestId == requestId && |frames[i].data| <= limit)
      && (forall i | 0 <= i < |frames| :: frames[i].finished <==> i == |frames| - 1)
      && (maxSize.Some? ==> limit == (if maxSize.value < 1024 then 1024 else maxSize.value))
  {
    SplitFromJoins(payload, ClampMessageSize(maxSize));
  }

  lemma {:induction false} SplitAt(payload: string, size: nat, i: nat)
    requires size > 0 && i < |SplitFrom(payload, size)|
    ensures var n := |SplitFrom(payload, size)|;
      && i * size <= |payload|
      && (i < n - 1 ==> (i + 1) * size < |payload| && SplitFrom(payload, size)[i] == payload[i * size..(i + 1) * size])
      && (i == n - 1 ==> |payload| <= (i + 1) * size && SplitFrom(payload, size)[i] == payload[i * size..])
    decreases |payload|
  {
    var chunks := SplitFrom(payload, size);
    if i > 0 {
      var rest := payload[size..];
      SplitAt(rest, size, i - 1);
      assert chunks[i] == SplitFrom(rest, size)[i - 1];
      assert i * size == (i - 1) * size + size && (i + 1) * size == i * size + size;
      assert rest[(i - 1) * size..] == payload[i * size..];
      if i < |chunks| - 1 { assert rest[(i - 1) * size..i * size] == payload[i * size..(i + 1) * size]; }
    } else {
      assert payload[0..] == payload && payload[0..|payload|] == payload;
    }
  }

  /** What is on the wire, told by the payload: each frame carries its request id, its number, how many there are, and
      the characters from its number times the limit on, as many as the limit, the last one what is left; the last one,
      and no other, is marked finished. The limit is the size asked for, 5120 if none can be read, and never below 1024.
  */
  lemma FrameAt(requestId: string, payload: string, maxSize: Option<int>, limit: nat, i: nat)
    requires maxSize.Some? && maxSize.value >= 1024 ==> limit == maxSize.value
    requires maxSize.Some? && maxSize.value < 1024 ==> limit == 1024
    requires maxSize == None ==> limit == 5120
    requires i < |FramesFor(requestId, SplitPayload(payload, maxSize))|
    ensures var frames := FramesFor(requestId, SplitPayload(payload, maxSize)); var n := |frames|;
      && frames[i].requestId == requestId && frames[i].index == i && frames[i].total == n
      && i * limit <= |payload|
      && (i < n - 1 ==> (i + 1) * limit < |payload| && !frames[i].finished
                        && frames[i].data == payload[i * limit..(i + 1) * limit])
      && (i == n - 1 ==> |payload| <= (i + 1) * limit && frames[i].finished
                         && frames[i].data == payload[i * limit..])
  {
    SplitAt(payload, limit, i);
    hide SplitFrom;
  }

  // ---- Reassembly ----

  type Buffer = map<string, string>

  datatype Dispatch = Dispatch(requestId: string, payload: string)

  /** What has arrived for a request so far: the buffer is a default dictionary of empty texts. */
  function Pending(buffer: Buffer, id: string): string {
    if id in buffer then buffer[id] else ""
  }

  datatype Receiver = Receiver(buffer: Buffer, dispatched: seq<Dispatch>)

  function HandleFrame(r: Receiver, f: Frame): Receiver {
    var text := Pending(r.buffer, f.requestId) + f.data;
    if f.finished then Receiver(r.buffer - {f.requestId}, r.dispatched + [Dispatch(f.requestId, text)])
    else r.(buffer := r.buffer[f.requestId := text])
  }

  class ChunkReceiver {
    var requestAllChunk: Buffer
    ghost var dispatched: seq<Dispatch>

    ghost function State(): Receiver
      reads this
    {
      Receiver(requestAllChunk, dispatched)
    }

    /** Gives the complete request when the last frame arrives. */
    method HandleMessageChunk(f: Frame) returns (request: Option<string>)
      modifies this
      ensures State() == HandleFrame(old(State()), f)
      ensures request == if f.finished then Some(dispatched[|dispatched| - 1].payload) else None
    {
      requestAllChunk := requestAllChunk[f.requestId := Pending(requestAllChunk, f.requestId) + f.data];
      if !f.finished {
        return None;
      }
      request := Some(requestAllChunk[f.requestId]);
      requestAllChunk := requestAllChunk - {f.requestId};
      dispatched := dispatched + [Dispatch(f.requestId, request.value)];
    }
  }

  function HandleAll(r: Receiver, wire: seq<Frame>): Receiver {
    if wire == [] then r else HandleFrame(HandleAll(r, wire[..|wire| - 1]), wire[|wire| - 1])
  }

  /** The frames of one request, in the order they arrive. */
  function Of(wire: seq<Frame>, id: string): seq<Frame> {
    if wire == [] then []
    else Of(wire[..|wire| - 1], id) + (if wire[|wire| - 1].requestId == id then [wire[|wire| - 1]] else [])
  }

  /** The dispatched payloads of one request, in order. */
  function PayloadsOf(ds: seq<Dispatch>, id: string): seq<string> {
    if ds == [] then []
    else PayloadsOf(ds[..|ds| - 1], id) + (if ds[|ds| - 1].requestId == id then [ds[|ds| - 1].payload] else [])
  }

  /** What a receiver looks like from one request: its entry in the buffer and the payloads dispatched. */
  datatype View = View(entry: Option<string>, payloads: seq<string>) {
    function Text(): string { if entry.Some? then entry.value else "" }
  }

  function ViewOf(r: Receiver, id: string): View {
    View(if id in r.buffer then Some(r.buffer[id]) else None, PayloadsOf(r.dispatched, id))
  }

  lemma HandleFrameView(r: Receiver, f: Frame, id: string)
    ensures ViewOf(HandleFrame(r, f), id) == if f.requestId == id then Seen(ViewOf(r, id), f) else ViewOf(r, id)
  {
    var r' := HandleFrame(r, f);
    if f.finished {
      assert r'.dispatched[..|r'.dispatched| - 1] == r.dispatched;
    }
  }

  /** One frame of the request itself. */
  function Seen(v: View, f: Frame): View {
    if f.finished then View(None, v.payloads + [v.Text() + f.data]) else v.(entry := Some(v.Text() + f.data))
  }

  function SeenAll(v: View, fs: seq<Frame>): View {
    if fs == [] then v else Seen(SeenAll(v, fs[..|fs| - 1]), fs[|fs| - 1])
  }

  /** A request sees only its own frames: whatever is interleaved with them makes no difference to it. */
  lemma {:induction false} OthersDoNotMatter(r: Receiver, wire: seq<Frame>, id: string)
    ensures ViewOf(HandleAll(r, wire), id) == SeenAll(ViewOf(r, id), Of(wire, id))
  {
    hide ViewOf;
    if wire != [] {
      var init, f := wire[..|wire| - 1], wire[|wire| - 1];
      OthersDoNotMatter(r, init, id);
      HandleFrameView(HandleAll(r, init), f, id);
      if f.requestId == id {
        assert Of(wire, id)[..|Of(wire, id)| - 1] == Of(init, id);
      } else {
        assert Of(wire, id) == Of(init, id);
      }
    }
  }

  lemma {:induction false} SeenConcat(v: View, a: seq<Frame>, b: seq<Frame>)
    ensures SeenAll(v, a + b) == SeenAll(SeenAll(v, a), b)
  {
    if b == [] {
      assert a + b == a;
    } else {
      SeenConcat(v, a, b[..|b| - 1]);
      assert (a + b)[..|a + b| - 1] == a + b[..|b| - 1];
    }
  }

  lemma JoinedCons(c: string, rest: seq<string>)
    ensures Joined([c] + rest) == c + Joined(rest)
  {
    assert ([c] + rest)[1..] == rest;
  }

  lemma {:induction false} JoinedAppend(chunks: seq<string>, c: string)
    ensures Joined(chunks + [c]) == Joined(chunks) + c
  {
    if chunks == [] {
      JoinedCons(c, []);
      assert [] + [c] == [c] + [] && Joined([]) == "" && "" + c == c + "";
    } else {
      var first, rest := chunks[0], chunks[1..];
      hide Joined;
      JoinedAppend(rest, c);
      JoinedCons(first, rest);
      JoinedCons(first, rest + [c]);
      assert chunks == [first] + rest && chunks + [c] == [first] + (rest + [c]);
      assert first + (Joined(rest) + c) == (first + Joined(rest)) + c;
    }
  }

  lemma JoinedInit(chunks: seq<string>)
    requires chunks != []
    ensures Joined(chunks) == Joined(chunks[..|chunks| - 1]) + chunks[|chunks| - 1]
  {
    JoinedAppend(chunks[..|chunks| - 1], chunks[|chunks| - 1]);
    assert chunks == chunks[..|chunks| - 1] + [chunks[|chunks| - 1]];
  }

  lemma {:induction false} SeesUnfinished(v: View, frames: seq<Frame>, chunks: seq<string>)
    requires |frames| == |chunks| && forall i | 0 <= i < |frames| :: frames[i].data == chunks[i] && !frames[i].finished
    ensures SeenAll(v, frames).Text() == v.Text() + Joined(chunks) && SeenAll(v, frames).payloads == v.payloads
  {
    if frames == [] {
      assert v.Text() + "" == v.Text();
    } else {
      var n := |frames| - 1;
      SeesUnfinished(v, frames[..n], chunks[..n]);
      JoinedInit(chunks);
      hide Joined;
      assert v.Text() + Joined(chunks[..n]) + chunks[n] == v.Text() + Joined(chunks);
    }
  }

  lemma SeesMessage(v: View, id: string, payload: string, maxSize: Option<int>)
    requires v.entry == None
    ensures SeenAll(v, FramesFor(id, SplitPayload(payload, maxSize))) == View(None, v.payloads + [payload])
  {
    var chunks := SplitPayload(payload, maxSize);
    var frames := FramesFor(id, chunks);
    FramesOfPayload(id, payload, maxSize);
    var n := |frames| - 1;
    hide SplitPayload, Joined;
    SeesUnfinished(v, frames[..n], chunks[..n]);
    JoinedInit(chunks);
    assert "" + Joined(chunks[..n]) == Joined(chunks[..n]);
  }

  /** A message: its payload and the size limit in force when it was split. */
  datatype Message = Message(payload: string, maxSize: Option<int>)

  /** The frames of several messages sent one after the other under one request id. */
  function Stream(id: string, ms: seq<Message>): seq<Frame> {
    if ms == [] then []
    else Stream(id, ms[..|ms| - 1]) + FramesFor(id, SplitPayload(ms[|ms| - 1].payload, ms[|ms| - 1].maxSize))
  }

  function Payloads(ms: seq<Message>): seq<string> {
    seq(|ms|, i requires 0 <= i < |ms| => ms[i].payload)
  }

  lemma {:induction false} SeesStream(v: View, id: string, ms: seq<Message>)
    requires v.entry == None
    ensures SeenAll(v, Stream(id, ms)) == View(None, v.payloads + Payloads(ms))
  {
    hide SplitPayload, FramesFor;
    if ms == [] {
      assert v.payloads + Payloads(ms) == v.payloads;
    } else {
      var init, m := ms[..|ms| - 1], ms[|ms| - 1];
      SeesStream(v, id, init);
      SeesNext(v, Stream(id, init), Payloads(init), id, m);
      assert Payloads(ms) == Payloads(init) + [m.payload];
    }
  }

  lemma SeesNext(v: View, frames: seq<Frame>, payloads: seq<string>, id: string, m: Message)
    requires SeenAll(v, frames) == View(None, v.payloads + payloads)
    ensures SeenAll(v, frames + FramesFor(id, SplitPayload(m.payload, m.maxSize)))
      == View(None, v.payloads + (payloads + [m.payload]))
  {
    hide SplitPayload, FramesFor, SeenAll;
    SeenConcat(v, frames, FramesFor(id, SplitPayload(m.payload, m.maxSize)));
    SeesMessage(SeenAll(v, frames), id, m.payload, m.maxSize);
    assert v.payloads + payloads + [m.payload] == v.payloads + (payloads + [m.payload]);
  }

  /** For every interleaving of the streams of any number of requests, in which each request's own frames keep their
      order: every payload is dispatched exactly once, unchanged and in order, and nothing is left in the buffer. */
  lemma EveryInterleavingReassembles(wire: seq<Frame>, sent: map<string, seq<Message>>, id: string)
    requires forall f | f in wire :: f.requestId in sent
    requires forall x | x in sent :: Of(wire, x) == Stream(x, sent[x])
    ensures var r := HandleAll(Receiver(map[], []), wire);
      && PayloadsOf(r.dispatched, id) == (if id in sent then Payloads(sent[id]) else [])
      && r.buffer == map[]
  {
    var start := Receiver(map[], []);
    var r := HandleAll(start, wire);
    forall x: string
      ensures ViewOf(r, x) == View(None, if x in sent then Payloads(sent[x]) else [])
    {
      OthersDoNotMatter(start, wire, x);
      if x in sent {
        SeesStream(ViewOf(start, x), x, sent[x]);
        assert [] + Payloads(sent[x]) == Payloads(sent[x]);
      } else {
        NoFrames(wire, x);
      }
    }
    forall x: string ensures x !in r.buffer { assert ViewOf(r, x).entry == None; }
  }

  lemma {:induction false} NoFrames(wire: seq<Frame>, id: string)
    requires forall f | f in wire :: f.requestId != id
    ensures Of(wire, id) == []
  {
    if wire != [] { NoFrames(wire[..|wire| - 1], id); }
  }
}
