/** The interval and byte reasoning behind one chunked transfer: which ranges have arrived,
    when they cover the file, and what the `.part` file then holds. */
module ChunkRanges {
  import opened Sorting

  newtype byte = x: int | 0 <= x < 256
  type Bytes = seq<byte>

  datatype Range = Range(start: int, end: int)

  /** A chunk as it was accepted. */
  datatype Piece = Piece(index: int, offset: int, data: Bytes) {
    function End(): int { offset + |data| }
    function Span(): Range { Range(offset, End()) }
  }

  predicate Overlap(a: Range, b: Range) {
    a.start < b.end && a.end > b.start
  }

  predicate OverlapsAny(start: int, end: int, rs: seq<Range>) {
    exists i | 0 <= i < |rs| :: Overlap(Range(start, end), rs[i])
  }

  predicate Disjoint(rs: seq<Range>) {
    forall i, j | 0 <= i < j < |rs| :: !Overlap(rs[i], rs[j])
  }

  predicate InBounds(rs: seq<Range>, size: int) {
    forall i | 0 <= i < |rs| :: 0 <= rs[i].start <= rs[i].end <= size
  }

  predicate RangeBefore(a: Range, b: Range) {
    a.start < b.start || (a.start == b.start && a.end <= b.end)
  }

  function TotalLength(rs: seq<Range>): int {
    if rs == [] then 0 else rs[0].end - rs[0].start + TotalLength(rs[1..])
  }

  /** How many of the ranges contain byte position `p`. */
  function Covers(rs: seq<Range>, p: int): nat {
    if rs == [] then 0 else (if rs[0].start <= p < rs[0].end then 1 else 0) + Covers(rs[1..], p)
  }

  // ---- The completeness test ----

  predicate CursorReaches(rs: seq<Range>, cursor: int, size: int) {
    if rs == [] then cursor == size
    else rs[0].start == cursor && CursorReaches(rs[1..], rs[0].end, size)
  }

  predicate Complete(rs: seq<Range>, size: int) {
    if size == 0 then rs == [] else CursorReaches(Sort(rs, RangeBefore), 0, size)
  }

  method IsComplete(received: seq<Range>, expectedSize: int) returns (complete: bool)
    ensures complete == Complete(received, expectedSize)
  {
    if expectedSize == 0 {
      return received == [];
    }
    var ranges := Sort(received, RangeBefore);
    var cursor := 0;
    for i := 0 to |ranges|
      invariant CursorReaches(ranges, 0, expectedSize) == CursorReaches(ranges[i..], cursor, expectedSize)
    {
      if ranges[i].start != cursor {
        return false;
      }
      cursor := ranges[i].end;
    }
    return cursor == expectedSize;
  }

  // ---- What sorting keeps ----

  lemma {:induction false} SortKeepsSums(rs: seq<Range>, p: int)
    ensures TotalLength(Sort(rs, RangeBefore)) == TotalLength(rs)
    ensures Covers(Sort(rs, RangeBefore), p) == Covers(rs, p)
  {
    if rs != [] {
      SortKeepsSums(rs[1..], p);
      InsertAddsSums(rs[0], Sort(rs[1..], RangeBefore), p);
    }
  }

  lemma {:induction false} InsertAddsSums(r: Range, rs: seq<Range>, p: int)
    ensures TotalLength(Insert(r, rs, RangeBefore)) == r.end - r.start + TotalLength(rs)
    ensures Covers(Insert(r, rs, RangeBefore), p) == (if r.start <= p < r.end then 1 else 0) + Covers(rs, p)
  {
    if rs != [] && !RangeBefore(r, rs[0]) {
      InsertAddsSums(r, rs[1..], p);
      assert Insert(r, rs, RangeBefore)[1..] == Insert(r, rs[1..], RangeBefore);
    } else {
      assert ([r] + rs)[1..] == rs;
    }
  }

  lemma {:induction false} InsertKeepsDisjoint(r: Range, rs: seq<Range>)
    requires Disjoint(rs) && forall x | x in rs :: !Overlap(r, x)
    ensures Disjoint(Insert(r, rs, RangeBefore))
  {
    if rs != [] && !RangeBefore(r, rs[0]) {
      InsertKeepsDisjoint(r, rs[1..]);
      InsertElements(r, rs[1..], RangeBefore);
      var rest := Insert(r, rs[1..], RangeBefore);
      forall x | x in rest ensures !Overlap(rs[0], x) {
        assert x in multiset(rest);
        if x in rs[1..] {
          var j :| 0 <= j < |rs| - 1 && rs[1..][j] == x;
          assert !Overlap(rs[0], rs[j + 1]);
        } else {
          assert !Overlap(r, rs[0]);
        }
      }
    }
  }

  lemma {:induction false} SortKeepsDisjoint(rs: seq<Range>)
    requires Disjoint(rs)
    ensures Disjoint(Sort(rs, RangeBefore))
  {
    if rs != [] {
      SortKeepsDisjoint(rs[1..]);
      SortElements(rs[1..], RangeBefore);
      InsertKeepsDisjoint(rs[0], Sort(rs[1..], RangeBefore));
    }
  }

  // ---- Sorted disjoint ranges form a chain ----

  predicate Chain(rs: seq<Range>, cursor: int, size: int) {
    if rs == [] then cursor <= size
    else cursor <= rs[0].start <= rs[0].end && Chain(rs[1..], rs[0].end, size)
  }

  lemma {:induction false} SortedIsChain(rs: seq<Range>, cursor: int, size: int)
    requires SortedBy(rs, RangeBefore) && Disjoint(rs) && InBounds(rs, size)
    requires cursor <= size && (rs != [] ==> cursor <= rs[0].start)
    ensures Chain(rs, cursor, size)
  {
    if rs != [] {
      if |rs| > 1 { assert RangeBefore(rs[0], rs[1]) && !Overlap(rs[0], rs[1]); }
      SortedIsChain(rs[1..], rs[0].end, size);
    }
  }

  lemma ReceivedChain(rs: seq<Range>, size: int)
    requires Disjoint(rs) && InBounds(rs, size) && 0 <= size
    ensures Chain(Sort(rs, RangeBefore), 0, size)
  {
    SortSorted(rs, RangeBefore);
    SortElements(rs, RangeBefore);
    SortKeepsDisjoint(rs);
    var sorted := Sort(rs, RangeBefore);
    forall i | 0 <= i < |sorted| ensures 0 <= sorted[i].start <= sorted[i].end <= size {
      assert sorted[i] in rs;
    }
    SortedIsChain(sorted, 0, size);
  }

  lemma {:induction false} ChainLength(rs: seq<Range>, cursor: int, size: int)
    requires Chain(rs, cursor, size)
    ensures TotalLength(rs) <= size - cursor
    ensures TotalLength(rs) == size - cursor <==> CursorReaches(rs, cursor, size)
  {
    if rs != [] { ChainLength(rs[1..], rs[0].end, size); }
  }

  lemma {:induction false} BeforeChainUncovered(rs: seq<Range>, cursor: int, size: int, p: int)
    requires Chain(rs, cursor, size) && p < cursor
    ensures Covers(rs, p) == 0
  {
    if rs != [] { BeforeChainUncovered(rs[1..], rs[0].end, size, p); }
  }

  lemma {:induction false} ReachedMeansCovered(rs: seq<Range>, cursor: int, size: int, p: int)
    requires Chain(rs, cursor, size) && CursorReaches(rs, cursor, size)
    ensures Covers(rs, p) == if cursor <= p < size then 1 else 0
  {
    if rs != [] {
      ReachedMeansCovered(rs[1..], rs[0].end, size, p);
      ReachedBound(rs[1..], rs[0].end, size);
    }
  }

  lemma {:induction false} ReachedBound(rs: seq<Range>, cursor: int, size: int)
    requires Chain(rs, cursor, size)
    ensures cursor <= size
  {
    if rs != [] { ReachedBound(rs[1..], rs[0].end, size); }
  }

  lemma GapUncovered(rs: seq<Range>, cursor: int, size: int)
    requires Chain(rs, cursor, size) && (rs == [] || cursor < rs[0].start)
    ensures Covers(rs, cursor) == 0
  {
    if rs != [] { BeforeChainUncovered(rs[1..], rs[0].end, size, cursor); }
  }

  lemma {:induction false} CoveredMeansReached(rs: seq<Range>, cursor: int, size: int)
    requires Chain(rs, cursor, size)
    requires forall p | cursor <= p < size :: Covers(rs, p) >= 1
    ensures CursorReaches(rs, cursor, size)
  {
    if rs == [] || cursor < rs[0].start {
      GapUncovered(rs, cursor, size);
      ReachedBound(rs, cursor, size);
      if rs != [] { ReachedBound(rs[1..], rs[0].end, size); }
    } else {
      forall p | rs[0].end <= p < size ensures Covers(rs[1..], p) >= 1 {
        assert Covers(rs, p) >= 1;
      }
      CoveredMeansReached(rs[1..], rs[0].end, size);
    }
  }

  /** The sorted cursor scan succeeds exactly when the received lengths add up to the file size. */
  lemma CompleteIffLengthsAddUp(rs: seq<Range>, size: int)
    requires Disjoint(rs) && InBounds(rs, size) && 0 < size
    ensures Complete(rs, size) <==> TotalLength(rs) == size
  {
    ReceivedChain(rs, size);
    ChainLength(Sort(rs, RangeBefore), 0, size);
    SortKeepsSums(rs, 0);
  }

  predicate EveryByteOnce(rs: seq<Range>, size: int) {
    forall p | 0 <= p < size :: Covers(rs, p) == 1
  }

  /** ... and exactly when every byte position of the file is covered once. */
  lemma CompleteIffEveryByteOnce(rs: seq<Range>, size: int)
    requires Disjoint(rs) && InBounds(rs, size) && 0 < size
    ensures Complete(rs, size) <==> EveryByteOnce(rs, size)
  {
    var sorted := Sort(rs, RangeBefore);
    ReceivedChain(rs, size);
    forall p ensures Covers(sorted, p) == Covers(rs, p) { SortKeepsSums(rs, p); }
    if Complete(rs, size) {
      forall p | 0 <= p < size ensures Covers(rs, p) == 1 {
        ReachedMeansCovered(sorted, 0, size, p);
      }
      assert EveryByteOnce(rs, size);
    }
    if EveryByteOnce(rs, size) {
      CoveredMeansReached(sorted, 0, size);
    }
  }

  /** An empty file is the separate branch: its only chunks are empty ones, the overlap test admits
      every one of them, and after any of them the transfer can never be completed. */
  lemma EmptyFileNeverCompletesAfterAChunk(rs: seq<Range>, offset: int)
    requires InBounds(rs, 0)
    ensures Complete(rs, 0) <==> |rs| == 0
    ensures !OverlapsAny(offset, offset, rs)
    ensures !Complete(rs + [Range(offset, offset)], 0)
  {
    forall i | 0 <= i < |rs| ensures !Overlap(Range(offset, offset), rs[i]) {
      assert rs[i].start == rs[i].end == 0;
    }
  }

  // ---- The `.part` file ----

  /** Seek to `offset` and write `data`: a gap reads as zero, an empty write does not extend the file. */
  function WriteAt(part: Bytes, offset: nat, data: Bytes): Bytes {
    if data == [] then part
    else
      var end := offset + |data|;
      seq(if |part| < end then end else |part|, i requires 0 <= i =>
        if offset <= i < end then data[i - offset] else if i < |part| then part[i] else 0)
  }

  function Spans(ps: seq<Piece>): seq<Range> {
    seq(|ps|, i requires 0 <= i < |ps| => ps[i].Span())
  }

  predicate CoveredBy(ps: seq<Piece>, p: int) {
    exists k | 0 <= k < |ps| :: ps[k].offset <= p < ps[k].End()
  }

  predicate Placed(part: Bytes, p: Piece) {
    && 0 <= p.offset
    && (p.data != [] ==> p.End() <= |part| && part[p.offset..p.End()] == p.data)
  }

  /** The part file holds every accepted payload at its place, zeros elsewhere, and ends with the last payload. */
  predicate Holds(part: Bytes, ps: seq<Piece>) {
    && (forall k | 0 <= k < |ps| :: Placed(part, ps[k]))
    && (part == [] || CoveredBy(ps, |part| - 1))
    && (forall p | 0 <= p < |part| && !CoveredBy(ps, p) :: part[p] == 0)
  }

  lemma WriteKeepsHolds(part: Bytes, ps: seq<Piece>, piece: Piece)
    requires Holds(part, ps) && 0 <= piece.offset
    requires !OverlapsAny(piece.offset, piece.End(), Spans(ps))
    ensures Holds(WriteAt(part, piece.offset, piece.data), ps + [piece])
  {
    var part' := WriteAt(part, piece.offset, piece.data);
    var ps' := ps + [piece];
    assert ps'[|ps|] == piece;
    assert forall k | 0 <= k < |ps| :: ps'[k] == ps[k];
    forall k | 0 <= k < |ps'| ensures Placed(part', ps'[k]) {
      if k < |ps| {
        assert Placed(part, ps[k]);
        assert !Overlap(piece.Span(), Spans(ps)[k]);
        if ps[k].data != [] {
          assert part'[ps[k].offset..ps[k].End()] == part[ps[k].offset..ps[k].End()];
        }
      }
    }
    forall p | CoveredBy(ps, p) ensures CoveredBy(ps', p) { CoverTransfers(ps, ps', p); }
    forall p | 0 <= p < |part'| && !CoveredBy(ps', p) ensures part'[p] == 0 {
      assert !(ps'[|ps|].offset <= p < ps'[|ps|].End());
    }
    if part' != [] {
      var p := |part'| - 1;
      if |part'| == |part| {
        var k :| 0 <= k < |ps| && ps[k].offset <= p < ps[k].End();
        assert ps'[k].offset <= p < ps'[k].End();
      } else {
        assert ps'[|ps|].offset <= p < ps'[|ps|].End();
      }
    }
  }

  predicate SamePieces(ps: seq<Piece>, qs: seq<Piece>) {
    && (forall p | p in ps :: p in qs)
    && (forall q | q in qs :: q in ps)
  }

  lemma CoverTransfers(ps: seq<Piece>, qs: seq<Piece>, p: int)
    requires forall x | x in ps :: x in qs
    requires CoveredBy(ps, p)
    ensures CoveredBy(qs, p)
  {
    var k :| 0 <= k < |ps| && ps[k].offset <= p < ps[k].End();
    assert ps[k] in qs;
    var j :| 0 <= j < |qs| && qs[j] == ps[k];
  }

  /** The part file is determined by which pieces arrived, not by their order. */
  lemma PartDeterminedByPieces(a: Bytes, ps: seq<Piece>, b: Bytes, qs: seq<Piece>)
    requires Holds(a, ps) && Holds(b, qs) && SamePieces(ps, qs)
    ensures a == b
  {
    PartNotLonger(a, ps, b, qs);
    PartNotLonger(b, qs, a, ps);
    forall p | 0 <= p < |a| ensures a[p] == b[p] {
      if CoveredBy(ps, p) {
        var k :| 0 <= k < |ps| && ps[k].offset <= p < ps[k].End();
        assert ps[k] in qs;
        var j :| 0 <= j < |qs| && qs[j] == ps[k];
        PlacedByte(a, ps[k], p);
        PlacedByte(b, qs[j], p);
      } else {
        if CoveredBy(qs, p) { CoverTransfers(qs, ps, p); }
      }
    }
  }

  lemma PlacedByte(part: Bytes, piece: Piece, p: int)
    requires Placed(part, piece) && piece.offset <= p < piece.End()
    ensures p < |part| && part[p] == piece.data[p - piece.offset]
  {
    assert part[piece.offset..piece.End()][p - piece.offset] == part[p];
  }

  lemma PartNotLonger(a: Bytes, ps: seq<Piece>, b: Bytes, qs: seq<Piece>)
    requires Holds(a, ps) && Holds(b, qs) && forall x | x in ps :: x in qs
    ensures |a| <= |b|
  {
    if a != [] {
      CoverTransfers(ps, qs, |a| - 1);
      var j :| 0 <= j < |qs| && qs[j].offset <= |a| - 1 < qs[j].End();
    }
  }

  // ---- A complete part file is the payloads in offset order ----

  predicate PieceBefore(a: Piece, b: Piece) {
    RangeBefore(a.Span(), b.Span())
  }

  function Concat(ps: seq<Piece>): Bytes {
    if ps == [] then [] else ps[0].data + Concat(ps[1..])
  }

  function InOffsetOrder(ps: seq<Piece>): seq<Piece> {
    Sort(ps, PieceBefore)
  }

  lemma {:induction false} SpansOfInsert(x: Piece, ps: seq<Piece>)
    ensures Spans(Insert(x, ps, PieceBefore)) == Insert(x.Span(), Spans(ps), RangeBefore)
  {
    if ps != [] && !PieceBefore(x, ps[0]) {
      SpansOfInsert(x, ps[1..]);
      assert Spans(ps[1..]) == Spans(ps)[1..];
    }
  }

  lemma {:induction false} SpansOfSort(ps: seq<Piece>)
    ensures Spans(InOffsetOrder(ps)) == Sort(Spans(ps), RangeBefore)
  {
    if ps != [] {
      SpansOfSort(ps[1..]);
      assert Spans(ps[1..]) == Spans(ps)[1..];
      SpansOfInsert(ps[0], InOffsetOrder(ps[1..]));
    }
  }

  lemma {:induction false} ScanReadsConcat(part: Bytes, ps: seq<Piece>, cursor: int)
    requires 0 <= cursor <= |part|
    requires forall k | 0 <= k < |ps| :: Placed(part, ps[k])
    requires CursorReaches(Spans(ps), cursor, |part|)
    ensures part[cursor..] == Concat(ps)
  {
    if ps != [] {
      assert Spans(ps)[1..] == Spans(ps[1..]);
      assert Placed(part, ps[0]) && ps[0].offset == cursor;
      assert ps[0].data == [] ==> ps[0].End() == cursor;
      ScanReadsConcat(part, ps[1..], ps[0].End());
      assert part[cursor..] == part[cursor..ps[0].End()] + part[ps[0].End()..];
    }
  }

  /** Once the completeness test passes, the part file has the announced size and is the concatenation
      of the payloads in offset order. */
  lemma CompletePart(part: Bytes, ps: seq<Piece>, size: int)
    requires Holds(part, ps) && Disjoint(Spans(ps)) && InBounds(Spans(ps), size) && 0 <= size
    requires Complete(Spans(ps), size)
    ensures |part| == size
    ensures part == Concat(InOffsetOrder(ps))
  {
    if size == 0 {
      assert |Spans(ps)| == 0;
      assert part == [];
    } else {
      PartFits(part, ps, size);
      LastByteCovered(part, ps, size);
      SpansOfSort(ps);
      var sorted := InOffsetOrder(ps);
      SortElements(ps, PieceBefore);
      forall k | 0 <= k < |sorted| ensures Placed(part, sorted[k]) {
        assert sorted[k] in ps;
        var j :| 0 <= j < |ps| && ps[j] == sorted[k];
      }
      ScanReadsConcat(part, sorted, 0);
    }
  }

  lemma PartFits(part: Bytes, ps: seq<Piece>, size: int)
    requires Holds(part, ps) && InBounds(Spans(ps), size) && 0 <= size
    ensures |part| <= size
  {
    if part != [] {
      var k :| 0 <= k < |ps| && ps[k].offset <= |part| - 1 < ps[k].End();
      assert Spans(ps)[k].end <= size;
    }
  }

  lemma {:induction false} CoveredSomewhere(ps: seq<Piece>, p: int)
    requires Covers(Spans(ps), p) >= 1
    ensures CoveredBy(ps, p)
  {
    if ps != [] {
      assert Spans(ps)[0] == ps[0].Span();
      if !(ps[0].offset <= p < ps[0].End()) {
        assert Spans(ps)[1..] == Spans(ps[1..]);
        CoveredSomewhere(ps[1..], p);
        var k :| 0 <= k < |ps[1..]| && ps[1..][k].offset <= p < ps[1..][k].End();
        assert ps[k + 1].offset <= p < ps[k + 1].End();
      }
    }
  }

  lemma LastByteCovered(part: Bytes, ps: seq<Piece>, size: int)
    requires Holds(part, ps) && Disjoint(Spans(ps)) && InBounds(Spans(ps), size) && 0 < size
    requires Complete(Spans(ps), size)
    ensures |part| >= size
  {
    CompleteIffEveryByteOnce(Spans(ps), size);
    assert Covers(Spans(ps), size - 1) == 1;
    CoveredSomewhere(ps, size - 1);
    var k :| 0 <= k < |ps| && ps[k].offset <= size - 1 < ps[k].End();
  }
}
