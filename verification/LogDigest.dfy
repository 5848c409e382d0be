/** The log digest (client_new/services/ticket_ai_analysis_service.py): around every keyword line of a file a window of
    lines is emitted, each line once, up to a cap on the number of blocks per file. */
module LogDigest {

  const CONTEXT_LINES: nat := 3
  const MAX_BLOCKS: nat := 80

  /** 80 blocks of 7 lines. */
  const MAX_FILE_LINES: nat := MAX_BLOCKS * (2 * CONTEXT_LINES + 1)

  /** Line `i` is a keyword line whose window holds line `k`. */
  predicate Covers(hits: seq<bool>, i: int, k: int) {
    0 <= i < |hits| && hits[i] && i - CONTEXT_LINES <= k <= i + CONTEXT_LINES
  }

  /** Line `k` lies in the window of one of the keyword lines before `stop`. */
  predicate InWindow(hits: seq<bool>, stop: nat, k: int) {
    exists i :: 0 <= i < stop && Covers(hits, i, k)
  }

  /** The lines below `k` that lie in such a window, in order. */
  function Windowed(hits: seq<bool>, stop: nat, k: nat): seq<nat> {
    if k == 0 then []
    else if InWindow(hits, stop, k - 1) then Windowed(hits, stop, k - 1) + [k - 1]
    else Windowed(hits, stop, k - 1)
  }

  /** The lines below `k` that only the window of line `i` adds. */
  function Fresh(hits: seq<bool>, i: nat, k: nat): seq<nat> {
    if k == 0 then []
    else if Covers(hits, i, k - 1) && !InWindow(hits, i, k - 1) then Fresh(hits, i, k - 1) + [k - 1]
    else Fresh(hits, i, k - 1)
  }

  function Concat(blocks: seq<seq<nat>>): seq<nat> {
    if blocks == [] then [] else Concat(blocks[..|blocks| - 1]) + blocks[|blocks| - 1]
  }

  function Max(a: int, b: int): int {
    if a < b then b else a
  }

  function Min(a: int, b: int): int {
    if b < a then b else a
  }

  // ---- What the specification says ----

  lemma {:induction false} WindowedLines(hits: seq<bool>, stop: nat, n: nat)
    ensures var ks := Windowed(hits, stop, n);
      && (forall i, j | 0 <= i < j < |ks| :: ks[i] < ks[j])
      && (forall k :: k in ks <==> 0 <= k < n && InWindow(hits, stop, k))
  {
    if n > 0 {
      WindowedLines(hits, stop, n - 1);
      var before := Windowed(hits, stop, n - 1);
      assert forall i | 0 <= i < |before| :: before[i] in before;
    }
  }

  /** Keyword line `i` is at most three lines from line `k`. */
  predicate NearKeyword(hits: seq<bool>, i: int, k: int) {
    0 <= i < |hits| && hits[i] && -3 <= k - i <= 3
  }

  /** The lines are strictly increasing and are exactly those at most three lines from a keyword line before `stop`. */
  lemma WindowedMeaning(hits: seq<bool>, stop: nat, n: nat)
    ensures var ks := Windowed(hits, stop, n);
      && (forall i, j | 0 <= i < j < |ks| :: ks[i] < ks[j])
      && (forall k :: k in ks <==> 0 <= k < n && exists i :: 0 <= i < stop && NearKeyword(hits, i, k))
  {
    WindowedLines(hits, stop, n);
    hide Windowed;
    forall i, k ensures Covers(hits, i, k) <==> NearKeyword(hits, i, k) {}
  }

  lemma InWindowStep(hits: seq<bool>, i: nat, k: int)
    ensures InWindow(hits, i + 1, k) <==> InWindow(hits, i, k) || Covers(hits, i, k)
  {
  }

  /** A line that only a later window adds lies after every line of the earlier ones. */
  lemma FreshLinesComeLast(hits: seq<bool>, i: nat, k: int, old': int)
    requires Covers(hits, i, k) && !InWindow(hits, i, k) && InWindow(hits, i, old')
    ensures old' < k
  {
    var j :| 0 <= j < i && Covers(hits, j, old');
    assert !Covers(hits, j, k);
  }

  lemma {:induction false} FreshMeaning(hits: seq<bool>, i: nat, n: nat)
    ensures forall k :: k in Fresh(hits, i, n) <==> 0 <= k < n && Covers(hits, i, k) && !InWindow(hits, i, k)
    ensures |Fresh(hits, i, n)| <= Max(0, Min(n, i + CONTEXT_LINES + 1) - Max(0, i - CONTEXT_LINES))
  {
    hide InWindow;
    if n > 0 { FreshMeaning(hits, i, n - 1); }
  }

  lemma {:induction false} NoneFresh(hits: seq<bool>, i: nat, n: nat)
    requires forall x | 0 <= x < n :: Covers(hits, i, x) ==> InWindow(hits, i, x)
    ensures Fresh(hits, i, n) == []
  {
    if n > 0 { NoneFresh(hits, i, n - 1); }
  }

  lemma NothingFreshBelow(hits: seq<bool>, i: nat, k: nat)
    requires k > 0 && InWindow(hits, i, k - 1)
    ensures Fresh(hits, i, k - 1) == Fresh(hits, i, k) == []
  {
    hide InWindow, Covers;
    forall x | 0 <= x < k && Covers(hits, i, x) ensures InWindow(hits, i, x) {
      if !InWindow(hits, i, x) { FreshLinesComeLast(hits, i, x, k - 1); }
    }
    NoneFresh(hits, i, k);
    NoneFresh(hits, i, k - 1);
  }

  /** One more keyword line appends exactly its fresh lines. */
  lemma {:induction false} WindowedStep(hits: seq<bool>, i: nat, k: nat)
    ensures Windowed(hits, i + 1, k) == Windowed(hits, i, k) + Fresh(hits, i, k)
  {
    hide InWindow, Covers;
    if k > 0 {
      WindowedStep(hits, i, k - 1);
      InWindowStep(hits, i, k - 1);
      var w, added := Windowed(hits, i, k - 1), Fresh(hits, i, k - 1);
      if InWindow(hits, i, k - 1) {
        NothingFreshBelow(hits, i, k);
        assert w + [] == w;
      } else if Covers(hits, i, k - 1) {
        assert w + added + [k - 1] == w + (added + [k - 1]);
      }
    }
  }

  /** Outside a line's own window nothing is fresh. */
  lemma {:induction false} FreshOutside(hits: seq<bool>, i: nat, lo: nat, hi: nat)
    requires lo <= hi && forall k | lo <= k < hi :: !Covers(hits, i, k)
    ensures Fresh(hits, i, hi) == Fresh(hits, i, lo)
  {
    if lo < hi { FreshOutside(hits, i, lo, hi - 1); }
  }

  // ---- The loop over one file ----

  method BlocksOfFile(hits: seq<bool>) returns (blocks: seq<seq<nat>>, stop: nat)
    ensures stop <= |hits|
    ensures Concat(blocks) == Windowed(hits, stop, |hits|)
    ensures |blocks| <= 80 && forall b | b in blocks :: 1 <= |b| <= 7
    ensures |blocks| < 80 ==> stop == |hits| && EveryKeywordLineIn(hits, Concat(blocks))
    ensures |blocks| == 80 ==> 0 < stop && hits[stop - 1] && blocks[79] == Fresh(hits, stop - 1, |hits|)
  {
    hide InWindow, Covers, Windowed, Fresh, Concat, EveryKeywordLineIn;
    blocks, stop := [], 0;
    var used: set<nat> := {};
    NothingYet(hits, |hits|);
    for index := 0 to |hits|
      invariant stop == index && |blocks| < MAX_BLOCKS
      invariant Concat(blocks) == Windowed(hits, index, |hits|)
      invariant forall k :: k in used <==> 0 <= k < |hits| && InWindow(hits, index, k)
      invariant forall b | b in blocks :: 1 <= |b| <= 2 * CONTEXT_LINES + 1
    {
      stop := index + 1;
      WindowedStep(hits, index, |hits|);
      forall k ensures InWindow(hits, index + 1, k) <==> InWindow(hits, index, k) || Covers(hits, index, k) {
        InWindowStep(hits, index, k);
      }
      if !hits[index] {
        NoHit(hits, index, |hits|);
        continue;
      }
      var block;
      block, used := FreshLines(hits, index, used);
      if block != [] {
        ConcatSnoc(blocks, block);
        blocks := blocks + [block];
      } else {
        assert Concat(blocks) + [] == Concat(blocks);
      }
      if |blocks| >= MAX_BLOCKS {
        return;
      }
    }
    EveryKeywordLineIsIn(hits, blocks, stop);
  }

  /** The inner loop: the window's lines that no earlier window has used. */
  method FreshLines(hits: seq<bool>, index: nat, used: set<nat>) returns (block: seq<nat>, used': set<nat>)
    requires index < |hits| && hits[index] && forall k :: k in used <==> 0 <= k < |hits| && InWindow(hits, index, k)
    ensures block == Fresh(hits, index, |hits|) && |block| <= 2 * CONTEXT_LINES + 1
    ensures forall k :: k in used' <==> 0 <= k < |hits| && (InWindow(hits, index, k) || Covers(hits, index, k))
  {
    hide InWindow;
    var start, end := Max(0, index - CONTEXT_LINES), Min(|hits|, index + CONTEXT_LINES + 1);
    block, used' := [], used;
    FreshOutside(hits, index, 0, start);
    for k := start to end
      invariant block == Fresh(hits, index, k)
      invariant forall x :: x in used' <==> x in used || (start <= x < k && Covers(hits, index, x))
    {
      if k in used' { continue; }
      used' := used' + {k};
      block := block + [k];
    }
    FreshOutside(hits, index, end, |hits|);
    FreshMeaning(hits, index, |hits|);
  }

  lemma {:induction false} NothingYet(hits: seq<bool>, n: nat)
    ensures Windowed(hits, 0, n) == Concat([]) == []
    ensures forall k :: !InWindow(hits, 0, k)
  {
    if n > 0 { NothingYet(hits, n - 1); }
  }

  lemma NoHit(hits: seq<bool>, i: nat, n: nat)
    requires i < |hits| && !hits[i]
    ensures Windowed(hits, i + 1, n) == Windowed(hits, i, n) && forall k :: !Covers(hits, i, k)
  {
    FreshOutside(hits, i, 0, n);
    WindowedStep(hits, i, n);
  }

  lemma ConcatSnoc(blocks: seq<seq<nat>>, b: seq<nat>)
    ensures Concat(blocks + [b]) == Concat(blocks) + b
  {
    assert (blocks + [b])[..|blocks|] == blocks;
  }

  // ---- Consequences ----

  lemma {:induction false} ConcatLength(blocks: seq<seq<nat>>, most: nat)
    requires forall b | b in blocks :: |b| <= most
    ensures |Concat(blocks)| <= |blocks| * most
  {
    if blocks != [] {
      ConcatLength(blocks[..|blocks| - 1], most);
      assert blocks[|blocks| - 1] in blocks;
      assert |blocks| * most == (|blocks| - 1) * most + most;
    }
  }

  /** Every keyword line of the file is emitted, with the lines around it. */
  predicate EveryKeywordLineIn(hits: seq<bool>, lines: seq<nat>) {
    forall i, k: nat | 0 <= i < |hits| && k < |hits| && NearKeyword(hits, i, k) :: k in lines
  }

  /** Below the cap the blocks of a file hold every keyword line with its neighbours, in order and each line once. */
  lemma EveryKeywordLineIsIn(hits: seq<bool>, blocks: seq<seq<nat>>, stop: nat)
    requires Concat(blocks) == Windowed(hits, stop, |hits|) && |blocks| < MAX_BLOCKS
    requires |blocks| < MAX_BLOCKS ==> stop == |hits|
    ensures EveryKeywordLineIn(hits, Concat(blocks))
    ensures forall i, j | 0 <= i < j < |Concat(blocks)| :: Concat(blocks)[i] < Concat(blocks)[j]
  {
    WindowedMeaning(hits, |hits|, |hits|);
    hide Windowed, Covers, Concat;
  }

  // ---- The loop over the files ----

  /** A file that is read: its keyword lines, and whether the text has reached its limit once the file's blocks are
      in. */
  datatype LogFile = LogFile(hits: seq<bool>, full: bool)

  function SumOfLengths(digests: seq<seq<nat>>): nat {
    if digests == [] then 0 else SumOfLengths(digests[..|digests| - 1]) + |digests[|digests| - 1]|
  }

  /** The lines emitted for a file are the union of the windows up to some line, up to the last one unless capped. */
  ghost predicate IsDigestOf(ks: seq<nat>, hits: seq<bool>) {
    && |ks| <= 560
    && exists stop: nat ::
         stop <= |hits| && ks == Windowed(hits, stop, |hits|) && (|ks| < 80 ==> stop == |hits|)
  }

  method BuildLogDigest(files: seq<LogFile>) returns (digests: seq<seq<nat>>, matchedFiles: nat, matchedLines: nat)
    ensures |digests| <= |files| && forall i | 0 <= i < |digests| :: IsDigestOf(digests[i], files[i].hits)
    ensures |digests| < |files| ==> digests != [] && digests[|digests| - 1] != [] && files[|digests| - 1].full
    ensures forall i | 0 <= i < |digests| - 1 :: digests[i] == [] || !files[i].full
    ensures matchedLines == SumOfLengths(digests)
    ensures matchedLines <= matchedFiles * 560 && matchedFiles <= |digests|
  {
    hide Windowed, Concat, IsDigestOf;
    digests, matchedFiles, matchedLines := [], 0, 0;
    for f := 0 to |files|
      invariant |digests| == f && forall i | 0 <= i < f :: IsDigestOf(digests[i], files[i].hits)
      invariant forall i | 0 <= i < f :: digests[i] == [] || !files[i].full
      invariant matchedLines == SumOfLengths(digests)
      invariant matchedLines <= matchedFiles * MAX_FILE_LINES && matchedFiles <= f
    {
      var blocks, stop := BlocksOfFile(files[f].hits);
      DigestOfBlocks(blocks, files[f].hits, stop);
      var ks := Concat(blocks);
      assert (digests + [ks])[..f] == digests;
      digests := digests + [ks];
      matchedLines := matchedLines + |ks|;
      if blocks == [] {
        assert ks == [] by { EmptyConcat(); }
        continue;
      }
      assert (matchedFiles + 1) * MAX_FILE_LINES == matchedFiles * MAX_FILE_LINES + MAX_FILE_LINES;
      matchedFiles := matchedFiles + 1;
      if files[f].full {
        NonEmptyConcat(blocks);
        return;
      }
    }
  }

  lemma EmptyConcat()
    ensures Concat([]) == []
  {
  }

  lemma {:induction false} NonEmptyConcat(blocks: seq<seq<nat>>)
    requires blocks != [] && forall b | b in blocks :: |b| >= 1
    ensures |Concat(blocks)| >= |blocks|
  {
    assert blocks[|blocks| - 1] in blocks;
    if |blocks| > 1 {
      forall b | b in blocks[..|blocks| - 1] ensures |b| >= 1 { assert b in blocks; }
      NonEmptyConcat(blocks[..|blocks| - 1]);
    }
  }

  lemma DigestOfBlocks(blocks: seq<seq<nat>>, hits: seq<bool>, stop: nat)
    requires stop <= |hits| && Concat(blocks) == Windowed(hits, stop, |hits|)
    requires |blocks| <= MAX_BLOCKS && forall b | b in blocks :: 1 <= |b| <= 2 * CONTEXT_LINES + 1
    requires |blocks| < MAX_BLOCKS ==> stop == |hits|
    ensures IsDigestOf(Concat(blocks), hits) && |Concat(blocks)| <= MAX_FILE_LINES
  {
    hide Windowed, Concat;
    ConcatLength(blocks, 7);
    assert |blocks| * 7 <= 80 * 7;
    if blocks != [] { NonEmptyConcat(blocks); }
  }
}
