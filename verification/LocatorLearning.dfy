/** Learning which locator of a step works (client_new/services/web_test_service.py): counting results, disabling
    locators that only ever fail, and ranking the candidates of the next resolution. */
module LocatorLearning {
  import opened Sorting

  const DISABLE_THRESHOLD: nat := 3

  /** One locator tried while resolving a step; the signature is the stripped text. */
  datatype Attempt = Attempt(signature: string, tries: int, hasError: bool, rawCount: int)

  datatype Hint = Hint(preferred: string, failCounts: map<string, int>, successCounts: map<string, int>,
      disabled: set<string>)

  const NO_HINT := Hint("", map[], map[], {})

  function Count(m: map<string, int>, sig: string): int {
    if sig in m then m[sig] else 0
  }

  function Max(a: int, b: int): int {
    if a < b then b else a
  }

  /** The attempt counts as a failure of its locator: it was tried, did not match exactly one element, and is not the
      locator that won in the end. */
  predicate Failed(a: Attempt, success: string) {
    a.signature != "" && a.signature != success && a.tries > 0 && (a.hasError || a.rawCount != 1)
  }

  function RecordSuccess(h: Hint, success: string): Hint {
    h.(successCounts := h.successCounts[success := Count(h.successCounts, success) + 1],
       failCounts := h.failCounts[success := Max(Count(h.failCounts, success) - 1, 0)],
       disabled := h.disabled - {success})
  }

  function RecordAttempt(h: Hint, a: Attempt, success: string): Hint {
    if !Failed(a, success) then h
    else
      var n := Count(h.failCounts, a.signature) + 1;
      var disable := Count(h.successCounts, a.signature) <= 0 && n >= DISABLE_THRESHOLD;
      h.(failCounts := h.failCounts[a.signature := n],
        disabled := if disable then h.disabled + {a.signature} else h.disabled)
  }

  function RecordAttempts(h: Hint, attempts: seq<Attempt>, success: string): Hint {
    if attempts == [] then h
    else
      var n := |attempts| - 1;
      RecordAttempt(RecordAttempts(h, attempts[..n], success), attempts[n], success)
  }

  function RecordResult(h: Hint, attempts: seq<Attempt>, success: string): Hint {
    if success == "" then h
    else RecordAttempts(RecordSuccess(h, success), attempts, success).(preferred := success)
  }

  // ---- The shared hints ----

  class LocatorHints {
    var hints: map<string, Hint>

    constructor ()
      ensures hints == map[]
    {
      hints := map[];
    }

    /** Reading a hint creates it. */
    method ResolveHint(key: string) returns (h: Hint)
      modifies this
      ensures h == HintOf(old(hints), key)
      ensures hints == if key == "" then old(hints) else old(hints)[key := h]
    {
      if key == "" { return NO_HINT; }
      h := if key in hints then hints[key] else NO_HINT;
      hints := hints[key := h];
    }

    method RecordLocatorLearningResult(key: string, attempts: seq<Attempt>, success: string)
      modifies this
      ensures hints == if key == "" || success == "" then old(hints)
                       else old(hints)[key := RecordResult(HintOf(old(hints), key), attempts, success)]
    {
      if key == "" || success == "" { return; }
      var hint := ResolveHint(key);
      var failCounts, successCounts, disabledSet := hint.failCounts, hint.successCounts, hint.disabled;
      successCounts := successCounts[success := Count(successCounts, success) + 1];
      failCounts := failCounts[success := Max(Count(failCounts, success) - 1, 0)];
      disabledSet := disabledSet - {success};
      ghost var start := RecordSuccess(hint, success);
      assert attempts[..0] == [];
      for i := 0 to |attempts|
        invariant Hint(hint.preferred, failCounts, successCounts, disabledSet)
          == RecordAttempts(start, attempts[..i], success)
      {
        assert attempts[..i + 1][..i] == attempts[..i];
        var a := attempts[i];
        if a.signature == "" || a.signature == success { continue; }
        if a.tries <= 0 { continue; }
        if !(a.hasError || a.rawCount != 1) { continue; }
        failCounts := failCounts[a.signature := Count(failCounts, a.signature) + 1];
        if Count(successCounts, a.signature) <= 0 && failCounts[a.signature] >= DISABLE_THRESHOLD {
          disabledSet := disabledSet + {a.signature};
        }
      }
      assert attempts[..|attempts|] == attempts;
      hints := hints[key := Hint(success, failCounts, successCounts, disabledSet)];
    }
  }

  function HintOf(hints: map<string, Hint>, key: string): Hint {
    if key != "" && key in hints then hints[key] else NO_HINT
  }

  // ---- Every history ----

  datatype Outcome = Outcome(attempts: seq<Attempt>, success: string)

  function Learned(history: seq<Outcome>): Hint {
    if history == [] then NO_HINT
    else
      var n := |history| - 1;
      RecordResult(Learned(history[..n]), history[n].attempts, history[n].success)
  }

  /** How often `sig` failed in one resolution. */
  function FailuresIn(attempts: seq<Attempt>, sig: string, success: string): nat {
    if attempts == [] then 0
    else
      var n := |attempts| - 1;
      FailuresIn(attempts[..n], sig, success) + if attempts[n].signature == sig && Failed(attempts[n], success) then 1
        else 0
  }

  /** What counts as a failure: each attempt that was made with `sig`, is not the one that won, and ended in an error or
      did not find exactly one element. */
  lemma {:induction false} FailuresCounted(attempts: seq<Attempt>, sig: string, success: string)
    ensures FailuresIn(attempts, sig, success) == |FailedAttempts(attempts, sig, success)|
  {
    if attempts != [] {
      var n := |attempts| - 1;
      var init := attempts[..n];
      FailuresCounted(init, sig, success);
      var last := attempts[n];
      var more := if last.signature == sig && sig != "" && sig != success && last.tries > 0
        && (last.hasError || last.rawCount != 1) then {n} else {};
      assert FailedAttempts(attempts, sig, success) == FailedAttempts(init, sig, success) + more;
    }
  }

  function FailedAttempts(attempts: seq<Attempt>, sig: string, success: string): set<int> {
    set i | 0 <= i < |attempts| && attempts[i].signature == sig && sig != "" && sig != success
      && attempts[i].tries > 0 && (attempts[i].hasError || attempts[i].rawCount != 1)
  }

  /** How often `sig` failed in all the resolutions that ended in success. */
  function Failures(history: seq<Outcome>, sig: string): nat {
    if history == [] then 0
    else
      var n := |history| - 1;
      var o := history[n];
      Failures(history[..n], sig) + if o.success == "" then 0 else FailuresIn(o.attempts, sig, o.success)
  }

  function Wins(history: seq<Outcome>, sig: string): nat {
    if history == [] then 0
    else
      var n := |history| - 1;
      Wins(history[..n], sig) + if history[n].success == sig then 1 else 0
  }

  ghost predicate DisabledIsExact(h: Hint) {
    forall sig :: sig in h.disabled
      <==> Count(h.successCounts, sig) <= 0 && Count(h.failCounts, sig) >= DISABLE_THRESHOLD
  }

  lemma {:induction false} AttemptsEffect(h: Hint, attempts: seq<Attempt>, success: string)
    requires DisabledIsExact(h) && forall sig :: Count(h.failCounts, sig) >= 0
    ensures var h' := RecordAttempts(h, attempts, success);
      && DisabledIsExact(h') && h'.successCounts == h.successCounts && h'.preferred == h.preferred
      && (forall sig :: Count(h'.failCounts, sig) == Count(h.failCounts, sig) + FailuresIn(attempts, sig, success))
  {
    if attempts != [] {
      AttemptsEffect(h, attempts[..|attempts| - 1], success);
    }
  }

  lemma SuccessEffect(h: Hint, success: string)
    requires DisabledIsExact(h) && forall sig :: Count(h.successCounts, sig) >= 0
    ensures DisabledIsExact(RecordSuccess(h, success))
  {
  }

  lemma {:induction false} WinnerNeverFails(attempts: seq<Attempt>, success: string)
    ensures FailuresIn(attempts, success, success) == 0
  {
    if attempts != [] { WinnerNeverFails(attempts[..|attempts| - 1], success); }
  }

  function LastWinner(history: seq<Outcome>): string {
    if history == [] then ""
    else
      var n := |history| - 1;
      if history[n].success != "" then history[n].success else LastWinner(history[..n])
  }

  /** The counts say: how often each signature won, and, until it wins, how often it failed. */
  ghost predicate CountsAreExact(h: Hint, history: seq<Outcome>) {
    && (forall sig :: Count(h.successCounts, sig) == if sig == "" then 0 else Wins(history, sig))
    && (forall sig :: 0 <= Count(h.failCounts, sig) <= Failures(history, sig))
    && (forall sig :: sig != "" && Wins(history, sig) == 0 ==> Count(h.failCounts, sig) == Failures(history, sig))
    && Failures(history, "") == 0
  }

  lemma {:induction false} NoFailuresWithoutSignature(attempts: seq<Attempt>, success: string)
    ensures FailuresIn(attempts, "", success) == 0
  {
    if attempts != [] { NoFailuresWithoutSignature(attempts[..|attempts| - 1], success); }
  }

  /** One recorded result: the winner gains a win and forgets one failure, every other locator gains its failures. */
  lemma ResultEffect(h: Hint, attempts: seq<Attempt>, success: string)
    requires DisabledIsExact(h) && success != ""
    requires forall sig :: Count(h.successCounts, sig) >= 0 && Count(h.failCounts, sig) >= 0
    ensures var h' := RecordResult(h, attempts, success);
      && DisabledIsExact(h') && h'.preferred == success
      && (forall sig :: Count(h'.successCounts, sig) == Count(h.successCounts, sig) + if sig == success then 1 else 0)
      && (forall sig :: Count(h'.failCounts, sig)
            == if sig == success then Max(Count(h.failCounts, sig) - 1, 0)
               else Count(h.failCounts, sig) + FailuresIn(attempts, sig, success))
      && FailuresIn(attempts, "", success) == FailuresIn(attempts, success, success) == 0
  {
    var h1 := RecordSuccess(h, success);
    SuccessEffect(h, success);
    hide FailuresIn, RecordAttempts;
    AttemptsEffect(h1, attempts, success);
    WinnerNeverFails(attempts, success);
    NoFailuresWithoutSignature(attempts, success);
    hide DisabledIsExact;
    assert DisabledIsExact(RecordAttempts(h1, attempts, success).(preferred := success)) by {
      PreferredDoesNotMatter(RecordAttempts(h1, attempts, success), success);
    }
  }

  lemma PreferredDoesNotMatter(h: Hint, success: string)
    requires DisabledIsExact(h)
    ensures DisabledIsExact(h.(preferred := success))
  {
  }

  /** What one more successful result adds to the counts of a history. */
  lemma HistoryStep(history: seq<Outcome>, sig: string)
    requires history != [] && history[|history| - 1].success != ""
    ensures var n := |history| - 1; var o := history[n];
      && Wins(history, sig) == Wins(history[..n], sig) + (if sig == o.success then 1 else 0)
      && Failures(history, sig) == Failures(history[..n], sig) + FailuresIn(o.attempts, sig, o.success)
  {
    hide FailuresIn;
  }

  lemma CountsStep(h: Hint, history: seq<Outcome>)
    requires history != [] && history[|history| - 1].success != ""
    requires DisabledIsExact(h) && CountsAreExact(h, history[..|history| - 1])
    ensures var o := history[|history| - 1]; var h' := RecordResult(h, o.attempts, o.success);
      DisabledIsExact(h') && CountsAreExact(h', history) && h'.preferred == o.success
  {
    hide RecordResult, DisabledIsExact, Count, Wins, Failures, FailuresIn;
    var o := history[|history| - 1];
    ResultEffect(h, o.attempts, o.success);
    HistoryStep(history, "");
    forall sig ensures Wins(history, sig) == Wins(history[..|history| - 1], sig) + (if sig == o.success then 1 else 0)
        && Failures(history, sig) == Failures(history[..|history| - 1], sig) + FailuresIn(o.attempts, sig, o.success)
    {
      HistoryStep(history, sig);
    }
  }

  lemma {:induction false} LearnedIsExact(history: seq<Outcome>)
    ensures DisabledIsExact(Learned(history)) && CountsAreExact(Learned(history), history)
    ensures Learned(history).preferred == LastWinner(history)
  {
    if history != [] {
      var n := |history| - 1;
      LearnedIsExact(history[..n]);
      hide DisabledIsExact, CountsAreExact;
      if history[n].success != "" {
        CountsStep(Learned(history[..n]), history);
      } else {
        SkippedResult(history);
      }
    }
  }

  /** A resolution without a winner teaches nothing. */
  lemma SkippedResult(history: seq<Outcome>)
    requires history != [] && history[|history| - 1].success == ""
    requires CountsAreExact(Learned(history), history[..|history| - 1])
    ensures CountsAreExact(Learned(history), history)
  {
    hide Learned, Count;
    var n := |history| - 1;
    assert forall sig :: Failures(history, sig) == Failures(history[..n], sig);
    assert forall sig :: sig != "" ==> Wins(history, sig) == Wins(history[..n], sig);
  }

  /** Over every history of recorded results: a locator is disabled exactly when it has never won and has failed at
      least three times; the last winner is preferred and is not disabled. */
  lemma DisabledExactlyWhen(history: seq<Outcome>, sig: string)
    requires sig != ""
    ensures sig in Learned(history).disabled <==> Wins(history, sig) == 0 && Failures(history, sig) >= 3
    ensures "" !in Learned(history).disabled
    ensures Learned(history).preferred == LastWinner(history)
    ensures LastWinner(history) !in Learned(history).disabled
  {
    LearnedIsExact(history);
    LastWinnerWon(history);
    hide Learned, Wins, Failures, LastWinner;
  }

  lemma {:induction false} LastWinnerWon(history: seq<Outcome>)
    ensures LastWinner(history) != "" ==> Wins(history, LastWinner(history)) >= 1
  {
    if history != [] { LastWinnerWon(history[..|history| - 1]); }
  }

  // ---- Ranking ----

  /** The learning results saved with a step's locator. */
  datatype Persisted = Persisted(failCount: int, preferred: bool, disabled: bool)

  datatype Candidate = Candidate(signature: string, locatorType: string, priority: int, index: nat,
      persisted: Persisted)

  function TypeWeight(locatorType: string): nat {
    match locatorType
    case "test_id" => 0
    case "id" => 1
    case "name" => 2
    case "role" => 3
    case "label" => 4
    case "placeholder" => 5
    case "text" => 6
    case "css" => 7
    case "xpath" => 8
    case _ => 99
  }

  predicate MemoryPreferred(h: Hint, c: Candidate) {
    c.signature != "" && c.signature == h.preferred
  }

  function PreferRank(h: Hint, c: Candidate): nat {
    if MemoryPreferred(h, c) then 0 else if c.persisted.preferred then 1 else 2
  }

  function HintFailCount(h: Hint, c: Candidate): int {
    Max(Count(h.failCounts, c.signature), c.persisted.failCount)
  }

  predicate HintDisabled(h: Hint, c: Candidate) {
    && c.signature != "" && (c.signature in h.disabled || c.persisted.disabled)
    && c.signature != h.preferred && PreferRank(h, c) > 0
  }

  function RankKey(h: Hint, c: Candidate): seq<int> {
    [PreferRank(h, c), HintFailCount(h, c), c.priority, TypeWeight(c.locatorType), c.index]
  }

  /** Python's order on tuples of the same length. */
  predicate LexLeq(a: seq<int>, b: seq<int>)
    requires |a| == |b|
  {
    a == [] || a[0] < b[0] || (a[0] == b[0] && LexLeq(a[1..], b[1..]))
  }

  function RankedBefore(h: Hint): (Candidate, Candidate) -> bool {
    (a, b) => LexLeq(RankKey(h, a), RankKey(h, b))
  }

  function Active(h: Hint, cs: seq<Candidate>): seq<Candidate> {
    if cs == [] then []
    else
      var n := |cs| - 1;
      Active(h, cs[..n]) + if HintDisabled(h, cs[n]) then [] else [cs[n]]
  }

  /** The candidates in the order they are tried: all of them when every one is disabled. */
  function Ranked(h: Hint, cs: seq<Candidate>): seq<Candidate> {
    var active := Active(h, cs);
    Sort(if active == [] then cs else active, RankedBefore(h))
  }

  lemma {:induction false} LexTotal(a: seq<int>, b: seq<int>)
    requires |a| == |b|
    ensures LexLeq(a, b) || LexLeq(b, a)
  {
    if a != [] { LexTotal(a[1..], b[1..]); }
  }

  lemma {:induction false} LexTransitive(a: seq<int>, b: seq<int>, c: seq<int>)
    requires |a| == |b| == |c| && LexLeq(a, b) && LexLeq(b, c)
    ensures LexLeq(a, c)
  {
    if a != [] && a[0] == b[0] == c[0] { LexTransitive(a[1..], b[1..], c[1..]); }
  }

  lemma RankingIsPreorder(h: Hint)
    ensures TotalPreorder(RankedBefore(h))
  {
    hide LexLeq;
    forall a, b ensures RankedBefore(h)(a, b) || RankedBefore(h)(b, a) {
      LexTotal(RankKey(h, a), RankKey(h, b));
    }
    forall a, b, c | RankedBefore(h)(a, b) && RankedBefore(h)(b, c) ensures RankedBefore(h)(a, c) {
      LexTransitive(RankKey(h, a), RankKey(h, b), RankKey(h, c));
    }
  }

  lemma {:induction false} ActiveAre(h: Hint, cs: seq<Candidate>, c: Candidate)
    ensures c in Active(h, cs) <==> c in cs && !HintDisabled(h, c)
  {
    hide HintDisabled;
    if cs != [] {
      var n := |cs| - 1;
      ActiveAre(h, cs[..n], c);
      assert cs == cs[..n] + [cs[n]];
    }
  }

  /** What is tried: exactly the candidates that are not disabled, or all of them when that leaves none; in rank
      order. */
  lemma RankedAre(h: Hint, cs: seq<Candidate>)
    ensures forall c ::
      c in Ranked(h, cs) <==> c in cs && (!HintDisabled(h, c) || forall d | d in cs :: HintDisabled(h, d))
    ensures SortedBy(Ranked(h, cs), RankedBefore(h))
    ensures cs != [] ==> Ranked(h, cs) != []
  {
    hide HintDisabled, RankedBefore, Active;
    var active := Active(h, cs);
    forall c ensures c in active <==> c in cs && !HintDisabled(h, c) { ActiveAre(h, cs, c); }
    SortElements(if active == [] then cs else active, RankedBefore(h));
    RankingIsPreorder(h);
    SortSorted(if active == [] then cs else active, RankedBefore(h));
    if active == [] {
      forall d | d in cs ensures HintDisabled(h, d) { assert d !in active; }
    } else {
      assert active[0] in active;
    }
  }

  /** The locator is barred: learned or saved as disabled, and not the one that won last. */
  predicate Barred(h: Hint, c: Candidate) {
    c.signature != "" && (c.signature in h.disabled || c.persisted.disabled) && c.signature != h.preferred
  }

  /** What is tried, told by the hint and the saved results: what is not barred, or everything when all is barred. */
  lemma TriedExactlyWhen(h: Hint, cs: seq<Candidate>, c: Candidate)
    ensures c in Ranked(h, cs) <==> c in cs && (!Barred(h, c) || forall d | d in cs :: Barred(h, d))
  {
    RankedAre(h, cs);
    hide Ranked;
    forall d ensures HintDisabled(h, d) <==> Barred(h, d) {}
  }

  lemma RankOrder(h: Hint, cs: seq<Candidate>, i: nat, j: nat)
    requires i < j < |Ranked(h, cs)|
    ensures var a, b := Ranked(h, cs)[i], Ranked(h, cs)[j];
      var samePreference := PreferRank(h, a) == PreferRank(h, b);
      var sameFailures := samePreference && HintFailCount(h, a) == HintFailCount(h, b);
      var samePriority := sameFailures && a.priority == b.priority;
      var sameType := samePriority && TypeWeight(a.locatorType) == TypeWeight(b.locatorType);
      && PreferRank(h, a) <= PreferRank(h, b)
      && (samePreference ==> HintFailCount(h, a) <= HintFailCount(h, b))
      && (sameFailures ==> a.priority <= b.priority)
      && (samePriority ==> TypeWeight(a.locatorType) <= TypeWeight(b.locatorType))
      && (sameType ==> a.index <= b.index)
  {
    RankedAre(h, cs);
    var a, b := Ranked(h, cs)[i], Ranked(h, cs)[j];
    hide Ranked, PreferRank, HintFailCount, TypeWeight;
    assert RankedBefore(h)(a, b);
    LexMeans(RankKey(h, a), RankKey(h, b));
  }

  /** How often the locator has failed, the larger of what was learned and what was saved. */
  predicate HasFailed(h: Hint, c: Candidate, n: int) {
    var learned := if c.signature in h.failCounts then h.failCounts[c.signature] else 0;
    n >= learned && n >= c.persisted.failCount && (n == learned || n == c.persisted.failCount)
  }

  const TYPE_ORDER: seq<string> :=
    ["test_id", "id", "name", "role", "label", "placeholder", "text", "css", "xpath"]

  /** What rank order means for a candidate in front of another. The locator that won last comes first, then those
      saved as preferred, then the rest. Within one of these classes the one that failed less often comes first; then
      the smaller priority number; then the type in the order of the list, other types last; then the position in the
      step. */
  lemma RankOrderMeans(h: Hint, cs: seq<Candidate>, i: nat, j: nat, m: int, n: int)
    requires i < j < |Ranked(h, cs)| && HasFailed(h, Ranked(h, cs)[i], m) && HasFailed(h, Ranked(h, cs)[j], n)
    ensures var a, b := Ranked(h, cs)[i], Ranked(h, cs)[j];
      var wonA := a.signature != "" && a.signature == h.preferred;
      var wonB := b.signature != "" && b.signature == h.preferred;
      var sameClass := wonA == wonB && (wonA || a.persisted.preferred == b.persisted.preferred);
      && (wonB ==> wonA) && (b.persisted.preferred ==> wonA || a.persisted.preferred)
      && (sameClass ==> m <= n)
      && (sameClass && m == n ==> a.priority <= b.priority)
      && (sameClass && m == n && a.priority == b.priority ==>
            && (b.locatorType in TYPE_ORDER ==> a.locatorType in TYPE_ORDER)
            && (forall x, y | 0 <= x < 9 && 0 <= y < 9 ::
                  a.locatorType == TYPE_ORDER[x] && b.locatorType == TYPE_ORDER[y] ==> x <= y)
            && ((a.locatorType == b.locatorType || (a.locatorType !in TYPE_ORDER && b.locatorType !in TYPE_ORDER))
                  ==> a.index <= b.index))
  {
    var a, b := Ranked(h, cs)[i], Ranked(h, cs)[j];
    RankOrder(h, cs, i, j);
    hide Ranked, TypeWeight;
    WeightOrders(a.locatorType, b.locatorType);
  }

  lemma WeightOrders(a: string, b: string)
    ensures TypeWeight(a) <= TypeWeight(b) ==> (b in TYPE_ORDER ==> a in TYPE_ORDER)
    ensures TypeWeight(a) <= TypeWeight(b) ==>
      forall x, y :: 0 <= x < 9 && 0 <= y < 9 && a == TYPE_ORDER[x] && b == TYPE_ORDER[y] ==> x <= y
    ensures a == b || (a !in TYPE_ORDER && b !in TYPE_ORDER) ==> TypeWeight(a) == TypeWeight(b)
  {
    WeightIsPlace(a);
    WeightIsPlace(b);
    hide TypeWeight;
  }

  lemma WeightIsPlace(a: string)
    ensures forall x | 0 <= x < 9 :: a == TYPE_ORDER[x] ==> TypeWeight(a) == x
    ensures a in TYPE_ORDER <==> TypeWeight(a) < 9
    ensures a !in TYPE_ORDER ==> TypeWeight(a) == 99
  {
    if TypeWeight(a) < 9 { assert a == TYPE_ORDER[TypeWeight(a)]; }
  }

  lemma LexMeans(a: seq<int>, b: seq<int>)
    requires |a| == |b| == 5 && LexLeq(a, b)
    ensures a[0] <= b[0] && (a[0] == b[0] ==> a[1] <= b[1]) && (a[0] == b[0] && a[1] == b[1] ==> a[2] <= b[2])
    ensures a[0] == b[0] && a[1] == b[1] && a[2] == b[2] ==> a[3] <= b[3]
    ensures a[0] == b[0] && a[1] == b[1] && a[2] == b[2] && a[3] == b[3] ==> a[4] <= b[4]
  {
    if a[0] == b[0] && a[1] == b[1] {
      assert LexLeq(a[1..][1..], b[1..][1..]);
      if a[2] == b[2] {
        assert LexLeq(a[1..][1..][1..], b[1..][1..][1..]);
        if a[3] == b[3] { assert LexLeq(a[1..][1..][1..][1..], b[1..][1..][1..][1..]); }
      }
    }
  }

  /** The last winner, if still among the candidates, is tried first at the next resolution, whatever was saved with any
      candidate and however often it has failed. */
  lemma LastWinnerIsRankedFirst(history: seq<Outcome>, cs: seq<Candidate>, c: Candidate)
    requires c in cs && c.signature == LastWinner(history) && c.signature != ""
    ensures var ranked := Ranked(Learned(history), cs); ranked != [] && ranked[0].signature == c.signature
  {
    LearnedIsExact(history);
    var h := Learned(history);
    hide Learned, LastWinner, DisabledIsExact, CountsAreExact, Ranked;
    RankedAre(h, cs);
    var ranked := Ranked(h, cs);
    assert !HintDisabled(h, c);
    var i :| 0 <= i < |ranked| && ranked[i] == c;
    if i > 0 {
      assert RankedBefore(h)(ranked[0], ranked[i]);
      assert PreferRank(h, ranked[0]) <= PreferRank(h, c) == 0;
    }
  }

  /** A locator that has only failed, three times or more, is not tried while another one is left, even one
      saved as preferred: that only changes its rank. */
  lemma FailedLocatorIsSkipped(history: seq<Outcome>, cs: seq<Candidate>, c: Candidate, other: Candidate)
    requires c.signature != "" && Wins(history, c.signature) == 0 && Failures(history, c.signature) >= 3
    requires other in cs && !Barred(Learned(history), other)
    ensures c !in Ranked(Learned(history), cs)
  {
    DisabledExactlyWhen(history, c.signature);
    TriedExactlyWhen(Learned(history), cs, c);
    LastWinnerWon(history);
    hide Learned, LastWinner, Ranked, Wins, Failures;
    assert c.signature != LastWinner(history);
  }
}
