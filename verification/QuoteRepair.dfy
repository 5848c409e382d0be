/** The one-pass repair of unescaped quotes in model output
    (client_new/services/ticket_ai_analysis_service.py, `_repair_unescaped_quotes`). */
module QuoteRepair {
  import opened PyJson

  predicate IsStructural(c: char) {
    c == ',' || c == '}' || c == ']' || c == ':'
  }

  /** A quote in front of `rest` counts as closing: after blanks comes a structural character or the end. */
  predicate Closes(rest: string) {
    if rest == "" then true
    else if IsSpace(rest[0]) then Closes(rest[1..])
    else IsStructural(rest[0])
  }

  /** After `n` blanks comes the end or one of `, } ] :`. */
  predicate StructureAfter(rest: string, n: int) {
    && 0 <= n <= |rest| && (forall j | 0 <= j < n :: IsSpace(rest[j]))
    && (n == |rest| || rest[n] == ',' || rest[n] == '}' || rest[n] == ']' || rest[n] == ':')
  }

  predicate LeadsToStructure(rest: string) {
    exists n | 0 <= n <= |rest| :: StructureAfter(rest, n)
  }

  lemma {:induction false} ClosesExactlyWhen(rest: string)
    ensures Closes(rest) <==> LeadsToStructure(rest)
  {
    if rest == "" {
      assert StructureAfter(rest, 0);
    } else if IsSpace(rest[0]) {
      ClosesExactlyWhen(rest[1..]);
      forall n ensures StructureAfter(rest[1..], n) <==> n >= 0 && StructureAfter(rest, n + 1) {
        if n >= 0 && StructureAfter(rest, n + 1) {
          forall j | 0 <= j < n ensures IsSpace(rest[1..][j]) { assert IsSpace(rest[j + 1]); }
        }
      }
      if n :| StructureAfter(rest, n) { assert n > 0 && StructureAfter(rest[1..], n - 1); }
    } else if IsStructural(rest[0]) {
      assert StructureAfter(rest, 0);
    }
  }

  function Scan(s: string, inString: bool): string {
    if s == "" then ""
    else if !inString then [s[0]] + Scan(s[1..], s[0] == '"')
    else if s[0] == '\\' && |s| > 1 then s[..2] + Scan(s[2..], true)
    else if s[0] == '"' then
      if Closes(s[1..]) then "\"" + Scan(s[1..], false) else "\\\"" + Scan(s[1..], true)
    else [s[0]] + Scan(s[1..], true)
  }

  method ScanText(candidate: string) returns (repaired: string)
    ensures repaired == Scan(candidate, false)
  {
    hide Closes, Scan;
    EmptyScan();
    var inString := false;
    repaired := "";
    var index := 0;
    assert candidate[0..] == candidate;
    while index < |candidate|
      invariant 0 <= index <= |candidate|
      invariant repaired + Scan(candidate[index..], inString) == Scan(candidate, false)
    {
      var ch := candidate[index];
      ghost var rest, before, was, from := candidate[index..], repaired, inString, index;
      var piece := [ch];
      if !inString {
        if ch == '"' { inString := true; }
        index := index + 1;
      } else if ch == '\\' && index + 1 < |candidate| {
        piece := candidate[index..index + 2];
        index := index + 2;
      } else if ch == '"' {
        if Closes(candidate[index + 1..]) {
          inString := false;
        } else {
          piece := "\\\"";
        }
        index := index + 1;
      } else {
        index := index + 1;
      }
      repaired := repaired + piece;
      assert candidate[index..] == rest[index - from..];
      assert ch == rest[0] && candidate[from + 1..] == rest[1..] && candidate[from..index] == rest[..index - from];
      ScanStep(rest, was);
      assert Scan(rest, was) == piece + Scan(candidate[index..], inString);
      assert before + (piece + Scan(candidate[index..], inString)) == repaired + Scan(candidate[index..], inString);
    }
    assert candidate[index..] == "";
  }

  lemma EmptyScan()
    ensures Scan("", true) == Scan("", false) == ""
  {
  }

  /** One step of the scan: what it emits, how much it consumes, and the state it leaves. */
  lemma ScanStep(s: string, inString: bool)
    requires s != ""
    ensures !inString ==> Scan(s, inString) == [s[0]] + Scan(s[1..], s[0] == '"')
    ensures inString && s[0] == '\\' && |s| > 1 ==> Scan(s, inString) == s[..2] + Scan(s[2..], true)
    ensures inString && s[0] == '"' && Closes(s[1..]) ==> Scan(s, inString) == [s[0]] + Scan(s[1..], false)
    ensures inString && s[0] == '"' && !Closes(s[1..]) ==> Scan(s, inString) == "\\\"" + Scan(s[1..], true)
    ensures inString && s[0] != '"' && !(s[0] == '\\' && |s| > 1) ==> Scan(s, inString) == [s[0]] + Scan(s[1..], true)
  {
  }

  // ---- Idempotence ----

  /** What follows a closing quote is copied up to the next quote, so the look-ahead sees the same after a scan. */
  lemma {:induction false} ClosesAfterScan(rest: string)
    ensures Closes(Scan(rest, false)) == Closes(rest)
  {
    if rest != "" && IsSpace(rest[0]) {
      ClosesAfterScan(rest[1..]);
      assert Scan(rest, false)[1..] == Scan(rest[1..], false);
    }
  }

  lemma {:induction false} ScanIdempotent(s: string, inString: bool)
    ensures Scan(Scan(s, inString), inString) == Scan(s, inString)
    decreases |s|
  {
    var out := Scan(s, inString);
    if s == "" {
    } else if !inString {
      ScanIdempotent(s[1..], s[0] == '"');
      assert out[1..] == Scan(s[1..], s[0] == '"');
    } else if s[0] == '\\' && |s| > 1 {
      ScanIdempotent(s[2..], true);
      assert out[2..] == Scan(s[2..], true) && out[..2] == s[..2];
    } else if s[0] == '"' && Closes(s[1..]) {
      ScanIdempotent(s[1..], false);
      ClosesAfterScan(s[1..]);
      assert out[1..] == Scan(s[1..], false);
    } else if s[0] == '"' {
      ScanIdempotent(s[1..], true);
      assert out[2..] == Scan(s[1..], true) && out[..2] == "\\\"";
    } else {
      ScanIdempotent(s[1..], true);
      assert out[1..] == Scan(s[1..], true);
      if s[0] == '\\' { assert out == "\\"; }
    }
  }

  // ---- Erasing what was inserted ----

  /** A character of the scan's output, and whether the scan inserted it. */
  datatype Mark = Mark(ch: char, inserted: bool)

  function Marked(s: string, inString: bool): seq<Mark> {
    if s == "" then []
    else if !inString then [Mark(s[0], false)] + Marked(s[1..], s[0] == '"')
    else if s[0] == '\\' && |s| > 1 then [Mark(s[0], false)] + ([Mark(s[1], false)] + Marked(s[2..], true))
    else if s[0] == '"' then
      if Closes(s[1..]) then [Mark(s[0], false)] + Marked(s[1..], false)
      else [Mark('\\', true)] + ([Mark(s[0], false)] + Marked(s[1..], true))
    else [Mark(s[0], false)] + Marked(s[1..], true)
  }

  function Text(ms: seq<Mark>): string {
    seq(|ms|, i requires 0 <= i < |ms| => ms[i].ch)
  }

  function Erase(ms: seq<Mark>): string {
    if ms == [] then "" else (if ms[0].inserted then "" else [ms[0].ch]) + Erase(ms[1..])
  }

  /** Every insertion is a backslash directly before a quote. */
  predicate OnlyBackslashes(ms: seq<Mark>) {
    forall i | 0 <= i < |ms| && ms[i].inserted :: ms[i].ch == '\\' && i + 1 < |ms| && ms[i + 1] == Mark('"', false)
  }

  lemma FirstMark(m: Mark, ms: seq<Mark>)
    requires OnlyBackslashes(ms) && (m.inserted ==> m.ch == '\\' && ms != [] && ms[0] == Mark('"', false))
    ensures Text([m] + ms) == [m.ch] + Text(ms)
    ensures Erase([m] + ms) == (if m.inserted then "" else [m.ch]) + Erase(ms)
    ensures OnlyBackslashes([m] + ms)
  {
    assert ([m] + ms)[1..] == ms;
  }

  lemma NoMarks()
    ensures Text([]) == "" && Erase([]) == "" && OnlyBackslashes([])
  {
  }

  /** The scan only inserts backslashes, each directly before a quote, and erasing them gives the input back. */
  lemma {:induction false} ScanOnlyInsertsBackslashes(s: string, inString: bool)
    ensures Text(Marked(s, inString)) == Scan(s, inString)
    ensures Erase(Marked(s, inString)) == s
    ensures OnlyBackslashes(Marked(s, inString))
    decreases |s|
  {
    hide Closes, Text, Erase, OnlyBackslashes;
    if s == "" {
      NoMarks();
    } else if inString && s[0] == '\\' && |s| > 1 {
      var rest := Marked(s[2..], true);
      ScanOnlyInsertsBackslashes(s[2..], true);
      FirstMark(Mark(s[1], false), rest);
      FirstMark(Mark(s[0], false), [Mark(s[1], false)] + rest);
      assert s == [s[0]] + ([s[1]] + s[2..]) && s[..2] == [s[0]] + [s[1]];
    } else {
      var interior := inString && s[0] == '"' && !Closes(s[1..]);
      var state := if !inString then s[0] == '"' else if s[0] == '"' then interior else true;
      var rest := Marked(s[1..], state);
      ScanOnlyInsertsBackslashes(s[1..], state);
      FirstMark(Mark(s[0], false), rest);
      if interior { FirstMark(Mark('\\', true), [Mark(s[0], false)] + rest); }
      assert s == [s[0]] + s[1..];
    }
  }

  // ---- The whole function ----

  function FirstOf(text: string, c: char): (i: nat)
    ensures i <= |text|
    ensures i < |text| ==> text[i] == c
    ensures forall j | 0 <= j < i :: text[j] != c
  {
    if text == "" || text[0] == c then 0 else 1 + FirstOf(text[1..], c)
  }

  /** One past the last `c`, or 0. */
  function PastLastOf(text: string, c: char): (i: nat)
    ensures i <= |text|
    ensures i > 0 ==> text[i - 1] == c
    ensures forall j | i <= j < |text| :: text[j] != c
  {
    if text == "" then 0
    else if text[|text| - 1] == c then |text|
    else PastLastOf(text[..|text| - 1], c)
  }

  /** The part of the text from the first `{` to the last `}`. */
  function Candidate(text: string): Option<string> {
    var start, end := FirstOf(text, '{'), PastLastOf(text, '}');
    if start == |text| || end == 0 || end - 1 <= start then None else Some(text[start..end])
  }

  /** `loadsObject` says that `json.loads` accepts a text and gives a dictionary. */
  function Repair(text: string, loadsObject: string -> bool): Option<string> {
    match Candidate(text)
    case None => None
    case Some(candidate) =>
      var repaired := Scan(candidate, false);
      if loadsObject(repaired) then Some(repaired) else None
  }

  method RepairUnescapedQuotes(text: string, loadsObject: string -> bool) returns (r: Option<string>)
    ensures r == Repair(text, loadsObject)
  {
    var start, end := FirstOf(text, '{'), PastLastOf(text, '}');
    if start == |text| || end == 0 || end - 1 <= start {
      return None;
    }
    var repaired := ScanText(text[start..end]);
    r := if loadsObject(repaired) then Some(repaired) else None;
  }

  /** The whole repair, told by the text: without an opening brace in front of a closing one there is nothing to repair;
      otherwise the scan of what stands from the first opening to the last closing brace, if it loads as an object. */
  lemma RepairTakes(text: string, loadsObject: string -> bool, i: nat, j: nat)
    ensures (forall a, b | 0 <= a < b < |text| :: text[a] != '{' || text[b] != '}') ==>
      Repair(text, loadsObject) == None
    ensures i < j < |text| && text[i] == '{' && '{' !in text[..i] && text[j] == '}' && '}' !in text[j + 1..] ==>
      var repaired := Scan(text[i..j + 1], false);
      Repair(text, loadsObject) == if loadsObject(repaired) then Some(repaired) else None
  {
    hide Scan;
    if i < j < |text| && text[i] == '{' && '{' !in text[..i] && text[j] == '}' && '}' !in text[j + 1..] {
      assert forall k | 0 <= k < i :: text[k] == text[..i][k];
      assert forall k | j < k < |text| :: text[k] == text[j + 1..][k - (j + 1)];
      assert FirstOf(text, '{') == i && PastLastOf(text, '}') == j + 1;
    }
  }

  lemma {:induction false} ScanKeepsEnds(s: string, inString: bool)
    requires s != ""
    ensures Scan(s, inString) != ""
    ensures s[|s| - 1] != '"' ==> Scan(s, inString)[|Scan(s, inString)| - 1] == s[|s| - 1]
    ensures s[0] != '"' ==> Scan(s, inString)[0] == s[0]
    decreases |s|
  {
    var n := if inString && s[0] == '\\' && |s| > 1 then 2 else 1;
    if |s| > n {
      var state := if inString then !(s[0] == '"' && Closes(s[1..])) else s[0] == '"';
      ScanKeepsEnds(s[n..], state);
      assert Scan(s, inString)[|Scan(s, inString)| - 1] == Scan(s[n..], state)[|Scan(s[n..], state)| - 1];
    }
  }

  /** Repairing a repaired text again changes nothing. */
  lemma RepairIdempotent(text: string, loadsObject: string -> bool)
    ensures Repair(text, loadsObject).Some? ==>
      Repair(Repair(text, loadsObject).value, loadsObject) == Repair(text, loadsObject)
  {
    if Repair(text, loadsObject).Some? {
      var candidate := Candidate(text).value;
      var repaired := Scan(candidate, false);
      ScanKeepsEnds(candidate, false);
      ScanIdempotent(candidate, false);
      assert repaired[0] == '{' && repaired[|repaired| - 1] == '}';
      assert FirstOf(repaired, '{') == 0 && PastLastOf(repaired, '}') == |repaired|;
      assert |repaired| > 1;
      assert repaired[0..|repaired|] == repaired;
    }
  }
}
