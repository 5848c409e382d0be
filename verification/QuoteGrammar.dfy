/** JSON texts by the grammar of sections 2 and 4 to 7 of RFC 8259, in which a string may also hold raw quotes, and
    what the quote repair makes of them. */
module QuoteGrammar {
  import opened PyJson
  import opened QuoteRepair

  /** One character of a string; `RawQuote` is the mistake to be repaired. */
  datatype Item = Plain(c: char) | Escape(c: char) | Unicode(hex: string) | RawQuote

  datatype Exponent = Exponent(mark: char, sign: string, digits: string)

  datatype Scalar = True | False | Nothing | Number(minus: bool, whole: string, fraction: string,
      exponent: Option<Exponent>)

  datatype Value =
    | Quoted(body: seq<Item>)
    | Token(scalar: Scalar)
    | Object(members: seq<Member>, blank: string)
    | Array(elements: seq<Element>, blank: string)

  datatype Member = Member(before: string, key: seq<Item>, afterKey: string, element: Element)

  datatype Element = Element(before: string, value: Value, after: string)

  // ---- Validity ----

  predicate IsBlank(s: string) {
    forall i | 0 <= i < |s| :: s[i] == ' ' || s[i] == '\t' || s[i] == '\n' || s[i] == '\r'
  }

  predicate IsDigits(s: string) {
    forall i | 0 <= i < |s| :: '0' <= s[i] <= '9'
  }

  predicate IsHex(s: string) {
    |s| == 4 && forall i | 0 <= i < 4 :: '0' <= s[i] <= '9' || 'a' <= s[i] <= 'f' || 'A' <= s[i] <= 'F'
  }

  predicate ValidItem(item: Item) {
    match item
    case Plain(c) => ' ' <= c && c != '"' && c != '\\'
    case Escape(c) => c == '"' || c == '\\' || c == '/' || c == 'b' || c == 'f' || c == 'n' || c == 'r' || c == 't'
    case Unicode(hex) => IsHex(hex)
    case RawQuote => true
  }

  predicate ValidBody(body: seq<Item>) {
    forall i | 0 <= i < |body| :: ValidItem(body[i])
  }

  predicate ValidScalar(s: Scalar) {
    s.Number? ==>
      && s.whole != "" && IsDigits(s.whole) && (|s.whole| > 1 ==> s.whole[0] != '0')
      && IsDigits(s.fraction)
      && (s.exponent.Some? ==>
          && (s.exponent.value.mark == 'e' || s.exponent.value.mark == 'E')
          && (s.exponent.value.sign == "" || s.exponent.value.sign == "+" || s.exponent.value.sign == "-")
          && s.exponent.value.digits != "" && IsDigits(s.exponent.value.digits))
  }

  predicate Valid(v: Value)
    decreases v
  {
    match v
    case Quoted(body) => ValidBody(body)
    case Token(s) => ValidScalar(s)
    case Object(ms, blank) => IsBlank(blank) && forall i | 0 <= i < |ms| :: ValidMember(ms[i])
    case Array(es, blank) => IsBlank(blank) && forall i | 0 <= i < |es| :: ValidElement(es[i])
  }

  predicate ValidMember(m: Member)
    decreases m
  {
    IsBlank(m.before) && ValidBody(m.key) && IsBlank(m.afterKey) && ValidElement(m.element)
  }

  predicate ValidElement(e: Element)
    decreases e
  {
    IsBlank(e.before) && Valid(e.value) && IsBlank(e.after)
  }

  // ---- Text, as the model wrote it or with its raw quotes escaped ----

  function ItemText(item: Item, fixed: bool): string {
    match item
    case Plain(c) => [c]
    case Escape(c) => ['\\', c]
    case Unicode(hex) => "\\u" + hex
    case RawQuote => if fixed then "\\\"" else "\""
  }

  function Body(body: seq<Item>, fixed: bool): string {
    if body == [] then "" else ItemText(body[0], fixed) + Body(body[1..], fixed)
  }

  function QuotedText(body: seq<Item>, fixed: bool): string {
    "\"" + Body(body, fixed) + "\""
  }

  function ScalarText(s: Scalar): string {
    match s
    case True => "true"
    case False => "false"
    case Nothing => "null"
    case Number(minus, whole, fraction, exponent) =>
      (if minus then "-" else "") + whole + (if fraction == "" then "" else "." + fraction)
      + (if exponent.None? then "" else [exponent.value.mark] + exponent.value.sign + exponent.value.digits)
  }

  function Render(v: Value, fixed: bool): string
    decreases v
  {
    match v
    case Quoted(body) => QuotedText(body, fixed)
    case Token(s) => ScalarText(s)
    case Object(ms, blank) => "{" + ((if ms == [] then blank else Members(ms, fixed)) + "}")
    case Array(es, blank) => "[" + ((if es == [] then blank else Elements(es, fixed)) + "]")
  }

  function Members(ms: seq<Member>, fixed: bool): string
    decreases ms
  {
    if ms == [] then ""
    else MemberText(ms[0], fixed) + (if |ms| == 1 then "" else "," + Members(ms[1..], fixed))
  }

  function Elements(es: seq<Element>, fixed: bool): string
    decreases es
  {
    if es == [] then ""
    else ElementText(es[0], fixed) + (if |es| == 1 then "" else "," + Elements(es[1..], fixed))
  }

  function MemberText(m: Member, fixed: bool): string
    decreases m
  {
    m.before + (QuotedText(m.key, fixed) + ((m.afterKey + ":") + ElementText(m.element, fixed)))
  }

  function ElementText(e: Element, fixed: bool): string
    decreases e
  {
    e.before + (Render(e.value, fixed) + e.after)
  }

  // ---- Which raw quotes can be recognised ----

  /** No raw quote of the string is followed, after blanks, by one of `, } ] :`. */
  predicate BodyRecoverable(body: seq<Item>) {
    body == [] || ((body[0].RawQuote? ==> !Closes(Body(body[1..], false) + "\"")) && BodyRecoverable(body[1..]))
  }

  lemma {:induction false} BodyRecoverableMeans(body: seq<Item>)
    ensures BodyRecoverable(body) <==>
      forall i | 0 <= i < |body| && body[i].RawQuote? ::
        !LeadsToStructure(Body(body[i + 1..], false) + "\"")
  {
    hide Body, LeadsToStructure, Closes;
    if body != [] {
      BodyRecoverableMeans(body[1..]);
      ClosesExactlyWhen(Body(body[1..], false) + "\"");
      forall i | 0 < i < |body| ensures body[i] == body[1..][i - 1] && body[i + 1..] == body[1..][i..] {}
      forall i | 0 <= i < |body[1..]| ensures body[1..][i] == body[i + 1] && body[1..][i + 1..] == body[i + 2..] {}
    }
  }

  predicate Recoverable(v: Value)
    decreases v
  {
    match v
    case Quoted(body) => BodyRecoverable(body)
    case Token(_) => true
    case Object(ms, _) => MembersRecoverable(ms)
    case Array(es, _) => ElementsRecoverable(es)
  }

  predicate MembersRecoverable(ms: seq<Member>)
    decreases ms
  {
    ms == [] || (BodyRecoverable(ms[0].key) && Recoverable(ms[0].element.value) && MembersRecoverable(ms[1..]))
  }

  predicate ElementsRecoverable(es: seq<Element>)
    decreases es
  {
    es == [] || (Recoverable(es[0].value) && ElementsRecoverable(es[1..]))
  }

  // ---- The scan over a piece of text ----

  predicate Diverges(a: string, b: string) {
    exists k :: 0 <= k < |a| && k < |b| && a[k] != b[k]
  }

  /** Outside a string and in front of `rest`, the scan turns `text` into `fixed` if `good`, and otherwise departs
      from it. */
  predicate Handles(text: string, rest: string, good: bool, fixed: string) {
    var out := Scan(text + rest, false);
    if good then out == fixed + Scan(rest, false) else Diverges(out, fixed)
  }

  lemma DivergeBehind(x: string, a: string, b: string)
    requires Diverges(a, b)
    ensures Diverges(x + a, x + b)
  {
    var k :| 0 <= k < |a| && k < |b| && a[k] != b[k];
    assert (x + a)[|x| + k] != (x + b)[|x| + k];
  }

  lemma DivergeBefore(a: string, b: string, y: string)
    requires Diverges(a, b)
    ensures Diverges(a, b + y)
  {
    var k :| 0 <= k < |a| && k < |b| && a[k] != b[k];
    assert a[k] != (b + y)[k];
  }

  lemma Compose(t1: string, g1: bool, f1: string, t2: string, g2: bool, f2: string, rest: string)
    requires Handles(t1, t2 + rest, g1, f1) && Handles(t2, rest, g2, f2)
    ensures Handles(t1 + t2, rest, g1 && g2, f1 + f2)
  {
    hide Scan;
    assert t1 + (t2 + rest) == (t1 + t2) + rest;
    var out := Scan((t1 + t2) + rest, false);
    if !g1 {
      DivergeBefore(out, f1, f2);
    } else if !g2 {
      DivergeBehind(f1, Scan(t2 + rest, false), f2);
    } else {
      assert out == (f1 + f2) + Scan(rest, false);
    }
  }

  lemma {:induction false} NoQuotes(text: string, rest: string)
    requires '"' !in text
    ensures Handles(text, rest, true, text)
  {
    if text == "" {
      assert text + rest == rest;
    } else {
      NoQuotes(text[1..], rest);
      assert (text + rest)[1..] == text[1..] + rest;
    }
  }

  lemma {:induction false} ClosesPastBlank(blank: string, rest: string)
    requires IsBlank(blank)
    ensures Closes(blank + rest) == Closes(rest)
  {
    if blank == "" {
      assert blank + rest == rest;
    } else {
      ClosesPastBlank(blank[1..], rest);
      assert (blank + rest)[1..] == blank[1..] + rest;
    }
  }

  lemma {:induction false} QuoteStopsLookAhead(text: string, rest: string)
    ensures Closes(text + "\"" + rest) == Closes(text + "\"")
  {
    var a, b := text + "\"" + rest, text + "\"";
    if text == "" {
      assert a[0] == '"' && b[0] == '"';
    } else {
      QuoteStopsLookAhead(text[1..], rest);
      assert a[1..] == text[1..] + "\"" + rest && b[1..] == text[1..] + "\"";
    }
  }

  // ---- Strings ----

  predicate HandlesBody(text: string, rest: string, good: bool, fixed: string) {
    var out := Scan(text + rest, true);
    if good then out == fixed + Scan(rest, false) else Diverges(out, fixed)
  }

  lemma {:induction false} PlainRun(text: string, rest: string)
    requires '"' !in text && '\\' !in text
    ensures Scan(text + rest, true) == text + Scan(rest, true)
  {
    if text == "" {
      assert text + rest == rest;
    } else {
      PlainRun(text[1..], rest);
      assert (text + rest)[1..] == text[1..] + rest;
    }
  }

  /** A valid item other than a raw quote passes through the scan unchanged. */
  lemma ItemPasses(item: Item, rest: string)
    requires ValidItem(item) && !item.RawQuote?
    ensures Scan(ItemText(item, false) + rest, true) == ItemText(item, true) + Scan(rest, true)
  {
    var text := ItemText(item, false);
    match item
    case Plain(c) => PlainRun(text, rest);
    case Escape(c) =>
      assert (text + rest)[..2] == text && (text + rest)[2..] == rest;
    case Unicode(hex) =>
      assert (text + rest)[..2] == "\\u" && (text + rest)[2..] == hex + rest;
      PlainRun(hex, rest);
      assert "\\u" + (hex + Scan(rest, true)) == text + Scan(rest, true);
  }

  /** One more item in front of a handled tail. */
  lemma ItemHandled(item: Item, tail: string, rest: string, good: bool, fixedTail: string)
    requires ValidItem(item) && HandlesBody(tail, rest, good, fixedTail) && Closes(tail + rest) == Closes(tail)
    ensures HandlesBody(ItemText(item, false) + tail, rest, good && (item.RawQuote? ==> !Closes(tail)),
                        ItemText(item, true) + fixedTail)
  {
    hide Closes, Scan, ValidItem;
    var head, fixedHead := ItemText(item, false), ItemText(item, true);
    var text := head + (tail + rest);
    assert (head + tail) + rest == text;
    if item.RawQuote? {
      assert text[1..] == tail + rest;
      ScanStep(text, true);
    } else {
      ItemPasses(item, tail + rest);
    }
    hide ItemText;
    BodyStep(text, fixedHead, fixedTail, tail, rest, item.RawQuote? && Closes(tail), good);
  }

  lemma EmptyBodyHandled(rest: string)
    requires Closes(rest)
    ensures HandlesBody("\"", rest, true, "\"")
  {
    assert ("\"" + rest)[1..] == rest;
  }

  lemma {:induction false} BodyHandled(body: seq<Item>, rest: string)
    requires ValidBody(body) && Closes(rest)
    ensures HandlesBody(Body(body, false) + "\"", rest, BodyRecoverable(body), Body(body, true) + "\"")
  {
    hide HandlesBody, Closes, ItemText, Scan;
    if body == [] {
      EmptyBodyHandled(rest);
      assert Body([], false) == Body([], true) == "" && "" + "\"" == "\"";
    } else {
      BodyHandled(body[1..], rest);
      var tail, fixedTail := Body(body[1..], false) + "\"", Body(body[1..], true) + "\"";
      QuoteStopsLookAhead(Body(body[1..], false), rest);
      ItemHandled(body[0], tail, rest, BodyRecoverable(body[1..]), fixedTail);
      assert Body(body, false) + "\"" == ItemText(body[0], false) + tail;
      assert Body(body, true) + "\"" == ItemText(body[0], true) + fixedTail;
    }
  }

  lemma BodyStep(text: string, fixedHead: string, fixedTail: string, tail: string, rest: string, bad: bool, good: bool)
    requires HandlesBody(tail, rest, good, fixedTail)
    requires bad ==> fixedHead == "\\\"" && Scan(text, true) == "\"" + Scan(tail + rest, false)
    requires !bad ==> Scan(text, true) == fixedHead + Scan(tail + rest, true)
    ensures if !bad && good then Scan(text, true) == (fixedHead + fixedTail) + Scan(rest, false)
            else Diverges(Scan(text, true), fixedHead + fixedTail)
  {
    hide Scan;
    var out, expected := Scan(text, true), fixedHead + fixedTail;
    if bad {
      assert out[0] != expected[0];
    } else if !good {
      DivergeBehind(fixedHead, Scan(tail + rest, true), fixedTail);
    } else {
      assert fixedHead + (fixedTail + Scan(rest, false)) == expected + Scan(rest, false);
    }
  }

  lemma QuotedHandled(body: seq<Item>, rest: string)
    requires ValidBody(body) && Closes(rest)
    ensures Handles(QuotedText(body, false), rest, BodyRecoverable(body), QuotedText(body, true))
  {
    hide Scan, Closes, Body, BodyRecoverable;
    var inner, fixedInner := Body(body, false) + "\"", Body(body, true) + "\"";
    var text := QuotedText(body, false) + rest;
    BodyHandled(body, rest);
    assert text == "\"" + (inner + rest) && text[1..] == inner + rest && [text[0]] == "\"";
    assert QuotedText(body, true) == "\"" + fixedInner;
    ScanStep(text, false);
    if BodyRecoverable(body) {
      assert "\"" + (fixedInner + Scan(rest, false)) == QuotedText(body, true) + Scan(rest, false);
    } else {
      DivergeBehind("\"", Scan(inner + rest, true), fixedInner);
    }
  }

  // ---- Values ----

  lemma ScalarHasNoQuotes(s: Scalar)
    requires ValidScalar(s)
    ensures '"' !in ScalarText(s)
  {
  }

  lemma {:induction false} ValueHandled(v: Value, rest: string)
    requires Valid(v) && Closes(rest)
    ensures Handles(Render(v, false), rest, Recoverable(v), Render(v, true))
    decreases v, 0
  {
    hide Scan, Handles, Closes;
    match v {
      case Quoted(body) => QuotedHandled(body, rest);
      case Token(s) =>
        ScalarHasNoQuotes(s);
        NoQuotes(ScalarText(s), rest);
      case Object(ms, blank) =>
        if ms == [] {
          NoQuotes("{" + (blank + "}"), rest);
        } else {
          Structural("}", rest);
          MembersHandled(ms, "}" + rest);
          NoQuotes("}", rest);
          Compose(Members(ms, false), MembersRecoverable(ms), Members(ms, true), "}", true, "}", rest);
          NoQuotes("{", Members(ms, false) + "}" + rest);
          Compose("{", true, "{", Members(ms, false) + "}", MembersRecoverable(ms), Members(ms, true) + "}", rest);
        }
      case Array(es, blank) =>
        if es == [] {
          NoQuotes("[" + (blank + "]"), rest);
        } else {
          Structural("]", rest);
          ElementsHandled(es, "]" + rest);
          NoQuotes("]", rest);
          Compose(Elements(es, false), ElementsRecoverable(es), Elements(es, true), "]", true, "]", rest);
          NoQuotes("[", Elements(es, false) + "]" + rest);
          Compose("[", true, "[", Elements(es, false) + "]", ElementsRecoverable(es), Elements(es, true) + "]", rest);
        }
    }
  }

  lemma Structural(c: string, rest: string)
    requires c == "," || c == "}" || c == "]" || c == ":"
    ensures Closes(c + rest)
  {
    assert (c + rest)[0] == c[0];
  }

  lemma {:induction false} ElementHandled(e: Element, rest: string)
    requires ValidElement(e) && Closes(rest)
    ensures Handles(ElementText(e, false), rest, Recoverable(e.value), ElementText(e, true))
    decreases e, 1
  {
    hide Scan, Handles, Closes;
    ClosesPastBlank(e.after, rest);
    ValueHandled(e.value, e.after + rest);
    NoQuotes(e.after, rest);
    var text, fixed := Render(e.value, false), Render(e.value, true);
    Compose(text, Recoverable(e.value), fixed, e.after, true, e.after, rest);
    NoQuotes(e.before, text + e.after + rest);
    Compose(e.before, true, e.before, text + e.after, Recoverable(e.value), fixed + e.after, rest);
  }

  lemma {:induction false} MemberHandled(m: Member, rest: string)
    requires ValidMember(m) && Closes(rest)
    ensures Handles(MemberText(m, false), rest, BodyRecoverable(m.key)
      && Recoverable(m.element.value), MemberText(m, true))
    decreases m, 1
  {
    hide Scan, Handles, Closes;
    var colon, good := m.afterKey + ":", Recoverable(m.element.value);
    var value, fixedValue := ElementText(m.element, false), ElementText(m.element, true);
    ElementHandled(m.element, rest);
    NoQuotes(colon, value + rest);
    Compose(colon, true, colon, value, good, fixedValue, rest);
    Structural(":", value + rest);
    ClosesPastBlank(m.afterKey, ":" + (value + rest));
    assert m.afterKey + (":" + (value + rest)) == (colon + value) + rest;
    QuotedHandled(m.key, (colon + value) + rest);
    var key, fixedKey := QuotedText(m.key, false), QuotedText(m.key, true);
    Compose(key, BodyRecoverable(m.key), fixedKey, colon + value, good, colon + fixedValue, rest);
    NoQuotes(m.before, (key + (colon + value)) + rest);
    Compose(m.before, true, m.before, key + (colon + value), BodyRecoverable(m.key) && good,
            fixedKey + (colon + fixedValue), rest);
  }

  lemma {:induction false} MembersHandled(ms: seq<Member>, rest: string)
    requires ms != [] && (forall i | 0 <= i < |ms| :: ValidMember(ms[i])) && Closes(rest)
    ensures Handles(Members(ms, false), rest, MembersRecoverable(ms), Members(ms, true))
    decreases ms, 1
  {
    hide Scan, Handles, Closes;
    var good := BodyRecoverable(ms[0].key) && Recoverable(ms[0].element.value);
    if |ms| == 1 {
      MemberHandled(ms[0], rest);
      assert MemberText(ms[0], false) + "" == MemberText(ms[0], false)
        && MemberText(ms[0], true) + "" == MemberText(ms[0], true);
    } else {
      MembersHandled(ms[1..], rest);
      var tail, fixedTail := Members(ms[1..], false), Members(ms[1..], true);
      NoQuotes(",", tail + rest);
      Compose(",", true, ",", tail, MembersRecoverable(ms[1..]), fixedTail, rest);
      Structural(",", tail + rest);
      assert "," + (tail + rest) == ("," + tail) + rest;
      MemberHandled(ms[0], ("," + tail) + rest);
      Compose(MemberText(ms[0], false), good, MemberText(ms[0], true), "," + tail, MembersRecoverable(ms[1..]),
        "," + fixedTail, rest);
    }
  }

  lemma {:induction false} ElementsHandled(es: seq<Element>, rest: string)
    requires es != [] && (forall i | 0 <= i < |es| :: ValidElement(es[i])) && Closes(rest)
    ensures Handles(Elements(es, false), rest, ElementsRecoverable(es), Elements(es, true))
    decreases es, 1
  {
    hide Scan, Handles, Closes;
    if |es| == 1 {
      ElementHandled(es[0], rest);
      assert ElementText(es[0], false) + "" == ElementText(es[0], false)
        && ElementText(es[0], true) + "" == ElementText(es[0], true);
    } else {
      ElementsHandled(es[1..], rest);
      var tail, fixedTail := Elements(es[1..], false), Elements(es[1..], true);
      NoQuotes(",", tail + rest);
      Compose(",", true, ",", tail, ElementsRecoverable(es[1..]), fixedTail, rest);
      Structural(",", tail + rest);
      assert "," + (tail + rest) == ("," + tail) + rest;
      ElementHandled(es[0], ("," + tail) + rest);
      Compose(ElementText(es[0], false), Recoverable(es[0].value), ElementText(es[0], true),
              "," + tail, ElementsRecoverable(es[1..]), "," + fixedTail, rest);
    }
  }

  /** The scan escapes exactly the raw quotes of a document exactly when none of them is followed, after blanks,
      by a structural character. */
  lemma ScanRepairsExactlyWhen(v: Value)
    requires Valid(v)
    ensures Scan(Render(v, false), false) == Render(v, true) <==> Recoverable(v)
  {
    hide Scan, Render, Recoverable;
    EmptyScan();
    ValueHandled(v, "");
    var text := Render(v, false);
    assert text + "" == text && Render(v, true) + "" == Render(v, true);
    if !Recoverable(v) {
      var out, fixed := Scan(text, false), Render(v, true);
      var k :| 0 <= k < |out| && k < |fixed| && out[k] != fixed[k];
    }
  }

  // ---- The document that was meant ----

  function CorrectBody(body: seq<Item>): seq<Item> {
    seq(|body|, i requires 0 <= i < |body| => if body[i].RawQuote? then Escape('"') else body[i])
  }

  /** The same document with every raw quote written as an escape. */
  function Corrected(v: Value): Value
    decreases v
  {
    match v
    case Quoted(body) => Quoted(CorrectBody(body))
    case Token(_) => v
    case Object(ms, blank) => Object(seq(|ms|, i requires 0 <= i < |ms| => CorrectMember(ms[i])), blank)
    case Array(es, blank) => Array(seq(|es|, i requires 0 <= i < |es| => CorrectElement(es[i])), blank)
  }

  function CorrectMember(m: Member): Member
    decreases m
  {
    Member(m.before, CorrectBody(m.key), m.afterKey, CorrectElement(m.element))
  }

  function CorrectElement(e: Element): Element
    decreases e
  {
    Element(e.before, Corrected(e.value), e.after)
  }

  /** A text of the RFC's own grammar: no raw quotes. */
  predicate WellFormed(v: Value) {
    Valid(v) && Corrected(v) == v
  }

  function CorrectMembers(ms: seq<Member>): seq<Member> {
    seq(|ms|, i requires 0 <= i < |ms| => CorrectMember(ms[i]))
  }

  function CorrectElements(es: seq<Element>): seq<Element> {
    seq(|es|, i requires 0 <= i < |es| => CorrectElement(es[i]))
  }

  lemma {:induction false} BodyCorrected(body: seq<Item>, fixed: bool)
    ensures Body(CorrectBody(body), fixed) == Body(body, true) && BodyRecoverable(CorrectBody(body))
    ensures ValidBody(body) ==> ValidBody(CorrectBody(body))
    ensures CorrectBody(CorrectBody(body)) == CorrectBody(body)
  {
    if body != [] {
      BodyCorrected(body[1..], fixed);
      assert CorrectBody(body)[1..] == CorrectBody(body[1..]);
    }
  }

  lemma {:induction false} ValueCorrected(v: Value, fixed: bool)
    ensures Render(Corrected(v), fixed) == Render(v, true) && Recoverable(Corrected(v))
    ensures (Valid(v) ==> Valid(Corrected(v))) && Corrected(Corrected(v)) == Corrected(v)
    decreases v, 0
  {
    match v {
      case Quoted(body) => BodyCorrected(body, fixed);
      case Token(_) =>
      case Object(ms, blank) =>
        MembersCorrected(ms, fixed);
        assert Corrected(v) == Object(CorrectMembers(ms), blank);
        assert Corrected(Corrected(v)) == Object(CorrectMembers(CorrectMembers(ms)), blank);
      case Array(es, blank) =>
        ElementsCorrected(es, fixed);
        assert Corrected(v) == Array(CorrectElements(es), blank);
        assert Corrected(Corrected(v)) == Array(CorrectElements(CorrectElements(es)), blank);
    }
  }

  lemma {:induction false} ElementCorrected(e: Element, fixed: bool)
    ensures ElementText(CorrectElement(e), fixed) == ElementText(e, true) && Recoverable(CorrectElement(e).value)
    ensures (ValidElement(e) ==> ValidElement(CorrectElement(e)))
      && CorrectElement(CorrectElement(e)) == CorrectElement(e)
    decreases e, 1
  {
    ValueCorrected(e.value, fixed);
  }

  lemma {:induction false} MemberCorrected(m: Member, fixed: bool)
    ensures MemberText(CorrectMember(m), fixed) == MemberText(m, true)
    ensures BodyRecoverable(CorrectMember(m).key) && Recoverable(CorrectMember(m).element.value)
    ensures (ValidMember(m) ==> ValidMember(CorrectMember(m))) && CorrectMember(CorrectMember(m)) == CorrectMember(m)
    decreases m, 1
  {
    BodyCorrected(m.key, fixed);
    ElementCorrected(m.element, fixed);
  }

  lemma {:induction false} MembersCorrected(ms: seq<Member>, fixed: bool)
    ensures Members(CorrectMembers(ms), fixed) == Members(ms, true) && MembersRecoverable(CorrectMembers(ms))
    ensures forall i | 0 <= i < |ms| && ValidMember(ms[i]) :: ValidMember(CorrectMembers(ms)[i])
    ensures CorrectMembers(CorrectMembers(ms)) == CorrectMembers(ms)
    decreases ms, 1
  {
    hide CorrectMember, ValidMember, MemberText;
    if ms != [] {
      MembersCorrected(ms[1..], fixed);
      MemberCorrected(ms[0], fixed);
      assert CorrectMembers(ms)[1..] == CorrectMembers(ms[1..]);
      assert CorrectMembers(CorrectMembers(ms))[1..] == CorrectMembers(CorrectMembers(ms[1..]));
      forall i | 0 < i < |ms|
        ensures CorrectMembers(ms)[i] == CorrectMembers(ms[1..])[i - 1] && ms[i] == ms[1..][i - 1] {}
    }
  }

  lemma {:induction false} ElementsCorrected(es: seq<Element>, fixed: bool)
    ensures Elements(CorrectElements(es), fixed) == Elements(es, true) && ElementsRecoverable(CorrectElements(es))
    ensures forall i | 0 <= i < |es| && ValidElement(es[i]) :: ValidElement(CorrectElements(es)[i])
    ensures CorrectElements(CorrectElements(es)) == CorrectElements(es)
    decreases es, 1
  {
    hide CorrectElement, ValidElement, ElementText;
    if es != [] {
      ElementsCorrected(es[1..], fixed);
      ElementCorrected(es[0], fixed);
      assert CorrectElements(es)[1..] == CorrectElements(es[1..]);
      assert CorrectElements(CorrectElements(es))[1..] == CorrectElements(CorrectElements(es[1..]));
      forall i | 0 < i < |es|
        ensures CorrectElements(es)[i] == CorrectElements(es[1..])[i - 1] && es[i] == es[1..][i - 1] {}
    }
  }

  /** The scan leaves every well-formed JSON text as it is. */
  lemma WellFormedUnchanged(v: Value)
    requires WellFormed(v)
    ensures Scan(Render(v, false), false) == Render(v, false)
  {
    ValueCorrected(v, false);
    ScanRepairsExactlyWhen(v);
  }

  // ---- The whole function ----

  lemma CandidateOf(v: Value, before: string, after: string)
    requires v.Object? && '{' !in before && '}' !in after
    ensures Candidate(before + Render(v, false) + after) == Some(Render(v, false))
  {
    var doc := Render(v, false);
    var text := before + doc + after;
    var start, end := |before|, |before| + |doc|;
    assert doc[0] == '{' && doc[|doc| - 1] == '}' && |doc| >= 2;
    assert text[start] == '{' && text[end - 1] == '}';
    forall j | 0 <= j < start ensures text[j] != '{' { assert text[j] == before[j]; }
    forall j | end <= j < |text| ensures text[j] != '}' { assert text[j] == after[j - end]; }
    assert FirstOf(text, '{') == start;
    assert PastLastOf(text, '}') == end;
    assert text[start..end] == doc;
  }

  /** Around an object text with raw quotes, and whatever stands before its first and after its last brace, the repair
      gives the document that was meant, a well-formed one, exactly when every raw quote can be recognised and
      `json.loads` accepts that document; when it does not accept it the repair gives up. */
  lemma RepairGivesMeantDocumentExactlyWhen(v: Value, before: string, after: string, loadsObject: string -> bool)
    requires Valid(v) && v.Object? && '{' !in before && '}' !in after
    ensures var repaired, meant := Repair(before + Render(v, false) + after, loadsObject), Render(Corrected(v), false);
      && (repaired == Some(meant) <==> Recoverable(v) && loadsObject(meant))
      && (Recoverable(v) && !loadsObject(meant) ==> repaired == None)
    ensures WellFormed(Corrected(v)) && Corrected(v).Object?
  {
    ValueCorrected(v, false);
    hide Scan, Render, Candidate, Recoverable;
    CandidateOf(v, before, after);
    ScanRepairsExactlyWhen(v);
  }

  /** A quote before a comma inside a string is beyond the scan: this document is taken for one whose string ended
      there. */
  lemma QuoteBeforeCommaIsNotRecovered()
    ensures var v := Object([Member("", [Plain('a')], "",
      Element("", Quoted([Plain('b'), RawQuote, Plain(',')]), ""))], "");
      Valid(v) && !Recoverable(v) && Scan(Render(v, false), false) != Render(v, true)
  {
    var body := [Plain('b'), RawQuote, Plain(',')];
    var m := Member("", [Plain('a')], "", Element("", Quoted(body), ""));
    var v := Object([m], "");
    assert body[1..] == [RawQuote, Plain(',')] && body[1..][1..] == [Plain(',')];
    assert Body([Plain(',')], false) == "," + Body([], false);
    assert (Body([Plain(',')], false) + "\"")[0] == ',';
    assert !BodyRecoverable(body[1..]);
    assert ValidElement(m.element) && ValidMember(m);
    ScanRepairsExactlyWhen(v);
  }
}
