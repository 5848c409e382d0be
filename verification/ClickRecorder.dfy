/** The desktop recorder's click recogniser (client_new/services/desktop_test_service.py): a left click waits for a
    second one until its timer fires. Every handler holds `record_lock`, so each is one step, except that the keyboard
    listener's thread takes no lock: keys can be pressed while a handler is between joining the typed text and
    clearing it. */
module ClickRecorder {

  datatype Point = Point(x: int, y: int)

  datatype Button = Left | Right | Middle | Other(name: string)

  /** A click as the mouse listener reports it; `time` is the clock reading the handler takes, in seconds. */
  datatype Candidate = Candidate(at: Point, button: Button, time: real)

  datatype PendingClick = Nothing | Waiting(token: nat, click: Candidate)

  datatype Action = Click | RightClick | DoubleClick

  datatype Step =
    | TypeWrite(text: string)
    | MouseClick(at: Point, button: Button, action: Action, clicks: nat)
    | Drag(start: Point, end: Point, button: Button, durationMs: nat)
    | Scroll(at: Point, dx: int, dy: int)
    | Press(key: string)

  datatype Limits = Limits(distance: nat, interval: real)

  /** The option values, or none when `int()` refuses them. */
  datatype Options = Options(dragThresholdPx: (bool, int), doubleClickIntervalMs: (bool, int))

  function LimitsOf(o: Options): Limits {
    var px := if o.dragThresholdPx.0 then o.dragThresholdPx.1 else 12;
    var ms := if o.doubleClickIntervalMs.0 then o.doubleClickIntervalMs.1 else 320;
    Limits(if px < 2 then 2 else px, (if ms < 120 then 120 else ms) as real / 1000.0)
  }

  /** The limits, told by the options: at least 2 pixels, 12 if none can be read, and at least 120 ms, 320 if none can
      be read, as seconds. */
  lemma LimitsAre(o: Options)
    ensures var px, ms := o.dragThresholdPx, o.doubleClickIntervalMs;
      && (px.0 && px.1 >= 2 ==> LimitsOf(o).distance == px.1) && (px.0 && px.1 < 2 ==> LimitsOf(o).distance == 2)
      && (!px.0 ==> LimitsOf(o).distance == 12)
      && (ms.0 && ms.1 >= 120 ==> LimitsOf(o).interval * 1000.0 == ms.1 as real)
      && (ms.0 && ms.1 < 120 ==> LimitsOf(o).interval == 0.12) && (!ms.0 ==> LimitsOf(o).interval == 0.32)
  {
  }

  function Distance(a: int, b: int): nat {
    if a < b then b - a else a - b
  }

  predicate Near(a: Point, b: Point, l: Limits) {
    Distance(a.x, b.x) <= l.distance && Distance(a.y, b.y) <= l.distance
  }

  predicate MakeDouble(first: Candidate, second: Candidate, l: Limits) {
    first.button.Left? && second.button.Left? && second.time - first.time <= l.interval && Near(first.at, second.at, l)
  }

  // ---- The recorder as a state machine ----

  /** `timers` are the tokens of the tasks still sleeping; `accepted` and `keys` are histories: the clicks handed to the
      recogniser and the text typed so far, backspaces applied. */
  datatype Session = Session(
    active: bool, steps: seq<Step>, typing: string, pending: PendingClick, token: nat, timers: set<nat>,
    accepted: seq<Candidate>, keys: string)

  const START := Session(true, [], "", Nothing, 0, {}, [], "")

  function Emit(s: Session, step: Step): Session {
    if s.active then s.(steps := s.steps + [step]) else s
  }

  datatype KeyPress = Letter(letter: char) | Backspace

  function DropLast(text: string): string {
    if text == "" then "" else text[..|text| - 1]
  }

  /** A key for the text; a backspace with nothing typed is not one and goes to `handle_special_key`. */
  function TypeKey(s: Session, k: KeyPress): Session {
    if !s.active then s
    else
      match k
      case Letter(c) => s.(typing := s.typing + [c], keys := s.keys + [c])
      case Backspace => if s.typing == "" then s else s.(typing := DropLast(s.typing), keys := DropLast(s.keys))
  }

  function TypeKeys(s: Session, ks: seq<KeyPress>): Session {
    if ks == [] then s else TypeKey(TypeKeys(s, ks[..|ks| - 1]), ks[|ks| - 1])
  }

  /** The buffer is joined, `slip` is typed in between, then the buffer is cleared and the joined text recorded. */
  function FlushTyping(s: Session, slip: seq<KeyPress>): Session {
    if s.typing == "" then s else Emit(TypeKeys(s, slip).(typing := ""), TypeWrite(s.typing))
  }

  function SingleClick(at: Point, button: Button): Step {
    MouseClick(at, button, if button.Right? then RightClick else Click, 1)
  }

  function FlushClick(s: Session): Session {
    if s.pending.Nothing? then s
    else Emit(s.(pending := Nothing), SingleClick(s.pending.click.at, s.pending.click.button))
  }

  function FlushAll(s: Session, slip: seq<KeyPress>): Session {
    FlushClick(FlushTyping(s, slip))
  }

  function Accept(s: Session, c: Candidate): Session {
    s.(accepted := s.accepted + [c])
  }

  function HandleCandidate(s: Session, c: Candidate, slip: seq<KeyPress>, l: Limits): Session {
    if !s.active then s
    else
      var s1 := FlushTyping(s, slip);
      if !c.button.Left? then Emit(Accept(FlushClick(s1), c), SingleClick(c.at, c.button))
      else if s1.pending.Waiting? && MakeDouble(s1.pending.click, c, l) then
        Emit(Accept(s1.(pending := Nothing), c), MouseClick(c.at, c.button, DoubleClick, 2))
      else
        var s2 := Accept(FlushClick(s1), c);
        s2.(token := s2.token + 1, pending := Waiting(s2.token + 1, c), timers := s2.timers + {s2.token + 1})
  }

  function HandleOther(s: Session, step: Step, slip: seq<KeyPress>): Session {
    if !s.active then s else Emit(FlushAll(s, slip), step)
  }

  function FireTimer(s: Session, token: nat): Session {
    var s1 := s.(timers := s.timers - {token});
    if s1.pending.Waiting? && s1.pending.token == token then FlushClick(s1) else s1
  }

  datatype Event =
    | ClickCandidate(c: Candidate, slip: seq<KeyPress>)
    | OtherInput(step: Step, slip: seq<KeyPress>)
    | TimerFires(token: nat)
    | TypeText(key: KeyPress)
    | FlushTypingBuffer(slip: seq<KeyPress>)
    | FlushPendingEvents(slip: seq<KeyPress>)
    | Close

  /** A timer fires once; the other steps a handler records directly are drags, scrolls and keys. */
  predicate CanHappen(s: Session, e: Event) {
    match e
    case TimerFires(token) => token in s.timers
    case OtherInput(step, _) => step.Drag? || step.Scroll? || step.Press?
    case _ => true
  }

  function Next(s: Session, e: Event, l: Limits): Session {
    match e
    case ClickCandidate(c, slip) => HandleCandidate(s, c, slip, l)
    case OtherInput(step, slip) => HandleOther(s, step, slip)
    case TimerFires(token) => FireTimer(s, token)
    case TypeText(key) => TypeKey(s, key)
    case FlushTypingBuffer(slip) => FlushTyping(s, slip)
    case FlushPendingEvents(slip) => FlushAll(s, slip)
    case Close => s.(active := false, pending := Nothing)
  }

  // ---- The session object ----

  class DesktopRecorderSession {
    const limits: Limits
    var active: bool
    var steps: seq<Step>
    var typing: string
    var pending: PendingClick
    var token: nat
    var timers: set<nat>
    ghost var accepted: seq<Candidate>
    ghost var keys: string

    ghost function State(): Session
      reads this
    {
      Session(active, steps, typing, pending, token, timers, accepted, keys)
    }

    constructor (options: Options)
      ensures State() == START && limits == LimitsOf(options)
    {
      limits := LimitsOf(options);
      active, steps, typing, pending, token, timers := true, [], "", Nothing, 0, {};
      accepted, keys := [], "";
    }

    method Record(step: Step)
      modifies this`steps
      ensures State() == Emit(old(State()), step)
    {
      if active { steps := steps + [step]; }
    }

    /** `_on_key_press` for text keys, on the listener's thread. */
    method OnTextKey(k: KeyPress)
      modifies this`typing, this`keys
      ensures State() == TypeKey(old(State()), k)
    {
      if !active { return; }
      match k
      case Letter(c) => typing, keys := typing + [c], keys + [c];
      case Backspace =>
        if typing != "" { typing, keys := typing[..|typing| - 1], DropLast(keys); }
    }

    method OnTextKeys(ks: seq<KeyPress>)
      modifies this`typing, this`keys
      ensures State() == TypeKeys(old(State()), ks)
    {
      assert ks[..0] == [];
      for i := 0 to |ks|
        invariant State() == TypeKeys(old(State()), ks[..i])
      {
        assert ks[..i + 1][..i] == ks[..i];
        OnTextKey(ks[i]);
      }
      assert ks[..|ks|] == ks;
    }

    /** `slip` is what the listener's thread types between the join and the clear. */
    method FlushTypingBufferLocked(slip: seq<KeyPress>)
      modifies this
      ensures State() == FlushTyping(old(State()), slip)
    {
      if typing == "" { return; }
      var text := typing;
      OnTextKeys(slip);
      typing := "";
      Record(TypeWrite(text));
    }

    method FlushPendingClickLocked()
      modifies this
      ensures State() == FlushClick(old(State()))
    {
      if pending.Nothing? { return; }
      var click := pending.click;
      pending := Nothing;
      Record(SingleClick(click.at, click.button));
    }

    method HandleClickCandidate(c: Candidate, slip: seq<KeyPress>)
      modifies this
      ensures State() == HandleCandidate(old(State()), c, slip, limits)
    {
      hide FlushTyping;
      if !active { return; }
      FlushTypingBufferLocked(slip);
      if !c.button.Left? {
        FlushPendingClickLocked();
        accepted := accepted + [c];
        Record(SingleClick(c.at, c.button));
        return;
      }
      if pending.Waiting? {
        var withinInterval := c.time - pending.click.time <= limits.interval;
        var withinDistance := Near(pending.click.at, c.at, limits);
        if withinInterval && withinDistance && pending.click.button == c.button {
          pending := Nothing;
          accepted := accepted + [c];
          Record(MouseClick(c.at, c.button, DoubleClick, 2));
          return;
        }
        FlushPendingClickLocked();
      }
      accepted := accepted + [c];
      token := token + 1;
      pending := Waiting(token, c);
      timers := timers + {token};
    }

    method EmitPendingClickIfStillValid(t: nat)
      modifies this
      ensures State() == FireTimer(old(State()), t)
    {
      timers := timers - {t};
      if pending.Nothing? || pending.token != t { return; }
      FlushPendingClickLocked();
    }

    /** `handle_mouse_drag`, `handle_scroll` and `handle_special_key` differ in the step they record. */
    method HandleInput(step: Step, slip: seq<KeyPress>)
      modifies this
      ensures State() == HandleOther(old(State()), step, slip)
    {
      if !active { return; }
      FlushTypingBufferLocked(slip);
      FlushPendingClickLocked();
      Record(step);
    }

    method FlushPending(slip: seq<KeyPress>)
      modifies this
      ensures State() == FlushAll(old(State()), slip)
    {
      FlushTypingBufferLocked(slip);
      FlushPendingClickLocked();
    }

    method CloseSession()
      modifies this
      ensures State() == Next(old(State()), Close, limits)
    {
      active := false;
      pending := Nothing;
    }
  }

  // ---- What the recorded clicks say ----

  function Clicks(steps: seq<Step>): seq<Step> {
    if steps == [] then []
    else
      var n := |steps| - 1;
      Clicks(steps[..n]) + (if steps[n].MouseClick? then [steps[n]] else [])
  }

  function Typed(steps: seq<Step>): string {
    if steps == [] then ""
    else
      var n := |steps| - 1;
      Typed(steps[..n]) + (if steps[n].TypeWrite? then steps[n].text else "")
  }

  /** The recorded clicks account for the accepted ones in order: a single click for one of them, at its place and with
      its button; a double click for two consecutive left ones within the limits, at the place of the second. */
  predicate Explains(clicks: seq<Step>, accepted: seq<Candidate>, l: Limits) {
    if clicks == [] then accepted == []
    else
      var k, n := |clicks| - 1, |accepted|;
      clicks[k].MouseClick? &&
      (if clicks[k].clicks == 2 then
         && n >= 2 && MakeDouble(accepted[n - 2], accepted[n - 1], l)
         && clicks[k] == MouseClick(accepted[n - 1].at, Left, DoubleClick, 2)
         && Explains(clicks[..k], accepted[..n - 2], l)
       else
         && n >= 1 && clicks[k] == SingleClick(accepted[n - 1].at, accepted[n - 1].button)
         && Explains(clicks[..k], accepted[..n - 1], l))
  }

  function CountOf(clicks: seq<Step>): nat {
    if clicks == [] then 0
    else
      var n := |clicks| - 1;
      CountOf(clicks[..n]) + if clicks[n].MouseClick? then clicks[n].clicks else 0
  }

  /** The click counts add up to the clicks accepted. */
  lemma {:induction false} CountsAddUp(clicks: seq<Step>, accepted: seq<Candidate>, l: Limits)
    requires Explains(clicks, accepted, l)
    ensures CountOf(clicks) == |accepted|
  {
    if clicks != [] {
      var k, n := |clicks| - 1, |accepted|;
      if clicks[k].clicks == 2 {
        CountsAddUp(clicks[..k], accepted[..n - 2], l);
      } else {
        CountsAddUp(clicks[..k], accepted[..n - 1], l);
      }
    }
  }

  /** The clicks accepted and not waiting. */
  function Settled(s: Session): seq<Candidate> {
    if s.pending.Waiting? && |s.accepted| > 0 then s.accepted[..|s.accepted| - 1] else s.accepted
  }

  ghost predicate Inv(s: Session, l: Limits) {
    && Explains(Clicks(s.steps), Settled(s), l)
    && (forall t | t in s.timers :: t <= s.token)
    && (s.pending.Waiting? ==>
          && |s.accepted| > 0 && s.accepted[|s.accepted| - 1] == s.pending.click && s.pending.click.button.Left?
          && s.pending.token == s.token && s.token in s.timers)
  }

  /** The recorded text and what is still in the buffer are the text typed, backspaces applied. */
  predicate TextInv(s: Session) {
    s.keys == Typed(s.steps) + s.typing
  }

  lemma AppendStep(steps: seq<Step>, step: Step)
    ensures Clicks(steps + [step]) == if step.MouseClick? then Clicks(steps) + [step] else Clicks(steps)
    ensures Typed(steps + [step]) == if step.TypeWrite? then Typed(steps) + step.text else Typed(steps)
  {
    assert (steps + [step])[..|steps|] == steps;
    assert Clicks(steps) + [] == Clicks(steps) && Typed(steps) + "" == Typed(steps);
  }

  lemma ExplainSingle(clicks: seq<Step>, accepted: seq<Candidate>, c: Candidate, l: Limits)
    requires Explains(clicks, accepted, l)
    ensures Explains(clicks + [SingleClick(c.at, c.button)], accepted + [c], l)
  {
    assert (clicks + [SingleClick(c.at, c.button)])[..|clicks|] == clicks && (accepted + [c])[..|accepted|] == accepted;
  }

  lemma ExplainDouble(clicks: seq<Step>, accepted: seq<Candidate>, a: Candidate, b: Candidate, l: Limits)
    requires Explains(clicks, accepted, l) && MakeDouble(a, b, l)
    ensures Explains(clicks + [MouseClick(b.at, Left, DoubleClick, 2)], accepted + [a, b], l)
  {
    var both := accepted + [a, b];
    assert (clicks + [MouseClick(b.at, Left, DoubleClick, 2)])[..|clicks|] == clicks && both[..|both| - 2] == accepted;
  }

  lemma LastTwo(accepted: seq<Candidate>, c: Candidate)
    requires |accepted| > 0
    ensures accepted[..|accepted| - 1] + [accepted[|accepted| - 1], c] == accepted + [c]
  {
  }

  lemma {:induction false} TypingOnly(s: Session, ks: seq<KeyPress>)
    ensures var s' := TypeKeys(s, ks); s' == s.(typing := s'.typing, keys := s'.keys)
  {
    if ks != [] { TypingOnly(s, ks[..|ks| - 1]); }
  }

  lemma FlushTypingKeepsInv(s: Session, slip: seq<KeyPress>, l: Limits)
    requires Inv(s, l) && s.active
    ensures var s' := FlushTyping(s, slip);
      Inv(s', l) && s'.typing == "" && s' == s.(typing := "", keys := s'.keys, steps := s'.steps)
  {
    hide Explains, Clicks, Typed, TypeKeys;
    TypingOnly(s, slip);
    AppendStep(s.steps, TypeWrite(s.typing));
  }

  lemma FlushClickKeepsInv(s: Session, l: Limits)
    requires Inv(s, l) && s.active
    ensures Inv(FlushClick(s), l) && FlushClick(s).pending.Nothing?
    ensures FlushClick(s) == s.(pending := Nothing, steps := FlushClick(s).steps)
  {
    hide Explains, Clicks, Typed;
    if s.pending.Waiting? {
      var c := s.pending.click;
      AppendStep(s.steps, SingleClick(c.at, c.button));
      ExplainSingle(Clicks(s.steps), Settled(s), c, l);
      assert Settled(s) + [c] == s.accepted;
    }
  }

  lemma RecordedClickKeepsInv(s: Session, c: Candidate, l: Limits)
    requires Inv(s, l) && s.active && s.pending.Nothing?
    ensures Inv(Emit(Accept(s, c), SingleClick(c.at, c.button)), l)
  {
    hide Explains, Clicks, Typed;
    AppendStep(s.steps, SingleClick(c.at, c.button));
    ExplainSingle(Clicks(s.steps), s.accepted, c, l);
  }

  lemma DoubleClickKeepsInv(s: Session, c: Candidate, l: Limits)
    requires Inv(s, l) && s.active && s.pending.Waiting? && MakeDouble(s.pending.click, c, l)
    ensures Inv(Emit(Accept(s.(pending := Nothing), c), MouseClick(c.at, c.button, DoubleClick, 2)), l)
  {
    hide Explains, Clicks, Typed, Near;
    var first, step := s.pending.click, MouseClick(c.at, c.button, DoubleClick, 2);
    AppendStep(s.steps, step);
    ExplainDouble(Clicks(s.steps), Settled(s), first, c, l);
    LastTwo(s.accepted, c);
    hide MakeDouble;
    assert Settled(s) == s.accepted[..|s.accepted| - 1];
  }

  lemma CandidateKeepsInv(s: Session, c: Candidate, slip: seq<KeyPress>, l: Limits)
    requires Inv(s, l) && s.active
    ensures Inv(HandleCandidate(s, c, slip, l), l) && HandleCandidate(s, c, slip, l).active
  {
    hide Explains, Clicks, Typed, MakeDouble;
    FlushTypingKeepsInv(s, slip, l);
    var s1 := FlushTyping(s, slip);
    hide FlushTyping;
    if c.button.Left? && s1.pending.Waiting? && MakeDouble(s1.pending.click, c, l) {
      DoubleClickKeepsInv(s1, c, l);
    } else {
      FlushClickKeepsInv(s1, l);
      var s2 := FlushClick(s1);
      if c.button.Left? {
        assert Settled(HandleCandidate(s, c, slip, l)) == s2.accepted;
      } else {
        RecordedClickKeepsInv(s2, c, l);
      }
    }
  }

  lemma OtherKeepsInv(s: Session, step: Step, slip: seq<KeyPress>, l: Limits)
    requires Inv(s, l) && s.active && (step.Drag? || step.Scroll? || step.Press?)
    ensures Inv(HandleOther(s, step, slip), l) && HandleOther(s, step, slip).active
  {
    hide Explains, Clicks, Typed;
    FlushTypingKeepsInv(s, slip, l);
    hide FlushTyping;
    FlushClickKeepsInv(FlushTyping(s, slip), l);
    AppendStep(FlushAll(s, slip).steps, step);
  }

  /** Every step of an active recording keeps the invariant. */
  lemma NextKeepsInv(s: Session, e: Event, l: Limits)
    requires Inv(s, l) && s.active && CanHappen(s, e) && !e.Close?
    ensures Inv(Next(s, e, l), l) && Next(s, e, l).active
  {
    hide Explains, Clicks, Typed, MakeDouble, FlushTyping;
    match e
    case ClickCandidate(c, slip) => CandidateKeepsInv(s, c, slip, l);
    case OtherInput(step, slip) => OtherKeepsInv(s, step, slip, l);
    case TimerFires(token) =>
      if s.pending.Waiting? && s.pending.token == token {
        FlushClickKeepsInv(s, l);
      }
    case TypeText(key) => assert Settled(TypeKey(s, key)) == Settled(s);
    case FlushTypingBuffer(slip) => FlushTypingKeepsInv(s, slip, l);
    case FlushPendingEvents(slip) =>
      FlushTypingKeepsInv(s, slip, l);
      FlushClickKeepsInv(FlushTyping(s, slip), l);
  }

  // ---- What becomes of the text ----

  lemma {:induction false} TypingKeepsText(s: Session, ks: seq<KeyPress>)
    requires TextInv(s)
    ensures TextInv(TypeKeys(s, ks)) && TypeKeys(s, ks).steps == s.steps
  {
    hide Typed;
    if ks != [] {
      TypingKeepsText(s, ks[..|ks| - 1]);
      OneKeyKeepsText(TypeKeys(s, ks[..|ks| - 1]), ks[|ks| - 1]);
    }
  }

  lemma OneKeyKeepsText(s: Session, k: KeyPress)
    requires TextInv(s)
    ensures TextInv(TypeKey(s, k)) && TypeKey(s, k).steps == s.steps
  {
    hide Typed;
    if k.Letter? {
      assert Typed(s.steps) + (s.typing + [k.letter]) == Typed(s.steps) + s.typing + [k.letter];
    } else if s.typing != "" {
      assert Typed(s.steps) + s.typing[..|s.typing| - 1] == s.keys[..|s.keys| - 1];
    }
  }

  /** A flush keeps the text exactly when nothing was there to flush, or what was typed between its join and its clear
      left the buffer as it was. */
  predicate SlipIsHarmless(s: Session, slip: seq<KeyPress>) {
    s.typing == "" || TypeKeys(s, slip).typing == s.typing
  }

  lemma FlushKeepsTextExactlyWhen(s: Session, slip: seq<KeyPress>)
    requires TextInv(s) && s.active
    ensures TextInv(FlushTyping(s, slip)) <==> SlipIsHarmless(s, slip)
  {
    hide Typed, TypeKeys;
    if s.typing != "" {
      TypingOnly(s, slip);
      TypingKeepsText(s, slip);
      AppendStep(s.steps, TypeWrite(s.typing));
      var text, left := Typed(s.steps) + s.typing, TypeKeys(s, slip).typing;
      assert text + "" == text;
      if Typed(s.steps) + left == text {
        assert left == (Typed(s.steps) + left)[|Typed(s.steps)|..];
        assert s.typing == text[|Typed(s.steps)|..];
      }
    }
  }

  /** If all that slipped in were letters, any one of them is lost. */
  lemma {:induction false} LettersSlippedInAreLost(s: Session, slip: seq<KeyPress>)
    requires s.active && s.typing != "" && forall i | 0 <= i < |slip| :: slip[i].Letter?
    ensures |TypeKeys(s, slip).typing| == |s.typing| + |slip|
    ensures SlipIsHarmless(s, slip) <==> slip == []
  {
    if slip != [] {
      LettersSlippedInAreLost(s, slip[..|slip| - 1]);
      TypingOnly(s, slip[..|slip| - 1]);
    }
  }

  predicate Harmless(s: Session, e: Event) {
    match e
    case ClickCandidate(_, slip) => SlipIsHarmless(s, slip)
    case OtherInput(_, slip) => SlipIsHarmless(s, slip)
    case FlushTypingBuffer(slip) => SlipIsHarmless(s, slip)
    case FlushPendingEvents(slip) => SlipIsHarmless(s, slip)
    case _ => true
  }

  /** Recording anything but text leaves the text as it is. */
  lemma OtherStepsKeepText(s: Session, s': Session)
    requires s'.keys == s.keys && s'.typing == s.typing
    requires s'.steps == s.steps || (exists step: Step :: !step.TypeWrite? && s'.steps == s.steps + [step])
    ensures TextInv(s') <==> TextInv(s)
  {
    hide Typed;
    if s'.steps != s.steps {
      var step: Step :| !step.TypeWrite? && s'.steps == s.steps + [step];
      AppendStep(s.steps, step);
    }
  }

  lemma FlushClickKeepsText(s: Session)
    requires s.active
    ensures TextInv(FlushClick(s)) <==> TextInv(s)
    ensures FlushClick(s) == s.(pending := Nothing, steps := FlushClick(s).steps)
  {
    OtherStepsKeepText(s, FlushClick(s));
  }

  lemma CandidateKeepsText(s: Session, c: Candidate, slip: seq<KeyPress>, l: Limits)
    requires s.active && FlushTyping(s, slip).active
    ensures TextInv(HandleCandidate(s, c, slip, l)) <==> TextInv(FlushTyping(s, slip))
  {
    hide MakeDouble, FlushTyping, TextInv;
    var s1 := FlushTyping(s, slip);
    FlushClickKeepsText(s1);
    var s2 := HandleCandidate(s, c, slip, l);
    if !c.button.Left? {
      OtherStepsKeepText(FlushClick(s1), s2);
    } else if s1.pending.Waiting? && MakeDouble(s1.pending.click, c, l) {
      OtherStepsKeepText(s1, s2);
    } else {
      OtherStepsKeepText(FlushClick(s1), s2);
    }
  }

  /** A step keeps the text exactly when it is harmless. */
  lemma NextKeepsTextExactlyWhen(s: Session, e: Event, l: Limits)
    requires TextInv(s) && s.active && CanHappen(s, e) && !e.Close?
    ensures TextInv(Next(s, e, l)) <==> Harmless(s, e)
  {
    if e.TypeText? {
      OneKeyKeepsText(s, e.key);
    } else if e.TimerFires? {
      FlushClickKeepsText(s.(timers := s.timers - {e.token}));
    } else {
      var slip := e.slip;
      FlushKeepsTextExactlyWhen(s, slip);
      TypingOnly(s, slip);
      assert FlushTyping(s, slip).active;
      hide FlushTyping, TextInv, SlipIsHarmless, HandleCandidate;
      match e
      case ClickCandidate(c, _) => CandidateKeepsText(s, c, slip, l);
      case OtherInput(step, _) =>
        FlushClickKeepsText(FlushTyping(s, slip));
        OtherStepsKeepText(FlushAll(s, slip), HandleOther(s, step, slip));
      case FlushPendingEvents(_) => FlushClickKeepsText(FlushTyping(s, slip));
      case _ =>
    }
  }

  predicate IsRun(ss: seq<Session>, es: seq<Event>, l: Limits) {
    && |ss| == |es| + 1 && ss[0] == START
    && forall i | 0 <= i < |es| :: !es[i].Close? && CanHappen(ss[i], es[i]) && ss[i + 1] == Next(ss[i], es[i], l)
  }

  /** Over every interleaving of clicks, drags, scrolls, keys and timers: the recorded clicks account for the accepted
      ones in order, all but the one still waiting, and the waiting click always has its timer. */
  lemma {:induction false} RunKeepsInv(ss: seq<Session>, es: seq<Event>, l: Limits, n: nat)
    requires IsRun(ss, es, l) && n <= |es|
    ensures Inv(ss[n], l) && ss[n].active
    ensures CountOf(Clicks(ss[n].steps)) + (if ss[n].pending.Waiting? then 1 else 0) == |ss[n].accepted|
  {
    hide Explains, Clicks, Typed, Next;
    if n == 0 {
      StartInv(l);
    } else {
      RunKeepsInv(ss, es, l, n - 1);
      NextKeepsInv(ss[n - 1], es[n - 1], l);
      assert ss[(n - 1) + 1] == Next(ss[n - 1], es[n - 1], l);
    }
    CountsAddUp(Clicks(ss[n].steps), Settled(ss[n]), l);
  }

  /** Over every interleaving, keys inside flushes included: the recorded text and the buffer are the text typed all
      along exactly when every flush was harmless. */
  lemma {:induction false} TextSurvivesExactlyWhen(ss: seq<Session>, es: seq<Event>, l: Limits, n: nat)
    requires IsRun(ss, es, l) && n <= |es|
    ensures (forall i | 0 <= i <= n :: TextInv(ss[i])) <==> (forall i | 0 <= i < n :: Harmless(ss[i], es[i]))
  {
    hide Next, TextInv, Harmless, Inv;
    if n == 0 {
      StartText();
    } else {
      TextSurvivesExactlyWhen(ss, es, l, n - 1);
      RunKeepsInv(ss, es, l, n - 1);
      assert ss[(n - 1) + 1] == Next(ss[n - 1], es[n - 1], l);
      if TextInv(ss[n - 1]) { NextKeepsTextExactlyWhen(ss[n - 1], es[n - 1], l); }
    }
  }

  lemma StartText()
    ensures TextInv(START)
  {
  }

  lemma StartInv(l: Limits)
    ensures Inv(START, l) && START.active
  {
  }

  /** A timer whose click has been consumed already flushes nothing: not that click again, and not a newer one. */
  lemma OldTimerFlushesNothing(s: Session, token: nat, l: Limits)
    requires Inv(s, l) && token in s.timers && (token < s.token || s.pending.Nothing?)
    ensures FireTimer(s, token) == s.(timers := s.timers - {token})
  {
  }

  /** A click waiting alone is recorded, as a single click and where it was made, when its own timer fires. */
  lemma OwnTimerRecordsTheClick(s: Session, l: Limits)
    requires Inv(s, l) && s.active && s.pending.Waiting?
    ensures s.pending.token in s.timers
    ensures var s' := FireTimer(s, s.pending.token); var c := s.accepted[|s.accepted| - 1];
      && s'.pending.Nothing? && s'.accepted == s.accepted
      && s'.steps == s.steps + [MouseClick(c.at, Left, Click, 1)]
      && Explains(Clicks(s'.steps), s.accepted, l)
  {
    FlushClickKeepsInv(s, l);
    hide Explains, Clicks;
  }

  /** The second click comes no later than the interval after the first, and on either axis no further from it than the
      distance. */
  predicate Adjacent(a: Candidate, b: Candidate, l: Limits) {
    && b.time - a.time <= l.interval
    && -(l.distance as int) <= b.at.x - a.at.x <= l.distance && -(l.distance as int) <= b.at.y - a.at.y <= l.distance
  }

  lemma MakeDoubleMeans(a: Candidate, b: Candidate, l: Limits)
    ensures MakeDouble(a, b, l) <==> a.button.Left? && b.button.Left? && Adjacent(a, b, l)
  {
  }

  /** Two left clicks in a row become one double click exactly when they are within the limits and the first did not
      itself complete a double click; otherwise the first is recorded alone and the second waits. */
  lemma PairExactlyWhen(s: Session, a: Candidate, b: Candidate, slip: seq<KeyPress>, slip': seq<KeyPress>, l: Limits)
    requires s.active && s.typing == "" && a.button.Left? && b.button.Left?
    ensures var s1 := HandleCandidate(s, a, slip, l); var s2 := HandleCandidate(s1, b, slip', l);
      var completed := s.pending.Waiting? && s.pending.click.button.Left? && Adjacent(s.pending.click, a, l);
      var double := MouseClick(b.at, Left, DoubleClick, 2);
      && (s2.steps == s1.steps + [double] <==> !completed && Adjacent(a, b, l))
      && (!completed && !Adjacent(a, b, l) ==> s2.steps == s1.steps + [MouseClick(a.at, Left, Click, 1)])
      && (completed ==> s1.steps == s.steps + [MouseClick(a.at, Left, DoubleClick, 2)] && s2.steps == s1.steps)
      && (s2.pending.Nothing? || s2.pending.click == b)
      && (s2.pending.Nothing? <==> !completed && Adjacent(a, b, l))
  {
    MakeDoubleMeans(a, b, l);
    if s.pending.Waiting? { MakeDoubleMeans(s.pending.click, a, l); }
    hide MakeDouble, Adjacent;
    var s1 := HandleCandidate(s, a, slip, l);
    assert |s1.steps + [MouseClick(b.at, Left, DoubleClick, 2)]| == |s1.steps| + 1;
    var x := s1.steps + [MouseClick(b.at, Left, DoubleClick, 2)];
    var y := s1.steps + [MouseClick(a.at, Left, Click, 1)];
    assert x[|s1.steps|] != y[|s1.steps|];
  }

  /** The waiting click as it will be recorded alone. */
  function WaitingClick(s: Session): seq<Step> {
    if s.pending.Nothing? then []
    else
      var c := s.pending.click;
      [MouseClick(c.at, c.button, if c.button.Right? then RightClick else Click, 1)]
  }

  /** A click with another button never waits: it is recorded at once, after the text and the click that were waiting,
      a right click as such. */
  lemma OtherButtonIsRecordedAtOnce(s: Session, c: Candidate, slip: seq<KeyPress>, l: Limits)
    requires s.active && !c.button.Left?
    ensures var s' := HandleCandidate(s, c, slip, l);
      && s'.steps == s.steps + (if s.typing == "" then [] else [TypeWrite(s.typing)]) + WaitingClick(s)
                   + [MouseClick(c.at, c.button, if c.button.Right? then RightClick else Click, 1)]
      && s'.pending.Nothing? && s'.typing == "" && s'.accepted == s.accepted + [c]
  {
    TypingOnly(s, slip);
    hide TypeKeys;
    var typed := if s.typing == "" then [] else [TypeWrite(s.typing)];
    assert FlushTyping(s, slip).steps == s.steps + typed;
    hide FlushTyping;
    assert FlushClick(FlushTyping(s, slip)).steps == s.steps + typed + WaitingClick(s);
  }

  /** A letter goes to the end of the buffer and a backspace takes the last one back; with an empty buffer a backspace
      is no text key, and a closed session takes none. */
  lemma KeysInTheBuffer(s: Session, c: char)
    ensures s.active ==> TypeKey(s, Letter(c)).typing == s.typing + [c]
    ensures s.active ==> TypeKey(TypeKey(s, Letter(c)), Backspace) == s
    ensures s.typing == "" ==> TypeKey(s, Backspace) == s
    ensures !s.active ==> forall k :: TypeKey(s, k) == s
  {
    assert (s.typing + [c])[..|s.typing|] == s.typing && (s.keys + [c])[..|s.keys|] == s.keys;
  }

  /** Closing drops a waiting click and the text in the buffer unrecorded: whatever comes later, the steps stay. */
  lemma {:induction false} CloseDropsWhatWaits(s: Session, es: seq<Event>, l: Limits)
    ensures var closed := AfterAll(Next(s, Close, l), es, l);
      !closed.active && closed.pending.Nothing? && closed.steps == s.steps && closed.accepted == s.accepted
  {
    hide Next;
    assert Next(s, Close, l) == s.(active := false, pending := Nothing) by { CloseStep(s, l); }
    if es != [] {
      var n := |es| - 1;
      CloseDropsWhatWaits(s, es[..n], l);
      ClosedRecordsNothing(AfterAll(Next(s, Close, l), es[..n], l), es[n], l);
    }
  }

  lemma CloseStep(s: Session, l: Limits)
    ensures Next(s, Close, l) == s.(active := false, pending := Nothing)
  {
  }

  function AfterAll(s: Session, es: seq<Event>, l: Limits): Session {
    if es == [] then s else Next(AfterAll(s, es[..|es| - 1], l), es[|es| - 1], l)
  }

  /** A drag, scroll or key is recorded once, after the text and the click that were waiting for it, in that order. */
  lemma InputFollowsWhatWaited(s: Session, step: Step, slip: seq<KeyPress>)
    requires s.active
    ensures var s' := HandleOther(s, step, slip);
      && s'.steps == s.steps + (if s.typing == "" then [] else [TypeWrite(s.typing)]) + WaitingClick(s) + [step]
      && s'.typing == "" && s'.pending.Nothing? && s'.accepted == s.accepted && s'.timers == s.timers
  {
    TypingOnly(s, slip);
    hide TypeKeys;
    var typed := if s.typing == "" then [] else [TypeWrite(s.typing)];
    assert FlushTyping(s, slip).steps == s.steps + typed;
    hide FlushTyping;
    assert FlushAll(s, slip).steps == s.steps + typed + WaitingClick(s);
  }

  /** Once closed, nothing is recorded any more, whatever happens. */
  lemma ClosedRecordsNothing(s: Session, e: Event, l: Limits)
    requires !s.active && s.pending.Nothing?
    ensures var s' := Next(s, e, l);
      !s'.active && s'.pending.Nothing? && s'.steps == s.steps && s'.accepted == s.accepted
  {
    if e.ClickCandidate? || e.OtherInput? || e.FlushTypingBuffer? || e.FlushPendingEvents? { TypingOnly(s, e.slip); }
  }

  // ---- Drag or click ----

  /** The mouse listener between a press and its release. */
  datatype Gesture = Gesture(start: Point, last: Point, dragging: bool)

  predicate Far(a: Point, b: Point, threshold: nat) {
    Distance(a.x, b.x) >= threshold || Distance(a.y, b.y) >= threshold
  }

  function Moved(g: Gesture, p: Point, threshold: nat): Gesture {
    g.(last := p, dragging := g.dragging || Far(g.start, p, threshold))
  }

  function Moves(start: Point, ps: seq<Point>, threshold: nat): Gesture {
    if ps == [] then Gesture(start, start, false)
    else Moved(Moves(start, ps[..|ps| - 1], threshold), ps[|ps| - 1], threshold)
  }

  predicate ReleasedAsDrag(g: Gesture, threshold: nat) {
    g.dragging || Far(g.start, g.last, threshold)
  }

  /** A gesture is a drag exactly when some move went as far as the threshold, even if the mouse came back; it ends at
      the last move, whatever position the release itself reports. */
  lemma {:induction false} DragExactlyWhen(start: Point, ps: seq<Point>, threshold: nat)
    requires threshold >= 1
    ensures ReleasedAsDrag(Moves(start, ps, threshold), threshold)
      <==> exists i :: 0 <= i < |ps| && (ps[i].x - start.x >= threshold || start.x - ps[i].x >= threshold
                                         || ps[i].y - start.y >= threshold || start.y - ps[i].y >= threshold)
    ensures var g := Moves(start, ps, threshold);
      g.start == start && g.last == (if ps == [] then start else ps[|ps| - 1])
  {
    if ps != [] {
      var n := |ps| - 1;
      DragExactlyWhen(start, ps[..n], threshold);
      assert forall i | 0 <= i < n :: ps[..n][i] == ps[i];
      if ReleasedAsDrag(Moves(start, ps[..n], threshold), threshold) {
        var i :| 0 <= i < n && Far(start, ps[..n][i], threshold);
        assert Far(start, ps[i], threshold);
      }
    }
  }
}
