/** Desktop viewports (client_new/services/desktop_test_service.py): mapping between logical and actual pixels, and
    fitting a requested region into the screen. Quotients are exact rationals, rounded half to even. */
module Viewport {

  function Max(a: int, b: int): int {
    if a < b then b else a
  }

  function Min(a: int, b: int): int {
    if b < a then b else a
  }

  function Abs(a: int): nat {
    if a < 0 then -a else a
  }

  // ---- Rounding ----

  /** Python's `round(n / d)`. */
  function RoundHalfEven(n: nat, d: nat): nat
    requires d > 0
  {
    var q, r := n / d, n % d;
    if 2 * r < d || (2 * r == d && q % 2 == 0) then q else q + 1
  }

  /** The result is a nearest integer, and the even one when two are equally near. */
  lemma RoundedIsNearest(n: nat, d: nat)
    requires d > 0
    ensures var k := RoundHalfEven(n, d); 2 * Abs(k * d - n) <= d && (2 * Abs(k * d - n) == d ==> k % 2 == 0)
  {
    var q, r := n / d, n % d;
    assert n == q * d + r;
    assert (q + 1) * d == q * d + d;
  }

  lemma LongerThan(k: nat, d: nat)
    requires k >= 1
    ensures k * d >= d
  {
    assert k * d == (k - 1) * d + d;
  }

  lemma DistinctMultiples(a: nat, b: nat, d: nat)
    requires a != b
    ensures Abs(a * d - b * d) >= d
  {
    if a > b {
      assert a * d - b * d == (a - b) * d;
      LongerThan(a - b, d);
    } else {
      assert b * d - a * d == (b - a) * d;
      LongerThan(b - a, d);
    }
  }

  lemma TimesMonotone(a: nat, b: nat, d: nat)
    requires a <= b
    ensures a * d <= b * d
  {
    assert b * d == a * d + (b - a) * d;
  }

  /** Only the rounded value is that near. */
  lemma NearestIsRounded(n: nat, d: nat, k: nat)
    requires d > 0 && 2 * Abs(k * d - n) < d
    ensures RoundHalfEven(n, d) == k
  {
    RoundedIsNearest(n, d);
    var m := RoundHalfEven(n, d);
    hide RoundHalfEven;
    if m != k { DistinctMultiples(m, k, d); }
  }

  lemma RoundMonotone(m: nat, n: nat, d: nat)
    requires d > 0 && m <= n
    ensures RoundHalfEven(m, d) <= RoundHalfEven(n, d)
  {
    RoundedIsNearest(m, d);
    RoundedIsNearest(n, d);
    hide RoundHalfEven;
    var a, b := RoundHalfEven(m, d), RoundHalfEven(n, d);
    if m < n && a > b {
      TimesMonotone(b, a, d);
      DistinctMultiples(a, b, d);
    }
  }

  lemma QuotientIs(n: nat, d: nat, q: nat, r: nat)
    requires n == q * d + r && r < d
    ensures n / d == q && n % d == r
  {
    var q', r' := n / d, n % d;
    assert n == q' * d + r';
    if q != q' { DistinctMultiples(q, q', d); }
  }

  // ---- One axis ----

  /** A logical coordinate first clamped into the logical range. */
  function ClampLogical(logical: int, x: int): int {
    Max(Min(x, Max(logical - 1, 0)), 0)
  }

  function ToActual(width: nat, logical: nat, x: int): nat {
    RoundHalfEven(ClampLogical(logical, x) * width, Max(logical, 1))
  }

  function ToLogical(width: nat, logical: nat, a: int): nat {
    Min(Max(RoundHalfEven(Max(a, 0) * logical, Max(width, 1)), 0), Max(logical - 1, 0))
  }

  function RoundTrip(width: nat, logical: nat, x: int): nat {
    ToLogical(width, logical, ToActual(width, logical, x))
  }

  /** The widths for which no logical pixel lands outside. */
  predicate WideEnough(width: nat, logical: nat) {
    2 * width > logical || (2 * width == logical && width % 2 == 1)
  }

  lemma OvershootIsLarge(width: nat, logical: nat, c: nat, a: nat)
    requires c < logical && a >= width
    ensures a * logical - c * width >= width && (a > width ==> a * logical - c * width >= width + logical)
  {
    TimesMonotone(c, logical - 1, width);
    assert (logical - 1) * width == width * logical - width;
    TimesMonotone(width, a, logical);
    if a > width {
      TimesMonotone(width + 1, a, logical);
      assert (width + 1) * logical == width * logical + logical;
    }
  }

  lemma StaysInside(width: nat, logical: nat, x: int)
    requires width >= 1 && logical >= 1 && WideEnough(width, logical)
    ensures ToActual(width, logical, x) < width
  {
    var c, a := ClampLogical(logical, x), ToActual(width, logical, x);
    RoundedIsNearest(c * width, logical);
    hide RoundHalfEven;
    if a >= width { OvershootIsLarge(width, logical, c, a); }
  }

  lemma LastPixelOutside(width: nat, logical: nat)
    requires width >= 1 && logical >= 1 && !WideEnough(width, logical)
    ensures ToActual(width, logical, logical - 1) == width
  {
    assert (logical - 1) * width == width * logical - width;
    if 2 * width < logical {
      NearestIsRounded((logical - 1) * width, logical, width);
    } else {
      var n := (logical - 1) * width;
      assert n == (width - 1) * logical + width by {
        assert (width - 1) * logical == width * logical - logical;
      }
      QuotientIs(n, logical, width - 1, width);
    }
  }

  lemma ActualMonotone(width: nat, logical: nat, x: int, y: int)
    requires x <= y
    ensures ToActual(width, logical, x) <= ToActual(width, logical, y)
  {
    TimesMonotone(ClampLogical(logical, x), ClampLogical(logical, y), width);
    RoundMonotone(ClampLogical(logical, x) * width, ClampLogical(logical, y) * width, Max(logical, 1));
  }

  /** Where a logical pixel goes: to a nearest actual one; a coordinate outside the logical range goes where the nearest
      pixel of the range does. */
  lemma ActualIsNearest(width: nat, logical: nat, x: int)
    requires logical >= 1
    ensures 0 <= x < logical ==> 2 * Abs(ToActual(width, logical, x) * logical - x * width) <= logical
    ensures x < 0 ==> ToActual(width, logical, x) == ToActual(width, logical, 0)
    ensures x >= logical ==> ToActual(width, logical, x) == ToActual(width, logical, logical - 1)
  {
    if 0 <= x < logical { RoundedIsNearest(x * width, logical); }
    hide RoundHalfEven;
  }

  /** Where an actual pixel goes: to a nearest logical one, or to the last one if that would lie beyond it; what lies
      outside goes to the near edge. */
  lemma LogicalIsNearest(width: nat, logical: nat, a: int)
    requires width >= 1 && logical >= 1
    ensures var k := ToLogical(width, logical, a);
      && k < logical
      && (a >= 0 && k < logical - 1 ==> 2 * Abs(k * width - a * logical) <= width)
      && (a >= 0 && k == logical - 1 ==> 2 * (k * width - a * logical) <= width)
      && (a <= 0 ==> k == 0) && (a >= width ==> k == logical - 1)
  {
    hide RoundHalfEven;
    if a <= 0 {
      NearestIsRounded(0, width, 0);
    } else {
      var n := RoundHalfEven(a * logical, width);
      RoundedIsNearest(a * logical, width);
      TimesMonotone(Min(n, logical - 1), n, width);
      if a >= width {
        TimesMonotone(width, a, logical);
        RoundMonotone(logical * width, a * logical, width);
        NearestIsRounded(logical * width, width, logical);
      }
    }
  }

  /** Clamping into a range that holds `x` never moves further from `x`. */
  lemma ClampIsNearer(k: nat, x: nat, last: nat)
    requires x <= last
    ensures Abs(Min(Max(k, 0), last) - x) <= Abs(k - x)
  {
  }

  lemma DistanceScales(k: nat, x: nat, w: nat)
    ensures Abs(k * w - x * w) == Abs(k - x) * w
  {
    if k >= x {
      assert k * w - x * w == (k - x) * w;
    } else {
      assert x * w - k * w == (x - k) * w;
    }
  }

  lemma ErrorsAdd(w: nat, l: nat, x: nat, a: nat, k: nat)
    requires 2 * Abs(a * l - x * w) <= l && 2 * Abs(k * w - a * l) <= w
    ensures 2 * (Abs(k - x) * w) <= l + w
  {
    DistanceScales(k, x, w);
  }

  /** The round-trip error stays within half a logical pixel plus half an actual one. */
  lemma RoundTripError(width: nat, logical: nat, x: nat)
    requires x <= Max(logical - 1, 0)
    ensures 2 * width * Abs(RoundTrip(width, logical, x) - x) <= logical + width
  {
    hide ToActual, ToLogical;
    var e := Abs(RoundTrip(width, logical, x) - x);
    if width == 0 || logical == 0 {
      EmptySide(width, logical, x);
      NoError(width, e);
    } else {
      RoundTripBound(width, logical, x);
      Scaled(e, e, width);
    }
  }

  lemma EmptySide(width: nat, logical: nat, x: nat)
    requires x <= Max(logical - 1, 0) && (width == 0 || logical == 0)
    ensures width == 0 || Abs(RoundTrip(width, logical, x) - x) == 0
  {
  }

  lemma NoError(width: nat, e: nat)
    requires width == 0 || e == 0
    ensures 2 * width * e == 0
  {
    assert width == 0 ==> 2 * width == 0;
  }

  lemma RoundTripBound(width: nat, logical: nat, x: nat)
    requires width >= 1 && x < logical
    ensures 2 * (Abs(RoundTrip(width, logical, x) - x) * width) <= logical + width
  {
    hide RoundHalfEven;
    var a := RoundHalfEven(x * width, logical);
    var k := RoundHalfEven(a * logical, width);
    RoundedIsNearest(x * width, logical);
    RoundedIsNearest(a * logical, width);
    ErrorsAdd(width, logical, x, a, k);
    ClampIsNearer(k, x, logical - 1);
    assert Abs(RoundTrip(width, logical, x) - x) <= Abs(k - x);
    TimesMonotone(Abs(RoundTrip(width, logical, x) - x), Abs(k - x), width);
  }

  lemma Scaled(e: nat, e': nat, w: nat)
    requires e <= e'
    ensures 2 * w * e <= 2 * (e' * w)
  {
    TimesMonotone(e, e', w);
    assert 2 * w * e == 2 * (e * w);
  }

  /** Going to actual pixels and back is the identity on every logical pixel exactly when the viewport is at least as
      wide as the logical range. */
  lemma RoundTripIsIdentityExactlyWhen(width: nat, logical: nat)
    requires width >= 1 && logical >= 1
    ensures (forall x: nat | x < logical :: RoundTrip(width, logical, x) == x) <==> width >= logical
  {
    if width >= logical {
      forall x: nat | x < logical ensures RoundTrip(width, logical, x) == x { WideRoundTrip(width, logical, x); }
    } else if forall x: nat | x < logical :: RoundTrip(width, logical, x) == x {
      hide ToLogical, ToActual;
      NeverBehind(width, logical, logical - 1);
      LastIsBehind(width, logical);
    }
  }

  lemma WideRoundTrip(width: nat, logical: nat, x: nat)
    requires 1 <= logical <= width && x < logical
    ensures RoundTrip(width, logical, x) == x
  {
    hide RoundHalfEven;
    var a := RoundHalfEven(x * width, logical);
    assert ToActual(width, logical, x) == a;
    RoundedIsNearest(x * width, logical);
    if width == logical {
      NearestIsRounded(x * width, logical, x);
    }
    NearestIsRounded(a * logical, width, x);
  }

  /** If the round trip loses nothing, no two logical pixels share an actual one, so pixel x lands at x or later. */
  lemma {:induction false} NeverBehind(width: nat, logical: nat, x: nat)
    requires 1 <= width && x < logical
    requires forall y: nat | y < logical :: RoundTrip(width, logical, y) == y
    ensures ToActual(width, logical, x) >= x
  {
    if x > 0 {
      NeverBehind(width, logical, x - 1);
      ActualMonotone(width, logical, x - 1, x);
      hide ToLogical, ToActual;
      assert RoundTrip(width, logical, x - 1) != RoundTrip(width, logical, x);
    }
  }

  lemma LastIsBehind(width: nat, logical: nat)
    requires 1 <= width < logical
    ensures ToActual(width, logical, logical - 1) < logical - 1
  {
    var top := (logical - 1) * (logical - 1);
    TimesMonotone(width, logical - 1, logical - 1);
    assert (logical - 1) * width == width * (logical - 1);
    RoundMonotone((logical - 1) * width, top, logical);
    assert top == (logical - 2) * logical + 1 by {
      assert (logical - 2) * logical == logical * logical - 2 * logical;
      assert top == logical * logical - 2 * logical + 1;
    }
    QuotientIs(top, logical, logical - 2, 1);
  }

  // ---- Viewports ----

  datatype Mode = Screen | ActiveWindow | ManualRegion

  datatype DesktopViewport = DesktopViewport(
    mode: Mode, left: int, top: int, width: nat, height: nat, logicalWidth: nat, logicalHeight: nat)
  {
    predicate ContainsActualPoint(x: int, y: int) {
      left <= x < left + width && top <= y < top + height
    }

    function ActualToLogical(x: int, y: int): (int, int) {
      (ToLogical(width, logicalWidth, x - left), ToLogical(height, logicalHeight, y - top))
    }

    function LogicalToActual(x: int, y: int): (int, int) {
      (left + ToActual(width, logicalWidth, x), top + ToActual(height, logicalHeight, y))
    }

    predicate Positive() {
      width >= 1 && height >= 1 && logicalWidth >= 1 && logicalHeight >= 1
    }
  }

  /** Every logical point lands inside the viewport exactly when each side has at least half as many actual pixels as
      logical ones, with a tie allowed only for an odd number. */
  lemma LogicalPointsLandInsideExactlyWhen(v: DesktopViewport)
    requires v.Positive()
    ensures (forall x, y :: v.ContainsActualPoint(v.LogicalToActual(x, y).0, v.LogicalToActual(x, y).1))
      <==> WideEnough(v.width, v.logicalWidth) && WideEnough(v.height, v.logicalHeight)
  {
    hide ToActual, ToLogical;
    if WideEnough(v.width, v.logicalWidth) && WideEnough(v.height, v.logicalHeight) {
      forall x, y ensures v.ContainsActualPoint(v.LogicalToActual(x, y).0, v.LogicalToActual(x, y).1) {
        StaysInside(v.width, v.logicalWidth, x);
        StaysInside(v.height, v.logicalHeight, y);
      }
    } else {
      var x, y := v.logicalWidth - 1, v.logicalHeight - 1;
      if WideEnough(v.width, v.logicalWidth) {
        LastPixelOutside(v.height, v.logicalHeight);
      } else {
        LastPixelOutside(v.width, v.logicalWidth);
      }
      assert !v.ContainsActualPoint(v.LogicalToActual(x, y).0, v.LogicalToActual(x, y).1);
    }
  }

  predicate RestoresPoint(v: DesktopViewport, x: nat, y: nat) {
    var p := v.LogicalToActual(x, y);
    v.ActualToLogical(p.0, p.1) == (x, y)
  }

  /** A recorded logical point replays to itself for every point exactly when neither side is scaled down. */
  lemma PointsRoundTripExactlyWhen(v: DesktopViewport)
    requires v.Positive()
    ensures (forall x: nat, y: nat | x < v.logicalWidth && y < v.logicalHeight :: RestoresPoint(v, x, y))
      <==> v.width >= v.logicalWidth && v.height >= v.logicalHeight
  {
    RoundTripIsIdentityExactlyWhen(v.width, v.logicalWidth);
    RoundTripIsIdentityExactlyWhen(v.height, v.logicalHeight);
    hide ToActual, ToLogical;
    forall x: nat, y: nat ensures RestoresPoint(v, x, y)
        <==> RoundTrip(v.width, v.logicalWidth, x) == x && RoundTrip(v.height, v.logicalHeight, y) == y
    {
    }
    if forall x: nat, y: nat | x < v.logicalWidth && y < v.logicalHeight :: RestoresPoint(v, x, y) {
      forall x: nat | x < v.logicalWidth ensures RoundTrip(v.width, v.logicalWidth, x) == x {
        assert RestoresPoint(v, x, 0);
      }
      forall y: nat | y < v.logicalHeight ensures RoundTrip(v.height, v.logicalHeight, y) == y {
        assert RestoresPoint(v, 0, y);
      }
    }
  }

  // ---- Resolving ----

  /** A setting: absent or None, the empty string, a value `int()` accepts, or one it refuses. */
  datatype Setting = Missing | Blank | Number(n: int) | Unreadable

  predicate Absent(s: Setting) {
    s.Missing? || s.Blank?
  }

  datatype Settings = Settings(
    x: Setting, y: Setting, width: Setting, height: Setting, logicalWidth: Setting, logicalHeight: Setting)

  function Lookup(source: map<string, Setting>, camel: string, snake: string): Setting {
    if camel in source then source[camel] else if snake in source then source[snake] else Missing
  }

  /** `_viewport_settings`: either spelling of each key; in screen mode a lone logical size is taken as the region's. */
  function ViewportSettings(mode: Mode, source: map<string, Setting>): Settings {
    var lw, lh := Lookup(source, "logicalWidth", "logical_width"), Lookup(source, "logicalHeight", "logical_height");
    Settings(Lookup(source, "viewportX", "viewport_x"), Lookup(source, "viewportY", "viewport_y"),
             SizeSetting(mode, Lookup(source, "viewportWidth", "viewport_width"), lw),
             SizeSetting(mode, Lookup(source, "viewportHeight", "viewport_height"), lh), lw, lh)
  }

  function AsInt(s: Setting, default: int): int {
    if s.Number? then s.n else default
  }

  function OrIfEmpty(s: Setting, other: Setting): Setting {
    if Absent(s) && !Absent(other) then other else s
  }

  function SizeSetting(mode: Mode, size: Setting, logical: Setting): Setting {
    if mode.Screen? then OrIfEmpty(size, logical) else size
  }

  datatype Box = Box(left: int, top: int, width: int, height: int)

  /** The active window as found after any resize and move. */
  datatype WindowProbe = NoSupport | NoWindow | GeometryFails | Window(box: Box)

  datatype Resolution = Resolved(viewport: DesktopViewport) | Refused(reason: WindowProbe)

  /** One axis of the fit into the screen: where it starts and how long it is. */
  function FitAxis(screen: int, start: int, size: int): (int, int) {
    var s := Max(start, 0);
    var s' := if s >= screen then Max(screen - 1, 0) else s;
    (s', Max(Min(size, screen - s'), 1))
  }

  predicate InsideScreen(v: DesktopViewport, screenWidth: int, screenHeight: int) {
    && 0 <= v.left && v.left + v.width <= screenWidth
    && 0 <= v.top && v.top + v.height <= screenHeight
  }

  /** `pyautogui.size()` when the screenshot has no size, 1920 x 1080 when that is missing or zero. */
  function EffectiveScreen(image: (int, int), fallback: (int, int)): (int, int) {
    if image.0 <= 0 || image.1 <= 0 then
      (if fallback.0 == 0 then 1920 else fallback.0, if fallback.1 == 0 then 1080 else fallback.1)
    else image
  }

  function RequestedBox(mode: Mode, s: Settings, window: Box, screen: (int, int)): Box {
    if mode.ActiveWindow? then window.(width := Max(window.width, 1), height := Max(window.height, 1))
    else Box(AsInt(s.x, 0), AsInt(s.y, 0), Max(AsInt(s.width, screen.0), 1), Max(AsInt(s.height, screen.1), 1))
  }

  function LogicalSize(logical: Setting, size: Setting, fitted: int): nat {
    Max(AsInt(logical, AsInt(size, fitted)), 1)
  }

  function Fitted(mode: Mode, box: Box, s: Settings, screen: (int, int)): DesktopViewport {
    var (left, width) := FitAxis(screen.0, box.left, box.width);
    var (top, height) := FitAxis(screen.1, box.top, box.height);
    DesktopViewport(mode, left, top, width, height,
                    LogicalSize(s.logicalWidth, s.width, width), LogicalSize(s.logicalHeight, s.height, height))
  }

  function Resolve(mode: Mode, source: map<string, Setting>, image: (int, int), fallback: (int, int),
      probe: WindowProbe): Resolution {
    if mode.ActiveWindow? && !probe.Window? then Refused(probe)
    else
      var screen, s := EffectiveScreen(image, fallback), ViewportSettings(mode, source);
      var window := if probe.Window? then probe.box else Box(0, 0, 0, 0);
      Resolved(Fitted(mode, RequestedBox(mode, s, window, screen), s, screen))
  }

  lemma ResolveIs(mode: Mode, source: map<string, Setting>, image: (int, int), fallback: (int, int),
      probe: WindowProbe)
    ensures var r := Resolve(mode, source, image, fallback, probe);
      var screen, s := EffectiveScreen(image, fallback), ViewportSettings(mode, source);
      if mode.ActiveWindow? && !probe.Window? then r == Refused(probe)
      else
        var box := RequestedBox(mode, s, if probe.Window? then probe.box else Box(0, 0, 0, 0), screen);
        var across, down := FitAxis(screen.0, box.left, box.width), FitAxis(screen.1, box.top, box.height);
        && r.Resolved? && r.viewport.mode == mode
        && r.viewport.left == across.0 && r.viewport.width == across.1
        && r.viewport.top == down.0 && r.viewport.height == down.1
        && r.viewport.logicalWidth == LogicalSize(s.logicalWidth, s.width, across.1)
        && r.viewport.logicalHeight == LogicalSize(s.logicalHeight, s.height, down.1)
  {
    hide FitAxis, LogicalSize, ViewportSettings, EffectiveScreen, RequestedBox;
  }

  method ResolveViewport(mode: Mode, source: map<string, Setting>, image: (int, int), fallback: (int, int),
      probe: WindowProbe)
    returns (r: Resolution)
    ensures r == Resolve(mode, source, image, fallback, probe)
  {
    hide ViewportSettings, AsInt, LogicalSize, Resolve, Fitted;
    var settings := ViewportSettings(mode, source);
    var screenWidth, screenHeight := image.0, image.1;
    if screenWidth <= 0 || screenHeight <= 0 {
      screenWidth := if fallback.0 == 0 then 1920 else fallback.0;
      screenHeight := if fallback.1 == 0 then 1080 else fallback.1;
    }
    assert (screenWidth, screenHeight) == EffectiveScreen(image, fallback);
    hide EffectiveScreen;
    var left, top, width, height := 0, 0, screenWidth, screenHeight;
    if mode.ActiveWindow? {
      if !probe.Window? {
        ResolveIs(mode, source, image, fallback, probe);
        return Refused(probe);
      }
      left, top := probe.box.left, probe.box.top;
      width, height := Max(probe.box.width, 1), Max(probe.box.height, 1);
    } else {
      left, top := AsInt(settings.x, 0), AsInt(settings.y, 0);
      width, height := Max(AsInt(settings.width, screenWidth), 1), Max(AsInt(settings.height, screenHeight), 1);
    }
    ghost var box := Box(left, top, width, height);
    assert box == RequestedBox(mode, settings, if probe.Window? then probe.box else Box(0, 0, 0, 0),
      (screenWidth, screenHeight));
    hide RequestedBox;
    left, top := Max(left, 0), Max(top, 0);
    if left >= screenWidth {
      left := Max(screenWidth - 1, 0);
    }
    if top >= screenHeight {
      top := Max(screenHeight - 1, 0);
    }
    width := Max(Min(width, screenWidth - left), 1);
    assert left == FitAxis(screenWidth, box.left, box.width).0;
    assert width == FitAxis(screenWidth, box.left, box.width).1;
    height := Max(Min(height, screenHeight - top), 1);
    assert top == FitAxis(screenHeight, box.top, box.height).0;
    assert height == FitAxis(screenHeight, box.top, box.height).1;
    hide FitAxis, Max, Min;
    r := Resolved(DesktopViewport(mode, left, top, width, height,
      LogicalSize(settings.logicalWidth, settings.width, width),
        LogicalSize(settings.logicalHeight, settings.height, height)));
    ResolveIs(mode, source, image, fallback, probe);
  }

  // ---- From the settings to the viewport ----

  /** The settings give number `n` under a key: the camel-case spelling is read, the other only if that one is not
      there. */
  predicate Gives(source: map<string, Setting>, camel: string, snake: string, n: int) {
    || (camel in source && source[camel] == Number(n))
    || (camel !in source && snake in source && source[snake] == Number(n))
  }

  /** Under the key stands nothing, an empty text, or something that is no number. */
  predicate GivesNoNumber(source: map<string, Setting>, camel: string, snake: string) {
    && (camel in source ==> !source[camel].Number?)
    && (camel !in source && snake in source ==> !source[snake].Number?)
  }

  predicate GivesNothing(source: map<string, Setting>, camel: string, snake: string) {
    && (camel in source ==> source[camel].Missing? || source[camel].Blank?)
    && (camel !in source && snake in source ==> source[snake].Missing? || source[snake].Blank?)
  }

  /** The number asked for under a key, `default` if there is none. */
  predicate Asks(source: map<string, Setting>, camel: string, snake: string, default: int, n: int) {
    Gives(source, camel, snake, n) || (GivesNoNumber(source, camel, snake) && n == default)
  }

  /** The size asked for on one side: its own key, and in screen mode the logical size of that side if its own key
      gives nothing. */
  predicate AsksSize(mode: Mode, source: map<string, Setting>, size: (string, string), logical: (string, string),
      default: int, n: int) {
    if mode.Screen? && GivesNothing(source, size.0, size.1)
    then Asks(source, logical.0, logical.1, default, n)
    else Asks(source, size.0, size.1, default, n)
  }

  const WIDTH := ("viewportWidth", "viewport_width")
  const HEIGHT := ("viewportHeight", "viewport_height")
  const LOGICAL_WIDTH := ("logicalWidth", "logical_width")
  const LOGICAL_HEIGHT := ("logicalHeight", "logical_height")

  /** The screen is the screenshot's size if that has one, and otherwise the fallback, 1920 or 1080 standing in for a
      zero. */
  predicate IsScreen(image: (int, int), fallback: (int, int), screen: (int, int)) {
    if image.0 > 0 && image.1 > 0 then screen == image
    else
      && (fallback.0 != 0 ==> screen.0 == fallback.0) && (fallback.0 == 0 ==> screen.0 == 1920)
      && (fallback.1 != 0 ==> screen.1 == fallback.1) && (fallback.1 == 0 ==> screen.1 == 1080)
  }

  lemma LookupAsks(source: map<string, Setting>, camel: string, snake: string, default: int, n: int)
    ensures AsInt(Lookup(source, camel, snake), default) == n <==> Asks(source, camel, snake, default, n)
    ensures GivesNothing(source, camel, snake) <==> Absent(Lookup(source, camel, snake))
  {
  }

  lemma SizeAsks(mode: Mode, source: map<string, Setting>, size: (string, string), logical: (string, string),
      default: int, n: int)
    ensures var setting := SizeSetting(mode, Lookup(source, size.0, size.1), Lookup(source, logical.0, logical.1));
      AsInt(setting, default) == n <==> AsksSize(mode, source, size, logical, default, n)
  {
    LookupAsks(source, size.0, size.1, default, n);
    LookupAsks(source, logical.0, logical.1, default, n);
    hide Lookup, Asks, GivesNothing;
  }

  /** Screen and manual mode, from the settings to the viewport: each side is the fit of what its own keys ask for, the
      whole screen by default, and the logical size is the one asked for, by default the size asked for, and without
      that the size fitted. */
  lemma RegionResolves(mode: Mode, source: map<string, Setting>, image: (int, int), fallback: (int, int),
      probe: WindowProbe, screen: (int, int), box: Box)
    requires !mode.ActiveWindow? && IsScreen(image, fallback, screen)
    requires Asks(source, "viewportX", "viewport_x", 0, box.left) && Asks(source, "viewportY", "viewport_y", 0, box.top)
    requires AsksSize(mode, source, WIDTH, LOGICAL_WIDTH, screen.0, box.width)
    requires AsksSize(mode, source, HEIGHT, LOGICAL_HEIGHT, screen.1, box.height)
    ensures var r := Resolve(mode, source, image, fallback, probe);
      && r.Resolved? && r.viewport.mode == mode
      && (r.viewport.left, r.viewport.width) == FitAxis(screen.0, box.left, Max(box.width, 1))
      && (r.viewport.top, r.viewport.height) == FitAxis(screen.1, box.top, Max(box.height, 1))
    ensures forall w, lw ::
      AsksSize(mode, source, WIDTH, LOGICAL_WIDTH, Resolve(mode, source, image, fallback, probe).viewport.width, w)
      && Asks(source, LOGICAL_WIDTH.0, LOGICAL_WIDTH.1, w, lw)
      ==> Resolve(mode, source, image, fallback, probe).viewport.logicalWidth == Max(lw, 1)
    ensures forall h, lh ::
      AsksSize(mode, source, HEIGHT, LOGICAL_HEIGHT, Resolve(mode, source, image, fallback, probe).viewport.height, h)
      && Asks(source, LOGICAL_HEIGHT.0, LOGICAL_HEIGHT.1, h, lh)
      ==> Resolve(mode, source, image, fallback, probe).viewport.logicalHeight == Max(lh, 1)
  {
    LookupAsks(source, "viewportX", "viewport_x", 0, box.left);
    LookupAsks(source, "viewportY", "viewport_y", 0, box.top);
    SizeAsks(mode, source, WIDTH, LOGICAL_WIDTH, screen.0, box.width);
    SizeAsks(mode, source, HEIGHT, LOGICAL_HEIGHT, screen.1, box.height);
    var v := Resolve(mode, source, image, fallback, probe).viewport;
    hide Asks, AsksSize, FitAxis, AsInt, Lookup;
    forall w, lw | AsksSize(mode, source, WIDTH, LOGICAL_WIDTH, v.width, w)
        && Asks(source, LOGICAL_WIDTH.0, LOGICAL_WIDTH.1, w, lw) ensures v.logicalWidth == Max(lw, 1) {
      SizeAsks(mode, source, WIDTH, LOGICAL_WIDTH, v.width, w);
      LookupAsks(source, LOGICAL_WIDTH.0, LOGICAL_WIDTH.1, w, lw);
    }
    forall h, lh | AsksSize(mode, source, HEIGHT, LOGICAL_HEIGHT, v.height, h)
        && Asks(source, LOGICAL_HEIGHT.0, LOGICAL_HEIGHT.1, h, lh) ensures v.logicalHeight == Max(lh, 1) {
      SizeAsks(mode, source, HEIGHT, LOGICAL_HEIGHT, v.height, h);
      LookupAsks(source, LOGICAL_HEIGHT.0, LOGICAL_HEIGHT.1, h, lh);
    }
  }

  /** A region that fits the screen is the viewport as it stands, each number from its own key, and the logical sizes
      are those asked for, by default the region's own. */
  lemma RegionThatFits(mode: Mode, source: map<string, Setting>, image: (int, int), fallback: (int, int),
      probe: WindowProbe, screen: (int, int), box: Box, logical: (int, int))
    requires !mode.ActiveWindow? && IsScreen(image, fallback, screen)
    requires Asks(source, "viewportX", "viewport_x", 0, box.left) && Asks(source, "viewportY", "viewport_y", 0, box.top)
    requires AsksSize(mode, source, WIDTH, LOGICAL_WIDTH, screen.0, box.width)
    requires AsksSize(mode, source, HEIGHT, LOGICAL_HEIGHT, screen.1, box.height)
    requires 0 <= box.left && 1 <= box.width && box.left + box.width <= screen.0
    requires 0 <= box.top && 1 <= box.height && box.top + box.height <= screen.1
    requires Asks(source, "logicalWidth", "logical_width", box.width, logical.0) && 1 <= logical.0
    requires Asks(source, "logicalHeight", "logical_height", box.height, logical.1) && 1 <= logical.1
    ensures Resolve(mode, source, image, fallback, probe)
      == Resolved(DesktopViewport(mode, box.left, box.top, box.width, box.height, logical.0, logical.1))
  {
    hide Asks, AsksSize, FitAxis, Resolve;
    RegionResolves(mode, source, image, fallback, probe, screen, box);
    FitAxisMeaning(screen.0, box.left, box.width);
    FitAxisMeaning(screen.1, box.top, box.height);
    AsksWithin(mode, source, WIDTH, LOGICAL_WIDTH, screen.0, box.width);
    AsksWithin(mode, source, HEIGHT, LOGICAL_HEIGHT, screen.1, box.height);
  }

  /** With its own answer as the default, the size asked for is the same. */
  lemma AsksWithin(mode: Mode, source: map<string, Setting>, size: (string, string), logical: (string, string),
      default: int, n: int)
    requires AsksSize(mode, source, size, logical, default, n)
    ensures AsksSize(mode, source, size, logical, n, n)
  {
  }

  /** Active-window mode: without a window it is refused, with the reason. A window that fits the screen is the
      viewport; the settings have no say in its place and size, only in its logical size. */
  lemma WindowThatFits(source: map<string, Setting>, image: (int, int), fallback: (int, int), probe: WindowProbe,
      screen: (int, int), size: (int, int), logical: (int, int))
    requires IsScreen(image, fallback, screen)
    ensures !probe.Window? ==> Resolve(ActiveWindow, source, image, fallback, probe) == Refused(probe)
    ensures probe.Window? && 0 <= probe.box.left && 1 <= probe.box.width && probe.box.left + probe.box.width <= screen.0
      && 0 <= probe.box.top && 1 <= probe.box.height && probe.box.top + probe.box.height <= screen.1
      && Asks(source, "viewportWidth", "viewport_width", probe.box.width, size.0)
      && Asks(source, "viewportHeight", "viewport_height", probe.box.height, size.1)
      && Asks(source, "logicalWidth", "logical_width", size.0, logical.0) && 1 <= logical.0
      && Asks(source, "logicalHeight", "logical_height", size.1, logical.1) && 1 <= logical.1
      ==> Resolve(ActiveWindow, source, image, fallback, probe) == Resolved(DesktopViewport(ActiveWindow,
            probe.box.left, probe.box.top, probe.box.width, probe.box.height, logical.0, logical.1))
  {
    if probe.Window? {
      LookupAsks(source, "viewportWidth", "viewport_width", probe.box.width, size.0);
      LookupAsks(source, "viewportHeight", "viewport_height", probe.box.height, size.1);
      LookupAsks(source, "logicalWidth", "logical_width", size.0, logical.0);
      LookupAsks(source, "logicalHeight", "logical_height", size.1, logical.1);
    }
    hide Asks, Lookup;
  }

  /** Whatever was requested, the viewport lies on the screen, with positive size, exactly when the screen itself has
      positive size. */
  lemma ViewportLiesOnScreen(mode: Mode, box: Box, s: Settings, screen: (int, int))
    requires box.width >= 1 && box.height >= 1
    ensures var v := Fitted(mode, box, s, screen);
      v.Positive() && (InsideScreen(v, screen.0, screen.1) <==> screen.0 > 0 && screen.1 > 0)
  {
    hide AsInt;
    var v := Fitted(mode, box, s, screen);
    assert v.logicalWidth >= 1 && v.logicalHeight >= 1;
    if screen.0 > 0 { FitAxisMeaning(screen.0, box.left, box.width); }
    if screen.1 > 0 { FitAxisMeaning(screen.1, box.top, box.height); }
  }

  /** What fitting an axis means: the result lies on the screen; a request that fits is kept; one that starts on the
      screen is cut at the far edge and nowhere else; one that starts before it is moved to its edge, keeping its size
      if the screen allows; and fitting again changes nothing. */
  lemma FitAxisMeaning(screen: int, start: int, size: int)
    requires screen > 0 && size >= 1
    ensures var (s, n) := FitAxis(screen, start, size);
      && 0 <= s && n >= 1 && s + n <= screen
      && (0 <= start && start + size <= screen ==> s == start && n == size)
      && (0 <= start < screen ==> s == start && (s + n == screen || n == size))
      && (start < 0 ==> s == 0 && n == Min(size, screen))
      && (start >= screen ==> s == screen - 1 && n == 1)
      && FitAxis(screen, s, n) == (s, n)
  {
  }

  /** The position set is none, or none that can be read, and only the logical sizes are given. */
  predicate OnlyLogicalSizes(source: map<string, Setting>, width: int, height: int) {
    && GivesNoNumber(source, "viewportX", "viewport_x") && GivesNoNumber(source, "viewportY", "viewport_y")
    && GivesNothing(source, "viewportWidth", "viewport_width")
    && GivesNothing(source, "viewportHeight", "viewport_height")
    && Gives(source, "logicalWidth", "logical_width", width)
    && Gives(source, "logicalHeight", "logical_height", height)
  }

  lemma SameSizeIsIdentity(n: nat, x: nat)
    requires x < n
    ensures ToActual(n, n, x) == x && ToLogical(n, n, x) == x
  {
    NearestIsRounded(x * n, n, x);
  }

  /** With only logical sizes set, screen mode crops to them, so recording and replaying use the very same pixels on
      both axes and in both directions, provided the sizes fit the screen. */
  lemma LogicalOnlyCropsToIt(source: map<string, Setting>, image: (int, int), fallback: (int, int), probe: WindowProbe,
      screen: (int, int), width: int, height: int, x: nat, y: nat)
    requires IsScreen(image, fallback, screen)
    requires OnlyLogicalSizes(source, width, height) && 1 <= width <= screen.0 && 1 <= height <= screen.1
    requires x < width && y < height
    ensures Resolve(Screen, source, image, fallback, probe)
      == Resolved(DesktopViewport(Screen, 0, 0, width, height, width, height))
    ensures var v := DesktopViewport(Screen, 0, 0, width, height, width, height);
      v.ContainsActualPoint(x, y) && v.LogicalToActual(x, y) == (x, y) && v.ActualToLogical(x, y) == (x, y)
  {
    hide ToActual, ToLogical, Resolve;
    SameSizeIsIdentity(width, x);
    SameSizeIsIdentity(height, y);
    RegionThatFits(Screen, source, image, fallback, probe, screen, Box(0, 0, width, height), (width, height));
  }

  /** The logical size defaults to the size requested, not to the size that fitted: a region much wider than the screen
      maps its last logical pixel outside the viewport. */
  lemma OversizedRequestLeaks(probe: WindowProbe)
    ensures var r := Resolve(ManualRegion, map["viewportWidth" := Number(4000)], (1920, 1080), (0, 0), probe);
      && r == Resolved(DesktopViewport(ManualRegion, 0, 0, 1920, 1080, 4000, 1080))
      && r.viewport.LogicalToActual(3999, 0) == (1920, 0)
      && !r.viewport.ContainsActualPoint(1920, 0)
  {
    hide Resolve, FitAxis, ToActual, Asks, AsksSize;
    OversizedIsFitted(probe);
    LastPixelOutside(1920, 4000);
    FirstPixel(1080, 1080);
  }

  lemma FirstPixel(width: nat, logical: nat)
    requires logical >= 1
    ensures ToActual(width, logical, 0) == 0
  {
    NearestIsRounded(0, logical, 0);
  }

  lemma OversizedIsFitted(probe: WindowProbe)
    ensures Resolve(ManualRegion, map["viewportWidth" := Number(4000)], (1920, 1080), (0, 0), probe)
      == Resolved(DesktopViewport(ManualRegion, 0, 0, 1920, 1080, 4000, 1080))
  {
    var source := map["viewportWidth" := Number(4000)];
    assert "viewport_height" !in source && "viewportHeight" !in source && "viewportX" !in source;
    hide Resolve, FitAxis;
    RegionResolves(ManualRegion, source, (1920, 1080), (0, 0), probe, (1920, 1080), Box(0, 0, 4000, 1080));
    FitAxisMeaning(1920, 0, 4000);
    FitAxisMeaning(1080, 0, 1080);
  }
}
