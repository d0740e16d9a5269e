/**
 The scale-aware window of Window/Window.h and Window/Window.cpp. A window is
 authored at a designed size and position for a 3840x2160 reference viewport;
 in the debug build each frame compares the current viewport with the last
 one it saw and, per axis, rescales only when that axis changed.

 The window is an immutable value: each operation returns the next state. The
 Dear ImGui calls a frame makes are returned as a trace of GuiCall records,
 the content-drawing hook `draw()` is one DrawContent record, and the viewport
 size, the clock and the DEBUG build switch are parameters.
 */
module Windows {
  import opened Vectors
  import opened Colors

  /** DEFAULT_VIEWPORT_WIDTH and DEFAULT_VIEWPORT_HEIGHT: the reference viewport. */
  const ReferenceWidth: real := 3840.0
  const ReferenceHeight: real := 2160.0

  /** DEFAULT_BG: dark grey (40, 40, 40) at full opacity. */
  const DefaultBackground: Color4 := RGBtoImVec4(40.0, 40.0, 40.0, 1.0)

  /** Style defaults of Window.h used by the grid-with-dates drawing. */
  const DefaultHighlightWidth: real := 8.0
  const DefaultGraphicsGap: real := 32.0
  const DefaultWindowRounding: real := 48.0

  /** Dear ImGui's ImGuiWindowFlags_NoBackground bit (1 << 7). */
  const NoBackgroundFlag: bv32 := 0x80

  datatype Window = Window(
    title: string,
    designedWidth: real,
    designedHeight: real,
    designedPositionX: real,
    designedPositionY: real,
    width: real,
    height: real,
    dimensions: Vec2,
    position: Vec2,
    scaleX: real,
    scaleY: real,
    scaleAvg: real,
    previousViewportWidth: real,
    previousViewportHeight: real,
    currentTime: real,
    hasBackground: bool,
    backgroundColor: Color4,
    flags: bv32)

  /** The fields fixed at construction: title, designed geometry, and the
      `width` / `height` the accessors report. */
  datatype Design = Design(title: string, designedWidth: real, designedHeight: real,
                           designedPositionX: real, designedPositionY: real, width: real, height: real)

  function DesignOf(w: Window): Design {
    Design(w.title, w.designedWidth, w.designedHeight, w.designedPositionX, w.designedPositionY, w.width, w.height)
  }

  /** The cached scale agrees with the cached viewport, the instantaneous
      geometry is the designed geometry under that scale, and the reported
      width and height are the designed ones. Every window the operations
      below can produce satisfies this. */
  predicate Consistent(w: Window) {
    && w.width == w.designedWidth && w.height == w.designedHeight
    && w.scaleX == w.previousViewportWidth / ReferenceWidth
    && w.scaleY == w.previousViewportHeight / ReferenceHeight
    && w.scaleAvg == (w.scaleX + w.scaleY) / 2.0
    && w.dimensions == Vec2(w.designedWidth * w.scaleX, w.designedHeight * w.scaleY)
    && w.position == Vec2(w.designedPositionX * w.scaleX, w.designedPositionY * w.scaleY)
  }

  /** The constructor: designed and instantaneous geometry coincide, the scale
      is 1 on both axes, the cached viewport is the reference one, and the
      background is the visible default. */
  function NewWindow(title: string, designedWidth: real, designedHeight: real, posX: real, posY: real): (w: Window)
    ensures DesignOf(w) == Design(title, designedWidth, designedHeight, posX, posY, designedWidth, designedHeight)
    ensures w.dimensions == Vec2(designedWidth, designedHeight) && w.position == Vec2(posX, posY)
    ensures w.scaleX == 1.0 && w.scaleY == 1.0 && w.scaleAvg == 1.0
    ensures w.previousViewportWidth == ReferenceWidth && w.previousViewportHeight == ReferenceHeight
    ensures w.hasBackground && w.backgroundColor == DefaultBackground && w.flags == 0
    ensures w.currentTime == 0.0
    ensures Consistent(w)
  {
    Window(title, designedWidth, designedHeight, posX, posY, designedWidth, designedHeight,
           Vec2(designedWidth, designedHeight), Vec2(posX, posY),
           1.0, 1.0, 1.0, ReferenceWidth, ReferenceHeight,
           0.0, true, DefaultBackground, 0)
  }

  /** The default background is (40, 40, 40) / 255 at alpha 1. */
  lemma DefaultBackgroundValue()
    ensures DefaultBackground == Color4(40.0 / 255.0, 40.0 / 255.0, 40.0 / 255.0, 1.0)
  {
  }

  // Accessors and mutators

  /** getWidth and getHeight report the size fixed at construction, not the
      size the window is currently drawn at. */
  function GetWidth(w: Window): (r: real)
    ensures Consistent(w) ==> r == w.designedWidth
  {
    w.width
  }

  function GetHeight(w: Window): (r: real)
    ensures Consistent(w) ==> r == w.designedHeight
  {
    w.height
  }

  /** getScaleX and getScaleY: on a consistent window, the ratio of the last
      viewport seen to the reference one, and the factor that maps the
      designed geometry to the drawn geometry. */
  function GetScaleX(w: Window): (r: real)
    ensures Consistent(w) ==> r == w.previousViewportWidth / ReferenceWidth
    ensures Consistent(w) ==> w.dimensions.x == w.designedWidth * r && w.position.x == w.designedPositionX * r
  {
    w.scaleX
  }

  function GetScaleY(w: Window): (r: real)
    ensures Consistent(w) ==> r == w.previousViewportHeight / ReferenceHeight
    ensures Consistent(w) ==> w.dimensions.y == w.designedHeight * r && w.position.y == w.designedPositionY * r
  {
    w.scaleY
  }

  /** getScaleAvg: on a consistent window, the mean of the two axis scales. */
  function GetScaleAvg(w: Window): (r: real)
    ensures Consistent(w) ==> r == (GetScaleX(w) + GetScaleY(w)) / 2.0
  {
    w.scaleAvg
  }

  /** getBackgroundColor: the colour the background style push uses; putting
      it back with setBackgroundColor leaves the window as it was. */
  function GetBackgroundColor(w: Window): (r: Color4)
    ensures w.(backgroundColor := r) == w
  {
    w.backgroundColor
  }

  /** setBackgroundColor: changes the background colour and nothing else. */
  function SetBackgroundColor(w: Window, color: Color4): (r: Window)
    ensures GetBackgroundColor(r) == color
    ensures r.(backgroundColor := w.backgroundColor) == w
  {
    w.(backgroundColor := color)
  }

  /** setBackgroundVisibility: changes the visibility flag and nothing else. */
  function SetBackgroundVisibility(w: Window, visible: bool): (r: Window)
    ensures r.hasBackground == visible
    ensures r.(hasBackground := w.hasBackground) == w
  {
    w.(hasBackground := visible)
  }

  /** True when the scale-related fields (cached viewport, scales, instantaneous
      geometry) are the only ones in which `r` may differ from `w`. */
  predicate OnlyScalingChanged(w: Window, r: Window) {
    r.(scaleX := w.scaleX, scaleY := w.scaleY, scaleAvg := w.scaleAvg,
       previousViewportWidth := w.previousViewportWidth, previousViewportHeight := w.previousViewportHeight,
       dimensions := w.dimensions, position := w.position) == w
  }

  /** updateScale, given the viewport's work size. Each axis is rescaled
      exactly when it differs from the cached one; when either axis changed,
      the average scale and BOTH axes of the instantaneous geometry are
      recomputed from the designed values (an unchanged axis with its old
      scale). */
  function UpdateScale(w: Window, viewportWidth: real, viewportHeight: real): (r: Window)
    ensures r.previousViewportWidth == viewportWidth && r.previousViewportHeight == viewportHeight
    ensures viewportWidth != w.previousViewportWidth ==> r.scaleX == viewportWidth / ReferenceWidth
    ensures viewportWidth == w.previousViewportWidth ==> r.scaleX == w.scaleX
    ensures viewportHeight != w.previousViewportHeight ==> r.scaleY == viewportHeight / ReferenceHeight
    ensures viewportHeight == w.previousViewportHeight ==> r.scaleY == w.scaleY
    ensures (viewportWidth != w.previousViewportWidth || viewportHeight != w.previousViewportHeight) ==>
              && r.scaleAvg == (r.scaleX + r.scaleY) / 2.0
              && r.dimensions == Vec2(w.designedWidth * r.scaleX, w.designedHeight * r.scaleY)
              && r.position == Vec2(w.designedPositionX * r.scaleX, w.designedPositionY * r.scaleY)
    ensures (viewportWidth == w.previousViewportWidth && viewportHeight == w.previousViewportHeight) ==> r == w
    ensures OnlyScalingChanged(w, r)
    ensures DesignOf(r) == DesignOf(w)
    ensures Consistent(w) ==> Consistent(r)
  {
    var widthChanged := viewportWidth != w.previousViewportWidth;
    var heightChanged := viewportHeight != w.previousViewportHeight;
    var sx := if widthChanged then viewportWidth / ReferenceWidth else w.scaleX;
    var sy := if heightChanged then viewportHeight / ReferenceHeight else w.scaleY;
    var s := w.(scaleX := sx, scaleY := sy,
                previousViewportWidth := viewportWidth, previousViewportHeight := viewportHeight);
    if widthChanged || heightChanged then
      s.(scaleAvg := (sx + sy) * 0.5,
         dimensions := Vec2(w.designedWidth * sx, w.designedHeight * sy),
         position := Vec2(w.designedPositionX * sx, w.designedPositionY * sy))
    else
      s
  }

  /** Reference definition without the cache: rescale from the given viewport
      unconditionally. */
  function Rescaled(w: Window, viewportWidth: real, viewportHeight: real): Window {
    var sx := viewportWidth / ReferenceWidth;
    var sy := viewportHeight / ReferenceHeight;
    w.(scaleX := sx, scaleY := sy, scaleAvg := (sx + sy) / 2.0,
       previousViewportWidth := viewportWidth, previousViewportHeight := viewportHeight,
       dimensions := Vec2(w.designedWidth * sx, w.designedHeight * sy),
       position := Vec2(w.designedPositionX * sx, w.designedPositionY * sy))
  }

  /** The cache is transparent: on a consistent window, skipping the
      recomputation for an unchanged axis gives exactly what recomputing
      everything would. */
  lemma UpdateScaleIsMemoised(w: Window, viewportWidth: real, viewportHeight: real)
    requires Consistent(w)
    ensures UpdateScale(w, viewportWidth, viewportHeight) == Rescaled(w, viewportWidth, viewportHeight)
  {
  }

  /** A second observation of the same viewport changes nothing. */
  lemma UpdateScaleIdempotent(w: Window, viewportWidth: real, viewportHeight: real)
    ensures UpdateScale(UpdateScale(w, viewportWidth, viewportHeight), viewportWidth, viewportHeight)
         == UpdateScale(w, viewportWidth, viewportHeight)
  {
  }

  /** A change in width only leaves the height scale and the cached height
      alone, yet still rewrites the height of `dimensions` from the old
      height scale. */
  lemma WidthChangeKeepsHeightScale(w: Window, viewportWidth: real)
    requires viewportWidth != w.previousViewportWidth
    ensures UpdateScale(w, viewportWidth, w.previousViewportHeight).scaleY == w.scaleY
    ensures UpdateScale(w, viewportWidth, w.previousViewportHeight).previousViewportHeight == w.previousViewportHeight
    ensures UpdateScale(w, viewportWidth, w.previousViewportHeight).dimensions.y == w.designedHeight * w.scaleY
  {
  }

  /** On a fresh window, observing the reference viewport is not a change. */
  lemma FirstReferenceObservation(title: string, designedWidth: real, designedHeight: real, posX: real, posY: real)
    ensures UpdateScale(NewWindow(title, designedWidth, designedHeight, posX, posY), ReferenceWidth, ReferenceHeight)
         == NewWindow(title, designedWidth, designedHeight, posX, posY)
  {
  }

  /** A 100x100 window on a 1920x1080 viewport is drawn at half scale, 50x50. */
  lemma HalfScaleExample()
    ensures UpdateScale(NewWindow("w", 100.0, 100.0, 0.0, 0.0), 1920.0, 1080.0).scaleX == 0.5
    ensures UpdateScale(NewWindow("w", 100.0, 100.0, 0.0, 0.0), 1920.0, 1080.0).scaleY == 0.5
    ensures UpdateScale(NewWindow("w", 100.0, 100.0, 0.0, 0.0), 1920.0, 1080.0).dimensions == Vec2(50.0, 50.0)
  {
  }

  // ---------------------------------------------------------------------------
  // One frame: buildStart, draw, buildEnd

  /** The Dear ImGui calls a frame makes, in the order it makes them. The
      fixed arguments (ImGuiCol_WindowBg, ImGuiCond_FirstUseEver, the NULL
      open flag) are not recorded. */
  datatype GuiCall =
    | PushStyleColor(color: Color4)
    | SetNextWindowPos(pos: Vec2)
    | SetNextWindowSize(size: Vec2)
    | Begin(name: string, windowFlags: bv32)
    | PopStyleColor
    | DrawContent
    | End

  datatype CallKind = PushKind | PopKind | BeginKind | EndKind | DrawKind | OtherKind

  function KindOf(c: GuiCall): CallKind {
    match c
    case PushStyleColor(_) => PushKind
    case PopStyleColor => PopKind
    case Begin(_, _) => BeginKind
    case End => EndKind
    case DrawContent => DrawKind
    case _ => OtherKind
  }

  /** Number of calls of kind `k` in a trace. */
  function Count(s: seq<GuiCall>, k: CallKind): nat {
    if |s| == 0 then 0 else (if KindOf(s[0]) == k then 1 else 0) + Count(s[1..], k)
  }

  lemma {:induction false} CountConcat(a: seq<GuiCall>, b: seq<GuiCall>, k: CallKind)
    ensures Count(a + b, k) == Count(a, k) + Count(b, k)
  {
    if |a| == 0 {
      assert a + b == b;
    } else {
      assert (a + b)[1..] == a[1..] + b;
      CountConcat(a[1..], b, k);
    }
  }

  lemma CountOne(c: GuiCall, k: CallKind)
    ensures Count([c], k) == (if KindOf(c) == k then 1 else 0)
  {
    assert [c][1..] == [];
  }

  /** Counts of a three-call trace, one call at a time. */
  lemma CountThree(a: GuiCall, b: GuiCall, c: GuiCall, k: CallKind)
    ensures Count([a, b, c], k)
         == (if KindOf(a) == k then 1 else 0) + (if KindOf(b) == k then 1 else 0) + (if KindOf(c) == k then 1 else 0)
  {
    assert [a, b, c][1..] == [b, c];
    assert [b, c][1..] == [c];
    assert [c][1..] == [];
    assert Count([c], k) == (if KindOf(c) == k then 1 else 0);
    assert Count([b, c], k) == (if KindOf(b) == k then 1 else 0) + Count([c], k);
  }

  /** Reading the trace left to right with `depth` style colours pushed, no
      pop ever happens on an empty stack and the stack ends empty. */
  predicate StyleBalancedFrom(s: seq<GuiCall>, depth: nat) {
    if |s| == 0 then depth == 0
    else match s[0]
      case PushStyleColor(_) => StyleBalancedFrom(s[1..], depth + 1)
      case PopStyleColor => depth > 0 && StyleBalancedFrom(s[1..], depth - 1)
      case _ => StyleBalancedFrom(s[1..], depth)
  }

  predicate StyleBalanced(s: seq<GuiCall>) {
    StyleBalancedFrom(s, 0)
  }

  /** A stretch with no style calls leaves the style stack as it found it. */
  lemma {:induction false} StyleNeutralPrefix(a: seq<GuiCall>, b: seq<GuiCall>, depth: nat)
    requires Count(a, PushKind) == 0 && Count(a, PopKind) == 0
    ensures StyleBalancedFrom(a + b, depth) <==> StyleBalancedFrom(b, depth)
  {
    if |a| == 0 {
      assert a + b == b;
    } else {
      assert (a + b)[1..] == a[1..] + b;
      assert (a + b)[0] == a[0];
      StyleNeutralPrefix(a[1..], b, depth);
    }
  }

  /** The flags Begin is called with: NoBackground is added when the window
      has no background. */
  function BeginFlags(w: Window): (f: bv32)
    ensures f & NoBackgroundFlag != 0 <==> (!w.hasBackground || w.flags & NoBackgroundFlag != 0)
    ensures f & !NoBackgroundFlag == w.flags & !NoBackgroundFlag
  {
    if !w.hasBackground then w.flags | NoBackgroundFlag else w.flags
  }

  /** The calls buildStart makes once the window is up to date. */
  function OpenCalls(w: Window): seq<GuiCall> {
    var open := CoreOpenCalls(w);
    if w.hasBackground then [PushStyleColor(w.backgroundColor)] + open + [PopStyleColor] else open
  }

  datatype Frame = Frame(window: Window, calls: seq<GuiCall>)

  /** buildStart: rescale when the debug build allows it, then open the
      window; the background colour, when there is one, is pushed first and
      popped just after Begin. */
  function BuildStart(w: Window, debug: bool, viewportWidth: real, viewportHeight: real): (f: Frame)
    ensures f.window == (if debug then UpdateScale(w, viewportWidth, viewportHeight) else w)
    ensures OpenShape(f.window, f.calls)
  {
    var w' := if debug then UpdateScale(w, viewportWidth, viewportHeight) else w;
    OpenShapeHolds(w');
    Frame(w', OpenCalls(w'))
  }

  /** buildEnd: close the window, with one End and nothing else. */
  function BuildEnd(): (r: seq<GuiCall>)
    ensures |r| == 1 && r[0].End?
    ensures forall k :: Count(r, k) == (if k == EndKind then 1 else 0)
  {
    var r := [End];
    assert forall k :: Count(r, k) == (if k == EndKind then 1 else 0) by {
      forall k: CallKind
        ensures Count(r, k) == (if k == EndKind then 1 else 0)
      {
        CountOne(End, k);
      }
    }
    r
  }

  /** draw followed by buildEnd. */
  function DrawAndEnd(): seq<GuiCall> {
    [DrawContent] + BuildEnd()
  }

  /** The window a frame leaves behind: the time recorded and, in the debug
      build, the scale brought up to date. */
  function NextWindow(w: Window, debug: bool, time: real, viewportWidth: real, viewportHeight: real): (r: Window)
    ensures r.currentTime == time
    ensures DesignOf(r) == DesignOf(w)
    ensures r.hasBackground == w.hasBackground && r.backgroundColor == w.backgroundColor && r.flags == w.flags
    ensures !debug ==> r == w.(currentTime := time)
    ensures Consistent(w) ==> Consistent(r)
  {
    var timed := w.(currentTime := time);
    if debug then UpdateScale(timed, viewportWidth, viewportHeight) else timed
  }

  /** render: record the time, buildStart, draw, buildEnd. */
  function Render(w: Window, debug: bool, time: real, viewportWidth: real, viewportHeight: real): (f: Frame)
    ensures f.window == NextWindow(w, debug, time, viewportWidth, viewportHeight)
    ensures FrameShape(f.window, f.calls)
    ensures f.window.currentTime == time
    ensures DesignOf(f.window) == DesignOf(w)
    ensures f.window.hasBackground == w.hasBackground && f.window.backgroundColor == w.backgroundColor
    ensures f.window.flags == w.flags
    ensures debug ==> f.window == UpdateScale(w.(currentTime := time), viewportWidth, viewportHeight)
    ensures !debug ==> f.window == w.(currentTime := time)
    ensures Consistent(w) ==> Consistent(f.window)
  {
    var start := BuildStart(w.(currentTime := time), debug, viewportWidth, viewportHeight);
    var calls := start.calls + DrawAndEnd();
    RenderTraceShape(start.window, calls);
    Frame(start.window, calls)
  }

  /** The calls that open window `w`, with Begin at index `i`: the window is
      placed at its instantaneous position and size before Begin, and with a
      background the background colour is pushed first and popped right after
      Begin, so that it colours this window only. */
  predicate OpensAt(w: Window, calls: seq<GuiCall>, i: int) {
    && 2 <= i < |calls|
    && calls[i] == Begin(w.title, BeginFlags(w))
    && calls[i - 2] == SetNextWindowPos(w.position)
    && calls[i - 1] == SetNextWindowSize(w.dimensions)
    && (w.hasBackground ==> calls[0] == PushStyleColor(w.backgroundColor) && i + 1 < |calls| && calls[i + 1] == PopStyleColor)
  }

  /** What buildStart emits: one Begin, the two placement calls, one push and
      one pop exactly when there is a background, balanced, in the order
      OpensAt gives, and no draw or End. */
  predicate OpenShape(w: Window, calls: seq<GuiCall>) {
    && Count(calls, BeginKind) == 1 && Count(calls, OtherKind) == 2
    && Count(calls, DrawKind) == 0 && Count(calls, EndKind) == 0
    && Count(calls, PushKind) == Count(calls, PopKind) == (if w.hasBackground then 1 else 0)
    && StyleBalanced(calls)
    && exists i :: 0 <= i < |calls| && OpensAt(w, calls, i)
  }

  /** The shape of one frame's trace for window `w`: buildStart's calls, then
      draw, then End. */
  predicate FrameShape(w: Window, calls: seq<GuiCall>) {
    && TraceOrder(w, calls) && TraceCounts(w, calls) && StyleBalanced(calls) && TracePlacement(w, calls)
    && OpenShape(w, calls[..|calls| - 2])
  }

  /** The trace ends with draw then End, and Begin comes before them. */
  predicate TraceOrder(w: Window, calls: seq<GuiCall>) {
    && |calls| >= 5
    && calls[|calls| - 2] == DrawContent && calls[|calls| - 1] == End
    && Begin(w.title, BeginFlags(w)) in calls[..|calls| - 2]
  }

  /** Begin, draw and End happen once each, there are two placement calls;
      the background colour is pushed and popped once each exactly when the
      window has a background. */
  predicate TraceCounts(w: Window, calls: seq<GuiCall>) {
    && Count(calls, BeginKind) == 1 && Count(calls, EndKind) == 1 && Count(calls, DrawKind) == 1
    && Count(calls, OtherKind) == 2
    && Count(calls, PushKind) == Count(calls, PopKind) == (if w.hasBackground then 1 else 0)
  }

  /** Every Begin names the window with its flags, and the window is placed
      at its instantaneous position and size. */
  predicate TracePlacement(w: Window, calls: seq<GuiCall>) {
    && (forall c :: c in calls && c.Begin? ==> c == Begin(w.title, BeginFlags(w)))
    && (forall c :: c in calls && c.SetNextWindowPos? ==> c.pos == w.position)
    && (forall c :: c in calls && c.SetNextWindowSize? ==> c.size == w.dimensions)
  }

  /** The three calls that open the window, without the style push and pop. */
  function CoreOpenCalls(w: Window): seq<GuiCall> {
    [SetNextWindowPos(w.position), SetNextWindowSize(w.dimensions), Begin(w.title, BeginFlags(w))]
  }

  /** How many calls of each kind buildStart makes. */
  lemma OpenCallsCount(w: Window, k: CallKind)
    ensures Count(OpenCalls(w), k)
         == match k
            case BeginKind => 1
            case PushKind => if w.hasBackground then 1 else 0
            case PopKind => if w.hasBackground then 1 else 0
            case OtherKind => 2
            case _ => 0
  {
    var open := CoreOpenCalls(w);
    CountThree(open[0], open[1], open[2], k);
    assert open == [open[0], open[1], open[2]];
    if w.hasBackground {
      var push: seq<GuiCall> := [PushStyleColor(w.backgroundColor)];
      var pop: seq<GuiCall> := [PopStyleColor];
      assert push[1..] == [] && pop[1..] == [];
      assert OpenCalls(w) == push + open + pop;
      CountConcat(push + open, pop, k);
      CountConcat(push, open, k);
    }
  }

  /** With no style calls in between, the calls buildStart makes keep the
      style stack balanced. */
  lemma OpenStyleHolds(w: Window)
    ensures StyleBalanced(OpenCalls(w))
  {
    var open := CoreOpenCalls(w);
    var none: seq<GuiCall> := [];
    assert Count(open, PushKind) == 0 && Count(open, PopKind) == 0 by {
      CountThree(open[0], open[1], open[2], PushKind);
      CountThree(open[0], open[1], open[2], PopKind);
      assert open == [open[0], open[1], open[2]];
    }
    if w.hasBackground {
      var push: seq<GuiCall> := [PushStyleColor(w.backgroundColor)];
      var pop: seq<GuiCall> := [PopStyleColor];
      assert OpenCalls(w) == push + (open + pop);
      assert (push + (open + pop))[1..] == open + pop;
      StyleNeutralPrefix(open, pop, 1);
      assert pop[1..] == none;
    } else {
      StyleNeutralPrefix(open, none, 0);
      assert open + none == open;
    }
  }

  /** buildStart's calls have the promised shape. */
  lemma OpenShapeHolds(w: Window)
    ensures OpenShape(w, OpenCalls(w))
  {
    var calls := OpenCalls(w);
    forall k: CallKind
      ensures Count(calls, k)
           == match k
              case BeginKind => 1
              case PushKind => if w.hasBackground then 1 else 0
              case PopKind => if w.hasBackground then 1 else 0
              case OtherKind => 2
              case _ => 0
    {
      OpenCallsCount(w, k);
    }
    OpenStyleHolds(w);
    var i := if w.hasBackground then 3 else 2;
    assert calls[i - 2] == SetNextWindowPos(w.position);
    assert calls[i - 1] == SetNextWindowSize(w.dimensions);
    assert OpensAt(w, calls, i);
  }

  lemma TraceCountsHold(w: Window, calls: seq<GuiCall>)
    requires calls == OpenCalls(w) + DrawAndEnd()
    ensures TraceCounts(w, calls)
  {
    var tail := DrawAndEnd();
    forall k: CallKind
      ensures Count(calls, k) == Count(OpenCalls(w), k) + Count(tail, k)
      ensures Count(tail, k) == (if k == DrawKind || k == EndKind then 1 else 0)
      ensures Count(OpenCalls(w), k)
           == match k
              case BeginKind => 1
              case PushKind => if w.hasBackground then 1 else 0
              case PopKind => if w.hasBackground then 1 else 0
              case OtherKind => 2
              case _ => 0
    {
      CountConcat(OpenCalls(w), tail, k);
      OpenCallsCount(w, k);
      CountConcat([DrawContent], [End], k);
      CountOne(DrawContent, k);
      CountOne(End, k);
    }
  }

  lemma TraceStyleHolds(w: Window, calls: seq<GuiCall>)
    requires calls == OpenCalls(w) + DrawAndEnd()
    ensures StyleBalanced(calls)
  {
    var open := CoreOpenCalls(w);
    var tail := DrawAndEnd();
    assert tail[1..] == [End];
    assert [End][1..] == [];
    assert StyleBalancedFrom(tail, 0);
    assert Count(open, PushKind) == 0 && Count(open, PopKind) == 0 by {
      CountThree(open[0], open[1], open[2], PushKind);
      CountThree(open[0], open[1], open[2], PopKind);
      assert open == [open[0], open[1], open[2]];
    }
    if w.hasBackground {
      var push: seq<GuiCall> := [PushStyleColor(w.backgroundColor)];
      var pop: seq<GuiCall> := [PopStyleColor];
      assert calls == push + (open + (pop + tail));
      assert (push + (open + (pop + tail)))[1..] == open + (pop + tail);
      StyleNeutralPrefix(open, pop + tail, 1);
      assert (pop + tail)[1..] == tail;
    } else {
      StyleNeutralPrefix(open, tail, 0);
    }
  }

  lemma TraceOrderAndPlacementHold(w: Window, calls: seq<GuiCall>)
    requires calls == OpenCalls(w) + DrawAndEnd()
    ensures TraceOrder(w, calls) && TracePlacement(w, calls)
  {
    assert calls[..|calls| - 2] == OpenCalls(w);
  }

  /** Every frame opened by buildStart and closed by draw and buildEnd has the
      promised shape. */
  lemma RenderTraceShape(w: Window, calls: seq<GuiCall>)
    requires calls == OpenCalls(w) + DrawAndEnd()
    ensures FrameShape(w, calls)
  {
    TraceCountsHold(w, calls);
    TraceStyleHolds(w, calls);
    TraceOrderAndPlacementHold(w, calls);
    assert calls[..|calls| - 2] == OpenCalls(w);
    OpenShapeHolds(w);
  }

  /** A frame's trace is buildStart's calls followed by draw and End. */
  lemma RenderOpensWithBuildStart(w: Window, debug: bool, time: real, viewportWidth: real, viewportHeight: real)
    ensures var f := Render(w, debug, time, viewportWidth, viewportHeight);
            && |f.calls| >= 2
            && f.calls[..|f.calls| - 2] == BuildStart(w.(currentTime := time), debug, viewportWidth, viewportHeight).calls
            && f.calls[|f.calls| - 2..] == [DrawContent, End]
  {
    var start := BuildStart(w.(currentTime := time), debug, viewportWidth, viewportHeight);
    var calls := start.calls + DrawAndEnd();
    assert calls[..|calls| - 2] == start.calls;
    assert calls[|calls| - 2..] == [DrawContent, End];
  }

  /** Begin is told to draw no background exactly when the window has none
      (or its flags already asked for none); no other flag is touched. */
  lemma RenderBeginFlags(w: Window, debug: bool, time: real, viewportWidth: real, viewportHeight: real)
    ensures forall c :: c in Render(w, debug, time, viewportWidth, viewportHeight).calls && c.Begin? ==>
              && c.name == w.title
              && (c.windowFlags & NoBackgroundFlag != 0 <==> (!w.hasBackground || w.flags & NoBackgroundFlag != 0))
              && c.windowFlags & !NoBackgroundFlag == w.flags & !NoBackgroundFlag
  {
    var f := Render(w, debug, time, viewportWidth, viewportHeight);
    assert TracePlacement(f.window, f.calls);
    assert f.window.title == w.title;
  }

  // ---------------------------------------------------------------------------
  // Many frames

  /** What the host supplies to one frame: the clock and the viewport size. */
  datatype FrameInput = FrameInput(time: real, viewportWidth: real, viewportHeight: real)

  /** The window after rendering the given frames in order. */
  function RunFrames(w: Window, debug: bool, inputs: seq<FrameInput>): Window
    decreases |inputs|
  {
    if |inputs| == 0 then w
    else
      var i := inputs[0];
      RunFrames(NextWindow(w, debug, i.time, i.viewportWidth, i.viewportHeight), debug, inputs[1..])
  }

  /** Over any run of frames: the designed fields (and so getWidth and
      getHeight) never change; consistency is kept; in the release build the
      scale-related fields never move; in the debug build, after at least one
      frame, the scale is that of the last viewport seen. */
  lemma {:induction false} RunFramesInvariants(w: Window, debug: bool, inputs: seq<FrameInput>)
    ensures DesignOf(RunFrames(w, debug, inputs)) == DesignOf(w)
    ensures Consistent(w) ==> Consistent(RunFrames(w, debug, inputs))
    ensures !debug ==> RunFrames(w, debug, inputs).(currentTime := w.currentTime) == w
    ensures debug && Consistent(w) && |inputs| > 0 ==>
              var last := inputs[|inputs| - 1];
              && RunFrames(w, debug, inputs).scaleX == last.viewportWidth / ReferenceWidth
              && RunFrames(w, debug, inputs).scaleY == last.viewportHeight / ReferenceHeight
    decreases |inputs|
  {
    if |inputs| > 0 {
      var i := inputs[0];
      var next := NextWindow(w, debug, i.time, i.viewportWidth, i.viewportHeight);
      RunFramesInvariants(next, debug, inputs[1..]);
      if debug && Consistent(w) && |inputs| == 1 {
        UpdateScaleIsMemoised(w.(currentTime := i.time), i.viewportWidth, i.viewportHeight);
      }
    }
  }

  /** getWidth and getHeight report the designed size however the viewport
      has been resized. */
  lemma AccessorsReportDesignedSize(title: string, designedWidth: real, designedHeight: real, posX: real, posY: real,
                                    debug: bool, inputs: seq<FrameInput>)
    ensures GetWidth(RunFrames(NewWindow(title, designedWidth, designedHeight, posX, posY), debug, inputs)) == designedWidth
    ensures GetHeight(RunFrames(NewWindow(title, designedWidth, designedHeight, posX, posY), debug, inputs)) == designedHeight
  {
    RunFramesInvariants(NewWindow(title, designedWidth, designedHeight, posX, posY), debug, inputs);
  }

  /** getWidth is documented as the width of the window as it appears on the
      viewport, yet it returns the designed width, which no rescale touches:
      a 100-wide window drawn 50 wide on a 1920x1080 viewport still reports
      100. */
  lemma GetWidthIgnoresRescaleExample()
    ensures var w := UpdateScale(NewWindow("w", 100.0, 100.0, 0.0, 0.0), 1920.0, 1080.0);
            GetWidth(w) == 100.0 && w.dimensions.x == 50.0
  {
  }

  /** The width and height as they appear on the viewport: the instantaneous
      dimensions, which is what the getWidth documentation describes. */
  function CurrentWidth(w: Window): (r: real)
    ensures Consistent(w) ==> r == w.designedWidth * w.previousViewportWidth / ReferenceWidth
  {
    w.dimensions.x
  }

  function CurrentHeight(w: Window): (r: real)
    ensures Consistent(w) ==> r == w.designedHeight * w.previousViewportHeight / ReferenceHeight
  {
    w.dimensions.y
  }

  /** The corrected accessors follow the viewport: after any debug-build frame
      on a consistent window they report the designed size scaled by that
      frame's viewport, while getWidth and getHeight stay at the designed size. */
  lemma CurrentSizeTracksViewport(w: Window, time: real, viewportWidth: real, viewportHeight: real)
    requires Consistent(w)
    ensures var next := Render(w, true, time, viewportWidth, viewportHeight).window;
            && CurrentWidth(next) == w.designedWidth * viewportWidth / ReferenceWidth
            && CurrentHeight(next) == w.designedHeight * viewportHeight / ReferenceHeight
            && GetWidth(next) == w.designedWidth && GetHeight(next) == w.designedHeight
  {
    DebugFrameRescales(w, time, viewportWidth, viewportHeight);
  }

  lemma DebugFrameRescales(w: Window, time: real, viewportWidth: real, viewportHeight: real)
    requires Consistent(w)
    ensures var next := NextWindow(w, true, time, viewportWidth, viewportHeight);
            && CurrentWidth(next) == w.designedWidth * viewportWidth / ReferenceWidth
            && CurrentHeight(next) == w.designedHeight * viewportHeight / ReferenceHeight
            && GetWidth(next) == w.designedWidth && GetHeight(next) == w.designedHeight
  {
    var next := NextWindow(w, true, time, viewportWidth, viewportHeight);
    UpdateScaleIsMemoised(w.(currentTime := time), viewportWidth, viewportHeight);
    assert Consistent(next);
    assert next.previousViewportWidth == viewportWidth && next.previousViewportHeight == viewportHeight;
  }

  /** The background colour starts at DEFAULT_BG, and only
      setBackgroundColor changes it: neither the visibility switch, nor a
      rescale, nor any run of frames touches it. */
  lemma BackgroundColorKept(title: string, designedWidth: real, designedHeight: real, posX: real, posY: real,
                            w: Window, visible: bool, viewportWidth: real, viewportHeight: real,
                            debug: bool, inputs: seq<FrameInput>)
    ensures GetBackgroundColor(NewWindow(title, designedWidth, designedHeight, posX, posY)) == DefaultBackground
    ensures GetBackgroundColor(SetBackgroundVisibility(w, visible)) == GetBackgroundColor(w)
    ensures GetBackgroundColor(UpdateScale(w, viewportWidth, viewportHeight)) == GetBackgroundColor(w)
    ensures GetBackgroundColor(RunFrames(w, debug, inputs)) == GetBackgroundColor(w)
  {
    RunFramesKeepBackground(w, debug, inputs);
  }

  lemma {:induction false} RunFramesKeepBackground(w: Window, debug: bool, inputs: seq<FrameInput>)
    ensures RunFrames(w, debug, inputs).backgroundColor == w.backgroundColor
    decreases |inputs|
  {
    if |inputs| > 0 {
      var i := inputs[0];
      RunFramesKeepBackground(NextWindow(w, debug, i.time, i.viewportWidth, i.viewportHeight), debug, inputs[1..]);
    }
  }
}
