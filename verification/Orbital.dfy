/** The compositor's event handling and its painting loops (crates/orbital/main.rs, window.rs). */
module Orbital {
  import opened Common
  import opened Images
  import opened Compositor

  const EVENT_MOUSE := 1
  const EVENT_KEY := 2
  const K_F1 := 0x3B
  const K_F2 := 0x3C

  datatype Event = Event(code: int, a: int, b: int, c: int)

  // ---------------------------------------------------------------- what an event does

  function KeyOn(d: Desk, e: Event): Desk {
    if e.c > 0 && e.b % 256 == K_F1 then d.MoveCursor(0, 0)
    else if e.c > 0 && e.b % 256 == K_F2 then d.MoveCursor(d.Size().0, d.Size().1)
    else d
  }

  function PointerOn(d: Desk, e: Event): Desk {
    if e.a != d.scene.cursorX || e.b != d.scene.cursorY then d.MoveCursor(e.a, e.b) else d
  }

  /** The dragged window, always the front one, follows the cursor while the button is down. */
  function DragOn(d: Desk, e: Event): Desk {
    var s := d.scene;
    if e.c > 0 && s.order != [] && s.order[0] in s.windows then
      if d.dragX != s.cursorX || d.dragY != s.cursorY
      then d.MoveWindow(s.order[0], s.cursorX - d.dragX, s.cursorY - d.dragY).(dragX := s.cursorX, dragY := s.cursorY)
      else d
    else d.(dragging := false)
  }

  predicate Hit(s: Scene, id: Id, x: int, y: int) {
    id in s.windows && (s.windows[id].GetRect().Contains(x, y) || s.windows[id].TitleRect().Contains(x, y))
  }

  /** The topmost window under the pointer, from position `k` of the order. */
  function FirstHit(s: Scene, k: nat, x: int, y: int): (n: nat)
    requires k <= |s.order|
    ensures k <= n <= |s.order|
    ensures n < |s.order| ==> Hit(s, s.order[n], x, y)
    decreases |s.order| - k
  {
    if k == |s.order| || Hit(s, s.order[k], x, y) then k else FirstHit(s, k + 1, x, y)
  }

  function ClickOn(d: Desk, e: Event): Desk {
    var s := d.scene;
    var k := FirstHit(s, 0, e.a, e.b);
    if k == |s.order| || e.c <= 0 then d
    else
      var win := s.windows[s.order[k]];
      var grabbed := if win.GetRect().Contains(e.a, e.b) || win.ExitContains(e.a, e.b) then d
                     else d.(dragging := true, dragX := s.cursorX, dragY := s.cursorY);
      if k > 0 then grabbed.Raise(k) else grabbed
  }

  function EventOn(d: Desk, e: Event): Desk {
    if e.code == EVENT_KEY then KeyOn(d, e)
    else if e.code == EVENT_MOUSE then
      var p := PointerOn(d, e);
      if p.dragging then DragOn(p, e) else ClickOn(p, e)
    else d
  }

  // ---------------------------------------------------------------- every operation tracks its changes

  lemma TracksSelf(d: Desk)
    requires d.Valid()
    ensures Tracks(d, d)
  {
  }

  lemma TracksTrans(d: Desk, e: Desk, f: Desk)
    requires Tracks(d, e) && Tracks(e, f)
    ensures Tracks(d, f)
  {
    hide Compose, Pending, Desk.Valid;
  }

  /** Drag bookkeeping and the name counter are not part of the picture. */
  lemma TracksAside(d: Desk, e: Desk, f: Desk)
    requires Tracks(d, e) && f.scene == e.scene && f.redraws == e.redraws && f.nextId == e.nextId
    ensures Tracks(d, f)
  {
    hide Compose, Pending;
  }

  lemma DragTracks(d: Desk, e: Event)
    requires d.Valid()
    ensures Tracks(d, DragOn(d, e))
  {
    hide Tracks, Desk.MoveWindow;
    var s := d.scene;
    TracksSelf(d);
    if e.c > 0 && s.order != [] && s.order[0] in s.windows {
      var m := d.MoveWindow(s.order[0], s.cursorX - d.dragX, s.cursorY - d.dragY);
      MoveWindowTracks(d, s.order[0], s.cursorX - d.dragX, s.cursorY - d.dragY);
      TracksAside(d, m, m.(dragX := s.cursorX, dragY := s.cursorY));
    } else {
      TracksAside(d, d, d.(dragging := false));
    }
  }

  lemma ClickTracks(d: Desk, e: Event)
    requires d.Valid()
    ensures Tracks(d, ClickOn(d, e))
  {
    hide Tracks, Desk.Raise;
    var k := FirstHit(d.scene, 0, e.a, e.b);
    var grabbed := d.(dragging := true, dragX := d.scene.cursorX, dragY := d.scene.cursorY);
    TracksSelf(d);
    TracksAside(d, d, grabbed);
    if k < |d.scene.order| {
      RaiseTracks(d, k);
      RaiseTracks(grabbed, k);
      TracksTrans(d, grabbed, grabbed.Raise(k));
    }
  }

  lemma EventTracks(d: Desk, e: Event)
    requires d.Valid()
    ensures Tracks(d, EventOn(d, e))
  {
    hide Desk.MoveCursor, DragOn, ClickOn, Pending, Compose;
    TracksSelf(d);
    if e.code == EVENT_KEY {
      MoveCursorTracks(d, 0, 0);
      MoveCursorTracks(d, d.Size().0, d.Size().1);
    } else if e.code == EVENT_MOUSE {
      MoveCursorTracks(d, e.a, e.b);
      var p := PointerOn(d, e);
      DragTracks(p, e);
      ClickTracks(p, e);
      TracksTrans(d, p, if p.dragging then DragOn(p, e) else ClickOn(p, e));
    }
  }

  // ---------------------------------------------------------------- safety over whole runs

  datatype Op =
    | Input(event: Event)
    | Open(x: int, y: int, image: Picture, title: seq<nat>)
    | Write(id: Id, data: seq<Color>)
    | Close(id: Id)
    | Redraw

  function Apply(d: Desk, op: Op): Desk {
    match op
    case Input(e) => EventOn(d, e)
    case Open(x, y, image, title) => d.OpenWindow(x, y, image, title)
    case Write(id, data) => d.WriteWindow(id, data)
    case Close(id) => d.CloseWindow(id)
    case Redraw => d.(redraws := [])
  }

  /** A pixel no pending rectangle covers shows the composed scene. */
  predicate Synced(d: Desk, pixels: seq<Color>)
    requires d.Valid()
  {
    && |pixels| == d.Size().0 * d.Size().1
    && forall i :: 0 <= i < |pixels| && !Pending(d.redraws, X(i, d.Size().0), Y(i, d.Size().0)) ==>
         pixels[i] == Wanted(d, i)
  }

  /** The composed colour of the `i`th pixel. */
  function Wanted(d: Desk, i: nat): Color
    requires d.Valid() && i < d.Size().0 * d.Size().1
  {
    InBounds(i, d.Size().0, d.Size().1);
    Compose(d.scene, X(i, d.Size().0), Y(i, d.Size().0))
  }

  /** What an operation does to the pixels: only a redraw touches them, and only pending ones. */
  predicate Painted(d: Desk, op: Op, before: seq<Color>, after: seq<Color>)
    requires d.Valid()
  {
    if !op.Redraw? then after == before
    else
      && |after| == |before| == d.Size().0 * d.Size().1
      && forall i :: 0 <= i < |after| ==>
           after[i] == if Pending(d.redraws, X(i, d.Size().0), Y(i, d.Size().0)) then Wanted(d, i) else before[i]
  }

  lemma TracksKeepSynced(d: Desk, e: Desk, pixels: seq<Color>)
    requires Tracks(d, e) && Synced(d, pixels)
    ensures Synced(e, pixels)
  {
    hide Compose, Pending, Desk.Valid, X, Y;
    forall i | 0 <= i < |pixels| && !Pending(e.redraws, X(i, d.Size().0), Y(i, d.Size().0))
      ensures pixels[i] == Wanted(e, i)
    {
      InBounds(i, d.Size().0, d.Size().1);
    }
  }

  lemma ApplyTracks(d: Desk, op: Op)
    requires d.Valid() && !op.Redraw? && (op.Open? ==> op.image.Valid())
    ensures Tracks(d, Apply(d, op))
  {
    hide Tracks, EventOn, Desk.OpenWindow, Desk.WriteWindow, Desk.CloseWindow;
    match op
    case Input(e) => EventTracks(d, e);
    case Open(x, y, image, title) => OpenWindowTracks(d, x, y, image, title);
    case Write(id, data) => WriteWindowTracks(d, id, data);
    case Close(id) => CloseWindowTracks(d, id);
  }

  /** One operation keeps the screen in step, and a redraw leaves no pixel wrong. */
  lemma StepSynced(d: Desk, op: Op, before: seq<Color>, after: seq<Color>)
    requires d.Valid() && Synced(d, before) && Painted(d, op, before, after)
    requires op.Open? ==> op.image.Valid()
    ensures Apply(d, op).Valid() && Synced(Apply(d, op), after)
    ensures op.Redraw? ==> forall i :: 0 <= i < |after| ==> after[i] == Wanted(Apply(d, op), i)
  {
    hide Compose, Pending, EventOn, Desk.OpenWindow, Desk.WriteWindow, Desk.CloseWindow, X, Y;
    if !op.Redraw? {
      ApplyTracks(d, op);
      TracksKeepSynced(d, Apply(d, op), before);
    }
  }

  ghost predicate IsRun(desks: seq<Desk>, screens: seq<seq<Color>>, ops: seq<Op>) {
    && |desks| == |screens| == |ops| + 1
    && forall k :: 0 <= k < |ops| ==>
         && desks[k].Valid() && (ops[k].Open? ==> ops[k].image.Valid())
         && desks[k + 1] == Apply(desks[k], ops[k])
         && Painted(desks[k], ops[k], screens[k], screens[k + 1])
  }

  /** Incremental repaint refines full repaint, through any sequence of operations. */
  lemma {:induction false} RunSynced(desks: seq<Desk>, screens: seq<seq<Color>>, ops: seq<Op>)
    requires IsRun(desks, screens, ops) && desks[0].Valid() && Synced(desks[0], screens[0])
    ensures desks[|ops|].Valid() && Synced(desks[|ops|], screens[|ops|])
    ensures ops != [] && ops[|ops| - 1].Redraw? ==>
              forall i :: 0 <= i < |screens[|ops|]| ==> screens[|ops|][i] == Wanted(desks[|ops|], i)
    decreases |ops|
  {
    hide Synced, Painted, Wanted, Apply, Desk.Valid;
    if ops != [] {
      var n := |ops| - 1;
      RunSynced(desks[..n + 1], screens[..n + 1], ops[..n]);
      StepSynced(desks[n], ops[n], screens[n], screens[n + 1]);
    }
  }

  /** The compositor starts with the whole screen pending, so whatever the screen shows is in step. */
  lemma InitiallySynced(d: Desk, pixels: seq<Color>)
    requires d.Valid() && |pixels| == d.Size().0 * d.Size().1
    requires d.redraws == [Rect(0, 0, d.Size().0, d.Size().1)]
    ensures Synced(d, pixels)
  {
    forall i | 0 <= i < |pixels|
      ensures Pending(d.redraws, X(i, d.Size().0), Y(i, d.Size().0))
    {
      InBounds(i, d.Size().0, d.Size().1);
      assert d.redraws[0].Covers(X(i, d.Size().0), Y(i, d.Size().0));
    }
  }

  lemma KeepsSynced(d: Desk, op: Op, pixels: seq<Color>)
    requires d.Valid() && !op.Redraw? && (op.Open? ==> op.image.Valid())
    ensures var e := Apply(d, op); e.Valid() && e.Size() == d.Size() && (Synced(d, pixels) ==> Synced(e, pixels))
  {
    hide Compose, Pending, Synced, EventOn, Desk.OpenWindow, Desk.WriteWindow, Desk.CloseWindow;
    ApplyTracks(d, op);
    if Synced(d, pixels) {
      TracksKeepSynced(d, Apply(d, op), pixels);
    }
  }

  // ---------------------------------------------------------------- painting one window

  /** Blend one glyph over the part of it inside `clip`. */
  method DrawGlyph(image: array<Color>, w: nat, h: nat, font: Font, win: Window, ch: nat, col: int, clip: Rect)
    requires image.Length == w * h && clip.Inside(w, h)
    modifies image
    ensures forall i :: 0 <= i < image.Length ==>
              image[i] == if clip.Covers(X(i, w), Y(i, w))
                          then GlyphOver(font, win, ch, col, X(i, w), Y(i, w), old(image[i])) else old(image[i])
  {
    hide X, Y, Blend;
    var fontImage := font.Render(ch, TITLE_TEXT);
    var imageRect := GlyphRect(win, col);
    var intersect := clip.Intersection(imageRect);
    if !intersect.IsEmpty() {
      var o := intersect.Offset(-imageRect.Left(), -imageRect.Top());
      BlendRoi(image, w, h, intersect, fontImage, o.x, o.y);
    }
  }

  /** `Window::draw_title`, clipped. */
  method DrawTitle(image: array<Color>, w: nat, h: nat, font: Font, win: Window, clip: Rect, focused: bool)
    requires image.Length == w * h && clip.Inside(w, h)
    modifies image
    ensures forall i :: 0 <= i < image.Length ==>
              image[i] == if clip.Covers(X(i, w), Y(i, w))
                          then TitleOver(font, win, focused, X(i, w), Y(i, w), old(image[i])) else old(image[i])
  {
    hide X, Y, Blend, GlyphOver, Font.Render, TextOver, Rgb;
    var titleRect := win.TitleRect();
    var intersect := clip.Intersection(titleRect);
    if !intersect.IsEmpty() {
      var color := if focused then FOCUSED else UNFOCUSED;
      SetRoi(image, w, h, intersect, color);
      DrawText(image, w, h, font, win, clip, color, old(image[..]));
      var x := win.TextEnd();
      if x + 10 <= win.x + win.image.w {
        label text:
        DrawGlyph(image, w, h, font, win, CLOSE_CHAR, x, clip);
        forall i | 0 <= i < image.Length && clip.Covers(X(i, w), Y(i, w)) && !titleRect.Covers(X(i, w), Y(i, w))
          ensures image[i] == old@text(image[i])
        {
          GlyphElsewhere(font, win, CLOSE_CHAR, x, X(i, w), Y(i, w), old@text(image[i]));
        }
      }
    }
  }

  lemma GlyphElsewhere(font: Font, win: Window, ch: nat, col: int, x: int, y: int, under: Color)
    requires win.title != [] && win.x <= col && col + GLYPH_W <= win.x + win.image.w
    requires !win.TitleRect().Covers(x, y)
    ensures GlyphOver(font, win, ch, col, x, y, under) == under
  {
    hide Blend, Font.Render;
  }

  /** Past the last character that fits, the rest of the title changes nothing. */
  lemma {:induction false} TextStops(font: Font, win: Window, k: nat, n: nat, x: int, y: int, under: Color)
    requires k <= n <= |win.title| && (k < n ==> win.x + 2 + 8 * k >= win.TextEnd())
    ensures TextOver(font, win, n, x, y, under) == TextOver(font, win, k, x, y, under)
  {
    hide GlyphOver;
    if k < n {
      TextStops(font, win, k, n - 1, x, y, under);
    }
  }

  /** The title bar's colour at a pixel, before any text. */
  function BarOver(clip: Rect, win: Window, color: Color, x: int, y: int, under: Color): Color {
    if clip.Covers(x, y) && win.TitleRect().Covers(x, y) then Blend(under, color) else under
  }

  function TextOnBar(font: Font, clip: Rect, win: Window, color: Color, n: nat, x: int, y: int, under: Color): Color
    requires n <= |win.title|
  {
    var bar := BarOver(clip, win, color, x, y, under);
    if clip.Covers(x, y) && win.TitleRect().Covers(x, y) then TextOver(font, win, n, x, y, bar) else bar
  }

  method DrawText(image: array<Color>, w: nat, h: nat, font: Font, win: Window, clip: Rect, color: Color,
                  ghost before: seq<Color>)
    requires image.Length == w * h == |before| && clip.Inside(w, h) && win.title != []
    requires forall i :: 0 <= i < image.Length ==>
               image[i] == BarOver(clip, win, color, X(i, w), Y(i, w), before[i])
    modifies image
    ensures forall i :: 0 <= i < image.Length ==>
              image[i] == TextOnBar(font, clip, win, color, |win.title|, X(i, w), Y(i, w), before[i])
  {
    hide X, Y, Blend, GlyphOver, Font.Render, Rgb, BarOver;
    var x := win.x + 2;
    var k := 0;
    while k < |win.title|
      invariant 0 <= k <= |win.title| && x == win.x + 2 + 8 * k
      invariant forall i :: 0 <= i < image.Length ==>
                  image[i] == TextOnBar(font, clip, win, color, k, X(i, w), Y(i, w), before[i])
    {
      if x >= win.TextEnd() {
        break;
      }
      ghost var was := image[..];
      DrawGlyph(image, w, h, font, win, win.title[k], x, clip);
      forall i | 0 <= i < image.Length
        ensures image[i] == TextOnBar(font, clip, win, color, k + 1, X(i, w), Y(i, w), before[i])
      {
        if !win.TitleRect().Covers(X(i, w), Y(i, w)) {
          GlyphElsewhere(font, win, win.title[k], x, X(i, w), Y(i, w), was[i]);
        }
      }
      x := x + 8;
      k := k + 1;
    }
    forall i | 0 <= i < image.Length
      ensures image[i] == TextOnBar(font, clip, win, color, |win.title|, X(i, w), Y(i, w), before[i])
    {
      TextStops(font, win, k, |win.title|, X(i, w), Y(i, w), BarOver(clip, win, color, X(i, w), Y(i, w), before[i]));
    }
  }

  /** `Window::draw`, clipped. */
  method DrawBody(image: array<Color>, w: nat, h: nat, win: Window, clip: Rect)
    requires image.Length == w * h && clip.Inside(w, h) && win.image.Valid()
    modifies image
    ensures forall i :: 0 <= i < image.Length ==>
              image[i] == if clip.Covers(X(i, w), Y(i, w))
                          then BodyOver(win, X(i, w), Y(i, w), old(image[i])) else old(image[i])
  {
    hide X, Y;
    var selfRect := win.GetRect();
    var intersect := selfRect.Intersection(clip);
    if !intersect.IsEmpty() {
      var o := intersect.Offset(-selfRect.Left(), -selfRect.Top());
      Blit(image, w, h, intersect, win.image, o.x, o.y);
    }
  }

  // ---------------------------------------------------------------- the compositor

  /** The windows from position `k` down, painted over the background at the `p`th pixel. */
  function StackFrom(s: Scene, k: nat, p: nat): Color
    requires s.Valid() && k <= |s.order| && p < s.background.w * s.background.h
  {
    var w, h := s.background.w, s.background.h;
    InBounds(p, w, h);
    Stack(s, s.order[k..], k == 0, X(p, w), Y(p, w), s.background.At(X(p, w), Y(p, w)))
  }

  /** From the last window, only the background; from the first one, all but the cursor. */
  lemma StackFromEnds(d: Desk)
    requires d.Valid()
    ensures forall p: nat :: p < d.Size().0 * d.Size().1 ==>
              && X(p, d.Size().0) < d.Size().0 && Y(p, d.Size().0) < d.Size().1
              && StackFrom(d.scene, |d.scene.order|, p) == d.scene.background.At(X(p, d.Size().0), Y(p, d.Size().0))
              && CursorOver(d.scene, X(p, d.Size().0), Y(p, d.Size().0), StackFrom(d.scene, 0, p)) == Wanted(d, p)
  {
    hide X, Y, WindowOver, CursorOver, Picture.At;
    var s := d.scene;
    assert s.order[0..] == s.order;
    forall p: nat | p < d.Size().0 * d.Size().1
      ensures X(p, d.Size().0) < d.Size().0 && Y(p, d.Size().0) < d.Size().1
      ensures StackFrom(s, |s.order|, p) == s.background.At(X(p, d.Size().0), Y(p, d.Size().0))
      ensures CursorOver(s, X(p, d.Size().0), Y(p, d.Size().0), StackFrom(s, 0, p)) == Wanted(d, p)
    {
      InBounds(p, d.Size().0, d.Size().1);
    }
  }

  lemma StackFromStep(s: Scene, k: nat)
    requires s.Valid() && k < |s.order|
    ensures forall p: nat {:trigger StackFrom(s, k, p)} :: p < s.background.w * s.background.h ==>
              StackFrom(s, k, p) == WindowOver(s, s.order[k], k == 0, X(p, s.background.w), Y(p, s.background.w),
                                               StackFrom(s, k + 1, p))
  {
    hide X, Y, WindowOver, Picture.At;
    assert s.order[k..][1..] == s.order[k + 1..];
  }

  /** `Image::new`: an image of black pixels. */
  function Blank(w: nat, h: nat): (p: Picture)
    ensures p.Valid() && p.w == w && p.h == h
  {
    Picture(w, h, seq(w * h, _ => Rgb(0, 0, 0)))
  }

  lemma ScheduledAt(redraws: seq<Rect>, k: nat, request: Rect)
    requires k < |redraws|
    ensures var container := redraws[k].Container(request);
            redraws[..k] + Scheduled(redraws[k..], request)
            == if container.Area() <= redraws[k].Area() + request.Area() then redraws[k := container]
               else redraws[..k + 1] + Scheduled(redraws[k + 1..], request)
  {
    assert redraws[k..][1..] == redraws[k + 1..];
    assert redraws[..k + 1] == redraws[..k] + [redraws[k]];
  }

  lemma ScheduledNone(redraws: seq<Rect>, request: Rect)
    requires redraws == []
    ensures Scheduled(redraws, request) == [request]
  {
  }

  class OrbitalScheme {
    const width: nat
    const height: nat
    const image: array<Color>
    const background: Picture
    const cursor: Picture
    const font: Font
    var cursorX: int
    var cursorY: int
    var dragging: bool
    var dragX: int
    var dragY: int
    var nextId: Id
    var nextX: int
    var nextY: int
    var order: seq<Id>
    var windows: map<Id, Window>
    var redraws: seq<Rect>

    ghost function State(): Desk
      reads this
    {
      Desk(Scene(background, cursor, font, cursorX, cursorY, order, windows),
           redraws, dragging, dragX, dragY, nextId, nextX, nextY)
    }

    ghost predicate Valid()
      reads this
    {
      State().Valid() && background.w == width && background.h == height && image.Length == width * height
    }

    constructor (width: nat, height: nat, background: Picture, cursor: Picture, font: Font)
      requires background.Valid() && cursor.Valid() && background.w == width && background.h == height
      ensures Valid() && fresh(image) && Synced(State(), image[..])
      ensures State().redraws == [Rect(0, 0, width, height)] && order == [] && windows == map[]
    {
      this.width, this.height := width, height;
      this.background, this.cursor, this.font := background, cursor, font;
      image := new Color[width * height](_ => Rgb(0, 0, 0));
      cursorX, cursorY, dragging, dragX, dragY := 0, 0, false, 0, 0;
      nextId, nextX, nextY := 1, 20, 20;
      order, windows := [], map[];
      redraws := [Rect(0, 0, width, height)];
      new;
      InitiallySynced(State(), image[..]);
    }

    function CursorRect(): Rect
      reads this
    {
      Rect(cursorX, cursorY, cursor.w, cursor.h)
    }

    /** `schedule`: grow the first rectangle that does not waste area, or add one. */
    method Schedule(request: Rect)
      modifies this`redraws
      ensures redraws == Scheduled(old(redraws), request)
    {
      hide Scheduled;
      var k := 0;
      while k < |redraws|
        invariant 0 <= k <= |redraws| && redraws == old(redraws)
        invariant Scheduled(redraws, request) == redraws[..k] + Scheduled(redraws[k..], request)
      {
        ScheduledAt(redraws, k, request);
        var container := redraws[k].Container(request);
        if container.Area() <= redraws[k].Area() + request.Area() {
          redraws := redraws[k := container];
          return;
        }
        k := k + 1;
      }
      ScheduledNone(redraws[k..], request);
      redraws := redraws + [request];
    }

    method ScheduleId(id: Id)
      modifies this`redraws
      ensures State() == old(State()).ScheduleId(id)
    {
      hide Scheduled;
      if id in windows {
        Schedule(windows[id].TitleRect());
        Schedule(windows[id].GetRect());
      }
    }

    method MoveCursor(x: int, y: int)
      modifies this`redraws, this`cursorX, this`cursorY
      ensures State() == old(State()).MoveCursor(x, y)
    {
      hide Scheduled;
      Schedule(CursorRect());
      cursorX := x;
      cursorY := y;
      Schedule(CursorRect());
    }

    method OnEvent(e: Event)
      requires Valid()
      modifies this
      ensures Valid() && State() == EventOn(old(State()), e)
      ensures Synced(old(State()), old(image[..])) ==> Synced(State(), image[..])
    {
      hide Scheduled, Compose, Pending, Synced, FirstHit, Hit, Desk.MoveWindow, Desk.Raise, Desk.MoveCursor;
      KeepsSynced(State(), Input(e), image[..]);
      if e.code == EVENT_KEY {
        if e.c > 0 {
          if e.b % 256 == K_F1 {
            MoveCursor(0, 0);
          } else if e.b % 256 == K_F2 {
            MoveCursor(width, height);
          }
        }
      } else if e.code == EVENT_MOUSE {
        if e.a != cursorX || e.b != cursorY {
          MoveCursor(e.a, e.b);
        }
        if dragging {
          Drag(e);
        } else {
          Click(e);
        }
      }
    }

    method Drag(e: Event)
      modifies this
      ensures State() == DragOn(old(State()), e)
    {
      hide Scheduled;
      if e.c > 0 && order != [] && order[0] in windows {
        if dragX != cursorX || dragY != cursorY {
          var id := order[0];
          ScheduleId(id);
          var window := windows[id];
          window := window.(x := window.x + (cursorX - dragX), y := window.y + (cursorY - dragY));
          windows := windows[id := window];
          dragX := cursorX;
          dragY := cursorY;
          ScheduleId(id);
        }
      } else {
        dragging := false;
      }
    }

    method Click(e: Event)
      modifies this
      ensures State() == ClickOn(old(State()), e)
    {
      hide Scheduled, Desk.Raise, Rect.Contains, Window.ExitContains, Window.TitleRect, Without;
      var focus := 0;
      var i := 0;
      ghost var k := FirstHit(State().scene, 0, e.a, e.b);
      while i < |order|
        invariant 0 <= i <= |order| && focus == 0 && State() == old(State())
        invariant FirstHit(State().scene, i, e.a, e.b) == k
      {
        var id := order[i];
        if id in windows {
          var window := windows[id];
          if window.GetRect().Contains(e.a, e.b) {
            if e.c > 0 {
              focus := i;
            }
            break;
          } else if window.TitleRect().Contains(e.a, e.b) {
            if e.c > 0 {
              focus := i;
              if !window.ExitContains(e.a, e.b) {
                dragging := true;
                dragX := cursorX;
                dragY := cursorY;
              }
            }
            break;
          }
        }
        i := i + 1;
      }
      if focus > 0 {
        Raise(focus);
      }
    }

    method Raise(focus: nat)
      requires focus < |order|
      modifies this`redraws, this`order
      ensures State() == old(State()).Raise(focus)
    {
      hide Scheduled;
      ScheduleId(order[0]);
      var id := order[focus];
      order := order[..focus] + order[focus + 1..];
      ScheduleId(id);
      order := [id] + order;
    }

    /** The next position for a window that names none. */
    method Place() returns (x: int, y: int)
      modifies this`nextX, this`nextY
      ensures x == old(nextX) && y == old(nextY)
      ensures nextX == if x + 40 >= width then 20 else x + 20
      ensures nextY == if y + 40 >= height then 20 else y + 20
    {
      x, y := nextX, nextY;
      nextX := nextX + 20;
      if nextX + 20 >= width {
        nextX := 20;
      }
      nextY := nextY + 20;
      if nextY + 20 >= height {
        nextY := 20;
      }
    }

    method Open(x: int, y: int, w: nat, h: nat, title: seq<nat>) returns (id: Id)
      requires Valid()
      modifies this
      ensures Valid() && id == old(nextId)
      ensures State() == old(State()).OpenWindow(x, y, Blank(w, h), title)
      ensures Synced(old(State()), old(image[..])) ==> Synced(State(), image[..])
    {
      hide Scheduled, Compose, Pending, Synced, Blank, Window.TitleRect, Window.GetRect;
      var blank := Blank(w, h);
      KeepsSynced(State(), Op.Open(x, y, blank, title), image[..]);
      id := nextId;
      nextId := nextId + 1;
      var wx, wy := x, y;
      if x < 0 && y < 0 {
        wx, wy := Place();
      }
      PutOnTop(id, Window(wx, wy, blank, title));
    }

    method PutOnTop(id: Id, window: Window)
      modifies this`redraws, this`order, this`windows
      ensures var d := old(State()).ScheduleFront().ScheduleWindow(window);
              State() == d.(scene := old(State()).scene.(order := [id] + old(order),
                                                         windows := old(windows)[id := window]))
    {
      hide Scheduled, Window.TitleRect, Window.GetRect;
      if order != [] {
        ScheduleId(order[0]);
      }
      Schedule(window.TitleRect());
      Schedule(window.GetRect());
      order := [id] + order;
      windows := windows[id := window];
    }

    method Write(id: Id, data: seq<Color>) returns (count: Option<nat>)
      requires Valid()
      modifies this
      ensures Valid() && State() == old(State()).WriteWindow(id, data)
      ensures count == if id in old(windows) then Some(Min(|old(windows)[id].image.data|, |data|)) else None
      ensures Synced(old(State()), old(image[..])) ==> Synced(State(), image[..])
    {
      hide Scheduled, Compose, Pending, Synced;
      KeepsSynced(State(), Op.Write(id, data), image[..]);
      if id in windows {
        var window := windows[id];
        Schedule(window.GetRect());
        var len := Min(|window.image.data|, |data|);
        var pixels := data[..len] + window.image.data[len..];
        windows := windows[id := window.(image := window.image.(data := pixels))];
        count := Some(len);
      } else {
        count := None;
      }
    }

    method Close(id: Id) returns (ok: bool)
      requires Valid()
      modifies this
      ensures Valid() && State() == old(State()).CloseWindow(id)
      ensures ok <==> id in old(windows)
      ensures Synced(old(State()), old(image[..])) ==> Synced(State(), image[..])
    {
      hide Scheduled, Compose, Pending, Synced, Without;
      KeepsSynced(State(), Op.Close(id), image[..]);
      order := Except(order, id);
      if order != [] {
        ScheduleId(order[0]);
      }
      ok := id in windows;
      if ok {
        var window := windows[id];
        windows := windows - {id};
        Schedule(window.TitleRect());
        Schedule(window.GetRect());
      }
    }

    // ---------------------------------------------------------------- repainting

    /** Paint the whole scene inside one rectangle of the screen. */
    method PaintRect(rect: Rect)
      requires Valid() && rect.Inside(width, height)
      modifies image
      ensures forall i :: 0 <= i < image.Length ==>
                image[i] == if rect.Covers(X(i, width), Y(i, width)) then Wanted(State(), i) else old(image[i])
    {
      hide X, Y, StackFrom, Wanted, CursorOver, TitleOver, BodyOver, Blend, Picture.At;
      ghost var s := State().scene;
      StackFromEnds(State());
      Blit(image, width, height, rect, background, rect.x, rect.y);
      var i := |order|;
      while i > 0
        invariant 0 <= i <= |order|
        invariant forall p :: 0 <= p < image.Length ==>
                    image[p] == if rect.Covers(X(p, width), Y(p, width))
                                then StackFrom(s, i, p) else old(image[p])
      {
        i := i - 1;
        StackFromStep(s, i);
        if order[i] in windows {
          var window := windows[order[i]];
          DrawTitle(image, width, height, font, window, rect, i == 0);
          DrawBody(image, width, height, window, rect);
        }
      }
      PaintCursor(rect);
    }

    method PaintCursor(rect: Rect)
      requires Valid() && rect.Inside(width, height)
      modifies image
      ensures forall i :: 0 <= i < image.Length ==>
                image[i] == if rect.Covers(X(i, width), Y(i, width))
                            then CursorOver(State().scene, X(i, width), Y(i, width), old(image[i])) else old(image[i])
    {
      hide X, Y, Blend, Picture.At;
      var cursorRect := CursorRect();
      var intersect := rect.Intersection(cursorRect);
      if !intersect.IsEmpty() {
        var o := intersect.Offset(-cursorRect.Left(), -cursorRect.Top());
        BlendRoi(image, width, height, intersect, cursor, o.x, o.y);
      }
    }

    /** Repaint every pending rectangle, then send its rows to the display. */
    method Redraw(display: array<Color>)
      requires Valid() && display.Length == image.Length && display != image
      modifies this`redraws, image, display
      ensures Valid() && State() == Apply(old(State()), Op.Redraw)
      ensures Painted(old(State()), Op.Redraw, old(image[..]), image[..])
      ensures forall i :: 0 <= i < display.Length ==>
                display[i] == if Pending(old(redraws), X(i, width), Y(i, width)) then image[i] else old(display[i])
      ensures Synced(old(State()), old(image[..])) ==>
                forall i :: 0 <= i < image.Length ==> image[i] == Wanted(State(), i)
      ensures Synced(old(State()), old(display[..])) ==>
                forall i :: 0 <= i < image.Length ==> display[i] == Wanted(State(), i)
    {
      hide X, Y, Compose, Rect.Intersection;
      var rects := redraws;
      redraws := [];
      rects := PaintAll(rects);
      SendAll(rects, display, old(redraws));
    }

    /** Clip every rectangle to the screen and paint it. */
    method PaintAll(pending: seq<Rect>) returns (rects: seq<Rect>)
      requires Valid()
      modifies image
      ensures |rects| == |pending|
      ensures forall k :: 0 <= k < |rects| ==> rects[k] == pending[k].Intersection(Rect(0, 0, width, height))
      ensures forall i :: 0 <= i < image.Length ==>
                image[i] == if Pending(pending, X(i, width), Y(i, width)) then Wanted(State(), i) else old(image[i])
    {
      hide X, Y, Wanted, Desk.Valid, Pending, Rect.Intersection;
      rects := pending;
      var k := 0;
      PendingNone([]);
      while k < |rects|
        invariant 0 <= k <= |rects| == |pending|
        invariant forall j :: 0 <= j < k ==> rects[j] == pending[j].Intersection(Rect(0, 0, width, height))
        invariant forall j :: k <= j < |rects| ==> rects[j] == pending[j]
        invariant forall i :: 0 <= i < image.Length ==>
                    image[i] == if Pending(pending[..k], X(i, width), Y(i, width))
                                then Wanted(State(), i) else old(image[i])
      {
        var rect := rects[k].Intersection(Rect(0, 0, width, height));
        rects := rects[k := rect];
        if !rect.IsEmpty() {
          PaintRect(rect);
        }
        OneMorePending(pending, k, width, height);
        k := k + 1;
      }
      assert pending[..k] == pending;
    }

    method SendAll(rects: seq<Rect>, display: array<Color>, ghost pending: seq<Rect>)
      requires Valid() && display.Length == image.Length && display != image && |rects| == |pending|
      requires forall k :: 0 <= k < |rects| ==> rects[k] == pending[k].Intersection(Rect(0, 0, width, height))
      modifies display
      ensures forall i :: 0 <= i < display.Length ==>
                display[i] == if Pending(pending, X(i, width), Y(i, width)) then image[i] else old(display[i])
    {
      hide X, Y, Desk.Valid, Pending, Rect.Intersection, Picture.At;
      var k := 0;
      PendingNone([]);
      while k < |rects|
        invariant 0 <= k <= |rects|
        invariant forall i :: 0 <= i < display.Length ==>
                    display[i] == if Pending(pending[..k], X(i, width), Y(i, width)) then image[i] else old(display[i])
      {
        var rect := rects[k];
        if !rect.IsEmpty() {
          var frame := Picture(width, height, image[..]);
          Blit(display, width, height, rect, frame, rect.x, rect.y);
          FrameIs(frame);
        }
        OneMorePending(pending, k, width, height);
        k := k + 1;
      }
      assert pending[..k] == pending;
    }
  }

  lemma FrameIs(frame: Picture)
    requires frame.Valid()
    ensures forall i :: 0 <= i < |frame.data| ==>
              && X(i, frame.w) < frame.w && Y(i, frame.w) < frame.h
              && frame.At(X(i, frame.w), Y(i, frame.w)) == frame.data[i]
  {
    hide X, Y;
    forall i | 0 <= i < |frame.data|
      ensures X(i, frame.w) < frame.w && Y(i, frame.w) < frame.h
              && frame.At(X(i, frame.w), Y(i, frame.w)) == frame.data[i]
    {
      InBounds(i, frame.w, frame.h);
    }
  }

  lemma PendingNone(none: seq<Rect>)
    requires none == []
    ensures forall x, y :: !Pending(none, x, y)
  {
  }

  /** A pixel of the screen is covered by one rectangle more exactly when the clipped one covers it. */
  lemma OneMorePending(pending: seq<Rect>, k: nat, w: nat, h: nat)
    requires k < |pending|
    ensures var rect := pending[k].Intersection(Rect(0, 0, w, h));
            forall i :: 0 <= i < w * h ==>
              (Pending(pending[..k + 1], X(i, w), Y(i, w))
               <==> Pending(pending[..k], X(i, w), Y(i, w)) || rect.Covers(X(i, w), Y(i, w)))
  {
    hide X, Y;
    var rect := pending[k].Intersection(Rect(0, 0, w, h));
    forall i | 0 <= i < w * h
      ensures Pending(pending[..k + 1], X(i, w), Y(i, w))
              <==> Pending(pending[..k], X(i, w), Y(i, w)) || rect.Covers(X(i, w), Y(i, w))
    {
      InBounds(i, w, h);
    }
  }
}
