/** The damage-tracking compositor (crates/orbital/main.rs, window.rs).

    `Compose` is the picture the user should see: the whole scene painted back to front.  The
    compositor never paints it.  It collects rectangles that may have changed and repaints
    those.  `Synced` says that what is on the screen equals `Compose` at every pixel no pending
    rectangle covers; every operation keeps it, and `Redraw` leaves no pixel out. */
module Compositor {
  import opened Common
  import opened Images

  type Id = nat

  const TITLE_HEIGHT := 18
  const FOCUSED := Rgb(192, 192, 192)
  const UNFOCUSED := Rgb(64, 64, 64)
  const TITLE_TEXT := Rgb(255, 255, 255)

  datatype Window = Window(x: int, y: int, image: Picture, title: seq<nat>)
  {
    function GetRect(): Rect { Rect(x, y, image.w, image.h) }

    function TitleRect(): Rect {
      if title == [] then Rect(0, 0, 0, 0) else Rect(x, y - TITLE_HEIGHT, image.w, TITLE_HEIGHT)
    }

    /** The column at which title text stops and the close button begins. */
    function TextEnd(): int { Max(x + 2, x + image.w - 10) }

    predicate ExitContains(px: int, py: int) {
      && title != [] && Max(x, x + image.w - 10) <= px && y - TITLE_HEIGHT <= py
      && px < x + image.w && py < y
    }

    predicate Touches(px: int, py: int) {
      GetRect().Covers(px, py) || TitleRect().Covers(px, py)
    }
  }

  // ---------------------------------------------------------------- what a pixel should show

  datatype Scene = Scene(background: Picture, cursor: Picture, font: Font,
                         cursorX: int, cursorY: int, order: seq<Id>, windows: map<Id, Window>)
  {
    predicate Valid() {
      background.Valid() && cursor.Valid() && forall id :: id in windows ==> windows[id].image.Valid()
    }

    function CursorRect(): Rect { Rect(cursorX, cursorY, cursor.w, cursor.h) }
  }

  function GlyphRect(win: Window, col: int): Rect {
    Rect(col, win.TitleRect().Top() + 1, GLYPH_W, GLYPH_H)
  }

  /** One character painted at column `col` of the title bar. */
  function GlyphOver(font: Font, win: Window, ch: nat, col: int, x: int, y: int, under: Color): Color {
    var r := GlyphRect(win, col);
    if r.Covers(x, y) then Blend(under, font.Render(ch, TITLE_TEXT).At(x - r.x, y - r.y)) else under
  }

  /** The first `n` characters of the title, those that fit before the close button. */
  function TextOver(font: Font, win: Window, n: nat, x: int, y: int, under: Color): Color
    requires n <= |win.title|
  {
    if n == 0 then under
    else
      var before := TextOver(font, win, n - 1, x, y, under);
      var col := win.x + 2 + 8 * (n - 1);
      if col < win.TextEnd() then GlyphOver(font, win, win.title[n - 1], col, x, y, before) else before
  }

  const CLOSE_CHAR: nat := 88

  function CloseOver(font: Font, win: Window, x: int, y: int, under: Color): Color {
    if win.TextEnd() + 10 <= win.x + win.image.w
    then GlyphOver(font, win, CLOSE_CHAR, win.TextEnd(), x, y, under) else under
  }

  /** The title bar at a pixel it covers. */
  function TitlePixel(font: Font, win: Window, focused: bool, x: int, y: int, under: Color): Color {
    var bar := Blend(under, if focused then FOCUSED else UNFOCUSED);
    CloseOver(font, win, x, y, TextOver(font, win, |win.title|, x, y, bar))
  }

  function TitleOver(font: Font, win: Window, focused: bool, x: int, y: int, under: Color): Color {
    if win.TitleRect().Covers(x, y) then TitlePixel(font, win, focused, x, y, under) else under
  }

  function BodyOver(win: Window, x: int, y: int, under: Color): Color
    requires win.image.Valid()
  {
    if win.GetRect().Covers(x, y) then win.image.At(x - win.x, y - win.y) else under
  }

  function WindowOver(s: Scene, id: Id, focused: bool, x: int, y: int, under: Color): Color
    requires s.Valid()
  {
    if id in s.windows
    then BodyOver(s.windows[id], x, y, TitleOver(s.font, s.windows[id], focused, x, y, under))
    else under
  }

  /** The windows of `order`, the first one on top; only a first window may be focused. */
  function Stack(s: Scene, order: seq<Id>, focused: bool, x: int, y: int, base: Color): Color
    requires s.Valid()
  {
    if order == [] then base
    else WindowOver(s, order[0], focused, x, y, Stack(s, order[1..], false, x, y, base))
  }

  function CursorOver(s: Scene, x: int, y: int, under: Color): Color
    requires s.Valid()
  {
    if s.CursorRect().Covers(x, y) then Blend(under, s.cursor.At(x - s.cursorX, y - s.cursorY)) else under
  }

  /** The full painter's-order composition at one pixel of the background. */
  function Compose(s: Scene, x: nat, y: nat): Color
    requires s.Valid() && x < s.background.w && y < s.background.h
  {
    CursorOver(s, x, y, Stack(s, s.order, true, x, y, s.background.At(x, y)))
  }

  // ---------------------------------------------------------------- pending rectangles

  predicate Pending(redraws: seq<Rect>, x: int, y: int) {
    exists k :: 0 <= k < |redraws| && redraws[k].Covers(x, y)
  }

  /** The list after a request: grown into the first rectangle it does not waste area with. */
  function Scheduled(redraws: seq<Rect>, request: Rect): seq<Rect> {
    if redraws == [] then [request]
    else if redraws[0].Container(request).Area() <= redraws[0].Area() + request.Area()
    then [redraws[0].Container(request)] + redraws[1..]
    else [redraws[0]] + Scheduled(redraws[1..], request)
  }

  /** Scheduling keeps everything pending and adds the request. */
  lemma {:induction false} ScheduledCovers(redraws: seq<Rect>, request: Rect, x: int, y: int)
    requires Pending(redraws, x, y) || request.Covers(x, y)
    ensures Pending(Scheduled(redraws, request), x, y)
  {
    var out := Scheduled(redraws, request);
    if redraws != [] && (Pending(redraws[1..], x, y) || request.Covers(x, y))
       && redraws[0].Container(request).Area() > redraws[0].Area() + request.Area() {
      ScheduledCovers(redraws[1..], request, x, y);
      var k :| 0 <= k < |out[1..]| && out[1..][k].Covers(x, y);
      assert out[k + 1].Covers(x, y);
    } else if redraws == [] || redraws[0].Covers(x, y) || request.Covers(x, y) {
      assert out[0].Covers(x, y);
    } else {
      var k :| 0 <= k < |redraws| && redraws[k].Covers(x, y);
      assert redraws[1..][k - 1] == redraws[k];
      if redraws[0].Container(request).Area() <= redraws[0].Area() + request.Area() {
        assert out[k] == redraws[k];
      }
    }
  }

  // ---------------------------------------------------------------- where a change can be seen

  predicate Untouched(s: Scene, id: Id, x: int, y: int) {
    id in s.windows ==> !s.windows[id].Touches(x, y)
  }

  lemma WindowElsewhere(s: Scene, id: Id, focused: bool, x: int, y: int, under: Color)
    requires s.Valid() && Untouched(s, id, x, y)
    ensures WindowOver(s, id, focused, x, y, under) == under
  {
    hide TitlePixel;
  }

  /** Every window paints this pixel the same way in both scenes. */
  ghost predicate SamePaint(s: Scene, t: Scene, x: int, y: int)
    requires s.Valid() && t.Valid()
  {
    forall id, f, c :: WindowOver(s, id, f, x, y, c) == WindowOver(t, id, f, x, y, c)
  }

  lemma {:induction false} StackSame(s: Scene, t: Scene, order: seq<Id>, focused: bool, x: int, y: int, base: Color)
    requires s.Valid() && t.Valid() && SamePaint(s, t, x, y)
    ensures Stack(s, order, focused, x, y, base) == Stack(t, order, focused, x, y, base)
  {
    hide WindowOver;
    if order != [] {
      StackSame(s, t, order[1..], false, x, y, base);
    }
  }

  /** Replacing, adding or removing a window is invisible where neither version of it is. */
  lemma SamePaintElsewhere(s: Scene, t: Scene, id: Id, x: int, y: int)
    requires s.Valid() && t.Valid() && s.font == t.font && s.windows - {id} == t.windows - {id}
    requires Untouched(s, id, x, y) && Untouched(t, id, x, y)
    ensures SamePaint(s, t, x, y)
  {
    hide TitleOver, BodyOver;
    forall k, f, c
      ensures WindowOver(s, k, f, x, y, c) == WindowOver(t, k, f, x, y, c)
    {
      if k == id {
        WindowElsewhere(s, k, f, x, y, c);
        WindowElsewhere(t, k, f, x, y, c);
      } else {
        assert k in s.windows <==> k in s.windows - {id};
        assert k in t.windows <==> k in t.windows - {id};
        assert k in s.windows ==> s.windows[k] == (s.windows - {id})[k];
        assert k in t.windows ==> t.windows[k] == (t.windows - {id})[k];
      }
    }
  }

  /** Whether the first window is drawn focused shows in its title bar only. */
  lemma FocusShowsInTitle(s: Scene, order: seq<Id>, x: int, y: int, base: Color)
    requires s.Valid() && (order == [] || Untouched(s, order[0], x, y))
    ensures Stack(s, order, true, x, y, base) == Stack(s, order, false, x, y, base)
  {
    hide TitlePixel;
  }

  lemma {:induction false} StackWithout(s: Scene, order: seq<Id>, k: nat, x: int, y: int, base: Color)
    requires s.Valid() && k < |order| && Untouched(s, order[k], x, y)
    ensures Stack(s, order, false, x, y, base) == Stack(s, Without(order, k), false, x, y, base)
  {
    hide WindowOver;
    if k == 0 {
      assert Without(order, 0) == order[1..];
      WindowElsewhere(s, order[0], false, x, y, Stack(s, order[1..], false, x, y, base));
    } else {
      StackWithout(s, order[1..], k - 1, x, y, base);
      assert Without(order, k)[1..] == Without(order[1..], k - 1);
    }
  }

  function Except(order: seq<Id>, id: Id): seq<Id> {
    if order == [] then [] else (if order[0] != id then [order[0]] else []) + Except(order[1..], id)
  }

  lemma {:induction false} StackExcept(s: Scene, order: seq<Id>, id: Id, x: int, y: int, base: Color)
    requires s.Valid() && Untouched(s, id, x, y)
    ensures Stack(s, order, false, x, y, base) == Stack(s, Except(order, id), false, x, y, base)
  {
    hide WindowOver;
    if order != [] {
      StackExcept(s, order[1..], id, x, y, base);
      if order[0] == id {
        WindowElsewhere(s, id, false, x, y, Stack(s, order[1..], false, x, y, base));
        assert Except(order, id) == Except(order[1..], id);
      } else {
        assert Except(order, id)[1..] == Except(order[1..], id);
      }
    }
  }

  // ---------------------------------------------------------------- the state and its steps

  datatype Desk = Desk(scene: Scene, redraws: seq<Rect>, dragging: bool, dragX: int, dragY: int,
                       nextId: Id, nextX: int, nextY: int)
  {
    predicate Valid() {
      scene.Valid() && forall id :: id in scene.windows ==> id < nextId
    }

    function Size(): (nat, nat) { (scene.background.w, scene.background.h) }

    function Schedule(r: Rect): Desk { this.(redraws := Scheduled(redraws, r)) }

    function ScheduleWindow(win: Window): Desk { Schedule(win.TitleRect()).Schedule(win.GetRect()) }

    /** Schedule both rectangles of a window, if there is such a window. */
    function ScheduleId(id: Id): Desk {
      if id in scene.windows then ScheduleWindow(scene.windows[id]) else this
    }

    function ScheduleFront(): Desk {
      if scene.order == [] then this else ScheduleId(scene.order[0])
    }

    function MoveCursor(x: int, y: int): Desk {
      var moved := scene.(cursorX := x, cursorY := y);
      Schedule(scene.CursorRect()).(scene := moved).Schedule(moved.CursorRect())
    }

    function MoveWindow(id: Id, dx: int, dy: int): Desk
      requires id in scene.windows
    {
      var win := scene.windows[id];
      var moved := win.(x := win.x + dx, y := win.y + dy);
      ScheduleWindow(win).(scene := scene.(windows := scene.windows[id := moved])).ScheduleWindow(moved)
    }

    function Raise(k: nat): Desk
      requires k < |scene.order|
    {
      var id := scene.order[k];
      var d := ScheduleFront().ScheduleId(id);
      d.(scene := scene.(order := [id] + Without(scene.order, k)))
    }

    /** A new window goes on top; one with two negative coordinates is placed by the compositor. */
    function OpenWindow(x: int, y: int, image: Picture, title: seq<nat>): Desk {
      var auto := x < 0 && y < 0;
      var win := Window(if auto then nextX else x, if auto then nextY else y, image, title);
      var d := ScheduleFront().ScheduleWindow(win);
      d.(scene := scene.(order := [nextId] + scene.order, windows := scene.windows[nextId := win]),
         nextId := nextId + 1,
         nextX := if !auto then nextX else if nextX + 40 >= scene.background.w then 20 else nextX + 20,
         nextY := if !auto then nextY else if nextY + 40 >= scene.background.h then 20 else nextY + 20)
    }

    /** New pixel data for a window, as much as fits. */
    function WriteWindow(id: Id, data: seq<Color>): Desk {
      if id !in scene.windows then this
      else
        var win := scene.windows[id];
        var n := Min(|win.image.data|, |data|);
        var image := win.image.(data := data[..n] + win.image.data[n..]);
        Schedule(win.GetRect()).(scene := scene.(windows := scene.windows[id := win.(image := image)]))
    }

    function CloseWindow(id: Id): Desk {
      var d := this.(scene := scene.(order := Except(scene.order, id))).ScheduleFront();
      if id !in scene.windows then d
      else d.ScheduleWindow(scene.windows[id]).(scene := d.scene.(windows := scene.windows - {id}))
    }
  }

  /** From `d` to `e` every pixel whose colour may have changed became pending, and none was dropped. */
  ghost predicate Tracks(d: Desk, e: Desk) {
    && d.Valid() && e.Valid() && d.Size() == e.Size()
    && forall x: nat, y: nat {:trigger Pending(e.redraws, x, y)} ::
         x < d.Size().0 && y < d.Size().1 && !Pending(e.redraws, x, y) ==>
           !Pending(d.redraws, x, y) && Compose(d.scene, x, y) == Compose(e.scene, x, y)
  }

  lemma ScheduleWindowCovers(d: Desk, win: Window, x: int, y: int)
    requires Pending(d.redraws, x, y) || win.Touches(x, y)
    ensures Pending(d.ScheduleWindow(win).redraws, x, y)
  {
    hide Scheduled, Pending;
    if Pending(d.redraws, x, y) || win.TitleRect().Covers(x, y) {
      ScheduledCovers(d.redraws, win.TitleRect(), x, y);
    }
    ScheduledCovers(d.Schedule(win.TitleRect()).redraws, win.GetRect(), x, y);
  }

  lemma ScheduleIdCovers(d: Desk, id: Id, x: int, y: int)
    requires Pending(d.redraws, x, y) || !Untouched(d.scene, id, x, y)
    ensures Pending(d.ScheduleId(id).redraws, x, y)
  {
    hide Scheduled, Pending;
    if id in d.scene.windows {
      ScheduleWindowCovers(d, d.scene.windows[id], x, y);
    }
  }

  lemma ScheduleFrontCovers(d: Desk, x: int, y: int)
    requires Pending(d.redraws, x, y) || (d.scene.order != [] && !Untouched(d.scene, d.scene.order[0], x, y))
    ensures Pending(d.ScheduleFront().redraws, x, y)
  {
    hide Scheduled, Pending;
    if d.scene.order != [] {
      ScheduleIdCovers(d, d.scene.order[0], x, y);
    }
  }

  lemma MoveCursorTracks(d: Desk, cx: int, cy: int)
    requires d.Valid()
    ensures Tracks(d, d.MoveCursor(cx, cy))
  {
    hide Stack, Scheduled, Pending, Blend;
    var e := d.MoveCursor(cx, cy);
    forall x: nat, y: nat | x < d.Size().0 && y < d.Size().1 && !Pending(e.redraws, x, y)
      ensures !Pending(d.redraws, x, y) && Compose(d.scene, x, y) == Compose(e.scene, x, y)
    {
      if Pending(d.redraws, x, y) || d.scene.CursorRect().Covers(x, y) {
        ScheduledCovers(d.redraws, d.scene.CursorRect(), x, y);
      }
      if Pending(d.Schedule(d.scene.CursorRect()).redraws, x, y) || e.scene.CursorRect().Covers(x, y) {
        ScheduledCovers(d.Schedule(d.scene.CursorRect()).redraws, e.scene.CursorRect(), x, y);
      }
      StackSame(d.scene, e.scene, d.scene.order, true, x, y, d.scene.background.At(x, y)) by {
        hide WindowOver;
      }
    }
  }

  /** Scenes that differ in one window, seen where neither version of it is. */
  lemma OtherWindowsShow(s: Scene, t: Scene, id: Id, x: nat, y: nat)
    requires s.Valid() && t.Valid() && x < s.background.w && y < s.background.h
    requires t == s.(windows := t.windows) && s.windows - {id} == t.windows - {id}
    requires Untouched(s, id, x, y) && Untouched(t, id, x, y)
    ensures Compose(s, x, y) == Compose(t, x, y)
  {
    hide Stack, WindowOver, Blend;
    SamePaintElsewhere(s, t, id, x, y);
    StackSame(s, t, s.order, true, x, y, s.background.At(x, y));
  }

  lemma MoveWindowTracks(d: Desk, id: Id, dx: int, dy: int)
    requires d.Valid() && id in d.scene.windows
    ensures Tracks(d, d.MoveWindow(id, dx, dy))
  {
    hide Stack, Scheduled, Pending, Blend, Compose, Desk.ScheduleWindow, Window.Touches;
    var win := d.scene.windows[id];
    var moved := win.(x := win.x + dx, y := win.y + dy);
    var t := d.scene.(windows := d.scene.windows[id := moved]);
    var mid := d.ScheduleWindow(win).(scene := t);
    WindowScheduleKeepsScene(d, win);
    WindowScheduleKeepsScene(mid, moved);
    var e := d.MoveWindow(id, dx, dy);
    assert d.scene.windows - {id} == e.scene.windows - {id};
    assert e.scene == t;
    forall x: nat, y: nat | x < d.Size().0 && y < d.Size().1 && !Pending(e.redraws, x, y)
      ensures !Pending(d.redraws, x, y) && Compose(d.scene, x, y) == Compose(e.scene, x, y)
    {
      if Pending(d.redraws, x, y) || win.Touches(x, y) {
        ScheduleWindowCovers(d, win, x, y);
      }
      if Pending(mid.redraws, x, y) || moved.Touches(x, y) {
        ScheduleWindowCovers(mid, moved, x, y);
      }
      OtherWindowsShow(d.scene, e.scene, id, x, y);
    }
  }

  lemma WindowScheduleKeepsScene(d: Desk, win: Window)
    ensures d.ScheduleWindow(win) == d.(redraws := d.ScheduleWindow(win).redraws)
  {
  }

  lemma WriteWindowTracks(d: Desk, id: Id, data: seq<Color>)
    requires d.Valid()
    ensures Tracks(d, d.WriteWindow(id, data))
  {
    hide Stack, Scheduled, Pending, Blend, TitlePixel;
    var e := d.WriteWindow(id, data);
    forall x: nat, y: nat | x < d.Size().0 && y < d.Size().1 && !Pending(e.redraws, x, y)
      ensures !Pending(d.redraws, x, y) && Compose(d.scene, x, y) == Compose(e.scene, x, y)
    {
      if id in d.scene.windows {
        var win := d.scene.windows[id];
        if Pending(d.redraws, x, y) || win.GetRect().Covers(x, y) {
          ScheduledCovers(d.redraws, win.GetRect(), x, y);
        }
        assert TitlesAlike(win, e.scene.windows[id]) by { TitleIgnoresData(win, e.scene.windows[id].image); }
        StackSame(d.scene, e.scene, d.scene.order, true, x, y, d.scene.background.At(x, y));
      }
    }
  }

  /** The title bar does not depend on the window's pixels. */
  ghost predicate TitlesAlike(win: Window, other: Window) {
    forall font, f, x, y, c :: TitleOver(font, win, f, x, y, c) == TitleOver(font, other, f, x, y, c)
  }

  lemma TitleIgnoresData(win: Window, image: Picture)
    requires image.w == win.image.w && image.h == win.image.h
    ensures TitlesAlike(win, win.(image := image))
  {
    hide TitlePixel;
    forall font, f, x, y, c
      ensures TitleOver(font, win, f, x, y, c) == TitleOver(font, win.(image := image), f, x, y, c)
    {
      TitlePixelIgnoresData(font, win, image, f, x, y, c);
    }
  }

  lemma TitlePixelIgnoresData(font: Font, win: Window, image: Picture, f: bool, x: int, y: int, c: Color)
    requires image.w == win.image.w && image.h == win.image.h
    ensures TitlePixel(font, win, f, x, y, c) == TitlePixel(font, win.(image := image), f, x, y, c)
  {
    hide Blend, Rgb, TextOver, Font.Render;
    var bar := Blend(c, if f then FOCUSED else UNFOCUSED);
    TextIgnoresData(font, win, image, |win.title|, x, y, bar);
  }

  lemma {:induction false} TextIgnoresData(font: Font, win: Window, image: Picture, n: nat, x: int, y: int, c: Color)
    requires image.w == win.image.w && image.h == win.image.h && n <= |win.title|
    ensures TextOver(font, win, n, x, y, c) == TextOver(font, win.(image := image), n, x, y, c)
  {
    hide GlyphOver;
    if n > 0 {
      var col := win.x + 2 + 8 * (n - 1);
      GlyphIgnoresData(font, win, image, win.title[n - 1], col, x, y, TextOver(font, win, n - 1, x, y, c));
      TextIgnoresData(font, win, image, n - 1, x, y, c);
    }
  }

  lemma GlyphIgnoresData(font: Font, win: Window, image: Picture, ch: nat, col: int, x: int, y: int, under: Color)
    ensures GlyphOver(font, win, ch, col, x, y, under) == GlyphOver(font, win.(image := image), ch, col, x, y, under)
  {
    hide Blend, Font.Render, Rgb;
  }

  lemma RaiseTracks(d: Desk, k: nat)
    requires d.Valid() && k < |d.scene.order|
    ensures Tracks(d, d.Raise(k))
  {
    hide Scheduled, Pending, Stack, WindowOver, Blend, Window.Touches, Desk.ScheduleWindow;
    var s, e := d.scene, d.Raise(k);
    var id := s.order[k];
    KeepsScene(d);
    KeepsSceneId(d.ScheduleFront(), id);
    forall x: nat, y: nat | x < d.Size().0 && y < d.Size().1 && !Pending(e.redraws, x, y)
      ensures !Pending(d.redraws, x, y) && Compose(s, x, y) == Compose(e.scene, x, y)
    {
      if Pending(d.redraws, x, y) || !Untouched(s, s.order[0], x, y) {
        ScheduleFrontCovers(d, x, y);
      }
      if Pending(d.ScheduleFront().redraws, x, y) || !Untouched(s, id, x, y) {
        ScheduleIdCovers(d.ScheduleFront(), id, x, y);
      }
      RaisedStack(s, k, x, y, s.background.At(x, y));
      SamePaintReordered(s, e.scene, x, y);
      StackSame(s, e.scene, e.scene.order, true, x, y, s.background.At(x, y));
    }
  }

  lemma KeepsSceneId(d: Desk, id: Id)
    ensures d.ScheduleId(id) == d.(redraws := d.ScheduleId(id).redraws)
  {
  }

  lemma KeepsScene(d: Desk)
    ensures d.ScheduleFront() == d.(redraws := d.ScheduleFront().redraws)
  {
  }

  lemma SamePaintReordered(s: Scene, t: Scene, x: int, y: int)
    requires s.Valid() && t.Valid() && s.font == t.font && s.windows == t.windows
    ensures SamePaint(s, t, x, y)
  {
    hide TitleOver, BodyOver;
  }

  /** Pulling a window to the front shows only in its own rectangles and the old front's title. */
  lemma RaisedStack(s: Scene, k: nat, x: int, y: int, base: Color)
    requires s.Valid() && k < |s.order|
    requires Untouched(s, s.order[0], x, y) && Untouched(s, s.order[k], x, y)
    ensures Stack(s, s.order, true, x, y, base) == Stack(s, [s.order[k]] + Without(s.order, k), true, x, y, base)
  {
    hide WindowOver;
    var rest := Without(s.order, k);
    FocusShowsInTitle(s, s.order, x, y, base);
    StackWithout(s, s.order, k, x, y, base);
    assert ([s.order[k]] + rest)[1..] == rest;
    WindowElsewhere(s, s.order[k], true, x, y, Stack(s, rest, false, x, y, base));
  }

  lemma OpenWindowTracks(d: Desk, wx: int, wy: int, image: Picture, title: seq<nat>)
    requires d.Valid() && image.Valid()
    ensures Tracks(d, d.OpenWindow(wx, wy, image, title))
  {
    hide Scheduled, Pending, Stack, WindowOver, Blend, Window.Touches, Desk.ScheduleWindow;
    var s, e := d.scene, d.OpenWindow(wx, wy, image, title);
    var id := d.nextId;
    var win := e.scene.windows[id];
    KeepsScene(d);
    WindowScheduleKeepsScene(d.ScheduleFront(), win);
    assert s.windows - {id} == e.scene.windows - {id};
    forall x: nat, y: nat | x < d.Size().0 && y < d.Size().1 && !Pending(e.redraws, x, y)
      ensures !Pending(d.redraws, x, y) && Compose(s, x, y) == Compose(e.scene, x, y)
    {
      if Pending(d.redraws, x, y) || (s.order != [] && !Untouched(s, s.order[0], x, y)) {
        ScheduleFrontCovers(d, x, y);
      }
      if Pending(d.ScheduleFront().redraws, x, y) || win.Touches(x, y) {
        ScheduleWindowCovers(d.ScheduleFront(), win, x, y);
      }
      SamePaintElsewhere(s, e.scene, id, x, y);
      CoveredStack(s, e.scene, id, x, y, s.background.At(x, y));
    }
  }

  lemma CoveredStack(s: Scene, t: Scene, id: Id, x: int, y: int, base: Color)
    requires s.Valid() && t.Valid() && SamePaint(s, t, x, y)
    requires t.order == [id] + s.order && Untouched(t, id, x, y)
    requires s.order == [] || Untouched(s, s.order[0], x, y)
    ensures Stack(s, s.order, true, x, y, base) == Stack(t, t.order, true, x, y, base)
  {
    hide WindowOver;
    FocusShowsInTitle(s, s.order, x, y, base);
    StackSame(s, t, s.order, false, x, y, base);
    assert t.order[1..] == s.order;
    WindowElsewhere(t, id, true, x, y, Stack(t, s.order, false, x, y, base));
  }

  lemma CloseWindowTracks(d: Desk, id: Id)
    requires d.Valid()
    ensures Tracks(d, d.CloseWindow(id))
  {
    hide Scheduled, Pending, Stack, WindowOver, Blend, Window.Touches, Desk.ScheduleWindow;
    var s, e := d.scene, d.CloseWindow(id);
    var without := d.(scene := s.(order := Except(s.order, id)));
    KeepsScene(without);
    var f := without.ScheduleFront();
    if id in s.windows {
      WindowScheduleKeepsScene(f, s.windows[id]);
    }
    assert s.windows - {id} == e.scene.windows - {id};
    forall x: nat, y: nat | x < d.Size().0 && y < d.Size().1 && !Pending(e.redraws, x, y)
      ensures !Pending(d.redraws, x, y) && Compose(s, x, y) == Compose(e.scene, x, y)
    {
      var front := without.scene.order;
      if Pending(d.redraws, x, y) || (front != [] && !Untouched(without.scene, front[0], x, y)) {
        ScheduleFrontCovers(without, x, y);
      }
      if id in s.windows && (Pending(f.redraws, x, y) || s.windows[id].Touches(x, y)) {
        ScheduleWindowCovers(f, s.windows[id], x, y);
      }
      SamePaintElsewhere(s, e.scene, id, x, y);
      UncoveredStack(s, id, x, y, s.background.At(x, y));
      StackSame(s, e.scene, front, true, x, y, s.background.At(x, y));
    }
  }

  lemma UncoveredStack(s: Scene, id: Id, x: int, y: int, base: Color)
    requires s.Valid() && Untouched(s, id, x, y)
    requires var rest := Except(s.order, id); rest == [] || Untouched(s, rest[0], x, y)
    ensures Stack(s, s.order, true, x, y, base) == Stack(s, Except(s.order, id), true, x, y, base)
  {
    hide WindowOver, Stack;
    FocusShowsInTitle(s, s.order, x, y, base);
    FocusShowsInTitle(s, Except(s.order, id), x, y, base);
    StackExcept(s, s.order, id, x, y, base);
  }
}
