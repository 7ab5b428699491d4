/** The window manager's state apart from its pixels, and what each request, key and pointer
    event does to it.  The imperative WindowManager is proved against these functions; the
    invariant of the window table is proved about them. */
module Desk {
  import opened Geometry
  import opened Stacking

  /** A press-and-hold that moves something by an outline. */
  datatype Drag = Drag(active: bool, wid: int, start: Point, origin: Point, out: Point)

  const NO_DRAG := Drag(false, 0, Point(0, 0), Point(0, 0), Point(0, 0))

  /** What the pointer holds of a scrollbar: arrow and anchor are 0, 1 (up, top) or 2. */
  datatype BarGrab = BarGrab(dragging: bool, wid: int, grabOff: int, arrow: int, anchor: int)

  /** The desktop menu; `lit` are the items whose rows have been drawn as highlighted. */
  datatype Menu = Menu(active: bool, pinned: bool, x: int, y: int, highlighted: int, lit: set<int>)

  datatype Button = Left | Middle | Right | NoButton

  datatype Kind = Down | Up | Motion | Other

  datatype Event = Event(kind: Kind, x: int, y: int, button: Button, state: int)

  /** What the window manager sends out. */
  datatype Sent =
    | Pointer(to: int, kind: Kind, x: int, y: int, button: Button, state: int)
    | Scroll(to: int, offset: int)
    | Key(to: int, code: int, mods: int)
    | Spawn(item: int)
    | Shutdown

  datatype Hit = Miss | Elev | PageUp | PageDown | Top | Bottom | LineUp | LineDown

  const FREE := 0
  const CONSOLE := 1
  const ESCAPE := 0x11B

  /** Tables are indexed by window id - 1; a subscriber of 0 is a null reference. */
  datatype Desk = Desk(
    types: seq<int>,
    pos: seq<Point>,
    z: seq<int>,
    focused: int,
    kbd: seq<int>,
    ptr: seq<int>,
    elev: seq<int>,
    content: seq<int>,
    drag: Drag,
    bar: BarGrab,
    menu: Menu,
    menuDrag: Drag,
    sent: seq<Sent>)
  {
    ghost predicate Sized(g: Geo) {
      |types| == |pos| == |kbd| == |ptr| == |elev| == |content| == g.slots
    }

    predicate Live(w: int) { 1 <= w <= |types| && types[w - 1] != FREE }

    function MenuRect(g: Geo): Rect { Rect(menu.x, menu.y, g.menuW, g.MenuH()) }
  }

  predicate Fits(p: Point, w: int, h: int, g: Geo) {
    0 <= p.x <= g.fbW - w && 0 <= p.y <= g.fbH - h
  }

  /** The invariant of the window table. */
  ghost predicate TableOk(d: Desk, g: Geo) {
    && d.Sized(g)
    // The stack lists each live window exactly once.
    && Distinct(d.z) && (forall w :: w in d.z <==> d.Live(w))
    // The focused window is the top of the stack.
    && d.focused == (if d.z == [] then 0 else d.z[|d.z| - 1])
    // Every window lies fully on screen, and so do the outlines.
    && (forall i :: 0 <= i < g.slots ==> Fits(d.pos[i], g.UW(), g.UH(), g))
    && (d.drag.active ==> 1 <= d.drag.wid <= g.slots && Fits(d.drag.out, g.UW(), g.UH(), g))
    && Fits(Point(d.menu.x, d.menu.y), g.menuW, g.MenuH(), g)
    && (d.menuDrag.active ==> Fits(d.menuDrag.out, g.menuW, g.MenuH(), g))
    // Dead windows have no subscribers.
    && (forall i :: 0 <= i < g.slots && d.types[i] == FREE ==> d.kbd[i] == 0 && d.ptr[i] == 0)
    // Live windows have their elevator on its track.
    && (forall i :: 0 <= i < g.slots && d.types[i] != FREE ==> g.ElevMin() <= d.elev[i] <= g.ElevMax())
    && (d.bar.dragging || d.bar.arrow != 0 || d.bar.anchor != 0 ==> 1 <= d.bar.wid <= g.slots)
    && -1 <= d.menu.highlighted < g.items
  }

  function Clamp(n: int, lo: int, hi: int): int {
    if n < lo then lo else if n > hi then hi else n
  }

  // ---------- windows ----------

  function FreeSlot(types: seq<int>, from: nat): (w: int)
    requires from <= |types|
    ensures from < w <= |types| + 1
    ensures w <= |types| ==> types[w - 1] == FREE
    ensures forall i :: from <= i < w - 1 ==> types[i] != FREE
    decreases |types| - from
  {
    if from == |types| || types[from] == FREE then from + 1 else FreeSlot(types, from + 1)
  }

  /** Where the n-th window is put: cascading through whatever slack the screen has. */
  function CascadeAt(g: Geo, n: nat): (p: Point)
    requires g.Ok()
    ensures Fits(p, g.UW(), g.UH(), g)
  {
    var sx, sy := g.fbW - g.UW() - 2 * ORIGIN_X, g.fbH - g.UH() - 2 * ORIGIN_Y;
    Point(ORIGIN_X + (if sx > 0 then (n * CASCADE) % (sx + 1) else 0),
          ORIGIN_Y + (if sy > 0 then (n * CASCADE) % (sy + 1) else 0))
  }

  function Opened(d: Desk, g: Geo, w: int): (r: Desk)
    requires g.Ok() && d.Sized(g) && 1 <= w <= g.slots
    ensures r.Sized(g)
  {
    d.(types := d.types[w - 1 := CONSOLE],
       pos := d.pos[w - 1 := CascadeAt(g, |d.z|)],
       z := d.z + [w],
       focused := w,
       elev := d.elev[w - 1 := g.ElevMin()])
  }

  function Closed(d: Desk, g: Geo, w: int): (r: Desk)
    requires d.Sized(g) && 1 <= w <= g.slots
    ensures r.Sized(g)
  {
    var z := Without(d.z, w);
    d.(types := d.types[w - 1 := FREE],
       z := z,
       kbd := d.kbd[w - 1 := 0],
       ptr := d.ptr[w - 1 := 0],
       focused := if d.focused != w then d.focused else if z == [] then 0 else z[|z| - 1])
  }

  function Raised(d: Desk, w: int): Desk {
    if w in d.z then d.(z := Without(d.z, w) + [w], focused := w) else d
  }

  /** Close, in slot order from slot i on, every live window whose owner has exited. */
  function Reaped(d: Desk, g: Geo, exited: set<int>, i: nat): (r: Desk)
    requires d.Sized(g) && i <= g.slots
    ensures r.Sized(g)
    decreases g.slots - i
  {
    if i == g.slots then d
    else Reaped(if d.types[i] != FREE && i + 1 in exited then Closed(d, g, i + 1) else d, g, exited, i + 1)
  }

  // ---------- scrollbars ----------

  function BarHit(d: Desk, g: Geo, w: int, px: int, py: int): Hit
    requires d.Sized(g) && 1 <= w <= g.slots
  {
    var lx, ly, e := px - d.pos[w - 1].x, py - d.pos[w - 1].y, d.elev[w - 1];
    var r := g.BarRect();
    if lx < r.x || lx >= r.x + SCROLLBAR_W - 2 then Miss
    else if ly < r.y || ly >= r.y + r.h then Miss
    else if ly < r.y + ANCHOR_H then Top
    else if ly >= r.y + r.h - ANCHOR_H then Bottom
    else if e <= ly < e + ELEV_H then
      if ly < e + ELEV_THIRD then LineUp
      else if ly < e + 2 * ELEV_THIRD then Elev
      else LineDown
    else if ly < e then PageUp else PageDown
  }

  /** The content offset that an elevator position stands for. */
  function OffsetOf(elev: int, maxOff: int, g: Geo): int
    requires g.Ok() && 0 < maxOff
  {
    var span := g.ElevMax() - g.ElevMin();
    var offset := if span > 0 then ((elev - g.ElevMin()) * maxOff) / span else 0;
    Clamp(offset, 0, maxOff)
  }

  /** The elevator position that stands for a content offset. */
  function ElevOf(offset: int, maxOff: int, g: Geo): int
    requires g.Ok()
  {
    if maxOff <= 0 then g.ElevMin()
    else
      var o := if offset > maxOff then maxOff else offset;
      Clamp(g.ElevMin() + ((g.ElevMax() - g.ElevMin()) * o) / maxOff, g.ElevMin(), g.ElevMax())
  }

  function PushOffset(d: Desk, g: Geo, w: int): (r: Desk)
    requires g.Ok() && d.Sized(g) && 1 <= w <= g.slots
    ensures r.Sized(g)
  {
    var maxOff := d.content[w - 1] - g.CH();
    if maxOff <= 0 || d.ptr[w - 1] == 0 then d
    else d.(sent := d.sent + [Scroll(d.ptr[w - 1], OffsetOf(d.elev[w - 1], maxOff, g))])
  }

  function SetElev(d: Desk, g: Geo, w: int, e: int): (r: Desk)
    requires d.Sized(g) && 1 <= w <= g.slots
    ensures r.Sized(g)
  {
    d.(elev := d.elev[w - 1 := Clamp(e, g.ElevMin(), g.ElevMax())])
  }

  function LineStepped(d: Desk, g: Geo, w: int, dir: int): (r: Desk)
    requires d.Sized(g) && 1 <= w <= g.slots
    ensures r.Sized(g)
  {
    SetElev(d, g, w, d.elev[w - 1] + (if dir == 1 then -ELEV_LINE else ELEV_LINE))
  }

  /** The pointer holds bar, and the elevator moves to e. */
  function Pressed(d: Desk, g: Geo, w: int, bar: BarGrab, e: int): (r: Desk)
    requires g.Ok() && d.Sized(g) && 1 <= w <= g.slots
    ensures r.Sized(g)
  {
    PushOffset(SetElev(d.(bar := bar), g, w, e), g, w)
  }

  function BarPressed(d: Desk, g: Geo, w: int, hit: Hit, py: int): (r: Desk)
    requires g.Ok() && d.Sized(g) && 1 <= w <= g.slots
    ensures r.Sized(g)
  {
    var e := d.elev[w - 1];
    match hit
    case Miss => d
    case Elev => d.(bar := d.bar.(dragging := true, wid := w, grabOff := py - (d.pos[w - 1].y + e)))
    case LineUp => Pressed(d, g, w, d.bar.(wid := w, arrow := 1), e - ELEV_LINE)
    case LineDown => Pressed(d, g, w, d.bar.(wid := w, arrow := 2), e + ELEV_LINE)
    case Top => Pressed(d, g, w, d.bar.(wid := w, anchor := 1), g.ElevMin())
    case Bottom => Pressed(d, g, w, d.bar.(wid := w, anchor := 2), g.ElevMax())
    case PageUp => Pressed(d, g, w, d.bar, e - ELEV_PAGE)
    case PageDown => Pressed(d, g, w, d.bar, e + ELEV_PAGE)
  }

  function BarMoved(d: Desk, g: Geo, py: int): (r: Desk)
    requires g.Ok() && d.Sized(g)
    ensures r.Sized(g)
  {
    var w := d.bar.wid;
    if w < 1 || w > g.slots then d.(bar := d.bar.(dragging := false))
    else
      var e := Clamp(py - d.bar.grabOff - d.pos[w - 1].y, g.ElevMin(), g.ElevMax());
      if e == d.elev[w - 1] then d else PushOffset(SetElev(d, g, w, e), g, w)
  }

  /** A client reports its content height and offset. */
  function ScrollSet(d: Desk, g: Geo, w: int, total: int, offset: int): (r: Desk)
    requires g.Ok() && d.Sized(g)
    ensures r.Sized(g)
  {
    if w < 1 || w > g.slots then d
    else
      var d1 := d.(content := d.content[w - 1 := total]);
      if d.bar.dragging && d.bar.wid == w then d1
      else SetElev(d1, g, w, ElevOf(offset, total - g.CH(), g))
  }

  // ---------- the desktop menu ----------

  function Shown(d: Desk, g: Geo, px: int, py: int): (r: Desk)
    ensures d.Sized(g) ==> r.Sized(g)
  {
    if d.menu.active then d
    else
      var x := if px + g.menuW > g.fbW then g.fbW - g.menuW else px;
      var y := if py + g.MenuH() > g.fbH then g.fbH - g.MenuH() else py;
      d.(menu := Menu(true, false, if x < 0 then 0 else x, if y < 0 then 0 else y, -1, {}))
  }

  /** Draw the row of item i, highlighted or not. */
  function RowDrawn(m: Menu, i: int): Menu {
    if i < 0 then m else m.(lit := if i == m.highlighted then m.lit + {i} else m.lit - {i})
  }

  /** Move the highlight, drawing the row it leaves and the one it enters. */
  function Highlighted(m: Menu, i: int): Menu {
    if i == m.highlighted then m else RowDrawn(RowDrawn(m.(highlighted := i), m.highlighted), i)
  }

  // The rows that a whole drawing of the menu highlights.
  function Shining(m: Menu): set<int> { if m.highlighted >= 0 then {m.highlighted} else {} }

  /** Drop the menu at p, drawing all of it if it moves. */
  function MenuAt(m: Menu, p: Point): Menu {
    if p == Point(m.x, m.y) then m else m.(x := p.x, y := p.y, lit := Shining(m))
  }

  function Dismissed(d: Desk): Desk {
    if d.menu.active then d.(menu := d.menu.(active := false, highlighted := -1, lit := {})) else d
  }

  function ItemAt(d: Desk, g: Geo, px: int, py: int): (i: int)
    requires g.Ok()
    ensures -1 <= i < g.items
  {
    if !d.menu.active then -1
    else if px < d.menu.x + MENU_BORDER || px >= d.menu.x + g.menuW - MENU_BORDER then -1
    else
      var rel := py - (d.menu.y + MENU_TOP);
      if rel < 0 || rel / MENU_ITEM_H >= g.items then -1 else rel / MENU_ITEM_H
  }

  function PinRect(d: Desk): Rect {
    Rect(d.menu.x + MENU_PIN_X, d.menu.y + MENU_BORDER + MENU_PIN_Y, MENU_PIN_W, MENU_PIN_H)
  }

  predicate OnMenuTitle(d: Desk, g: Geo, px: int, py: int) {
    d.menu.active
    && Rect(d.menu.x + MENU_BORDER, d.menu.y + MENU_BORDER, g.menuW - 2 * MENU_BORDER, MENU_TITLE_H).Has(px, py)
    && !PinRect(d).Has(px, py)
  }

  function Selected(d: Desk, g: Geo, item: int): (r: Desk)
    requires 0 <= item < g.items
    ensures d.Sized(g) ==> r.Sized(g)
  {
    if item == g.items - 1 then
      var d1 := Dismissed(d);
      d1.(sent := d1.sent + [Shutdown])
    else
      var d1 := if d.menu.pinned then d.(menu := RowDrawn(d.menu.(highlighted := -1), item)) else Dismissed(d);
      d1.(sent := d1.sent + [Spawn(item)])
  }

  function OutlineAt(drag: Drag, px: int, py: int, w: int, h: int, g: Geo): Point {
    Point(Clamp(drag.origin.x + (px - drag.start.x), 0, g.fbW - w),
          Clamp(drag.origin.y + (py - drag.start.y), 0, g.fbH - h))
  }

  // ---------- pointer events ----------

  function MenuDragged(d: Desk, g: Geo, e: Event): (r: Desk)
    ensures d.Sized(g) ==> r.Sized(g)
  {
    if e.kind == Motion then d.(menuDrag := d.menuDrag.(out := OutlineAt(d.menuDrag, e.x, e.y, g.menuW, g.MenuH(), g)))
    else if e.kind == Up && e.button == Left then
      d.(menu := MenuAt(d.menu, d.menuDrag.out), menuDrag := d.menuDrag.(active := false))
    else d
  }

  /** The menu owns the cursor. */
  function MenuHandled(d: Desk, g: Geo, e: Event): (r: Desk)
    requires g.Ok()
    ensures d.Sized(g) ==> r.Sized(g)
  {
    if e.kind == Motion then d.(menu := Highlighted(d.menu, ItemAt(d, g, e.x, e.y)))
    else if e.kind != Down || e.button != Left then d
    else if PinRect(d).Has(e.x, e.y) then
      if d.menu.pinned then Dismissed(d) else d.(menu := d.menu.(pinned := true))
    else if ItemAt(d, g, e.x, e.y) >= 0 then Selected(d, g, ItemAt(d, g, e.x, e.y))
    else if d.menu.pinned && OnMenuTitle(d, g, e.x, e.y) then
      var at := Point(d.menu.x, d.menu.y);
      d.(menuDrag := Drag(true, 0, Point(e.x, e.y), at, at))
    else if !d.menu.pinned then Dismissed(d)
    else d
  }

  function TitleHit(d: Desk, g: Geo, w: int, px: int, py: int): bool
    requires d.Sized(g) && 1 <= w <= g.slots
  {
    Rect(d.pos[w - 1].x + CONTENT_X, d.pos[w - 1].y + TITLE_Y, g.CW(), TITLE_BAR_H).Has(px, py)
  }

  function ButtonHit(d: Desk, g: Geo, w: int, px: int, py: int): bool
    requires d.Sized(g) && 1 <= w <= g.slots
  {
    Rect(d.pos[w - 1].x + MENU_BTN_X, d.pos[w - 1].y + TITLE_Y, MENU_BTN_W, TITLE_BAR_H).Has(px, py)
  }

  function Grabbed(d: Desk, g: Geo, w: int, e: Event): (r: Desk)
    requires d.Sized(g) && 1 <= w <= g.slots
    ensures r.Sized(g)
  {
    d.(drag := Drag(true, w, Point(e.x, e.y), d.pos[w - 1], d.pos[w - 1]))
  }

  /** A left press on window t, once it is raised. */
  function RaisedPress(d: Desk, g: Geo, t: int, e: Event): (r: (bool, Desk))
    requires g.Ok() && d.Sized(g) && 1 <= t <= g.slots
    ensures r.1.Sized(g)
  {
    if TitleHit(d, g, t, e.x, e.y) then (true, Grabbed(d, g, t, e))
    else
      var hit := BarHit(d, g, t, e.x, e.y);
      if hit != Miss then (true, BarPressed(d, g, t, hit, e.y)) else (false, d)
  }

  /** A left press over the windows; the flag says whether the event is consumed. */
  function LeftDown(d: Desk, g: Geo, e: Event): (r: (bool, Desk))
    requires g.Ok() && d.Sized(g)
    ensures r.1.Sized(g)
  {
    var t := TopAt(d.z, d.pos, g, e.x, e.y);
    if t == 0 then (false, d)
    else if ButtonHit(d, g, t, e.x, e.y) then (true, Closed(d, g, t))
    else
      RaisedPress(Raised(d, t), g, t, e)
  }

  function Released(d: Desk, g: Geo): (r: Desk)
    requires g.Ok() && d.Sized(g)
    ensures r.Sized(g)
  {
    var d1 := d.(bar := d.bar.(dragging := false, arrow := 0, anchor := 0));
    if d.bar.arrow != 0 && 1 <= d.bar.wid <= g.slots then PushOffset(d1, g, d.bar.wid) else d1
  }

  function Dropped(d: Desk, g: Geo): (r: Desk)
    requires d.Sized(g)
    ensures r.Sized(g)
  {
    var i := d.drag.wid - 1;
    d.(drag := d.drag.(active := false),
       pos := if 0 <= i < g.slots then d.pos[i := d.drag.out] else d.pos)
  }

  predicate MenuOwns(d: Desk, g: Geo, e: Event) {
    d.menu.active && (!d.menu.pinned || d.MenuRect(g).Has(e.x, e.y))
  }

  /** Events that no menu takes. */
  function WindowsHandled(d: Desk, g: Geo, e: Event): (r: (bool, Desk))
    requires g.Ok() && d.Sized(g)
    ensures r.1.Sized(g)
  {
    if e.kind == Down && (e.button == Right || e.button == Middle) && TopAt(d.z, d.pos, g, e.x, e.y) == 0 then
      (true, Shown(d, g, e.x, e.y))
    else if e.kind == Motion then
      if d.bar.dragging then (true, BarMoved(d, g, e.y))
      else if !d.drag.active then (false, d)
      else if d.drag.wid < 1 || d.drag.wid > g.slots then (false, d.(drag := d.drag.(active := false)))
      else (true, d.(drag := d.drag.(out := OutlineAt(d.drag, e.x, e.y, g.UW(), g.UH(), g))))
    else if e.kind == Down then
      if e.button == Left then LeftDown(d, g, e) else (false, d)
    else if e.kind == Up && e.button == Left && (d.bar.dragging || d.bar.arrow != 0 || d.bar.anchor != 0) then
      (true, Released(d, g))
    else if e.kind == Up && e.button == Left && d.drag.active then
      (true, Dropped(d, g))
    else (false, d)
  }

  /** What the window manager itself does with an event, and whether that consumes it. */
  function Handled(d: Desk, g: Geo, e: Event): (r: (bool, Desk))
    requires g.Ok() && d.Sized(g)
    ensures r.1.Sized(g)
  {
    if d.menuDrag.active then (true, MenuDragged(d, g, e))
    else if MenuOwns(d, g, e) then (true, MenuHandled(d, g, e))
    else
      var d1 := if d.menu.active && e.kind == Motion && d.menu.highlighted >= 0
                then d.(menu := Highlighted(d.menu, -1)) else d;
      WindowsHandled(d1, g, e)
  }

  /** A left press that takes hold of a window while one is being dragged, with its outline
      somewhere else. */
  predicate PressGrabsAgain(d: Desk, g: Geo, e: Event)
    requires d.Sized(g)
  {
    var t := TopAt(d.z, d.pos, g, e.x, e.y);
    d.drag.active && e.kind == Down && e.button == Left
    && t != 0 && !ButtonHit(d, g, t, e.x, e.y) && TitleHit(d, g, t, e.x, e.y) && d.drag.out != d.pos[t - 1]
  }

  /** A second grab while a window is dragged, of a window that is not where the outline is: the
      first outline will be forgotten. */
  predicate GrabsAgain(d: Desk, g: Geo, e: Event)
    requires d.Sized(g)
  {
    !d.menuDrag.active && !MenuOwns(d, g, e) && PressGrabsAgain(d, g, e)
  }

  /** A menu that was dismissed while dragged is dropped elsewhere: it will be drawn again. */
  predicate DropsGhost(d: Desk, e: Event) {
    d.menuDrag.active && e.kind == Up && e.button == Left && !d.menu.active
    && d.menuDrag.out != Point(d.menu.x, d.menu.y)
  }

  /** A release that puts a dragged window somewhere else. */
  predicate ReleaseMoves(d: Desk, g: Geo, e: Event)
    requires d.Sized(g)
  {
    e.kind == Up && e.button == Left && !(d.bar.dragging || d.bar.arrow != 0 || d.bar.anchor != 0)
    && d.drag.active && 1 <= d.drag.wid <= g.slots && d.drag.out != d.pos[d.drag.wid - 1]
  }

  /** A drop that moves a window: the whole screen is composited again. */
  predicate DropsMoved(d: Desk, g: Geo, e: Event)
    requires d.Sized(g)
  {
    !d.menuDrag.active && !MenuOwns(d, g, e) && ReleaseMoves(d, g, e)
  }

  /** Pass an event to the focused window, in its content coordinates. */
  function Forwarded(d: Desk, g: Geo, e: Event): (r: Desk)
    requires d.Sized(g)
    ensures r.Sized(g)
  {
    var w := d.focused;
    if w < 1 || w > g.slots then d
    else
      var cx, cy := e.x - d.pos[w - 1].x - CONTENT_X, e.y - d.pos[w - 1].y - CONTENT_Y;
      if !Rect(0, 0, g.CW(), g.CH()).Has(cx, cy) || d.ptr[w - 1] == 0 then d
      else d.(sent := d.sent + [Pointer(d.ptr[w - 1], e.kind, cx, cy, e.button, e.state)])
  }

  function Dispatched(d: Desk, g: Geo, e: Event): (d': Desk)
    requires g.Ok() && d.Sized(g)
    ensures d'.Sized(g)
  {
    var (consumed, d1) := Handled(d, g, e);
    if consumed then d1 else Forwarded(d1, g, e)
  }

  // ---------- keys and subscriptions ----------

  function KeyHandled(d: Desk, g: Geo, code: int, mods: int): (r: Desk)
    requires d.Sized(g)
    ensures r.Sized(g)
  {
    if d.menu.active && code == ESCAPE then Dismissed(d)
    else if d.menu.active && !d.menu.pinned then d
    else if d.focused < 1 || d.focused > g.slots || d.kbd[d.focused - 1] == 0 then d
    else d.(sent := d.sent + [Key(d.kbd[d.focused - 1], code, mods)])
  }

  function KbdSubscribed(d: Desk, g: Geo, who: int): (r: Desk)
    requires d.Sized(g)
    ensures r.Sized(g)
  {
    if d.focused < 1 || d.focused > g.slots then d else d.(kbd := d.kbd[d.focused - 1 := who])
  }

  function PtrSubscribed(d: Desk, g: Geo, who: int): (r: Desk)
    requires d.Sized(g)
    ensures r.Sized(g)
  {
    if d.focused < 1 || d.focused > g.slots then d else d.(ptr := d.ptr[d.focused - 1 := who])
  }
}
