/** What pointer and keys are for: who hears of an event, where a dragged window and a held elevator
    end up, and what a press on the menu asks for. */
module Pointing {
  import opened Arith
  import opened Geometry
  import opened Stacking
  import opened Desk
  import opened WindowTable
  import opened Coalesce

  // ---------- who hears of an event ----------

  /** The focused window has a subscriber, and the pointer is over its cells. */
  predicate Hears(d: Desk, g: Geo, e: Event)
    requires d.Sized(g)
  {
    var w := d.focused;
    && 1 <= w <= g.slots && d.ptr[w - 1] != 0
    && g.Content(e.x - d.pos[w - 1].x, e.y - d.pos[w - 1].y)
  }

  /** A message that tells the focused window's subscriber of e, in coordinates of its cells. */
  predicate Tells(m: Sent, d: Desk, g: Geo, e: Event)
    requires d.Sized(g) && 1 <= d.focused <= g.slots
  {
    var p := d.pos[d.focused - 1];
    && m.Pointer? && m.to == d.ptr[d.focused - 1]
    && p.x + CONTENT_X + m.x == e.x && p.y + CONTENT_Y + m.y == e.y
    && m.kind == e.kind && m.button == e.button && m.state == e.state
  }

  // Exactly one message more than before.
  predicate OneMore(before: seq<Sent>, after: seq<Sent>) {
    |after| == |before| + 1 && after[..|before|] == before
  }

  /** An event that the window manager does not consume is told to the focused window's subscriber,
      once, if the pointer is over the window's cells; otherwise nothing is sent.  It changes
      nothing else. */
  lemma PassedOn(d: Desk, g: Geo, e: Event)
    requires g.Ok() && TableOk(d, g) && !Handled(d, g, e).0
    ensures var d' := Dispatched(d, g, e);
            && d' == Handled(d, g, e).1.(sent := d'.sent)
            && if Hears(d', g, e) then OneMore(d.sent, d'.sent) && Tells(d'.sent[|d.sent|], d', g, e)
               else d'.sent == d.sent
  {
  }

  /** Nothing is held and no menu shows. */
  predicate AtRest(d: Desk) {
    && !d.menu.active && !d.menuDrag.active && !d.drag.active
    && !d.bar.dragging && d.bar.arrow == 0 && d.bar.anchor == 0
  }

  /** At rest, an event over the cells of the top window is not consumed; a left press first raises
      the window and gives it the focus.  So the window's subscriber hears of every press on its
      cells, and of every other event there while it has the focus. */
  lemma CellsAreTheClients(d: Desk, g: Geo, e: Event, t: int)
    requires g.Ok() && TableOk(d, g) && AtRest(d) && t == TopAt(d.z, d.pos, g, e.x, e.y) && t != 0
    requires g.Content(e.x - d.pos[t - 1].x, e.y - d.pos[t - 1].y)
    ensures var d' := Dispatched(d, g, e);
            && !Handled(d, g, e).0
            && (e.kind == Down && e.button == Left ==> d'.focused == t && d'.z == Without(d.z, t) + [t])
            && ((e.kind == Down && e.button == Left) || d.focused == t ==>
                  if d.ptr[t - 1] != 0 then OneMore(d.sent, d'.sent) && Tells(d'.sent[|d.sent|], d', g, e) && d'.focused == t
                  else d'.sent == d.sent)
  {
    TopIsStacked(d.z, d.pos, g, e.x, e.y);
    NotOnChrome(d, g, e, t);
    PassedOn(d, g, e);
  }

  // The cells are clear of title bar, menu button and scrollbar.
  lemma NotOnChrome(d: Desk, g: Geo, e: Event, t: int)
    requires g.Ok() && d.Sized(g) && 1 <= t <= g.slots
    requires g.Content(e.x - d.pos[t - 1].x, e.y - d.pos[t - 1].y)
    ensures !ButtonHit(d, g, t, e.x, e.y) && !TitleHit(d, g, t, e.x, e.y) && BarHit(d, g, t, e.x, e.y) == Miss
  {
  }

  lemma {:induction false} TopIsStacked(z: seq<int>, pos: seq<Point>, g: Geo, x: int, y: int)
    ensures TopAt(z, pos, g, x, y) != 0 ==> TopAt(z, pos, g, x, y) in z && Covers(pos, g, TopAt(z, pos, g, x, y), x, y)
    decreases |z|
  {
    if z != [] { TopIsStacked(z[..|z| - 1], pos, g, x, y); }
  }

  // ---------- dragging a window ----------

  /** As far towards a as lo and hi allow. */
  predicate Nearest(n: int, a: int, lo: int, hi: int) {
    lo <= n <= hi && (lo <= a <= hi ==> n == a) && (a < lo ==> n == lo) && (hi < a ==> n == hi)
  }

  predicate Motions(ms: seq<Event>) {
    forall m :: m in ms ==> m.kind == Motion
  }

  // The desk while window t is held since the press e; the pointer is at (x, y).
  predicate Carried(d: Desk, d': Desk, g: Geo, t: int, e: Event, x: int, y: int)
    requires d.Sized(g) && 1 <= t <= g.slots
  {
    && d' == d.(drag := d'.drag, z := Without(d.z, t) + [t], focused := t)
    && d'.drag.active && d'.drag.wid == t && d'.drag.start == Point(e.x, e.y) && d'.drag.origin == d.pos[t - 1]
    && Nearest(d'.drag.out.x, d.pos[t - 1].x + x - e.x, 0, g.fbW - g.UW())
    && Nearest(d'.drag.out.y, d.pos[t - 1].y + y - e.y, 0, g.fbH - g.UH())
  }

  // A left press on the title bar of the top window there, t.
  predicate OnTitle(d: Desk, g: Geo, e: Event, t: int)
    requires d.Sized(g)
  {
    && e.kind == Down && e.button == Left && t == TopAt(d.z, d.pos, g, e.x, e.y) && t != 0
    && TitleHit(d, g, t, e.x, e.y) && !ButtonHit(d, g, t, e.x, e.y)
  }

  lemma PickedUp(d: Desk, g: Geo, e: Event, t: int)
    requires g.Ok() && TableOk(d, g) && AtRest(d) && OnTitle(d, g, e, t)
    ensures Carried(d, Dispatched(d, g, e), g, t, e, e.x, e.y)
  {
    TopIsStacked(d.z, d.pos, g, e.x, e.y);
  }

  lemma CarriedOn(d: Desk, d': Desk, g: Geo, t: int, e: Event, x: int, y: int, m: Event)
    requires g.Ok() && TableOk(d, g) && AtRest(d) && 1 <= t <= g.slots && Carried(d, d', g, t, e, x, y) && m.kind == Motion
    ensures Carried(d, Dispatched(d', g, m), g, t, e, m.x, m.y)
  {
  }

  // The place of the pointer after a press and some motions.
  function LastX(e: Event, ms: seq<Event>): int { if ms == [] then e.x else ms[|ms| - 1].x }
  function LastY(e: Event, ms: seq<Event>): int { if ms == [] then e.y else ms[|ms| - 1].y }

  lemma {:induction false} CarriedFar(d: Desk, g: Geo, t: int, e: Event, ms: seq<Event>)
    requires g.Ok() && TableOk(d, g) && AtRest(d) && OnTitle(d, g, e, t) && Motions(ms)
    ensures 1 <= t <= g.slots && Carried(d, Each(d, g, [e] + ms), g, t, e, LastX(e, ms), LastY(e, ms))
    decreases |ms|
  {
    if ms == [] {
      PickedUp(d, g, e, t);
      EachOne(d, g, e);
      assert [e] + ms == [e];
    } else {
      var k := |ms| - 1;
      CarriedFar(d, g, t, e, ms[..k]);
      var d' := Each(d, g, [e] + ms[..k]);
      CarriedOn(d, d', g, t, e, LastX(e, ms[..k]), LastY(e, ms[..k]), ms[k]);
      EachJoin(d, g, [e] + ms[..k], [ms[k]]);
      EachOne(d', g, ms[k]);
      assert [e] + ms == [e] + ms[..k] + [ms[k]];
    }
  }

  lemma EachOne(d: Desk, g: Geo, e: Event)
    requires g.Ok() && d.Sized(g)
    ensures Each(d, g, [e]) == Dispatched(d, g, e)
  {
    assert [e][1..] == [];
  }

  lemma {:induction false} EachJoin(d: Desk, g: Geo, a: seq<Event>, b: seq<Event>)
    requires g.Ok() && d.Sized(g)
    ensures Each(d, g, a + b) == Each(Each(d, g, a), g, b)
    decreases |a|
  {
    if a == [] {
      assert a + b == b;
    } else {
      assert (a + b)[1..] == a[1..] + b;
      EachJoin(Dispatched(d, g, a[0]), g, a[1..], b);
    }
  }

  // The desk after a drag of window t by the press e, let go with the pointer at (x, y).
  predicate Moved(d: Desk, d': Desk, g: Geo, t: int, e: Event, x: int, y: int)
    requires d.Sized(g) && 1 <= t <= g.slots
  {
    && |d'.pos| == g.slots
    && d' == d.(pos := d.pos[t - 1 := d'.pos[t - 1]], z := Without(d.z, t) + [t], focused := t, drag := d'.drag)
    && !d'.drag.active
    && Nearest(d'.pos[t - 1].x, d.pos[t - 1].x + x - e.x, 0, g.fbW - g.UW())
    && Nearest(d'.pos[t - 1].y, d.pos[t - 1].y + y - e.y, 0, g.fbH - g.UH())
  }

  lemma PutDown(d: Desk, d': Desk, g: Geo, t: int, e: Event, x: int, y: int, up: Event)
    requires g.Ok() && TableOk(d, g) && AtRest(d) && 1 <= t <= g.slots && Carried(d, d', g, t, e, x, y)
    requires up.kind == Up && up.button == Left
    ensures Moved(d, Dispatched(d', g, up), g, t, e, x, y)
  {
  }

  lemma {:induction false} NoSecondPress(d: Desk, g: Geo, q: seq<Event>)
    requires g.Ok() && d.Sized(g) && forall e :: e in q ==> !(e.kind == Down && e.button == Left)
    ensures OnePressAtATime(d, g, q)
    decreases |q|
  {
    if q != [] { NoSecondPress(Dispatched(d, g, q[0]), g, q[1..]); }
  }

  /** A whole drag: a left press on a window's title bar, any motions, a release.  The window has
      moved by as much as the pointer, as far as the screen allows, is on top and has the focus;
      nothing else has changed and nothing was sent.  Drained with its motions collapsed, the queue
      does the same. */
  lemma DragMoves(d: Desk, g: Geo, t: int, e: Event, ms: seq<Event>, up: Event)
    requires g.Ok() && TableOk(d, g) && AtRest(d) && OnTitle(d, g, e, t) && Motions(ms)
    requires up.kind == Up && up.button == Left
    ensures 1 <= t <= g.slots && Moved(d, Each(d, g, [e] + ms + [up]), g, t, e, LastX(e, ms), LastY(e, ms))
    ensures Drained(d, g, [e] + ms + [up], NoMotion) == Each(d, g, [e] + ms + [up])
  {
    CarriedFar(d, g, t, e, ms);
    EachJoin(d, g, [e] + ms, [up]);
    EachOne(Each(d, g, [e] + ms), g, up);
    PutDown(d, Each(d, g, [e] + ms), g, t, e, LastX(e, ms), LastY(e, ms), up);
    var q := [e] + ms + [up];
    assert q[0] == e && q[1..] == ms + [up];
    NoSecondPress(Dispatched(d, g, e), g, ms + [up]);
    CoalescingSound(d, g, q);
  }

  // ---------- scrollbars ----------

  // Row y of window w's scrollbar, from the window's top.
  predicate OnBar(d: Desk, g: Geo, w: int, px: int, py: int, y: int)
    requires d.Sized(g) && 1 <= w <= g.slots
  {
    && 0 <= px - d.pos[w - 1].x - g.BarRect().x < SCROLLBAR_W - 2 && y == py - d.pos[w - 1].y
    && CONTENT_Y <= y < CONTENT_Y + g.CH()
  }

  /** A press on the scrollbar takes the elevator to the top or bottom from the anchors there, a
      line from its arrows, a page towards the pointer from the cable, and holds it where it is
      from its box; it never leaves its track. */
  lemma BarParts(d: Desk, g: Geo, w: int, px: int, py: int, y: int)
    requires g.Ok() && TableOk(d, g) && 1 <= w <= g.slots && d.types[w - 1] != FREE && OnBar(d, g, w, px, py, y)
    ensures var hit, e := BarHit(d, g, w, px, py), d.elev[w - 1];
            var d' := BarPressed(d, g, w, hit, py);
            var e' := d'.elev[w - 1];
            && hit != Miss && d'.elev == d.elev[w - 1 := e'] && d'.pos == d.pos
            && if y < CONTENT_Y + 6 then e' == g.ElevMin()
               else if y >= CONTENT_Y + g.CH() - 6 then e' == g.ElevMax()
               else if y < e then Nearest(e', e - 55, g.ElevMin(), g.ElevMax())
               else if y >= e + 47 then Nearest(e', e + 55, g.ElevMin(), g.ElevMax())
               else if y < e + 15 then Nearest(e', e - 6, g.ElevMin(), g.ElevMax())
               else if y >= e + 30 then Nearest(e', e + 6, g.ElevMin(), g.ElevMax())
               else e' == e && d'.bar.dragging && d'.bar.wid == w
  {
  }

  /** While its box is held the elevator moves with the pointer, as far as its track goes. */
  lemma ElevatorFollows(d: Desk, g: Geo, w: int, px: int, py: int, y: int, qy: int)
    requires g.Ok() && TableOk(d, g) && 1 <= w <= g.slots && d.types[w - 1] != FREE && OnBar(d, g, w, px, py, y)
    requires CONTENT_Y + 6 <= y < CONTENT_Y + g.CH() - 6 && d.elev[w - 1] + 15 <= y < d.elev[w - 1] + 30
    ensures var d1 := BarPressed(d, g, w, BarHit(d, g, w, px, py), py);
            var d2 := BarMoved(d1, g, qy);
            d2.elev == d.elev[w - 1 := d2.elev[w - 1]]
            && Nearest(d2.elev[w - 1], d.elev[w - 1] + qy - py, g.ElevMin(), g.ElevMax())
  {
    assert d.elev[w - 1 := d.elev[w - 1]] == d.elev;
  }

  /** The window's pointer subscriber, and nobody else, is told an offset that the content can be
      scrolled to, 0 at the top and the last at the bottom of the track; nobody when everything fits. */
  lemma OffsetTold(d: Desk, g: Geo, w: int)
    requires g.Ok() && TableOk(d, g) && 1 <= w <= g.slots && d.types[w - 1] != FREE
    ensures var d', most := PushOffset(d, g, w), d.content[w - 1] - g.CH();
            && d' == d.(sent := d'.sent)
            && if d.ptr[w - 1] == 0 || most <= 0 then d'.sent == d.sent
               else OneMore(d.sent, d'.sent) && var m := d'.sent[|d.sent|];
                 && m.Scroll? && m.to == d.ptr[w - 1] && 0 <= m.offset <= most
                 && (d.elev[w - 1] == g.ElevMin() ==> m.offset == 0)
                 && (d.elev[w - 1] == g.ElevMax() > g.ElevMin() ==> m.offset == most)
  {
    var most, span := d.content[w - 1] - g.CH(), g.ElevMax() - g.ElevMin();
    if 0 < most && 0 < span { QuotientIs(span * most, span, most); }
  }

  /** A held arrow steps the elevator a line its way each time; letting it go tells the client once. */
  lemma ArrowHeld(d: Desk, g: Geo)
    requires g.Ok() && TableOk(d, g) && d.bar.arrow != 0 && 1 <= d.bar.wid <= g.slots && d.types[d.bar.wid - 1] != FREE
    ensures var w := d.bar.wid;
            var r, u := Repeated(d, g), Released(d, g);
            && r == d.(elev := d.elev[w - 1 := r.elev[w - 1]])
            && Nearest(r.elev[w - 1], d.elev[w - 1] + (if d.bar.arrow == 1 then -6 else 6), g.ElevMin(), g.ElevMax())
            && u.bar == d.bar.(dragging := false, arrow := 0, anchor := 0)
            && u.sent == PushOffset(d, g, w).sent
  {
  }

  // ---------- new windows ----------

  /** While there is slack, each new window is placed a step further right and down than the last. */
  lemma Cascades(g: Geo, n: nat)
    requires g.Ok() && 32 * n <= g.fbW - g.UW() - 16 && 32 * n <= g.fbH - g.UH() - 32
    ensures CascadeAt(g, n) == Point(8 + 32 * n, 16 + 32 * n)
  {
    var sx, sy := g.fbW - g.UW() - 16, g.fbH - g.UH() - 32;
    SmallRest(32 * n, sx + 1);
    SmallRest(32 * n, sy + 1);
  }

  lemma SmallRest(n: nat, m: nat)
    requires n < m
    ensures n % m == n
  {
  }

  // ---------- the menu ----------

  // The row of item i.
  predicate OnItem(d: Desk, g: Geo, i: int, px: int, py: int) {
    0 <= i < g.items
    && Rect(d.menu.x + MENU_BORDER, d.menu.y + MENU_TOP + i * MENU_ITEM_H, g.menuW - 2 * MENU_BORDER, MENU_ITEM_H).Has(px, py)
  }

  /** An item is hit exactly on its row. */
  lemma ItemIsRow(d: Desk, g: Geo, px: int, py: int, i: int)
    requires g.Ok() && d.menu.active && 0 <= i
    ensures ItemAt(d, g, px, py) == i <==> OnItem(d, g, i, px, py)
  {
    var rel := py - (d.menu.y + MENU_TOP);
    assert rel >= 0 ==> (rel / 20 == i <==> i * 20 <= rel < i * 20 + 20);
  }

  /** A press on an item's row asks for exactly that item, once: for the end of the session if it is
      the last, else for its program.  Only a pinned menu stays, and not at the end. */
  lemma ItemChosen(d: Desk, g: Geo, e: Event, i: int)
    requires g.Ok() && d.Sized(g) && d.menu.active && !d.menuDrag.active && OnItem(d, g, i, e.x, e.y)
    requires e.kind == Down && e.button == Left
    ensures var d' := Dispatched(d, g, e);
            && OneMore(d.sent, d'.sent) && d'.sent[|d.sent|] == (if i == g.items - 1 then Shutdown else Spawn(i))
            && (d'.menu.active <==> d.menu.pinned && i < g.items - 1)
            && d' == d.(menu := d'.menu, sent := d'.sent)
  {
    ItemIsRow(d, g, e.x, e.y, i);
    assert i * 20 <= (g.items - 1) * 20;
    assert d.MenuRect(g).Has(e.x, e.y) && !PinRect(d).Has(e.x, e.y);
  }

  /** A summoned menu is unpinned with nothing highlighted, wholly on the screen, and as near the
      pointer as that allows. */
  lemma SummonedHere(d: Desk, g: Geo, e: Event)
    requires g.Ok() && TableOk(d, g) && AtRest(d) && TopAt(d.z, d.pos, g, e.x, e.y) == 0
    requires e.kind == Down && (e.button == Right || e.button == Middle) && g.OnScreen(e.x, e.y)
    ensures var d' := Dispatched(d, g, e);
            && d' == d.(menu := d'.menu) && d'.menu.active && !d'.menu.pinned && d'.menu.highlighted == -1
            && Nearest(d'.menu.x, e.x, 0, g.fbW - g.menuW) && Nearest(d'.menu.y, e.y, 0, g.fbH - g.MenuH())
  {
  }

  // The desk while the menu is held since the press e; the pointer is at (x, y).
  predicate MenuCarried(d: Desk, d': Desk, g: Geo, e: Event, x: int, y: int) {
    && d' == d.(menuDrag := d'.menuDrag)
    && d'.menuDrag.active && d'.menuDrag.start == Point(e.x, e.y) && d'.menuDrag.origin == Point(d.menu.x, d.menu.y)
    && Nearest(d'.menuDrag.out.x, d.menu.x + x - e.x, 0, g.fbW - g.menuW)
    && Nearest(d'.menuDrag.out.y, d.menu.y + y - e.y, 0, g.fbH - g.MenuH())
  }

  // A left press on the title of a pinned menu.
  predicate OnPinnedTitle(d: Desk, g: Geo, e: Event) {
    && e.kind == Down && e.button == Left && d.menu.active && d.menu.pinned && !d.menuDrag.active
    && OnMenuTitle(d, g, e.x, e.y)
  }

  lemma MenuPickedUp(d: Desk, g: Geo, e: Event)
    requires g.Ok() && TableOk(d, g) && OnPinnedTitle(d, g, e)
    ensures MenuCarried(d, Dispatched(d, g, e), g, e, e.x, e.y)
  {
  }

  lemma {:induction false} MenuCarriedFar(d: Desk, g: Geo, e: Event, ms: seq<Event>)
    requires g.Ok() && TableOk(d, g) && OnPinnedTitle(d, g, e) && Motions(ms)
    ensures MenuCarried(d, Each(d, g, [e] + ms), g, e, LastX(e, ms), LastY(e, ms))
    decreases |ms|
  {
    if ms == [] {
      MenuPickedUp(d, g, e);
      EachOne(d, g, e);
      assert [e] + ms == [e];
    } else {
      var k := |ms| - 1;
      MenuCarriedFar(d, g, e, ms[..k]);
      EachJoin(d, g, [e] + ms[..k], [ms[k]]);
      EachOne(Each(d, g, [e] + ms[..k]), g, ms[k]);
      assert [e] + ms == [e] + ms[..k] + [ms[k]];
    }
  }

  /** A pinned menu dragged by its title moves by as much as the pointer, as far as the screen
      allows, and nothing else changes. */
  lemma MenuMoves(d: Desk, g: Geo, e: Event, ms: seq<Event>, up: Event)
    requires g.Ok() && TableOk(d, g) && OnPinnedTitle(d, g, e) && Motions(ms) && up.kind == Up && up.button == Left
    ensures var d' := Each(d, g, [e] + ms + [up]);
            && d' == d.(menu := d.menu.(x := d'.menu.x, y := d'.menu.y, lit := d'.menu.lit), menuDrag := d'.menuDrag)
            && !d'.menuDrag.active
            && Nearest(d'.menu.x, d.menu.x + LastX(e, ms) - e.x, 0, g.fbW - g.menuW)
            && Nearest(d'.menu.y, d.menu.y + LastY(e, ms) - e.y, 0, g.fbH - g.MenuH())
  {
    MenuCarriedFar(d, g, e, ms);
    EachJoin(d, g, [e] + ms, [up]);
    EachOne(Each(d, g, [e] + ms), g, up);
  }

  /** A press on the pin pins the menu, or takes a pinned one away; a press off an unpinned menu
      takes it away; a pinned one hears nothing of what happens off it. */
  lemma PinsAndGoes(d: Desk, g: Geo, e: Event)
    requires g.Ok() && TableOk(d, g) && d.menu.active && !d.menuDrag.active && e.kind == Down && e.button == Left
    ensures var d', on := Dispatched(d, g, e), d.MenuRect(g).Has(e.x, e.y);
            && (PinRect(d).Has(e.x, e.y) && on ==>
                  d' == d.(menu := if d.menu.pinned then d'.menu else d.menu.(pinned := true))
                  && d'.menu.active == !d.menu.pinned)
            && (!on && !PinRect(d).Has(e.x, e.y) && !d.menu.pinned ==> d' == d.(menu := d'.menu) && !d'.menu.active)
            && (!on && d.menu.pinned ==> d'.menu == d.menu)
  {
  }

  // ---------- keys ----------

  /** Escape takes a menu away; any other key reaches nobody while an unpinned menu shows, and
      otherwise the focused window's subscriber, once, if there is one. */
  lemma KeyGoes(d: Desk, g: Geo, code: int, mods: int)
    requires g.Ok() && TableOk(d, g)
    ensures var d', w := KeyHandled(d, g, code, mods), d.focused;
            if d.menu.active && code == 0x11B then !d'.menu.active && d' == d.(menu := d'.menu)
            else if (d.menu.active && !d.menu.pinned) || !d.Live(w) || d.kbd[w - 1] == 0 then d' == d
            else d' == d.(sent := d'.sent) && OneMore(d.sent, d'.sent) && d'.sent[|d.sent|] == Sent.Key(d.kbd[w - 1], code, mods)
  {
    if d.focused != 0 { assert d.focused in d.z && d.Live(d.focused); }
  }
}
